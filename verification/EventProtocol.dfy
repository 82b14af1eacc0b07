/**
 * The event queue as a concurrent protocol: any number of producers, one consumer, a mutex and a condition variable.
 */
module EventProtocol {
  import opened Events

  // ---------- States ----------

  /** Where a thread that calls `eventq_push` or `eventq_stop` is. */
  datatype Producer =
    | Idle
    | PushWait(e: Ev)  // about to lock
    | PushHeld(e: Ev)  // holds the lock
    | PushLinked       // the event is in the queue, not yet signalled
    | StopWait
    | StopHeld
    | StopCleared      // `running` is false, not yet signalled
    | Signalled        // about to unlock

  /** Where `eventq_loop` is. */
  datatype Consumer =
    | Starting          // about to lock for the first time
    | Testing           // holds the lock, at the tests of the loop
    | Dequeued(e: Ev)   // holds the lock, about to process e
    | Dispatched(e: Ev) // holds the lock, about to free e
    | Parked            // in `pthread_cond_wait`, not woken
    | Woken             // woken, about to lock again
    | Exited

  datatype Holder = Free | ByConsumer | ByProducer(i: nat)

  /** The shared state and the threads, followed by the history. */
  datatype State = State(
    lock: Holder, running: bool, pending: seq<Ev>, consumer: Consumer, producers: seq<Producer>, nextId: nat,
    pushed: seq<Ev>, dispatched: seq<Ev>, freed: seq<Ev>, calls: seq<Callback>)

  // ---------- Steps ----------

  datatype Step =
    | CallPush(i: nat, event: nat, kind: nat)
    | CallStop(i: nat)
    | ProducerLock(i: nat)
    | Link(i: nat)
    | Clear(i: nat)
    | Signal(i: nat)
    | ProducerUnlock(i: nat)
    | ConsumerLock
    | Wait
    | SpuriousWake
    | Take
    | Process
    | Release
    | Exit

  predicate IsConsumerStep(step: Step) {
    step.ConsumerLock? || step.Wait? || step.Take? || step.Process? || step.Release? || step.Exit?
  }

  predicate Enabled(s: State, step: Step) {
    match step
    case CallPush(i, _, _) => i < |s.producers| && s.producers[i].Idle?
    case CallStop(i) => i < |s.producers| && s.producers[i].Idle?
    case ProducerLock(i) =>
      i < |s.producers| && (s.producers[i].PushWait? || s.producers[i].StopWait?) && s.lock.Free? && !s.consumer.Exited?
    case Link(i) => i < |s.producers| && s.producers[i].PushHeld?
    case Clear(i) => i < |s.producers| && s.producers[i].StopHeld?
    case Signal(i) => i < |s.producers| && (s.producers[i].PushLinked? || s.producers[i].StopCleared?)
    case ProducerUnlock(i) => i < |s.producers| && s.producers[i].Signalled?
    case ConsumerLock => (s.consumer.Starting? || s.consumer.Woken?) && s.lock.Free?
    case Wait => s.consumer.Testing? && s.pending == [] && s.running
    case SpuriousWake => s.consumer.Parked?
    case Take => s.consumer.Testing? && s.running && s.pending != []
    case Process => s.consumer.Dequeued?
    case Release => s.consumer.Dispatched?
    case Exit => s.consumer.Testing? && !s.running
  }

  function Apply(s: State, step: Step): State
    requires Enabled(s, step)
  {
    match step
    case CallPush(i, event, kind) =>
      s.(producers := s.producers[i := PushWait(Ev(s.nextId, event, kind))], nextId := s.nextId + 1)
    case CallStop(i) =>
      s.(producers := s.producers[i := StopWait])
    case ProducerLock(i) =>
      s.(producers := s.producers[i := if s.producers[i].PushWait? then PushHeld(s.producers[i].e) else StopHeld],
         lock := ByProducer(i))
    case Link(i) =>
      s.(producers := s.producers[i := PushLinked], pending := s.pending + [s.producers[i].e],
         pushed := s.pushed + [s.producers[i].e])
    case Clear(i) =>
      s.(producers := s.producers[i := StopCleared], running := false)
    case Signal(i) =>
      s.(producers := s.producers[i := Signalled], consumer := if s.consumer.Parked? then Woken else s.consumer)
    case ProducerUnlock(i) =>
      s.(producers := s.producers[i := Idle], lock := Free)
    case ConsumerLock =>
      s.(consumer := Testing, lock := ByConsumer)
    case Wait =>
      s.(consumer := Parked, lock := Free)
    case SpuriousWake =>
      s.(consumer := Woken)
    case Take =>
      s.(consumer := Dequeued(s.pending[0]), pending := s.pending[1..])
    case Process =>
      s.(consumer := Dispatched(s.consumer.e), dispatched := s.dispatched + [s.consumer.e],
         calls := s.calls + Dispatch(s.consumer.e))
    case Release =>
      s.(consumer := Testing, freed := s.freed + [s.consumer.e])
    case Exit =>
      s.(consumer := Exited, lock := Free)
  }

  /** The queue as `eventq_start` hands it to the loop thread; events may have been pushed before. */
  predicate Init(s: State) {
    && s.lock.Free? && s.running && s.consumer.Starting? && s.pushed == s.pending
    && s.dispatched == [] && s.freed == [] && s.calls == []
    && (forall i :: 0 <= i < |s.producers| ==> s.producers[i].Idle?)
    && (forall a :: 0 <= a < |s.pushed| ==> s.pushed[a].id < s.nextId)
    && (forall a, b :: 0 <= a < b < |s.pushed| ==> s.pushed[a].id != s.pushed[b].id)
  }

  ghost predicate CanRun(s: State, steps: seq<Step>)
    decreases |steps|
  {
    steps == [] || (Enabled(s, steps[0]) && CanRun(Apply(s, steps[0]), steps[1..]))
  }

  ghost function Run(s: State, steps: seq<Step>): State
    requires CanRun(s, steps)
    decreases |steps|
  {
    if steps == [] then s else Run(Apply(s, steps[0]), steps[1..])
  }

  // ---------- The invariant ----------

  predicate Holding(p: Producer) {
    p.PushHeld? || p.PushLinked? || p.StopHeld? || p.StopCleared? || p.Signalled?
  }

  /** Has changed what the consumer waits for, and not yet said so. */
  predicate Owes(p: Producer) {
    p.PushLinked? || p.StopCleared?
  }

  predicate ConsumerHolds(c: Consumer) {
    c.Testing? || c.Dequeued? || c.Dispatched?
  }

  predicate CarriesEvent(p: Producer) {
    p.PushWait? || p.PushHeld?
  }

  /** Mutual exclusion: the threads in a critical section are the one the lock names. */
  ghost predicate Exclusion(s: State) {
    && (s.lock.ByConsumer? <==> ConsumerHolds(s.consumer))
    && forall i :: 0 <= i < |s.producers| ==> (Holding(s.producers[i]) <==> s.lock == ByProducer(i))
  }

  function InFlight(c: Consumer): seq<Ev> {
    if c.Dequeued? then [c.e] else []
  }

  function ToFree(c: Consumer): seq<Ev> {
    if c.Dispatched? then [c.e] else []
  }

  ghost predicate Fifo(s: State) {
    && s.pushed == s.dispatched + InFlight(s.consumer) + s.pending
    && s.dispatched == s.freed + ToFree(s.consumer)
    && s.calls == DispatchAll(s.dispatched)
  }

  /** A parked consumer has nothing to do, unless the lock holder is about to wake it. */
  ghost predicate NoLostWakeup(s: State) {
    s.consumer.Parked? ==>
      || (s.pending == [] && s.running)
      || (s.lock.ByProducer? && s.lock.i < |s.producers| && Owes(s.producers[s.lock.i]))
  }

  /** The consumer works only while running, and leaves only when stopped. */
  predicate StopRespected(s: State) {
    && (s.consumer.Dequeued? || s.consumer.Dispatched? ==> s.running)
    && (s.consumer.Exited? ==> !s.running)
  }

  ghost predicate Fresh(s: State) {
    && (forall a :: 0 <= a < |s.pushed| ==> s.pushed[a].id < s.nextId)
    && (forall a, b :: 0 <= a < b < |s.pushed| ==> s.pushed[a].id != s.pushed[b].id)
    && (forall i :: 0 <= i < |s.producers| && CarriesEvent(s.producers[i]) ==> s.producers[i].e.id < s.nextId)
    && (forall i, a :: 0 <= i < |s.producers| && CarriesEvent(s.producers[i]) && 0 <= a < |s.pushed| ==>
          s.producers[i].e.id != s.pushed[a].id)
    && (forall i, j :: 0 <= i < j < |s.producers| && CarriesEvent(s.producers[i]) && CarriesEvent(s.producers[j]) ==>
          s.producers[i].e.id != s.producers[j].e.id)
  }

  ghost predicate Inv(s: State) {
    Exclusion(s) && Fifo(s) && NoLostWakeup(s) && StopRespected(s) && Fresh(s)
  }

  lemma InitInv(s: State)
    requires Init(s)
    ensures Inv(s)
  {
  }

  lemma ExclusionKept(s: State, step: Step)
    requires Exclusion(s) && Enabled(s, step)
    ensures Exclusion(Apply(s, step))
  {
  }

  lemma FifoKept(s: State, step: Step)
    requires Fifo(s) && Enabled(s, step)
    ensures Fifo(Apply(s, step))
  {
    hide DispatchAll, Dispatch;
    if step.Process? {
      DispatchOneMore(s.dispatched, s.consumer.e);
    }
  }

  lemma WakeupKept(s: State, step: Step)
    requires Exclusion(s) && NoLostWakeup(s) && Enabled(s, step)
    ensures NoLostWakeup(Apply(s, step))
  {
  }

  lemma StopKept(s: State, step: Step)
    requires Exclusion(s) && StopRespected(s) && Enabled(s, step)
    ensures StopRespected(Apply(s, step))
  {
  }

  lemma FreshKept(s: State, step: Step)
    requires Fresh(s) && Enabled(s, step)
    ensures Fresh(Apply(s, step))
  {
    var t := Apply(s, step);
    if step.CallPush? {
      FreshAllocated(s, t, step.i);
    } else if step.Link? {
      FreshPushed(s, t, step.i);
    } else {
      FreshUnchanged(s, t);
    }
  }

  /** No thread carries an event it did not carry before. */
  lemma FreshUnchanged(s: State, t: State)
    requires Fresh(s) && t.pushed == s.pushed && t.nextId == s.nextId && |t.producers| == |s.producers|
    requires forall i :: 0 <= i < |t.producers| && CarriesEvent(t.producers[i]) ==>
               CarriesEvent(s.producers[i]) && t.producers[i].e == s.producers[i].e
    ensures Fresh(t)
  {
  }

  lemma FreshAllocated(s: State, t: State, i: nat)
    requires Fresh(s) && i < |s.producers| && t.pushed == s.pushed && t.nextId == s.nextId + 1
    requires |t.producers| == |s.producers|
    requires CarriesEvent(t.producers[i]) && t.producers[i].e.id == s.nextId
    requires forall j :: 0 <= j < |s.producers| && j != i ==> t.producers[j] == s.producers[j]
    ensures Fresh(t)
  {
  }

  lemma FreshPushed(s: State, t: State, i: nat)
    requires Fresh(s) && i < |s.producers| && CarriesEvent(s.producers[i]) && t.nextId == s.nextId
    requires t.pushed == s.pushed + [s.producers[i].e] && |t.producers| == |s.producers|
    requires !CarriesEvent(t.producers[i])
    requires forall j :: 0 <= j < |s.producers| && j != i ==> t.producers[j] == s.producers[j]
    ensures Fresh(t)
  {
    assert forall a :: 0 <= a < |s.pushed| ==> s.pushed[a].id != s.producers[i].e.id;
  }

  /** Every step of every thread keeps the invariant. */
  lemma StepInv(s: State, step: Step)
    requires Inv(s) && Enabled(s, step)
    ensures Inv(Apply(s, step))
  {
    hide Exclusion, Fifo, NoLostWakeup, StopRespected, Fresh, Enabled, Apply;
    ExclusionKept(s, step);
    FifoKept(s, step);
    WakeupKept(s, step);
    StopKept(s, step);
    FreshKept(s, step);
  }

  lemma {:induction false} RunInv(s: State, steps: seq<Step>)
    requires Inv(s) && CanRun(s, steps)
    ensures Inv(Run(s, steps))
    decreases |steps|
  {
    hide Inv, Apply, Enabled;
    if steps != [] {
      StepInv(s, steps[0]);
      RunInv(Apply(s, steps[0]), steps[1..]);
    }
  }

  // ---------- What holds of every run ----------

  /**
   * In every interleaving events are processed once each, in the order pushed, and what is left over is the pending
   * suffix.
   */
  lemma FifoExactlyOnce(s0: State, steps: seq<Step>)
    requires Init(s0) && CanRun(s0, steps)
    ensures var s := Run(s0, steps);
            && s.pushed == s.dispatched + InFlight(s.consumer) + s.pending
            && s.dispatched == s.freed + ToFree(s.consumer)
            && s.calls == DispatchAll(s.dispatched)
            && forall a, b :: 0 <= a < b < |s.pushed| ==> s.pushed[a] != s.pushed[b]
  {
    InitInv(s0);
    RunInv(s0, steps);
  }

  // ---------- From request to callback ----------

  /** Signals of a kind that threads have created and not yet put into the queue. */
  function Carried(ps: seq<Producer>, kind: nat): nat {
    if ps == [] then 0 else Carried(ps[..|ps| - 1], kind) + CarriedBy(ps[|ps| - 1], kind)
  }

  function CarriedBy(p: Producer, kind: nat): nat {
    if CarriesEvent(p) then Signals([p.e], kind) else 0
  }

  /** How often the steps ask for a signal of a kind. */
  function Requests(steps: seq<Step>, kind: nat): nat {
    if steps == [] then 0 else RequestedBy(steps[0], kind) + Requests(steps[1..], kind)
  }

  function RequestedBy(step: Step, kind: nat): nat {
    if step.CallPush? && step.event == 1 && step.kind == kind then 1 else 0
  }

  /** The signals of a kind anywhere between a request and the callback. */
  function Underway(s: State, kind: nat): nat {
    Signals(s.pending, kind) + Signals(InFlight(s.consumer), kind) + Carried(s.producers, kind)
  }

  lemma {:induction false} CarriedUpdate(ps: seq<Producer>, i: nat, p: Producer, kind: nat)
    requires i < |ps|
    ensures Carried(ps[i := p], kind) == Carried(ps, kind) - CarriedBy(ps[i], kind) + CarriedBy(p, kind)
  {
    hide CarriedBy;
    var n, qs := |ps| - 1, ps[i := p];
    if i < n {
      CarriedUpdate(ps[..n], i, p, kind);
      assert qs[..n] == ps[..n][i := p];
    } else {
      assert qs[..n] == ps[..n];
    }
  }

  lemma {:induction false} NothingCarried(ps: seq<Producer>, kind: nat)
    requires forall i :: 0 <= i < |ps| ==> !CarriesEvent(ps[i])
    ensures Carried(ps, kind) == 0
  {
    if ps != [] {
      NothingCarried(ps[..|ps| - 1], kind);
    }
  }

  /** No step loses a signal, makes one up, or turns it into another. */
  lemma SignalsKept(s: State, step: Step, kind: nat)
    requires Enabled(s, step)
    ensures var t := Apply(s, step);
            Signals(t.dispatched, kind) + Underway(t, kind)
            == Signals(s.dispatched, kind) + Underway(s, kind) + RequestedBy(step, kind)
  {
    hide Carried;
    var t := Apply(s, step);
    match step
    case CallPush(i, _, _) =>
      CarriedUpdate(s.producers, i, t.producers[i], kind);
      SignalsOneMore([], t.producers[i].e, kind);
      assert [] + [t.producers[i].e] == [t.producers[i].e];
    case CallStop(i) => CarriedUpdate(s.producers, i, t.producers[i], kind);
    case ProducerLock(i) => CarriedUpdate(s.producers, i, t.producers[i], kind);
    case Link(i) =>
      CarriedUpdate(s.producers, i, t.producers[i], kind);
      SignalsJoined(s.pending, [s.producers[i].e], kind);
    case Clear(i) => CarriedUpdate(s.producers, i, t.producers[i], kind);
    case Signal(i) => CarriedUpdate(s.producers, i, t.producers[i], kind);
    case ProducerUnlock(i) => CarriedUpdate(s.producers, i, t.producers[i], kind);
    case Take =>
      assert s.pending == [s.pending[0]] + s.pending[1..];
      SignalsJoined([s.pending[0]], s.pending[1..], kind);
    case Process => SignalsJoined(s.dispatched, [s.consumer.e], kind);
    case _ =>
  }

  lemma {:induction false} RunKeepsSignals(s: State, steps: seq<Step>, kind: nat)
    requires CanRun(s, steps)
    ensures var t := Run(s, steps);
            Signals(t.dispatched, kind) + Underway(t, kind)
            == Signals(s.dispatched, kind) + Underway(s, kind) + Requests(steps, kind)
    decreases |steps|
  {
    hide Apply, Enabled, Underway, RequestedBy;
    if steps != [] {
      SignalsKept(s, steps[0], kind);
      RunKeepsSignals(Apply(s, steps[0]), steps[1..], kind);
    }
  }

  /**
   * In every interleaving each request is on its way or has led to its own callback: the callbacks made and the
   * signals underway are together what was asked for.
   */
  lemma CallbacksOfRun(s0: State, steps: seq<Step>)
    requires Init(s0) && CanRun(s0, steps)
    ensures var s := Run(s0, steps);
            && Times(s.calls, GlassStartup) == Signals(s.dispatched, 2)
            && Signals(s.dispatched, 2) + Underway(s, 2) == Signals(s0.pending, 2) + Requests(steps, 2)
            && Times(s.calls, GlassShutdown) == Signals(s.dispatched, 3)
            && Signals(s.dispatched, 3) + Underway(s, 3) == Signals(s0.pending, 3) + Requests(steps, 3)
            && Times(s.calls, ShowIME) == Signals(s.dispatched, 4)
            && Signals(s.dispatched, 4) + Underway(s, 4) == Signals(s0.pending, 4) + Requests(steps, 4)
            && Times(s.calls, HideIME) == Signals(s.dispatched, 5)
            && Signals(s.dispatched, 5) + Underway(s, 5) == Signals(s0.pending, 5) + Requests(steps, 5)
            && |s.calls| == Times(s.calls, GlassStartup) + Times(s.calls, GlassShutdown) + Times(s.calls, ShowIME)
                            + Times(s.calls, HideIME)
  {
    hide Apply, Enabled, CanRun, Run, Requests, Times, DispatchAll, Signals, Carried;
    FifoExactlyOnce(s0, steps);
    CallbacksCounted(Run(s0, steps).dispatched);
    forall kind: nat
      ensures Signals(Run(s0, steps).dispatched, kind) + Underway(Run(s0, steps), kind)
              == Signals(s0.pending, kind) + Requests(steps, kind)
    {
      RunKeepsSignals(s0, steps, kind);
      NothingCarried(s0.producers, kind);
      NoSignals(kind);
    }
  }

  lemma NoSignals(kind: nat)
    ensures Signals([], kind) == 0
  {
  }

  /**
   * No wake-up is lost: a consumer that stays parked although no signal is on its way has an empty queue and was not
   * stopped.
   */
  lemma ParkedMeansIdle(s0: State, steps: seq<Step>)
    requires Init(s0) && CanRun(s0, steps)
    ensures var s := Run(s0, steps);
            s.consumer.Parked? && (forall i :: 0 <= i < |s.producers| ==> !Owes(s.producers[i])) ==>
              s.pending == [] && s.running
  {
    InitInv(s0);
    RunInv(s0, steps);
  }

  /** Whenever there is work or a stop and no producer is inside the queue, the consumer can take a step. */
  lemma ConsumerCanMove(s0: State, steps: seq<Step>)
    requires Init(s0) && CanRun(s0, steps)
    ensures var s := Run(s0, steps);
            (s.pending != [] || !s.running) && !s.consumer.Exited? && !s.lock.ByProducer? ==>
              exists step :: IsConsumerStep(step) && Enabled(s, step)
  {
    InitInv(s0);
    RunInv(s0, steps);
    var s := Run(s0, steps);
    if (s.pending != [] || !s.running) && !s.consumer.Exited? && !s.lock.ByProducer? {
      var step :=
        match s.consumer
        case Testing => if s.running then Take else Exit
        case Dequeued(_) => Process
        case Dispatched(_) => Release
        case _ => ConsumerLock;
      assert Enabled(s, step);
    }
  }

  /** At most one thread is inside the queue. */
  lemma MutualExclusion(s0: State, steps: seq<Step>, i: int, j: int)
    requires Init(s0) && CanRun(s0, steps)
    requires var s := Run(s0, steps); 0 <= i < |s.producers| && 0 <= j < |s.producers|
    ensures var s := Run(s0, steps);
            && (Holding(s.producers[i]) ==> !ConsumerHolds(s.consumer))
            && (Holding(s.producers[i]) && Holding(s.producers[j]) ==> i == j)
  {
    InitInv(s0);
    RunInv(s0, steps);
    assert Exclusion(Run(s0, steps));
  }

  /** Once stopped, nothing is processed or freed any more, however long the run goes on. */
  lemma {:induction false} NothingAfterStop(s: State, steps: seq<Step>)
    requires Inv(s) && !s.running && CanRun(s, steps)
    ensures var t := Run(s, steps);
            && !t.running && t.dispatched == s.dispatched && t.freed == s.freed && t.calls == s.calls
            && t.pushed == t.dispatched + t.pending
    decreases |steps|
  {
    if steps != [] {
      StepInv(s, steps[0]);
      NothingAfterStop(Apply(s, steps[0]), steps[1..]);
    }
  }

  /**
   * The critical section of a stop, reached in any way, is such a point; the events it drops are exactly the pending
   * ones.
   */
  lemma StopDropsPending(s0: State, before: seq<Step>, i: nat, after: seq<Step>)
    requires Init(s0) && CanRun(s0, before) && Enabled(Run(s0, before), Clear(i))
    requires CanRun(Apply(Run(s0, before), Clear(i)), after)
    ensures var t := Run(Apply(Run(s0, before), Clear(i)), after);
            && t.dispatched == t.freed == Run(s0, before).dispatched
            && |t.dispatched| <= |t.pushed| && t.pending == t.pushed[|t.dispatched|..]
  {
    InitInv(s0);
    RunInv(s0, before);
    var s := Run(s0, before);
    StepInv(s, Clear(i));
    NothingAfterStop(Apply(s, Clear(i)), after);
    RunInv(Apply(s, Clear(i)), after);
  }

  // ---------- Draining ----------

  /** The consumer's steps left before it gives up the lock. */
  function Work(s: State): nat {
    3 * |s.pending| + (if s.consumer.Dequeued? then 2 else if s.consumer.Dispatched? then 1 else 0)
  }

  /** The consumer keeps the lock all along the steps and gives it up with the last one. */
  ghost predicate HoldsUntilEnd(s: State, steps: seq<Step>)
    requires CanRun(s, steps)
    decreases |steps|
  {
    && s.lock.ByConsumer? && steps != []
    && (|steps| == 1 ==> !Apply(s, steps[0]).lock.ByConsumer?)
    && (|steps| > 1 ==> HoldsUntilEnd(Apply(s, steps[0]), steps[1..]))
  }

  function ConsumerSteps(steps: seq<Step>): nat {
    if steps == [] then 0 else (if IsConsumerStep(steps[0]) then 1 else 0) + ConsumerSteps(steps[1..])
  }

  /**
   * While the consumer holds the lock, others change neither the queue nor the history, and its own steps reduce the
   * work.
   */
  lemma WorkDecreases(s: State, step: Step)
    requires Inv(s) && Enabled(s, step) && s.lock.ByConsumer? && s.running
    ensures var t := Apply(s, step);
            && t.pushed == s.pushed && t.running
            && (t.lock.ByConsumer? ==> Work(t) == Work(s) - if IsConsumerStep(step) then 1 else 0)
            && (!t.lock.ByConsumer? ==> step.Wait? && s.pending == [])
  {
    assert forall i :: 0 <= i < |s.producers| ==> !Holding(s.producers[i]);
  }

  /**
   * Once it has the lock and `running` is set, the consumer processes and frees everything that was pending before it
   * lets go of the lock, after exactly the steps that this takes, whatever other threads do meanwhile.
   */
  lemma {:induction false} DrainsBeforeReleasing(s: State, steps: seq<Step>)
    requires Inv(s) && s.running && CanRun(s, steps) && HoldsUntilEnd(s, steps)
    ensures var t := Run(s, steps);
            && t.pending == [] && t.pushed == s.pushed
            && t.dispatched == t.freed == s.dispatched + InFlight(s.consumer) + s.pending
            && ConsumerSteps(steps) == Work(s) + 1
    decreases |steps|
  {
    hide Inv, Enabled, Apply;
    var t := Apply(s, steps[0]);
    WorkDecreases(s, steps[0]);
    StepInv(s, steps[0]);
    FifoOf(s);
    FifoOf(t);
    if |steps| > 1 {
      DrainsBeforeReleasing(t, steps[1..]);
    } else {
      LastStep(s, steps[0]);
      assert steps[1..] == [];
    }
  }

  lemma FifoOf(s: State)
    requires Inv(s)
    ensures s.pushed == s.dispatched + InFlight(s.consumer) + s.pending
  {
  }

  lemma LastStep(s: State, step: Step)
    requires Inv(s) && Enabled(s, step) && step.Wait?
    ensures Work(s) == 0 && Apply(s, step) == s.(consumer := Parked, lock := Free) && s.dispatched == s.freed
  {
  }

  /** While it holds the lock the consumer is never stuck. */
  lemma NeverStuckWithLock(s: State)
    requires Inv(s) && s.lock.ByConsumer?
    ensures exists step :: IsConsumerStep(step) && !step.ConsumerLock? && Enabled(s, step)
  {
    var step :=
      match s.consumer
      case Dequeued(_) => Process
      case Dispatched(_) => Release
      case _ => if !s.running then Exit else if s.pending == [] then Wait else Take;
    assert Enabled(s, step);
  }

  // ---------- The linked queue under the protocol ----------

  /** The heap queue stands for the pending events and the running flag of a state. */
  ghost predicate Represents(q: EventQueue, s: State)
    reads q, q.nodes
  {
    q.Valid() && q.Contents() == s.pending && q.running == s.running
  }

  /**
   * Along every run the linked list kept by `EventQueue.Push` and `EventQueue.Pop` represents the state, and what `Pop`
   * has returned are, in order, the events that were dispatched or are in flight.
   */
  method RunOnHeap(s0: State, steps: seq<Step>) returns (q: EventQueue, s: State, popped: seq<Ev>)
    requires Init(s0) && CanRun(s0, steps)
    ensures s == Run(s0, steps) && Represents(q, s) && fresh(q) && fresh(q.nodes)
    ensures popped == s.dispatched + InFlight(s.consumer)
  {
    hide Apply, Enabled, EventQueue.Valid, Values;
    q := PushAll(s0.pending);
    s, popped := s0, [];
    var k := 0;
    assert steps[k..] == steps;
    while k < |steps|
      invariant 0 <= k <= |steps| && CanRun(s, steps[k..]) && Run(s, steps[k..]) == Run(s0, steps)
      invariant Represents(q, s) && fresh(q) && fresh(q.nodes)
      invariant popped == s.dispatched + InFlight(s.consumer)
    {
      assert steps[k..][0] == steps[k] && steps[k..][1..] == steps[k + 1..];
      var e := StepOnHeap(q, s, steps[k]);
      TakenInOrder(s, steps[k], e);
      popped := popped + e;
      s := Apply(s, steps[k]);
      k := k + 1;
    }
    assert steps[k..] == [];
  }

  /** A queue with the events pushed before the loop was started. */
  method PushAll(es: seq<Ev>) returns (q: EventQueue)
    ensures q.Valid() && q.Contents() == es && q.running && fresh(q) && fresh(q.nodes)
  {
    q := new EventQueue();
    for i := 0 to |es|
      invariant q.Valid() && q.Contents() == es[..i] && q.running && fresh(q) && fresh(q.nodes)
    {
      var n := new Node(es[i].id, es[i].event, es[i].kind);
      q.Push(n);
    }
    assert es[..|es|] == es;
  }

  /** The heap's part of a step; `popped` is what `Pop` returned, if it was called. */
  method StepOnHeap(q: EventQueue, s: State, step: Step) returns (popped: seq<Ev>)
    requires Represents(q, s) && Enabled(s, step)
    modifies q, q.nodes
    ensures Represents(q, Apply(s, step)) && fresh(set n | n in q.nodes && n !in old(q.nodes))
    ensures popped == if step.Take? then [s.pending[0]] else []
  {
    popped := [];
    if step.Link? {
      var e := s.producers[step.i].e;
      var n := new Node(e.id, e.event, e.kind);
      q.Push(n);
    } else if step.Take? {
      var n := q.Pop();
      popped := [n.Value()];
    } else if step.Clear? {
      q.running := false;
    }
  }

  lemma TakenInOrder(s: State, step: Step, popped: seq<Ev>)
    requires Enabled(s, step) && popped == if step.Take? then [s.pending[0]] else []
    ensures var t := Apply(s, step);
            t.dispatched + InFlight(t.consumer) == s.dispatched + InFlight(s.consumer) + popped
  {
  }
}
