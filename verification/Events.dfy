/** Events, their callbacks, and the linked queue that keeps them. */
module Events {

  const SIGNAL_EVENT := 1
  const SIGNAL_STARTUP := 2
  const SIGNAL_SHUTDOWN := 3
  const SIGNAL_SHOW_IME := 4
  const SIGNAL_HIDE_IME := 5

  /** An event as a value; `id` numbers the allocations. */
  datatype Ev = Ev(id: nat, event: nat, kind: nat)

  datatype Callback = GlassStartup | GlassShutdown | ShowIME | HideIME

  /** The callbacks made for an event: one for a known signal, none for anything else. */
  function Dispatch(e: Ev): seq<Callback> {
    if e.event != SIGNAL_EVENT then []
    else if e.kind == SIGNAL_STARTUP then [GlassStartup]
    else if e.kind == SIGNAL_SHUTDOWN then [GlassShutdown]
    else if e.kind == SIGNAL_SHOW_IME then [ShowIME]
    else if e.kind == SIGNAL_HIDE_IME then [HideIME]
    else []
  }

  function DispatchAll(es: seq<Ev>): seq<Callback> {
    if es == [] then [] else DispatchAll(es[..|es| - 1]) + Dispatch(es[|es| - 1])
  }

  lemma NothingDispatched()
    ensures DispatchAll([]) == []
  {
  }

  lemma DispatchOneMore(es: seq<Ev>, e: Ev)
    ensures DispatchAll(es + [e]) == DispatchAll(es) + Dispatch(e)
  {
    assert (es + [e])[..|es|] == es;
  }

  /** How many of the events are signals of a kind. */
  function Signals(es: seq<Ev>, kind: nat): nat {
    if es == [] then 0
    else
      var last := es[|es| - 1];
      Signals(es[..|es| - 1], kind) + if last.event == 1 && last.kind == kind then 1 else 0
  }

  lemma SignalsOneMore(es: seq<Ev>, e: Ev, kind: nat)
    ensures Signals(es + [e], kind) == Signals(es, kind) + if e.event == 1 && e.kind == kind then 1 else 0
  {
    assert (es + [e])[..|es|] == es;
  }

  lemma {:induction false} SignalsJoined(es: seq<Ev>, fs: seq<Ev>, kind: nat)
    ensures Signals(es + fs, kind) == Signals(es, kind) + Signals(fs, kind)
  {
    if fs == [] {
      assert es + fs == es;
    } else {
      var init, last := fs[..|fs| - 1], fs[|fs| - 1];
      SignalsJoined(es, init, kind);
      assert es + fs == (es + init) + [last] && fs == init + [last];
      SignalsOneMore(es + init, last, kind);
    }
  }

  /** How often a callback occurs. */
  function Times(calls: seq<Callback>, c: Callback): nat {
    multiset(calls)[c]
  }

  lemma NoCallbacks()
    ensures forall c :: Times([], c) == 0
  {
  }

  lemma TimesJoined(a: seq<Callback>, b: seq<Callback>)
    ensures forall c :: Times(a + b, c) == Times(a, c) + Times(b, c)
  {
  }

  /** What a single event causes. */
  lemma OneDispatch(e: Ev)
    ensures Times(Dispatch(e), GlassStartup) == if e.event == 1 && e.kind == 2 then 1 else 0
    ensures Times(Dispatch(e), GlassShutdown) == if e.event == 1 && e.kind == 3 then 1 else 0
    ensures Times(Dispatch(e), ShowIME) == if e.event == 1 && e.kind == 4 then 1 else 0
    ensures Times(Dispatch(e), HideIME) == if e.event == 1 && e.kind == 5 then 1 else 0
    ensures |Dispatch(e)| == if e.event == 1 && 2 <= e.kind <= 5 then 1 else 0
  {
  }

  /**
   * Each callback is made once for every signal of its kind: 2 for startup, 3 for shutdown, 4 and 5 to show and hide
   * the keyboard. Nothing else causes a callback.
   */
  lemma {:induction false} CallbacksCounted(es: seq<Ev>)
    ensures Times(DispatchAll(es), GlassStartup) == Signals(es, 2)
    ensures Times(DispatchAll(es), GlassShutdown) == Signals(es, 3)
    ensures Times(DispatchAll(es), ShowIME) == Signals(es, 4)
    ensures Times(DispatchAll(es), HideIME) == Signals(es, 5)
    ensures |DispatchAll(es)| == Signals(es, 2) + Signals(es, 3) + Signals(es, 4) + Signals(es, 5)
  {
    hide Dispatch, Times;
    if es == [] {
      NoCallbacks();
    } else {
      var init, e := es[..|es| - 1], es[|es| - 1];
      CallbacksCounted(init);
      OneDispatch(e);
      TimesJoined(DispatchAll(init), Dispatch(e));
    }
  }

  /** The signals with a callback, in their order. */
  function Known(es: seq<Ev>): seq<Ev> {
    if es == [] then []
    else
      var last := es[|es| - 1];
      Known(es[..|es| - 1]) + if last.event == 1 && 2 <= last.kind <= 5 then [last] else []
  }

  /** The callbacks come in the order of their signals. */
  lemma {:induction false} CallbacksInOrder(es: seq<Ev>, i: int)
    requires 0 <= i < |DispatchAll(es)|
    ensures |DispatchAll(es)| == |Known(es)|
    ensures var kind := Known(es)[i].kind;
            && (DispatchAll(es)[i] == GlassStartup <==> kind == 2)
            && (DispatchAll(es)[i] == GlassShutdown <==> kind == 3)
            && (DispatchAll(es)[i] == ShowIME <==> kind == 4) && (DispatchAll(es)[i] == HideIME <==> kind == 5)
  {
    var init := es[..|es| - 1];
    if i < |DispatchAll(init)| {
      CallbacksInOrder(init, i);
    } else {
      AsManyCallbacks(init);
    }
  }

  lemma {:induction false} AsManyCallbacks(es: seq<Ev>)
    ensures |DispatchAll(es)| == |Known(es)|
  {
    if es != [] {
      AsManyCallbacks(es[..|es| - 1]);
    }
  }

  /** A node of the queue. `prev` leads to the next younger event, `next` to the next older one. */
  class Node {
    const id: nat
    const event: nat
    const kind: nat
    var prev: Node?
    var next: Node?

    /** `createSignalEvent` makes one with `SIGNAL_EVENT`; the links start out null. */
    constructor (id: nat, event: nat, kind: nat)
      ensures Value() == Ev(id, event, kind) && prev == null && next == null
    {
      this.id, this.event, this.kind := id, event, kind;
      prev, next := null, null;
    }

    function Value(): Ev {
      Ev(id, event, kind)
    }
  }

  function Values(nodes: seq<Node>): (vs: seq<Ev>)
    ensures |vs| == |nodes| && forall i :: 0 <= i < |nodes| ==> vs[i] == nodes[i].Value()
  {
    seq(|nodes|, i requires 0 <= i < |nodes| => nodes[i].Value())
  }

  /** The queue under its mutex: a doubly linked list entered at the head and left at the tail. */
  class EventQueue {
    var head: Node?
    var tail: Node?
    var size: nat
    var running: bool
    ghost var nodes: seq<Node> // oldest first

    ghost predicate Valid()
      reads this, nodes
    {
      && size == |nodes|
      && (forall i, j :: 0 <= i < j < |nodes| ==> nodes[i] != nodes[j])
      && (nodes == [] ==> head == null && tail == null)
      && (nodes != [] ==> tail == nodes[0] && head == nodes[|nodes| - 1] && tail.next == null && head.prev == null)
      && (forall i {:trigger nodes[i].prev} :: 0 <= i < |nodes| - 1 ==> nodes[i].prev == nodes[i + 1])
      && (forall i {:trigger nodes[i].next} :: 0 < i < |nodes| ==> nodes[i].next == nodes[i - 1])
    }

    /** The pending events, oldest first. */
    ghost function Contents(): seq<Ev>
      reads this
    {
      Values(nodes)
    }

    /** `eventq_getInstance`, with `running` as `eventq_start` sets it */
    constructor ()
      ensures Valid() && Contents() == [] && running
    {
      head, tail, size, running, nodes := null, null, 0, true, [];
    }

    /** `eventq_push`: a fresh event becomes the youngest. */
    method Push(e: Node)
      requires Valid() && e !in nodes && e.prev == null && e.next == null
      modifies this, nodes, e
      ensures Valid() && nodes == old(nodes) + [e] && running == old(running)
      ensures Contents() == old(Contents()) + [e.Value()]
    {
      if size == 0 {
        head := e;
        tail := e;
      } else {
        head.prev := e;
        e.next := head;
        head := e;
      }
      size := size + 1;
      nodes := nodes + [e];
    }

    /** `eventq_pop`: the oldest event leaves, if there is one. */
    method Pop() returns (back: Node?)
      requires Valid()
      modifies this, nodes
      ensures Valid() && running == old(running)
      ensures old(nodes) == [] ==> back == null && nodes == []
      ensures old(nodes) != [] ==> back == old(nodes)[0] && nodes == old(nodes)[1..]
      ensures Contents() == if old(nodes) == [] then [] else old(Contents())[1..]
    {
      if size == 0 {
        return null;
      }
      back := tail;
      if size == 1 {
        head := null;
        tail := null;
      } else {
        tail := tail.prev;
        tail.next := null;
      }
      size := size - 1;
      nodes := nodes[1..];
    }

    /**
     * What `eventq_loop` does between taking the lock and waiting again, with `running` set: every pending event is
     * taken off, handed to `eventHandler_process` and freed, in order, until none is left.
     */
    method Drain(calls: seq<Callback>) returns (calls': seq<Callback>, ghost freed: seq<Node>)
      requires Valid() && running
      modifies this, nodes
      ensures Valid() && running && Contents() == []
      ensures freed == old(nodes)
      ensures calls' == calls + DispatchAll(old(Contents()))
      ensures Times(calls', GlassStartup) == Times(calls, GlassStartup) + Signals(old(Contents()), 2)
      ensures Times(calls', GlassShutdown) == Times(calls, GlassShutdown) + Signals(old(Contents()), 3)
      ensures Times(calls', ShowIME) == Times(calls, ShowIME) + Signals(old(Contents()), 4)
      ensures Times(calls', HideIME) == Times(calls, HideIME) + Signals(old(Contents()), 5)
    {
      hide Valid, Values, DispatchAll, Dispatch;
      calls', freed := calls, [];
      ghost var all, k := nodes, 0;
      NothingDispatched();
      assert Values(all[..k]) == [];
      while size != 0
        invariant Valid() && running && 0 <= k <= |all| && nodes == all[k..] && freed == all[..k]
        invariant calls' == calls + DispatchAll(Values(all[..k]))
        decreases |nodes|
      {
        SizeIsCount();
        assert forall i :: 0 <= i < |nodes| ==> nodes[i] == all[k + i];
        var e := Pop();
        calls' := calls' + Dispatch(e.Value());
        assert Values(all[..k + 1]) == Values(all[..k]) + [e.Value()];
        DispatchOneMore(Values(all[..k]), e.Value());
        freed := freed + [e];
        k := k + 1;
      }
      SizeIsCount();
      assert all[..k] == all;
      CallbacksCounted(Values(all));
    }

    /** `eventq_stop` */
    method Stop()
      modifies `running
      ensures !running
    {
      running := false;
    }

    /** A signal made by `createSignalEvent` and pushed. */
    method PushSignal(id: nat, kind: nat)
      requires Valid()
      modifies this, nodes
      ensures Valid() && running == old(running) && fresh(set n | n in nodes && n !in old(nodes))
      ensures Contents() == old(Contents()) + [Ev(id, 1, kind)]
    {
      var e := new Node(id, SIGNAL_EVENT, kind);
      Push(e);
    }

    /** `android_notifyGlassStarted` */
    method NotifyGlassStarted(id: nat)
      requires Valid()
      modifies this, nodes
      ensures Valid() && running == old(running) && fresh(set n | n in nodes && n !in old(nodes))
      ensures Contents() == old(Contents()) + [Ev(id, 1, 2)]
    {
      PushSignal(id, SIGNAL_STARTUP);
    }

    /** `android_notifyGlassShutdown`, which also stops the loop */
    method NotifyGlassShutdown(id: nat)
      requires Valid()
      modifies this, nodes
      ensures Valid() && !running && fresh(set n | n in nodes && n !in old(nodes))
      ensures Contents() == old(Contents()) + [Ev(id, 1, 3)]
    {
      PushSignal(id, SIGNAL_SHUTDOWN);
      Stop();
    }

    /** `android_notifyShowIME` */
    method NotifyShowIME(id: nat)
      requires Valid()
      modifies this, nodes
      ensures Valid() && running == old(running) && fresh(set n | n in nodes && n !in old(nodes))
      ensures Contents() == old(Contents()) + [Ev(id, 1, 4)]
    {
      PushSignal(id, SIGNAL_SHOW_IME);
    }

    /** `android_notifyHideIME` */
    method NotifyHideIME(id: nat)
      requires Valid()
      modifies this, nodes
      ensures Valid() && running == old(running) && fresh(set n | n in nodes && n !in old(nodes))
      ensures Contents() == old(Contents()) + [Ev(id, 1, 5)]
    {
      PushSignal(id, SIGNAL_HIDE_IME);
    }

    /** The notification that asks for a callback. */
    method Notify(id: nat, c: Callback)
      requires Valid()
      modifies this, nodes
      ensures Valid() && running == (old(running) && c != GlassShutdown)
      ensures fresh(set n | n in nodes && n !in old(nodes))
      ensures exists e: Ev :: Contents() == old(Contents()) + [e] && Dispatch(e) == [c]
    {
      match c
      case GlassStartup =>
        NotifyGlassStarted(id);
        assert Dispatch(Ev(id, 1, 2)) == [c];
      case GlassShutdown =>
        NotifyGlassShutdown(id);
        assert Dispatch(Ev(id, 1, 3)) == [c];
      case ShowIME =>
        NotifyShowIME(id);
        assert Dispatch(Ev(id, 1, 4)) == [c];
      case HideIME =>
        NotifyHideIME(id);
        assert Dispatch(Ev(id, 1, 5)) == [c];
    }

    lemma SizeIsCount()
      requires Valid()
      ensures size == |nodes|
    {
    }
  }

  /**
   * Notifications made before the loop thread gets the lock: the callbacks are those asked for, in that order, unless
   * a shutdown is among them, which stops the loop before it has made any.
   */
  method Deliver(asked: seq<Callback>) returns (calls: seq<Callback>)
    ensures calls == if GlassShutdown in asked then [] else asked
  {
    hide EventQueue.Valid, Values, DispatchAll, Dispatch;
    var q := new EventQueue();
    NothingDispatched();
    for i := 0 to |asked|
      invariant q.Valid() && fresh(q) && fresh(q.nodes) && q.running == (GlassShutdown !in asked[..i])
      invariant DispatchAll(q.Contents()) == asked[..i]
    {
      ghost var was := q.Contents();
      q.Notify(i, asked[i]);
      ghost var e :| q.Contents() == was + [e] && Dispatch(e) == [asked[i]];
      DispatchOneMore(was, e);
      assert asked[..i + 1] == asked[..i] + [asked[i]];
    }
    assert asked[..|asked|] == asked;
    calls := [];
    if q.running {
      ghost var freed;
      calls, freed := q.Drain(calls);
    }
  }
}
