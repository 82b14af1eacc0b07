/** The single-line text editor: caret, keyboard selection, and dragging the selection within the widget. */
module TextEdit {
  import opened Arithmetic

  const MAX_LENGTH := 35

  // ---------- The reference editor ----------

  datatype Option<T> = None | Some(value: T)

  /** Text, caret, and where the selection was begun, if there is one. */
  datatype Editor = Editor(text: string, caret: int, anchor: Option<int>)

  predicate Ok(e: Editor) {
    && |e.text| <= MAX_LENGTH && 0 <= e.caret <= |e.text|
    && (e.anchor.Some? ==> 0 <= e.anchor.value <= |e.text|)
  }

  /** The selection is the interval between anchor and caret. */
  function SelectionStart(e: Editor): int {
    if e.anchor.Some? then Min(e.anchor.value, e.caret) else -1
  }

  function SelectionStop(e: Editor): int {
    if e.anchor.Some? then Max(e.anchor.value, e.caret) else -1
  }

  datatype Key =
    | Typed(c: char, modified: bool)
    | Delete
    | BackSpace
    | Right(shift: bool)
    | Left(shift: bool)
    | FocusChange

  /** `Character.isISOControl` */
  predicate IsISOControl(c: char) {
    c <= '\U{1f}' || '\U{7f}' <= c <= '\U{9f}'
  }

  function Cut(text: string, a: int, b: int): string
    requires 0 <= a <= b <= |text|
  {
    text[..a] + text[b..]
  }

  function Splice(text: string, at: int, s: string): string
    requires 0 <= at <= |text|
  {
    text[..at] + s + text[at..]
  }

  function Moved(e: Editor, to: int, shift: bool): Editor {
    Editor(e.text, Max(0, Min(to, |e.text|)),
           if !shift then None else if e.anchor.Some? then e.anchor else Some(e.caret))
  }

  /** What a key does. */
  function Press(e: Editor, key: Key): (r: Editor)
    requires Ok(e)
    ensures Ok(r)
  {
    match key
    case Typed(c, modified) =>
      if modified || IsISOControl(c) || |e.text| >= MAX_LENGTH then e
      else Editor(Splice(e.text, e.caret, [c]), e.caret + 1, None)
    case Delete =>
      if e.anchor.Some? then RemoveSelected(e)
      else if e.caret < |e.text| then e.(text := Cut(e.text, e.caret, e.caret + 1))
      else e
    case BackSpace =>
      if e.anchor.Some? then RemoveSelected(e)
      else if e.caret > 0 then Editor(Cut(e.text, e.caret - 1, e.caret), e.caret - 1, None)
      else e
    case Right(shift) => Moved(e, e.caret + 1, shift)
    case Left(shift) => Moved(e, e.caret - 1, shift)
    case FocusChange => e.(anchor := None)
  }

  function RemoveSelected(e: Editor): Editor
    requires Ok(e) && e.anchor.Some?
  {
    Editor(Cut(e.text, SelectionStart(e), SelectionStop(e)), SelectionStart(e), None)
  }

  function PressAll(e: Editor, keys: seq<Key>): (r: Editor)
    requires Ok(e)
    ensures Ok(r)
    decreases |keys|
  {
    if keys == [] then e else Press(PressAll(e, keys[..|keys| - 1]), keys[|keys| - 1])
  }

  predicate ShiftMove(key: Key) {
    (key.Left? || key.Right?) && key.shift
  }

  /** Any run of shifted arrows keeps the text and the anchor: the caret it started from. */
  lemma {:induction false} AnchorStaysFixed(e: Editor, keys: seq<Key>)
    requires Ok(e) && e.anchor.None? && keys != [] && forall i :: 0 <= i < |keys| ==> ShiftMove(keys[i])
    ensures PressAll(e, keys).text == e.text && PressAll(e, keys).anchor == Some(e.caret)
    decreases |keys|
  {
    var init := keys[..|keys| - 1];
    if init == [] {
      assert PressAll(e, init) == e;
    } else {
      AnchorStaysFixed(e, init);
    }
  }

  /**
   * Selecting with shifted arrows and then delete or backspace removes what lies between the first and the last caret,
   * and nothing else.
   */
  lemma SelectAndDelete(e: Editor, keys: seq<Key>, key: Key)
    requires Ok(e) && e.anchor.None? && keys != [] && forall i :: 0 <= i < |keys| ==> ShiftMove(keys[i])
    requires key == Delete || key == BackSpace
    ensures var c := PressAll(e, keys).caret;
            var a, b := Min(e.caret, c), Max(e.caret, c);
            0 <= a <= b <= |e.text| && PressAll(e, keys + [key]) == Editor(e.text[..a] + e.text[b..], a, None)
  {
    AnchorStaysFixed(e, keys);
    assert (keys + [key])[..|keys|] == keys;
  }

  /** The arrows move the caret by one, right towards the end and left towards the start, and stop there. */
  lemma ArrowsMove(e: Editor, shift: bool)
    requires Ok(e)
    ensures var r, l := Press(e, Right(shift)), Press(e, Left(shift));
            && r.text == l.text == e.text && (!shift ==> r.anchor == l.anchor == None)
            && r.caret == (if e.caret < |e.text| then e.caret + 1 else e.caret)
            && l.caret == (if e.caret > 0 then e.caret - 1 else e.caret)
  {
  }

  /** An arrow undoes the other; delete is right and then backspace; a focus change only ends the selection. */
  lemma ArrowsUndo(e: Editor)
    requires Ok(e)
    ensures e.caret < |e.text| ==> Press(Press(e, Right(false)), Left(false)) == e.(anchor := None)
    ensures e.caret > 0 ==> Press(Press(e, Left(false)), Right(false)) == e.(anchor := None)
    ensures e.caret < |e.text| && e.anchor.None? ==> Press(e, Delete) == Press(Press(e, Right(false)), BackSpace)
    ensures Press(e, FocusChange) == Editor(e.text, e.caret, None)
  {
  }

  /** A key is ignored exactly if a modifier is down, it types a control character, or the text is full. */
  lemma TypedOrIgnored(e: Editor, c: char, modified: bool)
    requires Ok(e)
    ensures Press(e, Typed(c, modified)) == e <==>
            modified || c as int <= 0x1f || 0x7f <= c as int <= 0x9f || |e.text| >= 35
  {
    if !modified && !IsISOControl(c) && |e.text| < 35 {
      assert |Press(e, Typed(c, modified)).text| == |e.text| + 1;
    }
  }

  /** The keys that type a string. */
  function Strokes(s: string): (keys: seq<Key>)
    ensures |keys| == |s| && forall i :: 0 <= i < |s| ==> keys[i] == Typed(s[i], false)
  {
    seq(|s|, i requires 0 <= i < |s| => Typed(s[i], false))
  }

  /** Typing a string puts it in at the caret, as far as there is room, and the caret behind it. */
  lemma {:induction false} TypingInserts(e: Editor, s: string)
    requires Ok(e) && forall i :: 0 <= i < |s| ==> !IsISOControl(s[i])
    ensures var n := Min(|s|, 35 - |e.text|);
            var r := PressAll(e, Strokes(s));
            && 0 <= n && r.text == e.text[..e.caret] + s[..n] + e.text[e.caret..] && r.caret == e.caret + n
            && r.anchor == if n == 0 then e.anchor else None
    decreases |s|
  {
    hide Press;
    var keys := Strokes(s);
    var a, b := e.text[..e.caret], e.text[e.caret..];
    assert a + b == e.text;
    if s == [] {
      assert a + [] + b == e.text;
    } else {
      var init, c := s[..|s| - 1], s[|s| - 1];
      TypingInserts(e, init);
      assert keys[..|s| - 1] == Strokes(init);
      var m := Min(|init|, 35 - |e.text|);
      TypedAt(PressAll(e, Strokes(init)), a, init[..m], b, c);
      assert init[..m] == s[..m];
      if m < Min(|s|, 35 - |e.text|) {
        assert s[..m + 1] == s[..m] + [c];
      }
    }
  }

  lemma TypedAt(e: Editor, a: string, s: string, b: string, c: char)
    requires Ok(e) && e.text == a + s + b && e.caret == |a| + |s| && !IsISOControl(c)
    ensures Press(e, Typed(c, false))
            == if |e.text| < 35 then Editor(a + (s + [c]) + b, |a| + |s| + 1, None) else e
  {
    assert e.text[..e.caret] == a + s && e.text[e.caret..] == b;
    assert a + s + [c] + b == a + (s + [c]) + b;
  }

  /** Backspace undoes typing a character. */
  lemma BackSpaceUndoesTyping(e: Editor, c: char)
    requires Ok(e) && e.anchor.None? && |e.text| < MAX_LENGTH && !IsISOControl(c)
    ensures Press(Press(e, Typed(c, false)), BackSpace) == e
  {
    var t := Splice(e.text, e.caret, [c]);
    assert t[..e.caret] == e.text[..e.caret] && t[e.caret + 1..] == e.text[e.caret..];
    assert e.text[..e.caret] + e.text[e.caret..] == e.text;
  }

  /** A block of the text taken out and put back before position `pos` of the old text. */
  function BlockMove(text: string, a: int, b: int, pos: int): string
    requires 0 <= a <= b <= |text| && 0 <= pos <= |text| && !(a < pos < b)
  {
    Splice(Cut(text, a, b), if pos >= b then pos - (b - a) else pos, text[a..b])
  }

  /** The block ends up before what followed the drop position, with the rest in its old order. */
  lemma BlockMoveIs(text: string, a: int, b: int, pos: int)
    requires 0 <= a <= b <= |text| && 0 <= pos <= |text| && !(a < pos < b)
    ensures pos <= a ==> BlockMove(text, a, b, pos) == text[..pos] + text[a..b] + text[pos..a] + text[b..]
    ensures b <= pos ==> BlockMove(text, a, b, pos) == text[..a] + text[b..pos] + text[a..b] + text[pos..]
  {
    var rest := Cut(text, a, b);
    if pos <= a {
      assert a == b && pos == a ==> rest[..pos] == text[..pos];
      assert rest[..pos] == text[..pos] && rest[pos..] == text[pos..a] + text[b..];
    }
    if b <= pos {
      var at := pos - (b - a);
      assert rest[..at] == text[..a] + text[b..pos] && rest[at..] == text[pos..];
    }
  }

  /** A block move only reorders the characters. */
  lemma BlockMovePermutes(text: string, a: int, b: int, pos: int)
    requires 0 <= a <= b <= |text| && 0 <= pos <= |text| && !(a < pos < b)
    ensures |BlockMove(text, a, b, pos)| == |text| && multiset(BlockMove(text, a, b, pos)) == multiset(text)
  {
    var s, rest := text[a..b], Cut(text, a, b);
    var at := if pos >= b then pos - (b - a) else pos;
    assert text == text[..a] + s + text[b..];
    assert rest == rest[..at] + rest[at..];
    calc {
      multiset(BlockMove(text, a, b, pos));
      multiset(rest[..at]) + multiset(s) + multiset(rest[at..]);
      multiset(rest) + multiset(s);
      multiset(text[..a]) + multiset(text[b..]) + multiset(s);
      multiset(text);
    }
  }

  // ---------- The widget ----------

  class TextField {
    var content: string
    var length: int
    var caretPos: int
    var selStart: int
    var selStop: int
    ghost var anchor: int

    /** Sizes and positions are in range, so every index into the letters is. */
    ghost predicate Consistent()
      reads this
    {
      && length == |content| <= MAX_LENGTH && 0 <= caretPos <= length
      && (selStart == selStop == -1 || 0 <= selStart <= selStop <= length)
    }

    /** With keyboard selection, the selection is the interval between the anchor and the caret. */
    ghost predicate Valid()
      reads this
    {
      && Consistent()
      && (selStart >= 0 ==>
            0 <= anchor <= length && selStart == Min(anchor, caretPos) && selStop == Max(anchor, caretPos))
    }

    ghost function Abs(): Editor
      reads this
    {
      Editor(content, caretPos, if selStart >= 0 then Some(anchor) else None)
    }

    /** A new widget, with its first text set. */
    constructor (text: string)
      ensures Valid() && Abs() == Editor(text[..Min(|text|, MAX_LENGTH)], 0, None)
    {
      length, caretPos, selStart, selStop := 0, 0, -1, -1;
      content := "";
      new;
      SetText(text);
    }

    /** The selection is left alone, so it survives exactly if it ends within the new text. */
    method SetText(text: string)
      requires 0 <= caretPos
      modifies `content, `length, `caretPos
      ensures content == text[..Min(|text|, MAX_LENGTH)] && length == |content|
      ensures caretPos == Min(old(caretPos), length)
      ensures old(Valid()) ==> (Valid() <==> old(selStart) < 0 || old(selStop) <= length)
    {
      length := |text|;
      if length > MAX_LENGTH {
        length := MAX_LENGTH;
      }
      content := text[..length];
      SetCaretPos(caretPos);
    }

    method SetCaretPos(pos: int)
      requires 0 <= length
      modifies `caretPos
      ensures caretPos == Max(0, Min(pos, length))
    {
      var p := pos;
      if p > length {
        p := length;
      }
      if p < 0 {
        p := 0;
      }
      caretPos := p;
    }

    method Insert(s: string)
      requires Consistent()
      modifies `content, `length, `caretPos, `selStart, `selStop
      ensures var t := Splice(old(content), old(caretPos), s);
              content == t[..Min(|t|, MAX_LENGTH)] && length == |content| && caretPos == old(caretPos)
      ensures var shift := if old(selStart) >= old(caretPos) then |s| else 0;
              selStart == old(selStart) + shift && selStop == old(selStop) + shift
    {
      SetText(content[..caretPos] + s + content[caretPos..]);
      if selStart >= caretPos {
        selStart := selStart + |s|;
        selStop := selStop + |s|;
      }
    }

    method RemoveSelection()
      requires Consistent()
      modifies `content, `length, `caretPos, `selStart, `selStop
      ensures Consistent() && selStart == selStop == -1
      ensures old(selStart) >= 0 ==> content == Cut(old(content), old(selStart), old(selStop))
      ensures old(selStart) >= 0 ==>
                caretPos == if old(caretPos) <= old(selStart) then old(caretPos)
                            else if old(caretPos) < old(selStop) then old(selStart)
                            else old(caretPos) - (old(selStop) - old(selStart))
      ensures old(selStart) < 0 ==> content == old(content) && caretPos == old(caretPos)
    {
      if caretPos > selStart {
        if caretPos < selStop {
          caretPos := selStart;
        } else {
          caretPos := caretPos - (selStop - selStart);
        }
      }
      if selStart >= 0 {
        SetText(content[..selStart] + content[selStop..]);
      }
      ClearSelection();
    }

    method ClearSelection()
      modifies `selStart, `selStop
      ensures selStart == selStop == -1
    {
      selStart := -1;
      selStop := -1;
      UpdateSelection();
    }

    /** The highlight is read off the letters at both ends of the selection, which must exist. */
    method UpdateSelection()
      requires selStart < 0 || (0 <= selStart <= MAX_LENGTH && 0 <= selStop <= MAX_LENGTH)
    {
    }

    /** The key-typed handler; `modified` says that control or alt is down. */
    method KeyTyped(c: char, modified: bool)
      requires Valid()
      modifies this
      ensures Valid() && Abs() == Press(old(Abs()), Typed(c, modified))
    {
      if modified {
        return;
      }
      if !IsISOControl(c) && length < MAX_LENGTH {
        Insert([c]);
        SetCaretPos(caretPos + 1);
        ClearSelection();
      }
    }

    method DeletePressed()
      requires Valid()
      modifies this
      ensures Valid() && Abs() == Press(old(Abs()), Delete)
    {
      if caretPos < length || selStart >= 0 {
        if selStart >= 0 {
          RemoveSelection();
        } else {
          SetText(content[..caretPos] + content[caretPos + 1..]);
        }
      }
    }

    method BackSpacePressed()
      requires Valid()
      modifies this
      ensures Valid() && Abs() == Press(old(Abs()), BackSpace)
    {
      if caretPos > 0 || selStart >= 0 {
        if selStart >= 0 {
          RemoveSelection();
        } else {
          SetCaretPos(caretPos - 1);
          SetText(content[..caretPos] + content[caretPos + 1..]);
        }
      }
    }

    method RightPressed(shift: bool)
      requires Valid()
      modifies this
      ensures Valid() && Abs() == Press(old(Abs()), Right(shift))
    {
      if shift {
        if selStart < 0 {
          selStart, selStop := caretPos, caretPos;
          anchor := caretPos;
        }
        if caretPos < length {
          if selStart < caretPos || selStart == selStop {
            selStop := caretPos + 1;
          } else {
            selStart := caretPos + 1;
          }
        }
        UpdateSelection();
      } else {
        ClearSelection();
      }
      SetCaretPos(caretPos + 1);
    }

    method LeftPressed(shift: bool)
      requires Valid()
      modifies this
      ensures Valid() && Abs() == Press(old(Abs()), Left(shift))
    {
      if shift {
        if selStart < 0 {
          selStart, selStop := caretPos, caretPos;
          anchor := caretPos;
        }
        if caretPos > 0 {
          if selStart == caretPos {
            selStart := caretPos - 1;
          } else {
            selStop := caretPos - 1;
          }
        }
        UpdateSelection();
      } else {
        ClearSelection();
      }
      SetCaretPos(caretPos - 1);
    }

    method FocusChanged()
      requires Valid()
      modifies this
      ensures Valid() && Abs() == Press(old(Abs()), FocusChange)
    {
      ClearSelection();
      SetCaretPos(caretPos);
    }

    /** Every key does what the reference editor does. */
    method PressKey(key: Key)
      requires Valid()
      modifies this
      ensures Valid() && Abs() == Press(old(Abs()), key)
    {
      hide Press;
      match key
      case Typed(c, modified) => KeyTyped(c, modified);
      case Delete => DeletePressed();
      case BackSpace => BackSpacePressed();
      case Right(shift) => RightPressed(shift);
      case Left(shift) => LeftPressed(shift);
      case FocusChange => FocusChanged();
    }

    /** Every run of key events follows the reference editor. */
    method PressKeys(keys: seq<Key>)
      requires Valid()
      modifies this
      ensures Valid() && Abs() == PressAll(old(Abs()), keys)
    {
      for i := 0 to |keys|
        invariant Valid() && Abs() == PressAll(old(Abs()), keys[..i])
      {
        PressKey(keys[i]);
        assert keys[..i + 1][..i] == keys[..i];
      }
      assert keys[..|keys|] == keys;
    }

    predicate IsInSelection(pos: int)
      reads this
    {
      selStart <= pos < selStop
    }

    /** The drop handler, for a drag that began in this widget or elsewhere. */
    method Dropped(pos: int, sameWidget: bool, s: string) returns (completed: bool)
      requires Consistent() && (sameWidget ==> selStart >= 0 && s == content[selStart..selStop])
      modifies this
      ensures completed <==> !(sameWidget && old(IsInSelection(pos)))
      ensures !completed ==>
                Consistent() && content == old(content) && selStart == old(selStart) && selStop == old(selStop)
      ensures completed && sameWidget ==>
                && Consistent() && selStart == selStop == -1
                && content == BlockMove(old(content), old(selStart), old(selStop), Max(0, Min(pos, |old(content)|)))
      ensures !sameWidget ==>
                var at := Max(0, Min(pos, |old(content)|));
                var t, shift := Splice(old(content), at, s), if old(selStart) >= at then |s| else 0;
                && content == t[..Min(|t|, MAX_LENGTH)] && length == |content| && caretPos == at
                && selStart == old(selStart) + shift && selStop == old(selStop) + shift
    {
      if sameWidget && IsInSelection(pos) {
        return false;
      }
      SetCaretPos(pos);
      if sameWidget {
        RemoveSelection();
      }
      ghost var rest := content;
      Insert(s);
      assert sameWidget ==> |Splice(rest, caretPos, s)| <= MAX_LENGTH;
      return true;
    }

    /** The drag-done handler; `moved` is None when the drop was not completed. */
    method DragDone(moved: Option<bool>)
      requires Consistent()
      modifies this
      ensures Consistent()
      ensures content == if moved == Some(true) && old(selStart) >= 0
                         then Cut(old(content), old(selStart), old(selStop)) else old(content)
      ensures moved == None ==> selStart == old(selStart) && selStop == old(selStop)
      ensures moved != None ==> selStart == selStop == -1
    {
      if moved == Some(true) {
        RemoveSelection();
      }
      if moved != None {
        ClearSelection();
      }
    }

    /**
     * Dragging the selection within the widget, to its end: a block move that takes the text out once, or nothing at
     * all.
     */
    method DragWithin(pos: int, move: bool)
      requires Consistent() && selStart >= 0
      modifies this
      ensures Consistent() && |content| == |old(content)| && multiset(content) == multiset(old(content))
      ensures old(IsInSelection(pos)) ==> content == old(content)
      ensures !old(IsInSelection(pos)) ==>
                && selStart == selStop == -1
                && content == BlockMove(old(content), old(selStart), old(selStop), Max(0, Min(pos, |old(content)|)))
    {
      var s := content[selStart..selStop];
      if !IsInSelection(pos) {
        BlockMovePermutes(content, selStart, selStop, Max(0, Min(pos, |content|)));
      }
      var completed := Dropped(pos, true, s);
      DragDone(if completed then Some(move) else None);
    }
  }

  /**
   * A text that is replaced under a selection leaves the selection dangling: the widget holds "", and 0..1 is
   * selected.
   */
  method StaleSelection() returns (field: TextField)
    ensures fresh(field) && !field.Valid() && !field.Consistent() && field.selStop > field.length
  {
    field := new TextField("a");
    field.RightPressed(true);
    field.SetText("");
  }
}
