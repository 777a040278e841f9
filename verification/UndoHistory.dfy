/**
  Bounded undo and redo: client/hooks/use-undo-manager.ts and client/hooks/use-undo-history.ts.

  Both hooks keep an array of states and an index into it. They are proved against an editor
  with two stacks that forgets its oldest states. The size limit N is 50 in the source.
 */
module UndoHistory {
  import opened Options
  import opened Seqs

  // ---------------------------------------------------------------- the two-stack editor

  // States that can be undone to, oldest first; the state shown; states that can be redone, next first.
  datatype Editor<T> = Editor(past: seq<T>, current: T, future: seq<T>)

  datatype Op<T> = Add(state: T) | Undo | Redo

  function AddTo<T>(n: nat, e: Editor<T>, state: T): Editor<T>
    requires n >= 1
  {
    Editor(LastN(n - 1, e.past + [e.current]), state, [])
  }

  function UndoIn<T>(e: Editor<T>): Editor<T> {
    if e.past == [] then e
    else Editor(e.past[..|e.past| - 1], e.past[|e.past| - 1], [e.current] + e.future)
  }

  function RedoIn<T>(e: Editor<T>): Editor<T> {
    if e.future == [] then e else Editor(e.past + [e.current], e.future[0], e.future[1..])
  }

  function Apply<T>(n: nat, e: Editor<T>, op: Op<T>): Editor<T>
    requires n >= 1
  {
    match op
    case Add(state) => AddTo(n, e, state)
    case Undo => UndoIn(e)
    case Redo => RedoIn(e)
  }

  function ApplyAll<T>(n: nat, e: Editor<T>, ops: seq<Op<T>>): Editor<T>
    requires n >= 1
    decreases |ops|
  {
    if ops == [] then e else ApplyAll(n, Apply(n, e, ops[0]), ops[1..])
  }

  // ---------------------------------------------------------------- array and index

  datatype Slots<T> = Slots(history: seq<T>, index: nat) {
    predicate Valid(n: nat) {
      index < |history| <= n
    }

    function Abs(): Editor<T>
      requires index < |history|
    {
      Editor(history[..index], history[index], history[index + 1..])
    }
  }

  // addToHistory of useUndoManager.
  function AddByRefs<T>(n: nat, s: Slots<T>, state: T): Slots<T>
    requires n >= 1
  {
    var newHistory := s.history[..if s.index + 1 <= |s.history| then s.index + 1 else |s.history|] + [state];
    var bounded := if |newHistory| > n then newHistory[|newHistory| - n..] else newHistory;
    Slots(bounded, |bounded| - 1)
  }

  // addToHistory of useUndoHistory: the array is cut at the index of the last render, the index
  // itself is counted up on its own.
  function AddByRender<T>(n: nat, s: Slots<T>, rendered: nat, state: T): Slots<T>
    requires n >= 1
  {
    var newHistory := s.history[..if rendered + 1 <= |s.history| then rendered + 1 else |s.history|] + [state];
    Slots(LastN(n, newHistory), if s.index + 1 <= n - 1 then s.index + 1 else n - 1)
  }

  function UndoSlots<T>(s: Slots<T>): Slots<T> {
    if s.index > 0 then Slots(s.history, s.index - 1) else s
  }

  function RedoSlots<T>(s: Slots<T>): Slots<T> {
    if s.index + 1 < |s.history| then Slots(s.history, s.index + 1) else s
  }

  // ---------------------------------------------------------------- refinement

  lemma AddRefines<T>(n: nat, s: Slots<T>, state: T)
    requires n >= 1 && s.Valid(n)
    ensures AddByRefs(n, s, state).Valid(n)
    ensures AddByRefs(n, s, state).Abs() == AddTo(n, s.Abs(), state)
  {
    var cut := s.history[..s.index] + [s.history[s.index]];
    assert s.history[..s.index + 1] == cut;
    var t := AddByRefs(n, s, state);
    assert t.history[..t.index] == LastN(n - 1, cut);
  }

  // Counting the index separately comes to the same as long as a render came in between.
  lemma HooksAgree<T>(n: nat, s: Slots<T>, state: T)
    requires n >= 1 && s.Valid(n)
    ensures AddByRender(n, s, s.index, state) == AddByRefs(n, s, state)
  {
  }

  lemma FreshAddRefines<T>(n: nat, s: Slots<T>, rendered: nat, state: T)
    requires n >= 1 && s.Valid(n)
    ensures var t := AddByRender(n, s, rendered, state);
      rendered == s.index ==> t.Valid(n) && t.Abs() == AddTo(n, s.Abs(), state)
  {
    HooksAgree(n, s, state);
    AddRefines(n, s, state);
  }

  lemma UndoRefines<T>(n: nat, s: Slots<T>)
    requires s.Valid(n)
    ensures UndoSlots(s).Valid(n) && UndoSlots(s).Abs() == UndoIn(s.Abs())
  {
    if s.index > 0 {
      assert s.history[..s.index][..s.index - 1] == s.history[..s.index - 1];
      assert s.history[s.index..] == [s.history[s.index]] + s.history[s.index + 1..];
    }
  }

  lemma RedoRefines<T>(n: nat, s: Slots<T>)
    requires s.Valid(n)
    ensures RedoSlots(s).Valid(n) && RedoSlots(s).Abs() == RedoIn(s.Abs())
  {
    if s.index + 1 < |s.history| {
      assert s.history[..s.index + 1] == s.history[..s.index] + [s.history[s.index]];
      assert s.history[s.index + 1..][1..] == s.history[s.index + 2..];
    }
  }

  function Step<T>(n: nat, s: Slots<T>, op: Op<T>): Slots<T>
    requires n >= 1
  {
    match op
    case Add(state) => AddByRefs(n, s, state)
    case Undo => UndoSlots(s)
    case Redo => RedoSlots(s)
  }

  function StepAll<T>(n: nat, s: Slots<T>, ops: seq<Op<T>>): Slots<T>
    requires n >= 1
    decreases |ops|
  {
    if ops == [] then s else StepAll(n, Step(n, s, ops[0]), ops[1..])
  }

  /** Every sequence of operations keeps the index in bounds and does what the editor does. */
  lemma {:induction false} RunRefines<T>(n: nat, s: Slots<T>, ops: seq<Op<T>>)
    requires n >= 1 && s.Valid(n)
    ensures StepAll(n, s, ops).Valid(n) && StepAll(n, s, ops).Abs() == ApplyAll(n, s.Abs(), ops)
    decreases |ops|
  {
    if ops != [] {
      match ops[0] {
        case Add(state) => AddRefines(n, s, state);
        case Undo => UndoRefines(n, s);
        case Redo => RedoRefines(n, s);
      }
      RunRefines(n, Step(n, s, ops[0]), ops[1..]);
    }
  }

  /**
    Without a render in between, useUndoHistory cuts the array at an old index and counts the
    new one up. That is a right addition iff the old index is the index, or both stand at the
    limit, where each cut is bounded again, and the states up to there are all the same.
   */
  lemma StaleAddRightIff<T>(n: nat, s: Slots<T>, rendered: nat, state: T)
    requires n >= 1 && s.Valid(n) && rendered < |s.history|
    ensures AddByRender(n, s, rendered, state) == AddByRefs(n, s, state)
       <==> rendered == s.index
            || (rendered + 2 >= n && s.index + 2 >= n && s.history[..|s.history| - 1] == s.history[1..])
  {
    AddedIsPushed(n, s, rendered, state);
    AddedIsPushed(n, s, s.index, state);
    HooksAgree(n, s, state);
    PushedEqualIff(n, s.history, rendered, s.index, state);
  }

  function Pushed<T>(n: nat, h: seq<T>, k: nat, state: T): seq<T>
    requires k < |h|
  {
    LastN(n, h[..k + 1] + [state])
  }

  lemma PushedLength<T>(n: nat, h: seq<T>, k: nat, state: T)
    requires n >= 1 && k < |h| <= n
    ensures |Pushed(n, h, k, state)| == if k + 2 <= n then k + 2 else n
  {
  }

  lemma AddedIsPushed<T>(n: nat, s: Slots<T>, k: nat, state: T)
    requires n >= 1 && k < |s.history| <= n
    ensures AddByRender(n, s, k, state)
         == Slots(Pushed(n, s.history, k, state), if s.index + 1 <= n - 1 then s.index + 1 else n - 1)
  {
  }

  lemma PushedAtLimit<T>(n: nat, h: seq<T>, state: T)
    requires |h| == n >= 2
    ensures Pushed(n, h, n - 2, state) == Pushed(n, h, n - 1, state) <==> h[..n - 1] == h[1..]
  {
    var short, full := Pushed(n, h, n - 2, state), Pushed(n, h, n - 1, state);
    assert short == h[..n - 1] + [state] && full == h[1..] + [state];
    assert short[..n - 1] == h[..n - 1] && full[..n - 1] == h[1..];
  }

  lemma PushedEqualIff<T>(n: nat, h: seq<T>, k: nat, l: nat, state: T)
    requires n >= 1 && k < |h| <= n && l < |h|
    ensures Pushed(n, h, k, state) == Pushed(n, h, l, state)
       <==> k == l || (k + 2 >= n && l + 2 >= n && h[..|h| - 1] == h[1..])
  {
    PushedLength(n, h, k, state);
    PushedLength(n, h, l, state);
    if k != l && k + 2 >= n && l + 2 >= n {
      PushedAtLimit(n, h, state);
    }
  }

  // The index alone stays inside the array more often: it is in bounds iff the old index is not
  // behind, or so near the limit that it does not matter.
  lemma StaleAddInBoundsIff<T>(n: nat, s: Slots<T>, rendered: nat, state: T)
    requires n >= 1 && s.Valid(n) && rendered < |s.history|
    ensures AddByRender(n, s, rendered, state).Valid(n) <==> s.index <= rendered || n <= rendered + 2
  {
  }

  // Two additions in one render lose the state: the first is cut off and the index points nowhere.
  lemma TwoAddsInOneRender<T>(n: nat, s: T, a: T, b: T)
    requires n >= 3
    ensures var twice := AddByRender(n, AddByRender(n, Slots([s], 0), 0, a), 0, b);
      twice == Slots([s, b], 2) && !twice.Valid(n)
  {
    assert [s][..1] + [a] == [s, a] && [s, a][..1] + [b] == [s, b];
  }

  // Two additions at the limit stay in bounds, and the first is lost all the same.
  lemma TwoAddsInBounds<T>(a: T, b: T, c: T, x: T, y: T)
    ensures var twice := AddByRender(4, AddByRender(4, Slots([a, b, c], 2), 2, x), 2, y);
      twice == Slots([a, b, c, y], 3) && twice.Valid(4)
  {
    assert [a, b, c][..3] == [a, b, c] && [a, b, c, x][..3] == [a, b, c];
  }

  // Stepping back or forward with the slots of the last render.
  function UndoIndex<T>(index: nat, rendered: Slots<T>): nat {
    if rendered.index > 0 then rendered.index - 1 else index
  }

  function RedoIndex<T>(index: nat, rendered: Slots<T>): nat {
    if rendered.index + 1 < |rendered.history| then rendered.index + 1 else index
  }

  // What a callback of the hook gives back. Where the array has no such state, reading it throws.
  datatype Answer<+T> = Shown(state: T) | Null | TypeError

  function Reading<T>(history: seq<T>, index: nat): Answer<T> {
    if index < |history| then Shown(history[index]) else TypeError
  }

  function UndoAnswer<T>(rendered: Slots<T>): Answer<T> {
    if rendered.index == 0 then Null else Reading(rendered.history, rendered.index - 1)
  }

  function RedoAnswer<T>(rendered: Slots<T>): Answer<T> {
    if rendered.index + 1 < |rendered.history| then Reading(rendered.history, rendered.index + 1) else Null
  }

  // An undo with an old render does and gives back the right thing iff the index has not moved
  // and the state to go to is still the same.
  lemma StaleUndoRightIff<T>(n: nat, s: Slots<T>, rendered: Slots<T>)
    requires s.Valid(n) && rendered.Valid(n)
    ensures UndoIndex(s.index, rendered) == UndoSlots(s).index && UndoAnswer(rendered) == UndoAnswer(s)
       <==> rendered.index == s.index
            && (s.index == 0 || rendered.history[s.index - 1] == s.history[s.index - 1])
  {
  }

  // A redo with an old render: at the newest state it must have been at the newest state too.
  lemma StaleRedoRightIff<T>(n: nat, s: Slots<T>, rendered: Slots<T>)
    requires s.Valid(n) && rendered.Valid(n)
    ensures RedoIndex(s.index, rendered) == RedoSlots(s).index && RedoAnswer(rendered) == RedoAnswer(s)
       <==> if s.index + 1 == |s.history| then rendered.index + 1 == |rendered.history|
            else rendered.index == s.index && s.index + 1 < |rendered.history|
                 && rendered.history[s.index + 1] == s.history[s.index + 1]
  {
  }

  // At the limit an addition shifts the array: a stale undo then goes to the right place, and gives
  // back the state that stood there before.
  lemma StaleUndoAfterAdd<T>(a: T, b: T, c: T, x: T)
    requires b != c
    ensures var rendered := Slots([a, b, c], 2);
      var s := AddByRender(3, rendered, 2, x);
      && s == Slots([b, c, x], 2) && UndoIndex(s.index, rendered) == UndoSlots(s).index
      && UndoAnswer(rendered) == Shown(b) && UndoAnswer(s) == Shown(c)
  {
    assert [a, b, c][..3] == [a, b, c];
    assert LastN(3, [a, b, c] + [x]) == [b, c, x];
  }

  // ---------------------------------------------------------------- what users rely on

  lemma RedoAfterUndo<T>(e: Editor<T>)
    ensures e.past != [] ==> RedoIn(UndoIn(e)) == e
    ensures e.future != [] ==> UndoIn(RedoIn(e)) == e
  {
  }

  function AddAll<T>(n: nat, e: Editor<T>, states: seq<T>): Editor<T>
    requires n >= 1
  {
    if states == [] then e else AddTo(n, AddAll(n, e, states[..|states| - 1]), states[|states| - 1])
  }

  function UndoTimes<T>(e: Editor<T>, k: nat): Editor<T>
    decreases k
  {
    if k == 0 then e else UndoTimes(UndoIn(e), k - 1)
  }

  // Everything that has been current, oldest first.
  function Line<T>(e: Editor<T>, states: seq<T>): seq<T> {
    e.past + [e.current] + states
  }

  lemma LineSnoc<T>(e: Editor<T>, front: seq<T>, x: T)
    ensures Line(e, front + [x]) == Line(e, front) + [x]
  {
  }

  // After additions the past is the last n - 1 of everything that was current before.
  lemma {:induction false} AddsPast<T>(n: nat, e: Editor<T>, front: seq<T>, x: T)
    requires n >= 1
    ensures AddAll(n, e, front + [x]) == Editor(LastN(n - 1, Line(e, front)), x, [])
    decreases |front|
  {
    assert (front + [x])[..|front|] == front;
    if front == [] {
      assert Line(e, front) == e.past + [e.current];
    } else {
      var f, y := front[..|front| - 1], front[|front| - 1];
      assert front == f + [y];
      AddsPast(n, e, f, y);
      LineSnoc(e, f, y);
      LastNAppend(n - 1, Line(e, f), [y]);
    }
  }

  // Undoing walks back along the line of states, as far as the past reaches.
  lemma {:induction false} UndoWalksBack<T>(e: Editor<T>, k: nat)
    ensures var line, i := Line(e, e.future), if k <= |e.past| then |e.past| - k else 0;
      UndoTimes(e, k) == Editor(line[..i], line[i], line[i + 1..])
    decreases k
  {
    var line := Line(e, e.future);
    if k == 0 {
      assert line[..|e.past|] == e.past && line[|e.past| + 1..] == e.future;
    } else {
      UndoWalksBack(UndoIn(e), k - 1);
      assert Line(UndoIn(e), UndoIn(e).future) == line;
    }
  }

  lemma LastNSnoc<T>(n: nat, s: seq<T>, x: T)
    requires n >= 1
    ensures LastN(n - 1, s) + [x] == LastN(n, s + [x])
  {
  }

  /**
    k additions followed by k undos restore the state shown while k is less than n, with the
    added states to redo; from n additions on, undo stops at the oldest state still kept.
   */
  lemma AddsThenUndos<T>(n: nat, e: Editor<T>, states: seq<T>)
    requires n >= 1 && |e.past| <= n - 1 && states != []
    ensures var after := UndoTimes(AddAll(n, e, states), |states|);
      if |states| < n then after.current == e.current && after.future == states
      else after.past == [] && after.current == states[|states| - n]
  {
    var k, front, x := |states|, states[..|states| - 1], states[|states| - 1];
    var added := AddAll(n, e, states);
    assert states == front + [x];
    AddsPast(n, e, front, x);
    LastNSnoc(n, Line(e, front), x);
    LineSnoc(e, front, x);
    var kept := LastN(n, Line(e, states));
    assert Line(added, added.future) == kept by {
      assert Line(added, []) == added.past + [x];
    }
    UndoWalksBack(added, k);
    EndOfLine(n, e, states);
  }

  lemma EndOfLine<T>(n: nat, e: Editor<T>, states: seq<T>)
    requires n >= 1 && states != []
    ensures var kept, k := LastN(n, Line(e, states)), |states|;
      if k < n then |kept| > k && kept[|kept| - 1 - k] == e.current && kept[|kept| - k..] == states
      else |kept| == n && kept[0] == states[k - n]
  {
  }

  // ---------------------------------------------------------------- the hooks

  // useUndoManager: array and index live in refs, so every call sees the latest.
  class UndoManager<T> {
    const max: nat
    var history: seq<T>
    var historyIndex: nat

    predicate Valid()
      reads this
    {
      max >= 1 && Slots(history, historyIndex).Valid(max)
    }

    function Shows(): Editor<T>
      requires Valid()
      reads this
    {
      Slots(history, historyIndex).Abs()
    }

    constructor (max: nat, initialState: T)
      requires max >= 1
      ensures Valid() && this.max == max && Shows() == Editor([], initialState, [])
    {
      this.max := max;
      history := [initialState];
      historyIndex := 0;
    }

    method AddToHistory(newState: T)
      requires Valid()
      modifies this
      ensures Valid() && Shows() == AddTo(max, old(Shows()), newState)
    {
      AddRefines(max, Slots(history, historyIndex), newState);
      var newHistory := history[..historyIndex + 1] + [newState];
      history := if |newHistory| > max then newHistory[|newHistory| - max..] else newHistory;
      historyIndex := |history| - 1;
    }

    method Undo() returns (state: Option<T>)
      requires Valid()
      modifies this
      ensures Valid() && Shows() == UndoIn(old(Shows()))
      ensures state == if old(Shows()).past == [] then None else Some(Shows().current)
    {
      UndoRefines(max, Slots(history, historyIndex));
      if historyIndex > 0 {
        historyIndex := historyIndex - 1;
        return Some(history[historyIndex]);
      }
      state := None;
    }

    method Redo() returns (state: Option<T>)
      requires Valid()
      modifies this
      ensures Valid() && Shows() == RedoIn(old(Shows()))
      ensures state == if old(Shows()).future == [] then None else Some(Shows().current)
    {
      RedoRefines(max, Slots(history, historyIndex));
      if historyIndex + 1 < |history| {
        historyIndex := historyIndex + 1;
        return Some(history[historyIndex]);
      }
      state := None;
    }
  }

  // useUndoHistory: the callbacks hold the array and the index of the last render.
  class RenderedHistory<T> {
    const max: nat
    var history: seq<T>
    var historyIndex: nat
    var rendered: Slots<T>

    predicate Valid()
      reads this
    {
      max >= 1 && Slots(history, historyIndex).Valid(max) && rendered.Valid(max)
    }

    // A render has happened since the last call.
    ghost predicate UpToDate()
      reads this
    {
      rendered == Slots(history, historyIndex)
    }

    function Shows(): Editor<T>
      requires Valid()
      reads this
    {
      Slots(history, historyIndex).Abs()
    }

    constructor (max: nat, initialState: T)
      requires max >= 1
      ensures Valid() && UpToDate() && this.max == max && Shows() == Editor([], initialState, [])
    {
      this.max := max;
      history := [initialState];
      historyIndex := 0;
      rendered := Slots([initialState], 0);
    }

    method Render()
      modifies this`rendered
      ensures UpToDate()
    {
      rendered := Slots(history, historyIndex);
    }

    // Any number of calls may come before the next render: StaleAddRightIff says when it is right.
    method AddToHistory(newState: T)
      requires max >= 1
      modifies this`history, this`historyIndex
      ensures Slots(history, historyIndex)
           == AddByRender(max, old(Slots(history, historyIndex)), rendered.index, newState)
      ensures old(Valid() && UpToDate()) ==> Valid() && Shows() == AddTo(max, old(Shows()), newState)
    {
      ghost var before := Slots(history, historyIndex);
      var cut := if rendered.index + 1 <= |history| then rendered.index + 1 else |history|;
      var newHistory := history[..cut] + [newState];
      history := if |newHistory| > max then LastN(max, newHistory) else newHistory;
      historyIndex := if historyIndex + 1 <= max - 1 then historyIndex + 1 else max - 1;
      assert Slots(history, historyIndex) == AddByRender(max, before, rendered.index, newState);
      if before.Valid(max) {
        FreshAddRefines(max, before, rendered.index, newState);
      }
    }

    // The index moves before the state is read: where the array has no such state, reading it throws.
    method Undo() returns (answer: Answer<T>)
      modifies this`historyIndex
      ensures historyIndex == UndoIndex(old(historyIndex), rendered)
      ensures answer == UndoAnswer(rendered)
      ensures old(Valid() && UpToDate()) ==> Valid() && Shows() == UndoIn(old(Shows()))
      ensures old(Valid() && UpToDate())
          ==> answer == if old(Shows()).past == [] then Null else Shown(Shows().current)
    {
      ghost var before := Slots(history, historyIndex);
      answer := Null;
      if rendered.index > 0 {
        historyIndex := rendered.index - 1;
        answer := Reading(rendered.history, rendered.index - 1);
      }
      if before.Valid(max) {
        UndoRefines(max, before);
      }
    }

    method Redo() returns (answer: Answer<T>)
      modifies this`historyIndex
      ensures historyIndex == RedoIndex(old(historyIndex), rendered)
      ensures answer == RedoAnswer(rendered)
      ensures old(Valid() && UpToDate()) ==> Valid() && Shows() == RedoIn(old(Shows()))
      ensures old(Valid() && UpToDate())
          ==> answer == if old(Shows()).future == [] then Null else Shown(Shows().current)
    {
      ghost var before := Slots(history, historyIndex);
      answer := Null;
      if rendered.index + 1 < |rendered.history| {
        historyIndex := rendered.index + 1;
        answer := Shown(rendered.history[rendered.index + 1]);
      }
      if before.Valid(max) {
        RedoRefines(max, before);
      }
    }
  }
}
