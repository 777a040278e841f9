/**
  Reordering through a filtered view: client/hooks/use-subscription-priority-order.ts, with
  normalizePriorityOrder of client/lib/subscription-priority-order.ts.
 */
module PriorityOrder {
  import opened Options
  import opened Seqs

  type Id = string

  // ---------------------------------------------------------------- normalizePriorityOrder

  function InView(view: seq<Id>): Id -> bool {
    id => id in view
  }

  // Stale ids dropped, missing ids appended in the order of the subscriptions.
  function Normalized(saved: seq<Id>, subscriptionIds: seq<Id>): seq<Id> {
    AppendMissing(Filter(InView(subscriptionIds), saved), subscriptionIds)
  }

  function AppendMissing(order: seq<Id>, ids: seq<Id>): seq<Id>
    decreases |ids|
  {
    if ids == [] then order
    else AppendMissing(if ids[0] in order then order else order + [ids[0]], ids[1..])
  }

  method NormalizePriorityOrder(savedOrder: seq<Id>, subscriptionIds: seq<Id>) returns (normalized: seq<Id>)
    ensures normalized == Normalized(savedOrder, subscriptionIds)
  {
    normalized := Filter(InView(subscriptionIds), savedOrder);
    for i := 0 to |subscriptionIds|
      invariant AppendMissing(normalized, subscriptionIds[i..]) == Normalized(savedOrder, subscriptionIds)
    {
      assert subscriptionIds[i..][1..] == subscriptionIds[i + 1..];
      if subscriptionIds[i] !in normalized {
        normalized := normalized + [subscriptionIds[i]];
      }
    }
  }

  lemma {:induction false} AppendMissingMembers(order: seq<Id>, ids: seq<Id>)
    ensures forall id :: id in AppendMissing(order, ids) <==> id in order || id in ids
    ensures NoDup(order) ==> NoDup(AppendMissing(order, ids))
    decreases |ids|
  {
    if ids != [] {
      var next := if ids[0] in order then order else order + [ids[0]];
      AppendMissingMembers(next, ids[1..]);
      assert forall id :: id in ids <==> id == ids[0] || id in ids[1..];
    }
  }

  lemma {:induction false} NothingMissing(order: seq<Id>, ids: seq<Id>)
    requires forall id :: id in ids ==> id in order
    ensures AppendMissing(order, ids) == order
    decreases |ids|
  {
    if ids != [] {
      assert ids[0] in ids;
      NothingMissing(order, ids[1..]);
    }
  }

  // Exactly the subscriptions, without repetitions if none were saved; and once is enough.
  lemma NormalizedIsExact(saved: seq<Id>, ids: seq<Id>)
    ensures forall id :: id in Normalized(saved, ids) <==> id in ids
    ensures NoDup(saved) ==> NoDup(Normalized(saved, ids))
    ensures Normalized(Normalized(saved, ids), ids) == Normalized(saved, ids)
  {
    var kept, order := Filter(InView(ids), saved), Normalized(saved, ids);
    FilterMembers(InView(ids), saved);
    AppendMissingMembers(kept, ids);
    if NoDup(saved) {
      FilterNoDup(InView(ids), saved);
    }
    FilterAll(InView(ids), order);
    NothingMissing(order, ids);
  }

  // ---------------------------------------------------------------- what becomes of a saved order

  function NotIn(saved: seq<Id>): Id -> bool {
    id => id !in saved
  }

  // What is appended: nothing twice, nothing that is there already, all in the order of the list.
  ghost predicate AreMissing(added: seq<Id>, order: seq<Id>, ids: seq<Id>) {
    && NoDup(added) && (forall id :: id in added <==> id in ids && id !in order)
    && forall i, j :: 0 <= i < j < |added| ==> FirstAt(ids, added[i]) < FirstAt(ids, added[j])
  }

  lemma FirstAtCons(x: Id, rest: seq<Id>, id: Id)
    ensures FirstAt([x] + rest, id) == if id == x then 0 else 1 + FirstAt(rest, id)
    ensures id in [x] + rest <==> id == x || id in rest
  {
    assert ([x] + rest)[1..] == rest;
  }

  lemma PresentIsSkipped(x: Id, rest: seq<Id>, order: seq<Id>, added: seq<Id>)
    requires x in order && AreMissing(added, order, rest)
    ensures AreMissing(added, order, [x] + rest)
  {
    forall i | 0 <= i < |added| ensures FirstAt([x] + rest, added[i]) == 1 + FirstAt(rest, added[i]) {
      assert added[i] in added;
      FirstAtCons(x, rest, added[i]);
    }
  }

  lemma MissingIsFirst(x: Id, rest: seq<Id>, order: seq<Id>, later: seq<Id>)
    requires x !in order && AreMissing(later, order + [x], rest)
    ensures AreMissing([x] + later, order, [x] + rest)
  {
    var added := [x] + later;
    forall i | 0 <= i < |added|
      ensures FirstAt([x] + rest, added[i]) == if i == 0 then 0 else 1 + FirstAt(rest, later[i - 1])
    {
      if i > 0 {
        assert later[i - 1] in later;
      }
      FirstAtCons(x, rest, added[i]);
    }
    forall id ensures id in added <==> id in [x] + rest && id !in order {
      assert id in added <==> id == x || id in later;
      assert id in order + [x] <==> id in order || id == x;
    }
    assert x !in later;
  }

  lemma {:induction false} AppendedInOrder(order: seq<Id>, ids: seq<Id>)
    ensures order <= AppendMissing(order, ids) && AreMissing(AppendMissing(order, ids)[|order|..], order, ids)
    decreases |ids|
  {
    var all := AppendMissing(order, ids);
    if ids == [] {
      assert all[|order|..] == [];
    } else {
      var x, rest := ids[0], ids[1..];
      assert ids == [x] + rest;
      if x in order {
        AppendedInOrder(order, rest);
        PresentIsSkipped(x, rest, order, all[|order|..]);
      } else {
        AppendedInOrder(order + [x], rest);
        var later := all[|order| + 1..];
        assert all[|order|..] == [x] + later;
        MissingIsFirst(x, rest, order, later);
      }
    }
  }

  // The first place of an id, or the length where there is none.
  function FirstAt(ids: seq<Id>, id: Id): nat {
    if ids == [] || ids[0] == id then 0 else 1 + FirstAt(ids[1..], id)
  }

  /**
    The saved ids that are still subscribed come first, in saved order; behind them the others,
    each once, in the order of the subscriptions.
   */
  lemma SavedOrderIsKept(saved: seq<Id>, ids: seq<Id>)
    ensures var kept, order := Filter((id: Id) => id in ids, saved), Normalized(saved, ids);
      && kept <= order && Filter((id: Id) => id in saved, order) == kept
      && var added := order[|kept|..];
        && NoDup(added) && (forall id :: id in added <==> id in ids && id !in saved)
        && forall i, j :: 0 <= i < j < |added| ==> FirstAt(ids, added[i]) < FirstAt(ids, added[j])
  {
    var stillThere, wasSaved := (id: Id) => id in ids, (id: Id) => id in saved;
    var kept, order := Filter(InView(ids), saved), Normalized(saved, ids);
    FilterSame(stillThere, InView(ids), saved);
    FilterMembers(InView(ids), saved);
    AppendedInOrder(kept, ids);
    var added := order[|kept|..];
    assert order == kept + added;
    FilterAppend(wasSaved, kept, added);
    FilterAll(wasSaved, kept);
    FilterNone(wasSaved, added);
    assert kept + [] == kept;
  }

  /** An order that holds exactly the subscriptions is left as it is. */
  lemma ExactOrderIsFixed(saved: seq<Id>, ids: seq<Id>)
    requires forall id :: id in saved <==> id in ids
    ensures Normalized(saved, ids) == saved
  {
    FilterAll(InView(ids), saved);
    NothingMissing(saved, ids);
  }

  // ---------------------------------------------------------------- moving one element

  function IndexOf(order: seq<Id>, id: Id): (i: nat)
    requires id in order
    ensures i < |order| && order[i] == id
  {
    if order[0] == id then 0 else 1 + IndexOf(order[1..], id)
  }

  function RemoveAt(s: seq<Id>, i: nat): seq<Id>
    requires i < |s|
  {
    s[..i] + s[i + 1..]
  }

  function InsertAt(s: seq<Id>, i: nat, x: Id): seq<Id>
    requires i <= |s|
  {
    s[..i] + [x] + s[i..]
  }

  // The element at i is taken out and put in at j.
  function Move(s: seq<Id>, i: nat, j: nat): seq<Id>
    requires i < |s| && j < |s|
  {
    InsertAt(RemoveAt(s, i), j, s[i])
  }

  // What the two splices do to the whole order, for two ids of the view.
  function MoveIds(order: seq<Id>, from: Id, to: Id): seq<Id>
    requires from in order && to in order
  {
    Move(order, IndexOf(order, from), IndexOf(order, to))
  }

  // The view lists ids of the order, each once and in the same sequence.
  ghost predicate IsViewOf(view: seq<Id>, order: seq<Id>) {
    view == Filter(InView(view), order)
  }

  lemma SplitAt(s: seq<Id>, i: nat)
    requires i < |s|
    ensures s == s[..i] + [s[i]] + s[i + 1..]
  {
  }

  // An id's place in the view is the number of visible ids in front of it in the order.
  lemma PlaceInView(order: seq<Id>, view: seq<Id>, t: nat, j: nat)
    requires NoDup(order) && IsViewOf(view, order) && t < |order| && j < |view| && order[t] == view[j]
    ensures Filter(InView(view), order[..t]) == view[..j]
    ensures Filter(InView(view), order[t + 1..]) == view[j + 1..]
    ensures Filter(InView(view), order[..t + 1]) == view[..j + 1]
  {
    var f, y := InView(view), order[t];
    var before, after := Filter(f, order[..t]), Filter(f, order[t + 1..]);
    SplitAt(order, t);
    FilterAppend(f, order[..t] + [y], order[t + 1..]);
    FilterSnoc(f, order[..t], y);
    assert order[..t + 1] == order[..t] + [y];
    assert view == before + [y] + after;
    FilterNoDup(f, order);
    assert view[|before|] == y;
    assert |before| == j;
  }

  lemma RemovedFromView(order: seq<Id>, view: seq<Id>, f: nat, i: nat)
    requires NoDup(order) && IsViewOf(view, order) && f < |order| && i < |view| && order[f] == view[i]
    ensures Filter(InView(view), RemoveAt(order, f)) == RemoveAt(view, i)
  {
    PlaceInView(order, view, f, i);
    FilterAppend(InView(view), order[..f], order[f + 1..]);
  }

  // How much of the shortened order in front of position t is visible.
  lemma VisibleBefore(order: seq<Id>, view: seq<Id>, f: nat, i: nat, t: nat, j: nat)
    requires NoDup(order) && IsViewOf(view, order)
    requires f < |order| && i < |view| && order[f] == view[i] && t < |order| && j < |view| && order[t] == view[j]
    ensures |Filter(InView(view), RemoveAt(order, f)[..t])| == j
  {
    var p := InView(view);
    PlaceInView(order, view, t, j);
    if f < t {
      var front := order[..t + 1];
      assert RemoveAt(order, f)[..t] == front[..f] + front[f + 1..];
      SplitAt(front, f);
      FilterAppend(p, front[..f] + [front[f]], front[f + 1..]);
      FilterSnoc(p, front[..f], front[f]);
      FilterAppend(p, front[..f], front[f + 1..]);
    } else {
      assert RemoveAt(order, f)[..t] == order[..t];
    }
  }

  /** On the view, the two global splices are one move. */
  lemma MoveInView(order: seq<Id>, view: seq<Id>, i: nat, j: nat)
    requires NoDup(order) && IsViewOf(view, order) && i < |view| && j < |view|
    ensures view[i] in order && view[j] in order
    ensures Filter(InView(view), MoveIds(order, view[i], view[j])) == Move(view, i, j)
  {
    FilterMembers(InView(view), order);
    var p, x, y := InView(view), view[i], view[j];
    var f, t := IndexOf(order, x), IndexOf(order, y);
    var rest := RemoveAt(order, f);
    RemovedFromView(order, view, f, i);
    VisibleBefore(order, view, f, i, t, j);
    var a, b := Filter(p, rest[..t]), Filter(p, rest[t..]);
    assert rest == rest[..t] + rest[t..];
    FilterAppend(p, rest[..t], rest[t..]);
    FilterAppend(p, rest[..t] + [x], rest[t..]);
    FilterSnoc(p, rest[..t], x);
    assert a + b == RemoveAt(view, i) && |a| == j;
    assert a == RemoveAt(view, i)[..j] && b == RemoveAt(view, i)[j..];
  }

  lemma RemovedIsGone(s: seq<Id>, i: nat)
    requires NoDup(s) && i < |s|
    ensures NoDup(RemoveAt(s, i)) && s[i] !in RemoveAt(s, i)
    ensures multiset(s) == multiset(RemoveAt(s, i)) + multiset{s[i]}
  {
    SplitAt(s, i);
  }

  lemma InsertedOnce(rest: seq<Id>, j: nat, x: Id)
    requires NoDup(rest) && j <= |rest| && x !in rest
    ensures NoDup(InsertAt(rest, j, x))
    ensures multiset(InsertAt(rest, j, x)) == multiset(rest) + multiset{x}
  {
    assert rest == rest[..j] + rest[j..];
    var r := InsertAt(rest, j, x);
    forall p, q | 0 <= p < q < |r| ensures r[p] != r[q] {
      InsertedAt(rest, j, x, p);
      InsertedAt(rest, j, x, q);
    }
  }

  lemma InsertedAt(rest: seq<Id>, j: nat, x: Id, k: nat)
    requires j <= |rest| && k <= |rest|
    ensures InsertAt(rest, j, x)[k] == if k < j then rest[k] else if k == j then x else rest[k - 1]
  {
  }

  /** Where each element stands after a move. */
  lemma MoveAt(s: seq<Id>, i: nat, j: nat, k: nat)
    requires i < |s| && j < |s| && k < |s|
    ensures |Move(s, i, j)| == |s|
    ensures Move(s, i, j)[k] == (if k == j then s[i] else if i <= k < j then s[k + 1] else if j < k <= i then s[k - 1]
                                 else s[k])
  {
    InsertedAt(RemoveAt(s, i), j, s[i], k);
  }

  function Except(x: Id): Id -> bool {
    id => id != x
  }

  lemma WithoutInserted(rest: seq<Id>, j: nat, x: Id)
    requires j <= |rest| && x !in rest
    ensures Filter(Except(x), InsertAt(rest, j, x)) == rest
  {
    assert rest == rest[..j] + rest[j..];
    FilterSnoc(Except(x), rest[..j], x);
    FilterAppend(Except(x), rest[..j] + [x], rest[j..]);
    FilterAll(Except(x), rest[..j]);
    FilterAll(Except(x), rest[j..]);
  }

  // A move is a permutation, and all other ids keep their order among themselves.
  lemma MoveKeepsOthers(s: seq<Id>, i: nat, j: nat)
    requires NoDup(s) && i < |s| && j < |s|
    ensures NoDup(Move(s, i, j)) && multiset(Move(s, i, j)) == multiset(s)
    ensures Filter(Except(s[i]), Move(s, i, j)) == Filter(Except(s[i]), s)
  {
    var rest, x := RemoveAt(s, i), s[i];
    RemovedIsGone(s, i);
    InsertedOnce(rest, j, x);
    WithoutInserted(rest, j, x);
    WithoutInserted(rest, i, x);
    PutBack(s, i);
  }

  lemma PutBack(s: seq<Id>, i: nat)
    requires i < |s|
    ensures InsertAt(RemoveAt(s, i), i, s[i]) == s
  {
    var rest := RemoveAt(s, i);
    assert rest[..i] == s[..i] && rest[i..] == s[i + 1..];
    SplitAt(s, i);
  }

  // ---------------------------------------------------------------- applyReorder

  // The ids of the context list that the order knows; the rest of the list is ignored.
  function ContextOrder(normalized: seq<Id>, contextIds: seq<Id>): (context: seq<Id>)
    ensures forall i :: 0 <= i < |context| ==> context[i] in normalized
  {
    FilterMembers(InView(normalized), contextIds);
    var context := Filter(InView(normalized), contextIds);
    assert forall i :: 0 <= i < |context| ==> context[i] in context;
    context
  }

  // An index outside the list reads undefined, and undefined and "" are both false.
  predicate Hits(context: seq<Id>, index: int) {
    0 <= index < |context| && context[index] != ""
  }

  function Reordered(normalized: seq<Id>, fromIndex: int, toIndex: int, contextIds: seq<Id>): seq<Id> {
    var context := ContextOrder(normalized, contextIds);
    if Hits(context, fromIndex) && Hits(context, toIndex) then
      MoveIds(normalized, context[fromIndex], context[toIndex])
    else normalized
  }

  // A context list that is itself a view of the order is used as it is.
  lemma ViewIsContext(order: seq<Id>, view: seq<Id>)
    requires IsViewOf(view, order)
    ensures ContextOrder(order, view) == view
  {
    FilterMembers(InView(view), order);
    FilterAll(InView(order), view);
  }

  /** Dragging in a view: the view changes by that move, the whole order by a permutation that keeps
      all else in place. */
  lemma ReorderIsExact(order: seq<Id>, view: seq<Id>, i: nat, j: nat)
    requires NoDup(order) && IsViewOf(view, order) && i < |view| && j < |view| && "" !in order
    ensures var next := Reordered(order, i, j, view);
      && Filter(InView(view), next) == Move(view, i, j)
      && NoDup(next) && multiset(next) == multiset(order)
      && Filter(Except(view[i]), next) == Filter(Except(view[i]), order)
  {
    ViewIsContext(order, view);
    FilterMembers(InView(view), order);
    MoveInView(order, view, i, j);
    MoveKeepsOthers(order, IndexOf(order, view[i]), IndexOf(order, view[j]));
  }

  // An order of exactly the subscriptions, as it is stored between drags.
  ghost predicate IsOrderOf(order: seq<Id>, ids: seq<Id>) {
    NoDup(order) && "" !in order && forall id :: id in order <==> id in ids
  }

  /** A drag from the stored order: the element lands where it was dropped in the list, all others keep
      their order, and so do the ids that the list does not show. */
  lemma DragFromStored(stored: seq<Id>, ids: seq<Id>, view: seq<Id>, i: nat, j: nat)
    requires IsOrderOf(stored, ids) && IsViewOf(view, stored) && i < |view| && j < |view|
    ensures var next := Reordered(Normalized(stored, ids), i, j, view);
      && IsOrderOf(next, ids)
      && Filter(InView(view), next) == Move(view, i, j) && Move(view, i, j)[j] == view[i]
      && Filter((id: Id) => id != view[i], next) == Filter((id: Id) => id != view[i], stored)
  {
    ExactOrderIsFixed(stored, ids);
    ReorderIsExact(stored, view, i, j);
    MoveAt(view, i, j, j);
    var next := Reordered(stored, i, j, view);
    FilterSame((id: Id) => id != view[i], Except(view[i]), next);
    FilterSame((id: Id) => id != view[i], Except(view[i]), stored);
    forall id ensures id in next <==> id in stored {
      assert id in next <==> id in multiset(next);
      assert id in stored <==> id in multiset(stored);
    }
  }

  /** Where an index does not point at an element of the list, or at an empty id, nothing moves and nothing
      is to be saved. */
  lemma MissedDrag(normalized: seq<Id>, list: seq<Id>, fromIndex: int, toIndex: int)
    requires forall id :: id in list ==> id in normalized
    requires !(0 <= fromIndex < |list|) || list[fromIndex] == "" || !(0 <= toIndex < |list|) || list[toIndex] == ""
    ensures Reordered(normalized, fromIndex, toIndex, list) == normalized
    ensures !Hits(ContextOrder(normalized, list), fromIndex) || !Hits(ContextOrder(normalized, list), toIndex)
  {
    FilterAll(InView(normalized), list);
  }

  // Every drag in a list is exact iff the list is a view of the order.
  lemma AlwaysExactIff(order: seq<Id>, list: seq<Id>)
    requires NoDup(order) && "" !in order && list != [] && forall id :: id in list ==> id in order
    ensures (forall i, j :: 0 <= i < |list| && 0 <= j < |list|
                            ==> Filter(InView(list), Reordered(order, i, j, list)) == Move(list, i, j))
       <==> IsViewOf(list, order)
  {
    if IsViewOf(list, order) {
      forall i, j | 0 <= i < |list| && 0 <= j < |list|
        ensures Filter(InView(list), Reordered(order, i, j, list)) == Move(list, i, j)
      {
        ReorderIsExact(order, list, i, j);
      }
    } else {
      StayingPut(order, list);
    }
  }

  // Dropping the first element where it is changes neither the order nor the list.
  lemma StayingPut(order: seq<Id>, list: seq<Id>)
    requires "" !in order && list != [] && forall id :: id in list ==> id in order
    ensures Reordered(order, 0, 0, list) == order && Move(list, 0, 0) == list
  {
    FilterAll(InView(order), list);
    PutBack(order, IndexOf(order, list[0]));
    PutBack(list, 0);
  }

  // ---------------------------------------------------------------- moveByKeyboard

  // One place up and one place down are both an exchange of neighbours.
  lemma MoveByOne(s: seq<Id>, i: nat)
    requires 1 <= i < |s|
    ensures Move(s, i, i - 1) == s[i - 1 := s[i]][i := s[i - 1]] == Move(s, i - 1, i)
  {
    MoveUpText(s, i, i - 1);
    var down := RemoveAt(s, i - 1);
    assert down[..i] == s[..i - 1] + [s[i]] && down[i..] == s[i + 1..];
  }

  // Up and then down puts the view back.
  lemma UpThenDownInView(view: seq<Id>, i: nat)
    requires 1 <= i < |view|
    ensures Move(Move(view, i, i - 1), i - 1, i) == view
  {
    MoveByOne(view, i);
    MoveByOne(Move(view, i, i - 1), i);
  }

  lemma MoveUpText(order: seq<Id>, f: nat, t: nat)
    requires t < f < |order|
    ensures Move(order, f, t) == order[..t] + [order[f]] + order[t..f] + order[f + 1..]
  {
    var rest := RemoveAt(order, f);
    assert rest[..t] == order[..t] && rest[t..] == order[t..f] + order[f + 1..];
  }

  /**
    In the whole order, up and then down puts everything back iff no hidden id stood between
    the two neighbours of the view.
   */
  lemma UpThenDownInOrderIff(order: seq<Id>, t: nat, f: nat)
    requires NoDup(order) && t < f < |order|
    ensures var up := Move(order, f, t);
      && up[t] == order[f] && up[t + 1] == order[t]
      && (Move(up, t, t + 1) == order <==> f == t + 1)
  {
    var up := Move(order, f, t);
    MoveUpText(order, f, t);
    assert up[t] == order[f] && up[t + 1] == order[t..f][0] == order[t];
    MoveByOne(up, t + 1);
    assert Move(up, t, t + 1)[t + 1] == order[f];
    if f == t + 1 {
      UpThenDownInView(order, f);
    }
  }

  lemma ViewFollowsOrder(order: seq<Id>, view: seq<Id>, i: nat)
    requires NoDup(order) && IsViewOf(view, order) && 1 <= i < |view|
    ensures view[i] in order && view[i - 1] in order
    ensures IndexOf(order, view[i - 1]) < IndexOf(order, view[i])
  {
    FilterMembers(InView(view), order);
    FilterNoDup(InView(view), order);
    var t, f := IndexOf(order, view[i - 1]), IndexOf(order, view[i]);
    PlaceInView(order, view, f, i);
    FilterMembers(InView(view), order[..f]);
    assert view[i - 1] in view[..i];
    assert view[i - 1] in order[..f];
    var k :| 0 <= k < f && order[k] == view[i - 1];
  }

  lemma IndexIsUnique(order: seq<Id>, k: nat)
    requires NoDup(order) && k < |order|
    ensures order[k] in order && IndexOf(order, order[k]) == k
  {
  }

  // After one step up: the view of the new order, and where the two neighbours are in it.
  lemma AfterUp(order: seq<Id>, view: seq<Id>, i: nat, t: nat, f: nat)
    requires NoDup(order) && IsViewOf(view, order) && 1 <= i < |view| && "" !in order
    requires t < f < |order| && order[t] == view[i - 1] && order[f] == view[i]
    ensures var up, viewUp := Reordered(order, i, i - 1, view), Move(view, i, i - 1);
      && up == Move(order, f, t) && Filter(InView(view), up) == viewUp
      && NoDup(up) && "" !in up && IsViewOf(viewUp, up)
      && up[t] == viewUp[i - 1] && up[t + 1] == viewUp[i]
  {
    ReorderIsExact(order, view, i, i - 1);
    ReorderedInView(order, view, i, i - 1, f, t);
    MovedViewIsView(view, Move(order, f, t), i);
    MoveByOne(view, i);
    UpThenDownInOrderIff(order, t, f);
    assert "" !in multiset(order);
  }

  /**
    The arrow keys: up and then down restores the view, and the whole order too iff the
    neighbour in the view was the neighbour in the order.
   */
  lemma KeyboardUpThenDown(order: seq<Id>, view: seq<Id>, i: nat)
    requires NoDup(order) && IsViewOf(view, order) && 1 <= i < |view| && "" !in order
    ensures view[i] in order && view[i - 1] in order
    ensures var up := Reordered(order, i, i - 1, view);
            var viewUp := Filter(InView(view), up);
            var down := Reordered(up, i - 1, i, viewUp);
      && Filter(InView(viewUp), down) == view
      && (down == order <==> IndexOf(order, view[i]) == IndexOf(order, view[i - 1]) + 1)
  {
    ViewFollowsOrder(order, view, i);
    var t, f := IndexOf(order, view[i - 1]), IndexOf(order, view[i]);
    AfterUp(order, view, i, t, f);
    var up, viewUp := Move(order, f, t), Move(view, i, i - 1);
    assert Filter(InView(viewUp), Reordered(up, i - 1, i, viewUp)) == view by {
      ReorderIsExact(up, viewUp, i - 1, i);
      UpThenDownInView(view, i);
    }
    assert Reordered(up, i - 1, i, viewUp) == Move(up, t, t + 1) by {
      ReorderedInView(up, viewUp, i - 1, i, t, t + 1);
    }
    UpThenDownInOrderIff(order, t, f);
  }

  lemma ReorderedInView(order: seq<Id>, view: seq<Id>, i: nat, j: nat, f: nat, t: nat)
    requires NoDup(order) && IsViewOf(view, order) && i < |view| && j < |view| && "" !in order
    requires f < |order| && t < |order| && order[f] == view[i] && order[t] == view[j]
    ensures Reordered(order, i, j, view) == Move(order, f, t)
  {
    ViewIsContext(order, view);
    IndexIsUnique(order, f);
    IndexIsUnique(order, t);
  }

  lemma MovedViewIsView(view: seq<Id>, up: seq<Id>, i: nat)
    requires 1 <= i < |view| && Filter(InView(view), up) == Move(view, i, i - 1)
    ensures IsViewOf(Move(view, i, i - 1), up)
  {
    var moved := Move(view, i, i - 1);
    forall id ensures id in moved <==> id in view {
      SplitAt(view, i);
      assert view == view[..i - 1] + [view[i - 1]] + [view[i]] + view[i + 1..];
      assert moved == view[..i - 1] + [view[i]] + [view[i - 1]] + view[i + 1..];
    }
    FilterSame(InView(view), InView(moved), up);
  }

  // ---------------------------------------------------------------- the hook

  class SubscriptionPriorityOrder {
    const subscriptionIds: seq<Id>
    var priorityOrder: seq<Id>
    var pendingSave: Option<seq<Id>>  // what the debounce timer is going to store

    constructor (saved: seq<Id>, subscriptionIds: seq<Id>)
      ensures this.subscriptionIds == subscriptionIds && priorityOrder == Normalized(saved, subscriptionIds)
      ensures pendingSave == None
    {
      this.subscriptionIds := subscriptionIds;
      var normalized := NormalizePriorityOrder(saved, subscriptionIds);
      priorityOrder := normalized;
      pendingSave := None;
    }

    method ApplyReorder(fromIndex: int, toIndex: int, contextIds: seq<Id>)
      modifies this
      ensures var normalized := Normalized(old(priorityOrder), subscriptionIds);
              var context := ContextOrder(normalized, contextIds);
        && priorityOrder == Reordered(normalized, fromIndex, toIndex, contextIds)
        && pendingSave == if Hits(context, fromIndex) && Hits(context, toIndex) then Some(priorityOrder)
                          else old(pendingSave)
    {
      var normalized := NormalizePriorityOrder(priorityOrder, subscriptionIds);
      var context := ContextOrder(normalized, contextIds);
      if !Hits(context, fromIndex) || !Hits(context, toIndex) {
        priorityOrder := normalized;
        return;
      }
      var fromGlobal, toGlobal := IndexOf(normalized, context[fromIndex]), IndexOf(normalized, context[toIndex]);
      var next := normalized[..fromGlobal] + normalized[fromGlobal + 1..];
      next := next[..toGlobal] + [context[fromIndex]] + next[toGlobal..];
      pendingSave := Some(next);
      priorityOrder := next;
    }

    method MoveByKeyboard(index: int, up: bool, contextIds: seq<Id>)
      modifies this
      ensures var target := if up then index - 1 else index + 1;
        if 0 <= target < |contextIds|
        then priorityOrder == Reordered(Normalized(old(priorityOrder), subscriptionIds), index, target, contextIds)
        else priorityOrder == old(priorityOrder) && pendingSave == old(pendingSave)
    {
      var targetIndex := if up then index - 1 else index + 1;
      if targetIndex < 0 || targetIndex >= |contextIds| { return; }
      ApplyReorder(index, targetIndex, contextIds);
    }
  }
}
