/**
  The offline mutation queue of client/hooks/use-mutation-queue.ts.

  A pass that nothing interrupts is the method ProcessQueue; passes that overlap are runs of
  `Next`, where a step is one answer to one request.
 */
module MutationQueue {
  import opened Options
  import opened Seqs

  datatype Mutation = Mutation(id: string, payload: string, attempts: nat)

  const MAX_ATTEMPTS := 3

  // ---------------------------------------------------------------- updates of the pending list

  function IdIsNot(id: string): Mutation -> bool {
    (m: Mutation) => m.id != id
  }

  // prev.filter(m => m.id !== id)
  function Drop(pending: seq<Mutation>, id: string): seq<Mutation> {
    Filter(IdIsNot(id), pending)
  }

  function Bump(pending: seq<Mutation>, id: string): seq<Mutation> {
    if pending == [] then []
    else if pending[0].id == id then [pending[0].(attempts := pending[0].attempts + 1)] + pending[1..]
    else [pending[0]] + Bump(pending[1..], id)
  }

  function Find(pending: seq<Mutation>, id: string): Option<Mutation> {
    if pending == [] then None
    else if pending[0].id == id then Some(pending[0])
    else Find(pending[1..], id)
  }

  // A 409: one more attempt, and out at the third.
  function Conflicted(pending: seq<Mutation>, id: string): seq<Mutation> {
    match Find(pending, id)
    case None => pending
    case Some(m) => if m.attempts + 1 >= MAX_ATTEMPTS then Drop(Bump(pending, id), id) else Bump(pending, id)
  }

  // ---------------------------------------------------------------- one uninterrupted pass

  // The answer to a mutation's own request: success, conflict with a readable body, or anything
  // else (another status, a network error, an unreadable body, an unknown type).
  datatype Answer = Success | Conflict | Nothing

  type Server = string -> Answer

  // What one pass does to one mutation.
  function Survives(m: Mutation, answer: Answer): Option<Mutation> {
    match answer
    case Success => None
    case Nothing => Some(m)
    case Conflict => if m.attempts + 1 >= MAX_ATTEMPTS then None else Some(m.(attempts := m.attempts + 1))
  }

  function AfterPass(pending: seq<Mutation>, server: Server): seq<Mutation> {
    if pending == [] then []
    else
      var rest := AfterPass(pending[..|pending| - 1], server);
      match Survives(pending[|pending| - 1], server(pending[|pending| - 1].id))
      case None => rest
      case Some(m) => rest + [m]
  }

  ghost predicate UniqueIds(pending: seq<Mutation>) {
    forall i, j :: 0 <= i < j < |pending| ==> pending[i].id != pending[j].id
  }

  ghost predicate HasId(pending: seq<Mutation>, id: string) {
    exists m :: m in pending && m.id == id
  }

  lemma {:induction false} DropAbsent(pending: seq<Mutation>, id: string)
    requires !HasId(pending, id)
    ensures Drop(pending, id) == pending
  {
    FilterAll(IdIsNot(id), pending);
  }

  // Dropping or bumping a mutation that stands between others that are not it.
  lemma DropBetween(before: seq<Mutation>, m: Mutation, after: seq<Mutation>)
    requires !HasId(before, m.id) && !HasId(after, m.id)
    ensures Drop(before + [m] + after, m.id) == before + after
  {
    FilterAppend(IdIsNot(m.id), before + [m], after);
    FilterSnoc(IdIsNot(m.id), before, m);
    DropAbsent(before, m.id);
    DropAbsent(after, m.id);
  }

  lemma {:induction false} BumpBetween(before: seq<Mutation>, m: Mutation, after: seq<Mutation>)
    requires !HasId(before, m.id)
    ensures Bump(before + [m] + after, m.id) == before + [m.(attempts := m.attempts + 1)] + after
    ensures Find(before + [m] + after, m.id) == Some(m)
  {
    var all := before + [m] + after;
    if before == [] {
      assert all[0] == m && all[1..] == after;
    } else {
      var rest := before[1..];
      assert before[0] in before;
      assert forall x :: x in rest ==> x in before;
      BumpBetween(rest, m, after);
      assert all[0] == before[0] && all[1..] == rest + [m] + after;
      assert before == [before[0]] + rest;
    }
  }

  lemma ConflictedBetween(before: seq<Mutation>, m: Mutation, after: seq<Mutation>)
    requires !HasId(before, m.id) && !HasId(after, m.id)
    ensures var left := match Survives(m, Conflict) case None => [] case Some(k) => [k];
      Conflicted(before + [m] + after, m.id) == before + left + after
  {
    BumpBetween(before, m, after);
    DropBetween(before, m.(attempts := m.attempts + 1), after);
  }

  lemma {:induction false} AfterPassIds(pending: seq<Mutation>, server: Server, id: string)
    requires HasId(AfterPass(pending, server), id)
    ensures HasId(pending, id)
  {
    if pending != [] {
      var front, last := pending[..|pending| - 1], pending[|pending| - 1];
      if last.id == id {
        assert last in pending;
      } else {
        assert HasId(AfterPass(front, server), id);
        AfterPassIds(front, server, id);
        assert forall x :: x in front ==> x in pending;
      }
    }
  }

  // The store has lost exactly the mutations met whose request succeeded.
  ghost predicate StoreAfter(before: map<string, Mutation>, stored: map<string, Mutation>,
                             met: seq<Mutation>, server: Server) {
    && (forall id :: id in stored <==> id in before && !(HasId(met, id) && server(id).Success?))
    && (forall id :: id in stored ==> stored[id] == before[id])
  }

  lemma StoreStep(before: map<string, Mutation>, stored: map<string, Mutation>,
                  mutations: seq<Mutation>, i: nat, server: Server)
    requires i < |mutations| && StoreAfter(before, stored, mutations[..i], server)
    ensures var id := mutations[i].id;
      StoreAfter(before, if server(id).Success? then stored - {id} else stored, mutations[..i + 1], server)
  {
    HasIdNext(mutations, i);
  }

  lemma {:induction false} AfterPassUnique(pending: seq<Mutation>, server: Server)
    requires UniqueIds(pending)
    ensures UniqueIds(AfterPass(pending, server))
  {
    if pending != [] {
      var front, last := pending[..|pending| - 1], pending[|pending| - 1];
      AfterPassUnique(front, server);
      forall m | m in AfterPass(front, server) ensures m.id != last.id {
        if m.id == last.id {
          AfterPassIds(front, server, last.id);
        }
      }
    }
  }

  class Queue {
    var pendingMutations: seq<Mutation>
    var stored: map<string, Mutation>

    constructor ()
      ensures pendingMutations == [] && stored == map[]
    {
      pendingMutations, stored := [], map[];
    }

    // A mutation that cannot be stored is not queued either.
    method QueueMutation(id: string, payload: string, storable: bool)
      modifies this
      ensures var m := Mutation(id, payload, 0);
        && pendingMutations == (if storable then old(pendingMutations) + [m] else old(pendingMutations))
        && stored == if storable then old(stored)[id := m] else old(stored)
    {
      var mutation := Mutation(id, payload, 0);
      if storable {
        stored := stored[id := mutation];
        pendingMutations := pendingMutations + [mutation];
      }
    }

    /** processQueue: each pending mutation meets its own answer, and the survivors keep their order. */
    method ProcessQueue(server: Server)
      requires UniqueIds(pendingMutations)
      modifies this
      ensures pendingMutations == AfterPass(old(pendingMutations), server)
      ensures StoreAfter(old(stored), stored, old(pendingMutations), server)
      ensures UniqueIds(pendingMutations)
    {
      var mutations := pendingMutations;
      ghost var before := stored;
      for i := 0 to |mutations|
        invariant pendingMutations == AfterPass(mutations[..i], server) + mutations[i..]
        invariant StoreAfter(before, stored, mutations[..i], server)
      {
        var mutation := mutations[i];
        PassStep(mutations, i, server);
        StoreStep(before, stored, mutations, i, server);
        match server(mutation.id) {
          case Success =>
            stored := stored - {mutation.id};
            pendingMutations := Drop(pendingMutations, mutation.id);
          case Conflict =>
            pendingMutations := Conflicted(pendingMutations, mutation.id);
          case Nothing =>
        }
      }
      assert mutations[..|mutations|] == mutations;
      AfterPassUnique(mutations, server);
    }
  }

  lemma PassStep(mutations: seq<Mutation>, i: nat, server: Server)
    requires UniqueIds(mutations) && i < |mutations|
    ensures var m, done := mutations[i], AfterPass(mutations[..i], server);
            var now, next := done + mutations[i..], AfterPass(mutations[..i + 1], server) + mutations[i + 1..];
      match server(m.id)
      case Success => Drop(now, m.id) == next
      case Conflict => Conflicted(now, m.id) == next
      case Nothing => now == next
  {
    var m, done, after := mutations[i], AfterPass(mutations[..i], server), mutations[i + 1..];
    assert done + mutations[i..] == done + [m] + after;
    assert mutations[..i + 1][..i] == mutations[..i];
    if HasId(done, m.id) {
      AfterPassIds(mutations[..i], server, m.id);
    }
    DropBetween(done, m, after);
    ConflictedBetween(done, m, after);
    assert done + [] + after == done + after;
  }

  lemma HasIdNext(mutations: seq<Mutation>, i: nat)
    requires i < |mutations|
    ensures forall id :: HasId(mutations[..i + 1], id) <==> HasId(mutations[..i], id) || id == mutations[i].id
  {
    var front, last := mutations[..i], mutations[i];
    assert mutations[..i + 1] == front + [last];
    forall id ensures HasId(front + [last], id) <==> HasId(front, id) || id == last.id {
      assert last in front + [last];
      if HasId(front, id) {
        var m :| m in front && m.id == id;
        assert m in front + [last];
      }
    }
  }

  // ---------------------------------------------------------------- what a pass leaves

  // A mutation that met no answer is left as it is; one that met a conflict, if not its third, with
  // one attempt more.
  ghost predicate IsLeftOf(m: Mutation, before: Mutation, answer: Answer) {
    || (answer == Nothing && m == before)
    || (answer == Conflict && before.attempts < 2 && m == before.(attempts := before.attempts + 1))
  }

  /** Exactly these are left by a pass. */
  lemma {:induction false} LeftByPass(pending: seq<Mutation>, server: Server, m: Mutation)
    ensures m in AfterPass(pending, server) <==> exists b :: b in pending && IsLeftOf(m, b, server(b.id))
  {
    if pending != [] {
      var front, last := pending[..|pending| - 1], pending[|pending| - 1];
      LeftByPass(front, server, m);
      assert pending == front + [last];
      assert forall b :: b in pending <==> b in front || b == last;
      assert IsLeftOf(m, last, server(last.id)) <==> Survives(last, server(last.id)) == Some(m);
    }
  }

  // The steps of a pass that nothing interrupts.
  function StepsFor(id: string, answer: Answer): seq<Step> {
    match answer
    case Success => [Succeed(id, true), Settle(id)]
    case Conflict => [Refuse(id)]
    case Nothing => []
  }

  function PassSteps(pending: seq<Mutation>, server: Server): seq<Step> {
    if pending == [] then []
    else
      var last := pending[|pending| - 1];
      PassSteps(pending[..|pending| - 1], server) + StepsFor(last.id, server(last.id))
  }

  lemma {:induction false} RunAppend(s: State, a: seq<Step>, b: seq<Step>)
    ensures Run(s, a + b) == Run(Run(s, a), b)
    decreases |a|
  {
    if a == [] {
      assert a + b == b;
    } else {
      RunAppend(Next(s, a[0]), a[1..], b);
      assert (a + b)[0] == a[0] && (a + b)[1..] == a[1..] + b;
    }
  }

  lemma StepsForOne(s: State, id: string, answer: Answer)
    requires id in s.queued
    ensures var t := Run(s, StepsFor(id, answer));
      && t.queued == s.queued
      && t.pending == match answer
           case Success => Drop(s.pending, id)
           case Conflict => Conflicted(s.pending, id)
           case Nothing => s.pending
  {
    if answer == Success {
      var told := Next(s, Succeed(id, true));
      RunCons(s, Succeed(id, true), [Settle(id)]);
      RunCons(told, Settle(id), []);
      assert StepsFor(id, answer) == [Succeed(id, true)] + [Settle(id)] && [Settle(id)] == [Settle(id)] + [];
    } else if answer == Conflict {
      RunCons(s, Refuse(id), []);
      assert StepsFor(id, answer) == [Refuse(id)] + [];
    }
  }

  lemma NextOfPass(s: State, t: State, server: Server, i: nat)
    requires UniqueIds(s.pending) && i < |s.pending| && s.pending[i].id in t.queued
    requires t.pending == AfterPass(s.pending[..i], server) + s.pending[i..]
    ensures var next := Run(t, StepsFor(s.pending[i].id, server(s.pending[i].id)));
      next.queued == t.queued && next.pending == AfterPass(s.pending[..i + 1], server) + s.pending[i + 1..]
  {
    StepsForOne(t, s.pending[i].id, server(s.pending[i].id));
    PassStep(s.pending, i, server);
  }

  lemma PassStepsNext(pending: seq<Mutation>, server: Server, i: nat)
    requires i < |pending|
    ensures PassSteps(pending[..i + 1], server)
         == PassSteps(pending[..i], server) + StepsFor(pending[i].id, server(pending[i].id))
  {
    assert pending[..i + 1][..i] == pending[..i];
  }

  /** A pass that nothing interrupts is a run of these steps: what holds of every run holds of it. */
  lemma {:induction false} PassIsRun(s: State, server: Server, i: nat)
    requires UniqueIds(s.pending) && i <= |s.pending| && forall m :: m in s.pending ==> m.id in s.queued
    ensures var t := Run(s, PassSteps(s.pending[..i], server));
      t.queued == s.queued && t.pending == AfterPass(s.pending[..i], server) + s.pending[i..]
  {
    if i == 0 {
      assert s.pending[..0] == [] && [] + s.pending[0..] == s.pending;
    } else {
      var m := s.pending[i - 1];
      assert m in s.pending;
      PassIsRun(s, server, i - 1);
      PassStepsNext(s.pending, server, i - 1);
      var before := PassSteps(s.pending[..i - 1], server);
      RunAppend(s, before, StepsFor(m.id, server(m.id)));
      NextOfPass(s, Run(s, before), server, i - 1);
    }
  }

  // ---------------------------------------------------------------- three passes

  ghost predicate AttemptsIn(pending: seq<Mutation>, low: nat) {
    forall m :: m in pending ==> low <= m.attempts < MAX_ATTEMPTS
  }

  lemma {:induction false} PassRaisesAttempts(pending: seq<Mutation>, server: Server, low: nat)
    requires AttemptsIn(pending, low) && forall id :: server(id) != Nothing
    ensures AttemptsIn(AfterPass(pending, server), low + 1)
  {
    if pending != [] {
      assert AttemptsIn(pending[..|pending| - 1], low);
      PassRaisesAttempts(pending[..|pending| - 1], server, low);
      assert pending[|pending| - 1] in pending;
    }
  }

  /** If the server answers every request with success or conflict, three passes empty the queue. */
  lemma {:induction false} ThreePassesEmpty(pending: seq<Mutation>, s1: Server, s2: Server, s3: Server)
    requires AttemptsIn(pending, 0)
    requires forall id :: s1(id) != Nothing && s2(id) != Nothing && s3(id) != Nothing
    ensures AfterPass(AfterPass(AfterPass(pending, s1), s2), s3) == []
  {
    PassRaisesAttempts(pending, s1, 0);
    PassRaisesAttempts(AfterPass(pending, s1), s2, 1);
    PassRaisesAttempts(AfterPass(AfterPass(pending, s1), s2), s3, 2);
    NobodyLeft(AfterPass(AfterPass(AfterPass(pending, s1), s2), s3));
  }

  lemma NobodyLeft(pending: seq<Mutation>)
    ensures AttemptsIn(pending, MAX_ATTEMPTS) ==> pending == []
  {
    assert pending != [] ==> pending[0] in pending;
  }

  // ---------------------------------------------------------------- overlapping passes

  // queued: everything ever queued, in order. acked, conflicts: the answers each mutation has had.
  datatype State = State(pending: seq<Mutation>, stored: set<string>,
                         queued: seq<string>, acked: set<string>, conflicts: map<string, nat>)

  // A step is a new mutation, one answer to one request, or the list update that follows a
  // success once the store has been told (or has failed to be told) to delete the mutation.
  datatype Step =
    | Enqueue(id: string, payload: string, storable: bool)
    | Succeed(id: string, deleted: bool)
    | Settle(id: string)
    | Refuse(id: string)

  const INITIAL: State := State([], {}, [], {}, map[])

  function Count(conflicts: map<string, nat>, id: string): nat {
    if id in conflicts then conflicts[id] else 0
  }

  function CountUp(conflicts: map<string, nat>, id: string): map<string, nat> {
    conflicts[id := Count(conflicts, id) + 1]
  }

  // Ids are random and never repeat. Requests are only ever sent for queued mutations.
  function Next(s: State, step: Step): State {
    match step
    case Enqueue(id, payload, storable) =>
      if !storable || id in s.queued then s
      else s.(pending := s.pending + [Mutation(id, payload, 0)], stored := s.stored + {id}, queued := s.queued + [id])
    case Succeed(id, deleted) =>
      if id !in s.queued then s
      else s.(acked := s.acked + {id}, stored := if deleted then s.stored - {id} else s.stored)
    case Settle(id) =>
      if id !in s.acked then s else s.(pending := Drop(s.pending, id))
    case Refuse(id) =>
      if id !in s.queued then s
      else s.(pending := Conflicted(s.pending, id), conflicts := CountUp(s.conflicts, id))
  }

  function Run(s: State, steps: seq<Step>): State
    decreases |steps|
  {
    if steps == [] then s else Run(Next(s, steps[0]), steps[1..])
  }

  function Ids(pending: seq<Mutation>): seq<string> {
    if pending == [] then [] else [pending[0].id] + Ids(pending[1..])
  }

  predicate InPending(pending: seq<Mutation>, id: string) {
    id in Ids(pending)
  }

  function StillIn(pending: seq<Mutation>): string -> bool {
    id => InPending(pending, id)
  }

  // Survivors stand in the order in which they were queued.
  ghost predicate OrderKept(pending: seq<Mutation>, queued: seq<string>) {
    Ids(pending) == Filter(StillIn(pending), queued)
  }

  // A mutation has had as many conflicts as its attempts say, fewer than three.
  ghost predicate AttemptsTold(pending: seq<Mutation>, conflicts: map<string, nat>) {
    forall m :: m in pending ==> m.attempts == Count(conflicts, m.id) < MAX_ATTEMPTS
  }

  // One that is gone was acknowledged or met its third conflict.
  ghost predicate GoneForReason(pending: seq<Mutation>, queued: seq<string>, acked: set<string>,
                                conflicts: map<string, nat>) {
    forall id :: id in queued && !InPending(pending, id) ==> id in acked || Count(conflicts, id) >= MAX_ATTEMPTS
  }

  // One that was not acknowledged is still in the store.
  ghost predicate Durable(queued: seq<string>, acked: set<string>, stored: set<string>) {
    forall id :: id in queued && id !in acked ==> id in stored
  }

  ghost predicate OnlyQueued(s: State) {
    forall id :: id in s.acked || id in s.stored || id in s.conflicts ==> id in s.queued
  }

  ghost predicate Inv(s: State) {
    && NoDup(s.queued) && OrderKept(s.pending, s.queued) && AttemptsTold(s.pending, s.conflicts)
    && GoneForReason(s.pending, s.queued, s.acked, s.conflicts)
    && Durable(s.queued, s.acked, s.stored) && OnlyQueued(s)
  }

  lemma {:induction false} IdsMembers(pending: seq<Mutation>, id: string)
    ensures InPending(pending, id) <==> exists m :: m in pending && m.id == id
  {
    if pending != [] {
      IdsMembers(pending[1..], id);
      assert forall m :: m in pending <==> m == pending[0] || m in pending[1..];
    }
  }

  lemma {:induction false} IdsSnoc(pending: seq<Mutation>, m: Mutation)
    ensures Ids(pending + [m]) == Ids(pending) + [m.id]
  {
    if pending == [] {
      assert pending + [m] == [m] && Ids([m]) == [m.id] + Ids([]);
    } else {
      assert (pending + [m])[0] == pending[0] && (pending + [m])[1..] == pending[1..] + [m];
      IdsSnoc(pending[1..], m);
    }
  }

  function Not(id: string): string -> bool {
    x => x != id
  }

  lemma {:induction false} IdsDrop(pending: seq<Mutation>, id: string)
    ensures Ids(Drop(pending, id)) == Filter(Not(id), Ids(pending))
  {
    if pending != [] {
      IdsDrop(pending[1..], id);
      assert pending == [pending[0]] + pending[1..];
      FilterCons(IdIsNot(id), pending[0], pending[1..]);
      FilterCons(Not(id), pending[0].id, Ids(pending[1..]));
    }
  }

  lemma {:induction false} IdsBump(pending: seq<Mutation>, id: string)
    ensures Ids(Bump(pending, id)) == Ids(pending)
  {
    if pending != [] && pending[0].id != id {
      IdsBump(pending[1..], id);
    }
  }

  lemma {:induction false} BumpMembers(pending: seq<Mutation>, id: string, m: Mutation)
    requires NoDup(Ids(pending)) && m in Bump(pending, id)
    ensures if m.id == id then m.attempts > 0 && m.(attempts := m.attempts - 1) in pending else m in pending
  {
    var first, rest := pending[0], pending[1..];
    assert Ids(pending)[1..] == Ids(rest) && Ids(pending)[0] == first.id;
    if first.id == id {
      if m in rest {
        IdsMembers(rest, id);
        IdsMembers(rest, m.id);
        assert m.id in Ids(rest);
      }
    } else if m != first {
      BumpMembers(rest, id, m);
    }
  }

  lemma {:induction false} FindMember(pending: seq<Mutation>, id: string)
    ensures Find(pending, id).Some? ==> Find(pending, id).value in pending && Find(pending, id).value.id == id
    ensures Find(pending, id).None? <==> !InPending(pending, id)
  {
    if pending != [] && pending[0].id != id {
      FindMember(pending[1..], id);
    }
  }

  lemma DropMembers(pending: seq<Mutation>, id: string)
    ensures forall m :: m in Drop(pending, id) ==> m in pending && m.id != id
  {
    forall m | m in Drop(pending, id) ensures m in pending && m.id != id {
      FilterMember(IdIsNot(id), pending, m);
    }
  }

  lemma DropPending(pending: seq<Mutation>, id: string, x: string)
    ensures InPending(Drop(pending, id), x) <==> x != id && InPending(pending, x)
  {
    IdsDrop(pending, id);
    FilterMember(Not(id), Ids(pending), x);
  }

  // Dropping an id takes it, and nothing else, out of the surviving order.
  lemma DropKeepsOrder(pending: seq<Mutation>, queued: seq<string>, id: string)
    requires OrderKept(pending, queued)
    ensures OrderKept(Drop(pending, id), queued)
  {
    var left := Drop(pending, id);
    IdsDrop(pending, id);
    forall x ensures StillIn(left)(x) <==> Not(id)(x) && StillIn(pending)(x) {
      DropPending(pending, id, x);
    }
    FilterTwice(Not(id), StillIn(pending), StillIn(left), queued);
  }

  lemma SettleKeepsInv(s: State, id: string)
    requires Inv(s) && id in s.acked
    ensures Inv(Next(s, Settle(id)))
  {
    var left := Drop(s.pending, id);
    DropKeepsOrder(s.pending, s.queued, id);
    assert AttemptsTold(left, s.conflicts) by {
      DropMembers(s.pending, id);
    }
    forall x | x in s.queued && !InPending(left, x) ensures x in s.acked || Count(s.conflicts, x) >= MAX_ATTEMPTS {
      DropPending(s.pending, id, x);
    }
  }

  lemma PendingIdsUnique(pending: seq<Mutation>, queued: seq<string>)
    requires NoDup(queued) && OrderKept(pending, queued)
    ensures NoDup(Ids(pending)) && forall id :: InPending(pending, id) ==> id in queued
  {
    FilterNoDup(StillIn(pending), queued);
    forall id | InPending(pending, id) ensures id in queued {
      FilterMember(StillIn(pending), queued, id);
    }
  }

  // ---------------------------------------------------------------- a conflict

  // The conflict is the third one of the mutation, which drops it.
  predicate IsThird(pending: seq<Mutation>, id: string) {
    var found := Find(pending, id);
    found.Some? && found.value.attempts + 1 >= MAX_ATTEMPTS
  }

  lemma ConflictedCases(pending: seq<Mutation>, id: string)
    ensures Conflicted(pending, id) == if IsThird(pending, id) then Drop(Bump(pending, id), id) else Bump(pending, id)
  {
    if Find(pending, id).None? {
      BumpAbsent(pending, id);
    }
  }

  lemma {:induction false} BumpAbsent(pending: seq<Mutation>, id: string)
    requires Find(pending, id).None?
    ensures Bump(pending, id) == pending
  {
    if pending != [] {
      BumpAbsent(pending[1..], id);
      assert pending == [pending[0]] + pending[1..];
    }
  }

  lemma BumpPending(pending: seq<Mutation>, id: string, x: string)
    ensures InPending(Bump(pending, id), x) <==> InPending(pending, x)
  {
    IdsBump(pending, id);
  }

  lemma BumpKeepsOrder(pending: seq<Mutation>, queued: seq<string>, id: string)
    requires OrderKept(pending, queued)
    ensures OrderKept(Bump(pending, id), queued)
  {
    IdsBump(pending, id);
    FilterSame(StillIn(pending), StillIn(Bump(pending, id)), queued);
  }

  lemma ConflictKeepsOrder(pending: seq<Mutation>, queued: seq<string>, id: string)
    requires OrderKept(pending, queued)
    ensures OrderKept(Conflicted(pending, id), queued)
  {
    ConflictedCases(pending, id);
    BumpKeepsOrder(pending, queued, id);
    DropKeepsOrder(Bump(pending, id), queued, id);
  }

  lemma ConflictPending(pending: seq<Mutation>, id: string, x: string)
    ensures InPending(Conflicted(pending, id), x) <==> InPending(pending, x) && !(x == id && IsThird(pending, id))
  {
    ConflictedCases(pending, id);
    BumpPending(pending, id, x);
    DropPending(Bump(pending, id), id, x);
  }

  lemma CountAfter(conflicts: map<string, nat>, id: string, x: string)
    ensures Count(CountUp(conflicts, id), x) == Count(conflicts, x) + if x == id then 1 else 0
  {
  }

  // After a conflict the attempts of the mutation are again as many as the count says.
  lemma ConflictKeepsAttempts(pending: seq<Mutation>, conflicts: map<string, nat>, id: string)
    requires NoDup(Ids(pending)) && AttemptsTold(pending, conflicts)
    ensures AttemptsTold(Conflicted(pending, id), CountUp(conflicts, id))
  {
    ConflictedCases(pending, id);
    DropMembers(Bump(pending, id), id);
    forall m | m in Conflicted(pending, id) ensures m.attempts == Count(CountUp(conflicts, id), m.id) < MAX_ATTEMPTS {
      CountAfter(conflicts, id, m.id);
      BumpMembers(pending, id, m);
      if m.id == id {
        NotThird(pending, id, m.(attempts := m.attempts - 1));
      }
    }
  }

  lemma NotThird(pending: seq<Mutation>, id: string, m: Mutation)
    requires NoDup(Ids(pending)) && m in pending && m.id == id
    ensures IsThird(pending, id) <==> m.attempts + 1 >= MAX_ATTEMPTS
  {
    FindUnique(pending, id, m);
  }

  lemma {:induction false} FindUnique(pending: seq<Mutation>, id: string, m: Mutation)
    requires NoDup(Ids(pending)) && m in pending && m.id == id
    ensures Find(pending, id) == Some(m)
  {
    var first, rest := pending[0], pending[1..];
    assert Ids(pending)[1..] == Ids(rest) && Ids(pending)[0] == first.id;
    if first != m {
      IdsMembers(rest, id);
      FindUnique(rest, id, m);
    }
  }

  // Whatever a conflict drops has met its third.
  lemma ConflictHasReason(s: State, id: string)
    requires AttemptsTold(s.pending, s.conflicts) && GoneForReason(s.pending, s.queued, s.acked, s.conflicts)
    ensures GoneForReason(Conflicted(s.pending, id), s.queued, s.acked, CountUp(s.conflicts, id))
  {
    FindMember(s.pending, id);
    forall x | x in s.queued && !InPending(Conflicted(s.pending, id), x)
      ensures x in s.acked || Count(CountUp(s.conflicts, id), x) >= MAX_ATTEMPTS
    {
      ConflictPending(s.pending, id, x);
      CountAfter(s.conflicts, id, x);
    }
  }

  lemma RefuseKeepsInv(s: State, id: string)
    requires Inv(s) && id in s.queued
    ensures Inv(Next(s, Refuse(id)))
  {
    PendingIdsUnique(s.pending, s.queued);
    ConflictKeepsOrder(s.pending, s.queued, id);
    ConflictKeepsAttempts(s.pending, s.conflicts, id);
    ConflictHasReason(s, id);
  }

  // ---------------------------------------------------------------- every run

  lemma EnqueuePending(pending: seq<Mutation>, m: Mutation, x: string)
    ensures InPending(pending + [m], x) <==> x == m.id || InPending(pending, x)
  {
    IdsSnoc(pending, m);
  }

  lemma EnqueueKeepsOrder(pending: seq<Mutation>, queued: seq<string>, m: Mutation)
    requires OrderKept(pending, queued) && m.id !in queued
    ensures OrderKept(pending + [m], queued + [m.id])
  {
    var next := pending + [m];
    IdsSnoc(pending, m);
    FilterSnoc(StillIn(next), queued, m.id);
    FilterSame(StillIn(next), StillIn(pending), queued);
  }

  lemma EnqueueKeepsReasons(s: State, m: Mutation)
    requires GoneForReason(s.pending, s.queued, s.acked, s.conflicts)
    ensures GoneForReason(s.pending + [m], s.queued + [m.id], s.acked, s.conflicts)
  {
    forall x | x in s.queued + [m.id] && !InPending(s.pending + [m], x)
      ensures x in s.acked || Count(s.conflicts, x) >= MAX_ATTEMPTS
    {
      EnqueuePending(s.pending, m, x);
    }
  }

  lemma EnqueueKeepsInv(s: State, id: string, payload: string)
    requires Inv(s) && id !in s.queued
    ensures Inv(Next(s, Enqueue(id, payload, true)))
  {
    var m := Mutation(id, payload, 0);
    NoDupSnoc(s.queued, id);
    EnqueueKeepsOrder(s.pending, s.queued, m);
    EnqueueKeepsReasons(s, m);
    assert AttemptsTold(s.pending + [m], s.conflicts);
  }

  lemma NextKeepsInv(s: State, step: Step)
    requires Inv(s)
    ensures Inv(Next(s, step))
  {
    match step
    case Enqueue(id, payload, storable) => if storable && id !in s.queued { EnqueueKeepsInv(s, id, payload); }
    case Succeed(id, deleted) =>
    case Settle(id) => if id in s.acked { SettleKeepsInv(s, id); }
    case Refuse(id) => if id in s.queued { RefuseKeepsInv(s, id); }
  }

  /** Whatever passes overlap, and however the server answers. */
  lemma {:induction false} EveryRunKeepsInv(s: State, steps: seq<Step>)
    requires Inv(s)
    ensures Inv(Run(s, steps))
    decreases |steps|
  {
    if steps != [] {
      NextKeepsInv(s, steps[0]);
      EveryRunKeepsInv(Next(s, steps[0]), steps[1..]);
    }
  }

  lemma EveryRunIsSafe(steps: seq<Step>)
    ensures var s := Run(INITIAL, steps);
      && Ids(s.pending) == Filter(StillIn(s.pending), s.queued)
      && (forall m :: m in s.pending ==> m.attempts < MAX_ATTEMPTS)
      && (forall id :: id in s.queued && !InPending(s.pending, id)
            ==> id in s.acked || Count(s.conflicts, id) >= MAX_ATTEMPTS)
      && (forall id :: id in s.queued && id !in s.acked ==> id in s.stored)
      && (forall id :: InPending(s.pending, id) ==> id in s.queued)
  {
    EveryRunKeepsInv(INITIAL, steps);
    var s := Run(INITIAL, steps);
    PendingIdsUnique(s.pending, s.queued);
  }

  // ---------------------------------------------------------------- what stays in the store

  // The success of a queued mutation is followed by its deletion from the store.
  predicate Deletes(s: State, step: Step, id: string) {
    step == Succeed(id, true) && id in s.queued
  }

  predicate DeletedIn(s: State, steps: seq<Step>, id: string)
    decreases |steps|
  {
    steps != [] && (Deletes(s, steps[0], id) || DeletedIn(Next(s, steps[0]), steps[1..], id))
  }

  lemma {:induction false} StoredSince(s: State, steps: seq<Step>, id: string)
    requires id in Run(s, steps).queued
    ensures id in Run(s, steps).stored <==> (id in s.queued ==> id in s.stored) && !DeletedIn(s, steps, id)
    decreases |steps|
  {
    if steps != [] {
      StoredSince(Next(s, steps[0]), steps[1..], id);
    }
  }

  /** In every run, a queued mutation is in the store iff no success of its own was followed by its
      deletion, whatever has become of it in memory. */
  lemma StoredIff(steps: seq<Step>, id: string)
    requires id in Run(INITIAL, steps).queued
    ensures id in Run(INITIAL, steps).stored <==> !DeletedIn(INITIAL, steps, id)
  {
    StoredSince(INITIAL, steps, id);
  }

  // ---------------------------------------------------------------- when a mutation is gone

  // A success of the mutation is followed by its leaving the list.
  predicate Settles(s: State, step: Step, id: string) {
    step == Settle(id) && id in s.acked
  }

  predicate SettledIn(s: State, steps: seq<Step>, id: string)
    decreases |steps|
  {
    steps != [] && (Settles(s, steps[0], id) || SettledIn(Next(s, steps[0]), steps[1..], id))
  }

  // Still waiting, for a mutation that was or was not before.
  predicate WaitsAfter(waited: bool, conflicts: nat, settled: bool) {
    waited && conflicts < 3 && !settled
  }

  lemma PendingNext(s: State, step: Step, id: string)
    requires Inv(s) && id in Next(s, step).queued
    ensures InPending(Next(s, step).pending, id)
       <==> WaitsAfter(id in s.queued ==> InPending(s.pending, id), Count(Next(s, step).conflicts, id),
                       Settles(s, step, id))
  {
    PendingIdsUnique(s.pending, s.queued);
    PendingCount(s, id);
    match step
    case Enqueue(new_, payload, storable) =>
      if storable && new_ !in s.queued {
        EnqueuePending(s.pending, Mutation(new_, payload, 0), id);
      }
    case Succeed(_, _) =>
    case Settle(other) => DropPending(s.pending, other, id);
    case Refuse(other) =>
      ConflictPending(s.pending, other, id);
      CountAfter(s.conflicts, other, id);
  }

  lemma PendingCount(s: State, id: string)
    requires Inv(s) && NoDup(Ids(s.pending))
    ensures InPending(s.pending, id) ==> Count(s.conflicts, id) < 3
    ensures InPending(s.pending, id) ==> (IsThird(s.pending, id) <==> Count(s.conflicts, id) == 2)
    ensures id !in s.queued ==> Count(s.conflicts, id) == 0
  {
    FindMember(s.pending, id);
  }

  lemma {:induction false} WaitsSince(s: State, steps: seq<Step>, id: string)
    requires Inv(s) && id in Run(s, steps).queued
    ensures InPending(Run(s, steps).pending, id)
       <==> WaitsAfter(id in s.queued ==> InPending(s.pending, id), Count(Run(s, steps).conflicts, id),
                       SettledIn(s, steps, id))
    decreases |steps|
  {
    if steps == [] {
      PendingIdsUnique(s.pending, s.queued);
      PendingCount(s, id);
    } else {
      var t := Next(s, steps[0]);
      NextKeepsInv(s, steps[0]);
      WaitsSince(t, steps[1..], id);
      CountGrows(t, steps[1..], id);
      if id in t.queued {
        PendingNext(s, steps[0], id);
      }
    }
  }

  lemma {:induction false} CountGrows(s: State, steps: seq<Step>, id: string)
    ensures Count(s.conflicts, id) <= Count(Run(s, steps).conflicts, id)
    decreases |steps|
  {
    if steps != [] {
      CountGrows(Next(s, steps[0]), steps[1..], id);
    }
  }

  /** In every run a queued mutation waits until a success of its own has been settled or it has met
      three conflicts: two do not end it. */
  lemma WaitsIff(steps: seq<Step>, id: string)
    requires id in Run(INITIAL, steps).queued
    ensures InPending(Run(INITIAL, steps).pending, id)
       <==> Count(Run(INITIAL, steps).conflicts, id) < 3 && !SettledIn(INITIAL, steps, id)
  {
    WaitsSince(INITIAL, steps, id);
  }

  lemma RunCons(s: State, step: Step, rest: seq<Step>)
    ensures Run(s, [step] + rest) == Run(Next(s, step), rest)
  {
    assert ([step] + rest)[1..] == rest;
  }

  // A conflict for the only mutation that is pending.
  lemma RefuseOnly(s: State, m: Mutation)
    requires s.pending == [m] && m.id in s.queued
    ensures var t := Next(s, Refuse(m.id));
      && t.stored == s.stored && t.queued == s.queued
      && t.pending == if m.attempts + 1 >= MAX_ATTEMPTS then [] else [m.(attempts := m.attempts + 1)]
  {
    var bumped := m.(attempts := m.attempts + 1);
    assert Bump([m], m.id) == [bumped] + [m][1..];
    FilterCons(IdIsNot(m.id), bumped, []);
    assert [bumped] + [] == [bumped];
  }

  // Three conflicts: the mutation is given up, and stays in the store.
  lemma GivenUpStaysStored(id: string, payload: string)
    ensures var s := Run(INITIAL, [Enqueue(id, payload, true)] + ([Refuse(id)] + ([Refuse(id)] + ([Refuse(id)] + []))));
      s.pending == [] && id in s.queued && id in s.stored
  {
    var s1 := Next(INITIAL, Enqueue(id, payload, true));
    assert s1.pending == [Mutation(id, payload, 0)] && s1.queued == [id] && s1.stored == {id};
    RefuseOnly(s1, Mutation(id, payload, 0));
    var s2 := Next(s1, Refuse(id));
    RefuseOnly(s2, Mutation(id, payload, 1));
    var s3 := Next(s2, Refuse(id));
    RefuseOnly(s3, Mutation(id, payload, 2));
    RunCons(INITIAL, Enqueue(id, payload, true), [Refuse(id)] + ([Refuse(id)] + ([Refuse(id)] + [])));
    RunCons(s1, Refuse(id), [Refuse(id)] + ([Refuse(id)] + []));
    RunCons(s2, Refuse(id), [Refuse(id)] + []);
    RunCons(s3, Refuse(id), []);
  }
}
