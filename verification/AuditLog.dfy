/**
  The audit event queue of client/lib/audit-log.ts, as it runs in a browser: a transition system,
  and the class AuditLogger, which is proved to take exactly its steps.
 */
module AuditLog {
  import opened Options
  import opened Seqs

  // A flush runs in two atomic pieces, cut where it waits for the network: it takes the whole
  // queue, and later, in any order with other flushes and with new events, it learns how its
  // request ended.

  datatype Event = Event(id: nat, action: string)

  const BATCH_SIZE := 10
  const MAX_LOGS := 1000
  const MAX_OFFLINE_STORAGE := 100

  // How the request of a flush ends. A failure may come after the server took the events
  // (the response is lost), and the fallback copy may fail to be written.
  datatype Outcome =
    | NoSession
    | Sent
    | Failed(serverTook: bool, stored: bool)

  datatype SyncOutcome = SyncSent | SyncFailed(serverTook: bool)

  datatype State = State(
    logs: seq<Event>, queue: seq<Event>,        // newest first; oldest first
    flushTimer: Option<nat>, timers: set<nat>,  // the field, and the intervals the browser runs
    nextTimer: nat,
    offline: seq<Event>,                        // localStorage
    flights: seq<seq<Event>>,                   // batches taken by flushes that have not ended
    syncs: seq<seq<Event>>,                     // offline copies being sent
    past: History)

  // What has happened so far: the events logged, the events of flushes that succeeded, what the
  // server took from flushes that failed and from offline syncs, and the batches copied to
  // localStorage since it was last cleared.
  datatype History = History(logged: seq<Event>, done: seq<Event>, lost: seq<Event>, synced: seq<Event>,
                             copied: seq<Event>)

  datatype Step =
    | LogEvent(e: Event)
    | BeginFlush
    | EndFlush(flight: nat, outcome: Outcome)
    | BeginSync
    | EndSync(sync: nat, syncOutcome: SyncOutcome)

  function Take<T>(n: nat, s: seq<T>): seq<T> {
    if |s| <= n then s else s[..n]
  }

  function Without<T>(s: seq<T>, i: nat): seq<T>
    requires i < |s|
  {
    s[..i] + s[i + 1..]
  }

  function StopTimer(s: State): State {
    s.(timers := if s.flushTimer.Some? then s.timers - {s.flushTimer.value} else s.timers, flushTimer := None)
  }

  function StartTimer(s: State): State {
    var t := StopTimer(s);
    t.(timers := t.timers + {t.nextTimer}, flushTimer := Some(t.nextTimer), nextTimer := t.nextTimer + 1)
  }

  const INITIAL: State :=
    StartTimer(State([], [], None, {}, 0, [], [], [], History([], [], [], [], [])))

  function Begin(s: State): State {
    if s.queue == [] then s else StopTimer(s).(queue := [], flights := s.flights + [s.queue])
  }

  function Enqueue(s: State, e: Event): State {
    s.(logs := Take(MAX_LOGS, [e] + s.logs), queue := s.queue + [e], past := s.past.(logged := s.past.logged + [e]))
  }

  function Log(s: State, e: Event): State {
    var t := Enqueue(s, e);
    if |t.queue| >= BATCH_SIZE then Begin(t) else t
  }

  function Requeue(s: State, events: seq<Event>): State {
    s.(queue := events + s.queue)
  }

  function StoreOffline(s: State, events: seq<Event>): State {
    s.(offline := LastN(MAX_OFFLINE_STORAGE, s.offline + events), past := s.past.(copied := s.past.copied + events))
  }

  function Land(s: State, i: nat, outcome: Outcome): State
    requires i < |s.flights|
  {
    var events := s.flights[i];
    var t := s.(flights := Without(s.flights, i));
    match outcome
    case NoSession => Requeue(t, events)
    case Sent => t.(past := t.past.(done := t.past.done + events))
    case Failed(serverTook, stored) =>
      var u := if serverTook then t.(past := t.past.(lost := t.past.lost + events)) else t;
      Requeue(if stored then StoreOffline(u, events) else u, events)
  }

  function End(s: State, i: nat, outcome: Outcome): State
    requires i < |s.flights|
  {
    StartTimer(Land(s, i, outcome))
  }

  function FinishSync(s: State, i: nat, outcome: SyncOutcome): State
    requires i < |s.syncs|
  {
    var took := s.past.(synced := s.past.synced + s.syncs[i]);
    var t := s.(syncs := Without(s.syncs, i));
    match outcome
    case SyncSent => t.(offline := [], past := took.(copied := []))
    case SyncFailed(serverTook) => if serverTook then t.(past := took) else t
  }

  // Any step may be offered in any state; one about a flush or sync that is not there does nothing.
  function Next(s: State, step: Step): State {
    match step
    case LogEvent(e) => Log(s, e)
    case BeginFlush => Begin(s)
    case EndFlush(i, outcome) => if i < |s.flights| then End(s, i, outcome) else s
    case BeginSync => if s.offline == [] then s else s.(syncs := s.syncs + [s.offline])
    case EndSync(i, outcome) => if i < |s.syncs| then FinishSync(s, i, outcome) else s
  }

  function Run(s: State, steps: seq<Step>): State
    decreases |steps|
  {
    if steps == [] then s else Run(Next(s, steps[0]), steps[1..])
  }

  // ---------------------------------------------------------------- safety of every run

  // Every logged event is queued, in flight or acknowledged, as often as it was logged.
  ghost predicate Conserved(s: State) {
    multiset(s.past.logged) == multiset(s.queue) + multiset(Flatten(s.flights)) + multiset(s.past.done)
  }

  // The browser runs the interval in the field and no other, and none only while a flush is out.
  ghost predicate TimersRight(s: State) {
    && s.timers == (if s.flushTimer.Some? then {s.flushTimer.value} else {})
    && (s.flushTimer.None? ==> s.flights != [])
    && (forall t :: t in s.timers ==> t < s.nextTimer)
  }

  ghost predicate LogsRight(s: State) {
    |s.logs| == |Take(MAX_LOGS, s.past.logged)|
    && forall i :: 0 <= i < |s.logs| ==> s.logs[i] == s.past.logged[|s.past.logged| - 1 - i]
  }

  ghost predicate OfflineRight(s: State) {
    s.offline == LastN(MAX_OFFLINE_STORAGE, s.past.copied)
  }

  // Nothing is copied, sent or acknowledged that was not logged.
  ghost predicate OnlyLogged(s: State) {
    && (forall e :: e in s.past.copied ==> e in s.past.logged)
    && (forall i, e :: 0 <= i < |s.syncs| && e in s.syncs[i] ==> e in s.past.logged)
    && (forall e :: e in s.past.lost || e in s.past.synced ==> e in s.past.logged)
    && (forall i :: 0 <= i < |s.flights| ==> s.flights[i] != [])
  }

  // Only copies that hold something are sent.
  ghost predicate SyncsRight(s: State) {
    forall i :: 0 <= i < |s.syncs| ==> s.syncs[i] != []
  }

  ghost predicate Inv(s: State) {
    Conserved(s) && TimersRight(s) && LogsRight(s) && OfflineRight(s) && OnlyLogged(s) && SyncsRight(s)
  }

  lemma FlattenWithout<T>(ss: seq<seq<T>>, i: nat)
    requires i < |ss|
    ensures multiset(Flatten(ss)) == multiset(Flatten(Without(ss, i))) + multiset(ss[i])
  {
    FlattenAppend(ss[..i], ss[i..]);
    FlattenAppend(ss[..i], ss[i + 1..]);
    assert ss == ss[..i] + ss[i..] && ss[i..][1..] == ss[i + 1..];
  }

  lemma {:induction false} FlattenMembers<T>(ss: seq<seq<T>>, i: nat, x: T)
    requires i < |ss| && x in ss[i]
    ensures x in Flatten(ss)
  {
    if i > 0 {
      FlattenMembers(ss[1..], i - 1, x);
    }
  }

  lemma FlattenSnoc<T>(ss: seq<seq<T>>, x: seq<T>)
    ensures Flatten(ss + [x]) == Flatten(ss) + x
  {
    FlattenAppend(ss, [x]);
    assert Flatten([x]) == x + [];
  }

  lemma BeginKeepsInv(s: State)
    requires Inv(s)
    ensures Inv(Begin(s))
  {
    FlattenSnoc(s.flights, s.queue);
  }

  lemma EnqueueKeepsInv(s: State, e: Event)
    requires Inv(s)
    ensures Inv(Enqueue(s, e))
  {
    assert multiset(s.queue + [e]) == multiset(s.queue) + multiset{e};
    assert multiset(s.past.logged + [e]) == multiset(s.past.logged) + multiset{e};
    EnqueueKeepsLogs(s, e);
  }

  lemma EnqueueKeepsLogs(s: State, e: Event)
    requires LogsRight(s)
    ensures LogsRight(Enqueue(s, e))
  {
    var t := Enqueue(s, e);
    forall i | 0 <= i < |t.logs| ensures t.logs[i] == t.past.logged[|t.past.logged| - 1 - i] {
      if i > 0 {
        assert t.logs[i] == s.logs[i - 1];
      }
    }
  }

  lemma LogKeepsInv(s: State, e: Event)
    requires Inv(s)
    ensures Inv(Log(s, e))
  {
    EnqueueKeepsInv(s, e);
    BeginKeepsInv(Enqueue(s, e));
  }

  lemma FlightIsLogged(s: State, i: nat)
    requires Conserved(s) && i < |s.flights|
    ensures forall e :: e in s.flights[i] ==> e in s.past.logged
  {
    forall e | e in s.flights[i] ensures e in s.past.logged {
      FlattenMembers(s.flights, i, e);
      assert e in multiset(s.past.logged);
    }
  }

  // Taking batch i off and putting its events back, or counting them as done, loses none.
  lemma LandKeepsEvents(s: State, i: nat, outcome: Outcome)
    requires Conserved(s) && i < |s.flights|
    ensures Conserved(Land(s, i, outcome))
  {
    var events, t := s.flights[i], Land(s, i, outcome);
    FlattenWithout(s.flights, i);
    assert t.past.logged == s.past.logged && t.flights == Without(s.flights, i);
    Together(s.past.done, events);
    Together(events, s.queue);
    if outcome.Sent? {
      assert t.past.done == s.past.done + events && t.queue == s.queue;
    } else {
      assert t.past.done == s.past.done && t.queue == events + s.queue;
    }
  }

  lemma Together<T>(a: seq<T>, b: seq<T>)
    ensures multiset(a + b) == multiset(a) + multiset(b)
  {
  }

  lemma LandKeepsOnlyLogged(s: State, i: nat, outcome: Outcome)
    requires Conserved(s) && OnlyLogged(s) && i < |s.flights|
    ensures OnlyLogged(Land(s, i, outcome))
  {
    FlightIsLogged(s, i);
  }

  lemma LandKeepsCopies(s: State, i: nat, outcome: Outcome)
    requires LogsRight(s) && OfflineRight(s) && i < |s.flights|
    ensures LogsRight(Land(s, i, outcome)) && OfflineRight(Land(s, i, outcome))
  {
    var t := Land(s, i, outcome);
    LastNAppend(MAX_OFFLINE_STORAGE, s.past.copied, s.flights[i]);
    assert t.logs == s.logs && t.past.logged == s.past.logged;
  }

  lemma StartTimerKeepsInv(s: State)
    requires Conserved(s) && LogsRight(s) && OfflineRight(s) && OnlyLogged(s) && SyncsRight(s)
    requires s.timers == (if s.flushTimer.Some? then {s.flushTimer.value} else {})
    ensures Inv(StartTimer(s))
  {
  }

  lemma EndKeepsInv(s: State, i: nat, outcome: Outcome)
    requires Inv(s) && i < |s.flights|
    ensures Inv(End(s, i, outcome))
  {
    LandKeepsEvents(s, i, outcome);
    LandKeepsOnlyLogged(s, i, outcome);
    LandKeepsCopies(s, i, outcome);
    StartTimerKeepsInv(Land(s, i, outcome));
  }

  lemma SyncKeepsOnlyLogged(s: State, i: nat, outcome: SyncOutcome)
    requires OnlyLogged(s) && i < |s.syncs|
    ensures OnlyLogged(FinishSync(s, i, outcome))
  {
  }

  lemma SyncKeepsInv(s: State, i: nat, outcome: SyncOutcome)
    requires Inv(s) && i < |s.syncs|
    ensures Inv(FinishSync(s, i, outcome))
  {
    var t := FinishSync(s, i, outcome);
    assert t.queue == s.queue && t.flights == s.flights && t.logs == s.logs && t.past.logged == s.past.logged;
    assert t.past.done == s.past.done;
    assert t.timers == s.timers && t.flushTimer == s.flushTimer && t.nextTimer == s.nextTimer;
    assert outcome.SyncSent? || (t.offline == s.offline && t.past.copied == s.past.copied);
    SyncKeepsOnlyLogged(s, i, outcome);
  }

  lemma OfflineIsLogged(s: State)
    requires OfflineRight(s) && OnlyLogged(s)
    ensures forall e :: e in s.offline ==> e in s.past.logged
  {
    assert forall e :: e in s.offline ==> e in s.past.copied;
  }

  lemma BeginSyncKeepsInv(s: State)
    requires Inv(s)
    ensures Inv(Next(s, BeginSync))
  {
    var t := Next(s, BeginSync);
    OfflineIsLogged(s);
    assert t == s.(syncs := t.syncs);
    assert forall i :: 0 <= i < |t.syncs| ==> t.syncs[i] == if i < |s.syncs| then s.syncs[i] else s.offline;
    assert OnlyLogged(t) && SyncsRight(t);
  }

  lemma EndFlushKeepsInv(s: State, i: nat, outcome: Outcome)
    requires Inv(s)
    ensures Inv(Next(s, EndFlush(i, outcome)))
  {
    if i < |s.flights| {
      EndKeepsInv(s, i, outcome);
    }
  }

  lemma EndSyncKeepsInv(s: State, i: nat, outcome: SyncOutcome)
    requires Inv(s)
    ensures Inv(Next(s, EndSync(i, outcome)))
  {
    if i < |s.syncs| {
      SyncKeepsInv(s, i, outcome);
    }
  }

  lemma NextKeepsInv(s: State, step: Step)
    requires Inv(s)
    ensures Inv(Next(s, step))
  {
    match step
    case LogEvent(e) => LogKeepsInv(s, e);
    case BeginFlush => BeginKeepsInv(s);
    case EndFlush(i, outcome) => EndFlushKeepsInv(s, i, outcome);
    case BeginSync => BeginSyncKeepsInv(s);
    case EndSync(i, outcome) => EndSyncKeepsInv(s, i, outcome);
  }

  // Whatever is logged, flushed, lost and synced, in any interleaving.
  lemma {:induction false} EveryRunKeepsInv(s: State, steps: seq<Step>)
    requires Inv(s)
    ensures Inv(Run(s, steps))
    decreases |steps|
  {
    if steps != [] {
      NextKeepsInv(s, steps[0]);
      EveryRunKeepsInv(Next(s, steps[0]), steps[1..]);
    }
  }

  lemma InitialInv()
    ensures Inv(INITIAL)
  {
  }

  // What the server was given: by flushes that succeeded, by flushes whose answer was lost, by syncs.
  ghost function Received(s: State): multiset<Event> {
    multiset(s.past.done) + multiset(s.past.lost) + multiset(s.past.synced)
  }

  ghost function Pending(s: State): multiset<Event> {
    multiset(s.queue) + multiset(Flatten(s.flights))
  }

  /**
    Every run of the logger: no event is dropped, none is held more often than it was logged,
    the server sees only logged events, and an event reaches it as often as it was logged, minus
    the copies still held, plus the answers lost and the offline copies synced.
   */
  lemma EveryRunIsSafe(steps: seq<Step>)
    ensures var s := Run(INITIAL, steps);
      && Pending(s) + multiset(s.past.done) == multiset(s.past.logged)
      && Pending(s) <= multiset(s.past.logged)
      && (forall e :: e in s.past.logged ==> e in Pending(s) || e in Received(s))
      && (forall e :: e in Received(s) ==> e in s.past.logged)
      && (forall e :: Received(s)[e] == multiset(s.past.logged)[e] - Pending(s)[e]
                                        + multiset(s.past.lost)[e] + multiset(s.past.synced)[e])
  {
    InitialInv();
    EveryRunKeepsInv(INITIAL, steps);
    var s := Run(INITIAL, steps);
    forall e | e in s.past.logged ensures e in Pending(s) || e in Received(s) {
      assert e in multiset(s.past.logged);
    }
    forall e | e in Received(s) ensures e in s.past.logged {
      if e in s.past.done {
        assert e in multiset(s.past.logged);
      }
    }
  }

  // At rest exactly one interval runs; with any overlap the offline copy is the last hundred
  // of the batches copied since it was cleared, and the local log the last thousand entries.
  lemma EveryRunKeepsTimerAndCopies(steps: seq<Step>)
    ensures var s := Run(INITIAL, steps);
      && (s.flights == [] ==> exists t :: s.timers == {t} && s.flushTimer == Some(t))
      && |s.timers| <= 1
      && IsEndOf(s.offline, s.past.copied, 100)
      && |s.logs| == (if |s.past.logged| <= 1000 then |s.past.logged| else 1000)
      && forall i :: 0 <= i < |s.logs| ==> s.logs[i] == s.past.logged[|s.past.logged| - 1 - i]
  {
    InitialInv();
    EveryRunKeepsInv(INITIAL, steps);
  }

  // The last n elements of all, or all of them where there are no more.
  ghost predicate IsEndOf<T>(last: seq<T>, all: seq<T>, n: nat) {
    && |last| == (if |all| <= n then |all| else n)
    && forall i :: 0 <= i < |last| ==> last[i] == all[|all| - |last| + i]
  }

  // ---------------------------------------------------------------- what each step does

  /** The tenth event that waits starts a flush of all ten; any other only waits. */
  lemma TenthEventFlushes(s: State, e: Event)
    ensures var t, all := Next(s, LogEvent(e)), s.queue + [e];
      && |t.queue| < 10 && t.past.logged == s.past.logged + [e]
      && if |all| < 10 then t.queue == all && t.flights == s.flights && t.timers == s.timers
         else t.queue == [] && t.flights == s.flights + [all] && t.flushTimer == None
  {
  }

  /** A flush takes all that waits and stops the interval. */
  lemma FlushTakesAll(s: State)
    ensures var t := Next(s, BeginFlush);
      if s.queue == [] then t == s
      else
        && t.queue == [] && t.flights == s.flights + [s.queue] && t.past == s.past
        && t.flushTimer == None && t.timers == s.timers - (if s.flushTimer.Some? then {s.flushTimer.value} else {})
  {
  }

  /** However a flush ends, its interval is a new one; unless the server answered, its batch waits again, in
      front, and is copied where that is possible. */
  lemma FlushEnds(s: State, i: nat, outcome: Outcome)
    requires i < |s.flights|
    ensures var t, batch := Next(s, EndFlush(i, outcome)), s.flights[i];
      && t.flights == s.flights[..i] + s.flights[i + 1..]
      && t.flushTimer == Some(s.nextTimer) && s.nextTimer in t.timers
      && t.queue == (if outcome == Sent then s.queue else batch + s.queue)
      && t.past.done == (if outcome == Sent then s.past.done + batch else s.past.done)
      && (if outcome.Failed? && outcome.stored
          then IsEndOf(t.offline, s.offline + batch, 100) && t.past.copied == s.past.copied + batch
          else t.offline == s.offline && t.past.copied == s.past.copied)
      && t.past.lost == (if outcome.Failed? && outcome.serverTook then s.past.lost + batch else s.past.lost)
  {
  }

  /** A sync sends the copy there is; only a good answer clears it. */
  lemma SyncSendsCopy(s: State, i: nat, outcome: SyncOutcome)
    ensures Next(s, BeginSync) == if s.offline == [] then s else s.(syncs := s.syncs + [s.offline])
    ensures var t := Next(s, EndSync(i, outcome));
      if i >= |s.syncs| then t == s
      else
        && t.syncs == s.syncs[..i] + s.syncs[i + 1..] && t.queue == s.queue && t.flights == s.flights
        && t.offline == (if outcome == SyncSent then [] else s.offline)
        && t.past.synced == (if outcome == SyncFailed(false) then s.past.synced else s.past.synced + s.syncs[i])
  {
  }

  // ---------------------------------------------------------------- how often the server is given an event

  // The server takes events that are not counted as acknowledged: an answer is lost, or an
  // offline copy arrives.
  predicate Repeats(s: State, step: Step) {
    match step
    case EndFlush(i, Failed(serverTook, _)) => serverTook && i < |s.flights|
    case EndSync(i, outcome) => i < |s.syncs| && (outcome.SyncSent? || outcome.serverTook)
    case _ => false
  }

  predicate NeverRepeats(s: State, steps: seq<Step>)
    decreases |steps|
  {
    steps == [] || (!Repeats(s, steps[0]) && NeverRepeats(Next(s, steps[0]), steps[1..]))
  }

  predicate Clean(s: State) {
    s.past.lost == [] && s.past.synced == []
  }

  lemma CleanStep(s: State, step: Step)
    requires OnlyLogged(s) && SyncsRight(s)
    ensures Clean(Next(s, step)) <==> Clean(s) && !Repeats(s, step)
  {
  }

  lemma {:induction false} CleanRun(s: State, steps: seq<Step>)
    requires Inv(s)
    ensures Clean(Run(s, steps)) <==> Clean(s) && NeverRepeats(s, steps)
    decreases |steps|
  {
    if steps != [] {
      CleanStep(s, steps[0]);
      NextKeepsInv(s, steps[0]);
      CleanRun(Next(s, steps[0]), steps[1..]);
    }
  }

  lemma NeitherHolds<T>(a: seq<T>, b: seq<T>)
    ensures multiset(a) + multiset(b) == multiset{} <==> a == [] && b == []
  {
    assert |multiset(a) + multiset(b)| == |a| + |b|;
  }

  /**
    On every run: each event has been given to the server or is still held, exactly as often as
    it was logged, iff no answer of the server was lost and no offline copy reached it.
   */
  lemma DeliveredOnceIff(steps: seq<Step>)
    ensures var s := Run(INITIAL, steps);
      Received(s) + Pending(s) == multiset(s.past.logged) <==> NeverRepeats(INITIAL, steps)
  {
    InitialInv();
    EveryRunKeepsInv(INITIAL, steps);
    CleanRun(INITIAL, steps);
    var s := Run(INITIAL, steps);
    var extra := multiset(s.past.lost) + multiset(s.past.synced);
    assert Received(s) + Pending(s) == multiset(s.past.logged) + extra;
    NeitherHolds(s.past.lost, s.past.synced);
    if extra != multiset{} {
      var e :| e in extra;
      assert (multiset(s.past.logged) + extra)[e] > multiset(s.past.logged)[e];
    }
  }

  lemma {:induction false} RunSnoc(s: State, steps: seq<Step>, step: Step)
    ensures Run(s, steps + [step]) == Next(Run(s, steps), step)
    decreases |steps|
  {
    if steps == [] {
      assert steps + [step] == [step];
    } else {
      RunSnoc(Next(s, steps[0]), steps[1..], step);
      assert (steps + [step])[1..] == steps[1..] + [step];
    }
  }

  lemma RunTwoMore(s: State, steps: seq<Step>, a: Step, b: Step)
    ensures Run(s, steps + [a] + [b]) == Next(Next(Run(s, steps), a), b)
  {
    RunSnoc(s, steps, a);
    RunSnoc(s, steps + [a], b);
  }

  // One event is logged and its flush fails without the server having seen it: it is back in the
  // queue, and in the offline copy.
  lemma FailedOnce(e: Event) returns (steps: seq<Step>)
    ensures var s := Run(INITIAL, steps);
      s.queue == [e] && s.offline == [e] && s.flights == [] && s.syncs == [] && s.past == History([e], [], [], [], [e])
  {
    var s1 := Next(INITIAL, LogEvent(e));
    assert s1.queue == [e] && s1.flights == [] && s1.past.logged == [e];
    var s2 := Next(s1, BeginFlush);
    assert s2.flights == [[e]] && s2.queue == [] && s2.offline == [];
    var failed := EndFlush(0, Failed(false, true));
    var s3 := Next(s2, failed);
    assert s3.flights == [] && s3.queue == [e] && s3.offline == [e] && s3.past.copied == [e];
    RunSnoc(INITIAL, [], LogEvent(e));
    RunSnoc(INITIAL, [] + [LogEvent(e)], BeginFlush);
    RunSnoc(INITIAL, [] + [LogEvent(e)] + [BeginFlush], failed);
    steps := [] + [LogEvent(e)] + [BeginFlush] + [failed];
  }

  // From there the offline copy is synced, and the batch itself is sent again.
  lemma SyncedAndRetried(s: State, e: Event)
    requires s.queue == [e] && s.offline == [e] && s.flights == [] && s.syncs == []
    requires s.past == History([e], [], [], [], [e])
    ensures var t := Next(Next(Next(Next(s, BeginSync), EndSync(0, SyncSent)), BeginFlush), EndFlush(0, Sent));
      t.past.logged == [e] && t.past.done == [e] && t.past.lost == [] && t.past.synced == [e]
  {
    var s1 := Next(s, BeginSync);
    assert s1.syncs == [[e]];
    var s2 := Next(s1, EndSync(0, SyncSent));
    assert s2.past.synced == [e] && s2.queue == [e] && s2.flights == [];
    var s3 := Next(s2, BeginFlush);
    assert s3.flights == [[e]] && s3.past == s2.past;
  }

  lemma SentTwice(e: Event) returns (steps: seq<Step>)
    ensures var past := Run(INITIAL, steps).past;
      past.logged == [e] && past.done == [e] && past.lost == [] && past.synced == [e]
  {
    steps := FailedOnce(e);
    SyncedAndRetried(Run(INITIAL, steps), e);
    RunTwoMore(INITIAL, steps, BeginSync, EndSync(0, SyncSent));
    steps := steps + [BeginSync] + [EndSync(0, SyncSent)];
    RunTwoMore(INITIAL, steps, BeginFlush, EndFlush(0, Sent));
    steps := steps + [BeginFlush] + [EndFlush(0, Sent)];
  }

  // One event, logged once, reaches the server twice although no answer was ever lost: the
  // offline copy of a failed batch is synced and the batch itself is retried.
  lemma OfflineSyncSendsTwice(e: Event)
    ensures exists steps :: var s := Run(INITIAL, steps);
              s.past.logged == [e] && s.past.lost == [] && Received(s)[e] == 2
  {
    var steps := SentTwice(e);
    assert Received(Run(INITIAL, steps)) == multiset{e, e};
  }

  // ---------------------------------------------------------------- what a sync clears

  // What was copied to localStorage in the course of the steps, and not cleared since.
  function CopiedSince(s: State, steps: seq<Step>, before: seq<Event>): seq<Event>
    decreases |steps|
  {
    if steps == [] then before
    else CopiedSince(Next(s, steps[0]), steps[1..], CopiedBy(s, steps[0], before))
  }

  function CopiedBy(s: State, step: Step, before: seq<Event>): seq<Event> {
    match step
    case EndFlush(i, Failed(_, true)) => if i < |s.flights| then before + s.flights[i] else before
    case EndSync(i, SyncSent) => if i < |s.syncs| then [] else before
    case _ => before
  }

  // Some sync has been answered well.
  predicate ClearedIn(s: State, steps: seq<Step>)
    decreases |steps|
  {
    steps != [] && (Clears(s, steps[0]) || ClearedIn(Next(s, steps[0]), steps[1..]))
  }

  predicate Clears(s: State, step: Step) {
    step.EndSync? && step.sync < |s.syncs| && step.syncOutcome.SyncSent?
  }

  // The offline copy is what it was, unless cleared, and what has been copied since.
  lemma {:induction false} OfflineSince(s: State, steps: seq<Step>, base: seq<Event>, since: seq<Event>)
    requires s.offline == LastN(MAX_OFFLINE_STORAGE, base + since)
    ensures Run(s, steps).offline
         == LastN(MAX_OFFLINE_STORAGE, (if ClearedIn(s, steps) then [] else base) + CopiedSince(s, steps, since))
    decreases |steps|
  {
    if steps != [] {
      var t, since' := Next(s, steps[0]), CopiedBy(s, steps[0], since);
      if Clears(s, steps[0]) {
        assert t.offline == [] && since' == [] && [] + since' == since';
        OfflineSince(t, steps[1..], [], since');
      } else {
        StepCopies(s, steps[0], base, since);
        OfflineSince(t, steps[1..], base, since');
      }
    }
  }

  lemma StepCopies(s: State, step: Step, base: seq<Event>, since: seq<Event>)
    requires s.offline == LastN(MAX_OFFLINE_STORAGE, base + since) && !Clears(s, step)
    ensures Next(s, step).offline == LastN(MAX_OFFLINE_STORAGE, base + CopiedBy(s, step, since))
  {
    if step.EndFlush? && step.flight < |s.flights| && step.outcome.Failed? && step.outcome.stored {
      var events := s.flights[step.flight];
      LastNAppend(MAX_OFFLINE_STORAGE, base + since, events);
      Assoc(base, since, events);
    }
  }

  // The last n of a + b: the last n of b, and in front of them elements of a.
  lemma LastNMembers<T>(n: nat, a: seq<T>, b: seq<T>, x: T)
    ensures x in LastN(n, b) ==> x in LastN(n, a + b)
    ensures x in LastN(n, a + b) ==> x in a || x in LastN(n, b)
  {
    var all, last := LastN(n, a + b), LastN(n, b);
    var k := |all| - |last|;
    assert all == all[..k] + last;
    assert forall i :: 0 <= i < k ==> all[..k][i] in a;
  }

  /**
    A successful sync clears the whole offline copy, not only what it has sent. Everything cleared
    was sent iff this holds of what was copied after the sync read it; so if those copies are new,
    iff nothing was copied.
   */
  lemma SyncSentAllIff(s: State, steps: seq<Step>, i: nat)
    requires OfflineRight(s) && s.offline != []
    requires i < |Run(Next(s, BeginSync), steps).syncs| && Run(Next(s, BeginSync), steps).syncs[i] == s.offline
    ensures var t, copied := Run(Next(s, BeginSync), steps), CopiedSince(Next(s, BeginSync), steps, []);
      && Next(t, EndSync(i, SyncSent)).offline == []
      && (AllSent(t.offline, t.syncs[i]) <==> AllSent(LastN(MAX_OFFLINE_STORAGE, copied), t.syncs[i]))
      && ((forall e :: e in copied ==> e !in t.syncs[i]) ==> (AllSent(t.offline, t.syncs[i]) <==> copied == []))
  {
    var begun := Next(s, BeginSync);
    assert begun.offline == s.offline;
    SyncClears(Run(begun, steps), i);
    OfflineAfter(begun, steps);
    SentIff(if ClearedIn(begun, steps) then [] else s.offline, CopiedSince(begun, steps, []), s.offline);
  }

  lemma SyncClears(t: State, i: nat)
    requires i < |t.syncs|
    ensures Next(t, EndSync(i, SyncSent)).offline == []
  {
  }

  lemma OfflineAfter(s: State, steps: seq<Step>)
    requires |s.offline| <= MAX_OFFLINE_STORAGE
    ensures Run(s, steps).offline
         == LastN(MAX_OFFLINE_STORAGE, (if ClearedIn(s, steps) then [] else s.offline) + CopiedSince(s, steps, []))
  {
    assert s.offline + [] == s.offline;
    OfflineSince(s, steps, s.offline, []);
  }

  lemma SentIff(base: seq<Event>, copied: seq<Event>, sent: seq<Event>)
    requires AllSent(base, sent)
    ensures var cleared, last := LastN(MAX_OFFLINE_STORAGE, base + copied), LastN(MAX_OFFLINE_STORAGE, copied);
      && (AllSent(cleared, sent) <==> AllSent(last, sent))
      && ((forall e :: e in copied ==> e !in sent) ==> (AllSent(cleared, sent) <==> copied == []))
  {
    var cleared, last := LastN(MAX_OFFLINE_STORAGE, base + copied), LastN(MAX_OFFLINE_STORAGE, copied);
    forall e ensures e in last ==> e in cleared
      ensures e in cleared ==> e in base || e in last
    {
      LastNMembers(MAX_OFFLINE_STORAGE, base, copied, e);
    }
    if copied != [] {
      assert last[0] in last && last[0] in copied;
    }
  }

  predicate AllSent(cleared: seq<Event>, sent: seq<Event>) {
    forall e :: e in cleared ==> e in sent
  }

  // ---------------------------------------------------------------- order

  // Acknowledged, in flight, queued: together the logged sequence, in order.
  ghost predicate InOrder(s: State) {
    s.past.logged == s.past.done + Flatten(s.flights) + s.queue
  }

  // A flush may only end well if it is the oldest one out, and otherwise if it is the newest.
  predicate Orderly(s: State, step: Step) {
    step.EndFlush? && step.flight < |s.flights| ==>
      if step.outcome.Sent? then step.flight == 0 else step.flight == |s.flights| - 1
  }

  predicate OrderlyRun(s: State, steps: seq<Step>)
    decreases |steps|
  {
    steps == [] || (Orderly(s, steps[0]) && OrderlyRun(Next(s, steps[0]), steps[1..]))
  }

  // No flush starts while another is out.
  predicate NonOverlapping(s: State, steps: seq<Step>)
    decreases |steps|
  {
    |s.flights| <= 1 && (steps == [] || NonOverlapping(Next(s, steps[0]), steps[1..]))
  }

  lemma {:induction false} NonOverlappingIsOrderly(s: State, steps: seq<Step>)
    requires NonOverlapping(s, steps)
    ensures OrderlyRun(s, steps)
    decreases |steps|
  {
    if steps != [] {
      NonOverlappingIsOrderly(Next(s, steps[0]), steps[1..]);
    }
  }

  lemma BeginKeepsOrder(s: State)
    requires InOrder(s)
    ensures InOrder(Begin(s))
  {
    FlattenSnoc(s.flights, s.queue);
    assert s.past.done + Flatten(s.flights) + s.queue == s.past.done + (Flatten(s.flights) + s.queue) + [];
  }

  lemma LogKeepsOrder(s: State, e: Event)
    requires InOrder(s)
    ensures InOrder(Log(s, e))
  {
    var prefix := s.past.done + Flatten(s.flights);
    assert prefix + s.queue + [e] == prefix + (s.queue + [e]);
    BeginKeepsOrder(Enqueue(s, e));
  }

  lemma SplitFlights(s: State, i: nat)
    requires i < |s.flights|
    ensures Flatten(s.flights) == Flatten(s.flights[..i]) + s.flights[i] + Flatten(s.flights[i + 1..])
    ensures Flatten(Without(s.flights, i)) == Flatten(s.flights[..i]) + Flatten(s.flights[i + 1..])
  {
    FlattenAppend(s.flights[..i], s.flights[i..]);
    FlattenAppend(s.flights[..i], s.flights[i + 1..]);
    assert s.flights == s.flights[..i] + s.flights[i..] && s.flights[i..][1..] == s.flights[i + 1..];
  }

  lemma LandKeepsOrder(s: State, i: nat, outcome: Outcome)
    requires InOrder(s) && i < |s.flights| && Orderly(s, EndFlush(i, outcome))
    ensures InOrder(Land(s, i, outcome))
  {
    SplitFlights(s, i);
    var events, others := s.flights[i], Flatten(Without(s.flights, i));
    if outcome.Sent? {
      assert s.flights[..0] == [] && Flatten(s.flights) == events + others;
      Assoc(s.past.done, events, others);
      assert Land(s, i, outcome).past.done == s.past.done + events;
    } else {
      assert s.flights[i + 1..] == [] && Flatten(s.flights) == others + events;
      Assoc(s.past.done, others, events);
      Assoc(s.past.done + others, events, s.queue);
      assert Land(s, i, outcome).queue == events + s.queue && Land(s, i, outcome).past.done == s.past.done;
    }
  }

  // With pairwise distinct events, a flush that ends keeps the order iff it ends in turn.
  lemma EndKeepsOrderIff(s: State, i: nat, outcome: Outcome)
    requires InOrder(s) && OnlyLogged(s) && NoDup(s.past.logged) && i < |s.flights|
    ensures InOrder(End(s, i, outcome)) <==> Orderly(s, EndFlush(i, outcome))
  {
    if Orderly(s, EndFlush(i, outcome)) {
      LandKeepsOrder(s, i, outcome);
    } else {
      LandBreaksOrder(s, i, outcome);
    }
  }

  lemma LandBreaksOrder(s: State, i: nat, outcome: Outcome)
    requires InOrder(s) && OnlyLogged(s) && NoDup(s.past.logged) && i < |s.flights|
    requires !Orderly(s, EndFlush(i, outcome))
    ensures !InOrder(Land(s, i, outcome))
  {
    SplitFlights(s, i);
    var events, before, after := s.flights[i], Flatten(s.flights[..i]), Flatten(s.flights[i + 1..]);
    var at := |s.past.done| + |before|;
    assert s.past.logged == s.past.done + (before + events + after) + s.queue;
    assert events != [] && s.past.logged[at] == events[0];
    if outcome.Sent? {
      assert s.flights[..i][0] == s.flights[0] != [];
      assert before != [];
      assert (s.past.done + events + (before + after) + s.queue)[|s.past.done|] == events[0];
    } else {
      assert s.flights[i + 1..][0] == s.flights[i + 1] != [];
      assert after != [];
      assert (s.past.done + (before + after) + (events + s.queue))[at + |after|] == events[0];
    }
  }

  // One more event is logged, and taken by a flush of its own.
  lemma OneMoreFlight(s: State, e: Event)
    requires s.queue == []
    ensures var t := Next(Next(s, LogEvent(e)), BeginFlush);
      t.queue == [] && t.flights == s.flights + [[e]] && t.past == s.past.(logged := s.past.logged + [e])
  {
    var logged := Next(s, LogEvent(e));
    assert logged.queue == [e] && logged.flights == s.flights;
  }

  lemma SecondFlightLands(s: State, e1: Event, e2: Event)
    requires e1 != e2 && s.queue == [] && s.flights == [[e1], [e2]] && s.past == History([e1, e2], [], [], [], [])
    ensures !InOrder(Next(s, EndFlush(1, Sent))) && Clean(Next(s, EndFlush(1, Sent)))
  {
    var t := Next(s, EndFlush(1, Sent));
    assert t.past.done == [e2] && t.past.logged == [e1, e2];
    assert (t.past.done + Flatten(t.flights) + t.queue)[0] == e2;
  }

  lemma TwoFlights(e1: Event, e2: Event) returns (steps: seq<Step>)
    ensures var s := Run(INITIAL, steps);
      s.queue == [] && s.flights == [[e1], [e2]] && s.past == History([e1, e2], [], [], [], [])
  {
    OneMoreFlight(INITIAL, e1);
    RunTwoMore(INITIAL, [], LogEvent(e1), BeginFlush);
    steps := [] + [LogEvent(e1)] + [BeginFlush];
    var one := Run(INITIAL, steps);
    assert one.queue == [] && one.flights == [[e1]] && one.past == History([e1], [], [], [], []);
    OneMoreFlight(one, e2);
    RunTwoMore(INITIAL, steps, LogEvent(e2), BeginFlush);
    steps := steps + [LogEvent(e2)] + [BeginFlush];
  }

  // Two flushes are out, the second is answered first: no answer is lost, and the order is.
  lemma SecondFirst(e1: Event, e2: Event)
    requires e1 != e2
    ensures exists steps :: NeverRepeats(INITIAL, steps) && !InOrder(Run(INITIAL, steps))
  {
    var steps := TwoFlights(e1, e2);
    SecondFlightLands(Run(INITIAL, steps), e1, e2);
    RunSnoc(INITIAL, steps, EndFlush(1, Sent));
    InitialInv();
    CleanRun(INITIAL, steps + [EndFlush(1, Sent)]);
  }

  // Every run whose flushes end in turn, in particular every run without overlap, keeps the order.
  lemma {:induction false} OrderlyRunKeepsOrder(s: State, steps: seq<Step>)
    requires InOrder(s) && OrderlyRun(s, steps)
    ensures InOrder(Run(s, steps))
    decreases |steps|
  {
    if steps != [] {
      match steps[0] {
        case LogEvent(e) => LogKeepsOrder(s, e);
        case BeginFlush => BeginKeepsOrder(s);
        case EndFlush(i, outcome) => if i < |s.flights| { LandKeepsOrder(s, i, outcome); }
        case BeginSync =>
        case EndSync(_, _) =>
      }
      OrderlyRunKeepsOrder(Next(s, steps[0]), steps[1..]);
    }
  }

  lemma LoggedGrows(s: State, step: Step)
    ensures s.past.logged <= Next(s, step).past.logged
  {
  }

  lemma {:induction false} LoggedGrowsInRun(s: State, steps: seq<Step>)
    ensures s.past.logged <= Run(s, steps).past.logged
    decreases |steps|
  {
    if steps != [] {
      LoggedGrows(s, steps[0]);
      LoggedGrowsInRun(Next(s, steps[0]), steps[1..]);
    }
  }

  lemma StepKeepsOrderIff(s: State, step: Step)
    requires InOrder(s) && OnlyLogged(s) && NoDup(s.past.logged)
    ensures InOrder(Next(s, step)) <==> Orderly(s, step)
  {
    match step
    case LogEvent(e) => LogKeepsOrder(s, e);
    case BeginFlush => BeginKeepsOrder(s);
    case EndFlush(i, outcome) => if i < |s.flights| { EndKeepsOrderIff(s, i, outcome); }
    case BeginSync =>
    case EndSync(_, _) =>
  }

  // In order after every step.
  ghost predicate AlwaysInOrder(s: State, steps: seq<Step>) {
    forall k :: 0 <= k <= |steps| ==> InOrder(Run(s, steps[..k]))
  }

  lemma AlwaysCons(s: State, steps: seq<Step>)
    requires steps != []
    ensures AlwaysInOrder(s, steps) <==> InOrder(s) && AlwaysInOrder(Next(s, steps[0]), steps[1..])
  {
    var t, rest := Next(s, steps[0]), steps[1..];
    forall k | 0 <= k <= |rest| ensures Run(s, steps[..k + 1]) == Run(t, rest[..k]) {
      assert steps[..k + 1][1..] == rest[..k];
    }
    if AlwaysInOrder(s, steps) {
      assert InOrder(Run(s, steps[..0]));
      forall k | 0 <= k <= |rest| ensures InOrder(Run(t, rest[..k])) {
        assert InOrder(Run(s, steps[..k + 1]));
      }
    }
    if InOrder(s) && AlwaysInOrder(t, rest) {
      forall k | 0 <= k <= |steps| ensures InOrder(Run(s, steps[..k])) {
        if k > 0 {
          assert InOrder(Run(t, rest[..k - 1]));
        }
      }
    }
  }

  lemma {:induction false} AlwaysInOrderIff(s: State, steps: seq<Step>)
    requires Inv(s) && InOrder(s) && NoDup(Run(s, steps).past.logged)
    ensures AlwaysInOrder(s, steps) <==> OrderlyRun(s, steps)
    decreases |steps|
  {
    LoggedGrowsInRun(s, steps);
    if steps != [] {
      var t := Next(s, steps[0]);
      AlwaysCons(s, steps);
      StepKeepsOrderIff(s, steps[0]);
      NextKeepsInv(s, steps[0]);
      if InOrder(t) {
        AlwaysInOrderIff(t, steps[1..]);
      } else {
        assert InOrder(Run(t, steps[1..][..0])) <==> InOrder(t);
      }
    }
  }

  /** A run of distinct events is in order after every step iff all of its flushes end in turn. */
  lemma RunKeepsOrderIff(steps: seq<Step>)
    requires NoDup(Run(INITIAL, steps).past.logged)
    ensures AlwaysInOrder(INITIAL, steps) <==> OrderlyRun(INITIAL, steps)
  {
    InitialInv();
    AlwaysInOrderIff(INITIAL, steps);
  }

  lemma NonOverlappingRunKeepsOrder(steps: seq<Step>)
    requires NonOverlapping(INITIAL, steps)
    ensures InOrder(Run(INITIAL, steps))
  {
    NonOverlappingIsOrderly(INITIAL, steps);
    OrderlyRunKeepsOrder(INITIAL, steps);
  }

  // ---------------------------------------------------------------- the class

  class AuditLogger {
    var logs: seq<Event>
    var auditQueue: seq<Event>
    var flushTimer: Option<nat>

    // the browser: running intervals and localStorage
    var timers: set<nat>
    var nextTimer: nat
    var stored: seq<Event>

    // requests that have not been answered, and what has happened so far
    ghost var flights: seq<seq<Event>>
    ghost var syncs: seq<seq<Event>>
    ghost var past: History

    ghost function Abs(): State
      reads this
    {
      State(logs, auditQueue, flushTimer, timers, nextTimer, stored, flights, syncs, past)
    }

    constructor ()
      ensures Abs() == INITIAL
    {
      logs, auditQueue, stored := [], [], [];
      flushTimer, timers, nextTimer := None, {}, 0;
      flights, syncs, past := [], [], History([], [], [], [], []);
      new;
      StartPeriodicFlush();
    }

    method StartPeriodicFlush()
      modifies this
      ensures Abs() == StartTimer(old(Abs()))
    {
      if flushTimer.Some? {
        timers := timers - {flushTimer.value};
      }
      flushTimer := Some(nextTimer);
      timers := timers + {nextTimer};
      nextTimer := nextTimer + 1;
    }

    // The synchronous part of log. The batch is what a flush it started has taken, if any.
    method LogEntry(e: Event) returns (batch: seq<Event>)
      modifies this
      ensures Abs() == Next(old(Abs()), LogEvent(e))
      ensures if |flights| > |old(flights)| then batch == flights[|flights| - 1] else batch == []
    {
      logs := [e] + logs;
      if |logs| > MAX_LOGS {
        logs := logs[..MAX_LOGS];
      }
      past := past.(logged := past.logged + [e]);
      batch := QueueForBackend(e);
    }

    method QueueForBackend(e: Event) returns (batch: seq<Event>)
      modifies this
      ensures var queued := old(Abs()).(queue := old(auditQueue) + [e]);
              Abs() == if |queued.queue| >= BATCH_SIZE then Begin(queued) else queued
      ensures if |flights| > |old(flights)| then batch == flights[|flights| - 1] else batch == []
    {
      auditQueue := auditQueue + [e];
      batch := [];
      if |auditQueue| >= BATCH_SIZE {
        batch := FlushAuditQueue();
      }
    }

    // flushAuditQueue up to its first await. The timer and the online event call it as well.
    method FlushAuditQueue() returns (batch: seq<Event>)
      modifies this
      ensures Abs() == Next(old(Abs()), BeginFlush)
      ensures batch == old(auditQueue)
      ensures batch != [] ==> flights == old(flights) + [batch]
    {
      if |auditQueue| == 0 { return []; }
      if flushTimer.Some? {
        timers := timers - {flushTimer.value};
        flushTimer := None;
      }
      batch, auditQueue := auditQueue, [];
      flights := flights + [batch];
    }

    // The rest of flushAuditQueue, for the i-th of the flushes that are out.
    method FinishFlush(batch: seq<Event>, outcome: Outcome, ghost i: nat)
      requires i < |flights| && flights[i] == batch
      modifies this
      ensures Abs() == Next(old(Abs()), EndFlush(i, outcome))
    {
      flights := Without(flights, i);
      match outcome {
        case NoSession =>
          auditQueue := batch + auditQueue;
        case Sent =>
          past := past.(done := past.done + batch);
        case Failed(serverTook, writable) =>
          if serverTook {
            past := past.(lost := past.lost + batch);
          }
          StoreOfflineAuditLogs(batch, writable);
          auditQueue := batch + auditQueue;
      }
      StartPeriodicFlush();
    }

    method StoreOfflineAuditLogs(events: seq<Event>, writable: bool)
      modifies this
      ensures Abs() == if writable then StoreOffline(old(Abs()), events) else old(Abs())
    {
      if writable {
        var updated := stored + events;
        stored := LastN(MAX_OFFLINE_STORAGE, updated);
        past := past.(copied := past.copied + events);
      }
    }

    // flushOfflineAuditLogs up to its first await, and the rest of it.
    method FlushOfflineAuditLogs() returns (events: seq<Event>)
      modifies this
      ensures Abs() == Next(old(Abs()), BeginSync)
      ensures events == stored
    {
      events := stored;
      if |events| != 0 {
        syncs := syncs + [events];
      }
    }

    method FinishOfflineSync(events: seq<Event>, outcome: SyncOutcome, ghost i: nat)
      requires i < |syncs| && syncs[i] == events
      modifies this
      ensures Abs() == Next(old(Abs()), EndSync(i, outcome))
    {
      if outcome.SyncSent? {
        stored := [];
        past := past.(synced := past.synced + events, copied := []);
      } else if outcome.serverTook {
        past := past.(synced := past.synced + events);
      }
      syncs := Without(syncs, i);
    }
  }
}
