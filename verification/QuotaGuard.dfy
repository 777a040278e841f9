/**
  Quota tracking and degraded mode: quota_guard/tracker.py and quota_guard/degraded_mode.py.

  The clock is a parameter of every call. A call holds the tracker's lock from end to end.
 */
module QuotaGuard {
  import opened Options

  // ---------------------------------------------------------------- the tracker's steps

  datatype Alert = Quiet | Threshold | Exhausted

  datatype State = State(limit: int, used: int, windowStart: int, throttleCount: nat)

  datatype Config = Config(windowSeconds: int, alertThreshold: real)

  datatype Op = Consume(amount: int) | Throttle | RemoteQuota(remaining: int, total: int) | GetStatus | Reset

  predicate WindowOver(c: Config, s: State, now: int) {
    now - s.windowStart >= c.windowSeconds
  }

  function MaybeResetWindow(c: Config, s: State, now: int): State {
    if WindowOver(c, s, now) then s.(used := 0, windowStart := now) else s
  }

  function Step(c: Config, s: State, now: int, op: Op): State {
    match op
    case Consume(amount) =>
      if amount <= 0 then s
      else
        var t := MaybeResetWindow(c, s, now);
        t.(used := t.used + amount)
    case Throttle => s.(throttleCount := s.throttleCount + 1)
    case RemoteQuota(remaining, total) =>
      if total <= 0 then s
      else s.(limit := total, used := if total - remaining > 0 then total - remaining else 0)
    case GetStatus => MaybeResetWindow(c, s, now)
    case Reset => s.(used := 0, windowStart := now, throttleCount := 0)
  }

  function AlertFor(c: Config, s: State): Alert {
    var pct := if s.limit > 0 then s.used as real / s.limit as real else 1.0;
    if pct >= 1.0 then Exhausted else if pct >= c.alertThreshold then Threshold else Quiet
  }

  function Level(a: Alert): nat {
    match a case Quiet => 0 case Threshold => 1 case Exhausted => 2
  }

  // ---------------------------------------------------------------- whole runs

  datatype Call = Call(now: int, op: Op)

  function Run(c: Config, s: State, calls: seq<Call>): State {
    if calls == [] then s
    else Step(c, Run(c, s, calls[..|calls| - 1]), calls[|calls| - 1].now, calls[|calls| - 1].op)
  }

  ghost predicate ClockRuns(start: int, calls: seq<Call>) {
    && (forall i :: 0 <= i < |calls| ==> start <= calls[i].now)
    && (forall i, j :: 0 <= i < j < |calls| ==> calls[i].now <= calls[j].now)
  }

  // ---------------------------------------------------------------- alerts

  // When an alert is right. A limit that is not positive is always exhausted.
  predicate AlertIsRight(c: Config, limit: int, used: int, alert: Alert) {
    if limit <= 0 then alert == Exhausted
    else
      && (alert == Exhausted <==> used >= limit)
      && (alert == Threshold <==> used < limit && used as real >= c.alertThreshold * limit as real)
  }

  lemma Scaled(x: real, y: real, q: real)
    requires q > 0.0
    ensures x >= y <==> x * q >= y * q
  {
    if x >= y {
      assert (x - y) * q >= 0.0;
    } else {
      assert (y - x) * q > 0.0;
    }
  }

  lemma RatioIff(used: int, limit: int, r: real)
    requires limit > 0
    ensures used as real / limit as real >= r <==> used as real >= r * limit as real
  {
    var q := used as real / limit as real;
    Scaled(q, r, limit as real);
    assert q * limit as real == used as real;
  }

  lemma AlertForIsRight(c: Config, s: State)
    ensures AlertIsRight(c, s.limit, s.used, AlertFor(c, s))
  {
    if s.limit > 0 {
      RatioIff(s.used, s.limit, 1.0);
      RatioIff(s.used, s.limit, c.alertThreshold);
      assert 1.0 * s.limit as real == s.limit as real;
    }
  }

  // ---------------------------------------------------------------- what is counted

  // The positive amounts that calls consume.
  function Consumed(calls: seq<Call>): nat {
    if calls == [] then 0 else Consumed(calls[..|calls| - 1]) + Amount(calls[|calls| - 1].op)
  }

  function Amount(op: Op): nat {
    if op.Consume? && op.amount > 0 then op.amount else 0
  }

  // Where counting starts anew with this call, and from what: a window that has run out, a manual
  // reset, or the numbers of the remote side.
  function NewBase(c: Config, s: State, call: Call): Option<int> {
    match call.op
    case Consume(amount) => if amount > 0 && call.now - s.windowStart >= c.windowSeconds then Some(0) else None
    case Throttle => None
    case RemoteQuota(remaining, total) =>
      if total <= 0 then None else Some(if remaining < total then total - remaining else 0)
    case GetStatus => if call.now - s.windowStart >= c.windowSeconds then Some(0) else None
    case Reset => Some(0)
  }

  // The k-th call, counted from one, is the last that starts counting anew; 0 where none does.
  ghost predicate LastStartsAt(c: Config, s: State, calls: seq<Call>, k: nat) {
    && k <= |calls|
    && (k > 0 ==> NewBase(c, Run(c, s, calls[..k - 1]), calls[k - 1]).Some?)
    && forall j :: k <= j < |calls| ==> NewBase(c, Run(c, s, calls[..j]), calls[j]).None?
  }

  function BaseAt(c: Config, s: State, calls: seq<Call>, k: nat): int
    requires LastStartsAt(c, s, calls, k)
  {
    if k == 0 then s.used else NewBase(c, Run(c, s, calls[..k - 1]), calls[k - 1]).value
  }

  // The calls from the one that started counting anew on, that one included.
  function CountedFrom(calls: seq<Call>, k: nat): seq<Call>
    requires k <= |calls|
  {
    if k == 0 then calls else calls[k - 1..]
  }

  lemma {:induction false} SomeLastStart(c: Config, s: State, calls: seq<Call>) returns (k: nat)
    ensures LastStartsAt(c, s, calls, k)
  {
    if calls == [] { return 0; }
    var front, last := calls[..|calls| - 1], calls[|calls| - 1];
    if NewBase(c, Run(c, s, front), last).Some? { return |calls|; }
    k := SomeLastStart(c, s, front);
    LastStartSnoc(c, s, calls, k);
  }

  // Whether the k-th call is the last start does not depend on a call behind it that starts nothing.
  lemma LastStartSnoc(c: Config, s: State, calls: seq<Call>, k: nat)
    requires calls != [] && k < |calls|
    ensures LastStartsAt(c, s, calls, k)
       <==> LastStartsAt(c, s, calls[..|calls| - 1], k)
            && NewBase(c, Run(c, s, calls[..|calls| - 1]), calls[|calls| - 1]).None?
  {
    var front := calls[..|calls| - 1];
    assert forall j :: 0 <= j <= |front| ==> front[..j] == calls[..j];
  }

  lemma StepCounts(c: Config, s: State, call: Call)
    ensures var base := NewBase(c, s, call);
      Step(c, s, call.now, call.op).used == (if base.Some? then base.value else s.used) + Amount(call.op)
  {
  }

  /** On every run, what is counted is the last base plus all positive amounts consumed since. */
  lemma {:induction false} UseIsBasePlusConsumed(c: Config, s: State, calls: seq<Call>, k: nat)
    requires LastStartsAt(c, s, calls, k)
    ensures Run(c, s, calls).used == BaseAt(c, s, calls, k) + Consumed(CountedFrom(calls, k))
  {
    if calls != [] {
      var front, last := calls[..|calls| - 1], calls[|calls| - 1];
      StepCounts(c, Run(c, s, front), last);
      if k < |calls| {
        LastStartSnoc(c, s, calls, k);
        UseIsBasePlusConsumed(c, s, front, k);
        assert CountedFrom(calls, k)[..|CountedFrom(calls, k)| - 1] == CountedFrom(front, k);
        assert k > 0 ==> front[..k - 1] == calls[..k - 1];
      } else {
        assert CountedFrom(calls, k) == [last] && Consumed([last]) == Consumed([]) + Amount(last.op) by {
          assert [last][..0] == [];
        }
      }
    }
  }

  lemma {:induction false} WindowBehindClock(c: Config, s: State, start: int, calls: seq<Call>, now: int)
    requires s.windowStart <= start <= now && ClockRuns(start, calls)
    requires forall i :: 0 <= i < |calls| ==> calls[i].now <= now
    ensures Run(c, s, calls).windowStart <= now
  {
    if calls != [] {
      WindowBehindClock(c, s, start, calls[..|calls| - 1], now);
    }
  }

  // Inside the window that begins at windowStart. A window of no length holds the moment it begins.
  predicate InWindow(c: Config, windowStart: int, now: int) {
    windowStart <= now && (now < windowStart + c.windowSeconds || c.windowSeconds <= 0)
  }

  /** With a clock that never goes back, all of these amounts were consumed in the current window. */
  lemma {:induction false} CountedInThisWindow(c: Config, s: State, start: int, calls: seq<Call>, k: nat, j: nat)
    requires s.windowStart <= start && ClockRuns(start, calls) && LastStartsAt(c, s, calls, k)
    requires k <= j + 1 && j < |calls| && Amount(calls[j].op) > 0
    ensures InWindow(c, Run(c, s, calls).windowStart, calls[j].now)
  {
    var front, last := calls[..|calls| - 1], calls[|calls| - 1];
    if j == |front| {
      WindowBehindClock(c, s, start, front, last.now);
    } else {
      LastStartSnoc(c, s, calls, k);
      CountedInThisWindow(c, s, start, front, k, j);
      QuietKeepsWindow(c, Run(c, s, front), last);
    }
  }

  lemma QuietKeepsWindow(c: Config, s: State, call: Call)
    requires NewBase(c, s, call).None?
    ensures Step(c, s, call.now, call.op).windowStart == s.windowStart
  {
  }

  lemma RatioGrows(a: int, b: int, n: int)
    requires a <= b && n > 0
    ensures a as real / n as real <= b as real / n as real
  {
    var p, q := a as real / n as real, b as real / n as real;
    assert p * n as real == a as real && q * n as real == b as real;
    assert (p - q) * n as real == p * n as real - q * n as real;
  }

  lemma AlertGrows(c: Config, s: State, t: State)
    requires s.limit == t.limit && s.used <= t.used
    ensures Level(AlertFor(c, s)) <= Level(AlertFor(c, t))
  {
    if s.limit > 0 {
      RatioGrows(s.used, t.used, s.limit);
    }
  }

  // No call of the run starts a window, syncs or resets.
  predicate SameWindow(c: Config, s: State, calls: seq<Call>) {
    forall i :: 0 <= i < |calls|
      ==> calls[i].now - s.windowStart < c.windowSeconds && !calls[i].op.RemoteQuota? && !calls[i].op.Reset?
  }

  lemma {:induction false} SameWindowGrows(c: Config, s: State, calls: seq<Call>)
    requires SameWindow(c, s, calls)
    ensures var t := Run(c, s, calls); t.limit == s.limit && t.windowStart == s.windowStart && s.used <= t.used
  {
    if calls != [] {
      SameWindowGrows(c, s, calls[..|calls| - 1]);
    }
  }

  lemma {:induction false} RunAppend(c: Config, s: State, a: seq<Call>, b: seq<Call>)
    ensures Run(c, s, a + b) == Run(c, Run(c, s, a), b)
  {
    if b == [] {
      assert a + b == a;
    } else {
      RunAppend(c, s, a, b[..|b| - 1]);
      assert (a + b)[..|a + b| - 1] == a + b[..|b| - 1];
    }
  }

  /** Inside one window, without a sync or a reset, the alert of a later call is never lower. */
  lemma AlertsOnlyEscalate(c: Config, s: State, earlier: seq<Call>, later: seq<Call>)
    requires SameWindow(c, s, earlier + later)
    ensures Level(AlertFor(c, Run(c, s, earlier))) <= Level(AlertFor(c, Run(c, s, earlier + later)))
  {
    var all := earlier + later;
    assert SameWindow(c, s, earlier) by {
      assert forall i :: 0 <= i < |earlier| ==> all[i] == earlier[i];
    }
    SameWindowGrows(c, s, earlier);
    var t := Run(c, s, earlier);
    assert SameWindow(c, t, later) by {
      assert forall i :: 0 <= i < |later| ==> later[i] == all[i + |earlier|];
    }
    SameWindowGrows(c, t, later);
    RunAppend(c, s, earlier, later);
    AlertGrows(c, t, Run(c, t, later));
  }

  // ---------------------------------------------------------------- when each alert comes

  // The alert of the last call of a run, if it consumes something.
  lemma AlertFromBase(c: Config, s: State, calls: seq<Call>, k: nat)
    requires calls != [] && Amount(calls[|calls| - 1].op) > 0 && LastStartsAt(c, s, calls, k)
    ensures AlertIsRight(c, LimitAfter(s.limit, calls), BaseAt(c, s, calls, k) + Consumed(CountedFrom(calls, k)),
                         AlertFor(c, Run(c, s, calls)))
  {
    UseIsBasePlusConsumed(c, s, calls, k);
    LimitIsLastSync(c, s, calls);
    AlertForIsRight(c, Run(c, s, calls));
  }

  // The limit that the last remote sync with a positive total has set.
  function LimitAfter(limit: int, calls: seq<Call>): int {
    if calls == [] then limit
    else
      var op := calls[|calls| - 1].op;
      if op.RemoteQuota? && op.total > 0 then op.total else LimitAfter(limit, calls[..|calls| - 1])
  }

  lemma {:induction false} LimitIsLastSync(c: Config, s: State, calls: seq<Call>)
    ensures Run(c, s, calls).limit == LimitAfter(s.limit, calls)
  {
    if calls != [] {
      LimitIsLastSync(c, s, calls[..|calls| - 1]);
    }
  }

  // When the current window began: at the last manual reset, or at the last call that consumed
  // something or asked for the status when its window had run out.
  function WindowAfter(windowSeconds: int, start: int, calls: seq<Call>): int {
    if calls == [] then start
    else
      var last, before := calls[|calls| - 1], WindowAfter(windowSeconds, start, calls[..|calls| - 1]);
      if last.op.Reset? then last.now
      else if (Amount(last.op) > 0 || last.op.GetStatus?) && last.now - before >= windowSeconds then last.now
      else before
  }

  lemma {:induction false} WindowIsAfter(c: Config, s: State, calls: seq<Call>)
    ensures Run(c, s, calls).windowStart == WindowAfter(c.windowSeconds, s.windowStart, calls)
  {
    if calls != [] {
      WindowIsAfter(c, s, calls[..|calls| - 1]);
    }
  }

  // The throttle responses since the last manual reset.
  function ThrottlesAfter(count: nat, calls: seq<Call>): nat {
    if calls == [] then count
    else
      var op, before := calls[|calls| - 1].op, ThrottlesAfter(count, calls[..|calls| - 1]);
      if op.Reset? then 0 else if op.Throttle? then before + 1 else before
  }

  lemma {:induction false} ThrottlesAreCounted(c: Config, s: State, calls: seq<Call>)
    ensures Run(c, s, calls).throttleCount == ThrottlesAfter(s.throttleCount, calls)
  {
    if calls != [] {
      ThrottlesAreCounted(c, s, calls[..|calls| - 1]);
    }
  }

  // How much of a limit has been reached: 2 for all of it, 1 for the threshold.
  predicate Reached(c: Config, limit: int, used: int, level: nat) {
    used >= limit || (level == 1 && used as real >= c.alertThreshold * limit as real)
  }

  // The j-th call consumes something, and its alert has the level or a higher one.
  predicate Alerts(c: Config, s: State, calls: seq<Call>, j: nat, level: nat)
    requires j < |calls|
  {
    Amount(calls[j].op) > 0 && Level(AlertFor(c, Run(c, s, calls[..j + 1]))) >= level
  }

  lemma {:induction false} SameWindowUse(c: Config, s: State, calls: seq<Call>)
    requires SameWindow(c, s, calls)
    ensures var t := Run(c, s, calls);
      t.used == s.used + Consumed(calls) && t.limit == s.limit && t.windowStart == s.windowStart
  {
    if calls != [] {
      SameWindowUse(c, s, calls[..|calls| - 1]);
    }
  }

  lemma AlertsIff(c: Config, s: State, calls: seq<Call>, j: nat, level: nat)
    requires SameWindow(c, s, calls) && s.limit > 0 && j < |calls| && 1 <= level <= 2 && Amount(calls[j].op) > 0
    ensures Alerts(c, s, calls, j, level) <==> Reached(c, s.limit, s.used + Consumed(calls[..j + 1]), level)
  {
    var front := calls[..j + 1];
    assert SameWindow(c, s, front);
    SameWindowUse(c, s, front);
    AlertForIsRight(c, Run(c, s, front));
  }

  lemma {:induction false} ConsumedGrows(calls: seq<Call>, i: nat, j: nat)
    requires i <= j <= |calls|
    ensures Consumed(calls[..i]) <= Consumed(calls[..j])
    ensures j < |calls| ==> Consumed(calls[..j + 1]) == Consumed(calls[..j]) + Amount(calls[j].op)
    decreases j
  {
    if i < j {
      ConsumedGrows(calls, i, j - 1);
    }
    if j < |calls| {
      assert calls[..j + 1][..j] == calls[..j];
    }
  }

  lemma ReachedGrows(c: Config, limit: int, used: int, more: int, level: nat)
    requires Reached(c, limit, used, level) && used <= more
    ensures Reached(c, limit, more, level)
  {
  }

  // Something is reached only by calls that consume, and the last of these has alerted.
  lemma {:induction false} ReachedByAlert(c: Config, s: State, calls: seq<Call>, j: nat, level: nat)
    requires SameWindow(c, s, calls) && s.limit > 0 && j <= |calls| && 1 <= level <= 2
    requires !Reached(c, s.limit, s.used, level) && Reached(c, s.limit, s.used + Consumed(calls[..j]), level)
    ensures exists i :: 0 <= i < j && Alerts(c, s, calls, i, level)
  {
    if j > 0 {
      ConsumedGrows(calls, j - 1, j - 1);
      if Amount(calls[j - 1].op) > 0 {
        AlertsIff(c, s, calls, j - 1, level);
        assert Alerts(c, s, calls, j - 1, level);
      } else {
        ReachedByAlert(c, s, calls, j - 1, level);
      }
    }
  }

  /**
    Within one window, from a state that has not reached the level: the first call that alerts it is
    the one at which the use that was there and all that was consumed since reach it.
   */
  lemma FirstAlertIff(c: Config, s: State, calls: seq<Call>, j: nat, level: nat)
    requires SameWindow(c, s, calls) && s.limit > 0 && j < |calls| && 1 <= level <= 2
    requires !Reached(c, s.limit, s.used, level)
    ensures Alerts(c, s, calls, j, level) && (forall i :: 0 <= i < j ==> !Alerts(c, s, calls, i, level))
       <==> !Reached(c, s.limit, s.used + Consumed(calls[..j]), level)
            && Reached(c, s.limit, s.used + Consumed(calls[..j + 1]), level)
  {
    ConsumedGrows(calls, j, j);
    if Amount(calls[j].op) > 0 {
      AlertsIff(c, s, calls, j, level);
    }
    if Reached(c, s.limit, s.used + Consumed(calls[..j]), level) {
      ReachedByAlert(c, s, calls, j, level);
    } else {
      forall i | 0 <= i < j ensures !Alerts(c, s, calls, i, level) {
        NotBefore(c, s, calls, i, j, level);
      }
    }
  }

  lemma NotBefore(c: Config, s: State, calls: seq<Call>, i: nat, j: nat, level: nat)
    requires SameWindow(c, s, calls) && s.limit > 0 && i < j <= |calls| && 1 <= level <= 2
    requires !Reached(c, s.limit, s.used + Consumed(calls[..j]), level)
    ensures !Alerts(c, s, calls, i, level)
  {
    if Alerts(c, s, calls, i, level) {
      AlertsIff(c, s, calls, i, level);
      ConsumedGrows(calls, i + 1, j);
      ReachedGrows(c, s.limit, s.used + Consumed(calls[..i + 1]), s.used + Consumed(calls[..j]), level);
    }
  }

  class QuotaTracker {
    const config: Config
    var limit: int
    var used: int
    var windowStart: int
    var throttleCount: nat

    function Abs(): State
      reads this
    {
      State(limit, used, windowStart, throttleCount)
    }

    constructor (limit: int, config: Config, now: int)
      ensures this.config == config && Abs() == State(limit, 0, now, 0)
    {
      this.config := config;
      this.limit, used, windowStart, throttleCount := limit, 0, now, 0;
    }

    method MaybeReset(now: int)
      modifies this
      ensures Abs() == MaybeResetWindow(config, old(Abs()), now)
    {
      if now - windowStart >= config.windowSeconds {
        windowStart, used := now, 0;
      }
    }

    method Consume(now: int, amount: int) returns (alert: Alert)
      modifies this
      ensures Abs() == Step(config, old(Abs()), now, Op.Consume(amount))
      ensures amount > 0 ==> AlertIsRight(config, limit, used, alert)
      ensures amount <= 0 ==> alert == Quiet && Abs() == old(Abs())
    {
      if amount <= 0 { return Quiet; }
      MaybeReset(now);
      used := used + amount;
      var pct := if limit > 0 then used as real / limit as real else 1.0;
      alert := if pct >= 1.0 then Exhausted else if pct >= config.alertThreshold then Threshold else Quiet;
      AlertForIsRight(config, Abs());
    }

    // The alert carries the count.
    method RecordThrottle(now: int) returns (count: nat)
      modifies this
      ensures Abs() == Step(config, old(Abs()), now, Throttle)
      ensures count == throttleCount == old(throttleCount) + 1
    {
      throttleCount := throttleCount + 1;
      count := throttleCount;
    }

    method RecordRemoteQuota(now: int, remaining: int, total: int)
      modifies this
      ensures Abs() == Step(config, old(Abs()), now, RemoteQuota(remaining, total))
    {
      if total <= 0 { return; }
      limit := total;
      used := if total - remaining > 0 then total - remaining else 0;
    }

    method CurrentStatus(now: int, name: string) returns (s: Status)
      modifies this
      ensures Abs() == Step(config, old(Abs()), now, GetStatus)
      ensures s == Status(name, limit, used, throttleCount)
    {
      MaybeReset(now);
      s := Status(name, limit, used, throttleCount);
    }

    method ResetAll(now: int)
      modifies this
      ensures Abs() == Step(config, old(Abs()), now, Op.Reset)
    {
      windowStart, used, throttleCount := now, 0, 0;
    }
  }

  // ---------------------------------------------------------------- degraded mode

  datatype Status = Status(name: string, limit: int, used: int, throttleCount: nat)

  function TotalLimit(trackers: seq<Status>): int {
    if trackers == [] then 0 else TotalLimit(trackers[..|trackers| - 1]) + trackers[|trackers| - 1].limit
  }

  function TotalUsed(trackers: seq<Status>): int {
    if trackers == [] then 0 else TotalUsed(trackers[..|trackers| - 1]) + trackers[|trackers| - 1].used
  }

  // used / limit >= r, without the division.
  predicate AtLeast(used: int, limit: int, r: real) {
    limit > 0 && used as real >= r * limit as real
  }

  predicate Limited(t: Status, throttleThreshold: int) {
    t.throttleCount >= throttleThreshold || AtLeast(t.used, t.limit, 0.95)
  }

  // Some tracker of that name is to be limited.
  ghost predicate ServiceLimited(trackers: seq<Status>, throttleThreshold: int, name: string) {
    exists t :: t in trackers && t.name == name && Limited(t, throttleThreshold)
  }

  lemma ServiceLimitedNext(front: seq<Status>, t: Status, throttleThreshold: int)
    ensures forall name :: (ServiceLimited(front + [t], throttleThreshold, name)
                            <==> ServiceLimited(front, throttleThreshold, name)
                                 || (name == t.name && Limited(t, throttleThreshold)))
  {
    assert forall u :: u in front + [t] <==> u in front || u == t;
  }

  lemma RatioAtLeast(used: int, limit: int, r: real)
    requires limit > 0
    ensures used as real / limit as real >= r <==> AtLeast(used, limit, r)
  {
    RatioIff(used, limit, r);
  }

  method Evaluate(trackers: seq<Status>, throttleThreshold: int, globalThreshold: real)
    returns (degraded: bool, services: set<string>)
    ensures degraded <==> TotalLimit(trackers) > 0
                          && TotalUsed(trackers) as real / TotalLimit(trackers) as real >= globalThreshold
    ensures forall name :: (name in services
                            <==> exists t :: t in trackers && t.name == name
                                             && (t.throttleCount >= throttleThreshold
                                                 || (t.limit > 0 && t.used as real / t.limit as real >= 0.95)))
  {
    var totalLimit, totalUsed := 0, 0;
    var limited, highThrottle: set<string> := {}, {};
    for i := 0 to |trackers|
      invariant totalLimit == TotalLimit(trackers[..i]) && totalUsed == TotalUsed(trackers[..i])
      invariant forall name ::
        name in limited + highThrottle <==> ServiceLimited(trackers[..i], throttleThreshold, name)
    {
      var t := trackers[i];
      assert trackers[..i + 1] == trackers[..i] + [t] && trackers[..i + 1][..i] == trackers[..i];
      ServiceLimitedNext(trackers[..i], t, throttleThreshold);
      totalLimit, totalUsed := totalLimit + t.limit, totalUsed + t.used;
      if t.throttleCount >= throttleThreshold {
        highThrottle := highThrottle + {t.name};
      }
      if t.limit > 0 {
        RatioAtLeast(t.used, t.limit, 0.95);
        if t.used as real / t.limit as real >= 0.95 {
          limited := limited + {t.name};
        }
      }
    }
    assert trackers[..|trackers|] == trackers;
    degraded := false;
    if totalLimit > 0 {
      RatioAtLeast(totalUsed, totalLimit, globalThreshold);
      degraded := totalUsed as real / totalLimit as real >= globalThreshold;
    }
    services := limited + highThrottle;
    forall t | t in trackers ensures Limited(t, throttleThreshold)
        <==> t.throttleCount >= throttleThreshold || (t.limit > 0 && t.used as real / t.limit as real >= 0.95) {
      if t.limit > 0 {
        RatioAtLeast(t.used, t.limit, 0.95);
      }
    }
  }

  lemma Distribute(r: real, a: int, b: int)
    ensures r * (a + b) as real == r * a as real + r * b as real
  {
  }

  lemma {:induction false} TotalsAtLeast(trackers: seq<Status>, r: real)
    requires forall t :: t in trackers ==> t.used as real >= r * t.limit as real
    ensures TotalUsed(trackers) as real >= r * TotalLimit(trackers) as real
  {
    if trackers != [] {
      var front, last := trackers[..|trackers| - 1], trackers[|trackers| - 1];
      assert last in trackers;
      TotalsAtLeast(front, r);
      Distribute(r, TotalLimit(front), last.limit);
    }
  }

  lemma {:induction false} TotalsBelow(trackers: seq<Status>, r: real)
    requires trackers != [] && forall t :: t in trackers ==> (t.used as real) < r * t.limit as real
    ensures (TotalUsed(trackers) as real) < r * TotalLimit(trackers) as real
  {
    var front, last := trackers[..|trackers| - 1], trackers[|trackers| - 1];
    assert last in trackers;
    Distribute(r, TotalLimit(front), last.limit);
    if front != [] {
      TotalsBelow(front, r);
    }
  }

  lemma {:induction false} TotalLimitPositive(trackers: seq<Status>)
    requires trackers != [] && forall t :: t in trackers ==> t.limit > 0
    ensures TotalLimit(trackers) > 0
  {
    var front, last := trackers[..|trackers| - 1], trackers[|trackers| - 1];
    assert last in trackers;
    if front != [] {
      TotalLimitPositive(front);
    }
  }

  /** With positive limits the pooled ratio is between the individual ones: global degradation needs a
      tracker at the threshold, and all trackers at the threshold bring it about. */
  lemma PooledBetweenIndividual(trackers: seq<Status>, r: real)
    requires trackers != [] && forall t :: t in trackers ==> t.limit > 0
    ensures AtLeast(TotalUsed(trackers), TotalLimit(trackers), r)
        ==> exists t :: t in trackers && AtLeast(t.used, t.limit, r)
    ensures (forall t :: t in trackers ==> AtLeast(t.used, t.limit, r))
        ==> AtLeast(TotalUsed(trackers), TotalLimit(trackers), r)
  {
    TotalLimitPositive(trackers);
    if forall t :: t in trackers ==> AtLeast(t.used, t.limit, r) {
      TotalsAtLeast(trackers, r);
    }
    if forall t :: t in trackers ==> !AtLeast(t.used, t.limit, r) {
      TotalsBelow(trackers, r);
    }
  }

  // ---------------------------------------------------------------- limits that are not positive

  function Limits(trackers: seq<Status>): seq<int> {
    seq(|trackers|, i requires 0 <= i < |trackers| => trackers[i].limit)
  }

  // Global degradation is backed by some tracker at the threshold.
  ghost predicate Backed(trackers: seq<Status>, r: real) {
    AtLeast(TotalUsed(trackers), TotalLimit(trackers), r) ==> exists t :: t in trackers && AtLeast(t.used, t.limit, r)
  }

  // ... however much has been used of these limits.
  ghost predicate AlwaysBacked(limits: seq<int>, r: real) {
    forall trackers: seq<Status> :: Limits(trackers) == limits && NoneNegative(trackers) ==> Backed(trackers, r)
  }

  predicate NoneNegative(trackers: seq<Status>) {
    forall t :: t in trackers ==> t.used >= 0
  }

  function SumLimits(limits: seq<int>): int {
    if limits == [] then 0 else SumLimits(limits[..|limits| - 1]) + limits[|limits| - 1]
  }

  lemma {:induction false} SumLimitsIsTotal(trackers: seq<Status>)
    ensures SumLimits(Limits(trackers)) == TotalLimit(trackers)
  {
    if trackers != [] {
      SumLimitsIsTotal(trackers[..|trackers| - 1]);
      assert Limits(trackers)[..|trackers| - 1] == Limits(trackers[..|trackers| - 1]);
    }
  }

  // One tracker has used `amount`, the others nothing.
  function Loaded(limits: seq<int>, k: nat, amount: nat): (trackers: seq<Status>)
    requires k < |limits|
    ensures |trackers| == |limits|
    ensures forall i :: 0 <= i < |limits| ==> trackers[i] == Status("", limits[i], if i == k then amount else 0, 0)
  {
    seq(|limits|, i requires 0 <= i < |limits| => Status("", limits[i], if i == k then amount else 0, 0))
  }

  lemma {:induction false} LoadedUsed(limits: seq<int>, k: nat, amount: nat, n: nat)
    requires k < |limits| && n <= |limits|
    ensures TotalUsed(Loaded(limits, k, amount)[..n]) == if k < n then amount else 0
  {
    if n > 0 {
      LoadedUsed(limits, k, amount, n - 1);
      assert Loaded(limits, k, amount)[..n][..n - 1] == Loaded(limits, k, amount)[..n - 1];
    }
  }

  /** For limits as any caller may set them: backed iff all limits are positive, or they sum up to nothing. */
  lemma AlwaysBackedIff(limits: seq<int>, r: real)
    requires r > 0.0
    ensures AlwaysBacked(limits, r) <==> SumLimits(limits) <= 0 || forall i :: 0 <= i < |limits| ==> limits[i] > 0
  {
    if SumLimits(limits) <= 0 || forall i :: 0 <= i < |limits| ==> limits[i] > 0 {
      forall trackers: seq<Status> | Limits(trackers) == limits ensures Backed(trackers, r) {
        SumLimitsIsTotal(trackers);
        if TotalLimit(trackers) > 0 {
          forall i | 0 <= i < |trackers| ensures trackers[i].limit > 0 {
            assert trackers[i].limit == limits[i];
          }
          PooledBetweenIndividual(trackers, r);
        }
      }
    } else {
      var k :| 0 <= k < |limits| && limits[k] <= 0;
      UnbackedLoad(limits, k, r);
    }
  }

  lemma LoadedTotals(limits: seq<int>, k: nat, amount: nat)
    requires k < |limits|
    ensures var trackers := Loaded(limits, k, amount);
      Limits(trackers) == limits && TotalUsed(trackers) == amount && TotalLimit(trackers) == SumLimits(limits)
  {
    var trackers := Loaded(limits, k, amount);
    assert Limits(trackers) == limits;
    assert trackers[..|limits|] == trackers;
    LoadedUsed(limits, k, amount, |limits|);
    SumLimitsIsTotal(trackers);
  }

  lemma UnbackedLoad(limits: seq<int>, k: nat, r: real)
    requires r > 0.0 && k < |limits| && limits[k] <= 0 && SumLimits(limits) > 0
    ensures !AlwaysBacked(limits, r)
  {
    var amount := EnoughFor(r, SumLimits(limits));
    LoadedTotals(limits, k, amount);
    NoneAtLeast(limits, k, amount, r);
    NotBacked(Loaded(limits, k, amount), r);
  }

  lemma NotBacked(trackers: seq<Status>, r: real)
    requires AtLeast(TotalUsed(trackers), TotalLimit(trackers), r)
    requires forall t :: t in trackers ==> t.used >= 0 && !AtLeast(t.used, t.limit, r)
    ensures !AlwaysBacked(Limits(trackers), r)
  {
    assert NoneNegative(trackers) && !Backed(trackers, r);
  }

  lemma NoneAtLeast(limits: seq<int>, k: nat, amount: nat, r: real)
    requires r > 0.0 && k < |limits| && limits[k] <= 0
    ensures forall t :: t in Loaded(limits, k, amount) ==> t.used >= 0 && !AtLeast(t.used, t.limit, r)
  {
    var trackers := Loaded(limits, k, amount);
    forall i | 0 <= i < |trackers| ensures trackers[i].used >= 0 && !AtLeast(trackers[i].used, trackers[i].limit, r) {
      if trackers[i].limit > 0 {
        PositiveProduct(r, trackers[i].limit);
      }
    }
  }

  lemma PositiveProduct(r: real, n: int)
    requires r > 0.0 && n > 0
    ensures r * n as real > 0.0
  {
  }

  lemma EnoughFor(r: real, total: int) returns (amount: nat)
    requires r > 0.0 && total > 0
    ensures AtLeast(amount, total, r)
  {
    var n := r.Floor + 1;
    assert n as real > r;
    assert n as real * total as real >= r * total as real;
    assert n > 0 && n * total >= 0;
    amount := n * total;
    assert amount as real == n as real * total as real;
  }

  // ---------------------------------------------------------------- order of the trackers

  lemma {:induction false} TotalsAppend(a: seq<Status>, b: seq<Status>)
    ensures TotalLimit(a + b) == TotalLimit(a) + TotalLimit(b)
    ensures TotalUsed(a + b) == TotalUsed(a) + TotalUsed(b)
  {
    if b == [] {
      assert a + b == a;
    } else {
      TotalsAppend(a, b[..|b| - 1]);
      assert (a + b)[..|a + b| - 1] == a + b[..|b| - 1];
    }
  }

  lemma SameMembers(a: seq<Status>, b: seq<Status>)
    requires multiset(a) == multiset(b)
    ensures |a| == |b| && forall t :: t in a <==> t in b
  {
    assert |a| == |multiset(a)| == |multiset(b)| == |b|;
    forall t ensures t in a <==> t in b {
      assert t in a <==> t in multiset(a);
      assert t in b <==> t in multiset(b);
    }
  }

  lemma {:induction false} TotalsIgnoreOrder(a: seq<Status>, b: seq<Status>)
    requires multiset(a) == multiset(b)
    ensures TotalLimit(a) == TotalLimit(b) && TotalUsed(a) == TotalUsed(b)
    decreases |a|
  {
    SameMembers(a, b);
    if a != [] {
      var front, last := a[..|a| - 1], a[|a| - 1];
      assert last in a;
      var i :| 0 <= i < |b| && b[i] == last;
      var left, right := b[..i], b[i + 1..];
      assert b == left + [last] + right;
      RemoveOne(front, last, left, right, a, b);
      TotalsIgnoreOrder(front, left + right);
      TotalsAppend(left, right);
      TotalsAppend(left + [last], right);
      TotalsAppend(left, [last]);
      assert [last][..0] == [];
    }
  }

  /** The verdict and the services depend on which trackers there are, not on their order. */
  lemma OrderDoesNotMatter(a: seq<Status>, b: seq<Status>, throttleThreshold: int, r: real)
    requires multiset(a) == multiset(b)
    ensures AtLeast(TotalUsed(a), TotalLimit(a), r) == AtLeast(TotalUsed(b), TotalLimit(b), r)
    ensures forall name :: ServiceLimited(a, throttleThreshold, name) <==> ServiceLimited(b, throttleThreshold, name)
  {
    TotalsIgnoreOrder(a, b);
    SameMembers(a, b);
  }

  lemma RemoveOne(front: seq<Status>, last: Status, left: seq<Status>, right: seq<Status>,
                  a: seq<Status>, b: seq<Status>)
    requires a == front + [last] && b == left + [last] + right && multiset(a) == multiset(b)
    ensures multiset(front) == multiset(left + right)
  {
    assert multiset(a) == multiset(front) + multiset{last};
    assert multiset(b) == multiset(left) + multiset{last} + multiset(right);
    forall x ensures multiset(front)[x] == multiset(left + right)[x] {
      assert multiset(a)[x] == multiset(b)[x];
    }
  }
}
