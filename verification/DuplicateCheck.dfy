/**
  Checking one candidate against the existing subscriptions: checkForDuplicate of
  client/lib/duplicate-detection.ts.
 */
module DuplicateCheck {
  import opened Options
  import opened Seqs
  import opened GreedyClusters
  import opened DuplicateDetection

  // A subscription, or the request to create one, as far as the check looks at it.
  datatype Offer = Offer(name: string, price: real, billingCycle: string, renewalUrl: Option<string>)

  datatype Confidence = High | Probable | Low

  datatype Signals = Signals(nameMatch: bool, priceAndCycleMatch: bool, urlDomainMatch: bool)

  datatype Match = Match(existing: Offer, confidence: Confidence, signals: Signals)

  datatype CheckResult = CheckResult(hasDuplicate: bool, confidence: Option<Confidence>, matches: seq<Match>)

  // What parsing a URL yields as its host, None where it throws.
  type Hosts = string -> Option<string>

  // ---------------------------------------------------------------- signals

  predicate MatchesPriceAndCycle(a: Offer, b: Offer) {
    a.billingCycle == b.billingCycle && -0.01 < a.price - b.price < 0.01
  }

  function WithoutWww(host: string): string {
    if |host| >= 4 && host[..4] == "www." then host[4..] else host
  }

  function ExtractDomain(hosts: Hosts, url: string): Option<string> {
    match hosts(url)
    case None => None
    case Some(host) => Some(WithoutWww(host))
  }

  // An absent URL and an empty one are both false.
  function Domain(hosts: Hosts, o: Offer): Option<string> {
    if o.renewalUrl.None? || o.renewalUrl.value == "" then None else ExtractDomain(hosts, o.renewalUrl.value)
  }

  predicate MatchesUrlDomain(hosts: Hosts, a: Offer, b: Offer) {
    Domain(hosts, a).Some? && Domain(hosts, a) == Domain(hosts, b)
  }

  function SignalsOf(hosts: Hosts, candidate: Offer, sub: Offer): Signals {
    Signals(FuzzyMatch(candidate.name, sub.name), MatchesPriceAndCycle(candidate, sub),
            MatchesUrlDomain(hosts, sub, candidate))
  }

  // The filter(Boolean).length of the three signals.
  function MatchCount(s: Signals): nat {
    (if s.nameMatch then 1 else 0) + (if s.priceAndCycleMatch then 1 else 0) + (if s.urlDomainMatch then 1 else 0)
  }

  function ScoreConfidence(s: Signals): Confidence {
    if MatchCount(s) >= 3 then High else if MatchCount(s) >= 2 then Probable else Low
  }

  // The part of a host behind www., or all of it.
  ghost predicate IsDomainOf(domain: string, host: string) {
    host == "www." + domain || (host == domain && forall rest :: host != "www." + rest)
  }

  lemma DomainOfHost(host: string)
    ensures IsDomainOf(WithoutWww(host), host)
    ensures forall domain :: IsDomainOf(domain, host) ==> domain == WithoutWww(host)
  {
    if |host| >= 4 && host[..4] == "www." {
      assert host == "www." + host[4..];
    }
    forall rest | host == "www." + rest ensures host[..4] == "www." && host[4..] == rest {
    }
  }

  // Both offers have a URL that is not empty and parses, and the hosts agree but for www.
  ghost predicate SameDomain(hosts: Hosts, a: Offer, b: Offer) {
    && a.renewalUrl.Some? && a.renewalUrl.value != "" && b.renewalUrl.Some? && b.renewalUrl.value != ""
    && hosts(a.renewalUrl.value).Some? && hosts(b.renewalUrl.value).Some?
    && exists domain :: IsDomainOf(domain, hosts(a.renewalUrl.value).value)
                        && IsDomainOf(domain, hosts(b.renewalUrl.value).value)
  }

  /** The three signals. Offers without a URL share no domain. */
  lemma SignalsAre(hosts: Hosts, candidate: Offer, sub: Offer)
    ensures var s := SignalsOf(hosts, candidate, sub);
      && (s.nameMatch <==> FuzzyMatch(candidate.name, sub.name))
      && (s.priceAndCycleMatch <==> candidate.billingCycle == sub.billingCycle
                                    && candidate.price < sub.price + 0.01 && sub.price < candidate.price + 0.01)
      && (s.urlDomainMatch <==> SameDomain(hosts, candidate, sub))
  {
    if Domain(hosts, candidate).Some? && Domain(hosts, sub).Some? {
      DomainOfHost(hosts(candidate.renewalUrl.value).value);
      DomainOfHost(hosts(sub.renewalUrl.value).value);
    }
  }

  /** All three signals are high, exactly two are probable. */
  lemma ConfidenceIs(s: Signals)
    ensures ScoreConfidence(s) == High <==> s.nameMatch && s.priceAndCycleMatch && s.urlDomainMatch
    ensures ScoreConfidence(s) == Probable
       <==> s == Signals(true, true, false) || s == Signals(true, false, true) || s == Signals(false, true, true)
  {
  }

  // Each of two offers is found when the other one is checked, with the same confidence.
  lemma SignalsSymmetric(hosts: Hosts, a: Offer, b: Offer)
    ensures SignalsOf(hosts, a, b) == SignalsOf(hosts, b, a)
  {
    FuzzyMatchSymmetric(a.name, b.name);
  }

  // ---------------------------------------------------------------- the matches

  function Scored(hosts: Hosts, candidate: Offer, sub: Offer): Match {
    var signals := SignalsOf(hosts, candidate, sub);
    Match(sub, ScoreConfidence(signals), signals)
  }

  function ScoreAll(hosts: Hosts, candidate: Offer, existing: seq<Offer>): seq<Match> {
    Mapped(ScoreFor(hosts, candidate), existing)
  }

  function ScoreFor(hosts: Hosts, candidate: Offer): Offer -> Match {
    sub => Scored(hosts, candidate, sub)
  }

  function IsSurfaced(): Match -> bool {
    (m: Match) => m.confidence != Low
  }

  // The matches that are reported, in the order of the list.
  function Surfaced(hosts: Hosts, candidate: Offer, existing: seq<Offer>): seq<Match> {
    Filter(IsSurfaced(), ScoreAll(hosts, candidate, existing))
  }

  function IsHigh(): Match -> bool {
    (m: Match) => m.confidence == High
  }

  function IsNotHigh(): Match -> bool {
    (m: Match) => m.confidence != High
  }

  // The order that the sort is for.
  function HighFirst(matches: seq<Match>): seq<Match> {
    Filter(IsHigh(), matches) + Filter(IsNotHigh(), matches)
  }

  ghost predicate HighsLead(matches: seq<Match>) {
    forall i, j :: 0 <= i < j < |matches| && matches[j].confidence == High ==> matches[i].confidence == High
  }

  lemma HighFirstSorts(matches: seq<Match>)
    ensures multiset(HighFirst(matches)) == multiset(matches) && HighsLead(HighFirst(matches))
  {
    var highs, others := Filter(IsHigh(), matches), Filter(IsNotHigh(), matches);
    FilterSplits(IsHigh(), IsNotHigh(), matches);
    FilterMembers(IsHigh(), matches);
    FilterMembers(IsNotHigh(), matches);
    assert forall i :: 0 <= i < |highs| ==> highs[i] in highs;
    assert forall i :: 0 <= i < |others| ==> others[i] in others;
  }

  // With the high ones in front, the first match tells the best confidence.
  lemma FirstIsBest(matches: seq<Match>)
    requires HighsLead(matches) && matches != []
    ensures matches[0].confidence == High <==> exists m :: m in matches && m.confidence == High
  {
    assert matches[0] in matches;
  }

  ghost predicate SomeScore(hosts: Hosts, candidate: Offer, existing: seq<Offer>, least: nat) {
    exists sub :: sub in existing && MatchCount(SignalsOf(hosts, candidate, sub)) >= least
  }

  lemma ScoredMember(hosts: Hosts, candidate: Offer, existing: seq<Offer>, m: Match)
    ensures m in ScoreAll(hosts, candidate, existing)
       <==> m.existing in existing && m == Scored(hosts, candidate, m.existing)
  {
    var all := ScoreAll(hosts, candidate, existing);
    if m.existing in existing && m == Scored(hosts, candidate, m.existing) {
      var i :| 0 <= i < |existing| && existing[i] == m.existing;
      assert all[i] == m;
    }
  }

  lemma SurfacedMember(hosts: Hosts, candidate: Offer, existing: seq<Offer>, m: Match)
    ensures m in Surfaced(hosts, candidate, existing)
       <==> m.existing in existing && m == Scored(hosts, candidate, m.existing) && MatchCount(m.signals) >= 2
  {
    FilterMember(IsSurfaced(), ScoreAll(hosts, candidate, existing), m);
    ScoredMember(hosts, candidate, existing, m);
  }

  method ComputeSignals(hosts: Hosts, candidate: Offer, sub: Offer) returns (signals: Signals)
    ensures signals == SignalsOf(hosts, candidate, sub)
  {
    var nameMatch := ComputeFuzzyMatch(candidate.name, sub.name);
    signals := Signals(nameMatch, MatchesPriceAndCycle(candidate, sub), MatchesUrlDomain(hosts, sub, candidate));
  }

  /** checkForDuplicate: every subscription that agrees on two signals is reported as often as it is
      listed, nothing else is, and the confidence is that of the best of them. */
  method CheckForDuplicate(hosts: Hosts, candidate: Offer, existing: seq<Offer>) returns (r: CheckResult)
    ensures multiset(r.matches) == multiset(Surfaced(hosts, candidate, existing))
    ensures HighsLead(r.matches)
    ensures r.hasDuplicate <==> SomeScore(hosts, candidate, existing, 2)
    ensures r.confidence == (if SomeScore(hosts, candidate, existing, 3) then Some(High)
                             else if SomeScore(hosts, candidate, existing, 2) then Some(Probable) else None)
  {
    var matches: seq<Match> := [];
    for i := 0 to |existing|
      invariant matches == Surfaced(hosts, candidate, existing[..i])
    {
      var sub := existing[i];
      var signals := ComputeSignals(hosts, candidate, sub);
      var confidence := ScoreConfidence(signals);
      ScoreOneMore(hosts, candidate, existing, i);
      ghost var m := Scored(hosts, candidate, sub);
      assert m == Match(sub, confidence, signals);
      if confidence == High || confidence == Probable {
        matches := matches + [Match(sub, confidence, signals)];
      }
    }
    assert existing[..|existing|] == existing;
    BestOf(hosts, candidate, existing, matches, HighFirst(matches));
    matches := HighFirst(matches);
    r := CheckResult(|matches| > 0, if matches == [] then None else Some(matches[0].confidence), matches);
  }

  lemma ScoreOneMore(hosts: Hosts, candidate: Offer, existing: seq<Offer>, i: nat)
    requires i < |existing|
    ensures var m, done := Scored(hosts, candidate, existing[i]), Surfaced(hosts, candidate, existing[..i]);
      Surfaced(hosts, candidate, existing[..i + 1]) == if m.confidence == Low then done else done + [m]
  {
    MappedNext(ScoreFor(hosts, candidate), existing, i);
    FilterSnoc(IsSurfaced(), ScoreAll(hosts, candidate, existing[..i]), Scored(hosts, candidate, existing[i]));
  }

  lemma SurfacedIff(hosts: Hosts, candidate: Offer, existing: seq<Offer>, high: bool)
    ensures (exists m :: m in Surfaced(hosts, candidate, existing) && (high ==> m.confidence == High))
       <==> SomeScore(hosts, candidate, existing, if high then 3 else 2)
  {
    var surfaced, least := Surfaced(hosts, candidate, existing), if high then 3 else 2;
    if m :| m in surfaced && (high ==> m.confidence == High) {
      SurfacedMember(hosts, candidate, existing, m);
      assert m.existing in existing && MatchCount(SignalsOf(hosts, candidate, m.existing)) >= least;
    }
    if sub :| sub in existing && MatchCount(SignalsOf(hosts, candidate, sub)) >= least {
      SurfacedMember(hosts, candidate, existing, Scored(hosts, candidate, sub));
    }
  }

  // What the sorted matches say about the whole list.
  lemma BestOf(hosts: Hosts, candidate: Offer, existing: seq<Offer>, matches: seq<Match>, sorted: seq<Match>)
    requires matches == Surfaced(hosts, candidate, existing) && sorted == HighFirst(matches)
    ensures multiset(sorted) == multiset(matches) && HighsLead(sorted)
    ensures sorted != [] <==> SomeScore(hosts, candidate, existing, 2)
    ensures sorted != [] ==> sorted[0].confidence == if SomeScore(hosts, candidate, existing, 3) then High else Probable
  {
    HighFirstSorts(matches);
    SurfacedIff(hosts, candidate, existing, false);
    SurfacedIff(hosts, candidate, existing, true);
    assert forall m :: m in sorted <==> m in multiset(matches);
    assert matches != [] ==> matches[0] in matches;
    if sorted != [] {
      FirstIsBest(sorted);
      assert sorted[0] in multiset(sorted);
      SurfacedMember(hosts, candidate, existing, sorted[0]);
    }
  }

  // ---------------------------------------------------------------- the check and the scan

  /** Whoever enters an offer again under any spelling of its name, at its price, is warned; and once
      it is entered all the same, the scan of the whole list reports the two in one group. */
  lemma EnteredTwice(hosts: Hosts, candidate: Offer, existing: seq<Offer>, k: nat,
                     subs: seq<Subscription>, i: nat, j: nat, order: seq<string>)
    requires k < |existing| && NormalizeName(candidate.name) == NormalizeName(existing[k].name)
    requires MatchesPriceAndCycle(candidate, existing[k])
    requires i < j < |subs| && subs[i].name == existing[k].name && subs[j].name == candidate.name
    requires KeyOrder(subs, order)
    ensures SomeScore(hosts, candidate, existing, 2)
    ensures exists g :: g in Filter(IsPlural, AllClusters(subs, order)) && subs[i] in g && subs[j] in g
  {
    assert existing[k] in existing && MatchCount(SignalsOf(hosts, candidate, existing[k])) >= 2;
    SameNameIsReported(subs, order, i, j);
  }
}
