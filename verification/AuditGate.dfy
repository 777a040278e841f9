/**
  The dependency gate of scripts/security-audit-gate.js: a depth-first walk over advisory
  chains that may be cyclic, and the verdict built on it.
 */
module AuditGate {
  import opened Options

  datatype Severity = Critical | High | Moderate | Low

  // An element of a finding's via list: an object with a url, from which an advisory id may
  // be read, the name of another package, or anything else.
  datatype Via = Advisory(ghsa: Option<string>) | Package(name: string) | Other

  datatype Finding = Finding(severity: Severity, via: seq<Via>)

  type Audit = map<string, Finding>

  // ---------------------------------------------------------------- reachability

  function Direct(audit: Audit, pkg: string): set<string> {
    if pkg in audit
    then set v | v in audit[pkg].via && v.Advisory? && v.ghsa.Some? :: v.ghsa.value
    else {}
  }

  function Successors(audit: Audit, pkg: string): set<string> {
    if pkg in audit then set v | v in audit[pkg].via && v.Package? :: v.name else {}
  }

  ghost predicate IsPath(audit: Audit, path: seq<string>) {
    path != [] && forall i :: 0 <= i < |path| - 1 ==> path[i + 1] in Successors(audit, path[i])
  }

  ghost predicate Reachable(audit: Audit, a: string, b: string) {
    exists path :: IsPath(audit, path) && path[0] == a && path[|path| - 1] == b
  }

  // The advisory id is attached to some package reachable from pkg.
  ghost predicate Carries(audit: Audit, pkg: string, id: string) {
    exists n :: Reachable(audit, pkg, n) && id in Direct(audit, n)
  }

  lemma ReachableSelf(audit: Audit, a: string)
    ensures Reachable(audit, a, a)
  {
    assert IsPath(audit, [a]) && [a][0] == a;
  }

  lemma ReachableTrans(audit: Audit, a: string, b: string, c: string)
    requires Reachable(audit, a, b) && Reachable(audit, b, c)
    ensures Reachable(audit, a, c)
  {
    var p :| IsPath(audit, p) && p[0] == a && p[|p| - 1] == b;
    var q :| IsPath(audit, q) && q[0] == b && q[|q| - 1] == c;
    var path := p + q[1..];
    assert path[0] == a && path[|path| - 1] == c;
    forall i | 0 <= i < |path| - 1 ensures path[i + 1] in Successors(audit, path[i]) {
      if i >= |p| - 1 {
        assert path[i] == q[i + 1 - |p|] && path[i + 1] == q[i + 2 - |p|];
      }
    }
    assert IsPath(audit, path);
  }

  lemma ReachableStep(audit: Audit, a: string, b: string)
    requires b in Successors(audit, a)
    ensures Reachable(audit, a, b)
  {
    var path := [a, b];
    assert IsPath(audit, path) && path[0] == a && path[|path| - 1] == b;
  }

  // A set that holds a and is closed under successors holds everything a reaches.
  lemma ClosedHoldsReachable(audit: Audit, closed: set<string>, a: string, b: string)
    requires a in closed && forall n :: n in closed ==> Successors(audit, n) <= closed
    requires Reachable(audit, a, b)
    ensures b in closed
  {
    var path :| IsPath(audit, path) && path[0] == a && path[|path| - 1] == b;
    PathStaysInside(audit, closed, path, |path| - 1);
  }

  lemma {:induction false} PathStaysInside(audit: Audit, closed: set<string>, path: seq<string>, i: nat)
    requires IsPath(audit, path) && i < |path| && path[0] in closed
    requires forall n :: n in closed ==> Successors(audit, n) <= closed
    ensures path[i] in closed
  {
    if i > 0 {
      PathStaysInside(audit, closed, path, i - 1);
      assert path[i - 1 + 1] in Successors(audit, path[i - 1]);
    }
  }

  // ---------------------------------------------------------------- collectGhsas

  // The mutable Set that all calls of one walk share.
  class StringSet {
    var elems: set<string>

    constructor ()
      ensures elems == {}
    {
      elems := {};
    }
  }

  // What one call leaves behind, `before` and `after` being the shared set around it: everything
  // newly visited was reached from pkg and has all its successors visited, and the answer is
  // what is attached to the newly visited packages alone.
  ghost predicate Walked(audit: Audit, pkg: string, before: set<string>, after: set<string>, ids: set<string>) {
    && before <= after
    && (forall n :: n in after && n !in before ==> Reachable(audit, pkg, n) && Successors(audit, n) <= after)
    && (forall id :: id in ids <==> exists n :: n in after && n !in before && id in Direct(audit, n))
  }

  method CollectGhsas(audit: Audit, pkgName: string, visited: StringSet) returns (ids: set<string>)
    modifies visited
    ensures Walked(audit, pkgName, old(visited.elems), visited.elems, ids)
    ensures pkgName in visited.elems
    ensures pkgName in old(visited.elems) ==> ids == {} && visited.elems == old(visited.elems)
    decreases audit.Keys - visited.elems
  {
    ids := {};
    if pkgName in visited.elems { return; }
    ghost var before := visited.elems;
    visited.elems := visited.elems + {pkgName};
    ReachableSelf(audit, pkgName);
    if pkgName !in audit { return; }
    var via := audit[pkgName].via;
    for i := 0 to |via|
      invariant before + {pkgName} <= visited.elems
      invariant PartlyWalked(audit, pkgName, before, visited.elems, ids, i)
    {
      ghost var soFar, found := visited.elems, ids;
      match via[i] {
        case Advisory(Some(id)) =>
          ids := ids + {id};
        case Package(name) =>
          var more := CollectGhsas(audit, name, visited);
          ids := ids + more;
          ReachableStep(audit, pkgName, name);
          WalkOn(audit, pkgName, before, soFar, found, i, visited.elems, more);
        case _ =>
      }
    }
  }

  // The walk from pkg after the first i elements of its via list.
  ghost predicate PartlyWalked(audit: Audit, pkg: string, before: set<string>, after: set<string>,
                               ids: set<string>, i: nat)
    requires pkg in audit && i <= |audit[pkg].via|
  {
    && (forall n :: n in after && n !in before ==> Reachable(audit, pkg, n))
    && (forall n :: n in after && n !in before && n != pkg ==> Successors(audit, n) <= after)
    && (forall k :: 0 <= k < i && audit[pkg].via[k].Package? ==> audit[pkg].via[k].name in after)
    && (forall id :: id in ids <==>
         (exists n :: n in after && n !in before && n != pkg && id in Direct(audit, n))
         || (exists k :: 0 <= k < i && audit[pkg].via[k] == Advisory(Some(id))))
  }

  lemma WalkOn(audit: Audit, pkg: string, before: set<string>, soFar: set<string>, found: set<string>, i: nat,
               after: set<string>, more: set<string>)
    requires pkg in audit && i < |audit[pkg].via| && audit[pkg].via[i].Package?
    requires before + {pkg} <= soFar && PartlyWalked(audit, pkg, before, soFar, found, i)
    requires Walked(audit, audit[pkg].via[i].name, soFar, after, more) && audit[pkg].via[i].name in after
    requires Reachable(audit, pkg, audit[pkg].via[i].name)
    ensures PartlyWalked(audit, pkg, before, after, found + more, i + 1)
  {
    forall n | n in after && n !in before ensures Reachable(audit, pkg, n) {
      if n !in soFar {
        ReachableTrans(audit, pkg, audit[pkg].via[i].name, n);
      }
    }
  }

  // A call with a fresh set: exactly the ids attached to reachable packages.
  method GhsasOf(audit: Audit, pkgName: string) returns (ids: set<string>)
    ensures forall id :: id in ids <==> Carries(audit, pkgName, id)
  {
    var visited := new StringSet();
    ids := CollectGhsas(audit, pkgName, visited);
    forall n | Reachable(audit, pkgName, n) ensures n in visited.elems {
      ClosedHoldsReachable(audit, visited.elems, pkgName, n);
    }
  }

  // ---------------------------------------------------------------- the allowlist

  // workspaces is None where the entry applies to every workspace.
  datatype Entry = Entry(expiresAt: int, workspaces: Option<seq<string>>)

  type Allowlist = map<string, Entry>

  predicate MatchesWorkspace(entry: Entry, workspace: string) {
    entry.workspaces.None? || workspace in entry.workspaces.value
  }

  predicate Expired(entry: Entry, today: int) {
    entry.expiresAt < today
  }

  predicate Allows(allowlist: Allowlist, id: string, workspace: string, today: int) {
    id in allowlist && !Expired(allowlist[id], today) && MatchesWorkspace(allowlist[id], workspace)
  }

  // ---------------------------------------------------------------- the verdict, as documented

  predicate Severe(audit: Audit, pkg: string) {
    pkg in audit && (audit[pkg].severity.Critical? || audit[pkg].severity.High?)
  }

  ghost predicate Traceable(audit: Audit, pkg: string) {
    exists id :: Carries(audit, pkg, id)
  }

  ghost predicate Triaged(audit: Audit, allowlist: Allowlist, workspace: string, today: int, pkg: string) {
    exists id :: Carries(audit, pkg, id) && Allows(allowlist, id, workspace, today)
  }

  ghost predicate ExpiredHere(allowlist: Allowlist, workspace: string, today: int, id: string) {
    id in allowlist && Expired(allowlist[id], today) && MatchesWorkspace(allowlist[id], workspace)
  }

  ghost predicate ShouldPass(audit: Audit, allowlist: Allowlist, workspace: string, today: int) {
    && (forall pkg :: Severe(audit, pkg) ==> Triaged(audit, allowlist, workspace, today, pkg))
    && (forall id :: !ExpiredHere(allowlist, workspace, today, id))
  }

  // ---------------------------------------------------------------- the gate

  datatype Blocker = Untraceable(pkg: string) | Unallowed(pkg: string) | ExpiredEntry(ghsa: string)

  datatype Report = Report(blockers: seq<Blocker>, triaged: seq<(string, string)>,
                           informational: seq<string>, noGhsa: seq<string>)

  datatype Outcome = Finished(report: Report) | ReferenceError {
    // process.exit(0); an uncaught ReferenceError ends the process with a failure as well
    predicate Passes() {
      Finished? && report.blockers == []
    }
  }

  // One pass of the classification loop: the report gains one line about pkg, in the right list.
  ghost predicate Filed(audit: Audit, allowlist: Allowlist, workspace: string, today: int, pkg: string,
                        before: Report, after: Report) {
    var traceable, triaged := Traceable(audit, pkg), Triaged(audit, allowlist, workspace, today, pkg);
    if Severe(audit, pkg) then
      if triaged then
        exists id :: Carries(audit, pkg, id) && Allows(allowlist, id, workspace, today)
                     && after == before.(triaged := before.triaged + [(pkg, id)])
      else after == before.(blockers := before.blockers + [if traceable then Unallowed(pkg) else Untraceable(pkg)])
    else if traceable then after == before.(informational := before.informational + [pkg])
    else after == before.(noGhsa := before.noGhsa + [pkg])
  }

  method Classify(audit: Audit, allowlist: Allowlist, workspace: string, today: int, pkg: string, report: Report)
    returns (r: Report)
    requires pkg in audit
    ensures Filed(audit, allowlist, workspace, today, pkg, report, r)
  {
    var ghsas := GhsasOf(audit, pkg);
    var severe := audit[pkg].severity.Critical? || audit[pkg].severity.High?;
    if ghsas == {} {
      assert !Triaged(audit, allowlist, workspace, today, pkg);
      return if severe then report.(blockers := report.blockers + [Untraceable(pkg)])
             else report.(noGhsa := report.noGhsa + [pkg]);
    }
    assert Traceable(audit, pkg) by {
      var id :| id in ghsas;
      assert Carries(audit, pkg, id);
    }
    var allowed := set id | id in ghsas && Allows(allowlist, id, workspace, today);
    if !severe { return report.(informational := report.informational + [pkg]); }
    if allowed != {} {
      var matched :| matched in allowed;
      return report.(triaged := report.triaged + [(pkg, matched)]);
    }
    assert !Triaged(audit, allowlist, workspace, today, pkg) by {
      forall id | Carries(audit, pkg, id) ensures !Allows(allowlist, id, workspace, today) {
        assert id !in allowed;
      }
    }
    return report.(blockers := report.blockers + [Unallowed(pkg)]);
  }

  // What a report over the findings `seen` and the expired entries `expired` must hold: every
  // finding is in exactly one list, and the lists are those of the documentation.
  ghost predicate Sound(audit: Audit, allowlist: Allowlist, workspace: string, today: int,
                        seen: set<string>, expired: set<string>, r: Report) {
    && SoundBlockers(audit, allowlist, workspace, today, seen, expired, r.blockers)
    && SoundTriaged(audit, allowlist, workspace, today, seen, r.triaged)
    && (forall pkg :: pkg in r.informational <==> pkg in seen && !Severe(audit, pkg) && Traceable(audit, pkg))
    && (forall pkg :: pkg in r.noGhsa <==> pkg in seen && !Severe(audit, pkg) && !Traceable(audit, pkg))
    && |r.blockers| + |r.triaged| + |r.informational| + |r.noGhsa| == |seen| + |expired|
  }

  ghost predicate SoundBlockers(audit: Audit, allowlist: Allowlist, workspace: string, today: int,
                                seen: set<string>, expired: set<string>, blockers: seq<Blocker>) {
    forall b :: b in blockers <==> match b
      case Untraceable(pkg) => pkg in seen && Severe(audit, pkg) && !Traceable(audit, pkg)
      case Unallowed(pkg) => pkg in seen && Severe(audit, pkg) && Traceable(audit, pkg)
                             && !Triaged(audit, allowlist, workspace, today, pkg)
      case ExpiredEntry(id) => id in expired
  }

  ghost predicate Listed(triaged: seq<(string, string)>, pkg: string) {
    exists id :: (pkg, id) in triaged
  }

  ghost predicate SoundTriaged(audit: Audit, allowlist: Allowlist, workspace: string, today: int,
                               seen: set<string>, triaged: seq<(string, string)>) {
    && (forall pkg :: Listed(triaged, pkg)
         <==> pkg in seen && Severe(audit, pkg) && Triaged(audit, allowlist, workspace, today, pkg))
    && (forall line :: line in triaged
          ==> Carries(audit, line.0, line.1) && Allows(allowlist, line.1, workspace, today))
  }

  lemma ListedAppend(triaged: seq<(string, string)>, pkg: string, id: string)
    ensures forall p :: Listed(triaged + [(pkg, id)], p) <==> p == pkg || Listed(triaged, p)
  {
    forall p ensures Listed(triaged + [(pkg, id)], p) <==> p == pkg || Listed(triaged, p) {
      assert (pkg, id) in triaged + [(pkg, id)];
      if Listed(triaged, p) {
        var i :| (p, i) in triaged;
        assert (p, i) in triaged + [(pkg, id)];
      }
    }
  }

  lemma FiledSound(audit: Audit, allowlist: Allowlist, workspace: string, today: int,
                   seen: set<string>, pkg: string, r: Report, r': Report)
    requires pkg in audit && pkg !in seen
    requires Sound(audit, allowlist, workspace, today, seen, {}, r)
    requires Filed(audit, allowlist, workspace, today, pkg, r, r')
    ensures Sound(audit, allowlist, workspace, today, seen + {pkg}, {}, r')
  {
    if Severe(audit, pkg) && Triaged(audit, allowlist, workspace, today, pkg) {
      var id :| Carries(audit, pkg, id) && Allows(allowlist, id, workspace, today)
                && r' == r.(triaged := r.triaged + [(pkg, id)]);
      ListedAppend(r.triaged, pkg, id);
      assert SoundTriaged(audit, allowlist, workspace, today, seen + {pkg}, r'.triaged);
      assert SoundBlockers(audit, allowlist, workspace, today, seen + {pkg}, {}, r'.blockers);
    } else {
      FiledBlockers(audit, allowlist, workspace, today, seen, pkg, r, r');
    }
  }

  lemma FiledBlockers(audit: Audit, allowlist: Allowlist, workspace: string, today: int,
                      seen: set<string>, pkg: string, r: Report, r': Report)
    requires pkg in audit && pkg !in seen && !(Severe(audit, pkg) && Triaged(audit, allowlist, workspace, today, pkg))
    requires SoundBlockers(audit, allowlist, workspace, today, seen, {}, r.blockers)
    requires Filed(audit, allowlist, workspace, today, pkg, r, r')
    ensures SoundBlockers(audit, allowlist, workspace, today, seen + {pkg}, {}, r'.blockers)
  {
  }

  lemma AddExpired(audit: Audit, allowlist: Allowlist, workspace: string, today: int,
                   seen: set<string>, expired: set<string>, r: Report, id: string)
    requires Sound(audit, allowlist, workspace, today, seen, expired, r) && id !in expired
    ensures Sound(audit, allowlist, workspace, today, seen, expired + {id},
                  r.(blockers := r.blockers + [ExpiredEntry(id)]))
  {
  }

  lemma OneLess<T>(all: set<T>, left: set<T>, x: T)
    requires x in left && left <= all
    ensures all - left + {x} == all - (left - {x})
  {
  }

  method ClassifyAll(audit: Audit, allowlist: Allowlist, workspace: string, today: int) returns (report: Report)
    ensures Sound(audit, allowlist, workspace, today, audit.Keys, {}, report)
  {
    report := Report([], [], [], []);
    var left := audit.Keys;
    while left != {}
      invariant left <= audit.Keys
      invariant Sound(audit, allowlist, workspace, today, audit.Keys - left, {}, report)
      decreases left
    {
      var pkg :| pkg in left;
      var next := Classify(audit, allowlist, workspace, today, pkg, report);
      FiledSound(audit, allowlist, workspace, today, audit.Keys - left, pkg, report, next);
      OneLess(audit.Keys, left, pkg);
      report, left := next, left - {pkg};
    }
    assert audit.Keys - left == audit.Keys;
  }

  method AppendExpired(ghost audit: Audit, ghost allowlist: Allowlist, ghost workspace: string, ghost today: int,
                       expired: set<string>, before: Report) returns (report: Report)
    requires Sound(audit, allowlist, workspace, today, audit.Keys, {}, before)
    ensures Sound(audit, allowlist, workspace, today, audit.Keys, expired, report)
  {
    report := before;
    var todo := expired;
    assert expired - todo == {};
    while todo != {}
      invariant todo <= expired
      invariant Sound(audit, allowlist, workspace, today, audit.Keys, expired - todo, report)
      decreases todo
    {
      var id :| id in todo;
      AddExpired(audit, allowlist, workspace, today, audit.Keys, expired - todo, report, id);
      OneLess(expired, todo, id);
      report := report.(blockers := report.blockers + [ExpiredEntry(id)]);
      todo := todo - {id};
    }
    assert expired - todo == expired;
  }

  /**
    The gate from the loaded allowlist to the exit code. The filter for expired entries calls
    matchesWorkspace, which the script declares further down, inside the classification loop:
    as written, helperInScope is false and the call throws. Entries and findings are visited
    in any order.
   */
  method Gate(audit: Audit, allowlist: Allowlist, workspace: string, today: int, helperInScope: bool)
    returns (r: Outcome)
    ensures r.ReferenceError? <==> !helperInScope && AnyExpired(allowlist, today)
    ensures r.Finished? ==> Reported(audit, allowlist, workspace, today, r.report)
    ensures r.Passes()
       <==> ShouldPass(audit, allowlist, workspace, today) && (helperInScope || !AnyExpired(allowlist, today))
  {
    var anyExpired := set id | id in allowlist && Expired(allowlist[id], today);
    assert anyExpired == {} <==> !AnyExpired(allowlist, today) by {
      assert forall id :: id in anyExpired <==> id in allowlist && Expired(allowlist[id], today);
    }
    if anyExpired != {} && !helperInScope { return ReferenceError; }
    var expired := set id | id in anyExpired && MatchesWorkspace(allowlist[id], workspace);
    var report := ClassifyAll(audit, allowlist, workspace, today);
    report := AppendExpired(audit, allowlist, workspace, today, expired, report);
    assert expired == set id | id in allowlist && ExpiredHere(allowlist, workspace, today, id);
    PassesIff(audit, allowlist, workspace, today, report);
    r := Finished(report);
  }

  ghost predicate AnyExpired(allowlist: Allowlist, today: int) {
    exists id :: id in allowlist && Expired(allowlist[id], today)
  }

  ghost predicate Reported(audit: Audit, allowlist: Allowlist, workspace: string, today: int, r: Report) {
    var expired := set id | id in allowlist && ExpiredHere(allowlist, workspace, today, id);
    Sound(audit, allowlist, workspace, today, audit.Keys, expired, r)
  }

  // A finished report has no blockers iff the documentation lets the workspace pass.
  lemma PassesIff(audit: Audit, allowlist: Allowlist, workspace: string, today: int, r: Report)
    requires Reported(audit, allowlist, workspace, today, r)
    ensures r.blockers == [] <==> ShouldPass(audit, allowlist, workspace, today)
  {
    if r.blockers == [] {
      forall pkg | Severe(audit, pkg) ensures Triaged(audit, allowlist, workspace, today, pkg) {
        assert Unallowed(pkg) !in r.blockers && Untraceable(pkg) !in r.blockers;
      }
      forall id ensures !ExpiredHere(allowlist, workspace, today, id) {
        assert ExpiredEntry(id) !in r.blockers;
      }
    } else {
      var b := r.blockers[0];
      assert b in r.blockers;
      if b.Untraceable? {
        assert !Triaged(audit, allowlist, workspace, today, b.pkg);
      }
    }
  }

  // ---------------------------------------------------------------- the verdict, from the records

  // A path of string links from one package to another.
  ghost predicate IsLinkPath(audit: Audit, path: seq<string>) {
    path != [] && forall i :: 0 <= i < |path| - 1 ==> path[i] in audit && Package(path[i + 1]) in audit[path[i]].via
  }

  // An advisory with this id stands at the end of a path of links that begins at pkg.
  ghost predicate LeadsTo(audit: Audit, pkg: string, id: string) {
    exists path :: IsLinkPath(audit, path) && path[0] == pkg
                   && path[|path| - 1] in audit && Advisory(Some(id)) in audit[path[|path| - 1]].via
  }

  lemma LinkPathIff(audit: Audit, path: seq<string>)
    ensures IsPath(audit, path) <==> IsLinkPath(audit, path)
  {
    if IsPath(audit, path) {
      forall i | 0 <= i < |path| - 1 ensures path[i] in audit && Package(path[i + 1]) in audit[path[i]].via {
        LinkIff(audit, path[i], path[i + 1]);
      }
    }
    if IsLinkPath(audit, path) {
      forall i | 0 <= i < |path| - 1 ensures path[i + 1] in Successors(audit, path[i]) {
        LinkIff(audit, path[i], path[i + 1]);
      }
    }
  }

  lemma LinkIff(audit: Audit, a: string, b: string)
    ensures b in Successors(audit, a) <==> a in audit && Package(b) in audit[a].via
  {
    if a in audit && Package(b) in audit[a].via {
      assert Package(b).name in Successors(audit, a);
    }
  }

  lemma DirectIff(audit: Audit, pkg: string, id: string)
    ensures id in Direct(audit, pkg) <==> pkg in audit && Advisory(Some(id)) in audit[pkg].via
  {
    if pkg in audit && Advisory(Some(id)) in audit[pkg].via {
      assert Advisory(Some(id)).ghsa.value in Direct(audit, pkg);
    }
  }

  lemma CarriesIff(audit: Audit, pkg: string, id: string)
    ensures Carries(audit, pkg, id) <==> LeadsTo(audit, pkg, id)
  {
    if n :| Reachable(audit, pkg, n) && id in Direct(audit, n) {
      var path :| IsPath(audit, path) && path[0] == pkg && path[|path| - 1] == n;
      LinkPathIff(audit, path);
      DirectIff(audit, n, id);
    }
    if path :| IsLinkPath(audit, path) && path[0] == pkg
               && path[|path| - 1] in audit && Advisory(Some(id)) in audit[path[|path| - 1]].via {
      LinkPathIff(audit, path);
      DirectIff(audit, path[|path| - 1], id);
      assert Reachable(audit, pkg, path[|path| - 1]);
    }
  }

  // The entry names no workspaces, or this one.
  predicate IsFor(entry: Entry, workspace: string) {
    entry.workspaces == None || (entry.workspaces.Some? && workspace in entry.workspaces.value)
  }

  // The package leads to an advisory with an entry for this workspace that expires today or later.
  ghost predicate LeadsToLiveEntry(audit: Audit, allowlist: Allowlist, workspace: string, today: int, pkg: string) {
    exists id :: LeadsTo(audit, pkg, id) && id in allowlist
                 && today <= allowlist[id].expiresAt && IsFor(allowlist[id], workspace)
  }

  lemma TriagedIff(audit: Audit, allowlist: Allowlist, workspace: string, today: int, pkg: string)
    ensures Triaged(audit, allowlist, workspace, today, pkg)
       <==> LeadsToLiveEntry(audit, allowlist, workspace, today, pkg)
  {
    forall id ensures Carries(audit, pkg, id) <==> LeadsTo(audit, pkg, id) {
      CarriesIff(audit, pkg, id);
    }
  }

  /**
    The gate should pass iff each high or critical finding leads to a live entry, and no entry for this
    workspace has expired before today.
   */
  lemma ShouldPassIff(audit: Audit, allowlist: Allowlist, workspace: string, today: int)
    ensures ShouldPass(audit, allowlist, workspace, today)
       <==> (forall pkg :: pkg in audit && (audit[pkg].severity == Critical || audit[pkg].severity == High)
               ==> LeadsToLiveEntry(audit, allowlist, workspace, today, pkg))
            && forall id :: id in allowlist && IsFor(allowlist[id], workspace) ==> today <= allowlist[id].expiresAt
  {
    forall pkg
      ensures Triaged(audit, allowlist, workspace, today, pkg)
         <==> LeadsToLiveEntry(audit, allowlist, workspace, today, pkg)
    {
      TriagedIff(audit, allowlist, workspace, today, pkg);
    }
    if ShouldPass(audit, allowlist, workspace, today) {
      forall pkg | pkg in audit && (audit[pkg].severity == Critical || audit[pkg].severity == High)
        ensures LeadsToLiveEntry(audit, allowlist, workspace, today, pkg)
      {
        assert Severe(audit, pkg);
      }
      forall id | id in allowlist && IsFor(allowlist[id], workspace) ensures today <= allowlist[id].expiresAt {
        assert !ExpiredHere(allowlist, workspace, today, id);
      }
    }
  }

  lemma AnyExpiredIff(allowlist: Allowlist, today: int)
    ensures AnyExpired(allowlist, today) <==> exists id :: id in allowlist && allowlist[id].expiresAt < today
  {
  }

  // ---------------------------------------------------------------- what follows from the verdict

  // The exit code of the script as written is wrong exactly when the gate should pass and some
  // entry meant for other workspaces only has expired.
  lemma AsWrittenWrongIff(audit: Audit, allowlist: Allowlist, workspace: string, today: int)
    ensures (ShouldPass(audit, allowlist, workspace, today) && !AnyExpired(allowlist, today))
              != ShouldPass(audit, allowlist, workspace, today)
       <==> ShouldPass(audit, allowlist, workspace, today)
            && exists id :: id in allowlist && Expired(allowlist[id], today)
                            && !MatchesWorkspace(allowlist[id], workspace)
  {
    if ShouldPass(audit, allowlist, workspace, today) && AnyExpired(allowlist, today) {
      var id :| id in allowlist && Expired(allowlist[id], today);
      assert !ExpiredHere(allowlist, workspace, today, id);
    }
  }

  // Nothing was found, and one entry for another workspace has expired.
  lemma ExpiredElsewhere(id: string, workspace: string, other: string, today: int)
    requires workspace != other
    ensures var allowlist := map[id := Entry(today - 1, Some([other]))];
      ShouldPass(map[], allowlist, workspace, today) && AnyExpired(allowlist, today)
  {
    var allowlist := map[id := Entry(today - 1, Some([other]))];
    assert id in allowlist && Expired(allowlist[id], today);
    assert forall x :: x in allowlist ==> !MatchesWorkspace(allowlist[x], workspace);
  }

  // A finding whose chain contains a triaged finding is itself triaged.
  lemma TriagedThroughChain(audit: Audit, allowlist: Allowlist, workspace: string, today: int, pkg: string, dep: string)
    requires Reachable(audit, pkg, dep) && Triaged(audit, allowlist, workspace, today, dep)
    ensures Triaged(audit, allowlist, workspace, today, pkg)
  {
    var id :| Carries(audit, dep, id) && Allows(allowlist, id, workspace, today);
    var n :| Reachable(audit, dep, n) && id in Direct(audit, n);
    ReachableTrans(audit, pkg, dep, n);
    assert Carries(audit, pkg, id);
  }

  // Writing an entry withdraws the acceptance of no finding of any audit iff the id itself is
  // not one that was accepted before and is not any more.
  lemma WritingEntryNeverBlocksIff(allowlist: Allowlist, workspace: string, today: int, id: string, entry: Entry)
    ensures (forall audit, pkg :: Triaged(audit, allowlist, workspace, today, pkg)
                                  ==> Triaged(audit, allowlist[id := entry], workspace, today, pkg))
       <==> (Allows(allowlist, id, workspace, today) ==> Allows(allowlist[id := entry], id, workspace, today))
  {
    var allowlist' := allowlist[id := entry];
    if Allows(allowlist, id, workspace, today) ==> Allows(allowlist', id, workspace, today) {
      forall audit, pkg | Triaged(audit, allowlist, workspace, today, pkg)
        ensures Triaged(audit, allowlist', workspace, today, pkg)
      {
        var a :| Carries(audit, pkg, a) && Allows(allowlist, a, workspace, today);
        assert Allows(allowlist', a, workspace, today);
      }
    } else {
      var pkg := "p";
      var audit := map[pkg := Finding(High, [Advisory(Some(id))])];
      OnlyAdvisory(audit, pkg, id);
      assert Triaged(audit, allowlist, workspace, today, pkg);
      assert !Triaged(audit, allowlist', workspace, today, pkg);
    }
  }

  lemma OnlyAdvisory(audit: Audit, pkg: string, id: string)
    requires audit == map[pkg := Finding(High, [Advisory(Some(id))])]
    ensures forall a :: Carries(audit, pkg, a) <==> a == id
  {
    ReachableSelf(audit, pkg);
    assert audit[pkg].via[0] == Advisory(Some(id));
    forall n | Reachable(audit, pkg, n) ensures n == pkg {
      ClosedHoldsReachable(audit, {pkg}, pkg, n);
    }
  }

  // An entry with a new id that has not expired adds no blocker at all.
  lemma AddingEntryAddsNoBlocker(audit: Audit, allowlist: Allowlist, workspace: string, today: int,
                                 id: string, entry: Entry, r: Report, r': Report)
    requires id !in allowlist && !Expired(entry, today)
    requires Reported(audit, allowlist, workspace, today, r)
    requires Reported(audit, allowlist[id := entry], workspace, today, r')
    ensures forall b :: b in r'.blockers ==> b in r.blockers
  {
    WritingEntryNeverBlocksIff(allowlist, workspace, today, id, entry);
    forall b | b in r'.blockers ensures b in r.blockers {
      if b.ExpiredEntry? {
        assert ExpiredHere(allowlist[id := entry], workspace, today, b.ghsa);
        assert ExpiredHere(allowlist, workspace, today, b.ghsa);
      }
    }
  }
}
