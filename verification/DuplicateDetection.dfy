/**
  Duplicate detection of client/lib/duplicate-detection.ts: name normalisation, the
  fuzzy match built on the edit distance, and the greedy clustering of subscriptions.
 */
module DuplicateDetection {
  import opened EditDistance
  import opened Seqs
  import opened Text
  import opened GreedyClusters

  datatype Subscription = Subscription(id: string, name: string)

  datatype Detection = Groups(groups: seq<seq<Subscription>>) | TypeError

  // ---------------------------------------------------------------- normalizeName

  datatype Plan = Plus | Pro | Premium | Basic | Standard | Enterprise | Team | Business

  function PlanWord(p: Plan): string {
    match p
    case Plus => "plus"
    case Pro => "pro"
    case Premium => "premium"
    case Basic => "basic"
    case Standard => "standard"
    case Enterprise => "enterprise"
    case Team => "team"
    case Business => "business"
  }

  predicate IsPlanWord(word: string) {
    exists p :: PlanWord(p) == word
  }

  predicate IsLowerAlnum(c: char) {
    'a' <= c <= 'z' || '0' <= c <= '9'
  }

  // toLowerCase, as far as a-z0-9 is concerned: two characters outside ASCII lower to ASCII letters.
  function LowerChar(c: char): string {
    if 'A' <= c <= 'Z' then [(c as int + 32) as char]
    else if c == '\U{212A}' then "k"
    else if c == '\U{130}' then "i\U{307}"
    else [c]
  }

  function ToLower(s: string): string {
    if s == [] then [] else LowerChar(s[0]) + ToLower(s[1..])
  }

  // One plan suffix at the very end, with the white space in front of it.
  function StripSuffix(s: string): string {
    var k := LastWordStart(s);
    if k > 0 && IsPlanWord(s[k..]) then TrimRight(s[..k]) else s
  }

  function NormalizeName(name: string): (key: string)
    ensures forall c :: c in key ==> IsLowerAlnum(c)
  {
    Trim(KeepAlnum(StripSuffix(ToLower(name))))
  }

  function KeepAlnum(s: string): (r: string)
    ensures forall c :: c in r ==> IsLowerAlnum(c)
    ensures Trim(r) == r
  {
    var r := Filter(IsLowerAlnum, s);
    FilterMembers(IsLowerAlnum, s);
    TrimOfSpaceless(r);
    r
  }

  lemma {:induction false} LowerOfLower(s: string)
    requires forall c :: c in s ==> IsLowerAlnum(c)
    ensures ToLower(s) == s
  {
    if s != [] {
      assert IsLowerAlnum(s[0]);
      LowerOfLower(s[1..]);
    }
  }

  lemma {:induction false} LastWordOfSpaceless(s: string)
    requires forall c :: c in s ==> !IsSpace(c)
    ensures LastWordStart(s) == 0
  {
    if s != [] {
      LastWordOfSpaceless(s[..|s| - 1]);
    }
  }

  // A normal form is its own normal form.
  lemma NormalizeNameIdempotent(name: string)
    ensures NormalizeName(NormalizeName(name)) == NormalizeName(name)
  {
    NormalFormIsFixed(NormalizeName(name));
  }

  lemma NormalFormIsFixed(key: string)
    requires forall c :: c in key ==> IsLowerAlnum(c)
    ensures NormalizeName(key) == key
  {
    LowerOfLower(key);
    LastWordOfSpaceless(key);
    FilterAll(IsLowerAlnum, key);
  }

  // ---------------------------------------------------------------- fuzzyMatch

  predicate FuzzyMatch(a: string, b: string) {
    var x, y := NormalizeName(a), NormalizeName(b);
    x == y || 5 * Distance(x, y) < Max(|x|, |y|)
  }

  /** fuzzyMatch: the division is safe, and the answer is about the shortest edit script. */
  method ComputeFuzzyMatch(str1: string, str2: string) returns (r: bool)
    ensures r == FuzzyMatch(str1, str2)
    ensures r <==> NormalizeName(str1) == NormalizeName(str2)
                   || exists script :: Transforms(NormalizeName(str1), script, NormalizeName(str2))
                                       && 5 * |script| < Max(|NormalizeName(str1)|, |NormalizeName(str2)|)
  {
    var normalized1, normalized2 := NormalizeName(str1), NormalizeName(str2);
    if normalized1 == normalized2 { return true; }
    var distance := LevenshteinDistance(normalized1, normalized2);
    var maxLength := Max(|normalized1|, |normalized2|);
    r := distance as real / maxLength as real < 0.2;
    BelowOneFifth(distance, maxLength);
  }

  lemma BelowOneFifth(d: nat, m: nat)
    requires m > 0
    ensures d as real / m as real < 0.2 <==> 5 * d < m
  {
    var q := d as real / m as real;
    assert q * m as real == d as real;
    assert q < 0.2 ==> q * m as real < 0.2 * m as real;
    assert q >= 0.2 ==> q * m as real >= 0.2 * m as real;
  }

  lemma FuzzyMatchSymmetric(a: string, b: string)
    ensures FuzzyMatch(a, a)
    ensures FuzzyMatch(a, b) == FuzzyMatch(b, a)
  {
    DistanceSymmetric(NormalizeName(a), NormalizeName(b));
  }

  // Matching normalised keys, as the clustering does, is matching the names.
  lemma FuzzyMatchOnKeys(a: string, b: string)
    ensures FuzzyMatch(NormalizeName(a), NormalizeName(b)) == FuzzyMatch(a, b)
  {
    NormalizeNameIdempotent(a);
    NormalizeNameIdempotent(b);
  }

  // Names of at most five characters match only when they are equal; names whose lengths
  // differ by a fifth of the longer never do.
  lemma FuzzyMatchNeedsLength(a: string, b: string)
    requires FuzzyMatch(a, b) && NormalizeName(a) != NormalizeName(b)
    ensures Max(|NormalizeName(a)|, |NormalizeName(b)|) >= 6
    ensures 4 * |NormalizeName(a)| < 5 * |NormalizeName(b)| && 4 * |NormalizeName(b)| < 5 * |NormalizeName(a)|
  {
    DistanceZeroIffEqual(NormalizeName(a), NormalizeName(b));
    DistanceBounds(NormalizeName(a), NormalizeName(b));
  }

  // One more character on a key of five or more still matches.
  lemma OneMoreCharacterMatches(key: string, longer: string)
    requires |key| >= 5 && longer != [] && Init(longer) == key
    requires NormalizeName(key) == key && NormalizeName(longer) == longer
    ensures FuzzyMatch(key, longer)
  {
    DistanceZeroIffEqual(key, key);
    Adjacent(longer, key);
    DistanceSymmetric(key, longer);
  }

  // The match is not transitive: each of two steps is small enough, both together are not.
  lemma FuzzyMatchNotTransitive(a: string, x: char, y: char)
    requires 5 <= |a| <= 8 && forall c :: c in a + [x, y] ==> IsLowerAlnum(c)
    ensures FuzzyMatch(a, a + [x]) && FuzzyMatch(a + [x], a + [x, y]) && !FuzzyMatch(a, a + [x, y])
  {
    var b, c := a + [x], a + [x, y];
    assert x in c && y in c && Init(b) == a && Init(c) == b;
    NormalFormIsFixed(a);
    NormalFormIsFixed(b);
    NormalFormIsFixed(c);
    OneMoreCharacterMatches(a, b);
    OneMoreCharacterMatches(b, c);
    DistanceBounds(a, c);
  }

  // ---------------------------------------------------------------- step 1: groups by name

  // The subscriptions with one normalised name, in the order of the list.
  function Named(subs: seq<Subscription>, key: string): seq<Subscription> {
    Filter(HasKey(key), subs)
  }

  function HasKey(key: string): Subscription -> bool {
    (s: Subscription) => NormalizeName(s.name) == key
  }

  // groups is a plain object: reading the key "constructor" finds Object.prototype.constructor,
  // which is truthy and has no push.
  const INHERITED_KEY := "constructor"

  ghost predicate AllNamesSafe(subs: seq<Subscription>) {
    NoneIs(HasInheritedKey, subs)
  }

  predicate HasInheritedKey(s: Subscription) {
    NormalizeName(s.name) == INHERITED_KEY
  }

  // One subscription whose name reads as the inherited key makes the whole scan fail.
  lemma InheritedKeyFails(subs: seq<Subscription>, s: Subscription)
    requires s in subs && s.name == "constructor"
    ensures !AllNamesSafe(subs)
  {
    KeyIsFixed(s.name, INHERITED_KEY);
  }

  lemma KeyIsFixed(name: string, key: string)
    requires name == key && forall c :: c in key ==> IsLowerAlnum(c)
    ensures NormalizeName(name) == key
  {
    NormalFormIsFixed(key);
  }

  // The groups hold exactly the names that occur, each with its subscriptions.
  ghost predicate GroupedByName(subs: seq<Subscription>, groups: map<string, seq<Subscription>>) {
    && (forall k :: k in groups ==> groups[k] == Named(subs, k))
    && (forall k :: k in groups <==> Named(subs, k) != [])
  }

  lemma SafeOneMore(subs: seq<Subscription>, i: nat)
    requires i < |subs| && AllNamesSafe(subs[..i])
    ensures if HasInheritedKey(subs[i]) then !AllNamesSafe(subs) else AllNamesSafe(subs[..i + 1])
    ensures subs[..i + 1] == subs[..i] + [subs[i]]
  {
    NoneIsNext(HasInheritedKey, subs, i);
  }

  lemma GroupOneMore(subs: seq<Subscription>, groups: map<string, seq<Subscription>>, s: Subscription)
    requires GroupedByName(subs, groups)
    ensures GroupedByName(subs + [s], AddToGroup(groups, NormalizeName(s.name), s))
  {
    var key := NormalizeName(s.name);
    forall k ensures Named(subs + [s], k) == if key == k then Named(subs, k) + [s] else Named(subs, k) {
      FilterSnoc(HasKey(k), subs, s);
    }
  }

  function AddToGroup(groups: map<string, seq<Subscription>>, key: string, s: Subscription)
    : map<string, seq<Subscription>>
  {
    groups[key := (if key in groups then groups[key] else []) + [s]]
  }

  method GroupByName(subs: seq<Subscription>) returns (ok: bool, groups: map<string, seq<Subscription>>)
    ensures ok <==> AllNamesSafe(subs)
    ensures ok ==> GroupedByName(subs, groups)
  {
    groups := map[];
    for i := 0 to |subs|
      invariant AllNamesSafe(subs[..i])
      invariant GroupedByName(subs[..i], groups)
    {
      var sub := subs[i];
      SafeOneMore(subs, i);
      if HasInheritedKey(sub) { return false, map[]; }
      var key := NormalizeName(sub.name);
      GroupOneMore(subs[..i], groups, sub);
      groups := AddToGroup(groups, key, sub);
    }
    assert subs[..|subs|] == subs;
    ok := true;
  }

  // ---------------------------------------------------------------- step 2: greedy clusters

  // All clusters, of one subscription or more; the reported groups are those of two or more.
  function AllClusters(subs: seq<Subscription>, order: seq<string>): seq<seq<Subscription>> {
    GatherAll(NamedIn(subs), Clusters(FuzzyMatch, order))
  }

  function NamedIn(subs: seq<Subscription>): string -> seq<Subscription> {
    key => Named(subs, key)
  }

  // An order in which the entries of the groups may be listed: each key once.
  ghost predicate KeyOrder(subs: seq<Subscription>, order: seq<string>) {
    NoDup(order) && forall k :: k in order <==> Named(subs, k) != []
  }

  // One pass over all entries for one seed.
  method Absorb(groups: map<string, seq<Subscription>>, entries: seq<string>, key: string, visited0: set<string>,
                ghost subs: seq<Subscription>)
    returns (cluster: seq<Subscription>, visited: set<string>)
    requires GroupedByName(subs, groups) && KeyOrder(subs, entries) && key in entries && key in visited0
    ensures PassState(FuzzyMatch, NamedIn(subs), key, visited0, entries, cluster, visited)
  {
    cluster, visited := groups[key], visited0;
    assert Gather(NamedIn(subs), [key]) == Named(subs, key) + [];
    for b := 0 to |entries|
      invariant PassState(FuzzyMatch, NamedIn(subs), key, visited0, entries[..b], cluster, visited)
      invariant key in visited
    {
      var otherKey := entries[b];
      NextIsNew(entries, b);
      if otherKey == key || otherKey in visited {
        PassSkips(FuzzyMatch, NamedIn(subs), key, visited0, entries[..b], cluster, visited, otherKey);
        continue;
      }
      var matched := ComputeFuzzyMatch(key, otherKey);
      if matched {
        PassTakes(FuzzyMatch, NamedIn(subs), key, visited0, entries[..b], cluster, visited, otherKey);
        cluster := cluster + groups[otherKey];
        visited := visited + {otherKey};
      } else {
        PassSkips(FuzzyMatch, NamedIn(subs), key, visited0, entries[..b], cluster, visited, otherKey);
      }
    }
    assert entries[..|entries|] == entries;
  }

  method MergeGroups(groups: map<string, seq<Subscription>>, entries: seq<string>, ghost subs: seq<Subscription>)
    returns (mergedGroups: seq<seq<Subscription>>)
    requires GroupedByName(subs, groups) && KeyOrder(subs, entries)
    ensures mergedGroups == Filter(IsPlural, AllClusters(subs, entries))
  {
    mergedGroups := [];
    var visited: set<string> := {};
    ghost var done: seq<seq<string>> := [];
    FilterAll(NotIn({}), entries);
    for a := 0 to |entries|
      invariant MergeState(FuzzyMatch, NamedIn(subs), entries, a, visited, mergedGroups, done)
    {
      var key := entries[a];
      if key in visited {
        MergeSkips(FuzzyMatch, NamedIn(subs), entries, a, visited, mergedGroups, done);
        continue;
      }
      var cluster, marked := Absorb(groups, entries, key, visited + {key}, subs);
      done := MergeSeed(FuzzyMatch, NamedIn(subs), entries, a, visited, mergedGroups, done, cluster, marked);
      visited := marked;
      if |cluster| > 1 {
        mergedGroups := mergedGroups + [cluster];
      }
    }
    assert Filter(NotIn(visited), entries[|entries|..]) == [];
    assert done + [] == done;
  }

  // Object.entries lists the keys in some order; every order is allowed here.
  method Entries(groups: map<string, seq<Subscription>>) returns (order: seq<string>)
    ensures NoDup(order) && forall k :: k in order <==> k in groups
  {
    order := [];
    var left := groups.Keys;
    while left != {}
      invariant NoDup(order)
      invariant forall k :: k in groups <==> k in order || k in left
      invariant forall k :: k in order ==> k !in left
      decreases left
    {
      var k :| k in left;
      order, left := order + [k], left - {k};
    }
  }

  /** detectDuplicates, up to the cost figures computed for each reported group. */
  method DetectDuplicates(subscriptions: seq<Subscription>) returns (r: Detection)
    ensures r.TypeError? <==> exists s :: s in subscriptions && NormalizeName(s.name) == "constructor"
    ensures r.Groups? ==> exists order :: KeyOrder(subscriptions, order)
                            && r.groups == Filter(IsPlural, AllClusters(subscriptions, order))
    ensures r.Groups? ==> forall g :: g in r.groups ==> |g| >= 2
  {
    var ok, groups := GroupByName(subscriptions);
    if !ok { return TypeError; }
    var entries := Entries(groups);
    var merged := MergeGroups(groups, entries, subscriptions);
    FilterMembers(IsPlural, AllClusters(subscriptions, entries));
    r := Groups(merged);
  }

  // ---------------------------------------------------------------- what the groups mean

  lemma InNamed(subs: seq<Subscription>, k: string, s: Subscription)
    ensures s in Named(subs, k) <==> s in subs && NormalizeName(s.name) == k
  {
    FilterMember(HasKey(k), subs, s);
  }

  lemma NamedCount(subs: seq<Subscription>, s: Subscription)
    ensures multiset(Named(subs, NormalizeName(s.name)))[s] == multiset(subs)[s]
  {
    var k := NormalizeName(s.name);
    var others := (t: Subscription) => NormalizeName(t.name) != k;
    FilterSplits(HasKey(k), others, subs);
    FilterMember(others, subs, s);
    assert s !in multiset(Filter(others, subs));
  }

  // The clusters lose no subscription and repeat none.
  lemma ClustersKeepEverything(subs: seq<Subscription>, order: seq<string>)
    requires KeyOrder(subs, order)
    ensures multiset(Flatten(AllClusters(subs, order))) == multiset(subs)
  {
    var keys := Flatten(Clusters(FuzzyMatch, order));
    FlattenGathered(NamedIn(subs), Clusters(FuzzyMatch, order));
    ClustersPartition(FuzzyMatch, order);
    PermutationNoDup(order, keys);
    forall s ensures multiset(Gather(NamedIn(subs), keys))[s] == multiset(subs)[s] {
      GatheredOnce(subs, order, keys, s);
    }
  }

  lemma GatheredOnce(subs: seq<Subscription>, order: seq<string>, keys: seq<string>, s: Subscription)
    requires KeyOrder(subs, order) && NoDup(keys) && multiset(keys) == multiset(order)
    ensures multiset(Gather(NamedIn(subs), keys))[s] == multiset(subs)[s]
  {
    var home := NormalizeName(s.name);
    forall k | k in keys && k != home ensures s !in NamedIn(subs)(k) {
      InNamed(subs, k, s);
    }
    GatherCount(NamedIn(subs), keys, s, home);
    NamedCount(subs, s);
    assert home in keys <==> home in multiset(order);
    assert s in subs ==> home in order by {
      InNamed(subs, home, s);
    }
    assert multiset(subs)[s] > 0 <==> s in subs;
  }

  lemma InCluster(subs: seq<Subscription>, order: seq<string>, i: nat, s: Subscription)
    requires i < |AllClusters(subs, order)|
    ensures s in AllClusters(subs, order)[i]
       <==> s in subs && NormalizeName(s.name) in Clusters(FuzzyMatch, order)[i]
  {
    GatherMembers(NamedIn(subs), Clusters(FuzzyMatch, order)[i], s);
    forall k ensures s in NamedIn(subs)(k) <==> s in subs && NormalizeName(s.name) == k {
      InNamed(subs, k, s);
    }
  }

  // The name of the first member of a cluster is the name of its seed.
  lemma SeedMember(subs: seq<Subscription>, order: seq<string>, i: nat)
    requires KeyOrder(subs, order) && i < |AllClusters(subs, order)|
    ensures Clusters(FuzzyMatch, order)[i] != [] && AllClusters(subs, order)[i] != []
    ensures NormalizeName(AllClusters(subs, order)[i][0].name) == Clusters(FuzzyMatch, order)[i][0]
  {
    ClustersAreGreedy(FuzzyMatch, order);
    var keys := Clusters(FuzzyMatch, order)[i];
    ClustersMembers(FuzzyMatch, order, i, keys[0]);
    FirstGathered(subs, keys);
  }

  lemma FirstGathered(subs: seq<Subscription>, keys: seq<string>)
    requires keys != [] && Named(subs, keys[0]) != []
    ensures Gather(NamedIn(subs), keys) != []
    ensures NormalizeName(Gather(NamedIn(subs), keys)[0].name) == keys[0]
  {
    var group := Named(subs, keys[0]);
    assert NamedIn(subs)(keys[0]) == group;
    assert Gather(NamedIn(subs), keys)[0] == group[0];
    InNamed(subs, keys[0], group[0]);
  }

  // Every member matches the seed of its own cluster and no seed of an earlier one.
  lemma MembersFollowSeeds(subs: seq<Subscription>, order: seq<string>, i: nat, j: nat, s: Subscription)
    requires KeyOrder(subs, order) && i <= j < |AllClusters(subs, order)| && s in AllClusters(subs, order)[j]
    ensures AllClusters(subs, order)[i] != []
    ensures FuzzyMatch(AllClusters(subs, order)[i][0].name, s.name) <==> i == j
  {
    var clusters, k := Clusters(FuzzyMatch, order), NormalizeName(s.name);
    SeedMember(subs, order, i);
    InCluster(subs, order, j, s);
    ClustersAreGreedy(FuzzyMatch, order);
    FuzzyMatchOnKeys(AllClusters(subs, order)[i][0].name, s.name);
    SeedOrMember(clusters, i, j, k);
  }

  lemma SeedOrMember(clusters: seq<seq<string>>, i: nat, j: nat, k: string)
    requires Greedy(FuzzyMatch, clusters) && i <= j < |clusters| && k in clusters[j]
    ensures FuzzyMatch(clusters[i][0], k) <==> i == j
  {
    if i == j {
      var p :| 0 <= p < |clusters[i]| && clusters[i][p] == k;
      FuzzyMatchSymmetric(k, k);
    }
  }

  // Subscriptions whose normalised names agree are never in two clusters.
  lemma SameNameSameCluster(subs: seq<Subscription>, order: seq<string>, i: nat, j: nat,
                            s: Subscription, t: Subscription)
    requires KeyOrder(subs, order) && i < |AllClusters(subs, order)| && j < |AllClusters(subs, order)|
    requires s in AllClusters(subs, order)[i] && t in AllClusters(subs, order)[j]
    requires NormalizeName(s.name) == NormalizeName(t.name)
    ensures i == j
  {
    InCluster(subs, order, i, s);
    InCluster(subs, order, j, t);
    ClustersAreGreedy(FuzzyMatch, order);
    SeedOrMember(Clusters(FuzzyMatch, order), i, i, NormalizeName(s.name));
    SeedOrMember(Clusters(FuzzyMatch, order), j, j, NormalizeName(t.name));
  }

  // Two entries of the list with the same normalised name are reported, in one group.
  lemma SameNameIsReported(subs: seq<Subscription>, order: seq<string>, p: nat, q: nat)
    requires KeyOrder(subs, order) && p < q < |subs| && NormalizeName(subs[p].name) == NormalizeName(subs[q].name)
    ensures exists g :: g in Filter(IsPlural, AllClusters(subs, order)) && subs[p] in g && subs[q] in g
  {
    var k := NormalizeName(subs[p].name);
    TwiceNamed(subs, p, q);
    assert k in order;
    var i := InSomeCluster(FuzzyMatch, order, k);
    var g := AllClusters(subs, order)[i];
    InCluster(subs, order, i, subs[p]);
    InCluster(subs, order, i, subs[q]);
    GatherLength(NamedIn(subs), Clusters(FuzzyMatch, order)[i], k);
    FilterMember(IsPlural, AllClusters(subs, order), g);
  }

  lemma TwiceNamed(subs: seq<Subscription>, p: nat, q: nat)
    requires p < q < |subs| && NormalizeName(subs[p].name) == NormalizeName(subs[q].name)
    ensures |Named(subs, NormalizeName(subs[p].name))| >= 2
  {
    var k := NormalizeName(subs[p].name);
    assert subs == subs[..q] + subs[q..];
    FilterAppend(HasKey(k), subs[..q], subs[q..]);
    assert subs[p] in subs[..q] && subs[q] in subs[q..];
    InNamed(subs[..q], k, subs[p]);
    InNamed(subs[q..], k, subs[q]);
  }

  // Every pair that matches is grouped together, and no other, iff the match is transitive on the names.
  lemma GroupsExactIffTransitive(subs: seq<Subscription>, order: seq<string>)
    requires KeyOrder(subs, order)
    ensures Exact(FuzzyMatch, Clusters(FuzzyMatch, order)) <==> TransitiveOn(FuzzyMatch, order)
  {
    forall x, y ensures FuzzyMatch(x, x) && (FuzzyMatch(x, y) <==> FuzzyMatch(y, x)) {
      FuzzyMatchSymmetric(x, y);
    }
    ExactIffTransitive(FuzzyMatch, order);
  }
}
