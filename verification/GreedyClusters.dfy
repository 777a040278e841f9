/**
  Greedy clustering of keys by a "same" test: the first key not yet taken becomes a seed and
  takes every later key that the test matches with it.
 */
module GreedyClusters {
  import opened Seqs

  type Test<!K> = (K, K) -> bool

  function Matches<K>(same: Test<K>, seed: K): K -> bool {
    k => same(seed, k)
  }

  function Misses<K>(same: Test<K>, seed: K): K -> bool {
    k => !same(seed, k)
  }

  function NotIn<K(==)>(visited: set<K>): K -> bool {
    k => k !in visited
  }

  function Clusters<K(!new)>(same: Test<K>, keys: seq<K>): seq<seq<K>>
    decreases |keys|
  {
    if keys == [] then []
    else
      var seed, rest := keys[0], keys[1..];
      [[seed] + Filter(Matches(same, seed), rest)] + Clusters(same, Filter(Misses(same, seed), rest))
  }

  // ---------------------------------------------------------------- one step of the two loops

  // Everything up to entry a is visited once a is: only the tail can still be taken.
  lemma OnlyTailLeft<K(!new)>(entries: seq<K>, a: nat, visited: set<K>)
    requires a < |entries| && forall k :: k in entries[..a + 1] ==> k in visited
    ensures Filter(NotIn(visited), entries) == Filter(NotIn(visited), entries[a + 1..])
  {
    assert entries == entries[..a + 1] + entries[a + 1..];
    FilterAppend(NotIn(visited), entries[..a + 1], entries[a + 1..]);
    FilterNone(NotIn(visited), entries[..a + 1]);
  }

  lemma SeedIsFirstLeft<K(!new)>(entries: seq<K>, a: nat, before: set<K>)
    requires NoDup(entries) && a < |entries| && entries[a] !in before
    ensures Filter(NotIn(before), entries[a..])
         == [entries[a]] + Filter(NotIn(before + {entries[a]}), entries[a + 1..])
  {
    assert entries[a..][1..] == entries[a + 1..];
    FilterSame(NotIn(before), NotIn(before + {entries[a]}), entries[a + 1..]);
  }

  // Skipping the keys that the pass over all entries marked is skipping the matches of the seed.
  lemma AfterAbsorbing<K(!new)>(same: Test<K>, seed: K, tail: seq<K>, visited: set<K>, absorbed: seq<K>)
    requires absorbed == Filter(Matches(same, seed), Filter(NotIn(visited), tail))
    ensures Filter(NotIn(visited + set k | k in absorbed), tail)
         == Filter(Misses(same, seed), Filter(NotIn(visited), tail))
  {
    var after := visited + set k | k in absorbed;
    forall k | k in tail ensures k !in after <==> !same(seed, k) && k !in visited {
      FilterMember(NotIn(visited), tail, k);
      FilterMember(Matches(same, seed), Filter(NotIn(visited), tail), k);
    }
    FilterTwice(Misses(same, seed), NotIn(visited), NotIn(after), tail);
  }

  lemma SeedStep<K(!new)>(same: Test<K>, entries: seq<K>, a: nat, before: set<K>, after: set<K>, absorbed: seq<K>)
    requires NoDup(entries) && a < |entries| && entries[a] !in before
    requires forall k :: k in entries[..a] ==> k in before
    requires absorbed == Filter(Matches(same, entries[a]), Filter(NotIn(before + {entries[a]}), entries))
    requires after == before + {entries[a]} + set k | k in absorbed
    ensures Clusters(same, Filter(NotIn(before), entries[a..]))
         == [[entries[a]] + absorbed] + Clusters(same, Filter(NotIn(after), entries[a + 1..]))
  {
    var seed := entries[a];
    var rest := Filter(NotIn(before + {seed}), entries[a + 1..]);
    OnlyTailLeft(entries, a, before + {seed});
    SeedIsFirstLeft(entries, a, before);
    AfterAbsorbing(same, seed, entries[a + 1..], before + {seed}, absorbed);
    assert ([seed] + rest)[1..] == rest;
  }

  // ---------------------------------------------------------------- the inner loop

  // The members of the clusters' groups, in the order of the keys.
  function Gather<K, T>(group: K -> seq<T>, keys: seq<K>): seq<T> {
    if keys == [] then [] else group(keys[0]) + Gather(group, keys[1..])
  }

  lemma {:induction false} GatherAppend<K, T>(group: K -> seq<T>, a: seq<K>, b: seq<K>)
    ensures Gather(group, a + b) == Gather(group, a) + Gather(group, b)
  {
    if a == [] {
      assert a + b == b;
    } else {
      GatherAppend(group, a[1..], b);
      assert (a + b)[1..] == a[1..] + b;
    }
  }

  lemma GatherSnoc<K, T>(group: K -> seq<T>, keys: seq<K>, k: K)
    ensures Gather(group, keys + [k]) == Gather(group, keys) + group(k)
  {
    GatherAppend(group, keys, [k]);
    assert Gather(group, [k]) == group(k) + [];
  }

  // What a pass over `front` absorbs: the unvisited keys that match the seed.
  function Absorbed<K(!new)>(same: Test<K>, seed: K, visited: set<K>, front: seq<K>): seq<K> {
    Filter(Matches(same, seed), Filter(NotIn(visited), front))
  }

  lemma AbsorbedMember<K(!new)>(same: Test<K>, seed: K, visited: set<K>, front: seq<K>, k: K)
    ensures k in Absorbed(same, seed, visited, front) <==> k in front && k !in visited && same(seed, k)
  {
    FilterMember(NotIn(visited), front, k);
    FilterMember(Matches(same, seed), Filter(NotIn(visited), front), k);
  }

  lemma AbsorbNext<K(!new)>(same: Test<K>, seed: K, visited: set<K>, front: seq<K>, k: K)
    ensures Absorbed(same, seed, visited, front + [k])
         == Absorbed(same, seed, visited, front) + if k !in visited && same(seed, k) then [k] else []
  {
    FilterSnoc(NotIn(visited), front, k);
    FilterSnoc(Matches(same, seed), Filter(NotIn(visited), front), k);
  }

  // The state of the inner loop after the entries in `front`.
  ghost predicate PassState<K(!new), T>(same: Test<K>, group: K -> seq<T>, seed: K, visited0: set<K>, front: seq<K>,
                                        cluster: seq<T>, visited: set<K>) {
    var absorbed := Absorbed(same, seed, visited0, front);
    && cluster == Gather(group, [seed] + absorbed)
    && visited == visited0 + set k | k in absorbed
  }

  lemma PassSkips<K(!new), T>(same: Test<K>, group: K -> seq<T>, seed: K, visited0: set<K>, front: seq<K>,
                              cluster: seq<T>, visited: set<K>, k: K)
    requires PassState(same, group, seed, visited0, front, cluster, visited) && k !in front
    requires k in visited || !same(seed, k)
    ensures PassState(same, group, seed, visited0, front + [k], cluster, visited)
  {
    AbsorbNext(same, seed, visited0, front, k);
    AbsorbedMember(same, seed, visited0, front, k);
    assert Absorbed(same, seed, visited0, front + [k]) == Absorbed(same, seed, visited0, front);
  }

  lemma PassTakes<K(!new), T>(same: Test<K>, group: K -> seq<T>, seed: K, visited0: set<K>, front: seq<K>,
                              cluster: seq<T>, visited: set<K>, k: K)
    requires PassState(same, group, seed, visited0, front, cluster, visited) && k !in front
    requires k !in visited && same(seed, k)
    ensures PassState(same, group, seed, visited0, front + [k], cluster + group(k), visited + {k})
  {
    AbsorbNext(same, seed, visited0, front, k);
    var absorbed := Absorbed(same, seed, visited0, front);
    GatherSnoc(group, [seed] + absorbed, k);
    Assoc([seed], absorbed, [k]);
  }

  // ---------------------------------------------------------------- the outer loop

  function GatherAll<K, T>(group: K -> seq<T>, clusters: seq<seq<K>>): (r: seq<seq<T>>)
    ensures |r| == |clusters|
    ensures forall i :: 0 <= i < |r| ==> r[i] == Gather(group, clusters[i])
  {
    if clusters == [] then [] else [Gather(group, clusters[0])] + GatherAll(group, clusters[1..])
  }

  predicate IsPlural<T>(cluster: seq<T>) { |cluster| > 1 }

  lemma {:induction false} GatherAllSnoc<K, T(!new)>(group: K -> seq<T>, clusters: seq<seq<K>>, keys: seq<K>)
    ensures GatherAll(group, clusters + [keys]) == GatherAll(group, clusters) + [Gather(group, keys)]
  {
    if clusters != [] {
      GatherAllSnoc(group, clusters[1..], keys);
      assert (clusters + [keys])[1..] == clusters[1..] + [keys];
    }
  }

  // The state of the outer loop before entry a: `done` holds the clusters found so far.
  ghost predicate MergeState<K(!new), T(!new)>(same: Test<K>, group: K -> seq<T>, entries: seq<K>, a: nat,
                                               visited: set<K>, merged: seq<seq<T>>, done: seq<seq<K>>)
    requires a <= |entries|
  {
    && (forall k :: k in entries[..a] ==> k in visited)
    && Clusters(same, entries) == done + Clusters(same, Filter(NotIn(visited), entries[a..]))
    && merged == Filter(IsPlural, GatherAll(group, done))
  }

  lemma MergeSkips<K(!new), T(!new)>(same: Test<K>, group: K -> seq<T>, entries: seq<K>, a: nat,
                                     visited: set<K>, merged: seq<seq<T>>, done: seq<seq<K>>)
    requires a < |entries| && MergeState(same, group, entries, a, visited, merged, done) && entries[a] in visited
    ensures MergeState(same, group, entries, a + 1, visited, merged, done)
  {
    assert entries[a..] == [entries[a]] + entries[a + 1..];
    assert Filter(NotIn(visited), entries[a..]) == Filter(NotIn(visited), entries[a + 1..]);
    assert entries[..a + 1] == entries[..a] + [entries[a]];
  }

  lemma MergeSeed<K(!new), T(!new)>(same: Test<K>, group: K -> seq<T>, entries: seq<K>, a: nat,
                                    visited: set<K>, merged: seq<seq<T>>, done: seq<seq<K>>,
                                    cluster: seq<T>, visited': set<K>) returns (done': seq<seq<K>>)
    requires NoDup(entries) && a < |entries| && entries[a] !in visited
    requires MergeState(same, group, entries, a, visited, merged, done)
    requires PassState(same, group, entries[a], visited + {entries[a]}, entries, cluster, visited')
    ensures MergeState(same, group, entries, a + 1, visited',
                       if |cluster| > 1 then merged + [cluster] else merged, done')
  {
    var absorbed := Absorbed(same, entries[a], visited + {entries[a]}, entries);
    var keys := [entries[a]] + absorbed;
    done' := done + [keys];
    assert Clusters(same, entries) == done' + Clusters(same, Filter(NotIn(visited'), entries[a + 1..])) by {
      SeedStep(same, entries, a, visited, visited', absorbed);
    }
    assert Filter(IsPlural, GatherAll(group, done')) == if |cluster| > 1 then merged + [cluster] else merged by {
      GatherAllSnoc(group, done, keys);
      FilterAppend(IsPlural, GatherAll(group, done), [cluster]);
    }
    NextIsNew(entries, a);
  }

  // ---------------------------------------------------------------- what the clusters are

  // Nothing is lost and nothing is repeated.
  lemma {:induction false} ClustersPartition<K(!new)>(same: Test<K>, keys: seq<K>)
    ensures multiset(Flatten(Clusters(same, keys))) == multiset(keys)
    decreases |keys|
  {
    if keys != [] {
      var seed, rest := keys[0], keys[1..];
      var taken, left := Filter(Matches(same, seed), rest), Filter(Misses(same, seed), rest);
      ClustersPartition(same, left);
      FilterSplits(Matches(same, seed), Misses(same, seed), rest);
      assert keys == [seed] + rest;
      assert Flatten(Clusters(same, keys)) == ([seed] + taken) + Flatten(Clusters(same, left));
    }
  }

  // Every key is in the cluster of the first seed that matches it, and nowhere else.
  ghost predicate Greedy<K(!new)>(same: Test<K>, clusters: seq<seq<K>>) {
    && (forall i :: 0 <= i < |clusters| ==> clusters[i] != [])
    && (forall i, j :: 0 <= i < |clusters| && 0 <= j < |clusters[i]| ==> j == 0 || same(clusters[i][0], clusters[i][j]))
    && (forall i, j, k :: 0 <= i < j < |clusters| && k in clusters[j] ==> !same(clusters[i][0], k))
  }

  lemma {:induction false} ClustersMembers<K(!new)>(same: Test<K>, keys: seq<K>, i: nat, k: K)
    requires i < |Clusters(same, keys)| && k in Clusters(same, keys)[i]
    ensures k in keys
    decreases |keys|
  {
    var seed, rest := keys[0], keys[1..];
    if i == 0 {
      FilterMember(Matches(same, seed), rest, k);
    } else {
      ClustersMembers(same, Filter(Misses(same, seed), rest), i - 1, k);
      FilterMember(Misses(same, seed), rest, k);
    }
  }

  lemma {:induction false} ClustersAreGreedy<K(!new)>(same: Test<K>, keys: seq<K>)
    ensures Greedy(same, Clusters(same, keys))
    decreases |keys|
  {
    if keys != [] {
      var seed, rest := keys[0], keys[1..];
      var taken, left := Filter(Matches(same, seed), rest), Filter(Misses(same, seed), rest);
      ClustersAreGreedy(same, left);
      forall j, k | 0 <= j < |Clusters(same, left)| && k in Clusters(same, left)[j] ensures !same(seed, k) {
        ClustersMembers(same, left, j, k);
        FilterMember(Misses(same, seed), rest, k);
      }
      forall j | 0 <= j < |taken| ensures same(seed, taken[j]) {
        FilterMember(Matches(same, seed), rest, taken[j]);
      }
      GreedyCons(same, seed, taken, Clusters(same, left));
    }
  }

  lemma GreedyCons<K(!new)>(same: Test<K>, seed: K, taken: seq<K>, others: seq<seq<K>>)
    requires Greedy(same, others)
    requires forall j :: 0 <= j < |taken| ==> same(seed, taken[j])
    requires forall j, k :: 0 <= j < |others| && k in others[j] ==> !same(seed, k)
    ensures Greedy(same, [[seed] + taken] + others)
  {
    var all := [[seed] + taken] + others;
    assert all[0] == [seed] + taken && forall j :: 0 < j < |all| ==> all[j] == others[j - 1];
    assert forall j :: 0 < j < |all[0]| ==> all[0][j] == taken[j - 1];
  }

  lemma {:induction false} FlattenGathered<K, T>(group: K -> seq<T>, clusters: seq<seq<K>>)
    ensures Flatten(GatherAll(group, clusters)) == Gather(group, Flatten(clusters))
  {
    if clusters != [] {
      FlattenGathered(group, clusters[1..]);
      GatherAppend(group, clusters[0], Flatten(clusters[1..]));
    }
  }

  // An element that only the group of one key holds is gathered once if that key occurs once.
  lemma {:induction false} GatherCount<K, T>(group: K -> seq<T>, keys: seq<K>, x: T, home: K)
    requires forall k :: k in keys && k != home ==> x !in group(k)
    requires NoDup(keys)
    ensures multiset(Gather(group, keys))[x] == if home in keys then multiset(group(home))[x] else 0
  {
    if keys != [] {
      GatherCount(group, keys[1..], x, home);
      assert keys[0] !in keys[1..];
      assert home in keys <==> home == keys[0] || home in keys[1..];
      assert keys[0] in keys;
      CountAppend(group(keys[0]), Gather(group, keys[1..]), x);
    }
  }

  lemma CountAppend<T>(a: seq<T>, b: seq<T>, x: T)
    ensures multiset(a + b)[x] == multiset(a)[x] + multiset(b)[x]
    ensures x !in a ==> multiset(a)[x] == 0
  {
    assert multiset(a)[x] > 0 <==> x in multiset(a);
  }

  // A rearrangement of a sequence without duplicates has none either.
  lemma PermutationNoDup<K>(a: seq<K>, b: seq<K>)
    requires NoDup(a) && multiset(a) == multiset(b)
    ensures NoDup(b)
  {
    forall i, j | 0 <= i < j < |b| ensures b[i] != b[j] {
      if b[i] == b[j] {
        TwiceCounted(b, i, j);
        CountedOnce(a, b[i]);
      }
    }
  }

  lemma TwiceCounted<K>(s: seq<K>, i: nat, j: nat)
    requires i < j < |s| && s[i] == s[j]
    ensures multiset(s)[s[i]] >= 2
  {
    assert s == s[..j] + s[j..];
    assert s[i] in multiset(s[..j]) && s[j] in multiset(s[j..]);
  }

  lemma {:induction false} CountedOnce<K>(s: seq<K>, x: K)
    requires NoDup(s)
    ensures multiset(s)[x] <= 1
  {
    if s != [] {
      CountedOnce(s[1..], x);
      assert s == [s[0]] + s[1..];
      assert s[0] !in s[1..];
      assert s[0] !in multiset(s[1..]);
    }
  }

  lemma {:induction false} GatherMembers<K, T>(group: K -> seq<T>, keys: seq<K>, x: T)
    ensures x in Gather(group, keys) <==> exists k :: k in keys && x in group(k)
  {
    if keys != [] {
      GatherMembers(group, keys[1..], x);
      assert forall k :: k in keys <==> k == keys[0] || k in keys[1..];
    }
  }

  lemma {:induction false} GatherLength<K, T>(group: K -> seq<T>, keys: seq<K>, k: K)
    requires k in keys
    ensures |group(k)| <= |Gather(group, keys)|
  {
    if k != keys[0] {
      GatherLength(group, keys[1..], k);
    }
  }

  // Keys in one cluster match pairwise, and keys in two clusters never match.
  ghost predicate Exact<K(!new)>(same: Test<K>, clusters: seq<seq<K>>) {
    && (forall i, x, y :: 0 <= i < |clusters| && x in clusters[i] && y in clusters[i] ==> same(x, y))
    && (forall i, j, x, y :: 0 <= i < j < |clusters| && x in clusters[i] && y in clusters[j] ==> !same(x, y))
  }

  ghost predicate TransitiveOn<K(!new)>(same: Test<K>, keys: seq<K>) {
    forall x, y, z :: x in keys && y in keys && z in keys && same(x, y) && same(y, z) ==> same(x, z)
  }

  lemma {:induction false} InSomeCluster<K(!new)>(same: Test<K>, keys: seq<K>, k: K) returns (i: nat)
    requires k in keys
    ensures i < |Clusters(same, keys)| && k in Clusters(same, keys)[i]
    decreases |keys|
  {
    var seed, rest := keys[0], keys[1..];
    if k == seed || (k in rest && same(seed, k)) {
      i := 0;
      FilterMember(Matches(same, seed), rest, k);
    } else {
      FilterMember(Misses(same, seed), rest, k);
      i := InSomeCluster(same, Filter(Misses(same, seed), rest), k);
      i := i + 1;
    }
  }

  // The greedy clusters are exact, whatever the order of the keys, iff the test is transitive on them.
  lemma ExactIffTransitive<K(!new)>(same: Test<K>, keys: seq<K>)
    requires forall x, y :: same(x, x) && (same(x, y) <==> same(y, x))
    ensures Exact(same, Clusters(same, keys)) <==> TransitiveOn(same, keys)
  {
    ClustersAreGreedy(same, keys);
    if Exact(same, Clusters(same, keys)) {
      ExactIsTransitive(same, keys);
    }
    if TransitiveOn(same, keys) {
      TransitiveIsExact(same, keys);
    }
  }

  lemma ExactIsTransitive<K(!new)>(same: Test<K>, keys: seq<K>)
    requires forall x, y :: same(x, y) <==> same(y, x)
    requires Exact(same, Clusters(same, keys))
    ensures TransitiveOn(same, keys)
  {
    forall x, y, z | x in keys && y in keys && z in keys && same(x, y) && same(y, z) ensures same(x, z) {
      var i := InSomeCluster(same, keys, x);
      var j := InSomeCluster(same, keys, y);
      var k := InSomeCluster(same, keys, z);
      assert i == j by {
        assert same(y, x);
      }
      assert j == k by {
        assert same(z, y);
      }
    }
  }

  lemma TransitiveIsExact<K(!new)>(same: Test<K>, keys: seq<K>)
    requires forall x, y :: same(x, x) && (same(x, y) <==> same(y, x))
    requires TransitiveOn(same, keys)
    ensures Exact(same, Clusters(same, keys))
  {
    var clusters := Clusters(same, keys);
    ClustersAreGreedy(same, keys);
    forall i, x | 0 <= i < |clusters| && x in clusters[i] ensures x in keys && same(clusters[i][0], x) {
      ClustersMembers(same, keys, i, x);
      var j :| 0 <= j < |clusters[i]| && clusters[i][j] == x;
    }
    forall i, x, y | 0 <= i < |clusters| && x in clusters[i] && y in clusters[i] ensures same(x, y) {
      assert clusters[i][0] in clusters[i];
      assert same(x, clusters[i][0]) && same(clusters[i][0], y);
    }
    forall i, j, x, y | 0 <= i < j < |clusters| && x in clusters[i] && y in clusters[j] ensures !same(x, y) {
      assert clusters[i][0] in clusters[i];
      assert same(clusters[i][0], x) && !same(clusters[i][0], y);
    }
  }
}
