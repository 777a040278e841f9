/**
  Sequences, as the other modules use them: filtering and mapping, sequences without duplicates,
  flattening a sequence of sequences, and keeping the last few elements.

  The lemmas say how each of these goes through a sequence that is taken apart at the front, at the
  back or in the middle. They are stated one element or one part at a time, so that a proof about a
  loop or a recursion only has to name the step it takes: the front of a sequence for a recursion,
  its end for a loop.
 */
module Seqs {

  function Filter<T(!new)>(f: T -> bool, s: seq<T>): (r: seq<T>)
    ensures |r| <= |s|
  {
    if s == [] then [] else if f(s[0]) then [s[0]] + Filter(f, s[1..]) else Filter(f, s[1..])
  }

  lemma {:induction false} FilterMember<T(!new)>(f: T -> bool, s: seq<T>, x: T)
    ensures x in Filter(f, s) <==> x in s && f(x)
  {
    if s != [] {
      FilterMember(f, s[1..], x);
      assert x in s <==> x == s[0] || x in s[1..];
    }
  }

  lemma FilterMembers<T(!new)>(f: T -> bool, s: seq<T>)
    ensures forall x :: x in Filter(f, s) <==> x in s && f(x)
  {
    forall x ensures x in Filter(f, s) <==> x in s && f(x) {
      FilterMember(f, s, x);
    }
  }

  ghost predicate NoDup<T>(s: seq<T>) {
    forall i, j :: 0 <= i < j < |s| ==> s[i] != s[j]
  }

  lemma NextIsNew<T>(s: seq<T>, i: nat)
    requires NoDup(s) && i < |s|
    ensures s[i] !in s[..i] && s[..i + 1] == s[..i] + [s[i]]
  {
  }

  lemma NoDupSnoc<T>(s: seq<T>, x: T)
    requires NoDup(s) && x !in s
    ensures NoDup(s + [x])
  {
  }

  ghost predicate NoneIs<T(!new)>(bad: T -> bool, s: seq<T>) {
    forall x :: x in s ==> !bad(x)
  }

  lemma NoneIsNext<T(!new)>(bad: T -> bool, s: seq<T>, i: nat)
    requires i < |s| && NoneIs(bad, s[..i])
    ensures if bad(s[i]) then !NoneIs(bad, s) else NoneIs(bad, s[..i + 1])
    ensures s[..i + 1] == s[..i] + [s[i]]
  {
    assert s[i] in s;
    assert s[..i + 1] == s[..i] + [s[i]];
  }

  function Mapped<T, U>(f: T -> U, s: seq<T>): (r: seq<U>)
    ensures |r| == |s| && forall i :: 0 <= i < |s| ==> r[i] == f(s[i])
  {
    seq(|s|, i requires 0 <= i < |s| => f(s[i]))
  }

  lemma MappedNext<T, U>(f: T -> U, s: seq<T>, i: nat)
    requires i < |s|
    ensures Mapped(f, s[..i + 1]) == Mapped(f, s[..i]) + [f(s[i])]
  {
  }

  function Flatten<T>(ss: seq<seq<T>>): seq<T> {
    if ss == [] then [] else ss[0] + Flatten(ss[1..])
  }

  // The last n elements, or all of them: slice(-n) of the sources.
  function LastN<T>(n: nat, s: seq<T>): seq<T> {
    if |s| <= n then s else s[|s| - n..]
  }

  lemma FilterCons<T(!new)>(f: T -> bool, x: T, s: seq<T>)
    ensures Filter(f, [x] + s) == if f(x) then [x] + Filter(f, s) else Filter(f, s)
  {
    assert ([x] + s)[1..] == s;
  }

  lemma Assoc<T>(a: seq<T>, b: seq<T>, c: seq<T>)
    ensures a + b + c == a + (b + c)
  {
  }

  lemma {:induction false} FilterAppend<T(!new)>(f: T -> bool, a: seq<T>, b: seq<T>)
    ensures Filter(f, a + b) == Filter(f, a) + Filter(f, b)
  {
    if a == [] {
      assert a + b == b;
    } else {
      var x, rest := a[0], a[1..];
      assert a == [x] + rest;
      Assoc([x], rest, b);
      FilterCons(f, x, rest + b);
      FilterCons(f, x, rest);
      FilterAppend(f, rest, b);
      Assoc([x], Filter(f, rest), Filter(f, b));
    }
  }

  lemma FilterSnoc<T(!new)>(f: T -> bool, s: seq<T>, x: T)
    ensures Filter(f, s + [x]) == if f(x) then Filter(f, s) + [x] else Filter(f, s)
  {
    FilterAppend(f, s, [x]);
    FilterCons(f, x, []);
    assert [x] + [] == [x];
  }

  lemma {:induction false} FilterNone<T(!new)>(f: T -> bool, s: seq<T>)
    requires forall x :: x in s ==> !f(x)
    ensures Filter(f, s) == []
  {
    if s != [] {
      FilterNone(f, s[1..]);
    }
  }

  lemma {:induction false} FilterAll<T(!new)>(f: T -> bool, s: seq<T>)
    requires forall x :: x in s ==> f(x)
    ensures Filter(f, s) == s
  {
    if s != [] {
      FilterAll(f, s[1..]);
    }
  }

  lemma {:induction false} FilterSame<T(!new)>(f: T -> bool, g: T -> bool, s: seq<T>)
    requires forall x :: x in s ==> (f(x) <==> g(x))
    ensures Filter(f, s) == Filter(g, s)
  {
    if s != [] {
      FilterSame(f, g, s[1..]);
    }
  }

  // Filtering twice is filtering by the conjunction.
  lemma {:induction false} FilterTwice<T(!new)>(f: T -> bool, g: T -> bool, h: T -> bool, s: seq<T>)
    requires forall x :: x in s ==> (h(x) <==> f(x) && g(x))
    ensures Filter(f, Filter(g, s)) == Filter(h, s)
  {
    if s != [] {
      assert s[0] in s;
      FilterTwice(f, g, h, s[1..]);
    }
  }

  lemma {:induction false} FilterNoDup<T(!new)>(f: T -> bool, s: seq<T>)
    requires NoDup(s)
    ensures NoDup(Filter(f, s))
  {
    if s != [] {
      FilterNoDup(f, s[1..]);
      FilterMember(f, s[1..], s[0]);
    }
  }

  // One more element in front goes to exactly one of the two parts.
  lemma SplitStep<T>(x: T, left: bool, rest: seq<T>, kept: seq<T>, dropped: seq<T>, kept': seq<T>, dropped': seq<T>)
    requires multiset(kept) + multiset(dropped) == multiset(rest)
    requires kept' == (if left then [x] else []) + kept && dropped' == (if left then [] else [x]) + dropped
    ensures multiset(kept') + multiset(dropped') == multiset([x] + rest)
  {
    assert kept' == if left then [x] + kept else kept;
    assert dropped' == if left then dropped else [x] + dropped;
  }

  // Two filters whose tests exclude each other and cover everything split the sequence.
  lemma {:induction false} FilterSplits<T(!new)>(f: T -> bool, g: T -> bool, s: seq<T>)
    requires forall x :: x in s ==> (f(x) <==> !g(x))
    ensures multiset(Filter(f, s)) + multiset(Filter(g, s)) == multiset(s)
  {
    if s != [] {
      var x, rest := s[0], s[1..];
      FilterSplits(f, g, rest);
      assert s[0] in s && s == [x] + rest;
      SplitStep(x, f(x), rest, Filter(f, rest), Filter(g, rest), Filter(f, s), Filter(g, s));
    }
  }

  lemma FlattenCons<T>(s: seq<T>, ss: seq<seq<T>>)
    ensures Flatten([s] + ss) == s + Flatten(ss)
  {
    assert ([s] + ss)[1..] == ss;
  }

  lemma {:induction false} FlattenAppend<T>(a: seq<seq<T>>, b: seq<seq<T>>)
    ensures Flatten(a + b) == Flatten(a) + Flatten(b)
  {
    if a == [] {
      assert a + b == b;
    } else {
      FlattenAppend(a[1..], b);
      FlattenCons(a[0], a[1..] + b);
      Assoc([a[0]], a[1..], b);
      assert a == [a[0]] + a[1..];
      Assoc(a[0], Flatten(a[1..]), Flatten(b));
    }
  }

  // Keeping the last n after each append keeps the last n of everything appended.
  lemma LastNAppend<T>(n: nat, a: seq<T>, b: seq<T>)
    ensures LastN(n, LastN(n, a) + b) == LastN(n, a + b)
  {
  }
}
