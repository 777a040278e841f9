/**
  Merchant de-duplication of backend/utils/merchant-normalizer.ts: text normalisation, word
  similarity and the greedy filter built on them.
 */
module Merchants {
  import opened Seqs
  import opened Text

  /**
    What Unicode contributes: toLowerCase, the characters it leaves alone, and the characters
    that are letters or numbers.
   */
  datatype Alphabet = Alphabet(lower: string -> string, fixed: char -> bool, word: char -> bool)

  // Lowering yields only characters that lowering leaves alone, and changes no text made of them.
  ghost predicate Lawful(a: Alphabet) {
    && (forall s, c :: c in a.lower(s) ==> a.fixed(c))
    && (forall s :: (forall c :: c in s ==> a.fixed(c)) ==> a.lower(s) == s)
    && a.fixed(' ')
  }

  // ---------------------------------------------------------------- normalizeText

  predicate Allowed(a: Alphabet, c: char) {
    a.word(c) || IsSpace(c) || c == '&' || c == '.' || c == '+' || c == '-'
  }

  // Every run of white space becomes one blank.
  function Collapse(s: string): string
    decreases |s|
  {
    if s == [] then []
    else if IsSpace(s[0]) then
      TrimLeftShorter(s);
      [' '] + Collapse(TrimLeft(s))
    else [s[0]] + Collapse(s[1..])
  }

  function BlankOther(a: Alphabet, s: string): (r: string)
    ensures |r| == |s| && forall i :: 0 <= i < |r| ==> r[i] == if Allowed(a, s[i]) then s[i] else ' '
  {
    if s == [] then [] else [if Allowed(a, s[0]) then s[0] else ' '] + BlankOther(a, s[1..])
  }

  function NormalizeText(a: Alphabet, text: string): string {
    Trim(Collapse(BlankOther(a, Collapse(Trim(a.lower(text))))))
  }

  lemma {:induction false} TrimLeftShorter(s: string)
    ensures |TrimLeft(s)| <= |s|
    ensures s != [] && IsSpace(s[0]) ==> |TrimLeft(s)| < |s|
    ensures TrimLeft(s) != [] ==> !IsSpace(TrimLeft(s)[0])
    ensures forall c :: c in TrimLeft(s) ==> c in s
  {
    if s != [] && IsSpace(s[0]) {
      TrimLeftShorter(s[1..]);
    }
  }

  // White space is single blanks, and none at either end.
  predicate Spaced(s: string) {
    forall i :: 0 <= i < |s| && IsSpace(s[i]) ==> s[i] == ' ' && (i + 1 < |s| ==> !IsSpace(s[i + 1]))
  }

  predicate Trimmed(s: string) {
    s == [] || (!IsSpace(s[0]) && !IsSpace(s[|s| - 1]))
  }

  predicate IsNormal(a: Alphabet, s: string) {
    Spaced(s) && Trimmed(s) && forall c :: c in s ==> Allowed(a, c) && a.fixed(c)
  }

  lemma {:induction false} CollapseMembers(s: string)
    ensures forall c :: c in Collapse(s) ==> c in s || c == ' '
    decreases |s|
  {
    if s != [] {
      TrimLeftShorter(s);
      if IsSpace(s[0]) {
        CollapseMembers(TrimLeft(s));
      } else {
        CollapseMembers(s[1..]);
      }
    }
  }

  lemma {:induction false} CollapseSpaces(s: string)
    ensures Spaced(Collapse(s))
    ensures s != [] && !IsSpace(s[0]) ==> Collapse(s)[0] == s[0]
    decreases |s|
  {
    if s != [] {
      TrimLeftShorter(s);
      if IsSpace(s[0]) {
        CollapseSpaces(TrimLeft(s));
        SpacedCons(' ', Collapse(TrimLeft(s)));
      } else {
        CollapseSpaces(s[1..]);
        SpacedCons(s[0], Collapse(s[1..]));
      }
    }
  }

  lemma SpacedCons(c: char, s: string)
    requires Spaced(s) && (IsSpace(c) ==> c == ' ' && (s == [] || !IsSpace(s[0])))
    ensures Spaced([c] + s)
  {
    var t := [c] + s;
    assert forall i :: 1 <= i < |t| ==> t[i] == s[i - 1];
  }

  lemma {:induction false} TrimLeftKeeps(s: string)
    requires Spaced(s)
    ensures Spaced(TrimLeft(s))
  {
    if s != [] && IsSpace(s[0]) {
      assert Spaced(s[1..]) by {
        assert forall i :: 0 <= i < |s[1..]| ==> s[1..][i] == s[i + 1];
      }
      TrimLeftKeeps(s[1..]);
    }
  }

  lemma {:induction false} TrimRightKeeps(s: string)
    requires Spaced(s) && (s == [] || !IsSpace(s[0]))
    ensures Spaced(TrimRight(s)) && Trimmed(TrimRight(s))
    ensures forall c :: c in TrimRight(s) ==> c in s
    decreases |s|
  {
    if s != [] && IsSpace(s[|s| - 1]) {
      TrimRightKeeps(s[..|s| - 1]);
    }
  }

  lemma TrimKeeps(s: string)
    requires Spaced(s)
    ensures Spaced(Trim(s)) && Trimmed(Trim(s))
    ensures forall c :: c in Trim(s) ==> c in s
  {
    TrimLeftShorter(s);
    TrimLeftKeeps(s);
    TrimRightKeeps(TrimLeft(s));
  }

  lemma {:induction false} TrimRightMembers(s: string)
    ensures forall c :: c in TrimRight(s) ==> c in s
    decreases |s|
  {
    if s != [] && IsSpace(s[|s| - 1]) {
      TrimRightMembers(s[..|s| - 1]);
    }
  }

  lemma NormalizedIsNormal(a: Alphabet, text: string)
    requires Lawful(a)
    ensures IsNormal(a, NormalizeText(a, text))
  {
    var low := a.lower(text);
    var trimmed := Trim(low);
    TrimLeftShorter(low);
    TrimRightMembers(TrimLeft(low));
    var once := Collapse(trimmed);
    CollapseMembers(trimmed);
    assert forall c :: c in once ==> a.fixed(c);
    var plain := BlankOther(a, once);
    assert forall c :: c in plain ==> Allowed(a, c) && a.fixed(c);
    CollapseMembers(plain);
    CollapseSpaces(plain);
    TrimKeeps(Collapse(plain));
  }

  lemma {:induction false} CollapseOfSpaced(s: string)
    requires Spaced(s)
    ensures Collapse(s) == s
    decreases |s|
  {
    if s != [] {
      assert Spaced(s[1..]) by {
        assert forall i :: 0 <= i < |s[1..]| ==> s[1..][i] == s[i + 1];
      }
      CollapseOfSpaced(s[1..]);
      assert s == [s[0]] + s[1..];
      if IsSpace(s[0]) {
        assert TrimLeft(s) == s[1..];
      }
    }
  }

  /** Normalising twice is normalising once. */
  lemma NormalizeTextIdempotent(a: Alphabet, text: string)
    requires Lawful(a)
    ensures NormalizeText(a, NormalizeText(a, text)) == NormalizeText(a, text)
  {
    NormalizedIsNormal(a, text);
    NormalIsFixed(a, NormalizeText(a, text));
  }

  lemma NormalIsFixed(a: Alphabet, n: string)
    requires Lawful(a) && IsNormal(a, n)
    ensures NormalizeText(a, n) == n
  {
    assert a.lower(n) == n && Trim(n) == n;
    CollapseOfSpaced(n);
    assert BlankOther(a, n) == n by {
      assert forall i :: 0 <= i < |n| ==> n[i] in n;
    }
  }

  // ---------------------------------------------------------------- calculateSimilarity

  predicate OccursAt(s: string, t: string, i: nat) {
    i + |t| <= |s| && s[i..i + |t|] == t
  }

  predicate Includes(s: string, t: string) {
    exists i :: 0 <= i <= |s| && OccursAt(s, t, i)
  }

  function UntilSpace(s: string): (r: string)
    ensures |r| <= |s|
    ensures |r| < |s| ==> IsSpace(s[|r|])
  {
    if s == [] || IsSpace(s[0]) then [] else [s[0]] + UntilSpace(s[1..])
  }

  // split(/\s+/), as a set.
  function Words(s: string): (words: set<string>)
    ensures words != {}
    decreases |s|
  {
    var first := UntilSpace(s);
    if |first| == |s| then {first}
    else
      TrimLeftShorter(s[|first|..]);
      {first} + Words(TrimLeft(s[|first|..]))
  }

  function Jaccard(v: set<string>, w: set<string>): real
    requires v != {}
  {
    |v * w| as real / NonemptyUnion(v, w) as real
  }

  function NonemptyUnion(v: set<string>, w: set<string>): (n: nat)
    requires v != {}
    ensures n >= 1 && n == |v + w|
  {
    assert v + w != {};
    |v + w|
  }

  function Similarity(a: Alphabet, x: string, y: string): real {
    FormSimilarity(NormalizeText(a, x), NormalizeText(a, y))
  }

  function FormSimilarity(n: string, m: string): real {
    if n == m then 1.0
    else if Includes(n, m) || Includes(m, n) then 0.9
    else Jaccard(Words(n), Words(m))
  }

  const THRESHOLD := 0.85

  predicate Similar(a: Alphabet, x: string, y: string) {
    Similarity(a, x, y) >= THRESHOLD
  }

  lemma JaccardBounds(v: set<string>, w: set<string>)
    requires v != {} && w != {}
    ensures 0.0 <= Jaccard(v, w) <= 1.0 && Jaccard(v, w) == Jaccard(w, v)
  {
    assert v * w == w * v && v + w == w + v;
    SubsetSize(v * w, v + w);
    Quotient(|v * w|, |v + w|);
  }

  lemma {:induction false} SubsetSize(v: set<string>, w: set<string>)
    requires v <= w
    ensures |v| <= |w|
  {
    if v != {} {
      var x :| x in v;
      SubsetSize(v - {x}, w - {x});
    }
  }

  lemma Quotient(p: nat, q: nat)
    requires p <= q && q > 0
    ensures 0.0 <= p as real / q as real <= 1.0
  {
    var r := p as real / q as real;
    assert r * q as real == p as real;
  }

  // Similarity is symmetric, lies in [0, 1], and is 1 for names with the same normal form.
  lemma SimilarityBounds(a: Alphabet, x: string, y: string)
    ensures 0.0 <= Similarity(a, x, y) <= 1.0
    ensures Similarity(a, x, y) == Similarity(a, y, x)
    ensures NormalizeText(a, x) == NormalizeText(a, y) ==> Similarity(a, x, y) == 1.0
  {
    JaccardBounds(Words(NormalizeText(a, x)), Words(NormalizeText(a, y)));
  }

  // The filter compares normal forms, which comes to comparing the names.
  lemma SimilarityOfNormalForms(a: Alphabet, x: string, y: string)
    requires Lawful(a)
    ensures Similarity(a, NormalizeText(a, x), NormalizeText(a, y)) == Similarity(a, x, y)
  {
    NormalizeTextIdempotent(a, x);
    NormalizeTextIdempotent(a, y);
  }

  // ---------------------------------------------------------------- deduplicateMerchants

  predicate MatchesSome(a: Alphabet, name: string, kept: seq<string>) {
    exists i :: 0 <= i < |kept| && Similar(a, name, kept[i])
  }

  // Each name in turn is kept unless it is empty or similar to one kept before.
  function Deduplicated(a: Alphabet, names: seq<string>): seq<string> {
    if names == [] then []
    else
      var kept, name := Deduplicated(a, names[..|names| - 1]), names[|names| - 1];
      if name == "" || MatchesSome(a, name, kept) then kept else kept + [name]
  }

  // seen holds the normal forms of the names kept.
  ghost predicate SeenFor(a: Alphabet, seen: seq<string>, kept: seq<string>) {
    |seen| == |kept| && forall i :: 0 <= i < |seen| ==> seen[i] == NormalizeText(a, kept[i])
  }

  predicate SimilarToSome(a: Alphabet, normalized: string, seen: seq<string>) {
    exists i :: 0 <= i < |seen| && Similarity(a, normalized, seen[i]) >= THRESHOLD
  }

  lemma SeenDecides(a: Alphabet, name: string, seen: seq<string>, kept: seq<string>)
    requires Lawful(a) && SeenFor(a, seen, kept)
    ensures SimilarToSome(a, NormalizeText(a, name), seen) <==> MatchesSome(a, name, kept)
    ensures NormalizeText(a, name) in seen ==> MatchesSome(a, name, kept)
  {
    forall i | 0 <= i < |seen|
      ensures Similarity(a, NormalizeText(a, name), seen[i]) >= THRESHOLD <==> Similar(a, name, kept[i])
    {
      SimilarityOfNormalForms(a, name, kept[i]);
    }
    if NormalizeText(a, name) in seen {
      var i :| 0 <= i < |seen| && seen[i] == NormalizeText(a, name);
      SimilarityBounds(a, name, kept[i]);
    }
  }

  method FindMatch(a: Alphabet, normalized: string, seen: seq<string>) returns (foundMatch: bool)
    ensures foundMatch == SimilarToSome(a, normalized, seen)
  {
    foundMatch := false;
    for i := 0 to |seen|
      invariant foundMatch ==> SimilarToSome(a, normalized, seen)
      invariant !foundMatch ==> forall k :: 0 <= k < i ==> Similarity(a, normalized, seen[k]) < THRESHOLD
    {
      if Similarity(a, normalized, seen[i]) >= THRESHOLD {
        foundMatch := true;
        break;
      }
    }
  }

  // null and undefined are read as "". `seen` holds the keys of the source's map, in the order
  // in which they were set.
  method DeduplicateMerchants(a: Alphabet, names: seq<string>) returns (result: seq<string>)
    requires Lawful(a)
    ensures result == Deduplicated(a, names)
  {
    result := [];
    var seen: seq<string> := [];
    for p := 0 to |names|
      invariant result == Deduplicated(a, names[..p])
      invariant SeenFor(a, seen, result)
    {
      var name := names[p];
      assert names[..p + 1][..p] == names[..p];
      if name == "" { continue; }
      var normalized := NormalizeText(a, name);
      SeenDecides(a, name, seen, result);
      if normalized in seen { continue; }
      var foundMatch := FindMatch(a, normalized, seen);
      if !foundMatch {
        seen := seen + [normalized];
        result := result + [name];
      }
    }
    assert names[..|names|] == names;
  }

  // ---------------------------------------------------------------- what the filter guarantees

  predicate IsSubsequence(a: seq<string>, b: seq<string>)
    decreases |b|
  {
    a == [] || (b != [] && (IsSubsequence(a, b[..|b| - 1])
                            || (a[|a| - 1] == b[|b| - 1] && IsSubsequence(a[..|a| - 1], b[..|b| - 1]))))
  }

  ghost predicate PairwiseDistinct(a: Alphabet, kept: seq<string>) {
    forall i, j :: 0 <= i < |kept| && 0 <= j < |kept| && i != j ==> !Similar(a, kept[i], kept[j])
  }

  /** The result is a subsequence of the names, without empty ones, no two of them similar. */
  lemma {:induction false} KeptAreDistinct(a: Alphabet, names: seq<string>)
    ensures IsSubsequence(Deduplicated(a, names), names)
    ensures "" !in Deduplicated(a, names)
    ensures PairwiseDistinct(a, Deduplicated(a, names))
  {
    if names != [] {
      KeptAreDistinct(a, names[..|names| - 1]);
      var kept, name := Deduplicated(a, names[..|names| - 1]), names[|names| - 1];
      if name != "" && !MatchesSome(a, name, kept) {
        forall i | 0 <= i < |kept| ensures !Similar(a, name, kept[i]) && !Similar(a, kept[i], name) {
          SimilarityBounds(a, name, kept[i]);
        }
        assert (kept + [name])[..|kept|] == kept;
      }
    }
  }

  lemma {:induction false} KeptGrows(a: Alphabet, names: seq<string>, p: nat)
    requires p <= |names|
    ensures Deduplicated(a, names[..p]) <= Deduplicated(a, names)
  {
    if p < |names| {
      KeptGrows(a, names[..|names| - 1], p);
      assert names[..|names| - 1][..p] == names[..p];
    } else {
      assert names[..p] == names;
    }
  }

  /** Every name that is not empty is similar to one kept no later than it. */
  lemma EveryNameIsCovered(a: Alphabet, names: seq<string>, p: nat)
    requires p < |names| && names[p] != ""
    ensures MatchesSome(a, names[p], Deduplicated(a, names[..p + 1]))
    ensures Deduplicated(a, names[..p + 1]) <= Deduplicated(a, names)
    ensures names[p] !in Deduplicated(a, names) ==> MatchesSome(a, names[p], Deduplicated(a, names[..p]))
  {
    KeptGrows(a, names, p + 1);
    var kept := Deduplicated(a, names[..p]);
    assert names[..p + 1][..p] == names[..p];
    SimilarityBounds(a, names[p], names[p]);
    var after := Deduplicated(a, names[..p + 1]);
    if MatchesSome(a, names[p], kept) {
      assert after == kept;
    } else {
      assert after == kept + [names[p]] && after[|kept|] == names[p];
      assert names[p] in after;
    }
  }

  lemma FrontIsDistinct(a: Alphabet, front: seq<string>, name: string)
    requires PairwiseDistinct(a, front + [name])
    ensures PairwiseDistinct(a, front) && !MatchesSome(a, name, front)
  {
    var names := front + [name];
    assert forall i :: 0 <= i < |front| ==> names[i] == front[i];
    assert names[|front|] == name;
  }

  lemma {:induction false} DistinctAreAllKept(a: Alphabet, names: seq<string>)
    requires "" !in names && PairwiseDistinct(a, names)
    ensures Deduplicated(a, names) == names
  {
    if names != [] {
      var front, name := names[..|names| - 1], names[|names| - 1];
      assert names == front + [name] && name in names;
      FrontIsDistinct(a, front, name);
      DistinctAreAllKept(a, front);
    }
  }

  /** Running it twice changes nothing. */
  lemma {:induction false} DeduplicateTwice(a: Alphabet, names: seq<string>)
    ensures Deduplicated(a, Deduplicated(a, names)) == Deduplicated(a, names)
  {
    KeptAreDistinct(a, names);
    DistinctAreAllKept(a, Deduplicated(a, names));
  }

  // ---------------------------------------------------------------- names that match every other

  // Lower case changes neither sign.
  predicate SignsFixed(a: Alphabet) {
    a.fixed('&') && a.fixed('.')
  }

  function Repeat(c: char, k: nat): (s: string)
    ensures |s| == k && forall i :: 0 <= i < k ==> s[i] == c
  {
    seq(k, _ => c)
  }

  lemma SignsAreNormal(a: Alphabet, c: char, k: nat)
    requires Lawful(a) && SignsFixed(a) && (c == '&' || c == '.')
    ensures NormalizeText(a, Repeat(c, k)) == Repeat(c, k)
  {
    assert IsNormal(a, Repeat(c, k));
    NormalIsFixed(a, Repeat(c, k));
  }

  lemma {:induction false} WordsAreShort(s: string)
    ensures forall w :: w in Words(s) ==> |w| <= |s|
    decreases |s|
  {
    var first := UntilSpace(s);
    if |first| < |s| {
      TrimLeftShorter(s[|first|..]);
      WordsAreShort(TrimLeft(s[|first|..]));
    }
  }

  lemma {:induction false} UntilSpaceOfSpaceless(s: string)
    requires forall c :: c in s ==> !IsSpace(c)
    ensures UntilSpace(s) == s
  {
    if s != [] {
      UntilSpaceOfSpaceless(s[1..]);
      assert s == [s[0]] + s[1..];
    }
  }

  lemma OccursWithHead(s: string, t: string, i: nat)
    requires t != []
    ensures OccursAt(s, t, i) ==> i < |s| && s[i] == t[0]
  {
    assert OccursAt(s, t, i) ==> s[i..i + |t|][0] == s[i];
  }

  // A text of one sign, longer than n, that n does not start with, has nothing in common with n.
  lemma NothingShared(n: string, c: char)
    requires n != [] && n[0] != c && !IsSpace(c)
    ensures var m := Repeat(c, |n| + 1);
      m != n && !Includes(m, n) && !Includes(n, m) && Words(m) * Words(n) == {}
  {
    var m := Repeat(c, |n| + 1);
    forall i | 0 <= i <= |m| ensures !OccursAt(m, n, i) {
      OccursWithHead(m, n, i);
    }
    UntilSpaceOfSpaceless(m);
    assert Words(m) == {m};
    WordsAreShort(n);
  }

  function Stranger(n: string): (m: string) {
    Repeat(if n != [] && n[0] == '&' then '.' else '&', |n| + 1)
  }

  lemma DisjointJaccard(v: set<string>, w: set<string>)
    requires v != {} && v * w == {}
    ensures Jaccard(v, w) == 0.0
  {
    assert |v * w| == 0;
    NoneOfSome(NonemptyUnion(v, w));
  }

  lemma NoneOfSome(n: nat)
    requires n > 0
    ensures 0 as real / n as real == 0.0
  {
    Quotient(0, n);
  }

  // A form and its stranger have nothing in common.
  lemma StrangerForms(n: string)
    requires n != ""
    ensures FormSimilarity(Stranger(n), n) == 0.0
  {
    var m := Stranger(n);
    NothingShared(n, if n[0] == '&' then '.' else '&');
    DisjointJaccard(Words(m), Words(n));
  }

  lemma StrangerIsNormal(a: Alphabet, n: string)
    requires Lawful(a) && SignsFixed(a)
    ensures NormalizeText(a, Stranger(n)) == Stranger(n)
  {
    SignsAreNormal(a, if n != [] && n[0] == '&' then '.' else '&', |n| + 1);
  }

  lemma StrangerIsUnlike(a: Alphabet, x: string)
    requires Lawful(a) && SignsFixed(a) && NormalizeText(a, x) != ""
    ensures !Similar(a, Stranger(NormalizeText(a, x)), x)
  {
    var n := NormalizeText(a, x);
    StrangerIsNormal(a, n);
    StrangerForms(n);
  }

  lemma EmptyFormMatches(a: Alphabet, y: string, x: string)
    requires NormalizeText(a, x) == ""
    ensures Similar(a, y, x)
  {
    assert OccursAt(NormalizeText(a, y), "", 0);
  }

  /** A name matches every other iff its normal form is empty: if it is made of signs that normalising drops. */
  lemma MatchesAllIffEmptyForm(a: Alphabet, x: string)
    requires Lawful(a) && SignsFixed(a)
    ensures (forall y :: Similar(a, y, x)) <==> NormalizeText(a, x) == ""
  {
    if NormalizeText(a, x) == "" {
      forall y ensures Similar(a, y, x) {
        EmptyFormMatches(a, y, x);
      }
    } else {
      StrangerIsUnlike(a, x);
    }
  }

  ghost predicate HoldsEmptyForm(a: Alphabet, kept: seq<string>) {
    exists i :: 0 <= i < |kept| && NormalizeText(a, kept[i]) == ""
  }

  lemma OneMoreSwallowed(a: Alphabet, kept: seq<string>, name: string)
    requires HoldsEmptyForm(a, kept)
    ensures MatchesSome(a, name, kept)
  {
    var i :| 0 <= i < |kept| && NormalizeText(a, kept[i]) == "";
    EmptyFormMatches(a, name, kept[i]);
  }

  lemma DeduplicatedNext(a: Alphabet, names: seq<string>, name: string)
    requires MatchesSome(a, name, Deduplicated(a, names))
    ensures Deduplicated(a, names + [name]) == Deduplicated(a, names)
  {
    assert (names + [name])[..|names|] == names;
  }

  // Behind a kept name with an empty normal form nothing is kept, wherever it stands.
  lemma {:induction false} NothingKeptBehind(a: Alphabet, names: seq<string>, more: seq<string>)
    requires HoldsEmptyForm(a, Deduplicated(a, names))
    ensures Deduplicated(a, names + more) == Deduplicated(a, names)
    decreases |more|
  {
    if more == [] {
      assert names + more == names;
    } else {
      var front, name := more[..|more| - 1], more[|more| - 1];
      NothingKeptBehind(a, names, front);
      OneMoreSwallowed(a, Deduplicated(a, names), name);
      DeduplicatedNext(a, names + front, name);
      LastApart(names, more);
    }
  }

  lemma LastApart(names: seq<string>, more: seq<string>)
    requires more != []
    ensures names + more == names + more[..|more| - 1] + [more[|more| - 1]]
  {
  }

  lemma OneName(a: Alphabet, x: string)
    requires x != ""
    ensures Deduplicated(a, [x]) == [x]
  {
    assert [x][..0] == [] && Deduplicated(a, []) == [];
  }

  /** A first name swallows whatever follows it iff its normal form is empty. */
  lemma FirstTakesAllIff(a: Alphabet, x: string)
    requires Lawful(a) && SignsFixed(a) && x != ""
    ensures (forall more :: Deduplicated(a, [x] + more) == [x]) <==> NormalizeText(a, x) == ""
  {
    OneName(a, x);
    if NormalizeText(a, x) == "" {
      forall more ensures Deduplicated(a, [x] + more) == [x] {
        assert HoldsEmptyForm(a, [x]) by {
          assert [x][0] == x;
        }
        NothingKeptBehind(a, [x], more);
      }
    } else {
      var y := Stranger(NormalizeText(a, x));
      StrangerIsUnlike(a, x);
      assert ([x] + [y])[..1] == [x];
      assert Deduplicated(a, [x] + [y]) == [x] + [y];
    }
  }
}
