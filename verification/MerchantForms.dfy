/** Normal forms and similarity of backend/utils/merchant-normalizer.ts, told by the words of a name. */
module MerchantForms {
  import opened Merchants
  import opened Seqs
  import opened Text

  // ---------------------------------------------------------------- the words of a text

  // The maximal runs of characters to keep, in order.
  function Pieces(keep: char -> bool, s: string): (r: seq<string>)
    ensures s != [] && keep(s[0]) ==> r != []
  {
    if s == [] then []
    else if !keep(s[0]) then Pieces(keep, s[1..])
    else if |s| == 1 || !keep(s[1]) then [[s[0]]] + Pieces(keep, s[1..])
    else
      var r := Pieces(keep, s[1..]);
      [[s[0]] + r[0]] + r[1..]
  }

  function JoinBlank(words: seq<string>): string {
    if words == [] then [] else if |words| == 1 then words[0] else words[0] + [' '] + JoinBlank(words[1..])
  }

  function NoSpace(): char -> bool {
    c => !IsSpace(c)
  }

  // Letters, digits and the four signs & . + - are kept; everything else separates words.
  function Kept(a: Alphabet): char -> bool {
    c => !IsSpace(c) && (a.word(c) || c in ['&', '.', '+', '-'])
  }

  // The words of a name.
  function WordsOf(a: Alphabet, name: string): seq<string> {
    Pieces(Kept(a), a.lower(name))
  }

  // Every space separates.
  ghost predicate SpacesSeparate(keep: char -> bool) {
    forall c :: IsSpace(c) ==> !keep(c)
  }

  lemma {:induction false} PiecesMap(k: char -> bool, s: string, l: char -> bool, t: string)
    requires |s| == |t|
    requires forall i :: 0 <= i < |s| ==> (k(s[i]) <==> l(t[i])) && (k(s[i]) ==> s[i] == t[i])
    ensures Pieces(k, s) == Pieces(l, t)
  {
    if s != [] {
      PiecesMap(k, s[1..], l, t[1..]);
    }
  }

  lemma {:induction false} GapAtEnd(k: char -> bool, s: string, c: char)
    requires !k(c)
    ensures Pieces(k, s + [c]) == Pieces(k, s)
  {
    if s == [] {
      assert [] + [c] == [c] && [c][1..] == [];
    } else {
      GapAtEnd(k, s[1..], c);
      var t := s + [c];
      assert t[0] == s[0] && t[1..] == s[1..] + [c];
      assert t[1] == if |s| == 1 then c else s[1];
    }
  }

  lemma {:induction false} PiecesTrimLeft(k: char -> bool, s: string)
    requires SpacesSeparate(k)
    ensures Pieces(k, TrimLeft(s)) == Pieces(k, s)
  {
    if s != [] && IsSpace(s[0]) {
      PiecesTrimLeft(k, s[1..]);
    }
  }

  lemma {:induction false} PiecesTrimRight(k: char -> bool, s: string)
    requires SpacesSeparate(k)
    ensures Pieces(k, TrimRight(s)) == Pieces(k, s)
  {
    if s != [] && IsSpace(s[|s| - 1]) {
      var front := s[..|s| - 1];
      PiecesTrimRight(k, front);
      GapAtEnd(k, front, s[|s| - 1]);
      assert s == front + [s[|s| - 1]];
    }
  }

  lemma PiecesTrim(k: char -> bool, s: string)
    requires SpacesSeparate(k)
    ensures Pieces(k, Trim(s)) == Pieces(k, s)
  {
    PiecesTrimLeft(k, s);
    PiecesTrimRight(k, TrimLeft(s));
  }

  lemma GapInFront(k: char -> bool, c: char, s: string)
    requires !k(c)
    ensures Pieces(k, [c] + s) == Pieces(k, s)
  {
    assert ([c] + s)[1..] == s;
  }

  lemma CollapseHead(s: string)
    ensures s == [] <==> Collapse(s) == []
    ensures s != [] ==> Collapse(s)[0] == if IsSpace(s[0]) then ' ' else s[0]
  {
  }

  // The same first character in front of texts with the same pieces, both of which begin with a gap
  // or both of which do not.
  lemma SameInFront(k: char -> bool, c: char, s: string, t: string)
    requires k(c) && Pieces(k, s) == Pieces(k, t)
    requires (s != [] && k(s[0])) <==> (t != [] && k(t[0]))
    ensures Pieces(k, [c] + s) == Pieces(k, [c] + t)
  {
    assert ([c] + s)[1..] == s && ([c] + t)[1..] == t;
  }

  lemma {:induction false} PiecesCollapse(k: char -> bool, s: string)
    requires SpacesSeparate(k)
    ensures Pieces(k, Collapse(s)) == Pieces(k, s)
    decreases |s|
  {
    if s != [] {
      TrimLeftShorter(s);
      assert s == [s[0]] + s[1..];
      if IsSpace(s[0]) {
        PiecesCollapse(k, TrimLeft(s));
        PiecesTrimLeft(k, s);
        GapInFront(k, ' ', Collapse(TrimLeft(s)));
      } else {
        PiecesCollapse(k, s[1..]);
        CollapseHead(s[1..]);
        if k(s[0]) {
          SameInFront(k, s[0], Collapse(s[1..]), s[1..]);
        } else {
          GapInFront(k, s[0], Collapse(s[1..]));
        }
      }
    }
  }

  // ---------------------------------------------------------------- the normal form

  lemma SpacedTail(s: string, d: nat)
    requires Spaced(s) && d <= |s|
    ensures Spaced(s[d..])
  {
    assert forall i :: 0 <= i < |s[d..]| ==> s[d..][i] == s[d + i];
  }

  lemma JoinLonger(c: char, words: seq<string>)
    requires words != []
    ensures JoinBlank([[c] + words[0]] + words[1..]) == [c] + JoinBlank(words)
  {
    var longer := [[c] + words[0]] + words[1..];
    assert longer[1..] == words[1..];
    if |words| > 1 {
      Assoc([c], words[0], [' ']);
      Assoc([c], words[0] + [' '], JoinBlank(words[1..]));
    }
  }

  lemma JoinMore(word: string, words: seq<string>)
    requires words != []
    ensures JoinBlank([word] + words) == word + [' '] + JoinBlank(words)
  {
    assert ([word] + words)[1..] == words;
  }

  // A text with single blanks between its words is its words, joined.
  lemma {:induction false} JoinedPieces(s: string)
    requires Spaced(s) && Trimmed(s)
    ensures JoinBlank(Pieces(NoSpace(), s)) == s
  {
    if s == [] {
    } else if |s| == 1 {
      assert s[1..] == [] && s == [s[0]];
    } else if IsSpace(s[1]) {
      SpacedTail(s, 2);
      JoinedPieces(s[2..]);
      assert s[1..][1..] == s[2..] && s == [s[0]] + [' '] + s[2..];
      JoinMore([s[0]], Pieces(NoSpace(), s[2..]));
    } else {
      SpacedTail(s, 1);
      JoinedPieces(s[1..]);
      JoinLonger(s[0], Pieces(NoSpace(), s[1..]));
      assert s == [s[0]] + s[1..];
    }
  }

  lemma PlainPieces(a: Alphabet, s: string)
    ensures Pieces(NoSpace(), BlankOther(a, s)) == Pieces(Kept(a), s)
  {
    PiecesMap(NoSpace(), BlankOther(a, s), Kept(a), s);
  }

  lemma FormPieces(a: Alphabet, name: string)
    ensures Pieces(NoSpace(), NormalizeText(a, name)) == WordsOf(a, name)
  {
    var low := a.lower(name);
    var once := Collapse(Trim(low));
    PiecesTrim(Kept(a), low);
    PiecesCollapse(Kept(a), Trim(low));
    PlainPieces(a, once);
    PiecesCollapse(NoSpace(), BlankOther(a, once));
    PiecesTrim(NoSpace(), Collapse(BlankOther(a, once)));
  }

  /** The normal form of a name: its words, joined by single blanks. */
  lemma FormIsJoinedWords(a: Alphabet, name: string)
    requires Lawful(a)
    ensures NormalizeText(a, name) == JoinBlank(WordsOf(a, name))
  {
    NormalizedIsNormal(a, name);
    FormPieces(a, name);
    JoinedPieces(NormalizeText(a, name));
  }

  // ---------------------------------------------------------------- similarity

  // t stands somewhere in s.
  ghost predicate Occurs(t: string, s: string) {
    exists before, after :: s == before + t + after
  }

  function SetOf(words: seq<string>): set<string> {
    set w | w in words
  }

  // Both names are the same words, or one is part of the other, or of all their different words at
  // least seventeen in twenty are common to both.
  ghost predicate Alike(p: seq<string>, q: seq<string>) {
    || JoinBlank(p) == JoinBlank(q) || Occurs(JoinBlank(p), JoinBlank(q)) || Occurs(JoinBlank(q), JoinBlank(p))
    || 20 * |SetOf(p) * SetOf(q)| >= 17 * |SetOf(p) + SetOf(q)|
  }

  lemma {:induction false} FirstPiece(s: string)
    requires s != [] && !IsSpace(s[0])
    ensures Pieces(NoSpace(), s) == [UntilSpace(s)] + Pieces(NoSpace(), s[|UntilSpace(s)|..])
  {
    var rest := s[1..];
    if rest == [] || IsSpace(rest[0]) {
      assert UntilSpace(rest) == [] && UntilSpace(s) == [s[0]] && s[1..] == rest;
      assert |s| > 1 ==> s[1] == rest[0];
    } else {
      FirstPiece(rest);
      assert s[|UntilSpace(s)|..] == rest[|UntilSpace(rest)|..];
    }
  }

  lemma {:induction false} TrimLeftKeepsEnd(s: string)
    requires s != [] && !IsSpace(s[|s| - 1])
    ensures TrimLeft(s) != [] && TrimLeft(s)[|TrimLeft(s)| - 1] == s[|s| - 1]
  {
    if IsSpace(s[0]) {
      assert |s| > 1;
      TrimLeftKeepsEnd(s[1..]);
    }
  }

  lemma NoPieces()
    ensures Pieces(NoSpace(), []) == []
  {
  }

  lemma {:induction false} WordsArePieces(s: string)
    requires s != [] && !IsSpace(s[0]) && !IsSpace(s[|s| - 1])
    ensures Words(s) == SetOf(Pieces(NoSpace(), s))
    decreases |s|
  {
    var first := UntilSpace(s);
    FirstPiece(s);
    if |first| == |s| {
      WholeIsFirst(s);
    } else {
      var rest := s[|first|..];
      TrimLeftShorter(rest);
      TrimLeftKeepsEnd(rest);
      PiecesTrimLeft(NoSpace(), rest);
      WordsArePieces(TrimLeft(rest));
      SetOfCons(first, Pieces(NoSpace(), rest));
    }
  }

  lemma SetOfCons(w: string, words: seq<string>)
    ensures SetOf([w] + words) == {w} + SetOf(words)
  {
    forall x ensures x in SetOf([w] + words) <==> x in {w} + SetOf(words) {
      assert x in [w] + words <==> x == w || x in words;
    }
  }

  lemma WholeIsFirst(s: string)
    requires s != [] && !IsSpace(s[0]) && |UntilSpace(s)| == |s|
    ensures Words(s) == SetOf(Pieces(NoSpace(), s))
  {
    FirstPiece(s);
    NoPieces();
    assert s[|s|..] == [];
    SetOfCons(UntilSpace(s), []);
    assert SetOf([]) == {};
  }

  lemma IncludesIff(s: string, t: string)
    ensures Includes(s, t) <==> Occurs(t, s)
  {
    if i :| 0 <= i <= |s| && OccursAt(s, t, i) {
      assert s == s[..i] + t + s[i + |t|..];
    }
    if before, after :| s == before + t + after {
      assert OccursAt(s, t, |before|);
    }
  }

  lemma Scaled(x: real, y: real, q: real)
    requires q > 0.0
    ensures x >= y <==> x * q >= y * q
  {
    if x >= y {
      assert (x - y) * q >= 0.0;
    } else {
      assert (y - x) * q > 0.0;
    }
  }

  lemma SeventeenTwentieths(p: nat, q: nat)
    requires q > 0
    ensures p as real / q as real >= 0.85 <==> 20 * p >= 17 * q
  {
    var r := p as real / q as real;
    Scaled(r, 0.85, q as real);
    assert r * q as real == p as real;
    assert 20.0 * p as real == (20 * p) as real && 17.0 * q as real == (17 * q) as real;
  }

  lemma FormSimilarityIff(n: string, m: string)
    requires Trimmed(n) && Trimmed(m)
    ensures FormSimilarity(n, m) >= 0.85
       <==> n == m || Occurs(n, m) || Occurs(m, n)
            || 20 * |SetOf(Pieces(NoSpace(), n)) * SetOf(Pieces(NoSpace(), m))|
               >= 17 * |SetOf(Pieces(NoSpace(), n)) + SetOf(Pieces(NoSpace(), m))|
  {
    IncludesIff(n, m);
    IncludesIff(m, n);
    if n != m && !Occurs(n, m) && !Occurs(m, n) {
      EmptyOccurs(n);
      EmptyOccurs(m);
      WordsArePieces(n);
      WordsArePieces(m);
      var v, w := Words(n), Words(m);
      SeventeenTwentieths(|v * w|, NonemptyUnion(v, w));
    }
  }

  lemma EmptyOccurs(s: string)
    ensures Occurs([], s)
  {
    assert s == [] + [] + s;
  }

  /** Two names are similar iff they are alike by their words. */
  lemma SimilarIff(a: Alphabet, x: string, y: string)
    requires Lawful(a)
    ensures Similar(a, x, y) <==> Alike(WordsOf(a, x), WordsOf(a, y))
  {
    NormalizedIsNormal(a, x);
    NormalizedIsNormal(a, y);
    FormIsJoinedWords(a, x);
    FormIsJoinedWords(a, y);
    FormPieces(a, x);
    FormPieces(a, y);
    FormSimilarityIff(NormalizeText(a, x), NormalizeText(a, y));
  }

  // ---------------------------------------------------------------- what the filter does with one more name

  ghost predicate AlikeToSome(a: Alphabet, name: string, kept: seq<string>) {
    exists i :: 0 <= i < |kept| && Alike(WordsOf(a, name), WordsOf(a, kept[i]))
  }

  lemma MatchesSomeIff(a: Alphabet, name: string, kept: seq<string>)
    requires Lawful(a)
    ensures MatchesSome(a, name, kept) <==> AlikeToSome(a, name, kept)
  {
    forall i | 0 <= i < |kept| ensures Similar(a, name, kept[i]) <==> Alike(WordsOf(a, name), WordsOf(a, kept[i])) {
      SimilarIff(a, name, kept[i]);
    }
  }

  /** One more name is kept iff it is not empty and alike to none kept before. */
  lemma KeptIff(a: Alphabet, names: seq<string>, name: string)
    requires Lawful(a)
    ensures var kept := Deduplicated(a, names);
      Deduplicated(a, names + [name]) == if name == "" || AlikeToSome(a, name, kept) then kept else kept + [name]
  {
    assert (names + [name])[..|names|] == names;
    MatchesSomeIff(a, name, Deduplicated(a, names));
  }

  /** A name that contains a kept one, or is contained in it, is dropped. */
  lemma ContainedIsDropped(a: Alphabet, names: seq<string>, name: string, i: nat)
    requires Lawful(a) && i < |Deduplicated(a, names)|
    requires var n, m := JoinBlank(WordsOf(a, name)), JoinBlank(WordsOf(a, Deduplicated(a, names)[i]));
      Occurs(n, m) || Occurs(m, n)
    ensures Deduplicated(a, names + [name]) == Deduplicated(a, names)
  {
    KeptIff(a, names, name);
    assert Alike(WordsOf(a, name), WordsOf(a, Deduplicated(a, names)[i]));
  }

  /** The same words in another order, or more often, are dropped. */
  lemma SameWordsAreDropped(a: Alphabet, names: seq<string>, name: string, i: nat)
    requires Lawful(a) && i < |Deduplicated(a, names)|
    requires SetOf(WordsOf(a, name)) == SetOf(WordsOf(a, Deduplicated(a, names)[i]))
    ensures Deduplicated(a, names + [name]) == Deduplicated(a, names)
  {
    KeptIff(a, names, name);
    var p, q := WordsOf(a, name), WordsOf(a, Deduplicated(a, names)[i]);
    assert SetOf(p) * SetOf(q) == SetOf(p) == SetOf(p) + SetOf(q);
    assert Alike(p, q);
  }
}
