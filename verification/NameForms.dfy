/**
  What normalizeName of client/lib/duplicate-detection.ts makes of a name, told from its characters.
 */
module NameForms {
  import opened Seqs
  import opened Text
  import opened GreedyClusters
  import opened DuplicateDetection

  // ---------------------------------------------------------------- letters and digits

  // What is left of one character. Two signs outside ASCII have an ASCII letter for lower case.
  function KeptOf(c: char): string {
    if 'a' <= c <= 'z' || '0' <= c <= '9' then [c]
    else if 'A' <= c <= 'Z' then [(c as int - 'A' as int + 'a' as int) as char]
    else if c == '\U{212A}' then ['k']
    else if c == '\U{130}' then ['i']
    else []
  }

  // The letters and digits of a name, lowered, in order.
  function LettersAndDigits(name: string): string {
    if name == [] then [] else KeptOf(name[0]) + LettersAndDigits(name[1..])
  }

  lemma KeptOfOne(c: char)
    ensures Filter(IsLowerAlnum, LowerChar(c)) == KeptOf(c)
  {
    var lower := LowerChar(c);
    assert lower == [lower[0]] + lower[1..];
    if c == '\U{130}' {
      assert lower[1..] == ['\U{307}'] && Filter(IsLowerAlnum, ['\U{307}']) == [];
    } else {
      assert lower[1..] == [];
    }
    FilterCons(IsLowerAlnum, lower[0], lower[1..]);
  }

  lemma {:induction false} KeptFromLower(name: string)
    ensures Filter(IsLowerAlnum, ToLower(name)) == LettersAndDigits(name)
  {
    if name != [] {
      KeptFromLower(name[1..]);
      KeptOfOne(name[0]);
      FilterAppend(IsLowerAlnum, LowerChar(name[0]), ToLower(name[1..]));
    }
  }

  // ---------------------------------------------------------------- plan suffixes

  const PLAN_WORDS: seq<string> :=
    ["plus", "pro", "premium", "basic", "standard", "enterprise", "team", "business"]

  // Each letter as it is, or as the capital that stands for it.
  predicate Spells(word: string, plan: string) {
    |word| == |plan| && forall i :: 0 <= i < |word| ==> word[i] == plan[i] || word[i] as int + 32 == plan[i] as int
  }

  ghost predicate IsPlanSpelling(word: string) {
    exists i :: 0 <= i < |PLAN_WORDS| && Spells(word, PLAN_WORDS[i])
  }

  predicate AllSpace(s: string) {
    forall c :: c in s ==> IsSpace(c)
  }

  predicate NoSpaceAtEnd(s: string) {
    s == [] || !IsSpace(s[|s| - 1])
  }

  // The name is base, white space, and one of the words in any spelling.
  ghost predicate IsPlanOf(name: string, base: string, spaces: string, word: string) {
    && name == base + (spaces + word)
    && NoSpaceAtEnd(base) && spaces != [] && AllSpace(spaces) && IsPlanSpelling(word)
  }

  lemma PlanWordsAre(word: string)
    ensures IsPlanWord(word) <==> word in PLAN_WORDS
  {
    if IsPlanWord(word) {
      var p :| PlanWord(p) == word;
      var i := match p case Plus => 0 case Pro => 1 case Premium => 2 case Basic => 3
                       case Standard => 4 case Enterprise => 5 case Team => 6 case Business => 7;
      assert PLAN_WORDS[i] == word;
    }
    if word in PLAN_WORDS {
      var i :| 0 <= i < |PLAN_WORDS| && PLAN_WORDS[i] == word;
      var p := if i == 0 then Plus else if i == 1 then Pro else if i == 2 then Premium else if i == 3 then Basic
               else if i == 4 then Standard else if i == 5 then Enterprise else if i == 6 then Team else Business;
      assert PlanWord(p) == word;
    }
  }

  // Lower-case letters that no sign outside ASCII lowers to.
  predicate PlainLetters(plan: string) {
    forall i :: 0 <= i < |plan| ==> 'a' <= plan[i] <= 'z' && plan[i] != 'k'
  }

  lemma PlanWordsArePlain(i: nat)
    requires i < |PLAN_WORDS|
    ensures PlainLetters(PLAN_WORDS[i]) && PLAN_WORDS[i] != []
  {
  }

  lemma {:induction false} LowerSpells(word: string, plan: string)
    requires PlainLetters(plan)
    ensures ToLower(word) == plan <==> Spells(word, plan)
    decreases |word|
  {
    if word != [] {
      var first := LowerChar(word[0]);
      if plan == [] {
        assert first != [];
      } else {
        LowerSpells(word[1..], plan[1..]);
        assert ToLower(word) == first + ToLower(word[1..]);
        assert plan == [plan[0]] + plan[1..];
        FirstLetter(word[0], ToLower(word[1..]), plan);
        SpellsNext(word, plan);
      }
    }
  }

  lemma FirstLetter(c: char, rest: string, plan: string)
    requires PlainLetters(plan) && plan != []
    ensures LowerChar(c) + rest == plan
       <==> (c == plan[0] || c as int + 32 == plan[0] as int) && rest == plan[1..]
  {
    var all := LowerChar(c) + rest;
    assert plan == [plan[0]] + plan[1..];
    if c == '\U{130}' {
      assert all[1] == '\U{307}';
    } else {
      assert |LowerChar(c)| == 1 && all[0] == LowerChar(c)[0] && all[1..] == rest;
    }
  }

  lemma SpellsNext(word: string, plan: string)
    requires word != [] && plan != []
    ensures Spells(word, plan)
       <==> (word[0] == plan[0] || word[0] as int + 32 == plan[0] as int) && Spells(word[1..], plan[1..])
  {
    assert forall i :: 1 <= i < |word| ==> word[i] == word[1..][i - 1];
    assert forall i :: 1 <= i < |plan| ==> plan[i] == plan[1..][i - 1];
  }

  lemma LowerIsPlanWord(word: string)
    ensures IsPlanWord(ToLower(word)) <==> IsPlanSpelling(word)
  {
    PlanWordsAre(ToLower(word));
    forall i | 0 <= i < |PLAN_WORDS| ensures ToLower(word) == PLAN_WORDS[i] <==> Spells(word, PLAN_WORDS[i]) {
      PlanWordsArePlain(i);
      LowerSpells(word, PLAN_WORDS[i]);
    }
  }

  // ---------------------------------------------------------------- white space in lower case

  lemma {:induction false} LowerAppend(a: string, b: string)
    ensures ToLower(a + b) == ToLower(a) + ToLower(b)
  {
    if a == [] {
      assert a + b == b;
    } else {
      LowerAppend(a[1..], b);
      LowerCons(a[0], a[1..] + b);
      Assoc([a[0]], a[1..], b);
      assert a == [a[0]] + a[1..];
      Assoc(LowerChar(a[0]), ToLower(a[1..]), ToLower(b));
    }
  }

  lemma LowerCons(c: char, s: string)
    ensures ToLower([c] + s) == LowerChar(c) + ToLower(s)
  {
    assert ([c] + s)[1..] == s;
  }

  lemma LowerSnoc(s: string, c: char)
    ensures ToLower(s + [c]) == ToLower(s) + LowerChar(c)
  {
    LowerAppend(s, [c]);
    LowerCons(c, []);
    assert [c] + [] == [c];
  }

  lemma LowerKeepsSpace(c: char)
    ensures if IsSpace(c) then LowerChar(c) == [c] else forall d :: d in LowerChar(c) ==> !IsSpace(d)
    ensures LowerChar(c) != []
  {
  }

  lemma {:induction false} SkipWord(a: string, w: string)
    requires forall c :: c in w ==> !IsSpace(c)
    ensures LastWordStart(a + w) == LastWordStart(a)
    decreases |w|
  {
    if w == [] {
      assert a + w == a;
    } else {
      var front, last := w[..|w| - 1], w[|w| - 1];
      assert last in w;
      SkipWord(a, front);
      WordGoesOn(a + front, last);
      Assoc(a, front, [last]);
      assert w == front + [last];
    }
  }

  lemma WordGoesOn(a: string, c: char)
    requires !IsSpace(c)
    ensures LastWordStart(a + [c]) == LastWordStart(a)
  {
    assert (a + [c])[..|a|] == a;
  }

  // The last word of a name and that of its lower case begin at the same place.
  lemma {:induction false} LastWordOfLower(name: string)
    ensures LastWordStart(ToLower(name)) == |ToLower(name[..LastWordStart(name)])|
  {
    if name == [] {
      assert name[..0] == [];
    } else {
      var front, last := name[..|name| - 1], name[|name| - 1];
      assert name == front + [last];
      LowerSnoc(front, last);
      LowerKeepsSpace(last);
      if IsSpace(last) {
        assert name[..|name|] == name;
      } else {
        LastWordOfLower(front);
        WordGoesOn(front, last);
        SkipWord(ToLower(front), LowerChar(last));
        assert name[..LastWordStart(name)] == front[..LastWordStart(front)];
      }
    }
  }

  lemma {:induction false} TrimRightOfLower(s: string)
    ensures TrimRight(ToLower(s)) == ToLower(TrimRight(s))
  {
    if s != [] {
      var front, last := s[..|s| - 1], s[|s| - 1];
      assert s == front + [last];
      LowerSnoc(front, last);
      LowerKeepsSpace(last);
      var low := ToLower(s);
      assert low[..|low| - |LowerChar(last)|] == ToLower(front);
      assert low[|low| - 1] == LowerChar(last)[|LowerChar(last)| - 1];
      if IsSpace(last) {
        TrimRightOfLower(front);
      }
    }
  }

  // ---------------------------------------------------------------- the normal form

  // The part of a name in front of a plan suffix, if it ends in one.
  ghost function WithoutPlan(name: string): string {
    var k := LastWordStart(name);
    if k > 0 && IsPlanSpelling(name[k..]) then TrimRight(name[..k]) else name
  }

  lemma NormalFormOf(name: string)
    ensures NormalizeName(name) == LettersAndDigits(WithoutPlan(name))
  {
    var low, k := ToLower(name), LastWordStart(name);
    var front, word := name[..k], name[k..];
    assert name == front + word;
    LastWordOfLower(name);
    LowerAppend(front, word);
    LowerIsPlanWord(word);
    TrimRightOfLower(front);
    var l := LastWordStart(low);
    assert low[..l] == ToLower(front) && low[l..] == ToLower(word);
    LowerIsLonger(front);
    assert StripSuffix(low) == ToLower(WithoutPlan(name));
    KeptFromLower(WithoutPlan(name));
  }

  lemma {:induction false} LowerIsLonger(s: string)
    ensures |ToLower(s)| >= |s|
  {
    if s != [] {
      LowerIsLonger(s[1..]);
      LowerKeepsSpace(s[0]);
    }
  }

  lemma {:induction false} TrimRightOfSpaces(base: string, spaces: string)
    requires NoSpaceAtEnd(base) && AllSpace(spaces)
    ensures TrimRight(base + spaces) == base
    decreases |spaces|
  {
    if spaces == [] {
      assert base + spaces == base;
    } else {
      var front, last := spaces[..|spaces| - 1], spaces[|spaces| - 1];
      assert last in spaces;
      TrimRightOfSpaces(base, front);
      assert (base + spaces)[..|base + spaces| - 1] == base + front;
    }
  }

  lemma {:induction false} TrimRightSplits(s: string) returns (spaces: string)
    ensures s == TrimRight(s) + spaces && AllSpace(spaces) && NoSpaceAtEnd(TrimRight(s))
  {
    if s == [] || !IsSpace(s[|s| - 1]) {
      spaces := [];
    } else {
      var front := s[..|s| - 1];
      spaces := TrimRightSplits(front);
      Assoc(TrimRight(front), spaces, [s[|s| - 1]]);
      assert s == front + [s[|s| - 1]];
      spaces := spaces + [s[|s| - 1]];
    }
  }

  lemma PlanSpellingIsWord(word: string)
    requires IsPlanSpelling(word)
    ensures word != [] && forall c :: c in word ==> !IsSpace(c)
  {
    var i :| 0 <= i < |PLAN_WORDS| && Spells(word, PLAN_WORDS[i]);
    PlanWordsArePlain(i);
  }

  lemma SuffixStartsAt(name: string, base: string, spaces: string, word: string)
    requires IsPlanOf(name, base, spaces, word)
    ensures LastWordStart(name) == |base + spaces| && WithoutPlan(name) == base
  {
    var front := base + spaces;
    PlanSpellingIsWord(word);
    Assoc(base, spaces, word);
    SkipWord(front, word);
    assert spaces[|spaces| - 1] in spaces;
    assert front[|front| - 1] == spaces[|spaces| - 1];
    assert name[..|front|] == front && name[|front|..] == word;
    TrimRightOfSpaces(base, spaces);
  }

  /** A plan suffix, in any spelling and behind any white space, leaves the letters and digits in
      front of it. */
  lemma PlanSuffixIsDropped(name: string, base: string, spaces: string, word: string)
    requires IsPlanOf(name, base, spaces, word)
    ensures NormalizeName(name) == LettersAndDigits(base)
  {
    SuffixStartsAt(name, base, spaces, word);
    NormalFormOf(name);
  }

  /** Any other name keeps all of its letters and digits. */
  lemma OtherNamesKeepAll(name: string)
    requires !exists base, spaces, word :: IsPlanOf(name, base, spaces, word)
    ensures NormalizeName(name) == LettersAndDigits(name)
  {
    NormalFormOf(name);
    var k := LastWordStart(name);
    if k > 0 && IsPlanSpelling(name[k..]) {
      var spaces := SuffixFound(name, k);
    }
  }

  lemma SuffixFound(name: string, k: nat) returns (spaces: string)
    requires 0 < k <= |name| && IsSpace(name[k - 1]) && IsPlanSpelling(name[k..])
    ensures IsPlanOf(name, TrimRight(name[..k]), spaces, name[k..])
  {
    var front := name[..k];
    spaces := TrimRightSplits(front);
    assert IsSpace(front[k - 1]);
    assert TrimRight(front) == front ==> NoSpaceAtEnd(front);
    Assoc(TrimRight(front), spaces, name[k..]);
    assert name == front + name[k..];
  }

  // The name is base, or base with a plan suffix.
  ghost predicate IsVariantOf(name: string, base: string) {
    || (name == base && forall b, spaces, word :: !IsPlanOf(name, b, spaces, word))
    || exists spaces, word :: IsPlanOf(name, base, spaces, word)
  }

  lemma VariantForm(name: string, base: string)
    requires IsVariantOf(name, base)
    ensures NormalizeName(name) == LettersAndDigits(base)
  {
    if spaces, word :| IsPlanOf(name, base, spaces, word) {
      PlanSuffixIsDropped(name, base, spaces, word);
    } else {
      OtherNamesKeepAll(name);
    }
  }

  /** Two entries that differ by a plan suffix only, or by their suffixes, are in one reported group. */
  lemma PlanVariantsAreReported(subs: seq<Subscription>, order: seq<string>, p: nat, q: nat, base: string)
    requires KeyOrder(subs, order) && p < q < |subs|
    requires IsVariantOf(subs[p].name, base) && IsVariantOf(subs[q].name, base)
    ensures exists g :: g in Filter(IsPlural, AllClusters(subs, order)) && subs[p] in g && subs[q] in g
  {
    VariantForm(subs[p].name, base);
    VariantForm(subs[q].name, base);
    SameNameIsReported(subs, order, p, q);
  }

  // Of two plan words at the end only the last is a suffix.
  lemma OnlyOneSuffix(base: string)
    requires NoSpaceAtEnd(base)
    ensures NormalizeName(base + ([' '] + "Pro") + ([' '] + "Plus")) == LettersAndDigits(base) + "pro"
  {
    var name := base + ([' '] + "Pro");
    assert Spells("Plus", PLAN_WORDS[0]);
    assert IsPlanOf(name + ([' '] + "Plus"), name, [' '], "Plus");
    PlanSuffixIsDropped(name + ([' '] + "Plus"), name, [' '], "Plus");
    KeptAppend(base, [' '] + "Pro");
    KeptOfPro();
  }

  lemma {:induction false} KeptAppend(a: string, b: string)
    ensures LettersAndDigits(a + b) == LettersAndDigits(a) + LettersAndDigits(b)
  {
    if a == [] {
      assert a + b == b;
    } else {
      KeptAppend(a[1..], b);
      assert (a + b)[0] == a[0] && (a + b)[1..] == a[1..] + b;
    }
  }

  lemma KeptOfPro()
    ensures LettersAndDigits([' '] + "Pro") == "pro"
  {
    var s := [' '] + "Pro";
    assert s[1..] == "Pro" && "Pro"[1..] == "ro" && "ro"[1..] == "o" && "o"[1..] == "";
    assert LettersAndDigits("o") == "o" && LettersAndDigits("ro") == "ro";
  }
}
