/** The edit distance of client/lib/duplicate-detection.ts. */
module EditDistance {

  // The nested-loop table is proved against two readings of "distance": the recurrence `Distance`,
  // and the least number of edits, at arbitrary positions, from one string to the other.

  // One edit of a string, at a position of the string it is applied to.
  datatype Edit = Insert(pos: nat, c: char) | Delete(pos: nat) | Substitute(pos: nat, c: char)

  predicate Applicable(s: string, e: Edit) {
    match e
    case Insert(p, _) => p <= |s|
    case Delete(p) => p < |s|
    case Substitute(p, _) => p < |s|
  }

  function Apply(s: string, e: Edit): string
    requires Applicable(s, e)
  {
    match e
    case Insert(p, c) => s[..p] + [c] + s[p..]
    case Delete(p) => s[..p] + s[p + 1..]
    case Substitute(p, c) => s[..p] + [c] + s[p + 1..]
  }

  // The edits of `script`, applied in order, turn `s` into `t`.
  predicate Transforms(s: string, script: seq<Edit>, t: string)
    decreases |script|
  {
    if script == [] then s == t
    else Applicable(s, script[0]) && Transforms(Apply(s, script[0]), script[1..], t)
  }

  function Min(a: nat, b: nat): nat { if a <= b then a else b }

  function Max(a: nat, b: nat): nat { if a <= b then b else a }

  function Init(s: string): string
    requires s != []
  {
    s[..|s| - 1]
  }

  function Last(s: string): char
    requires s != []
  {
    s[|s| - 1]
  }

  // The recurrence behind the table: cell (i, j) is Distance(str1[..j], str2[..i]).
  function Distance(s: string, t: string): nat
    decreases |s| + |t|
  {
    if s == [] then |t|
    else if t == [] then |s|
    else if Last(t) == Last(s) then Distance(Init(s), Init(t))
    else Min(Distance(Init(s), Init(t)) + 1, Min(Distance(Init(s), t) + 1, Distance(s, Init(t)) + 1))
  }

  function Cost(a: char, b: char): nat { if a == b then 0 else 1 }

  // ---------------------------------------------------------------- the recurrence

  lemma {:induction false} DistanceSymmetric(s: string, t: string)
    ensures Distance(s, t) == Distance(t, s)
    decreases |s| + |t|
  {
    if s != [] && t != [] {
      DistanceSymmetric(Init(s), Init(t));
      DistanceSymmetric(Init(s), t);
      DistanceSymmetric(s, Init(t));
    }
  }

  // Dropping the last character of one string moves the distance by at most one.
  lemma {:induction false} Adjacent(s: string, t: string)
    requires s != []
    ensures Distance(s, t) <= Distance(Init(s), t) + 1
    ensures Distance(Init(s), t) <= Distance(s, t) + 1
    decreases |s| + |t|
  {
    if t != [] {
      Adjacent(t, Init(s));
      DistanceSymmetric(t, Init(s));
      DistanceSymmetric(Init(t), Init(s));
      Adjacent(s, Init(t));
    }
  }

  // The three moves bound the distance also where the table takes the diagonal for free.
  lemma Moves(s: string, t: string)
    requires s != [] && t != []
    ensures Distance(s, t) <= Distance(Init(s), Init(t)) + Cost(Last(s), Last(t))
    ensures Distance(s, t) <= Distance(Init(s), t) + 1
    ensures Distance(s, t) <= Distance(s, Init(t)) + 1
  {
    Adjacent(s, t);
    Adjacent(t, s);
    DistanceSymmetric(s, t);
    DistanceSymmetric(s, Init(t));
  }

  // The distance lies between the difference of the lengths and the longer length.
  lemma {:induction false} DistanceBounds(s: string, t: string)
    ensures |s| - |t| <= Distance(s, t) && |t| - |s| <= Distance(s, t)
    ensures Distance(s, t) <= Max(|s|, |t|)
    decreases |s| + |t|
  {
    if s != [] && t != [] {
      DistanceBounds(Init(s), Init(t));
      DistanceBounds(Init(s), t);
      DistanceBounds(s, Init(t));
    }
  }

  lemma {:induction false} DistanceZeroIffEqual(s: string, t: string)
    ensures Distance(s, t) == 0 <==> s == t
    decreases |s| + |t|
  {
    if s != [] && t != [] {
      DistanceZeroIffEqual(Init(s), Init(t));
      assert s == Init(s) + [Last(s)] && t == Init(t) + [Last(t)];
    }
  }

  lemma {:induction false} TriangleInequality(s: string, u: string, t: string)
    ensures Distance(s, t) <= Distance(s, u) + Distance(u, t)
    decreases |s| + |u| + |t|
  {
    DistanceBounds(s, t);
    DistanceBounds(s, u);
    DistanceBounds(u, t);
    if s != [] && u != [] && t != [] {
      Moves(s, t);
      TriangleInequality(Init(s), u, t);
      TriangleInequality(s, u, Init(t));
      TriangleInequality(s, Init(u), t);
      TriangleInequality(Init(s), Init(u), t);
      TriangleInequality(s, Init(u), Init(t));
      TriangleInequality(Init(s), Init(u), Init(t));
    }
  }

  // ---------------------------------------------------------------- edit scripts

  // A common tail adds nothing to the distance.
  lemma {:induction false} CommonTail(x: string, y: string, tail: string)
    ensures Distance(x + tail, y + tail) <= Distance(x, y)
    decreases |tail|
  {
    if tail == [] {
      assert x + tail == x && y + tail == y;
    } else {
      CommonTail(x, y, Init(tail));
      assert Init(x + tail) == x + Init(tail) && Init(y + tail) == y + Init(tail);
    }
  }

  lemma OneEditCostsOne(s: string, e: Edit)
    requires Applicable(s, e)
    ensures Distance(s, Apply(s, e)) <= 1
  {
    var head := s[..e.pos];
    DistanceZeroIffEqual(head, head);
    match e
    case Insert(p, c) =>
      assert s == head + s[p..] && Init(head + [c]) == head;
      CommonTail(head, head + [c], s[p..]);
      Adjacent(head + [c], head);
      DistanceSymmetric(head, head + [c]);
    case Delete(p) =>
      assert s == (head + [s[p]]) + s[p + 1..] && Init(head + [s[p]]) == head;
      CommonTail(head + [s[p]], head, s[p + 1..]);
      Adjacent(head + [s[p]], head);
    case Substitute(p, c) =>
      assert s == (head + [s[p]]) + s[p + 1..];
      assert Init(head + [s[p]]) == head && Init(head + [c]) == head;
      CommonTail(head + [s[p]], head + [c], s[p + 1..]);
      Moves(head + [s[p]], head + [c]);
  }

  // No script is shorter than the distance.
  lemma {:induction false} NoShorterScript(s: string, script: seq<Edit>, t: string)
    requires Transforms(s, script, t)
    ensures Distance(s, t) <= |script|
    decreases |script|
  {
    if script == [] {
      DistanceZeroIffEqual(s, t);
    } else {
      var u := Apply(s, script[0]);
      NoShorterScript(u, script[1..], t);
      OneEditCostsOne(s, script[0]);
      TriangleInequality(s, u, t);
    }
  }

  // A script for the front of a string also works on the whole string and leaves its end alone.
  lemma {:induction false} ScriptOnFront(s: string, script: seq<Edit>, t: string, c: char)
    requires Transforms(s, script, t)
    ensures Transforms(s + [c], script, t + [c])
    decreases |script|
  {
    if script != [] {
      var e := script[0];
      assert Applicable(s + [c], e);
      assert Apply(s + [c], e) == Apply(s, e) + [c];
      ScriptOnFront(Apply(s, e), script[1..], t, c);
    }
  }

  lemma {:induction false} ScriptThen(s: string, script: seq<Edit>, t: string, e: Edit)
    requires Transforms(s, script, t) && Applicable(t, e)
    ensures Transforms(s, script + [e], Apply(t, e))
    decreases |script|
  {
    if script == [] {
      assert (script + [e])[1..] == [];
    } else {
      ScriptThen(Apply(s, script[0]), script[1..], t, e);
      assert (script + [e])[1..] == script[1..] + [e];
    }
  }

  // A script as short as the distance, built along the path the table takes.
  lemma {:induction false} ShortestScript(s: string, t: string) returns (script: seq<Edit>)
    ensures Transforms(s, script, t) && |script| == Distance(s, t)
    decreases |s| + |t|
  {
    if s == [] && t == [] {
      script := [];
    } else if s == [] || (t != [] && Last(s) != Last(t) && Distance(s, t) == Distance(s, Init(t)) + 1) {
      var front := ShortestScript(s, Init(t));
      script := InsertLast(s, front, t);
    } else if t == [] || (Last(s) != Last(t) && Distance(s, t) == Distance(Init(s), t) + 1) {
      var rest := ShortestScript(Init(s), t);
      script := DeleteLast(s, rest, t);
    } else {
      script := ShortestScript(Init(s), Init(t));
      if Last(s) == Last(t) {
        KeepLast(s, script, t);
      } else {
        script := ReplaceLast(s, script, t);
      }
    }
  }

  lemma InsertLast(s: string, front: seq<Edit>, t: string) returns (script: seq<Edit>)
    requires t != [] && Transforms(s, front, Init(t))
    ensures Transforms(s, script, t) && |script| == |front| + 1
  {
    var e := Insert(|t| - 1, Last(t));
    assert Apply(Init(t), e) == t;
    ScriptThen(s, front, Init(t), e);
    script := front + [e];
  }

  lemma DeleteLast(s: string, rest: seq<Edit>, t: string) returns (script: seq<Edit>)
    requires s != [] && Transforms(Init(s), rest, t)
    ensures Transforms(s, script, t) && |script| == |rest| + 1
  {
    script := [Delete(|s| - 1)] + rest;
    assert Apply(s, script[0]) == Init(s) && script[1..] == rest;
  }

  lemma KeepLast(s: string, front: seq<Edit>, t: string)
    requires s != [] && t != [] && Last(s) == Last(t) && Transforms(Init(s), front, Init(t))
    ensures Transforms(s, front, t)
  {
    ScriptOnFront(Init(s), front, Init(t), Last(s));
    InitThenLast(s);
    InitThenLast(t);
  }

  lemma InitThenLast(s: string)
    requires s != []
    ensures Init(s) + [Last(s)] == s
  {
  }

  lemma ReplaceLast(s: string, front: seq<Edit>, t: string) returns (script: seq<Edit>)
    requires s != [] && t != [] && Transforms(Init(s), front, Init(t))
    ensures Transforms(s, script, t) && |script| == |front| + 1
  {
    var u, e := Init(t) + [Last(s)], Substitute(|t| - 1, Last(t));
    SubstituteLast(t, Last(s));
    KeepLast(s, front, u);
    ScriptThen(s, front, u, e);
    script := front + [e];
  }

  lemma SubstituteLast(t: string, c: char)
    requires t != []
    ensures var u := Init(t) + [c];
      Init(u) == Init(t) && Last(u) == c && Apply(u, Substitute(|t| - 1, Last(t))) == t
  {
  }

  // The distance is the length of a shortest script.
  lemma DistanceIsLeast(s: string, t: string)
    ensures exists script :: Transforms(s, script, t) && |script| == Distance(s, t)
    ensures forall script :: Transforms(s, script, t) ==> Distance(s, t) <= |script|
  {
    var shortest := ShortestScript(s, t);
    forall script | Transforms(s, script, t) ensures Distance(s, t) <= |script| {
      NoShorterScript(s, script, t);
    }
  }

  // ---------------------------------------------------------------- the table

  // The distance of the first j characters of s and the first i characters of t.
  function Cell(s: string, t: string, i: nat, j: nat): nat
    requires i <= |t| && j <= |s|
  {
    Distance(s[..j], t[..i])
  }

  lemma CellEdges(s: string, t: string)
    ensures forall i :: 0 <= i <= |t| ==> Cell(s, t, i, 0) == i
    ensures forall j :: 0 <= j <= |s| ==> Cell(s, t, 0, j) == j
    ensures Cell(s, t, |t|, |s|) == Distance(s, t)
  {
    assert s[..|s|] == s && t[..|t|] == t;
  }

  lemma CellStep(s: string, t: string, i: nat, j: nat)
    requires 1 <= i <= |t| && 1 <= j <= |s|
    ensures Cell(s, t, i, j) ==
      if t[i - 1] == s[j - 1] then Cell(s, t, i - 1, j - 1)
      else Min(Cell(s, t, i - 1, j - 1) + 1, Min(Cell(s, t, i, j - 1) + 1, Cell(s, t, i - 1, j) + 1))
  {
    assert Init(s[..j]) == s[..j - 1] && Init(t[..i]) == t[..i - 1];
  }

  /**
    levenshteinDistance: the number in the last cell of the table is the length of a
    shortest edit script. A row of the table is a row of `matrix`, as in the source.
   */
  method LevenshteinDistance(str1: string, str2: string) returns (d: nat)
    ensures d == Distance(str1, str2)
    ensures exists script :: Transforms(str1, script, str2) && |script| == d
    ensures forall script :: Transforms(str1, script, str2) ==> d <= |script|
  {
    var matrix := new nat[|str2| + 1, |str1| + 1];
    CellEdges(str1, str2);
    for i := 0 to |str2| + 1
      invariant forall p :: 0 <= p < i ==> matrix[p, 0] == Cell(str1, str2, p, 0)
    {
      matrix[i, 0] := i;
    }
    for j := 0 to |str1| + 1
      invariant forall p :: 0 <= p <= |str2| ==> matrix[p, 0] == Cell(str1, str2, p, 0)
      invariant forall q :: 0 <= q < j ==> matrix[0, q] == Cell(str1, str2, 0, q)
    {
      matrix[0, j] := j;
    }
    for i := 1 to |str2| + 1
      invariant forall p :: 0 <= p <= |str2| ==> matrix[p, 0] == Cell(str1, str2, p, 0)
      invariant forall p, q :: 0 <= p < i && 0 <= q <= |str1| ==> matrix[p, q] == Cell(str1, str2, p, q)
    {
      for j := 1 to |str1| + 1
        invariant forall p :: 0 <= p <= |str2| ==> matrix[p, 0] == Cell(str1, str2, p, 0)
        invariant forall p, q :: 0 <= p < i && 0 <= q <= |str1| ==> matrix[p, q] == Cell(str1, str2, p, q)
        invariant forall q :: 0 <= q < j ==> matrix[i, q] == Cell(str1, str2, i, q)
      {
        CellStep(str1, str2, i, j);
        if str2[i - 1] == str1[j - 1] {
          matrix[i, j] := matrix[i - 1, j - 1];
        } else {
          matrix[i, j] := Min(matrix[i - 1, j - 1] + 1, Min(matrix[i, j - 1] + 1, matrix[i - 1, j] + 1));
        }
      }
    }
    d := matrix[|str2|, |str1|];
    DistanceIsLeast(str1, str2);
  }
}
