/** The text that is hashed for an event, told as JSON text: its keys, their order and its strings. */
module CanonicalText {
  import opened CanonicalJson
  import opened Json
  import opened Options
  import opened Seqs
  import Bytes

  // ---------------------------------------------------------------- UTF-16 order

  // The UTF-16 code units of a character: one, or a surrogate pair.
  function Units(c: char): seq<nat> {
    var n := c as int;
    if n < 0x1_0000 then [n] else [0xD800 + (n - 0x1_0000) / 0x400, 0xDC00 + (n - 0x1_0000) % 0x400]
  }

  function Utf16(s: string): seq<nat> {
    if s == [] then [] else Units(s[0]) + Utf16(s[1..])
  }

  // They agree up to i, where a ends or has the smaller unit.
  predicate DecidedAt(a: seq<nat>, b: seq<nat>, i: nat) {
    i <= |a| && i < |b| && a[..i] == b[..i] && (i == |a| || a[i] < b[i])
  }

  // The order of sort(): a proper prefix comes first, else the smaller unit where they first differ.
  ghost predicate Before(k: string, l: string) {
    exists i: nat :: DecidedAt(Utf16(k), Utf16(l), i)
  }

  lemma DecidedBehind(p: seq<nat>, a: seq<nat>, b: seq<nat>, i: nat)
    requires DecidedAt(a, b, i)
    ensures DecidedAt(p + a, p + b, |p| + i)
  {
    assert (p + a)[..|p| + i] == p + a[..i] && (p + b)[..|p| + i] == p + b[..i];
    assert i < |a| ==> (p + a)[|p| + i] == a[i];
    assert (p + b)[|p| + i] == b[i];
  }

  lemma SmallerUnit(c: char, d: char, x: seq<nat>, y: seq<nat>) returns (i: nat)
    requires UnitRank(c) < UnitRank(d)
    ensures DecidedAt(Units(c) + x, Units(d) + y, i)
  {
    var a, b := Units(c) + x, Units(d) + y;
    assert a[0] == Units(c)[0] && b[0] == Units(d)[0];
    if Units(c)[0] < Units(d)[0] {
      i := 0;
    } else {
      i := 1;
      assert a[..1] == [a[0]] && b[..1] == [b[0]];
      assert a[1] == Units(c)[1] && b[1] == Units(d)[1];
    }
  }

  lemma {:induction false} LessIsBefore(k: string, l: string)
    requires Less(k, l)
    ensures Before(k, l)
    decreases |k|
  {
    if k == [] {
      assert Units(l[0]) != [] && Utf16(k) == [];
      assert DecidedAt(Utf16(k), Utf16(l), 0);
    } else if k[0] == l[0] {
      LessIsBefore(k[1..], l[1..]);
      var i: nat :| DecidedAt(Utf16(k[1..]), Utf16(l[1..]), i);
      DecidedBehind(Units(k[0]), Utf16(k[1..]), Utf16(l[1..]), i);
      assert DecidedAt(Utf16(k), Utf16(l), |Units(k[0])| + i);
    } else {
      var i := SmallerUnit(k[0], l[0], Utf16(k[1..]), Utf16(l[1..]));
      assert DecidedAt(Utf16(k), Utf16(l), i);
    }
  }

  // ---------------------------------------------------------------- keys in order

  ghost predicate InOrder(ks: seq<string>) {
    forall i, j :: 0 <= i < j < |ks| ==> Before(ks[i], ks[j])
  }

  // The keys of each object in a value, at every depth, are in order.
  ghost predicate KeysInOrder(v: Value) {
    match v
    case Arr(items) => KeysInOrderItems(items)
    case Obj(fields) => InOrder(Keys(fields)) && KeysInOrderFields(fields)
    case _ => true
  }

  ghost predicate KeysInOrderItems(items: Items) {
    items.Item? ==> KeysInOrder(items.head) && KeysInOrderItems(items.tail)
  }

  ghost predicate KeysInOrderFields(fields: Fields) {
    fields.Field? ==> KeysInOrder(fields.value) && KeysInOrderFields(fields.rest)
  }

  lemma {:induction false} PickedKeys(keys: seq<string>, fields: Fields)
    requires Ascending(keys)
    ensures Ascending(Keys(Pick(keys, fields)))
    ensures forall k :: k in Keys(Pick(keys, fields)) <==> k in keys && Lookup(fields, k).Some?
  {
    if keys != [] {
      PickedKeys(keys[1..], fields);
      var rest := Keys(Pick(keys[1..], fields));
      forall j | 0 <= j < |rest| ensures Less(keys[0], rest[j]) {
        assert rest[j] in rest;
      }
      assert forall k :: k in keys <==> k == keys[0] || k in keys[1..];
    }
  }

  lemma AscendingIsInOrder(ks: seq<string>)
    requires Ascending(ks)
    ensures InOrder(ks)
  {
    forall i, j | 0 <= i < j < |ks| ensures Before(ks[i], ks[j]) {
      LessIsBefore(ks[i], ks[j]);
    }
  }

  lemma {:induction false} PickInOrder(keys: seq<string>, g: Fields)
    requires forall k :: Lookup(g, k).Some? ==> KeysInOrder(Lookup(g, k).value)
    ensures KeysInOrderFields(Pick(keys, g))
  {
    if keys != [] {
      PickInOrder(keys[1..], g);
    }
  }

  lemma {:induction false} ProjectedInOrder(keys: seq<string>, v: Value)
    requires Ascending(keys)
    ensures KeysInOrder(Project(keys, v))
    decreases Size(v), 0
  {
    match v
    case Arr(items) => ProjectedItemsInOrder(keys, items);
    case Obj(fields) =>
      var g := ProjectFields(keys, fields);
      forall k | Lookup(g, k).Some? ensures KeysInOrder(Lookup(g, k).value) {
        LookupProject(keys, fields, k);
        LookupSmaller(fields, k);
        ProjectedInOrder(keys, Lookup(fields, k).value);
      }
      PickInOrder(keys, g);
      PickedKeys(keys, g);
      AscendingIsInOrder(Keys(Pick(keys, g)));
    case _ =>
  }

  lemma {:induction false} ProjectedItemsInOrder(keys: seq<string>, items: Items)
    requires Ascending(keys)
    ensures KeysInOrderItems(ProjectItems(keys, items))
    decreases SizeItems(items), if items.Item? then 1 else 0
  {
    if items.Item? {
      ProjectedInOrder(keys, items.head);
      assert Size(items.head) > 0;
      ProjectedItemsInOrder(keys, items.tail);
    }
  }

  // ---------------------------------------------------------------- the shape of the text

  function Join(parts: seq<string>, separator: string): string {
    if parts == [] then [] else if |parts| == 1 then parts[0] else parts[0] + separator + Join(parts[1..], separator)
  }

  // "key":value
  function Members(fields: Fields): seq<string> {
    match fields
    case NoField => []
    case Field(key, value, rest) => [Quote(key) + ":" + Print(value)] + Members(rest)
  }

  function Elements(items: Items): seq<string> {
    match items
    case NoItem => []
    case Item(head, tail) => [Print(head)] + Elements(tail)
  }

  lemma JoinNext(part: string, parts: seq<string>, separator: string)
    requires parts != []
    ensures Join([part] + parts, separator) == part + separator + Join(parts, separator)
  {
    assert ([part] + parts)[1..] == parts;
  }

  lemma {:induction false} MoreFieldsAre(fields: Fields)
    ensures MoreFields(fields) == if fields.NoField? then "}" else "," + (Join(Members(fields), ",") + "}")
  {
    if fields.Field? {
      MoreFieldsAre(fields.rest);
      var first, rest := Quote(fields.key) + ":" + Print(fields.value), Join(Members(fields.rest), ",") + "}";
      MemberThenMore(Quote(fields.key), Print(fields.value), MoreFields(fields.rest));
      if fields.rest.Field? {
        JoinNext(first, Members(fields.rest), ",");
        JoinThen(first, ",", Join(Members(fields.rest), ","), "}");
      }
    }
  }

  lemma MemberThenMore(key: string, value: string, more: string)
    ensures "," + key + ":" + value + more == "," + (key + ":" + value + more)
  {
  }

  lemma JoinThen(first: string, separator: string, rest: string, end: string)
    ensures first + (separator + (rest + end)) == first + separator + rest + end
  {
  }

  lemma {:induction false} MoreItemsAre(items: Items)
    ensures MoreItems(items) == if items.NoItem? then "]" else "," + (Join(Elements(items), ",") + "]")
  {
    if items.Item? {
      MoreItemsAre(items.tail);
      Assoc(",", Print(items.head), MoreItems(items.tail));
      if items.tail.Item? {
        JoinNext(Print(items.head), Elements(items.tail), ",");
        JoinThen(Print(items.head), ",", Join(Elements(items.tail), ","), "]");
      }
    }
  }

  /** JSON text: members and elements joined by commas, without white space. */
  lemma PrintedShape(v: Value)
    ensures v.Null? ==> Print(v) == "null"
    ensures v.Bool? ==> Print(v) == if v.b then "true" else "false"
    ensures v.Num? ==> Print(v) == v.text
    ensures v.Arr? ==> Print(v) == "[" + Join(Elements(v.items), ",") + "]"
    ensures v.Obj? ==> Print(v) == "{" + Join(Members(v.fields), ",") + "}"
  {
    if v.Arr? {
      ArrayShape(v.items);
    }
    if v.Obj? {
      ObjectShape(v.fields);
    }
  }

  lemma ObjectShape(fields: Fields)
    ensures Print(Obj(fields)) == "{" + Join(Members(fields), ",") + "}"
  {
    if fields.Field? {
      var inner := Join(Members(fields), ",") + "}";
      MoreFieldsAre(fields);
      FieldsText(fields, []);
      assert MoreFields(fields) + [] == MoreFields(fields) && Print(Obj(fields)) + [] == Print(Obj(fields));
      CutHead(",", FieldText(fields, []), ",", inner);
      Assoc("{", Join(Members(fields), ","), "}");
    }
  }

  lemma ArrayShape(items: Items)
    ensures Print(Arr(items)) == "[" + Join(Elements(items), ",") + "]"
  {
    if items.Item? {
      var first, inner := Print(items.head) + MoreItems(items.tail), Join(Elements(items), ",") + "]";
      MoreItemsAre(items);
      Assoc(",", Print(items.head), MoreItems(items.tail));
      CutHead(",", first, ",", inner);
      Assoc("[", Print(items.head), MoreItems(items.tail));
      Assoc("[", Join(Elements(items), ","), "]");
    }
  }

  // ---------------------------------------------------------------- events

  /** The text of an event: one member for each of its keys, in UTF-16 order, and so at every depth. */
  lemma CanonicalShape(event: Fields)
    ensures Visible(event).Obj?
    ensures var fields := Visible(event).fields;
      && Canonical(event) == "{" + Join(Members(fields), ",") + "}"
      && (forall k :: k in Keys(fields) <==> k in Keys(event))
      && KeysInOrder(Visible(event))
  {
    var keys := SortedKeys(event);
    SortedKeysAscending(event);
    ProjectedInOrder(keys, Obj(event));
    PrintedShape(Visible(event));
    PickedKeys(keys, ProjectFields(keys, event));
    forall k ensures k in Keys(Visible(event).fields) <==> k in Keys(event) {
      LookupProject(keys, event, k);
      LookupMeaning(event, k);
    }
  }

  function KnownMember(event: Fields, k: string): string {
    match Lookup(event, k)
    case None => []
    case Some(value) => Quote(k) + ":" + Print(value)
  }

  function KnownMembers(event: Fields, ks: seq<string>): (parts: seq<string>)
    ensures |parts| == |ks| && forall i :: 0 <= i < |ks| ==> parts[i] == KnownMember(event, ks[i])
  {
    if ks == [] then [] else [KnownMember(event, ks[0])] + KnownMembers(event, ks[1..])
  }

  lemma {:induction false} FlatLookup(event: Fields, k: string)
    requires IsFlat(event) && Lookup(event, k).Some?
    ensures !Lookup(event, k).value.Arr? && !Lookup(event, k).value.Obj?
  {
    if event.key != k {
      FlatLookup(event.rest, k);
    }
  }

  lemma {:induction false} FlatMembers(keys: seq<string>, list: seq<string>, event: Fields)
    requires IsFlat(event) && forall k :: k in list ==> k in Keys(event)
    ensures Members(Pick(list, ProjectFields(keys, event))) == KnownMembers(event, list)
  {
    if list != [] {
      var k := list[0];
      assert k in list;
      LookupMeaning(event, k);
      LookupProject(keys, event, k);
      FlatLookup(event, k);
      FlatMembers(keys, list[1..], event);
    }
  }

  /** The text of a flat record: its keys in UTF-16 order, each with its value. */
  lemma FlatText(event: Fields)
    requires IsFlat(event)
    ensures exists ks :: InOrder(ks) && (forall k :: k in ks <==> k in Keys(event))
                         && Canonical(event) == "{" + Join(KnownMembers(event, ks), ",") + "}"
  {
    var ks := SortedKeys(event);
    SortedKeysAscending(event);
    AscendingIsInOrder(ks);
    CanonicalShape(event);
    FlatMembers(ks, ks, event);
  }

  // ---------------------------------------------------------------- strings

  function HexOf(c: char): Option<nat> {
    if '0' <= c <= '9' then Some(c as int - '0' as int)
    else if 'a' <= c <= 'f' then Some(c as int - 'a' as int + 10)
    else None
  }

  function ShortEscape(c: char): Option<char> {
    if c == '"' then Some('"')
    else if c == '\\' then Some('\\')
    else if c == '/' then Some('/')
    else if c == 'b' then Some('\U{8}')
    else if c == 'f' then Some('\U{C}')
    else if c == 'n' then Some('\U{A}')
    else if c == 'r' then Some('\U{D}')
    else if c == 't' then Some('\U{9}')
    else None
  }

  // The contents of a string and what follows its closing quote, by section 7 of RFC 8259. Four
  // hexadecimal digits are read where they stand for a control character.
  function ReadString(text: string): Option<(string, string)>
    decreases |text|
  {
    if text == [] || text[0] < ' ' then None
    else if text[0] == '"' then Some(([], text[1..]))
    else if text[0] != '\\' then Then(text[0], ReadString(text[1..]))
    else if |text| < 2 then None
    else if ShortEscape(text[1]).Some? then Then(ShortEscape(text[1]).value, ReadString(text[2..]))
    else if text[1] != 'u' || |text| < 6 || text[2] != '0' || text[3] != '0' then None
    else match (HexOf(text[4]), HexOf(text[5]))
      case (Some(high), Some(low)) => Then((16 * high + low) as char, ReadString(text[6..]))
      case _ => None
  }

  function Then(c: char, more: Option<(string, string)>): Option<(string, string)> {
    match more
    case None => None
    case Some(r) => Some(([c] + r.0, r.1))
  }

  lemma HexDigitReads(n: nat)
    requires n < 16
    ensures HexOf(Bytes.HexDigit(n)) == Some(n)
  {
  }

  lemma LiteralReads(c: char, text: string)
    requires c >= ' ' && c != '"' && c != '\\'
    ensures ReadString([c] + text) == Then(c, ReadString(text))
  {
    assert ([c] + text)[1..] == text;
  }

  lemma ShortReads(d: char, text: string)
    requires ShortEscape(d).Some?
    ensures ReadString(['\\', d] + text) == Then(ShortEscape(d).value, ReadString(text))
  {
    assert (['\\', d] + text)[2..] == text;
  }

  lemma HexReads(high: nat, low: nat, text: string)
    requires high < 16 && low < 16
    ensures ReadString(['\\', 'u', '0', '0', Bytes.HexDigit(high), Bytes.HexDigit(low)] + text)
         == Then((16 * high + low) as char, ReadString(text))
  {
    var all := ['\\', 'u', '0', '0', Bytes.HexDigit(high), Bytes.HexDigit(low)] + text;
    assert all[6..] == text;
    HexDigitReads(high);
    HexDigitReads(low);
  }

  lemma EscapedReads(c: char, text: string)
    ensures ReadString(EscapeChar(c) + text) == Then(c, ReadString(text))
  {
    var e := EscapeChar(c);
    if |e| == 1 {
      LiteralReads(c, text);
    } else if |e| == 2 {
      ShortReads(e[1], text);
    } else {
      HexReads(c as int / 16, c as int % 16, text);
    }
  }

  // Escaped text reads back, up to the closing quote and whatever follows it.
  lemma {:induction false} EscapedTextReadsBack(s: string, rest: string)
    ensures ReadString(Escape(s) + ("\"" + rest)) == Some((s, rest))
  {
    var tail := "\"" + rest;
    if s == [] {
      assert [] + tail == tail && tail[1..] == rest;
    } else {
      EscapedTextReadsBack(s[1..], rest);
      Assoc(EscapeChar(s[0]), Escape(s[1..]), tail);
      EscapedReads(s[0], Escape(s[1..]) + tail);
      assert s == [s[0]] + s[1..];
    }
  }

  /** A quoted string reads back, by RFC 8259. */
  lemma QuoteReadsBack(s: string)
    ensures Quote(s)[0] == '"' && ReadString(Quote(s)[1..]) == Some((s, []))
  {
    var tail := "\"" + [];
    EscapedTextReadsBack(s, []);
    assert Quote(s)[1..] == Escape(s) + tail;
  }

  // The short escapes are used wherever there is one, and no other escape but for control characters.
  lemma EscapesAreShort(c: char)
    ensures |EscapeChar(c)| == (if c in ['"', '\\', '\U{8}', '\U{9}', '\U{A}', '\U{C}', '\U{D}'] then 2
                                else if c < ' ' then 6 else 1)
  {
  }
}
