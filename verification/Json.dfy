/**
  JSON.stringify with a key list, as client/lib/audit-disclosure.ts uses it for canonical
  event text: `JSON.stringify(eventData, Object.keys(eventData).sort())`.

  The list names the keys to print, in order, for the objects at every depth. Printed text can be
  read in one way only, whatever follows it: that is proved from the first character of each part.
 */
module Json {
  import Bytes

  // Numbers are the text Number::toString gives them.
  datatype Value =
    | Null
    | Bool(b: bool)
    | Num(text: string)
    | Str(s: string)
    | Arr(items: Items)
    | Obj(fields: Fields)
  datatype Items = NoItem | Item(head: Value, tail: Items)
  datatype Fields = NoField | Field(key: string, value: Value, rest: Fields)

  // ---------------------------------------------------------------- printing

  function EscapeChar(c: char): string {
    if c == '"' then ['\\', '"']
    else if c == '\\' then ['\\', '\\']
    else if c == '\U{8}' then ['\\', 'b']
    else if c == '\U{9}' then ['\\', 't']
    else if c == '\U{A}' then ['\\', 'n']
    else if c == '\U{C}' then ['\\', 'f']
    else if c == '\U{D}' then ['\\', 'r']
    else if c < '\U{20}' then ['\\', 'u', '0', '0', Bytes.HexDigit(c as int / 16), Bytes.HexDigit(c as int % 16)]
    else [c]
  }

  function Escape(s: string): string {
    if s == [] then [] else EscapeChar(s[0]) + Escape(s[1..])
  }

  function Quote(s: string): string {
    ['"'] + Escape(s) + ['"']
  }

  function Print(v: Value): string {
    match v
    case Null => ['n', 'u', 'l', 'l']
    case Bool(b) => if b then ['t', 'r', 'u', 'e'] else ['f', 'a', 'l', 's', 'e']
    case Num(text) => text
    case Str(s) => Quote(s)
    case Arr(NoItem) => ['[', ']']
    case Arr(Item(head, tail)) => ['['] + Print(head) + MoreItems(tail)
    case Obj(NoField) => ['{', '}']
    case Obj(Field(key, value, rest)) => ['{'] + Quote(key) + [':'] + Print(value) + MoreFields(rest)
  }

  function MoreItems(items: Items): string {
    match items
    case NoItem => [']']
    case Item(head, tail) => [','] + Print(head) + MoreItems(tail)
  }

  function MoreFields(fields: Fields): string {
    match fields
    case NoField => ['}']
    case Field(key, value, rest) => [','] + Quote(key) + [':'] + Print(value) + MoreFields(rest)
  }

  // ---------------------------------------------------------------- printing is unambiguous

  predicate NumeralChar(c: char) {
    '0' <= c <= '9' || c == '-' || c == '+' || c == '.' || c == 'e'
  }

  predicate IsNumeral(text: string) {
    text != [] && ('0' <= text[0] <= '9' || text[0] == '-') && forall c :: c in text ==> NumeralChar(c)
  }

  predicate NumeralsOk(v: Value) {
    match v
    case Num(text) => IsNumeral(text)
    case Arr(items) => NumeralsOkItems(items)
    case Obj(fields) => NumeralsOkFields(fields)
    case _ => true
  }

  predicate NumeralsOkItems(items: Items) {
    items.Item? ==> NumeralsOk(items.head) && NumeralsOkItems(items.tail)
  }

  predicate NumeralsOkFields(fields: Fields) {
    fields.Field? ==> NumeralsOk(fields.value) && NumeralsOkFields(fields.rest)
  }

  // What can follow a value: nothing, a comma or a closing bracket.
  predicate Follows(x: string) {
    x == [] || x[0] in [',', ']', '}']
  }

  lemma CutHead(a: string, x: string, b: string, y: string)
    requires a + x == b + y && |a| == |b|
    ensures a == b && x == y
  {
    assert a == (a + x)[..|a|] && x == (a + x)[|a|..] && b == (b + y)[..|b|] && y == (b + y)[|b|..];
  }

  lemma EscapeCharShape(c: char)
    ensures var e := EscapeChar(c);
      && e != [] && e[0] != '"'
      && (e[0] != '\\' ==> |e| == 1)
      && (e[0] == '\\' ==> |e| == if e[1] == 'u' then 6 else 2)
  {
  }

  lemma EscapeCharInjective(c: char, d: char)
    requires EscapeChar(c) == EscapeChar(d)
    ensures c == d
  {
    var a, b := EscapeChar(c), EscapeChar(d);
    assert |a| == |b| && a[0] == b[0];
    if |a| >= 2 {
      assert a[1] == b[1];
    }
    if |a| == 6 {
      assert a[4] == b[4] && a[5] == b[5];
    }
  }

  lemma EscapeCharPrefixFree(c: char, d: char, x: string, y: string)
    requires EscapeChar(c) + x == EscapeChar(d) + y
    ensures c == d && x == y
  {
    var a, b := EscapeChar(c), EscapeChar(d);
    EscapeCharShape(c);
    EscapeCharShape(d);
    assert a[0] == (a + x)[0] == (b + y)[0] == b[0];
    if a[0] == '\\' {
      assert a[1] == (a + x)[1] == (b + y)[1] == b[1];
    }
    CutHead(a, x, b, y);
    EscapeCharInjective(c, d);
  }

  lemma StringStart(s: string, x: string)
    ensures (Escape(s) + (['"'] + x))[0] == '"' <==> s == []
  {
    if s != [] {
      EscapeCharShape(s[0]);
      StringStep(s, x);
    }
  }

  lemma StringStep(s: string, x: string)
    requires s != []
    ensures Escape(s) + (['"'] + x) == EscapeChar(s[0]) + (Escape(s[1..]) + (['"'] + x))
  {
  }

  // The closing quote of a string is the first one that is not escaped.
  lemma {:induction false} EscapeUnique(s: string, t: string, x: string, y: string)
    requires Escape(s) + (['"'] + x) == Escape(t) + (['"'] + y)
    ensures s == t && x == y
    decreases |s| + |t|
  {
    StringStart(s, x);
    StringStart(t, y);
    if s == [] {
      assert [] + (['"'] + x) == ['"'] + x && [] + (['"'] + y) == ['"'] + y;
      CutHead(['"'], x, ['"'], y);
    } else {
      StringStep(s, x);
      StringStep(t, y);
      EscapeCharPrefixFree(s[0], t[0], Escape(s[1..]) + (['"'] + x), Escape(t[1..]) + (['"'] + y));
      EscapeUnique(s[1..], t[1..], x, y);
    }
  }

  lemma QuoteUnique(s: string, t: string, x: string, y: string)
    requires Quote(s) + x == Quote(t) + y
    ensures s == t && x == y
  {
    Regroup(['"'], Escape(s), ['"'], x);
    Regroup(['"'], Escape(t), ['"'], y);
    CutHead(['"'], Escape(s) + (['"'] + x), ['"'], Escape(t) + (['"'] + y));
    EscapeUnique(s, t, x, y);
  }

  lemma NumeralUnique(t: string, u: string, x: string, y: string)
    requires IsNumeral(t) && IsNumeral(u) && Follows(x) && Follows(y) && t + x == u + y
    ensures t == u && x == y
  {
    NumeralStops(t, x);
    NumeralStops(u, y);
    assert |t| == |u|;
    CutHead(t, x, u, y);
  }

  lemma NumeralStops(t: string, x: string)
    requires IsNumeral(t) && Follows(x)
    ensures forall i :: 0 <= i < |t| ==> NumeralChar((t + x)[i])
    ensures |t| < |t + x| ==> !NumeralChar((t + x)[|t|])
  {
    assert forall i :: 0 <= i < |t| ==> t[i] in t;
  }

  // The first character of a value tells its kind.
  function Kind(v: Value): char {
    match v
    case Null => 'n'
    case Bool(b) => if b then 't' else 'f'
    case Num(_) => '0'
    case Str(_) => '"'
    case Arr(_) => '['
    case Obj(_) => '{'
  }

  lemma FirstChar(v: Value, x: string)
    requires NumeralsOk(v)
    ensures Print(v) != [] && (Print(v) + x)[0] == Print(v)[0]
    ensures if v.Num? then '0' <= Print(v)[0] <= '9' || Print(v)[0] == '-' else Print(v)[0] == Kind(v)
  {
  }

  lemma SameKind(v: Value, w: Value, x: string, y: string)
    requires NumeralsOk(v) && NumeralsOk(w) && Print(v) + x == Print(w) + y
    ensures Kind(v) == Kind(w)
  {
    FirstChar(v, x);
    FirstChar(w, y);
  }

  // ---------------------------------------------------------------- lists and objects

  // What stands behind the bracket or comma in front of an item, x following the whole list.
  function ItemText(items: Items, x: string): string
    requires items.Item?
  {
    Print(items.head) + (MoreItems(items.tail) + x)
  }

  lemma ItemsText(items: Items, x: string)
    requires NumeralsOkItems(items)
    ensures items.Item? ==> Print(Arr(items)) + x == ['['] + ItemText(items, x)
    ensures items.Item? ==> MoreItems(items) + x == [','] + ItemText(items, x)
    ensures (Print(Arr(items)) + x)[1] == ']' <==> items.NoItem?
    ensures (MoreItems(items) + x)[0] == ']' <==> items.NoItem?
    ensures Follows(MoreItems(items) + x)
  {
    if items.Item? {
      var text := ItemText(items, x);
      Regroup(['['], Print(items.head), MoreItems(items.tail), x);
      Regroup([','], Print(items.head), MoreItems(items.tail), x);
      FirstChar(items.head, MoreItems(items.tail) + x);
      assert (['['] + text)[1] == text[0] == Print(items.head)[0];
      assert ([','] + text)[0] == ',';
    }
  }

  lemma Regroup(a: string, b: string, c: string, x: string)
    ensures a + b + c + x == a + (b + (c + x))
  {
  }

  function FieldText(fields: Fields, x: string): string
    requires fields.Field?
  {
    Quote(fields.key) + ([':'] + (Print(fields.value) + (MoreFields(fields.rest) + x)))
  }

  lemma FieldsText(fields: Fields, x: string)
    ensures fields.Field? ==> Print(Obj(fields)) + x == ['{'] + FieldText(fields, x)
    ensures fields.Field? ==> MoreFields(fields) + x == [','] + FieldText(fields, x)
    ensures (Print(Obj(fields)) + x)[1] == '}' <==> fields.NoField?
    ensures (MoreFields(fields) + x)[0] == '}' <==> fields.NoField?
    ensures Follows(MoreFields(fields) + x)
  {
    if fields.Field? {
      var text := FieldText(fields, x);
      RegroupField(['{'], Quote(fields.key), Print(fields.value), MoreFields(fields.rest), x);
      RegroupField([','], Quote(fields.key), Print(fields.value), MoreFields(fields.rest), x);
      QuoteStarts(fields.key, [':'] + (Print(fields.value) + (MoreFields(fields.rest) + x)));
      assert (['{'] + text)[1] == text[0] == '"';
      assert ([','] + text)[0] == ',';
    }
  }

  lemma QuoteStarts(s: string, x: string)
    ensures (Quote(s) + x)[0] == '"'
  {
  }

  lemma RegroupField(a: string, b: string, c: string, d: string, x: string)
    ensures a + b + [':'] + c + d + x == a + (b + ([':'] + (c + (d + x))))
  {
    Regroup(a + b, [':'], c, d + x);
    Regroup(a, b, [':'], c + (d + x));
    assert a + b + [':'] + c + d + x == a + b + [':'] + c + (d + x);
  }

  // A printed value followed by something can be read in one way only.
  lemma {:induction false} PrintUnique(v: Value, w: Value, x: string, y: string)
    requires NumeralsOk(v) && NumeralsOk(w) && Follows(x) && Follows(y)
    requires Print(v) + x == Print(w) + y
    ensures v == w && x == y
    decreases v, 2
  {
    SameKind(v, w, x, y);
    match v
    case Null => CutHead(Print(v), x, Print(w), y);
    case Bool(_) => CutHead(Print(v), x, Print(w), y);
    case Num(text) => NumeralUnique(text, w.text, x, y);
    case Str(s) => QuoteUnique(s, w.s, x, y);
    case Arr(items) => ArrayUnique(items, w.items, x, y);
    case Obj(fields) => ObjectUnique(fields, w.fields, x, y);
  }

  lemma {:induction false} ArrayUnique(a: Items, b: Items, x: string, y: string)
    requires NumeralsOkItems(a) && NumeralsOkItems(b)
    requires Print(Arr(a)) + x == Print(Arr(b)) + y
    ensures a == b && x == y
    decreases a, 1
  {
    ItemsText(a, x);
    ItemsText(b, y);
    if a.NoItem? {
      CutHead(['[', ']'], x, ['[', ']'], y);
    } else {
      CutHead(['['], ItemText(a, x), ['['], ItemText(b, y));
      ItemUnique(a, b, x, y);
    }
  }

  lemma {:induction false} ItemsUnique(a: Items, b: Items, x: string, y: string)
    requires NumeralsOkItems(a) && NumeralsOkItems(b)
    requires MoreItems(a) + x == MoreItems(b) + y
    ensures a == b && x == y
    decreases a, 1
  {
    ItemsText(a, x);
    ItemsText(b, y);
    if a.NoItem? {
      CutHead([']'], x, [']'], y);
    } else {
      CutHead([','], ItemText(a, x), [','], ItemText(b, y));
      ItemUnique(a, b, x, y);
    }
  }

  lemma {:induction false} ItemUnique(a: Items, b: Items, x: string, y: string)
    requires a.Item? && b.Item? && NumeralsOkItems(a) && NumeralsOkItems(b)
    requires ItemText(a, x) == ItemText(b, y)
    ensures a == b && x == y
    decreases a, 0
  {
    ItemsText(a.tail, x);
    ItemsText(b.tail, y);
    PrintUnique(a.head, b.head, MoreItems(a.tail) + x, MoreItems(b.tail) + y);
    ItemsUnique(a.tail, b.tail, x, y);
  }

  lemma {:induction false} ObjectUnique(a: Fields, b: Fields, x: string, y: string)
    requires NumeralsOkFields(a) && NumeralsOkFields(b)
    requires Print(Obj(a)) + x == Print(Obj(b)) + y
    ensures a == b && x == y
    decreases a, 1
  {
    FieldsText(a, x);
    FieldsText(b, y);
    if a.NoField? {
      CutHead(['{', '}'], x, ['{', '}'], y);
    } else {
      CutHead(['{'], FieldText(a, x), ['{'], FieldText(b, y));
      FieldUnique(a, b, x, y);
    }
  }

  lemma {:induction false} FieldsUnique(a: Fields, b: Fields, x: string, y: string)
    requires NumeralsOkFields(a) && NumeralsOkFields(b)
    requires MoreFields(a) + x == MoreFields(b) + y
    ensures a == b && x == y
    decreases a, 1
  {
    FieldsText(a, x);
    FieldsText(b, y);
    if a.NoField? {
      CutHead(['}'], x, ['}'], y);
    } else {
      CutHead([','], FieldText(a, x), [','], FieldText(b, y));
      FieldUnique(a, b, x, y);
    }
  }

  lemma {:induction false} FieldUnique(a: Fields, b: Fields, x: string, y: string)
    requires a.Field? && b.Field? && NumeralsOkFields(a) && NumeralsOkFields(b)
    requires FieldText(a, x) == FieldText(b, y)
    ensures a == b && x == y
    decreases a, 0
  {
    var p, q := Print(a.value) + (MoreFields(a.rest) + x), Print(b.value) + (MoreFields(b.rest) + y);
    QuoteUnique(a.key, b.key, [':'] + p, [':'] + q);
    CutHead([':'], p, [':'], q);
    FieldsText(a.rest, x);
    FieldsText(b.rest, y);
    PrintUnique(a.value, b.value, MoreFields(a.rest) + x, MoreFields(b.rest) + y);
    FieldsUnique(a.rest, b.rest, x, y);
  }
}
