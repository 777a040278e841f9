/**
  Canonical event text: JSON.stringify(eventData, Object.keys(eventData).sort()), and what of
  an event it keeps.
 */
module CanonicalJson {
  import opened Json
  import opened Options

  // ---------------------------------------------------------------- the order of sort()

  // Orders characters as their UTF-16 code units do: surrogate pairs come before U+E000.
  function UnitRank(c: char): nat {
    if c < '\U{E000}' || c > '\U{FFFF}' then c as int else c as int + 0x11_0000
  }

  predicate Less(a: string, b: string) {
    b != [] && (a == [] || UnitRank(a[0]) < UnitRank(b[0]) || (a[0] == b[0] && Less(a[1..], b[1..])))
  }

  lemma {:induction false} LessTotal(a: string, b: string)
    ensures Less(a, b) || a == b || Less(b, a)
  {
    if a != [] && b != [] && a[0] == b[0] {
      LessTotal(a[1..], b[1..]);
    }
  }

  lemma {:induction false} LessTransitive(a: string, b: string, c: string)
    requires Less(a, b) && Less(b, c)
    ensures Less(a, c)
  {
    if a != [] && a[0] == b[0] && b[0] == c[0] {
      LessTransitive(a[1..], b[1..], c[1..]);
    }
  }

  lemma {:induction false} LessIrreflexive(a: string)
    ensures !Less(a, a)
  {
    if a != [] {
      LessIrreflexive(a[1..]);
    }
  }

  ghost predicate Ascending(ks: seq<string>) {
    forall i, j :: 0 <= i < j < |ks| ==> Less(ks[i], ks[j])
  }

  function Insert(k: string, ks: seq<string>): (r: seq<string>)
    ensures forall x :: x in r <==> x == k || x in ks
  {
    if ks == [] then [k]
    else if k == ks[0] then ks
    else if Less(k, ks[0]) then [k] + ks
    else [ks[0]] + Insert(k, ks[1..])
  }

  lemma {:induction false} InsertAscending(k: string, ks: seq<string>)
    requires Ascending(ks)
    ensures Ascending(Insert(k, ks))
  {
    if ks != [] && k != ks[0] {
      if Less(k, ks[0]) {
        forall j | 0 <= j < |ks| ensures Less(k, ks[j]) {
          if j > 0 {
            LessTransitive(k, ks[0], ks[j]);
          }
        }
      } else {
        LessTotal(k, ks[0]);
        InsertAscending(k, ks[1..]);
        var rest := Insert(k, ks[1..]);
        forall j | 0 <= j < |rest| ensures Less(ks[0], rest[j]) {
          assert rest[j] in rest;
        }
      }
    }
  }

  lemma NonemptyHasOne(s: seq<string>)
    ensures s != [] ==> exists x :: x in s
  {
    assert s != [] ==> s[0] in s;
  }

  // Ascending sequences with the same elements are equal.
  lemma {:induction false} AscendingUnique(a: seq<string>, b: seq<string>)
    requires Ascending(a) && Ascending(b) && forall x :: x in a <==> x in b
    ensures a == b
  {
    if a == [] {
      NonemptyHasOne(b);
    } else {
      assert a[0] in b;
      HeadIsLeast(a, b);
      TailsAgree(a, b);
      AscendingUnique(a[1..], b[1..]);
    }
  }

  lemma HeadIsLeast(a: seq<string>, b: seq<string>)
    requires a != [] && b != [] && Ascending(a) && Ascending(b) && a[0] in b && b[0] in a
    ensures a[0] == b[0]
  {
    var i :| 0 <= i < |b| && b[i] == a[0];
    var j :| 0 <= j < |a| && a[j] == b[0];
    if i > 0 && j > 0 {
      LessTransitive(a[0], a[j], a[0]);
      LessIrreflexive(a[0]);
    }
  }

  lemma TailsAgree(a: seq<string>, b: seq<string>)
    requires a != [] && b != [] && Ascending(a) && Ascending(b) && a[0] == b[0] && forall x :: x in a <==> x in b
    ensures forall x :: x in a[1..] <==> x in b[1..]
  {
    LessIrreflexive(a[0]);
    assert a[0] !in a[1..] && b[0] !in b[1..];
    assert forall x :: (x in a <==> x == a[0] || x in a[1..]) && (x in b <==> x == b[0] || x in b[1..]);
  }

  // ---------------------------------------------------------------- keys, lookup, selection

  function Keys(fields: Fields): seq<string> {
    match fields
    case NoField => []
    case Field(key, _, rest) => [key] + Keys(rest)
  }

  function Lookup(fields: Fields, k: string): Option<Value> {
    match fields
    case NoField => None
    case Field(key, value, rest) => if key == k then Some(value) else Lookup(rest, k)
  }

  // Object.keys(...).sort(), without repetitions.
  function SortedKeys(fields: Fields): (r: seq<string>)
    ensures forall k :: k in r <==> k in Keys(fields)
  {
    match fields
    case NoField => []
    case Field(key, _, rest) => Insert(key, SortedKeys(rest))
  }

  lemma {:induction false} SortedKeysAscending(fields: Fields)
    ensures Ascending(SortedKeys(fields))
  {
    if fields.Field? {
      SortedKeysAscending(fields.rest);
      InsertAscending(fields.key, SortedKeys(fields.rest));
    }
  }

  // The listed keys that the object has, in the order of the list.
  function Pick(keys: seq<string>, fields: Fields): Fields {
    if keys == [] then NoField
    else match Lookup(fields, keys[0])
      case Some(value) => Field(keys[0], value, Pick(keys[1..], fields))
      case None => Pick(keys[1..], fields)
  }

  // What JSON.stringify sees of a value through the key list.
  function Project(keys: seq<string>, v: Value): Value {
    match v
    case Arr(items) => Arr(ProjectItems(keys, items))
    case Obj(fields) => Obj(Pick(keys, ProjectFields(keys, fields)))
    case _ => v
  }

  function ProjectItems(keys: seq<string>, items: Items): Items {
    match items
    case NoItem => NoItem
    case Item(head, tail) => Item(Project(keys, head), ProjectItems(keys, tail))
  }

  function ProjectFields(keys: seq<string>, fields: Fields): Fields {
    match fields
    case NoField => NoField
    case Field(key, value, rest) => Field(key, Project(keys, value), ProjectFields(keys, rest))
  }

  /** The text that is hashed for an event. */
  function Canonical(event: Fields): string {
    Print(Visible(event))
  }

  function Visible(event: Fields): Value {
    Project(SortedKeys(event), Obj(event))
  }

  // ---------------------------------------------------------------- what an event means

  // A value without the order of keys: an object is a map.
  datatype Meaning =
    | MNull | MBool(b: bool) | MNum(text: string) | MStr(s: string)
    | MArr(items: seq<Meaning>) | MObj(fields: map<string, Meaning>)

  function MeaningOf(v: Value): Meaning {
    match v
    case Null => MNull
    case Bool(b) => MBool(b)
    case Num(text) => MNum(text)
    case Str(s) => MStr(s)
    case Arr(items) => MArr(MeaningItems(items))
    case Obj(fields) => MObj(MeaningFields(fields))
  }

  function MeaningItems(items: Items): seq<Meaning> {
    match items
    case NoItem => []
    case Item(head, tail) => [MeaningOf(head)] + MeaningItems(tail)
  }

  function MeaningFields(fields: Fields): map<string, Meaning> {
    match fields
    case NoField => map[]
    case Field(key, value, rest) => MeaningFields(rest)[key := MeaningOf(value)]
  }

  // Every key of every object inside v is in the list.
  predicate Covered(keys: seq<string>, v: Value) {
    match v
    case Arr(items) => CoveredItems(keys, items)
    case Obj(fields) => CoveredFields(keys, fields)
    case _ => true
  }

  predicate CoveredItems(keys: seq<string>, items: Items) {
    items.Item? ==> Covered(keys, items.head) && CoveredItems(keys, items.tail)
  }

  predicate CoveredFields(keys: seq<string>, fields: Fields) {
    fields.Field? ==> fields.key in keys && Covered(keys, fields.value) && CoveredFields(keys, fields.rest)
  }

  // Every key of an object nested in the event is also a top-level key; so it is if none is nested.
  predicate SelfCovered(event: Fields) {
    CoveredFields(SortedKeys(event), event)
  }

  // ---------------------------------------------------------------- lemmas on selection

  lemma {:induction false} LookupPick(keys: seq<string>, fields: Fields, k: string)
    ensures Lookup(Pick(keys, fields), k) == if k in keys then Lookup(fields, k) else None
  {
    if keys != [] {
      LookupPick(keys[1..], fields, k);
      assert k in keys <==> k == keys[0] || k in keys[1..];
    }
  }

  lemma {:induction false} LookupProject(keys: seq<string>, fields: Fields, k: string)
    ensures Lookup(fields, k).None? ==> Lookup(ProjectFields(keys, fields), k).None?
    ensures Lookup(fields, k).Some?
        ==> Lookup(ProjectFields(keys, fields), k) == Some(Project(keys, Lookup(fields, k).value))
  {
    if fields.Field? {
      LookupProject(keys, fields.rest, k);
    }
  }

  lemma {:induction false} LookupMeaning(fields: Fields, k: string)
    ensures Lookup(fields, k).Some? <==> k in MeaningFields(fields)
    ensures Lookup(fields, k).Some? <==> k in Keys(fields)
    ensures Lookup(fields, k).Some? ==> MeaningFields(fields)[k] == MeaningOf(Lookup(fields, k).value)
  {
    if fields.Field? {
      LookupMeaning(fields.rest, k);
    }
  }

  // Pick only reads the listed keys.
  lemma {:induction false} PickSame(keys: seq<string>, f: Fields, g: Fields)
    requires forall k :: k in keys ==> Lookup(f, k) == Lookup(g, k)
    ensures Pick(keys, f) == Pick(keys, g)
  {
    if keys != [] {
      assert keys[0] in keys;
      PickSame(keys[1..], f, g);
    }
  }

  // Size of a value, for the inductions that look fields up by key.
  function Size(v: Value): nat {
    match v
    case Arr(items) => 1 + SizeItems(items)
    case Obj(fields) => 1 + SizeFields(fields)
    case _ => 1
  }

  function SizeItems(items: Items): nat {
    match items
    case NoItem => 0
    case Item(head, tail) => Size(head) + SizeItems(tail)
  }

  function SizeFields(fields: Fields): nat {
    match fields
    case NoField => 0
    case Field(_, value, rest) => Size(value) + SizeFields(rest)
  }

  lemma {:induction false} LookupSmaller(fields: Fields, k: string)
    requires Lookup(fields, k).Some?
    ensures Size(Lookup(fields, k).value) < Size(Obj(fields))
  {
    if fields.key != k {
      LookupSmaller(fields.rest, k);
    }
  }

  // ---------------------------------------------------------------- what selection keeps

  lemma PickMeaning(keys: seq<string>, fields: Fields)
    requires forall k :: k in Keys(fields) ==> k in keys
    ensures MeaningFields(Pick(keys, fields)) == MeaningFields(fields)
  {
    forall k ensures k in MeaningFields(Pick(keys, fields)) <==> k in MeaningFields(fields)
      ensures k in MeaningFields(fields) ==> MeaningFields(Pick(keys, fields))[k] == MeaningFields(fields)[k]
    {
      LookupPick(keys, fields, k);
      LookupMeaning(fields, k);
      LookupMeaning(Pick(keys, fields), k);
    }
  }

  lemma {:induction false} KeysOfProjected(keys: seq<string>, fields: Fields)
    ensures Keys(ProjectFields(keys, fields)) == Keys(fields)
  {
    if fields.Field? {
      KeysOfProjected(keys, fields.rest);
    }
  }

  // A covered value loses nothing but the order of its keys.
  lemma {:induction false} CoveredKeepsMeaning(keys: seq<string>, v: Value)
    requires Covered(keys, v)
    ensures MeaningOf(Project(keys, v)) == MeaningOf(v)
  {
    match v
    case Arr(items) => CoveredItemsKeepMeaning(keys, items);
    case Obj(fields) =>
      CoveredFieldsKeepMeaning(keys, fields);
      KeysOfProjected(keys, fields);
      PickMeaning(keys, ProjectFields(keys, fields));
    case _ =>
  }

  lemma {:induction false} CoveredItemsKeepMeaning(keys: seq<string>, items: Items)
    requires CoveredItems(keys, items)
    ensures MeaningItems(ProjectItems(keys, items)) == MeaningItems(items)
  {
    if items.Item? {
      CoveredKeepsMeaning(keys, items.head);
      CoveredItemsKeepMeaning(keys, items.tail);
    }
  }

  lemma {:induction false} CoveredFieldsKeepMeaning(keys: seq<string>, fields: Fields)
    requires CoveredFields(keys, fields)
    ensures MeaningFields(ProjectFields(keys, fields)) == MeaningFields(fields)
    ensures forall k :: k in Keys(fields) ==> k in keys
  {
    if fields.Field? {
      CoveredKeepsMeaning(keys, fields.value);
      CoveredFieldsKeepMeaning(keys, fields.rest);
    }
  }

  // What is printed depends on the meaning of a value only.
  lemma {:induction false} ProjectOfMeaning(keys: seq<string>, v: Value, w: Value)
    requires MeaningOf(v) == MeaningOf(w)
    ensures Project(keys, v) == Project(keys, w)
    decreases Size(v), 0
  {
    match v
    case Arr(items) => ProjectItemsOfMeaning(keys, items, w.items);
    case Obj(fields) =>
      var f, g := ProjectFields(keys, fields), ProjectFields(keys, w.fields);
      forall k | k in keys ensures Lookup(f, k) == Lookup(g, k) {
        LookupProject(keys, fields, k);
        LookupProject(keys, w.fields, k);
        LookupMeaning(fields, k);
        LookupMeaning(w.fields, k);
        if Lookup(fields, k).Some? {
          LookupSmaller(fields, k);
          ProjectOfMeaning(keys, Lookup(fields, k).value, Lookup(w.fields, k).value);
        }
      }
      PickSame(keys, f, g);
    case _ =>
  }

  lemma {:induction false} ProjectItemsOfMeaning(keys: seq<string>, a: Items, b: Items)
    requires MeaningItems(a) == MeaningItems(b)
    ensures ProjectItems(keys, a) == ProjectItems(keys, b)
    decreases SizeItems(a), if a.Item? then 1 else 0
  {
    if a.Item? {
      assert MeaningItems(a)[0] == MeaningItems(b)[0] && MeaningItems(a)[1..] == MeaningItems(b)[1..];
      ProjectOfMeaning(keys, a.head, b.head);
      assert Size(a.head) > 0;
      ProjectItemsOfMeaning(keys, a.tail, b.tail);
    }
  }

  lemma {:induction false} ProjectPick(keys: seq<string>, list: seq<string>, fields: Fields)
    ensures ProjectFields(keys, Pick(list, fields)) == Pick(list, ProjectFields(keys, fields))
  {
    if list != [] {
      LookupProject(keys, fields, list[0]);
      ProjectPick(keys, list[1..], fields);
    }
  }

  lemma {:induction false} ProjectTwice(keys: seq<string>, v: Value)
    ensures Project(keys, Project(keys, v)) == Project(keys, v)
  {
    match v
    case Arr(items) => ProjectItemsTwice(keys, items);
    case Obj(fields) =>
      var g := ProjectFields(keys, fields);
      ProjectFieldsTwice(keys, fields);
      ProjectPick(keys, keys, g);
      forall k ensures k in keys ==> Lookup(Pick(keys, g), k) == Lookup(g, k) {
        LookupPick(keys, g, k);
      }
      PickSame(keys, Pick(keys, g), g);
    case _ =>
  }

  lemma {:induction false} ProjectItemsTwice(keys: seq<string>, items: Items)
    ensures ProjectItems(keys, ProjectItems(keys, items)) == ProjectItems(keys, items)
  {
    if items.Item? {
      ProjectTwice(keys, items.head);
      ProjectItemsTwice(keys, items.tail);
    }
  }

  lemma {:induction false} ProjectFieldsTwice(keys: seq<string>, fields: Fields)
    ensures ProjectFields(keys, ProjectFields(keys, fields)) == ProjectFields(keys, fields)
  {
    if fields.Field? {
      ProjectTwice(keys, fields.value);
      ProjectFieldsTwice(keys, fields.rest);
    }
  }

  // What is visible through a list is covered by it.
  lemma {:induction false} ProjectedIsCovered(keys: seq<string>, v: Value)
    ensures Covered(keys, Project(keys, v))
    decreases Size(v), 0
  {
    match v
    case Arr(items) => ProjectedItemsCovered(keys, items);
    case Obj(fields) =>
      var g := ProjectFields(keys, fields);
      forall k | Lookup(g, k).Some? ensures Covered(keys, Lookup(g, k).value) {
        LookupProject(keys, fields, k);
        LookupSmaller(fields, k);
        ProjectedIsCovered(keys, Lookup(fields, k).value);
      }
      PickIsCovered(keys, keys, g);
    case _ =>
  }

  lemma {:induction false} ProjectedItemsCovered(keys: seq<string>, items: Items)
    ensures CoveredItems(keys, ProjectItems(keys, items))
    decreases SizeItems(items), if items.Item? then 1 else 0
  {
    if items.Item? {
      ProjectedIsCovered(keys, items.head);
      assert Size(items.head) > 0;
      ProjectedItemsCovered(keys, items.tail);
    }
  }

  lemma {:induction false} PickIsCovered(keys: seq<string>, list: seq<string>, g: Fields)
    requires forall k :: k in list ==> k in keys
    requires forall k :: Lookup(g, k).Some? ==> Covered(keys, Lookup(g, k).value)
    ensures CoveredFields(keys, Pick(list, g))
  {
    if list != [] {
      assert list[0] in list;
      PickIsCovered(keys, list[1..], g);
    }
  }

  lemma {:induction false} ProjectKeepsNumerals(keys: seq<string>, v: Value)
    requires NumeralsOk(v)
    ensures NumeralsOk(Project(keys, v))
  {
    match v
    case Arr(items) => ProjectItemsKeepsNumerals(keys, items);
    case Obj(fields) =>
      ProjectFieldsKeepsNumerals(keys, fields);
      PickKeepsNumerals(keys, ProjectFields(keys, fields));
    case _ =>
  }

  lemma {:induction false} ProjectItemsKeepsNumerals(keys: seq<string>, items: Items)
    requires NumeralsOkItems(items)
    ensures NumeralsOkItems(ProjectItems(keys, items))
  {
    if items.Item? {
      ProjectKeepsNumerals(keys, items.head);
      ProjectItemsKeepsNumerals(keys, items.tail);
    }
  }

  lemma {:induction false} ProjectFieldsKeepsNumerals(keys: seq<string>, fields: Fields)
    requires NumeralsOkFields(fields)
    ensures NumeralsOkFields(ProjectFields(keys, fields))
  {
    if fields.Field? {
      ProjectKeepsNumerals(keys, fields.value);
      ProjectFieldsKeepsNumerals(keys, fields.rest);
    }
  }

  lemma {:induction false} LookupNumerals(fields: Fields, k: string)
    requires NumeralsOkFields(fields) && Lookup(fields, k).Some?
    ensures NumeralsOk(Lookup(fields, k).value)
  {
    if fields.key != k {
      LookupNumerals(fields.rest, k);
    }
  }

  lemma {:induction false} PickKeepsNumerals(list: seq<string>, g: Fields)
    requires NumeralsOkFields(g)
    ensures NumeralsOkFields(Pick(list, g))
  {
    if list != [] {
      PickKeepsNumerals(list[1..], g);
      if Lookup(g, list[0]).Some? {
        LookupNumerals(g, list[0]);
      }
    }
  }

  // ---------------------------------------------------------------- what canonical text determines

  lemma SortedKeysOfMeaning(e: Fields, f: Fields)
    requires MeaningFields(e).Keys == MeaningFields(f).Keys
    ensures SortedKeys(e) == SortedKeys(f)
  {
    SortedKeysAscending(e);
    SortedKeysAscending(f);
    forall k ensures k in SortedKeys(e) <==> k in SortedKeys(f) {
      LookupMeaning(e, k);
      LookupMeaning(f, k);
      assert k in MeaningFields(e) <==> k in MeaningFields(f);
    }
    AscendingUnique(SortedKeys(e), SortedKeys(f));
  }

  // Two events have the same text iff the same of them is visible.
  lemma CanonicalIffVisible(e: Fields, f: Fields)
    requires NumeralsOkFields(e) && NumeralsOkFields(f)
    ensures Canonical(e) == Canonical(f) <==> Visible(e) == Visible(f)
  {
    ProjectKeepsNumerals(SortedKeys(e), Obj(e));
    ProjectKeepsNumerals(SortedKeys(f), Obj(f));
    if Canonical(e) == Canonical(f) {
      PrintUnique(Visible(e), Visible(f), [], []);
    }
  }

  /**
    For events whose nested keys are all top-level keys too, in particular for flat records:
    the text is the same iff the events mean the same. The order of the keys never matters,
    and nothing else is lost.
   */
  lemma CanonicalIffSameMeaning(e: Fields, f: Fields)
    requires NumeralsOkFields(e) && NumeralsOkFields(f) && SelfCovered(e) && SelfCovered(f)
    ensures Canonical(e) == Canonical(f) <==> MeaningFields(e) == MeaningFields(f)
  {
    CanonicalIffVisible(e, f);
    if Visible(e) == Visible(f) {
      CoveredKeepsMeaning(SortedKeys(e), Obj(e));
      CoveredKeepsMeaning(SortedKeys(f), Obj(f));
    }
    if MeaningFields(e) == MeaningFields(f) {
      SortedKeysOfMeaning(e, f);
      ProjectOfMeaning(SortedKeys(e), Obj(e), Obj(f));
    }
  }

  predicate IsFlat(event: Fields) {
    event.Field? ==> !event.value.Arr? && !event.value.Obj? && IsFlat(event.rest)
  }

  lemma {:induction false} FlatIsCovered(keys: seq<string>, event: Fields)
    requires IsFlat(event) && forall k :: k in Keys(event) ==> k in keys
    ensures CoveredFields(keys, event)
  {
    if event.Field? {
      assert event.key in Keys(event);
      FlatIsCovered(keys, event.rest);
    }
  }

  lemma FlatCanonicalIff(e: Fields, f: Fields)
    requires NumeralsOkFields(e) && NumeralsOkFields(f) && IsFlat(e) && IsFlat(f)
    ensures Canonical(e) == Canonical(f) <==> MeaningFields(e) == MeaningFields(f)
  {
    FlatIsCovered(SortedKeys(e), e);
    FlatIsCovered(SortedKeys(f), f);
    CanonicalIffSameMeaning(e, f);
  }

  lemma SortedKeysOfVisible(event: Fields)
    ensures Visible(event).Obj? && SortedKeys(Visible(event).fields) == SortedKeys(event)
  {
    var keys, p := SortedKeys(event), Visible(event).fields;
    SortedKeysAscending(event);
    SortedKeysAscending(p);
    forall k ensures k in SortedKeys(p) <==> k in keys {
      LookupMeaning(p, k);
      LookupMeaning(event, k);
      LookupPick(keys, ProjectFields(keys, event), k);
      LookupProject(keys, event, k);
    }
    AscendingUnique(SortedKeys(p), keys);
  }

  // Objects built by JavaScript never hold a key twice.
  predicate UniqueKeys(v: Value) {
    match v
    case Arr(items) => UniqueKeysItems(items)
    case Obj(fields) => UniqueKeysFields(fields)
    case _ => true
  }

  predicate UniqueKeysItems(items: Items) {
    items.Item? ==> UniqueKeys(items.head) && UniqueKeysItems(items.tail)
  }

  predicate UniqueKeysFields(fields: Fields) {
    fields.Field? ==> fields.key !in Keys(fields.rest) && UniqueKeys(fields.value) && UniqueKeysFields(fields.rest)
  }

  // Being covered is a matter of meaning.
  lemma {:induction false} CoveredByMeaning(keys: seq<string>, v: Value, w: Value)
    requires Covered(keys, v) && MeaningOf(v) == MeaningOf(w) && UniqueKeys(w)
    ensures Covered(keys, w)
    decreases w
  {
    match w
    case Arr(items) => CoveredItemsByMeaning(keys, v.items, items);
    case Obj(fields) =>
      CoveredFieldsKeepMeaning(keys, v.fields);
      CoveredFieldsByMeaning(keys, v.fields, fields);
    case _ =>
  }

  lemma {:induction false} CoveredItemsByMeaning(keys: seq<string>, a: Items, b: Items)
    requires CoveredItems(keys, a) && MeaningItems(a) == MeaningItems(b) && UniqueKeysItems(b)
    ensures CoveredItems(keys, b)
    decreases b
  {
    if b.Item? {
      assert MeaningItems(a)[0] == MeaningItems(b)[0] && MeaningItems(a)[1..] == MeaningItems(b)[1..];
      CoveredByMeaning(keys, a.head, b.head);
      CoveredItemsByMeaning(keys, a.tail, b.tail);
    }
  }

  // a holds at least the fields of b, with the same meanings.
  lemma {:induction false} CoveredFieldsByMeaning(keys: seq<string>, a: Fields, b: Fields)
    requires CoveredFields(keys, a) && UniqueKeysFields(b)
    requires forall k :: k in MeaningFields(b) ==> k in MeaningFields(a) && MeaningFields(a)[k] == MeaningFields(b)[k]
    ensures CoveredFields(keys, b)
    decreases b
  {
    if b.Field? {
      var k := b.key;
      assert k in MeaningFields(b);
      LookupMeaning(a, k);
      LookupCovered(keys, a, k);
      CoveredByMeaning(keys, Lookup(a, k).value, b.value);
      LookupMeaning(b.rest, k);
      CoveredFieldsByMeaning(keys, a, b.rest);
    }
  }

  lemma {:induction false} LookupCovered(keys: seq<string>, fields: Fields, k: string)
    requires CoveredFields(keys, fields) && Lookup(fields, k).Some?
    ensures k in keys && Covered(keys, Lookup(fields, k).value)
  {
    if fields.key != k {
      LookupCovered(keys, fields.rest, k);
    }
  }

  /**
    Exactly what the key list costs: the visible part of an event has the same text as the
    event, and it means the same iff no nested key is missing from the top level.
   */
  lemma CanonicalForgetsUncovered(event: Fields)
    requires UniqueKeysFields(event)
    ensures Visible(event).Obj?
    ensures var visible := Visible(event).fields;
      && Canonical(visible) == Canonical(event) && SelfCovered(visible)
      && (MeaningFields(visible) == MeaningFields(event) <==> SelfCovered(event))
  {
    var keys, visible := SortedKeys(event), Visible(event).fields;
    SortedKeysOfVisible(event);
    ProjectTwice(keys, Obj(event));
    ProjectedIsCovered(keys, Obj(event));
    if SelfCovered(event) {
      CoveredKeepsMeaning(keys, Obj(event));
    }
    if MeaningFields(visible) == MeaningFields(event) {
      CoveredByMeaning(keys, Obj(visible), Obj(event));
    }
  }

  lemma PickNothing(a: string, g: Fields)
    requires Lookup(g, a).None?
    ensures Pick([a], g) == NoField
  {
    assert [a][1..] == [];
  }

  // A nested key that is not a top-level key: its value does not reach the text.
  lemma NestedKeyIsDropped(a: string, b: string, v: Value)
    requires a != b
    ensures var event, bare := Field(a, Obj(Field(b, v, NoField)), NoField), Field(a, Obj(NoField), NoField);
      Canonical(event) == Canonical(bare) && SelfCovered(bare) && MeaningFields(event) != MeaningFields(bare)
  {
    var inner := Field(b, v, NoField);
    var event, bare := Field(a, Obj(inner), NoField), Field(a, Obj(NoField), NoField);
    LookupProject([a], inner, a);
    PickNothing(a, ProjectFields([a], inner));
    PickNothing(a, ProjectFields([a], NoField));
    assert SortedKeys(NoField) == [];
    assert SortedKeys(event) == [a];
    assert SortedKeys(bare) == [a];
    assert Project([a], Obj(inner)) == Obj(NoField) == Project([a], Obj(NoField));
    assert ProjectFields([a], NoField) == NoField;
    assert ProjectFields([a], event) == ProjectFields([a], bare);
    assert b in MeaningFields(inner) && b !in MeaningFields(NoField);
    assert MeaningFields(event)[a] == MObj(MeaningFields(inner)) && MeaningFields(bare)[a] == MObj(map[]);
  }

  // ---------------------------------------------------------------- when the text determines the event

  // No object inside, at any depth.
  predicate ObjectFree(v: Value) {
    match v
    case Arr(items) => ObjectFreeItems(items)
    case Obj(_) => false
    case _ => true
  }

  predicate ObjectFreeItems(items: Items) {
    items.Item? ==> ObjectFree(items.head) && ObjectFreeItems(items.tail)
  }

  // The event holds no object but itself.
  predicate NoNested(event: Fields) {
    event.Field? ==> ObjectFree(event.value) && NoNested(event.rest)
  }

  lemma {:induction false} ProjectKeepsObjects(keys: seq<string>, v: Value)
    ensures ObjectFree(Project(keys, v)) <==> ObjectFree(v)
    ensures ObjectFree(v) ==> Project(keys, v) == v
  {
    if v.Arr? {
      ProjectItemsKeepsObjects(keys, v.items);
    }
  }

  lemma {:induction false} ProjectItemsKeepsObjects(keys: seq<string>, items: Items)
    ensures ObjectFreeItems(ProjectItems(keys, items)) <==> ObjectFreeItems(items)
    ensures ObjectFreeItems(items) ==> ProjectItems(keys, items) == items
  {
    if items.Item? {
      ProjectKeepsObjects(keys, items.head);
      ProjectItemsKeepsObjects(keys, items.tail);
    }
  }

  lemma {:induction false} LookupObjectFree(event: Fields, k: string)
    requires NoNested(event) && Lookup(event, k).Some?
    ensures ObjectFree(Lookup(event, k).value)
  {
    if event.key != k {
      LookupObjectFree(event.rest, k);
    }
  }

  // Equal visible parts have equal top-level keys and, under each, equal visible parts.
  lemma VisibleFields(e: Fields, f: Fields, k: string)
    requires Visible(e) == Visible(f)
    ensures SortedKeys(e) == SortedKeys(f)
    ensures Lookup(e, k).Some? <==> Lookup(f, k).Some?
    ensures Lookup(e, k).Some?
        ==> Project(SortedKeys(e), Lookup(e, k).value) == Project(SortedKeys(e), Lookup(f, k).value)
  {
    SortedKeysOfVisible(e);
    SortedKeysOfVisible(f);
    var keys := SortedKeys(e);
    LookupMeaning(e, k);
    LookupMeaning(f, k);
    LookupPick(keys, ProjectFields(keys, e), k);
    LookupPick(keys, ProjectFields(keys, f), k);
    LookupProject(keys, e, k);
    LookupProject(keys, f, k);
  }

  // What holds no object is shown whole, and nothing else is shown like it.
  lemma VisibleDetermines(e: Fields, f: Fields)
    requires NoNested(e) && Visible(e) == Visible(f)
    ensures MeaningFields(e) == MeaningFields(f)
  {
    forall k ensures k in MeaningFields(e) <==> k in MeaningFields(f)
      ensures k in MeaningFields(e) ==> MeaningFields(e)[k] == MeaningFields(f)[k]
    {
      VisibleFields(e, f, k);
      LookupMeaning(e, k);
      LookupMeaning(f, k);
      if k in MeaningFields(e) {
        LookupObjectFree(e, k);
        ProjectKeepsObjects(SortedKeys(e), Lookup(e, k).value);
        ProjectKeepsObjects(SortedKeys(e), Lookup(f, k).value);
      }
    }
  }

  // Every object that stands outermost in v gets one more field.
  function Grown(k: string, v: Value): Value {
    match v
    case Arr(items) => Arr(GrownItems(k, items))
    case Obj(fields) => Obj(Field(k, Null, fields))
    case _ => v
  }

  function GrownItems(k: string, items: Items): Items {
    match items
    case NoItem => NoItem
    case Item(head, tail) => Item(Grown(k, head), GrownItems(k, tail))
  }

  function GrownFields(k: string, fields: Fields): Fields {
    match fields
    case NoField => NoField
    case Field(key, value, rest) => Field(key, Grown(k, value), GrownFields(k, rest))
  }

  // A key that none of these objects has.
  predicate New(k: string, v: Value) {
    match v
    case Arr(items) => NewItems(k, items)
    case Obj(fields) => k !in Keys(fields)
    case _ => true
  }

  predicate NewItems(k: string, items: Items) {
    items.Item? ==> New(k, items.head) && NewItems(k, items.tail)
  }

  predicate NewFields(k: string, fields: Fields) {
    fields.Field? ==> k != fields.key && New(k, fields.value) && NewFields(k, fields.rest)
  }

  // The length of all keys of these objects together: no longer key is one of them.
  function KeyLength(v: Value): nat {
    match v
    case Arr(items) => KeyLengthItems(items)
    case Obj(fields) => KeyLengthOwn(fields)
    case _ => 0
  }

  function KeyLengthItems(items: Items): nat {
    if items.NoItem? then 0 else KeyLength(items.head) + KeyLengthItems(items.tail)
  }

  function KeyLengthOwn(fields: Fields): nat {
    if fields.NoField? then 0 else |fields.key| + KeyLengthOwn(fields.rest)
  }

  function KeyLengthFields(fields: Fields): nat {
    if fields.NoField? then 0 else |fields.key| + KeyLength(fields.value) + KeyLengthFields(fields.rest)
  }

  lemma {:induction false} LongIsNotOwn(k: string, fields: Fields)
    requires |k| > KeyLengthOwn(fields)
    ensures k !in Keys(fields)
  {
    if fields.Field? {
      LongIsNotOwn(k, fields.rest);
    }
  }

  lemma {:induction false} LongIsNew(k: string, v: Value)
    requires |k| > KeyLength(v)
    ensures New(k, v)
  {
    match v
    case Arr(items) => LongIsNewItems(k, items);
    case Obj(fields) => LongIsNotOwn(k, fields);
    case _ =>
  }

  lemma {:induction false} LongIsNewItems(k: string, items: Items)
    requires |k| > KeyLengthItems(items)
    ensures NewItems(k, items)
  {
    if items.Item? {
      LongIsNew(k, items.head);
      LongIsNewItems(k, items.tail);
    }
  }

  lemma {:induction false} LongIsNewFields(k: string, fields: Fields)
    requires |k| > KeyLengthFields(fields)
    ensures NewFields(k, fields)
  {
    if fields.Field? {
      LongIsNew(k, fields.value);
      LongIsNewFields(k, fields.rest);
    }
  }

  lemma SomeNewKey(event: Fields) returns (k: string)
    ensures NewFields(k, event)
  {
    k := seq(KeyLengthFields(event) + 1, _ => 'k');
    LongIsNewFields(k, event);
  }

  lemma {:induction false} NewIsNoKey(k: string, fields: Fields)
    requires NewFields(k, fields)
    ensures k !in Keys(fields)
  {
    if fields.Field? {
      NewIsNoKey(k, fields.rest);
    }
  }

  // The key list does not show the new fields.
  lemma {:induction false} GrownLooksSame(keys: seq<string>, k: string, v: Value)
    requires k !in keys
    ensures Project(keys, Grown(k, v)) == Project(keys, v)
  {
    match v
    case Arr(items) => GrownItemsLookSame(keys, k, items);
    case Obj(fields) =>
      PickSame(keys, ProjectFields(keys, Field(k, Null, fields)), ProjectFields(keys, fields));
    case _ =>
  }

  lemma {:induction false} GrownItemsLookSame(keys: seq<string>, k: string, items: Items)
    requires k !in keys
    ensures ProjectItems(keys, GrownItems(k, items)) == ProjectItems(keys, items)
  {
    if items.Item? {
      GrownLooksSame(keys, k, items.head);
      GrownItemsLookSame(keys, k, items.tail);
    }
  }

  lemma {:induction false} GrownFieldsLookSame(keys: seq<string>, k: string, fields: Fields)
    requires k !in keys
    ensures ProjectFields(keys, GrownFields(k, fields)) == ProjectFields(keys, fields)
  {
    if fields.Field? {
      GrownLooksSame(keys, k, fields.value);
      GrownFieldsLookSame(keys, k, fields.rest);
    }
  }

  lemma {:induction false} GrownKeys(k: string, fields: Fields)
    ensures Keys(GrownFields(k, fields)) == Keys(fields)
    ensures SortedKeys(GrownFields(k, fields)) == SortedKeys(fields)
  {
    if fields.Field? {
      GrownKeys(k, fields.rest);
    }
  }

  lemma {:induction false} GrownIsWellFormed(k: string, v: Value)
    requires NumeralsOk(v) && UniqueKeys(v) && New(k, v)
    ensures NumeralsOk(Grown(k, v)) && UniqueKeys(Grown(k, v))
  {
    if v.Arr? {
      GrownItemsAreWellFormed(k, v.items);
    }
  }

  lemma {:induction false} GrownItemsAreWellFormed(k: string, items: Items)
    requires NumeralsOkItems(items) && UniqueKeysItems(items) && NewItems(k, items)
    ensures NumeralsOkItems(GrownItems(k, items)) && UniqueKeysItems(GrownItems(k, items))
  {
    if items.Item? {
      GrownIsWellFormed(k, items.head);
      GrownItemsAreWellFormed(k, items.tail);
    }
  }

  lemma {:induction false} GrownFieldsAreWellFormed(k: string, fields: Fields)
    requires NumeralsOkFields(fields) && UniqueKeysFields(fields) && NewFields(k, fields)
    ensures NumeralsOkFields(GrownFields(k, fields)) && UniqueKeysFields(GrownFields(k, fields))
  {
    if fields.Field? {
      GrownIsWellFormed(k, fields.value);
      GrownFieldsAreWellFormed(k, fields.rest);
      GrownKeys(k, fields.rest);
    }
  }

  // They change what is meant, if there is an object to change.
  lemma {:induction false} GrownMeansMore(k: string, v: Value)
    requires New(k, v) && !ObjectFree(v)
    ensures MeaningOf(Grown(k, v)) != MeaningOf(v)
  {
    match v
    case Arr(items) => GrownItemsMeanMore(k, items);
    case Obj(fields) =>
      LookupMeaning(fields, k);
      assert k in MeaningFields(Field(k, Null, fields)) && k !in MeaningFields(fields);
  }

  lemma {:induction false} GrownItemsMeanMore(k: string, items: Items)
    requires NewItems(k, items) && !ObjectFreeItems(items)
    ensures MeaningItems(GrownItems(k, items)) != MeaningItems(items)
  {
    var more, was := MeaningItems(GrownItems(k, items)), MeaningItems(items);
    assert more[0] == MeaningOf(Grown(k, items.head)) && was[0] == MeaningOf(items.head);
    assert more[1..] == MeaningItems(GrownItems(k, items.tail)) && was[1..] == MeaningItems(items.tail);
    if ObjectFree(items.head) {
      GrownItemsMeanMore(k, items.tail);
    } else {
      GrownMeansMore(k, items.head);
    }
  }

  lemma {:induction false} GrownFieldsMeanMore(k: string, fields: Fields)
    requires UniqueKeysFields(fields) && NewFields(k, fields) && !NoNested(fields)
    ensures MeaningFields(GrownFields(k, fields)) != MeaningFields(fields)
  {
    var more, was := MeaningFields(GrownFields(k, fields)), MeaningFields(fields);
    assert more[fields.key] == MeaningOf(Grown(k, fields.value)) && was[fields.key] == MeaningOf(fields.value);
    if ObjectFree(fields.value) {
      GrownFieldsMeanMore(k, fields.rest);
      GrownKeys(k, fields.rest);
      LookupMeaning(fields.rest, fields.key);
      LookupMeaning(GrownFields(k, fields.rest), fields.key);
      OtherFieldsDiffer(MeaningFields(GrownFields(k, fields.rest)), MeaningFields(fields.rest), fields.key,
                        MeaningOf(Grown(k, fields.value)), MeaningOf(fields.value));
    } else {
      GrownMeansMore(k, fields.value);
    }
  }

  lemma OtherFieldsDiffer(a: map<string, Meaning>, b: map<string, Meaning>, key: string, x: Meaning, y: Meaning)
    requires a != b && key !in a && key !in b
    ensures a[key := x] != b[key := y]
  {
    assert a == a[key := x] - {key} && b == b[key := y] - {key};
  }

  // Another event with the same text.
  lemma SomethingHidden(e: Fields) returns (f: Fields)
    requires NumeralsOkFields(e) && UniqueKeysFields(e) && !NoNested(e)
    ensures NumeralsOkFields(f) && UniqueKeysFields(f)
    ensures Canonical(f) == Canonical(e) && MeaningFields(f) != MeaningFields(e)
  {
    var k := SomeNewKey(e);
    f := GrownFields(k, e);
    NewIsNoKey(k, e);
    GrownKeys(k, e);
    GrownFieldsLookSame(SortedKeys(e), k, e);
    GrownFieldsAreWellFormed(k, e);
    GrownFieldsMeanMore(k, e);
  }

  /** The text of an event determines what it means iff the event holds no other object. */
  lemma TextDeterminesIff(e: Fields)
    requires NumeralsOkFields(e) && UniqueKeysFields(e)
    ensures (forall f :: NumeralsOkFields(f) && UniqueKeysFields(f) && Canonical(f) == Canonical(e)
                         ==> MeaningFields(f) == MeaningFields(e))
       <==> NoNested(e)
  {
    if NoNested(e) {
      forall f | NumeralsOkFields(f) && UniqueKeysFields(f) && Canonical(f) == Canonical(e)
        ensures MeaningFields(f) == MeaningFields(e)
      {
        CanonicalIffVisible(e, f);
        VisibleDetermines(e, f);
      }
    } else {
      var f := SomethingHidden(e);
    }
  }
}
