/**
  CSV printing of client/lib/csv-utils.ts, and a reader for section 2 of RFC 4180 with LF
  between records. The reader departs from section 2 in two places, named where it begins.
 */
module Csv {
  import opened Options
  import opened Seqs

  // A value of a row: null and undefined are None, everything else is its String(...) text.
  type Cell = Option<string>

  // ---------------------------------------------------------------- printing

  predicate IsTrigger(c: char) {
    c == '=' || c == '+' || c == '-' || c == '@' || c == '\t' || c == '\r'
  }

  predicate TriggerLed(s: string) {
    s != [] && IsTrigger(s[0])
  }

  predicate IsSpecial(c: char) {
    c == ',' || c == '\n' || c == '"'
  }

  predicate HasSpecial(s: string) {
    exists i :: 0 <= i < |s| && IsSpecial(s[i])
  }

  function Doubled(c: char): string {
    if c == '"' then ['"', '"'] else [c]
  }

  function DoubleQuotes(s: string): string {
    if s == [] then [] else Doubled(s[0]) + DoubleQuotes(s[1..])
  }

  function SanitizeCell(cell: Cell): string {
    match cell
    case None => []
    case Some(s) =>
      if TriggerLed(s) then ['\''] + s
      else if HasSpecial(s) then ['"'] + DoubleQuotes(s) + ['"']
      else s
  }

  // row.map(sanitizeCSVCell).join(",")
  function Line(row: seq<Cell>): string {
    if row == [] then []
    else if |row| == 1 then SanitizeCell(row[0])
    else SanitizeCell(row[0]) + [','] + Line(row[1..])
  }

  function Lines(table: seq<seq<Cell>>): string
    requires table != []
  {
    if |table| == 1 then Line(table[0]) else Line(table[0]) + ['\n'] + Lines(table[1..])
  }

  function TableOf(headers: seq<string>, rows: seq<seq<Cell>>): seq<seq<Cell>> {
    [seq(|headers|, i requires 0 <= i < |headers| => Some(headers[i]))] + rows
  }

  function GenerateSafeCSV(headers: seq<string>, rows: seq<seq<Cell>>): string {
    Lines(TableOf(headers, rows))
  }

  /**
    What is printed for a cell: nothing for none; an apostrophe in front of =, +, -, @, a tab or a
    carriage return; else quotes around a comma, a line feed or a quote, with each quote doubled.
   */
  lemma PrintedCell(s: string)
    ensures SanitizeCell(None) == ""
    ensures SanitizeCell(Some(s)) ==
      if s != [] && s[0] in ['=', '+', '-', '@', '\t', '\r'] then ['\''] + s
      else if ',' in s || '\n' in s || '"' in s then ['"'] + DoubleQuotes(s) + ['"']
      else s
  {
    if HasSpecial(s) {
      var i :| 0 <= i < |s| && IsSpecial(s[i]);
      assert s[i] in s;
    }
  }

  /** Nothing that is printed begins with one of these characters. */
  lemma NothingLeadsWithTrigger(cell: Cell)
    ensures var text := SanitizeCell(cell);
      text != [] ==> text[0] !in ['=', '+', '-', '@', '\t', '\r']
  {
  }

  // ---------------------------------------------------------------- reading

  // Section 2 keeps a bare CR out of unquoted text; the reader takes one there as text, because
  // the printer leaves it unquoted. Section 2 also lets the last record end in a line break; the
  // printer ends it in none, so the reader takes a final line feed as the start of one more record.

  // A field and the text behind it.
  datatype Field = Field(value: string, rest: string)

  // Up to the next comma, line feed or quote.
  function ReadPlain(text: string): (f: Field)
    ensures text == f.value + f.rest
  {
    if text == [] || IsSpecial(text[0]) then Field([], text)
    else
      var f := ReadPlain(text[1..]);
      Field([text[0]] + f.value, f.rest)
  }

  // Behind an opening quote: up to a quote that is not doubled.
  function ReadQuoted(text: string): (f: Option<Field>)
    ensures f.Some? ==> |f.value.rest| < |text|
    decreases |text|
  {
    if text == [] then None
    else if text[0] != '"' then
      match ReadQuoted(text[1..])
      case None => None
      case Some(f) => Some(Field([text[0]] + f.value, f.rest))
    else if |text| > 1 && text[1] == '"' then
      match ReadQuoted(text[2..])
      case None => None
      case Some(f) => Some(Field(['"'] + f.value, f.rest))
    else Some(Field([], text[1..]))
  }

  predicate EndsField(rest: string) {
    rest == [] || rest[0] == ',' || rest[0] == '\n'
  }

  function ReadField(text: string): (f: Option<Field>)
    ensures f.Some? ==> EndsField(f.value.rest) && |f.value.rest| <= |text|
  {
    if text != [] && text[0] == '"' then
      match ReadQuoted(text[1..])
      case None => None
      case Some(f) => if EndsField(f.rest) then Some(f) else None
    else
      var f := ReadPlain(text);
      if EndsField(f.rest) then Some(f) else None
  }

  // The records of a text, None where it is malformed. Every text has at least one record,
  // and every record at least one field.
  function Read(text: string): (r: Option<seq<seq<string>>>)
    ensures r.Some? ==> r.value != [] && r.value[0] != []
    decreases |text|
  {
    match ReadField(text)
    case None => None
    case Some(f) =>
      if f.rest == [] then Some([[f.value]])
      else
        match Read(f.rest[1..])
        case None => None
        case Some(records) =>
          if f.rest[0] == '\n' then Some([[f.value]] + records)
          else Some([[f.value] + records[0]] + records[1..])
  }

  // ---------------------------------------------------------------- one cell

  // What a reader is meant to see: the value, with an apostrophe in front of a trigger.
  function Shown(cell: Cell): string {
    match cell
    case None => []
    case Some(s) => if TriggerLed(s) then ['\''] + s else s
  }

  // The guard that puts the apostrophe leaves the cell unquoted, whatever else it holds.
  predicate Safe(cell: Cell) {
    cell.Some? && TriggerLed(cell.value) ==> !HasSpecial(cell.value)
  }

  lemma TailHasNoSpecial(s: string)
    requires s != [] && !HasSpecial(s)
    ensures !IsSpecial(s[0]) && !HasSpecial(s[1..])
  {
    assert forall i :: 0 <= i < |s[1..]| ==> s[1..][i] == s[i + 1];
  }

  lemma PlainReadsOne(c: char, text: string)
    requires !IsSpecial(c)
    ensures ReadPlain([c] + text) == Field([c] + ReadPlain(text).value, ReadPlain(text).rest)
  {
    assert ([c] + text)[1..] == text;
  }

  lemma {:induction false} PlainReadsAll(s: string, rest: string)
    requires !HasSpecial(s) && EndsField(rest)
    ensures ReadPlain(s + rest) == Field(s, rest)
  {
    if s == [] {
      assert s + rest == rest;
    } else {
      var c, more := s[0], s[1..];
      TailHasNoSpecial(s);
      PlainReadsAll(more, rest);
      PlainReadsOne(c, more + rest);
      Assoc([c], more, rest);
      assert s == [c] + more;
    }
  }

  lemma {:induction false} PlainStopsInside(s: string, rest: string)
    requires HasSpecial(s)
    ensures |ReadPlain(s + rest).value| < |s|
  {
    if !IsSpecial(s[0]) {
      var i :| 0 <= i < |s| && IsSpecial(s[i]);
      assert s[1..][i - 1] == s[i];
      PlainStopsInside(s[1..], rest);
      PlainReadsOne(s[0], s[1..] + rest);
      Assoc([s[0]], s[1..], rest);
      assert s == [s[0]] + s[1..];
    }
  }

  lemma QuotedReadsOne(c: char, text: string)
    ensures var f := ReadQuoted(text);
      f.Some? ==> ReadQuoted(Doubled(c) + text) == Some(Field([c] + f.value.value, f.value.rest))
  {
    if c == '"' {
      assert (Doubled(c) + text)[2..] == text;
    } else {
      assert (Doubled(c) + text)[1..] == text;
    }
  }

  lemma {:induction false} QuotedReadsAll(s: string, rest: string)
    requires rest == [] || rest[0] != '"'
    ensures ReadQuoted(DoubleQuotes(s) + (['"'] + rest)) == Some(Field(s, rest))
  {
    var tail := ['"'] + rest;
    if s == [] {
      assert DoubleQuotes(s) + tail == tail && tail[1..] == rest;
    } else {
      QuotedReadsAll(s[1..], rest);
      QuotedReadsOne(s[0], DoubleQuotes(s[1..]) + tail);
      Assoc(Doubled(s[0]), DoubleQuotes(s[1..]), tail);
      assert s == [s[0]] + s[1..];
    }
  }

  lemma LedSpecial(s: string)
    ensures HasSpecial(['\''] + s) <==> HasSpecial(s)
  {
    var led := ['\''] + s;
    if HasSpecial(s) {
      var i :| 0 <= i < |s| && IsSpecial(s[i]);
      assert led[i + 1] == s[i];
    }
    assert forall i :: 1 <= i < |led| ==> led[i] == s[i - 1];
  }

  lemma SafeTriggerRead(s: string, rest: string)
    requires !HasSpecial(s) && EndsField(rest)
    ensures ReadField(['\''] + s + rest) == Some(Field(['\''] + s, rest))
  {
    var led := ['\''] + s;
    assert (led + rest)[0] == '\'';
    LedSpecial(s);
    PlainReadsAll(led, rest);
  }

  // Unquoted, the field ends at the first of these characters, or the text is malformed.
  lemma UnsafeTriggerRead(s: string, rest: string)
    requires HasSpecial(s)
    ensures var f := ReadField(['\''] + s + rest);
      f.Some? ==> |f.value.value| <= |s|
  {
    var led := ['\''] + s;
    assert (led + rest)[0] == '\'';
    LedSpecial(s);
    PlainStopsInside(led, rest);
  }

  lemma QuotedRead(s: string, rest: string)
    requires EndsField(rest)
    ensures ReadField(['"'] + DoubleQuotes(s) + ['"'] + rest) == Some(Field(s, rest))
  {
    var inner := DoubleQuotes(s) + (['"'] + rest);
    Assoc(['"'] + DoubleQuotes(s), ['"'], rest);
    Assoc(['"'], DoubleQuotes(s), ['"'] + rest);
    assert (['"'] + inner)[1..] == inner;
    QuotedReadsAll(s, rest);
  }

  lemma PlainRead(s: string, rest: string)
    requires !HasSpecial(s) && EndsField(rest)
    ensures ReadField(s + rest) == Some(Field(s, rest))
  {
    PlainReadsAll(s, rest);
    if s == [] {
      assert s + rest == rest;
    } else {
      assert (s + rest)[0] == s[0] && !IsSpecial(s[0]);
    }
  }

  // Exactly the safe cells come back as shown.
  lemma CellReadIff(cell: Cell, rest: string)
    requires EndsField(rest)
    ensures var f := ReadField(SanitizeCell(cell) + rest);
      if Safe(cell) then f == Some(Field(Shown(cell), rest)) else f.None? || f.value.value != Shown(cell)
  {
    match cell
    case None => PlainRead([], rest);
    case Some(s) =>
      if TriggerLed(s) {
        if HasSpecial(s) {
          UnsafeTriggerRead(s, rest);
        } else {
          SafeTriggerRead(s, rest);
        }
      } else if HasSpecial(s) {
        QuotedRead(s, rest);
      } else {
        PlainRead(s, rest);
      }
  }

  // ---------------------------------------------------------------- tables

  function ShownRow(row: seq<Cell>): (r: seq<string>)
    ensures |r| == |row| && forall i :: 0 <= i < |row| ==> r[i] == Shown(row[i])
  {
    if row == [] then [] else [Shown(row[0])] + ShownRow(row[1..])
  }

  function ShownTable(table: seq<seq<Cell>>): (r: seq<seq<string>>)
    ensures |r| == |table| && forall i :: 0 <= i < |table| ==> r[i] == ShownRow(table[i])
  {
    if table == [] then [] else [ShownRow(table[0])] + ShownTable(table[1..])
  }

  predicate SafeRow(row: seq<Cell>) {
    forall i :: 0 <= i < |row| ==> Safe(row[i])
  }

  // No row is empty and no trigger-led cell holds a comma, a line feed or a quote.
  predicate Faithful(table: seq<seq<Cell>>) {
    forall i :: 0 <= i < |table| ==> table[i] != [] && SafeRow(table[i])
  }

  // What follows a line.
  function Below(more: seq<seq<Cell>>): string {
    if more == [] then [] else ['\n'] + Lines(more)
  }

  lemma LinesSplit(row: seq<Cell>, more: seq<seq<Cell>>)
    ensures Lines([row] + more) == Line(row) + Below(more)
  {
    assert ([row] + more)[1..] == more;
  }

  // The text from one cell on: the cell, and what stands behind it.
  function Behind(row: seq<Cell>, more: seq<seq<Cell>>): string
    requires row != []
  {
    if |row| == 1 then Below(more) else [','] + (Line(row[1..]) + Below(more))
  }

  lemma LineSplit(row: seq<Cell>, more: seq<seq<Cell>>)
    requires row != []
    ensures Line(row) + Below(more) == SanitizeCell(row[0]) + Behind(row, more)
    ensures EndsField(Behind(row, more))
  {
    if |row| > 1 {
      Assoc(SanitizeCell(row[0]) + [','], Line(row[1..]), Below(more));
      Assoc(SanitizeCell(row[0]), [','], Line(row[1..]) + Below(more));
    }
  }

  lemma RowSplit(row: seq<Cell>)
    requires row != []
    ensures SafeRow(row) <==> Safe(row[0]) && SafeRow(row[1..])
    ensures ShownRow(row) == [Shown(row[0])] + ShownRow(row[1..])
  {
    assert forall i :: 1 <= i < |row| ==> row[i] == row[1..][i - 1];
  }

  lemma TableSplit(table: seq<seq<Cell>>)
    requires table != []
    ensures Faithful(table) <==> table[0] != [] && SafeRow(table[0]) && Faithful(table[1..])
    ensures ShownTable(table) == [ShownRow(table[0])] + ShownTable(table[1..])
  {
    assert forall i :: 1 <= i < |table| ==> table[i] == table[1..][i - 1];
  }

  /** Reading a row and what is below it gives back what is shown iff all of it is faithful. */
  lemma {:induction false} RowReadIff(row: seq<Cell>, more: seq<seq<Cell>>)
    requires row != []
    ensures Read(Line(row) + Below(more)) == Some([ShownRow(row)] + ShownTable(more))
       <==> SafeRow(row) && Faithful(more)
    decreases |more|, |row|
  {
    var cell, rest := row[0], Behind(row, more);
    LineSplit(row, more);
    RowSplit(row);
    CellReadIff(cell, rest);
    if |row| == 1 {
      assert ShownRow(row) == [Shown(cell)];
      assert [ShownRow(row)] + [] == [[Shown(cell)]];
    }
    if !Safe(cell) {
      FirstFieldDiffers(SanitizeCell(cell) + rest, Shown(cell), [ShownRow(row)] + ShownTable(more));
    } else if |row| > 1 {
      RowReadIff(row[1..], more);
      SameRecord(SanitizeCell(cell) + rest, Field(Shown(cell), rest), ShownRow(row[1..]), ShownTable(more));
    } else if more != [] {
      BelowReadIff(more);
      NextRecord(SanitizeCell(cell) + rest, Field(Shown(cell), rest), ShownTable(more));
    }
  }

  lemma {:induction false} BelowReadIff(more: seq<seq<Cell>>)
    requires more != []
    ensures Read(Lines(more)) == Some(ShownTable(more)) <==> Faithful(more)
    decreases |more|, 0
  {
    assert more == [more[0]] + more[1..];
    LinesSplit(more[0], more[1..]);
    TableSplit(more);
    if more[0] == [] {
      assert ShownTable(more)[0] == [];
    } else {
      RowReadIff(more[0], more[1..]);
    }
  }

  lemma FirstFieldDiffers(text: string, shown: string, table: seq<seq<string>>)
    requires ReadField(text).None? || ReadField(text).value.value != shown
    requires table != [] && table[0] != [] && table[0][0] == shown
    ensures Read(text) != Some(table)
  {
    if Read(text).Some? {
      assert Read(text).value[0][0] == ReadField(text).value.value;
    }
  }

  // A comma behind the field: the record goes on.
  lemma SameRecord(text: string, f: Field, record: seq<string>, more: seq<seq<string>>)
    requires ReadField(text) == Some(f) && f.rest != [] && f.rest[0] == ','
    ensures Read(text) == Some([[f.value] + record] + more) <==> Read(f.rest[1..]) == Some([record] + more)
  {
    match Read(f.rest[1..])
    case None =>
    case Some(records) =>
      var read := [[f.value] + records[0]] + records[1..];
      var wanted := [[f.value] + record] + more;
      if read == wanted {
        assert records[0] == read[0][1..] == wanted[0][1..] == record;
        assert records[1..] == read[1..] == wanted[1..] == more;
        assert records == [record] + more;
      }
  }

  // A line feed behind the field: the record ends.
  lemma NextRecord(text: string, f: Field, more: seq<seq<string>>)
    requires ReadField(text) == Some(f) && f.rest != [] && f.rest[0] == '\n'
    ensures Read(text) == Some([[f.value]] + more) <==> Read(f.rest[1..]) == Some(more)
  {
    match Read(f.rest[1..])
    case None =>
    case Some(records) =>
      if [[f.value]] + records == [[f.value]] + more {
        assert records == ([[f.value]] + records)[1..] == ([[f.value]] + more)[1..] == more;
      }
  }

  /**
    The reader recovers from generateSafeCSV the headers and rows, with one apostrophe in front
    of every trigger cell, for exactly the tables without an empty row in which no trigger-led
    cell also holds a comma, a line feed or a quote.
   */
  lemma RoundTripIff(headers: seq<string>, rows: seq<seq<Cell>>)
    ensures Read(GenerateSafeCSV(headers, rows)) == Some(ShownTable(TableOf(headers, rows)))
       <==> Faithful(TableOf(headers, rows))
  {
    BelowReadIff(TableOf(headers, rows));
  }

  // A cell as it comes back: nothing for none, an apostrophe in front of a trigger.
  function AsShown(cell: Cell): string {
    if cell.None? then ""
    else if cell.value != "" && cell.value[0] in ['=', '+', '-', '@', '\t', '\r'] then ['\''] + cell.value
    else cell.value
  }

  // The cell comes back: it is not led by a trigger, or holds no comma, line feed or quote.
  predicate ComesBack(cell: Cell) {
    cell.None? || cell.value == "" || cell.value[0] !in ['=', '+', '-', '@', '\t', '\r']
    || !(',' in cell.value || '\n' in cell.value || '"' in cell.value)
  }

  lemma ComesBackIff(cell: Cell)
    ensures ComesBack(cell) <==> Safe(cell)
    ensures AsShown(cell) == Shown(cell)
  {
    if cell.Some? && HasSpecial(cell.value) {
      var i :| 0 <= i < |cell.value| && IsSpecial(cell.value[i]);
      assert cell.value[i] in cell.value;
    }
  }

  // What is read is the headers, then the rows, cell for cell.
  ghost predicate IsTable(read: seq<seq<string>>, headers: seq<string>, rows: seq<seq<Cell>>) {
    && |read| == 1 + |rows| && |read[0]| == |headers|
    && (forall i :: 0 <= i < |headers| ==> read[0][i] == AsShown(Some(headers[i])))
    && (forall j :: 0 <= j < |rows| ==> IsRow(read[j + 1], rows[j]))
  }

  ghost predicate IsRow(read: seq<string>, row: seq<Cell>) {
    |read| == |row| && forall i :: 0 <= i < |row| ==> read[i] == AsShown(row[i])
  }

  lemma ShownRowIs(row: seq<Cell>)
    ensures IsRow(ShownRow(row), row)
  {
    forall i | 0 <= i < |row| ensures AsShown(row[i]) == Shown(row[i]) {
      ComesBackIff(row[i]);
    }
  }

  lemma ShownTableIs(headers: seq<string>, rows: seq<seq<Cell>>)
    ensures IsTable(ShownTable(TableOf(headers, rows)), headers, rows)
  {
    var table := TableOf(headers, rows);
    assert forall j :: 0 <= j < |rows| ==> table[j + 1] == rows[j];
    forall i | 0 <= i < |headers| ensures AsShown(Some(headers[i])) == Shown(table[0][i]) {
      ComesBackIff(Some(headers[i]));
    }
    forall j | 0 <= j < |rows| ensures IsRow(ShownTable(table)[j + 1], rows[j]) {
      ShownRowIs(rows[j]);
    }
  }

  lemma FaithfulIff(headers: seq<string>, rows: seq<seq<Cell>>)
    ensures Faithful(TableOf(headers, rows)) <==> AllComeBack(headers, rows)
  {
    var table := TableOf(headers, rows);
    assert forall j :: 1 <= j < |table| ==> table[j] == rows[j - 1];
    forall cell ensures ComesBack(cell) <==> Safe(cell) {
      ComesBackIff(cell);
    }
    if Faithful(table) {
      assert SafeRow(table[0]);
      forall i | 0 <= i < |headers| ensures ComesBack(Some(headers[i])) {
        assert Safe(table[0][i]);
      }
      forall j | 0 <= j < |rows| ensures rows[j] != [] && SafeRow(rows[j]) {
        assert table[j + 1] == rows[j];
      }
    } else {
      var j :| 0 <= j < |table| && !(table[j] != [] && SafeRow(table[j]));
      if j > 0 {
        assert table[j] == rows[j - 1];
      }
    }
  }

  lemma TablesAgree(a: seq<seq<string>>, b: seq<seq<string>>, headers: seq<string>, rows: seq<seq<Cell>>)
    requires IsTable(a, headers, rows) && IsTable(b, headers, rows)
    ensures a == b
  {
    assert a[0] == b[0];
    forall j | 0 <= j < |a| ensures a[j] == b[j] {
      if j > 0 {
        var k := j - 1;
        assert IsRow(a[k + 1], rows[k]) && IsRow(b[k + 1], rows[k]);
      }
    }
  }

  // There are headers, no row is empty, and every cell is one that comes back.
  ghost predicate AllComeBack(headers: seq<string>, rows: seq<seq<Cell>>) {
    && headers != [] && (forall i :: 0 <= i < |headers| ==> ComesBack(Some(headers[i])))
    && (forall j :: 0 <= j < |rows| ==> rows[j] != [])
    && (forall j, i :: 0 <= j < |rows| && 0 <= i < |rows[j]| ==> ComesBack(rows[j][i]))
  }

  /** The reader gives back the headers and the rows iff all of them come back. */
  lemma RecoveredIff(headers: seq<string>, rows: seq<seq<Cell>>)
    ensures (exists table :: Read(GenerateSafeCSV(headers, rows)) == Some(table) && IsTable(table, headers, rows))
       <==> AllComeBack(headers, rows)
  {
    RoundTripIff(headers, rows);
    FaithfulIff(headers, rows);
    var shown := ShownTable(TableOf(headers, rows));
    ShownTableIs(headers, rows);
    if table :| Read(GenerateSafeCSV(headers, rows)) == Some(table) && IsTable(table, headers, rows) {
      TablesAgree(table, shown, headers, rows);
    }
  }

  // ---------------------------------------------------------------- fields that start like a formula

  predicate Separates(c: char) {
    c == ',' || c == '\n'
  }

  // Behind one of its commas or line feeds the text starts like a formula.
  ghost predicate FormulaBehindSeparator(s: string) {
    exists i :: 0 <= i < |s| - 1 && Separates(s[i]) && IsTrigger(s[i + 1])
  }

  ghost predicate Harmless(records: seq<seq<string>>) {
    forall i, j :: 0 <= i < |records| && 0 <= j < |records[i]| ==> !TriggerLed(records[i][j])
  }

  // The text can be read, and no field of it starts like a formula.
  ghost predicate ReadsHarmless(text: string) {
    Read(text).Some? && Harmless(Read(text).value)
  }

  // Whether the text can be read, and what then holds of its fields.
  ghost predicate ReadsAs(text: string, readable: bool, harmless: bool) {
    && (Read(text).Some? <==> readable)
    && (ReadsHarmless(text) <==> readable && harmless)
  }

  // The same about what stands behind a field.
  ghost predicate RestReadsAs(rest: string, readable: bool, harmless: bool) {
    EndsField(rest) && if rest == [] then readable && harmless else ReadsAs(rest[1..], readable, harmless)
  }

  // One field in front.
  lemma FieldInFront(text: string, f: Field, readable: bool, harmless: bool)
    requires ReadField(text) == Some(f) && RestReadsAs(f.rest, readable, harmless)
    ensures ReadsAs(text, readable, !TriggerLed(f.value) && harmless)
  {
    if f.rest == [] {
      assert [[f.value]][0][0] == f.value;
    } else if readable {
      var records := Read(f.rest[1..]).value;
      if f.rest[0] == '\n' {
        RecordInFront(f.value, records);
      } else {
        FieldAdded(f.value, records);
      }
    }
  }

  lemma RecordInFront(value: string, records: seq<seq<string>>)
    ensures Harmless([[value]] + records) <==> !TriggerLed(value) && Harmless(records)
  {
    var all := [[value]] + records;
    assert all[0][0] == value;
    assert forall i :: 0 <= i < |records| ==> all[i + 1] == records[i];
  }

  lemma FieldAdded(value: string, records: seq<seq<string>>)
    requires records != []
    ensures Harmless([[value] + records[0]] + records[1..]) <==> !TriggerLed(value) && Harmless(records)
  {
    var first := [value] + records[0];
    var all := [first] + records[1..];
    assert all[0][0] == value;
    assert forall j :: 0 <= j < |records[0]| ==> first[j + 1] == records[0][j];
    assert forall i :: 1 <= i < |records| ==> all[i] == records[i];
  }

  lemma {:induction false} FirstSpecial(s: string) returns (k: nat)
    requires HasSpecial(s)
    ensures k < |s| && IsSpecial(s[k]) && forall i :: 0 <= i < k ==> !IsSpecial(s[i])
  {
    if IsSpecial(s[0]) { return 0; }
    var i :| 0 <= i < |s| && IsSpecial(s[i]);
    assert s[1..][i - 1] == s[i];
    k := FirstSpecial(s[1..]);
    k := k + 1;
    assert forall i :: 1 <= i < |s| ==> s[i] == s[1..][i - 1];
  }

  lemma BehindFirst(s: string, k: nat)
    requires k < |s| && Separates(s[k]) && forall i :: 0 <= i < k ==> !IsSpecial(s[i])
    ensures var more := s[k + 1..]; FormulaBehindSeparator(s) <==> TriggerLed(more) || FormulaBehindSeparator(more)
  {
    var more := s[k + 1..];
    assert forall i :: 0 <= i < |more| ==> more[i] == s[k + 1 + i];
    if TriggerLed(more) {
      assert Separates(s[k]) && IsTrigger(s[k + 1]);
    }
    if FormulaBehindSeparator(more) {
      var i :| 0 <= i < |more| - 1 && Separates(more[i]) && IsTrigger(more[i + 1]);
      assert Separates(s[k + 1 + i]) && IsTrigger(s[k + 1 + i + 1]);
    }
    if FormulaBehindSeparator(s) {
      var i :| 0 <= i < |s| - 1 && Separates(s[i]) && IsTrigger(s[i + 1]);
      if i > k {
        assert more[i - k - 1] == s[i] && more[i - k - 1 + 1] == s[i + 1];
      }
    }
  }

  lemma SameStart(s: string, k: nat)
    requires k < |s| && Separates(s[k])
    ensures TriggerLed(s[..k]) <==> TriggerLed(s)
    ensures s == s[..k] + ([s[k]] + s[k + 1..])
  {
  }

  lemma LastPiece(s: string)
    requires !HasSpecial(s)
    ensures !EndsQuoted(s) && ReadsAs(s, true, !TriggerLed(s))
  {
    PlainRead(s, []);
    assert s + [] == s;
    FieldInFront(s, Field(s, []), true, true);
    NoQuoteOpens(s, []);
  }

  lemma NoQuoteOpens(piece: string, behind: string)
    requires !HasSpecial(piece) && (behind == [] || Separates(behind[0]))
    ensures !OpensQuote(piece + behind)
  {
    var s := piece + behind;
    if s != [] {
      assert s[0] == if piece == [] then behind[0] else piece[0];
    }
  }

  // A piece, a separator, and text that can be read.
  lemma PieceInFront(piece: string, c: char, more: string, harmless: bool)
    requires !HasSpecial(piece) && Separates(c) && !EndsQuoted(more) && ReadsAs(more, true, harmless)
    ensures !EndsQuoted(piece + ([c] + more))
    ensures ReadsAs(piece + ([c] + more), true, !TriggerLed(piece) && harmless)
  {
    var behind := [c] + more;
    assert behind[1..] == more;
    PlainRead(piece, behind);
    NoQuoteOpens(piece, behind);
    FieldInFront(piece + behind, Field(piece, behind), true, harmless);
  }

  // Text without quotes can be read, in pieces.
  lemma {:induction false} PiecesRead(s: string)
    requires '"' !in s
    ensures !EndsQuoted(s) && ReadsAs(s, true, !TriggerLed(s) && !FormulaBehindSeparator(s))
    decreases |s|
  {
    if HasSpecial(s) {
      var k := FirstSpecial(s);
      assert s[k] in s;
      var piece, more := s[..k], s[k + 1..];
      BehindFirst(s, k);
      SameStart(s, k);
      PiecesRead(more);
      PieceInFront(piece, s[k], more, !TriggerLed(more) && !FormulaBehindSeparator(more));
    } else {
      LastPiece(s);
      assert !FormulaBehindSeparator(s);
    }
  }

  lemma LedFormula(s: string)
    ensures FormulaBehindSeparator(['\''] + s) <==> FormulaBehindSeparator(s)
  {
    var led := ['\''] + s;
    if FormulaBehindSeparator(s) {
      var i :| 0 <= i < |s| - 1 && Separates(s[i]) && IsTrigger(s[i + 1]);
      assert led[i + 1] == s[i] && led[i + 1 + 1] == s[i + 1];
    }
    if FormulaBehindSeparator(led) {
      var i :| 0 <= i < |led| - 1 && Separates(led[i]) && IsTrigger(led[i + 1]);
      assert led[i] == s[i - 1] && led[i + 1] == s[i - 1 + 1];
    }
  }

  // ---------------------------------------------------------------- text read cell by cell

  // A quoted field that is not closed: it goes on behind the end of the text.
  predicate OpensQuote(s: string) {
    s != [] && s[0] == '"' && ReadQuoted(s[1..]).None?
  }

  predicate EndsQuoted(s: string)
    decreases |s|
  {
    OpensQuote(s) || match ReadField(s)
      case None => false
      case Some(f) => f.rest != [] && EndsQuoted(f.rest[1..])
  }

  lemma {:induction false} ReadPlainThen(s: string, rest: string)
    requires EndsField(rest)
    ensures ReadPlain(s + rest) == Field(ReadPlain(s).value, ReadPlain(s).rest + rest)
  {
    if s == [] {
      assert s + rest == rest;
    } else if !IsSpecial(s[0]) {
      ReadPlainThen(s[1..], rest);
      PlainReadsOne(s[0], s[1..] + rest);
      Assoc([s[0]], s[1..], rest);
      assert s == [s[0]] + s[1..];
    }
  }

  lemma {:induction false} ReadQuotedThen(s: string, rest: string)
    requires EndsField(rest) && ReadQuoted(s).Some?
    ensures ReadQuoted(s + rest) == Some(Field(ReadQuoted(s).value.value, ReadQuoted(s).value.rest + rest))
    decreases |s|
  {
    if s[0] != '"' {
      ReadQuotedThen(s[1..], rest);
      assert (s + rest)[1..] == s[1..] + rest;
    } else if |s| > 1 && s[1] == '"' {
      ReadQuotedThen(s[2..], rest);
      assert (s + rest)[2..] == s[2..] + rest;
    } else {
      assert (s + rest)[1..] == s[1..] + rest;
    }
  }

  // The first field does not depend on what follows the text.
  lemma ReadFieldThen(s: string, rest: string)
    requires EndsField(rest) && !OpensQuote(s)
    ensures var f := ReadField(s);
      ReadField(s + rest) == if f.None? then None else Some(Field(f.value.value, f.value.rest + rest))
  {
    if s != [] && s[0] == '"' {
      QuotedFieldThen(s, rest);
    } else {
      ReadPlainThen(s, rest);
      EndsFieldThen(ReadPlain(s).rest, rest);
      assert s != [] ==> (s + rest)[0] == s[0];
      assert s == [] ==> s + rest == rest;
    }
  }

  lemma EndsFieldThen(front: string, rest: string)
    requires EndsField(rest)
    ensures EndsField(front + rest) <==> EndsField(front)
  {
    assert front == [] ==> front + rest == rest;
  }

  lemma QuotedFieldThen(s: string, rest: string)
    requires EndsField(rest) && s != [] && s[0] == '"' && ReadQuoted(s[1..]).Some?
    ensures var f := ReadField(s);
      ReadField(s + rest) == if f.None? then None else Some(Field(f.value.value, f.value.rest + rest))
  {
    ReadQuotedThen(s[1..], rest);
    assert (s + rest)[0] == '"' && (s + rest)[1..] == s[1..] + rest;
    EndsFieldThen(ReadQuoted(s[1..]).value.rest, rest);
  }

  lemma RestOnItsOwn(rest: string)
    requires rest != [] && EndsField(rest)
    ensures RestReadsAs(rest, Read(rest[1..]).Some?, ReadsHarmless(rest[1..]))
  {
  }

  lemma NothingThen(text: string)
    ensures [] + text == text
  {
  }

  lemma RestThen(front: string, rest: string, readable: bool, harmless: bool)
    requires front != [] && EndsField(front) && ReadsAs(front[1..] + rest, readable, harmless)
    ensures RestReadsAs(front + rest, readable, harmless)
  {
    assert (front + rest)[1..] == front[1..] + rest;
  }

  lemma LastFieldThen(s: string, f: Field, rest: string, readable: bool, harmless: bool)
    requires ReadField(s) == Some(f) && f.rest == [] && ReadField(s + rest) == Some(Field(f.value, f.rest + rest))
    requires RestReadsAs(rest, readable, harmless)
    ensures ReadsAs(s + rest, Read(s).Some? && readable, ReadsHarmless(s) && harmless)
  {
    NothingThen(rest);
    FieldInFront(s, f, true, true);
    FieldInFront(s + rest, Field(f.value, rest), readable, harmless);
  }

  lemma FieldThenMore(s: string, f: Field, rest: string, readable: bool, harmless: bool)
    requires ReadField(s) == Some(f) && f.rest != [] && ReadField(s + rest) == Some(Field(f.value, f.rest + rest))
    requires ReadsAs(f.rest[1..] + rest, Read(f.rest[1..]).Some? && readable, ReadsHarmless(f.rest[1..]) && harmless)
    ensures ReadsAs(s + rest, Read(s).Some? && readable, ReadsHarmless(s) && harmless)
  {
    var more := f.rest[1..];
    RestOnItsOwn(f.rest);
    FieldInFront(s, f, Read(more).Some?, ReadsHarmless(more));
    RestThen(f.rest, rest, Read(more).Some? && readable, ReadsHarmless(more) && harmless);
    var whole := Field(f.value, f.rest + rest);
    FieldInFront(s + rest, whole, Read(more).Some? && readable, ReadsHarmless(more) && harmless);
  }

  // A text that does not end inside quotes is read as it is on its own, and then what follows it.
  lemma {:induction false} ReadThen(s: string, rest: string, readable: bool, harmless: bool)
    requires !EndsQuoted(s) && RestReadsAs(rest, readable, harmless)
    ensures ReadsAs(s + rest, Read(s).Some? && readable, ReadsHarmless(s) && harmless)
    decreases |s|
  {
    ReadFieldThen(s, rest);
    match ReadField(s)
    case None =>
    case Some(f) =>
      if f.rest == [] {
        LastFieldThen(s, f, rest, readable, harmless);
      } else {
        ReadThen(f.rest[1..], rest, readable, harmless);
        FieldThenMore(s, f, rest, readable, harmless);
      }
  }

  // Only a trigger-led cell, which is printed as it is, can end inside quotes.
  lemma OtherCellsReadWhole(cell: Cell)
    requires cell.Some? ==> !TriggerLed(cell.value)
    ensures !EndsQuoted(SanitizeCell(cell)) && ReadsHarmless(SanitizeCell(cell))
  {
    var text := SanitizeCell(cell);
    CellReadIff(cell, []);
    assert text + [] == text;
    FieldInFront(text, Field(Shown(cell), []), true, true);
    if text != [] && text[0] == '"' {
      assert ReadQuoted(text[1..]).Some?;
    }
  }

  ghost predicate RowClosed(row: seq<Cell>) {
    forall i :: 0 <= i < |row| ==> !EndsQuoted(SanitizeCell(row[i]))
  }

  ghost predicate RowReadable(row: seq<Cell>) {
    forall i :: 0 <= i < |row| ==> Read(SanitizeCell(row[i])).Some?
  }

  ghost predicate RowHarmless(row: seq<Cell>) {
    forall i :: 0 <= i < |row| ==> ReadsHarmless(SanitizeCell(row[i]))
  }

  // No cell, printed on its own, ends inside quotes; each can be read; and none of their fields
  // starts like a formula.
  ghost predicate TableClosed(table: seq<seq<Cell>>) {
    forall i :: 0 <= i < |table| ==> RowClosed(table[i])
  }

  ghost predicate TableReadable(table: seq<seq<Cell>>) {
    forall i :: 0 <= i < |table| ==> RowReadable(table[i])
  }

  ghost predicate TableHarmless(table: seq<seq<Cell>>) {
    forall i :: 0 <= i < |table| ==> RowHarmless(table[i])
  }

  lemma RowParts(row: seq<Cell>)
    requires row != []
    ensures RowClosed(row) ==> !EndsQuoted(SanitizeCell(row[0])) && RowClosed(row[1..])
    ensures RowReadable(row) <==> Read(SanitizeCell(row[0])).Some? && RowReadable(row[1..])
    ensures RowHarmless(row) <==> ReadsHarmless(SanitizeCell(row[0])) && RowHarmless(row[1..])
  {
    assert forall i :: 1 <= i < |row| ==> row[i] == row[1..][i - 1];
  }

  lemma TableParts(table: seq<seq<Cell>>)
    requires table != []
    ensures TableClosed(table) ==> RowClosed(table[0]) && TableClosed(table[1..])
    ensures TableReadable(table) <==> RowReadable(table[0]) && TableReadable(table[1..])
    ensures TableHarmless(table) <==> RowHarmless(table[0]) && TableHarmless(table[1..])
  {
    assert forall i :: 1 <= i < |table| ==> table[i] == table[1..][i - 1];
  }

  lemma EmptyRow(more: seq<seq<Cell>>, readable: bool, harmless: bool)
    requires RestReadsAs(Below(more), readable, harmless)
    ensures ReadsAs(Line([]) + Below(more), readable, harmless)
  {
    FieldInFront([], Field([], []), true, true);
    ReadThen([], Below(more), readable, harmless);
  }

  lemma FirstCell(row: seq<Cell>, more: seq<seq<Cell>>, readable: bool, harmless: bool)
    requires row != [] && !EndsQuoted(SanitizeCell(row[0])) && RestReadsAs(Behind(row, more), readable, harmless)
    ensures ReadsAs(Line(row) + Below(more), Read(SanitizeCell(row[0])).Some? && readable,
                    ReadsHarmless(SanitizeCell(row[0])) && harmless)
  {
    LineSplit(row, more);
    ReadThen(SanitizeCell(row[0]), Behind(row, more), readable, harmless);
  }

  lemma BehindComma(row: seq<Cell>, more: seq<seq<Cell>>, readable: bool, harmless: bool)
    requires |row| > 1 && ReadsAs(Line(row[1..]) + Below(more), readable, harmless)
    ensures RestReadsAs(Behind(row, more), readable, harmless)
  {
    var text := Line(row[1..]) + Below(more);
    NothingThen(text);
    RestThen([','], text, readable, harmless);
  }

  lemma BehindLine(more: seq<seq<Cell>>, readable: bool, harmless: bool)
    requires more != [] && ReadsAs(Line(more[0]) + Below(more[1..]), readable, harmless)
    ensures RestReadsAs(Below(more), readable, harmless)
  {
    assert more == [more[0]] + more[1..];
    LinesSplit(more[0], more[1..]);
    NothingThen(Lines(more));
    RestThen(['\n'], Lines(more), readable, harmless);
  }

  lemma {:induction false} RowReadsAs(row: seq<Cell>, more: seq<seq<Cell>>)
    requires RowClosed(row) && TableClosed(more)
    ensures ReadsAs(Line(row) + Below(more), RowReadable(row) && TableReadable(more),
                    RowHarmless(row) && TableHarmless(more))
    decreases |more|, |row| + 1
  {
    var readable, harmless := TableReadable(more), TableHarmless(more);
    if row == [] {
      BelowReadsAs(more);
      EmptyRow(more, readable, harmless);
    } else {
      RowParts(row);
      var rest := row[1..];
      if rest == [] {
        BelowReadsAs(more);
      } else {
        RowReadsAs(rest, more);
        BehindComma(row, more, RowReadable(rest) && readable, RowHarmless(rest) && harmless);
      }
      FirstCell(row, more, RowReadable(rest) && readable, RowHarmless(rest) && harmless);
    }
  }

  lemma {:induction false} BelowReadsAs(more: seq<seq<Cell>>)
    requires TableClosed(more)
    ensures RestReadsAs(Below(more), TableReadable(more), TableHarmless(more))
    decreases |more|, 0
  {
    if more != [] {
      TableParts(more);
      RowReadsAs(more[0], more[1..]);
      BehindLine(more, TableReadable(more), TableHarmless(more));
    }
  }

  /**
    What the apostrophe is for. Where no cell on its own ends inside quotes, the text can be read
    iff each cell can, and then no field that is read starts like a formula iff none does in any
    cell read on its own.
   */
  lemma NoFieldReadsAsFormulaIff(headers: seq<string>, rows: seq<seq<Cell>>)
    requires TableClosed(TableOf(headers, rows))
    ensures Read(GenerateSafeCSV(headers, rows)).Some? <==> TableReadable(TableOf(headers, rows))
    ensures ReadsHarmless(GenerateSafeCSV(headers, rows))
       <==> TableReadable(TableOf(headers, rows)) && TableHarmless(TableOf(headers, rows))
  {
    var table := TableOf(headers, rows);
    BelowReadsAs(table);
    assert Below(table)[1..] == Lines(table);
  }

  // ---------------------------------------------------------------- cells without quotes

  // Behind a comma or line feed of a trigger-led cell the text starts like a formula again.
  ghost predicate LeaksFormula(cell: Cell) {
    cell.Some? && TriggerLed(cell.value) && FormulaBehindSeparator(cell.value)
  }

  predicate QuoteFree(cell: Cell) {
    cell.Some? && TriggerLed(cell.value) ==> '"' !in cell.value
  }

  /** A cell without a quote, or not led by a trigger: one look at its characters tells. */
  lemma QuoteFreeCellIff(cell: Cell)
    requires QuoteFree(cell)
    ensures !EndsQuoted(SanitizeCell(cell)) && Read(SanitizeCell(cell)).Some?
    ensures ReadsHarmless(SanitizeCell(cell)) <==> !LeaksFormula(cell)
  {
    if cell.Some? && TriggerLed(cell.value) {
      LedFormula(cell.value);
      PiecesRead(['\''] + cell.value);
    } else {
      OtherCellsReadWhole(cell);
    }
  }

  predicate TableQuoteFree(table: seq<seq<Cell>>) {
    forall i, j :: 0 <= i < |table| && 0 <= j < |table[i]| ==> QuoteFree(table[i][j])
  }

  ghost predicate TableLeaks(table: seq<seq<Cell>>) {
    exists i, j :: 0 <= i < |table| && 0 <= j < |table[i]| && LeaksFormula(table[i][j])
  }

  lemma TableQuoteFreeIff(table: seq<seq<Cell>>)
    requires TableQuoteFree(table)
    ensures TableClosed(table) && TableReadable(table) && (TableHarmless(table) <==> !TableLeaks(table))
  {
    forall i, j | 0 <= i < |table| && 0 <= j < |table[i]|
      ensures !EndsQuoted(SanitizeCell(table[i][j])) && Read(SanitizeCell(table[i][j])).Some?
      ensures ReadsHarmless(SanitizeCell(table[i][j])) <==> !LeaksFormula(table[i][j])
    {
      QuoteFreeCellIff(table[i][j]);
    }
    if TableHarmless(table) {
      forall i, j | 0 <= i < |table| && 0 <= j < |table[i]| ensures !LeaksFormula(table[i][j]) {
        assert RowHarmless(table[i]);
      }
    }
  }

  /**
    Where no trigger-led cell holds a quote, the text can always be read, and no field that is read
    starts like a formula iff in no trigger-led cell a comma or a line feed is directly followed by
    a trigger.
   */
  lemma QuoteFreeTableIff(headers: seq<string>, rows: seq<seq<Cell>>)
    requires TableQuoteFree(TableOf(headers, rows))
    ensures Read(GenerateSafeCSV(headers, rows)).Some?
    ensures ReadsHarmless(GenerateSafeCSV(headers, rows)) <==> !TableLeaks(TableOf(headers, rows))
  {
    TableQuoteFreeIff(TableOf(headers, rows));
    NoFieldReadsAsFormulaIff(headers, rows);
  }

  // The cell =1,=2 comes back as two fields, and the second starts like a formula.
  lemma FormulaBehindComma()
    ensures var v := ['=', '1', ',', '=', '2'];
      Read(GenerateSafeCSV([v], [])) == Some([[['\'', '=', '1'], ['=', '2']]])
  {
    var v := ['=', '1', ',', '=', '2'];
    assert v[0] == '=';
    var led, tail := ['\'', '=', '1'], ['=', '2'];
    var text := ['\''] + v;
    var table := TableOf([v], []);
    assert |table| == 1 && |table[0]| == 1 && table[0][0] == Some(v);
    assert table[0] == [Some(v)];
    assert table == [[Some(v)]];
    assert Lines([[Some(v)]]) == Line([Some(v)]) == SanitizeCell(Some(v)) == text;
    PlainRead(led, [','] + tail);
    assert text == led + ([','] + tail) && ([','] + tail)[1..] == tail;
    PlainRead(tail, []);
    assert tail + [] == tail;
    assert Read(tail) == Some([[tail]]);
    var records := [[tail]];
    var all := [[led] + records[0]] + records[1..];
    assert all[0] == [led, tail];
    assert Read(text) == Some(all);
    assert all == [[led, tail]];
  }
}
