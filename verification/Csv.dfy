/**
 The CSV writer (apps/api/src/common/csv-writer.ts, csv-safety.ts) and a reader by section 2 of RFC 4180 with
 the separator ';'. Cell values are given by their text; what the text of an object is does not matter here.
 */
module Csv {
  import opened Wrappers

  const BOM: char := '\U{FEFF}'

  const EOL := "\r\n"

  /** A cell: numbers are kept apart from texts because only texts are neutralized. */
  datatype Cell =
    | Absent
    | Number(canonical: string)
    | BigInteger(digits: string)
    | Text(text: string)
    | Boolean(value: bool)
    | Other(serialized: string)

  const FORMULA_STARTS := {'=', '+', '-', '@', '\t', '\r', '\U{FF1D}', '\U{FF0B}', '\U{FF0D}', '\U{FF20}'}

  predicate FormulaLike(s: string) { |s| > 0 && s[0] in FORMULA_STARTS }

  function Neutralize(s: string): string { if FormulaLike(s) then ['\''] + s else s }

  /** The first decimal point becomes a comma. */
  function DecimalComma(s: string): string {
    if |s| == 0 then "" else if s[0] == '.' then [','] + s[1..] else [s[0]] + DecimalComma(s[1..])
  }

  function CellText(c: Cell): string {
    match c
    case Absent => ""
    case Number(n) => DecimalComma(n)
    case BigInteger(n) => n
    case Text(t) => Neutralize(t)
    case Boolean(b) => Neutralize(if b then "true" else "false")
    case Other(t) => Neutralize(t)
  }

  predicate Special(c: char) { c == '"' || c == ';' || c == '\r' || c == '\n' }

  predicate NeedsQuotes(s: string) { exists k :: 0 <= k < |s| && Special(s[k]) }

  /** Every quote is doubled. */
  function Doubled(s: string): string {
    if |s| == 0 then "" else (if s[0] == '"' then "\"\"" else [s[0]]) + Doubled(s[1..])
  }

  function Quote(s: string): string { if NeedsQuotes(s) then "\"" + Doubled(s) + "\"" else s }

  function CsvLine(cells: seq<Cell>): string {
    if |cells| == 0 then ""
    else if |cells| == 1 then Quote(CellText(cells[0]))
    else Quote(CellText(cells[0])) + (";" + CsvLine(cells[1..]))
  }

  /** Lines, each with its end. */
  function Lines(rows: seq<seq<Cell>>): string {
    if |rows| == 0 then "" else CsvLine(rows[0]) + (EOL + Lines(rows[1..]))
  }

  function AsCells(texts: seq<string>): seq<Cell> {
    seq(|texts|, k requires 0 <= k < |texts| => Text(texts[k]))
  }

  /** Lines joined by line ends, with one more at the end: the same as lines each with its end. */
  function ToCsv(header: seq<string>, rows: seq<seq<Cell>>): string {
    [BOM] + Lines([AsCells(header)] + rows)
  }

  function MetadataRows(metadata: seq<(string, string)>): seq<seq<Cell>> {
    seq(|metadata|, k requires 0 <= k < |metadata| => [Text(metadata[k].0), Text(metadata[k].1)])
  }

  function CsvPreamble(metadata: seq<(string, string)>, header: seq<string>): string {
    Lines(MetadataRows(metadata)) + EOL + CsvLine(AsCells(header)) + EOL
  }

  function ToCsvDocument(metadata: seq<(string, string)>, header: seq<string>, rows: seq<seq<Cell>>): string {
    [BOM] + CsvPreamble(metadata, header) + Lines(rows)
  }

  // ---------------------------------------------------------------- reading by RFC 4180

  /** After an opening quote: the text up to the closing quote, and what follows it. */
  function ReadQuoted(s: string): (r: Option<(string, string)>)
    ensures r.Some? ==> |r.value.1| < |s|
  {
    if |s| == 0 then None
    else if s[0] == '"' && (|s| == 1 || s[1] != '"') then Some(("", s[1..]))
    else
      var rest := ReadQuoted(if s[0] == '"' then s[2..] else s[1..]);
      if rest.None? then None else Some(([s[0]] + rest.value.0, rest.value.1))
  }

  /** A field without quotes ends before a separator, a line end or a quote. */
  predicate EndsPlain(c: char) { c == ';' || c == '\r' || c == '\n' || c == '"' }

  function ReadPlain(s: string): (r: (string, string))
    ensures |r.1| <= |s|
  {
    if |s| == 0 || EndsPlain(s[0]) then ("", s)
    else
      var rest := ReadPlain(s[1..]);
      ([s[0]] + rest.0, rest.1)
  }

  function ReadField(s: string): (r: Option<(string, string)>)
    ensures r.Some? ==> |r.value.1| <= |s|
  {
    if |s| > 0 && s[0] == '"' then ReadQuoted(s[1..]) else Some(ReadPlain(s))
  }

  /** Fields up to the end of the record, and what follows it; the last record may lack its line end. */
  function ReadRecord(s: string): (r: Option<(seq<string>, string)>)
    ensures r.Some? && |s| > 0 ==> |r.value.1| < |s|
    decreases |s|
  {
    var field := ReadField(s);
    if field.None? then None
    else
      var (text, rest) := field.value;
      if |rest| == 0 then Some(([text], ""))
      else if rest[0] == ';' then
        var more := ReadRecord(rest[1..]);
        if more.None? then None else Some(([text] + more.value.0, more.value.1))
      else if |rest| >= 2 && rest[0] == '\r' && rest[1] == '\n' then Some(([text], rest[2..]))
      else None
  }

  function ReadRecords(s: string): Option<seq<seq<string>>>
    decreases |s|
  {
    if |s| == 0 then Some([])
    else
      var record := ReadRecord(s);
      if record.None? then None
      else
        var more := ReadRecords(record.value.1);
        if more.None? then None else Some([record.value.0] + more.value)
  }

  /** The byte order mark, if any, is not part of the first record. */
  function Read(s: string): Option<seq<seq<string>>> {
    if |s| > 0 && s[0] == '\U{FEFF}' then ReadRecords(s[1..]) else ReadRecords(s)
  }

  // ---------------------------------------------------------------- reading undoes writing

  lemma {:induction false} QuotedStep(c: char, tail: string)
    requires ReadQuoted(tail).Some?
    ensures ReadQuoted((if c == '"' then "\"\"" else [c]) + tail) ==
      Some(([c] + ReadQuoted(tail).value.0, ReadQuoted(tail).value.1))
  {
    if c == '"' {
      assert ("\"\"" + tail)[2..] == tail;
    } else {
      assert ([c] + tail)[1..] == tail;
    }
  }

  lemma {:induction false} QuotedEnd(rest: string)
    requires |rest| == 0 || rest[0] != '"'
    ensures ReadQuoted(Doubled("") + ("\"" + rest)) == Some(("", rest))
  {
    var end := "\"" + rest;
    assert Doubled("") + end == end;
    assert end[1..] == rest;
  }

  lemma {:induction false} AppendAssociates(a: string, b: string, c: string)
    ensures (a + b) + c == a + (b + c)
  {
  }

  lemma {:induction false} DoubledStep(text: string, end: string)
    requires |text| > 0
    ensures Doubled(text) + end == (if text[0] == '"' then "\"\"" else [text[0]]) + (Doubled(text[1..]) + end)
    ensures text == [text[0]] + text[1..]
  {
    AppendAssociates(if text[0] == '"' then "\"\"" else [text[0]], Doubled(text[1..]), end);
  }

  lemma {:induction false} QuotedReads(text: string, rest: string)
    requires |rest| == 0 || rest[0] != '"'
    ensures ReadQuoted(Doubled(text) + ("\"" + rest)) == Some((text, rest))
    decreases |text|
  {
    if |text| == 0 {
      assert text == "";
      QuotedEnd(rest);
    } else {
      QuotedReads(text[1..], rest);
      QuotedStep(text[0], Doubled(text[1..]) + ("\"" + rest));
      DoubledStep(text, "\"" + rest);
    }
  }

  lemma {:induction false} PlainReads(text: string, rest: string)
    requires !NeedsQuotes(text) && (|rest| == 0 || Special(rest[0]))
    ensures ReadPlain(text + rest) == (text, rest)
  {
    if |text| == 0 {
      assert text + rest == rest;
    } else {
      assert !Special(text[0]);
      assert (text + rest)[0] == text[0] && (text + rest)[1..] == text[1..] + rest;
      forall k | 0 <= k < |text[1..]| ensures !Special(text[1..][k]) {
        assert text[1..][k] == text[k + 1];
      }
      PlainReads(text[1..], rest);
      assert text == [text[0]] + text[1..];
    }
  }

  lemma {:induction false} QuotedFieldReads(text: string, rest: string)
    requires |rest| == 0 || rest[0] != '"'
    ensures ReadField(("\"" + Doubled(text) + "\"") + rest) == Some((text, rest))
  {
    var s := ("\"" + Doubled(text) + "\"") + rest;
    QuotedReads(text, rest);
    assert s[0] == '"' && s[1..] == Doubled(text) + ("\"" + rest);
  }

  lemma {:induction false} PlainFieldReads(text: string, rest: string)
    requires !NeedsQuotes(text) && |rest| > 0 && Special(rest[0]) && rest[0] != '"'
    ensures ReadField(text + rest) == Some((text, rest))
  {
    PlainReads(text, rest);
    if |text| == 0 {
      assert text + rest == rest;
    } else {
      assert !Special(text[0]) && (text + rest)[0] == text[0];
    }
  }

  lemma {:induction false} FieldReads(text: string, rest: string)
    requires |rest| > 0 && Special(rest[0]) && rest[0] != '"'
    ensures ReadField(Quote(text) + rest) == Some((text, rest))
  {
    if NeedsQuotes(text) {
      QuotedFieldReads(text, rest);
    } else {
      PlainFieldReads(text, rest);
    }
  }

  function Texts(cells: seq<Cell>): seq<string> {
    if |cells| == 0 then [] else [CellText(cells[0])] + Texts(cells[1..])
  }

  /** A line without cells reads as one empty cell, as does a line with one empty cell. */
  function Shown(cells: seq<Cell>): seq<string> { if |cells| == 0 then [""] else Texts(cells) }

  lemma {:induction false} FieldThenEnd(text: string, rest: string)
    ensures ReadRecord(Quote(text) + (EOL + rest)) == Some(([text], rest))
  {
    var after := EOL + rest;
    FieldReads(text, after);
    assert after[..2] == EOL && after[2..] == rest;
  }

  lemma {:induction false} FieldThenMore(text: string, tail: string)
    requires ReadRecord(tail).Some?
    ensures ReadRecord(Quote(text) + (";" + tail))
      == Some(([text] + ReadRecord(tail).value.0, ReadRecord(tail).value.1))
  {
    var after := ";" + tail;
    FieldReads(text, after);
    assert after[1..] == tail;
  }

  lemma {:induction false} SingleRecordReads(cells: seq<Cell>, rest: string)
    requires |cells| <= 1
    ensures ReadRecord(CsvLine(cells) + (EOL + rest)) == Some((Shown(cells), rest))
  {
    if |cells| == 0 {
      FieldThenEnd("", rest);
    } else {
      FieldThenEnd(CellText(cells[0]), rest);
      assert Texts(cells[1..]) == [];
      assert Texts(cells) == [CellText(cells[0])];
    }
  }

  lemma {:induction false} LineStep(cells: seq<Cell>, end: string)
    requires |cells| > 1
    ensures CsvLine(cells) + end == Quote(CellText(cells[0])) + (";" + (CsvLine(cells[1..]) + end))
    ensures Shown(cells) == [CellText(cells[0])] + Shown(cells[1..])
  {
    var text, line := CellText(cells[0]), CsvLine(cells[1..]);
    AppendAssociates(Quote(text), ";" + line, end);
    AppendAssociates(";", line, end);
  }

  lemma {:induction false} RecordReads(cells: seq<Cell>, rest: string)
    ensures ReadRecord(CsvLine(cells) + (EOL + rest)) == Some((Shown(cells), rest))
    decreases |cells|
  {
    if |cells| <= 1 {
      SingleRecordReads(cells, rest);
    } else {
      RecordReads(cells[1..], rest);
      FieldThenMore(CellText(cells[0]), CsvLine(cells[1..]) + (EOL + rest));
      LineStep(cells, EOL + rest);
    }
  }

  function AllShown(rows: seq<seq<Cell>>): seq<seq<string>> {
    if |rows| == 0 then [] else [Shown(rows[0])] + AllShown(rows[1..])
  }

  lemma {:induction false} LinesRead(rows: seq<seq<Cell>>)
    ensures ReadRecords(Lines(rows)) == Some(AllShown(rows))
  {
    if |rows| == 0 {
    } else {
      LinesRead(rows[1..]);
      RecordReads(rows[0], Lines(rows[1..]));
    }
  }

  /** Reading a written file gives the text of every cell back, whatever quotes, separators or line ends it holds. */
  lemma {:induction false} CsvReadsBack(header: seq<string>, rows: seq<seq<Cell>>)
    ensures Read(ToCsv(header, rows)) == Some(AllShown([AsCells(header)] + rows))
  {
    LinesRead([AsCells(header)] + rows);
    assert ToCsv(header, rows)[1..] == Lines([AsCells(header)] + rows);
  }

  lemma {:induction false} LinesOf(row: seq<Cell>, rows: seq<seq<Cell>>)
    ensures Lines([row] + rows) == CsvLine(row) + (EOL + Lines(rows))
  {
    assert ([row] + rows)[1..] == rows;
  }

  lemma {:induction false} LinesAppend(a: seq<seq<Cell>>, b: seq<seq<Cell>>)
    ensures Lines(a + b) == Lines(a) + Lines(b)
  {
    if |a| == 0 {
      assert a + b == b;
    } else {
      assert (a + b)[1..] == a[1..] + b;
      LinesAppend(a[1..], b);
      assert Lines(a + b) == CsvLine(a[0]) + (EOL + (Lines(a[1..]) + Lines(b)));
    }
  }

  lemma {:induction false} Regroup(m: string, e: string, h: string, l: string)
    ensures (m + e + h + e) + l == m + ("" + (e + (h + (e + l))))
  {
  }

  lemma {:induction false} PreambleIsLines(metadata: seq<(string, string)>, header: seq<string>, rows: seq<seq<Cell>>)
    ensures CsvPreamble(metadata, header) + Lines(rows)
      == Lines(MetadataRows(metadata) + ([[]] + ([AsCells(header)] + rows)))
  {
    var table := [AsCells(header)] + rows;
    LinesAppend(MetadataRows(metadata), [[]] + table);
    LinesOf([], table);
    LinesOf(AsCells(header), rows);
    Regroup(Lines(MetadataRows(metadata)), EOL, CsvLine(AsCells(header)), Lines(rows));
  }

  lemma {:induction false} MarkIsDropped(a: string, b: string)
    ensures Read([BOM] + a + b) == ReadRecords(a + b)
  {
    assert ([BOM] + a + b)[1..] == a + b;
  }

  /** An export is read as its metadata, an empty line, the header and the rows. */
  lemma {:induction false} DocumentReadsBack(metadata: seq<(string, string)>, header: seq<string>, rows: seq<seq<Cell>>)
    ensures Read(ToCsvDocument(metadata, header, rows))
      == Some(AllShown(MetadataRows(metadata) + ([[]] + ([AsCells(header)] + rows))))
  {
    var all := MetadataRows(metadata) + ([[]] + ([AsCells(header)] + rows));
    PreambleIsLines(metadata, header, rows);
    LinesRead(all);
    MarkIsDropped(CsvPreamble(metadata, header), Lines(rows));
  }

  // ---------------------------------------------------------------- formulas

  predicate IsNumber(c: Cell) { c.Number? || c.BigInteger? }

  /** No cell but a number reads as a formula, and a text that needed no protection is unchanged. */
  lemma {:induction false} NoFormulas(c: Cell)
    ensures !IsNumber(c) ==> !FormulaLike(CellText(c))
    ensures c.Text? && !FormulaLike(c.text) ==> CellText(c) == c.text
    ensures c.Text? && FormulaLike(c.text) ==> CellText(c) == ['\''] + c.text
  {
  }

  /** A character with which a spreadsheet takes a text for a formula, full-width forms included. */
  ghost predicate StartsFormula(c: char) {
    || c == '=' || c == '+' || c == '-' || c == '@' || c == '\t' || c == '\r'
    || c == '\U{FF1D}' || c == '\U{FF0B}' || c == '\U{FF0D}' || c == '\U{FF20}'
  }

  /** The text with an apostrophe in front if it would be taken for a formula. */
  ghost predicate Protects(shown: string, text: string) {
    if |text| > 0 && StartsFormula(text[0]) then shown == "'" + text else shown == text
  }

  /** The first decimal point of the number stands at k and is shown as a comma. */
  ghost predicate CommaAt(shown: string, number: string, k: int) {
    && 0 <= k < |number| && number[k] == '.' && '.' !in number[..k]
    && shown == number[..k] + ("," + number[k + 1..])
  }

  /** The number with its first decimal point, if it has one, turned into a comma. */
  ghost predicate WithComma(shown: string, number: string) {
    if '.' in number then exists k :: CommaAt(shown, number, k) else shown == number
  }

  lemma {:induction false} CommaFurther(c: char, shown: string, tail: string, k: int)
    requires c != '.' && CommaAt(shown, tail, k)
    ensures CommaAt([c] + shown, [c] + tail, k + 1)
  {
    var s := [c] + tail;
    assert s[..k + 1] == [c] + tail[..k] && s[k + 2..] == tail[k + 1..];
    AppendAssociates([c], tail[..k], "," + tail[k + 1..]);
  }

  lemma {:induction false} CommaFirst(tail: string)
    ensures CommaAt([','] + tail, ['.'] + tail, 0)
  {
    var s := ['.'] + tail;
    assert s[..0] == [] && s[1..] == tail;
    assert s[..0] + ("," + tail) == [','] + tail;
  }

  lemma {:induction false} DecimalCommaMeans(s: string)
    ensures WithComma(DecimalComma(s), s)
  {
    if |s| == 0 {
    } else {
      var tail := s[1..];
      assert s == [s[0]] + tail;
      if s[0] == '.' {
        CommaFirst(tail);
      } else {
        DecimalCommaMeans(tail);
        if '.' in tail {
          var k :| CommaAt(DecimalComma(tail), tail, k);
          CommaFurther(s[0], DecimalComma(tail), tail, k);
        }
      }
    }
  }

  /** The text of a cell: nothing, a number with a comma, or a text that is protected. */
  lemma {:induction false} CellTextMeans(c: Cell)
    ensures match c
      case Absent => CellText(c) == ""
      case Number(n) => WithComma(CellText(c), n)
      case BigInteger(n) => CellText(c) == n
      case Text(t) => Protects(CellText(c), t)
      case Boolean(b) => CellText(c) == if b then "true" else "false"
      case Other(t) => Protects(CellText(c), t)
  {
    if c.Number? {
      DecimalCommaMeans(c.canonical);
    }
  }

  /** A field is quoted exactly when it holds a quote, a separator or a part of a line end. */
  lemma {:induction false} QuoteMeans(s: string)
    ensures if '"' in s || ';' in s || '\r' in s || '\n' in s then
        |Quote(s)| >= 2 && Quote(s)[0] == '"' && Quote(s)[|Quote(s)| - 1] == '"'
      else Quote(s) == s
  {
    if '"' in s || ';' in s || '\r' in s || '\n' in s {
      assert exists k :: 0 <= k < |s| && Special(s[k]);
    }
  }

  lemma {:induction false} LinesEnd(rows: seq<seq<Cell>>)
    requires |rows| > 0
    ensures var s := Lines(rows); |s| >= 2 && s[|s| - 2] == '\r' && s[|s| - 1] == '\n'
  {
    if |rows| > 1 {
      LinesEnd(rows[1..]);
    }
  }

  /** A file begins with the byte order mark and ends with a line end. */
  lemma {:induction false} FileBounds(header: seq<string>, rows: seq<seq<Cell>>)
    ensures var s := ToCsv(header, rows);
      |s| >= 3 && s[0] == '\U{FEFF}' && s[|s| - 2] == '\r' && s[|s| - 1] == '\n'
  {
    LinesEnd([AsCells(header)] + rows);
  }

  lemma {:induction false} TextsAt(cells: seq<Cell>, k: nat)
    requires k < |cells|
    ensures |Texts(cells)| == |cells| && Texts(cells)[k] == CellText(cells[k])
  {
    if k > 0 {
      TextsAt(cells[1..], k - 1);
    } else if |cells| > 1 {
      TextsAt(cells[1..], 0);
    }
  }

  lemma {:induction false} ShownAt(rows: seq<seq<Cell>>, i: nat)
    requires i < |rows|
    ensures |AllShown(rows)| == |rows| && AllShown(rows)[i] == Shown(rows[i])
  {
    if i > 0 {
      ShownAt(rows[1..], i - 1);
    } else if |rows| > 1 {
      ShownAt(rows[1..], 0);
    }
  }

  /** The rows of a file, the header among them. */
  function AllRows(header: seq<string>, rows: seq<seq<Cell>>): seq<seq<Cell>> { [AsCells(header)] + rows }

  /**
   Cell by cell, the header being row 0: what is read at (i, j) is the text written there, and no text there is
   a formula.
   */
  lemma {:induction false} CellReadsBack(header: seq<string>, rows: seq<seq<Cell>>, i: nat, j: nat)
    requires i <= |rows| && j < |AllRows(header, rows)[i]|
    ensures var read, cells := Read(ToCsv(header, rows)), AllRows(header, rows)[i];
      && read.Some? && |read.value| == |rows| + 1 && |read.value[i]| == |cells|
      && read.value[i][j] == CellText(cells[j])
      && (!IsNumber(cells[j]) ==> !FormulaLike(read.value[i][j]))
  {
    CsvReadsBack(header, rows);
    ShownAt(AllRows(header, rows), i);
    TextsAt(AllRows(header, rows)[i], j);
    NoFormulas(AllRows(header, rows)[i][j]);
  }

  /** In particular the header is text, so none of its cells is a formula. */
  lemma {:induction false} HeaderReadsBack(header: seq<string>, rows: seq<seq<Cell>>, j: nat)
    requires j < |header|
    ensures var read := Read(ToCsv(header, rows));
      && read.Some? && |read.value| == |rows| + 1 && |read.value[0]| == |header|
      && read.value[0][j] == CellText(Text(header[j])) && !FormulaLike(read.value[0][j])
  {
    CellReadsBack(header, rows, 0, j);
  }
}
