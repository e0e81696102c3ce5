/** The spreadsheet exports of a form's responses: the CSV text (header
    line, one line per response, escaping of answer values), the download
    file name, and the Excel column widths. A response is the plain object
    the export endpoint returns, read by property name. */
module ExportUtils {
  import opened Js

  datatype ExportField = ExportField(id: string, fieldLabel: string, fieldType: string, required: bool, orderIndex: int)

  /** A response as an object: `id`, `submitted_by`, `submitted_at`,
      `ip_address`, one property per answered field label, and whatever else
      the endpoint put there. */
  type ExportResponse = Entries<JsValue>

  /** A cell of a row; None is `undefined`, which a missing property gives. */
  type Cell = Option<JsValue>

  datatype CsvDownload = CsvDownload(filename: string, content: string)

  const FixedHeaders := ["Response ID", "Submitted By", "Submitted At", "IP Address"]

  function Labels(fields: seq<ExportField>): (r: seq<string>)
    ensures |r| == |fields| && forall j :: 0 <= j < |fields| ==> r[j] == fields[j].fieldLabel
  {
    seq(|fields|, j requires 0 <= j < |fields| => fields[j].fieldLabel)
  }

  function Headers(fields: seq<ExportField>): seq<string>
  {
    FixedHeaders + Labels(fields)
  }

  // ---------------------------------------------------------------------
  // Escaping

  /** `v.includes(',') || v.includes('"') || v.includes('\n')`. */
  predicate NeedsQuoting(s: string)
  {
    ',' in s || '"' in s || '\n' in s
  }

  /** `s.replace(/"/g, '""')`. */
  function DoubleQuotes(s: string): (r: string)
    ensures |r| >= |s|
  {
    if |s| == 0 then ""
    else (if s[0] == '"' then "\"\"" else [s[0]]) + DoubleQuotes(s[1..])
  }

  /** Reads a doubled-quote text back: each `""` is one `"`. */
  function Undouble(t: string): string
  {
    if |t| >= 2 && t[0] == '"' && t[1] == '"' then "\"" + Undouble(t[2..])
    else if |t| == 0 then ""
    else [t[0]] + Undouble(t[1..])
  }

  lemma {:induction false} UndoubleDoubleQuotes(s: string)
    ensures Undouble(DoubleQuotes(s)) == s
  {
    if |s| > 0 {
      UndoubleDoubleQuotes(s[1..]);
      var rest := DoubleQuotes(s[1..]);
      if s[0] == '"' {
        assert DoubleQuotes(s) == "\"\"" + rest;
        assert (DoubleQuotes(s))[2..] == rest;
      } else {
        assert DoubleQuotes(s) == [s[0]] + rest;
        assert (DoubleQuotes(s))[1..] == rest;
      }
      assert s == [s[0]] + s[1..];
    }
  }

  /** The text of a string value once escaped: wrapped in double quotes with
      its quotes doubled when it holds a ',', a '"' or a newline. */
  function EscapeText(s: string): string
  {
    if NeedsQuoting(s) then "\"" + DoubleQuotes(s) + "\"" else s
  }

  /** The escaping of a cell value: only strings are escaped. */
  function Escape(v: JsValue): (r: JsValue)
    ensures !v.Str? ==> r == v
    ensures v.Str? ==> r == Str(EscapeText(v.s))
  {
    if v.Str? && NeedsQuoting(v.s) then Str("\"" + DoubleQuotes(v.s) + "\"") else v
  }

  /** How a CSV reader reads one cell back. */
  function ReadCell(c: string): string
  {
    if |c| >= 2 && c[0] == '"' && c[|c| - 1] == '"' then Undouble(c[1..|c| - 1]) else c
  }

  /** Escaping loses nothing: reading an escaped text gives the original. */
  lemma EscapeRoundTrip(s: string)
    ensures ReadCell(EscapeText(s)) == s
  {
    if NeedsQuoting(s) {
      var e := EscapeText(s);
      assert e[1..|e| - 1] == DoubleQuotes(s);
      UndoubleDoubleQuotes(s);
    } else if |s| >= 2 {
      assert s[0] != '"' by {
        assert s[0] in s;
      }
    }
  }

  // ---------------------------------------------------------------------
  // Rows

  /** `response[field.label] || ''`. */
  function FieldValue(resp: ExportResponse, key: string): (v: JsValue)
    ensures IsTruthy(v) || v == Str("")
    ensures !HasKey(resp, key) ==> v == Str("")
    ensures v != Str("") ==> Get(resp, key) == Some(v)
  {
    var p := Get(resp, key);
    if p.Some? && IsTruthy(p.value) then p.value else Str("")
  }

  /** The four leading cells; `new Date(...).toLocaleString()` is the
      parameter localTime. */
  function FixedCells(resp: ExportResponse, localTime: Cell -> string): seq<Cell>
  {
    [Get(resp, "id"), Get(resp, "submitted_by"), Some(Str(localTime(Get(resp, "submitted_at")))), Get(resp, "ip_address")]
  }

  /** The cells the forEach pushes, one per field in field order. */
  function FieldCells(resp: ExportResponse, fields: seq<ExportField>): (r: seq<Cell>)
    ensures |r| == |fields|
    ensures forall j :: 0 <= j < |fields| ==> r[j] == Some(Escape(FieldValue(resp, fields[j].fieldLabel)))
    decreases |fields|
  {
    if |fields| == 0 then []
    else
      var p := fields[..|fields| - 1];
      assert forall j :: 0 <= j < |p| ==> p[j] == fields[j];
      FieldCells(resp, p) + [Some(Escape(FieldValue(resp, fields[|fields| - 1].fieldLabel)))]
  }

  function RowOf(resp: ExportResponse, fields: seq<ExportField>, localTime: Cell -> string): seq<Cell>
  {
    FixedCells(resp, localTime) + FieldCells(resp, fields)
  }

  /** One response's row, grown by one pushed cell per field. */
  method BuildRow(resp: ExportResponse, fields: seq<ExportField>, localTime: Cell -> string) returns (row: seq<Cell>)
    ensures row == RowOf(resp, fields, localTime)
  {
    row := [Get(resp, "id"), Get(resp, "submitted_by"), Some(Str(localTime(Get(resp, "submitted_at")))), Get(resp, "ip_address")];
    var j := 0;
    while j < |fields|
      invariant 0 <= j <= |fields|
      invariant row == FixedCells(resp, localTime) + FieldCells(resp, fields[..j])
    {
      var value := FieldValue(resp, fields[j].fieldLabel);
      var escapedValue := Escape(value);
      assert fields[..j + 1][..j] == fields[..j];
      row := row + [Some(escapedValue)];
      j := j + 1;
    }
    assert fields[..j] == fields;
  }

  /** Every row has a cell per header; cell 4 + j holds field j's value,
      looked up by label and escaped, '' when the response lacks it. */
  lemma RowShape(resp: ExportResponse, fields: seq<ExportField>, localTime: Cell -> string, j: int)
    requires 0 <= j < |fields|
    ensures |RowOf(resp, fields, localTime)| == |Headers(fields)| == 4 + |fields|
    ensures RowOf(resp, fields, localTime)[..4] == FixedCells(resp, localTime)
    ensures RowOf(resp, fields, localTime)[4 + j] == Some(Escape(FieldValue(resp, fields[j].fieldLabel)))
    ensures !HasKey(resp, fields[j].fieldLabel) ==> RowOf(resp, fields, localTime)[4 + j] == Some(Str(""))
  {
    var r := RowOf(resp, fields, localTime);
    assert r[4 + j] == FieldCells(resp, fields)[j];
  }

  // ---------------------------------------------------------------------
  // The CSV text

  /** How `row.join(',')` renders one cell: undefined and null as ''. */
  function CellText(c: Cell): string
  {
    if c.None? || c.value.Null? then "" else ToJsString(c.value)
  }

  function CellTexts(cells: seq<Cell>): (r: seq<string>)
    ensures |r| == |cells| && forall i :: 0 <= i < |cells| ==> r[i] == CellText(cells[i])
  {
    seq(|cells|, i requires 0 <= i < |cells| => CellText(cells[i]))
  }

  function LineOf(cells: seq<Cell>): string
  {
    Join(CellTexts(cells), ",")
  }

  function Lines(rows: seq<seq<Cell>>): (r: seq<string>)
    ensures |r| == |rows| && forall i :: 0 <= i < |rows| ==> r[i] == LineOf(rows[i])
  {
    seq(|rows|, i requires 0 <= i < |rows| => LineOf(rows[i]))
  }

  function Rows(responses: seq<ExportResponse>, fields: seq<ExportField>, localTime: Cell -> string): (r: seq<seq<Cell>>)
    ensures |r| == |responses| && forall i :: 0 <= i < |responses| ==> r[i] == RowOf(responses[i], fields, localTime)
  {
    seq(|responses|, i requires 0 <= i < |responses| => RowOf(responses[i], fields, localTime))
  }

  function CsvContent(fields: seq<ExportField>, responses: seq<ExportResponse>, localTime: Cell -> string): string
  {
    Join([Join(Headers(fields), ",")] + Lines(Rows(responses, fields, localTime)), "\n")
  }

  /** UTF-16 code units of a string: a character beyond U+FFFF takes two. */
  function Utf16Length(s: string): (n: nat)
    ensures n >= |s|
  {
    if |s| == 0 then 0 else (if s[0] as int > 0xFFFF then 2 else 1) + Utf16Length(s[1..])
  }

  predicate IsAsciiAlnum(c: char)
  {
    'a' <= c <= 'z' || 'A' <= c <= 'Z' || '0' <= c <= '9'
  }

  /** `title.replace(/[^a-zA-Z0-9]/g, '_')`. The pattern has no `u` flag, so
      it sees UTF-16 code units and a character beyond U+FFFF becomes "__". */
  function SafeTitle(t: string): (r: string)
    ensures |r| == Utf16Length(t)
    ensures forall i :: 0 <= i < |r| ==> IsAsciiAlnum(r[i]) || r[i] == '_'
  {
    if |t| == 0 then ""
    else (if IsAsciiAlnum(t[0]) then [t[0]] else if t[0] as int > 0xFFFF then "__" else "_") + SafeTitle(t[1..])
  }

  /** An ASCII letter or digit is kept where it stands. */
  lemma {:induction false} SafeTitleKeepsAlnum(t: string)
    requires forall i :: 0 <= i < |t| ==> IsAsciiAlnum(t[i])
    ensures SafeTitle(t) == t
  {
    if |t| > 0 {
      assert forall i :: 0 <= i < |t[1..]| ==> t[1..][i] == t[i + 1];
      SafeTitleKeepsAlnum(t[1..]);
      assert t == [t[0]] + t[1..];
    }
  }

  /** Sanitising a sanitised title changes nothing. */
  lemma SafeTitleIdempotent(t: string)
    ensures SafeTitle(SafeTitle(t)) == SafeTitle(t)
  {
    var r := SafeTitle(t);
    forall i | 0 <= i < |r| ensures IsAsciiAlnum(r[i]) || r[i] == '_' {}
    SafeTitleOnSafe(r);
  }

  lemma {:induction false} SafeTitleOnSafe(r: string)
    requires forall i :: 0 <= i < |r| ==> IsAsciiAlnum(r[i]) || r[i] == '_'
    ensures SafeTitle(r) == r
  {
    if |r| > 0 {
      assert forall i :: 0 <= i < |r[1..]| ==> r[1..][i] == r[i + 1];
      SafeTitleOnSafe(r[1..]);
      assert r == [r[0]] + r[1..];
    }
  }

  /** `exportToCSV`: nothing when there are no responses (the alert),
      otherwise the file name and the text it downloads. */
  function ExportToCsv(title: string, fields: seq<ExportField>, responses: seq<ExportResponse>, localTime: Cell -> string): (r: Option<CsvDownload>)
    ensures r.None? <==> |responses| == 0
    ensures r.Some? ==> r.value.filename == SafeTitle(title) + "_export.csv"
  {
    if |responses| == 0 then None
    else Some(CsvDownload(SafeTitle(title) + "_export.csv", CsvContent(fields, responses, localTime)))
  }

  /** The download's first line is the header; every response follows on
      its own line, in order. */
  lemma CsvContentLayout(fields: seq<ExportField>, responses: seq<ExportResponse>, localTime: Cell -> string)
    ensures |responses| == 0 ==> CsvContent(fields, responses, localTime) == Join(Headers(fields), ",")
    ensures |responses| > 0 ==>
      CsvContent(fields, responses, localTime) == CsvContent(fields, responses[..|responses| - 1], localTime) + "\n" + LineOf(RowOf(responses[|responses| - 1], fields, localTime))
  {
    var ls := [Join(Headers(fields), ",")] + Lines(Rows(responses, fields, localTime));
    if |responses| > 0 {
      var p := responses[..|responses| - 1];
      assert ls[..|ls| - 1] == [Join(Headers(fields), ",")] + Lines(Rows(p, fields, localTime));
    }
  }

  // ---------------------------------------------------------------------
  // Reading the text back

  /** What a CSV reader has seen after part of the text: the cell separators
      and record breaks outside quotes, and whether a quote is open. */
  datatype ReadState = ReadState(separators: nat, breaks: nat, quoted: bool)

  /** Reads s from a position where a quote is open or not, counting from
      zero. Each '"' opens or closes a quote. */
  function Read(s: string, quoted: bool): (r: ReadState)
    decreases |s|
  {
    if |s| == 0 then ReadState(0, 0, quoted)
    else
      var c := s[0];
      var r := Read(s[1..], if c == '"' then !quoted else quoted);
      ReadState(r.separators + (if c == ',' && !quoted then 1 else 0),
                r.breaks + (if c == '\n' && !quoted then 1 else 0),
                r.quoted)
  }

  /** Reading x and then y. */
  function Then(x: ReadState, y: ReadState): ReadState
  {
    ReadState(x.separators + y.separators, x.breaks + y.breaks, y.quoted)
  }

  lemma {:induction false} ReadAppend(a: string, b: string, quoted: bool)
    ensures Read(a + b, quoted) == Then(Read(a, quoted), Read(b, Read(a, quoted).quoted))
    decreases |a|
  {
    if |a| > 0 {
      assert (a + b)[1..] == a[1..] + b;
      ReadAppend(a[1..], b, if a[0] == '"' then !quoted else quoted);
    } else {
      assert a + b == b;
    }
  }

  /** Inside an open quote, a doubled-quote text closes and reopens it in
      pairs, so nothing in it is a separator or a break. */
  lemma {:induction false} ReadDoubled(s: string)
    ensures Read(DoubleQuotes(s), true) == ReadState(0, 0, true)
    decreases |s|
  {
    if |s| > 0 {
      ReadDoubled(s[1..]);
      var head := if s[0] == '"' then "\"\"" else [s[0]];
      assert DoubleQuotes(s) == head + DoubleQuotes(s[1..]);
      ReadAppend(head, DoubleQuotes(s[1..]), true);
      if s[0] == '"' {
        assert head[1..] == "\"" && head[1..][1..] == [];
      } else {
        assert head[1..] == [];
      }
    }
  }

  /** A text with no ',', '"' or newline reads as nothing. */
  lemma {:induction false} ReadPlain(s: string)
    requires !NeedsQuoting(s)
    ensures Read(s, false) == ReadState(0, 0, false)
    decreases |s|
  {
    if |s| > 0 {
      assert s[0] in s;
      assert forall c :: c in s[1..] ==> c in s;
      ReadPlain(s[1..]);
    }
  }

  /** A lone quote opens or closes a quote and is nothing else. */
  lemma ReadQuote(quoted: bool)
    ensures Read("\"", quoted) == ReadState(0, 0, !quoted)
  {
    assert "\""[1..] == [];
  }

  /** An escaped text reads as one cell: no separator, no break, no quote
      left open. */
  lemma ReadEscaped(s: string)
    ensures Read(EscapeText(s), false) == ReadState(0, 0, false)
  {
    if NeedsQuoting(s) {
      var inner := DoubleQuotes(s);
      assert EscapeText(s) == "\"" + (inner + "\"");
      ReadAppend("\"", inner + "\"", false);
      ReadQuote(false);
      ReadAppend(inner, "\"", true);
      ReadDoubled(s);
      ReadQuote(true);
    } else {
      ReadPlain(s);
    }
  }

  lemma JoinCountStep(n: int, x: nat, y: nat)
    requires n > 1
    ensures n * x + (n - 1) * y == ((n - 1) * x + (n - 2) * y) + y + x
  {
  }

  /** Joining parts that each read as m, with a separator that reads as d. */
  lemma {:induction false} ReadJoin(parts: seq<string>, sep: string, d: ReadState, m: ReadState)
    requires |parts| > 0
    requires Read(sep, false) == d && !d.quoted
    requires !m.quoted && forall i :: 0 <= i < |parts| ==> Read(parts[i], false) == m
    ensures var r := Read(Join(parts, sep), false);
      r.separators == |parts| * m.separators + (|parts| - 1) * d.separators &&
      r.breaks == |parts| * m.breaks + (|parts| - 1) * d.breaks &&
      !r.quoted
    decreases |parts|
  {
    var n := |parts|;
    if n > 1 {
      var p := parts[..n - 1];
      assert forall i :: 0 <= i < |p| ==> p[i] == parts[i];
      ReadJoin(p, sep, d, m);
      var j := Join(p, sep);
      assert Join(parts, sep) == (j + sep) + parts[n - 1];
      ReadAppend(j + sep, parts[n - 1], false);
      ReadAppend(j, sep, false);
      var rj := Read(j, false);
      var r := Read(Join(parts, sep), false);
      assert r.separators == rj.separators + d.separators + m.separators;
      assert r.breaks == rj.breaks + d.breaks + m.breaks;
      JoinCountStep(n, m.separators, d.separators);
      JoinCountStep(n, m.breaks, d.breaks);
    }
  }

  /** Escaped texts joined by ','. */
  function QuotedJoin(texts: seq<string>): string
  {
    Join(seq(|texts|, i requires 0 <= i < |texts| => EscapeText(texts[i])), ",")
  }

  /** n texts, each escaped and joined by ',', read as n cells in one record. */
  lemma ReadQuotedJoin(texts: seq<string>)
    requires |texts| > 0
    ensures Read(QuotedJoin(texts), false) == ReadState(|texts| - 1, 0, false)
  {
    var parts := seq(|texts|, i requires 0 <= i < |texts| => EscapeText(texts[i]));
    forall i | 0 <= i < |parts| ensures Read(parts[i], false) == ReadState(0, 0, false) {
      ReadEscaped(texts[i]);
    }
    ReadJoin(parts, ",", ReadState(1, 0, false), ReadState(0, 0, false));
  }

  /** Splits s at every sep outside quotes, starting with a quote open or
      not: how a CSV reader cuts its text into records ('\n') and a record
      into cells (','). */
  function Split(s: string, sep: char, quoted: bool): (r: seq<string>)
    ensures |r| > 0
    decreases |s|
  {
    if |s| == 0 then [""]
    else if s[0] == sep && !quoted then [""] + Split(s[1..], sep, false)
    else
      var rest := Split(s[1..], sep, if s[0] == '"' then !quoted else quoted);
      [[s[0]] + rest[0]] + rest[1..]
  }

  /** The cells of one record, each with its quotes taken off. */
  function ReadCells(raw: seq<string>): (r: seq<string>)
    ensures |r| == |raw|
  {
    seq(|raw|, k requires 0 <= k < |raw| => ReadCell(raw[k]))
  }

  /** A CSV reader: the records of a text, each as the texts of its cells. */
  function ParseCsv(text: string): seq<seq<string>>
  {
    var records := Split(text, '\n', false);
    seq(|records|, i requires 0 <= i < |records| => ReadCells(Split(records[i], ',', false)))
  }

  /** A separator outside quotes ends the pieces of a and starts those of b. */
  lemma {:induction false} SplitAppend(a: string, b: string, sep: char, quoted: bool)
    requires sep != '"' && !Read(a, quoted).quoted
    ensures Split(a + [sep] + b, sep, quoted) == Split(a, sep, quoted) + Split(b, sep, false)
    decreases |a|
  {
    if |a| == 0 {
      assert a + [sep] + b == [sep] + b && ([sep] + b)[1..] == b;
    } else {
      var c, t := a[0], a[1..];
      assert a == [c] + t;
      assert a + [sep] + b == [c] + (t + [sep] + b);
      var q := if c == sep && !quoted then false else if c == '"' then !quoted else quoted;
      assert Read(a, quoted).quoted == Read(t, q).quoted;
      SplitAppend(t, b, sep, q);
      SplitStep(c, t, t + [sep] + b, sep, quoted, Split(b, sep, false));
    }
  }

  /** The inductive step of SplitAppend, for the first character c. */
  lemma SplitStep(c: char, t: string, x: string, sep: char, quoted: bool, tail: seq<string>)
    requires var q := if c == sep && !quoted then false else if c == '"' then !quoted else quoted;
      Split(x, sep, q) == Split(t, sep, q) + tail
    ensures Split([c] + x, sep, quoted) == Split([c] + t, sep, quoted) + tail
  {
    var q := if c == sep && !quoted then false else if c == '"' then !quoted else quoted;
    SplitCons(c, x, sep, quoted);
    SplitCons(c, t, sep, quoted);
    if !(c == sep && !quoted) {
      PiecesAppend([c], Split(t, sep, q), tail);
    } else {
      assert [""] + (Split(t, sep, q) + tail) == ([""] + Split(t, sep, q)) + tail;
    }
  }

  lemma PiecesAppend(h: string, a: seq<string>, tail: seq<string>)
    requires |a| > 0
    ensures [h + (a + tail)[0]] + (a + tail)[1..] == ([h + a[0]] + a[1..]) + tail
  {
    assert (a + tail)[0] == a[0];
    assert (a + tail)[1..] == a[1..] + tail;
  }

  /** Split on a text that starts with c. */
  lemma SplitCons(c: char, x: string, sep: char, quoted: bool)
    ensures Split([c] + x, sep, quoted) ==
      if c == sep && !quoted then [""] + Split(x, sep, false)
      else var r := Split(x, sep, if c == '"' then !quoted else quoted); [[c] + r[0]] + r[1..]
  {
    assert ([c] + x)[0] == c && ([c] + x)[1..] == x;
  }

  /** A text with no separator outside quotes is one piece. */
  lemma {:induction false} SplitNone(s: string, sep: char, quoted: bool)
    requires sep == ',' || sep == '\n'
    requires (if sep == ',' then Read(s, quoted).separators else Read(s, quoted).breaks) == 0
    ensures Split(s, sep, quoted) == [s]
    decreases |s|
  {
    if |s| > 0 {
      SplitNone(s[1..], sep, if s[0] == '"' then !quoted else quoted);
      assert s == [s[0]] + s[1..];
    }
  }

  /** Parts that are one piece each, with no quote left open, joined by
      sep, split back into those parts. */
  lemma {:induction false} SplitJoin(parts: seq<string>, sep: char)
    requires |parts| > 0 && (sep == ',' || sep == '\n')
    requires forall i :: 0 <= i < |parts| ==> Split(parts[i], sep, false) == [parts[i]] && !Read(parts[i], false).quoted
    ensures Split(Join(parts, [sep]), sep, false) == parts
    ensures !Read(Join(parts, [sep]), false).quoted
    decreases |parts|
  {
    var n := |parts|;
    if n > 1 {
      var p := parts[..n - 1];
      assert forall i :: 0 <= i < |p| ==> p[i] == parts[i];
      SplitJoin(p, sep);
      SplitJoinStep(Join(p, [sep]), parts[n - 1], p, sep);
      DropLast(parts);
    }
  }

  lemma DropLast<T>(s: seq<T>)
    requires |s| > 0
    ensures s == s[..|s| - 1] + [s[|s| - 1]]
  {
  }

  /** The step of SplitJoin: one more part after the parts joined so far. */
  lemma SplitJoinStep(j: string, last: string, p: seq<string>, sep: char)
    requires sep == ',' || sep == '\n'
    requires Split(j, sep, false) == p && !Read(j, false).quoted
    requires Split(last, sep, false) == [last] && !Read(last, false).quoted
    ensures Split(j + [sep] + last, sep, false) == p + [last]
    ensures !Read(j + [sep] + last, false).quoted
  {
    SplitAppend(j, last, sep, false);
    ReadSeparator(sep);
    ReadAppend(j, [sep], false);
    ReadAppend(j + [sep], last, false);
  }

  /** Escaped texts joined by ',' read back as the texts themselves. */
  lemma ReadQuotedJoinCells(texts: seq<string>)
    requires |texts| > 0
    ensures ReadCells(Split(QuotedJoin(texts), ',', false)) == texts
  {
    var parts := seq(|texts|, i requires 0 <= i < |texts| => EscapeText(texts[i]));
    forall i | 0 <= i < |parts|
      ensures Split(parts[i], ',', false) == [parts[i]] && !Read(parts[i], false).quoted
    {
      ReadEscaped(texts[i]);
      SplitNone(parts[i], ',', false);
    }
    assert "," == [','];
    SplitJoin(parts, ',');
    forall k | 0 <= k < |texts| ensures ReadCell(parts[k]) == texts[k] {
      EscapeRoundTrip(texts[k]);
    }
  }

  /** The corrected row: the four leading cells and each field's value as
      it stands, left for the record to escape like every other cell. */
  function RawRowOf(resp: ExportResponse, fields: seq<ExportField>, localTime: Cell -> string): (r: seq<Cell>)
    ensures |r| == 4 + |fields|
  {
    FixedCells(resp, localTime) + seq(|fields|, j requires 0 <= j < |fields| => Some(FieldValue(resp, fields[j].fieldLabel)))
  }

  /** The cell texts the corrected export writes: the header, then one
      record per response. */
  function TextRecords(fields: seq<ExportField>, responses: seq<ExportResponse>, localTime: Cell -> string): (r: seq<seq<string>>)
    ensures |r| == |responses| + 1
  {
    seq(|responses| + 1, i requires 0 <= i <= |responses| =>
      if i == 0 then Headers(fields) else CellTexts(RawRowOf(responses[i - 1], fields, localTime)))
  }

  /** The header and one line per response, every cell escaped once, the
      four leading cells included. */
  function QuotedRecords(fields: seq<ExportField>, responses: seq<ExportResponse>, localTime: Cell -> string): (r: seq<string>)
    ensures |r| == |responses| + 1
  {
    var texts := TextRecords(fields, responses, localTime);
    seq(|texts|, i requires 0 <= i < |texts| => QuotedJoin(texts[i]))
  }

  /** The export with every cell escaped. */
  function QuotedCsvContent(fields: seq<ExportField>, responses: seq<ExportResponse>, localTime: Cell -> string): string
  {
    Join(QuotedRecords(fields, responses, localTime), "\n")
  }

  /** Each escaped record reads as 4 + |fields| cells and no break. */
  lemma QuotedRecordsRead(fields: seq<ExportField>, responses: seq<ExportResponse>, localTime: Cell -> string)
    ensures var lines := QuotedRecords(fields, responses, localTime);
      forall i :: 0 <= i < |lines| ==> Read(lines[i], false) == ReadState(3 + |fields|, 0, false)
  {
    var lines := QuotedRecords(fields, responses, localTime);
    forall i | 0 <= i < |lines| ensures Read(lines[i], false) == ReadState(3 + |fields|, 0, false) {
      QuotedRecordRead(fields, responses, localTime, i);
    }
  }

  lemma QuotedRecordRead(fields: seq<ExportField>, responses: seq<ExportResponse>, localTime: Cell -> string, i: int)
    requires 0 <= i <= |responses|
    ensures Read(QuotedRecords(fields, responses, localTime)[i], false) == ReadState(3 + |fields|, 0, false)
  {
    var texts := TextRecords(fields, responses, localTime);
    assert |texts[i]| == 4 + |fields|;
    ReadQuotedJoin(texts[i]);
  }

  /** With every cell escaped, a CSV reader gets back exactly the texts the
      export wrote: the header, then each response's cells, in order. */
  lemma QuotedCsvContentReadsBack(fields: seq<ExportField>, responses: seq<ExportResponse>, localTime: Cell -> string)
    ensures ParseCsv(QuotedCsvContent(fields, responses, localTime)) == TextRecords(fields, responses, localTime)
  {
    var records := QuotedRecords(fields, responses, localTime);
    var texts := TextRecords(fields, responses, localTime);
    QuotedRecordsSplit(fields, responses, localTime);
    forall i | 0 <= i < |records| ensures ReadCells(Split(records[i], ',', false)) == texts[i] {
      QuotedRecordReadsBack(fields, responses, localTime, i);
    }
  }

  /** The reader cuts the corrected export into its records. */
  lemma QuotedRecordsSplit(fields: seq<ExportField>, responses: seq<ExportResponse>, localTime: Cell -> string)
    ensures Split(QuotedCsvContent(fields, responses, localTime), '\n', false) == QuotedRecords(fields, responses, localTime)
  {
    var records := QuotedRecords(fields, responses, localTime);
    QuotedRecordsRead(fields, responses, localTime);
    forall i | 0 <= i < |records|
      ensures Split(records[i], '\n', false) == [records[i]] && !Read(records[i], false).quoted
    {
      SplitNone(records[i], '\n', false);
    }
    assert "\n" == ['\n'];
    SplitJoin(records, '\n');
  }

  /** Record i of the corrected export reads back as its cell texts. */
  lemma QuotedRecordReadsBack(fields: seq<ExportField>, responses: seq<ExportResponse>, localTime: Cell -> string, i: int)
    requires 0 <= i <= |responses|
    ensures ReadCells(Split(QuotedRecords(fields, responses, localTime)[i], ',', false)) == TextRecords(fields, responses, localTime)[i]
  {
    var texts := TextRecords(fields, responses, localTime);
    assert |texts[i]| == 4 + |fields|;
    ReadQuotedJoinCells(texts[i]);
  }

  /** What a reader finds in the corrected export: the header first, and in
      record i + 1 the cells of response i, the submitter as given and
      field j's value as it stands, with '' for a missing one. */
  lemma QuotedCellsReadBack(fields: seq<ExportField>, responses: seq<ExportResponse>, localTime: Cell -> string, i: int, j: int)
    requires 0 <= i < |responses| && 0 <= j < |fields|
    ensures var recs := ParseCsv(QuotedCsvContent(fields, responses, localTime));
      && |recs| == |responses| + 1
      && recs[0] == Headers(fields)
      && |recs[i + 1]| == 4 + |fields|
      && recs[i + 1][1] == CellText(Get(responses[i], "submitted_by"))
      && recs[i + 1][4 + j] == ToJsString(FieldValue(responses[i], fields[j].fieldLabel))
      && (!HasKey(responses[i], fields[j].fieldLabel) ==> recs[i + 1][4 + j] == "")
  {
    QuotedCsvContentReadsBack(fields, responses, localTime);
    TextRecordCells(fields, responses, localTime, i, j);
  }

  /** The cell texts of the corrected export, before any reading. */
  lemma TextRecordCells(fields: seq<ExportField>, responses: seq<ExportResponse>, localTime: Cell -> string, i: int, j: int)
    requires 0 <= i < |responses| && 0 <= j < |fields|
    ensures var texts := TextRecords(fields, responses, localTime);
      && texts[0] == Headers(fields)
      && |texts[i + 1]| == 4 + |fields|
      && texts[i + 1][1] == CellText(Get(responses[i], "submitted_by"))
      && texts[i + 1][4 + j] == ToJsString(FieldValue(responses[i], fields[j].fieldLabel))
  {
    var texts := TextRecords(fields, responses, localTime);
    assert texts[i + 1] == CellTexts(RawRowOf(responses[i], fields, localTime));
    RawRowTexts(responses[i], fields, localTime, j);
  }

  /** The cell texts of one corrected row. */
  lemma RawRowTexts(resp: ExportResponse, fields: seq<ExportField>, localTime: Cell -> string, j: int)
    requires 0 <= j < |fields|
    ensures var texts := CellTexts(RawRowOf(resp, fields, localTime));
      && |texts| == 4 + |fields|
      && texts[1] == CellText(Get(resp, "submitted_by"))
      && texts[4 + j] == ToJsString(FieldValue(resp, fields[j].fieldLabel))
  {
    var row := RawRowOf(resp, fields, localTime);
    assert row[1] == Get(resp, "submitted_by");
    assert row[4 + j] == Some(FieldValue(resp, fields[j].fieldLabel));
  }

  /** A lone ',' is a separator and a lone newline a break. */
  lemma ReadSeparator(c: char)
    requires c == ',' || c == '\n'
    ensures Read([c], false) == ReadState(if c == ',' then 1 else 0, if c == '\n' then 1 else 0, false)
  {
    assert [c][1..] == [];
  }

  /** A reader cuts a record into one more cell than it has separators. */
  lemma {:induction false} SplitCount(s: string, quoted: bool)
    ensures |Split(s, ',', quoted)| == Read(s, quoted).separators + 1
    decreases |s|
  {
    if |s| > 0 {
      SplitCount(s[1..], if s[0] == ',' && !quoted then false else if s[0] == '"' then !quoted else quoted);
    }
  }

  /** As written, the four leading cells are not escaped: a submitter name
      such as "Doe, Jane" adds a cell to its line, so a reader finds one
      record of five cells under a four-column header. */
  lemma UnescapedSubmitterSplits(id: string, last: string, first: string, time: string)
    requires !NeedsQuoting(id) && !NeedsQuoting(last) && !NeedsQuoting(first) && !NeedsQuoting(time)
    ensures var resp: ExportResponse := [("id", Str(id)), ("submitted_by", Str(last + ", " + first))];
      var row := RowOf(resp, [], _ => time);
      && |row| == |Headers([])| == 4 && Read(LineOf(row), false).separators == 4
      && |ParseCsv(LineOf(row))| == 1 && |ParseCsv(LineOf(row))[0]| == 5
  {
    var sub := last + ", " + first;
    SubmitterTexts(id, sub, time);
    JoinFour(id, sub, time, "", ",");
    var z := ReadState(0, 0, false);
    var rest := " " + first;
    assert !NeedsQuoting(rest) by {
      assert forall c :: c in rest ==> c == ' ' || c in first;
    }
    assert sub == (last + ",") + rest;
    ReadPlain(id);
    ReadPlain(last);
    ReadPlain(rest);
    ReadPlain(time);
    ReadPlain("");
    ReadAfterComma(last, rest, z, z);
    ReadAfterComma(id, sub, z, ReadState(1, 0, false));
    ReadAfterComma(id + "," + sub, time, ReadState(2, 0, false), z);
    ReadAfterComma(id + "," + sub + "," + time, "", ReadState(3, 0, false), z);
    var line := LineOf(RowOf([("id", Str(id)), ("submitted_by", Str(sub))], [], _ => time));
    SplitNone(line, '\n', false);
    SplitCount(line, false);
  }

  /** The texts of the row: nothing in the four leading cells is escaped. */
  lemma SubmitterTexts(id: string, sub: string, time: string)
    ensures CellTexts(RowOf([("id", Str(id)), ("submitted_by", Str(sub))], [], _ => time)) == [id, sub, time, ""]
  {
    var resp: ExportResponse := [("id", Str(id)), ("submitted_by", Str(sub))];
    var cells := RowOf(resp, [], _ => time);
    assert cells == [Some(Str(id)), Some(Str(sub)), Some(Str(time)), None] by {
      assert Get(resp, "id") == Some(Str(id));
      assert Get(resp, "submitted_by") == Some(Str(sub));
      assert Get(resp, "ip_address") == None;
    }
  }

  /** Four parts joined. */
  lemma JoinFour(a: string, b: string, c: string, d: string, sep: string)
    ensures Join([a, b, c, d], sep) == a + sep + b + sep + c + sep + d
  {
    assert [a, b, c, d][..3] == [a, b, c];
    assert [a, b, c][..2] == [a, b];
    assert [a, b][..1] == [a];
    assert Join([a, b], sep) == a + sep + b;
    assert Join([a, b, c], sep) == Join([a, b], sep) + sep + c;
    assert Join([a, b, c, d], sep) == Join([a, b, c], sep) + sep + d;
  }

  /** Reading a, a ',' and then b, with no quote open at either end. */
  lemma ReadAfterComma(a: string, b: string, ra: ReadState, rb: ReadState)
    requires Read(a, false) == ra && !ra.quoted && Read(b, false) == rb
    ensures Read((a + ",") + b, false) == ReadState(ra.separators + 1 + rb.separators, ra.breaks + rb.breaks, rb.quoted)
  {
    ReadSeparator(',');
    ReadAppend(a, ",", false);
    ReadAppend(a + ",", b, false);
    ThenComma(ra, rb);
  }

  lemma ThenComma(ra: ReadState, rb: ReadState)
    requires !ra.quoted
    ensures Then(Then(ra, ReadState(1, 0, false)), rb) == ReadState(ra.separators + 1 + rb.separators, ra.breaks + rb.breaks, rb.quoted)
  {
  }

  // ---------------------------------------------------------------------
  // Excel column widths

  /** `headers.map(...)` to `{ wch }` widths. */
  function ColumnWidths(headers: seq<string>): (w: seq<int>)
    ensures |w| == |headers|
    ensures forall i :: 0 <= i < |w| && i < 4 ==> w[i] == [15, 20, 20, 15][i]
    ensures forall i :: 4 <= i < |w| ==> w[i] >= 15 && w[i] >= Utf16Length(headers[i])
    ensures forall i :: 4 <= i < |w| ==> w[i] == 15 || w[i] == Utf16Length(headers[i])
  {
    seq(|headers|, i requires 0 <= i < |headers| =>
      if i == 0 then 15 else if i == 1 then 20 else if i == 2 then 20 else if i == 3 then 15
      else if Utf16Length(headers[i]) > 15 then Utf16Length(headers[i]) else 15)
  }
}
