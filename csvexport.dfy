/**
 * The frontend's CSV export: field escaping, record and document assembly, the download file
 * name, and the summary-first report layout. A reader for the format the service writes
 * (section 2 of RFC 4180, rules 5 to 7, with `\n` as the record separator) is the partner
 * of the writer: everything written reads back as the texts that went in.
 */
module CsvExport {
  import opened Wrappers
  import opened Text

  /** A cell value: `null`/`undefined`, or a value whose `String(value)` is `text`. */
  datatype Value = Absent | Present(text: string)

  /** The text a cell stands for: the empty text for an absent value. */
  function TextOf(v: Value): string {
    if v.Present? then v.text else ""
  }

  // ----- Objects -----

  /** One property of a JavaScript object. */
  datatype Prop = Prop(key: string, value: Value)

  /** A plain object: its properties in insertion order, keys unique. */
  type Row = seq<Prop>

  /** `Object.keys(row)`. */
  function Keys(row: Row): (r: seq<string>)
    ensures |r| == |row| && forall i {:trigger r[i]} :: 0 <= i < |row| ==> r[i] == row[i].key
    decreases |row|
  {
    if row == [] then [] else [row[0].key] + Keys(row[1..])
  }

  /** `row[key]`: the property's value, `undefined` when there is none. */
  function Lookup(row: Row, key: string): (r: Value)
    ensures key !in Keys(row) ==> r == Absent
    ensures forall i :: 0 <= i < |row| && row[i].key == key && (forall j :: 0 <= j < i ==> row[j].key != key) ==> r == row[i].value
    decreases |row|
  {
    if row == [] then Absent
    else if row[0].key == key then row[0].value
    else
      assert forall i :: 1 <= i < |row| ==> row[i] == row[1..][i - 1];
      Lookup(row[1..], key)
  }

  /** `{...row, [key]: value}`: an existing key keeps its place and takes the new value; a new key goes last. */
  function Assign(row: Row, key: string, value: Value): (r: Row)
    ensures Lookup(r, key) == value
    ensures forall k :: k != key ==> Lookup(r, k) == Lookup(row, k)
    ensures key in Keys(row) ==> Keys(r) == Keys(row)
    ensures key !in Keys(row) ==> Keys(r) == Keys(row) + [key]
    decreases |row|
  {
    if row == [] then [Prop(key, value)]
    else if row[0].key == key then
      var r := [Prop(key, value)] + row[1..];
      assert r[1..] == row[1..];
      r
    else
      var rest := Assign(row[1..], key, value);
      var r := [row[0]] + rest;
      assert r[1..] == rest;
      r
  }

  // ----- Writing -----

  /** Whether a text must be quoted: it holds a comma, a double quote or a newline. */
  predicate NeedsQuotes(s: string) {
    ',' in s || '"' in s || '\n' in s
  }

  /** `s.replace(/"/g, '""')`: every double quote doubled. */
  function DoubleQuotes(s: string): (r: string)
    ensures |r| >= |s|
    ensures '"' !in s ==> r == s
    decreases |s|
  {
    if s == [] then []
    else (if s[0] == '"' then "\"\"" else [s[0]]) + DoubleQuotes(s[1..])
  }

  /** `escapeCSVValue`. */
  function EscapeCsvValue(v: Value): (r: string)
    ensures v.Absent? ==> r == ""
    ensures v.Present? && !NeedsQuotes(v.text) ==> r == v.text
    ensures v.Present? && NeedsQuotes(v.text) ==> |r| >= |v.text| + 2 && r[0] == '"' && r[|r| - 1] == '"'
  {
    match v
    case Absent => ""
    case Present(s) => if NeedsQuotes(s) then "\"" + DoubleQuotes(s) + "\"" else s
  }

  /** `parts.join(sep)`. */
  function Join(parts: seq<string>, sep: char): (r: string)
    ensures |parts| == 0 ==> r == ""
    ensures |parts| == 1 ==> r == parts[0]
    decreases |parts|
  {
    if |parts| == 0 then ""
    else if |parts| == 1 then parts[0]
    else parts[0] + [sep] + Join(parts[1..], sep)
  }

  /** `s.split(sep)`: the pieces between separators, in order. */
  function SplitOn(s: string, sep: char): (r: seq<string>)
    ensures |r| >= 1
    decreases |s|
  {
    var k := IndexOf(s, sep);
    if k == |s| then [s] else [s[..k]] + SplitOn(s[k + 1..], sep)
  }

  /** Joining pieces that do not hold the separator and splitting the result gives the pieces back. */
  lemma {:induction false} SplitJoin(parts: seq<string>, sep: char)
    requires |parts| >= 1 && forall i :: 0 <= i < |parts| ==> sep !in parts[i]
    ensures SplitOn(Join(parts, sep), sep) == parts
    decreases |parts|
  {
    var first := parts[0];
    if |parts| == 1 {
      IndexOfAfter(first, [], sep);
      assert first + [] == first;
    } else {
      var more := Join(parts[1..], sep);
      var s := first + ([sep] + more);
      assert Join(parts, sep) == s;
      IndexOfAfter(first, [sep] + more, sep);
      assert s[..|first|] == first && s[|first| + 1..] == more;
      SplitJoin(parts[1..], sep);
    }
  }

  /** `values.map(escapeCSVValue)`. */
  function EscapeAll(vs: seq<Value>): (r: seq<string>)
    ensures |r| == |vs| && forall i {:trigger r[i]} :: 0 <= i < |vs| ==> r[i] == EscapeCsvValue(vs[i])
    decreases |vs|
  {
    if vs == [] then [] else [EscapeCsvValue(vs[0])] + EscapeAll(vs[1..])
  }

  /** The texts a record's values stand for. */
  function Texts(vs: seq<Value>): (r: seq<string>)
    ensures |r| == |vs| && forall i {:trigger r[i]} :: 0 <= i < |vs| ==> r[i] == TextOf(vs[i])
    decreases |vs|
  {
    if vs == [] then [] else [TextOf(vs[0])] + Texts(vs[1..])
  }

  /** One CSV record: the escaped values joined by commas. */
  function EncodeRecord(vs: seq<Value>): string {
    Join(EscapeAll(vs), ',')
  }

  /** The header names as the values of the header record. */
  function HeaderValues(headers: seq<string>): (r: seq<Value>)
    ensures |r| == |headers| && forall i {:trigger r[i]} :: 0 <= i < |headers| ==> r[i] == Present(headers[i])
    decreases |headers|
  {
    if headers == [] then [] else [Present(headers[0])] + HeaderValues(headers[1..])
  }

  /** A data row's values under the headers, in header order. */
  function RowValues(row: Row, headers: seq<string>): (r: seq<Value>)
    ensures |r| == |headers| && forall i {:trigger r[i]} :: 0 <= i < |headers| ==> r[i] == Lookup(row, headers[i])
    decreases |headers|
  {
    if headers == [] then [] else [Lookup(row, headers[0])] + RowValues(row, headers[1..])
  }

  /** The headers `convertToCSV` uses: those given, or else the keys of the first row. */
  function CsvHeaders(data: seq<Row>, headers: Option<seq<string>>): seq<string>
    requires |data| > 0
  {
    if headers.Some? then headers.value else Keys(data[0])
  }

  /** The values `convertToCSV` writes: the header record, then one record per data row. */
  function Table(data: seq<Row>, hs: seq<string>): (r: seq<seq<Value>>)
    ensures |r| == |data| + 1 && r[0] == HeaderValues(hs)
    ensures forall i :: 1 <= i < |r| ==> r[i] == RowValues(data[i - 1], hs)
  {
    seq(|data| + 1, i requires 0 <= i <= |data| => if i == 0 then HeaderValues(hs) else RowValues(data[i - 1], hs))
  }

  /** The text lines of those records. */
  function Records(table: seq<seq<Value>>): (r: seq<string>)
    ensures |r| == |table| && forall i {:trigger r[i]} :: 0 <= i < |table| ==> r[i] == EncodeRecord(table[i])
  {
    seq(|table|, i requires 0 <= i < |table| => EncodeRecord(table[i]))
  }

  /** `convertToCSV`: the records joined by newlines; nothing at all for no data. */
  function ConvertToCsv(data: seq<Row>, headers: Option<seq<string>>): (r: string)
    ensures |data| == 0 ==> r == ""
  {
    if |data| == 0 then ""
    else Join(Records(Table(data, CsvHeaders(data, headers))), '\n')
  }

  // ----- Reading (the partner of the writer) -----

  predicate IsDelimiter(c: char) { c == ',' || c == '\n' }

  /** What may follow a field: nothing, or a field or record separator. */
  predicate AtFieldEnd(rest: string) { rest == [] || IsDelimiter(rest[0]) }

  /** What may follow a record: nothing, or a record separator. */
  predicate AtRecordEnd(rest: string) { rest == [] || rest[0] == '\n' }

  /** An unquoted field: everything up to the next comma or newline. */
  function ParseBare(s: string): (r: (string, string))
    ensures |r.1| <= |s| && AtFieldEnd(r.1)
    ensures r.0 + r.1 == s
    ensures forall i :: 0 <= i < |r.0| ==> !IsDelimiter(r.0[i])
    decreases |s|
  {
    if s == [] || IsDelimiter(s[0]) then ("", s)
    else
      var (f, rest) := ParseBare(s[1..]);
      Assoc([s[0]], f, rest);
      assert [s[0]] + s[1..] == s;
      ([s[0]] + f, rest)
  }

  /** The inside of a quoted field, after its opening quote: `""` stands for one quote, a lone `"` closes it. */
  function ParseQuotedBody(s: string): (r: Option<(string, string)>)
    ensures r.Some? ==> |r.value.1| < |s|
    decreases |s|
  {
    if s == [] then None
    else if s[0] == '"' then
      if |s| >= 2 && s[1] == '"' then
        match ParseQuotedBody(s[2..])
        case None => None
        case Some((f, rest)) => Some(("\"" + f, rest))
      else Some(("", s[1..]))
    else
      match ParseQuotedBody(s[1..])
      case None => None
      case Some((f, rest)) => Some(([s[0]] + f, rest))
  }

  /** One field: quoted, or bare without any double quote; it must end at a separator or at the end. */
  function ParseField(s: string): (r: Option<(string, string)>)
    ensures r.Some? ==> |r.value.1| <= |s| && AtFieldEnd(r.value.1)
  {
    if s != [] && s[0] == '"' then
      match ParseQuotedBody(s[1..])
      case None => None
      case Some((f, rest)) => if AtFieldEnd(rest) then Some((f, rest)) else None
    else
      var (f, rest) := ParseBare(s);
      if '"' in f then None else Some((f, rest))
  }

  /** One record: fields separated by commas, up to a newline or the end. */
  function ParseRecord(s: string): (r: Option<(seq<string>, string)>)
    ensures r.Some? ==> |r.value.1| <= |s| && AtRecordEnd(r.value.1) && |r.value.0| >= 1
    decreases |s|
  {
    match ParseField(s)
    case None => None
    case Some((f, rest)) =>
      if rest != [] && rest[0] == ',' then
        match ParseRecord(rest[1..])
        case None => None
        case Some((fs, rest')) => Some(([f] + fs, rest'))
      else Some(([f], rest))
  }

  /** A document: records separated by newlines. */
  function ParseDocument(s: string): (r: Option<seq<seq<string>>>)
    ensures r.Some? ==> |r.value| >= 1
    decreases |s|
  {
    match ParseRecord(s)
    case None => None
    case Some((record, rest)) =>
      if rest == [] then Some([record])
      else
        match ParseDocument(rest[1..])
        case None => None
        case Some(records) => Some([record] + records)
  }

  // ----- Round trips -----

  lemma {:induction false} BareRoundTrip(t: string, rest: string)
    requires forall i :: 0 <= i < |t| ==> !IsDelimiter(t[i])
    requires AtFieldEnd(rest)
    ensures ParseBare(t + rest) == (t, rest)
    decreases |t|
  {
    if t == [] {
      assert t + rest == rest;
    } else {
      assert (t + rest)[1..] == t[1..] + rest;
      BareRoundTrip(t[1..], rest);
      assert [t[0]] + t[1..] == t;
    }
  }

  lemma {:induction false} QuotedRoundTrip(t: string, tail: string)
    requires tail == [] || tail[0] != '"'
    ensures ParseQuotedBody(DoubleQuotes(t) + "\"" + tail) == Some((t, tail))
  {
    ClosingQuote(tail);
    QuotedBodyRoundTrip(t, "\"" + tail, tail);
    Assoc(DoubleQuotes(t), "\"", tail);
  }

  /** A doubled body followed by any text that reads as an empty body reads back as the original. */
  lemma {:induction false} QuotedBodyRoundTrip(t: string, closing: string, tail: string)
    requires ParseQuotedBody(closing) == Some(("", tail))
    ensures ParseQuotedBody(DoubleQuotes(t) + closing) == Some((t, tail))
    decreases |t|
  {
    if t == [] {
      assert DoubleQuotes(t) + closing == closing;
      assert t == "";
    } else {
      QuotedBodyRoundTrip(t[1..], closing, tail);
      var rest := DoubleQuotes(t[1..]);
      var head := if t[0] == '"' then "\"\"" else [t[0]];
      assert DoubleQuotes(t) == head + rest;
      Assoc(head, rest, closing);
      if t[0] == '"' {
        QuotedPairStep(rest + closing, t[1..], tail);
        assert "\"" + t[1..] == t;
      } else {
        QuotedCharStep(t[0], rest + closing, t[1..], tail);
        assert [t[0]] + t[1..] == t;
      }
    }
  }

  lemma ClosingQuote(tail: string)
    requires tail == [] || tail[0] != '"'
    ensures ParseQuotedBody("\"" + tail) == Some(("", tail))
  {
    assert ("\"" + tail)[1..] == tail;
  }

  lemma Assoc(a: string, b: string, c: string)
    ensures a + b + c == a + (b + c)
  {
  }

  lemma QuotedCharStep(c: char, u: string, f: string, rest: string)
    requires c != '"' && ParseQuotedBody(u) == Some((f, rest))
    ensures ParseQuotedBody([c] + u) == Some(([c] + f, rest))
  {
    assert ([c] + u)[1..] == u;
  }

  lemma QuotedPairStep(u: string, f: string, rest: string)
    requires ParseQuotedBody(u) == Some((f, rest))
    ensures ParseQuotedBody("\"\"" + u) == Some(("\"" + f, rest))
  {
    assert ("\"\"" + u)[2..] == u;
  }

  /** An escaped value followed by a separator reads back as the text it stands for. */
  lemma FieldRoundTrip(v: Value, rest: string)
    requires AtFieldEnd(rest)
    ensures ParseField(EscapeCsvValue(v) + rest) == Some((TextOf(v), rest))
  {
    var t := TextOf(v);
    if v.Present? && NeedsQuotes(t) {
      var s := EscapeCsvValue(v) + rest;
      assert s == "\"" + (DoubleQuotes(t) + "\"" + rest);
      assert s[1..] == DoubleQuotes(t) + "\"" + rest;
      QuotedRoundTrip(t, rest);
    } else {
      assert EscapeCsvValue(v) == t;
      assert forall i :: 0 <= i < |t| ==> t[i] in t;
      BareRoundTrip(t, rest);
    }
  }

  /** A record the writer produced reads back as its texts, field for field. */
  lemma {:induction false} RecordRoundTrip(vs: seq<Value>, rest: string)
    requires |vs| >= 1 && AtRecordEnd(rest)
    ensures ParseRecord(EncodeRecord(vs) + rest) == Some((Texts(vs), rest))
    decreases |vs|
  {
    var es := EscapeAll(vs);
    if |vs| == 1 {
      FieldRoundTrip(vs[0], rest);
      assert Texts(vs) == [TextOf(vs[0])];
    } else {
      var joined := Join(es[1..], ',');
      var more := joined + rest;
      assert es[1..] == EscapeAll(vs[1..]);
      assert EncodeRecord(vs) == es[0] + [','] + joined;
      Assoc(es[0] + [','], joined, rest);
      Assoc(es[0], [','], more);
      FieldRoundTrip(vs[0], [','] + more);
      RecordRoundTrip(vs[1..], rest);
      RecordStep(es[0], more, TextOf(vs[0]), Texts(vs[1..]), rest);
      assert Texts(vs) == [TextOf(vs[0])] + Texts(vs[1..]);
    }
  }

  /** A field, a comma and a record read as one record of one more field. */
  lemma RecordStep(field: string, more: string, f: string, fs: seq<string>, rest: string)
    requires ParseField(field + ([','] + more)) == Some((f, [','] + more))
    requires ParseRecord(more) == Some((fs, rest))
    ensures ParseRecord(field + ([','] + more)) == Some(([f] + fs, rest))
  {
    assert ([','] + more)[1..] == more;
  }

  /** A document of records the writer produced reads back as their texts, record for record. */
  lemma {:induction false} DocumentRoundTrip(table: seq<seq<Value>>, lines: seq<string>)
    requires |table| >= 1 && |lines| == |table|
    requires forall i :: 0 <= i < |table| ==> |table[i]| >= 1 && lines[i] == EncodeRecord(table[i])
    ensures ParseDocument(Join(lines, '\n')).Some?
    ensures var doc := ParseDocument(Join(lines, '\n')).value;
            |doc| == |table| && forall i :: 0 <= i < |table| ==> doc[i] == Texts(table[i])
    decreases |table|
  {
    if |table| == 1 {
      RecordRoundTrip(table[0], "");
      assert lines[0] + "" == lines[0];
    } else {
      var more := Join(lines[1..], '\n');
      assert Join(lines, '\n') == lines[0] + ("\n" + more);
      RecordRoundTrip(table[0], "\n" + more);
      assert ("\n" + more)[1..] == more;
      DocumentRoundTrip(table[1..], lines[1..]);
    }
  }

  /**
   * `convertToCSV` reads back as the header names followed by, for each data row, the texts of
   * its values under those headers, provided there is at least one row and one header.
   */
  lemma ConvertRoundTrip(data: seq<Row>, headers: Option<seq<string>>)
    requires |data| >= 1 && |CsvHeaders(data, headers)| >= 1
    ensures ParseDocument(ConvertToCsv(data, headers)).Some?
    ensures var hs := CsvHeaders(data, headers);
            var doc := ParseDocument(ConvertToCsv(data, headers)).value;
            && |doc| == |data| + 1
            && doc[0] == hs
            && forall i :: 0 <= i < |data| ==> doc[i + 1] == Texts(RowValues(data[i], hs))
  {
    var hs := CsvHeaders(data, headers);
    var table := Table(data, hs);
    forall i | 0 <= i < |table| ensures |table[i]| >= 1 {
      if i > 0 { assert table[i] == RowValues(data[i - 1], hs); }
    }
    DocumentRoundTrip(table, Records(table));
    assert Texts(HeaderValues(hs)) == hs;
  }

  // ----- File names -----

  predicate IsNameChar(c: char) {
    'a' <= c <= 'z' || 'A' <= c <= 'Z' || '0' <= c <= '9' || c == '_' || c == '-'
  }

  /** A character outside the Basic Multilingual Plane: JavaScript stores it as two UTF-16 code units. */
  predicate IsAstral(c: char) { c as int >= 0x1_0000 }

  /** The number of UTF-16 code units a JavaScript string holding `s` has. */
  function CodeUnits(s: string): nat
    decreases |s|
  {
    if s == [] then 0 else (if IsAstral(s[0]) then 2 else 1) + CodeUnits(s[1..])
  }

  predicate IsSanitized(c: char) { 'a' <= c <= 'z' || '0' <= c <= '9' || c == '_' || c == '-' }

  /**
   * What the replacement and lower-casing make of one character: a name character lower-cased,
   * any other one `_` for each of its code units, since the pattern has no `u` flag and so
   * matches the two halves of a surrogate pair separately.
   */
  function SanitizeChar(c: char): (r: string)
    ensures |r| == (if IsAstral(c) then 2 else 1)
    ensures forall i {:trigger r[i]} :: 0 <= i < |r| ==> IsSanitized(r[i])
    ensures IsNameChar(c) ==> r == [LowerChar(c)]
    ensures !IsNameChar(c) ==> forall i {:trigger r[i]} :: 0 <= i < |r| ==> r[i] == '_'
  {
    if IsNameChar(c) then [LowerChar(c)] else if IsAstral(c) then "__" else "_"
  }

  /** `baseName.replace(/[^a-z0-9_-]/gi, '_').toLowerCase()`. */
  function SanitizeName(baseName: string): (r: string)
    ensures |r| == CodeUnits(baseName)
    ensures forall i {:trigger r[i]} :: 0 <= i < |r| ==> IsSanitized(r[i])
    decreases |baseName|
  {
    if baseName == [] then []
    else
      var head := SanitizeChar(baseName[0]);
      var rest := SanitizeName(baseName[1..]);
      var r := head + rest;
      assert forall i {:trigger r[i]} :: |head| <= i < |r| ==> r[i] == rest[i - |head|];
      r
  }

  /** Sanitising works character by character: a name is sanitised piece by piece. */
  lemma {:induction false} SanitizeNameAppend(a: string, b: string)
    ensures SanitizeName(a + b) == SanitizeName(a) + SanitizeName(b)
    decreases |a|
  {
    if a == [] {
      assert a + b == b;
    } else {
      assert (a + b)[0] == a[0] && (a + b)[1..] == a[1..] + b;
      SanitizeNameAppend(a[1..], b);
    }
  }

  /**
   * For a name of Basic Multilingual Plane characters only, the sanitised name has the same length,
   * each name character lower-cased in place and each other character replaced by `_`.
   */
  lemma {:induction false} SanitizeNamePointwise(baseName: string)
    requires forall i :: 0 <= i < |baseName| ==> !IsAstral(baseName[i])
    ensures |SanitizeName(baseName)| == |baseName|
    ensures forall i {:trigger SanitizeName(baseName)[i]} :: 0 <= i < |baseName| ==>
              SanitizeName(baseName)[i] == if IsNameChar(baseName[i]) then LowerChar(baseName[i]) else '_'
    decreases |baseName|
  {
    if baseName != [] {
      var tail := baseName[1..];
      SanitizeNamePointwise(tail);
      var r := SanitizeName(baseName);
      assert r == SanitizeChar(baseName[0]) + SanitizeName(tail);
      forall i | 1 <= i < |baseName|
        ensures r[i] == if IsNameChar(baseName[i]) then LowerChar(baseName[i]) else '_'
      {
        assert r[i] == SanitizeName(tail)[i - 1] && tail[i - 1] == baseName[i];
      }
    }
  }

  /** A character outside the Basic Multilingual Plane becomes two underscores. */
  lemma SanitizeAstral(c: char)
    requires IsAstral(c)
    ensures SanitizeName([c]) == "__"
  {
    assert [c][1..] == [];
  }

  /** `s.replace(/c/g, d)`. */
  function ReplaceAll(s: string, c: char, d: char): (r: string)
    ensures |r| == |s| && forall i {:trigger r[i]} :: 0 <= i < |s| ==> r[i] == if s[i] == c then d else s[i]
    decreases |s|
  {
    if s == [] then [] else [if s[0] == c then d else s[0]] + ReplaceAll(s[1..], c, d)
  }

  /** `s.replace(c, d)` with a string pattern: only the first occurrence (see `ReplaceFirstAt`). */
  function ReplaceFirst(s: string, c: char, d: char): (r: string)
    ensures |r| == |s|
    decreases |s|
  {
    if s == [] then [] else if s[0] == c then [d] + s[1..] else [s[0]] + ReplaceFirst(s[1..], c, d)
  }

  predicate IsLineTerminator(c: char) {
    c == '\n' || c == '\r' || c == '\U{2028}' || c == '\U{2029}'
  }

  /** Drops characters up to the next line terminator (see `DropToLineEndSuffix`). */
  function DropToLineEnd(s: string): (r: string)
    ensures |r| <= |s|
    decreases |s|
  {
    if s == [] || IsLineTerminator(s[0]) then s else DropToLineEnd(s[1..])
  }

  /** What is left is the suffix from the first line terminator on, or nothing when there is none. */
  lemma {:induction false} DropToLineEndSuffix(s: string)
    ensures var r := DropToLineEnd(s);
      && r == s[|s| - |r|..]
      && (r == [] || IsLineTerminator(r[0]))
      && forall i :: 0 <= i < |s| - |r| ==> !IsLineTerminator(s[i])
    decreases |s|
  {
    if s != [] && !IsLineTerminator(s[0]) {
      var r := DropToLineEnd(s[1..]);
      DropToLineEndSuffix(s[1..]);
      assert s[1..][|s| - 1 - |r|..] == s[|s| - |r|..];
      assert forall i :: 1 <= i < |s| - |r| ==> s[i] == s[1..][i - 1];
    }
  }

  /** Where `/\..+/` can match: a `.` followed by a character other than a line terminator. */
  predicate FractionAt(s: string, i: int) {
    0 <= i && i + 1 < |s| && s[i] == '.' && !IsLineTerminator(s[i + 1])
  }

  /** `s.replace(/\..+/, '')`: the first `.` followed by at least one character, and the rest of its line, removed (see `CutFractionAt`). */
  function CutFraction(s: string): (r: string)
    ensures |r| <= |s|
    decreases |s|
  {
    if |s| < 2 then s
    else if s[0] == '.' && !IsLineTerminator(s[1]) then DropToLineEnd(s[1..])
    else [s[0]] + CutFraction(s[1..])
  }

  /** The file-name timestamp made from `toISOString()`: colons to dashes, fraction dropped, `T` to `_`. */
  function Timestamp(iso: string): string {
    ReplaceFirst(CutFraction(ReplaceAll(iso, ':', '-')), 'T', '_')
  }

  /**
   * `generateFilename`, with the moment `new Date().toISOString()` would read passed as `iso`:
   * the sanitised base, then `_` and the timestamp when requested, then `.csv`.
   */
  function GenerateFilename(baseName: string, includeTimestamp: bool, iso: string): (r: string)
    ensures |r| >= |SanitizeName(baseName)| + 4 && r[|r| - 4..] == ".csv"
    ensures r[..|SanitizeName(baseName)|] == SanitizeName(baseName)
    ensures !includeTimestamp ==> r == SanitizeName(baseName) + ".csv"
    ensures includeTimestamp ==> r == SanitizeName(baseName) + "_" + Timestamp(iso) + ".csv"
  {
    var sanitized := SanitizeName(baseName);
    if includeTimestamp then sanitized + "_" + Timestamp(iso) + ".csv" else sanitized + ".csv"
  }

  /** Text before any place the pattern can match is kept as it is. */
  lemma {:induction false} CutFractionKeepsPrefix(p: string, rest: string)
    requires forall i :: 0 <= i < |p| ==> !FractionAt(p + rest, i)
    ensures CutFraction(p + rest) == p + CutFraction(rest)
    decreases |p|
  {
    if p == [] {
      assert p + rest == rest;
    } else if |p + rest| < 2 {
      assert rest == [] && p + rest == p;
    } else {
      ShiftFractionFree(p, rest);
      CutFractionKeepsPrefix(p[1..], rest);
      assert [p[0]] + (p[1..] + CutFraction(rest)) == p + CutFraction(rest);
    }
  }

  /** No match in a prefix stays no match once its first character is dropped, and that character is kept. */
  lemma ShiftFractionFree(p: string, rest: string)
    requires |p| >= 1 && |p + rest| >= 2
    requires forall i :: 0 <= i < |p| ==> !FractionAt(p + rest, i)
    ensures forall i :: 0 <= i < |p[1..]| ==> !FractionAt(p[1..] + rest, i)
    ensures CutFraction(p + rest) == [p[0]] + CutFraction(p[1..] + rest)
  {
    DropFirstOfAppend(p, rest);
    ShiftFree(p + rest, p[1..] + rest, |p| - 1);
    KeepFirst(p, rest);
  }

  /** Dropping the first character of `p + rest` drops it from `p`. */
  lemma DropFirstOfAppend(p: string, rest: string)
    requires |p| >= 1
    ensures (p + rest)[1..] == p[1..] + rest
  {
  }

  /** No match among the first `m + 1` places of `s` leaves none among the first `m` of `s[1..]`. */
  lemma ShiftFree(s: string, t: string, m: nat)
    requires |s| >= 1 && t == s[1..]
    requires forall i :: 0 <= i < m + 1 ==> !FractionAt(s, i)
    ensures !FractionAt(s, 0)
    ensures forall i :: 0 <= i < m ==> !FractionAt(t, i)
  {
    forall i | 0 <= i < m ensures !FractionAt(t, i) {
      assert !FractionAt(s, i + 1);
    }
  }

  /** The first character of `p + rest` is kept when the pattern cannot match there. */
  lemma KeepFirst(p: string, rest: string)
    requires |p| >= 1 && |p + rest| >= 2 && !FractionAt(p + rest, 0)
    ensures CutFraction(p + rest) == [p[0]] + CutFraction(p[1..] + rest)
  {
    var s := p + rest;
    assert s[1..] == p[1..] + rest && s[0] == p[0];
    CutFractionStep(s);
  }

  /** Where the pattern cannot match at the first character, that character is kept. */
  lemma CutFractionStep(s: string)
    requires |s| >= 2 && !FractionAt(s, 0)
    ensures CutFraction(s) == [s[0]] + CutFraction(s[1..])
  {
  }

  /**
   * The match is the leftmost place the pattern can match: the text before it is kept, and from
   * the `.` up to (not including) the next line terminator is removed.
   */
  lemma CutFractionAt(s: string, i: int)
    requires FractionAt(s, i) && forall j :: 0 <= j < i ==> !FractionAt(s, j)
    ensures CutFraction(s) == s[..i] + DropToLineEnd(s[i + 1..])
  {
    var p, rest := s[..i], s[i..];
    assert s == p + rest;
    CutFractionKeepsPrefix(p, rest);
    assert rest[0] == '.' && rest[1] == s[i + 1] && rest[1..] == s[i + 1..];
  }

  /** Where the pattern cannot match at all, nothing is removed. */
  lemma CutFractionNone(s: string)
    requires forall i :: 0 <= i < |s| ==> !FractionAt(s, i)
    ensures CutFraction(s) == s
  {
    assert s + [] == s;
    CutFractionKeepsPrefix(s, []);
  }

  lemma {:induction false} DropWholeLine(f: string)
    requires forall i :: 0 <= i < |f| ==> !IsLineTerminator(f[i])
    ensures DropToLineEnd(f) == ""
    decreases |f|
  {
    if f != [] {
      DropWholeLine(f[1..]);
    }
  }

  lemma {:induction false} ReplaceFirstKeepsPrefix(p: string, rest: string, c: char, d: char)
    requires c !in p
    ensures ReplaceFirst(p + rest, c, d) == p + ReplaceFirst(rest, c, d)
    decreases |p|
  {
    if p != [] {
      assert (p + rest)[1..] == p[1..] + rest;
      ReplaceFirstKeepsPrefix(p[1..], rest, c, d);
      assert [p[0]] + (p[1..] + ReplaceFirst(rest, c, d)) == p + ReplaceFirst(rest, c, d);
    } else {
      assert p + rest == rest;
    }
  }

  /** Only the first `c` is replaced, and a text without `c` is left as it is. */
  lemma ReplaceFirstAt(s: string, c: char, d: char)
    ensures c !in s ==> ReplaceFirst(s, c, d) == s
    ensures var k := IndexOf(s, c); k < |s| ==> ReplaceFirst(s, c, d) == s[..k] + [d] + s[k + 1..]
  {
    var k := IndexOf(s, c);
    var p, rest := s[..k], s[k..];
    assert s == p + rest;
    assert c !in p by {
      forall x | x in p ensures x != c {
        var j :| 0 <= j < |p| && p[j] == x;
      }
    }
    ReplaceFirstKeepsPrefix(p, rest, c, d);
    if k < |s| {
      assert rest[0] == c && rest[1..] == s[k + 1..];
    } else {
      assert rest == [] && p == s;
    }
  }

  lemma ReplaceAllAppend(a: string, b: string, c: char, d: char)
    ensures ReplaceAll(a + b, c, d) == ReplaceAll(a, c, d) + ReplaceAll(b, c, d)
  {
    var l, r := ReplaceAll(a + b, c, d), ReplaceAll(a, c, d) + ReplaceAll(b, c, d);
    forall i | 0 <= i < |l| ensures l[i] == r[i] {
      if i < |a| { assert (a + b)[i] == a[i]; } else { assert (a + b)[i] == b[i - |a|]; }
    }
  }

  lemma ReplaceAllAbsent(a: string, c: char, d: char)
    requires c !in a
    ensures ReplaceAll(a, c, d) == a
  {
    forall i | 0 <= i < |a| ensures ReplaceAll(a, c, d)[i] == a[i] {
      assert a[i] in a;
    }
  }

  /** A date-and-time text of digits and dashes has no colon, dot or `T`. */
  predicate DigitsAndDashes(t: string) {
    forall i :: 0 <= i < |t| ==> IsDigit(t[i]) || t[i] == '-'
  }

  lemma DigitsAndDashesAvoid(t: string)
    requires DigitsAndDashes(t)
    ensures ':' !in t && '.' !in t && 'T' !in t
  {
    forall i | 0 <= i < |t| ensures t[i] != ':' && t[i] != '.' && t[i] != 'T' { }
  }

  lemma DigitsAndDashesAppend(a: string, b: string)
    requires DigitsAndDashes(a) && DigitsAndDashes(b)
    ensures DigitsAndDashes(a + b)
  {
    forall i | 0 <= i < |a + b| ensures IsDigit((a + b)[i]) || (a + b)[i] == '-' {
      if i < |a| { assert (a + b)[i] == a[i]; } else { assert (a + b)[i] == b[i - |a|]; }
    }
  }

  /** Swapping colons across a separator and a colon-free piece. */
  lemma SwapAcross(x: string, x': string, sep: char, y: string)
    requires ReplaceAll(x, ':', '-') == x' && ':' !in y
    ensures ReplaceAll(x + [sep] + y, ':', '-') == x' + [if sep == ':' then '-' else sep] + y
  {
    var t := x + [sep] + y;
    var l, r := ReplaceAll(t, ':', '-'), x' + [if sep == ':' then '-' else sep] + y;
    forall i | 0 <= i < |l| ensures l[i] == r[i] {
      if i < |x| {
        assert t[i] == x[i] && r[i] == x'[i];
      } else if i == |x| {
        assert t[i] == sep;
      } else {
        assert t[i] == y[i - |x| - 1] && r[i] == y[i - |x| - 1];
        assert y[i - |x| - 1] in y;
      }
    }
  }

  /** The time of day `h`, `m`, `s` written with `sep` between the fields. */
  function Clock(h: string, m: string, s: string, sep: char): string {
    h + [sep] + m + [sep] + s
  }

  /** Turning the colons of `h:m:s` into dashes gives `h-m-s`, which is digits and dashes. */
  lemma ClockDashes(h: string, m: string, s: string)
    requires AllDigits(h) && AllDigits(m) && AllDigits(s)
    ensures ReplaceAll(Clock(h, m, s, ':'), ':', '-') == Clock(h, m, s, '-')
    ensures DigitsAndDashes(Clock(h, m, s, '-'))
  {
    assert DigitsAndDashes(h) && DigitsAndDashes("-") && DigitsAndDashes(m) && DigitsAndDashes(s);
    DigitsAndDashesAvoid(h);
    DigitsAndDashesAvoid(m);
    DigitsAndDashesAvoid(s);
    ReplaceAllAbsent(h, ':', '-');
    SwapAcross(h, h, ':', m);
    SwapAcross(h + [':'] + m, h + ['-'] + m, ':', s);
    DigitsAndDashesAppend(h, "-");
    DigitsAndDashesAppend(h + "-", m);
    DigitsAndDashesAppend(h + "-" + m, "-");
    DigitsAndDashesAppend(h + "-" + m + "-", s);
  }

  /** Cutting the fraction of a dot-free text followed by `.f` leaves the text. */
  lemma CutTrailingFraction(dashed: string, f: string)
    requires '.' !in dashed
    requires |f| >= 1 && forall i :: 0 <= i < |f| ==> !IsLineTerminator(f[i])
    ensures CutFraction(dashed + "." + f) == dashed
  {
    Assoc(dashed, ".", f);
    forall i | 0 <= i < |dashed| ensures !FractionAt(dashed + ("." + f), i) {
      assert (dashed + ("." + f))[i] == dashed[i] && dashed[i] in dashed;
    }
    CutFractionKeepsPrefix(dashed, "." + f);
    DropWholeLine(f);
    assert ("." + f)[1..] == f;
    assert dashed + "" == dashed;
  }

  /** The first `T` after a `T`-free date becomes `_`. */
  lemma DateSeparator(date: string, after: string)
    requires 'T' !in date
    ensures ReplaceFirst(date + "T" + after, 'T', '_') == date + "_" + after
  {
    Assoc(date, "T", after);
    Assoc(date, "_", after);
    ReplaceFirstKeepsPrefix(date, "T" + after, 'T', '_');
    assert ReplaceFirst("T" + after, 'T', '_') == "_" + after;
  }

  /**
   * For an ISO 8601 instant `D Th:m:s.f` as `toISOString` writes it (`D` the date, `f` the
   * fraction and zone), the timestamp is `D_h-m-s`.
   */
  lemma TimestampOfIso(date: string, h: string, m: string, s: string, f: string)
    requires DigitsAndDashes(date) && AllDigits(h) && AllDigits(m) && AllDigits(s)
    requires |f| >= 1 && ':' !in f && forall i :: 0 <= i < |f| ==> !IsLineTerminator(f[i])
    ensures Timestamp(date + "T" + Clock(h, m, s, ':') + "." + f) == date + "_" + Clock(h, m, s, '-')
  {
    var colons, dashes := Clock(h, m, s, ':'), Clock(h, m, s, '-');
    ClockDashes(h, m, s);
    DigitsAndDashesAvoid(date);
    DigitsAndDashesAvoid(dashes);
    ReplaceAllAbsent(date + "T", ':', '-');
    ReplaceAllAppend(date + "T", colons, ':', '-');
    SwapAcross(date + "T" + colons, date + "T" + dashes, '.', f);
    assert '.' !in date + "T" + dashes;
    CutTrailingFraction(date + "T" + dashes, f);
    DateSeparator(date, dashes);
  }

  // ----- Export -----

  /** The file the export hands to the browser: the UTF-8 byte-order mark, then the CSV text. */
  datatype CsvFile = CsvFile(filename: string, content: string)

  const ByteOrderMark: char := '\U{FEFF}'

  /**
   * `exportToCSV`: nothing for empty data; otherwise the converted text under the generated name.
   * `iso` is the moment the file name's timestamp would read.
   */
  function ExportToCsv(filename: string, headers: Option<seq<string>>, data: seq<Row>,
                       includeTimestamp: bool, iso: string): (r: Option<CsvFile>)
    ensures r.None? <==> |data| == 0
    ensures r.Some? ==> r.value.filename == GenerateFilename(filename, includeTimestamp, iso)
    ensures r.Some? ==> r.value.content == [ByteOrderMark] + ConvertToCsv(data, headers)
  {
    if |data| == 0 then None
    else Some(CsvFile(GenerateFilename(filename, includeTimestamp, iso), [ByteOrderMark] + ConvertToCsv(data, headers)))
  }

  /** `headers?.[k] || fallback`: a missing or empty header name falls back. */
  function HeaderOr(headers: Option<seq<string>>, k: nat, fallback: string): (r: string)
    ensures headers.Some? && k < |headers.value| && headers.value[k] != "" ==> r == headers.value[k]
    ensures headers.None? || k >= |headers.value| || headers.value[k] == "" ==> r == fallback
  {
    if headers.Some? && k < |headers.value| && headers.value[k] != "" then headers.value[k] else fallback
  }

  /** One summary entry as a row: the key under the first header, the value under the second. */
  function SummaryRow(headers: Option<seq<string>>, key: string, value: Value): (r: Row)
    ensures var field, val := HeaderOr(headers, 0, "Field"), HeaderOr(headers, 1, "Value");
      && Lookup(r, val) == value
      && (field != val ==> Lookup(r, field) == Present(key))
      && (forall k :: k != field && k != val ==> Lookup(r, k) == Absent)
      && Keys(r) == if field == val then [field] else [field, val]
  {
    Assign(Assign([], HeaderOr(headers, 0, "Field"), Present(key)), HeaderOr(headers, 1, "Value"), value)
  }

  /** The blank separator row: every header mapped to the empty text, or `{'': ''}` without headers. */
  function SeparatorRow(headers: Option<seq<string>>): (r: Row)
    ensures headers.None? ==> r == [Prop("", Present(""))]
    ensures headers.Some? ==> forall h :: h in headers.value ==> Lookup(r, h) == Present("")
    ensures headers.Some? ==> forall k :: k !in headers.value ==> Lookup(r, k) == Absent
  {
    if headers.None? then [Prop("", Present(""))] else BlankRow(headers.value)
  }

  /** `headers.reduce((acc, h) => ({...acc, [h]: ''}), {})`. */
  function BlankRow(headers: seq<string>): (r: Row)
    ensures forall h :: h in headers ==> Lookup(r, h) == Present("")
    ensures forall k :: k !in headers ==> Lookup(r, k) == Absent
  {
    BlankFrom([], headers)
  }

  /** `headers.reduce((acc, h) => ({...acc, [h]: ''}), acc)`: left to right, one key at a time. */
  function BlankFrom(acc: Row, headers: seq<string>): (r: Row)
    ensures forall h :: h in headers ==> Lookup(r, h) == Present("")
    ensures forall k :: k !in headers ==> Lookup(r, k) == Lookup(acc, k)
    decreases |headers|
  {
    if headers == [] then acc
    else
      var rest := headers[1..];
      assert forall h :: h in headers ==> h == headers[0] || h in rest;
      BlankFrom(Assign(acc, headers[0], Present("")), rest)
  }

  /** The rows `exportReportWithSummary` exports: one per summary entry, the separator, then the data. */
  function SummaryTable(headers: Option<seq<string>>, summary: seq<(string, Value)>, data: seq<Row>): (r: seq<Row>)
    ensures |r| == |summary| + 1 + |data|
    ensures forall i {:trigger r[i]} :: 0 <= i < |summary| ==> r[i] == SummaryRow(headers, summary[i].0, summary[i].1)
    ensures r[|summary|] == SeparatorRow(headers)
    ensures forall j :: 0 <= j < |data| ==> r[|summary| + 1 + j] == data[j]
  {
    seq(|summary|, i requires 0 <= i < |summary| => SummaryRow(headers, summary[i].0, summary[i].1))
    + [SeparatorRow(headers)] + data
  }

  /**
   * `exportReportWithSummary`, with `summary` as `Object.entries(summary)`: nothing for empty
   * data; otherwise the summary table exported under the report's name with a timestamp.
   */
  function ExportReportWithSummary(reportName: string, data: seq<Row>, summary: seq<(string, Value)>,
                                   headers: Option<seq<string>>, iso: string): (r: Option<CsvFile>)
    ensures r.None? <==> |data| == 0
    ensures r.Some? ==> r.value.filename == GenerateFilename(reportName, true, iso)
    ensures r.Some? ==> r.value.content == [ByteOrderMark] + ConvertToCsv(SummaryTable(headers, summary, data), headers)
  {
    if |data| == 0 then None
    else ExportToCsv(reportName, headers, SummaryTable(headers, summary, data), true, iso)
  }

  /**
   * Under two distinct non-empty headers, a summary row holds the key under the first and the
   * value under the second, and the separator row is blank under every header.
   */
  lemma SummaryRowsUnderHeaders(hs: seq<string>, key: string, value: Value)
    requires |hs| >= 2 && hs[0] != "" && hs[1] != "" && hs[0] != hs[1]
    ensures Lookup(SummaryRow(Some(hs), key, value), hs[0]) == Present(key)
    ensures Lookup(SummaryRow(Some(hs), key, value), hs[1]) == value
    ensures forall k :: k != hs[0] && k != hs[1] ==> Lookup(SummaryRow(Some(hs), key, value), k) == Absent
    ensures forall h :: h in hs ==> Lookup(SeparatorRow(Some(hs)), h) == Present("")
  {
    assert HeaderOr(Some(hs), 0, "Field") == hs[0];
    assert HeaderOr(Some(hs), 1, "Value") == hs[1];
  }

  /**
   * Under two distinct non-empty headers, the summary export reads back as the headers, one record
   * per summary entry with its key and the text of its value in the first two columns, a blank
   * record, then each data row's texts under the headers.
   */
  lemma SummaryReadsBack(reportName: string, data: seq<Row>, summary: seq<(string, Value)>, hs: seq<string>, iso: string)
    requires |data| >= 1 && |hs| >= 2 && hs[0] != "" && hs[1] != "" && hs[0] != hs[1]
    ensures ExportReportWithSummary(reportName, data, summary, Some(hs), iso).Some?
    ensures var doc := ParseDocument(ExportReportWithSummary(reportName, data, summary, Some(hs), iso).value.content[1..]);
            && doc.Some? && |doc.value| == |summary| + |data| + 2
            && doc.value[0] == hs
            && var recs := doc.value[1..];
            && (forall i {:trigger recs[i]} :: 0 <= i < |summary| ==>
                  |recs[i]| == |hs| && recs[i][0] == summary[i].0 && recs[i][1] == TextOf(summary[i].1))
            && |recs[|summary|]| == |hs|
            && (forall j :: 0 <= j < |hs| ==> recs[|summary|][j] == "")
            && forall j :: 0 <= j < |data| ==> recs[|summary| + 1 + j] == Texts(RowValues(data[j], hs))
  {
    var table := SummaryTable(Some(hs), summary, data);
    var file := ExportReportWithSummary(reportName, data, summary, Some(hs), iso).value;
    assert file.content[1..] == ConvertToCsv(table, Some(hs));
    ConvertRoundTrip(table, Some(hs));
    var doc := ParseDocument(ConvertToCsv(table, Some(hs))).value;
    SummaryDocument(doc[1..], table, data, summary, hs);
  }

  /** The records of a summary table, read under the headers, in the order the table has them. */
  lemma SummaryDocument(recs: seq<seq<string>>, table: seq<Row>, data: seq<Row>, summary: seq<(string, Value)>, hs: seq<string>)
    requires |hs| >= 2 && hs[0] != "" && hs[1] != "" && hs[0] != hs[1]
    requires table == SummaryTable(Some(hs), summary, data)
    requires |recs| == |table| && forall i :: 0 <= i < |table| ==> recs[i] == Texts(RowValues(table[i], hs))
    ensures forall i {:trigger recs[i]} :: 0 <= i < |summary| ==>
              |recs[i]| == |hs| && recs[i][0] == summary[i].0 && recs[i][1] == TextOf(summary[i].1)
    ensures |recs[|summary|]| == |hs| && forall j :: 0 <= j < |hs| ==> recs[|summary|][j] == ""
    ensures forall j :: 0 <= j < |data| ==> recs[|summary| + 1 + j] == Texts(RowValues(data[j], hs))
  {
    forall i | 0 <= i < |summary|
      ensures |recs[i]| == |hs| && recs[i][0] == summary[i].0 && recs[i][1] == TextOf(summary[i].1)
    {
      assert recs[i] == Texts(RowValues(table[i], hs));
      SummaryRecord(hs, summary[i].0, summary[i].1);
    }
    assert recs[|summary|] == Texts(RowValues(table[|summary|], hs));
    SeparatorRecord(hs);
    forall j | 0 <= j < |data| ensures recs[|summary| + 1 + j] == Texts(RowValues(data[j], hs)) {
      assert recs[|summary| + 1 + j] == Texts(RowValues(table[|summary| + 1 + j], hs));
    }
  }

  /** A summary row read under the headers gives its key, then the text of its value. */
  lemma SummaryRecord(hs: seq<string>, key: string, value: Value)
    requires |hs| >= 2 && hs[0] != "" && hs[1] != "" && hs[0] != hs[1]
    ensures var t := Texts(RowValues(SummaryRow(Some(hs), key, value), hs));
            |t| == |hs| && t[0] == key && t[1] == TextOf(value)
  {
    SummaryRowsUnderHeaders(hs, key, value);
  }

  /** The separator row read under the headers is blank. */
  lemma SeparatorRecord(hs: seq<string>)
    requires |hs| >= 2 && hs[0] != "" && hs[1] != "" && hs[0] != hs[1]
    ensures var t := Texts(RowValues(SeparatorRow(Some(hs)), hs));
            |t| == |hs| && forall j :: 0 <= j < |hs| ==> t[j] == ""
  {
    SummaryRowsUnderHeaders(hs, "", Absent);
    forall j | 0 <= j < |hs| ensures Lookup(SeparatorRow(Some(hs)), hs[j]) == Present("") {
      assert hs[j] in hs;
    }
  }

  /** The fixed reports the dashboards export, each with its own columns and file name. */
  datatype Report = AgentTransactions | AccountTransactions | ActiveFixedDeposits | MonthlyInterest | CustomerActivity

  function ReportFilename(k: Report): string {
    match k
    case AgentTransactions => "agent_transaction_report"
    case AccountTransactions => "account_transaction_report"
    case ActiveFixedDeposits => "active_fixed_deposits_report"
    case MonthlyInterest => "monthly_interest_distribution_report"
    case CustomerActivity => "customer_activity_report"
  }

  function ReportHeaders(k: Report): seq<string> {
    match k
    case AgentTransactions =>
      ["employee_id", "employee_name", "branch_id", "branch_name", "total_transactions", "total_value", "employee_status"]
    case AccountTransactions =>
      ["saving_account_id", "customer_id", "customer_name", "plan_name", "open_date", "current_balance",
       "total_transactions", "account_status", "branch_name", "agent_name", "agent_id", "branch_id"]
    case ActiveFixedDeposits =>
      ["fixed_deposit_id", "saving_account_id", "customer_name", "customer_id", "principal_amount", "interest_rate",
       "plan_months", "start_date", "end_date", "next_payout_date", "fd_status", "total_interest", "branch_name",
       "agent_name", "agent_id", "branch_id", "status"]
    case MonthlyInterest =>
      ["plan_name", "month", "year", "month_num", "branch_name", "account_count", "total_interest_paid",
       "average_interest_per_account", "min_interest", "max_interest"]
    case CustomerActivity =>
      ["customer_id", "customer_name", "total_accounts", "total_deposits", "total_withdrawals", "net_change",
       "current_total_balance", "customer_status", "branch_name", "agent_name", "agent_id", "branch_id"]
  }

  /** The per-report export functions: the report's columns, its file name, and a timestamp. */
  function ExportReport(k: Report, data: seq<Row>, iso: string): (r: Option<CsvFile>)
    ensures r.None? <==> |data| == 0
    ensures r.Some? ==> r.value.filename == GenerateFilename(ReportFilename(k), true, iso)
  {
    ExportToCsv(ReportFilename(k), Some(ReportHeaders(k)), data, true, iso)
  }

  /**
   * A fixed report's file reads back as its column names followed by each row's texts under
   * those columns (after the byte-order mark).
   */
  lemma ReportReadsBack(k: Report, data: seq<Row>, iso: string)
    requires |data| >= 1
    ensures ExportReport(k, data, iso).Some?
    ensures var doc := ParseDocument(ExportReport(k, data, iso).value.content[1..]);
            && doc.Some? && |doc.value| == |data| + 1
            && doc.value[0] == ReportHeaders(k)
            && forall i :: 0 <= i < |data| ==> doc.value[i + 1] == Texts(RowValues(data[i], ReportHeaders(k)))
  {
    var file := ExportReport(k, data, iso).value;
    assert file == ExportToCsv(ReportFilename(k), Some(ReportHeaders(k)), data, true, iso).value;
    assert file.content[1..] == ConvertToCsv(data, Some(ReportHeaders(k)));
    ConvertRoundTrip(data, Some(ReportHeaders(k)));
  }
}
