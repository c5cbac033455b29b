/** The quoting CSV encoding of section 2 of RFC 4180 (rules 5-7): every
    field enclosed in double quotes, every double quote inside a field
    doubled, fields separated by ',' and records by a line feed with no
    line break after the last record. A decoder for exactly that output is
    defined alongside, so that the encoder can be shown to lose nothing. */
module Csv {
  import opened Wrappers
  import Strings

  type Row = seq<string>

  /** Doubles every '"' of the field. */
  function Escape(f: string): (e: string)
    ensures |e| >= |f|
  {
    if |f| == 0 then ""
    else if f[0] == '"' then "\"\"" + Escape(f[1..])
    else [f[0]] + Escape(f[1..])
  }

  function QuoteField(f: string): (q: string)
    ensures |q| >= 2 && q[0] == '"' && q[|q| - 1] == '"'
  {
    "\"" + Escape(f) + "\""
  }

  /** The quoted fields of one record joined by ','. */
  function EncodeRow(row: Row): (line: string)
    requires |row| > 0
    ensures |line| >= 2 && line[0] == '"' && line[|line| - 1] == '"'
  {
    if |row| == 1 then QuoteField(row[0]) else QuoteField(row[0]) + "," + EncodeRow(row[1..])
  }

  predicate WellFormed(rows: seq<Row>) {
    |rows| > 0 && forall i :: 0 <= i < |rows| ==> |rows[i]| > 0
  }

  /** The records joined by '\n', with no line feed after the last one. */
  function EncodeTable(rows: seq<Row>): (text: string)
    requires WellFormed(rows)
    ensures |text| >= 2 && text[0] == '"' && text[|text| - 1] == '"'
  {
    if |rows| == 1 then EncodeRow(rows[0]) else EncodeRow(rows[0]) + "\n" + EncodeTable(rows[1..])
  }

  // ---------------------------------------------------------------------
  // Decoder

  /** Reads the body of a quoted field whose opening quote is already
      consumed: a doubled quote stands for one quote, a single quote closes
      the field. Returns the field and the text after the closing quote. */
  function ParseQuoted(s: string): (r: Option<(string, string)>)
    ensures r.Some? ==> |r.value.1| < |s|
  {
    if |s| == 0 then None
    else if s[0] == '"' then
      if |s| > 1 && s[1] == '"' then
        match ParseQuoted(s[2..])
        case None => None
        case Some((f, rest)) => Some(("\"" + f, rest))
      else Some(("", s[1..]))
    else
      match ParseQuoted(s[1..])
      case None => None
      case Some((f, rest)) => Some(([s[0]] + f, rest))
  }

  /** Reads one record of quoted fields; the text left over is empty or
      starts with the line feed that ends the record. */
  function ParseRow(s: string): (r: Option<(Row, string)>)
    ensures r.Some? ==> |r.value.0| > 0 && |r.value.1| < |s|
    ensures r.Some? ==> r.value.1 == "" || r.value.1[0] == '\n'
    decreases |s|
  {
    if |s| == 0 || s[0] != '"' then None
    else
      match ParseQuoted(s[1..])
      case None => None
      case Some((f, rest)) =>
        if |rest| > 0 && rest[0] == ',' then
          match ParseRow(rest[1..])
          case None => None
          case Some((fs, rest2)) => Some(([f] + fs, rest2))
        else if |rest| == 0 || rest[0] == '\n' then Some(([f], rest))
        else None
  }

  /** Reads a whole table of records. */
  function ParseTable(s: string): (r: Option<seq<Row>>)
    ensures r.Some? ==> WellFormed(r.value)
    decreases |s|
  {
    match ParseRow(s)
    case None => None
    case Some((row, rest)) =>
      if |rest| == 0 then Some([row])
      else
        match ParseTable(rest[1..])
        case None => None
        case Some(rows) => Some([row] + rows)
  }

  // ---------------------------------------------------------------------
  // Round trip

  lemma {:induction false} ParseQuotedEscape(f: string, tail: string)
    requires tail == "" || tail[0] != '"'
    ensures ParseQuoted(Escape(f) + "\"" + tail) == Some((f, tail))
  {
    var s := Escape(f) + "\"" + tail;
    if |f| == 0 {
      assert s == "\"" + tail;
      assert s[1..] == tail;
    } else if f[0] == '"' {
      assert s == "\"\"" + (Escape(f[1..]) + "\"" + tail);
      assert s[2..] == Escape(f[1..]) + "\"" + tail;
      ParseQuotedEscape(f[1..], tail);
      assert "\"" + f[1..] == f;
    } else {
      assert s == [f[0]] + (Escape(f[1..]) + "\"" + tail);
      assert s[1..] == Escape(f[1..]) + "\"" + tail;
      ParseQuotedEscape(f[1..], tail);
      assert [f[0]] + f[1..] == f;
    }
  }

  /** A quoted field followed by the end of the record. */
  lemma ParseRowLast(f: string, tail: string)
    requires tail == "" || tail[0] == '\n'
    ensures ParseRow(QuoteField(f) + tail) == Some(([f], tail))
  {
    var s := QuoteField(f) + tail;
    assert s[0] == '"' && s[1..] == Escape(f) + "\"" + tail;
    ParseQuotedEscape(f, tail);
  }

  /** A quoted field followed by ',' and the rest of the record. */
  lemma ParseRowNext(f: string, more: string)
    ensures ParseRow(QuoteField(f) + "," + more)
      == match ParseRow(more)
         case None => None
         case Some((fs, rest)) => Some(([f] + fs, rest))
  {
    var s := QuoteField(f) + "," + more;
    assert s[0] == '"' && s[1..] == Escape(f) + "\"" + ("," + more);
    ParseQuotedEscape(f, "," + more);
    assert ("," + more)[1..] == more;
  }

  lemma ParseRowEncodeOne(row: Row, tail: string)
    requires |row| == 1
    requires tail == "" || tail[0] == '\n'
    ensures ParseRow(EncodeRow(row) + tail) == Some((row, tail))
  {
    ParseRowLast(row[0], tail);
    assert [row[0]] == row;
  }

  lemma ParseRowEncodeMore(row: Row, tail: string)
    requires |row| > 1
    requires ParseRow(EncodeRow(row[1..]) + tail) == Some((row[1..], tail))
    ensures ParseRow(EncodeRow(row) + tail) == Some((row, tail))
  {
    var more := EncodeRow(row[1..]) + tail;
    assert EncodeRow(row) + tail == QuoteField(row[0]) + "," + more;
    ParseRowNext(row[0], more);
    assert [row[0]] + row[1..] == row;
  }

  lemma {:induction false} ParseRowEncode(row: Row, tail: string)
    requires |row| > 0
    requires tail == "" || tail[0] == '\n'
    ensures ParseRow(EncodeRow(row) + tail) == Some((row, tail))
  {
    if |row| == 1 {
      ParseRowEncodeOne(row, tail);
    } else {
      ParseRowEncode(row[1..], tail);
      ParseRowEncodeMore(row, tail);
    }
  }

  lemma ParseTableEncodeOne(rows: seq<Row>)
    requires WellFormed(rows) && |rows| == 1
    ensures ParseTable(EncodeTable(rows)) == Some(rows)
  {
    ParseRowEncode(rows[0], "");
    assert EncodeRow(rows[0]) + "" == EncodeRow(rows[0]);
    assert rows == [rows[0]];
  }

  /** A record ended by a line feed, then the rest of the table. */
  lemma ParseTableNext(text: string, row: Row, more: string, rows: seq<Row>)
    requires ParseRow(text) == Some((row, "\n" + more))
    requires ParseTable(more) == Some(rows)
    ensures ParseTable(text) == Some([row] + rows)
  {
    assert ("\n" + more)[1..] == more;
  }

  lemma ParseTableEncodeMore(rows: seq<Row>)
    requires WellFormed(rows) && |rows| > 1 && WellFormed(rows[1..])
    requires ParseTable(EncodeTable(rows[1..])) == Some(rows[1..])
    ensures ParseTable(EncodeTable(rows)) == Some(rows)
  {
    var more := EncodeTable(rows[1..]);
    assert EncodeTable(rows) == EncodeRow(rows[0]) + ("\n" + more);
    ParseRowEncode(rows[0], "\n" + more);
    ParseTableNext(EncodeTable(rows), rows[0], more, rows[1..]);
    assert [rows[0]] + rows[1..] == rows;
  }

  /** Decoding undoes encoding: the table comes back record for record and
      field for field. */
  lemma {:induction false} ParseTableEncode(rows: seq<Row>)
    requires WellFormed(rows)
    ensures ParseTable(EncodeTable(rows)) == Some(rows)
  {
    if |rows| == 1 {
      ParseTableEncodeOne(rows);
    } else {
      assert WellFormed(rows[1..]) by {
        assert forall i :: 0 <= i < |rows[1..]| ==> rows[1..][i] == rows[i + 1];
      }
      ParseTableEncode(rows[1..]);
      ParseTableEncodeMore(rows);
    }
  }

  /** Encoding is injective: two tables with the same text are the same
      table. */
  lemma EncodeTableInjective(a: seq<Row>, b: seq<Row>)
    requires WellFormed(a) && WellFormed(b)
    requires EncodeTable(a) == EncodeTable(b)
    ensures a == b
  {
    ParseTableEncode(a);
    ParseTableEncode(b);
  }

  /** The number of quotes in an escaped field is twice the number in the
      original field. */
  lemma {:induction false} EscapeQuoteCount(f: string)
    ensures Strings.Count(Escape(f), '"') == 2 * Strings.Count(f, '"')
  {
    if |f| > 0 {
      EscapeQuoteCount(f[1..]);
      if f[0] == '"' {
        Strings.CountAppend("\"\"", Escape(f[1..]), '"');
      } else {
        Strings.CountAppend([f[0]], Escape(f[1..]), '"');
      }
    }
  }
}
