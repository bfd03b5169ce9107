/** Comma-separated values as the log export writes them (RFC 4180, section 2,
    rules 5 to 7): every field is enclosed in double quotes, a double quote inside
    a field is written twice, fields are joined by "," and records by "\n".
    A reader for that format is given alongside, and the two are proved inverse. */
module Csv {
  import opened Common

  /** Every `"` written twice (`String(c).replace(/"/g, '""')`). */
  function Escape(s: string): (r: string)
    ensures |r| >= |s|
  {
    if s == [] then []
    else if s[0] == '"' then "\"\"" + Escape(s[1..])
    else [s[0]] + Escape(s[1..])
  }

  /** One field, quoted. */
  function Quote(s: string): string
  {
    "\"" + Escape(s) + "\""
  }

  /** `cells.map(quote).join(",")`. */
  function EncodeRow(cells: seq<string>): string
  {
    if cells == [] then ""
    else if |cells| == 1 then Quote(cells[0])
    else Quote(cells[0]) + "," + EncodeRow(cells[1..])
  }

  /** `rows.map(encodeRow).join("\n")`. */
  function Encode(rows: seq<seq<string>>): string
  {
    if rows == [] then ""
    else if |rows| == 1 then EncodeRow(rows[0])
    else EncodeRow(rows[0]) + "\n" + Encode(rows[1..])
  }

  // ---------------------------------------------------------------------------
  // Reading quoted CSV back
  // ---------------------------------------------------------------------------

  /** Reads the inside of a quoted field (the opening quote already consumed) up
      to its closing quote; `""` stands for one `"`. Gives the field and the text
      after the closing quote, or nothing when the quote is never closed. */
  function ReadQuoted(t: string): (r: Option<(string, string)>)
    ensures r.Some? ==> |r.value.1| < |t|
  {
    if t == [] then None
    else if t[0] == '"' then
      if |t| >= 2 && t[1] == '"' then
        match ReadQuoted(t[2..])
        case None => None
        case Some((v, rest)) => Some(("\"" + v, rest))
      else Some(("", t[1..]))
    else
      match ReadQuoted(t[1..])
      case None => None
      case Some((v, rest)) => Some(([t[0]] + v, rest))
  }

  /** Reads one quoted field. */
  function ReadField(t: string): (r: Option<(string, string)>)
    ensures r.Some? ==> |r.value.1| < |t|
  {
    if t != [] && t[0] == '"' then ReadQuoted(t[1..]) else None
  }

  /** Reads the fields of one record, up to a line break or the end. */
  function ReadRow(t: string): (r: Option<(seq<string>, string)>)
    ensures r.Some? ==> |r.value.1| < |t|
    decreases |t|
  {
    match ReadField(t)
    case None => None
    case Some((cell, rest)) =>
      if rest != [] && rest[0] == ',' then
        match ReadRow(rest[1..])
        case None => None
        case Some((cells, rest')) => Some(([cell] + cells, rest'))
      else Some(([cell], rest))
  }

  /** Reads records separated by line breaks until the text is used up. */
  function Parse(t: string): Option<seq<seq<string>>>
    decreases |t|
  {
    match ReadRow(t)
    case None => None
    case Some((row, rest)) =>
      if rest == [] then Some([row])
      else if rest[0] == '\n' then
        match Parse(rest[1..])
        case None => None
        case Some(rows) => Some([row] + rows)
      else None
  }

  // ---------------------------------------------------------------------------
  // Round trip
  // ---------------------------------------------------------------------------

  /** The escaped text followed by the closing quote reads back as the original
      field, whatever follows, as long as that is not another quote. */
  lemma {:induction false} ReadQuotedEscape(s: string, rest: string)
    requires rest == [] || rest[0] != '"'
    ensures ReadQuoted(Escape(s) + "\"" + rest) == Some((s, rest))
  {
    var q := "\"";
    var t := Escape(s) + q + rest;
    if s == [] {
      assert t == q + rest;
      DropPrefix(q, rest);
    } else {
      var e := Escape(s[1..]);
      var u := e + q + rest;
      ReadQuotedEscape(s[1..], rest);
      AppendAssoc(e, q, rest);
      if s[0] == '"' {
        var qq := "\"\"";
        assert Escape(s) == qq + e;
        AppendAssoc(qq + e, q, rest);
        AppendAssoc(qq, e, q + rest);
        assert t == qq + u;
        DropPrefix(qq, u);
        assert s == q + s[1..];
      } else {
        var c := [s[0]];
        assert Escape(s) == c + e;
        AppendAssoc(c + e, q, rest);
        AppendAssoc(c, e, q + rest);
        assert t == c + u;
        DropPrefix(c, u);
        assert s == c + s[1..];
      }
    }
  }

  lemma ReadFieldQuote(s: string, rest: string)
    requires rest == [] || rest[0] != '"'
    ensures ReadField(Quote(s) + rest) == Some((s, rest))
  {
    var t := Quote(s) + rest;
    assert t[1..] == Escape(s) + "\"" + rest;
    ReadQuotedEscape(s, rest);
  }

  /** An encoded record reads back as its fields, when what follows it is a line
      break or nothing. */
  lemma {:induction false} ReadRowEncodeRow(cells: seq<string>, rest: string)
    requires |cells| >= 1
    requires rest == [] || rest[0] == '\n'
    ensures ReadRow(EncodeRow(cells) + rest) == Some((cells, rest))
  {
    if |cells| == 1 {
      ReadFieldQuote(cells[0], rest);
      assert EncodeRow(cells) == Quote(cells[0]);
      assert cells == [cells[0]];
    } else {
      var q, e := Quote(cells[0]), EncodeRow(cells[1..]);
      var tail := "," + (e + rest);
      AppendAssoc(q + ",", e, rest);
      AppendAssoc(q, ",", e + rest);
      ReadFieldQuote(cells[0], tail);
      DropPrefix(",", e + rest);
      ReadRowEncodeRow(cells[1..], rest);
      assert cells == [cells[0]] + cells[1..];
    }
  }

  /** Every record with at least one field survives encoding and reading back:
      the same number of records, with the same field values. */
  lemma {:induction false} ParseEncode(rows: seq<seq<string>>)
    requires |rows| >= 1
    requires forall i :: 0 <= i < |rows| ==> |rows[i]| >= 1
    ensures Parse(Encode(rows)) == Some(rows)
  {
    if |rows| == 1 {
      ReadRowEncodeRow(rows[0], "");
      assert EncodeRow(rows[0]) + "" == Encode(rows);
      assert rows == [rows[0]];
    } else {
      ParseEncode(rows[1..]);
      AppendAssoc(EncodeRow(rows[0]), "\n", Encode(rows[1..]));
      ParseRecordThenRest(rows[0], Encode(rows[1..]), rows[1..]);
      assert rows == [rows[0]] + rows[1..];
    }
  }

  /** An encoded record followed by a line break and text that parses as
      `rows` parses as that record followed by `rows`. */
  lemma ParseRecordThenRest(cells: seq<string>, t: string, rows: seq<seq<string>>)
    requires |cells| >= 1
    requires Parse(t) == Some(rows)
    ensures Parse(EncodeRow(cells) + ("\n" + t)) == Some([cells] + rows)
  {
    ReadRowEncodeRow(cells, "\n" + t);
    DropPrefix("\n", t);
  }
}
