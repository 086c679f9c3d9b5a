/** The CSV writer, and a reader written from section 2 of RFC 4180 with LF as the end of
    a line: what is written is read back. */
module Csv {
  import opened Wrappers

  /** ---- reading ---- */

  // TEXTDATA: neither quote, comma nor line break.
  predicate TextData(c: char) {
    c != '"' && c != ',' && c != '\r' && c != '\n'
  }

  // What may follow a field.
  predicate FieldEnd(s: string) {
    s == "" || s[0] == ',' || s[0] == '\n'
  }

  // A field without quotes, and the rest.
  function ReadPlain(s: string): (r: (string, string))
    ensures |r.1| <= |s|
  {
    if s == "" || !TextData(s[0]) then ("", s)
    else
      var (field, rest) := ReadPlain(s[1..]);
      ([s[0]] + field, rest)
  }

  // A field after its opening quote; two quotes stand for one.
  function ReadQuoted(s: string): (r: Option<(string, string)>)
    ensures r.Some? ==> |r.value.1| < |s|
    decreases |s|
  {
    if s == "" then None
    else if s[0] != '"' then Prepend(s[0], ReadQuoted(s[1..]))
    else if |s| > 1 && s[1] == '"' then Prepend('"', ReadQuoted(s[2..]))
    else Some(("", s[1..]))
  }

  function Prepend(c: char, r: Option<(string, string)>): Option<(string, string)> {
    if r.None? then None else Some(([c] + r.value.0, r.value.1))
  }

  function ReadField(s: string): (r: Option<(string, string)>)
    ensures r.Some? ==> |r.value.1| <= |s| && FieldEnd(r.value.1)
  {
    var r := if s != "" && s[0] == '"' then ReadQuoted(s[1..]) else Some(ReadPlain(s));
    if r.Some? && FieldEnd(r.value.1) then r else None
  }

  // A record with its line end, which the last record may lack.
  function ReadRecord(s: string): (r: Option<(seq<string>, string)>)
    ensures r.Some? && s != "" ==> |r.value.1| < |s|
    ensures r.Some? ==> r.value.0 != []
    decreases |s|
  {
    var f := ReadField(s);
    if f.None? then None
    else
      var (field, rest) := f.value;
      if rest == "" then Some(([field], rest))
      else if rest[0] == '\n' then Some(([field], rest[1..]))
      else
        var more := ReadRecord(rest[1..]);
        if more.None? then None else Some(([field] + more.value.0, more.value.1))
  }

  function ReadFile(s: string): Option<seq<seq<string>>>
    decreases |s|
  {
    if s == "" then Some([])
    else
      var r := ReadRecord(s);
      if r.None? then None
      else
        var more := ReadFile(r.value.1);
        if more.None? then None else Some([r.value.0] + more.value)
  }

  /** ---- what is written ---- */

  // Characters that make a field need quotes.
  predicate Special(field: string) {
    exists i | 0 <= i < |field| :: !TextData(field[i])
  }

  function Escape(field: string): string {
    if field == "" then ""
    else (if field[0] == '"' then "\"\"" else [field[0]]) + Escape(field[1..])
  }

  // A field as written; the test for a leading space may be any.
  ghost function Encoded(field: string, isSpace: char -> bool): string {
    if field == "" then ""
    else if !Special(field) then if isSpace(field[0]) then "\"" + field + "\"" else field
    else "\"" + Escape(field) + "\""
  }

  ghost function Row(fields: seq<string>, isSpace: char -> bool): string {
    if fields == [] then "\n"
    else Encoded(fields[0], isSpace) + if |fields| == 1 then "\n" else "," + Row(fields[1..], isSpace)
  }

  ghost function Rows(rows: seq<seq<string>>, isSpace: char -> bool): string {
    if rows == [] then "" else Row(rows[0], isSpace) + Rows(rows[1..], isSpace)
  }

  /** ---- round trip ---- */

  lemma {:induction false} PlainIsRead(field: string, rest: string)
    requires !Special(field) && FieldEnd(rest)
    ensures ReadPlain(field + rest) == (field, rest)
  {
    var s := field + rest;
    if field == "" {
      assert s == rest;
    } else {
      assert TextData(field[0]) && s[0] == field[0] && s[1..] == field[1..] + rest;
      assert forall i | 0 <= i < |field[1..]| :: field[1..][i] == field[i + 1];
      PlainIsRead(field[1..], rest);
      assert field == [field[0]] + field[1..];
    }
  }

  lemma {:induction false} QuotedIsRead(field: string, rest: string)
    requires FieldEnd(rest)
    ensures ReadQuoted(Escape(field) + "\"" + rest) == Some((field, rest))
  {
    var s := Escape(field) + "\"" + rest;
    if field == "" {
      assert s == "\"" + rest && s[1..] == rest;
    } else {
      QuotedIsRead(field[1..], rest);
      var more := Escape(field[1..]) + "\"" + rest;
      if field[0] == '"' {
        assert s == "\"\"" + more && s[2..] == more;
      } else {
        assert s == [field[0]] + more && s[1..] == more;
      }
      assert field == [field[0]] + field[1..];
    }
  }

  // Quotes around a field that does not need them.
  lemma {:induction false} NothingToEscape(field: string)
    requires !Special(field)
    ensures Escape(field) == field
  {
    if field != "" {
      assert TextData(field[0]);
      assert forall i | 0 <= i < |field[1..]| :: field[1..][i] == field[i + 1];
      NothingToEscape(field[1..]);
    }
  }

  lemma {:induction false} QuotedFieldIsRead(field: string, rest: string)
    requires FieldEnd(rest)
    ensures ReadField(("\"" + Escape(field) + "\"") + rest) == Some((field, rest))
  {
    hide Escape, ReadQuoted;
    var s := ("\"" + Escape(field) + "\"") + rest;
    QuotedIsRead(field, rest);
    assert s[1..] == Escape(field) + "\"" + rest;
  }

  lemma {:induction false} PlainFieldIsRead(field: string, rest: string)
    requires FieldEnd(rest) && !Special(field)
    ensures ReadField(field + rest) == Some((field, rest))
  {
    hide ReadPlain;
    PlainIsRead(field, rest);
    assert field == "" ==> field + rest == rest;
    assert field != "" ==> TextData(field[0]) && (field + rest)[0] == field[0];
  }

  lemma {:induction false} FieldIsRead(field: string, rest: string, isSpace: char -> bool)
    requires FieldEnd(rest)
    ensures ReadField(Encoded(field, isSpace) + rest) == Some((field, rest))
  {
    hide ReadField, Escape;
    QuotedFieldIsRead(field, rest);
    if !Special(field) {
      NothingToEscape(field);
      PlainFieldIsRead(field, rest);
    }
  }

  // Nothing is read back as one empty field.
  function Normal(fields: seq<string>): seq<string> {
    if fields == [] then [""] else fields
  }

  /** Reading back a line gives the fields, whatever follows. */
  lemma {:induction false} RowIsRead(fields: seq<string>, rest: string, isSpace: char -> bool)
    ensures ReadRecord(Row(fields, isSpace) + rest) == Some((Normal(fields), rest))
    decreases |fields|
  {
    hide Encoded, ReadField;
    var s := Row(fields, isSpace) + rest;
    if fields == [] {
      EmptyField(isSpace);
      FieldIsRead("", s, isSpace);
      assert "" + s == s && s[1..] == rest;
    } else if |fields| == 1 {
      FieldIsRead(fields[0], "\n" + rest, isSpace);
      assert s == Encoded(fields[0], isSpace) + ("\n" + rest);
      assert ("\n" + rest)[1..] == rest && fields == [fields[0]];
    } else {
      var more := Row(fields[1..], isSpace) + rest;
      FieldIsRead(fields[0], "," + more, isSpace);
      assert s == Encoded(fields[0], isSpace) + ("," + more);
      assert ("," + more)[1..] == more && fields == [fields[0]] + fields[1..];
      RowIsRead(fields[1..], rest, isSpace);
    }
  }

  lemma {:induction false} EmptyField(isSpace: char -> bool)
    ensures Encoded("", isSpace) == ""
  {
  }

  function Normals(rows: seq<seq<string>>): seq<seq<string>> {
    if rows == [] then [] else [Normal(rows[0])] + Normals(rows[1..])
  }

  /** Reading back a file gives its rows. */
  lemma {:induction false} FileIsRead(rows: seq<seq<string>>, isSpace: char -> bool)
    ensures ReadFile(Rows(rows, isSpace)) == Some(Normals(rows))
  {
    hide Row, ReadRecord;
    if rows != [] {
      RowIsRead(rows[0], Rows(rows[1..], isSpace), isSpace);
      RowIsNotEmpty(rows[0], isSpace);
      FileIsRead(rows[1..], isSpace);
    }
  }

  lemma {:induction false} RowIsNotEmpty(fields: seq<string>, isSpace: char -> bool)
    ensures Row(fields, isSpace) != ""
  {
  }

  /** Exactly the rows with at least one field come back as they were. */
  lemma {:induction false} RoundTripIff(rows: seq<seq<string>>, isSpace: char -> bool)
    ensures ReadFile(Rows(rows, isSpace)) == Some(rows) <==> [] !in rows
  {
    FileIsRead(rows, isSpace);
    NormalsAre(rows);
  }

  lemma {:induction false} NormalsAre(rows: seq<seq<string>>)
    ensures Normals(rows) == rows <==> [] !in rows
  {
    if rows != [] {
      NormalsAre(rows[1..]);
      assert rows == [rows[0]] + rows[1..];
      assert [] in rows <==> rows[0] == [] || [] in rows[1..];
      if rows[0] != [] && Normals(rows) == rows {
        assert Normals(rows)[1..] == Normals(rows[1..]);
      }
    }
  }

  /** The encoding is injective but for empty rows, which look like one empty field. */
  lemma {:induction false} EncodingIsInjective(a: seq<string>, b: seq<string>, isSpace: char -> bool)
    ensures Row(a, isSpace) == Row(b, isSpace) <==> Normal(a) == Normal(b)
  {
    RowIsRead(a, "", isSpace);
    RowIsRead(b, "", isSpace);
    RowOfNormal(a, isSpace);
    RowOfNormal(b, isSpace);
  }

  lemma {:induction false} RowOfNormal(fields: seq<string>, isSpace: char -> bool)
    ensures Row(Normal(fields), isSpace) == Row(fields, isSpace)
  {
    if fields == [] {
      assert "" + "\n" == "\n";
    }
  }

  /** ---- the writer ---- */

  // A value to be exported: missing, written as it is, or text.
  datatype Cell = Missing | Plain(text: string) | Text(text: string)

  function CellText(c: Cell): string {
    if c.Missing? then "" else c.text
  }

  function CellTexts(cells: seq<Cell>): seq<string> {
    if cells == [] then [] else [CellText(cells[0])] + CellTexts(cells[1..])
  }

  class CsvWriter {
    const isSpace: char -> bool
    // what the buffered writer got
    var out: string

    constructor (isSpace: char -> bool)
      ensures this.isSpace == isSpace && out == ""
    {
      this.isSpace, out := isSpace, "";
    }

    // strings.ContainsAny(field, "\"\r\n,")
    method ContainsSpecial(field: string) returns (r: bool)
      ensures r == Special(field)
      ensures r <==> '"' in field || '\r' in field || '\n' in field || ',' in field
    {
      var i := 0;
      while i < |field|
        invariant i <= |field| && forall j | 0 <= j < i :: TextData(field[j])
      {
        if !TextData(field[i]) {
          return true;
        }
        i := i + 1;
      }
      return false;
    }

    // strings.IndexAny(field, "\"")
    method IndexQuote(field: string) returns (i: int)
      ensures i == -1 ==> '"' !in field
      ensures i != -1 ==> 0 <= i < |field| && field[i] == '"' && '"' !in field[..i]
    {
      i := 0;
      while i < |field|
        invariant 0 <= i <= |field| && '"' !in field[..i]
      {
        if field[i] == '"' {
          return;
        }
        i := i + 1;
      }
      return -1;
    }

    method WriteString(field0: string)
      modifies this
      ensures out == old(out) + Encoded(field0, isSpace)
    {
      hide Escape;
      var field := field0;
      if field == "" {
        return;
      }
      var special := ContainsSpecial(field);
      if !special {
        if isSpace(field[0]) {
          out := out + "\"";
          out := out + field;
          out := out + "\"";
          assert out == old(out) + ("\"" + field + "\"");
          return;
        }
        out := out + field;
        return;
      }
      WriteQuoted(field);
      assert old(out) + "\"" + Escape(field0) + "\"" == old(out) + ("\"" + Escape(field0) + "\"");
    }

    // The field between quotes, its own quotes doubled.
    method WriteQuoted(field0: string)
      modifies this
      ensures out == old(out) + "\"" + Escape(field0) + "\""
    {
      hide Escape;
      var field := field0;
      out := out + "\"";
      while |field| > 0
        invariant out + Escape(field) == old(out) + "\"" + Escape(field0)
      {
        var index := IndexQuote(field);
        if index == -1 {
          EscapeUpTo(field, |field|);
          assert field[..|field|] == field && field[|field|..] == "";
          out := out + field;
          field := "";
          break;
        }
        EscapeUpTo(field, index);
        EscapeQuote(field[index..]);
        assert field[index..][1..] == field[index + 1..];
        out := out + field[..index];
        out := out + "\"\"";
        field := field[index + 1..];
      }
      EscapeNothing();
      assert field == "" && out + "" == out;
      out := out + "\"";
    }

    /** Fields writes one line. */
    method Fields(fields: seq<string>)
      modifies this
      ensures out == old(out) + Row(fields, isSpace)
    {
      hide Encoded;
      var i := 0;
      while i < |fields|
        invariant i <= |fields| && out == old(out) + RowBefore(fields, i, isSpace)
      {
        if i > 0 {
          out := out + ",";
        }
        WriteString(fields[i]);
        i := i + 1;
      }
      RowIsBefore(fields, i, isSpace);
      out := out + "\n";
    }

    // Numbers and addresses are written as they are.
    method WriteCell(c: Cell)
      requires c.Plain? ==> Encoded(c.text, isSpace) == c.text
      modifies this
      ensures out == old(out) + Encoded(CellText(c), isSpace)
      ensures c.Missing? ==> out == old(out)
    {
      match c
      case Missing =>
        assert out + "" == out;
      case Plain(text) =>
        out := out + text;
      case Text(text) =>
        WriteString(text);
    }

    /** Export writes the line Fields would write for the texts of the values. */
    method Export(cells: seq<Cell>)
      requires forall i | 0 <= i < |cells| && cells[i].Plain? :: Encoded(cells[i].text, isSpace) == cells[i].text
      modifies this
      ensures out == old(out) + Row(CellTexts(cells), isSpace)
      // a missing value is written as nothing
      ensures out == old(out) + Row(seq(|cells|, i requires 0 <= i < |cells| =>
                                      if cells[i].Missing? then "" else cells[i].text), isSpace)
    {
      hide Encoded, Row, CellTexts, CellText;
      ghost var texts := CellTexts(cells);
      TextsAre(cells);
      var i := 0;
      while i < |cells|
        invariant i <= |cells| && out == old(out) + RowBefore(texts, i, isSpace)
      {
        if i > 0 {
          out := out + ",";
        }
        WriteCell(cells[i]);
        i := i + 1;
      }
      RowIsBefore(texts, i, isSpace);
      out := out + "\n";
    }
  }

  /** A line whose only value is missing is empty, and one between two others leaves
      nothing between their separators. */
  lemma {:induction false} MissingIsNothing(isSpace: char -> bool)
    ensures Row(CellTexts([Missing]), isSpace) == "\n"
    ensures !isSpace('1') && !isSpace('2') ==> Row(CellTexts([Plain("1"), Missing, Plain("2")]), isSpace) == "1,,2\n"
  {
  }

  // A stretch without quotes escapes to itself.
  lemma {:induction false} EscapeUpTo(field: string, i: nat)
    requires i <= |field| && '"' !in field[..i]
    ensures Escape(field) == field[..i] + Escape(field[i..])
  {
    if i > 0 {
      assert field[..i][0] == field[0] && field[1..][..i - 1] == field[..i][1..];
      EscapeUpTo(field[1..], i - 1);
      assert field[1..][i - 1..] == field[i..];
      assert field[..i] == [field[0]] + field[1..][..i - 1];
    } else {
      assert field[..0] == "" && field[0..] == field;
    }
  }

  lemma {:induction false} EscapeQuote(field: string)
    requires field != "" && field[0] == '"'
    ensures Escape(field) == "\"\"" + Escape(field[1..])
  {
  }

  lemma {:induction false} EscapeNothing()
    ensures Escape("") == ""
  {
  }

  // The first i fields of a line, and the commas between them.
  ghost function RowBefore(fields: seq<string>, i: nat, isSpace: char -> bool): string
    requires i <= |fields|
  {
    if i == 0 then ""
    else RowBefore(fields, i - 1, isSpace) + (if i > 1 then "," else "") + Encoded(fields[i - 1], isSpace)
  }

  // What follows them.
  ghost function RowFrom(fields: seq<string>, i: nat, isSpace: char -> bool): string
    requires i <= |fields|
  {
    if i == |fields| then "\n" else (if i > 0 then "," else "") + Row(fields[i..], isSpace)
  }

  lemma {:induction false} RowFromStep(fields: seq<string>, i: nat, isSpace: char -> bool)
    requires i < |fields|
    ensures RowFrom(fields, i, isSpace)
            == (if i > 0 then "," else "") + (Encoded(fields[i], isSpace) + RowFrom(fields, i + 1, isSpace))
  {
    hide Encoded;
    assert fields[i..][1..] == fields[i + 1..];
  }

  lemma {:induction false} RowIsBefore(fields: seq<string>, i: nat, isSpace: char -> bool)
    requires i <= |fields|
    ensures Row(fields, isSpace) == RowBefore(fields, i, isSpace) + RowFrom(fields, i, isSpace)
  {
    hide Encoded, Row, RowFrom;
    if i == 0 {
      RowFromStart(fields, isSpace);
      assert "" + Row(fields, isSpace) == Row(fields, isSpace);
    } else {
      RowIsBefore(fields, i - 1, isSpace);
      RowFromStep(fields, i - 1, isSpace);
    }
  }

  lemma {:induction false} RowFromStart(fields: seq<string>, isSpace: char -> bool)
    ensures RowFrom(fields, 0, isSpace) == Row(fields, isSpace)
  {
    assert fields[0..] == fields;
    if fields != [] {
      assert "" + Row(fields, isSpace) == Row(fields, isSpace);
    }
  }

  lemma {:induction false} TextsAre(cells: seq<Cell>)
    ensures |CellTexts(cells)| == |cells| && forall i | 0 <= i < |cells| :: CellTexts(cells)[i] == CellText(cells[i])
    ensures CellTexts(cells) == seq(|cells|, i requires 0 <= i < |cells| =>
                                      if cells[i].Missing? then "" else cells[i].text)
  {
    if cells != [] {
      TextsAre(cells[1..]);
    }
  }
}
