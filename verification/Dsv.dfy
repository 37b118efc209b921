/** Delimiter-separated values: a parser that reads one token at a time, and a printer. */
module Dsv {

  const QUOTE := '"'
  const CR := '\r'
  const LF := '\n'

  /** The delimiters that can also stand for themselves in the printer's regular expression. */
  predicate IsDelimiter(d: char) {
    d !in "\"\r\n-]\\"
  }

  // ---------- Printing ----------

  function DoubleQuotes(s: string): string {
    if s == "" then "" else (if s[0] == QUOTE then [QUOTE, QUOTE] else [s[0]]) + DoubleQuotes(s[1..])
  }

  predicate NeedsQuotes(d: char, field: string) {
    QUOTE in field || d in field || LF in field
  }

  function FormatValue(d: char, field: string): string {
    if NeedsQuotes(d, field) then [QUOTE] + DoubleQuotes(field) + [QUOTE] else field
  }

  function FormatRow(d: char, row: seq<string>): string {
    if row == [] then ""
    else if |row| == 1 then FormatValue(d, row[0])
    else FormatValue(d, row[0]) + [d] + FormatRow(d, row[1..])
  }

  function FormatRows(d: char, rows: seq<seq<string>>): string {
    if rows == [] then ""
    else if |rows| == 1 then FormatRow(d, rows[0])
    else FormatRow(d, rows[0]) + [LF] + FormatRows(d, rows[1..])
  }

  /** A field is printed as it is exactly if it holds none of the three characters that say where fields and rows end,
      and else in quotes. */
  lemma PlainIff(d: char, field: string)
    ensures FormatValue(d, field) == field <==>
      forall i :: 0 <= i < |field| ==> field[i] != '"' && field[i] != d && field[i] != '\n'
    ensures FormatValue(d, field) != field ==>
      |FormatValue(d, field)| >= |field| + 2 && FormatValue(d, field)[0] == '"'
        && FormatValue(d, field)[|FormatValue(d, field)| - 1] == '"'
  {
    DoubledLonger(field);
    if NeedsQuotes(d, field) {
      assert |FormatValue(d, field)| > |field|;
    }
  }

  lemma {:induction false} DoubledLonger(s: string)
    ensures |DoubleQuotes(s)| >= |s|
  {
    if s != "" {
      DoubledLonger(s[1..]);
    }
  }

  // ---------- Parsing ----------

  /** Each two consecutive quotes become one. */
  function Unquote(s: string): string {
    if s == "" then ""
    else if |s| > 1 && s[0] == s[1] == QUOTE then [QUOTE] + Unquote(s[2..])
    else [s[0]] + Unquote(s[1..])
  }

  /** The position of the quote that ends a quoted field, or the length if there is none. */
  function CloseAt(s: string): (k: nat)
    ensures k <= |s| && (k < |s| ==> s[k] == QUOTE)
  {
    if s == "" then 0
    else if s[0] != QUOTE then 1 + CloseAt(s[1..])
    else if |s| > 1 && s[1] == QUOTE then 2 + CloseAt(s[2..])
    else 0
  }

  predicate Ends(d: char, c: char) {
    c == LF || c == CR || c == d
  }

  /** The position of the character that ends an unquoted field, or the length if there is none. */
  function EndAt(d: char, s: string): (k: nat)
    ensures k <= |s| && (k < |s| ==> Ends(d, s[k])) && forall i :: 0 <= i < k ==> !Ends(d, s[i])
  {
    if s == "" || Ends(d, s[0]) then 0 else 1 + EndAt(d, s[1..])
  }

  datatype Scan = Scan(field: string, rest: string, eol: bool)

  /** Past the character after a field, which may be a line end of two characters. */
  function PastEnd(field: string, s: string): (r: Scan)
    ensures |r.rest| < |s| || s == ""
  {
    if s == "" then Scan(field, "", false)
    else if s[0] == CR && |s| > 1 && s[1] == LF then Scan(field, s[2..], true)
    else Scan(field, s[1..], s[0] == CR || s[0] == LF)
  }

  /** The field at the start of s. */
  function NextField(d: char, s: string): (r: Scan)
    requires s != ""
    ensures |r.rest| < |s|
  {
    if s[0] == QUOTE then
      var k := CloseAt(s[1..]);
      PastEnd(Unquote(s[1..][..k]), if k < |s| - 1 then s[k + 2..] else "")
    else
      var k := EndAt(d, s);
      PastEnd(s[..k], s[k..])
  }

  datatype RowScan = RowScan(row: seq<string>, rest: string)

  /** The row at the start of s. */
  function NextRow(d: char, s: string): (r: RowScan)
    requires s != ""
    ensures r.row != [] && |r.rest| < |s|
    decreases |s|
  {
    var f := NextField(d, s);
    if f.rest == "" || f.eol then RowScan([f.field], f.rest)
    else
      var r := NextRow(d, f.rest);
      RowScan([f.field] + r.row, r.rest)
  }

  function RowsOf(d: char, s: string): (rows: seq<seq<string>>)
    decreases |s|
  {
    if s == "" then [] else
    var r := NextRow(d, s);
    [r.row] + RowsOf(d, r.rest)
  }

  datatype Token = Eof | Eol | Field(text: string)

  class Tokenizer {
    const text: string
    const delimiter: char
    var pos: nat
    var eol: bool

    constructor (text: string, delimiter: char)
      ensures this.text == text && this.delimiter == delimiter && Rest() == text && !eol
    {
      this.text, this.delimiter, pos, eol := text, delimiter, 0, false;
    }

    /** What has not been read. */
    ghost function Rest(): string
      reads this`pos
    {
      if pos >= |text| then "" else text[pos..]
    }

    /** `token`: a field, the end of its line once before the next field, or the end of the text. */
    method Token() returns (t: Token)
      modifies this
      ensures old(Rest()) == "" ==> t == Eof && Rest() == "" && eol == old(eol)
      ensures old(Rest()) != "" && old(eol) ==> t == Eol && Rest() == old(Rest()) && !eol
      ensures old(Rest()) != "" && !old(eol) ==>
        t == Field(NextField(delimiter, old(Rest())).field) && Rest() == NextField(delimiter, old(Rest())).rest
        && eol == NextField(delimiter, old(Rest())).eol
    {
      if pos >= |text| {
        return Eof;
      }
      if eol {
        eol := false;
        return Eol;
      }
      if text[pos] == QUOTE {
        t := QuotedField();
      } else {
        t := PlainField();
      }
    }

    method QuotedField() returns (t: Token)
      requires pos < |text| && text[pos] == QUOTE && !eol
      modifies this
      ensures var r := NextField(delimiter, old(Rest()));
        t == Field(r.field) && Rest() == r.rest && eol == r.eol
    {
      hide NextField, CloseAt, Unquote;
      var j := pos;
      var i := FindClose(j);
      QuotedPositions(j, i);
      pos := i + 2;
      if i + 1 < |text| {
        if text[i + 1] == CR {
          eol := true;
          if i + 2 < |text| && text[i + 2] == LF {
            pos := pos + 1;
          }
        } else if text[i + 1] == LF {
          eol := true;
        }
      }
      t := Field(Unquote(text[j + 1..if i < |text| then i else |text|]));
    }

    function From(i: nat): string {
      if i >= |text| then "" else text[i..]
    }

    /** The quoted field that starts at j and whose closing quote is at i. */
    lemma QuotedPositions(j: nat, i: nat)
      requires j < |text| && text[j] == QUOTE
      requires var k := CloseAt(text[j + 1..]); i == if j + 1 + k < |text| then j + 1 + k else |text| + 1
      ensures var f := Unquote(text[j + 1..if i < |text| then i else |text|]);
        NextField(delimiter, text[j..]) ==
          if i + 1 >= |text| then Scan(f, "", false)
          else if text[i + 1] == CR && i + 2 < |text| && text[i + 2] == LF then Scan(f, From(i + 3), true)
          else Scan(f, From(i + 2), text[i + 1] == CR || text[i + 1] == LF)
    {
      hide CloseAt, Unquote;
      var s, k := text[j..], CloseAt(text[j + 1..]);
      assert s[1..] == text[j + 1..];
      assert s[1..][..k] == text[j + 1..if i < |text| then i else |text|];
      var rest := if k < |s| - 1 then s[k + 2..] else "";
      assert i + 1 < |text| ==> rest == text[i + 1..];
      assert i + 1 >= |text| ==> rest == "";
    }

    /** The loop to the closing quote. It ends one past the end of the text if there is none. */
    method FindClose(j: nat) returns (i: nat)
      requires j < |text|
      ensures var k := CloseAt(text[j + 1..]);
        i == if j + 1 + k < |text| then j + 1 + k else |text| + 1
    {
      i := j;
      while i < |text|
        invariant j <= i <= |text|
        invariant i < |text| ==> i + 1 + CloseAt(text[i + 1..]) == j + 1 + CloseAt(text[j + 1..])
        invariant i == |text| ==> j + 1 + CloseAt(text[j + 1..]) == |text|
        decreases |text| - i
      {
        ghost var s := text[i + 1..];
        i := i + 1;
        if i < |text| && text[i] == QUOTE {
          if i + 1 >= |text| || text[i + 1] != QUOTE {
            return;
          }
          assert s[2..] == text[i + 2..];
          i := i + 1;
        } else if i < |text| {
          assert s[1..] == text[i + 1..];
        }
      }
      i := i + 1;
    }

    method PlainField() returns (t: Token)
      requires pos < |text| && text[pos] != QUOTE && !eol
      modifies this
      ensures var r := NextField(delimiter, old(Rest()));
        t == Field(r.field) && Rest() == r.rest && eol == r.eol
    {
      hide NextField, EndAt;
      var j := pos;
      assert Rest() == text[j..];
      while pos < |text|
        invariant j <= pos <= |text| && !eol && forall i :: j <= i < pos ==> !Ends(delimiter, text[i])
        decreases |text| - pos
      {
        var c, k := text[pos], 1;
        pos := pos + 1;
        if c == LF {
          eol := true;
        } else if c == CR {
          eol := true;
          if pos < |text| && text[pos] == LF {
            pos, k := pos + 1, k + 1;
          }
        } else if c != delimiter {
          continue;
        }
        PlainPositions(j, pos - k);
        return Field(text[j..pos - k]);
      }
      PlainPositions(j, pos);
      t := Field(text[j..]);
    }

    /** The unquoted field from j up to i. */
    lemma PlainPositions(j: nat, i: nat)
      requires j <= i <= |text| && j < |text| && text[j] != QUOTE && (i < |text| ==> Ends(delimiter, text[i]))
      requires forall p :: j <= p < i ==> !Ends(delimiter, text[p])
      ensures NextField(delimiter, text[j..]) ==
        if i == |text| then Scan(text[j..i], "", false)
        else if text[i] == CR && i + 1 < |text| && text[i + 1] == LF then Scan(text[j..i], From(i + 2), true)
        else Scan(text[j..i], From(i + 1), text[i] == CR || text[i] == LF)
    {
      hide EndAt;
      var s := text[j..];
      assert forall p :: 0 <= p < i - j ==> s[p] == text[j + p];
      assert EndAt(delimiter, s) == i - j;
      assert s[..i - j] == text[j..i] && s[i - j..] == text[i..];
    }
  }

  /** The tokenizer has just read the field at the start of s. */
  ghost predicate HasRead(tokenizer: Tokenizer, t: Token, s: string)
    requires s != ""
    reads tokenizer
  {
    var r := NextField(tokenizer.delimiter, s);
    t == Field(r.field) && tokenizer.Rest() == r.rest && tokenizer.eol == r.eol
  }

  /** The loop over the fields of a row, the first of which has been read. */
  method ParseRow(tokenizer: Tokenizer, first: Token, ghost s: string) returns (row: seq<string>)
    requires s != "" && HasRead(tokenizer, first, s)
    modifies tokenizer
    ensures row == NextRow(tokenizer.delimiter, s).row && tokenizer.Rest() == NextRow(tokenizer.delimiter, s).rest
    ensures tokenizer.Rest() != "" ==> !tokenizer.eol
  {
    hide NextField, NextRow;
    row := [];
    var t := first;
    ghost var u := s;
    while !t.Eol? && !t.Eof?
      invariant t.Field? ==> u != "" && HasRead(tokenizer, t, u)
      invariant t.Field? ==>
        NextRow(tokenizer.delimiter, s)
          == RowScan(row + NextRow(tokenizer.delimiter, u).row, NextRow(tokenizer.delimiter, u).rest)
      invariant !t.Field? ==>
        NextRow(tokenizer.delimiter, s) == RowScan(row, tokenizer.Rest()) && (tokenizer.Rest() != "" ==> !tokenizer.eol)
      decreases t.Field?, |tokenizer.Rest()|
    {
      RowUnrolled(tokenizer.delimiter, u, row);
      row := row + [t.text];
      ghost var rest := tokenizer.Rest();
      t := tokenizer.Token();
      if t.Field? { u := rest; }
    }
  }

  lemma RowUnrolled(d: char, s: string, row: seq<string>)
    requires s != ""
    ensures var f := NextField(d, s);
      RowScan(row + NextRow(d, s).row, NextRow(d, s).rest) ==
        if f.rest == "" || f.eol then RowScan(row + [f.field], f.rest)
        else RowScan(row + [f.field] + NextRow(d, f.rest).row, NextRow(d, f.rest).rest)
  {
    hide NextField;
  }

  lemma FirstRow(d: char, s: string, row: seq<string>)
    requires s != ""
    ensures NextRow(d, s).row == row ==> RowsOf(d, s) == [row] + RowsOf(d, NextRow(d, s).rest)
  {
    hide NextRow;
  }

  lemma NoRows(d: char)
    ensures RowsOf(d, "") == []
  {
  }

  lemma RowTaken(d: char, s: string, row: seq<string>, rows: seq<seq<string>>)
    requires s != "" && NextRow(d, s).row == row
    ensures rows + RowsOf(d, s) == rows + [row] + RowsOf(d, NextRow(d, s).rest)
  {
    hide NextRow, RowsOf;
    FirstRow(d, s, row);
  }

  /** `parseRows`, without a row function. */
  method ParseRows(d: char, text: string) returns (rows: seq<seq<string>>)
    ensures rows == RowsOf(d, text)
  {
    hide NextField, NextRow, RowsOf;
    var tokenizer := new Tokenizer(text, d);
    rows := [];
    ghost var s := text;
    var t := tokenizer.Token();
    while !t.Eof?
      invariant RowsOf(d, text) == rows + RowsOf(d, s)
      invariant t.Eof? <==> s == ""
      invariant tokenizer.delimiter == d && (t.Eof? || HasRead(tokenizer, t, s))
      decreases |s|
    {
      var a := ParseRow(tokenizer, t, s);
      RowTaken(d, s, a, rows);
      rows := rows + [a];
      s := tokenizer.Rest();
      t := tokenizer.Token();
    }
    NoRows(d);
  }

  // ---------- Round trip ----------

  /** The parser can tell where the field ends. */
  predicate Clean(d: char, field: string) {
    NeedsQuotes(d, field) || CR !in field
  }

  /** A row with a field, whose fields are all clean. */
  predicate CleanRow(d: char, row: seq<string>) {
    row != [] && forall j :: 0 <= j < |row| ==> Clean(d, row[j])
  }

  predicate EndsInText(row: seq<string>) {
    row != [] && row[|row| - 1] != ""
  }

  /** The rows that the parser gets back. */
  predicate RoundTrips(d: char, rows: seq<seq<string>>) {
    rows == [] || ((forall i :: 0 <= i < |rows| ==> CleanRow(d, rows[i])) && EndsInText(rows[|rows| - 1]))
  }

  /** What is left after the end of a line: a line feed, a carriage return, or one and then the other. */
  function AfterLine(u: string): string {
    if u == "" then "" else if "\r\n" <= u then u[2..] else u[1..]
  }

  /** A text that goes on after a field: the row does, or the line ends. */
  predicate Follows(d: char, u: string) {
    u == "" || u[0] == d || u[0] == LF || u[0] == CR
  }

  lemma {:induction false} QuotedEnd(f: string, u: string)
    requires u == "" || u[0] != QUOTE
    ensures CloseAt(DoubleQuotes(f) + [QUOTE] + u) == |DoubleQuotes(f)|
  {
    var s := DoubleQuotes(f) + [QUOTE] + u;
    if f == "" {
      assert s == [QUOTE] + u;
    } else {
      QuotedEnd(f[1..], u);
      var n := if f[0] == QUOTE then 2 else 1;
      assert s[n..] == DoubleQuotes(f[1..]) + [QUOTE] + u;
    }
  }

  lemma {:induction false} UnquoteDoubled(f: string)
    ensures Unquote(DoubleQuotes(f)) == f
  {
    if f != "" {
      UnquoteDoubled(f[1..]);
      var n := if f[0] == QUOTE then 2 else 1;
      assert DoubleQuotes(f)[n..] == DoubleQuotes(f[1..]);
      assert f == [f[0]] + f[1..];
    }
  }

  /** Where an unquoted field ends. */
  lemma {:induction false} PlainEnd(d: char, f: string, u: string)
    requires !NeedsQuotes(d, f) && CR !in f && Follows(d, u)
    ensures EndAt(d, f + u) == |f|
  {
    if f == "" {
      assert f + u == u;
    } else {
      assert (f + u)[1..] == f[1..] + u;
      PlainEnd(d, f[1..], u);
    }
  }

  lemma QuotedFieldReadsBack(d: char, f: string, u: string)
    requires IsDelimiter(d) && NeedsQuotes(d, f) && Follows(d, u)
    ensures NextField(d, FormatValue(d, f) + u) == PastEnd(f, u)
  {
    hide PastEnd, NeedsQuotes, DoubleQuotes, CloseAt, Unquote;
    var s, e := FormatValue(d, f) + u, DoubleQuotes(f);
    QuotedEnd(f, u);
    UnquoteDoubled(f);
    assert s[1..] == e + [QUOTE] + u;
    assert s[1..][..|e|] == e;
    assert u != "" ==> s[|e| + 2..] == u;
  }

  lemma PlainFieldReadsBack(d: char, f: string, u: string)
    requires IsDelimiter(d) && !NeedsQuotes(d, f) && CR !in f && Follows(d, u) && f + u != ""
    ensures NextField(d, FormatValue(d, f) + u) == PastEnd(f, u)
  {
    hide PastEnd;
    PlainEnd(d, f, u);
    assert (f + u)[..|f|] == f && (f + u)[|f|..] == u;
  }

  /** A clean field reads back. */
  lemma FieldReadsBack(d: char, f: string, u: string)
    requires IsDelimiter(d) && Clean(d, f) && Follows(d, u) && FormatValue(d, f) + u != ""
    ensures NextField(d, FormatValue(d, f) + u) ==
      if u != "" && u[0] == d then Scan(f, u[1..], false) else Scan(f, AfterLine(u), u != "")
  {
    hide NextField;
    if NeedsQuotes(d, f) {
      QuotedFieldReadsBack(d, f, u);
    } else {
      PlainFieldReadsBack(d, f, u);
    }
  }

  /** A field that is not clean does not. */
  lemma UncleanLost(d: char, f: string, u: string)
    requires !Clean(d, f)
    ensures NextField(d, FormatValue(d, f) + u).field != f
  {
    var s := f + u;
    assert s[0] == f[0];
    assert CR !in s[..EndAt(d, s)];
    assert PastEnd(s[..EndAt(d, s)], s[EndAt(d, s)..]).field == s[..EndAt(d, s)];
  }

  /** What is needed for a row to read back when u follows it. */
  predicate RowReadsBack(d: char, row: seq<string>, u: string) {
    CleanRow(d, row) && (u == "" ==> EndsInText(row))
  }

  lemma RowFirst(d: char, f: string, rest: seq<string>, u: string)
    ensures RowReadsBack(d, [f] + rest, u) <==>
      Clean(d, f) && if rest == [] then u == "" ==> f != "" else RowReadsBack(d, rest, u)
  {
    hide Clean;
    var row := [f] + rest;
    assert row[0] == f && forall i :: 0 <= i < |rest| ==> row[i + 1] == rest[i];
  }

  lemma EmptyField(d: char, f: string)
    ensures FormatValue(d, f) == "" <==> f == ""
  {
  }

  lemma EmptyRow(d: char, row: seq<string>)
    requires row != [] && FormatRow(d, row) == ""
    ensures !RowReadsBack(d, row, "")
  {
  }

  lemma {:induction false} RowRoundTrip(d: char, row: seq<string>, u: string)
    requires IsDelimiter(d) && row != [] && (u == "" || u[0] == LF || u[0] == CR) && FormatRow(d, row) + u != ""
    ensures RowReadsBack(d, row, u) ==>
      NextRow(d, FormatRow(d, row) + u) == RowScan(row, AfterLine(u))
    ensures NextRow(d, FormatRow(d, row) + u).row == row ==> RowReadsBack(d, row, u)
    decreases |row|
  {
    hide NextField, FormatValue, Clean, RowReadsBack;
    var f := row[0];
    assert row == [f] + row[1..];
    RowFirst(d, f, row[1..], u);
    if |row| == 1 {
      EmptyField(d, f);
      if Clean(d, f) { FieldReadsBack(d, f, u); } else { UncleanLost(d, f, u); }
    } else {
      var v := [d] + FormatRow(d, row[1..]) + u;
      assert FormatRow(d, row) + u == FormatValue(d, f) + v && v[1..] == FormatRow(d, row[1..]) + u;
      if Clean(d, f) {
        FieldReadsBack(d, f, v);
        if v[1..] == "" {
          EmptyRow(d, row[1..]);
        } else {
          RowRoundTrip(d, row[1..], u);
        }
      } else {
        UncleanLost(d, f, v);
      }
    }
  }

  lemma RoundTripsFirst(d: char, row: seq<string>, rest: seq<seq<string>>)
    requires row != []
    ensures RoundTrips(d, [row] + rest)
      <==> RowReadsBack(d, row, if rest == [] then "" else [LF]) && RoundTrips(d, rest)
  {
    hide CleanRow, EndsInText;
    var rows := [row] + rest;
    assert rows[0] == row && forall i :: 0 <= i < |rest| ==> rows[i + 1] == rest[i];
    assert rest != [] ==> rows[|rows| - 1] == rest[|rest| - 1];
  }

  /** Printed rows read back as they were exactly when RoundTrips says so. */
  lemma {:induction false} RowsRoundTrip(d: char, rows: seq<seq<string>>)
    requires IsDelimiter(d)
    ensures RoundTrips(d, rows) <==> RowsOf(d, FormatRows(d, rows)) == rows
    decreases |rows|
  {
    if rows != [] && rows[0] != [] {
      hide Clean, FormatRow, NextRow, RowReadsBack, RoundTrips;
      var s, row, rest := FormatRows(d, rows), rows[0], rows[1..];
      var u := if rest == [] then "" else [LF] + FormatRows(d, rest);
      assert s == FormatRow(d, row) + u;
      assert rows == [row] + rest;
      RoundTripsFirst(d, row, rest);
      OnlyWhetherEmpty(d, row, u, if rest == [] then "" else [LF]);
      if s == "" {
        EmptyRow(d, row);
      } else {
        RowRoundTrip(d, row, u);
        RowsRoundTrip(d, rest);
      }
    }
  }

  lemma OnlyWhetherEmpty(d: char, row: seq<string>, u: string, v: string)
    requires row != [] && (u == "" <==> v == "")
    ensures RowReadsBack(d, row, u) <==> RowReadsBack(d, row, v)
  {
  }

  /** The rows with other line ends between them. */
  function RowsText(d: char, rows: seq<seq<string>>, end: string): string {
    if rows == [] then ""
    else if |rows| == 1 then FormatRow(d, rows[0])
    else FormatRow(d, rows[0]) + end + RowsText(d, rows[1..], end)
  }

  predicate IsLineEnd(end: string) {
    end == "\n" || end == "\r" || end == "\r\n"
  }

  lemma RowStarts(d: char, row: seq<string>, v: string)
    requires row != [] && d != LF
    ensures v == "" || v[0] != LF ==> FormatRow(d, row) + v == "" || (FormatRow(d, row) + v)[0] != LF
  {
  }

  lemma RowsTextStep(d: char, rows: seq<seq<string>>, end: string)
    requires rows != []
    ensures RowsText(d, rows, end) ==
      FormatRow(d, rows[0]) + if rows[1..] == [] then "" else end + RowsText(d, rows[1..], end)
  {
    hide FormatRow;
    if |rows| > 1 {
      var a, b := FormatRow(d, rows[0]), RowsText(d, rows[1..], end);
      assert a + end + b == a + (end + b);
    } else {
      assert FormatRow(d, rows[0]) + "" == FormatRow(d, rows[0]);
    }
  }

  lemma TextStarts(d: char, rows: seq<seq<string>>, end: string)
    requires IsDelimiter(d) && IsLineEnd(end) && end != "\n" && forall i :: 0 <= i < |rows| ==> rows[i] != []
    ensures RowsText(d, rows, end) == "" || RowsText(d, rows, end)[0] != LF
  {
    if rows != [] {
      hide FormatRow, RowsText, IsLineEnd;
      var v := if rows[1..] == [] then "" else end + RowsText(d, rows[1..], end);
      RowsTextStep(d, rows, end);
      ReturnFirst(end);
      RowStarts(d, rows[0], v);
    }
  }

  lemma ReturnFirst(end: string)
    requires IsLineEnd(end) && end != "\n"
    ensures end != "" && end[0] == CR
  {
  }

  lemma TailLeft(d: char, rows: seq<seq<string>>, end: string)
    requires IsDelimiter(d) && RoundTrips(d, rows) && IsLineEnd(end)
    ensures AfterLine(if rows == [] then "" else end + RowsText(d, rows, end)) == RowsText(d, rows, end)
  {
    hide RoundTrips, RowsText, AfterLine;
    if rows != [] {
      RowsNotEmpty(d, rows);
      if end != "\n" { TextStarts(d, rows, end); }
      LineTaken(end, RowsText(d, rows, end));
    } else {
      NothingLeft(d, end);
    }
  }

  lemma NothingLeft(d: char, end: string)
    ensures AfterLine("") == "" && RowsText(d, [], end) == ""
  {
  }

  lemma LineEndNotEmpty(end: string)
    requires IsLineEnd(end)
    ensures end != "" && (end[0] == LF || end[0] == CR)
  {
  }

  /** Rows that read back do so whichever line ends are between them. */
  lemma {:induction false} AnyLineEnds(d: char, rows: seq<seq<string>>, end: string)
    requires IsDelimiter(d) && RoundTrips(d, rows) && IsLineEnd(end)
    ensures RowsOf(d, RowsText(d, rows, end)) == rows
    decreases |rows|
  {
    NoRows(d);
    if rows != [] {
      assert CleanRow(d, rows[0]);
      hide Clean, FormatRow, NextRow, RowReadsBack, RoundTrips, CleanRow, RowsOf, RowsText, AfterLine, IsLineEnd;
      var s, row, rest := RowsText(d, rows, end), rows[0], rows[1..];
      var tail := RowsText(d, rest, end);
      var u := if rest == [] then "" else end + tail;
      RowsTextStep(d, rows, end);
      LineEndNotEmpty(end);
      assert rows == [row] + rest;
      RoundTripsFirst(d, row, rest);
      OnlyWhetherEmpty(d, row, u, if rest == [] then "" else [LF]);
      if s == "" {
        EmptyRow(d, row);
      } else {
        RowRoundTrip(d, row, u);
        FirstRow(d, s, row);
        AnyLineEnds(d, rest, end);
        TailLeft(d, rest, end);
      }
    }
  }

  lemma RowsNotEmpty(d: char, rows: seq<seq<string>>)
    requires RoundTrips(d, rows)
    ensures forall i :: 0 <= i < |rows| ==> rows[i] != []
  {
    forall i | 0 <= i < |rows| ensures rows[i] != [] {
      assert CleanRow(d, rows[i]);
    }
  }

  lemma LineTaken(end: string, tail: string)
    requires IsLineEnd(end) && (end == "\n" || tail == "" || tail[0] != LF)
    ensures AfterLine(end + tail) == tail
  {
    var u := end + tail;
    assert u[|end|..] == tail && u[0] == end[0];
    if |end| == 1 && tail != "" { assert u[1] == tail[0]; }
    if end == "\r\n" { assert u[..2] == end; }
  }
}
