/** A tolerant JSON tokenizer: it warns of what it can read past, and stops at what it cannot. */
module JsonTokenizer {
  import opened JsonText
  import JsonWriting
  import opened Wrappers

  datatype Result<T> = Ok(value: T) | Thrown(message: Message)

  datatype Message =
    | UnexpectedEnd
    | BadIdentifierStart
    | ReservedWord
    | ExpectedUnicodeEscape
    | UnnecessaryEscape
    | InvalidUnicodeEscape
    | InvalidEscape
    | IllegalCharacter
    | UnquotedName
    | DuplicateName(name: string)
    | NotCallable
    | ExpectedColon
    | MissingValue
    | ExpectedComma
    | EmptyElement
    | LeadingZero
    | InvalidDecimalPoint
    | InvalidExponent
    | ExpectedNumber
    | SingleQuotes
    | NotALiteral
    | UnexpectedContent
    | Stopping

  datatype Separator = Closed | Comma | Failed(message: Message)

  /** A warning, and the line it is given for. */
  datatype Warning = Warning(message: Message, line: nat)

  /** The characters of identifiers, and the words that may not be identifiers. */
  datatype Tables = Tables(letter: char -> bool, mark: char -> bool, reserved: seq<string>)

  // ---------- Places in a text ----------

  ghost predicate At(json: string, i: nat, s: string) {
    i + |s| <= |json| && json[i..i + |s|] == s
  }

  lemma AtSplit(json: string, i: nat, s: string, t: string)
    ensures At(json, i, s + t) <==> At(json, i, s) && At(json, i + |s|, t)
  {
    var n := i + |s + t|;
    if n <= |json| {
      assert json[i..n] == json[i..i + |s|] + json[i + |s|..n];
      assert (s + t)[..|s|] == s && (s + t)[|s|..] == t;
      if At(json, i, s + t) {
        assert json[i..i + |s|] == json[i..n][..|s|];
        assert json[i + |s|..n] == json[i..n][|s|..];
      }
    }
  }

  lemma AtFirst(json: string, i: nat, s: string)
    requires At(json, i, s) && s != ""
    ensures i < |json| && json[i] == s[0]
  {
    assert json[i..i + |s|][0] == json[i];
  }

  lemma WhiteAt(json: string, i: nat, w: string, k: nat)
    requires At(json, i, w) && AllWhite(w) && i <= k < i + |w|
    ensures k < |json| && IsWhite(json[k])
  {
    hide IsWhite;
    assert json[i..i + |w|][k - i] == json[k];
    assert IsWhite(w[k - i]);
  }

  /** White space up to something that is not. */
  lemma WhiteRun(json: string, i: nat, w: string, j: nat)
    requires At(json, i, w) && AllWhite(w) && i + |w| < |json| && !IsWhite(json[i + |w|])
    requires i <= j <= |json| && AllWhite(json[i..j]) && (j < |json| ==> !IsWhite(json[j]))
    ensures j == i + |w|
  {
    hide IsWhite, AllWhite;
    if j < i + |w| {
      WhiteAt(json, i, w, j);
    } else if i + |w| < j {
      WhiteAt(json, i, json[i..j], i + |w|);
    }
  }

  lemma WhiteNone()
    ensures AllWhite("")
  {
  }

  lemma WhiteMore(s: string, space: string)
    requires AllWhite(s) && |space| == 1 && IsWhite(space[0])
    ensures AllWhite(s + space)
  {
    hide IsWhite;
  }

  // ---------- Counting lines ----------

  /** The last line feed of json[..k]. */
  function LastLineFeedBefore(json: string, k: nat): (i: int)
    requires k <= |json|
    ensures -1 <= i < k && (i >= 0 ==> json[i] == '\n') && forall j :: i < j < k ==> json[j] != '\n'
  {
    if k == 0 then -1 else if json[k - 1] == '\n' then k - 1 else LastLineFeedBefore(json, k - 1)
  }

  /** How far a search that starts at the position looks: a negative position counts as zero. */
  function Upto(json: string, position: int): (k: nat)
    ensures k <= |json|
  {
    if json == "" then 0 else if position < 0 then 1 else if position < |json| then position + 1 else |json|
  }

  /** `json.lastIndexOf('\n', position)`. */
  function LastLineFeed(json: string, position: int): int {
    LastLineFeedBefore(json, Upto(json, position))
  }

  function LineFeeds(s: string): nat {
    if s == "" then 0 else LineFeeds(s[..|s| - 1]) + if s[|s| - 1] == '\n' then 1 else 0
  }

  lemma {:induction false} LineFeedsBefore(json: string, k: nat)
    requires k <= |json|
    ensures var i := LastLineFeedBefore(json, k); LineFeeds(json[..k]) == if i < 0 then 0 else LineFeeds(json[..i]) + 1
  {
    if k > 0 {
      assert json[..k][..k - 1] == json[..k - 1];
      LineFeedsBefore(json, k - 1);
    }
  }

  /** Where the count of lines that has come to position l is after n more steps. */
  function CountedFrom(json: string, l: int, n: nat): int
    decreases n
  {
    if n == 0 || l == -1 then l else CountedFrom(json, LastLineFeed(json, l - 1), n - 1)
  }

  /** The lines of a text that starts with a line feed are counted for ever, from wherever the count starts: it comes to
      the first character and stays there. */
  lemma {:induction false} CountStays(json: string, l: int, n: nat)
    requires json != "" && json[0] == '\n' && 0 <= l < |json|
    ensures CountedFrom(json, l, n) >= 0
    decreases n
  {
    if n > 0 {
      var k := Upto(json, l - 1);
      assert k > 0 && LastLineFeedBefore(json, k) >= 0;
      CountStays(json, LastLineFeed(json, l - 1), n - 1);
    }
  }

  /** Those of all others are not. */
  lemma {:induction false} CountEnds(json: string, l: int) returns (n: nat)
    requires (json == "" || json[0] != '\n') && -1 <= l < |json| && (l >= 0 ==> json[l] == '\n')
    ensures CountedFrom(json, l, n) == -1
    decreases l
  {
    if l == -1 {
      n := 0;
    } else {
      n := CountEnds(json, LastLineFeed(json, l - 1));
      n := n + 1;
    }
  }

  /** The loop of `warn` that counts lines ends if and only if the text does not start with a line feed. */
  lemma CountEndsIff(json: string, position: int)
    ensures (exists n :: CountedFrom(json, LastLineFeed(json, position), n) == -1) <==> (json == "" || json[0] != '\n')
  {
    var l := LastLineFeed(json, position);
    if json == "" || json[0] != '\n' {
      var n := CountEnds(json, l);
    } else {
      assert Upto(json, position) > 0;
      forall n ensures CountedFrom(json, l, n) != -1 {
        CountStays(json, l, n);
      }
    }
  }

  class Tokenizer {
    const json: string
    const tables: Tables
    var cursor: nat
    var eof: bool
    var warnings: seq<Warning>

    constructor (json: string, tables: Tables)
      ensures this.json == json && this.tables == tables && cursor == 0 && warnings == []
      ensures json != "" ==> Valid()
    {
      this.json, this.tables, cursor, warnings := json, tables, 0, [];
      eof := |json| == 0;
    }

    ghost predicate Valid()
      reads this`cursor, this`eof
    {
      eof <==> cursor > |json|
    }

    /** The loop that counts lines ends. */
    predicate Countable() {
      json == "" || json[0] != '\n'
    }

    /** The number of the line that a position is in. */
    method LineOf(position: int) returns (line: nat)
      requires Countable()
      ensures line == 1 + LineFeeds(json[..Upto(json, position)])
    {
      var lastLF := LastLineFeed(json, position);
      line := 1;
      LineFeedsBefore(json, Upto(json, position));
      while lastLF != -1
        invariant -1 <= lastLF < |json| && (lastLF >= 0 ==> json[lastLF] == '\n')
        invariant line + (if lastLF < 0 then 0 else LineFeeds(json[..lastLF]) + 1)
          == 1 + LineFeeds(json[..Upto(json, position)])
        decreases lastLF
      {
        line := line + 1;
        LineFeedsBefore(json, lastLF);
        lastLF := LastLineFeed(json, lastLF - 1);
      }
    }

    method Warn(message: Message)
      requires Countable()
      modifies this`warnings
      ensures warnings == old(warnings) + [Warning(message, 1 + LineFeeds(json[..Upto(json, cursor)]))]
    {
      var line := LineOf(cursor);
      warnings := warnings + [Warning(message, line)];
    }

    /** The characters from i to j, as far as there are any. */
    function Substring(i: nat, j: nat): (s: string)
      requires i <= j
      ensures j <= |json| ==> s == json[i..j]
      ensures |s| <= j - i && (i < |json| && i < j ==> s != "" && s[0] == json[i]) && (i >= |json| ==> s == "")
    {
      if i >= |json| then "" else if j > |json| then json[i..] else json[i..j]
    }

    method Rollback(n: nat)
      requires n <= cursor
      modifies this`cursor, this`eof
      ensures Valid() && cursor == old(cursor) - n
    {
      cursor := cursor - n;
      eof := cursor > |json|;
    }

    method Consume(n: nat) returns (output: string)
      modifies this`cursor, this`eof
      ensures Valid() && cursor == old(cursor) + n && output == Substring(old(cursor), cursor)
    {
      output := Substring(cursor, cursor + n);
      cursor := cursor + n;
      eof := cursor > |json|;
    }

    function Peek(n: nat): string
      reads this`cursor
    {
      Substring(cursor, cursor + n)
    }

    /** Moves to the next character that is not white space, or past the end. */
    method ConsumeWhitespace() returns (more: bool)
      requires Valid()
      modifies this`cursor, this`eof
      ensures Valid() && cursor >= old(cursor) && (more <==> !eof)
      ensures more ==> cursor < |json| && !IsWhite(json[cursor]) && AllWhite(json[old(cursor)..cursor])
      ensures !more && old(cursor) <= |json| ==> AllWhite(json[old(cursor)..])
    {
      hide IsWhite, AllWhite;
      ghost var start := cursor;
      assert AllWhite("") by { WhiteNone(); }
      assert start <= |json| ==> json[start..start] == "";
      var space := Consume(1);
      while |space| == 1 && IsWhite(space[0]) && !eof
        invariant Valid() && cursor > start && space == Substring(cursor - 1, cursor)
        invariant cursor - 1 <= |json| ==> AllWhite(json[start..cursor - 1])
        invariant cursor - 1 > |json| ==> start > |json|
        decreases |json| + 1 - cursor
      {
        if cursor <= |json| {
          assert json[start..cursor] == json[start..cursor - 1] + space;
          WhiteMore(json[start..cursor - 1], space);
        }
        space := Consume(1);
      }
      if eof {
        assert cursor - 1 <= |json| ==> json[start..cursor - 1] == json[start..];
        return false;
      }
      Rollback(1);
      more := true;
    }

    /** All digits from the cursor on. */
    method ConsumeDigits() returns (output: string)
      requires Valid() && !eof
      modifies this`cursor, this`eof
      ensures Valid() && !eof && AllDigits(output) && cursor == old(cursor) + |output| && At(json, old(cursor), output)
      ensures cursor < |json| ==> !IsDigit(json[cursor])
    {
      output := "";
      ghost var start := cursor;
      while !eof
        invariant Valid() && !eof && AllDigits(output) && cursor == start + |output| && At(json, start, output)
        decreases |json| - cursor
      {
        var token := Peek(1);
        if |token| == 1 && IsDigit(token[0]) {
          var digit := Consume(1);
          output := output + digit;
        } else {
          return;
        }
      }
    }

    predicate UnicodeEscapeAt(i: nat) {
      && i + 6 <= |json| && json[i] == '\\' && json[i + 1] == 'u'
      && IsHex(json[i + 2]) && IsHex(json[i + 3]) && IsHex(json[i + 4]) && IsHex(json[i + 5])
    }

    /** A unicode escape is kept as it is written. */
    method UnicodeEscape() returns (output: Option<string>)
      requires Valid() && !eof
      modifies this`cursor, this`eof
      ensures Valid() && !eof
      ensures output.Some? <==> UnicodeEscapeAt(old(cursor))
      ensures output.None? ==> cursor == old(cursor)
      ensures output.Some? ==> cursor == old(cursor) + 6 && output.value == json[old(cursor)..cursor]
    {
      var s := Peek(6);
      if |s| != 6 || s[0] != '\\' || s[1] != 'u' || !(IsHex(s[2]) && IsHex(s[3]) && IsHex(s[4]) && IsHex(s[5])) {
        return None;
      }
      s := Consume(6);
      output := Some(s);
    }

    /** Whether a character can start an identifier; a backslash must start a unicode escape. */
    method IdentifierStart(token: string) returns (ok: bool, token': string)
      requires Countable() && Valid() && |token| <= 1 && (token != "" ==> !eof && cursor > 0)
      modifies this`cursor, this`eof, this`warnings
      ensures |warnings| >= |old(warnings)|
      ensures Valid() && cursor >= old(cursor)
      ensures ok ==> !eof
      ensures !ok ==> cursor == old(cursor) && (token == "" ==> token' == "")
    {
      token' := token;
      if token == "\\" {
        Rollback(1);
        var escape := UnicodeEscape();
        if escape.None? {
          token' := Consume(1);
          Warn(ExpectedUnicodeEscape);
          return false, token';
        }
        return true, escape.value;
      }
      ok := token == "$" || token == "_" || (|token| == 1 && tables.letter(token[0]));
    }

    /** What continues an identifier. */
    method IdentifierPart() returns (part: Option<string>)
      requires Countable() && Valid() && !eof
      modifies this`cursor, this`eof, this`warnings
      ensures |warnings| >= |old(warnings)|
      ensures Valid() && !eof
      ensures part.Some? ==> cursor > old(cursor)
      ensures part.None? ==> cursor == old(cursor)
    {
      var start, token;
      token := Consume(1);
      start, token := IdentifierStart(token);
      if start || (|token| == 1 && tables.mark(token[0])) {
        return Some(token);
      }
      Rollback(1);
      part := None;
    }

    method Identifier() returns (r: Result<string>)
      requires Countable() && Valid() && !eof
      modifies this`cursor, this`eof, this`warnings
      ensures |warnings| >= |old(warnings)|
      ensures Valid()
      ensures r.Ok? ==> !eof && cursor > old(cursor)
    {
      var token := Consume(1);
      var start;
      start, token := IdentifierStart(token);
      if !start {
        return Thrown(BadIdentifierStart);
      }
      var output := token;
      var part := IdentifierPart();
      while part.Some?
        invariant Valid() && !eof && cursor > old(cursor) && |warnings| >= |old(warnings)|
        decreases |json| - cursor, part.Some?
      {
        output := output + part.value;
        part := IdentifierPart();
      }
      if output in tables.reserved {
        Warn(ReservedWord);
      }
      r := Ok(output);
    }

    /** What is known of a character that has been read without a warning. */
    ghost predicate PieceRead(i: nat, j: nat, p: Piece, text: string) {
      p.Valid() && At(json, i, p.Spell()) && j == i + |p.Spell()| && text == p.Meaning(Kept)
    }

    lemma EscapeRead(i: nat, c: char)
      requires i + 1 < |json| && json[i] == '\\' && json[i + 1] == c && c in "\"\\/bfnrt"
      ensures c == '"' ==> Unescaped(c) == c
      ensures PieceRead(i, i + 2, Escape(c), [Unescaped(c)])
    {
    }

    lemma UnicodeRead(i: nat)
      requires UnicodeEscapeAt(i)
      ensures i + 6 <= |json| && PieceRead(i, i + 6, Unicode(json[i + 2..i + 6]), json[i..i + 6])
    {
    }

    /** What follows a backslash in a string. */
    method EscapeSequence(delimit: char, ghost hint: Option<Piece>) returns (r: Result<string>, ghost piece: Piece)
      requires Countable() && Valid() && !eof && cursor > 0 && json[cursor - 1] == '\\'
      requires hint.Some? ==>
        delimit == '"' && !hint.value.Plain? && hint.value.Valid() && At(json, cursor - 1, hint.value.Spell())
      modifies this`cursor, this`eof, this`warnings
      ensures Valid() && |warnings| >= |old(warnings)|
      ensures r.Ok? ==> !eof && cursor > old(cursor)
      ensures hint.Some? ==>
        r == Ok(hint.value.Meaning(Kept)) && cursor == old(cursor) - 1 + |hint.value.Spell()|
        && warnings == old(warnings)
      ensures r.Ok? && |warnings| == |old(warnings)| && delimit == '"' ==>
        PieceRead(old(cursor) - 1, cursor, piece, r.value)
    {
      hide Piece.Valid, Piece.Spell, Piece.Meaning, At, UnicodeEscapeAt, PieceRead, Unescaped, LineFeeds, Upto;
      ghost var start := cursor - 1;
      if hint.Some? { EscapeAt(start, hint.value); }
      var token := Consume(1);
      if eof {
        assert hint.None?;
        return Thrown(UnexpectedEnd), Plain(' ');
      }
      var c := token[0];
      piece := Escape(c);
      if c == delimit {
        if c == '"' { EscapeRead(start, c); }
        r := Ok([delimit]);
      } else if (c == '\'' && delimit == '"') || (c == '"' && delimit == '\'') {
        Warn(UnnecessaryEscape);
        r := Ok([delimit]);
      } else if c == 'u' {
        if UnicodeEscapeAt(start) {
          UnicodeRead(start);
          piece := Unicode(json[start + 2..start + 6]);
        }
        r := UnicodeInString();
      } else if c in "\\/bfnrt" {
        EscapeRead(start, c);
        r := Ok([Unescaped(c)]);
      } else {
        Warn(InvalidEscape);
        r := Ok(['\\', c]);
      }
    }

    lemma EscapeAt(i: nat, p: Piece)
      requires !p.Plain? && p.Valid() && At(json, i, p.Spell())
      ensures i + 1 < |json| && (json[i + 1] == '"' ==> Unescaped(json[i + 1]) == '"')
      ensures p.Escape? ==>
        json[i + 1] in "\"\\/bfnrt" && p.Meaning(Kept) == [Unescaped(json[i + 1])] && |p.Spell()| == 2
      ensures p.Unicode? ==>
        json[i + 1] == 'u' && UnicodeEscapeAt(i) && json[i..i + 6] == p.Meaning(Kept) && |p.Spell()| == 6
    {
      var s := json[i..i + |p.Spell()|];
      assert forall k :: 0 <= k < |s| ==> s[k] == json[i + k];
      assert s[1] == p.Spell()[1];
      if p.Unicode? {
        assert s[0] == '\\' && s[2] == p.hex[0] && s[3] == p.hex[1] && s[4] == p.hex[2] && s[5] == p.hex[3];
      }
    }

    /** A unicode escape in a string, of which the first two characters have been consumed. */
    method UnicodeInString() returns (r: Result<string>)
      requires Countable() && Valid() && !eof && cursor >= 2
      modifies this`cursor, this`eof, this`warnings
      ensures Valid() && r.Ok? && !eof && cursor >= old(cursor)
      ensures UnicodeEscapeAt(old(cursor) - 2) ==>
        r == Ok(json[old(cursor) - 2..cursor]) && cursor == old(cursor) + 4 && warnings == old(warnings)
      ensures !UnicodeEscapeAt(old(cursor) - 2) ==> |warnings| > |old(warnings)|
    {
      Rollback(2);
      var escape := UnicodeEscape();
      if escape.Some? {
        return Ok(escape.value);
      }
      var output := Consume(2);
      Warn(InvalidUnicodeEscape);
      r := Ok(output);
    }

    /** One character of a string, or its end. */
    method StringCharacter(delimit: char, ghost hint: Option<seq<Piece>>)
      returns (complete: bool, r: Result<string>, ghost piece: Piece)
      requires Countable() && Valid() && !eof
      requires hint.Some? ==>
        delimit == '"' && PiecesValid(hint.value) && At(json, cursor, SpellPieces(hint.value) + "\"")
      modifies this`cursor, this`eof, this`warnings
      ensures Valid() && |warnings| >= |old(warnings)|
      ensures r.Ok? ==> !eof && cursor > old(cursor)
      ensures complete ==>
        old(cursor) < |json| && json[old(cursor)] == delimit && cursor == old(cursor) + 1 && warnings == old(warnings)
      ensures hint.Some? && hint.value == [] ==> complete && r.Ok?
      ensures hint.Some? && hint.value != [] ==>
        !complete && r == Ok(hint.value[0].Meaning(Kept)) && cursor == old(cursor) + |hint.value[0].Spell()|
          && warnings == old(warnings)
      ensures r.Ok? && !complete && |warnings| == |old(warnings)| && delimit == '"' ==>
        PieceRead(old(cursor), cursor, piece, r.value)
    {
      hide PieceRead;
      complete := false;
      ghost var start := cursor;
      var token := Consume(1);
      if hint.Some? { PieceAt(start, hint.value); }
      if eof {
        return false, Thrown(UnexpectedEnd), Plain(' ');
      }
      piece := Plain(token[0]);
      if token[0] == delimit {
        return true, Ok(""), piece;
      }
      if token[0] == '\\' {
        r, piece := EscapeSequence(delimit, if hint.Some? && hint.value != [] then Some(hint.value[0]) else None);
      } else {
        if IsControl(token[0]) {
          Warn(IllegalCharacter);
        } else if token[0] != '"' {
          PlainRead(start, token[0]);
        }
        assert token == [token[0]];
        r := Ok(token);
      }
    }

    lemma PlainRead(i: nat, c: char)
      requires i < |json| && json[i] == c && c != '"' && c != '\\' && !IsControl(c)
      ensures PieceRead(i, i + 1, Plain(c), [c])
    {
    }

    /** What the next character is, in a string written as a list of pieces. */
    lemma PieceAt(i: nat, pieces: seq<Piece>)
      requires PiecesValid(pieces) && At(json, i, SpellPieces(pieces) + "\"")
      ensures i < |json|
      ensures pieces == [] ==> json[i] == '"'
      ensures pieces != [] ==> json[i] == pieces[0].Spell()[0] && json[i] != '"' && At(json, i, pieces[0].Spell())
      ensures pieces != [] ==> (json[i] == '\\' <==> !pieces[0].Plain?) && (pieces[0].Plain? ==> !IsControl(json[i]))
      ensures pieces != [] ==> At(json, i + |pieces[0].Spell()|, SpellPieces(pieces[1..]) + "\"")
    {
      hide At, Piece.Valid, Piece.Spell, IsControl;
      AtFirst(json, i, SpellPieces(pieces) + "\"");
      if pieces != [] {
        var first, rest := pieces[0].Spell(), SpellPieces(pieces[1..]) + "\"";
        assert SpellPieces(pieces) + "\"" == first + rest;
        AtSplit(json, i, first, rest);
        AtFirst(json, i, first);
        assert pieces[0].Valid();
        PieceStarts(pieces[0]);
      }
    }

    lemma PieceStarts(p: Piece)
      requires p.Valid()
      ensures var c := p.Spell()[0]; c != '"' && (c == '\\' <==> !p.Plain?) && (p.Plain? ==> !IsControl(c))
    {
    }

    /** What is known of a string's characters when none has been warned of. */
    ghost predicate PiecesRead(i: nat, j: nat, pieces: seq<Piece>, text: string) {
      PiecesValid(pieces) && At(json, i, SpellPieces(pieces)) && j == i + |SpellPieces(pieces)|
        && text == TextOf(pieces, Kept)
    }

    lemma NoPieceRead(i: nat)
      requires i <= |json|
      ensures PiecesRead(i, i, [], "")
    {
    }

    lemma {:induction false} SpellLastPiece(pieces: seq<Piece>, p: Piece)
      ensures SpellPieces(pieces + [p]) == SpellPieces(pieces) + p.Spell()
    {
      hide Piece.Spell;
      if pieces == [] {
        assert pieces + [p] == [p] && [p][1..] == [];
      } else {
        SpellLastPiece(pieces[1..], p);
        assert (pieces + [p])[1..] == pieces[1..] + [p];
      }
    }

    lemma NextPieceRead(i: nat, j: nat, k: nat, pieces: seq<Piece>, text: string, p: Piece, more: string)
      requires PiecesRead(i, j, pieces, text) && PieceRead(j, k, p, more)
      ensures PiecesRead(i, k, pieces + [p], text + more)
    {
      hide Piece.Valid, Piece.Spell, Piece.Meaning;
      SpellLastPiece(pieces, p);
      assert (pieces + [p])[..|pieces|] == pieces;
      AtSplit(json, i, SpellPieces(pieces), p.Spell());
    }

    lemma StringRead(i: nat, j: nat, pieces: seq<Piece>, text: string)
      requires i < |json| && json[i] == '"' && PiecesRead(i + 1, j, pieces, text) && j < |json| && json[j] == '"'
      ensures At(json, i, Quoted(pieces)) && j + 1 == i + |Quoted(pieces)|
    {
      hide PiecesValid, SpellPieces, TextOf;
      assert At(json, i, "\"") && At(json, j, "\"");
      AtSplit(json, i, "\"", SpellPieces(pieces));
      AtSplit(json, i, "\"" + SpellPieces(pieces), "\"");
    }

    lemma NoPieces()
      ensures SpellPieces([]) == "" && TextOf([], Kept) == ""
    {
    }

    /** A string, from its delimiter on. */
    method TokenizeString(delimit: char, ghost hint: Option<seq<Piece>>)
      returns (r: Result<string>, ghost pieces: seq<Piece>)
      requires Countable() && Valid() && cursor < |json| && json[cursor] == delimit
      requires hint.Some? ==> delimit == '"' && PiecesValid(hint.value) && At(json, cursor, Quoted(hint.value))
      modifies this`cursor, this`eof, this`warnings
      ensures Valid() && |warnings| >= |old(warnings)|
      ensures r.Ok? ==> !eof && cursor > old(cursor)
      ensures hint.Some? ==>
        r == Ok(TextOf(hint.value, Kept)) && cursor == old(cursor) + |Quoted(hint.value)| && warnings == old(warnings)
      ensures forall s :: hint == Some(JsonWriting.PiecesOf(s)) ==> r == Ok(s)
      ensures r.Ok? && |warnings| == |old(warnings)| && delimit == '"' ==>
        PiecesValid(pieces) && At(json, old(cursor), Quoted(pieces)) && cursor == old(cursor) + |Quoted(pieces)|
          && r.value == TextOf(pieces, Kept)
    {
      hide At, PiecesValid, PieceRead, PiecesRead, Quoted, SpellPieces, TextOf, Piece.Spell, Piece.Meaning;
      JsonWriting.AllMeant();
      ghost var first := cursor;
      var output, complete := "", false;
      pieces := [];
      if hint.Some? { AfterQuote(cursor, hint.value); }
      NoPieceRead(first + 1);
      NoPieces();
      var _ := Consume(1);
      ghost var rest := if hint.Some? then hint.value else [];
      while !complete
        invariant Valid() && !eof && cursor > first && |warnings| >= |old(warnings)|
        invariant hint.Some? ==>
          PiecesValid(rest) && |rest| <= |hint.value| && rest == hint.value[|hint.value| - |rest|..]
        invariant hint.Some? ==>
          output == TextOf(hint.value[..|hint.value| - |rest|], Kept) && warnings == old(warnings)
        invariant hint.Some? && !complete ==> At(json, cursor, SpellPieces(rest) + "\"")
        invariant hint.Some? ==>
          cursor + |SpellPieces(rest)| + (if complete then 0 else 1) == first + |Quoted(hint.value)|
        invariant hint.Some? && complete ==> rest == []
        invariant |warnings| == |old(warnings)| && delimit == '"' && !complete ==>
          PiecesRead(first + 1, cursor, pieces, output)
        invariant complete ==> 1 <= cursor <= |json| && json[cursor - 1] == delimit
        invariant |warnings| == |old(warnings)| && delimit == '"' && complete ==>
          PiecesRead(first + 1, cursor - 1, pieces, output)
        decreases !complete, |json| - cursor
      {
        ghost var start, w := cursor, |warnings|;
        var done, part;
        ghost var piece;
        done, part, piece := StringCharacter(delimit, if hint.Some? then Some(rest) else None);
        if part.Thrown? {
          return Thrown(part.message), [];
        }
        complete := done;
        if !complete {
          if |warnings| == |old(warnings)| && delimit == '"' {
            NextPieceRead(first + 1, start, cursor, pieces, output, piece, part.value);
          }
          output, pieces := output + part.value, pieces + [piece];
          if hint.Some? {
            NextPiece(start, hint.value, rest);
            rest := rest[1..];
          }
        }
      }
      if |warnings| == |old(warnings)| && delimit == '"' {
        StringRead(first, cursor - 1, pieces, output);
        AllPiecesRead(first + 1, cursor - 1, pieces, output);
      }
      assert hint.Some? ==> hint.value[..|hint.value|] == hint.value;
      r := Ok(output);
    }

    lemma AllPiecesRead(i: nat, j: nat, pieces: seq<Piece>, text: string)
      requires PiecesRead(i, j, pieces, text)
      ensures PiecesValid(pieces) && text == TextOf(pieces, Kept)
    {
    }

    lemma AfterQuote(i: nat, pieces: seq<Piece>)
      requires At(json, i, Quoted(pieces))
      ensures At(json, i + 1, SpellPieces(pieces) + "\"") && |Quoted(pieces)| == |SpellPieces(pieces)| + 2
      ensures i + |Quoted(pieces)| <= |json|
    {
      assert Quoted(pieces) == "\"" + (SpellPieces(pieces) + "\"");
      AtSplit(json, i, "\"", SpellPieces(pieces) + "\"");
    }

    lemma NextPiece(i: nat, pieces: seq<Piece>, rest: seq<Piece>)
      requires PiecesValid(rest) && rest != [] && |rest| <= |pieces| && rest == pieces[|pieces| - |rest|..]
      requires At(json, i, SpellPieces(rest) + "\"")
      ensures PiecesValid(rest[1..]) && rest[1..] == pieces[|pieces| - |rest| + 1..]
      ensures TextOf(pieces[..|pieces| - |rest| + 1], Kept)
        == TextOf(pieces[..|pieces| - |rest|], Kept) + rest[0].Meaning(Kept)
      ensures At(json, i + |rest[0].Spell()|, SpellPieces(rest[1..]) + "\"")
      ensures |SpellPieces(rest)| == |rest[0].Spell()| + |SpellPieces(rest[1..])|
    {
      PieceAt(i, rest);
      var k := |pieces| - |rest|;
      assert pieces[..k + 1][..k] == pieces[..k] && pieces[k] == rest[0];
    }

    // ---------- Numbers ----------

    ghost predicate NoDigitAt(i: nat) {
      i < |json| ==> !IsDigit(json[i])
    }

    lemma CharacterAt(i: nat, s: string, k: nat)
      requires At(json, i, s) && k < |s|
      ensures json[i + k] == s[k]
    {
      assert json[i..i + |s|][k] == json[i + k];
    }

    /** Digits up to something else. */
    lemma DigitRun(i: nat, d: string, out: string)
      requires At(json, i, d) && AllDigits(d) && NoDigitAt(i + |d|)
      requires At(json, i, out) && AllDigits(out) && NoDigitAt(i + |out|)
      ensures out == d
    {
      if |out| < |d| {
        CharacterAt(i, d, |out|);
      } else if |d| < |out| {
        CharacterAt(i, out, |d|);
      }
    }

    /** Digits that are known. */
    method KnownDigits(ghost hint: Option<string>) returns (output: string)
      requires Valid() && !eof
      requires hint.Some? ==> AllDigits(hint.value) && At(json, cursor, hint.value) && NoDigitAt(cursor + |hint.value|)
      modifies this`cursor, this`eof
      ensures Valid() && !eof && cursor == old(cursor) + |output|
      ensures hint.Some? ==> output == hint.value
      ensures AllDigits(output) && At(json, old(cursor), output)
    {
      ghost var start := cursor;
      output := ConsumeDigits();
      if hint.Some? {
        DigitRun(start, hint.value, output);
      }
    }

    ghost predicate WholeRead(i: nat, whole: string) {
      whole != "" && AllDigits(whole) && (whole[0] == '0' ==> |whole| == 1) && At(json, i, whole)
    }

    /** A whole number. A leading zero is warned of. */
    method WholeNumber(ghost hint: Option<string>) returns (r: Result<string>)
      requires Countable() && Valid() && !eof
      requires hint.Some? ==> hint.value != "" && AllDigits(hint.value) && (hint.value[0] == '0' ==> |hint.value| == 1)
      requires hint.Some? ==> At(json, cursor, hint.value) && NoDigitAt(cursor + |hint.value|)
      modifies this`cursor, this`eof, this`warnings
      ensures Valid() && |warnings| >= |old(warnings)|
      ensures r.Ok? ==> !eof && cursor == old(cursor) + |r.value| && cursor > old(cursor)
      ensures hint.Some? ==> r == Ok(hint.value) && warnings == old(warnings)
      ensures r.Ok? && |warnings| == |old(warnings)| ==> WholeRead(old(cursor), r.value)
    {
      var token := Peek(1);
      ghost var start := cursor;
      if hint.Some? { AtFirst(json, start, hint.value); }
      if |token| == 1 && '1' <= token[0] <= '9' {
        var output := ConsumeDigits();
        if hint.Some? { DigitRun(start, hint.value, output); }
        SomeDigit(start, output);
        assert output[0] == json[start];
        return Ok(output);
      }
      if token != "0" {
        assert hint.None?;
        return Thrown(ExpectedNumber);
      }
      var output := Consume(1);
      if hint.Some? {
        assert hint.value == "0";
      }
      token := Peek(1);
      if |token| == 1 && '1' <= token[0] <= '9' {
        Warn(LeadingZero);
        var more := ConsumeDigits();
        output := output + more;
      }
      r := Ok(output);
    }

    lemma SomeDigit(i: nat, output: string)
      requires i < |json| && IsDigit(json[i]) && At(json, i, output) && NoDigitAt(i + |output|)
      ensures output != ""
    {
    }

    ghost predicate FractionAt(i: nat, fraction: string) {
      if fraction == "" then i < |json| ==> json[i] != '.'
      else At(json, i, "." + fraction) && AllDigits(fraction) && NoDigitAt(i + 1 + |fraction|)
    }

    function FractionText(digits: string): string {
      if digits == "" then "" else "." + digits
    }

    /** The fraction of a number, if it has one. */
    method Fraction(ghost hint: Option<string>) returns (output: string, ghost digits: string)
      requires Countable() && Valid() && !eof && (hint.Some? ==> FractionAt(cursor, hint.value))
      modifies this`cursor, this`eof, this`warnings
      ensures Valid() && !eof && cursor == old(cursor) + |output| && |warnings| >= |old(warnings)|
      ensures hint.Some? ==> output == FractionText(hint.value) && warnings == old(warnings)
      ensures |warnings| == |old(warnings)| ==>
        AllDigits(digits) && output == FractionText(digits) && At(json, old(cursor), output)
    {
      hide At, FractionAt, AllDigits, NoDigitAt;
      ghost var start := cursor;
      output, digits := "", "";
      NothingAt(start);
      NoDigits();
      var token := Peek(1);
      if hint.Some? { FractionParts(start, hint.value); }
      if token == "." {
        output := Consume(1);
        var more := KnownDigits(hint);
        if |more| == 0 {
          Warn(InvalidDecimalPoint);
        }
        PointRead(start, more);
        output, digits := output + more, more;
      }
    }

    lemma NoDigits()
      ensures AllDigits("")
    {
    }

    lemma PointRead(i: nat, digits: string)
      requires i < |json| && json[i] == '.' && At(json, i + 1, digits)
      ensures At(json, i, "." + digits)
    {
      assert At(json, i, ".");
      AtSplit(json, i, ".", digits);
    }

    lemma FractionParts(i: nat, fraction: string)
      requires FractionAt(i, fraction)
      ensures fraction == "" ==> i < |json| ==> json[i] != '.'
      ensures fraction != "" ==> i < |json| && json[i] == '.' && At(json, i + 1, fraction) && AllDigits(fraction)
      ensures fraction != "" ==> NoDigitAt(i + 1 + |fraction|)
    {
      hide AllDigits, NoDigitAt;
      if fraction != "" {
        AtSplit(json, i, ".", fraction);
        AtFirst(json, i, ".");
      }
    }

    ghost predicate ExponentAt(i: nat, e: Exponent) {
      if e.NoExponent? then i < |json| ==> json[i] !in "eE"
      else At(json, i, e.Spell()) && e.Valid() && NoDigitAt(i + |e.Spell()|)
    }

    /** The sign of an exponent, if it has one. */
    method ExponentSign(ghost hint: Option<string>) returns (sign: string)
      requires Valid() && !eof
      requires hint.Some? ==> hint.value == "" || hint.value == "+" || hint.value == "-"
      requires hint.Some? ==>
        At(json, cursor, hint.value) && cursor + |hint.value| < |json| && IsDigit(json[cursor + |hint.value|])
      modifies this`cursor, this`eof
      ensures Valid() && !eof && cursor == old(cursor) + |sign|
      ensures hint.Some? ==> sign == hint.value
      ensures (sign == "" || sign == "+" || sign == "-") && At(json, old(cursor), sign)
    {
      if hint.Some? && hint.value != "" { AtFirst(json, cursor, hint.value); }
      var token := Peek(1);
      sign := "";
      if token == "+" || token == "-" {
        sign := Consume(1);
      }
    }

    lemma NoExponentRead()
      ensures NoExponent.Valid() && NoExponent.Spell() == ""
    {
    }

    /** The exponent of a number, if it has one. */
    method ExponentPart(ghost hint: Option<Exponent>) returns (r: Result<string>, ghost e: Exponent)
      requires Valid() && !eof && (hint.Some? ==> ExponentAt(cursor, hint.value))
      modifies this`cursor, this`eof
      ensures Valid()
      ensures r.Ok? ==> !eof && cursor == old(cursor) + |r.value|
      ensures hint.Some? ==> r == Ok(hint.value.Spell())
      ensures r.Ok? ==> e.Valid() && r.value == e.Spell() && At(json, old(cursor), r.value)
    {
      hide At, NoDigitAt, ExponentAt, Exponent.Valid, Exponent.Spell;
      ghost var start := cursor;
      if hint.Some? { ExponentParts(cursor, hint.value); }
      NothingAt(cursor);
      NoExponentRead();
      var token := Peek(1);
      if token != "e" && token != "E" {
        return Ok(""), NoExponent;
      }
      var letter := Consume(1);
      var sign := ExponentSign(if hint.Some? then Some(hint.value.sign) else None);
      var digits := KnownDigits(if hint.Some? then Some(hint.value.digits) else None);
      if |digits| == 0 {
        return Thrown(InvalidExponent), NoExponent;
      }
      e := Exponent(letter[0], sign, digits);
      ExponentRead(start, e);
      r := Ok(letter + sign + digits);
    }

    lemma NothingAt(i: nat)
      requires i <= |json|
      ensures At(json, i, "")
    {
    }

    lemma ExponentRead(i: nat, e: Exponent)
      requires e.Exponent? && i < |json| && json[i] == e.letter && At(json, i + 1, e.sign)
        && At(json, i + 1 + |e.sign|, e.digits)
      requires e.letter in "eE" && (e.sign == "" || e.sign == "+" || e.sign == "-") && e.digits != ""
        && AllDigits(e.digits)
      ensures e.Valid() && e.Spell() == [e.letter] + e.sign + e.digits && At(json, i, e.Spell())
    {
      hide AllDigits;
      assert At(json, i, [e.letter]);
      AtSplit(json, i, [e.letter], e.sign);
      AtSplit(json, i, [e.letter] + e.sign, e.digits);
    }

    lemma ExponentParts(i: nat, e: Exponent)
      requires ExponentAt(i, e)
      ensures e.NoExponent? ==> i < |json| ==> json[i] !in "eE"
      ensures e.Exponent? ==>
        i < |json| && json[i] == e.letter && At(json, i + 1, e.sign) && At(json, i + 1 + |e.sign|, e.digits)
      ensures e.Exponent? ==> AllDigits(e.digits) && e.digits != "" && e.letter in "eE"
      ensures e.Exponent? ==>
        i + 1 + |e.sign| < |json| && json[i + 1 + |e.sign|] == e.digits[0] && NoDigitAt(i + 1 + |e.sign| + |e.digits|)
      ensures e.Exponent? && e.sign != "" ==> json[i + 1] == e.sign[0]
      ensures e.Spell() == if e.NoExponent? then "" else [e.letter] + e.sign + e.digits
      ensures e.Exponent? ==> e.sign == "" || e.sign == "+" || e.sign == "-"
    {
      hide At, AllDigits;
      if e.Exponent? {
        var s := [e.letter];
        assert e.Spell() == s + (e.sign + e.digits);
        AtSplit(json, i, s, e.sign + e.digits);
        AtSplit(json, i + 1, e.sign, e.digits);
        AtFirst(json, i, s);
        AtFirst(json, i + 1 + |e.sign|, e.digits);
        if e.sign != "" { AtFirst(json, i + 1, e.sign); }
      }
    }

    /** A value ends here: the text does, or white space, a comma or a closing bracket comes. */
    ghost predicate ValueEnds(i: nat) {
      i < |json| ==> IsWhite(json[i]) || json[i] in ",]}"
    }

    lemma NoMoreNumber(i: nat)
      requires ValueEnds(i)
      ensures i < |json| ==> !IsDigit(json[i]) && json[i] != '.' && json[i] !in "eE"
    {
    }

    lemma FourParts(i: nat, a: string, b: string, c: string, d: string)
      requires At(json, i, a + b + c + d)
      ensures At(json, i, a) && At(json, i + |a|, b) && At(json, i + |a + b|, c) && At(json, i + |a + b + c|, d)
    {
      hide At;
      AtSplit(json, i, a + b + c, d);
      AtSplit(json, i, a + b, c);
      AtSplit(json, i, a, b);
    }

    lemma FirstIfAny(i: nat, s: string)
      requires At(json, i, s)
      ensures s != "" ==> i < |json| && json[i] == s[0]
    {
      if s != "" { AtFirst(json, i, s); }
    }

    /** Where the parts of a number are. */
    lemma NumeralParts(i: nat, n: Numeral)
      requires n.Valid() && At(json, i, n.Spell()) && ValueEnds(i + |n.Spell()|)
      ensures i < |json| && (json[i] == '-' <==> n.negative)
      ensures var j := if n.negative then i + 1 else i;
        && j < |json| && json[j] == n.whole[0] && At(json, j, n.whole) && NoDigitAt(j + |n.whole|)
        && FractionAt(j + |n.whole|, n.fraction)
        && ExponentAt(j + |n.whole| + (if n.fraction == "" then 0 else 1 + |n.fraction|), n.exponent)
    {
      hide IsWhite, At, ValueEnds, FractionAt, ExponentAt, Exponent.Spell, Exponent.Valid;
      var sign := if n.negative then "-" else "";
      var fraction := if n.fraction == "" then "" else "." + n.fraction;
      var e := n.exponent.Spell();
      var j := i + |sign|;
      NoMoreNumber(i + |n.Spell()|);
      FourParts(i, sign, n.whole, fraction, e);
      FirstIfAny(i, sign);
      FirstIfAny(j, n.whole);
      FirstIfAny(j + |n.whole|, fraction);
      FirstIfAny(j + |n.whole| + |fraction|, e);
      PartsEnd(j, n, fraction, e);
    }

    lemma PartsEnd(j: nat, n: Numeral, fraction: string, e: string)
      requires n.Valid() && e == n.exponent.Spell() && fraction == if n.fraction == "" then "" else "." + n.fraction
      requires At(json, j, n.whole) && At(json, j + |n.whole|, fraction) && At(json, j + |n.whole| + |fraction|, e)
      requires var k := j + |n.whole| + |fraction| + |e|;
        k < |json| ==> !IsDigit(json[k]) && json[k] != '.' && json[k] !in "eE"
      requires fraction != "" ==> j + |n.whole| < |json| && json[j + |n.whole|] == '.'
      requires e != "" ==> var k := j + |n.whole| + |fraction|; k < |json| && json[k] == e[0]
      ensures NoDigitAt(j + |n.whole|) && FractionAt(j + |n.whole|, n.fraction)
      ensures ExponentAt(j + |n.whole| + |fraction|, n.exponent)
    {
      hide At;
    }

    lemma NumeralRead(i: nat, n: Numeral, sign: string, fraction: string)
      requires sign == (if n.negative then "-" else "") && fraction == FractionText(n.fraction)
      requires At(json, i, sign) && WholeRead(i + |sign|, n.whole) && AllDigits(n.fraction) && n.exponent.Valid()
      requires At(json, i + |sign| + |n.whole|, fraction)
      requires At(json, i + |sign| + |n.whole| + |fraction|, n.exponent.Spell())
      ensures n.Valid() && At(json, i, n.Spell()) && n.Spell() == sign + n.whole + fraction + n.exponent.Spell()
    {
      hide At, AllDigits, Exponent.Valid, Exponent.Spell;
      AtSplit(json, i, sign, n.whole);
      AtSplit(json, i, sign + n.whole, fraction);
      AtSplit(json, i, sign + n.whole + fraction, n.exponent.Spell());
    }

    lemma NumeralSign(i: nat)
      requires i < |json| && json[i] == '-'
      ensures At(json, i, "-")
    {
    }

    lemma NumeralText(n: Numeral)
      ensures n.Spell() == (if n.negative then "-" else "") + n.whole + FractionText(n.fraction) + n.exponent.Spell()
    {
    }

    lemma Regrouped(s: string, t: string, u: string)
      ensures s + (t + u) == s + t + u
    {
    }

    /** The fraction and the exponent. */
    method NumberRest(ghost hint: Option<Numeral>) returns (r: Result<string>, ghost digits: string, ghost e: Exponent)
      requires Countable() && Valid() && !eof && (hint.Some? ==> FractionAt(cursor, hint.value.fraction))
      requires hint.Some? ==>
        ExponentAt(cursor + (if hint.value.fraction == "" then 0 else 1 + |hint.value.fraction|), hint.value.exponent)
      modifies this`cursor, this`eof, this`warnings
      ensures Valid() && |warnings| >= |old(warnings)|
      ensures r.Ok? ==> !eof && cursor == old(cursor) + |r.value|
      ensures hint.Some? ==> warnings == old(warnings)
      ensures hint.Some? ==>
        r == Ok(FractionText(hint.value.fraction) + hint.value.exponent.Spell())
      ensures r.Ok? && |warnings| == |old(warnings)| ==> AllDigits(digits) && e.Valid()
      ensures r.Ok? && |warnings| == |old(warnings)| ==> var fraction := FractionText(digits);
        && r.value == fraction + e.Spell() && At(json, old(cursor), fraction)
        && At(json, old(cursor) + |fraction|, e.Spell())
    {
      hide At, FractionAt, ExponentAt, AllDigits, Exponent.Valid, Exponent.Spell;
      var fraction, exponent;
      fraction, digits := Fraction(if hint.Some? then Some(hint.value.fraction) else None);
      exponent, e := ExponentPart(if hint.Some? then Some(hint.value.exponent) else None);
      r := if exponent.Ok? then Ok(fraction + exponent.value) else exponent;
    }

    /** A number, kept as it is written. */
    method TokenizeNumber(ghost hint: Option<Numeral>) returns (r: Result<Value>, ghost n: Numeral)
      requires Countable() && Valid() && cursor < |json|
      requires hint.Some? ==>
        hint.value.Valid() && At(json, cursor, hint.value.Spell()) && ValueEnds(cursor + |hint.value.Spell()|)
      modifies this`cursor, this`eof, this`warnings
      ensures Valid() && |warnings| >= |old(warnings)|
      ensures r.Ok? ==> !eof && cursor > old(cursor)
      ensures hint.Some? ==>
        r == Ok(Number(hint.value.Spell())) && cursor == old(cursor) + |hint.value.Spell()| && warnings == old(warnings)
      ensures r.Ok? && |warnings| == |old(warnings)| ==>
        n.Valid() && At(json, old(cursor), n.Spell()) && cursor == old(cursor) + |n.Spell()|
          && r.value == Number(n.Spell())
    {
      hide At, ValueEnds, FractionAt, ExponentAt, AllDigits, Exponent.Valid, Exponent.Spell, WholeRead;
      hide Numeral.Valid, Numeral.Spell, FractionText;
      n := Numeral(false, "", "", NoExponent);
      var output := "";
      ghost var start := cursor;
      if hint.Some? { NumeralParts(cursor, hint.value); WholeOf(hint.value); NumeralText(hint.value); }
      NothingAt(cursor);
      if Peek(1) == "-" {
        output := Consume(1);
        NumeralSign(start);
      }
      var whole := WholeNumber(if hint.Some? then Some(hint.value.whole) else None);
      if whole.Thrown? {
        return Thrown(whole.message), n;
      }
      var rest;
      ghost var digits, e;
      rest, digits, e := NumberRest(hint);
      if rest.Thrown? {
        return Thrown(rest.message), n;
      }
      n := Numeral(output == "-", whole.value, digits, e);
      if |warnings| == |old(warnings)| { NumeralRead(start, n, output, FractionText(digits)); }
      Regrouped(output + whole.value, FractionText(n.fraction), e.Spell());
      if hint.Some? { Regrouped(output + whole.value, FractionText(hint.value.fraction), hint.value.exponent.Spell()); }
      r := Ok(Number(output + whole.value + rest.value));
    }

    lemma WholeOf(n: Numeral)
      requires n.Valid()
      ensures n.whole != "" && AllDigits(n.whole) && (n.whole[0] == '0' ==> |n.whole| == 1)
    {
    }

    // ---------- Values ----------

    /** The text from i on spells doc. */
    ghost predicate DocAt(i: nat, doc: Doc) {
      JsonText.Valid(doc) && At(json, i, Spell(doc)) && ValueEnds(i + |Spell(doc)|)
    }

    /** White space that is known. */
    method SkipWhite(ghost hint: Option<string>) returns (more: bool, ghost w: string)
      requires Valid()
      requires hint.Some? ==> AllWhite(hint.value) && At(json, cursor, hint.value)
      requires hint.Some? ==> cursor + |hint.value| < |json| && !IsWhite(json[cursor + |hint.value|])
      modifies this`cursor, this`eof
      ensures Valid() && cursor >= old(cursor) && (more <==> !eof) && (more ==> cursor < |json|)
      ensures hint.Some? ==> more && cursor == old(cursor) + |hint.value|
      ensures more ==> AllWhite(w) && At(json, old(cursor), w) && cursor == old(cursor) + |w|
    {
      hide IsWhite;
      ghost var start := cursor;
      if hint.Some? { NotAllWhite(start, hint.value); }
      more := ConsumeWhitespace();
      if hint.Some? && more {
        WhiteRun(json, start, hint.value, cursor);
      }
      w := if more then json[start..cursor] else "";
    }

    lemma NotAllWhite(i: nat, w: string)
      requires At(json, i, w) && i + |w| < |json| && !IsWhite(json[i + |w|])
      ensures !AllWhite(json[i..])
    {
      assert json[i..][|w|] == json[i + |w|];
    }

    /** Where an element and what follows it are. */
    ghost predicate ElementAt(i: nat, v: Doc, after: string, separator: char) {
      var k := i + |Spell(v)|;
      && DocAt(i, v) && At(json, k, after) && AllWhite(after)
      && k + |after| < |json| && json[k + |after|] == separator && !IsWhite(separator)
    }

    lemma ElementParts(i: nat, v: Doc, after: string, separator: char, rest: string)
      requires JsonText.Valid(v) && AllWhite(after) && separator in ",]}"
      requires At(json, i, Element(Spell(v), after, separator, rest))
      ensures ElementAt(i, v, after, separator) && At(json, i + |Spell(v)| + |after| + 1, rest)
    {
      hide IsWhite, At, JsonText.Valid, Spell, ValueEnds;
      FourParts(i, Spell(v), after, [separator], rest);
      FirstIfAny(i + |Spell(v) + after|, [separator]);
      NotWhite(separator);
      EndsValue(i + |Spell(v)|, after, separator);
    }

    /** Where the next element of an array is. */
    ghost predicate NextItem(i: nat, items: seq<Item>)
      requires items != []
    {
      var n := i + |items[0].before|;
      && At(json, i, items[0].before) && AllWhite(items[0].before) && At(json, n, SpellItems(items))
      && n < |json| && StartsValue(json[n]) && !IsWhite(json[n])
    }

    lemma NextItemAt(i: nat, items: seq<Item>)
      requires items != [] && ItemValid(items[0]) && At(json, i, items[0].before + SpellItems(items))
      ensures NextItem(i, items)
    {
      hide IsWhite, At;
      AtSplit(json, i, items[0].before, SpellItems(items));
      ItemsStart(i + |items[0].before|, items);
      NotWhite(json[i + |items[0].before|]);
    }

    /** Where the parts of the rest of an array are. */
    lemma ItemParts(i: nat, items: seq<Item>)
      requires items != [] && (forall k :: 0 <= k < |items| ==> ItemValid(items[k])) && At(json, i, SpellItems(items))
      ensures ElementAt(i, items[0].value, items[0].after, if |items| == 1 then ']' else ',')
      ensures var m := i + |Spell(items[0].value)| + |items[0].after|;
        && (|items| == 1 ==> |SpellItems(items)| == m + 1 - i)
        && (|items| > 1 ==>
          NextItem(m + 1, items[1..])
          && |SpellItems(items)| == m + 1 - i + |items[1].before| + |SpellItems(items[1..])|)
    {
      hide IsWhite, At, JsonText.Valid, ElementAt, NextItem;
      var v, after := items[0].value, items[0].after;
      assert ItemValid(items[0]);
      if |items| == 1 {
        ElementParts(i, v, after, ']', "");
      } else {
        assert ItemValid(items[1]);
        var rest := items[1].before + SpellItems(items[1..]);
        ElementParts(i, v, after, ',', rest);
        NextItemAt(i + |Spell(v)| + |after| + 1, items[1..]);
      }
    }

    lemma ItemsStart(i: nat, items: seq<Item>)
      requires items != [] && ItemValid(items[0]) && At(json, i, SpellItems(items))
      ensures i < |json| && StartsValue(json[i])
    {
      SpellStarts(items[0].value);
      AtFirst(json, i, SpellItems(items));
      assert SpellItems(items)[0] == Spell(items[0].value)[0];
    }

    /** White space and a separator end a value. */
    lemma EndsValue(k: nat, after: string, c: char)
      requires At(json, k, after) && AllWhite(after) && k + |after| < |json| && json[k + |after|] == c && c in ",]}"
      ensures ValueEnds(k)
    {
      hide IsWhite;
      if after != "" { AtFirst(json, k, after); }
    }

    /** Where a member's name and value are. */
    ghost predicate NameAt(i: nat, m: Member) {
      var k := i + |Quoted(m.name)|;
      var j := k + |m.mid| + 1;
      && PiecesValid(m.name) && At(json, i, Quoted(m.name)) && At(json, k, m.mid) && AllWhite(m.mid)
      && j <= |json| && json[j - 1] == ':' && !IsWhite(':')
      && At(json, j, m.between) && AllWhite(m.between)
      && j + |m.between| < |json| && StartsValue(json[j + |m.between|]) && !IsWhite(json[j + |m.between|])
    }

    ghost predicate NextMember(i: nat, members: seq<Member>)
      requires members != []
    {
      var n := i + |members[0].before|;
      && At(json, i, members[0].before) && AllWhite(members[0].before) && At(json, n, SpellMembers(members))
      && n < |json| && json[n] == '"' && !IsWhite('"')
    }

    lemma NextMemberAt(i: nat, members: seq<Member>)
      requires members != [] && MemberValid(members[0]) && At(json, i, members[0].before + SpellMembers(members))
      ensures NextMember(i, members)
    {
      hide IsWhite, At;
      AtSplit(json, i, members[0].before, SpellMembers(members));
      AtFirst(json, i + |members[0].before|, SpellMembers(members));
      assert SpellMembers(members)[0] == Quoted(members[0].name)[0] == '"';
      NotWhite('"');
    }

    lemma NameParts(i: nat, m: Member, separator: char, rest: string)
      requires MemberValid(m)
      requires At(json, i, Named(Quoted(m.name), m.mid, m.between, Element(Spell(m.value), m.after, separator, rest)))
      ensures NameAt(i, m)
      ensures At(json, i + |Quoted(m.name)| + |m.mid| + 1 + |m.between|,
        Element(Spell(m.value), m.after, separator, rest))
    {
      hide IsWhite, At, Quoted, Spell, JsonText.Valid, Element;
      var k, element := i + |Quoted(m.name)|, Element(Spell(m.value), m.after, separator, rest);
      FourParts(i, Quoted(m.name), m.mid, ":", m.between + element);
      FirstIfAny(k + |m.mid|, ":");
      NotWhite(':');
      AtSplit(json, k + |m.mid| + 1, m.between, element);
      ElementStart(k + |m.mid| + 1 + |m.between|, m.value, m.after, separator, rest);
    }

    lemma ElementStart(i: nat, v: Doc, after: string, separator: char, rest: string)
      requires JsonText.Valid(v) && At(json, i, Element(Spell(v), after, separator, rest))
      ensures i < |json| && StartsValue(json[i]) && !IsWhite(json[i])
    {
      hide IsWhite, JsonText.Valid;
      SpellStarts(v);
      AtFirst(json, i, Element(Spell(v), after, separator, rest));
      NotWhite(json[i]);
    }

    /** Where the parts of the rest of an object are. */
    lemma MemberParts(i: nat, members: seq<Member>)
      requires members != [] && (forall k :: 0 <= k < |members| ==> MemberValid(members[k]))
        && At(json, i, SpellMembers(members))
      ensures NameAt(i, members[0])
      ensures var m := members[0]; var j := i + |Quoted(m.name)| + |m.mid| + 1 + |m.between|;
        ElementAt(j, m.value, m.after, if |members| == 1 then '}' else ',')
      ensures var m := members[0];
        var n := i + |Quoted(m.name)| + |m.mid| + 1 + |m.between| + |Spell(m.value)| + |m.after| + 1;
        && (|members| == 1 ==> |SpellMembers(members)| == n - i)
        && (|members| > 1 ==>
          NextMember(n, members[1..])
          && |SpellMembers(members)| == n - i + |members[1].before| + |SpellMembers(members[1..])|)
    {
      hide IsWhite, At, JsonText.Valid, ElementAt, NameAt, NextMember, Quoted, Spell, Named, Element, MemberValid;
      var m := members[0];
      assert MemberValid(m);
      if |members| == 1 {
        MemberAndRest(i, m, '}', "");
      } else {
        assert MemberValid(members[1]);
        MemberAndRest(i, m, ',', members[1].before + SpellMembers(members[1..]));
        NextMemberAt(i + |Quoted(m.name)| + |m.mid| + 1 + |m.between| + |Spell(m.value)| + |m.after| + 1, members[1..]);
      }
    }

    lemma MemberAndRest(i: nat, m: Member, separator: char, rest: string)
      requires MemberValid(m) && separator in ",]}"
      requires At(json, i, Named(Quoted(m.name), m.mid, m.between, Element(Spell(m.value), m.after, separator, rest)))
      ensures var j := i + |Quoted(m.name)| + |m.mid| + 1 + |m.between|;
        && NameAt(i, m) && ElementAt(j, m.value, m.after, separator)
        && At(json, j + |Spell(m.value)| + |m.after| + 1, rest)
        && |Named(Quoted(m.name), m.mid, m.between, Element(Spell(m.value), m.after, separator, rest))|
           == j + |Spell(m.value)| + |m.after| + 1 - i + |rest|
    {
      hide IsWhite, At, JsonText.Valid, ElementAt, NameAt, Quoted, Spell;
      NameParts(i, m, separator, rest);
      ElementParts(i + |Quoted(m.name)| + |m.mid| + 1 + |m.between|, m.value, m.after, separator, rest);
    }

    /** White space and the closing bracket, or white space, a comma and more white space. */
    ghost predicate AfterAt(i: nat, closing: char, after: string, before: Option<string>) {
      var m := i + |after|;
      && At(json, i, after) && AllWhite(after) && m < |json| && !IsWhite(json[m])
        && json[m] == (if before.None? then closing else ',')
      && (before.Some? ==>
           At(json, m + 1, before.value) && AllWhite(before.value) && m + 1 + |before.value| < |json|
             && !IsWhite(json[m + 1 + |before.value|]))
    }

    /** White space, a separator and white space have been read. */
    ghost predicate AfterRead(i: nat, j: nat, separator: char, w1: string, w2: string) {
      AllWhite(w1) && AllWhite(w2) && At(json, i, w1 + [separator] + w2) && j == i + |w1| + 1 + |w2|
    }

    lemma SeparatorRead(i: nat, separator: char, w1: string, w2: string)
      requires AllWhite(w1) && At(json, i, w1) && i + |w1| < |json| && json[i + |w1|] == separator
      requires w2 != "" ==> AllWhite(w2) && At(json, i + |w1| + 1, w2)
      ensures AfterRead(i, i + |w1| + 1 + |w2|, separator, w1, w2)
    {
      hide IsWhite;
      assert At(json, i + |w1|, [separator]);
      AtSplit(json, i, w1, [separator]);
      AtSplit(json, i, w1 + [separator], w2);
    }

    /** After an element: the closing bracket, or a comma and white space. */
    method AfterElement(closing: char, ghost after: Option<string>, ghost before: Option<string>)
      returns (s: Separator, ghost w1: string, ghost w2: string)
      requires Valid() && closing != ',' && (after.Some? ==> AfterAt(cursor, closing, after.value, before))
      modifies this`cursor, this`eof
      ensures Valid() && cursor >= old(cursor) && (s.Closed? ==> !eof) && (s.Comma? ==> cursor < |json|)
      ensures after.Some? && before.None? ==> s.Closed? && cursor == old(cursor) + |after.value| + 1
      ensures after.Some? && before.Some? ==> s.Comma? && cursor == old(cursor) + |after.value| + 1 + |before.value|
      ensures !s.Failed? ==> AfterRead(old(cursor), cursor, if s.Comma? then ',' else closing, w1, w2)
      ensures s.Closed? ==> w2 == ""
    {
      hide At, IsWhite, AllWhite, AfterRead;
      ghost var start := cursor;
      w2 := "";
      var ws;
      ws, w1 := SkipWhite(after);
      if !ws {
        return Failed(UnexpectedEnd), "", "";
      }
      ghost var k := cursor;
      var token := Consume(1);
      if token == [closing] {
        SeparatorRead(start, closing, w1, "");
        return Closed, w1, "";
      }
      if token != "," {
        return Failed(ExpectedComma), "", "";
      }
      ws, w2 := SkipWhite(if after.Some? then before else None);
      if ws { SeparatorRead(start, ',', w1, w2); }
      s := if ws then Comma else Failed(UnexpectedEnd);
    }

    // ---------- Arrays ----------

    ghost predicate ItemsAt(i: nat, items: seq<Item>) {
      items != [] && (forall k :: 0 <= k < |items| ==> ItemValid(items[k])) && At(json, i, SpellItems(items))
    }

    ghost function BeforeSecond(items: seq<Item>): Option<string> {
      if |items| > 1 then Some(items[1].before) else None
    }

    lemma ItemFacts(i: nat, items: seq<Item>)
      requires ItemsAt(i, items)
      ensures items != [] && DocAt(i, items[0].value)
      ensures var k := i + |Spell(items[0].value)|; var m := k + |items[0].after|;
        && AfterAt(k, ']', items[0].after, BeforeSecond(items))
        && (|items| == 1 ==> m + 1 == i + |SpellItems(items)|)
        && (|items| > 1 ==>
             var n := m + 1 + |items[1].before|;
             n < |json| && ItemsAt(n, items[1..]) && StartsValue(json[n])
               && n + |SpellItems(items[1..])| == i + |SpellItems(items)|)
    {
      hide At, IsWhite, StartsValue, DocAt, Spell, SpellItems, ItemValid, AllWhite;
      ItemParts(i, items);
    }

    /** What is known of a value that has been read without a warning. */
    ghost predicate DocRead(i: nat, j: nat, doc: Doc, value: Value) {
      && JsonText.Valid(doc) && Quiet(doc) && At(json, i, Spell(doc)) && j == i + |Spell(doc)|
      && value == Made(doc)
    }

    /** ... and of an element with what follows it. */
    ghost predicate ElementRead(i: nat, j: nat, separator: char, doc: Doc, w1: string, w2: string, value: Value) {
      && JsonText.Valid(doc) && Quiet(doc) && value == Made(doc) && AllWhite(w1) && AllWhite(w2)
      && At(json, i, Element(Spell(doc), w1, separator, w2)) && j == i + |Element(Spell(doc), w1, separator, w2)|
    }

    lemma ElementIsRead(i: nat, j: nat, k: nat, separator: char, doc: Doc, w1: string, w2: string, value: Value)
      requires DocRead(i, j, doc, value) && AfterRead(j, k, separator, w1, w2)
      ensures ElementRead(i, k, separator, doc, w1, w2, value)
    {
      hide JsonText.Valid, Quiet, Made, Spell, AllWhite;
      AtSplit(json, i, Spell(doc), w1 + [separator] + w2);
      assert Spell(doc) + (w1 + [separator] + w2) == Element(Spell(doc), w1, separator, w2);
    }

    /** An element of an array and what follows it, up to the next element or past the closing bracket. */
    method ArrayElement(ghost hint: Option<seq<Item>>)
      returns (more: bool, r: Result<Value>, ghost doc: Doc, ghost w1: string, ghost w2: string)
      requires Countable() && Valid() && cursor < |json|
      requires hint.Some? ==> hint.value != [] && ItemsAt(cursor, hint.value) && ItemsQuiet(hint.value)
      modifies this`cursor, this`eof, this`warnings
      ensures Valid() && |warnings| >= |old(warnings)|
      ensures r.Ok? ==> !eof && cursor > old(cursor) && (more ==> cursor < |json|)
      ensures hint.Some? ==>
        r == Ok(Made(hint.value[0].value)) && warnings == old(warnings) && (more <==> |hint.value| > 1)
      ensures hint.Some? && more ==> ItemsAt(cursor, hint.value[1..]) && StartsValue(json[cursor])
      ensures hint.Some? && more ==> cursor + |SpellItems(hint.value[1..])| == old(cursor) + |SpellItems(hint.value)|
      ensures hint.Some? && !more ==> cursor == old(cursor) + |SpellItems(hint.value)|
      ensures r.Ok? && |warnings| == |old(warnings)| ==>
        ElementRead(old(cursor), cursor, if more then ',' else ']', doc, w1, w2, r.value) && (!more ==> w2 == "")
      decreases |json| - cursor, 2
    {
      hide ItemsAt, DocAt, AfterAt, StartsValue, Spell, Made, SpellItems, Quiet, AfterRead, DocRead, ElementRead;
      more, w1, w2 := false, "", "";
      ghost var start := cursor;
      if hint.Some? { ItemFacts(cursor, hint.value); FirstQuiet(hint.value); }
      r, doc := Tokenize(if hint.Some? then Some(hint.value[0].value) else None);
      if r.Thrown? {
        return;
      }
      if eof {
        return false, Thrown(UnexpectedEnd), doc, "", "";
      }
      ghost var k := cursor;
      var s;
      s, w1,
        w2 := AfterElement(']', if hint.Some? then Some(hint.value[0].after) else None, if hint.Some?
        then BeforeSecond(hint.value) else None);
      if s.Failed? {
        return false, Thrown(s.message), doc, "", "";
      }
      more := s.Comma?;
      if |warnings| == |old(warnings)| {
        ElementIsRead(start, k, cursor, if more then ',' else ']', doc, w1, w2, r.value);
      }
    }

    predicate ItemsQuiet(items: seq<Item>) {
      forall i :: 0 <= i < |items| ==> QuietItem(items[i])
    }

    lemma FirstQuiet(items: seq<Item>)
      requires items != [] && ItemsQuiet(items)
      ensures Quiet(items[0].value) && ItemsQuiet(items[1..])
    {
      assert QuietItem(items[0]);
    }

    /** Warns of missing elements. The array may end with one. */
    method EmptyElements() returns (closed: bool, ok: bool)
      requires Countable() && Valid() && cursor < |json|
      modifies this`cursor, this`eof, this`warnings
      ensures Valid() && cursor >= old(cursor) && |warnings| >= |old(warnings)|
      ensures ok ==> !eof && (closed ==> cursor > old(cursor)) && (!closed ==> cursor < |json|)
      ensures old(json[cursor]) != ',' ==> ok && !closed && cursor == old(cursor) && warnings == old(warnings)
      ensures old(json[cursor]) == ',' ==> |warnings| > |old(warnings)|
    {
      closed, ok := false, true;
      var token := Peek(1);
      while token == ","
        invariant Valid() && old(cursor) <= cursor < |json| && token == Peek(1) && |warnings| >= |old(warnings)|
        invariant old(json[cursor]) != ',' ==> cursor == old(cursor) && warnings == old(warnings)
        invariant old(json[cursor]) == ',' && token != "," ==> |warnings| > |old(warnings)|
        decreases |json| - cursor
      {
        var _ := Consume(1);
        Warn(EmptyElement);
        var ws;
        ghost var w;
        ws, w := SkipWhite(None);
        if !ws {
          return false, false;
        }
        token := Peek(1);
        if token == "]" {
          var _ := Consume(1);
          return true, true;
        }
      }
    }

    /** What is known of an array whose first elements have been read. */
    ghost predicate ArrayRead(start: nat, items: seq<Item>, rest: seq<Item>, output: seq<Value>, i: nat, end: nat) {
      && |rest| <= |items| && rest == items[|items| - |rest|..] && output == MadeItems(items[..|items| - |rest|])
      && (rest != [] ==> ItemsAt(i, rest) && i < |json| && StartsValue(json[i]) && i + |SpellItems(rest)| == end)
      && (rest == [] ==> i == end)
    }

    lemma ArrayNext(start: nat, items: seq<Item>, rest: seq<Item>, output: seq<Value>, i: nat, end: nat, j: nat)
      requires ArrayRead(start, items, rest, output, i, end) && rest != []
      requires |rest| > 1 ==>
        ItemsAt(j, rest[1..]) && j < |json| && StartsValue(json[j]) && j + |SpellItems(rest[1..])| == end
      requires |rest| == 1 ==> j == end
      ensures ArrayRead(start, items, rest[1..], output + [Made(rest[0].value)], j, end)
    {
      hide ItemsAt, StartsValue;
      var k := |items| - |rest|;
      assert items[..k + 1][..k] == items[..k] && items[k] == rest[0];
    }

    /** What follows the bracket of an array. */
    lemma ArrayStarts(i: nat, doc: Doc)
      requires DocAt(i, doc) && doc.DocArray?
      ensures At(json, i + 1, FirstSpace(doc)) && AllWhite(FirstSpace(doc))
      ensures var j := i + 1 + |FirstSpace(doc)|;
        j < |json| && !IsWhite(json[j]) && (json[j] == ']' <==> doc.items == [])
      ensures var j := i + 1 + |FirstSpace(doc)|; doc.items == [] ==> |Spell(doc)| == j + 1 - i
      ensures var j := i + 1 + |FirstSpace(doc)|;
        doc.items != [] ==>
          ItemsAt(j, doc.items) && StartsValue(json[j]) && |Spell(doc)| == j - i + |SpellItems(doc.items)|
      ensures Made(doc) == Array(MadeItems(doc.items)) && MadeItems([]) == []
    {
      hide At, IsWhite, NextItem;
      if doc.items == [] {
        assert Spell(doc) == "[" + doc.space + "]" + "";
        FourParts(i, "[", doc.space, "]", "");
        FirstIfAny(i + 1 + |doc.space|, "]");
        NotWhite(']');
      } else {
        assert ItemValid(doc.items[0]);
        AtSplit(json, i, "[", doc.items[0].before + SpellItems(doc.items));
        NextItemAt(i + 1, doc.items);
        AtSplit(json, i + 1, doc.items[0].before, SpellItems(doc.items));
        NextItemFacts(i + 1, doc.items);
      }
    }

    lemma EmptyArrayRead(i: nat, j: nat, w: string)
      requires AllWhite(w) && At(json, i, "[" + w) && j == i + 1 + |w| && j < |json| && json[j] == ']'
      ensures DocRead(i, j + 1, DocArray(w, []), Array([]))
    {
      hide IsWhite;
      assert At(json, j, "]");
      AtSplit(json, i, "[" + w, "]");
      assert "[" + w + "]" == Spell(DocArray(w, []));
      assert MadeItems([]) == [];
      assert JsonText.Valid(DocArray(w, [])) && Quiet(DocArray(w, []));
      assert Made(DocArray(w, [])) == Array([]);
    }

    lemma ArrayIsRead(i: nat, k: nat, j: nat, items: seq<Item>, w: string, output: seq<Value>)
      requires AllWhite(w) && At(json, i, "[" + w) && k == i + 1 + |w| && ItemsRead(k, j, items, w, output)
      ensures DocRead(i, j, DocArray("", items), Array(output))
    {
      hide IsWhite, SpellItems, MadeItems, ItemValid, QuietItem;
      AtSplit(json, i, "[" + w, SpellItems(items));
      assert ("[" + w) + SpellItems(items) == Spell(DocArray("", items));
    }

    lemma BracketRead(i: nat, c: char, w: string)
      requires i < |json| && json[i] == c && At(json, i + 1, w)
      ensures At(json, i, [c] + w)
    {
      AtSplit(json, i, [c], w);
    }

    /** An array, from its bracket on. */
    method TokenizeArray(ghost hint: Option<Doc>) returns (r: Result<Value>, ghost doc: Doc)
      requires Countable() && Valid() && cursor < |json| && json[cursor] == '['
      requires hint.Some? ==> hint.value.DocArray? && DocAt(cursor, hint.value) && Quiet(hint.value)
      modifies this`cursor, this`eof, this`warnings
      ensures Valid() && |warnings| >= |old(warnings)|
      ensures r.Ok? ==> !eof && cursor > old(cursor)
      ensures hint.Some? ==>
        r == Ok(Made(hint.value)) && cursor == old(cursor) + |Spell(hint.value)| && warnings == old(warnings)
      ensures r.Ok? && |warnings| == |old(warnings)| ==> DocRead(old(cursor), cursor, doc, r.value)
      decreases |json| - cursor, 0
    {
      hide At, IsWhite, AllWhite, StartsValue, DocAt, ItemsAt, FirstSpace, Spell, SpellItems, Made, MadeItems;
      hide ItemsRead, DocRead;
      ghost var start := cursor;
      doc := DocNull;
      if hint.Some? { ArrayStarts(cursor, hint.value); }
      var _ := Consume(1);
      var ws;
      ghost var w;
      ws, w := SkipWhite(if hint.Some? then Some(FirstSpace(hint.value)) else None);
      if !ws {
        return Thrown(UnexpectedEnd), doc;
      }
      BracketRead(start, '[', w);
      if Peek(1) == "]" {
        EmptyArrayRead(start, cursor, w);
        var _ := Consume(1);
        return Ok(Array([])), DocArray(w, []);
      }
      ghost var k := cursor;
      ghost var items;
      r, items := ArrayElements(if hint.Some? then Some(hint.value.items) else None, w);
      doc := DocArray("", items);
      if r.Ok? && |warnings| == |old(warnings)| { ArrayIsRead(start, k, cursor, items, w, r.value.items); }
    }

    ghost function FirstSpace(doc: Doc): string
      requires doc.DocArray?
    {
      if doc.items == [] then doc.space else doc.items[0].before
    }

    lemma NextItemFacts(i: nat, items: seq<Item>)
      requires items != [] && NextItem(i, items)
      ensures var j := i + |items[0].before|; j < |json| && !IsWhite(json[j]) && StartsValue(json[j]) && json[j] != ']'
      ensures At(json, i, items[0].before) && AllWhite(items[0].before)
    {
      hide At, IsWhite;
    }

    /** The elements of an array that have been read, each with its comma, and the white space before the next. */
    ghost function LeadItems(items: seq<Item>, before: string): string
      decreases |items|
    {
      if items == [] then "" else
      Element(Spell(items[0].value), items[0].after, ',',
        (if |items| == 1 then before else items[1].before) + LeadItems(items[1..], before))
    }

    lemma {:induction false} LeadMore(items: seq<Item>, item: Item, before: string)
      ensures LeadItems(items + [item], before)
        == LeadItems(items, item.before) + Element(Spell(item.value), item.after, ',', before)
      decreases |items|
    {
      hide Spell;
      var all := items + [item];
      if items == [] {
        assert all[1..] == [];
        assert before + "" == before;
      } else {
        LeadMore(items[1..], item, before);
        assert all[1..] == items[1..] + [item];
        var v, after := Spell(items[0].value), items[0].after;
        var next := all[1].before;
        var x, y := LeadItems(items[1..], item.before), Element(Spell(item.value), item.after, ',', before);
        assert v + after + [','] + (next + (x + y)) == (v + after + [','] + (next + x)) + y;
      }
    }

    lemma {:induction false} LeadLast(items: seq<Item>, item: Item)
      ensures SpellItems(items + [item])
        == LeadItems(items, item.before) + Element(Spell(item.value), item.after, ']', "")
      decreases |items|
    {
      hide Spell;
      var all := items + [item];
      if items != [] {
        LeadLast(items[1..], item);
        assert all[1..] == items[1..] + [item];
        var v, after := Spell(items[0].value), items[0].after;
        var next := all[1].before;
        var x, y := LeadItems(items[1..], item.before), Element(Spell(item.value), item.after, ']', "");
        assert v + after + [','] + (next + (x + y)) == (v + after + [','] + (next + x)) + y;
      }
    }

    /** What is known of the first elements of an array, read without a warning. */
    ghost predicate LeadRead(i: nat, j: nat, items: seq<Item>, first: string, before: string, output: seq<Value>) {
      && (forall k :: 0 <= k < |items| ==> ItemValid(items[k]) && QuietItem(items[k])) && AllWhite(before)
      && At(json, i, LeadItems(items, before)) && j == i + |LeadItems(items, before)|
        && output == MadeItems(items)
      && first == (if items == [] then before else items[0].before)
    }

    /** ... and of all of them. */
    ghost predicate ItemsRead(i: nat, j: nat, items: seq<Item>, first: string, output: seq<Value>) {
      && items != [] && items[0].before == first
      && (forall k :: 0 <= k < |items| ==> ItemValid(items[k]) && QuietItem(items[k]))
      && At(json, i, SpellItems(items)) && j == i + |SpellItems(items)| && output == MadeItems(items)
    }

    lemma LeadStarts(i: nat, before: string)
      requires i <= |json| && AllWhite(before)
      ensures LeadRead(i, i, [], before, before, [])
    {
    }

    lemma LastItemValue(items: seq<Item>, item: Item)
      ensures MadeItems(items + [item]) == MadeItems(items) + [Made(item.value)]
    {
      assert (items + [item])[..|items|] == items;
    }

    lemma LeadGrows(i: nat, j: nat, k: nat, items: seq<Item>, first: string, before: string, output: seq<Value>,
        doc: Doc, w1: string, w2: string, value: Value)
      requires LeadRead(i, j, items, first, before, output) && ElementRead(j, k, ',', doc, w1, w2, value)
      ensures LeadRead(i, k, items + [Item(before, doc, w1)], first, w2, output + [value])
    {
      hide AllWhite, JsonText.Valid, Quiet, Spell, Made, Element, LeadItems, MadeItems;
      var item := Item(before, doc, w1);
      LeadMore(items, item, w2);
      LastItemValue(items, item);
      AtSplit(json, i, LeadItems(items, before), Element(Spell(doc), w1, ',', w2));
    }

    lemma LeadEnds(i: nat, j: nat, k: nat, items: seq<Item>, first: string, before: string, output: seq<Value>,
        doc: Doc, w1: string, value: Value)
      requires LeadRead(i, j, items, first, before, output) && ElementRead(j, k, ']', doc, w1, "", value)
      ensures ItemsRead(i, k, items + [Item(before, doc, w1)], first, output + [value])
    {
      hide AllWhite, JsonText.Valid, Quiet, Spell, Made, Element, LeadItems, SpellItems, MadeItems;
      var item := Item(before, doc, w1);
      LeadLast(items, item);
      LastItemValue(items, item);
      AtSplit(json, i, LeadItems(items, before), Element(Spell(doc), w1, ']', ""));
    }

    /** The loop over the elements of an array. */
    method ArrayElements(ghost hint: Option<seq<Item>>, ghost first: string)
      returns (r: Result<Value>, ghost items: seq<Item>)
      requires Countable() && Valid() && cursor < |json| && AllWhite(first)
      requires hint.Some? ==>
        hint.value != [] && ItemsAt(cursor, hint.value) && StartsValue(json[cursor]) && ItemsQuiet(hint.value)
      modifies this`cursor, this`eof, this`warnings
      ensures Valid() && |warnings| >= |old(warnings)|
      ensures r.Ok? ==> !eof && cursor > old(cursor)
      ensures hint.Some? ==>
        r == Ok(Array(MadeItems(hint.value))) && cursor == old(cursor) + |SpellItems(hint.value)|
        && warnings == old(warnings)
      ensures r.Ok? && |warnings| == |old(warnings)| ==>
        r.value.Array? && ItemsRead(old(cursor), cursor, items, first, r.value.items)
      decreases |json| - cursor, 3
    {
      hide At, IsWhite, AllWhite, StartsValue, ItemsAt, ArrayRead, LeadRead, ItemsRead, ElementRead, ItemsQuiet;
      var output, more := [], true;
      ghost var start, before := cursor, first;
      items := [];
      ghost var known := if hint.Some? then hint.value else [];
      ghost var rest, end := known, if hint.Some? then cursor + |SpellItems(known)| else 0;
      if hint.Some? { NothingRead(cursor, known, end); }
      LeadStarts(cursor, first);
      while more
        invariant Valid() && !eof && cursor >= start && (more ==> cursor < |json|) && (!more ==> cursor > start)
        invariant |warnings| >= |old(warnings)|
        invariant hint.Some? ==>
          ArrayRead(start, known, rest, output, cursor, end) && warnings == old(warnings) && (more <==> rest != [])
        invariant hint.Some? ==> ItemsQuiet(rest)
        invariant |warnings| == |old(warnings)| && more ==> LeadRead(start, cursor, items, first, before, output)
        invariant |warnings| == |old(warnings)| && !more ==> ItemsRead(start, cursor, items, first, output)
        decreases more, |json| - cursor
      {
        if hint.Some? { ElementNotEmpty(start, known, rest, output, cursor, end); FirstQuiet(rest); }
        var closed, ok := EmptyElements();
        if !ok {
          return Thrown(UnexpectedEnd), [];
        }
        if closed {
          return Ok(Array(output)), [];
        }
        ghost var i := cursor;
        var element;
        ghost var doc, w1, w2;
        more, element, doc, w1, w2 := ArrayElement(if hint.Some? then Some(rest) else None);
        if element.Thrown? {
          return Thrown(element.message), [];
        }
        if hint.Some? {
          ArrayNext(start, known, rest, output, i, end, cursor);
          rest := rest[1..];
        }
        if |warnings| == |old(warnings)| {
          if more {
            LeadGrows(start, i, cursor, items, first, before, output, doc, w1, w2, element.value);
          } else {
            LeadEnds(start, i, cursor, items, first, before, output, doc, w1, element.value);
          }
        }
        items, before := items + [Item(before, doc, w1)], w2;
        output := output + [element.value];
      }
      if hint.Some? { AllRead(start, known, rest, output, cursor, end); }
      r := Ok(Array(output));
    }

    lemma NothingRead(i: nat, items: seq<Item>, end: nat)
      requires ItemsAt(i, items) && i < |json| && StartsValue(json[i]) && end == i + |SpellItems(items)|
      ensures ArrayRead(i, items, items, [], i, end)
    {
    }

    lemma ElementNotEmpty(start: nat, items: seq<Item>, rest: seq<Item>, output: seq<Value>, i: nat, end: nat)
      requires ArrayRead(start, items, rest, output, i, end) && rest != []
      ensures i < |json| && json[i] != ',' && ItemsAt(i, rest) && i + |SpellItems(rest)| == end
    {
    }

    lemma AllRead(start: nat, items: seq<Item>, rest: seq<Item>, output: seq<Value>, i: nat, end: nat)
      requires ArrayRead(start, items, rest, output, i, end) && rest == []
      ensures output == MadeItems(items) && i == end
    {
      assert items[..|items|] == items;
    }

    // ---------- Objects ----------

    ghost predicate MembersAt(i: nat, members: seq<Member>) {
      members != [] && (forall k :: 0 <= k < |members| ==> MemberValid(members[k]))
        && At(json, i, SpellMembers(members))
    }

    /** A name has been read without a warning. */
    ghost predicate NameRead(i: nat, j: nat, name: seq<Piece>, text: string) {
      PiecesValid(name) && At(json, i, Quoted(name)) && j == i + |Quoted(name)| && text == TextOf(name, Kept)
    }

    /** A property name. Only double quotes are right. */
    method MemberName(ghost hint: Option<Member>) returns (r: Result<string>, ghost name: seq<Piece>)
      requires Countable() && Valid() && cursor < |json| && (hint.Some? ==> NameAt(cursor, hint.value))
      modifies this`cursor, this`eof, this`warnings
      ensures Valid() && |warnings| >= |old(warnings)|
      ensures r.Ok? ==> !eof && cursor > old(cursor)
      ensures hint.Some? ==>
        r == Ok(NameOf(hint.value)) && cursor == old(cursor) + |Quoted(hint.value.name)| && warnings == old(warnings)
      ensures r.Ok? && |warnings| == |old(warnings)| ==> NameRead(old(cursor), cursor, name, r.value)
    {
      hide IsWhite, StartsValue, PiecesValid;
      name := [];
      if hint.Some? { AtFirst(json, cursor, Quoted(hint.value.name)); }
      var c := json[cursor];
      if c == '"' {
        r, name := TokenizeString('"', if hint.Some? then Some(hint.value.name) else None);
      } else {
        if c == '\'' {
          r, name := TokenizeString('\'', None);
        } else {
          r := Identifier();
        }
        if r.Ok? {
          Warn(UnquotedName);
        }
      }
    }

    /** The colon after a property name. */
    method Colon(ghost hint: Option<Member>) returns (r: Result<()>, ghost mid: string, ghost between: string)
      requires Valid()
      requires hint.Some? ==>
        cursor >= |Quoted(hint.value.name)| && NameAt(cursor - |Quoted(hint.value.name)|, hint.value)
      modifies this`cursor, this`eof
      ensures Valid() && cursor >= old(cursor)
      ensures r.Ok? ==> cursor < |json|
      ensures hint.Some? ==> r.Ok? && cursor == old(cursor) + |hint.value.mid| + 1 + |hint.value.between|
      ensures r.Ok? ==> AfterRead(old(cursor), cursor, ':', mid, between)
    {
      hide IsWhite, At, PiecesValid, Quoted, AllWhite, AfterRead;
      ghost var start := cursor;
      between := "";
      var ws;
      ws, mid := SkipWhite(if hint.Some? then Some(hint.value.mid) else None);
      if !ws {
        return Thrown(UnexpectedEnd), "", "";
      }
      var token := Consume(1);
      if token != ":" {
        return Thrown(ExpectedColon), "", "";
      }
      ws, between := SkipWhite(if hint.Some? then Some(hint.value.between) else None);
      if !ws {
        return Thrown(UnexpectedEnd), "", "";
      }
      SeparatorRead(start, ':', mid, between);
      token := Peek(1);
      if hint.Some? { NotWhite(json[cursor]); }
      if token == "," || token == "}" {
        return Thrown(MissingValue), "", "";
      }
      r := Ok(());
    }

    ghost function BeforeSecondName(members: seq<Member>): Option<string> {
      if |members| > 1 then Some(members[1].before) else None
    }

    /** Where the value of the first member is. */
    ghost function ValueAt(i: nat, m: Member): nat {
      i + |Quoted(m.name)| + |m.mid| + 1 + |m.between|
    }

    lemma MemberFacts(i: nat, members: seq<Member>)
      requires MembersAt(i, members)
      ensures members != [] && NameAt(i, members[0]) && DocAt(ValueAt(i, members[0]), members[0].value)
      ensures var k := ValueAt(i, members[0]) + |Spell(members[0].value)|; var m := k + |members[0].after|;
        && AfterAt(k, '}', members[0].after, BeforeSecondName(members))
        && (|members| == 1 ==> m + 1 == i + |SpellMembers(members)|)
        && (|members| > 1 ==>
             var n := m + 1 + |members[1].before|;
             MembersAt(n, members[1..]) && n + |SpellMembers(members[1..])| == i + |SpellMembers(members)|)
    {
      hide At, IsWhite, DocAt, NameAt, Quoted, Spell, SpellMembers, MemberValid, AllWhite;
      MemberParts(i, members);
    }

    /** A member's value and what follows it, up to the next member or past the closing brace. */
    method MemberValue(ghost hint: Option<seq<Member>>, ghost start: nat)
      returns (more: bool, r: Result<Value>, ghost doc: Doc, ghost w1: string, ghost w2: string)
      requires Countable() && Valid() && cursor < |json|
      requires hint.Some? ==>
        hint.value != [] && MembersAt(start, hint.value) && cursor == ValueAt(start, hint.value[0])
      requires hint.Some? ==> Quiet(hint.value[0].value)
      modifies this`cursor, this`eof, this`warnings
      ensures Valid() && |warnings| >= |old(warnings)|
      ensures r.Ok? ==> !eof && cursor > old(cursor) && (more ==> cursor < |json|)
      ensures hint.Some? ==>
        r == Ok(Made(hint.value[0].value)) && warnings == old(warnings) && (more <==> |hint.value| > 1)
      ensures hint.Some? && more ==> MembersAt(cursor, hint.value[1..])
      ensures hint.Some? && more ==> cursor + |SpellMembers(hint.value[1..])| == start + |SpellMembers(hint.value)|
      ensures hint.Some? && !more ==> cursor == start + |SpellMembers(hint.value)|
      ensures r.Ok? && |warnings| == |old(warnings)| ==>
        ElementRead(old(cursor), cursor, if more then ',' else '}', doc, w1, w2, r.value) && (!more ==> w2 == "")
      decreases |json| - cursor, 2
    {
      hide MembersAt, NameAt, DocAt, AfterAt, Spell, Made, SpellMembers, ValueAt, Quiet, AfterRead, DocRead;
      hide ElementRead;
      more, w1, w2 := false, "", "";
      ghost var first := cursor;
      if hint.Some? { MemberFacts(start, hint.value); }
      r, doc := Tokenize(if hint.Some? then Some(hint.value[0].value) else None);
      if r.Thrown? {
        return;
      }
      if eof {
        return false, Thrown(UnexpectedEnd), doc, "", "";
      }
      ghost var k := cursor;
      var s;
      s, w1,
        w2 := AfterElement('}', if hint.Some? then Some(hint.value[0].after) else None, if hint.Some?
        then BeforeSecondName(hint.value) else None);
      if s.Failed? {
        return false, Thrown(s.message), doc, "", "";
      }
      more := s.Comma?;
      if |warnings| == |old(warnings)| {
        ElementIsRead(first, k, cursor, if more then ',' else '}', doc, w1, w2, r.value);
      }
    }

    /** A property name, which is warned of if the object has it already. An object that cannot be asked is not
        read on. */
    method NewName(obj: Value, ghost hint: Option<Member>) returns (r: Result<string>, ghost name: seq<Piece>)
      requires Countable() && Valid() && cursor < |json| && obj.Object?
      requires hint.Some? ==> NameAt(cursor, hint.value) && IsNew(obj, NameOf(hint.value))
      modifies this`cursor, this`eof, this`warnings
      ensures Valid() && |warnings| >= |old(warnings)|
      ensures r.Ok? ==> !eof && cursor > old(cursor)
      ensures hint.Some? ==>
        r == Ok(NameOf(hint.value)) && cursor == old(cursor) + |Quoted(hint.value.name)| && warnings == old(warnings)
      ensures r.Ok? && |warnings| == |old(warnings)| ==> NameRead(old(cursor), cursor, name, r.value)
      ensures !Askable(obj) ==> r.Thrown?
      ensures r.Ok? && r.value in obj.members ==>
        |warnings| > |old(warnings)| && warnings[|warnings| - 1].message == DuplicateName(r.value)
    {
      hide NameAt, NameRead;
      r, name := MemberName(hint);
      if r.Thrown? {
        return;
      }
      if !Askable(obj) {
        return Thrown(NotCallable), [];
      }
      if r.value in obj.members {
        Warn(DuplicateName(r.value));
      }
    }

    /** A member and what follows it. */
    ghost function MemberText(m: Member, separator: char, rest: string): string {
      Named(Quoted(m.name), m.mid, m.between, Element(Spell(m.value), m.after, separator, rest))
    }

    /** What is known of a member that has been read without a warning. */
    ghost predicate MemberRead(i: nat, j: nat, separator: char, m: Member, w2: string, name: string, value: Value) {
      && MemberValid(m) && Quiet(m.value) && AllWhite(w2) && name == NameOf(m) && value == Made(m.value)
      && At(json, i, MemberText(m, separator, w2)) && j == i + |MemberText(m, separator, w2)|
    }

    lemma MemberIsRead(i: nat, k: nat, l: nat, j: nat, separator: char, m: Member, w2: string, name: string,
        value: Value)
      requires NameRead(i, k, m.name, name) && AfterRead(k, l, ':', m.mid, m.between) && AllWhite(m.before)
      requires ElementRead(l, j, separator, m.value, m.after, w2, value)
      ensures MemberRead(i, j, separator, m, w2, name, value)
    {
      hide IsWhite, JsonText.Valid, Quiet, Made, Spell, AllWhite, Quoted, PiecesValid, TextOf, Element;
      var element := Element(Spell(m.value), m.after, separator, w2);
      AtSplit(json, i, Quoted(m.name), m.mid + [':'] + m.between);
      AtSplit(json, i, Quoted(m.name) + (m.mid + [':'] + m.between), element);
      assert Quoted(m.name) + (m.mid + [':'] + m.between) + element == MemberText(m, separator, w2);
    }

    /** A member of an object and what follows it. */
    method ObjectMember(obj: Value, ghost hint: Option<seq<Member>>, ghost before: string)
      returns (more: bool, r: Result<Value>, ghost m: Member, ghost w2: string, ghost name: string,
        ghost value: Value)
      requires Countable() && Valid() && cursor < |json| && AllWhite(before) && obj.Object?
      requires hint.Some? ==> MembersAt(cursor, hint.value) && IsNew(obj, NameOf(hint.value[0]))
      requires hint.Some? ==> Quiet(hint.value[0].value)
      modifies this`cursor, this`eof, this`warnings
      ensures Valid() && |warnings| >= |old(warnings)|
      ensures r.Ok? ==> !eof && cursor > old(cursor) && (more ==> cursor < |json|)
      ensures hint.Some? ==> r == Ok(Assigned(obj, NameOf(hint.value[0]), Made(hint.value[0].value)))
      ensures hint.Some? ==> warnings == old(warnings) && (more <==> |hint.value| > 1)
      ensures hint.Some? && more ==> MembersAt(cursor, hint.value[1..])
      ensures hint.Some? && more ==>
        cursor + |SpellMembers(hint.value[1..])| == old(cursor) + |SpellMembers(hint.value)|
      ensures hint.Some? && !more ==> cursor == old(cursor) + |SpellMembers(hint.value)|
      ensures r.Ok? ==> Askable(obj) && r.value == Assigned(obj, name, value)
      ensures r.Ok? && name in obj.members ==> |warnings| > |old(warnings)|
      ensures r.Ok? && |warnings| == |old(warnings)| ==>
        m.before == before && MemberRead(old(cursor), cursor, if more then ',' else '}', m, w2, name, value)
          && (!more ==> w2 == "")
      decreases |json| - cursor, 3
    {
      hide At, IsWhite, Quoted, NameAt, ElementAt, NextMember, MemberValid, AllWhite, Quiet, NameOf, Made;
      hide NameRead, AfterRead, ElementRead, MemberRead;
      more, w2, name, value := false, "", "", Null;
      m := Member(before, [], "", "", DocNull, "");
      ghost var start := cursor;
      if hint.Some? { MemberParts(start, hint.value); }
      var property;
      ghost var pieces;
      property, pieces := NewName(obj, if hint.Some? then Some(hint.value[0]) else None);
      if property.Thrown? {
        r := Thrown(property.message);
        return;
      }
      ghost var k := cursor;
      var colon;
      ghost var mid, between;
      colon, mid, between := Colon(if hint.Some? then Some(hint.value[0]) else None);
      if colon.Thrown? {
        r := Thrown(colon.message);
        return;
      }
      ghost var l := cursor;
      var v;
      ghost var doc, w1;
      more, v, doc, w1, w2 := MemberValue(hint, start);
      if v.Thrown? {
        more, r := false, Thrown(v.message);
        return;
      }
      m := Member(before, pieces, mid, between, doc, w1);
      name, value := property.value, v.value;
      if |warnings| == |old(warnings)| {
        MemberIsRead(start, k, l, cursor, if more then ',' else '}', m, w2, name, value);
      }
      r := Ok(Assigned(obj, property.value, v.value));
    }

    /** What is known of an object whose first members have been read. */
    ghost predicate ObjectRead(members: seq<Member>, rest: seq<Member>, output: Value, i: nat, end: nat) {
      && |rest| <= |members| && rest == members[|members| - |rest|..]
        && output == MadeObject(members[..|members| - |rest|])
      && (rest != [] ==> MembersAt(i, rest) && i + |SpellMembers(rest)| == end)
      && (rest == [] ==> i == end)
    }

    lemma ObjectFresh(members: seq<Member>, rest: seq<Member>, output: Value, i: nat, end: nat)
      requires ObjectRead(members, rest, output, i, end) && rest != [] && MembersGood(members)
      ensures output.Object? && IsNew(output, NameOf(rest[0])) && Quiet(rest[0].value)
      ensures MembersAt(i, rest) && i + |SpellMembers(rest)| == end
    {
      hide MembersAt, Quiet, NameOf, IsNew;
      QuietAt(members, |members| - |rest|);
    }

    lemma MemberAdded(members: seq<Member>, k: nat)
      requires k < |members|
      ensures MadeObject(members[..k + 1]) ==
        Assigned(MadeObject(members[..k]), NameOf(members[k]), Made(members[k].value))
    {
      assert members[..k + 1][..k] == members[..k];
    }

    lemma ObjectNext(members: seq<Member>, rest: seq<Member>, output: Value, i: nat, end: nat, j: nat)
      requires ObjectRead(members, rest, output, i, end) && rest != [] && output.Object?
      requires |rest| > 1 ==> MembersAt(j, rest[1..]) && j + |SpellMembers(rest[1..])| == end
      requires |rest| == 1 ==> j == end
      ensures ObjectRead(members, rest[1..], Assigned(output, NameOf(rest[0]), Made(rest[0].value)), j, end)
    {
      hide MembersAt, SpellMembers, MadeObject, TextOf, Made;
      var k := |members| - |rest|;
      assert members[k] == rest[0];
      MemberAdded(members, k);
    }

    lemma NoMemberRead(i: nat, members: seq<Member>, end: nat)
      requires MembersAt(i, members) && end == i + |SpellMembers(members)|
      ensures ObjectRead(members, members, Object(map[], Standard), i, end)
    {
    }

    lemma ObjectDone(members: seq<Member>, rest: seq<Member>, output: Value, i: nat, end: nat)
      requires ObjectRead(members, rest, output, i, end) && rest == []
      ensures output == MadeObject(members) && i == end
    {
      assert members[..|members|] == members;
    }

    /** The members of an object that have been read, each with its comma, and the white space before the next. */
    ghost function LeadMembers(members: seq<Member>, before: string): string
      decreases |members|
    {
      if members == [] then "" else
      MemberText(members[0], ',',
        (if |members| == 1 then before else members[1].before) + LeadMembers(members[1..], before))
    }

    lemma TextMore(m: Member, separator: char, s: string, t: string)
      ensures MemberText(m, separator, s + t) == MemberText(m, separator, s) + t
    {
      hide Quoted, Spell;
      var a, v, b := Quoted(m.name) + m.mid + ":", Spell(m.value), m.after;
      assert v + b + [separator] + (s + t) == (v + b + [separator] + s) + t;
      var e := v + b + [separator] + s;
      assert a + (m.between + (e + t)) == (a + (m.between + e)) + t;
    }

    lemma {:induction false} LeadMoreMembers(members: seq<Member>, m: Member, before: string)
      ensures LeadMembers(members + [m], before) == LeadMembers(members, m.before) + MemberText(m, ',', before)
      decreases |members|
    {
      hide MemberText;
      var all := members + [m];
      if members == [] {
        assert all[1..] == [];
        assert before + "" == before;
      } else {
        LeadMoreMembers(members[1..], m, before);
        assert all[1..] == members[1..] + [m];
        var next, x, y := all[1].before, LeadMembers(members[1..], m.before), MemberText(m, ',', before);
        assert next + (x + y) == (next + x) + y;
        TextMore(members[0], ',', next + x, y);
      }
    }

    lemma {:induction false} LeadLastMember(members: seq<Member>, m: Member)
      ensures SpellMembers(members + [m]) == LeadMembers(members, m.before) + MemberText(m, '}', "")
      decreases |members|
    {
      var all := members + [m];
      if members != [] {
        LeadLastMember(members[1..], m);
        assert all[1..] == members[1..] + [m];
        SpellFirstMember(all);
        hide MemberText;
        var next, x, y := all[1].before, LeadMembers(members[1..], m.before), MemberText(m, '}', "");
        assert next + (x + y) == (next + x) + y;
        TextMore(members[0], ',', next + x, y);
      }
    }

    lemma SpellFirstMember(members: seq<Member>)
      requires |members| > 1
      ensures SpellMembers(members) == MemberText(members[0], ',', members[1].before + SpellMembers(members[1..]))
    {
    }

    ghost predicate MembersGood(members: seq<Member>) {
      QuietMembers(members) && forall k :: 0 <= k < |members| ==> MemberValid(members[k])
    }

    /** What is known of the first members of an object, read without a warning. */
    ghost predicate LeadMembersRead(i: nat, j: nat, members: seq<Member>, first: string, before: string,
        output: Value) {
      && MembersGood(members) && AllWhite(before)
      && At(json, i, LeadMembers(members, before)) && j == i + |LeadMembers(members, before)|
        && output == MadeObject(members)
      && first == (if members == [] then before else members[0].before)
    }

    /** ... and of all of them. */
    ghost predicate MembersRead(i: nat, j: nat, members: seq<Member>, first: string, output: Value) {
      && members != [] && members[0].before == first && MembersGood(members)
      && At(json, i, SpellMembers(members)) && j == i + |SpellMembers(members)| && output == MadeObject(members)
    }

    lemma LeadMembersStart(i: nat, before: string)
      requires i <= |json| && AllWhite(before)
      ensures LeadMembersRead(i, i, [], before, before, Object(map[], Standard))
    {
    }

    /** A new name keeps the members quiet. */
    lemma GoodMore(members: seq<Member>, m: Member)
      requires MembersGood(members) && MemberValid(m) && Quiet(m.value) && IsNew(MadeObject(members), NameOf(m))
      ensures MembersGood(members + [m])
      ensures MadeObject(members + [m]) == Assigned(MadeObject(members), NameOf(m), Made(m.value))
    {
      hide MemberValid, Quiet, Made, NameOf, IsNew;
      assert (members + [m])[..|members|] == members;
    }

    lemma LeadMembersGrow(i: nat, j: nat, k: nat, members: seq<Member>, first: string, before: string,
        output: Value, m: Member, w2: string, name: string, value: Value)
      requires LeadMembersRead(i, j, members, first, before, output) && MemberRead(j, k, ',', m, w2, name, value)
        && m.before == before
      requires output.Object? && IsNew(output, name)
      ensures LeadMembersRead(i, k, members + [m], first, w2, Assigned(output, name, value))
    {
      hide AllWhite, MemberValid, Quiet, IsNew, Made, MemberText, LeadMembers, MadeObject, MembersGood, NameOf;
      GoodMore(members, m);
      LeadMoreMembers(members, m, w2);
      AtSplit(json, i, LeadMembers(members, before), MemberText(m, ',', w2));
    }

    lemma LeadMembersEnd(i: nat, j: nat, k: nat, members: seq<Member>, first: string, before: string,
        output: Value, m: Member, name: string, value: Value)
      requires LeadMembersRead(i, j, members, first, before, output) && MemberRead(j, k, '}', m, "", name, value)
        && m.before == before
      requires output.Object? && IsNew(output, name)
      ensures MembersRead(i, k, members + [m], first, Assigned(output, name, value))
    {
      hide AllWhite, MemberValid, Quiet, IsNew, Made, MemberText, LeadMembers, SpellMembers, MadeObject;
      hide MembersGood, NameOf;
      GoodMore(members, m);
      LeadLastMember(members, m);
      AtSplit(json, i, LeadMembers(members, before), MemberText(m, '}', ""));
    }

    /** The loop over the members of an object. */
    method ObjectMembers(ghost hint: Option<seq<Member>>, ghost first: string)
      returns (r: Result<Value>, ghost members: seq<Member>)
      requires Countable() && Valid() && cursor < |json| && AllWhite(first)
      requires hint.Some? ==> hint.value != [] && MembersAt(cursor, hint.value) && MembersGood(hint.value)
      modifies this`cursor, this`eof, this`warnings
      ensures Valid() && |warnings| >= |old(warnings)|
      ensures r.Ok? ==> !eof && cursor > old(cursor)
      ensures hint.Some? ==>
        r == Ok(MadeObject(hint.value)) && cursor == old(cursor) + |SpellMembers(hint.value)|
      ensures hint.Some? ==> warnings == old(warnings)
      ensures r.Ok? && |warnings| == |old(warnings)| ==>
        r.value.Object? && MembersRead(old(cursor), cursor, members, first, r.value)
      decreases |json| - cursor, 4
    {
      hide MembersAt, ObjectRead, MembersGood, SpellMembers, MemberValid, MadeObject, AllWhite, NameOf, Made;
      hide Quiet, Askable, Assigned;
      hide LeadMembersRead, MembersRead, MemberRead;
      var output: Value, more := Object(map[], Standard), true;
      ghost var start, before := cursor, first;
      members := [];
      ghost var known := if hint.Some? then hint.value else [];
      ghost var rest, end := known, if hint.Some? then cursor + |SpellMembers(known)| else 0;
      if hint.Some? { NoMemberRead(cursor, known, end); }
      LeadMembersStart(cursor, first);
      while more
        invariant Valid() && !eof && cursor >= start && (more ==> cursor < |json|) && (!more ==> cursor > start)
        invariant |warnings| >= |old(warnings)| && AllWhite(before) && output.Object?
        invariant hint.Some? ==>
          ObjectRead(known, rest, output, cursor, end) && warnings == old(warnings) && (more <==> rest != [])
        invariant |warnings| == |old(warnings)| && more ==>
          LeadMembersRead(start, cursor, members, first, before, output)
        invariant |warnings| == |old(warnings)| && !more ==> MembersRead(start, cursor, members, first, output)
        decreases more, |json| - cursor
      {
        ghost var i := cursor;
        if hint.Some? { ObjectFresh(known, rest, output, cursor, end); }
        var read;
        ghost var m, w2, name, value;
        more, read, m, w2, name, value := ObjectMember(output, if hint.Some? then Some(rest) else None, before);
        if read.Thrown? {
          return Thrown(read.message), [];
        }
        if hint.Some? {
          ObjectNext(known, rest, output, i, end, cursor);
          rest := rest[1..];
        }
        if |warnings| == |old(warnings)| {
          if more {
            LeadMembersGrow(start, i, cursor, members, first, before, output, m, w2, name, value);
            SpaceRead(i, cursor, ',', m, w2, name, value);
          } else {
            LeadMembersEnd(start, i, cursor, members, first, before, output, m, name, value);
          }
        }
        members, before := members + [m], if |warnings| == |old(warnings)| && more then w2 else "";
        NoSpace();
        output := read.value;
      }
      if hint.Some? { ObjectDone(known, rest, output, cursor, end); }
      r := Ok(output);
    }

    lemma NoSpace()
      ensures AllWhite("")
    {
    }

    lemma SpaceRead(i: nat, j: nat, separator: char, m: Member, w2: string, name: string, value: Value)
      requires MemberRead(i, j, separator, m, w2, name, value)
      ensures AllWhite(w2)
    {
    }

    ghost function FirstSpaceInside(doc: Doc): string
      requires doc.DocObject?
    {
      if doc.members == [] then doc.space else doc.members[0].before
    }

    lemma ObjectStarts(i: nat, doc: Doc)
      requires DocAt(i, doc) && doc.DocObject?
      ensures var s := FirstSpaceInside(doc); var j := i + 1 + |s|;
        && At(json, i + 1, s) && AllWhite(s) && j < |json| && !IsWhite(json[j])
        && (doc.members == [] ==> json[j] == '}' && |Spell(doc)| == j + 1 - i)
        && (doc.members != [] ==>
          json[j] == '"' && MembersAt(j, doc.members) && j + |SpellMembers(doc.members)| == i + |Spell(doc)|)
      ensures Made(doc) == MadeObject(doc.members) && MadeObject([]) == Object(map[], Standard)
    {
      hide At, IsWhite, TextOf, MemberValid, SpellMembers;
      if doc.members == [] {
        assert Spell(doc) == "{" + doc.space + "}" + "";
        FourParts(i, "{", doc.space, "}", "");
        FirstIfAny(i + 1 + |doc.space|, "}");
        NotWhite('}');
      } else {
        assert MemberValid(doc.members[0]);
        AtSplit(json, i, "{", doc.members[0].before + SpellMembers(doc.members));
        NextMemberAt(i + 1, doc.members);
      }
    }

    lemma EmptyObjectRead(i: nat, j: nat, w: string)
      requires AllWhite(w) && At(json, i, "{" + w) && j == i + 1 + |w| && j < |json| && json[j] == '}'
      ensures DocRead(i, j + 1, DocObject(w, []), Object(map[], Standard))
    {
      hide IsWhite;
      assert At(json, j, "}");
      AtSplit(json, i, "{" + w, "}");
      assert "{" + w + "}" == Spell(DocObject(w, []));
      assert MadeObject([]) == Object(map[], Standard);
      assert JsonText.Valid(DocObject(w, [])) && Quiet(DocObject(w, []));
      assert Made(DocObject(w, [])) == Object(map[], Standard);
    }

    lemma ObjectIsRead(i: nat, k: nat, j: nat, members: seq<Member>, w: string, output: Value)
      requires AllWhite(w) && At(json, i, "{" + w) && k == i + 1 + |w| && MembersRead(k, j, members, w, output)
      ensures DocRead(i, j, DocObject("", members), output)
    {
      hide IsWhite, SpellMembers, MadeObject, MemberValid, QuietMembers, NameOf;
      AtSplit(json, i, "{" + w, SpellMembers(members));
      assert ("{" + w) + SpellMembers(members) == Spell(DocObject("", members));
    }

    lemma MembersAreGood(i: nat, doc: Doc)
      requires DocAt(i, doc) && Quiet(doc) && doc.DocObject?
      ensures MembersGood(doc.members)
    {
      hide At, ValueEnds;
    }

    /** An object, from its brace on. */
    method TokenizeObject(ghost hint: Option<Doc>) returns (r: Result<Value>, ghost doc: Doc)
      requires Countable() && Valid() && cursor < |json| && json[cursor] == '{'
      requires hint.Some? ==> hint.value.DocObject? && DocAt(cursor, hint.value) && Quiet(hint.value)
      modifies this`cursor, this`eof, this`warnings
      ensures Valid() && |warnings| >= |old(warnings)|
      ensures r.Ok? ==> !eof && cursor > old(cursor)
      ensures hint.Some? ==>
        r == Ok(Made(hint.value)) && cursor == old(cursor) + |Spell(hint.value)| && warnings == old(warnings)
      ensures r.Ok? && |warnings| == |old(warnings)| ==> DocRead(old(cursor), cursor, doc, r.value)
      decreases |json| - cursor, 0
    {
      hide At, IsWhite, MembersAt, DocAt, MembersGood, AllWhite, Quiet, DocRead, MembersRead;
      hide Spell, SpellMembers, Made, MadeObject, FirstSpaceInside;
      ghost var start := cursor;
      doc := DocNull;
      if hint.Some? { ObjectStarts(cursor, hint.value); MembersAreGood(cursor, hint.value); }
      var _ := Consume(1);
      var ws;
      ghost var w;
      ws, w := SkipWhite(if hint.Some? then Some(FirstSpaceInside(hint.value)) else None);
      if !ws {
        return Thrown(UnexpectedEnd), doc;
      }
      BracketRead(start, '{', w);
      if Peek(1) == "}" {
        EmptyObjectRead(start, cursor, w);
        var _ := Consume(1);
        return Ok(Object(map[], Standard)), DocObject(w, []);
      }
      ghost var k := cursor;
      ghost var members;
      r, members := ObjectMembers(if hint.Some? then Some(hint.value.members) else None, w);
      doc := DocObject("", members);
      if r.Ok? && |warnings| == |old(warnings)| { ObjectIsRead(start, k, cursor, members, w, r.value); }
    }

    // ---------- Any value ----------

    /** A word, if it comes next. */
    method Word(word: string) returns (found: bool)
      requires Valid() && !eof && word != ""
      modifies this`cursor, this`eof
      ensures Valid() && !eof && (found <==> At(json, old(cursor), word)) && cursor == old(cursor) + if found
        then |word| else 0
    {
      found := Peek(|word|) == word;
      if found {
        var _ := Consume(|word|);
      }
    }

    /** The literals that are legal, with a word each. */
    method Literal(ghost hint: Option<Doc>) returns (r: Option<Value>, ghost doc: Doc)
      requires Valid() && cursor < |json|
      requires hint.Some? ==> (hint.value.DocNull? || hint.value.DocBool?) && At(json, cursor, Spell(hint.value))
      modifies this`cursor, this`eof
      ensures Valid() && !eof
      ensures r.Some? ==> cursor > old(cursor) && old(json[cursor]) in "tfn"
      ensures r.None? ==> cursor == old(cursor)
      ensures hint.Some? ==> r == Some(Made(hint.value)) && cursor == old(cursor) + |Spell(hint.value)|
      ensures r.Some? ==> DocRead(old(cursor), cursor, doc, r.value)
    {
      if hint.Some? { AtFirst(json, cursor, Spell(hint.value)); }
      hide At;
      var found := false;
      r, doc := None, DocNull;
      if json[cursor] == 't' {
        found := Word("true");
        if found { return Some(Bool(true)), DocBool(true); }
      } else if json[cursor] == 'f' {
        found := Word("false");
        if found { return Some(Bool(false)), DocBool(false); }
      } else if json[cursor] == 'n' {
        found := Word("null");
        if found { return Some(Null), DocNull; }
      }
    }

    /** The literals that are read but warned of. */
    method NotLiteral() returns (r: Option<Value>)
      requires Valid() && cursor < |json| && (json[cursor] in "uNI" ==> Countable())
      modifies this`cursor, this`eof, this`warnings
      ensures Valid() && !eof
      ensures r.Some? ==> cursor > old(cursor) && |warnings| > |old(warnings)|
      ensures r.None? ==> cursor == old(cursor) && warnings == old(warnings)
      ensures old(json[cursor]) !in "uNI" ==> r.None?
    {
      var found := false;
      r := None;
      if json[cursor] == 'u' {
        found := Word("undefined");
        if found { r := Some(Undefined); }
      } else if json[cursor] == 'N' {
        found := Word("NaN");
        if found { r := Some(Number("NaN")); }
      } else if json[cursor] == 'I' {
        found := Word("Infinity");
        if found { r := Some(Number("Infinity")); }
      }
      if found {
        Warn(NotALiteral);
      }
    }

    /** Any value. If the text from the cursor on spells a value, white space or a closing bracket or nothing
        following, that value is returned, the cursor ends behind it, and there is no warning. */
    method Tokenize(ghost hint: Option<Doc>) returns (r: Result<Value>, ghost doc: Doc)
      requires Valid() && cursor < |json| && (hint.Some? ==> DocAt(cursor, hint.value) && Quiet(hint.value))
      requires Countable() || cursor == 0
      modifies this`cursor, this`eof, this`warnings
      ensures Valid() && |warnings| >= |old(warnings)|
      ensures r.Ok? ==> !eof && cursor > old(cursor)
      ensures hint.Some? ==>
        r == Ok(Made(hint.value)) && cursor == old(cursor) + |Spell(hint.value)| && warnings == old(warnings)
      ensures r.Ok? && |warnings| == |old(warnings)| ==> DocRead(old(cursor), cursor, doc, r.value)
      ensures !Countable() ==> r == Thrown(UnexpectedContent)
      decreases |json| - cursor, 1
    {
      hide At, Spell, Made, JsonText.Valid, ValueEnds, Quiet, DocRead;
      doc := DocNull;
      var c := json[cursor];
      if hint.Some? { StartsAs(cursor, hint.value); }
      if c == '{' {
        r, doc := TokenizeObject(hint);
      } else if c == '[' {
        r, doc := TokenizeArray(hint);
      } else if c == '"' {
        r, doc := TokenizeText(hint);
      } else if c == '\'' {
        var text;
        ghost var pieces;
        text, pieces := TokenizeString('\'', None);
        if text.Thrown? {
          return Thrown(text.message), doc;
        }
        Warn(SingleQuotes);
        r := Ok(Text(text.value));
      } else {
        r, doc := TokenizeOther(hint);
      }
    }

    /** How a value starts says what it is. */
    lemma StartsAs(i: nat, doc: Doc)
      requires DocAt(i, doc)
      ensures i < |json| && json[i] != '\''
      ensures (json[i] == '{' <==> doc.DocObject?) && (json[i] == '[' <==> doc.DocArray?)
        && (json[i] == '"' <==> doc.DocText?)
      ensures (json[i] == '-' || IsDigit(json[i]) <==> doc.DocNumber?)
      ensures json[i] in "ntf" <==> doc.DocNull? || doc.DocBool?
    {
      hide At, Spell, JsonText.Valid, ValueEnds;
      SpellStarts(doc);
      AtFirst(json, i, Spell(doc));
    }

    method TokenizeText(ghost hint: Option<Doc>) returns (r: Result<Value>, ghost doc: Doc)
      requires Countable() && Valid() && cursor < |json| && json[cursor] == '"'
      requires hint.Some? ==> hint.value.DocText? && DocAt(cursor, hint.value)
      modifies this`cursor, this`eof, this`warnings
      ensures Valid() && |warnings| >= |old(warnings)|
      ensures r.Ok? ==> !eof && cursor > old(cursor)
      ensures hint.Some? ==>
        r == Ok(Made(hint.value)) && cursor == old(cursor) + |Spell(hint.value)| && warnings == old(warnings)
      ensures r.Ok? && |warnings| == |old(warnings)| ==> DocRead(old(cursor), cursor, doc, r.value)
    {
      hide At, ValueEnds, PiecesValid;
      var text;
      ghost var pieces;
      text, pieces := TokenizeString('"', if hint.Some? then Some(hint.value.pieces) else None);
      doc := DocText(pieces);
      r := if text.Ok? then Ok(Text(text.value)) else Thrown(text.message);
    }

    /** A number or a literal. */
    method TokenizeOther(ghost hint: Option<Doc>) returns (r: Result<Value>, ghost doc: Doc)
      requires Valid() && cursor < |json| && (Countable() || cursor == 0)
      requires hint.Some? ==>
        (hint.value.DocNumber? || hint.value.DocNull? || hint.value.DocBool?) && DocAt(cursor, hint.value)
      modifies this`cursor, this`eof, this`warnings
      ensures Valid() && |warnings| >= |old(warnings)|
      ensures r.Ok? ==> !eof && cursor > old(cursor)
      ensures hint.Some? ==>
        r == Ok(Made(hint.value)) && cursor == old(cursor) + |Spell(hint.value)| && warnings == old(warnings)
      ensures r.Ok? && |warnings| == |old(warnings)| ==> DocRead(old(cursor), cursor, doc, r.value)
      ensures !Countable() ==> r == Thrown(UnexpectedContent)
    {
      hide At, ValueEnds, Numeral.Valid, Numeral.Spell;
      doc := DocNull;
      var c := json[cursor];
      if hint.Some? { StartsAs(cursor, hint.value); NoInfinity(cursor, hint.value); }
      if c == '-' {
        var infinite := Word("-Infinity");
        if infinite {
          Warn(NotALiteral);
          return Ok(Number("-Infinity")), doc;
        }
      }
      if c == '-' || IsDigit(c) {
        ghost var n;
        r, n := TokenizeNumber(if hint.Some? then Some(hint.value.numeral) else None);
        doc := DocNumber(n);
        return;
      }
      var literal;
      literal, doc := Literal(hint);
      if literal.None? {
        literal := NotLiteral();
      }
      r := if literal.Some? then Ok(literal.value) else Thrown(UnexpectedContent);
    }

    lemma NoInfinity(i: nat, doc: Doc)
      requires DocAt(i, doc) && (doc.DocNumber? || doc.DocNull? || doc.DocBool?)
      ensures !At(json, i, "-Infinity")
    {
      hide At, Numeral.Spell, ValueEnds, FractionAt, ExponentAt, NoDigitAt;
      StartsAs(i, doc);
      if At(json, i, "-Infinity") {
        CharacterAt(i, "-Infinity", 0);
        CharacterAt(i, "-Infinity", 1);
        NumeralParts(i, doc.numeral);
      }
    }

    // ---------- No text spells two values ----------

    lemma PieceIs(i: nat, p: Piece)
      requires p.Valid() && At(json, i, p.Spell())
      ensures i < |json| && (p.Plain? <==> json[i] != '\\') && (p.Plain? ==> p.c == json[i])
      ensures !p.Plain? ==> i + 1 < |json| && (p.Unicode? <==> json[i + 1] == 'u') && (p.Escape? ==> p.c == json[i + 1])
      ensures p.Unicode? ==> i + 6 <= |json| && p.hex == json[i + 2..i + 6]
    {
      CharacterAt(i, p.Spell(), 0);
      if !p.Plain? {
        CharacterAt(i, p.Spell(), 1);
      }
      if p.Unicode? {
        AtSplit(json, i, "\\u", p.hex);
      }
    }

    lemma {:induction false} SameString(i: nat, ps: seq<Piece>, qs: seq<Piece>)
      requires PiecesValid(ps) && PiecesValid(qs)
      requires At(json, i, SpellPieces(ps) + "\"") && At(json, i, SpellPieces(qs) + "\"")
      ensures ps == qs
      decreases |ps|
    {
      hide At, SpellPieces, Piece.Valid, Piece.Spell;
      PieceAt(i, ps);
      PieceAt(i, qs);
      if ps != [] && qs != [] {
        assert ps[0].Valid() && qs[0].Valid();
        PieceIs(i, ps[0]);
        PieceIs(i, qs[0]);
        SameString(i + |ps[0].Spell()|, ps[1..], qs[1..]);
        assert ps == [ps[0]] + ps[1..] && qs == [qs[0]] + qs[1..];
      } else {
        assert ps == [] && qs == [];
      }
    }

    lemma SameExponent(i: nat, d: Exponent, e: Exponent)
      requires ExponentAt(i, d) && ExponentAt(i, e)
      ensures d == e
    {
      hide At, NoDigitAt, ExponentAt, Exponent.Spell;
      ExponentParts(i, d);
      ExponentParts(i, e);
      if d.Exponent? && e.Exponent? {
        SameSign(i + 1, d.sign, d.digits[0], e.sign, e.digits[0]);
        DigitRun(i + 1 + |d.sign|, d.digits, e.digits);
      }
    }

    lemma SameSign(i: nat, s: string, c: char, t: string, d: char)
      requires (s == "" || s == "+" || s == "-") && (t == "" || t == "+" || t == "-") && '0' <= c <= '9'
        && '0' <= d <= '9'
      requires At(json, i, s) && i + |s| < |json| && json[i + |s|] == c
      requires At(json, i, t) && i + |t| < |json| && json[i + |t|] == d
      ensures s == t
    {
      if s != "" { AtFirst(json, i, s); }
      if t != "" { AtFirst(json, i, t); }
    }

    lemma SameFraction(i: nat, f: string, g: string)
      requires FractionAt(i, f) && FractionAt(i, g)
      ensures f == g
    {
      if f != "" { AtSplit(json, i, ".", f); }
      if g != "" { AtSplit(json, i, ".", g); }
      if f != "" && g != "" { DigitRun(i + 1, f, g); }
    }

    lemma SameNumeral(i: nat, m: Numeral, n: Numeral)
      requires m.Valid() && At(json, i, m.Spell()) && ValueEnds(i + |m.Spell()|)
      requires n.Valid() && At(json, i, n.Spell()) && ValueEnds(i + |n.Spell()|)
      ensures m == n
    {
      hide At, FractionAt, ExponentAt, ValueEnds, NoDigitAt, Numeral.Spell, Exponent.Valid;
      NumeralParts(i, m);
      NumeralParts(i, n);
      var j := if m.negative then i + 1 else i;
      DigitRun(j, m.whole, n.whole);
      SameFraction(j + |m.whole|, m.fraction, n.fraction);
      SameExponent(j + |m.whole| + (if m.fraction == "" then 0 else 1 + |m.fraction|), m.exponent, n.exponent);
    }

    /** White space up to something else. */
    lemma SameWhite(i: nat, w: string, v: string)
      requires At(json, i, w) && AllWhite(w) && i + |w| < |json| && !IsWhite(json[i + |w|])
      requires At(json, i, v) && AllWhite(v) && i + |v| < |json| && !IsWhite(json[i + |v|])
      ensures w == v
    {
      hide IsWhite, AllWhite;
      if |w| < |v| {
        WhiteAt(json, i, v, i + |w|);
      } else if |v| < |w| {
        WhiteAt(json, i, w, i + |v|);
      }
    }

    lemma SameAfter(i: nat, closing: char, w: string, x: Option<string>, v: string, y: Option<string>)
      requires closing != ',' && AfterAt(i, closing, w, x) && AfterAt(i, closing, v, y)
      ensures w == v && x == y
    {
      hide At, IsWhite, AllWhite;
      SameWhite(i, w, v);
      if x.Some? { SameWhite(i + |w| + 1, x.value, y.value); }
    }

    /** A place in a text spells at most one value. */
    lemma {:induction false} SameDoc(i: nat, d: Doc, e: Doc)
      requires DocAt(i, d) && DocAt(i, e)
      ensures d == e
      decreases d, 1
    {
      hide DocAt, IsWhite;
      StartsAs(i, d);
      StartsAs(i, e);
      match d
      case DocNull => SameLiteral(i, d, e);
      case DocBool(_) => SameLiteral(i, d, e);
      case DocNumber(m) => SameNumber(i, d, e);
      case DocText(ps) => SameText(i, d, e);
      case DocArray(_, items) => SameArray(i, d, e);
      case DocObject(_, members) => SameObject(i, d, e);
    }

    lemma SameNumber(i: nat, d: Doc, e: Doc)
      requires DocAt(i, d) && DocAt(i, e) && d.DocNumber? && e.DocNumber?
      ensures d == e
    {
      hide At, ValueEnds, Numeral.Valid, Numeral.Spell;
      SameNumeral(i, d.numeral, e.numeral);
    }

    lemma SameText(i: nat, d: Doc, e: Doc)
      requires DocAt(i, d) && DocAt(i, e) && d.DocText? && e.DocText?
      ensures d == e
    {
      hide At, ValueEnds, PiecesValid, Quoted;
      AfterQuote(i, d.pieces);
      AfterQuote(i, e.pieces);
      SameString(i + 1, d.pieces, e.pieces);
    }

    lemma {:induction false} SameArray(i: nat, d: Doc, e: Doc)
      requires DocAt(i, d) && DocAt(i, e) && d.DocArray? && e.DocArray?
      ensures d == e
      decreases d, 0
    {
      hide DocAt, At, IsWhite, AllWhite, StartsValue, ItemsAt, Spell, SpellItems, MadeItems, Made;
      ArrayStarts(i, d);
      ArrayStarts(i, e);
      SpaceOnce(i, d);
      SpaceOnce(i, e);
      SameWhite(i + 1, FirstSpace(d), FirstSpace(e));
      if d.items != [] { SameItems(i + 1 + |FirstSpace(d)|, d.items, e.items); }
    }

    lemma {:induction false} SameObject(i: nat, d: Doc, e: Doc)
      requires DocAt(i, d) && DocAt(i, e) && d.DocObject? && e.DocObject?
      ensures d == e
      decreases d, 0
    {
      hide DocAt, At, IsWhite, AllWhite, MembersAt, Spell, SpellMembers, Made, MadeObject;
      ObjectStarts(i, d);
      ObjectStarts(i, e);
      SpaceOnce(i, d);
      SpaceOnce(i, e);
      SameWhite(i + 1, FirstSpaceInside(d), FirstSpaceInside(e));
      if d.members != [] { SameMembers(i + 1 + |FirstSpaceInside(d)|, d.members, e.members); }
    }

    lemma SpaceOnce(i: nat, d: Doc)
      requires DocAt(i, d)
      ensures d.DocArray? && d.items != [] ==> d.space == ""
      ensures d.DocObject? && d.members != [] ==> d.space == ""
    {
      hide At, ValueEnds, AllWhite, ItemValid, MemberValid;
    }

    lemma SameLiteral(i: nat, d: Doc, e: Doc)
      requires DocAt(i, d) && DocAt(i, e) && (d.DocNull? || d.DocBool?) && (e.DocNull? || e.DocBool?)
      ensures d == e
    {
      hide At, ValueEnds;
      AtFirst(json, i, Spell(d));
      AtFirst(json, i, Spell(e));
    }

    lemma {:induction false} SameItems(i: nat, us: seq<Item>, vs: seq<Item>)
      requires ItemsAt(i, us) && ItemsAt(i, vs)
      ensures us[0].before == vs[0].before ==> us == vs
      decreases us
    {
      hide At, DocAt, ItemsAt, AfterAt, StartsValue, Spell, SpellItems;
      ItemFacts(i, us);
      ItemFacts(i, vs);
      SameDoc(i, us[0].value, vs[0].value);
      SameAfter(i + |Spell(us[0].value)|, ']', us[0].after, BeforeSecond(us), vs[0].after, BeforeSecond(vs));
      if |us| > 1 {
        SameItems(i + |Spell(us[0].value)| + |us[0].after| + 1 + |us[1].before|, us[1..], vs[1..]);
      }
      assert us == [us[0]] + us[1..] && vs == [vs[0]] + vs[1..];
    }

    lemma SameName(i: nat, m: Member, n: Member)
      requires NameAt(i, m) && NameAt(i, n)
      ensures m.name == n.name && m.mid == n.mid && m.between == n.between
    {
      hide At, IsWhite, AllWhite, StartsValue, Quoted, PiecesValid;
      AfterQuote(i, m.name);
      AfterQuote(i, n.name);
      SameString(i + 1, m.name, n.name);
      var k := i + |Quoted(m.name)|;
      SameWhite(k, m.mid, n.mid);
      SameWhite(k + |m.mid| + 1, m.between, n.between);
    }

    lemma {:induction false} SameMembers(i: nat, us: seq<Member>, vs: seq<Member>)
      requires MembersAt(i, us) && MembersAt(i, vs)
      ensures us[0].before == vs[0].before ==> us == vs
      decreases us
    {
      hide At, DocAt, MembersAt, NameAt, AfterAt, Spell, SpellMembers, Quoted;
      MemberFacts(i, us);
      MemberFacts(i, vs);
      SameName(i, us[0], vs[0]);
      var v := ValueAt(i, us[0]);
      SameDoc(v, us[0].value, vs[0].value);
      SameAfter(v + |Spell(us[0].value)|, '}', us[0].after, BeforeSecondName(us), vs[0].after, BeforeSecondName(vs));
      if |us| > 1 {
        SameMembers(v + |Spell(us[0].value)| + |us[0].after| + 1 + |us[1].before|, us[1..], vs[1..]);
      }
      assert us == [us[0]] + us[1..] && vs == [vs[0]] + vs[1..];
    }
  }

  /** How a validation ends. A text that starts with a line feed is warned of, and its lines are counted for ever. */
  datatype Validation =
    | Nothing
    | Endless
    | Stopped(message: Message, warnings: seq<Warning>)
    | Read(value: Value, warnings: seq<Warning>)

  ghost predicate Spells(doc: Doc, json: string) {
    JsonText.Valid(doc) && json == Spell(doc)
  }

  /** A text that spells a value is neither empty nor starts with a line feed, and is a value in its whole length. */
  lemma SpelledText(tokenizer: Tokenizer, doc: Doc)
    requires Spells(doc, tokenizer.json)
    ensures tokenizer.json != "" && tokenizer.json[0] != '\n' && tokenizer.DocAt(0, doc)
      && |Spell(doc)| == |tokenizer.json|
  {
    SpellStarts(doc);
    assert tokenizer.json[0..|Spell(doc)|] == Spell(doc);
  }

  /** What has been read is the only value that the text spells. */
  lemma OnlyReading(tokenizer: Tokenizer, read: Doc, value: Value)
    requires tokenizer.DocRead(0, |tokenizer.json|, read, value)
    ensures Spells(read, tokenizer.json) && Quiet(read) && value == Made(read)
    ensures forall doc :: Spells(doc, tokenizer.json) ==> doc == read
  {
    hide JsonText.Valid, Spell, Quiet, Made;
    var json := tokenizer.json;
    assert json[0..|json|] == json;
    forall doc | Spells(doc, json) ensures doc == read {
      SpelledText(tokenizer, doc);
      SpelledText(tokenizer, read);
      tokenizer.SameDoc(0, doc, read);
    }
  }

  lemma SpelledAs(doc: Doc, json: string)
    requires JsonText.Valid(doc) && json == Spell(doc)
    ensures Spells(doc, json)
  {
  }

  /** `validate`, without showing the warnings. Without a warning it reads exactly the texts that spell a value and
      whose names are new when they are read; as that value exactly those with clean names. What is written as
      RFC 8259 says, it reads as what it was written from. */
  method Validate(json: string, tables: Tables) returns (v: Validation)
    ensures v.Nothing? <==> json == ""
    ensures v.Endless? <==> json != "" && json[0] == '\n'
    ensures v.Stopped? ==> v.warnings != []
    ensures forall doc :: Spells(doc, json) ==> (v == Read(Made(doc), []) <==> Quiet(doc))
    ensures forall doc :: Spells(doc, json) ==> (v == Read(ValueOf(doc, Kept), []) <==> Clean(doc))
    ensures forall tree, w :: JsonWriting.Good(tree) && JsonWriting.Blank(w) && json == JsonWriting.Write(tree, w) ==>
      v.Read? && v.warnings == [] && JsonWriting.Means(tree, v.value)
    ensures v.Read? && v.warnings == [] ==> exists doc :: Spells(doc, json) && Quiet(doc) && v.value == Made(doc)
  {
    hide Spells, Quiet, Made, Clean, ValueOf, Tokenizer.DocAt, Tokenizer.DocRead;
    hide JsonWriting.Good, JsonWriting.Blank, JsonWriting.Write, JsonWriting.Means, JsonWriting.DocOf;
    var tokenizer := new Tokenizer(json, tables);
    forall doc ensures Quiet(doc) && Made(doc) == ValueOf(doc, Kept) <==> Clean(doc) {
      MadeRightIff(doc);
    }
    forall tree, w | JsonWriting.Good(tree) && JsonWriting.Blank(w) && json == JsonWriting.Write(tree, w)
      ensures exists doc :: Spells(doc, json) && Clean(doc) && JsonWriting.Means(tree, ValueOf(doc, Kept)) {
      JsonWriting.WrittenDoc(tree, w);
      SpelledAs(JsonWriting.DocOf(tree, w), json);
    }
    forall doc | Spells(doc, json)
      ensures json != "" && json[0] != '\n' && tokenizer.DocAt(0, doc) && |Spell(doc)| == |json|
    {
      SpelledText(tokenizer, doc);
    }
    if |json| == 0 {
      return Nothing;
    }
    ghost var hint := None;
    if doc :| Spells(doc, json) && Quiet(doc) { hint := Some(doc); }
    var r;
    ghost var read;
    r, read := tokenizer.Tokenize(hint);
    if r.Thrown? {
      if !tokenizer.Countable() {
        // The count of lines for the first warning never ends: see CountEndsIff.
        return Endless;
      }
      tokenizer.Warn(r.message);
      tokenizer.Warn(Stopping);
      return Stopped(r.message, tokenizer.warnings);
    }
    if tokenizer.cursor != |json| {
      tokenizer.Warn(UnexpectedContent);
    }
    v := Read(r.value, tokenizer.warnings);
    if v.warnings == [] { OnlyReading(tokenizer, read, r.value); }
  }

  // ---------- What is not read ----------

  /** The text of a value starts and ends with something else than white space. */
  lemma {:induction false} SpellEnds(doc: Doc)
    requires JsonText.Valid(doc)
    ensures Spell(doc) != "" && !IsWhite(Spell(doc)[0]) && !IsWhite(Spell(doc)[|Spell(doc)| - 1])
  {
    hide IsWhite, Numeral.Spell, SpellPieces, SpellItems, SpellMembers;
    SpellStarts(doc);
    NotWhite(Spell(doc)[0]);
    NotWhite(Spell(doc)[|Spell(doc)| - 1]);
    match doc
    case DocNull => NotWhiteLetter('l');
    case DocBool(_) => NotWhiteLetter('e');
    case DocNumber(n) => NumeralEnds(n);
    case DocText(_) =>
    case DocArray(_, items) => if items != [] { ItemsEnd(items); }
    case DocObject(_, members) => if members != [] { MembersEnd(members); }
  }

  lemma NotWhiteLetter(c: char)
    requires 'a' <= c <= 'z'
    ensures !IsWhite(c)
  {
  }

  lemma NumeralEnds(n: Numeral)
    requires n.Valid()
    ensures n.Spell() != "" && !IsWhite(n.Spell()[|n.Spell()| - 1])
  {
    hide IsWhite;
    var c := n.Spell()[|n.Spell()| - 1];
    assert IsDigit(c);
    NotWhite(c);
  }

  lemma {:induction false} ItemsEnd(items: seq<Item>)
    requires items != []
    ensures var s := SpellItems(items); s != "" && s[|s| - 1] == ']'
  {
    hide Spell;
    if |items| > 1 {
      ItemsEnd(items[1..]);
    }
  }

  lemma {:induction false} MembersEnd(members: seq<Member>)
    requires members != []
    ensures var s := SpellMembers(members); s != "" && s[|s| - 1] == '}'
  {
    hide Spell, Quoted;
    if |members| > 1 {
      MembersEnd(members[1..]);
    }
  }

  /** A value with white space around it is spelled by nothing: the tokenizer does not skip that. */
  lemma NoSpaceAround(w: string, doc: Doc, w2: string)
    requires AllWhite(w) && JsonText.Valid(doc) && AllWhite(w2)
    ensures (exists d :: Spells(d, w + Spell(doc) + w2)) <==> w == "" && w2 == ""
  {
    hide IsWhite, JsonText.Valid, Spell;
    var s := w + Spell(doc) + w2;
    SpellEnds(doc);
    if w == "" && w2 == "" {
      assert s == Spell(doc);
      assert Spells(doc, s);
    } else {
      forall d ensures !Spells(d, s) {
        if Spells(d, s) {
          SpellEnds(d);
          SpaceOutside(w, Spell(doc), w2);
        }
      }
    }
  }

  lemma SpaceOutside(w: string, t: string, w2: string)
    requires AllWhite(w) && AllWhite(w2) && (w != "" || w2 != "") && t != ""
    ensures var s := w + t + w2; IsWhite(s[0]) || IsWhite(s[|s| - 1])
  {
    hide IsWhite;
    var s := w + t + w2;
    if w != "" {
      assert s[0] == w[0];
    } else {
      assert s[|s| - 1] == w2[|w2| - 1];
    }
  }

  function One(name: string, value: Doc): Member {
    Member("", seq(|name|, i requires 0 <= i < |name| => Plain(name[i])), "", "", value, "")
  }

  function TwoMembers(first: string, second: string): Doc {
    DocObject("", [One(first, DocNull), One(second, DocNull)])
  }

  predicate PlainText(s: string) {
    forall i :: 0 <= i < |s| ==> Plain(s[i]).Valid()
  }

  lemma {:induction false} PlainName(name: string, value: Doc)
    requires PlainText(name)
    ensures PiecesValid(One(name, value).name) && NameOf(One(name, value)) == name
  {
    if name != "" {
      var n := |name| - 1;
      PlainName(name[..n], value);
      assert One(name, value).name[..n] == One(name[..n], value).name;
    }
  }

  lemma OneValid(name: string, value: Doc)
    requires PlainText(name) && JsonText.Valid(value)
    ensures MemberValid(One(name, value)) && NameOf(One(name, value)) == name && One(name, value).value == value
  {
    hide PiecesValid, NameOf;
    PlainName(name, value);
  }

  lemma OneQuiet(m: Member)
    ensures MadeObject([m]) == Assigned(Object(map[], Standard), NameOf(m), Made(m.value))
    ensures QuietMembers([m]) <==> Quiet(m.value)
  {
    hide NameOf, Quiet, Made;
    assert [m][..0] == [];
  }

  lemma TwoQuiet(m: Member, m2: Member)
    ensures QuietMembers([m, m2]) <==>
      QuietMembers([m]) && IsNew(MadeObject([m]), NameOf(m2)) && Quiet(m2.value)
  {
    hide NameOf, Quiet, Made, IsNew, MadeObject;
    assert [m, m2][..1] == [m];
  }

  lemma TwoClean(m: Member, m2: Member)
    ensures NamesClean([m, m2]) <==>
      NameOf(m) != NameOf(m2) && NameOf(m) != HAS_OWN && NameOf(m) != PROTO && NameOf(m2) != PROTO
  {
    assert [m, m2][0] == m && [m, m2][1] == m2;
  }

  lemma OneClean(m: Member)
    ensures NamesClean([m]) <==> NameOf(m) != PROTO
  {
    assert [m][0] == m;
  }

  lemma TwoMembersNames(first: string, second: string)
    requires PlainText(first) && PlainText(second)
    ensures JsonText.Valid(TwoMembers(first, second))
    ensures Clean(TwoMembers(first, second)) <==>
      first != second && first != HAS_OWN && first != PROTO && second != PROTO
    ensures Quiet(TwoMembers(first, second)) <==>
      first != second && first != HAS_OWN && first != PROTO
  {
    hide HAS_OWN, PROTO, PiecesValid, NameOf, MemberValid, PlainText, MadeObject, QuietMembers, NamesClean;
    OneValid(first, DocNull);
    OneValid(second, DocNull);
    var m, m2 := One(first, DocNull), One(second, DocNull);
    TwoClean(m, m2);
    assert forall i :: 0 <= i < 2 ==> CleanMember([m, m2][i]);
    OneQuiet(m);
    TwoQuiet(m, m2);
  }

  /** A member called `hasOwnProperty` is read well if it is the last, and not if another follows. */
  lemma HasOwnPropertyFails()
    ensures JsonText.Valid(TwoMembers("a", "hasOwnProperty")) && Clean(TwoMembers("a", "hasOwnProperty"))
    ensures JsonText.Valid(TwoMembers("hasOwnProperty", "a")) && !Quiet(TwoMembers("hasOwnProperty", "a"))
  {
    hide TwoMembers, Clean, Quiet;
    TwoMembersNames("a", "hasOwnProperty");
    TwoMembersNames("hasOwnProperty", "a");
  }

  lemma ObjectOfOne(m: Member)
    ensures Quiet(DocObject("", [m])) <==> Quiet(m.value)
    ensures Made(DocObject("", [m])) == Assigned(Object(map[], Standard), NameOf(m), Made(m.value))
  {
    hide NameOf, QuietMembers, MadeObject, Assigned;
    OneQuiet(m);
  }

  /** After `"__proto__":null` no member can be read, and before the end it is read without a warning, but is no
      member. A value that cannot be a prototype is lost. */
  lemma ProtoFails()
    ensures JsonText.Valid(TwoMembers("__proto__", "a")) && !Quiet(TwoMembers("__proto__", "a"))
    ensures JsonText.Valid(TwoMembers("a", "__proto__")) && Quiet(TwoMembers("a", "__proto__"))
      && !Clean(TwoMembers("a", "__proto__"))
    ensures var doc := DocObject("", [One("__proto__", DocBool(true))]);
      JsonText.Valid(doc) && Quiet(doc) && !Clean(doc) && Made(doc) == Object(map[], Standard)
  {
    hide TwoMembers, One, MemberValid, NameOf, NamesClean, MadeObject, QuietMembers;
    TwoMembersNames("__proto__", "a");
    TwoMembersNames("a", "__proto__");
    var m := One("__proto__", DocBool(true));
    OneValid("__proto__", DocBool(true));
    OneClean(m);
    ObjectOfOne(m);
  }
}
