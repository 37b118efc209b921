/** Writing templates, the other way round: what is written is read as what it was written from. */
module Writing {
  import opened Tokens
  import opened Scanning
  import opened Stripping
  import opened Parsing

  /** A character of text, a tag, an unescaped tag in three braces, or a change of delimiters. */
  datatype Part =
    | Char(c: char)
    | Tag(kind: Kind, name: string)
    | Triple(name: string)
    | NewTags(open: string, close: string)

  function TagText(kind: Kind, name: string): string {
    match kind
    case Section => "#" + name
    case Inverted => "^" + name
    case Close => "/" + name
    case Partial => ">" + name
    case Unescaped => "&" + name
    case Comment => "!" + name
    case _ => name
  }

  function PartText(d: Delims, p: Part): string {
    match p
    case Char(c) => [c]
    case Tag(kind, name) => d.open + TagText(kind, name) + d.close
    case Triple(name) => d.open + ("{" + name + "}") + d.close
    case NewTags(open, close) => d.open + ("=" + open + " " + close + "=") + d.close
  }

  /** The delimiters after the parts. */
  function After(d: Delims, parts: seq<Part>): Delims {
    if parts == [] then d else
    var p := parts[|parts| - 1];
    if p.NewTags? then Delims(p.open, p.close) else After(d, parts[..|parts| - 1])
  }

  function Written(d: Delims, parts: seq<Part>): string {
    if parts == [] then "" else
    var n := |parts| - 1;
    Written(d, parts[..n]) + PartText(After(d, parts[..n]), parts[n])
  }

  function TokenOf(p: Part, start: nat, end: nat): Token {
    match p
    case Char(c) => Token(Text, [c], start, end)
    case Tag(kind, name) => Token(kind, name, start, end)
    case Triple(name) => Token(Unescaped, name, start, end)
    case NewTags(open, close) => Token(SetTags, open + " " + close, start, end)
  }

  function TokensOf(d: Delims, parts: seq<Part>): seq<Token> {
    if parts == [] then [] else
    var n := |parts| - 1;
    TokensOf(d, parts[..n]) + [TokenOf(parts[n], |Written(d, parts[..n])|, |Written(d, parts)|)]
  }

  /** A word without white space. */
  predicate Word(s: string) {
    s != "" && forall i :: 0 <= i < |s| ==> !IsSpace(s[i])
  }

  predicate GoodDelims(d: Delims) {
    Word(d.open) && Word(d.close)
  }

  predicate Without(s: string, c: char) {
    forall i :: 0 <= i < |s| ==> s[i] != c
  }

  /** A name that is not mistaken for anything else: no white space outside, no closing delimiter inside. */
  predicate GoodName(d: Delims, name: string)
    requires d.close != ""
  {
    name != "" && !IsSpace(name[0]) && !IsSpace(name[|name| - 1]) && Without(name, d.close[0])
  }

  predicate Good(d: Delims, p: Part) {
    GoodDelims(d) &&
    match p
    case Char(c) => c != d.open[0]
    case Tag(kind, name) =>
      && GoodName(d, name) && !kind.Text? && !kind.SetTags?
      && (kind.Name? ==> name[0] !in "#^/>{&=!")
    case Triple(name) => GoodName(d, name) && Without(name, '}')
    case NewTags(open, close) =>
      Word(open) && Word(close) && Without(open, '=') && Without(close, '=')
  }

  predicate AllGood(d: Delims, parts: seq<Part>) {
    forall i :: 0 <= i < |parts| ==> Good(After(d, parts[..i]), parts[i])
  }

  const PLAIN := Layout("", false, "", "", "", "")
  const BRACED := Layout("", true, "", "", "", "")

  function LayoutOf(p: Part): Layout {
    if p.Triple? then BRACED else PLAIN
  }

  function LayoutsOf(parts: seq<Part>): (ls: seq<Layout>)
    ensures |ls| == |parts|
  {
    seq(|parts|, i requires 0 <= i < |parts| => LayoutOf(parts[i]))
  }

  // ---------- Single tags ----------

  /** Up to a literal that cannot start earlier. */
  lemma ValueEnds(value: string, literal: string, rest: string)
    requires literal != "" && !IsSpace(literal[0]) && Without(value, literal[0])
    requires value != "" ==> !IsSpace(value[|value| - 1])
    ensures UpTo(value + literal + rest, value, "", literal)
  {
    hide IsSpace;
    var s := value + literal + rest;
    assert value + "" + literal == value + literal <= s;
    forall i | 0 <= i < |value| ensures !(literal <= s[i..]) {
      assert s[i..][0] == value[i];
    }
    forall i | |value| < i <= |s| ensures !AllSpace(s[|value|..i]) {
      assert s[|value|..i][0] == literal[0];
    }
  }

  lemma NoSpaceFirst(s: string)
    requires s != "" ==> !IsSpace(s[0])
    ensures Fills("", s)
  {
    assert AllSpace("");
  }

  /** A tag from its parts, without white space around the sigil. */
  lemma TagPut(d: Delims, kind: Kind, brace: bool, value: string, l: Layout, tail: string)
    requires l == if brace then BRACED else PLAIN
    requires var sigil := SigilOf(kind, brace); Fills("", sigil + tail) && SigilAt(sigil + tail) == sigil
    requires Fills("", tail) && ValueAt(tail, d, kind, value, l)
    ensures TagAt(d.open + SigilOf(kind, brace) + tail, d, kind, value, l)
  {
    hide Fills, SigilAt, SigilOf, ValueAt;
    var sigil := SigilOf(kind, brace);
    var s := d.open + sigil + tail;
    assert s[|d.open|..] == sigil + tail && s[|d.open| + |sigil|..] == tail;
  }

  lemma PlainTag(d: Delims, kind: Kind, name: string, rest: string)
    requires Good(d, Tag(kind, name))
    ensures TagAt(PartText(d, Tag(kind, name)) + rest, d, kind, name, PLAIN)
  {
    hide IsSpace, UpTo, Without, Fills, SigilAt, SigilOf, TagText, TagAt, ValueAt;
    var sigil, tail := SigilOf(kind, false), name + d.close + rest;
    SigilText(kind, name);
    assert PartText(d, Tag(kind, name)) + rest == d.open + sigil + tail;
    assert name + (d.close + rest) == tail;
    SigilFirst(kind, name, d.close + rest);
    NoSpaceFirst(sigil + tail);
    NoSpaceFirst(tail);
    ValueEnds(name, d.close, rest);
    PlainValue(tail, d, kind, name, "");
    TagPut(d, kind, false, name, PLAIN, tail);
  }

  lemma BracedTag(d: Delims, name: string, rest: string)
    requires Good(d, Triple(name))
    ensures TagAt(PartText(d, Triple(name)) + rest, d, Unescaped, name, BRACED)
  {
    hide IsSpace, UpTo, Without, Fills, SigilAt, TagAt, ValueAt;
    var tail := name + "}" + d.close + rest;
    assert PartText(d, Triple(name)) + rest == d.open + "{" + tail;
    BraceFirst(tail);
    assert ("{" + tail)[0] == '{' && tail[0] == name[0];
    NoSpaceFirst("{" + tail);
    NoSpaceFirst(tail);
    BracedValue(d, name, rest);
    TagPut(d, Unescaped, true, name, BRACED, tail);
  }

  lemma BraceFirst(tail: string)
    ensures SigilAt("{" + tail) == "{" && SigilOf(Unescaped, true) == "{"
    ensures SigilAt("=" + tail) == "=" && SigilOf(SetTags, false) == "="
    ensures !IsSpace('{') && !IsSpace('}') && !IsSpace('=')
  {
  }

  lemma BracedValue(d: Delims, name: string, rest: string)
    requires Good(d, Triple(name))
    ensures ValueAt(name + "}" + d.close + rest, d, Unescaped, name, BRACED)
  {
    hide IsSpace, UpTo;
    var tail := name + "}" + d.close + rest;
    BraceFirst("");
    ValueEnds(name, "}" + d.close, rest);
    assert name + ("}" + d.close) + rest == tail;
    ValueEnds("", d.close, rest);
    assert tail[|name| + 1..] == "" + d.close + rest;
  }

  lemma NewTagsTag(d: Delims, open: string, close: string, rest: string)
    requires Good(d, NewTags(open, close))
    ensures TagAt(PartText(d, NewTags(open, close)) + rest, d, SetTags, open + " " + close, PLAIN)
  {
    hide IsSpace, UpTo, Without, Fills, SigilAt, TagAt, ValueAt;
    var value := open + " " + close;
    var tail := value + "=" + d.close + rest;
    assert PartText(d, NewTags(open, close)) + rest == d.open + "=" + tail;
    BraceFirst(tail);
    NoSpaceFirst("=" + tail);
    assert tail[0] == open[0];
    NoSpaceFirst(tail);
    NewTagsValue(d, open, close, rest);
    TagPut(d, SetTags, false, value, PLAIN, tail);
  }

  lemma NewTagsValue(d: Delims, open: string, close: string, rest: string)
    requires Good(d, NewTags(open, close))
    ensures ValueAt(open + " " + close + "=" + d.close + rest, d, SetTags, open + " " + close, PLAIN)
  {
    hide IsSpace, UpTo;
    var value := open + " " + close;
    var tail := value + "=" + d.close + rest;
    BraceFirst("");
    assert value[|value| - 1] == close[|close| - 1];
    ValueEnds(value, "=", d.close + rest);
    assert value + "=" + (d.close + rest) == tail;
    ValueEnds("", d.close, rest);
    assert tail[|value| + 1..] == "" + d.close + rest;
  }

  // ---------- Whole templates ----------

  lemma {:induction false} SplitWord(s: string)
    requires Word(s)
    ensures Split(s) == [s]
  {
    if |s| > 1 {
      SplitWord(s[1..]);
      assert s == [s[0]] + s[1..];
    } else {
      assert s[1..] == "" && s == [s[0]];
      assert Split("") == [""];
      assert [s[0]] + "" == s;
    }
  }

  lemma SplitSpace(t: string)
    requires Word(t)
    ensures Split(" " + t) == ["", t]
  {
    hide Split;
    var u := " " + t;
    assert u[1..] == t && Spaces(u) == 1 + Spaces(t) && Spaces(t) == 0;
    SplitWord(t);
    SplitStep(u);
  }

  lemma SplitStep(s: string)
    requires s != ""
    ensures IsSpace(s[0]) ==> Split(s) == [""] + Split(s[Spaces(s)..])
    ensures !IsSpace(s[0]) ==> Split(s) == [[s[0]] + Split(s[1..])[0]] + Split(s[1..])[1..]
  {
    hide IsSpace, Spaces;
  }

  lemma {:induction false} SplitTwo(s: string, t: string)
    requires (forall i :: 0 <= i < |s| ==> !IsSpace(s[i])) && Word(t)
    ensures Split(s + " " + t) == [s, t]
  {
    hide Split, IsSpace, Spaces, Word;
    var u := s + " " + t;
    if s == "" {
      assert u == " " + t;
      SplitSpace(t);
    } else {
      SplitTwo(s[1..], t);
      assert u[1..] == s[1..] + " " + t && s == [s[0]] + s[1..];
      SplitStep(u);
    }
  }

  /** The token of a part, at the part's place in the template. */
  /** How the token of a tag is spelled. */
  lemma PartSpelled(d: Delims, p: Part, start: nat, end: nat)
    requires Good(d, p) && !p.Char?
    ensures Spelled(d, TokenOf(p, start, end), LayoutOf(p)) == PartText(d, p)
  {
    hide IsSpace, Without, SigilOf, TagText;
    BraceFirst("");
    match p
    case Tag(kind, name) =>
      SigilText(kind, name);
      assert d.open + "" + SigilOf(kind, false) + "" + name + "" + d.close == PartText(d, p);
    case Triple(name) =>
      assert d.open + "" + "{" + "" + name + ("" + "}" + ("" + "")) + d.close == PartText(d, p);
    case NewTags(open, close) =>
      assert d.open + "" + "=" + "" + (open + " " + close) + ("" + "=" + ("" + "")) + d.close == PartText(d, p);
  }

  /** Where a tag is, that tag is read. */
  lemma PartTag(d: Delims, p: Part, rest: string)
    requires Good(d, p) && !p.Char?
    ensures var t := TokenOf(p, 0, 0);
      !t.kind.Text? && Neat(t.value) && TagAt(PartText(d, p) + rest, d, t.kind, t.value, LayoutOf(p))
  {
    hide IsSpace, Without, TagAt, Neat, PartText;
    match p
    case Tag(kind, name) =>
      PlainTag(d, kind, name, rest);
      NameNeat(name);
    case Triple(name) =>
      BracedTag(d, name, rest);
      NameNeat(name);
    case NewTags(open, close) =>
      NewTagsTag(d, open, close, rest);
      var value := open + " " + close;
      assert value[0] == open[0] && value[|value| - 1] == close[|close| - 1];
      NameNeat(value);
  }

  /** The token of a part, at the part's place in the template. */
  lemma PartRead(template: string, d: Delims, p: Part, start: nat, rest: string)
    requires Good(d, p) && start <= |template| && template[start..] == PartText(d, p) + rest
    ensures start + |PartText(d, p)| <= |template|
    ensures TokenOK(template, d, TokenOf(p, start, start + |PartText(d, p)|), LayoutOf(p))
  {
    hide IsSpace, Without, TagAt, Neat, Spelled;
    var end := start + |PartText(d, p)|;
    var t := TokenOf(p, start, end);
    assert template[start..end] == template[start..][..end - start] == PartText(d, p);
    assert LayoutOf(p).Spaced();
    if p.Char? {
      CharOK(template, d, t, LayoutOf(p));
    } else {
      PartTag(d, p, rest);
      PartSpelled(d, p, start, end);
    }
  }

  lemma SamePlace(d: Delims, parts: seq<Part>)
    ensures End(TokensOf(d, parts)) == |Written(d, parts)|
  {
    hide PartText, After;
  }

  lemma {:induction false} SameDelims(d: Delims, parts: seq<Part>)
    requires AllGood(d, parts)
    ensures DelimsAfter(d, TokensOf(d, parts)) == After(d, parts)
    decreases |parts|
  {
    if parts != [] {
      hide Written, Word, Split, DelimsAfter, Without, GoodName;
      var n := |parts| - 1;
      var p, start, end := parts[n], |Written(d, parts[..n])|, |Written(d, parts)|;
      assert Good(After(d, parts[..n]), p);
      assert forall i :: 0 <= i < n ==> parts[..n][..i] == parts[..i];
      SameDelims(d, parts[..n]);
      DelimsNext(d, TokensOf(d, parts[..n]), TokenOf(p, start, end));
      if p.NewTags? {
        WordSpaceless(p.open);
        SplitTwo(p.open, p.close);
      }
    } else {
      assert DelimsAfter(d, []) == d;
    }
  }

  lemma WordSpaceless(s: string)
    requires Word(s)
    ensures forall i :: 0 <= i < |s| ==> !IsSpace(s[i])
  {
  }

  lemma NothingWritten(d: Delims)
    ensures Written(d, []) == "" && TokensOf(d, []) == [] && LayoutsOf([]) == []
  {
  }

  lemma WrittenStep(d: Delims, parts: seq<Part>)
    requires parts != []
    ensures var n := |parts| - 1; var before, text := Written(d, parts[..n]), PartText(After(d, parts[..n]), parts[n]);
      && Written(d, parts) == before + text
      && TokensOf(d, parts) == TokensOf(d, parts[..n]) + [TokenOf(parts[n], |before|, |before| + |text|)]
      && LayoutsOf(parts) == LayoutsOf(parts[..n]) + [LayoutOf(parts[n])]
  {
    hide Written, TokensOf, LayoutsOf, PartText, After, TokenOf, LayoutOf;
    TextStep(d, parts);
    TokensStep(d, parts);
    LayoutsStep(parts);
  }

  lemma TextStep(d: Delims, parts: seq<Part>)
    requires parts != []
    ensures var n := |parts| - 1; Written(d, parts) == Written(d, parts[..n]) + PartText(After(d, parts[..n]), parts[n])
  {
    hide PartText, After;
  }

  lemma TokensStep(d: Delims, parts: seq<Part>)
    requires parts != []
    ensures var n := |parts| - 1;
      TokensOf(d, parts) ==
        TokensOf(d, parts[..n]) + [TokenOf(parts[n], |Written(d, parts[..n])|, |Written(d, parts)|)]
  {
    hide Written, TokenOf;
  }

  lemma LayoutsStep(parts: seq<Part>)
    requires parts != []
    ensures var n := |parts| - 1; LayoutsOf(parts) == LayoutsOf(parts[..n]) + [LayoutOf(parts[n])]
  {
    hide LayoutOf;
  }

  /** What is written from parts is read as their tokens, whatever follows it. */
  lemma {:induction false} WrittenReads(d: Delims, parts: seq<Part>, rest: string)
    requires AllGood(d, parts)
    ensures Reads(Written(d, parts) + rest, d, TokensOf(d, parts), LayoutsOf(parts))
    decreases |parts|
  {
    hide Reads, TokenOK, Good, PartText, Written, TokensOf, LayoutsOf, After;
    if parts == [] {
      NothingWritten(d);
      NothingReads(rest, d);
      assert Written(d, parts) + rest == rest;
    } else {
      var n := |parts| - 1;
      var before, now := Written(d, parts[..n]), After(d, parts[..n]);
      var text := PartText(now, parts[n]);
      var template := Written(d, parts) + rest;
      WrittenStep(d, parts);
      assert template == before + (text + rest) && template[|before|..] == text + rest;
      assert forall i :: 0 <= i < n ==> parts[..n][..i] == parts[..i];
      WrittenReads(d, parts[..n], text + rest);
      SamePlace(d, parts[..n]);
      SameDelims(d, parts[..n]);
      PartRead(template, now, parts[n], |before|, rest);
      ReadsNext(template, d, TokensOf(d, parts[..n]), LayoutsOf(parts[..n]),
        TokenOf(parts[n], |before|, |before| + |text|), LayoutOf(parts[n]));
    }
  }

  lemma NothingReads(template: string, d: Delims)
    ensures Reads(template, d, [], [])
  {
  }

  lemma {:induction false} WrittenPaired(d: Delims, parts: seq<Part>)
    requires AllGood(d, parts)
    ensures Paired(TokensOf(d, parts))
    decreases |parts|
  {
    if parts == [] {
      NothingWritten(d);
    } else {
      hide Written, Word, Split, TokensOf, After, Without, GoodName;
      TokensStep(d, parts);
      var n := |parts| - 1;
      assert Good(After(d, parts[..n]), parts[n]);
      assert forall i :: 0 <= i < n ==> parts[..n][..i] == parts[..i];
      WrittenPaired(d, parts[..n]);
      if parts[n].NewTags? { WordSpaceless(parts[n].open); SplitTwo(parts[n].open, parts[n].close); }
      PairedNext(TokensOf(d, parts[..n]), TokenOf(parts[n], |Written(d, parts[..n])|, |Written(d, parts)|));
    }
  }

  /** A template written from parts with balanced sections parses, and comes to the tokens of these parts. */
  lemma WrittenParses(d: Delims, parts: seq<Part>)
    requires AllGood(d, parts) && Balanced(TokensOf(d, parts))
    ensures ComesTo(Written(d, parts), d, TokensOf(d, parts), LayoutsOf(parts), Fine)
  {
    hide Reads, Paired, OpenAfter, TokensOf, Written;
    WrittenReads(d, parts, "");
    assert Written(d, parts) + "" == Written(d, parts);
    WrittenPaired(d, parts);
    SamePlace(d, parts);
  }

  lemma NameNeat(name: string)
    requires name != "" && !IsSpace(name[0]) && !IsSpace(name[|name| - 1])
    ensures Neat(name) && AllSpace("")
  {
  }

  lemma SigilText(kind: Kind, name: string)
    requires !kind.Text? && !kind.SetTags?
    ensures TagText(kind, name) == SigilOf(kind, false) + name
  {
  }

  lemma SigilFirst(kind: Kind, name: string, rest: string)
    requires !kind.Text? && !kind.SetTags? && name != "" && !IsSpace(name[0])
    requires kind.Name? ==> name[0] !in "#^/>{&=!"
    ensures SigilAt(SigilOf(kind, false) + (name + rest)) == SigilOf(kind, false)
    ensures !IsSpace((SigilOf(kind, false) + (name + rest))[0])
  {
  }
}
