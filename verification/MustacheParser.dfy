/** Which white space a template's tags swallow. */
module Stripping {
  import opened Tokens
  import opened Scanning

  predicate Blank(t: Token) {
    t.kind.Text? && |t.value| == 1 && IsSpace(t.value[0])
  }

  predicate Newline(t: Token) {
    t.kind.Text? && t.value == "\n"
  }

  /** What keeps a line from being stripped. */
  predicate Solid(t: Token) {
    (t.kind.Text? && !Blank(t)) || t.kind.Name? || t.kind.Unescaped?
  }

  predicate HasTag(ts: seq<Token>, lo: nat, hi: nat)
    requires lo <= hi <= |ts|
  {
    exists i :: lo <= i < hi && !ts[i].kind.Text?
  }

  predicate HasSolid(ts: seq<Token>, lo: nat, hi: nat)
    requires lo <= hi <= |ts|
  {
    exists i :: lo <= i < hi && Solid(ts[i])
  }

  /** The tokens of a line, up to and including its newline. */
  predicate IsLine(ts: seq<Token>, lo: nat, hi: nat) {
    && lo < hi <= |ts| && (lo == 0 || Newline(ts[lo - 1])) && Newline(ts[hi - 1])
    && forall i :: lo <= i < hi - 1 ==> !Newline(ts[i])
  }

  /** A line with a tag and otherwise only white space. */
  predicate Standalone(ts: seq<Token>, lo: nat, hi: nat)
    requires lo <= hi <= |ts|
  {
    HasTag(ts, lo, hi) && !HasSolid(ts, lo, hi)
  }

  /** Token i is white space on a standalone line. */
  ghost predicate Stripped(ts: seq<Token>, i: nat)
    requires i < |ts|
    ensures Stripped(ts, i) ==> ts[i].kind.Text?
  {
    Blank(ts[i]) && exists lo: nat, hi: nat :: IsLine(ts, lo, hi) && lo <= i < hi && Standalone(ts, lo, hi)
  }

  ghost function Strip(ts: seq<Token>): (slots: seq<Slot>)
    ensures |slots| == |ts|
    ensures forall i :: 0 <= i < |ts| ==> slots[i] == if Stripped(ts, i) then Hole else Kept(ts[i])
  {
    seq(|ts|, i requires 0 <= i < |ts| => if Stripped(ts, i) then Hole else Kept(ts[i]))
  }

  /** The last line, not ended yet, starts at line. */
  predicate Unfinished(ts: seq<Token>, line: nat) {
    line <= |ts| && (line == 0 || Newline(ts[line - 1])) && forall i :: line <= i < |ts| ==> !Newline(ts[i])
  }

  /** The lines before stay lines when a token is added, and it ends a line exactly if it is a newline. */
  lemma LinesAfter(ts: seq<Token>, line: nat, t: Token, lo: nat, hi: nat)
    requires Unfinished(ts, line)
    ensures hi <= |ts| ==> (IsLine(ts + [t], lo, hi) <==> IsLine(ts, lo, hi))
    ensures hi > |ts| ==> (IsLine(ts + [t], lo, hi) <==> Newline(t) && lo == line && hi == |ts| + 1)
    ensures hi <= |ts| && IsLine(ts, lo, hi) ==> hi <= line
    ensures hi <= |ts| && lo <= hi ==> (Standalone(ts + [t], lo, hi) <==> Standalone(ts, lo, hi))
  {
    hide Newline;
    var us := ts + [t];
    assert forall i :: 0 <= i < |ts| ==> us[i] == ts[i];
  }

  lemma StrippedEarlier(ts: seq<Token>, line: nat, t: Token, i: nat)
    requires Unfinished(ts, line) && i < line
    ensures Stripped(ts + [t], i) <==> Stripped(ts, i)
  {
    hide Newline, Standalone, Blank;
    var us := ts + [t];
    assert us[i] == ts[i];
    if Stripped(us, i) {
      var lo: nat, hi: nat :| IsLine(us, lo, hi) && lo <= i < hi && Standalone(us, lo, hi);
      LinesAfter(ts, line, t, lo, hi);
    }
    if Stripped(ts, i) {
      var lo: nat, hi: nat :| IsLine(ts, lo, hi) && lo <= i < hi && Standalone(ts, lo, hi);
      LinesAfter(ts, line, t, lo, hi);
    }
  }

  /** Nothing on an unfinished line is stripped. */
  lemma UnstrippedYet(ts: seq<Token>, line: nat, i: nat)
    requires Unfinished(ts, line) && line <= i < |ts|
    ensures !Stripped(ts, i)
  {
  }

  lemma StrippedLately(ts: seq<Token>, line: nat, t: Token, i: nat)
    requires Unfinished(ts, line) && line <= i <= |ts|
    ensures Stripped(ts + [t], i) <==> Newline(t) && Blank((ts + [t])[i]) && Standalone(ts + [t], line, |ts| + 1)
  {
    hide Newline, Standalone, Blank;
    var us := ts + [t];
    if Stripped(us, i) {
      var lo: nat, hi: nat :| IsLine(us, lo, hi) && lo <= i < hi && Standalone(us, lo, hi);
      LinesAfter(ts, line, t, lo, hi);
    }
    if Newline(t) {
      LinesAfter(ts, line, t, line, |ts| + 1);
    }
  }

  predicate EndsLine(t: Token) {
    t.kind == Text && t.value == "\n"
  }

  /** A token for one character of white space. */
  predicate White(t: Token) {
    t.kind == Text && |t.value| == 1 && IsSpace(t.value[0])
  }

  /** The tokens from lo to hi are a whole line. */
  predicate WholeLine(ts: seq<Token>, lo: nat, hi: nat) {
    && lo < hi <= |ts| && EndsLine(ts[hi - 1]) && (lo > 0 ==> EndsLine(ts[lo - 1]))
    && forall k :: lo <= k < hi - 1 ==> !EndsLine(ts[k])
  }

  /** The line has sections, partials, comments or new delimiters on it, and nothing else but white space. */
  predicate NothingShown(ts: seq<Token>, lo: nat, hi: nat)
    requires lo <= hi <= |ts|
  {
    && (exists k :: lo <= k < hi && ts[k].kind != Text)
    && forall k :: lo <= k < hi ==>
         White(ts[k]) || ts[k].kind in {Section, Inverted, Close, Partial, Comment, SetTags}
  }

  /** Of a whole line, exactly the white space of one that shows nothing is stripped; the line break is part of it. */
  lemma StrippedIff(ts: seq<Token>, lo: nat, hi: nat, i: nat)
    requires WholeLine(ts, lo, hi) && lo <= i < hi
    ensures Stripped(ts, i) <==> White(ts[i]) && NothingShown(ts, lo, hi)
  {
    hide IsSpace;
    assert IsLine(ts, lo, hi);
    NothingShownIff(ts, lo, hi);
    if Stripped(ts, i) {
      var lo': nat, hi': nat :| IsLine(ts, lo', hi') && lo' <= i < hi' && Standalone(ts, lo', hi');
      OneLine(ts, lo, hi, lo', hi', i);
    }
  }

  lemma OneLine(ts: seq<Token>, lo: nat, hi: nat, lo': nat, hi': nat, i: nat)
    requires IsLine(ts, lo, hi) && IsLine(ts, lo', hi') && lo <= i < hi && lo' <= i < hi'
    ensures lo == lo' && hi == hi'
  {
    hide Newline;
    assert (lo == 0 || Newline(ts[lo - 1])) && (lo' == 0 || Newline(ts[lo' - 1]));
    assert Newline(ts[hi - 1]) && Newline(ts[hi' - 1]);
  }

  lemma NothingShownIff(ts: seq<Token>, lo: nat, hi: nat)
    requires lo <= hi <= |ts|
    ensures NothingShown(ts, lo, hi) <==> Standalone(ts, lo, hi)
  {
    hide IsSpace;
    forall k | lo <= k < hi
      ensures Solid(ts[k]) <==>
        !White(ts[k]) && ts[k].kind !in {Section, Inverted, Close, Partial, Comment, SetTags} {
    }
  }
}

/** Breaking a template up into tokens. */
module Parsing {
  import opened Tokens
  import opened Scanning
  import opened Stripping

  datatype Delims = Delims(open: string, close: string)

  /** The parts of a tag that its token does not keep. */
  datatype Layout = Layout(w1: string, brace: bool, w2: string, w3: string, junk: string, w4: string) {
    ghost predicate Spaced() {
      AllSpace(w1) && AllSpace(w2) && AllSpace(w3) && AllSpace(w4)
    }
  }

  function KindOf(sigil: string): Kind {
    match sigil
    case "#" => Section
    case "^" => Inverted
    case "/" => Close
    case ">" => Partial
    case "{" => Unescaped
    case "&" => Unescaped
    case "=" => SetTags
    case "!" => Comment
    case _ => Name
  }

  function SigilOf(kind: Kind, brace: bool): string {
    match kind
    case Section => "#"
    case Inverted => "^"
    case Close => "/"
    case Partial => ">"
    case Unescaped => if brace then "{" else "&"
    case SetTags => "="
    case Comment => "!"
    case _ => ""
  }

  /** What stands between a tag's value and its closing delimiter. */
  function After(kind: Kind, l: Layout): string {
    if kind.SetTags? then l.w3 + "=" + (l.junk + l.w4)
    else if kind.Unescaped? && l.brace then l.w3 + "}" + (l.junk + l.w4)
    else l.w3
  }

  /** A token written out. */
  function Spelled(d: Delims, t: Token, l: Layout): string {
    if t.kind.Text? then t.value
    else d.open + l.w1 + SigilOf(t.kind, l.brace) + l.w2 + t.value + After(t.kind, l) + d.close
  }

  /** The delimiters in force after some tokens. */
  function DelimsAfter(d: Delims, ts: seq<Token>): Delims {
    if ts == [] then d else
    var last := ts[|ts| - 1];
    if last.kind.SetTags? && |Split(last.value)| == 2 then Delims(Split(last.value)[0], Split(last.value)[1])
    else DelimsAfter(d, ts[..|ts| - 1])
  }

  /** All tokens written out. */
  function Unparse(d: Delims, ts: seq<Token>, ls: seq<Layout>): string
    requires |ts| == |ls|
  {
    if ts == [] then "" else
    var n := |ts| - 1;
    Unparse(d, ts[..n], ls[..n]) + Spelled(DelimsAfter(d, ts[..n]), ts[n], ls[n])
  }

  function End(ts: seq<Token>): nat {
    if ts == [] then 0 else ts[|ts| - 1].end
  }

  /** Each token starts where the one before ends. */
  ghost predicate Tiles(ts: seq<Token>) {
    forall i :: 0 <= i < |ts| ==> ts[i].start == End(ts[..i])
  }

  predicate Neat(value: string) {
    value != "" ==> !IsSpace(value[0]) && !IsSpace(value[|value| - 1])
  }

  /** The tags that end at the first closing delimiter. */
  predicate Plain(kind: Kind, brace: bool) {
    !kind.SetTags? && !(kind.Unescaped? && brace)
  }

  /** What ends the value of the other tags. */
  function Ender(kind: Kind, d: Delims): string {
    if kind.SetTags? then "=" else "}" + d.close
  }

  /** The value of a tag and what follows it, at the start of s. */
  ghost predicate ValueAt(s: string, d: Delims, kind: Kind, value: string, l: Layout) {
    if Plain(kind, l.brace) then UpTo(s, value, l.w3, d.close)
    else
      && UpTo(s, value, l.w3, Ender(kind, d)) && |value| + |l.w3| + 1 <= |s|
      && UpTo(s[|value| + |l.w3| + 1..], l.junk, l.w4, d.close)
  }

  function SigilAt(s: string): (sigil: string)
    ensures |sigil| <= |s|
  {
    if s != "" && s[0] in "#^/>{&=!" then [s[0]] else ""
  }

  /** A tag at the start of s: the opening delimiter, all white space after it, the sigil, if there is one, all white
      space after that, and the value up to its end. */
  ghost predicate TagAt(s: string, d: Delims, kind: Kind, value: string, l: Layout) {
    var i := |d.open|;
    var j := i + |l.w1|;
    var sigil := SigilOf(kind, l.brace);
    var k := j + |sigil|;
    && d.open <= s && Fills(l.w1, s[i..]) && sigil == SigilAt(s[j..]) && Fills(l.w2, s[k..])
    && ValueAt(s[k + |l.w2|..], d, kind, value, l)
  }

  /** The token stands for the template's text between its ends. Text is what does not start a tag. */
  ghost predicate TokenOK(template: string, d: Delims, t: Token, l: Layout) {
    && t.start <= t.end <= |template| && template[t.start..t.end] == Spelled(d, t, l) && l.Spaced()
    && (if t.kind.Text? then |t.value| == 1 && !(d.open <= template[t.start..])
        else Neat(t.value) && TagAt(template[t.start..], d, t.kind, t.value, l))
  }

  ghost predicate Reads(template: string, d: Delims, ts: seq<Token>, ls: seq<Layout>) {
    && |ts| == |ls| && Tiles(ts)
    && forall i :: 0 <= i < |ts| ==> TokenOK(template, DelimsAfter(d, ts[..i]), ts[i], ls[i])
  }

  lemma ReadsNext(template: string, d: Delims, ts: seq<Token>, ls: seq<Layout>, t: Token, l: Layout)
    requires Reads(template, d, ts, ls) && t.start == End(ts) && TokenOK(template, DelimsAfter(d, ts), t, l)
    ensures Reads(template, d, ts + [t], ls + [l])
  {
    hide TokenOK, DelimsAfter;
    var us, ms := ts + [t], ls + [l];
    forall i | 0 <= i < |us|
      ensures us[i].start == End(us[..i]) && TokenOK(template, DelimsAfter(d, us[..i]), us[i], ms[i]) {
      assert us[..i] == ts[..i];
      assert ts[..|ts|] == ts;
    }
  }

  lemma TokenSpelled(template: string, d: Delims, t: Token, l: Layout)
    requires TokenOK(template, d, t, l)
    ensures t.start <= t.end <= |template| && template[t.start..t.end] == Spelled(d, t, l)
  {
    hide TagAt;
  }

  /** Parsing loses nothing: the tokens and their layouts spell the template. */
  lemma {:induction false} UnparseReads(template: string, d: Delims, ts: seq<Token>, ls: seq<Layout>)
    requires Reads(template, d, ts, ls)
    ensures End(ts) <= |template| && Unparse(d, ts, ls) == template[..End(ts)]
  {
    hide Spelled, DelimsAfter, TokenOK;
    if ts != [] {
      var n := |ts| - 1;
      ReadsBefore(template, d, ts, ls, n);
      UnparseReads(template, d, ts[..n], ls[..n]);
      TokenSpelled(template, DelimsAfter(d, ts[..n]), ts[n], ls[n]);
      assert template[..ts[n].end] == template[..ts[n].start] + template[ts[n].start..ts[n].end];
    }
  }

  // ---------- There is only one way to read ----------

  lemma SigilTells(kind: Kind, brace: bool, kind': Kind, brace': bool)
    requires !kind.Text? && !kind'.Text? && SigilOf(kind, brace) == SigilOf(kind', brace')
    ensures kind == kind' && (kind.Unescaped? ==> brace == brace')
  {
  }

  lemma ValueOnce(s: string, d: Delims, kind: Kind, v: string, l: Layout, v': string, l': Layout)
    requires ValueAt(s, d, kind, v, l) && ValueAt(s, d, kind, v', l') && (kind.Unescaped? ==> l.brace == l'.brace)
    ensures v == v' && l.w3 == l'.w3 && (!Plain(kind, l.brace) ==> l.junk == l'.junk && l.w4 == l'.w4)
  {
    hide UpTo;
    if Plain(kind, l.brace) {
      UpToOnce(s, v, l.w3, v', l'.w3, d.close);
    } else {
      UpToOnce(s, v, l.w3, v', l'.w3, Ender(kind, d));
      UpToOnce(s[|v| + |l.w3| + 1..], l.junk, l.w4, l'.junk, l'.w4, d.close);
    }
  }

  lemma TagInside(s: string, d: Delims, k: Kind, v: string, l: Layout)
    requires TagAt(s, d, k, v, l)
    ensures |d.open| + |l.w1| + |SigilOf(k, l.brace)| + |l.w2| <= |s|
  {
    hide ValueAt;
  }

  /** At most one tag can be read anywhere. */
  lemma TagOnce(s: string, d: Delims, k: Kind, v: string, l: Layout, k': Kind, v': string, l': Layout)
    requires !k.Text? && !k'.Text? && TagAt(s, d, k, v, l) && TagAt(s, d, k', v', l')
    ensures k == k' && v == v' && l.w1 == l'.w1 && l.w2 == l'.w2 && SigilOf(k, l.brace) == SigilOf(k', l'.brace)
    ensures After(k, l) == After(k', l')
  {
    hide Fills, ValueAt, SigilAt;
    TagInside(s, d, k, v, l);
    TagInside(s, d, k', v', l');
    FillsOnce(l.w1, l'.w1, s[|d.open|..]);
    SigilTells(k, l.brace, k', l'.brace);
    FillsOnce(l.w2, l'.w2, s[|d.open| + |l.w1| + |SigilOf(k, l.brace)|..]);
    ValueOnce(s[|d.open| + |l.w1| + |SigilOf(k, l.brace)| + |l.w2|..], d, k, v, l, v', l');
  }

  lemma TokenOnce(template: string, d: Delims, t: Token, l: Layout, t': Token, l': Layout)
    requires TokenOK(template, d, t, l) && TokenOK(template, d, t', l') && t.start == t'.start
    ensures t == t'
  {
    hide Layout.Spaced, Neat, After;
    if !t.kind.Text? && !t'.kind.Text? {
      hide TagAt;
      TagOnce(template[t.start..], d, t.kind, t.value, l, t'.kind, t'.value, l');
      assert Spelled(d, t, l) == Spelled(d, t', l');
    } else if t.kind.Text? && t'.kind.Text? {
      assert template[t.start..t.end][0] == template[t'.start..t'.end][0];
    }
  }

  /** Two readings of a template agree as far as both go: the reading that goes to the end is the only one. */
  lemma {:induction false} ReadsOnce(template: string, d: Delims, ts: seq<Token>, ls: seq<Layout>, ts': seq<Token>,
      ls': seq<Layout>, n: nat)
    requires Reads(template, d, ts, ls) && Reads(template, d, ts', ls') && n <= |ts| && n <= |ts'|
    ensures ts[..n] == ts'[..n]
  {
    hide TokenOK, DelimsAfter, End;
    if n > 0 {
      ReadsOnce(template, d, ts, ls, ts', ls', n - 1);
      TokenOnce(template, DelimsAfter(d, ts[..n - 1]), ts[n - 1], ls[n - 1], ts'[n - 1], ls'[n - 1]);
      assert ts[..n] == ts[..n - 1] + [ts[n - 1]] && ts'[..n] == ts'[..n - 1] + [ts'[n - 1]];
    }
  }

  /** Tokens are not empty, if the opening delimiter is not. */
  lemma TokenGrows(template: string, d: Delims, t: Token, l: Layout)
    requires TokenOK(template, d, t, l) && d.open != ""
    ensures t.start < t.end
  {
    hide TagAt;
  }

  lemma {:induction false} DelimsStay(d: Delims, ts: seq<Token>)
    requires forall i :: 0 <= i < |ts| ==> ts[i].kind.Text? || Neat(ts[i].value)
    ensures d.open != "" ==> DelimsAfter(d, ts).open != ""
    ensures d.close != "" ==> DelimsAfter(d, ts).close != ""
  {
    if ts != [] {
      var last := ts[|ts| - 1];
      if last.kind.SetTags? && |Split(last.value)| == 2 {
        NewDelims(last.value);
      } else {
        DelimsStay(d, ts[..|ts| - 1]);
      }
    }
  }

  lemma DelimsKept(template: string, d: Delims, ts: seq<Token>, ls: seq<Layout>)
    requires Reads(template, d, ts, ls)
    ensures d.open != "" ==> DelimsAfter(d, ts).open != ""
    ensures d.close != "" ==> DelimsAfter(d, ts).close != ""
  {
    hide TokenOK, DelimsAfter, Neat;
    forall i | 0 <= i < |ts| ensures ts[i].kind.Text? || Neat(ts[i].value) {
      TokenNeat(template, DelimsAfter(d, ts[..i]), ts[i], ls[i]);
    }
    DelimsStay(d, ts);
  }

  /** A reading to the end has no longer one. */
  lemma ReadingUnique(template: string, d: Delims, ts: seq<Token>, ls: seq<Layout>, ts': seq<Token>, ls': seq<Layout>)
    requires Reads(template, d, ts, ls) && Reads(template, d, ts', ls') && d.open != ""
    requires End(ts) == |template| && End(ts') == |template|
    ensures ts == ts'
  {
    if |ts| <= |ts'| {
      LongerReading(template, d, ts, ls, ts', ls');
    } else {
      LongerReading(template, d, ts', ls', ts, ls);
    }
  }

  /** Where neither text nor a tag can be read, no reading goes on to the end. */
  lemma Unreadable(template: string, d: Delims, ts: seq<Token>, ls: seq<Layout>, ts': seq<Token>, ls': seq<Layout>)
    requires Reads(template, d, ts, ls) && Reads(template, d, ts', ls') && d.open != ""
    requires End(ts) < |template| && DelimsAfter(d, ts).open <= template[End(ts)..]
      && NoTag(template[End(ts)..], DelimsAfter(d, ts))
    ensures End(ts') < |template|
  {
    hide TokenOK, DelimsAfter, End, NoTag;
    var n := |ts|;
    if |ts'| > n {
      ReadsOnce(template, d, ts, ls, ts', ls', n);
      assert ts[..n] == ts;
      NoTokenAt(template, DelimsAfter(d, ts), ts'[n], ls'[n]);
    } else {
      ReadsOnce(template, d, ts, ls, ts', ls', |ts'|);
      assert ts'[..|ts'|] == ts';
      EndsGrow(template, d, ts, ls, |ts'|);
    }
  }

  lemma NoTokenAt(template: string, d: Delims, t: Token, l: Layout)
    requires t.start <= |template| && d.open <= template[t.start..] && NoTag(template[t.start..], d)
    ensures !TokenOK(template, d, t, l)
  {
    hide TagAt;
  }

  lemma {:induction false} EndsGrow(template: string, d: Delims, ts: seq<Token>, ls: seq<Layout>, n: nat)
    requires Reads(template, d, ts, ls) && n <= |ts|
    ensures End(ts[..n]) <= End(ts)
    decreases |ts| - n
  {
    hide TokenOK, DelimsAfter;
    if n < |ts| {
      EndsGrow(template, d, ts, ls, n + 1);
      TokenSpelled(template, DelimsAfter(d, ts[..n]), ts[n], ls[n]);
      assert ts[..n + 1][n] == ts[n];
    } else {
      assert ts[..n] == ts;
    }
  }

  lemma LongerReading(template: string, d: Delims, ts: seq<Token>, ls: seq<Layout>, ts': seq<Token>, ls': seq<Layout>)
    requires Reads(template, d, ts, ls) && Reads(template, d, ts', ls') && d.open != ""
    requires End(ts) == |template| && |ts| <= |ts'|
    ensures ts == ts'
  {
    ReadsOnce(template, d, ts, ls, ts', ls', |ts|);
    assert ts[..|ts|] == ts;
    if |ts| < |ts'| {
      NoneAtEnd(template, d, ts', ls', |ts|);
    }
  }

  /** No token follows the end of the template. */
  lemma NoneAtEnd(template: string, d: Delims, ts: seq<Token>, ls: seq<Layout>, n: nat)
    requires Reads(template, d, ts, ls) && d.open != "" && n < |ts|
    ensures End(ts[..n]) < |template|
  {
    hide TokenOK, DelimsAfter, End;
    ReadsBefore(template, d, ts, ls, n);
    DelimsKept(template, d, ts[..n], ls[..n]);
    TokenGrows(template, DelimsAfter(d, ts[..n]), ts[n], ls[n]);
    TokenInside(template, DelimsAfter(d, ts[..n]), ts[n], ls[n]);
  }

  lemma ReadsBefore(template: string, d: Delims, ts: seq<Token>, ls: seq<Layout>, n: nat)
    requires Reads(template, d, ts, ls) && n <= |ts|
    ensures Reads(template, d, ts[..n], ls[..n])
  {
    hide TokenOK, DelimsAfter, End;
    forall i | 0 <= i < n
      ensures ts[..n][i].start == End(ts[..n][..i])
        && TokenOK(template, DelimsAfter(d, ts[..n][..i]), ts[..n][i], ls[..n][i])
    {
      assert ts[..n][..i] == ts[..i];
    }
  }

  lemma TokenNeat(template: string, d: Delims, t: Token, l: Layout)
    requires TokenOK(template, d, t, l)
    ensures t.kind.Text? || Neat(t.value)
  {
  }

  lemma TokenInside(template: string, d: Delims, t: Token, l: Layout)
    requires TokenOK(template, d, t, l)
    ensures t.end <= |template|
  {
  }

  // ---------- Scanning a tag ----------

  function Opening(d: Delims): Pattern { Around(false, d.open, true) }

  function Closing(d: Delims): Pattern { Around(true, d.close, false) }

  const WHITE := Around(true, "", false)
  const EQUALS := Around(true, "=", false)
  const CURLY := Around(true, "}", false)

  lemma SliceJoin(s: string, i: nat, j: nat, k: nat)
    requires i <= j <= k <= |s|
    ensures s[i..k] == s[i..j] + s[j..k]
  {
  }

  /** A match of `\s*` and a literal is not shorter than the literal. */
  lemma MatchLength(p: Pattern, s: string)
    requires p.Around?
    ensures MatchHere(p, s) < 0 || MatchHere(p, s) >= |p.literal|
  {
  }

  /** Scans up to a match of `\s*` and the literal, and past it. */
  method Until(scanner: Scanner, p: Pattern) returns (skipped: string, ok: bool, ghost w: string)
    requires scanner.Valid() && p.Around? && p.spaceBefore && !p.spaceAfter
    modifies scanner`tail, scanner`pos
    ensures scanner.Valid() && scanner.pos >= old(scanner.pos)
    ensures ok ==> scanner.pos > old(scanner.pos)
    ensures ok ==> scanner.pos == old(scanner.pos) + |skipped| + |w| + |p.literal|
    ensures ok ==> scanner.text[old(scanner.pos)..scanner.pos] == skipped + w + p.literal && AllSpace(w)
    ensures ok ==> UpTo(old(scanner.tail), skipped, w, p.literal)
    ensures !ok ==> scanner.pos == |scanner.text| || p.literal == ""
    ensures !ok && p.literal != "" ==> NothingUpTo(old(scanner.tail), p.literal)
  {
    hide AllSpace, IsSpace, MatchHere, UpTo, Search, NothingUpTo;
    ghost var start, tail := scanner.pos, scanner.tail;
    skipped := scanner.ScanUntil(p);
    ghost var mid, rest := scanner.pos, scanner.tail;
    var matched := scanner.Scan(p);
    ok := matched != "";
    w := UntilFound(p, tail, skipped, rest, matched);
    SliceJoin(scanner.text, start, mid, scanner.pos);
    if ok { assert scanner.text[start..scanner.pos] == skipped + (w + p.literal); }
  }

  lemma UntilFound(p: Pattern, tail: string, skipped: string, rest: string, matched: string) returns (w: string)
    requires p.Around? && p.spaceBefore && !p.spaceAfter && tail == skipped + rest
    requires skipped == var n := Search(p, tail); if n < 0 then tail else tail[..n]
    requires matched == var n := MatchHere(p, rest); if n < 0 then "" else rest[..n]
    ensures matched != "" ==> UpTo(tail, skipped, w, p.literal) && matched == w + p.literal && AllSpace(w)
    ensures matched == "" ==> rest == "" || p.literal == ""
    ensures matched == "" && p.literal != "" ==> NothingUpTo(tail, p.literal)
  {
    hide AllSpace, IsSpace, MatchHere, UpTo, NothingUpTo;
    w := "";
    MatchLength(p, rest);
    if Search(p, tail) >= 0 {
      var n := |skipped|;
      assert rest == tail[n..];
      SkippedUpTo(p, tail, n);
      w := tail[n..n + MatchHere(p, rest) - |p.literal|];
      UpToSpelled(tail, skipped, w, p.literal);
      WholeMatch(tail, skipped, w, p.literal, matched);
    } else {
      assert rest == "" && tail[|tail|..] == "";
      NoneUpTo(p, tail);
    }
  }

  lemma UpToSpelled(s: string, value: string, w: string, literal: string)
    requires UpTo(s, value, w, literal)
    ensures value + w + literal <= s && AllSpace(w) && (value != "" ==> !IsSpace(value[|value| - 1]))
    ensures |value| + |w| + |literal| <= |s|
  {
  }

  lemma WholeMatch(s: string, value: string, w: string, literal: string, matched: string)
    requires value + w + literal <= s && matched == s[|value|..][..|w| + |literal|]
    ensures matched == w + literal
  {
    var t := value + w + literal;
    assert s[..|t|] == t && s[|value|..][..|w| + |literal|] == s[|value|..|t|] == t[|value|..];
  }

  /** Skipping white space leaves none. */
  method SkipWhite(scanner: Scanner) returns (w: string)
    requires scanner.Valid()
    modifies scanner`tail, scanner`pos
    ensures scanner.Valid() && scanner.pos == old(scanner.pos) + |w| && scanner.text[old(scanner.pos)..scanner.pos] == w
    ensures Fills(w, old(scanner.tail)) && scanner.tail == old(scanner.tail)[|w|..]
    ensures AllSpace(w) && (scanner.tail != "" ==> !IsSpace(scanner.tail[0]))
  {
    hide IsSpace;
    ghost var tail := scanner.tail;
    w := scanner.Scan(WHITE);
    assert WHITE.literal <= tail[Spaces(tail)..];
    assert w == tail[..Spaces(tail)];
  }

  /** Nothing can be read as the value of a tag of the kind. */
  ghost predicate NoValue(s: string, d: Delims, kind: Kind, brace: bool) {
    forall v, l: Layout :: (kind.Unescaped? ==> l.brace == brace) ==> !ValueAt(s, d, kind, v, l)
  }

  lemma NoValueBefore(s: string, d: Delims, kind: Kind, brace: bool)
    requires !Plain(kind, brace) && NothingUpTo(s, Ender(kind, d))
    ensures NoValue(s, d, kind, brace)
  {
    hide UpTo;
  }

  lemma NoValueAfter(s: string, d: Delims, kind: Kind, brace: bool, value: string, w3: string, rest: string)
    requires !Plain(kind, brace) && UpTo(s, value, w3, Ender(kind, d)) && |value| + |w3| + 1 <= |s|
    requires rest == s[|value| + |w3| + 1..] && NothingUpTo(rest, d.close)
    ensures NoValue(s, d, kind, brace)
  {
    hide UpTo;
    forall v, l: Layout | kind.Unescaped? ==> l.brace == brace ensures !ValueAt(s, d, kind, v, l) {
      if UpTo(s, v, l.w3, Ender(kind, d)) { UpToOnce(s, value, w3, v, l.w3, Ender(kind, d)); }
    }
  }

  /** `=`: the value are the new delimiters. */
  method ScanSetTags(scanner: Scanner, d: Delims)
    returns (value: string, ok: bool, ghost w3: string, ghost junk: string, ghost w4: string)
    requires scanner.Valid()
    modifies scanner`tail, scanner`pos
    ensures scanner.Valid() && scanner.pos >= old(scanner.pos)
    ensures ok ==>
      scanner.text[old(scanner.pos)..scanner.pos] == value + w3 + "=" + (junk + w4) + d.close && AllSpace(w3)
      && AllSpace(w4)
    ensures ok ==> ValueAt(old(scanner.tail), d, SetTags, value, Layout("", false, "", w3, junk, w4))
    ensures ok ==> (value != "" ==> !IsSpace(value[|value| - 1]))
    ensures !ok ==> scanner.pos == |scanner.text| || d.close == ""
    ensures !ok && d.close != "" ==> NoValue(old(scanner.tail), d, SetTags, false)
  {
    hide AllSpace, IsSpace, UpTo, NoValue;
    var eq;
    ghost var start, tail := scanner.pos, scanner.tail;
    value, eq, w3 := Until(scanner, EQUALS);
    ghost var mid := scanner.pos;
    junk, ok, w4 := Until(scanner, Closing(d));
    if eq {
      UpToSpelled(tail, value, w3, "=");
      assert tail[|value| + |w3| + 1..] == scanner.text[mid..];
    }
    if ok {
      SliceJoin(scanner.text, start, mid, scanner.pos);
      assert value + w3 + "=" + (junk + w4 + d.close) == value + w3 + "=" + (junk + w4) + d.close;
    } else if !eq {
      NoValueBefore(tail, d, SetTags, false);
    } else if d.close != "" {
      NoValueAfter(tail, d, SetTags, false, value, w3, scanner.text[mid..]);
    }
  }

  /** Scans up to a closing brace before the closing delimiter, and past the brace. */
  method SkipBrace(scanner: Scanner, d: Delims) returns (value: string, ghost found: bool, ghost w3: string)
    requires scanner.Valid()
    modifies scanner`tail, scanner`pos
    ensures scanner.Valid() && scanner.pos >= old(scanner.pos)
    ensures found ==>
      scanner.text[old(scanner.pos)..scanner.pos] == value + w3 + "}"
      && UpTo(old(scanner.tail), value, w3, "}" + d.close)
    ensures found ==> scanner.pos == old(scanner.pos) + |value| + |w3| + 1
    ensures !found ==> scanner.pos == |scanner.text| && NothingUpTo(old(scanner.tail), "}" + d.close)
  {
    hide AllSpace, IsSpace, MatchHere, UpTo, Search, NothingUpTo;
    ghost var start, tail := scanner.pos, scanner.tail;
    value := scanner.ScanUntil(Around(true, "}" + d.close, false));
    ghost var mid, left := scanner.pos, scanner.tail;
    var curly := scanner.Scan(CURLY);
    found, w3 := BraceFound(tail, value, left, curly, d);
    SliceJoin(scanner.text, start, mid, scanner.pos);
    if found { assert scanner.text[start..scanner.pos] == value + (w3 + "}"); }
  }

  /** Where a closing brace with the closing delimiter is found, that closing brace is found. */
  lemma BraceFound(tail: string, value: string, left: string, curly: string, d: Delims) returns (found: bool, w: string)
    requires tail == value + left
    requires value == var n := Search(Around(true, "}" + d.close, false), tail); if n < 0 then tail else tail[..n]
    requires curly == var n := MatchHere(CURLY, left); if n < 0 then "" else left[..n]
    ensures found ==> UpTo(tail, value, w, "}" + d.close) && curly == w + "}"
    ensures !found ==> left == "" && NothingUpTo(tail, "}" + d.close)
  {
    hide AllSpace, IsSpace, MatchHere, UpTo, NothingUpTo;
    var p := Around(true, "}" + d.close, false);
    found, w := Search(p, tail) >= 0, "";
    if found {
      var n := |value|;
      assert left == tail[n..];
      SkippedUpTo(p, tail, n);
      w := tail[n..n + MatchHere(p, left) - |p.literal|];
      UpToSpelled(tail, value, w, p.literal);
      AfterValue(tail, value, w, p.literal, left);
      CurlyFound(left, w, d, curly);
    } else {
      NoneUpTo(p, tail);
    }
  }

  lemma AfterValue(s: string, value: string, w: string, literal: string, rest: string)
    requires value + w + literal <= s && s == value + rest
    ensures w + literal <= rest
  {
    var t := value + w + literal;
    assert s[..|t|] == t && rest[..|w| + |literal|] == s[|value|..|t|] == t[|value|..];
  }

  /** Where a closing brace with the closing delimiter is found, that closing brace is found. */
  lemma CurlyFound(left: string, w: string, d: Delims, curly: string)
    requires w + ("}" + d.close) <= left && AllSpace(w)
    requires var n := MatchHere(CURLY, left); curly == if n < 0 then "" else left[..n]
    ensures curly == w + "}"
  {
    var s := w + ("}" + d.close);
    assert left[..|s|] == s && left[|w|] == s[|w|] == '}';
    BraceIsNotSpace();
    assert Spaces(left) == |w| by { SpacesUpTo(left, w); }
    assert "}" <= left[|w|..];
    assert Backtrack(left, "}", Spaces(left)) == |w|;
    assert left[..|w| + 1] == s[..|w| + 1] == w + "}";
  }

  lemma BraceIsNotSpace()
    ensures !IsSpace('}')
  {
  }

  lemma SpacesUpTo(s: string, w: string)
    requires w <= s && AllSpace(w) && |w| < |s| && !IsSpace(s[|w|])
    ensures Spaces(s) == |w|
  {
    hide IsSpace, AllSpace;
    var n := Spaces(s);
    if n < |w| {
      SpaceAt(s, 0, w, n);
    } else if |w| < n {
      SpaceAt(s, 0, s[..n], |w|);
    }
  }

  /** `{`: the value ends before a closing brace and the closing delimiter. */
  method ScanBraced(scanner: Scanner, d: Delims)
    returns (value: string, ok: bool, ghost w3: string, ghost junk: string, ghost w4: string)
    requires scanner.Valid()
    modifies scanner`tail, scanner`pos
    ensures scanner.Valid() && scanner.pos >= old(scanner.pos)
    ensures ok ==>
      scanner.text[old(scanner.pos)..scanner.pos] == value + w3 + "}" + (junk + w4) + d.close && AllSpace(w3)
      && AllSpace(w4)
    ensures ok ==> ValueAt(old(scanner.tail), d, Unescaped, value, Layout("", true, "", w3, junk, w4))
    ensures ok ==> (value != "" ==> !IsSpace(value[|value| - 1]))
    ensures !ok ==> scanner.pos == |scanner.text| || d.close == ""
    ensures !ok && d.close != "" ==> NoValue(old(scanner.tail), d, Unescaped, true)
  {
    hide AllSpace, IsSpace, UpTo, NoValue;
    ghost var start, tail, found := scanner.pos, scanner.tail, false;
    value, found, w3 := SkipBrace(scanner, d);
    ghost var mid := scanner.pos;
    junk, ok, w4 := Until(scanner, Closing(d));
    if found {
      UpToSpelled(tail, value, w3, "}" + d.close);
      assert tail[|value| + |w3| + 1..] == scanner.text[mid..];
    }
    if ok {
      SliceJoin(scanner.text, start, mid, scanner.pos);
      assert value + w3 + "}" + (junk + w4 + d.close) == value + w3 + "}" + (junk + w4) + d.close;
    } else if !found {
      NoValueBefore(tail, d, Unescaped, true);
    } else if d.close != "" {
      NoValueAfter(tail, d, Unescaped, true, value, w3, scanner.text[mid..]);
    }
  }

  /** The parts of a tag put together. */
  lemma TagAssembled(text: string, d: Delims, t: Token, l: Layout, mid: nat)
    requires t.start <= mid <= t.end <= |text| && !t.kind.Text?
    requires text[t.start..mid] == d.open + l.w1 + SigilOf(t.kind, l.brace) + l.w2
    requires text[mid..t.end] == t.value + After(t.kind, l) + d.close
    ensures text[t.start..t.end] == Spelled(d, t, l)
  {
    SliceJoin(text, t.start, mid, t.end);
    var u, v := d.open + l.w1 + SigilOf(t.kind, l.brace) + l.w2, After(t.kind, l) + d.close;
    assert t.value + After(t.kind, l) + d.close == t.value + v;
    assert Spelled(d, t, l) == u + (t.value + v);
  }

  /** The type of a tag and the white space after it. */
  method ScanSigil(scanner: Scanner, ghost start: nat, ghost before: string) returns (sigil: string, ghost w2: string)
    requires scanner.Valid() && start <= scanner.pos && scanner.text[start..scanner.pos] == before
    modifies scanner`tail, scanner`pos
    ensures scanner.Valid() && scanner.pos == old(scanner.pos) + |sigil| + |w2|
    ensures scanner.text[start..scanner.pos] == before + sigil + w2 && AllSpace(w2)
    ensures sigil == SigilAt(old(scanner.tail)) && Fills(w2, old(scanner.tail)[|sigil|..])
    ensures scanner.tail != "" ==> !IsSpace(scanner.tail[0])
  {
    hide AllSpace, IsSpace, Fills;
    ghost var p0 := scanner.pos;
    sigil := scanner.Scan(Sigil);
    ghost var p1 := scanner.pos;
    w2 := SkipWhite(scanner);
    SliceJoin(scanner.text, start, p0, p1);
    SliceJoin(scanner.text, start, p1, scanner.pos);
  }

  lemma SigilKnown(s: string)
    ensures SigilOf(KindOf(SigilAt(s)), SigilAt(s) == "{") == SigilAt(s) && !KindOf(SigilAt(s)).Text?
    ensures KindOf(SigilAt(s)).Unescaped? || SigilAt(s) != "{"
  {
    var sigil := SigilAt(s);
    if sigil != "" { assert sigil == [sigil[0]]; }
  }

  /** The rest of a tag, whose sigil is known. */
  method ScanRest(scanner: Scanner, d: Delims, kind: Kind, brace: bool)
    returns (value: string, ok: bool, ghost w3: string, ghost junk: string, ghost w4: string)
    requires scanner.Valid() && !kind.Text? && (scanner.tail != "" ==> !IsSpace(scanner.tail[0]))
      && (brace ==> kind.Unescaped?)
    modifies scanner`tail, scanner`pos
    ensures scanner.Valid() && scanner.pos >= old(scanner.pos)
    ensures ok ==> var l := Layout("", brace, "", w3, junk, w4);
      scanner.text[old(scanner.pos)..scanner.pos] == value + After(kind, l) + d.close && AllSpace(w3) && AllSpace(w4)
        && Neat(value)
    ensures ok ==> ValueAt(old(scanner.tail), d, kind, value, Layout("", brace, "", w3, junk, w4))
    ensures !ok ==> scanner.pos == |scanner.text| || d.close == ""
    ensures !ok && d.close != "" ==> NoValue(old(scanner.tail), d, kind, brace)
  {
    hide AllSpace, IsSpace, UpTo, ValueAt, NoValue, Neat, NothingUpTo;
    ghost var start, tail := scanner.pos, scanner.tail;
    junk, w4 := "", "";
    if kind.SetTags? {
      value, ok, w3, junk, w4 := ScanSetTags(scanner, d);
    } else if brace {
      value, ok, w3, junk, w4 := ScanBraced(scanner, d);
    } else {
      value, ok, w3 := Until(scanner, Closing(d));
      if ok { UpToSpelled(tail, value, w3, d.close); }
      PlainValue(tail, d, kind, value, w3);
    }
    if ok {
      if value != "" { assert value[0] == scanner.text[start..scanner.pos][0] == tail[0]; }
      IsNeat(value);
    }
  }

  lemma PlainValue(s: string, d: Delims, kind: Kind, value: string, w3: string)
    requires Plain(kind, false)
    ensures ValueAt(s, d, kind, value, Layout("", false, "", w3, "", "")) <==> UpTo(s, value, w3, d.close)
    ensures NothingUpTo(s, d.close) ==> NoValue(s, d, kind, false)
    ensures AllSpace("")
  {
    hide UpTo;
  }

  lemma IsNeat(value: string)
    requires value != "" ==> !IsSpace(value[0]) && !IsSpace(value[|value| - 1])
    ensures Neat(value)
  {
  }

  /** No tag can be read at the start of s. */
  ghost predicate NoTag(s: string, d: Delims) {
    forall kind: Kind, v, l :: !kind.Text? ==> !TagAt(s, d, kind, v, l)
  }

  lemma NoTagWithout(s: string, d: Delims, kind: Kind, w1: string, brace: bool, w2: string)
    requires d.open <= s && Fills(w1, s[|d.open|..]) && SigilOf(kind, brace) == SigilAt(s[|d.open| + |w1|..])
      && !kind.Text?
    requires |d.open| + |w1| + |SigilOf(kind, brace)| + |w2| <= |s|
    requires Fills(w2, s[|d.open| + |w1| + |SigilOf(kind, brace)|..])
    requires NoValue(s[|d.open| + |w1| + |SigilOf(kind, brace)| + |w2|..], d, kind, brace)
    ensures NoTag(s, d)
  {
    hide Fills, ValueAt, SigilAt;
    forall k: Kind, v, l | !k.Text? ensures !TagAt(s, d, k, v, l) {
      if TagAt(s, d, k, v, l) {
        TagInside(s, d, k, v, l);
        FillsOnce(l.w1, w1, s[|d.open|..]);
        SigilTells(k, l.brace, kind, brace);
        FillsOnce(l.w2, w2, s[|d.open| + |w1| + |SigilOf(kind, brace)|..]);
      }
    }
  }

  /** A tag whose opening delimiter has been scanned. */
  method ScanTag(scanner: Scanner, d: Delims, start: nat, ghost w1: string)
    returns (token: Token, ok: bool, ghost l: Layout)
    requires scanner.Valid() && start < scanner.pos && AllSpace(w1) && scanner.pos == start + |d.open| + |w1|
    requires scanner.text[start..scanner.pos] == d.open + w1 && Fills(w1, scanner.text[start + |d.open|..])
    modifies scanner`tail, scanner`pos
    ensures scanner.Valid() && scanner.pos >= old(scanner.pos)
    ensures token.start == start && token.end == scanner.pos && !token.kind.Text?
    ensures ok ==> TokenOK(scanner.text, d, token, l)
    ensures !ok ==> scanner.pos == |scanner.text| || d.close == ""
    ensures !ok && d.close != "" ==> NoTag(scanner.text[start..], d)
  {
    hide AllSpace, IsSpace, Neat, Fills, ValueAt, SigilAt, NoTag, NoValue, After, TagAt, SigilOf, KindOf;
    var sigil;
    ghost var w2, w3, junk, w4;
    ghost var s, i := scanner.text[start..], scanner.pos;
    sigil, w2 := ScanSigil(scanner, start, d.open + w1);
    ghost var mid := scanner.pos;
    var kind, brace := KindOf(sigil), sigil == "{";
    SigilKnown(scanner.text[i..]);
    var value;
    value, ok, w3, junk, w4 := ScanRest(scanner, d, kind, brace);
    token := Token(kind, value, start, scanner.pos);
    l := Layout(w1, brace, w2, w3, junk, w4);
    TagPlaces(scanner.text, d, start, w1, kind, brace, w2);
    if ok {
      TagRead(scanner.text, d, start, kind, value, l, mid);
      TagAssembled(scanner.text, d, token, l, mid);
    } else if d.close != "" {
      NoTagWithout(s, d, kind, w1, brace, w2);
    }
  }

  /** The parts of a tag, seen from its start. */
  lemma TagPlaces(text: string, d: Delims, start: nat, w1: string, kind: Kind, brace: bool, w2: string)
    requires var sigil := SigilOf(kind, brace); start + |d.open| + |w1| + |sigil| + |w2| <= |text|
    requires text[start..start + |d.open| + |w1|] == d.open + w1
    ensures var s, sigil := text[start..], SigilOf(kind, brace);
      && d.open <= s && s[|d.open|..] == text[start + |d.open|..]
        && s[|d.open| + |w1|..] == text[start + |d.open| + |w1|..]
      && s[|d.open| + |w1| + |sigil|..] == text[start + |d.open| + |w1|..][|sigil|..]
      && s[|d.open| + |w1| + |sigil| + |w2|..] == text[start + |d.open| + |w1| + |sigil| + |w2|..]
  {
    hide SigilOf;
    OpenPrefix(text, d, start, w1);
  }

  lemma TagRead(text: string, d: Delims, start: nat, kind: Kind, value: string, l: Layout, mid: nat)
    requires var sigil := SigilOf(kind, l.brace); mid == start + |d.open| + |l.w1| + |sigil| + |l.w2| <= |text|
    requires text[start..start + |d.open| + |l.w1|] == d.open + l.w1 && Fills(l.w1, text[start + |d.open|..])
    requires SigilOf(kind, l.brace) == SigilAt(text[start + |d.open| + |l.w1|..])
    requires Fills(l.w2, text[start + |d.open| + |l.w1|..][|SigilOf(kind, l.brace)|..])
    requires ValueAt(text[mid..], d, kind, value, Layout("", l.brace, "", l.w3, l.junk, l.w4))
    ensures TagAt(text[start..], d, kind, value, l)
      && After(kind, l) == After(kind, Layout("", l.brace, "", l.w3, l.junk, l.w4))
  {
    hide Fills, ValueAt, SigilAt, SigilOf;
    TagPlaces(text, d, start, l.w1, kind, l.brace, l.w2);
    LayoutOfValue(text[mid..], d, kind, value, l, Layout("", l.brace, "", l.w3, l.junk, l.w4));
  }

  lemma OpenPrefix(text: string, d: Delims, start: nat, w1: string)
    requires start + |d.open| + |w1| <= |text| && text[start..start + |d.open| + |w1|] == d.open + w1
    ensures d.open <= text[start..]
  {
    assert text[start..][..|d.open|] == text[start..start + |d.open| + |w1|][..|d.open|];
  }

  /** The white space before the value does not matter for the value. */
  lemma LayoutOfValue(s: string, d: Delims, kind: Kind, value: string, l: Layout, l': Layout)
    requires l.brace == l'.brace && l.w3 == l'.w3 && l.junk == l'.junk && l.w4 == l'.w4
    ensures ValueAt(s, d, kind, value, l) == ValueAt(s, d, kind, value, l') && After(kind, l) == After(kind, l')
  {
    hide UpTo;
  }

  // ---------- White space of the current line ----------

  /** What the parser's buffer and its variables for the current line hold. */
  ghost predicate LineState(ts: seq<Token>, line: nat, slots: seq<Slot>, spaces: seq<nat>, hasTag: bool,
      nonSpace: bool) {
    && Unfinished(ts, line) && slots == Strip(ts)
    && hasTag == HasTag(ts, line, |ts|) && nonSpace == HasSolid(ts, line, |ts|)
    && forall i :: i in spaces <==> line <= i < |ts| && Blank(ts[i])
  }

  function Spaces1(spaces: seq<nat>, i: nat, t: Token): seq<nat> {
    if Blank(t) then spaces + [i] else spaces
  }

  lemma LineFlags(ts: seq<Token>, line: nat, t: Token)
    requires line <= |ts|
    ensures HasTag(ts + [t], line, |ts| + 1) <==> HasTag(ts, line, |ts|) || !t.kind.Text?
    ensures HasSolid(ts + [t], line, |ts| + 1) <==> HasSolid(ts, line, |ts|) || Solid(t)
  {
    hide Solid;
    var us := ts + [t];
    assert us[|ts|] == t && forall i :: 0 <= i < |ts| ==> us[i] == ts[i];
  }

  lemma SpacesAfter(ts: seq<Token>, line: nat, t: Token, spaces: seq<nat>)
    requires line <= |ts| && forall i :: i in spaces <==> line <= i < |ts| && Blank(ts[i])
    ensures forall i :: i in Spaces1(spaces, |ts|, t) <==> line <= i < |ts| + 1 && Blank((ts + [t])[i])
  {
    hide Blank;
  }

  /** A token other than a newline joins the current line. */
  lemma LineGoesOn(ts: seq<Token>, line: nat, slots: seq<Slot>, spaces: seq<nat>, hasTag: bool, nonSpace: bool,
      t: Token)
    requires LineState(ts, line, slots, spaces, hasTag, nonSpace) && !Newline(t)
    ensures LineState(
      ts + [t], line, slots + [Kept(t)], Spaces1(spaces, |ts|, t), hasTag || !t.kind.Text?, nonSpace || Solid(t))
  {
    hide Blank, Solid, HasTag, HasSolid, Newline, Stripped;
    LineFlags(ts, line, t);
    SpacesAfter(ts, line, t, spaces);
    forall i: nat | i <= |ts| ensures (slots + [Kept(t)])[i] == Strip(ts + [t])[i] {
      if i < line {
        StrippedEarlier(ts, line, t, i);
      } else {
        StrippedLately(ts, line, t, i);
        if i < |ts| { UnstrippedYet(ts, line, i); }
      }
    }
  }

  lemma NothingOn(ts: seq<Token>)
    ensures !HasTag(ts, |ts|, |ts|) && !HasSolid(ts, |ts|, |ts|)
  {
  }

  /** A newline ends it, and its white space is stripped if it is standalone. */
  lemma LineEnds(ts: seq<Token>, line: nat, slots: seq<Slot>, spaces: seq<nat>, hasTag: bool, nonSpace: bool,
      t: Token, slots': seq<Slot>)
    requires LineState(ts, line, slots, spaces, hasTag, nonSpace) && Newline(t) && |slots'| == |slots| + 1
    requires forall i :: 0 <= i <= |slots| ==>
      slots'[i] == if hasTag && !nonSpace && i in spaces + [|slots|] then Hole else (slots + [Kept(t)])[i]
    ensures LineState(ts + [t], |ts| + 1, slots', [], false, false)
  {
    hide HasTag, HasSolid, Stripped;
    LineFlags(ts, line, t);
    SpacesAfter(ts, line, t, spaces);
    forall i: nat | i <= |ts| ensures slots'[i] == Strip(ts + [t])[i] {
      if i < line {
        StrippedEarlier(ts, line, t, i);
      } else {
        StrippedLately(ts, line, t, i);
        if i < |ts| { UnstrippedYet(ts, line, i); }
      }
    }
    NothingOn(ts + [t]);
  }

  // ---------- The parser ----------

  datatype ParseError =
    | InvalidTags
    | UnclosedTag(at: nat)
    | UnopenedSection(name: string, at: nat)
    | UnclosedSection(name: string, at: nat)

  datatype Check = Fine | Bad(error: ParseError)

  datatype ParseResult = Parsed(tree: seq<Node>) | Failed(error: ParseError)

  function Names(sections: seq<Token>): (names: seq<string>)
    ensures |names| == |sections| && forall i :: 0 <= i < |names| ==> names[i] == sections[i].value
  {
    seq(|sections|, i requires 0 <= i < |sections| => sections[i].value)
  }

  /** The delimiters set by a tag are not empty. */
  lemma NewDelims(value: string)
    requires Neat(value) && |Split(value)| == 2
    ensures Split(value)[0] != "" && Split(value)[1] != ""
  {
    assert value != "";
    SplitWords(value);
    SplitStarts(value);
  }

  /** Every tag that sets delimiters gives two. */
  predicate Paired(ts: seq<Token>) {
    forall i :: 0 <= i < |ts| && ts[i].kind.SetTags? ==> |Split(ts[i].value)| == 2
  }

  /** Nothing is wrong with the tokens so far. */
  predicate Sound(ts: seq<Token>) {
    Paired(ts) && OpenAfter(ts).Open?
  }

  /** The innermost open section. */
  predicate Innermost(ts: seq<Token>, name: string) {
    OpenAfter(ts).Open? && var names := OpenAfter(ts).names; names != [] && names[|names| - 1] == name
  }

  /** The tokens go to the end; with an empty opening delimiter there may be more that is not read. */
  predicate AtEnd(template: string, d: Delims, ts: seq<Token>) {
    d.open != "" ==> End(ts) == |template|
  }

  /** What the tokens read end with is an error: the last of them, a place that no tag can be read at, or a section
      open at the end. */
  ghost predicate Explains(template: string, d: Delims, ts: seq<Token>, error: ParseError) {
    var n := |ts| - 1;
    match error
    case InvalidTags => ts != [] && Sound(ts[..n]) && ts[n].kind.SetTags? && |Split(ts[n].value)| != 2
    case UnclosedTag(at) => var now := DelimsAfter(d, ts);
      && Sound(ts) && (at == |template| || now.close == "")
      && End(ts) < |template| && now.open <= template[End(ts)..]
      && (now.close != "" ==> NoTag(template[End(ts)..], now))
    case UnopenedSection(name, at) =>
      && ts != [] && Sound(ts[..n]) && OpenAfter(ts[..n]) == Open([])
      && ts[n].kind.Close? && ts[n].value == name && ts[n].start == at
    case UnclosedSection(name, at) =>
      || (ts != [] && Sound(ts[..n]) && Innermost(ts[..n], name)
        && ts[n].kind.Close? && ts[n].value != name && ts[n].start == at)
      || (Sound(ts) && Innermost(ts, name) && End(ts) == at && AtEnd(template, d, ts))
  }

  /** What a reading of the template comes to. */
  ghost predicate ComesTo(template: string, d: Delims, ts: seq<Token>, ls: seq<Layout>, c: Check) {
    && Reads(template, d, ts, ls)
    && match c
       case Fine => Paired(ts) && Balanced(ts) && AtEnd(template, d, ts)
       case Bad(error) => Explains(template, d, ts, error)
  }

  // ---------- A template comes to one thing ----------

  lemma SoundBefore(ts: seq<Token>, n: nat)
    requires Sound(ts) && n <= |ts|
    ensures Sound(ts[..n])
  {
    NoMismatchBefore(ts, n);
  }

  /** All but the last token are fine. */
  lemma SoundUpToLast(template: string, d: Delims, ts: seq<Token>, ls: seq<Layout>, c: Check)
    requires ComesTo(template, d, ts, ls, c) && ts != []
    ensures Sound(ts[..|ts| - 1])
  {
    hide Reads, NoTag, Paired, OpenAfter, Innermost;
    if Sound(ts) { SoundBefore(ts, |ts| - 1); }
  }

  /** No reading goes on where one comes to something. */
  lemma NoneGoesOn(template: string, d: Delims, ts: seq<Token>, ls: seq<Layout>, c: Check, ts': seq<Token>,
      ls': seq<Layout>, c': Check)
    requires ComesTo(template, d, ts, ls, c) && ComesTo(template, d, ts', ls', c') && d.open != "" && d.close != ""
    requires |ts| < |ts'|
    ensures ts'[..|ts|] != ts
  {
    hide TokenOK, DelimsAfter, NoTag, Paired, OpenAfter, End;
    var n := |ts|;
    if ts'[..n] == ts {
      SoundUpToLast(template, d, ts', ls', c');
      SoundBefore(ts'[..|ts'| - 1], n);
      assert ts'[..|ts'| - 1][..n] == ts;
      NoneAtEnd(template, d, ts', ls', n);
      DelimsKept(template, d, ts, ls);
      LastUnsound(template, d, ts, c);
      NoTokenAt(template, DelimsAfter(d, ts), ts'[n], ls'[n]);
    }
  }

  /** After sound tokens, the end or a place without a tag. */
  lemma LastUnsound(template: string, d: Delims, ts: seq<Token>, c: Check)
    requires c.Bad? ==> Explains(template, d, ts, c.error)
    requires Sound(ts) && d.open != "" && c.Bad?
    ensures End(ts) == |template| || (c.error.UnclosedTag?)
  {
    if ts != [] {
      var n := |ts| - 1;
      assert ts == ts[..n] + [ts[n]];
      LastToken(ts[..n], ts[n]);
    }
  }

  lemma ErrorOnce(template: string, d: Delims, ts: seq<Token>, e: ParseError, e': ParseError)
    requires Explains(template, d, ts, e) && Explains(template, d, ts, e') && d.open != ""
    requires DelimsAfter(d, ts).close != ""
    ensures e == e'
  {
    hide NoTag, DelimsAfter, End;
    if ts != [] {
      var n := |ts| - 1;
      assert ts == ts[..n] + [ts[n]];
      LastToken(ts[..n], ts[n]);
    }
  }

  lemma NotFine(template: string, d: Delims, ts: seq<Token>, e: ParseError)
    requires Explains(template, d, ts, e) && d.open != ""
    ensures !(Sound(ts) && Balanced(ts) && AtEnd(template, d, ts))
  {
    hide NoTag, DelimsAfter, End;
    if ts != [] {
      var n := |ts| - 1;
      assert ts == ts[..n] + [ts[n]];
      LastToken(ts[..n], ts[n]);
    }
  }

  /** All readings that come to something are the same, and come to the same. */
  lemma ComesToOnce(template: string, d: Delims, ts: seq<Token>, ls: seq<Layout>, c: Check, ts': seq<Token>,
      ls': seq<Layout>, c': Check)
    requires ComesTo(template, d, ts, ls, c) && ComesTo(template, d, ts', ls', c') && d.open != "" && d.close != ""
    ensures ts == ts' && c == c'
  {
    hide Explains, Reads, DelimsAfter, OpenAfter, Paired, AtEnd;
    var n := if |ts| <= |ts'| then |ts| else |ts'|;
    ReadsOnce(template, d, ts, ls, ts', ls', n);
    assert ts[..|ts|] == ts && ts'[..|ts'|] == ts';
    if |ts| < |ts'| {
      NoneGoesOn(template, d, ts, ls, c, ts', ls', c');
    } else if |ts'| < |ts| {
      NoneGoesOn(template, d, ts', ls', c', ts, ls, c);
    }
    DelimsKept(template, d, ts, ls);
    if c.Bad? && c'.Bad? {
      ErrorOnce(template, d, ts, c.error, c'.error);
    } else if c.Bad? {
      NotFine(template, d, ts, c.error);
    } else if c'.Bad? {
      NotFine(template, d, ts, c'.error);
    }
  }

  lemma PairedNext(ts: seq<Token>, t: Token)
    ensures Paired(ts + [t]) <==> Paired(ts) && (t.kind.SetTags? ==> |Split(t.value)| == 2)
  {
    hide Split;
    var us := ts + [t];
    assert us[|ts|] == t && forall i :: 0 <= i < |ts| ==> us[i] == ts[i];
  }

  class Parser {
    const scanner: Scanner
    var delims: Delims
    var sections: seq<Token>
    var tokens: seq<Slot>
    var spaces: seq<nat>
    var hasTag: bool
    var nonSpace: bool
    /** All tokens read, with their layouts, and where the current line starts among them. */
    ghost const initial: Delims
    ghost var all: seq<Token>
    ghost var layouts: seq<Layout>
    ghost var line: nat

    constructor (template: string, delims: Delims)
      ensures fresh(scanner) && scanner.Valid() && scanner.text == template && scanner.pos == 0 && initial == delims
      ensures ReadSoFar() && OnLine() && InSections() && all == []
    {
      scanner := new Scanner(template);
      this.delims, initial := delims, delims;
      sections, tokens, spaces, hasTag, nonSpace := [], [], [], false, false;
      all, layouts, line := [], [], 0;
    }

    ghost predicate ReadSoFar()
      reads this`all, this`layouts, this`delims
    {
      && Reads(scanner.text, initial, all, layouts) && delims == DelimsAfter(initial, all)
      && (initial.open != "" ==> delims.open != "")
    }

    ghost predicate OnLine()
      reads this`all, this`line, this`tokens, this`spaces, this`hasTag, this`nonSpace
    {
      LineState(all, line, tokens, spaces, hasTag, nonSpace)
    }

    ghost predicate InSections()
      reads this`all, this`sections
    {
      OpenAfter(all) == Open(Names(sections)) && Paired(all)
    }

    /** `stripSpace`. */
    method StripSpace()
      requires forall i :: i in spaces ==> i < |tokens|
      modifies this`tokens, this`spaces, this`hasTag, this`nonSpace
      ensures |tokens| == old(|tokens|) && spaces == [] && !hasTag && !nonSpace
      ensures forall i :: 0 <= i < |tokens| ==>
        tokens[i] == if old(hasTag) && !old(nonSpace) && i in old(spaces) then Hole else old(tokens)[i]
    {
      if hasTag && !nonSpace {
        while spaces != []
          invariant |tokens| == old(|tokens|)
          invariant |spaces| <= old(|spaces|) && spaces == old(spaces)[..|spaces|]
          invariant forall i :: 0 <= i < |tokens| ==>
            tokens[i] == if i in old(spaces)[|spaces|..] then Hole else old(tokens)[i]
          decreases |spaces|
        {
          var n := |spaces| - 1;
          assert spaces[n] == old(spaces)[n] && old(spaces)[n] in old(spaces);
          assert old(spaces)[n..] == [spaces[n]] + old(spaces)[n + 1..];
          tokens := tokens[spaces[n] := Hole];
          spaces := spaces[..n];
        }
        assert old(spaces)[0..] == old(spaces);
      } else {
        spaces := [];
      }
      hasTag, nonSpace := false, false;
    }

    /** Adds a token for one character of text. */
    method PushChar(chr: char, start: nat)
      requires OnLine()
      modifies this`all, this`line, this`tokens, this`spaces, this`hasTag, this`nonSpace
      ensures OnLine() && all == old(all) + [Token(Text, [chr], start, start + 1)]
    {
      hide LineState, IsSpace, Strip;
      ghost var t := Token(Text, [chr], start, start + 1);
      ghost var before, l, slots, white, tag, solid := all, line, tokens, spaces, hasTag, nonSpace;
      SpacesInRange();
      if IsSpace(chr) {
        spaces := spaces + [|tokens|];
      } else {
        nonSpace := true;
      }
      tokens := tokens + [Kept(Token(Text, [chr], start, start + 1))];
      all := all + [t];
      if chr == '\n' {
        NewlineIsSpace();
        StripSpace();
        line := |all|;
        LineEnds(before, l, slots, white, tag, solid, t, tokens);
      } else {
        LineGoesOn(before, l, slots, white, tag, solid, t);
      }
    }

    lemma SpacesInRange()
      requires OnLine()
      ensures |tokens| == |all| && forall i :: i in spaces ==> i < |tokens|
    {
    }

    lemma NewlineIsSpace()
      ensures IsSpace('\n')
    {
    }

    /** Adds a token for a tag. */
    method PushTag(token: Token)
      requires OnLine() && !token.kind.Text?
      modifies this`all, this`tokens, this`hasTag, this`nonSpace
      ensures OnLine() && all == old(all) + [token]
    {
      hide LineState;
      LineGoesOn(all, line, tokens, spaces, hasTag, nonSpace, token);
      hasTag := true;
      tokens := tokens + [Kept(token)];
      all := all + [token];
      if token.kind.Name? || token.kind.Unescaped? {
        nonSpace := true;
      }
    }

    /** The text up to the next tag. */
    method ReadText()
      requires scanner.Valid() && ReadSoFar() && OnLine() && InSections() && scanner.pos == End(all)
      modifies scanner`tail, scanner`pos
      modifies this`all, this`layouts, this`line, this`tokens, this`spaces, this`hasTag, this`nonSpace
      ensures scanner.Valid() && ReadSoFar() && OnLine() && InSections() && scanner.pos == End(all) >= old(scanner.pos)
      ensures scanner.pos == |scanner.text| || MatchHere(Opening(delims), scanner.tail) >= 0
    {
      hide OnLine, InSections, ReadSoFar, MatchHere, Search;
      var start := scanner.pos;
      ghost var tail := scanner.tail;
      var value := scanner.ScanUntil(Opening(delims));
      forall i | 0 <= i < |value| ensures !(delims.open <= scanner.text[start..][i..]) {
        OpeningHere(delims, tail[i..]);
      }
      ReadChars(value, start);
    }

    lemma OpeningHere(d: Delims, s: string)
      ensures MatchHere(Opening(d), s) >= 0 <==> d.open <= s
    {
      assert s[0..] == s;
    }

    /** A token for each character. */
    method ReadChars(value: string, start: nat)
      requires ReadSoFar() && OnLine() && InSections() && start == End(all)
      requires start + |value| <= |scanner.text| && scanner.text[start..start + |value|] == value
      requires forall i :: 0 <= i < |value| ==> !(delims.open <= scanner.text[start..][i..])
      modifies this`all, this`layouts, this`line, this`tokens, this`spaces, this`hasTag, this`nonSpace
      ensures ReadSoFar() && OnLine() && InSections() && End(all) == start + |value|
    {
      hide OnLine, InSections, ReadSoFar;
      for i := 0 to |value|
        invariant delims == old(delims)
        invariant ReadSoFar() && OnLine() && InSections() && start + i == End(all)
      {
        assert scanner.text[start..][i..] == scanner.text[start + i..];
        ReadChar(value[i], start + i);
      }
    }

    /** One character of text. */
    method ReadChar(chr: char, start: nat)
      requires ReadSoFar() && OnLine() && InSections()
      requires start == End(all) < |scanner.text| && scanner.text[start] == chr
      requires !(delims.open <= scanner.text[start..])
      modifies this`all, this`layouts, this`line, this`tokens, this`spaces, this`hasTag, this`nonSpace
      ensures delims == old(delims)
      ensures ReadSoFar() && OnLine() && InSections() && End(all) == start + 1
    {
      hide OnLine, Reads;
      ghost var before, t, l := all, Token(Text, [chr], start, start + 1), Layout("", false, "", "", "", "");
      CharOK(scanner.text, delims, t, l);
      ReadsNext(scanner.text, initial, before, layouts, t, l);
      LastToken(before, t);
      PushChar(chr, start);
      layouts := layouts + [l];
      DelimsNext(initial, before, t);
    }

    /** The section checks: OpenAfter tells whether they fail. */
    method CheckSection(token: Token, ghost before: seq<Token>) returns (c: Check)
      requires all == before + [token] && OpenAfter(before) == Open(Names(sections)) && Paired(before)
      modifies this`sections
      ensures c.Fine? ==> OpenAfter(all) == Open(Names(sections))
      ensures c.Bad? ==> token.kind.Close? && Explains(scanner.text, initial, all, c.error)
    {
      hide OpenAfter, Paired;
      LastToken(before, token);
      assert all[..|all| - 1] == before;
      c := Fine;
      if token.kind.Section? || token.kind.Inverted? {
        ghost var names := Names(sections);
        sections := sections + [token];
        assert names + [token.value] == Names(sections);
      } else if token.kind.Close? {
        if sections == [] {
          assert Names(sections) == [];
          return Bad(UnopenedSection(token.value, token.start));
        }
        var n := |sections| - 1;
        var open := sections[n];
        ghost var names := Names(sections);
        sections := sections[..n];
        assert names[..n] == Names(sections);
        if open.value != token.value {
          return Bad(UnclosedSection(open.value, token.start));
        }
      }
    }

    /** New delimiters are in force from the next tag on. */
    method SetDelims(token: Token) returns (c: Check)
      requires token.kind.SetTags? && Neat(token.value)
      modifies this`delims
      ensures c.Bad? <==> |Split(token.value)| != 2
      ensures c.Bad? ==> c.error == InvalidTags && delims == old(delims)
      ensures c.Fine? ==> delims == Delims(Split(token.value)[0], Split(token.value)[1]) && delims.open != ""
    {
      var words := Split(token.value);
      if |words| != 2 {
        return Bad(InvalidTags);
      }
      NewDelims(token.value);
      delims := Delims(words[0], words[1]);
      c := Fine;
    }

    /** Takes in a tag that has been scanned. */
    method TakeTag(token: Token, ghost l: Layout) returns (c: Check)
      requires ReadSoFar() && OnLine() && InSections() && token.start == End(all)
      requires !token.kind.Text? && TokenOK(scanner.text, delims, token, l)
      modifies this`all, this`layouts, this`tokens, this`hasTag, this`nonSpace, this`sections, this`delims
      ensures ReadSoFar() && OnLine() && End(all) == token.end
      ensures c.Fine? ==> InSections()
      ensures c.Bad? ==> Explains(scanner.text, initial, all, c.error)
    {
      hide OnLine, Reads, Spelled, TagAt, Neat, Layout.Spaced, OpenAfter, DelimsAfter, Paired;
      ghost var before := all;
      ReadsNext(scanner.text, initial, all, layouts, token, l);
      DelimsNext(initial, all, token);
      PushTag(token);
      layouts := layouts + [l];
      LastToken(before, token);
      PairedNext(before, token);
      assert all[..|all| - 1] == before;
      c := CheckSection(token, before);
      if c.Fine? && token.kind.SetTags? {
        c := SetDelims(token);
      }
    }

    lemma TagMissing(at: nat)
      requires ReadSoFar() && InSections() && End(all) < |scanner.text| && delims.open <= scanner.text[End(all)..]
      requires at == |scanner.text| || delims.close == ""
      requires delims.close != "" ==> NoTag(scanner.text[End(all)..], delims)
      ensures Explains(scanner.text, initial, all, UnclosedTag(at))
    {
      hide Reads, DelimsAfter, NoTag, End, OpenAfter;
    }

    /** A tag whose opening delimiter has been scanned. */
    method ReadTag(start: nat, ghost w1: string) returns (c: Check)
      requires scanner.Valid() && ReadSoFar() && OnLine() && InSections()
      requires start == End(all) < scanner.pos && scanner.text[start..scanner.pos] == delims.open + w1 && AllSpace(w1)
      requires scanner.pos == start + |delims.open| + |w1| && Fills(w1, scanner.text[start + |delims.open|..])
      modifies scanner`tail, scanner`pos
      modifies this`all, this`layouts, this`tokens, this`hasTag, this`nonSpace, this`sections, this`delims
      ensures scanner.Valid() && ReadSoFar() && OnLine() && scanner.pos >= old(scanner.pos)
      ensures c.Fine? ==> InSections() && scanner.pos == End(all)
      ensures c.Bad? ==> Explains(scanner.text, initial, all, c.error)
    {
      hide OnLine, ReadSoFar, TokenOK, AllSpace, Fills, NoTag;
      OpenPrefix(scanner.text, delims, start, w1);
      var token, ok;
      ghost var l;
      token, ok, l := ScanTag(scanner, delims, start, w1);
      if !ok {
        TagMissing(scanner.pos);
        return Bad(UnclosedTag(scanner.pos));
      }
      c := TakeTag(token, l);
    }

    /** The opening delimiter, if there is one. */
    method ReadOpening() returns (found: bool, ghost w1: string)
      requires scanner.Valid()
      modifies scanner`tail, scanner`pos
      ensures scanner.Valid() && scanner.pos >= old(scanner.pos)
      ensures found ==>
        scanner.pos > old(scanner.pos) && scanner.text[old(scanner.pos)..scanner.pos] == delims.open + w1
        && AllSpace(w1)
      ensures found ==>
        scanner.pos == old(scanner.pos) + |delims.open| + |w1|
        && Fills(w1, scanner.text[old(scanner.pos) + |delims.open|..])
      ensures !found ==> scanner.pos == old(scanner.pos)
      ensures !found && MatchHere(Opening(delims), old(scanner.tail)) >= 0 ==> delims.open == ""
    {
      hide AllSpace, MatchHere, Fills;
      ghost var start, tail := scanner.pos, scanner.tail;
      MatchLength(Opening(delims), tail);
      var matched := scanner.Scan(Opening(delims));
      found := matched != "";
      w1 := "";
      if found {
        w1 := OpeningText(delims, tail);
        assert tail[|delims.open|..] == scanner.text[start + |delims.open|..];
      }
    }

    lemma OpeningText(d: Delims, s: string) returns (w: string)
      requires MatchHere(Opening(d), s) >= 0
      ensures MatchHere(Opening(d), s) == |d.open| + |w| <= |s| && s[..|d.open| + |w|] == d.open + w && AllSpace(w)
      ensures Fills(w, s[|d.open|..])
    {
      hide AllSpace, IsSpace;
      assert s[0..] == s;
      w := s[|d.open|..][..Spaces(s[|d.open|..])];
      ThreeParts(s, 0, |d.open|, |d.open| + |w|);
    }

    /** The loop over the tags. */
    method ReadAll() returns (c: Check)
      requires scanner.Valid() && ReadSoFar() && OnLine() && InSections() && scanner.pos == End(all)
      modifies scanner`tail, scanner`pos
      modifies this`all, this`layouts, this`line, this`tokens, this`spaces, this`hasTag, this`nonSpace, this`sections,
        this`delims
      ensures scanner.Valid() && ReadSoFar() && OnLine()
      ensures c.Fine? ==>
        InSections() && End(all) == scanner.pos && (initial.open != "" ==> scanner.pos == |scanner.text|)
      ensures c.Bad? ==> Explains(scanner.text, initial, all, c.error)
    {
      hide OnLine, InSections, AllSpace, MatchHere, Reads, Explains, Fills;
      c := Fine;
      var eos := scanner.Eos();
      while !eos
        invariant scanner.Valid() && ReadSoFar() && OnLine() && InSections() && scanner.pos == End(all)
        invariant c.Fine? && (eos <==> scanner.pos == |scanner.text|)
        decreases |scanner.text| - scanner.pos
      {
        ReadText();
        var start := scanner.pos;
        var found;
        ghost var w1;
        found, w1 := ReadOpening();
        if !found {
          return;
        }
        c := ReadTag(start, w1);
        if c.Bad? {
          return;
        }
        eos := scanner.Eos();
      }
    }
  }

  // ---------- The tree ----------

  lemma {:induction false} StripKeepsTags(ts: seq<Token>, slots: seq<Slot>)
    requires |slots| == |ts| && forall i :: 0 <= i < |ts| ==>
      slots[i] == Kept(ts[i]) || (slots[i] == Hole && ts[i].kind.Text?)
    ensures Tags(Present(slots)) == Tags(ts)
  {
    if ts != [] {
      hide Tags;
      var n := |ts| - 1;
      StripKeepsTags(ts[..n], slots[..n]);
      assert ts == ts[..n] + [ts[n]];
      LastToken(ts[..n], ts[n]);
      LastToken(Present(slots[..n]), ts[n]);
      if slots[n].Hole? { assert Present(slots) == Present(slots[..n]); }
    }
  }

  /** Stripping and squashing keep the sections balanced. */
  lemma StripBalanced(ts: seq<Token>)
    ensures OpenAfter(Present(Strip(ts))) == OpenAfter(ts) && OpenAfter(Squash(Strip(ts))) == OpenAfter(ts)
  {
    hide Tags, OpenAfter, Stripped;
    StripKeepsTags(ts, Strip(ts));
    OpenAfterTags(ts);
    OpenAfterTags(Present(Strip(ts)));
    SquashBalanced(Strip(ts));
  }

  function CheckOf(r: ParseResult): Check {
    if r.Parsed? then Fine else Bad(r.error)
  }

  /** `parse`. The tokens read, before any white space is stripped, are handed out for the specification: they are the
      one reading of the template that comes to something. */
  method Parse(template: string, tags: seq<string>)
    returns (r: ParseResult, ghost all: seq<Token>, ghost layouts: seq<Layout>)
    ensures |tags| != 2 ==> r == Failed(InvalidTags)
    ensures |tags| == 2 ==> ComesTo(template, Delims(tags[0], tags[1]), all, layouts, CheckOf(r))
    ensures |tags| == 2 && tags[0] != "" && tags[1] != "" ==> forall ts, ls, c ::
      ComesTo(template, Delims(tags[0], tags[1]), ts, ls, c) ==> ts == all && c == CheckOf(r)
    ensures |tags| == 2 && tags[0] != "" && tags[1] != "" ==>
      (r.Parsed? <==> exists ts, ls :: ComesTo(template, Delims(tags[0], tags[1]), ts, ls, Fine))
    ensures r.Parsed? && tags[0] != "" ==>
      forall ts, ls :: Reads(template, Delims(tags[0], tags[1]), ts, ls) && End(ts) == |template| ==> ts == all
    ensures r.Parsed? ==> |tags| == 2 && Balanced(Squash(Strip(all))) && r.tree == Nest(Squash(Strip(all)))
    ensures r.Failed? && |tags| == 2 && r.error.UnclosedTag? ==> var d := Delims(tags[0], tags[1]);
      tags[0] != "" && DelimsAfter(d, all).close != "" ==>
        forall ts, ls :: Reads(template, d, ts, ls) ==> End(ts) < |template|
  {
    hide Reads, Explains, Strip, Squash;
    all, layouts := [], [];
    if |tags| != 2 {
      return Failed(InvalidTags), all, layouts;
    }
    var parser := new Parser(template, Delims(tags[0], tags[1]));
    var c := parser.ReadAll();
    all, layouts := parser.all, parser.layouts;
    ghost var d := Delims(tags[0], tags[1]);
    if c.Bad? {
      r := Failed(c.error);
      OnlyThis(template, d, all, layouts, c);
      return;
    }
    if parser.sections != [] {
      var open := parser.sections[|parser.sections| - 1];
      r := Failed(UnclosedSection(open.value, parser.scanner.pos));
      OpenAtEnd(template, d, all, r.error);
      OnlyThis(template, d, all, layouts, Bad(r.error));
      return;
    }
    OnlyThis(template, d, all, layouts, Fine);
    StripBalanced(all);
    var squashed := SquashTokens(parser.tokens);
    var tree := NestTokens(squashed);
    r := Parsed(tree);
  }

  lemma OpenAtEnd(template: string, d: Delims, ts: seq<Token>, error: ParseError)
    requires Sound(ts) && AtEnd(template, d, ts)
    requires error.UnclosedSection? && Innermost(ts, error.name) && error.at == End(ts)
    ensures Explains(template, d, ts, error)
  {
    hide NoTag, DelimsAfter, OpenAfter, Paired;
  }

  lemma OnlyThis(template: string, d: Delims, all: seq<Token>, layouts: seq<Layout>, c: Check)
    requires ComesTo(template, d, all, layouts, c)
    ensures d.open != "" && d.close != "" ==>
      forall ts, ls, c' :: ComesTo(template, d, ts, ls, c') ==> ts == all && c' == c
    ensures c.Fine? && d.open != "" ==>
      forall ts, ls :: Reads(template, d, ts, ls) && End(ts) == |template| ==> ts == all
    ensures c.Bad? && c.error.UnclosedTag? && d.open != "" && DelimsAfter(d, all).close != "" ==>
      forall ts, ls :: Reads(template, d, ts, ls) ==> End(ts) < |template|
  {
    hide Reads, DelimsAfter, NoTag, OpenAfter, Paired, End;
    if d.open != "" && d.close != "" {
      forall ts, ls, c' | ComesTo(template, d, ts, ls, c') ensures ts == all && c' == c {
        ComesToOnce(template, d, all, layouts, c, ts, ls, c');
      }
    }
    if c.Fine? && d.open != "" {
      forall ts, ls | Reads(template, d, ts, ls) && End(ts) == |template| ensures ts == all {
        ReadingUnique(template, d, all, layouts, ts, ls);
      }
    }
    if c.Bad? && c.error.UnclosedTag? && d.open != "" && DelimsAfter(d, all).close != "" {
      forall ts, ls | Reads(template, d, ts, ls) ensures End(ts) < |template| {
        Unreadable(template, d, all, layouts, ts, ls);
      }
    }
  }

  lemma CharOK(template: string, d: Delims, t: Token, l: Layout)
    requires t.kind.Text? && t.end == t.start + 1 <= |template| && t.value == [template[t.start]]
      && l == Layout("", false, "", "", "", "")
    requires !(d.open <= template[t.start..])
    ensures TokenOK(template, d, t, l)
  {
    assert template[t.start..t.end] == t.value;
  }

  lemma DelimsNext(d: Delims, ts: seq<Token>, t: Token)
    ensures DelimsAfter(d, ts + [t]) ==
      if t.kind.SetTags? && |Split(t.value)| == 2 then Delims(Split(t.value)[0], Split(t.value)[1])
        else DelimsAfter(d, ts)
    ensures End(ts + [t]) == t.end
  {
    assert (ts + [t])[..|ts|] == ts;
  }
}
