/** The scanner that template parsing uses, and the few regular expressions it is used with. */
module Scanning {

  /** What `\s` matches. */
  predicate IsSpace(c: char) {
    c in " \t\n\U{000B}\U{000C}\r\U{00A0}\U{1680}\U{2028}\U{2029}\U{202F}\U{205F}\U{3000}\U{FEFF}"
      || '\U{2000}' <= c <= '\U{200A}'
  }

  /** Among the printable characters of ASCII only the space is white. */
  lemma AsciiSpace(c: char)
    requires c <= '~'
    ensures IsSpace(c) <==> c == ' ' || '\t' <= c <= '\r'
  {
  }

  ghost predicate AllSpace(s: string) {
    forall i :: 0 <= i < |s| ==> IsSpace(s[i])
  }

  /** Either one of the characters that give a tag its type, or a literal with white space around it. */
  datatype Pattern = Sigil | Around(spaceBefore: bool, literal: string, spaceAfter: bool)

  /** The length of the white space at the start. */
  function Spaces(s: string): (n: nat)
    ensures n <= |s| && AllSpace(s[..n]) && (n < |s| ==> !IsSpace(s[n]))
  {
    if s == "" || !IsSpace(s[0]) then 0 else 1 + Spaces(s[1..])
  }

  /** The longest run of at most k characters that the literal follows, or -1. */
  function Backtrack(s: string, literal: string, k: nat): (n: int)
    requires k <= |s|
    ensures -1 <= n <= k && (n >= 0 ==> literal <= s[n..])
    ensures forall i :: 0 <= i <= k && literal <= s[i..] ==> i <= n
  {
    if literal <= s[k..] then k else if k == 0 then -1 else Backtrack(s, literal, k - 1)
  }

  /** The length of the match at the start, or -1. */
  function MatchHere(p: Pattern, s: string): (n: int)
    ensures -1 <= n <= |s|
  {
    match p
    case Sigil => if s != "" && s[0] in "#^/>{&=!" then 1 else -1
    case Around(before, literal, after) =>
      var k := Backtrack(s, literal, if before then Spaces(s) else 0);
      if k < 0 then -1 else
      var n := k + |literal|;
      n + if after then Spaces(s[n..]) else 0
  }

  lemma SpacePrefix(s: string, k: nat)
    requires k <= Spaces(s)
    ensures AllSpace(s[..k])
  {
    forall i | 0 <= i < k ensures IsSpace(s[..k][i]) {
      assert s[..k][i] == s[..Spaces(s)][i];
    }
  }

  lemma ThreeParts(s: string, k: nat, n: nat, m: nat)
    requires k <= n <= m <= |s|
    ensures s[..m] == s[..k] + s[k..n] + s[n..m]
  {
  }

  /** Where the leftmost match starts, or -1. */
  function Search(p: Pattern, s: string): (n: int)
    ensures -1 <= n <= |s|
    ensures n >= 0 ==> MatchHere(p, s[n..]) >= 0
    ensures forall i :: 0 <= i <= |s| && (n < 0 || i < n) ==> MatchHere(p, s[i..]) < 0
  {
    assert s[0..] == s;
    if MatchHere(p, s) >= 0 then 0
    else if s == "" then -1
    else
      var n := Search(p, s[1..]);
      assert forall i :: 0 < i <= |s| ==> s[i..] == s[1..][i - 1..];
      if n < 0 then -1 else n + 1
  }

  /** w is all the white space at the start of s. */
  ghost predicate Fills(w: string, s: string) {
    w <= s && AllSpace(w) && (|w| < |s| ==> !IsSpace(s[|w|]))
  }

  lemma FillsOnce(w: string, v: string, s: string)
    requires Fills(w, s) && Fills(v, s)
    ensures w == v
  {
    hide IsSpace, AllSpace;
    if |w| < |v| {
      SpaceAt(s, 0, v, |w|);
    } else if |v| < |w| {
      SpaceAt(s, 0, w, |v|);
    }
  }

  lemma SpaceAt(s: string, lo: nat, w: string, i: nat)
    requires lo + |w| <= |s| && s[lo..lo + |w|] == w && AllSpace(w) && lo <= i < lo + |w|
    ensures IsSpace(s[i])
  {
    hide IsSpace;
    assert s[i] == w[i - lo];
  }

  /** The value is what comes before white space and the literal: it does not end with white space, no literal starts
      in it, and the white space is as long as it can be with the literal after it. */
  ghost predicate UpTo(s: string, value: string, w: string, literal: string) {
    && value + w + literal <= s && AllSpace(w) && (value != "" ==> !IsSpace(value[|value| - 1]))
    && (forall i :: 0 <= i < |value| ==> !(literal <= s[i..]))
    && (forall i :: |value| + |w| < i <= |s| && AllSpace(s[|value|..i]) ==> !(literal <= s[i..]))
  }

  lemma UpToParts(s: string, value: string, w: string, literal: string)
    requires value + w + literal <= s
    ensures s[..|value|] == value && s[|value|..|value| + |w|] == w && literal <= s[|value| + |w|..]
  {
    var t := value + w + literal;
    assert s[..|t|] == t;
    assert s[|value|..|value| + |w|] == t[|value|..|value| + |w|];
    assert s[|value| + |w|..][..|literal|] == t[|value| + |w|..];
  }

  /** There is only one such value. */
  lemma UpToOnce(s: string, value: string, w: string, value': string, w': string, literal: string)
    requires UpTo(s, value, w, literal) && UpTo(s, value', w', literal)
    ensures value == value' && w == w'
  {
    hide IsSpace, AllSpace;
    UpToParts(s, value, w, literal);
    UpToParts(s, value', w', literal);
    if |value| < |value'| {
      SpaceAt(s, |value|, w, |value'| - 1);
    } else if |value'| < |value| {
      SpaceAt(s, |value'|, w', |value| - 1);
    }
  }

  ghost predicate NothingUpTo(s: string, literal: string) {
    forall value, w :: !UpTo(s, value, w, literal)
  }

  /** The run of white space that `\s*` takes is the longest before the literal. */
  lemma GreedyMatch(p: Pattern, s: string)
    requires p.Around? && p.spaceBefore && !p.spaceAfter && MatchHere(p, s) >= 0
    ensures var k := MatchHere(p, s) - |p.literal|;
      && 0 <= k <= |s| && AllSpace(s[..k]) && p.literal <= s[k..]
      && forall i :: k < i <= |s| && AllSpace(s[..i]) ==> !(p.literal <= s[i..])
  {
    hide IsSpace, AllSpace;
    var k := Backtrack(s, p.literal, Spaces(s));
    SpacePrefix(s, k);
    forall i | k < i <= |s| && AllSpace(s[..i]) ensures !(p.literal <= s[i..]) {
      if Spaces(s) < i { SpaceAt(s, 0, s[..i], Spaces(s)); }
    }
  }

  /** White space and the literal match at any character before the literal. */
  lemma MatchesAt(p: Pattern, s: string, j: nat)
    requires p.Around? && p.spaceBefore && j <= Spaces(s) && p.literal <= s[j..]
    ensures MatchHere(p, s) >= 0
  {
    var k := Backtrack(s, p.literal, Spaces(s));
    assert j <= k;
  }

  /** What `\s*` and the literal match, they match with more white space in front. */
  lemma MatchesEarlier(p: Pattern, s: string)
    requires p.Around? && p.spaceBefore && s != "" && IsSpace(s[0]) && MatchHere(p, s[1..]) >= 0
    ensures MatchHere(p, s) >= 0
  {
    var k := Backtrack(s[1..], p.literal, Spaces(s[1..]));
    assert s[k + 1..] == s[1..][k..];
    MatchesAt(p, s, k + 1);
  }

  /** No literal, nor white space before a literal, lies before the leftmost match of `\s*` and the literal. */
  lemma BeforeMatch(p: Pattern, s: string, n: nat)
    requires p.Around? && p.spaceBefore && n == Search(p, s)
    ensures forall i :: 0 <= i < n ==> !(p.literal <= s[i..])
    ensures n > 0 ==> !IsSpace(s[n - 1])
  {
    hide MatchHere, IsSpace;
    forall i | 0 <= i < n ensures !(p.literal <= s[i..]) {
      if p.literal <= s[i..] {
        assert s[i..][0..] == s[i..];
        MatchesAt(p, s[i..], 0);
      }
    }
    if n > 0 && IsSpace(s[n - 1]) {
      assert s[n - 1..][1..] == s[n..];
      MatchesEarlier(p, s[n - 1..]);
    }
  }

  /** What is skipped up to a match is the value before white space and the literal. */
  lemma SkippedUpTo(p: Pattern, s: string, n: nat)
    requires p.Around? && p.spaceBefore && !p.spaceAfter && n == Search(p, s)
    ensures var k := MatchHere(p, s[n..]) - |p.literal|; 0 <= k <= |s| - n && UpTo(s, s[..n], s[n..n + k], p.literal)
  {
    hide MatchHere, IsSpace, AllSpace, UpTo, Search;
    GreedyAt(p, s, n);
    BeforeMatch(p, s, n);
    UpToPlace(s, n, MatchHere(p, s[n..]) - |p.literal|, p.literal);
  }

  lemma GreedyAt(p: Pattern, s: string, n: nat)
    requires p.Around? && p.spaceBefore && !p.spaceAfter && n <= |s| && MatchHere(p, s[n..]) >= 0
    ensures var k := MatchHere(p, s[n..]) - |p.literal|;
      && 0 <= k <= |s| - n && AllSpace(s[n..n + k]) && p.literal <= s[n + k..]
      && forall i :: n + k < i <= |s| && AllSpace(s[n..i]) ==> !(p.literal <= s[i..])
  {
    hide MatchHere, IsSpace, AllSpace;
    var t := s[n..];
    GreedyMatch(p, t);
    var k := MatchHere(p, t) - |p.literal|;
    assert t[..k] == s[n..n + k] && t[k..] == s[n + k..];
    forall i | n + k < i <= |s| && AllSpace(s[n..i]) ensures !(p.literal <= s[i..]) {
      assert t[..i - n] == s[n..i] && t[i - n..] == s[i..];
    }
  }

  lemma UpToPlace(s: string, n: nat, k: nat, literal: string)
    requires n + k <= |s| && literal <= s[n + k..] && AllSpace(s[n..n + k]) && (n > 0 ==> !IsSpace(s[n - 1]))
    requires forall i :: 0 <= i < n ==> !(literal <= s[i..])
    requires forall i :: n + k < i <= |s| && AllSpace(s[n..i]) ==> !(literal <= s[i..])
    ensures UpTo(s, s[..n], s[n..n + k], literal)
  {
    hide IsSpace, AllSpace;
    assert s[..n] + s[n..n + k] + literal == s[..n + k + |literal|];
  }

  /** Without a match there is no such value. */
  lemma NoneUpTo(p: Pattern, s: string)
    requires p.Around? && p.spaceBefore && Search(p, s) < 0
    ensures NothingUpTo(s, p.literal)
  {
    hide IsSpace, MatchHere;
    forall value, w ensures !UpTo(s, value, w, p.literal) {
      if UpTo(s, value, w, p.literal) {
        UpToParts(s, value, w, p.literal);
        var t := s[|value| + |w|..];
        assert t[0..] == t;
        MatchesAt(p, t, 0);
      }
    }
  }

  class Scanner {
    const text: string
    var tail: string
    var pos: nat

    ghost predicate Valid()
      reads this
    {
      pos <= |text| && tail == text[pos..]
    }

    constructor (text: string)
      ensures Valid() && this.text == text && pos == 0
    {
      this.text, tail, pos := text, text, 0;
    }

    method Eos() returns (eos: bool)
      requires Valid()
      ensures eos <==> pos == |text|
    {
      eos := |tail| == 0;
    }

    /** Moves past a match at the current position. */
    method Scan(p: Pattern) returns (matched: string)
      requires Valid()
      modifies this`tail, this`pos
      ensures Valid() && pos == old(pos) + |matched| && text[old(pos)..pos] == matched
      ensures matched == var n := MatchHere(p, old(tail)); if n < 0 then "" else old(tail)[..n]
    {
      hide MatchHere, Search;
      matched := "";
      assert tail[0..] == tail;
      if Search(p, tail) == 0 {
        matched := tail[..MatchHere(p, tail)];
        pos, tail := pos + |matched|, tail[|matched|..];
      }
    }

    /** Moves to the leftmost match, or else to the end. */
    method ScanUntil(p: Pattern) returns (skipped: string)
      requires Valid()
      modifies this`tail, this`pos
      ensures Valid() && pos == old(pos) + |skipped| && text[old(pos)..pos] == skipped
      ensures skipped == var n := Search(p, old(tail)); if n < 0 then old(tail) else old(tail)[..n]
    {
      hide MatchHere, Search;
      var n := Search(p, tail);
      if n < 0 {
        skipped := tail;
        pos, tail := pos + |tail|, "";
      } else if n == 0 {
        skipped := "";
      } else {
        skipped := tail[..n];
        pos, tail := pos + n, tail[n..];
      }
    }
  }

  // ---------- Splitting at white space ----------

  /** The pieces of s between runs of white space. */
  function Split(s: string): (words: seq<string>)
    ensures words != []
    decreases |s|
  {
    if s == "" then [""] else
    if IsSpace(s[0]) then [""] + Split(s[Spaces(s)..])
    else
      var rest := Split(s[1..]);
      [[s[0]] + rest[0]] + rest[1..]
  }

  lemma {:induction false} SplitStarts(s: string)
    ensures s != "" && !IsSpace(s[0]) ==> Split(s)[0] != ""
  {
  }

  /** Only the first and the last piece can be empty, and only when white space is there. */
  lemma {:induction false} SplitWords(s: string)
    requires s != "" && !IsSpace(s[|s| - 1])
    ensures forall i :: 0 < i < |Split(s)| ==> Split(s)[i] != ""
    decreases |s|
  {
    if IsSpace(s[0]) {
      var n := Spaces(s);
      assert n < |s|;
      SplitWords(s[n..]);
      SplitStarts(s[n..]);
    } else if |s| > 1 {
      SplitWords(s[1..]);
    } else {
      assert s[1..] == "";
    }
  }
}
