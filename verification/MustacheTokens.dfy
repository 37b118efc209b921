/** Template tokens: a flat list of them is squashed and then nested into a tree. */
module Tokens {

  datatype Kind = Text | Name | Unescaped | Section | Inverted | Close | Partial | Comment | SetTags

  datatype Token = Token(kind: Kind, value: string, start: nat, end: nat) {
    predicate Opens() { kind.Section? || kind.Inverted? }
  }

  /** A cell of the token buffer; deleting a token leaves a hole. */
  datatype Slot = Hole | Kept(token: Token)

  datatype Node = Leaf(token: Token) | Block(token: Token, children: seq<Node>, close: nat)

  /** The tokens that have not been deleted. */
  function Present(slots: seq<Slot>): (ts: seq<Token>) {
    if slots == [] then [] else
    var n := |slots| - 1;
    Present(slots[..n]) + (if slots[n].Kept? then [slots[n].token] else [])
  }

  // ---------- Balanced sections ----------

  /** The names of the sections still open, the innermost last, or that a closing tag did not match. */
  datatype Openings = Mismatch | Open(names: seq<string>)

  function NextOpenings(open: Openings, t: Token): Openings {
    match open
    case Mismatch => Mismatch
    case Open(names) =>
      if t.Opens() then Open(names + [t.value])
      else if !t.kind.Close? then open
      else if names != [] && names[|names| - 1] == t.value then Open(names[..|names| - 1])
      else Mismatch
  }

  function OpenAfter(ts: seq<Token>): Openings {
    if ts == [] then Open([]) else NextOpenings(OpenAfter(ts[..|ts| - 1]), ts[|ts| - 1])
  }

  predicate Balanced(ts: seq<Token>) {
    OpenAfter(ts) == Open([])
  }

  // ---------- Squashing ----------

  predicate Joins(ts: seq<Token>, t: Token) {
    ts != [] && ts[|ts| - 1].kind.Text? && t.kind.Text?
  }

  /** The last text token made longer by another one. */
  function Joined(last: Token, t: Token): Token {
    last.(value := last.value + t.value, end := t.end)
  }

  function Squash(slots: seq<Slot>): (ts: seq<Token>) {
    if slots == [] then [] else
    var n := |slots| - 1;
    var before := Squash(slots[..n]);
    if slots[n].Hole? then before
    else if Joins(before, slots[n].token) then before[..|before| - 1] + [Joined(before[|before| - 1], slots[n].token)]
    else before + [slots[n].token]
  }

  /** `squashTokens`. */
  method SquashTokens(tokens: seq<Slot>) returns (squashed: seq<Token>)
    ensures squashed == Squash(tokens)
  {
    squashed := [];
    for i := 0 to |tokens|
      invariant squashed == Squash(tokens[..i])
    {
      assert tokens[..i + 1][..i] == tokens[..i];
      if tokens[i].Kept? {
        var token, last := tokens[i].token, |squashed| - 1;
        if squashed != [] && token.kind.Text? && squashed[last].kind.Text? {
          squashed := squashed[..last]
            + [squashed[last].(value := squashed[last].value + token.value, end := token.end)];
        } else {
          squashed := squashed + [token];
        }
      }
    }
    assert tokens[..|tokens|] == tokens;
  }

  /** No two adjacent squashed tokens are both text. */
  lemma {:induction false} SquashedApart(slots: seq<Slot>)
    ensures forall i :: 0 < i < |Squash(slots)| ==> !(Squash(slots)[i - 1].kind.Text? && Squash(slots)[i].kind.Text?)
  {
    if slots != [] {
      SquashedApart(slots[..|slots| - 1]);
    }
  }

  function TextOf(ts: seq<Token>): string {
    if ts == [] then "" else TextOf(ts[..|ts| - 1]) + if ts[|ts| - 1].kind.Text? then ts[|ts| - 1].value else ""
  }

  function Tags(ts: seq<Token>): seq<Token> {
    if ts == [] then [] else Tags(ts[..|ts| - 1]) + if ts[|ts| - 1].kind.Text? then [] else [ts[|ts| - 1]]
  }

  lemma LastToken(ts: seq<Token>, t: Token)
    ensures Tags(ts + [t]) == Tags(ts) + (if t.kind.Text? then [] else [t])
    ensures TextOf(ts + [t]) == TextOf(ts) + (if t.kind.Text? then t.value else "")
    ensures OpenAfter(ts + [t]) == NextOpenings(OpenAfter(ts), t)
  {
    assert (ts + [t])[..|ts|] == ts;
  }

  /** Squashing keeps the tags and the text. */
  lemma {:induction false} SquashKeeps(slots: seq<Slot>)
    ensures Tags(Squash(slots)) == Tags(Present(slots)) && TextOf(Squash(slots)) == TextOf(Present(slots))
  {
    hide Tags, TextOf;
    if slots == [] {
      assert Squash(slots) == Present(slots);
    } else {
      var n := |slots| - 1;
      var before := Squash(slots[..n]);
      SquashKeeps(slots[..n]);
      if slots[n].Kept? {
        var t := slots[n].token;
        LastToken(Present(slots[..n]), t);
        if Joins(before, t) {
          var m := |before| - 1;
          assert before == before[..m] + [before[m]];
          LastToken(before[..m], before[m]);
          LastToken(before[..m], Joined(before[m], t));
        } else {
          LastToken(before, t);
        }
      } else {
        assert Present(slots) == Present(slots[..n]);
      }
    }
  }

  /** Only tags matter for the nesting of sections. */
  lemma {:induction false} OpenAfterTags(ts: seq<Token>)
    ensures OpenAfter(ts) == OpenAfter(Tags(ts))
  {
    if ts != [] {
      var n := |ts| - 1;
      OpenAfterTags(ts[..n]);
      assert ts == ts[..n] + [ts[n]];
      LastToken(ts[..n], ts[n]);
      LastToken(Tags(ts[..n]), ts[n]);
      if ts[n].kind.Text? { assert Tags(ts) == Tags(ts[..n]); }
    }
  }

  lemma SquashBalanced(slots: seq<Slot>)
    ensures OpenAfter(Squash(slots)) == OpenAfter(Present(slots))
  {
    SquashKeeps(slots);
    OpenAfterTags(Squash(slots));
    OpenAfterTags(Present(slots));
  }

  // ---------- Nesting ----------

  /** An open section and the nodes collected before it. */
  datatype Frame = Frame(section: Token, before: seq<Node>)

  /** The open sections, the innermost last, and the nodes being collected. */
  datatype Nesting = Underflow | Nesting(sections: seq<Frame>, collector: seq<Node>)

  function NestNext(s: Nesting, t: Token): Nesting {
    if s.Underflow? then Underflow
    else if t.Opens() then Nesting(s.sections + [Frame(t, s.collector)], [])
    else if !t.kind.Close? then Nesting(s.sections, s.collector + [Leaf(t)])
    else if s.sections == [] then Underflow
    else
      var n := |s.sections| - 1;
      Nesting(s.sections[..n], s.sections[n].before + [Block(s.sections[n].section, s.collector, t.start)])
  }

  function Nested(ts: seq<Token>): Nesting {
    if ts == [] then Nesting([], []) else NestNext(Nested(ts[..|ts| - 1]), ts[|ts| - 1])
  }

  function SectionNames(fs: seq<Frame>): (names: seq<string>)
    ensures |names| == |fs| && forall i :: 0 <= i < |fs| ==> names[i] == fs[i].section.value
  {
    seq(|fs|, i requires 0 <= i < |fs| => fs[i].section.value)
  }

  /** The section checks keep the stack of the nesting in step: it never underflows. */
  lemma {:induction false} NeverUnderflows(ts: seq<Token>)
    requires OpenAfter(ts).Open?
    ensures Nested(ts).Nesting? && SectionNames(Nested(ts).sections) == OpenAfter(ts).names
  {
    if ts != [] {
      var n := |ts| - 1;
      NeverUnderflows(ts[..n]);
    }
  }

  function Nest(ts: seq<Token>): (nodes: seq<Node>)
    requires Balanced(ts)
  {
    NeverUnderflows(ts);
    Nested(ts).collector
  }

  /** A prefix of a balanced list has no mismatch. */
  lemma {:induction false} NoMismatchBefore(ts: seq<Token>, i: nat)
    requires i <= |ts| && OpenAfter(ts).Open?
    ensures OpenAfter(ts[..i]).Open?
  {
    if i < |ts| {
      NoMismatchBefore(ts[..|ts| - 1], i);
      assert ts[..|ts| - 1][..i] == ts[..i];
    } else {
      assert ts[..i] == ts;
    }
  }

  /** `nestTokens`: never pops an empty stack. */
  method NestTokens(tokens: seq<Token>) returns (tree: seq<Node>)
    requires Balanced(tokens)
    ensures tree == Nest(tokens)
  {
    var collector: seq<Node> := [];
    var sections: seq<Frame> := [];
    for i := 0 to |tokens|
      invariant Nested(tokens[..i]) == Nesting(sections, collector)
    {
      NoMismatchBefore(tokens, i + 1);
      NeverUnderflows(tokens[..i + 1]);
      assert tokens[..i + 1][..i] == tokens[..i];
      var token := tokens[i];
      match token.kind
      case Section | Inverted =>
        sections := sections + [Frame(token, collector)];
        collector := [];
      case Close =>
        var section := sections[|sections| - 1];
        sections := sections[..|sections| - 1];
        collector := section.before + [Block(section.section, collector, token.start)];
      case _ =>
        collector := collector + [Leaf(token)];
    }
    assert tokens[..|tokens|] == tokens;
    tree := collector;
  }

  // ---------- Nesting and flattening are inverse ----------

  /** A closing tag without its end, which the tree does not keep. */
  function Trimmed(t: Token): Token {
    if t.kind.Close? then t.(end := t.start) else t
  }

  function TrimmedAll(ts: seq<Token>): (us: seq<Token>)
    ensures |us| == |ts| && forall i :: 0 <= i < |ts| ==> us[i] == Trimmed(ts[i])
  {
    seq(|ts|, i requires 0 <= i < |ts| => Trimmed(ts[i]))
  }

  function Flatten(nodes: seq<Node>): (ts: seq<Token>)
    decreases nodes
  {
    if nodes == [] then [] else Flatten(nodes[..|nodes| - 1]) + FlattenNode(nodes[|nodes| - 1])
  }

  function FlattenNode(node: Node): (ts: seq<Token>)
    decreases node
  {
    match node
    case Leaf(t) => [t]
    case Block(t, children, close) => [t] + Flatten(children) + [Token(Close, t.value, close, close)]
  }

  /** The tokens seen so far, read off the stack. */
  function Unwound(sections: seq<Frame>): (ts: seq<Token>) {
    if sections == [] then [] else
    var n := |sections| - 1;
    Unwound(sections[..n]) + Flatten(sections[n].before) + [sections[n].section]
  }

  lemma FlattenLast(nodes: seq<Node>, node: Node)
    ensures Flatten(nodes + [node]) == Flatten(nodes) + FlattenNode(node)
  {
    assert (nodes + [node])[..|nodes|] == nodes;
  }

  lemma UnwoundPush(fs: seq<Frame>, f: Frame)
    ensures Unwound(fs + [f]) == Unwound(fs) + Flatten(f.before) + [f.section]
  {
    assert (fs + [f])[..|fs|] == fs;
  }

  /** Each token adds itself to what can be read off the stack. */
  lemma UnwoundStep(s: Nesting, t: Token)
    requires s.Nesting? && (t.kind.Close? ==> s.sections != [] && s.sections[|s.sections| - 1].section.value == t.value)
    ensures var u := NestNext(s, t);
            u.Nesting?
              && Unwound(u.sections) + Flatten(u.collector) == Unwound(s.sections) + Flatten(s.collector) + [Trimmed(t)]
  {
    hide Unwound;
    var u := NestNext(s, t);
    if t.Opens() {
      UnwoundPush(s.sections, Frame(t, s.collector));
      assert Flatten(u.collector) == [];
    } else if !t.kind.Close? {
      FlattenLast(s.collector, Leaf(t));
    } else {
      var n := |s.sections| - 1;
      var f := s.sections[n];
      assert s.sections == s.sections[..n] + [f];
      UnwoundPush(s.sections[..n], f);
      FlattenLast(f.before, Block(f.section, s.collector, t.start));
    }
  }

  /** A closing tag that matches closes the section on top of the stack. */
  lemma ClosesTop(ts: seq<Token>, t: Token)
    requires OpenAfter(ts + [t]).Open?
    ensures OpenAfter(ts).Open? && Nested(ts).Nesting?
    ensures t.kind.Close? ==> var fs := Nested(ts).sections; fs != [] && fs[|fs| - 1].section.value == t.value
  {
    hide OpenAfter, Nested, Tags, TextOf;
    LastToken(ts, t);
    NeverUnderflows(ts);
    var fs := Nested(ts).sections;
    assert |SectionNames(fs)| == |fs|;
    assert fs != [] ==> SectionNames(fs)[|fs| - 1] == fs[|fs| - 1].section.value;
  }

  lemma {:induction false} UnwoundAll(ts: seq<Token>)
    requires OpenAfter(ts).Open?
    ensures Nested(ts).Nesting?
    ensures TrimmedAll(ts) == Unwound(Nested(ts).sections) + Flatten(Nested(ts).collector)
  {
    if ts != [] {
      hide Unwound, Flatten, OpenAfter, NestNext, Token.Opens;
      var n := |ts| - 1;
      assert ts == ts[..n] + [ts[n]];
      ClosesTop(ts[..n], ts[n]);
      UnwoundAll(ts[..n]);
      UnwoundStep(Nested(ts[..n]), ts[n]);
      assert TrimmedAll(ts) == TrimmedAll(ts[..n]) + [Trimmed(ts[n])];
    }
  }

  /** Flattening the tree of a balanced list gives the list back. */
  lemma FlattenNested(ts: seq<Token>)
    requires Balanced(ts)
    ensures Flatten(Nest(ts)) == TrimmedAll(ts)
  {
    NeverUnderflows(ts);
    UnwoundAll(ts);
  }

  predicate WellFormed(nodes: seq<Node>)
    decreases nodes
  {
    nodes == [] || (WellFormed(nodes[..|nodes| - 1]) && WellFormedNode(nodes[|nodes| - 1]))
  }

  predicate WellFormedNode(node: Node)
    decreases node
  {
    match node
    case Leaf(t) => !t.Opens() && !t.kind.Close?
    case Block(t, children, _) => t.Opens() && WellFormed(children)
  }

  function Resumed(s: Nesting, ts: seq<Token>): Nesting {
    if ts == [] then s else NestNext(Resumed(s, ts[..|ts| - 1]), ts[|ts| - 1])
  }

  lemma {:induction false} ResumedSplit(s: Nesting, us: seq<Token>, vs: seq<Token>)
    ensures Resumed(s, us + vs) == Resumed(Resumed(s, us), vs)
  {
    if vs == [] {
      assert us + vs == us;
    } else {
      var n := |vs| - 1;
      ResumedSplit(s, us, vs[..n]);
      assert (us + vs)[..|us + vs| - 1] == us + vs[..n];
    }
  }

  lemma {:induction false} ResumedFromStart(ts: seq<Token>)
    ensures Resumed(Nesting([], []), ts) == Nested(ts)
  {
    if ts != [] {
      ResumedFromStart(ts[..|ts| - 1]);
    }
  }

  /** The nesting of a flattened tree adds the tree to what has been collected. */
  lemma {:induction false} NestFlattened(s: Nesting, nodes: seq<Node>)
    requires s.Nesting? && WellFormed(nodes)
    ensures Resumed(s, Flatten(nodes)) == Nesting(s.sections, s.collector + nodes)
    decreases nodes
  {
    if nodes == [] {
      assert s.collector + nodes == s.collector;
    } else {
      hide Resumed, WellFormedNode;
      var n := |nodes| - 1;
      var front, last := nodes[..n], nodes[n];
      NestFlattened(s, front);
      NestFlattenedNode(Nesting(s.sections, s.collector + front), last);
      ResumedSplit(s, Flatten(front), FlattenNode(last));
      assert s.collector + nodes == s.collector + front + [last];
    }
  }

  lemma {:induction false} NestFlattenedNode(s: Nesting, node: Node)
    requires s.Nesting? && WellFormedNode(node)
    ensures Resumed(s, FlattenNode(node)) == Nesting(s.sections, s.collector + [node])
    decreases node
  {
    match node
    case Leaf(t) =>
      assert [t][..0] == [];
    case Block(t, children, close) =>
      var c := Token(Close, t.value, close, close);
      var entered := Nesting(s.sections + [Frame(t, s.collector)], []);
      assert [t][..0] == [] && [c][..0] == [];
      assert Resumed(s, [t]) == entered;
      NestFlattened(entered, children);
      assert [] + children == children;
      ResumedSplit(s, [t], Flatten(children));
      ResumedSplit(s, [t] + Flatten(children), [c]);
  }

  lemma {:induction false} FlattenedOpenings(us: seq<Token>, nodes: seq<Node>)
    requires OpenAfter(us).Open? && WellFormed(nodes)
    ensures OpenAfter(us + Flatten(nodes)) == OpenAfter(us)
    decreases nodes
  {
    hide OpenAfter;
    if nodes == [] {
      assert us + [] == us;
    } else {
      var n := |nodes| - 1;
      FlattenedOpenings(us, nodes[..n]);
      FlattenedNodeOpenings(us + Flatten(nodes[..n]), nodes[n]);
      assert us + Flatten(nodes) == us + Flatten(nodes[..n]) + FlattenNode(nodes[n]);
    }
  }

  lemma {:induction false} FlattenedNodeOpenings(us: seq<Token>, node: Node)
    requires OpenAfter(us).Open? && WellFormedNode(node)
    ensures OpenAfter(us + FlattenNode(node)) == OpenAfter(us)
    decreases node
  {
    hide OpenAfter, Flatten;
    match node
    case Leaf(t) =>
      LastToken(us, t);
    case Block(t, children, close) =>
      var c := Token(Close, t.value, close, close);
      var inside := us + [t] + Flatten(children);
      LastToken(us, t);
      FlattenedOpenings(us + [t], children);
      LastToken(inside, c);
      assert us + FlattenNode(node) == inside + [c];
  }

  /** Every well-formed tree is the nesting of its flattening, which is balanced. */
  lemma NestedFlatten(nodes: seq<Node>)
    requires WellFormed(nodes)
    ensures Balanced(Flatten(nodes)) && Nest(Flatten(nodes)) == nodes
  {
    FlattenedOpenings([], nodes);
    assert [] + Flatten(nodes) == Flatten(nodes);
    NestFlattened(Nesting([], []), nodes);
    ResumedFromStart(Flatten(nodes));
    assert [] + nodes == nodes;
  }
}
