/** Rendering a template's tree against a stack of views. */
module Rendering {
  import opened Tokens
  import opened Stripping
  import Parsing

  // ---------- Values and lookup ----------

  /** A value of a view, without functions. Each value other than null and undefined has a string form
      and the properties that can be read off it. */
  datatype Value =
    | Undefined
    | Null
    | Prim(truthy: bool, text: string, fields: map<string, Value>)
    | Object(text: string, fields: map<string, Value>)
    | List(items: seq<Value>, text: string, fields: map<string, Value>)
  {
    predicate Nullish() { Undefined? || Null? }

    predicate Falsy() { Nullish() || (Prim? && !truthy) }

    function Field(name: string): Value
      requires !Nullish()
    {
      if name in fields then fields[name] else Undefined
    }
  }

  /** Reading a property of null or undefined throws. */
  datatype Outcome<T> = Ok(value: T) | TypeError

  predicate Dotted(name: string) {
    '.' in name && name[0] != '.'
  }

  /** The parts of a dotted name. */
  function Parts(name: string): (parts: seq<string>)
    ensures parts != []
  {
    if name == [] then [""] else
    var rest := Parts(name[1..]);
    if name[0] == '.' then [""] + rest else [[name[0]] + rest[0]] + rest[1..]
  }

  /** Follows names from v, until a falsy value or the last name. */
  function Follow(v: Value, names: seq<string>): Value
    decreases |names|
  {
    if v.Falsy() || names == [] then v else Follow(v.Field(names[0]), names[1..])
  }

  function At(view: Value, name: string): Outcome<Value> {
    if Dotted(name) then Ok(Follow(view, Parts(name)))
    else if view.Nullish() then TypeError
    else Ok(view.Field(name))
  }

  /** The value of the innermost view that has one; views lists the innermost first. */
  function Search(views: seq<Value>, name: string): Outcome<Value>
    requires views != []
  {
    var v := At(views[0], name);
    if v.TypeError? || !v.value.Nullish() || |views| == 1 then v else Search(views[1..], name)
  }

  function Find(views: seq<Value>, name: string): Outcome<Value>
    requires views != []
  {
    if name == "." then Ok(views[0]) else Search(views, name)
  }

  class Context {
    const view: Value
    const parent: Context?
    var cache: map<string, Value>
    ghost const views: seq<Value>

    constructor (view: Value, parent: Context?)
      requires parent != null ==> parent.Linked()
      ensures Valid() && views == [view] + if parent == null then [] else parent.views
    {
      this.view, this.parent, cache := view, parent, map[];
      views := [view] + if parent == null then [] else parent.views;
    }

    ghost predicate Linked()
      decreases |views|
    {
      && views == [view] + (if parent == null then [] else parent.views)
      && (parent != null ==> parent.Linked())
    }

    /** The cache is never wrong. */
    ghost predicate Valid()
      reads this`cache
    {
      && Linked()
      && forall name :: name in cache ==> Find(views, name) == Ok(cache[name])
    }

    /** The loop over the parts of a dotted name. */
    method FollowParts(names: seq<string>) returns (value: Value)
      ensures value == Follow(view, names)
    {
      value := view;
      var i := 0;
      while !value.Falsy() && i < |names|
        invariant i <= |names| && Follow(view, names) == Follow(value, names[i..])
        decreases |names| - i
      {
        value := value.Field(names[i]);
        i := i + 1;
      }
    }

    method Lookup(name: string) returns (r: Outcome<Value>)
      requires Valid()
      modifies this`cache
      ensures Valid() && r == Find(views, name)
    {
      var value := if name in cache then cache[name] else Undefined;
      if value.Falsy() {
        if name == "." {
          value := view;
        } else {
          var found := SearchUp(name);
          if found.TypeError? {
            return TypeError;
          }
          value := found.value;
        }
        cache := cache[name := value];
      }
      r := Ok(value);
    }

    /** The loop from a context to its ancestors. */
    method SearchUp(name: string) returns (r: Outcome<Value>)
      requires Linked()
      ensures r == Search(views, name)
    {
      var context: Context? := this;
      r := Ok(Undefined);
      while context != null
        invariant context != null ==> context.Linked() && Search(views, name) == Search(context.views, name)
        invariant context == null ==> r == Search(views, name)
        decreases if context == null then 0 else |context.views|
      {
        if Dotted(name) {
          var value := context.FollowParts(Parts(name));
          r := Ok(value);
        } else if context.view.Nullish() {
          return TypeError;
        } else {
          r := Ok(context.view.Field(name));
        }
        if !r.value.Nullish() {
          break;
        }
        context := context.parent;
      }
    }
  }

  // ---------- Escaping ----------

  function Entity(c: char): string {
    match c
    case '&' => "&amp;"
    case '<' => "&lt;"
    case '>' => "&gt;"
    case '"' => "&quot;"
    case '\'' => "&#39;"
    case '/' => "&#x2F;"
    case _ => [c]
  }

  /** `escapeHtml`. */
  function Escape(s: string): string {
    if s == "" then "" else Entity(s[0]) + Escape(s[1..])
  }

  /** One of the six entities. */
  predicate StartsEntity(s: string) {
    "&amp;" <= s || "&lt;" <= s || "&gt;" <= s || "&quot;" <= s || "&#39;" <= s || "&#x2F;" <= s
  }

  /** Text that can neither start nor end anything in markup: `&` only starts entities. */
  ghost predicate Inert(s: string) {
    forall i :: 0 <= i < |s| ==> s[i] !in "<>\"'/" && (s[i] == '&' ==> StartsEntity(s[i..]))
  }

  lemma InertJoined(s: string, t: string)
    requires Inert(s) && Inert(t)
    ensures Inert(s + t)
  {
    hide StartsEntity;
    var u := s + t;
    forall i | 0 <= i < |u| ensures u[i] !in "<>\"'/" && (u[i] == '&' ==> StartsEntity(u[i..])) {
      if i < |s| {
        assert u[i..] == s[i..] + t;
        if s[i] == '&' { EntityBefore(s[i..], t); }
      } else {
        assert u[i..] == t[i - |s|..];
      }
    }
  }

  lemma EntityBefore(s: string, t: string)
    requires StartsEntity(s)
    ensures StartsEntity(s + t)
  {
  }

  lemma StartOnly(e: string)
    requires e != "" && StartsEntity(e) && forall i :: 0 < i < |e| ==> e[i] !in "&<>\"'/"
    requires e[0] == '&'
    ensures Inert(e)
  {
    hide StartsEntity;
    assert e[0..] == e;
  }

  lemma EntityIsInert(c: char)
    ensures Inert(Entity(c))
  {
    hide Inert;
    match c
    case '&' => StartOnly("&amp;");
    case '<' => StartOnly("&lt;");
    case '>' => StartOnly("&gt;");
    case '"' => StartOnly("&quot;");
    case '\'' => StartOnly("&#39;");
    case '/' => StartOnly("&#x2F;");
    case _ => OneIsInert(c);
  }

  lemma OneIsInert(c: char)
    requires c !in "&<>\"'/"
    ensures Inert([c])
  {
  }

  /** Escaped text is inert. */
  lemma {:induction false} EscapedIsInert(s: string)
    ensures Inert(Escape(s))
  {
    if s != "" {
      hide Inert, Entity;
      EntityIsInert(s[0]);
      EscapedIsInert(s[1..]);
      InertJoined(Entity(s[0]), Escape(s[1..]));
    } else {
      assert Inert("");
    }
  }

  /** The entity that s starts with, or its first character, and the character that it stands for. */
  function Unit(s: string): (r: (string, char))
    requires s != ""
    ensures 0 < |r.0| <= |s|
  {
    if "&amp;" <= s then ("&amp;", '&')
    else if "&lt;" <= s then ("&lt;", '<')
    else if "&gt;" <= s then ("&gt;", '>')
    else if "&quot;" <= s then ("&quot;", '"')
    else if "&#39;" <= s then ("&#39;", '\'')
    else if "&#x2F;" <= s then ("&#x2F;", '/')
    else ([s[0]], s[0])
  }

  /** The text with entities read as the characters they stand for. */
  function Decoded(s: string): string {
    if s == "" then "" else
    var (entity, c) := Unit(s);
    [c] + Decoded(s[|entity|..])
  }

  lemma UnitOf(c: char, s: string)
    ensures Unit(Entity(c) + s) == (Entity(c), c)
  {
    var t := Entity(c) + s;
    match c
    case '&' =>
    case '<' => assert t[1] == 'l';
    case '>' => assert t[1] == 'g';
    case '"' => assert t[1] == 'q';
    case '\'' => assert t[1] == '#' && t[2] == '3';
    case '/' => assert t[1] == '#' && t[2] == 'x';
    case _ => assert t[0] == c;
  }

  /** Escaping loses nothing: decoding gives the text back. */
  lemma {:induction false} DecodedEscape(s: string)
    ensures Decoded(Escape(s)) == s
  {
    if s != "" {
      hide Entity, Unit;
      var e, rest := Entity(s[0]), Escape(s[1..]);
      UnitOf(s[0], rest);
      DecodedEscape(s[1..]);
      assert (e + rest)[|e|..] == rest && s == [s[0]] + s[1..];
    }
  }

  /** No two texts are escaped alike. */
  lemma EscapeInjective(s: string, t: string)
    requires Escape(s) == Escape(t)
    ensures s == t
  {
    DecodedEscape(s);
    DecodedEscape(t);
  }

  // ---------- Rendering ----------

  function Concat(a: Outcome<string>, b: Outcome<string>): Outcome<string> {
    if a.TypeError? || b.TypeError? then TypeError else Ok(a.value + b.value)
  }

  function RenderAll(nodes: seq<Node>, views: seq<Value>): Outcome<string>
    requires views != []
    decreases nodes, 0
  {
    if nodes == [] then Ok("") else
    Concat(RenderAll(nodes[..|nodes| - 1], views), RenderNode(nodes[|nodes| - 1], views))
  }

  /** The rendering of the tokens inside a section, once for each of the items. */
  function RenderEach(nodes: seq<Node>, items: seq<Value>, views: seq<Value>): Outcome<string>
    requires views != []
    decreases nodes, 1, |items|
  {
    if items == [] then Ok("") else
    Concat(RenderEach(nodes, items[..|items| - 1], views), RenderAll(nodes, [items[|items| - 1]] + views))
  }

  function RenderLeaf(t: Token, views: seq<Value>): Outcome<string>
    requires views != []
  {
    match t.kind
    case Text => Ok(t.value)
    case Name =>
      var v := Find(views, t.value);
      if v.TypeError? then TypeError else if v.value.Nullish() then Ok("") else Ok(Escape(v.value.text))
    case Unescaped =>
      var v := Find(views, t.value);
      if v.TypeError? then TypeError else if v.value.Nullish() then Ok("") else Ok(v.value.text)
    case _ => Ok("")
  }

  /** What a section renders for its value. */
  function RenderSection(t: Token, v: Value, nodes: seq<Node>, views: seq<Value>): Outcome<string>
    requires views != []
    decreases nodes, 2
  {
    if t.kind.Inverted? then
      if v.Falsy() || (v.List? && v.items == []) then RenderAll(nodes, views) else Ok("")
    else if v.List? then RenderEach(nodes, v.items, views)
    else if v.Object? then RenderAll(nodes, [v] + views)
    else if v.Falsy() then Ok("")
    else RenderAll(nodes, views)
  }

  function RenderNode(node: Node, views: seq<Value>): Outcome<string>
    requires views != []
    decreases node, 0
  {
    match node
    case Leaf(t) => RenderLeaf(t, views)
    case Block(t, children, _) =>
      var v := Find(views, t.value);
      if v.TypeError? then TypeError else RenderSection(t, v.value, children, views)
  }

  method LeafText(t: Token, context: Context) returns (r: Outcome<string>)
    requires context.Valid()
    modifies context`cache
    ensures context.Valid() && r == RenderLeaf(t, context.views)
  {
    if t.kind.Text? {
      return Ok(t.value);
    }
    if t.kind.Name? || t.kind.Unescaped? {
      var v := context.Lookup(t.value);
      if v.TypeError? {
        return TypeError;
      }
      if !v.value.Nullish() {
        return Ok(if t.kind.Name? then Escape(v.value.text) else v.value.text);
      }
    }
    r := Ok("");
  }

  /** The loop over the items of a list. */
  method RenderItems(nodes: seq<Node>, items: seq<Value>, context: Context) returns (r: Outcome<string>)
    requires context.Valid()
    ensures r == RenderEach(nodes, items, context.views)
    decreases nodes, 1
  {
    var buffer := "";
    for j := 0 to |items|
      invariant RenderEach(nodes, items[..j], context.views) == Ok(buffer)
    {
      assert items[..j + 1][..j] == items[..j];
      var inner := new Context(items[j], context);
      var part := RenderTokens(nodes, inner);
      if part.TypeError? {
        EachStuck(nodes, items, j + 1, context.views);
        return TypeError;
      }
      buffer := buffer + part.value;
    }
    assert items[..|items|] == items;
    r := Ok(buffer);
  }

  lemma {:induction false} EachStuck(nodes: seq<Node>, items: seq<Value>, j: nat, views: seq<Value>)
    requires j <= |items| && views != [] && RenderEach(nodes, items[..j], views).TypeError?
    ensures RenderEach(nodes, items, views).TypeError?
    decreases |items|
  {
    if j == |items| {
      assert items[..j] == items;
    } else {
      var n := |items| - 1;
      assert items[..n][..j] == items[..j];
      EachStuck(nodes, items[..n], j, views);
    }
  }

  lemma {:induction false} AllStuck(nodes: seq<Node>, i: nat, views: seq<Value>)
    requires i <= |nodes| && views != [] && RenderAll(nodes[..i], views).TypeError?
    ensures RenderAll(nodes, views).TypeError?
    decreases |nodes|
  {
    if i == |nodes| {
      assert nodes[..i] == nodes;
    } else {
      var n := |nodes| - 1;
      assert nodes[..n][..i] == nodes[..i];
      AllStuck(nodes[..n], i, views);
    }
  }

  method SectionText(t: Token, nodes: seq<Node>, v: Value, context: Context) returns (r: Outcome<string>)
    requires context.Valid()
    modifies context`cache
    ensures context.Valid() && r == RenderSection(t, v, nodes, context.views)
    decreases nodes, 2
  {
    if t.kind.Inverted? {
      if v.Falsy() || (v.List? && |v.items| == 0) {
        r := RenderTokens(nodes, context);
      } else {
        r := Ok("");
      }
    } else if v.List? {
      r := RenderItems(nodes, v.items, context);
    } else if v.Object? {
      var inner := new Context(v, context);
      r := RenderTokens(nodes, inner);
    } else if !v.Falsy() {
      r := RenderTokens(nodes, context);
    } else {
      r := Ok("");
    }
  }

  /** `renderTokens`: the caches of the contexts make no difference. */
  method RenderTokens(tokens: seq<Node>, context: Context) returns (r: Outcome<string>)
    requires context.Valid()
    modifies context`cache
    ensures context.Valid() && r == RenderAll(tokens, context.views)
    decreases tokens, 0
  {
    hide RenderLeaf, RenderSection, Find;
    var buffer := "";
    for i := 0 to |tokens|
      invariant context.Valid() && RenderAll(tokens[..i], context.views) == Ok(buffer)
    {
      assert tokens[..i + 1][..i] == tokens[..i];
      var part := TokenText(tokens[i], context);
      if part.TypeError? {
        AllStuck(tokens, i + 1, context.views);
        return TypeError;
      }
      buffer := buffer + part.value;
    }
    assert tokens[..|tokens|] == tokens;
    r := Ok(buffer);
  }

  method TokenText(token: Node, context: Context) returns (r: Outcome<string>)
    requires context.Valid()
    modifies context`cache
    ensures context.Valid() && r == RenderNode(token, context.views)
    decreases token, 0
  {
    match token
    case Leaf(t) =>
      r := LeafText(t, context);
    case Block(t, children, _) =>
      var v := context.Lookup(t.value);
      if v.TypeError? {
        return TypeError;
      }
      r := SectionText(t, children, v.value, context);
  }

  // ---------- Squashing preserves meaning ----------

  /** Two lists of nodes that render to the same text whatever the views. */
  ghost predicate Alike(a: seq<Node>, b: seq<Node>) {
    forall views: seq<Value> :: views != [] ==> RenderAll(a, views) == RenderAll(b, views)
  }

  lemma RenderLast(nodes: seq<Node>, node: Node, views: seq<Value>)
    requires views != []
    ensures RenderAll(nodes + [node], views) == Concat(RenderAll(nodes, views), RenderNode(node, views))
  {
    assert (nodes + [node])[..|nodes|] == nodes;
  }

  lemma {:induction false} EachAlike(a: seq<Node>, b: seq<Node>, items: seq<Value>, views: seq<Value>)
    requires Alike(a, b) && views != []
    ensures RenderEach(a, items, views) == RenderEach(b, items, views)
    decreases |items|
  {
    if items != [] {
      EachAlike(a, b, items[..|items| - 1], views);
    }
  }

  lemma SectionAlike(t: Token, v: Value, a: seq<Node>, b: seq<Node>, views: seq<Value>)
    requires Alike(a, b) && views != []
    ensures RenderSection(t, v, a, views) == RenderSection(t, v, b, views)
  {
    if v.List? {
      EachAlike(a, b, v.items, views);
    }
  }

  /** Alike children make alike sections, and alike lists stay alike when the same node is added. */
  lemma AlikeWithBlock(a: seq<Node>, b: seq<Node>, t: Token, c: seq<Node>, d: seq<Node>, close: nat)
    requires Alike(a, b) && Alike(c, d)
    ensures Alike(a + [Block(t, c, close)], b + [Block(t, d, close)])
  {
    hide RenderSection, RenderAll, Find;
    var m, n := Block(t, c, close), Block(t, d, close);
    forall views: seq<Value> | views != [] ensures RenderAll(a + [m], views) == RenderAll(b + [n], views) {
      RenderLast(a, m, views);
      RenderLast(b, n, views);
      var v := Find(views, t.value);
      if v.Ok? { SectionAlike(t, v.value, c, d, views); }
    }
  }

  lemma AlikeWithLeaf(a: seq<Node>, b: seq<Node>, t: Token)
    requires Alike(a, b)
    ensures Alike(a + [Leaf(t)], b + [Leaf(t)])
  {
    hide RenderNode, RenderAll;
    forall views: seq<Value> | views != [] ensures RenderAll(a + [Leaf(t)], views) == RenderAll(b + [Leaf(t)], views) {
      RenderLast(a, Leaf(t), views);
      RenderLast(b, Leaf(t), views);
    }
  }

  /** A text token made longer renders like the two it was made of. */
  lemma AlikeJoined(a: seq<Node>, last: Token, t: Token, b: seq<Node>)
    requires last.kind.Text? && t.kind.Text? && Alike(a + [Leaf(last)], b)
    ensures Alike(a + [Leaf(Joined(last, t))], b + [Leaf(t)])
  {
    hide RenderAll;
    forall views: seq<Value> | views != []
      ensures RenderAll(a + [Leaf(Joined(last, t))], views) == RenderAll(b + [Leaf(t)], views)
    {
      RenderLast(a, Leaf(last), views);
      RenderLast(a, Leaf(Joined(last, t)), views);
      RenderLast(b, Leaf(t), views);
      var x := RenderAll(a, views);
      if x.Ok? { assert x.value + last.value + t.value == x.value + (last.value + t.value); }
    }
  }

  lemma AlikeItself(a: seq<Node>)
    ensures Alike(a, a)
  {
  }

  lemma NothingInStep()
    ensures InStep(Nested([]), Nested([]))
  {
    AlikeItself([]);
  }

  /** The same open sections, and alike nodes in each and before each. */
  ghost predicate InStep(s: Nesting, u: Nesting) {
    && s.Nesting? && u.Nesting? && |s.sections| == |u.sections|
    && (forall i :: 0 <= i < |s.sections| ==> s.sections[i].section == u.sections[i].section)
    && (forall i :: 0 <= i < |s.sections| ==> Alike(s.sections[i].before, u.sections[i].before))
    && Alike(s.collector, u.collector)
  }

  lemma NextInStep(s: Nesting, u: Nesting, t: Token)
    requires InStep(s, u) && NestNext(u, t).Nesting?
    ensures InStep(NestNext(s, t), NestNext(u, t))
  {
    hide Alike;
    if t.Opens() {
      AlikeItself([]);
    } else if !t.kind.Close? {
      AlikeWithLeaf(s.collector, u.collector, t);
    } else {
      var n := |s.sections| - 1;
      AlikeWithBlock(s.sections[n].before, u.sections[n].before, s.sections[n].section, s.collector, u.collector,
        t.start);
    }
  }

  lemma NestedLast(ts: seq<Token>, t: Token)
    ensures Nested(ts + [t]) == NestNext(Nested(ts), t)
  {
    assert (ts + [t])[..|ts|] == ts;
  }

  lemma {:induction false} SquashInStep(slots: seq<Slot>)
    requires OpenAfter(Present(slots)).Open?
    ensures InStep(Nested(Squash(slots)), Nested(Present(slots)))
  {
    hide Alike, Nested, NestNext, OpenAfter;
    if slots == [] {
      NothingInStep();
    } else if slots[|slots| - 1].Hole? {
      assert Present(slots) == Present(slots[..|slots| - 1]);
      SquashInStep(slots[..|slots| - 1]);
    } else {
      var n := |slots| - 1;
      var t, before, present := slots[n].token, Squash(slots[..n]), Present(slots[..n]);
      LastToken(present, t);
      SquashInStep(slots[..n]);
      NeverUnderflows(present + [t]);
      NestedLast(present, t);
      NestedLast(before, t);
      if Joins(before, t) {
        var m := |before| - 1;
        assert before == before[..m] + [before[m]];
        NestedLast(before[..m], before[m]);
        NestedLast(before[..m], Joined(before[m], t));
        JoinInStep(Nested(before[..m]), before[m], t, Nested(present));
      } else {
        NextInStep(Nested(before), Nested(present), t);
      }
    }
  }

  /** A leaf goes to the nodes being collected. */
  lemma NestLeaf(s: Nesting, t: Token)
    requires t.kind.Text?
    ensures NestNext(s, t) == if s.Underflow? then Underflow else Nesting(s.sections, s.collector + [Leaf(t)])
  {
  }

  /** Joining in step: front is the nesting before the last text token. */
  lemma JoinInStep(front: Nesting, last: Token, t: Token, present: Nesting)
    requires last.kind.Text? && t.kind.Text? && InStep(NestNext(front, last), present)
    ensures InStep(NestNext(front, Joined(last, t)), NestNext(present, t))
  {
    hide Alike, NestNext;
    NestLeaf(front, last);
    NestLeaf(front, Joined(last, t));
    NestLeaf(present, t);
    AlikeJoined(front.collector, last, t, present.collector);
  }

  /** The tree nested from the squashed tokens renders like the tree nested from the tokens themselves. */
  lemma SquashPreservesMeaning(slots: seq<Slot>)
    requires Balanced(Present(slots))
    ensures Balanced(Squash(slots)) && Alike(Nest(Squash(slots)), Nest(Present(slots)))
  {
    hide Alike, Nested;
    SquashBalanced(slots);
    SquashInStep(slots);
  }

  /** The tree of a parsed template: it renders like the tokens that stripping leaves, and holds them in order,
      with no two text tokens side by side. */
  lemma ParsedTree(all: seq<Token>)
    requires Balanced(all)
    ensures var slots := Strip(all);
      && Balanced(Present(slots)) && Balanced(Squash(slots)) && Alike(Nest(Squash(slots)), Nest(Present(slots)))
      && Flatten(Nest(Squash(slots))) == TrimmedAll(Squash(slots))
      && (forall i :: 0 < i < |Squash(slots)| ==> !(Squash(slots)[i - 1].kind.Text? && Squash(slots)[i].kind.Text?))
      && Tags(Squash(slots)) == Tags(all) && TextOf(Squash(slots)) == TextOf(Present(slots))
  {
    hide Alike, Nested, OpenAfter, Tags, TextOf, Stripped;
    Parsing.StripBalanced(all);
    SquashPreservesMeaning(Strip(all));
    FlattenNested(Squash(Strip(all)));
    SquashedApart(Strip(all));
    SquashKeeps(Strip(all));
    Parsing.StripKeepsTags(all, Strip(all));
  }
}
