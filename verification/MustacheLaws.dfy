/** What rendering means, told without the renderer: what values names have, and what each kind of tag turns into. */
module RenderLaws {
  import opened Tokens
  import opened Rendering

  // ---------- The value of a name ----------

  /** Parts with dots between them. */
  function Dots(parts: seq<string>): string
    requires parts != []
  {
    if |parts| == 1 then parts[0] else parts[0] + "." + Dots(parts[1..])
  }

  predicate DotFree(parts: seq<string>) {
    parts != [] && forall i :: 0 <= i < |parts| ==> '.' !in parts[i]
  }

  /** The name is looked up part by part; a name that starts with a dot is not. */
  predicate IsPath(parts: seq<string>) {
    |parts| > 1 && parts[0] != ""
  }

  predicate IsProperty(v: Value, name: string, w: Value) {
    !v.Nullish() && if name in v.fields then w == v.fields[name] else w.Undefined?
  }

  /** Each value is a property of the one before, up to the last part or the first falsy value. */
  ghost predicate Walk(vs: seq<Value>, parts: seq<string>) {
    && 1 <= |vs| <= |parts| + 1
    && (forall k :: 0 <= k < |vs| - 1 ==> !vs[k].Falsy() && IsProperty(vs[k], parts[k], vs[k + 1]))
    && (|vs| <= |parts| ==> vs[|vs| - 1].Falsy())
  }

  /** What a view has for a name. */
  ghost predicate Gives(view: Value, parts: seq<string>, v: Value)
    requires parts != []
  {
    if IsPath(parts) then exists vs :: Walk(vs, parts) && vs[0] == view && vs[|vs| - 1] == v
    else IsProperty(view, Dots(parts), v)
  }

  ghost predicate Lacks(view: Value, parts: seq<string>)
    requires parts != []
  {
    Gives(view, parts, Undefined) || Gives(view, parts, Null)
  }

  /** Reading a single property of null or undefined throws. */
  predicate Throws(view: Value, parts: seq<string>) {
    !IsPath(parts) && view.Nullish()
  }

  lemma {:induction false} PartsOne(p: string)
    requires '.' !in p
    ensures Parts(p) == [p]
  {
    if p != "" {
      PartsOne(p[1..]);
      assert p[0] in p && p == [p[0]] + p[1..];
    }
  }

  lemma {:induction false} PartsFirst(p: string, rest: string)
    requires '.' !in p
    ensures Parts(p + "." + rest) == [p] + Parts(rest)
  {
    var s := p + "." + rest;
    if p == "" {
      assert s[1..] == rest;
    } else {
      PartsFirst(p[1..], rest);
      assert s[1..] == p[1..] + "." + rest;
      assert p[0] in p && s[0] == p[0] && p == [p[0]] + p[1..];
      assert ([p[1..]] + Parts(rest))[1..] == Parts(rest);
    }
  }

  lemma {:induction false} PartsOfDots(parts: seq<string>)
    requires DotFree(parts)
    ensures Parts(Dots(parts)) == parts && (Dotted(Dots(parts)) <==> IsPath(parts))
  {
    if |parts| == 1 {
      PartsOne(parts[0]);
    } else {
      PartsOfDots(parts[1..]);
      PartsFirst(parts[0], Dots(parts[1..]));
      var s := Dots(parts);
      assert s[|parts[0]|] == '.' && '.' in s;
      if parts[0] != "" { assert s[0] == parts[0][0] && parts[0][0] in parts[0]; }
    }
  }

  /** Every name is parts with dots between them. */
  lemma {:induction false} DotsOfParts(name: string)
    ensures DotFree(Parts(name)) && Dots(Parts(name)) == name
  {
    if name != "" {
      var rest := Parts(name[1..]);
      DotsOfParts(name[1..]);
      if name[0] == '.' {
        assert ([""] + rest)[1..] == rest;
      } else if |rest| > 1 {
        assert ([[name[0]] + rest[0]] + rest[1..])[1..] == rest[1..];
      }
    }
  }

  lemma {:induction false} FollowWalks(vs: seq<Value>, parts: seq<string>)
    requires Walk(vs, parts)
    ensures Follow(vs[0], parts) == vs[|vs| - 1]
    decreases |parts|
  {
    if |vs| > 1 {
      FollowWalks(vs[1..], parts[1..]);
    }
  }

  lemma {:induction false} Walks(view: Value, parts: seq<string>) returns (vs: seq<Value>)
    ensures Walk(vs, parts) && vs[0] == view && vs[|vs| - 1] == Follow(view, parts)
    decreases |parts|
  {
    vs := [view];
    if !view.Falsy() && parts != [] {
      var rest := Walks(view.Field(parts[0]), parts[1..]);
      vs := vs + rest;
      assert vs[1..] == rest;
      forall k | 0 <= k < |vs| - 1 ensures !vs[k].Falsy() && IsProperty(vs[k], parts[k], vs[k + 1]) {
        if k > 0 { assert vs[k] == rest[k - 1] && parts[k] == parts[1..][k - 1] && vs[k + 1] == rest[k]; }
      }
    }
  }

  /** A view gives one value for a name, or throws. */
  lemma GivenByView(view: Value, parts: seq<string>, v: Value)
    requires DotFree(parts)
    ensures Gives(view, parts, v) <==> At(view, Dots(parts)) == Ok(v)
    ensures Throws(view, parts) <==> At(view, Dots(parts)).TypeError?
  {
    PartsOfDots(parts);
    if IsPath(parts) {
      var ws := Walks(view, parts);
      if Gives(view, parts, v) {
        var vs :| Walk(vs, parts) && vs[0] == view && vs[|vs| - 1] == v;
        FollowWalks(vs, parts);
      }
    }
  }

  /** A name has the value of the innermost view that has one. The last view's value counts even if it has none. */
  lemma {:induction false} InnermostFound(views: seq<Value>, parts: seq<string>, i: nat, v: Value)
    requires DotFree(parts) && Dots(parts) != "." && i < |views|
    requires (forall j :: 0 <= j < i ==> Lacks(views[j], parts)) && Gives(views[i], parts, v)
    requires !v.Nullish() || i == |views| - 1
    ensures Find(views, Dots(parts)) == Ok(v)
  {
    hide Lacks, Gives, At;
    GivenByView(views[i], parts, v);
    forall j | 0 <= j < i ensures At(views[j], Dots(parts)).Ok? && At(views[j], Dots(parts)).value.Nullish() {
      LacksNothing(views[j], parts);
    }
    SearchFinds(views, Dots(parts), i);
  }

  lemma LacksNothing(view: Value, parts: seq<string>)
    requires DotFree(parts) && Lacks(view, parts)
    ensures At(view, Dots(parts)).Ok? && At(view, Dots(parts)).value.Nullish()
  {
    hide Gives, At;
    GivenByView(view, parts, Undefined);
    GivenByView(view, parts, Null);
  }

  lemma {:induction false} SearchFinds(views: seq<Value>, name: string, i: nat)
    requires i < |views|
    requires forall j :: 0 <= j < i ==> At(views[j], name).Ok? && At(views[j], name).value.Nullish()
    requires var v := At(views[i], name); v.TypeError? || !v.value.Nullish() || i == |views| - 1
    ensures Search(views, name) == At(views[i], name)
    decreases |views|
  {
    hide At;
    if i > 0 {
      SearchFinds(views[1..], name, i - 1);
    }
  }

  lemma InnermostThrows(views: seq<Value>, parts: seq<string>, i: nat)
    requires DotFree(parts) && Dots(parts) != "." && i < |views|
    requires (forall j :: 0 <= j < i ==> Lacks(views[j], parts)) && Throws(views[i], parts)
    ensures Find(views, Dots(parts)) == TypeError
  {
    hide Lacks, Gives, At;
    GivenByView(views[i], parts, Null);
    forall j | 0 <= j < i ensures At(views[j], Dots(parts)).Ok? && At(views[j], Dots(parts)).value.Nullish() {
      LacksNothing(views[j], parts);
    }
    SearchFinds(views, Dots(parts), i);
  }

  /** One of the two always holds: some view decides. */
  lemma {:induction false} SomeViewDecides(views: seq<Value>, parts: seq<string>) returns (i: nat)
    requires DotFree(parts) && views != []
    ensures i < |views| && forall j :: 0 <= j < i ==> Lacks(views[j], parts)
    ensures Throws(views[i], parts) || exists v :: Gives(views[i], parts, v) && (!v.Nullish() || i == |views| - 1)
    decreases |views|
  {
    hide Lacks, Gives, At;
    var r := At(views[0], Dots(parts));
    i := 0;
    if r.Ok? {
      GivenByView(views[0], parts, r.value);
      if r.value.Nullish() && |views| > 1 {
        NothingLacks(views[0], parts, r.value);
        i := SomeViewDecides(views[1..], parts);
        i := i + 1;
      }
    } else {
      GivenByView(views[0], parts, Null);
    }
  }

  lemma NothingLacks(view: Value, parts: seq<string>, v: Value)
    requires parts != [] && Gives(view, parts, v) && v.Nullish()
    ensures Lacks(view, parts)
  {
  }

  /** A dot alone is the innermost view. */
  lemma DotIsView(views: seq<Value>)
    requires views != []
    ensures Find(views, ".") == Ok(views[0])
  {
  }

  // ---------- What tags turn into ----------

  lemma OneNode(node: Node, views: seq<Value>)
    requires views != []
    ensures RenderAll([node], views) == RenderNode(node, views)
  {
    hide RenderNode;
    assert [node][..0] == [];
    var r := RenderNode(node, views);
    if r.Ok? { assert "" + r.value == r.value; }
  }

  /** The rendering of a list is that of its parts, in order. */
  lemma {:induction false} RenderAppend(a: seq<Node>, b: seq<Node>, views: seq<Value>)
    requires views != []
    ensures RenderAll(a + b, views) == Concat(RenderAll(a, views), RenderAll(b, views))
    ensures RenderAll([], views) == Ok("")
    decreases |b|
  {
    hide RenderNode;
    if b == [] {
      assert a + b == a;
      var x := RenderAll(a, views);
      if x.Ok? { assert x.value + "" == x.value; }
    } else {
      var n := |b| - 1;
      RenderAppend(a, b[..n], views);
      assert (a + b)[..|a + b| - 1] == a + b[..n];
      var x, y, z := RenderAll(a, views), RenderAll(b[..n], views), RenderNode(b[n], views);
      if x.Ok? && y.Ok? && z.Ok? { assert x.value + (y.value + z.value) == (x.value + y.value) + z.value; }
    }
  }

  /** Text stands for itself; comments, new delimiters and tags for partials leave nothing. */
  lemma TextRenders(t: Token, views: seq<Value>)
    requires views != []
    ensures t.kind.Text? ==> RenderAll([Leaf(t)], views) == Ok(t.value)
    ensures t.kind.Comment? || t.kind.SetTags? || t.kind.Partial? ==> RenderAll([Leaf(t)], views) == Ok("")
  {
    OneNode(Leaf(t), views);
  }

  /** An unescaped tag turns into the text of its value, and a tag of the same name into inert text that decodes to
      the same. */
  lemma VariableRenders(name: string, views: seq<Value>, t: Token, u: Token)
    requires views != [] && t.kind.Name? && u.kind.Unescaped? && t.value == u.value == name
    ensures var escaped, plain := RenderAll([Leaf(t)], views), RenderAll([Leaf(u)], views);
      match Find(views, name)
      case TypeError => escaped == TypeError && plain == TypeError
      case Ok(v) =>
        && plain == Ok(if v.Nullish() then "" else v.text)
        && escaped.Ok? && Inert(escaped.value) && Decoded(escaped.value) == plain.value
  {
    hide Find, Inert, Decoded, Escape;
    OneNode(Leaf(t), views);
    OneNode(Leaf(u), views);
    var v := Find(views, name);
    if v.Ok? && !v.value.Nullish() {
      EscapedIsInert(v.value.text);
      DecodedEscape(v.value.text);
    }
    NothingIsInert();
  }

  lemma NothingIsInert()
    ensures Inert("") && Decoded("") == ""
  {
  }

  /** Of a section and an inverted section of the same name, the first leaves nothing where the value is falsy or an
      empty list, and else the second; the other one renders what is inside. */
  lemma SectionOrInverted(s: Token, i: Token, nodes: seq<Node>, close: nat, views: seq<Value>, v: Value)
    requires views != [] && s.kind.Section? && i.kind.Inverted? && s.value == i.value && Find(views, s.value) == Ok(v)
    ensures var section := RenderAll([Block(s, nodes, close)], views);
      var inverted := RenderAll([Block(i, nodes, close)], views);
      if v.Nullish() || (v.Prim? && !v.truthy) || (v.List? && v.items == []) then
        section == Ok("") && inverted == RenderAll(nodes, views)
      else
        && inverted == Ok("")
        && (v.Object? ==> section == RenderAll(nodes, [v] + views))
        && (v.Prim? ==> section == RenderAll(nodes, views))
        && (v.List? ==> IsEach(nodes, v.items, views, section))
  {
    hide Find, RenderAll, IsEach;
    OneNode(Block(s, nodes, close), views);
    OneNode(Block(i, nodes, close), views);
    if v.List? {
      EachRenders(nodes, v.items, views);
      if v.items == [] { EachOfNone(nodes, views); }
    }
  }

  lemma EachOfNone(nodes: seq<Node>, views: seq<Value>)
    requires views != []
    ensures RenderEach(nodes, [], views) == Ok("")
  {
  }

  lemma SectionThrows(t: Token, nodes: seq<Node>, close: nat, views: seq<Value>)
    requires views != [] && Find(views, t.value).TypeError?
    ensures RenderAll([Block(t, nodes, close)], views).TypeError?
  {
    hide Find;
    OneNode(Block(t, nodes, close), views);
  }

  function Flat(texts: seq<string>): string {
    if texts == [] then "" else texts[0] + Flat(texts[1..])
  }

  /** r is the nodes rendered once for each item, in order, with the item as innermost view, or throws if one does. */
  ghost predicate IsEach(nodes: seq<Node>, items: seq<Value>, views: seq<Value>, r: Outcome<string>) {
    && (r.TypeError? <==> exists k :: 0 <= k < |items| && RenderAll(nodes, [items[k]] + views).TypeError?)
    && (r.Ok? ==> exists texts :: EachText(nodes, items, views, texts) && r.value == Flat(texts))
  }

  ghost predicate EachText(nodes: seq<Node>, items: seq<Value>, views: seq<Value>, texts: seq<string>) {
    |texts| == |items| && forall k :: 0 <= k < |items| ==> RenderAll(nodes, [items[k]] + views) == Ok(texts[k])
  }

  lemma {:induction false} FlatLast(texts: seq<string>, text: string)
    ensures Flat(texts + [text]) == Flat(texts) + text
  {
    if texts != [] {
      FlatLast(texts[1..], text);
      assert (texts + [text])[1..] == texts[1..] + [text];
    }
  }

  lemma {:induction false} EachRenders(nodes: seq<Node>, items: seq<Value>, views: seq<Value>)
    requires views != []
    ensures IsEach(nodes, items, views, RenderEach(nodes, items, views))
    decreases |items|
  {
    hide RenderAll;
    if items == [] {
      assert EachText(nodes, items, views, []);
    } else {
      var n := |items| - 1;
      var before, last := RenderEach(nodes, items[..n], views), RenderAll(nodes, [items[n]] + views);
      EachRenders(nodes, items[..n], views);
      assert forall k :: 0 <= k < n ==> items[..n][k] == items[k];
      if before.Ok? && last.Ok? {
        var texts :| EachText(nodes, items[..n], views, texts) && before.value == Flat(texts);
        assert EachText(nodes, items, views, texts + [last.value]);
        FlatLast(texts, last.value);
      }
    }
  }

  // ---------- Escaping in whole templates ----------

  /** Neither text nor unescaped tags put markup into what is rendered. */
  predicate NoMarkup(nodes: seq<Node>)
    decreases nodes
  {
    forall i :: 0 <= i < |nodes| ==> NoMarkupIn(nodes[i])
  }

  predicate NoMarkupIn(node: Node)
    decreases node
  {
    match node
    case Leaf(t) => !t.kind.Unescaped? && (t.kind.Text? ==> forall i :: 0 <= i < |t.value| ==> t.value[i] !in "&<>\"'/")
    case Block(_, children, _) => NoMarkup(children)
  }

  /** Whatever the views, a template without markup of its own renders to inert text. */
  lemma {:induction false} RenderedIsInert(nodes: seq<Node>, views: seq<Value>)
    requires views != [] && NoMarkup(nodes)
    ensures RenderAll(nodes, views).Ok? ==> Inert(RenderAll(nodes, views).value)
    decreases nodes, 1
  {
    hide Inert, RenderNode;
    NothingIsInert();
    if nodes != [] {
      var n := |nodes| - 1;
      RenderedIsInert(nodes[..n], views);
      NodeIsInert(nodes[n], views);
      var a, b := RenderAll(nodes[..n], views), RenderNode(nodes[n], views);
      if a.Ok? && b.Ok? { InertJoined(a.value, b.value); }
    }
  }

  lemma {:induction false} NodeIsInert(node: Node, views: seq<Value>)
    requires views != [] && NoMarkupIn(node)
    ensures RenderNode(node, views).Ok? ==> Inert(RenderNode(node, views).value)
    decreases node, 0
  {
    hide Inert, Find, Escape;
    NothingIsInert();
    match node
    case Leaf(t) =>
      var v := Find(views, t.value);
      if t.kind.Text? {
        PlainIsInert(t.value);
      } else if v.Ok? && !v.value.Nullish() {
        EscapedIsInert(v.value.text);
      }
    case Block(t, children, _) =>
      var v := Find(views, t.value);
      if v.Ok? {
        RenderedIsInert(children, views);
        RenderedIsInert(children, [v.value] + views);
        if v.value.List? { EachIsInert(children, v.value.items, views); }
      }
  }

  lemma PlainIsInert(s: string)
    requires forall i :: 0 <= i < |s| ==> s[i] !in "&<>\"'/"
    ensures Inert(s)
  {
  }

  lemma {:induction false} EachIsInert(nodes: seq<Node>, items: seq<Value>, views: seq<Value>)
    requires views != [] && NoMarkup(nodes)
    ensures RenderEach(nodes, items, views).Ok? ==> Inert(RenderEach(nodes, items, views).value)
    decreases nodes, 2, |items|
  {
    hide Inert, NoMarkup;
    NothingIsInert();
    if items != [] {
      var n := |items| - 1;
      EachIsInert(nodes, items[..n], views);
      RenderedIsInert(nodes, [items[n]] + views);
      var a, b := RenderEach(nodes, items[..n], views), RenderAll(nodes, [items[n]] + views);
      if a.Ok? && b.Ok? { InertJoined(a.value, b.value); }
    }
  }
}
