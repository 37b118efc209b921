/** Whole templates: parsed, and rendered with a view. */
module Pages {
  import opened Tokens
  import opened Stripping
  import opened Parsing
  import opened Rendering
  import opened RenderLaws
  import Writing

  datatype Page = Invalid(error: ParseError) | Rendered(text: Outcome<string>)

  /** The page that a reading of the template comes to. */
  ghost predicate IsPage(page: Page, all: seq<Token>, c: Check, view: Value) {
    match c
    case Bad(error) => page == Invalid(error)
    case Fine =>
      Balanced(Squash(Strip(all))) && page == Rendered(RenderAll(Nest(Squash(Strip(all))), [view]))
  }

  // ---------- Escaping ----------

  /** Text without the characters that are escaped, and no unescaped tags. */
  predicate PlainToken(t: Token) {
    !t.kind.Unescaped? && (t.kind.Text? ==> forall i :: 0 <= i < |t.value| ==> t.value[i] !in "&<>\"'/")
  }

  predicate PlainTokens(ts: seq<Token>) {
    forall i :: 0 <= i < |ts| ==> PlainToken(ts[i])
  }

  lemma PlainJoined(last: Token, t: Token)
    requires PlainToken(last) && PlainToken(t) && last.kind.Text? && t.kind.Text?
    ensures PlainToken(Joined(last, t))
  {
  }

  lemma {:induction false} SquashPlain(slots: seq<Slot>)
    requires forall i :: 0 <= i < |slots| && slots[i].Kept? ==> PlainToken(slots[i].token)
    ensures PlainTokens(Squash(slots))
  {
    if slots != [] {
      hide PlainToken;
      var n := |slots| - 1;
      var before := Squash(slots[..n]);
      SquashPlain(slots[..n]);
      if slots[n].Kept? && Joins(before, slots[n].token) { PlainJoined(before[|before| - 1], slots[n].token); }
    }
  }

  ghost predicate PlainNesting(s: Nesting) {
    s.Nesting? ==>
      NoMarkup(s.collector) && forall i :: 0 <= i < |s.sections| ==> NoMarkup(s.sections[i].before)
  }

  lemma PlainMore(nodes: seq<Node>, node: Node)
    requires NoMarkup(nodes) && NoMarkupIn(node)
    ensures NoMarkup(nodes + [node])
  {
    hide NoMarkupIn;
  }

  lemma {:induction false} NestPlain(ts: seq<Token>)
    requires PlainTokens(ts)
    ensures PlainNesting(Nested(ts))
  {
    if ts != [] {
      hide NoMarkup, PlainToken;
      var n := |ts| - 1;
      var s, t := Nested(ts[..n]), ts[n];
      NestPlain(ts[..n]);
      assert PlainToken(t);
      if s.Nesting? {
        if t.Opens() {
          assert NoMarkup([]) by { NothingPlain(); }
        } else if !t.kind.Close? {
          LeafPlain(t);
          PlainMore(s.collector, Leaf(t));
        } else if s.sections != [] {
          var m := |s.sections| - 1;
          BlockPlain(s.sections[m].section, s.collector, t.start);
          PlainMore(s.sections[m].before, Block(s.sections[m].section, s.collector, t.start));
        }
      }
    } else {
      NothingPlain();
    }
  }

  lemma NothingPlain()
    ensures NoMarkup([])
  {
  }

  lemma LeafPlain(t: Token)
    requires PlainToken(t)
    ensures NoMarkupIn(Leaf(t))
  {
  }

  lemma BlockPlain(t: Token, children: seq<Node>, close: nat)
    requires NoMarkup(children)
    ensures NoMarkupIn(Block(t, children, close))
  {
  }

  /** Without markup of its own, a template makes only pages without any markup, whatever the view. */
  lemma PlainPage(page: Page, all: seq<Token>, view: Value)
    requires PlainTokens(all) && IsPage(page, all, Fine, view)
    ensures page.Rendered? && (page.text.Ok? ==> Inert(page.text.value))
  {
    hide PlainToken, Inert, NoMarkup, RenderAll, Stripped;
    SquashPlain(Strip(all));
    NestPlain(Squash(Strip(all)));
    NeverUnderflows(Squash(Strip(all)));
    RenderedIsInert(Nest(Squash(Strip(all))), [view]);
  }

  /** `render`: what a template comes to, rendered. */
  method Render(template: string, tags: seq<string>, view: Value) returns (page: Page)
    ensures |tags| != 2 ==> page == Invalid(InvalidTags)
    ensures |tags| == 2 && tags[0] != "" && tags[1] != "" ==> forall all, layouts, c ::
      ComesTo(template, Delims(tags[0], tags[1]), all, layouts, c) ==> IsPage(page, all, c, view)
    ensures |tags| == 2 && tags[0] != "" && tags[1] != "" ==> exists all, layouts, c ::
      ComesTo(template, Delims(tags[0], tags[1]), all, layouts, c)
    ensures |tags| == 2 && tags[0] != "" && tags[1] != "" ==> forall parts ::
      var d := Delims(tags[0], tags[1]);
      Writing.AllGood(d, parts) && Balanced(Writing.TokensOf(d, parts)) && template == Writing.Written(d, parts) ==>
        IsPage(page, Writing.TokensOf(d, parts), Fine, view)
  {
    hide ComesTo, Strip, Squash, RenderAll, Writing.AllGood, Writing.TokensOf, Writing.Written, OpenAfter;
    var r;
    ghost var all, layouts;
    r, all, layouts := Parse(template, tags);
    if r.Failed? {
      page := Invalid(r.error);
    } else {
      var context := new Context(view, null);
      assert context.views == [view];
      var text := RenderTokens(r.tree, context);
      page := Rendered(text);
    }
    if |tags| == 2 && tags[0] != "" && tags[1] != "" {
      ghost var d := Delims(tags[0], tags[1]);
      forall parts | Writing.AllGood(d, parts) && Balanced(Writing.TokensOf(d, parts))
          && template == Writing.Written(d, parts)
        ensures IsPage(page, Writing.TokensOf(d, parts), Fine, view)
      {
        Writing.WrittenParses(d, parts);
      }
    }
  }
}
