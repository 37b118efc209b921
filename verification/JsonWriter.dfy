/** Writing JSON as RFC 8259 says, the other way round: what is written means what it was written from. */
module JsonWriting {
  import opened JsonText

  /** A number by its parts, and the members of an object in the order in which they are written. */
  datatype Tree =
    | NullTree
    | BoolTree(value: bool)
    | NumberTree(sign: string, whole: string, fraction: string, exponent: string)
    | TextTree(text: string)
    | ArrayTree(items: seq<Tree>)
    | ObjectTree(members: seq<Pair>)

  datatype Pair = Pair(name: string, tree: Tree)

  // ---------- Writing ----------

  /** Section 7 of RFC 8259: the characters with short escapes are written with these. */
  function CharText(c: char): string {
    match c
    case '"' => "\\\""
    case '\\' => "\\\\"
    case '/' => "\\/"
    case '\U{0008}' => "\\b"
    case '\U{000C}' => "\\f"
    case '\n' => "\\n"
    case '\r' => "\\r"
    case '\t' => "\\t"
    case _ => [c]
  }

  function CharsText(s: string): string {
    if s == "" then "" else CharText(s[0]) + CharsText(s[1..])
  }

  function QuotedText(s: string): string {
    "\"" + CharsText(s) + "\""
  }

  /** The text of a value, with the white space w wherever the grammar allows some inside. */
  function Write(t: Tree, w: string): string
    decreases t
  {
    match t
    case NullTree => "null"
    case BoolTree(b) => if b then "true" else "false"
    case NumberTree(sign, whole, fraction, exponent) => sign + whole + fraction + exponent
    case TextTree(text) => QuotedText(text)
    case ArrayTree(items) => if items == [] then "[" + w + "]" else "[" + WriteItems(items, w)
    case ObjectTree(members) => if members == [] then "{" + w + "}" else "{" + WriteMembers(members, w)
  }

  function WriteItems(items: seq<Tree>, w: string): string
    requires items != []
    decreases items
  {
    w + Write(items[0], w) + w + if |items| == 1 then "]" else "," + WriteItems(items[1..], w)
  }

  function WriteMembers(members: seq<Pair>, w: string): string
    requires members != []
    decreases members
  {
    var m := members[0];
    w + QuotedText(m.name) + w + ":" + w + Write(m.tree, w) + w
      + if |members| == 1 then "}" else "," + WriteMembers(members[1..], w)
  }

  /** The characters that a string may hold: all but the control characters without a short escape. */
  predicate Writable(s: string) {
    forall i :: 0 <= i < |s| ==>
      s[i] in "\U{0008}\U{000C}\n\r\t" || (s[i] >= '\U{0020}' && !('\U{FFDA}' <= s[i] <= '\U{FFDC}'))
  }

  predicate Digits(s: string) {
    s != "" && forall i :: 0 <= i < |s| ==> '0' <= s[i] <= '9'
  }

  predicate GoodNumber(sign: string, whole: string, fraction: string, exponent: string) {
    && (sign == "" || sign == "-")
    && Digits(whole) && (whole == "0" || whole[0] != '0')
    && (fraction == "" || (fraction[0] == '.' && Digits(fraction[1..])))
    && (exponent == "" || (|exponent| > 1 && exponent[0] in "eE"
      && (Digits(exponent[1..]) || (exponent[1] in "+-" && Digits(exponent[2..])))))
  }

  /** Names that can be told apart, none of which the tokenizer's objects treat specially. */
  predicate GoodNames(members: seq<Pair>) {
    && (forall i, j :: 0 <= i < j < |members| ==>
         members[i].name != members[j].name && members[i].name != "hasOwnProperty")
    && forall i :: 0 <= i < |members| ==> members[i].name != "__proto__"
  }

  predicate Good(t: Tree)
    decreases t
  {
    match t
    case NumberTree(sign, whole, fraction, exponent) => GoodNumber(sign, whole, fraction, exponent)
    case TextTree(text) => Writable(text)
    case ArrayTree(items) => forall i :: 0 <= i < |items| ==> Good(items[i])
    case ObjectTree(members) => GoodNames(members) && forall i :: 0 <= i < |members| ==> GoodPair(members[i])
    case _ => true
  }

  predicate GoodPair(p: Pair)
    decreases p
  {
    Writable(p.name) && Good(p.tree)
  }

  /** The white space of RFC 8259. */
  predicate Blank(w: string) {
    forall i :: 0 <= i < |w| ==> w[i] in " \t\n\r"
  }

  /** v is the value that the tree stands for. */
  ghost predicate Means(t: Tree, v: Value)
    decreases t
  {
    match t
    case NullTree => v == Null
    case BoolTree(b) => v == Bool(b)
    case NumberTree(sign, whole, fraction, exponent) => v == Number(sign + whole + fraction + exponent)
    case TextTree(text) => v == Text(text)
    case ArrayTree(items) =>
      v.Array? && |v.items| == |items| && forall i :: 0 <= i < |items| ==> Means(items[i], v.items[i])
    case ObjectTree(members) =>
      && v.Object? && v.prototype.Standard?
      && (forall name :: name in v.members ==> exists i :: 0 <= i < |members| && members[i].name == name)
      && forall i :: 0 <= i < |members| ==> PairMeans(members[i], v.members)
  }

  ghost predicate PairMeans(p: Pair, members: map<string, Value>)
    decreases p
  {
    p.name in members && Means(p.tree, members[p.name])
  }

  // ---------- Descriptions of what is written ----------

  function PieceOf(c: char): Piece {
    match c
    case '"' => Escape('"')
    case '\\' => Escape('\\')
    case '/' => Escape('/')
    case '\U{0008}' => Escape('b')
    case '\U{000C}' => Escape('f')
    case '\n' => Escape('n')
    case '\r' => Escape('r')
    case '\t' => Escape('t')
    case _ => Plain(c)
  }

  function PiecesOf(s: string): (pieces: seq<Piece>)
    ensures |pieces| == |s| && forall i :: 0 <= i < |s| ==> pieces[i] == PieceOf(s[i])
  {
    seq(|s|, i requires 0 <= i < |s| => PieceOf(s[i]))
  }

  function ExponentOf(exponent: string): Exponent {
    if |exponent| < 2 then NoExponent
    else if exponent[1] in "+-" then Exponent(exponent[0], [exponent[1]], exponent[2..])
    else Exponent(exponent[0], "", exponent[1..])
  }

  function DocOf(t: Tree, w: string): Doc
    decreases t
  {
    match t
    case NullTree => DocNull
    case BoolTree(b) => DocBool(b)
    case NumberTree(sign, whole, fraction, exponent) =>
      DocNumber(Numeral(sign == "-", whole, if fraction == "" then "" else fraction[1..], ExponentOf(exponent)))
    case TextTree(text) => DocText(PiecesOf(text))
    case ArrayTree(items) => DocArray(if items == [] then w else "", ItemsOf(items, w))
    case ObjectTree(members) => DocObject(if members == [] then w else "", MembersOf(members, w))
  }

  function ItemsOf(items: seq<Tree>, w: string): (docs: seq<Item>)
    ensures |docs| == |items| && forall i :: 0 <= i < |items| ==> docs[i] == Item(w, DocOf(items[i], w), w)
    decreases items
  {
    if items == [] then [] else [Item(w, DocOf(items[0], w), w)] + ItemsOf(items[1..], w)
  }

  function MembersOf(members: seq<Pair>, w: string): (docs: seq<Member>)
    ensures |docs| == |members| && forall i :: 0 <= i < |members| ==> docs[i] == MemberOf(members[i], w)
    decreases members
  {
    if members == [] then [] else [MemberOf(members[0], w)] + MembersOf(members[1..], w)
  }

  function MemberOf(p: Pair, w: string): Member
    decreases p
  {
    Member(w, PiecesOf(p.name), w, w, DocOf(p.tree, w), w)
  }

  lemma PieceWritten(c: char)
    ensures PieceOf(c).Spell() == CharText(c) && PieceOf(c).Meaning(Kept) == [c]
    ensures Writable([c]) ==> PieceOf(c).Valid()
  {
    assert [c][0] == c;
  }

  lemma {:induction false} CharsWritten(s: string)
    ensures SpellPieces(PiecesOf(s)) == CharsText(s)
  {
    if s != "" {
      hide PieceOf, CharText;
      PieceWritten(s[0]);
      CharsWritten(s[1..]);
      assert PiecesOf(s)[1..] == PiecesOf(s[1..]);
    }
  }

  lemma {:induction false} CharsMeant(s: string)
    ensures TextOf(PiecesOf(s), Kept) == s
  {
    if s != "" {
      hide PieceOf, Piece.Meaning;
      var n := |s| - 1;
      PieceWritten(s[n]);
      CharsMeant(s[..n]);
      assert PiecesOf(s)[..n] == PiecesOf(s[..n]) && s == s[..n] + [s[n]];
    }
  }

  lemma AllMeant()
    ensures forall s :: TextOf(PiecesOf(s), Kept) == s
  {
    forall s ensures TextOf(PiecesOf(s), Kept) == s {
      CharsMeant(s);
    }
  }

  lemma CharsValid(s: string)
    requires Writable(s)
    ensures PiecesValid(PiecesOf(s))
  {
    hide PieceOf, Piece.Valid;
    forall i | 0 <= i < |s| ensures PieceOf(s[i]).Valid() {
      assert [s[i]][0] == s[i];
      PieceWritten(s[i]);
    }
  }

  lemma NumberWritten(sign: string, whole: string, fraction: string, exponent: string)
    requires GoodNumber(sign, whole, fraction, exponent)
    ensures var n := Numeral(sign == "-", whole, if fraction == "" then "" else fraction[1..], ExponentOf(exponent));
      n.Valid() && n.Spell() == sign + whole + fraction + exponent
  {
    hide Digits, AllDigits;
    DigitsAreDigits(whole);
    ExponentWritten(exponent);
    if fraction != "" {
      DigitsAreDigits(fraction[1..]);
      assert fraction == "." + fraction[1..];
    } else {
      NoDigits();
    }
  }

  lemma DigitsAreDigits(s: string)
    requires Digits(s)
    ensures s != "" && AllDigits(s)
  {
  }

  lemma NoDigits()
    ensures AllDigits("")
  {
  }

  lemma ExponentWritten(exponent: string)
    requires GoodNumber("", "0", "", exponent)
    ensures ExponentOf(exponent).Valid() && ExponentOf(exponent).Spell() == exponent
  {
    if exponent != "" {
      var c := exponent[1];
      if c in "+-" {
        assert exponent == [exponent[0]] + [c] + exponent[2..] && [c] in ["+", "-"];
      } else {
        assert exponent == [exponent[0]] + "" + exponent[1..];
      }
    }
  }

  /** The description spells what is written. */
  lemma {:induction false} DocWritten(t: Tree, w: string)
    requires Good(t)
    ensures Spell(DocOf(t, w)) == Write(t, w)
    decreases t
  {
    match t
    case NullTree =>
    case BoolTree(_) =>
    case NumberTree(sign, whole, fraction, exponent) => NumberWritten(sign, whole, fraction, exponent);
    case TextTree(text) => CharsWritten(text);
    case ArrayTree(items) => if items != [] { ItemsWritten(items, w); }
    case ObjectTree(members) => if members != [] { MembersWritten(members, w); }
  }

  lemma ItemsStep(items: seq<Tree>, w: string)
    requires items != []
    ensures var docs := ItemsOf(items, w); var v := Spell(docs[0].value);
      && docs[1..] == ItemsOf(items[1..], w) && docs[0] == Item(w, DocOf(items[0], w), w)
      && SpellItems(docs) == if |items| == 1 then v + w + [']'] + "" else v + w + [','] + (w + SpellItems(docs[1..]))
    ensures WriteItems(items, w) ==
      w + Write(items[0], w) + w + if |items| == 1 then "]" else "," + WriteItems(items[1..], w)
  {
    hide Spell, Write, DocOf;
    if |items| > 1 { assert ItemsOf(items, w)[1].before == w; }
  }

  lemma ItemJoined(w: string, text: string, rest: string)
    ensures w + (text + w + [','] + rest) == w + text + w + ("," + rest)
    ensures w + (text + w + [']'] + "") == w + text + w + "]"
  {
    assert w + (text + w + [','] + rest) == w + text + w + [','] + rest;
  }

  lemma {:induction false} ItemsWritten(items: seq<Tree>, w: string)
    requires items != [] && forall i :: 0 <= i < |items| ==> Good(items[i])
    ensures ItemsOf(items, w) != [] && w + SpellItems(ItemsOf(items, w)) == WriteItems(items, w)
    decreases items
  {
    hide Good, Spell, Write, DocOf, SpellItems, WriteItems;
    DocWritten(items[0], w);
    ItemsStep(items, w);
    if |items| > 1 {
      ItemsWritten(items[1..], w);
      ItemJoined(w, Write(items[0], w), WriteItems(items[1..], w));
    } else {
      ItemJoined(w, Write(items[0], w), "");
    }
  }

  lemma MembersStep(members: seq<Pair>, w: string)
    requires members != []
    ensures var docs := MembersOf(members, w); var name, v := Quoted(docs[0].name), Spell(docs[0].value);
      && docs[1..] == MembersOf(members[1..], w) && docs[0] == MemberOf(members[0], w)
      && SpellMembers(docs) == name + w + ":" + (w +
           if |members| == 1 then v + w + ['}'] + "" else v + w + [','] + (w + SpellMembers(docs[1..])))
    ensures WriteMembers(members, w) ==
      w + QuotedText(members[0].name) + w + ":" + w + Write(members[0].tree, w) + w
      + if |members| == 1 then "}" else "," + WriteMembers(members[1..], w)
  {
    hide Spell, Write, DocOf, Quoted, QuotedText, PiecesOf;
    if |members| > 1 { assert MembersOf(members, w)[1].before == w; }
  }

  lemma MemberJoined(w: string, name: string, text: string, rest: string)
    ensures w + (name + w + ":" + (w + (text + w + [','] + rest))) == w + name + w + ":" + w + text + w + ("," + rest)
    ensures w + (name + w + ":" + (w + (text + w + ['}'] + ""))) == w + name + w + ":" + w + text + w + "}"
  {
    var front := w + name + w + ":";
    ItemJoined(w, text, rest);
    assert w + (name + w + ":" + (w + (text + w + [','] + rest))) == front + (w + (text + w + [','] + rest));
    assert front + (w + text + w + ("," + rest)) == front + w + text + w + ("," + rest);
    assert w + (text + w + ['}'] + "") == w + text + w + "}";
    assert w + (name + w + ":" + (w + (text + w + ['}'] + ""))) == front + (w + (text + w + ['}'] + ""));
    assert front + (w + text + w + "}") == front + w + text + w + "}";
  }

  lemma {:induction false} MembersWritten(members: seq<Pair>, w: string)
    requires members != [] && forall i :: 0 <= i < |members| ==> GoodPair(members[i])
    ensures MembersOf(members, w) != [] && w + SpellMembers(MembersOf(members, w)) == WriteMembers(members, w)
    decreases members
  {
    hide Good, QuotedText, Quoted, Spell, Write, DocOf, SpellMembers, WriteMembers, PiecesOf, Writable;
    var m := members[0];
    assert GoodPair(m);
    DocWritten(m.tree, w);
    NameWritten(m.name);
    MembersStep(members, w);
    if |members| > 1 {
      MembersWritten(members[1..], w);
      MemberJoined(w, QuotedText(m.name), Write(m.tree, w), WriteMembers(members[1..], w));
    } else {
      MemberJoined(w, QuotedText(m.name), Write(m.tree, w), "");
    }
  }

  lemma NameWritten(name: string)
    ensures Quoted(PiecesOf(name)) == QuotedText(name)
  {
    CharsWritten(name);
  }

  lemma BlankIsWhite(w: string)
    requires Blank(w)
    ensures AllWhite(w) && AllWhite("")
  {
  }

  /** It is well-formed, and its names are clean. */
  lemma {:induction false} DocGood(t: Tree, w: string)
    requires Good(t) && Blank(w)
    ensures Valid(DocOf(t, w)) && Clean(DocOf(t, w))
    decreases t
  {
    hide AllWhite, Blank, GoodNumber, Numeral.Valid, PiecesValid, Writable, NamesClean;
    BlankIsWhite(w);
    match t
    case NullTree =>
    case BoolTree(_) =>
    case NumberTree(sign, whole, fraction, exponent) => NumberWritten(sign, whole, fraction, exponent);
    case TextTree(text) => CharsValid(text);
    case ArrayTree(items) =>
      var docs := ItemsOf(items, w);
      forall i | 0 <= i < |docs| ensures ItemValid(docs[i]) && CleanItem(docs[i]) {
        DocGood(items[i], w);
      }
    case ObjectTree(members) =>
      var docs := MembersOf(members, w);
      forall i | 0 <= i < |docs| ensures MemberValid(docs[i]) && CleanMember(docs[i]) {
        assert GoodPair(members[i]);
        CharsValid(members[i].name);
        DocGood(members[i].tree, w);
      }
      NamesAreClean(members, w);
  }

  lemma NamesAreClean(members: seq<Pair>, w: string)
    requires GoodNames(members)
    ensures NamesClean(MembersOf(members, w))
  {
    var docs := MembersOf(members, w);
    forall i | 0 <= i < |docs| ensures NameOf(docs[i]) == members[i].name {
      CharsMeant(members[i].name);
    }
    forall i, j | 0 <= i < j < |docs| ensures NameOf(docs[i]) != NameOf(docs[j]) && NameOf(docs[i]) != HAS_OWN {
      assert members[i].name != members[j].name;
    }
  }

  /** It means what the tree does. */
  lemma {:induction false} DocMeant(t: Tree, w: string)
    requires Good(t)
    ensures Means(t, ValueOf(DocOf(t, w), Kept))
    decreases t
  {
    hide GoodNumber, Numeral.Spell, GoodNames, MemberValues, ItemValues, Numeral.Valid, Writable;
    match t
    case NullTree =>
    case BoolTree(_) =>
    case NumberTree(sign, whole, fraction, exponent) => NumberWritten(sign, whole, fraction, exponent);
    case TextTree(text) => CharsMeant(text);
    case ArrayTree(items) => ItemsMeant(items, w);
    case ObjectTree(members) => MembersMeant(members, w);
  }

  lemma {:induction false} ItemsMeant(items: seq<Tree>, w: string)
    requires forall i :: 0 <= i < |items| ==> Good(items[i])
    ensures Means(ArrayTree(items), Array(ItemValues(ItemsOf(items, w), Kept)))
    decreases items
  {
    hide ValueOf, ItemValues, Good, DocOf;
    var docs := ItemsOf(items, w);
    LengthOfItems(docs);
    forall i | 0 <= i < |items| ensures Means(items[i], ItemValues(docs, Kept)[i]) {
      DocMeant(items[i], w);
      ItemValueAt(docs, Kept, i);
    }
  }

  lemma LengthOfItems(docs: seq<Item>)
    ensures |ItemValues(docs, Kept)| == |docs|
  {
    if docs != [] { ItemValueAt(docs, Kept, 0); }
  }

  lemma {:induction false} MembersMeant(members: seq<Pair>, w: string)
    requires GoodNames(members) && forall i :: 0 <= i < |members| ==> GoodPair(members[i])
    ensures Means(ObjectTree(members), Object(MemberValues(MembersOf(members, w), Kept), Standard))
    decreases members
  {
    hide ValueOf, MemberValues, Good, DocOf, Writable, TextOf, PiecesOf, Means, GoodNames;
    var docs := MembersOf(members, w);
    var values := MemberValues(docs, Kept);
    forall i | 0 <= i < |docs| ensures TextOf(docs[i].name, Kept) == members[i].name {
      CharsMeant(members[i].name);
    }
    NamesApart(members);
    forall name | name in values ensures exists i :: 0 <= i < |members| && members[i].name == name {
      var i := NameFrom(docs, Kept, name);
    }
    forall i | 0 <= i < |members| ensures PairMeans(members[i], values) {
      assert GoodPair(members[i]);
      DocMeant(members[i].tree, w);
      MemberValueAt(docs, Kept, i);
    }
    ObjectMeant(members, values);
  }

  lemma NamesApart(members: seq<Pair>)
    requires GoodNames(members)
    ensures forall i, j :: 0 <= i < j < |members| ==> members[i].name != members[j].name
  {
  }

  lemma ObjectMeant(members: seq<Pair>, values: map<string, Value>)
    requires forall name :: name in values ==> exists i :: 0 <= i < |members| && members[i].name == name
    requires forall i :: 0 <= i < |members| ==> PairMeans(members[i], values)
    ensures Means(ObjectTree(members), Object(values, Standard))
  {
  }

  /** What is written has a description that spells it, is well-formed and means the same. */
  lemma WrittenDoc(t: Tree, w: string)
    requires Good(t) && Blank(w)
    ensures var doc := DocOf(t, w);
      Spell(doc) == Write(t, w) && Valid(doc) && Clean(doc) && Means(t, ValueOf(doc, Kept))
  {
    DocWritten(t, w);
    DocGood(t, w);
    DocMeant(t, w);
  }
}
