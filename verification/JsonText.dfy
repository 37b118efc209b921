/** JSON texts (sections 2 to 7 of RFC 8259), with the white space and the spelling that a value leaves open. */
module JsonText {

  /** What a text means. A number is kept as it is written. */
  datatype Value =
    | Undefined
    | Null
    | Bool(value: bool)
    | Number(text: string)
    | Text(text: string)
    | Array(items: seq<Value>)
    | Object(members: map<string, Value>, prototype: Prototype)

  /** Objects inherit from the standard prototype, or from what has been put in its place. */
  datatype Prototype = Standard | Given(value: Value)

  /** White space; the tokenizer allows more of it than the standard. */
  predicate IsWhite(c: char) {
    c in "\t\U{000B}\r\n\U{000C} \U{00A0}\U{1680}\U{180E}\U{2028}\U{2029}\U{202F}\U{205F}\U{3000}"
      || '\U{2000}' <= c <= '\U{200A}'
  }

  /** What the tokenizer takes for control characters; the standard only excludes the first 32. */
  predicate IsControl(c: char) {
    c <= '\U{001F}' || '\U{FFDA}' <= c <= '\U{FFDC}'
  }

  predicate IsDigit(c: char) {
    '0' <= c <= '9'
  }

  ghost predicate AllWhite(s: string) {
    forall i :: 0 <= i < |s| ==> IsWhite(s[i])
  }

  ghost predicate AllDigits(s: string) {
    forall i :: 0 <= i < |s| ==> IsDigit(s[i])
  }

  predicate IsHex(c: char) {
    '0' <= c <= '9' || 'a' <= c <= 'f' || 'A' <= c <= 'F'
  }

  /** A character of a string as it is written. */
  datatype Piece = Plain(c: char) | Escape(c: char) | Unicode(hex: string) {
    predicate Valid() {
      match this
      case Plain(c) => c != '"' && c != '\\' && !IsControl(c)
      case Escape(c) => c in "\"\\/bfnrt"
      case Unicode(hex) => |hex| == 4 && IsHex(hex[0]) && IsHex(hex[1]) && IsHex(hex[2]) && IsHex(hex[3])
    }

    function Spell(): (s: string)
      ensures s != ""
    {
      match this
      case Plain(c) => [c]
      case Escape(c) => ['\\', c]
      case Unicode(hex) => "\\u" + hex
    }

    /** What it stands for, if u says what four hexadecimal digits stand for. */
    function Meaning(u: string -> string): string {
      match this
      case Plain(c) => [c]
      case Escape(c) => [Unescaped(c)]
      case Unicode(hex) => u(hex)
    }
  }

  function Unescaped(c: char): char {
    match c
    case 'b' => '\U{0008}'
    case 'f' => '\U{000C}'
    case 'n' => '\n'
    case 'r' => '\r'
    case 't' => '\t'
    case _ => c
  }

  /** The tokenizer keeps unicode escapes as they are written. */
  function Kept(hex: string): string {
    "\\u" + hex
  }

  datatype Exponent = NoExponent | Exponent(letter: char, sign: string, digits: string) {
    ghost predicate Valid() {
      Exponent? ==> letter in "eE" && (sign == "" || sign == "+" || sign == "-") && digits != "" && AllDigits(digits)
    }

    function Spell(): string {
      if NoExponent? then "" else [letter] + sign + digits
    }
  }

  /** An optional sign, a whole number without leading zeros, and possibly a fraction and an exponent. */
  datatype Numeral = Numeral(negative: bool, whole: string, fraction: string, exponent: Exponent) {
    ghost predicate Valid() {
      && whole != "" && AllDigits(whole) && (whole[0] == '0' ==> |whole| == 1)
      && AllDigits(fraction) && exponent.Valid()
    }

    function Spell(): string {
      (if negative then "-" else "") + whole + (if fraction == "" then "" else "." + fraction) + exponent.Spell()
    }
  }

  /** An element of an array, with the white space around it. */
  datatype Item = Item(before: string, value: Doc, after: string)

  /** A member of an object: white space, a name, white space, a colon, white space, a value, white space. */
  datatype Member = Member(before: string, name: seq<Piece>, mid: string, between: string, value: Doc, after: string)

  /** A text and how it is written; space is the white space inside an empty array or object. */
  datatype Doc =
    | DocNull
    | DocBool(value: bool)
    | DocNumber(numeral: Numeral)
    | DocText(pieces: seq<Piece>)
    | DocArray(space: string, items: seq<Item>)
    | DocObject(space: string, members: seq<Member>)

  function SpellPieces(pieces: seq<Piece>): string {
    if pieces == [] then "" else pieces[0].Spell() + SpellPieces(pieces[1..])
  }

  function Quoted(pieces: seq<Piece>): string {
    "\"" + SpellPieces(pieces) + "\""
  }

  function Spell(doc: Doc): string
    decreases doc
  {
    match doc
    case DocNull => "null"
    case DocBool(b) => if b then "true" else "false"
    case DocNumber(n) => n.Spell()
    case DocText(pieces) => Quoted(pieces)
    case DocArray(space, items) => "[" + if items == [] then space + "]" else items[0].before + SpellItems(items)
    case DocObject(space, members) => "{" + if members == [] then space + "}"
      else members[0].before + SpellMembers(members)
  }

  /** A value and the separator after it. */
  function Element(value: string, after: string, separator: char, rest: string): string {
    value + after + [separator] + rest
  }

  function Named(name: string, mid: string, between: string, element: string): string {
    name + mid + ":" + (between + element)
  }

  /** The elements of an array from the first value on, up to the closing bracket. */
  function SpellItems(items: seq<Item>): string
    requires items != []
    decreases items
  {
    var v := Spell(items[0].value);
    if |items| == 1 then Element(v, items[0].after, ']', "")
    else Element(v, items[0].after, ',', items[1].before + SpellItems(items[1..]))
  }

  /** The members of an object from the first name on, up to the closing brace. */
  function SpellMembers(members: seq<Member>): string
    requires members != []
    decreases members
  {
    var m := members[0];
    var v := Spell(m.value);
    Named(Quoted(m.name), m.mid, m.between,
      if |members| == 1 then Element(v, m.after, '}', "")
      else Element(v, m.after, ',', members[1].before + SpellMembers(members[1..])))
  }

  function TextOf(pieces: seq<Piece>, u: string -> string): string {
    if pieces == [] then "" else TextOf(pieces[..|pieces| - 1], u) + pieces[|pieces| - 1].Meaning(u)
  }

  function ValueOf(doc: Doc, u: string -> string): Value
    decreases doc
  {
    match doc
    case DocNull => Null
    case DocBool(b) => Bool(b)
    case DocNumber(n) => Number(n.Spell())
    case DocText(pieces) => Text(TextOf(pieces, u))
    case DocArray(_, items) => Array(ItemValues(items, u))
    case DocObject(_, members) => Object(MemberValues(members, u), Standard)
  }

  function ItemValues(items: seq<Item>, u: string -> string): (values: seq<Value>)
    decreases items
  {
    if items == [] then [] else ItemValues(items[..|items| - 1], u) + [ValueOf(items[|items| - 1].value, u)]
  }

  function MemberValues(members: seq<Member>, u: string -> string): map<string, Value>
    decreases members
  {
    if members == [] then map[] else
    var m := members[|members| - 1];
    MemberValues(members[..|members| - 1], u)[TextOf(m.name, u) := ValueOf(m.value, u)]
  }

  ghost predicate PiecesValid(pieces: seq<Piece>) {
    forall i :: 0 <= i < |pieces| ==> pieces[i].Valid()
  }

  /** White space is white, characters and numbers are spelled as they may be, and space between brackets is not
      given twice. */
  ghost predicate Valid(doc: Doc)
    decreases doc
  {
    match doc
    case DocNull => true
    case DocBool(_) => true
    case DocNumber(n) => n.Valid()
    case DocText(pieces) => PiecesValid(pieces)
    case DocArray(space, items) =>
      AllWhite(space) && (items != [] ==> space == "") && forall i :: 0 <= i < |items| ==> ItemValid(items[i])
    case DocObject(space, members) =>
      AllWhite(space) && (members != [] ==> space == "") && forall i :: 0 <= i < |members| ==> MemberValid(members[i])
  }

  ghost predicate ItemValid(item: Item)
    decreases item
  {
    AllWhite(item.before) && AllWhite(item.after) && Valid(item.value)
  }

  ghost predicate MemberValid(m: Member)
    decreases m
  {
    && AllWhite(m.before) && AllWhite(m.mid) && AllWhite(m.between) && AllWhite(m.after)
    && PiecesValid(m.name) && Valid(m.value)
  }

  function NameOf(m: Member): string {
    TextOf(m.name, Kept)
  }

  const HAS_OWN := "hasOwnProperty"
  const PROTO := "__proto__"

  /** No name comes twice, none comes after `hasOwnProperty`, and none is `__proto__`. */
  predicate NamesClean(members: seq<Member>) {
    && (forall i :: 0 <= i < |members| ==> NameOf(members[i]) != PROTO)
    && forall i, j :: 0 <= i < j < |members| ==>
         NameOf(members[i]) != NameOf(members[j]) && NameOf(members[i]) != HAS_OWN
  }

  /** All objects in the text have clean names. */
  predicate Clean(doc: Doc)
    decreases doc
  {
    match doc
    case DocArray(_, items) => forall i :: 0 <= i < |items| ==> CleanItem(items[i])
    case DocObject(_, members) => NamesClean(members) && forall i :: 0 <= i < |members| ==> CleanMember(members[i])
    case _ => true
  }

  predicate CleanItem(item: Item)
    decreases item
  {
    Clean(item.value)
  }

  predicate CleanMember(m: Member)
    decreases m
  {
    Clean(m.value)
  }

  // ---------- What the tokenizer makes of a text ----------

  /** `obj[name] = value`: a value for `__proto__` becomes the prototype if it can be one, and else is lost. */
  function Assigned(obj: Value, name: string, value: Value): (r: Value)
    requires obj.Object?
    ensures r.Object?
  {
    if name != PROTO then obj.(members := obj.members[name := value])
    else if value.Null? || value.Array? || value.Object? then obj.(prototype := Given(value))
    else obj
  }

  /** The object can be asked whether it has a member: no member of it or of its prototypes hides `hasOwnProperty`,
      and the prototypes do not end before the standard one. */
  predicate Askable(obj: Value)
    requires obj.Object?
    decreases obj
  {
    HAS_OWN !in obj.members &&
    match obj.prototype
    case Standard => true
    case Given(p) => p.Array? || (p.Object? && Askable(p))
  }

  /** The object can be asked for the name, and does not have it. */
  predicate IsNew(obj: Value, name: string)
    requires obj.Object?
  {
    Askable(obj) && name !in obj.members
  }

  /** The value that is made of a text. */
  function Made(doc: Doc): Value
    decreases doc
  {
    match doc
    case DocNull => Null
    case DocBool(b) => Bool(b)
    case DocNumber(n) => Number(n.Spell())
    case DocText(pieces) => Text(TextOf(pieces, Kept))
    case DocArray(_, items) => Array(MadeItems(items))
    case DocObject(_, members) => MadeObject(members)
  }

  function MadeItems(items: seq<Item>): (values: seq<Value>)
    decreases items
  {
    if items == [] then [] else MadeItems(items[..|items| - 1]) + [Made(items[|items| - 1].value)]
  }

  function MadeObject(members: seq<Member>): (obj: Value)
    ensures obj.Object?
    decreases members
  {
    if members == [] then Object(map[], Standard) else
    var m := members[|members| - 1];
    Assigned(MadeObject(members[..|members| - 1]), NameOf(m), Made(m.value))
  }

  /** Every name is new when it is read. */
  predicate Quiet(doc: Doc)
    decreases doc
  {
    match doc
    case DocArray(_, items) => forall i :: 0 <= i < |items| ==> QuietItem(items[i])
    case DocObject(_, members) => QuietMembers(members)
    case _ => true
  }

  predicate QuietItem(item: Item)
    decreases item
  {
    Quiet(item.value)
  }

  predicate QuietMembers(members: seq<Member>)
    decreases members
  {
    members == [] ||
    var n := |members| - 1;
    QuietMembers(members[..n]) && IsNew(MadeObject(members[..n]), NameOf(members[n])) && Quiet(members[n].value)
  }

  lemma {:induction false} QuietAt(members: seq<Member>, k: nat)
    requires QuietMembers(members) && k < |members|
    ensures IsNew(MadeObject(members[..k]), NameOf(members[k])) && Quiet(members[k].value)
    decreases |members|
  {
    hide IsNew, MadeObject, NameOf, Quiet, HAS_OWN, PROTO;
    var n := |members| - 1;
    if k < n {
      QuietAt(members[..n], k);
      assert members[..n][..k] == members[..k];
    }
  }

  /** Only the names of the members read are in the object. */
  lemma {:induction false} NamesRead(members: seq<Member>, name: string)
    ensures name in MemberValues(members, Kept) ==> exists i :: 0 <= i < |members| && NameOf(members[i]) == name
  {
    if members != [] {
      hide TextOf, ValueOf;
      var n := |members| - 1;
      NamesRead(members[..n], name);
      if name in MemberValues(members[..n], Kept) {
        var i :| 0 <= i < n && NameOf(members[..n][i]) == name;
        assert NameOf(members[i]) == name;
      } else {
        assert name in MemberValues(members, Kept) ==> NameOf(members[n]) == name;
      }
    }
  }

  lemma {:induction false} NamesMade(members: seq<Member>, i: nat)
    requires i < |members| && NameOf(members[i]) != PROTO
    ensures NameOf(members[i]) in MadeObject(members).members
    decreases |members|
  {
    hide NameOf, Made, HAS_OWN, PROTO;
    var n := |members| - 1;
    if i < n {
      NamesMade(members[..n], i);
    }
  }

  lemma {:induction false} NoProtoMade(members: seq<Member>)
    ensures PROTO !in MadeObject(members).members
  {
    if members != [] {
      hide NameOf, Made, HAS_OWN, PROTO;
      NoProtoMade(members[..|members| - 1]);
    }
  }

  lemma LastMade(members: seq<Member>)
    requires members != []
    ensures var n := |members| - 1;
      MadeObject(members) == Assigned(MadeObject(members[..n]), NameOf(members[n]), Made(members[n].value))
  {
  }

  /** Without repeated names every member keeps what was made for it. */
  lemma {:induction false} MadeMemberAt(members: seq<Member>, i: nat)
    requires i < |members| && NamesClean(members)
    ensures NameOf(members[i]) in MadeObject(members).members
    ensures MadeObject(members).members[NameOf(members[i])] == Made(members[i].value)
    decreases |members|
  {
    hide NameOf, Made, HAS_OWN, PROTO, MadeObject;
    var n := |members| - 1;
    LastMade(members);
    if i < n {
      MadeMemberAt(members[..n], i);
    }
  }

  lemma {:induction false} MadeItemAt(items: seq<Item>, i: nat)
    requires i < |items|
    ensures |MadeItems(items)| == |items| && MadeItems(items)[i] == Made(items[i].value)
    decreases |items|
  {
    hide Made;
    var n := |items| - 1;
    if i < n {
      MadeItemAt(items[..n], i);
    } else if n > 0 {
      MadeItemAt(items[..n], 0);
    }
  }

  /** Names that are new when they are read, and not `__proto__`, are clean. */
  lemma QuietNames(members: seq<Member>)
    requires QuietMembers(members) && forall i :: 0 <= i < |members| ==> NameOf(members[i]) != PROTO
    ensures NamesClean(members)
  {
    hide MadeObject, QuietMembers, Quiet, HAS_OWN, PROTO;
    forall i, j | 0 <= i < j < |members|
      ensures NameOf(members[i]) != NameOf(members[j]) && NameOf(members[i]) != HAS_OWN
    {
      QuietAt(members, j);
      NamesMade(members[..j], i);
    }
  }

  /** What is made of a text is what it means, and without a warning, if and only if its names are clean. */
  lemma {:induction false} MadeRightIff(doc: Doc)
    ensures Quiet(doc) && Made(doc) == ValueOf(doc, Kept) <==> Clean(doc)
    decreases doc
  {
    match doc
    case DocArray(_, items) =>
      if Clean(doc) {
        ItemsMade(items);
      } else if Quiet(doc) && Made(doc) == ValueOf(doc, Kept) {
        forall i | 0 <= i < |items| ensures CleanItem(items[i]) {
          ItemValueAt(items, Kept, i);
          MadeItemAt(items, i);
          assert QuietItem(items[i]);
          MadeRightIff(items[i].value);
        }
      }
    case DocObject(_, members) =>
      if Clean(doc) {
        MembersMade(members);
      } else if Quiet(doc) && Made(doc) == ValueOf(doc, Kept) {
        MadeClean(members);
      }
    case _ =>
  }

  lemma {:induction false} ItemsMade(items: seq<Item>)
    requires forall i :: 0 <= i < |items| ==> CleanItem(items[i])
    ensures MadeItems(items) == ItemValues(items, Kept) && forall i :: 0 <= i < |items| ==> QuietItem(items[i])
    decreases items
  {
    if items != [] {
      var n := |items| - 1;
      ItemsMade(items[..n]);
      assert CleanItem(items[n]);
      MadeRightIff(items[n].value);
      assert forall i :: 0 <= i < n ==> items[..n][i] == items[i];
    }
  }

  lemma {:induction false} MembersMade(members: seq<Member>)
    requires NamesClean(members) && forall i :: 0 <= i < |members| ==> CleanMember(members[i])
    ensures MadeObject(members) == Object(MemberValues(members, Kept), Standard) && QuietMembers(members)
    decreases members
  {
    if members != [] {
      hide TextOf, Made, ValueOf, Clean, Quiet, HAS_OWN, PROTO;
      var n := |members| - 1;
      MembersMade(members[..n]);
      assert CleanMember(members[n]);
      MadeRightIff(members[n].value);
      NamesRead(members[..n], NameOf(members[n]));
      NamesRead(members[..n], HAS_OWN);
      assert forall i :: 0 <= i < n ==> members[..n][i] == members[i];
    }
  }

  lemma {:induction false} MadeClean(members: seq<Member>)
    requires QuietMembers(members) && MadeObject(members) == Object(MemberValues(members, Kept), Standard)
    ensures NamesClean(members) && forall i :: 0 <= i < |members| ==> CleanMember(members[i])
    decreases members
  {
    hide MadeObject, MemberValues, QuietMembers, Quiet, Made, ValueOf, HAS_OWN, PROTO;
    NoProtoMade(members);
    forall i | 0 <= i < |members| ensures NameOf(members[i]) != PROTO {
      NamesIn(members, Kept, i);
    }
    QuietNames(members);
    forall i | 0 <= i < |members| ensures CleanMember(members[i]) {
      QuietAt(members, i);
      MadeMemberAt(members, i);
      MemberValueAt(members, Kept, i);
      MadeRightIff(members[i].value);
    }
  }

  // ---------- How values start and end ----------

  /** What a value starts with. */
  lemma SpellStarts(doc: Doc)
    requires Valid(doc)
    ensures Spell(doc) != ""
    ensures var c := Spell(doc)[0];
      match doc
      case DocNull => c == 'n'
      case DocBool(b) => c == if b then 't' else 'f'
      case DocNumber(_) => c == '-' || IsDigit(c)
      case DocText(_) => c == '"'
      case DocArray(_, _) => c == '['
      case DocObject(_, _) => c == '{'
  {
  }

  ghost predicate StartsValue(c: char) {
    c in "ntf-\"[{" || IsDigit(c)
  }

  lemma NotWhite(c: char)
    ensures StartsValue(c) || c in ",:]}\"" ==> !IsWhite(c)
    ensures StartsValue(c) ==> c != ',' && c != ']' && c != '}'
  {
  }

  // ---------- Unicode escapes ----------

  predicate NoUnicode(pieces: seq<Piece>) {
    forall i :: 0 <= i < |pieces| ==> !pieces[i].Unicode?
  }

  lemma PieceLengths(p: Piece, u: string -> string)
    requires p.Valid() && forall hex :: |u(hex)| == 1
    ensures |p.Meaning(u)| == 1 && |p.Meaning(Kept)| == if p.Unicode? then 6 else 1
  {
  }

  function UnicodeCount(pieces: seq<Piece>): nat {
    if pieces == [] then 0 else UnicodeCount(pieces[..|pieces| - 1]) + if pieces[|pieces| - 1].Unicode? then 1 else 0
  }

  lemma {:induction false} CountZero(pieces: seq<Piece>)
    ensures UnicodeCount(pieces) == 0 <==> NoUnicode(pieces)
  {
    if pieces != [] {
      var n := |pieces| - 1;
      CountZero(pieces[..n]);
      assert forall i :: 0 <= i < n ==> pieces[..n][i] == pieces[i];
    }
  }

  lemma {:induction false} KeptIsLonger(pieces: seq<Piece>, u: string -> string)
    requires PiecesValid(pieces) && forall hex :: |u(hex)| == 1
    ensures |TextOf(pieces, Kept)| == |TextOf(pieces, u)| + 5 * UnicodeCount(pieces)
  {
    if pieces != [] {
      hide Piece.Valid, Piece.Meaning, Kept;
      var n := |pieces| - 1;
      KeptIsLonger(pieces[..n], u);
      PieceLengths(pieces[n], u);
    }
  }

  lemma {:induction false} KeptIsSame(pieces: seq<Piece>, u: string -> string)
    requires NoUnicode(pieces)
    ensures TextOf(pieces, u) == TextOf(pieces, Kept)
  {
    if pieces != [] {
      KeptIsSame(pieces[..|pieces| - 1], u);
    }
  }

  /** The tokenizer gets a string right exactly if it is written without unicode escapes, when each of them stands
      for one character. */
  lemma TextRightIff(pieces: seq<Piece>, u: string -> string)
    requires PiecesValid(pieces) && forall hex :: |u(hex)| == 1
    ensures TextOf(pieces, Kept) == TextOf(pieces, u) <==> NoUnicode(pieces)
  {
    KeptIsLonger(pieces, u);
    CountZero(pieces);
    if NoUnicode(pieces) { KeptIsSame(pieces, u); }
  }

  /** No string in the text is written with a unicode escape. */
  predicate UnicodeFree(doc: Doc)
    decreases doc
  {
    match doc
    case DocText(pieces) => NoUnicode(pieces)
    case DocArray(_, items) => forall i :: 0 <= i < |items| ==> UnicodeFreeItem(items[i])
    case DocObject(_, members) => forall i :: 0 <= i < |members| ==> UnicodeFreeMember(members[i])
    case _ => true
  }

  predicate UnicodeFreeItem(item: Item)
    decreases item
  {
    UnicodeFree(item.value)
  }

  predicate UnicodeFreeMember(m: Member)
    decreases m
  {
    NoUnicode(m.name) && UnicodeFree(m.value)
  }

  /** A text without unicode escapes means the same to the tokenizer and to the standard. */
  lemma {:induction false} ValueRight(doc: Doc, u: string -> string)
    requires UnicodeFree(doc)
    ensures ValueOf(doc, Kept) == ValueOf(doc, u)
    decreases doc
  {
    match doc
    case DocText(pieces) => KeptIsSame(pieces, u);
    case DocArray(_, items) => ItemsRight(items, u);
    case DocObject(_, members) => MembersRight(members, u);
    case _ =>
  }

  lemma {:induction false} ItemsRight(items: seq<Item>, u: string -> string)
    requires forall i :: 0 <= i < |items| ==> UnicodeFreeItem(items[i])
    ensures ItemValues(items, Kept) == ItemValues(items, u)
    decreases items
  {
    if items != [] {
      var n := |items| - 1;
      ItemsRight(items[..n], u);
      assert UnicodeFreeItem(items[n]);
      ValueRight(items[n].value, u);
    }
  }

  lemma {:induction false} MembersRight(members: seq<Member>, u: string -> string)
    requires forall i :: 0 <= i < |members| ==> UnicodeFreeMember(members[i])
    ensures MemberValues(members, Kept) == MemberValues(members, u)
    decreases members
  {
    if members != [] {
      var n := |members| - 1;
      MembersRight(members[..n], u);
      assert UnicodeFreeMember(members[n]);
      KeptIsSame(members[n].name, u);
      ValueRight(members[n].value, u);
    }
  }

  // ---------- The converse ----------

  lemma {:induction false} ItemValueAt(items: seq<Item>, u: string -> string, i: nat)
    requires i < |items|
    ensures |ItemValues(items, u)| == |items| && ItemValues(items, u)[i] == ValueOf(items[i].value, u)
    decreases |items|
  {
    hide ValueOf;
    var n := |items| - 1;
    if i < n {
      ItemValueAt(items[..n], u, i);
    } else if n > 0 {
      ItemValueAt(items[..n], u, 0);
    }
  }

  /** The names of an object's members are the names in its value. */
  lemma {:induction false} NamesIn(members: seq<Member>, u: string -> string, i: nat)
    requires i < |members|
    ensures TextOf(members[i].name, u) in MemberValues(members, u)
    decreases |members|
  {
    hide ValueOf, TextOf;
    var n := |members| - 1;
    if i < n {
      NamesIn(members[..n], u, i);
    }
  }

  lemma {:induction false} NameFrom(members: seq<Member>, u: string -> string, name: string) returns (i: nat)
    requires name in MemberValues(members, u)
    ensures i < |members| && TextOf(members[i].name, u) == name
    decreases |members|
  {
    hide ValueOf, TextOf;
    var n := |members| - 1;
    if TextOf(members[n].name, u) == name {
      i := n;
    } else {
      i := NameFrom(members[..n], u, name);
    }
  }

  /** Without repeated names every member keeps its value. */
  lemma {:induction false} MemberValueAt(members: seq<Member>, u: string -> string, i: nat)
    requires i < |members|
    requires forall j, k :: 0 <= j < k < |members| ==> TextOf(members[j].name, u) != TextOf(members[k].name, u)
    ensures TextOf(members[i].name, u) in MemberValues(members, u)
    ensures MemberValues(members, u)[TextOf(members[i].name, u)] == ValueOf(members[i].value, u)
    decreases |members|
  {
    hide ValueOf, TextOf;
    var n := |members| - 1;
    if i < n {
      MemberValueAt(members[..n], u, i);
    }
  }

  predicate Escaped(m: Member) {
    !NoUnicode(m.name)
  }

  /** Of the members whose names have unicode escapes, one with a longest name. */
  lemma {:induction false} LongestEscaped(members: seq<Member>, i: nat) returns (k: nat)
    requires i < |members| && Escaped(members[i])
    ensures k < |members| && Escaped(members[k])
    ensures forall j :: 0 <= j < |members| && Escaped(members[j]) ==> |NameOf(members[j])| <= |NameOf(members[k])|
    decreases |members|
  {
    hide Escaped, NameOf;
    var n := |members| - 1;
    if i < n {
      k := LongestEscaped(members[..n], i);
      if Escaped(members[n]) && |NameOf(members[k])| < |NameOf(members[n])| {
        k := n;
      }
      assert forall j :: 0 <= j < n ==> members[..n][j] == members[j];
    } else {
      k := n;
      if exists j :: 0 <= j < n && Escaped(members[j]) {
        var j :| 0 <= j < n && Escaped(members[j]);
        k := LongestEscaped(members[..n], j);
        if |NameOf(members[k])| < |NameOf(members[n])| {
          k := n;
        }
        assert forall j :: 0 <= j < n ==> members[..n][j] == members[j];
      }
    }
  }

  /** If the tokenizer's names are the right ones, none has a unicode escape: the longest such name would have to be
      the right reading of a longer one. */
  lemma {:induction false} NamesUnescaped(members: seq<Member>, u: string -> string)
    requires (forall hex :: |u(hex)| == 1) && forall i :: 0 <= i < |members| ==> MemberValid(members[i])
    requires forall i, j :: 0 <= i < j < |members| ==> NameOf(members[i]) != NameOf(members[j])
    requires MemberValues(members, Kept) == MemberValues(members, u)
    ensures forall i :: 0 <= i < |members| ==> NoUnicode(members[i].name)
  {
    hide MemberValues, TextOf, NoUnicode, PiecesValid;
    if exists i :: 0 <= i < |members| && Escaped(members[i]) {
      var i :| 0 <= i < |members| && Escaped(members[i]);
      var k := LongestEscaped(members, i);
      NamesIn(members, Kept, k);
      var j := NameFrom(members, u, NameOf(members[k]));
      assert MemberValid(members[j]) && MemberValid(members[k]);
      KeptIsLonger(members[j].name, u);
      CountZero(members[j].name);
      if NoUnicode(members[j].name) { KeptIsSame(members[j].name, u); }
    }
    forall i | 0 <= i < |members| ensures NoUnicode(members[i].name) {
      assert !Escaped(members[i]);
    }
  }

  /** The tokenizer gets a text right exactly if it is written without unicode escapes. */
  lemma {:induction false} ValueRightIff(doc: Doc, u: string -> string)
    requires Valid(doc) && Clean(doc) && forall hex :: |u(hex)| == 1
    ensures ValueOf(doc, Kept) == ValueOf(doc, u) <==> UnicodeFree(doc)
    decreases doc
  {
    if UnicodeFree(doc) {
      ValueRight(doc, u);
    } else if ValueOf(doc, Kept) == ValueOf(doc, u) {
      match doc
      case DocText(pieces) => TextRightIff(pieces, u);
      case DocArray(_, items) =>
        var i :| 0 <= i < |items| && !UnicodeFreeItem(items[i]);
        ItemValueAt(items, Kept, i);
        ItemValueAt(items, u, i);
        assert ItemValid(items[i]) && CleanItem(items[i]);
        ValueRightIff(items[i].value, u);
      case DocObject(_, members) =>
        NamesUnescaped(members, u);
        forall i | 0 <= i < |members| ensures UnicodeFreeMember(members[i]) {
          MemberRightIff(members, u, i);
        }
    }
  }

  lemma {:induction false} MemberRightIff(members: seq<Member>, u: string -> string, i: nat)
    requires i < |members| && (forall hex :: |u(hex)| == 1) && MemberValid(members[i]) && CleanMember(members[i])
    requires NamesClean(members) && forall j :: 0 <= j < |members| ==> NoUnicode(members[j].name)
    requires MemberValues(members, Kept) == MemberValues(members, u)
    ensures UnicodeFreeMember(members[i])
    decreases members[i], 0
  {
    hide MemberValues;
    forall j | 0 <= j < |members| ensures TextOf(members[j].name, u) == NameOf(members[j]) {
      KeptIsSame(members[j].name, u);
    }
    MemberValueAt(members, Kept, i);
    MemberValueAt(members, u, i);
    ValueRightIff(members[i].value, u);
  }
}
