/** The `filters` bitset: an unsigned 8-, 16- or 32-bit integer per record, with a bit per dimension.
    A set bit says that the dimension's filter keeps the record out. */
module Bitset {

  /** The 32 bits of an operand of a bitwise operator, the lowest first. */
  type Word = w: seq<bool> | |w| == 32 witness seq(32, _ => false)

  const ZERO: Word := seq(32, _ => false)

  function Or(x: Word, y: Word): Word { seq(32, i requires 0 <= i < 32 => x[i] || y[i]) }
  function Xor(x: Word, y: Word): Word { seq(32, i requires 0 <= i < 32 => x[i] != y[i]) }
  function And(x: Word, y: Word): Word { seq(32, i requires 0 <= i < 32 => x[i] && y[i]) }
  function Not(x: Word): Word { seq(32, i requires 0 <= i < 32 => !x[i]) }

  /** `1 << d`: a shift counts modulo 32. */
  function One(d: nat): Word { seq(32, i => i == d % 32) }

  /** The numbers whose bits are given: an element of a typed array is unsigned, the result of a
      bitwise operator is signed. */
  function Unsigned(bits: seq<bool>): nat {
    if bits == [] then 0 else (if bits[0] then 1 else 0) + 2 * Unsigned(bits[1..])
  }

  function Signed(x: Word): int {
    if x[31] then Unsigned(x) - 0x1_0000_0000 else Unsigned(x)
  }

  lemma {:induction false} UnsignedInjective(x: seq<bool>, y: seq<bool>)
    requires |x| == |y| && Unsigned(x) == Unsigned(y)
    ensures x == y
  {
    if x != [] {
      UnsignedInjective(x[1..], y[1..]);
      assert x == [x[0]] + x[1..] && y == [y[0]] + y[1..];
    }
  }

  lemma {:induction false} UnsignedBound(x: seq<bool>)
    ensures Unsigned(x) < Power(|x|)
    ensures x != [] && x[|x| - 1] ==> Unsigned(x) >= Power(|x| - 1)
    ensures x != [] && !x[|x| - 1] ==> Unsigned(x) < Power(|x| - 1)
  {
    if x != [] { UnsignedBound(x[1..]); }
  }

  function Power(n: nat): nat { if n == 0 then 1 else 2 * Power(n - 1) }

  lemma Power32()
    ensures Power(31) == 0x8000_0000 && Power(32) == 0x1_0000_0000
  {
    assert Power(10) == 0x400;
    assert Power(20) == 0x10_0000;
    assert Power(30) == 0x4000_0000;
  }

  lemma SignedInjective(x: Word, y: Word)
    requires Signed(x) == Signed(y)
    ensures x == y
  {
    UnsignedBound(x);
    UnsignedBound(y);
    Power32();
    UnsignedInjective(x, y);
  }

  /** An unsigned and a signed number are equal when they have the same bits and the sign bit is clear. */
  lemma UnsignedEqualsSigned(x: Word, y: Word)
    ensures Unsigned(x) == Signed(y) <==> x == y && !y[31]
  {
    UnsignedBound(x);
    UnsignedBound(y);
    Power32();
    if Unsigned(x) == Signed(y) { UnsignedInjective(x, y); }
  }

  /** The dimensions whose bits are set. */
  ghost function Ones(bits: seq<bool>): set<nat> {
    set d: nat | d < |bits| && bits[d]
  }

  lemma ZeroHasNoOnes(x: Word)
    ensures Signed(x) == 0 <==> Ones(x) == {}
    ensures Unsigned(x) == 0 <==> Ones(x) == {}
  {
    ZeroIsZero(ZERO);
    assert Ones(ZERO) == {};
    if Signed(x) == 0 { SignedInjective(x, ZERO); }
    if Unsigned(x) == 0 { UnsignedInjective(x, ZERO); }
    if Ones(x) == {} {
      forall d: nat | d < 32 ensures x[d] == ZERO[d] {
        assert d !in Ones(x);
      }
      assert x == ZERO;
    }
  }

  lemma {:induction false} ZeroIsZero(x: seq<bool>)
    requires forall d :: 0 <= d < |x| ==> !x[d]
    ensures Unsigned(x) == 0
  {
    if x != [] { ZeroIsZero(x[1..]); }
  }

  lemma EqualOnes(x: Word, y: Word)
    ensures Ones(x) == Ones(y) <==> x == y
  {
    if Ones(x) == Ones(y) {
      forall d: nat | d < 32 ensures x[d] == y[d] {
        assert d in Ones(x) <==> d in Ones(y);
      }
    }
  }

  lemma OneOnes(d: nat)
    requires d < 32
    ensures Ones(One(d)) == {d}
  {
  }

  /** `(x & ~(1 << d))` has the members of x other than d. */
  lemma MaskedOnes(x: Word, d: nat)
    requires d < 32
    ensures Ones(And(x, Not(One(d)))) == Ones(x) - {d}
  {
  }

  class FilterBits {
    var width: nat
    var words: seq<seq<bool>>
    ghost var blocked: seq<set<nat>>

    ghost predicate Valid()
      reads this
    {
      && (width == 8 || width == 16 || width == 32)
      && |words| == |blocked|
      && forall r :: 0 <= r < |words| ==> |words[r]| == width && Ones(words[r]) == blocked[r]
    }

    /** An empty bitset of 8 bits a record. */
    constructor ()
      ensures Valid() && width == 8 && blocked == []
    {
      width, words, blocked := 8, [], [];
    }

    /** The element of record r, as an operand. */
    function Load(r: nat): (x: Word)
      requires Valid() && r < |words|
      reads this
      ensures Ones(x) == blocked[r]
    {
      words[r] + seq(32 - width, _ => false)
    }

    /** crossfilter_arrayLengthen: new elements are zero. */
    method Lengthen(n: nat)
      requires Valid() && |words| <= n
      modifies this
      ensures Valid() && width == old(width)
      ensures blocked == old(blocked) + seq(n - |old(blocked)|, _ => {})
    {
      var zeros := seq(width, _ => false);
      blocked := blocked + seq(n - |words|, _ => {});
      words := words + seq(n - |words|, _ => zeros);
    }

    /** crossfilter_arrayWiden: the same numbers in wider elements, which cannot have more than 32 bits. */
    method Widen(w: nat) returns (ok: bool)
      requires Valid() && width <= w
      modifies this
      ensures ok <==> w == 16 || w == 32
      ensures Valid() && blocked == old(blocked) && width == if ok then w else old(width)
    {
      ok := w == 16 || w == 32;
      if !ok {
        return;
      }
      var zeros, narrow := seq(w - width, _ => false), words;
      words := seq(|narrow|, r requires 0 <= r < |narrow| => narrow[r] + zeros);
      width := w;
    }

    /** `filters[r] |= one`, stored in width bits. */
    method SetBit(r: nat, d: nat)
      requires Valid() && r < |blocked| && d < width
      modifies this
      ensures Valid() && width == old(width)
      ensures blocked == old(blocked)[r := old(blocked)[r] + {d}]
    {
      var x := Or(Load(r), One(d))[..width];
      words := words[r := x];
      blocked := blocked[r := blocked[r] + {d}];
    }

    /** `filters[r] ^= one`, stored in width bits. */
    method FlipBit(r: nat, d: nat)
      requires Valid() && r < |blocked| && d < width
      modifies this
      ensures Valid() && width == old(width)
      ensures blocked
        == old(blocked)[r := if d in old(blocked)[r] then old(blocked)[r] - {d} else old(blocked)[r] + {d}]
    {
      var x := Xor(Load(r), One(d))[..width];
      words := words[r := x];
      blocked := blocked[r := if d in blocked[r] then blocked[r] - {d} else blocked[r] + {d}];
    }

    /** `!(filters[r] & zero)`: no dimension but d keeps record r out. */
    method OthersClear(r: nat, d: nat) returns (b: bool)
      requires Valid() && r < |blocked| && d < 32
      ensures b <==> blocked[r] <= {d}
    {
      var x := And(Load(r), Not(One(d)));
      b := Signed(x) == 0;
      MaskedOnes(Load(r), d);
      ZeroHasNoOnes(x);
    }

    /** `(filters[r] & zero) === filterOne`: of the dimensions other than d exactly e keeps record r out. */
    method OnlyOther(r: nat, d: nat, e: nat) returns (b: bool)
      requires Valid() && r < |blocked| && d < 32 && e < 32
      ensures b <==> blocked[r] - {d} == {e}
    {
      var x := And(Load(r), Not(One(d)));
      b := Signed(x) == Signed(One(e));
      MaskedOnes(Load(r), d);
      OneOnes(e);
      EqualOnes(x, One(e));
      if b { SignedInjective(x, One(e)); }
    }

    /** `!filters[r]`: record r passes every filter. */
    method AllClear(r: nat) returns (b: bool)
      requires Valid() && r < |blocked|
      ensures b <==> blocked[r] == {}
    {
      b := Unsigned(Load(r)) == 0;
      ZeroHasNoOnes(Load(r));
    }

    /** `filters[r] === filterOne`, which compares an unsigned element with a signed mask: it finds the
        records that e alone keeps out, except that it never does for the 32nd dimension. */
    method OnlyBlockedBy(r: nat, e: nat) returns (b: bool)
      requires Valid() && r < |blocked| && e < 32
      ensures b <==> blocked[r] == {e} && e != 31
    {
      b := Unsigned(Load(r)) == Signed(One(e));
      UnsignedEqualsSigned(Load(r), One(e));
      OneOnes(e);
      EqualOnes(Load(r), One(e));
    }
  }
}
