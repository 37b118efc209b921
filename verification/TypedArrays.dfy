/** Unsigned typed arrays that hold indices: how wide their elements are and what a store keeps. */
module TypedArrays {

  /** crossfilter_capacity: how many different ids fit in an element of w bits. */
  function Capacity(w: nat): nat {
    if w == 8 then 0x100 else if w == 16 then 0x1_0000 else 0x1_0000_0000
  }

  /** crossfilter_index: the element width chosen for ids up to m. */
  function IndexWidth(m: nat): nat {
    if m < 0x101 then 8 else if m < 0x1_0001 then 16 else 32
  }

  /** What an element of w bits holds after v is stored in it. */
  function Stored(w: nat, v: nat): nat {
    v % Capacity(w)
  }

  /** An id below the number it was chosen for is stored without loss, for every length an array can have. */
  lemma IndexFits(m: nat, v: nat)
    requires v < m <= 0x1_0000_0000
    ensures Stored(IndexWidth(m), v) == v
  {
  }

  lemma FitsCapacity(w: nat, v: nat)
    requires v < Capacity(w)
    ensures Stored(w, v) == v
  {
  }

  /** The width chosen for as many ids as w bits can tell apart is w: a new array is as wide as those it goes with. */
  lemma WidthOfCapacity(w: nat)
    requires w == 8 || w == 16 || w == 32
    ensures IndexWidth(Capacity(w)) == w
  {
  }
}
