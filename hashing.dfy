/** Java's 32-bit int arithmetic and the list hash of java.util.List:
    start from 1 and fold each element's hash in as 31 * h + e. */
module Hashing {
  import opened Wrappers

  const TWO_32: int := 0x1_0000_0000
  const INT_MIN: int := -0x8000_0000
  const INT_MAX: int := 0x7FFF_FFFF

  predicate IsInt32(x: int)
  {
    INT_MIN <= x <= INT_MAX
  }

  /** The Java int that x wraps around to. */
  function Wrap32(x: int): (r: int)
    ensures IsInt32(r)
    ensures (r - x) % TWO_32 == 0
  {
    (x - INT_MIN) % TWO_32 + INT_MIN
  }

  /** Values congruent modulo 2^32 wrap to the same int. */
  lemma WrapCongruent(x: int, y: int)
    requires (x - y) % TWO_32 == 0
    ensures Wrap32(x) == Wrap32(y)
  {
    var q := (x - y) / TWO_32;
    assert x - y == TWO_32 * q;
    assert x - INT_MIN == (y - INT_MIN) + TWO_32 * q;
    ModShift(y - INT_MIN, q);
  }

  lemma ModShift(a: int, q: int)
    ensures (a + TWO_32 * q) % TWO_32 == a % TWO_32
  {
  }

  /** A Java int is its own wrap. */
  lemma WrapOfInt(x: int)
    requires IsInt32(x)
    ensures Wrap32(x) == x
  {
  }

  /** The hash of a list whose elements hash to hs, in int arithmetic, as
      the loop of the source computes it. */
  function ListHash(hs: seq<int>): (r: int)
    ensures IsInt32(r)
  {
    if hs == [] then 1 else Wrap32(31 * ListHash(hs[..|hs| - 1]) + hs[|hs| - 1])
  }

  /** The same hash over unbounded integers: 31^n + sum of 31^(n-1-i) * hs[i]. */
  function PolyHash(hs: seq<int>): int
  {
    if hs == [] then 1 else 31 * PolyHash(hs[..|hs| - 1]) + hs[|hs| - 1]
  }

  /** The int hash is the unbounded polynomial hash wrapped to 32 bits: the
      wrap at every step loses nothing a single wrap at the end keeps. */
  lemma {:induction false} ListHashIsWrappedPolyHash(hs: seq<int>)
    ensures ListHash(hs) == Wrap32(PolyHash(hs))
  {
    if hs == [] {
      WrapOfInt(1);
    } else {
      var init := hs[..|hs| - 1];
      var last := hs[|hs| - 1];
      ListHashIsWrappedPolyHash(init);
      var d := Wrap32(PolyHash(init)) - PolyHash(init);
      var q := d / TWO_32;
      assert d == TWO_32 * q;
      assert (31 * Wrap32(PolyHash(init)) + last) - (31 * PolyHash(init) + last) == TWO_32 * (31 * q);
      ModShift(0, 31 * q);
      WrapCongruent(31 * Wrap32(PolyHash(init)) + last, 31 * PolyHash(init) + last);
    }
  }

  /** Hashing one more element extends the fold by one step. */
  lemma ListHashSnoc(hs: seq<int>, h: int)
    ensures ListHash(hs + [h]) == Wrap32(31 * ListHash(hs) + h)
  {
    assert (hs + [h])[..|hs|] == hs;
  }

  /** The hash of a possibly-null reference: null hashes to 0. */
  function NullSafeHash<T>(hash: T -> int, x: Option<T>): int
  {
    match x
    case None => 0
    case Some(v) => hash(v)
  }
}
