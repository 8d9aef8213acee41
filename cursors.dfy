/** The upstream iterator every transforming iterator pulls from: a finite
    sequence of elements and the position of the next one. */
module Cursors {

  class Cursor<T> {
    const elems: seq<T>
    var pos: nat

    ghost predicate Valid()
      reads this
    {
      pos <= |elems|
    }

    /** The elements not yet pulled. */
    ghost function Rest(): seq<T>
      reads this
      requires Valid()
    {
      elems[pos..]
    }

    constructor (elems: seq<T>)
      ensures Valid() && this.elems == elems && pos == 0
    {
      this.elems := elems;
      pos := 0;
    }

    /** hasNext: true while elements remain; pulls nothing. */
    method HasNext() returns (b: bool)
      requires Valid()
      ensures b <==> pos < |elems|
    {
      b := pos < |elems|;
    }

    /** next: every caller in the modelled code asks hasNext first. */
    method Next() returns (x: T)
      requires Valid() && pos < |elems|
      modifies this
      ensures Valid() && pos == old(pos) + 1 && x == elems[old(pos)]
    {
      x := elems[pos];
      pos := pos + 1;
    }

    /** skip(n): advances past at most n elements, stopping at the end; a
        count of zero or less skips nothing. */
    method Skip(n: int)
      requires Valid()
      modifies this
      ensures Valid()
      ensures pos == if n <= 0 then old(pos) else Min(old(pos) + n, |elems|)
    {
      if n > 0 {
        pos := Min(pos + n, |elems|);
      }
    }
  }

  function Min(a: int, b: int): int
  {
    if a <= b then a else b
  }
}
