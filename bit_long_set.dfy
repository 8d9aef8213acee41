/** BitLongSet: a set of longs held in two bit sets, one for the values
    x >= 0 at index x and one for the values x < 0 at index -(x + 1). A
    bit set is the set of its set indices; it iterates them in ascending
    order. */
module BitLongSets {
  import opened Wrappers
  import opened Hashing

  const LONG_MIN: int := -0x8000_0000_0000_0000
  const LONG_MAX: int := 0x7FFF_FFFF_FFFF_FFFF

  newtype long = x: int | -0x8000_0000_0000_0000 <= x <= 0x7FFF_FFFF_FFFF_FFFF

  /** The index x is kept at, in the half its sign chooses; the negation
      is done in long arithmetic and cannot overflow, Long.MIN_VALUE
      included. */
  function Index(x: long): (n: nat)
    ensures n <= LONG_MAX
  {
    if x >= 0 then x as nat else (-(x + 1)) as nat
  }

  /** The value an index of the negative half stands for. */
  function Negative(n: int): int
  {
    -n - 1
  }

  /** The encoding is inverted by the identity on the non-negative half
      and by n -> -n - 1 on the negative half. */
  lemma IndexRoundTrip(x: long)
    ensures x >= 0 ==> Index(x) == x as int
    ensures x < 0 ==> Negative(Index(x)) == x as int
  {
  }

  /** Distinct values of one sign land on distinct indices. */
  lemma IndexInjective(x: long, y: long)
    requires (x >= 0) == (y >= 0) && Index(x) == Index(y)
    ensures x == y
  {
    IndexRoundTrip(x);
    IndexRoundTrip(y);
  }

  /** The values the negative half stands for. */
  function NegativeValues(s: set<nat>): set<int>
  {
    set n | n in s :: Negative(n)
  }

  lemma {:induction false} NegativeValuesCount(s: set<nat>)
    ensures |NegativeValues(s)| == |s|
    decreases |s|
  {
    if s != {} {
      var n :| n in s;
      NegativeValuesCount(s - {n});
      assert NegativeValues(s) == NegativeValues(s - {n}) + {Negative(n)};
      assert Negative(n) !in NegativeValues(s - {n});
    }
  }

  /** The least element of a non-empty finite set. */
  ghost function SetMin(s: set<int>): (m: int)
    requires s != {}
    ensures m in s && forall y :: y in s ==> m <= y
    decreases |s|
  {
    NonEmptyHasMember(s);
    var x :| x in s;
    if s == {x} then
      assert forall y :: y in s ==> y == x;
      x
    else
      var r := SetMin(s - {x});
      assert forall y :: y in s ==> y == x || y in s - {x};
      if x < r then x else r
  }

  lemma NonEmptyHasMember(s: set<int>)
    requires s != {}
    ensures exists x :: x in s
  {
    if forall x :: x !in s {
      assert false;
    }
  }

  predicate StrictlyAscending(xs: seq<int>)
  {
    forall i, j :: 0 <= i < j < |xs| ==> xs[i] < xs[j]
  }

  /** A bit set's ascending iteration: each member once, smallest first. */
  ghost function Ascending(s: set<int>): (r: seq<int>)
    ensures StrictlyAscending(r)
    ensures |r| == |s|
    ensures forall x :: x in r <==> x in s
    decreases |s|
  {
    if s == {} then []
    else
      var m := SetMin(s);
      [m] + Ascending(s - {m})
  }

  /** The negative half as LongIterator.from(negatives.descendingIterator(),
      n -> -n - 1) yields it: the indices from largest to smallest, each
      mapped back to its value. */
  ghost function DescendingNegatives(s: set<nat>): (r: seq<int>)
  {
    MapBackReversed(Ascending(s))
  }

  /** Indices taken from last to first, each mapped back to its value. */
  function MapBackReversed(idx: seq<int>): (r: seq<int>)
    ensures |r| == |idx|
    ensures forall i :: 0 <= i < |idx| ==> r[i] == Negative(idx[|idx| - 1 - i])
  {
    seq(|idx|, i requires 0 <= i < |idx| => Negative(idx[|idx| - 1 - i]))
  }

  /** Reversing flips the order and negating flips it back. */
  lemma MapBackReversedAscends(idx: seq<int>)
    requires StrictlyAscending(idx)
    ensures StrictlyAscending(MapBackReversed(idx))
  {
    var r := MapBackReversed(idx);
    forall i, j | 0 <= i < j < |r|
      ensures r[i] < r[j]
    {
      assert idx[|idx| - 1 - j] < idx[|idx| - 1 - i];
    }
  }

  /** Every index is mapped back, and nothing else appears. */
  lemma MapBackReversedMembers(idx: seq<int>)
    ensures forall x :: x in MapBackReversed(idx) <==> exists n :: n in idx && x == Negative(n)
  {
    var r := MapBackReversed(idx);
    forall x | x in r
      ensures exists n :: n in idx && x == Negative(n)
    {
      var i :| 0 <= i < |r| && r[i] == x;
      assert idx[|idx| - 1 - i] in idx;
    }
    forall n | n in idx
      ensures Negative(n) in r
    {
      var k :| 0 <= k < |idx| && idx[k] == n;
      assert r[|idx| - 1 - k] == Negative(n);
    }
  }

  class BitLongSet {
    var positives: set<nat>
    var negatives: set<nat>

    /** The longs in the set. */
    function Members(): set<int>
      reads this
    {
      positives + NegativeValues(negatives)
    }

    /** new BitLongSet(xs...): both halves empty, then every x added. */
    constructor (xs: seq<long>)
      ensures Members() == set i | 0 <= i < |xs| :: xs[i] as int
    {
      positives := {};
      negatives := {};
      new;
      var i := 0;
      while i < |xs|
        invariant 0 <= i <= |xs|
        invariant Members() == set k | 0 <= k < i :: xs[k] as int
      {
        var _ := AddLong(xs[i]);
        i := i + 1;
      }
    }

    /** containsLong: the bit at x's index in the half x's sign chooses. */
    function ContainsLong(x: long): (b: bool)
      reads this
      ensures b <==> x as int in Members()
    {
      IndexRoundTrip(x);
      if x >= 0 then Index(x) in positives else Index(x) in negatives
    }

    /** addLong: sets the bit in x's half only; true iff x was absent. */
    method AddLong(x: long) returns (modified: bool)
      modifies this
      ensures modified <==> x as int !in old(Members())
      ensures Members() == old(Members()) + {x as int}
      ensures x >= 0 ==> negatives == old(negatives) && positives == old(positives) + {Index(x)}
      ensures x < 0 ==> positives == old(positives) && negatives == old(negatives) + {Index(x)}
    {
      IndexRoundTrip(x);
      if x >= 0 {
        modified := Index(x) !in positives;
        positives := positives + {Index(x)};
      } else {
        modified := Index(x) !in negatives;
        assert NegativeValues(negatives + {Index(x)}) == NegativeValues(negatives) + {x as int};
        negatives := negatives + {Index(x)};
      }
    }

    /** removeLong: clears the bit in x's half only; true iff x was there. */
    method RemoveLong(x: long) returns (modified: bool)
      modifies this
      ensures modified <==> x as int in old(Members())
      ensures Members() == old(Members()) - {x as int}
      ensures x >= 0 ==> negatives == old(negatives) && positives == old(positives) - {Index(x)}
      ensures x < 0 ==> positives == old(positives) && negatives == old(negatives) - {Index(x)}
    {
      IndexRoundTrip(x);
      if x >= 0 {
        modified := Index(x) in positives;
        positives := positives - {Index(x)};
      } else {
        modified := Index(x) in negatives;
        assert NegativeValues(negatives - {Index(x)}) == NegativeValues(negatives) - {x as int};
        negatives := negatives - {Index(x)};
      }
    }

    /** size: the bit counts of both halves summed in long arithmetic; a
        count above Integer.MAX_VALUE is an IllegalStateException. */
    method Size() returns (r: Result<int>)
      ensures r.Err? <==> |Members()| > INT_MAX
      ensures r.Err? ==> r.error == IllegalState
      ensures r.Ok? ==> r.value == |Members()| && IsInt32(r.value)
    {
      NegativeValuesCount(negatives);
      assert positives !! NegativeValues(negatives);
      var bitCount := |positives| + |negatives|;
      if bitCount > INT_MAX {
        return Err(IllegalState);
      }
      r := Ok(bitCount);
    }

    /** isEmpty: both halves empty. */
    function IsEmpty(): (b: bool)
      reads this
      ensures b <==> Members() == {}
    {
      assert negatives != {} ==> NegativeValues(negatives) != {} by {
        if negatives != {} {
          var n :| n in negatives;
          assert Negative(n) in NegativeValues(negatives);
        }
      }
      positives == {} && negatives == {}
    }

    /** clear: empties both halves. */
    method Clear()
      modifies this
      ensures positives == {} && negatives == {} && Members() == {}
    {
      positives := {};
      negatives := {};
    }

    /** iterator(): the negative half in descending index order mapped back
        to values, then the non-negative half in ascending order. */
    ghost function Iteration(): seq<int>
      reads this
    {
      DescendingNegatives(negatives) + Ascending(positives)
    }
  }

  /** Reversing the negative half's ascending indices and mapping them back
      gives its values in ascending order, every one of them below zero. */
  lemma DescendingNegativesAscend(s: set<nat>)
    ensures StrictlyAscending(DescendingNegatives(s))
    ensures forall x :: x in DescendingNegatives(s) <==> x in NegativeValues(s)
    ensures forall x :: x in DescendingNegatives(s) ==> x < 0
  {
    var idx := Ascending(s);
    MapBackReversedAscends(idx);
    MapBackReversedMembers(idx);
    forall x | x in NegativeValues(s)
      ensures exists n :: n in idx && x == Negative(n)
    {
      var n :| n in s && x == Negative(n);
      assert n in idx;
    }
  }

  /** The iterator yields every member exactly once, in ascending order. */
  lemma IterationAscending(s: BitLongSet)
    ensures StrictlyAscending(s.Iteration())
    ensures forall x :: x in s.Iteration() <==> x in s.Members()
  {
    DescendingNegativesAscend(s.negatives);
    var neg := DescendingNegatives(s.negatives);
    var pos := Ascending(s.positives);
    assert s.Iteration() == neg + pos;
    forall i, j | 0 <= i < j < |neg + pos|
      ensures (neg + pos)[i] < (neg + pos)[j]
    {
      if j < |neg| {
      } else if i < |neg| {
        assert neg[i] in neg;
        assert pos[j - |neg|] in s.positives;
      } else {
      }
    }
  }
}
