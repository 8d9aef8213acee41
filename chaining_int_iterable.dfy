/** ChainingIntIterable: a growable list of int iterables traversed one
    after another. An iterable is a reference with an identity and the ints
    it yields; None is a null entry. */
module ChainingIntIterables {
  import opened Wrappers
  import opened Hashing
  import opened Cursors

  /** The elements of each sequence in list order. */
  function Concat<T>(xs: seq<seq<T>>): (r: seq<T>)
  {
    if xs == [] then [] else Concat(xs[..|xs| - 1]) + xs[|xs| - 1]
  }

  /** Concatenation is associative over list appends: traversing a longer
      list traverses the shorter one first. */
  lemma {:induction false} ConcatAppend<T>(xs: seq<seq<T>>, ys: seq<seq<T>>)
    ensures Concat(xs + ys) == Concat(xs) + Concat(ys)
    decreases |ys|
  {
    if ys == [] {
      assert xs + ys == xs;
    } else {
      var init := ys[..|ys| - 1];
      assert (xs + ys)[..|xs + ys| - 1] == xs + init;
      ConcatAppend(xs, init);
    }
  }

  /** A reference to an IntIterable: the object's identity and the ints it
      yields. What the element's own equals and hashCode answer is up to
      its class (identity for a lambda), so those are passed in. */
  datatype IterableRef = IterableRef(id: nat, ints: seq<int>)

  /** Object identity: the equals and hashCode a lambda inherits. */
  function SameObject(x: IterableRef, y: IterableRef): bool
  {
    x.id == y.id
  }

  /** An element equality and an element hash agree: one object, and
      equal objects, hash alike, as the hashCode contract demands. */
  ghost predicate HashConsistent(eq: (IterableRef, IterableRef) -> bool, hash: IterableRef -> int)
  {
    forall x, y :: SameObject(x, y) || eq(x, y) ==> hash(x) == hash(y)
  }

  /** Objects.equals on possibly-null elements: null equals only null, the
      same object equals itself without asking, and otherwise the left
      element's equals decides. */
  function NullSafeEquals(eq: (IterableRef, IterableRef) -> bool, x: Option<IterableRef>, y: Option<IterableRef>): bool
  {
    match (x, y)
    case (None, None) => true
    case (Some(a), Some(b)) => SameObject(a, b) || eq(a, b)
    case _ => false
  }

  /** List equality as ArrayList.equals computes it: the same length and
      element-wise null-safe equals, walking both lists in order. */
  predicate ListEquals(eq: (IterableRef, IterableRef) -> bool, xs: seq<Option<IterableRef>>, ys: seq<Option<IterableRef>>)
  {
    |xs| == |ys| && forall i :: 0 <= i < |xs| ==> NullSafeEquals(eq, xs[i], ys[i])
  }

  predicate NoNulls<T>(xs: seq<Option<T>>)
  {
    forall i :: 0 <= i < |xs| ==> xs[i].Some?
  }

  class ChainingIntIterable {
    /** The iterables in order; a null entry can only come from append. */
    var iterables: seq<Option<IterableRef>>

    constructor Empty()
      ensures iterables == []
    {
      iterables := [];
    }

    /** append: adds at the end (without a null check) and returns this. */
    method Append(iterable: Option<IterableRef>) returns (r: ChainingIntIterable)
      modifies this
      ensures r == this
      ensures iterables == old(iterables) + [iterable]
    {
      iterables := iterables + [iterable];
      r := this;
    }

    /** iterator(): a fresh traversal of the current list. */
    method Iterator() returns (r: Result<Cursor<int>>)
      ensures r.Err? <==> !NoNulls(iterables)
      ensures r.Err? ==> r.error == NullPointer
      ensures r.Ok? ==> && fresh(r.value) && r.value.Valid() && r.value.pos == 0
                        && r.value.elems == Concat(Present(iterables))
    {
      var i := 0;
      while i < |iterables|
        invariant i <= |iterables|
        invariant forall m :: 0 <= m < i ==> iterables[m].Some?
      {
        if iterables[i] == None {
          return Err(NullPointer);
        }
        i := i + 1;
      }
      var c := new Cursor(Concat(Present(iterables)));
      r := Ok(c);
    }

    /** hashCode: the list hash over the iterables' own hashes. */
    function HashCode(elementHash: IterableRef -> int): (h: int)
      reads this
      ensures IsInt32(h)
      ensures h == Wrap32(PolyHash(ElementHashes(elementHash, iterables)))
    {
      ListHashIsWrappedPolyHash(ElementHashes(elementHash, iterables));
      ListHash(ElementHashes(elementHash, iterables))
    }

    /** equals: true for this same object, false for null, otherwise the
        iterable lists are compared element by element with each
        element's own equals. */
    function Equals(o: ChainingIntIterable?, eq: (IterableRef, IterableRef) -> bool): (b: bool)
      reads this, o
      ensures b <==> this == o || (o != null && ListEquals(eq, iterables, o.iterables))
      ensures o == null ==> !b
    {
      if this == o then true
      else if o == null then false
      else ListEquals(eq, iterables, o.iterables)
    }
  }

  /** The element hashes of a list with nulls, in order. */
  function ElementHashes(elementHash: IterableRef -> int, xs: seq<Option<IterableRef>>): (hs: seq<int>)
    ensures |hs| == |xs|
    ensures forall i :: 0 <= i < |xs| ==> hs[i] == NullSafeHash(elementHash, xs[i])
  {
    seq(|xs|, i requires 0 <= i < |xs| => NullSafeHash(elementHash, xs[i]))
  }

  /** The ints of each iterable of a null-free list. */
  function Present(xs: seq<Option<IterableRef>>): (r: seq<seq<int>>)
    ensures |r| == |xs|
    ensures forall i :: 0 <= i < |xs| && xs[i].Some? ==> r[i] == xs[i].value.ints
  {
    seq(|xs|, i requires 0 <= i < |xs| => if xs[i].Some? then xs[i].value.ints else [])
  }

  /** Equal instances hash equally, for any element equality and element
      hash that agree with each other. */
  lemma EqualsConsistentWithHash(a: ChainingIntIterable, b: ChainingIntIterable,
                                 eq: (IterableRef, IterableRef) -> bool, elementHash: IterableRef -> int)
    requires HashConsistent(eq, elementHash)
    requires a.Equals(b, eq)
    ensures a.HashCode(elementHash) == b.HashCode(elementHash)
  {
    if a != b {
      var ha := ElementHashes(elementHash, a.iterables);
      var hb := ElementHashes(elementHash, b.iterables);
      forall i | 0 <= i < |ha|
        ensures ha[i] == hb[i]
      {
        assert NullSafeEquals(eq, a.iterables[i], b.iterables[i]);
      }
      assert ha == hb;
    }
  }

  /** Two chains over distinct lambdas are unequal even when the lambdas
      yield the same ints: a lambda's equals is identity. */
  lemma DistinctLambdasUnequal(a: ChainingIntIterable, b: ChainingIntIterable, xs: seq<int>)
    requires a != b
    requires a.iterables == [Some(IterableRef(1, xs))] && b.iterables == [Some(IterableRef(2, xs))]
    ensures !a.Equals(b, SameObject)
    ensures Concat(Present(a.iterables)) == Concat(Present(b.iterables))
  {
    assert !NullSafeEquals(SameObject, a.iterables[0], b.iterables[0]);
  }

  /** The constructor: each argument in order, a null one rejected with
      NullPointerException. */
  method NewChaining(iterables: seq<Option<IterableRef>>) returns (r: Result<ChainingIntIterable>)
    ensures r.Err? <==> !NoNulls(iterables)
    ensures r.Err? ==> r.error == NullPointer
    ensures r.Ok? ==> fresh(r.value) && r.value.iterables == iterables
  {
    var c := new ChainingIntIterable.Empty();
    var i := 0;
    while i < |iterables|
      invariant i <= |iterables|
      invariant c.iterables == iterables[..i]
      invariant NoNulls(iterables[..i])
    {
      if iterables[i] == None {
        return Err(NullPointer);
      }
      c.iterables := c.iterables + [iterables[i]];
      i := i + 1;
    }
    assert iterables[..i] == iterables;
    r := Ok(c);
  }

  /** A traversal made after an append sees the old iterables, then the
      appended one. */
  lemma TraversalAfterAppend(before: seq<Option<IterableRef>>, x: IterableRef)
    requires NoNulls(before)
    ensures NoNulls(before + [Some(x)])
    ensures Concat(Present(before + [Some(x)])) == Concat(Present(before)) + x.ints
  {
    assert Present(before + [Some(x)]) == Present(before) + [x.ints];
    ConcatAppend(Present(before), [x.ints]);
    assert Concat([x.ints]) == Concat([]) + x.ints;
  }
}
