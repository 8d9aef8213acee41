/** org.d2ab.collection.ints.IntList: the default algorithms every int
    list gets from the interface (search, positional get and set, bulk add
    and remove, equals and hashCode of IntList.Base) and the SubList view.
    A list is held as the sequence of its ints. */
module IntLists {
  import opened Wrappers
  import opened Cursors
  import opened Hashing
  import opened FilteringIterators
  import opened LimitingIterators

  /** An element of some other java.util.List, as equals sees it: an
      Integer, or anything else (null included). */
  datatype Element = Integer(v: int) | NonInteger

  /** The object equals is handed. */
  datatype ListObject =
    | IntListObject(ints: seq<int>)
    | OtherList(items: seq<Element>)
    | NotAList

  /** The ints of a list as boxed Integers. */
  function Boxed(xs: seq<int>): (r: seq<Element>)
    ensures |r| == |xs|
    ensures forall i :: 0 <= i < |xs| ==> r[i] == Integer(xs[i])
  {
    seq(|xs|, i requires 0 <= i < |xs| => Integer(xs[i]))
  }

  /** The predicate "not in c", which removeAll keeps. */
  function NotIn(c: set<int>): int -> bool
  {
    x => x !in c
  }

  /** The predicate "in c", which retainAll keeps. */
  function In(c: set<int>): int -> bool
  {
    x => x in c
  }

  class IntList {
    var elems: seq<int>

    constructor (elems: seq<int>)
      ensures this.elems == elems
    {
      this.elems := elems;
    }

    /** indexOfInt: the first index holding x, or -1. */
    method IndexOfInt(x: int) returns (index: int)
      ensures index == -1 <==> x !in elems
      ensures index != -1 ==> 0 <= index < |elems| && elems[index] == x
      ensures forall j :: 0 <= j < index ==> elems[j] != x
    {
      index := 0;
      while index < |elems|
        invariant 0 <= index <= |elems|
        invariant forall j :: 0 <= j < index ==> elems[j] != x
      {
        if elems[index] == x {
          return;
        }
        index := index + 1;
      }
      index := -1;
    }

    /** lastIndexOfInt: the last index holding x, or -1. */
    method LastIndexOfInt(x: int) returns (lastIndex: int)
      ensures lastIndex == -1 <==> x !in elems
      ensures lastIndex != -1 ==> 0 <= lastIndex < |elems| && elems[lastIndex] == x
      ensures forall j :: lastIndex < j < |elems| ==> elems[j] != x
    {
      lastIndex := -1;
      var index := 0;
      while index < |elems|
        invariant 0 <= index <= |elems|
        invariant -1 <= lastIndex < index
        invariant lastIndex == -1 <==> x !in elems[..index]
        invariant lastIndex != -1 ==> elems[lastIndex] == x
        invariant forall j :: lastIndex < j < index ==> elems[j] != x
      {
        assert elems[..index + 1] == elems[..index] + [elems[index]];
        if elems[index] == x {
          lastIndex := index;
        }
        index := index + 1;
      }
      assert elems[..index] == elems;
    }

    /** getInt: the element at index; an index outside the list is an
        IndexOutOfBoundsException. */
    method GetInt(index: int) returns (r: Result<int>)
      ensures r.Err? <==> !(0 <= index < |elems|)
      ensures r.Err? ==> r.error == IndexOutOfBounds
      ensures r.Ok? ==> r.value == elems[index]
    {
      if index < 0 || index >= |elems| {
        return Err(IndexOutOfBounds);
      }
      r := Ok(elems[index]);
    }

    /** setInt: replaces the element at index and answers the one it held;
        nothing else changes. */
    method SetInt(index: int, x: int) returns (r: Result<int>)
      modifies this
      ensures r.Err? <==> !(0 <= index < |old(elems)|)
      ensures r.Err? ==> r.error == IndexOutOfBounds && elems == old(elems)
      ensures r.Ok? ==> r.value == old(elems)[index] && elems == old(elems)[index := x]
    {
      if index < 0 || index >= |elems| {
        return Err(IndexOutOfBounds);
      }
      var previous := elems[index];
      elems := elems[index := x];
      r := Ok(previous);
    }

    /** addAllInts(xs...): false for no ints; otherwise appends them in
        order through a list iterator at the end, and answers true. */
    method AddAllInts(xs: seq<int>) returns (modified: bool)
      modifies this
      ensures modified <==> xs != []
      ensures elems == old(elems) + xs
    {
      if xs == [] {
        return false;
      }
      var i := 0;
      while i < |xs|
        invariant 0 <= i <= |xs|
        invariant elems == old(elems) + xs[..i]
      {
        assert xs[..i + 1] == xs[..i] + [xs[i]];
        elems := elems + [xs[i]];
        i := i + 1;
      }
      assert xs[..i] == xs;
      modified := true;
    }

    /** removeAll(c): removes, through the iterator, every element in c;
        the rest keep their order. Answers whether anything was removed. */
    method RemoveAll(c: set<int>) returns (modified: bool)
      modifies this
      ensures elems == Filter(NotIn(c), old(elems))
      ensures modified <==> exists k :: 0 <= k < |old(elems)| && old(elems)[k] in c
    {
      modified := RemoveUnless(NotIn(c));
    }

    /** retainAll(c): removes every element not in c. */
    method RetainAll(c: set<int>) returns (modified: bool)
      modifies this
      ensures elems == Filter(In(c), old(elems))
      ensures modified <==> exists k :: 0 <= k < |old(elems)| && old(elems)[k] !in c
    {
      modified := RemoveUnless(In(c));
    }

    /** The iterator loop both removeAll and retainAll run: each element
        failing keep is removed where it stands. */
    method RemoveUnless(keep: int -> bool) returns (modified: bool)
      modifies this
      ensures elems == Filter(keep, old(elems))
      ensures modified <==> exists k :: 0 <= k < |old(elems)| && !keep(old(elems)[k])
    {
      ghost var src := elems;
      ghost var k := 0;
      var i := 0;
      modified := false;
      while i < |elems|
        invariant 0 <= i <= |elems| && 0 <= k <= |src|
        invariant elems[..i] == Filter(keep, src[..k])
        invariant elems[i..] == src[k..]
        invariant modified <==> exists m :: 0 <= m < k && !keep(src[m])
        decreases |elems| - i
      {
        assert src[k] == elems[i];
        assert src[..k + 1] == src[..k] + [src[k]];
        FilterSnoc(keep, src[..k], src[k]);
        if !keep(elems[i]) {
          elems := elems[..i] + elems[i + 1..];
          modified := true;
        } else {
          i := i + 1;
        }
        k := k + 1;
      }
      assert src[..k] == src;
      assert elems[..i] == elems;
    }

    /** IntList.Base.equals: another IntList with the same ints in the same
        order, or any other List whose elements are those ints as Integers;
        never a non-list. */
    method Equals(o: ListObject) returns (b: bool)
      ensures b <==> (o.IntListObject? && o.ints == elems) || (o.OtherList? && o.items == Boxed(elems))
    {
      match o
      case NotAList =>
        b := false;
      case IntListObject(that) =>
        b := SameInOrder(Boxed(elems), Boxed(that));
        assert Boxed(elems) == Boxed(that) ==> elems == that by {
          if Boxed(elems) == Boxed(that) {
            assert forall i :: 0 <= i < |elems| ==> elems[i] == Boxed(elems)[i].v;
          }
        }
      case OtherList(that) =>
        b := SameInOrder(Boxed(elems), that);
    }

    /** IntList.Base.hashCode: 31 * h + x folded from 1 over the ints, in
        int arithmetic; the same as the polynomial hash wrapped once. */
    method HashCode() returns (h: int)
      ensures h == ListHash(elems)
      ensures h == Wrap32(PolyHash(elems))
    {
      h := 1;
      var i := 0;
      while i < |elems|
        invariant 0 <= i <= |elems|
        invariant h == ListHash(elems[..i])
      {
        assert elems[..i + 1] == elems[..i] + [elems[i]];
        ListHashSnoc(elems[..i], elems[i]);
        h := Wrap32(31 * h + elems[i]);
        i := i + 1;
      }
      assert elems[..i] == elems;
      ListHashIsWrappedPolyHash(elems);
    }
  }

  /** Walks two lists side by side as equals does: false at the first
      difference or when one runs out first. */
  method SameInOrder(xs: seq<Element>, ys: seq<Element>) returns (b: bool)
    ensures b <==> xs == ys
  {
    var i := 0;
    while i < |xs|
      invariant 0 <= i <= |xs| && i <= |ys|
      invariant xs[..i] == ys[..i]
    {
      if i >= |ys| || xs[i] != ys[i] {
        assert i < |ys| ==> xs[i] != ys[i];
        return false;
      }
      assert xs[..i + 1] == xs[..i] + [xs[i]] && ys[..i + 1] == ys[..i] + [ys[i]];
      i := i + 1;
    }
    assert xs[..i] == xs;
    b := i == |ys|;
    assert i < |ys| ==> |xs| != |ys|;
    if b {
      assert ys[..i] == ys;
    }
  }

  // SubList

  /** The SubList constructor's checks AS WRITTEN: a negative from or a
      to beyond the list is an ArrayIndexOutOfBoundsException; from > to
      is let through. */
  function SubListCheckAsWritten(size: int, from: int, to: int): (r: Option<Failure>)
    ensures r.None? <==> 0 <= from && to <= size
  {
    if from < 0 then Some(IndexOutOfBounds)
    else if to > size then Some(IndexOutOfBounds)
    else None
  }

  /** The corrected checks: as written, and from > to rejected too with
      IllegalArgumentException, as ArrayList.subList and AbstractList.subList
      do. */
  function SubListCheck(size: int, from: int, to: int): (r: Option<Failure>)
    ensures r.None? <==> 0 <= from <= to <= size
  {
    if from < 0 then Some(IndexOutOfBounds)
    else if to > size then Some(IndexOutOfBounds)
    else if from > to then Some(IllegalArgument)
    else None
  }

  /** What the sublist's iterator yields: skip `from` elements, then at
      most to - from more. */
  function SubListElements(elems: seq<int>, from: int, to: int): (r: seq<int>)
    requires from >= 0
    ensures |r| <= |elems|
  {
    Take(elems[Min(from, |elems|)..], to - from)
  }

  /** As written, a list of five ints accepts subList(3, 1): its size() is
      -2 while its iterator yields nothing. */
  lemma AsWrittenSizeDisagrees()
    ensures SubListCheckAsWritten(5, 3, 1).None?
    ensures 1 - 3 == -2 && SubListElements([1, 2, 3, 4, 5], 3, 1) == []
  {
  }

  /** With the corrected checks, size() is never negative and equals the
      number of elements the iterator yields, which are elems[from..to]. */
  lemma SubListSizeMatches(elems: seq<int>, from: int, to: int)
    requires SubListCheck(|elems|, from, to).None?
    ensures 0 <= to - from == |SubListElements(elems, from, to)|
    ensures SubListElements(elems, from, to) == elems[from..to]
  {
    assert elems[from..][..to - from] == elems[from..to];
  }

  class SubList {
    const list: IntList
    var from: int
    var to: int

    ghost predicate Valid()
      reads this, list
    {
      SubListCheck(|list.elems|, from, to).None?
    }

    /** Stores the bounds; the checks are the factory's. */
    constructor (list: IntList, from: int, to: int)
      ensures this.list == list && this.from == from && this.to == to
    {
      this.list := list;
      this.from := from;
      this.to := to;
    }

    /** size(): to - from. */
    function Size(): int
      reads this
    {
      to - from
    }

    function Elements(): seq<int>
      reads this, list
      requires from >= 0
    {
      SubListElements(list.elems, from, to)
    }

    /** Removing the k-th element through the sublist's iterator removes it
        from the backing list and decrements to, so the view still covers
        the same elements less the removed one. */
    method RemoveAt(k: int)
      requires Valid() && 0 <= k < Size()
      modifies this, list
      ensures Valid() && from == old(from) && to == old(to) - 1
      ensures list.elems == old(list.elems[..from + k] + list.elems[from + k + 1..])
      ensures Elements() == old(Elements()[..k] + Elements()[k + 1..])
      ensures Size() == old(Size()) - 1
    {
      SubListSizeMatches(list.elems, from, to);
      list.elems := list.elems[..from + k] + list.elems[from + k + 1..];
      to := to - 1;
      SubListSizeMatches(list.elems, from, to);
    }
  }

  /** list.subList(from, to) as written. */
  method NewSubListAsWritten(list: IntList, from: int, to: int) returns (r: Result<SubList>)
    ensures SubListCheckAsWritten(|list.elems|, from, to).Some?
            ==> r == Err(SubListCheckAsWritten(|list.elems|, from, to).value)
    ensures SubListCheckAsWritten(|list.elems|, from, to).None?
            ==> r.Ok? && fresh(r.value) && r.value.list == list && r.value.from == from && r.value.to == to
  {
    var failure := SubListCheckAsWritten(|list.elems|, from, to);
    if failure.Some? {
      return Err(failure.value);
    }
    var s := new SubList(list, from, to);
    r := Ok(s);
  }

  /** list.subList(from, to) with the corrected checks: a sublist is
      always valid, its size the number of elements it yields. */
  method NewSubList(list: IntList, from: int, to: int) returns (r: Result<SubList>)
    ensures SubListCheck(|list.elems|, from, to).Some?
            ==> r == Err(SubListCheck(|list.elems|, from, to).value)
    ensures r.Ok? ==> fresh(r.value) && r.value.list == list && r.value.Valid()
                      && r.value.Elements() == list.elems[from..to] && r.value.Size() == to - from
  {
    var failure := SubListCheck(|list.elems|, from, to);
    if failure.Some? {
      return Err(failure.value);
    }
    var s := new SubList(list, from, to);
    SubListSizeMatches(list.elems, from, to);
    r := Ok(s);
  }
}
