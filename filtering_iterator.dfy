/** FilteringIterator: yields the upstream elements that satisfy a predicate,
    looking ahead by at most one element. */
module FilteringIterators {
  import opened Wrappers
  import opened Cursors

  /** The elements of s that satisfy p, in their order in s. */
  function Filter<T>(p: T -> bool, s: seq<T>): (r: seq<T>)
    ensures |r| <= |s|
  {
    if s == [] then []
    else if p(s[0]) then [s[0]] + Filter(p, s[1..])
    else Filter(p, s[1..])
  }

  /** Filter keeps exactly the matching elements. */
  lemma {:induction false} FilterMembers<T>(p: T -> bool, s: seq<T>)
    ensures forall i :: 0 <= i < |Filter(p, s)| ==> Filter(p, s)[i] in s && p(Filter(p, s)[i])
    ensures forall i :: 0 <= i < |s| && p(s[i]) ==> s[i] in Filter(p, s)
  {
    if s != [] {
      FilterMembers(p, s[1..]);
      assert forall i :: 1 <= i < |s| ==> s[i] == s[1..][i - 1];
    }
  }

  /** Filtering distributes over concatenation. */
  lemma {:induction false} FilterAppend<T>(p: T -> bool, a: seq<T>, b: seq<T>)
    ensures Filter(p, a + b) == Filter(p, a) + Filter(p, b)
  {
    if a == [] {
      assert a + b == b;
    } else {
      assert (a + b)[1..] == a[1..] + b;
      FilterAppend(p, a[1..], b);
    }
  }

  /** Filtering the first k elements, then the rest, gives the whole output. */
  lemma FilterSplit<T>(p: T -> bool, s: seq<T>, k: nat)
    requires k <= |s|
    ensures Filter(p, s) == Filter(p, s[..k]) + Filter(p, s[k..])
  {
    assert s == s[..k] + s[k..];
    FilterAppend(p, s[..k], s[k..]);
  }

  /** Filtering one more element appends it exactly when it matches. */
  lemma FilterSnoc<T>(p: T -> bool, s: seq<T>, x: T)
    ensures Filter(p, s + [x]) == Filter(p, s) + (if p(x) then [x] else [])
  {
    FilterAppend(p, s, [x]);
    assert [x][1..] == [];
  }

  class FilteringIterator<T> {
    const upstream: Cursor<T>
    const condition: T -> bool
    /** The looked-ahead element (Java's foundValue; None is null). */
    var foundValue: Option<T>
    /** Whether foundValue holds a matching element not yet returned. */
    var foundNext: bool
    /** Upstream position when this iter was created. */
    ghost const origin: nat
    /** The elements next has returned so far. */
    ghost var produced: seq<T>

    /** The upstream elements this iter can see. */
    ghost function Source(): seq<T>
      requires origin <= |upstream.elems|
    {
      upstream.elems[origin..]
    }

    ghost function Buffered(): seq<T>
      reads this
    {
      if foundNext && foundValue.Some? then [foundValue.value] else []
    }

    ghost predicate Valid()
      reads this, upstream
    {
      && upstream.Valid()
      && origin <= upstream.pos
      && (foundNext ==>
            && foundValue.Some?
            && origin < upstream.pos
            && upstream.elems[upstream.pos - 1] == foundValue.value
            && condition(foundValue.value))
      && produced + Buffered() == Filter(condition, upstream.elems[origin..upstream.pos])
    }

    /** The constructor only stores its arguments: nothing is pulled. */
    constructor (iter: Cursor<T>, condition: T -> bool)
      requires iter.Valid()
      ensures Valid()
      ensures upstream == iter && this.condition == condition
      ensures origin == iter.pos && produced == [] && !foundNext
    {
      upstream := iter;
      this.condition := condition;
      foundValue := None;
      foundNext := false;
      origin := iter.pos;
      produced := [];
      new;
      assert upstream.elems[origin..upstream.pos] == [];
    }

    /** In a valid state, what is left to return is the buffered element
        followed by the matches among the unread upstream elements. */
    lemma Remaining()
      requires Valid()
      ensures Filter(condition, Source())
           == produced + Buffered() + Filter(condition, upstream.elems[upstream.pos..])
    {
      var s := Source();
      var k := upstream.pos - origin;
      assert s[..k] == upstream.elems[origin..upstream.pos];
      assert s[k..] == upstream.elems[upstream.pos..];
      FilterSplit(condition, s, k);
    }

    method HasNext() returns (b: bool)
      requires Valid()
      modifies this, upstream
      ensures Valid() && produced == old(produced)
      ensures b == foundNext
      ensures b <==> |produced| < |Filter(condition, Source())|
      ensures b ==> condition(foundValue.value)
      ensures !b ==> upstream.pos == |upstream.elems| && produced == Filter(condition, Source())
      // idempotent: with an element buffered, or upstream exhausted, nothing changes
      ensures old(foundNext) || old(upstream.pos) == |upstream.elems| ==> unchanged(this, upstream)
      // the non-matching elements pulled during the search are dropped
      ensures !old(foundNext) ==>
                forall i :: old(upstream.pos) <= i < upstream.pos - (if b then 1 else 0)
                  ==> !condition(upstream.elems[i])
    {
      if foundNext {
        Remaining();
        return true;
      }
      ghost var start := upstream.pos;
      while true
        invariant upstream.Valid() && origin <= start <= upstream.pos
        invariant produced == old(produced)
        invariant produced == Filter(condition, upstream.elems[origin..upstream.pos])
        invariant forall i :: start <= i < upstream.pos ==> !condition(upstream.elems[i])
        invariant upstream.pos == start ==> unchanged(this, upstream)
        decreases |upstream.elems| - upstream.pos
      {
        foundNext := upstream.HasNext();
        if !foundNext {
          assert Valid();
          Remaining();
          assert upstream.elems[upstream.pos..] == [];
          return false;
        }
        var x := upstream.Next();
        foundValue := Some(x);
        assert upstream.elems[origin..upstream.pos] == upstream.elems[origin..upstream.pos - 1] + [x];
        FilterSnoc(condition, upstream.elems[origin..upstream.pos - 1], x);
        if condition(x) {
          assert Valid();
          Remaining();
          return true;
        }
      }
    }

    method Next() returns (r: Result<T>)
      requires Valid()
      modifies this, upstream
      ensures Valid()
      ensures r.Ok? <==> |old(produced)| < |Filter(condition, Source())|
      ensures r.Ok? ==> && produced == old(produced) + [r.value]
                        && condition(r.value)
                        && !foundNext && foundValue == None
      ensures r.Err? ==> r.error == NoSuchElement && produced == old(produced)
      ensures produced <= Filter(condition, Source())
    {
      var has := HasNext();
      if !has {
        return Err(NoSuchElement);
      }
      var v := foundValue.value;
      foundNext := false;
      foundValue := None;
      produced := produced + [v];
      r := Ok(v);
      Remaining();
    }
  }
}
