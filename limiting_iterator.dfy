/** LimitingIterator: yields at most `limit` upstream elements. */
module LimitingIterators {
  import opened Wrappers
  import opened Cursors

  /** How many elements a limit lets through from a sequence of length n. */
  function Clamp(limit: int, n: nat): (r: nat)
    ensures r <= n
    ensures limit <= 0 ==> r == 0
    ensures 0 <= limit <= n ==> r == limit
  {
    if limit <= 0 then 0 else Min(limit, n)
  }

  /** The first `limit` elements of s, taken one at a time from the front. */
  function Take<T>(s: seq<T>, limit: int): (r: seq<T>)
    ensures r <= s
    ensures |r| == Clamp(limit, |s|)
  {
    if limit <= 0 || s == [] then [] else [s[0]] + Take(s[1..], limit - 1)
  }

  class LimitingIterator<T> {
    const upstream: Cursor<T>
    const limit: int
    /** Number of elements returned so far. */
    var count: nat
    ghost const origin: nat
    ghost var produced: seq<T>

    ghost function Source(): seq<T>
      requires origin <= |upstream.elems|
    {
      upstream.elems[origin..]
    }

    ghost predicate Valid()
      reads this, upstream
    {
      && upstream.Valid()
      && origin <= upstream.pos
      && count == |produced| == upstream.pos - origin
      && (count == 0 || count <= limit)
      && produced == upstream.elems[origin..upstream.pos]
    }

    constructor (iter: Cursor<T>, limit: int)
      requires iter.Valid()
      ensures Valid()
      ensures upstream == iter && this.limit == limit && origin == iter.pos
      ensures count == 0 && produced == []
    {
      upstream := iter;
      this.limit := limit;
      count := 0;
      origin := iter.pos;
      produced := [];
    }

    /** The elements returned so far are the first ones of the limited output. */
    lemma ProducedIsPrefix()
      requires Valid()
      ensures produced <= Take(Source(), limit)
      ensures |produced| <= Clamp(limit, |Source()|)
    {
      assert produced == Source()[..count];
    }

    method HasNext() returns (b: bool)
      requires Valid()
      ensures b <==> |produced| < |Take(Source(), limit)|
      // at the limit the answer is false whatever upstream holds
      ensures count >= limit ==> !b
    {
      if count < limit {
        b := upstream.HasNext();
      } else {
        b := false;
      }
    }

    method Next() returns (r: Result<T>)
      requires Valid()
      modifies this, upstream
      ensures Valid()
      ensures r.Ok? <==> |old(produced)| < |Take(Source(), limit)|
      ensures r.Ok? ==> && upstream.pos == old(upstream.pos) + 1
                        && produced == old(produced) + [r.value]
                        && r.value == Take(Source(), limit)[|old(produced)|]
      ensures r.Err? ==> r.error == NoSuchElement && unchanged(this, upstream)
      ensures produced <= Take(Source(), limit)
    {
      var has := HasNext();
      if !has {
        ProducedIsPrefix();
        return Err(NoSuchElement);
      }
      var x := upstream.Next();
      count := count + 1;
      produced := produced + [x];
      r := Ok(x);
      assert produced == Source()[..count];
    }
  }
}
