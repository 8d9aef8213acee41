/** SteppingIntIterator: yields one upstream element, then skips step - 1. */
module SteppingIntIterators {
  import opened Wrappers
  import opened Cursors

  /** The elements of s at indices 0, k, 2k, ..., taken one at a time. */
  function Stride<T>(s: seq<T>, k: nat): (r: seq<T>)
    requires k >= 1
    ensures |r| <= |s|
    decreases |s|
  {
    if s == [] then [] else [s[0]] + Stride(s[Min(k, |s|)..], k)
  }

  /** The stride holds exactly the elements at multiples of k. */
  lemma {:induction false} StrideAt<T>(s: seq<T>, k: nat, i: nat)
    requires k >= 1
    ensures i < |Stride(s, k)| <==> i * k < |s|
    ensures i < |Stride(s, k)| ==> Stride(s, k)[i] == s[i * k]
    decreases |s|
  {
    if s != [] && i > 0 {
      var rest := s[Min(k, |s|)..];
      StrideAt(rest, k, i - 1);
      assert i * k == (i - 1) * k + k;
      if k <= |s| {
        if (i - 1) * k < |rest| {
          assert s[i * k] == rest[(i - 1) * k];
        }
      } else {
        assert i * k >= k;
      }
    }
  }

  /** Taking the element at i and skipping k - 1 more continues the stride. */
  lemma StrideFrom<T>(s: seq<T>, i: nat, k: nat)
    requires k >= 1 && i < |s|
    ensures Stride(s[i..], k) == [s[i]] + Stride(s[Min(i + k, |s|)..], k)
  {
    assert s[i..][Min(k, |s| - i)..] == s[Min(i + k, |s|)..];
  }

  /** Pulling the element at p and skipping k - 1 more keeps the produced
      elements, then the rest of the stride, equal to the whole stride. */
  lemma PullStep<T>(s: seq<T>, out: seq<T>, produced: seq<T>, p: nat, k: nat)
    requires k >= 1 && p < |s|
    requires produced + Stride(s[p..], k) == out
    ensures produced + [s[p]] + Stride(s[Min(p + k, |s|)..], k) == out
  {
    StrideFrom(s, p, k);
  }

  /** The effective stride: a step below 1 skips nothing. */
  function Stride1(step: int): (k: nat)
    ensures k >= 1
    ensures step >= 1 ==> k == step
  {
    if step < 1 then 1 else step
  }

  class SteppingIntIterator {
    const upstream: Cursor<int>
    const step: int
    /** Whether an element is buffered (Java's `hasNext` field). */
    var buffered: bool
    /** The buffered element (Java's `next`). */
    var nextValue: int
    ghost const origin: nat
    ghost var produced: seq<int>

    ghost function Source(): seq<int>
      requires origin <= |upstream.elems|
    {
      upstream.elems[origin..]
    }

    ghost function Buffered(): seq<int>
      reads this
    {
      if buffered then [nextValue] else []
    }

    ghost predicate Valid()
      reads this, upstream
    {
      && upstream.Valid()
      && origin <= upstream.pos
      && produced + Buffered() + Stride(upstream.elems[upstream.pos..], Stride1(step))
         == Stride(Source(), Stride1(step))
    }

    /** What is left to return: the buffered element, if any, then the
        stride of the unread upstream elements. */
    lemma Remaining()
      requires Valid()
      ensures |produced| < |Stride(Source(), Stride1(step))|
              <==> buffered || upstream.pos < |upstream.elems|
      ensures buffered ==> Stride(Source(), Stride1(step))[|produced|] == nextValue
    {
      var rest := upstream.elems[upstream.pos..];
      assert rest != [] ==> |Stride(rest, Stride1(step))| > 0;
      assert (produced + Buffered() + Stride(rest, Stride1(step)))[..|produced|] == produced;
      if buffered {
        assert (produced + Buffered() + Stride(rest, Stride1(step)))[|produced|] == nextValue;
      }
    }

    constructor (iter: Cursor<int>, step: int)
      requires iter.Valid()
      ensures Valid()
      ensures upstream == iter && this.step == step && origin == iter.pos
      ensures !buffered && produced == []
    {
      upstream := iter;
      this.step := step;
      buffered := false;
      nextValue := 0;
      origin := iter.pos;
      produced := [];
    }

    method HasNext() returns (b: bool)
      requires Valid()
      modifies this, upstream
      ensures Valid() && produced == old(produced)
      ensures b == buffered
      ensures b <==> |produced| < |Stride(Source(), Stride1(step))|
      ensures !b ==> upstream.pos == |upstream.elems|
      ensures b ==> nextValue == Stride(Source(), Stride1(step))[|produced|]
      // idempotent once an element is buffered
      ensures old(buffered) ==> unchanged(this, upstream)
      // a pull takes one element and skips step - 1, stopping at the end
      ensures !old(buffered) && b ==> upstream.pos == Min(old(upstream.pos) + Stride1(step), |upstream.elems|)
      ensures !old(buffered) && !b ==> unchanged(this, upstream)
    {
      Remaining();
      if buffered {
        return true;
      }
      var h := upstream.HasNext();
      if !h {
        return false;
      }
      ghost var p0 := upstream.pos;
      ghost var k := Stride1(step);
      assert Buffered() == [];
      PullStep(upstream.elems, Stride(Source(), k), produced, p0, k);
      nextValue := upstream.Next();
      upstream.Skip(step - 1);
      assert upstream.pos == Min(p0 + k, |upstream.elems|);
      buffered := true;
      b := true;
      assert produced + Buffered() + Stride(upstream.elems[upstream.pos..], k) == Stride(Source(), k);
      Remaining();
    }

    method NextInt() returns (r: Result<int>)
      requires Valid()
      modifies this, upstream
      ensures Valid()
      ensures r.Ok? <==> |old(produced)| < |Stride(Source(), Stride1(step))|
      ensures r.Ok? ==> && produced == old(produced) + [r.value]
                        && r.value == Stride(Source(), Stride1(step))[|old(produced)|]
                        && !buffered
      ensures r.Err? ==> r.error == NoSuchElement && produced == old(produced)
    {
      var has := HasNext();
      if !has {
        return Err(NoSuchElement);
      }
      Remaining();
      var x := TakeBuffered();
      r := Ok(x);
    }

    /** The tail of nextInt: clears the buffer flag and returns the
        buffered element, the next one of the stride. */
    method TakeBuffered() returns (x: int)
      requires Valid() && buffered
      modifies this
      ensures Valid() && !buffered
      ensures x == old(nextValue) && produced == old(produced) + [x]
    {
      ghost var rest := Stride(upstream.elems[upstream.pos..], Stride1(step));
      assert produced + [nextValue] + rest == Stride(Source(), Stride1(step));
      buffered := false;
      produced := produced + [nextValue];
      assert produced + Buffered() + rest == produced + rest;
      x := nextValue;
    }
  }
}
