/** ExclusiveTerminalIterator: yields upstream elements up to, and not
    including, the first one the terminal predicate accepts. */
module ExclusiveTerminalIterators {
  import opened Wrappers
  import opened Cursors

  /** The longest prefix of s holding no terminal element. */
  function TakeUntil<T>(terminal: T -> bool, s: seq<T>): (r: seq<T>)
    ensures r <= s
    ensures forall i :: 0 <= i < |r| ==> !terminal(r[i])
    ensures |r| < |s| ==> terminal(s[|r|])
  {
    if s == [] || terminal(s[0]) then [] else [s[0]] + TakeUntil(terminal, s[1..])
  }

  /** Every terminal-free prefix of s is a prefix of TakeUntil: the output
      really is the longest such prefix. */
  lemma {:induction false} TakeUntilIsLongest<T>(terminal: T -> bool, s: seq<T>, p: seq<T>)
    requires p <= s
    requires forall i :: 0 <= i < |p| ==> !terminal(p[i])
    ensures p <= TakeUntil(terminal, s)
  {
    if p != [] {
      assert s[0] == p[0];
      TakeUntilIsLongest(terminal, s[1..], p[1..]);
    }
  }

  /** After a terminal-free prefix p, the output goes on exactly when the
      next element exists and is not terminal, and then it is that element. */
  lemma TakeUntilAfter<T>(terminal: T -> bool, s: seq<T>, p: seq<T>)
    requires p <= s
    requires forall i :: 0 <= i < |p| ==> !terminal(p[i])
    ensures |p| < |TakeUntil(terminal, s)| <==> |p| < |s| && !terminal(s[|p|])
    ensures |p| < |TakeUntil(terminal, s)| ==> TakeUntil(terminal, s)[|p|] == s[|p|]
  {
    TakeUntilIsLongest(terminal, s, p);
    if |p| < |s| && !terminal(s[|p|]) {
      TakeUntilIsLongest(terminal, s, s[..|p| + 1]);
    }
  }

  class ExclusiveTerminalIterator<T> {
    const upstream: Cursor<T>
    const terminal: T -> bool
    /** The buffered element (Java's `next`; None is null). */
    var nextValue: Option<T>
    /** Whether an element is buffered (Java's `hasNext` field). */
    var buffered: bool
    ghost const origin: nat
    ghost var produced: seq<T>

    ghost function Source(): seq<T>
      requires origin <= |upstream.elems|
    {
      upstream.elems[origin..]
    }

    ghost predicate Valid()
      reads this, upstream
    {
      && upstream.Valid()
      && origin <= upstream.pos
      && (buffered ==>
            && nextValue.Some?
            && origin < upstream.pos
            && upstream.elems[upstream.pos - 1] == nextValue.value)
      && produced == upstream.elems[origin..upstream.pos - (if buffered then 1 else 0)]
      && (forall i :: 0 <= i < |produced| ==> !terminal(produced[i]))
    }

    /** The predicate constructor: stores its arguments, pulls nothing. */
    constructor (iter: Cursor<T>, terminal: T -> bool)
      requires iter.Valid()
      ensures Valid()
      ensures upstream == iter && this.terminal == terminal && origin == iter.pos
      ensures !buffered && produced == []
    {
      upstream := iter;
      this.terminal := terminal;
      nextValue := None;
      buffered := false;
      origin := iter.pos;
      produced := [];
    }

    /** The elements returned so far open the output. */
    lemma ProducedIsPrefix()
      requires Valid()
      ensures produced <= TakeUntil(terminal, Source())
    {
      assert produced <= Source();
      TakeUntilIsLongest(terminal, Source(), produced);
    }

    method HasNext() returns (b: bool)
      requires Valid()
      modifies this, upstream
      ensures Valid() && produced == old(produced)
      ensures b <==> |produced| < |TakeUntil(terminal, Source())|
      ensures b ==> buffered && nextValue.value == TakeUntil(terminal, Source())[|produced|]
      // at most one upstream element is pulled, and only with nothing buffered
      ensures old(buffered) ==> unchanged(this, upstream)
      ensures upstream.pos <= old(upstream.pos) + 1
      // a buffered terminal is never returned and blocks further pulls
      ensures buffered && terminal(nextValue.value) ==> !b
    {
      if !buffered {
        var h := upstream.HasNext();
        if h {
          var x := upstream.Next();
          nextValue := Some(x);
          buffered := true;
        }
      }
      b := buffered && !terminal(nextValue.value);
      assert produced <= Source();
      assert buffered ==> Source()[|produced|] == nextValue.value;
      assert !buffered ==> |produced| == |Source()|;
      TakeUntilAfter(terminal, Source(), produced);
    }

    method Next() returns (r: Result<T>)
      requires Valid()
      modifies this, upstream
      ensures Valid()
      ensures r.Ok? <==> |old(produced)| < |TakeUntil(terminal, Source())|
      ensures r.Ok? ==> && produced == old(produced) + [r.value]
                        && !buffered && nextValue == None
      ensures r.Err? ==> r.error == NoSuchElement && produced == old(produced)
      ensures produced <= TakeUntil(terminal, Source())
    {
      var has := HasNext();
      if !has {
        ProducedIsPrefix();
        return Err(NoSuchElement);
      }
      var v := TakeBuffered();
      r := Ok(v);
      ProducedIsPrefix();
    }

    /** The tail of next: returns the buffered element, a non-terminal
        one, and empties the buffer. */
    method TakeBuffered() returns (x: T)
      requires Valid() && buffered && !terminal(nextValue.value)
      modifies this
      ensures Valid() && !buffered && nextValue == None
      ensures x == old(nextValue).value && produced == old(produced) + [x]
    {
      x := nextValue.value;
      assert upstream.elems[origin..upstream.pos] == produced + [x];
      buffered := false;
      nextValue := None;
      produced := produced + [x];
    }
  }

  /** The value constructor: stops at the first element equal to `value`;
      with T a nullable type, Option equality is Java's null-safe
      Objects.equals. */
  method NewUntilValue<T(==)>(iter: Cursor<T>, value: T) returns (it: ExclusiveTerminalIterator<T>)
    requires iter.Valid()
    ensures fresh(it) && it.Valid()
    ensures it.upstream == iter && it.origin == iter.pos && it.produced == []
    ensures forall x :: it.terminal(x) <==> x == value
  {
    it := new ExclusiveTerminalIterator(iter, x => x == value);
  }

  /** until(null): the output stops at the first null element. */
  lemma UntilNullStopsAtFirstNull<U>(s: seq<Option<U>>, k: nat)
    requires k < |s| && s[k] == None
    requires forall i :: 0 <= i < k ==> s[i] != None
    ensures TakeUntil(x => x == None, s) == s[..k]
  {
    var t := TakeUntil(x => x == None, s);
    TakeUntilIsLongest(x => x == None, s, s[..k]);
  }
}
