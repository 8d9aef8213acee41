/** InterleavingCharIterator: takes one char from each source iterator in
    turn, skipping sources that have run dry. */
module InterleavingCharIterators {
  import opened Wrappers

  /** The source after c in round-robin order. */
  function Advance(c: nat, n: nat): (r: nat)
    requires c < n
    ensures r < n
    ensures r == if c + 1 < n then c + 1 else 0
  {
    (c + 1) % n
  }

  /** How many round-robin steps lead from source c to source j. */
  function Dist(c: nat, j: nat, n: nat): (d: nat)
    requires c < n && j < n
    ensures d < n
  {
    if c <= j then j - c else j + n - c
  }

  ghost predicate AllEmpty<T>(rests: seq<seq<T>>)
  {
    forall i :: 0 <= i < |rests| ==> rests[i] == []
  }

  /** The number of elements left over all sources. */
  function Total<T>(rests: seq<seq<T>>): nat
  {
    if rests == [] then 0 else |rests[0]| + Total(rests[1..])
  }

  lemma {:induction false} TotalTake<T>(rests: seq<seq<T>>, k: nat)
    requires k < |rests| && rests[k] != []
    ensures Total(rests[k := rests[k][1..]]) == Total(rests) - 1
  {
    if k > 0 {
      TotalTake(rests[1..], k - 1);
      assert rests[k := rests[k][1..]][1..] == rests[1..][k - 1 := rests[k][1..]];
    }
  }

  /** The skip loop of nextChar: from c, step past exhausted sources, for at
      most fuel steps. */
  function Seek<T>(rests: seq<seq<T>>, c: nat, fuel: nat): (k: nat)
    requires c < |rests|
    ensures k < |rests|
    decreases fuel
  {
    if fuel == 0 || rests[c] != [] then c else Seek(rests, Advance(c, |rests|), fuel - 1)
  }

  lemma {:induction false} SeekFinds<T>(rests: seq<seq<T>>, c: nat, j: nat, fuel: nat)
    requires c < |rests| && j < |rests| && rests[j] != []
    requires Dist(c, j, |rests|) <= fuel
    ensures rests[Seek(rests, c, fuel)] != []
    decreases fuel
  {
    if rests[c] == [] {
      SeekFinds(rests, Advance(c, |rests|), j, fuel - 1);
    }
  }

  /** One turn of the skip loop: past an exhausted source, the search goes
      on from the next one, one step further from where it started. */
  lemma SeekStep<T>(rests: seq<seq<T>>, c0: nat, c: nat, j: nat)
    requires c0 < |rests| && c < |rests| && j < |rests|
    requires rests[c] == [] && rests[j] != []
    requires Dist(c0, c, |rests|) <= Dist(c0, j, |rests|)
    ensures Dist(c0, Advance(c, |rests|), |rests|) == Dist(c0, c, |rests|) + 1 <= Dist(c0, j, |rests|)
    ensures Seek(rests, c, |rests| - Dist(c0, c, |rests|))
         == Seek(rests, Advance(c, |rests|), |rests| - Dist(c0, Advance(c, |rests|), |rests|))
  {
  }

  /** With some source non-empty, the skip loop stops at a non-empty one. */
  lemma SeekFindsSome<T>(rests: seq<seq<T>>, c: nat)
    requires c < |rests| && !AllEmpty(rests)
    ensures rests[Seek(rests, c, |rests|)] != []
  {
    var j :| 0 <= j < |rests| && rests[j] != [];
    SeekFinds(rests, c, j, |rests|);
  }

  /** The full output from the remaining source contents and the current
      index, each char tagged with the index of the source it came from. */
  ghost function Interleave<T>(rests: seq<seq<T>>, c: nat): seq<(nat, T)>
    requires c < |rests| || c == 0
    decreases Total(rests)
  {
    if AllEmpty(rests) then []
    else
      SeekFindsSome(rests, c);
      var k := Seek(rests, c, |rests|);
      TotalTake(rests, k);
      [(k, rests[k][0])] + Interleave(rests[k := rests[k][1..]], Advance(k, |rests|))
  }

  /** One step of the output: the char at the source the skip loop finds,
      then the output of what is left, from the next source on. */
  lemma InterleaveUnfold<T>(rests: seq<seq<T>>, c: nat, k: nat)
    requires c < |rests| && !AllEmpty(rests) && k == Seek(rests, c, |rests|)
    ensures rests[k] != []
    ensures Interleave(rests, c)
         == [(k, rests[k][0])] + Interleave(rests[k := rests[k][1..]], Advance(k, |rests|))
  {
    SeekFindsSome(rests, c);
  }

  /** Taking the next char keeps the chars returned so far, followed by the
      output of what is left, equal to the whole output. */
  lemma NextKeepsOutput<T>(trace: seq<(nat, T)>, rests: seq<seq<T>>, whole: seq<(nat, T)>, c: nat, k: nat)
    requires c < |rests| && !AllEmpty(rests) && k == Seek(rests, c, |rests|)
    requires trace + Interleave(rests, c) == whole
    ensures rests[k] != [] && Interleave(rests, c) != []
    ensures Interleave(rests, c)[0] == (k, rests[k][0])
    ensures trace + [(k, rests[k][0])] + Interleave(rests[k := rests[k][1..]], Advance(k, |rests|)) == whole
  {
    InterleaveUnfold(rests, c, k);
  }

  /** The chars of a tagged output that came from source i. */
  function Project<T>(trace: seq<(nat, T)>, i: nat): seq<T>
  {
    if trace == [] then []
    else (if trace[0].0 == i then [trace[0].1] else []) + Project(trace[1..], i)
  }

  /** Each source's chars appear in the output exactly once each, in that
      source's order. */
  lemma {:induction false} InterleaveKeepsEachSource<T>(rests: seq<seq<T>>, c: nat, i: nat)
    requires c < |rests| || c == 0
    requires i < |rests|
    ensures Project(Interleave(rests, c), i) == rests[i]
    decreases Total(rests)
  {
    if !AllEmpty(rests) {
      SeekFindsSome(rests, c);
      var k := Seek(rests, c, |rests|);
      TotalTake(rests, k);
      var next := rests[k := rests[k][1..]];
      var tail := Interleave(next, Advance(k, |rests|));
      var out := [(k, rests[k][0])] + tail;
      assert Interleave(rests, c) == out;
      assert out[0] == (k, rests[k][0]) && out[1..] == tail;
      InterleaveKeepsEachSource(next, Advance(k, |rests|), i);
      if i == k {
        assert rests[k] == [rests[k][0]] + rests[k][1..];
      }
    }
  }

  /** The output holds nothing but the sources' chars: one entry per char
      left, each tagged with the index of an existing source. */
  lemma {:induction false} InterleaveCoversSources<T>(rests: seq<seq<T>>, c: nat)
    requires c < |rests| || c == 0
    ensures |Interleave(rests, c)| == Total(rests)
    ensures forall t :: t in Interleave(rests, c) ==> t.0 < |rests|
    decreases Total(rests)
  {
    if AllEmpty(rests) {
      AllEmptyTotal(rests);
    } else {
      SeekFindsSome(rests, c);
      var k := Seek(rests, c, |rests|);
      TotalTake(rests, k);
      var next := rests[k := rests[k][1..]];
      InterleaveCoversSources(next, Advance(k, |rests|));
      assert Interleave(rests, c) == [(k, rests[k][0])] + Interleave(next, Advance(k, |rests|));
    }
  }

  /** With every source exhausted nothing is left. */
  lemma {:induction false} AllEmptyTotal<T>(rests: seq<seq<T>>)
    requires AllEmpty(rests)
    ensures Total(rests) == 0
  {
    if rests != [] {
      AllEmptyTotal(rests[1..]);
    }
  }

  /** A source iterator: the chars of its iterable and the position of the
      next one. The source iterators are created by the interleaving
      iterator and never leave it, so it holds them as values. */
  datatype CharCursor = CharCursor(elems: seq<char>, pos: nat)
  {
    function HasNext(): bool
    {
      pos < |elems|
    }

    /** nextChar on the source: its next char and the advanced iterator. */
    function NextChar(): (r: (char, CharCursor))
      requires HasNext()
      ensures r.1.elems == elems && r.1.pos == pos + 1
    {
      (elems[pos], CharCursor(elems, pos + 1))
    }
  }

  /** What each source iterator has left. */
  ghost function RestsOf(cursors: seq<CharCursor>): (r: seq<seq<char>>)
    requires forall i :: 0 <= i < |cursors| ==> cursors[i].pos <= |cursors[i].elems|
    ensures |r| == |cursors|
    ensures forall i :: 0 <= i < |cursors| ==> r[i] == cursors[i].elems[cursors[i].pos..]
  {
    seq(|cursors|, i requires 0 <= i < |cursors| => cursors[i].elems[cursors[i].pos..])
  }

  /** Stepping source k on by one char takes the first char off what it
      has left and leaves the other sources as they were. */
  lemma RestsAfterStep(cursors: seq<CharCursor>, k: nat)
    requires forall i :: 0 <= i < |cursors| ==> cursors[i].pos <= |cursors[i].elems|
    requires k < |cursors| && cursors[k].HasNext()
    ensures var next := cursors[k := CharCursor(cursors[k].elems, cursors[k].pos + 1)];
            && (forall i :: 0 <= i < |next| ==> next[i].pos <= |next[i].elems| && next[i].elems == cursors[i].elems)
            && RestsOf(next) == RestsOf(cursors)[k := RestsOf(cursors)[k][1..]]
  {
    var next := cursors[k := CharCursor(cursors[k].elems, cursors[k].pos + 1)];
    var e := cursors[k].elems;
    assert e[cursors[k].pos..][1..] == e[cursors[k].pos + 1..];
  }

  /** One call of nextChar on the sources' iterators: the char of the
      source the skip loop finds is the first of the output still to come,
      and the chars returned so far, that char and the output from the
      stepped iterators on make up the same whole output. */
  lemma StepKeepsOutput(trace: seq<(nat, char)>, cursors: seq<CharCursor>, whole: seq<(nat, char)>, c: nat, k: nat)
    requires forall i :: 0 <= i < |cursors| ==> cursors[i].pos <= |cursors[i].elems|
    requires c < |cursors| && !AllEmpty(RestsOf(cursors)) && k == Seek(RestsOf(cursors), c, |cursors|)
    requires trace + Interleave(RestsOf(cursors), c) == whole
    ensures cursors[k].HasNext()
    ensures var x := cursors[k].elems[cursors[k].pos];
            var next := cursors[k := CharCursor(cursors[k].elems, cursors[k].pos + 1)];
            && Interleave(RestsOf(cursors), c) != []
            && Interleave(RestsOf(cursors), c)[0] == (k, x)
            && (forall i :: 0 <= i < |next| ==> next[i].pos <= |next[i].elems| && next[i].elems == cursors[i].elems)
            && trace + [(k, x)] + Interleave(RestsOf(next), Advance(k, |cursors|)) == whole
  {
    var rests := RestsOf(cursors);
    NextKeepsOutput(trace, rests, whole, c, k);
    RestsAfterStep(cursors, k);
  }

  /** The constructor's loop: a new iterator at the start of each
      iterable, in argument order. */
  method StartCursors(iterables: seq<seq<char>>) returns (its: seq<CharCursor>)
    ensures |its| == |iterables|
    ensures forall m :: 0 <= m < |iterables| ==> its[m] == CharCursor(iterables[m], 0)
  {
    its := [];
    var i := 0;
    while i < |iterables|
      invariant i <= |iterables| && |its| == i
      invariant forall m :: 0 <= m < i ==> its[m] == CharCursor(iterables[m], 0)
    {
      its := its + [CharCursor(iterables[i], 0)];
      i := i + 1;
    }
  }

  class InterleavingCharIterator {
    var iterators: seq<CharCursor>
    var current: nat
    /** The contents of the sources when this iterator was created. */
    ghost const sources: seq<seq<char>>
    /** The chars returned so far, tagged with their source. */
    ghost var trace: seq<(nat, char)>

    /** One source iterator per source, and current in range. */
    ghost predicate WellFormed()
      reads this
    {
      && |iterators| == |sources|
      && (forall i :: 0 <= i < |iterators| ==>
            iterators[i].pos <= |iterators[i].elems| && iterators[i].elems == sources[i])
      && (current < |iterators| || current == 0)
    }

    /** The output still to come. */
    ghost function Remaining(): seq<(nat, char)>
      reads this
      requires WellFormed()
    {
      Interleave(RestsOf(iterators), current)
    }

    /** The chars returned so far, then the output still to come, make up
        the output of the original sources. */
    ghost predicate Valid()
      reads this
    {
      && WellFormed()
      && trace + Remaining() == Interleave(sources, 0)
    }

    /** One source iterator per iterable, in argument order. */
    constructor (iterables: seq<seq<char>>)
      ensures Valid() && sources == iterables && current == 0 && trace == []
      ensures RestsOf(iterators) == iterables
    {
      var its := StartCursors(iterables);
      assert RestsOf(its) == iterables;
      iterators := its;
      sources := iterables;
      current := 0;
      trace := [];
    }

    method HasNext() returns (b: bool)
      requires Valid()
      ensures b <==> !AllEmpty(RestsOf(iterators))
      ensures b <==> Remaining() != []
    {
      var i := 0;
      while i < |iterators|
        invariant i <= |iterators|
        invariant forall m :: 0 <= m < i ==> RestsOf(iterators)[m] == []
      {
        if iterators[i].HasNext() {
          assert RestsOf(iterators)[i] != [];
          return true;
        }
        i := i + 1;
      }
      return false;
    }

    method NextChar() returns (r: Result<char>)
      requires Valid()
      modifies this
      ensures Valid()
      ensures r.Ok? <==> old(Remaining()) != []
      ensures r.Ok? ==> && trace == old(trace) + [old(Remaining())[0]]
                        && r.value == old(Remaining())[0].1
      ensures r.Err? ==> r.error == NoSuchElement && unchanged(this)
    {
      var has := HasNext();
      if !has {
        return Err(NoSuchElement);
      }
      var x := TakeNext();
      r := Ok(x);
    }

    /** nextChar once hasNext() holds: skip the exhausted sources, take a
        char from the one found and move on to the next source. */
    method TakeNext() returns (x: char)
      requires Valid() && !AllEmpty(RestsOf(iterators))
      modifies this
      ensures Valid()
      ensures old(Remaining()) != [] && x == old(Remaining())[0].1
      ensures trace == old(trace) + [old(Remaining())[0]]
    {
      ghost var c0 := current;
      SkipExhausted();
      var k := current;
      StepKeepsOutput(trace, iterators, Interleave(sources, 0), c0, k);
      var it := iterators[current];
      AdvanceCurrent();
      var step := it.NextChar();
      x := step.0;
      iterators := iterators[k := step.1];
      trace := trace + [(k, x)];
    }

    /** The skip loop of nextChar: with some source non-empty, advance past
        the exhausted ones. */
    method SkipExhausted()
      requires WellFormed() && !AllEmpty(RestsOf(iterators))
      modifies this
      ensures WellFormed() && trace == old(trace) && iterators == old(iterators)
      ensures current == Seek(RestsOf(iterators), old(current), |iterators|)
    {
      ghost var rests := RestsOf(iterators);
      ghost var n := |iterators|;
      ghost var c0 := current;
      ghost var j :| 0 <= j < n && rests[j] != [];
      while !iterators[current].HasNext()
        invariant iterators == old(iterators) && trace == old(trace)
        invariant current < n && Dist(c0, current, n) <= Dist(c0, j, n)
        invariant Seek(rests, current, n - Dist(c0, current, n)) == Seek(rests, c0, n)
        decreases Dist(c0, j, n) - Dist(c0, current, n)
      {
        SeekStep(rests, c0, current, j);
        AdvanceCurrent();
      }
    }

    /** advance(): the next source in round-robin order. */
    method AdvanceCurrent()
      requires |iterators| > 0 && current < |iterators|
      modifies this
      ensures iterators == old(iterators) && trace == old(trace)
      ensures current == Advance(old(current), |iterators|)
    {
      current := (current + 1) % |iterators|;
    }
  }

  /** The constructor's null checks: a null iterable throws
      NullPointerException before any iterator exists. */
  method NewInterleaving(iterables: seq<Option<seq<char>>>) returns (r: Result<InterleavingCharIterator>)
    ensures r.Err? <==> exists i :: 0 <= i < |iterables| && iterables[i] == None
    ensures r.Err? ==> r.error == NullPointer
    ensures r.Ok? ==> && fresh(r.value) && r.value.Valid() && r.value.trace == []
                      && r.value.sources == seq(|iterables|, i requires 0 <= i < |iterables| => iterables[i].value)
  {
    var i := 0;
    while i < |iterables|
      invariant i <= |iterables|
      invariant forall m :: 0 <= m < i ==> iterables[m] != None
    {
      if iterables[i] == None {
        return Err(NullPointer);
      }
      i := i + 1;
    }
    var it := new InterleavingCharIterator(seq(|iterables|, i requires 0 <= i < |iterables| => iterables[i].value));
    r := Ok(it);
  }
}
