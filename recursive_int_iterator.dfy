/** RecursiveIntIterator: the endless sequence seed, op(seed), op(op(seed)), ... */
module RecursiveIntIterators {

  /** op applied k times to seed. */
  function Iterate(op: int -> int, seed: int, k: nat): int
  {
    if k == 0 then seed else op(Iterate(op, seed, k - 1))
  }

  /** The first n values of the recursion, built by feeding each value to op. */
  function Recurse(op: int -> int, seed: int, n: nat): (r: seq<int>)
    ensures |r| == n
    ensures n > 0 ==> r[0] == seed
    ensures forall i :: 0 < i < n ==> r[i] == op(r[i - 1])
  {
    if n == 0 then [] else if n == 1 then [seed] else
      var prefix := Recurse(op, seed, n - 1);
      prefix + [op(prefix[n - 2])]
  }

  /** The k-th value of the recursion is op applied k times to the seed. */
  lemma {:induction false} RecurseAt(op: int -> int, seed: int, n: nat, k: nat)
    requires k < n
    ensures Recurse(op, seed, n)[k] == Iterate(op, seed, k)
  {
    if k > 0 {
      RecurseAt(op, seed, n, k - 1);
    }
  }

  /** recurse(1, i -> i + 1) counts up from one. */
  lemma {:induction false} CountingUp(n: nat, k: nat)
    requires k < n
    ensures Recurse(i => i + 1, 1, n)[k] == k + 1
  {
    RecurseAt(i => i + 1, 1, n, k);
    IterateSuccessor(1, k);
  }

  lemma {:induction false} IterateSuccessor(seed: int, k: nat)
    ensures Iterate(i => i + 1, seed, k) == seed + k
  {
    if k > 0 {
      IterateSuccessor(seed, k - 1);
    }
  }

  class RecursiveIntIterator {
    const seed: int
    const op: int -> int
    /** The value last returned. */
    var previous: int
    /** Whether a value has been returned yet. */
    var hasPrevious: bool
    /** The values returned so far. */
    ghost var produced: seq<int>

    ghost predicate Valid()
      reads this
    {
      && (hasPrevious <==> produced != [])
      && produced == Recurse(op, seed, |produced|)
      && (hasPrevious ==> previous == produced[|produced| - 1])
    }

    constructor (seed: int, op: int -> int)
      ensures Valid() && this.seed == seed && this.op == op
      ensures !hasPrevious && produced == []
    {
      this.seed := seed;
      this.op := op;
      previous := 0;
      hasPrevious := false;
      produced := [];
    }

    /** There is always a next value. */
    method HasNext() returns (b: bool)
      ensures b
    {
      b := true;
    }

    method NextInt() returns (r: int)
      requires Valid()
      modifies this
      ensures Valid()
      ensures produced == old(produced) + [r]
      ensures r == Iterate(op, seed, |old(produced)|)
      ensures !old(hasPrevious) ==> r == seed
      ensures hasPrevious && previous == r
    {
      previous := if hasPrevious then op(previous) else seed;
      hasPrevious := true;
      produced := produced + [previous];
      r := previous;
      RecurseAt(op, seed, |produced|, |produced| - 1);
    }
  }
}
