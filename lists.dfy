/** org.d2ab.collection.Lists: create, and the seeded in-place shuffle of a
    random-access list. A random-access list is an array here; the
    generator's answers to nextInt(j) are given as the sequence draws. */
module Lists {

  /** s with positions i and j exchanged. */
  function SwapAt<T>(s: seq<T>, i: nat, j: nat): (r: seq<T>)
    requires i < |s| && j < |s|
    ensures |r| == |s|
  {
    s[i := s[j]][j := s[i]]
  }

  /** What draw i may be: nextInt(j) answers in [0, j), and the loop asks
      with j = |s| - i. */
  predicate DrawsInRange(draws: seq<int>, n: nat)
  {
    |draws| >= n - 1 && forall i :: 0 <= i < n - 1 ==> 0 <= draws[i] < n - i
  }

  /** The list after the swaps of iterations k, k + 1, ..., |s| - 2: each
      exchanges position i with position i + draws[i]. */
  function Shuffled<T>(s: seq<T>, draws: seq<int>, k: nat): (r: seq<T>)
    requires DrawsInRange(draws, |s|)
    ensures |r| == |s|
    decreases |s| - k
  {
    if k + 1 >= |s| then s
    else Shuffled(SwapAt(s, k, draws[k] + k), draws, k + 1)
  }

  /** A shuffle only moves elements around: same length, same multiset. */
  lemma {:induction false} ShuffledPermutes<T>(s: seq<T>, draws: seq<int>, k: nat)
    requires DrawsInRange(draws, |s|)
    ensures multiset(Shuffled(s, draws, k)) == multiset(s)
    decreases |s| - k
  {
    if k + 1 < |s| {
      var t := SwapAt(s, k, draws[k] + k);
      SwapPermutes(s, k, draws[k] + k);
      ShuffledPermutes(t, draws, k + 1);
    }
  }

  lemma SwapPermutes<T>(s: seq<T>, i: nat, j: nat)
    requires i < |s| && j < |s|
    ensures multiset(SwapAt(s, i, j)) == multiset(s)
  {
    var t := s[i := s[j]];
    assert multiset(t) == multiset(s) - multiset{s[i]} + multiset{s[j]};
    assert multiset(t[j := s[i]]) == multiset(t) - multiset{t[j]} + multiset{s[i]};
  }

  /** Iterations from k on never touch a position below k: once iteration
      i is done, position i is final. */
  lemma {:induction false} ShuffledKeepsPrefix<T>(s: seq<T>, draws: seq<int>, k: nat)
    requires DrawsInRange(draws, |s|)
    ensures k <= |s| ==> Shuffled(s, draws, k)[..k] == s[..k]
    decreases |s| - k
  {
    if k + 1 < |s| {
      var t := SwapAt(s, k, draws[k] + k);
      ShuffledKeepsPrefix(t, draws, k + 1);
      assert t[..k] == s[..k];
      assert Shuffled(s, draws, k)[..k] == Shuffled(t, draws, k + 1)[..k + 1][..k];
    }
  }

  /** Lists of size 0 or 1 are left as they are. */
  lemma ShortListsUnchanged<T>(s: seq<T>, draws: seq<int>)
    requires |s| <= 1
    ensures DrawsInRange(draws, |s|) && Shuffled(s, draws, 0) == s
  {
  }

  /** Lists.shuffle(list, random) on a random-access list: for i from 0 to
      size - 2, exchange position i with i + nextInt(size - i) unless that
      is i itself; returns the list it was given. */
  method Shuffle<T>(list: array<T>, draws: seq<int>) returns (r: array<T>)
    requires DrawsInRange(draws, list.Length)
    modifies list
    ensures r == list
    ensures list[..] == Shuffled(old(list[..]), draws, 0)
  {
    var size := list.Length;
    var i, j := 0, size;
    while i < size - 1
      invariant 0 <= i <= if size == 0 then 0 else size - 1
      invariant j == size - i
      invariant Shuffled(list[..], draws, i) == Shuffled(old(list[..]), draws, 0)
    {
      var randomIndex := draws[i] + i;
      ghost var before := list[..];
      if randomIndex != i {
        var temp := list[randomIndex];
        list[randomIndex] := list[i];
        list[i] := temp;
      }
      assert list[..] == SwapAt(before, i, randomIndex);
      i, j := i + 1, j - 1;
    }
    r := list;
  }

  /** Lists.create(items...): a new mutable list of the items in order. */
  method Create<T>(items: seq<T>) returns (list: array<T>)
    ensures fresh(list)
    ensures list[..] == items
  {
    list := new T[|items|](i requires 0 <= i < |items| => items[i]);
  }
}
