/** The orderings the entry types use: a natural order with nulls first,
    and key-then-value comparison of entries. A comparator returns a
    negative, zero or positive int. */
module Comparing {
  import opened Wrappers

  function Sign(x: int): int
  {
    if x < 0 then -1 else if x > 0 then 1 else 0
  }

  /** Swapping the arguments flips the sign of the answer. */
  ghost predicate Antisymmetric<T(!new)>(cmp: (T, T) -> int)
  {
    forall a, b :: Sign(cmp(a, b)) == -Sign(cmp(b, a))
  }

  /** The order is consistent with equality. */
  ghost predicate ZeroIffEqual<T(!new)>(cmp: (T, T) -> int)
  {
    forall a, b :: cmp(a, b) == 0 <==> a == b
  }

  /** Strictly smaller is transitive. */
  ghost predicate Transitive<T(!new)>(cmp: (T, T) -> int)
  {
    forall a, b, c :: cmp(a, b) < 0 && cmp(b, c) < 0 ==> cmp(a, c) < 0
  }

  ghost predicate TotalOrder<T(!new)>(cmp: (T, T) -> int)
  {
    Antisymmetric(cmp) && ZeroIffEqual(cmp) && Transitive(cmp)
  }

  /** Comparator.nullsFirst(naturalOrder()): null is below every value and
      equal to null; two values compare by the natural order. */
  function NullsFirst<T>(cmp: (T, T) -> int, a: Option<T>, b: Option<T>): int
  {
    match (a, b)
    case (None, None) => 0
    case (None, Some(_)) => -1
    case (Some(_), None) => 1
    case (Some(x), Some(y)) => cmp(x, y)
  }

  /** comparing(getKey, nullsFirst).thenComparing(getValue, nullsFirst). */
  function KeyThenValue<K, V>(ck: (K, K) -> int, cv: (V, V) -> int,
                              k1: Option<K>, v1: Option<V>, k2: Option<K>, v2: Option<V>): int
  {
    var c := NullsFirst(ck, k1, k2);
    if c != 0 then c else NullsFirst(cv, v1, v2)
  }

  /** Adding null as a least element keeps a total order total. */
  lemma NullsFirstTotalOrder<T(!new)>(cmp: (T, T) -> int, a: Option<T>, b: Option<T>, c: Option<T>)
    requires TotalOrder(cmp)
    ensures Sign(NullsFirst(cmp, a, b)) == -Sign(NullsFirst(cmp, b, a))
    ensures NullsFirst(cmp, a, b) == 0 <==> a == b
    ensures NullsFirst(cmp, a, b) < 0 && NullsFirst(cmp, b, c) < 0 ==> NullsFirst(cmp, a, c) < 0
  {
  }

  /** A null key sorts before every non-null key, whatever the values. */
  lemma NullKeyFirst<K, V>(ck: (K, K) -> int, cv: (V, V) -> int, v1: Option<V>, k2: K, v2: Option<V>)
    ensures KeyThenValue(ck, cv, None, v1, Some(k2), v2) < 0
    ensures KeyThenValue(ck, cv, Some(k2), v2, None, v1) > 0
  {
  }

  /** Key-then-value comparison is a total order on entries when both
      natural orders are: it flips sign with its arguments, is zero exactly
      on equal entries, and is transitive. */
  lemma KeyThenValueTotalOrder<K(!new), V(!new)>(
    ck: (K, K) -> int, cv: (V, V) -> int,
    k1: Option<K>, v1: Option<V>, k2: Option<K>, v2: Option<V>, k3: Option<K>, v3: Option<V>)
    requires TotalOrder(ck) && TotalOrder(cv)
    ensures Sign(KeyThenValue(ck, cv, k1, v1, k2, v2)) == -Sign(KeyThenValue(ck, cv, k2, v2, k1, v1))
    ensures KeyThenValue(ck, cv, k1, v1, k2, v2) == 0 <==> k1 == k2 && v1 == v2
    ensures KeyThenValue(ck, cv, k1, v1, k2, v2) < 0 && KeyThenValue(ck, cv, k2, v2, k3, v3) < 0
            ==> KeyThenValue(ck, cv, k1, v1, k3, v3) < 0
  {
    NullsFirstTotalOrder(ck, k1, k2, k3);
    NullsFirstTotalOrder(ck, k2, k1, k3);
    NullsFirstTotalOrder(cv, v1, v2, v3);
    NullsFirstTotalOrder(cv, v2, v1, v3);
    if KeyThenValue(ck, cv, k1, v1, k2, v2) < 0 && KeyThenValue(ck, cv, k2, v2, k3, v3) < 0 {
      NullsFirstTotalOrder(ck, k1, k3, k2);
      NullsFirstTotalOrder(ck, k2, k3, k1);
    }
  }
}
