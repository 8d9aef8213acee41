/** org.d2ab.util.Pair: an immutable pair of two possibly-null objects,
    "left" and "right", which is also a Map.Entry whose key is the left
    side and whose value is the right side. Every Pair the library builds
    is a Pair.Base, whose equals, hashCode and compareTo are modelled here. */
module Pairs {
  import opened Wrappers
  import opened Comparing
  import opened EntryObjects
  import opened Hashing
  import opened JavaMaps

  datatype Pair<L, R> = Pair(left: Option<L>, right: Option<R>)

  /** Pair.of: the pair of the two objects given, nulls allowed. */
  function Of<L, R>(left: Option<L>, right: Option<R>): (r: Pair<L, R>)
    ensures AsObject(r).key == left && AsObject(r).value == right
  {
    Pair(left, right)
  }

  /** Pair.unary: both sides are the same object. */
  function Unary<T>(item: Option<T>): (r: Pair<T, T>)
    ensures AsObject(r).key == item && AsObject(r).value == item
    ensures Swap(r) == r
  {
    Pair(item, item)
  }

  /** Pair.from: the pair that reads the entry's key as left and its
      value as right. */
  function From<K, V>(entry: JavaObject<K, V>): (r: Pair<K, V>)
    requires entry.EntryObject?
    ensures AsObject(r).key == entry.key && AsObject(r).value == entry.value
    ensures entry.cls == PairClass ==> AsObject(r) == entry
  {
    Pair(entry.key, entry.value)
  }

  /** The pair seen as a Map.Entry: getKey is getLeft and getValue is
      getRight. */
  function AsObject<L, R>(p: Pair<L, R>): (o: JavaObject<L, R>)
    ensures o.EntryObject? && o.cls == PairClass
    ensures o.key == p.left && o.value == p.right
  {
    EntryObject(PairClass, p.left, p.right)
  }

  /** setValue is not supported. */
  function SetValue<L, R>(p: Pair<L, R>, value: Option<R>): (r: Result<Option<R>>)
    ensures r == Err(UnsupportedOperation)
  {
    Err(UnsupportedOperation)
  }

  /** swap: left and right exchanged. */
  function Swap<L, R>(p: Pair<L, R>): (r: Pair<R, L>)
    ensures AsObject(r).key == p.right && AsObject(r).value == p.left
  {
    Pair(p.right, p.left)
  }

  /** withLeft(x): x on the left, the right side kept. */
  function WithLeft<L, R, LL>(p: Pair<L, R>, left: Option<LL>): (r: Pair<LL, R>)
    ensures AsObject(r).key == left && AsObject(r).value == p.right
  {
    Pair(left, p.right)
  }

  /** withRight(x): the left side kept, x on the right. */
  function WithRight<L, R, RR>(p: Pair<L, R>, right: Option<RR>): (r: Pair<L, RR>)
    ensures AsObject(r).key == p.left && AsObject(r).value == right
  {
    Pair(p.left, right)
  }

  /** shiftRight(x): the left side moves right and x comes in on the left. */
  function ShiftRight<L, R, LL>(p: Pair<L, R>, replacement: Option<LL>): (r: Pair<LL, L>)
    ensures AsObject(r).key == replacement && AsObject(r).value == p.left
  {
    Pair(replacement, p.left)
  }

  /** shiftLeft(x): the right side moves left and x comes in on the right. */
  function ShiftLeft<L, R, RR>(p: Pair<L, R>, replacement: Option<RR>): (r: Pair<R, RR>)
    ensures AsObject(r).key == p.right && AsObject(r).value == replacement
  {
    Pair(p.right, replacement)
  }

  /** map(leftMapper, rightMapper): each side through its own mapper. */
  function Map<L, R, LL, RR>(p: Pair<L, R>, leftMapper: Option<L> -> Option<LL>,
                             rightMapper: Option<R> -> Option<RR>): (r: Pair<LL, RR>)
    ensures AsObject(r).key == leftMapper(p.left) && AsObject(r).value == rightMapper(p.right)
  {
    Pair(leftMapper(p.left), rightMapper(p.right))
  }

  /** Pair.Base.equals: true only for another Pair whose sides are
      null-safe equal to this one's. */
  function Equals<L(==), R(==)>(p: Pair<L, R>, o: JavaObject<L, R>): (b: bool)
    ensures b <==> o == AsObject(p)
  {
    match o
    case NonEntry => false
    case EntryObject(cls, key, value) =>
      if cls != PairClass then false
      else p.left == key && p.right == value
  }

  /** Pair.Base.hashCode: 31 * hash(left) + hash(right), null hashing to 0. */
  function HashCode<L, R>(p: Pair<L, R>, hl: L -> int, hr: R -> int): (h: int)
    ensures IsInt32(h)
    ensures h == EntryHash(hl, hr, AsObject(p).key, AsObject(p).value)
  {
    EntryHash(hl, hr, p.left, p.right)
  }

  /** Pair.Base.compareTo: by left side, then by right side, each in the
      natural order with null first. */
  function CompareTo<L, R>(cl: (L, L) -> int, cr: (R, R) -> int, p: Pair<L, R>, that: Pair<L, R>): (r: int)
    ensures NullsFirst(cl, p.left, that.left) != 0 ==> r == NullsFirst(cl, p.left, that.left)
    ensures NullsFirst(cl, p.left, that.left) == 0 ==> r == NullsFirst(cr, p.right, that.right)
    ensures p.left == None && that.left != None ==> r < 0
    ensures p.left != None && that.left == None ==> r > 0
  {
    KeyThenValue(cl, cr, p.left, p.right, that.left, that.right)
  }

  /** Pair.put: stores left -> right in the map and returns that map. */
  method Put<L, R>(p: Pair<L, R>, m: MapObject<L, R>) returns (r: MapObject<L, R>)
    modifies m
    ensures r == m
    ensures m.contents == old(m.contents)[p.left := p.right]
  {
    var _ := m.Put(p.left, p.right);
    r := m;
  }

  /** Swapping exchanges the sides, and swapping twice gives back a pair
      equal to the original. */
  lemma SwapInvolution<L, R>(p: Pair<L, R>)
    ensures AsObject(Swap(p)).key == p.right && AsObject(Swap(p)).value == p.left
    ensures Swap(Swap(p)) == p
    ensures Equals(Swap(Swap(p)), AsObject(p))
  {
  }

  /** Shifting right then left brings the old left side back where it was,
      and the reverse brings the old right side back. */
  lemma ShiftsUndo<L, R, X, Y>(p: Pair<L, R>, x: Option<X>, y: Option<Y>)
    ensures ShiftLeft(ShiftRight(p, x), y) == WithRight(p, y)
    ensures ShiftRight(ShiftLeft(p, x), y) == WithLeft(p, y)
    ensures ShiftRight(p, x) == Swap(WithRight(p, x))
    ensures ShiftLeft(p, x) == Swap(WithLeft(p, x))
  {
  }

  /** Mapping twice is mapping once with the composed mappers. */
  lemma MapComposes<L, R, L1, R1, L2, R2>(p: Pair<L, R>,
                                          f1: Option<L> -> Option<L1>, g1: Option<R> -> Option<R1>,
                                          f2: Option<L1> -> Option<L2>, g2: Option<R1> -> Option<R2>)
    ensures Map(Map(p, f1, g1), f2, g2) == Map(p, x => f2(f1(x)), y => g2(g1(y)))
  {
  }

  /** Equal pairs hash equally, whatever the element hashes. */
  lemma HashConsistentWithEquals<L, R>(p: Pair<L, R>, q: Pair<L, R>, hl: L -> int, hr: R -> int)
    requires Equals(p, AsObject(q))
    ensures HashCode(p, hl, hr) == HashCode(q, hl, hr)
  {
  }

  /** compareTo is a total order on pairs that agrees with equals, when
      the natural orders of both sides are total orders. */
  lemma CompareToTotalOrder<L(!new), R(!new)>(cl: (L, L) -> int, cr: (R, R) -> int,
                                              p: Pair<L, R>, q: Pair<L, R>, s: Pair<L, R>)
    requires TotalOrder(cl) && TotalOrder(cr)
    ensures Sign(CompareTo(cl, cr, p, q)) == -Sign(CompareTo(cl, cr, q, p))
    ensures CompareTo(cl, cr, p, q) == 0 <==> Equals(p, AsObject(q))
    ensures CompareTo(cl, cr, p, q) < 0 && CompareTo(cl, cr, q, s) < 0 ==> CompareTo(cl, cr, p, s) < 0
  {
    KeyThenValueTotalOrder(cl, cr, p.left, p.right, q.left, q.right, s.left, s.right);
  }

  /** A pair with a null left side sorts before every pair with a non-null
      left side. */
  lemma NullLeftFirst<L, R>(cl: (L, L) -> int, cr: (R, R) -> int, r1: Option<R>, l2: L, r2: Option<R>)
    ensures CompareTo(cl, cr, Pair(None, r1), Pair(Some(l2), r2)) < 0
  {
    NullKeyFirst(cl, cr, r1, l2, r2);
  }

  /** Pair.PairIterator: yields left, then right, then fails. */
  class PairIterator<T> {
    const pair: Pair<T, T>
    /** How many sides have been returned. */
    var index: nat
    ghost var produced: seq<Option<T>>

    ghost predicate Valid()
      reads this
    {
      index <= 2 && produced == [pair.left, pair.right][..index]
    }

    /** Pair.iterator(): a new iterator at the left side. */
    constructor (pair: Pair<T, T>)
      ensures Valid() && this.pair == pair && index == 0 && produced == []
    {
      this.pair := pair;
      index := 0;
      produced := [];
    }

    method HasNext() returns (b: bool)
      requires Valid()
      ensures b <==> |produced| < 2
    {
      b := index < 2;
    }

    method Next() returns (r: Result<Option<T>>)
      requires Valid()
      modifies this
      ensures Valid()
      ensures old(index) == 2 ==> r == Err(NoSuchElement) && unchanged(this)
      ensures old(index) < 2 ==> r.Ok? && produced == old(produced) + [r.value]
      ensures old(index) == 0 ==> r == Ok(pair.left)
      ensures old(index) == 1 ==> r == Ok(pair.right)
    {
      if index >= 2 {
        return Err(NoSuchElement);
      }
      index := index + 1;
      if index == 1 {
        r := Ok(pair.left);
      } else {
        r := Ok(pair.right);
      }
      produced := produced + [r.value];
    }
  }
}
