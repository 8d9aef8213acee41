/** org.d2ab.util.Entries: the immutable entry that Entries.of builds
    (Entries.EntryImpl), and helpers that put an entry into a map and map
    an entry's key and value. */
module Entries {
  import opened Wrappers
  import opened Comparing
  import opened EntryObjects
  import opened Hashing
  import opened JavaMaps
  import Pairs

  datatype EntryImpl<K, V> = EntryImpl(key: Option<K>, value: Option<V>)

  /** Entries.of: an entry whose key and value are exactly those given,
      nulls allowed. */
  function Of<K, V>(key: Option<K>, value: Option<V>): (e: EntryImpl<K, V>)
    ensures AsObject(e).key == key && AsObject(e).value == value
  {
    EntryImpl(key, value)
  }

  function AsObject<K, V>(e: EntryImpl<K, V>): JavaObject<K, V>
  {
    EntryObject(EntriesEntryClass, e.key, e.value)
  }

  /** EntryImpl.equals: true for any Map.Entry, of whichever class, whose
      key and value are null-safe equal to this entry's. */
  function Equals<K(==), V(==)>(e: EntryImpl<K, V>, o: JavaObject<K, V>): (b: bool)
    ensures b <==> exists cls :: o == EntryObject(cls, e.key, e.value)
  {
    match o
    case NonEntry => false
    case EntryObject(cls, key, value) =>
      assert o == EntryObject(cls, e.key, e.value) <== key == e.key && value == e.value;
      key == e.key && value == e.value
  }

  /** EntryImpl.hashCode: 31 * hash(key) + hash(value), null hashing to 0. */
  function HashCode<K, V>(e: EntryImpl<K, V>, hk: K -> int, hv: V -> int): (h: int)
    ensures IsInt32(h)
    ensures h == Pairs.HashCode(Pairs.Of(e.key, e.value), hk, hv)
  {
    EntryHash(hk, hv, e.key, e.value)
  }

  /** EntryImpl.setValue is not supported. */
  function SetValue<K, V>(e: EntryImpl<K, V>, value: Option<V>): (r: Result<Option<V>>)
    ensures r == Err(UnsupportedOperation)
  {
    Err(UnsupportedOperation)
  }

  /** EntryImpl.compareTo: against any Map.Entry, by key, then by value,
      each in the natural order with null first. */
  function CompareTo<K, V>(ck: (K, K) -> int, cv: (V, V) -> int, e: EntryImpl<K, V>, that: JavaObject<K, V>): (r: int)
    requires that.EntryObject?
    ensures r == Pairs.CompareTo(ck, cv, Pairs.Of(e.key, e.value), Pairs.From(that))
    ensures e.key == None && that.key != None ==> r < 0
    ensures e.key != None && that.key == None ==> r > 0
  {
    KeyThenValue(ck, cv, e.key, e.value, that.key, that.value)
  }

  /** Entries.put: stores the entry's key -> value in the map and returns
      that same map. */
  method Put<K, V>(result: MapObject<K, V>, each: JavaObject<K, V>) returns (r: MapObject<K, V>)
    requires each.EntryObject?
    modifies result
    ensures r == result
    ensures result.contents == old(result.contents)[each.key := each.value]
  {
    var _ := result.Put(each.key, each.value);
    r := result;
  }

  /** Entries.asFunction(keyMapper, valueMapper): the function taking an
      entry to a new entry of the mapped key and the mapped value. */
  function AsFunction<K(!new), V(!new), KK, VV>(keyMapper: Option<K> -> Option<KK>, valueMapper: Option<V> -> Option<VV>)
    : (f: JavaObject<K, V> --> EntryImpl<KK, VV>)
    ensures forall entry: JavaObject<K, V> | entry.EntryObject? ::
              f.requires(entry) && AsObject(f(entry)).key == keyMapper(entry.key)
              && AsObject(f(entry)).value == valueMapper(entry.value)
  {
    var f := (entry: JavaObject<K, V>) requires entry.EntryObject? => Of(keyMapper(entry.key), valueMapper(entry.value));
    f
  }

  /** Equal entries hash equally, and the hash is that of every entry
      class of the library: an entry equal to a Pair or to a Maps entry
      hashes like it. */
  lemma HashConsistentWithEquals<K, V>(e: EntryImpl<K, V>, o: JavaObject<K, V>, hk: K -> int, hv: V -> int)
    requires Equals(e, o)
    ensures o.EntryObject? && HashCode(e, hk, hv) == EntryHash(hk, hv, o.key, o.value)
  {
  }

  /** compareTo is zero exactly on the entries equals accepts, when the
      natural orders of keys and values are total orders; a null key sorts
      first. */
  lemma CompareToConsistentWithEquals<K(!new), V(!new)>(ck: (K, K) -> int, cv: (V, V) -> int,
                                                        e: EntryImpl<K, V>, that: JavaObject<K, V>)
    requires TotalOrder(ck) && TotalOrder(cv)
    requires that.EntryObject?
    ensures CompareTo(ck, cv, e, that) == 0 <==> Equals(e, that)
    ensures e.key == None && that.key != None ==> CompareTo(ck, cv, e, that) < 0
  {
    KeyThenValueTotalOrder(ck, cv, e.key, e.value, that.key, that.value, that.key, that.value);
  }

  /** asFunction maps key and value independently: identity mappers give
      an entry equal to the input, and mapping twice is mapping once with
      the composed mappers. */
  lemma AsFunctionIdentity<K(!new), V(!new)>(entry: JavaObject<K, V>)
    requires entry.EntryObject?
    ensures Equals(AsFunction((k: Option<K>) => k, (v: Option<V>) => v)(entry), entry)
  {
    var keyMapper, valueMapper := (k: Option<K>) => k, (v: Option<V>) => v;
    assert keyMapper(entry.key) == entry.key && valueMapper(entry.value) == entry.value;
    assert AsFunction(keyMapper, valueMapper)(entry) == Of(keyMapper(entry.key), valueMapper(entry.value));
  }

  lemma AsFunctionComposes<K(!new), V(!new), K1(!new), V1(!new), K2, V2>(entry: JavaObject<K, V>,
                                                 k1: Option<K> -> Option<K1>, v1: Option<V> -> Option<V1>,
                                                 k2: Option<K1> -> Option<K2>, v2: Option<V1> -> Option<V2>)
    requires entry.EntryObject?
    ensures AsFunction(k2, v2)(AsObject(AsFunction(k1, v1)(entry)))
            == AsFunction(x => k2(k1(x)), y => v2(v1(y)))(entry)
  {
  }

  /** An entry of Entries.of equals the Pair of the same key and value,
      but the Pair does not equal it back: Pair.equals accepts only Pairs. */
  lemma EqualsAsymmetricWithPair<K, V>(key: Option<K>, value: Option<V>)
    ensures Equals(Of(key, value), Pairs.AsObject(Pairs.Of(key, value)))
    ensures !Pairs.Equals(Pairs.Of(key, value), AsObject(Of(key, value)))
  {
  }
}
