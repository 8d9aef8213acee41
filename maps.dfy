/** org.d2ab.collection.Maps: a builder that creates its map lazily and
    hands it over on build, an immutable entry (Maps.EntryImpl), the
    key-then-value entry comparator, and an iterator over an entry's key
    and value. Maps are HashMaps (the default constructor of Maps.builder). */
module Maps {
  import opened Wrappers
  import opened Comparing
  import opened EntryObjects
  import opened Hashing
  import opened JavaMaps
  import Pairs

  datatype MapEntry<K, V> = MapEntry(key: Option<K>, value: Option<V>)

  /** Maps.entry: an entry whose key and value are those given. */
  function Entry<K, V>(key: Option<K>, value: Option<V>): (e: MapEntry<K, V>)
    ensures AsObject(e).key == key && AsObject(e).value == value
  {
    MapEntry(key, value)
  }

  function AsObject<K, V>(e: MapEntry<K, V>): JavaObject<K, V>
  {
    EntryObject(MapsEntryClass, e.key, e.value)
  }

  /** EntryImpl.equals: true for any Map.Entry whose key and value are
      null-safe equal to this entry's. */
  function EntryEquals<K(==), V(==)>(e: MapEntry<K, V>, o: JavaObject<K, V>): (b: bool)
    ensures b <==> exists cls :: o == EntryObject(cls, e.key, e.value)
  {
    match o
    case NonEntry => false
    case EntryObject(cls, key, value) =>
      assert o == EntryObject(cls, e.key, e.value) <== key == e.key && value == e.value;
      key == e.key && value == e.value
  }

  /** EntryImpl.hashCode: 31 * hash(key) + hash(value), null hashing to 0. */
  function EntryHashCode<K, V>(e: MapEntry<K, V>, hk: K -> int, hv: V -> int): (h: int)
    ensures IsInt32(h)
    ensures h == Pairs.HashCode(Pairs.Of(e.key, e.value), hk, hv)
  {
    EntryHash(hk, hv, e.key, e.value)
  }

  /** EntryImpl.setValue is not supported. */
  function EntrySetValue<K, V>(e: MapEntry<K, V>, value: Option<V>): (r: Result<Option<V>>)
    ensures r == Err(UnsupportedOperation)
  {
    Err(UnsupportedOperation)
  }

  /** entryComparator(): two entries by key, then by value, each in the
      natural order with null first. EntryImpl.compareTo is this
      comparator with the entry itself on the left. */
  function EntryComparator<K, V>(ck: (K, K) -> int, cv: (V, V) -> int, a: JavaObject<K, V>, b: JavaObject<K, V>): (r: int)
    requires a.EntryObject? && b.EntryObject?
    ensures r == Pairs.CompareTo(ck, cv, Pairs.From(a), Pairs.From(b))
    ensures a.key == None && b.key != None ==> r < 0
    ensures a.key != None && b.key == None ==> r > 0
  {
    KeyThenValue(ck, cv, a.key, a.value, b.key, b.value)
  }

  /** Equal entries hash equally. */
  lemma EntryHashConsistentWithEquals<K, V>(e: MapEntry<K, V>, o: JavaObject<K, V>, hk: K -> int, hv: V -> int)
    requires EntryEquals(e, o)
    ensures o.EntryObject? && EntryHashCode(e, hk, hv) == EntryHash(hk, hv, o.key, o.value)
  {
  }

  /** The entry comparator is a total order on entries that is zero
      exactly on the entries EntryImpl.equals accepts, when the natural
      orders of keys and values are total orders. */
  lemma EntryComparatorTotalOrder<K(!new), V(!new)>(ck: (K, K) -> int, cv: (V, V) -> int,
                                                    a: JavaObject<K, V>, b: JavaObject<K, V>, c: JavaObject<K, V>)
    requires TotalOrder(ck) && TotalOrder(cv)
    requires a.EntryObject? && b.EntryObject? && c.EntryObject?
    ensures Sign(EntryComparator(ck, cv, a, b)) == -Sign(EntryComparator(ck, cv, b, a))
    ensures EntryComparator(ck, cv, a, b) == 0 <==> EntryEquals(MapEntry(a.key, a.value), b)
    ensures EntryComparator(ck, cv, a, b) < 0 && EntryComparator(ck, cv, b, c) < 0
            ==> EntryComparator(ck, cv, a, c) < 0
  {
    KeyThenValueTotalOrder(ck, cv, a.key, a.value, b.key, b.value, c.key, c.value);
  }

  /** Maps.Builder: the map is created on the first put after
      construction or after a build, and handed over by build. */
  class Builder<K(==), V> {
    /** The map being filled (the source's field `map`); null until the
        first put. */
    var building: MapObject?<K, V>

    /** Maps.builder(): nothing created yet. */
    constructor ()
      ensures building == null
    {
      building := null;
    }

    /** put: creates the map if there is none, then stores key -> value,
        overriding an earlier value for the same key; returns the builder. */
    method Put(key: Option<K>, value: Option<V>) returns (r: Builder<K, V>)
      modifies this, building
      ensures r == this && building != null
      ensures old(building) == null ==> fresh(building) && building.contents == map[key := value]
      ensures old(building) != null ==> building == old(building) && building.contents == old(building.contents)[key := value]
    {
      if building == null {
        building := new MapObject();
      }
      var _ := building.Put(key, value);
      r := this;
    }

    /** build: the accumulated map, or a fresh empty one when nothing was
        put; either way the builder lets go of it, so the next put starts
        a new map. */
    method Build() returns (m: MapObject<K, V>)
      modifies this
      ensures building == null
      ensures old(building) == null ==> fresh(m) && m.contents == map[]
      ensures old(building) != null ==> m == old(building) && m.contents == old(building.contents)
    {
      if building == null {
        m := new MapObject();
      } else {
        m := building;
      }
      building := null;
    }
  }

  /** Maps.builder(key, value): a new builder with one put done. */
  method BuilderOf<K(==), V>(key: Option<K>, value: Option<V>) returns (b: Builder<K, V>)
    ensures fresh(b) && b.building != null && fresh(b.building)
    ensures b.building.contents == map[key := value]
  {
    b := new Builder();
    b := b.Put(key, value);
  }

  /** Maps.EntryIterator: yields the key, then the value, then fails. The
      entry may be null (None): the iterator is still created, and each of
      the first two calls of next fails with NullPointerException. */
  class EntryIterator<T> {
    const entry: Option<JavaObject<T, T>>
    /** How many calls of next got past the hasNext check. */
    var index: nat
    ghost var produced: seq<Option<T>>

    ghost predicate Valid()
      reads this
    {
      && index <= 2
      && (entry.Some? ==> entry.value.EntryObject? && produced == [entry.value.key, entry.value.value][..index])
      && (entry.None? ==> produced == [])
    }

    /** Maps.iterator(entry): a new iterator at the key. */
    constructor (entry: Option<JavaObject<T, T>>)
      requires entry.Some? ==> entry.value.EntryObject?
      ensures Valid() && this.entry == entry && index == 0 && produced == []
    {
      this.entry := entry;
      index := 0;
      produced := [];
    }

    method HasNext() returns (b: bool)
      requires Valid()
      ensures b <==> index < 2
      ensures entry.Some? ==> (b <==> |produced| < 2)
    {
      b := index < 2;
    }

    method Next() returns (r: Result<Option<T>>)
      requires Valid()
      modifies this
      ensures Valid()
      ensures old(index) == 2 ==> r == Err(NoSuchElement) && unchanged(this)
      ensures old(index) < 2 ==> index == old(index) + 1
      ensures old(index) < 2 && entry.None? ==> r == Err(NullPointer) && produced == old(produced)
      ensures old(index) < 2 && entry.Some? ==> r.Ok? && produced == old(produced) + [r.value]
      ensures old(index) == 0 && entry.Some? ==> r == Ok(entry.value.key)
      ensures old(index) == 1 && entry.Some? ==> r == Ok(entry.value.value)
    {
      if index >= 2 {
        return Err(NoSuchElement);
      }
      index := index + 1;
      if entry.None? {
        return Err(NullPointer);
      }
      if index == 1 {
        r := Ok(entry.value.key);
      } else {
        r := Ok(entry.value.value);
      }
      produced := produced + [r.value];
    }
  }

  /** Two builds with puts in between hand out two different maps, each
      holding only its own puts. */
  method BuildTwice<K(==), V>(k1: Option<K>, v1: Option<V>, k2: Option<K>, v2: Option<V>)
    returns (first: MapObject<K, V>, second: MapObject<K, V>)
    ensures first != second
    ensures first.contents == map[k1 := v1] && second.contents == map[k2 := v2]
  {
    var b := new Builder();
    b := b.Put(k1, v1);
    first := b.Build();
    b := b.Put(k2, v2);
    second := b.Build();
  }
}
