/** The objects an entry's equals may be handed. The library has three
    entry implementations: Pair (org.d2ab.util.Pair), the entry of
    Entries.of and the entry of Maps.entry. Each is seen through its key
    and value; any object that is not a Map.Entry is NonEntry. */
module EntryObjects {
  import opened Wrappers
  import opened Hashing

  datatype EntryClass = PairClass | EntriesEntryClass | MapsEntryClass

  datatype JavaObject<K, V> =
    | EntryObject(cls: EntryClass, key: Option<K>, value: Option<V>)
    | NonEntry

  /** The hash all three entry classes share: the key's hash times 31 plus
      the value's hash, null hashing to 0, in int arithmetic. Both hashes
      are Java ints, so one wrap at the end equals Java's wrap at each
      operation. */
  function EntryHash<K, V>(hk: K -> int, hv: V -> int, key: Option<K>, value: Option<V>): (h: int)
    ensures IsInt32(h)
  {
    Wrap32(31 * NullSafeHash(hk, key) + NullSafeHash(hv, value))
  }
}
