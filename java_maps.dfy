/** A mutable java.util.Map as the library uses it: put stores a key and
    value (null allowed for both, as in HashMap) and answers the value the
    key held before. */
module JavaMaps {
  import opened Wrappers

  class MapObject<K(==), V> {
    var contents: map<Option<K>, Option<V>>

    /** new HashMap<>(): an empty map. */
    constructor ()
      ensures contents == map[]
    {
      contents := map[];
    }

    /** Map.put: the key now maps to value; the answer is the previous
        mapping, or None (Java's null) when the key was absent. */
    method Put(key: Option<K>, value: Option<V>) returns (previous: Option<Option<V>>)
      modifies this
      ensures contents == old(contents)[key := value]
      ensures previous == if key in old(contents) then Some(old(contents)[key]) else None
    {
      previous := if key in contents then Some(contents[key]) else None;
      contents := contents[key := value];
    }

    /** Map.get: the value the key maps to, None when absent. */
    function Get(key: Option<K>): (r: Option<Option<V>>)
      reads this
      ensures r.Some? <==> key in contents
      ensures r.Some? ==> r.value == contents[key]
    {
      if key in contents then Some(contents[key]) else None
    }
  }
}
