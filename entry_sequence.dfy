/** org.d2ab.sequence.EntrySequence: a re-traversable pipeline of entries.
    A pipeline is a term built from its source and the operations applied
    to it; Elements gives the entries one traversal yields. Chaining
    operations validate their arguments and build a new term (or return
    the same one); terminal operations traverse Elements. */
module EntrySequences {
  import opened Wrappers
  import opened Cursors
  import opened JavaMaps
  import opened FilteringIterators
  import opened LimitingIterators
  import opened SteppingIntIterators
  import opened ChainingIntIterables

  /** An entry as the operations see it: its getKey() and getValue(). */
  type Entry<K, V> = (Option<K>, Option<V>)

  /** The pipeline terms. The iterators behind Skipping, TailSkipping,
      TailLimiting, Stepping and Repeating are not part of this model;
      their effect is specified by Elements. */
  datatype EntrySequence<!K, !V> =
    | From(items: seq<Entry<K, V>>)
    | Empty
    | Skipping(upstream: EntrySequence<K, V>, count: nat)
    | TailSkipping(upstream: EntrySequence<K, V>, count: nat)
    | Limiting(upstream: EntrySequence<K, V>, count: nat)
    | TailLimiting(upstream: EntrySequence<K, V>, count: nat)
    | Stepping(upstream: EntrySequence<K, V>, step: nat)
    | Repeating(upstream: EntrySequence<K, V>, times: nat)
    | Filtering(upstream: EntrySequence<K, V>, condition: Entry<K, V> -> bool)

  /** The entries one traversal of the pipeline yields, in order. */
  function Elements<K, V>(s: EntrySequence<K, V>): seq<Entry<K, V>>
  {
    match s
    case From(items) => items
    case Empty => []
    case Skipping(u, n) => var e := Elements(u); e[Min(n, |e|)..]
    case TailSkipping(u, n) => var e := Elements(u); e[..|e| - Min(n, |e|)]
    case Limiting(u, n) => Take(Elements(u), n)
    case TailLimiting(u, n) => var e := Elements(u); e[|e| - Min(n, |e|)..]
    case Stepping(u, k) => Stride(Elements(u), Stride1(k))
    case Repeating(u, times) => Repeat(Elements(u), times)
    case Filtering(u, p) => Filter(p, Elements(u))
  }

  /** The entries of xs, times times over. */
  function Repeat<T>(xs: seq<T>, times: nat): seq<T>
  {
    if times == 0 then [] else Repeat(xs, times - 1) + xs
  }

  /** A repetition holds times copies of xs, one after another: copy t
      starts at t * |xs|. */
  lemma {:induction false} RepeatAt<T>(xs: seq<T>, times: nat, t: nat, j: nat)
    requires t < times && j < |xs|
    ensures |Repeat(xs, times)| == times * |xs|
    ensures t * |xs| + j < times * |xs| && Repeat(xs, times)[t * |xs| + j] == xs[j]
  {
    var n := |xs|;
    RepeatLength(xs, times - 1);
    assert times * n == (times - 1) * n + n;
    if t < times - 1 {
      RepeatAt(xs, times - 1, t, j);
      assert t * n + j < (times - 1) * n;
    } else {
      assert t * n == (times - 1) * n;
    }
  }

  lemma {:induction false} RepeatLength<T>(xs: seq<T>, times: nat)
    ensures |Repeat(xs, times)| == times * |xs|
  {
    if times > 0 {
      RepeatLength(xs, times - 1);
      assert times * |xs| == (times - 1) * |xs| + |xs|;
    }
  }

  // Argument validation (requireAtLeastZero / requireAtLeastOne): a count
  // out of range is an IllegalArgumentException.

  /** skip(n): drops the first n entries; skip(0) is this very sequence. */
  function Skip<K, V>(s: EntrySequence<K, V>, skip: int): (r: Result<EntrySequence<K, V>>)
    ensures r.Err? <==> skip < 0
    ensures r.Err? ==> r.error == IllegalArgument
    ensures skip == 0 ==> r == Ok(s)
    ensures r.Ok? ==> Elements(r.value) == Elements(s)[Min(skip, |Elements(s)|)..]
  {
    if skip < 0 then Err(IllegalArgument)
    else if skip == 0 then Ok(s)
    else Ok(Skipping(s, skip))
  }

  /** skipTail(n): drops the last n entries; skipTail(0) is this very
      sequence. */
  function SkipTail<K, V>(s: EntrySequence<K, V>, skip: int): (r: Result<EntrySequence<K, V>>)
    ensures r.Err? <==> skip < 0
    ensures r.Err? ==> r.error == IllegalArgument
    ensures skip == 0 ==> r == Ok(s)
    ensures r.Ok? ==> Elements(r.value) == Elements(s)[..|Elements(s)| - Min(skip, |Elements(s)|)]
  {
    if skip < 0 then Err(IllegalArgument)
    else if skip == 0 then Ok(s)
    else Ok(TailSkipping(s, skip))
  }

  /** limit(n): keeps the first n entries; limit(0) is the empty sequence. */
  function Limit<K, V>(s: EntrySequence<K, V>, limit: int): (r: Result<EntrySequence<K, V>>)
    ensures r.Err? <==> limit < 0
    ensures r.Err? ==> r.error == IllegalArgument
    ensures limit == 0 ==> r == Ok(Empty)
    ensures r.Ok? ==> Elements(r.value) == Elements(s)[..Min(limit, |Elements(s)|)]
  {
    if limit < 0 then Err(IllegalArgument)
    else if limit == 0 then Ok(Empty)
    else Ok(Limiting(s, limit))
  }

  /** limitTail(n): keeps the last n entries; limitTail(0) is the empty
      sequence. */
  function LimitTail<K, V>(s: EntrySequence<K, V>, limit: int): (r: Result<EntrySequence<K, V>>)
    ensures r.Err? <==> limit < 0
    ensures r.Err? ==> r.error == IllegalArgument
    ensures limit == 0 ==> r == Ok(Empty)
    ensures r.Ok? ==> Elements(r.value) == Elements(s)[|Elements(s)| - Min(limit, |Elements(s)|)..]
  {
    if limit < 0 then Err(IllegalArgument)
    else if limit == 0 then Ok(Empty)
    else Ok(TailLimiting(s, limit))
  }

  /** limit(n) and skip(n) split a sequence in two, and so do skipTail(n)
      and limitTail(n). */
  lemma LimitAndSkipPartition<K, V>(s: EntrySequence<K, V>, n: nat)
    ensures Elements(Limit(s, n).value) + Elements(Skip(s, n).value) == Elements(s)
    ensures Elements(SkipTail(s, n).value) + Elements(LimitTail(s, n).value) == Elements(s)
  {
  }

  /** step(k): every k-th entry, starting with the first. */
  function Step<K, V>(s: EntrySequence<K, V>, step: int): (r: Result<EntrySequence<K, V>>)
    ensures r.Err? <==> step < 1
    ensures r.Err? ==> r.error == IllegalArgument
    ensures r.Ok? ==> |Elements(r.value)| <= |Elements(s)|
  {
    if step < 1 then Err(IllegalArgument) else Ok(Stepping(s, step))
  }

  /** The entries of step(k) are those at indices 0, k, 2k, ... */
  lemma StepPicksMultiples<K, V>(s: EntrySequence<K, V>, step: int, i: nat)
    requires step >= 1
    ensures i < |Elements(Step(s, step).value)| <==> i * step < |Elements(s)|
    ensures i < |Elements(Step(s, step).value)| ==> Elements(Step(s, step).value)[i] == Elements(s)[i * step]
  {
    StrideAt(Elements(s), step, i);
  }

  /** repeat(n): the entries n times over; a negative n is rejected. */
  function RepeatTimes<K, V>(s: EntrySequence<K, V>, times: int): (r: Result<EntrySequence<K, V>>)
    ensures r.Err? <==> times < 0
    ensures r.Err? ==> r.error == IllegalArgument
    ensures times == 0 ==> r.Ok? && Elements(r.value) == []
  {
    if times < 0 then Err(IllegalArgument) else Ok(Repeating(s, times))
  }

  /** The windows of s: a window of `window` entries starting at 0, step,
      2 * step, ..., the last one being the first that reaches the end of
      s (and so possibly shorter). The windowing iterator is not part of
      this model; this is its effect on the inputs its tests use. */
  function Windows<T>(s: seq<T>, window: nat, step: nat): (r: seq<seq<T>>)
    requires window >= 1 && step >= 1
    decreases |s|
  {
    if s == [] then []
    else if |s| <= window then [s]
    else [s[..window]] + (if step < |s| then Windows(s[step..], window, step) else [])
  }

  /** Window i is the slice of s from i * step, of length window or up to
      the end of s. */
  lemma {:induction false} WindowAt<T>(s: seq<T>, window: nat, step: nat, i: nat)
    requires window >= 1 && step >= 1
    requires i < |Windows(s, window, step)|
    ensures i * step < |s|
    ensures Windows(s, window, step)[i] == s[i * step .. Min(i * step + window, |s|)]
    decreases |s|
  {
    if i > 0 {
      assert |s| > window && step < |s|;
      var rest := s[step..];
      WindowAt(rest, window, step, i - 1);
      var lo := (i - 1) * step;
      var hi := Min(lo + window, |rest|);
      assert i * step == lo + step by {
        assert i * step == (i - 1) * step + step;
      }
      assert hi + step == Min(lo + step + window, |s|);
      assert rest[lo..hi] == s[lo + step .. hi + step];
    }
  }

  /** Batches (windows whose step is their size) cut s into consecutive
      pieces: together they are s again. */
  lemma {:induction false} BatchesPartition<T>(s: seq<T>, size: nat)
    requires size >= 1
    ensures Concat(Windows(s, size, size)) == s
    decreases |s|
  {
    if s != [] {
      if |s| <= size {
        assert Windows(s, size, size) == [s];
        ConcatAppend([], [s]);
      } else {
        var rest := Windows(s[size..], size, size);
        assert Windows(s, size, size) == [s[..size]] + rest;
        BatchesPartition(s[size..], size);
        ConcatAppend([s[..size]], rest);
        ConcatAppend([], [s[..size]]);
        assert Concat([s[..size]]) == s[..size];
        assert s[..size] + s[size..] == s;
      }
    }
  }

  /** window(n, step): rejects a size or step below 1. */
  function Window<K, V>(s: EntrySequence<K, V>, window: int, step: int): (r: Result<seq<seq<Entry<K, V>>>>)
    ensures r.Err? <==> window < 1 || step < 1
    ensures r.Err? ==> r.error == IllegalArgument
    ensures r.Ok? ==> forall i :: 0 <= i < |r.value| ==> |r.value[i]| <= window
  {
    if window < 1 || step < 1 then Err(IllegalArgument)
    else
      var w := Windows(Elements(s), window, step);
      assert forall i :: 0 <= i < |w| ==> |w[i]| <= window by {
        forall i | 0 <= i < |w| ensures |w[i]| <= window {
          WindowAt(Elements(s), window, step, i);
        }
      }
      Ok(w)
  }

  /** window(n) is window(n, 1). */
  function WindowOf<K, V>(s: EntrySequence<K, V>, window: int): (r: Result<seq<seq<Entry<K, V>>>>)
    ensures r == Window(s, window, 1)
  {
    if window < 1 then Err(IllegalArgument) else Window(s, window, 1)
  }

  /** batch(n) is window(n, n): consecutive pieces of n entries that
      together are the whole sequence. */
  function Batch<K, V>(s: EntrySequence<K, V>, size: int): (r: Result<seq<seq<Entry<K, V>>>>)
    ensures r == Window(s, size, size)
    ensures r.Ok? ==> Concat(r.value) == Elements(s)
  {
    if size < 1 then Err(IllegalArgument)
    else
      BatchesPartition(Elements(s), size);
      Window(s, size, size)
  }

  /** The entries of a flat key, value, key, value, ... list. */
  function PairUp<T>(items: seq<Option<T>>): (r: seq<Entry<T, T>>)
    requires |items| % 2 == 0
    decreases |items|
  {
    if items == [] then []
    else PairUp(items[..|items| - 2]) + [(items[|items| - 2], items[|items| - 1])]
  }

  /** Entry j of the pairing is items 2j and 2j + 1. */
  lemma {:induction false} PairUpAt<T>(items: seq<Option<T>>, j: nat)
    requires |items| % 2 == 0
    ensures |PairUp(items)| == |items| / 2
    ensures j < |items| / 2 ==> PairUp(items)[j] == (items[2 * j], items[2 * j + 1])
    decreases |items|
  {
    if items != [] {
      var init := items[..|items| - 2];
      PairUpAt(init, j);
      if j < |init| / 2 {
        assert init[2 * j] == items[2 * j] && init[2 * j + 1] == items[2 * j + 1];
      }
    }
  }

  /** ofEntries(items...): a null array is rejected, an odd-length one is
      an IllegalArgumentException; otherwise the entries pair up
      consecutive items. The items are of one type T, which both the keys
      and the values are cast to. */
  method OfEntries<T>(items: Option<seq<Option<T>>>) returns (r: Result<EntrySequence<T, T>>)
    ensures items.None? ==> r == Err(NullPointer)
    ensures items.Some? && |items.value| % 2 != 0 ==> r == Err(IllegalArgument)
    ensures items.Some? && |items.value| % 2 == 0 ==> r == Ok(From(PairUp(items.value)))
  {
    if items.None? {
      return Err(NullPointer);
    }
    var xs := items.value;
    if |xs| % 2 != 0 {
      return Err(IllegalArgument);
    }
    var entries: seq<Entry<T, T>> := [];
    var i := 0;
    while i < |xs|
      invariant 0 <= i <= |xs| && i % 2 == 0
      invariant entries == PairUp(xs[..i])
    {
      assert xs[..i + 2][..i] == xs[..i];
      entries := entries + [(xs[i], xs[i + 1])];
      i := i + 2;
    }
    assert xs[..i] == xs;
    r := Ok(From(entries));
  }

  /** The map toMap builds: each entry put in order, so a later value for
      a key replaces an earlier one. */
  function MapOf<K(==), V>(es: seq<Entry<K, V>>): map<Option<K>, Option<V>>
  {
    if es == [] then map[] else MapOf(es[..|es| - 1])[es[|es| - 1].0 := es[|es| - 1].1]
  }

  /** The keys of toMap's result are the keys of the entries, and each maps
      to the value of the LAST entry with that key. */
  lemma {:induction false} MapOfLastWins<K, V>(es: seq<Entry<K, V>>, key: Option<K>)
    ensures key in MapOf(es) <==> exists i :: 0 <= i < |es| && es[i].0 == key
    ensures key in MapOf(es) ==>
              exists i :: 0 <= i < |es| && es[i].0 == key && MapOf(es)[key] == es[i].1
                          && forall j :: i < j < |es| ==> es[j].0 != key
  {
    if es != [] {
      var init := es[..|es| - 1];
      var n := |es| - 1;
      MapOfLastWins(init, key);
      if es[n].0 == key {
        assert es[n].0 == key && MapOf(es)[key] == es[n].1;
      } else {
        if exists i :: 0 <= i < |es| && es[i].0 == key {
          var i :| 0 <= i < |es| && es[i].0 == key;
          assert init[i].0 == key;
        }
        if key in MapOf(es) {
          var i :| 0 <= i < |init| && init[i].0 == key && MapOf(init)[key] == init[i].1
                   && forall j :: i < j < |init| ==> init[j].0 != key;
          assert es[i] == init[i];
          forall j | i < j < |es|
            ensures es[j].0 != key
          {
            if j < n { assert es[j] == init[j]; }
          }
        }
      }
    }
  }

  /** toMap(): a new map holding every entry, put in encounter order. */
  method ToMap<K(==), V>(s: EntrySequence<K, V>) returns (m: MapObject<K, V>)
    ensures fresh(m)
    ensures m.contents == MapOf(Elements(s))
  {
    var es := Elements(s);
    m := new MapObject();
    var i := 0;
    while i < |es|
      invariant 0 <= i <= |es|
      invariant m.contents == MapOf(es[..i])
    {
      assert es[..i + 1][..i] == es[..i];
      var _ := m.Put(es[i].0, es[i].1);
      i := i + 1;
    }
    assert es[..i] == es;
  }

  /** Map.merge(key, value, merger) on a HashMap: a null value is a
      NullPointerException; an absent key (or one mapped to null) takes the
      value; otherwise the key takes merger(old, value), and is removed
      when that is null. */
  function Merge<K(==), V>(m: map<Option<K>, Option<V>>, key: Option<K>, value: Option<V>,
                       merger: (V, V) -> Option<V>): Result<map<Option<K>, Option<V>>>
  {
    if value.None? then Err(NullPointer)
    else if key in m && m[key].Some? then
      match merger(m[key].value, value.value)
      case None => Ok(m - {key})
      case Some(w) => Ok(m[key := Some(w)])
    else Ok(m[key := value])
  }

  /** The map toMergedMap builds: each entry merged in encounter order. */
  function MergedMapOf<K(==), V>(es: seq<Entry<K, V>>, merger: (V, V) -> Option<V>)
    : Result<map<Option<K>, Option<V>>>
  {
    if es == [] then Ok(map[])
    else
      match MergedMapOf(es[..|es| - 1], merger)
      case Err(e) => Err(e)
      case Ok(m) => Merge(m, es[|es| - 1].0, es[|es| - 1].1, merger)
  }

  /** Merging with (old, value) -> value is toMap, when no value is null;
      a null value anywhere makes toMergedMap fail. */
  lemma {:induction false} MergeTakingNewIsToMap<K, V>(es: seq<Entry<K, V>>)
    ensures (forall i :: 0 <= i < |es| ==> es[i].1.Some?)
            ==> MergedMapOf(es, (previous: V, value: V) => Some(value)) == Ok(MapOf(es))
    ensures (exists i :: 0 <= i < |es| && es[i].1.None?)
            ==> MergedMapOf(es, (previous: V, value: V) => Some(value)).Err?
  {
    if es != [] {
      var init := es[..|es| - 1];
      MergeTakingNewIsToMap(init);
      assert forall i :: 0 <= i < |init| ==> init[i] == es[i];
      if exists i :: 0 <= i < |es| && es[i].1.None? {
        var i :| 0 <= i < |es| && es[i].1.None?;
        if i < |init| {
          assert init[i].1.None?;
        }
      }
    }
  }

  /** toMergedMap(merger): a new map with every entry merged in; a null
      value is a NullPointerException. */
  method ToMergedMap<K(==), V>(s: EntrySequence<K, V>, merger: (V, V) -> Option<V>)
    returns (r: Result<MapObject<K, V>>)
    ensures r.Err? <==> MergedMapOf(Elements(s), merger).Err?
    ensures r.Err? ==> r.error == NullPointer
    ensures r.Ok? ==> fresh(r.value) && r.value.contents == MergedMapOf(Elements(s), merger).value
  {
    var es := Elements(s);
    var m := new MapObject();
    var i := 0;
    while i < |es|
      invariant 0 <= i <= |es|
      invariant MergedMapOf(es[..i], merger) == Ok(m.contents)
    {
      assert es[..i + 1][..i] == es[..i];
      var (key, value) := es[i];
      if value.None? {
        MergedPrefixFails(es, merger, i + 1);
        return Err(NullPointer);
      }
      var existing := m.Get(key);
      if existing.Some? && existing.value.Some? {
        var merged := merger(existing.value.value, value.value);
        if merged.None? {
          m.contents := m.contents - {key};
        } else {
          var _ := m.Put(key, merged);
        }
      } else {
        var _ := m.Put(key, value);
      }
      i := i + 1;
    }
    assert es[..i] == es;
    r := Ok(m);
  }

  /** Once a prefix fails to merge, so does the whole sequence. */
  lemma {:induction false} MergedPrefixFails<K, V>(es: seq<Entry<K, V>>, merger: (V, V) -> Option<V>, k: nat)
    requires k <= |es|
    requires MergedMapOf(es[..k], merger).Err?
    ensures MergedMapOf(es, merger) == Err(NullPointer)
    decreases |es| - k
  {
    if k == |es| {
      assert es[..k] == es;
      MergedErrIsNull(es, merger);
    } else {
      assert es[..k + 1][..k] == es[..k];
      MergedPrefixFails(es, merger, k + 1);
    }
  }

  lemma {:induction false} MergedErrIsNull<K, V>(es: seq<Entry<K, V>>, merger: (V, V) -> Option<V>)
    ensures MergedMapOf(es, merger).Err? ==> MergedMapOf(es, merger).error == NullPointer
  {
    if es != [] {
      MergedErrIsNull(es[..|es| - 1], merger);
    }
  }

  /** The map toGroupedMap builds: each key, null included, to the list of
      its values in encounter order. */
  function GroupedMapOf<K(==), V>(es: seq<Entry<K, V>>): map<Option<K>, seq<Option<V>>>
  {
    if es == [] then map[]
    else
      var g := GroupedMapOf(es[..|es| - 1]);
      var (key, value) := es[|es| - 1];
      g[key := (if key in g then g[key] else []) + [value]]
  }

  /** The values of the entries with the given key, in encounter order. */
  function ValuesWithKey<K(==), V>(es: seq<Entry<K, V>>, key: Option<K>): seq<Option<V>>
  {
    if es == [] then []
    else ValuesWithKey(es[..|es| - 1], key) + (if es[|es| - 1].0 == key then [es[|es| - 1].1] else [])
  }

  /** A key is grouped exactly when some entry has it, and its group is
      the values of the entries with that key, in encounter order. */
  lemma {:induction false} GroupedMapKeepsOrder<K, V>(es: seq<Entry<K, V>>, key: Option<K>)
    ensures key in GroupedMapOf(es) <==> exists i :: 0 <= i < |es| && es[i].0 == key
    ensures key in GroupedMapOf(es) ==> GroupedMapOf(es)[key] == ValuesWithKey(es, key)
    ensures key !in GroupedMapOf(es) ==> ValuesWithKey(es, key) == []
  {
    if es != [] {
      var init := es[..|es| - 1];
      GroupedMapKeepsOrder(init, key);
      assert forall i :: 0 <= i < |init| ==> init[i] == es[i];
      if es[|es| - 1].0 == key {
        assert exists i :: 0 <= i < |es| && es[i].0 == key;
      }
    }
  }

  /** toGroupedMap(): a new map of each key to a list of its values. */
  method ToGroupedMap<K(==), V>(s: EntrySequence<K, V>) returns (m: MapObject<K, seq<Option<V>>>)
    ensures fresh(m)
    ensures m.contents.Keys == GroupedMapOf(Elements(s)).Keys
    ensures forall key :: key in m.contents ==> m.contents[key] == Some(GroupedMapOf(Elements(s))[key])
  {
    var es := Elements(s);
    m := new MapObject();
    var i := 0;
    while i < |es|
      invariant 0 <= i <= |es|
      invariant m.contents.Keys == GroupedMapOf(es[..i]).Keys
      invariant forall key :: key in m.contents ==> m.contents[key] == Some(GroupedMapOf(es[..i])[key])
    {
      assert es[..i + 1][..i] == es[..i];
      var (key, value) := es[i];
      var group := m.Get(key);
      var values := if group.Some? && group.value.Some? then group.value.value else [];
      ghost var before := GroupedMapOf(es[..i]);
      assert values == if key in before then before[key] else [];
      var _ := m.Put(key, Some(values + [value]));
      ghost var after := GroupedMapOf(es[..i + 1]);
      assert after == before[key := values + [value]];
      assert m.contents.Keys == after.Keys;
      i := i + 1;
    }
    assert es[..i] == es;
  }

  /** The shown entries separated by the delimiter: none before the first
      or after the last. */
  function Joined(shown: seq<string>, delimiter: string): string
  {
    if shown == [] then ""
    else if |shown| == 1 then shown[0]
    else Joined(shown[..|shown| - 1], delimiter) + delimiter + shown[|shown| - 1]
  }

  /** Joining two non-empty runs puts exactly one delimiter between them. */
  lemma {:induction false} JoinedAppend(xs: seq<string>, ys: seq<string>, delimiter: string)
    requires xs != [] && ys != []
    ensures Joined(xs + ys, delimiter) == Joined(xs, delimiter) + delimiter + Joined(ys, delimiter)
    decreases |ys|
  {
    var all := xs + ys;
    var init := ys[..|ys| - 1];
    assert all[..|all| - 1] == xs + init;
    assert all[|all| - 1] == ys[|ys| - 1];
    assert Joined(all, delimiter) == Joined(xs + init, delimiter) + delimiter + ys[|ys| - 1];
    if |ys| == 1 {
      assert xs + init == xs;
      assert Joined(ys, delimiter) == ys[0];
    } else {
      JoinedAppend(xs, init, delimiter);
      assert Joined(ys, delimiter) == Joined(init, delimiter) + delimiter + ys[|ys| - 1];
    }
  }

  /** Each entry as its toString shows it. */
  function Shown<K, V>(es: seq<Entry<K, V>>, show: Entry<K, V> -> string): (r: seq<string>)
    ensures |r| == |es|
    ensures forall i :: 0 <= i < |es| ==> r[i] == show(es[i])
  {
    seq(|es|, i requires 0 <= i < |es| => show(es[i]))
  }

  /** join(prefix, delimiter, suffix): the prefix, the entries (shown by
      their toString) separated by the delimiter, then the suffix. */
  method Join<K, V>(s: EntrySequence<K, V>, prefix: string, delimiter: string, suffix: string,
                    show: Entry<K, V> -> string) returns (r: string)
    ensures r == prefix + Joined(Shown(Elements(s), show), delimiter) + suffix
  {
    var es := Elements(s);
    ghost var shown := Shown(es, show);
    r := prefix;
    var first := true;
    var i := 0;
    while i < |es|
      invariant 0 <= i <= |es|
      invariant first <==> i == 0
      invariant r == prefix + Joined(shown[..i], delimiter)
    {
      assert shown[..i + 1][..i] == shown[..i];
      if first {
        first := false;
      } else {
        r := r + delimiter;
      }
      r := r + show(es[i]);
      i := i + 1;
    }
    assert shown[..i] == shown;
    r := r + suffix;
  }

  /** join(delimiter) is join("", delimiter, ""). */
  method JoinWith<K, V>(s: EntrySequence<K, V>, delimiter: string, show: Entry<K, V> -> string)
    returns (r: string)
    ensures r == Joined(Shown(Elements(s), show), delimiter)
  {
    r := Join(s, "", delimiter, "", show);
  }

  /** The left fold of op over es, starting from acc. */
  function FoldLeft<T>(acc: T, es: seq<T>, op: (T, T) -> T): T
  {
    if es == [] then acc else op(FoldLeft(acc, es[..|es| - 1], op), es[|es| - 1])
  }

  /** The fold takes the entries from the front. */
  lemma {:induction false} FoldLeftCons<T>(acc: T, x: T, es: seq<T>, op: (T, T) -> T)
    ensures FoldLeft(acc, [x] + es, op) == FoldLeft(op(acc, x), es, op)
    decreases |es|
  {
    if es == [] {
      assert [x] + es == [x];
      assert [x][..0] == [];
    } else {
      assert ([x] + es)[..|es|] == [x] + es[..|es| - 1];
      FoldLeftCons(acc, x, es[..|es| - 1], op);
    }
  }

  /** reduce(operator): empty for no entries, otherwise the operator
      folded over the entries from the first. */
  function Reduce<K, V>(s: EntrySequence<K, V>, op: (Entry<K, V>, Entry<K, V>) -> Entry<K, V>)
    : (r: Option<Entry<K, V>>)
    ensures r.None? <==> Elements(s) == []
    ensures |Elements(s)| == 1 ==> r == Some(Elements(s)[0])
  {
    var es := Elements(s);
    if es == [] then None else Some(FoldLeft(es[0], es[1..], op))
  }

  /** reduce(identity, operator): the operator folded over the entries
      from the identity. */
  function ReduceWithIdentity<K, V>(s: EntrySequence<K, V>, identity: Entry<K, V>,
                                    op: (Entry<K, V>, Entry<K, V>) -> Entry<K, V>): (r: Entry<K, V>)
    ensures Elements(s) == [] ==> r == identity
  {
    FoldLeft(identity, Elements(s), op)
  }

  /** Starting from an identity that the operator passes the first entry
      through unchanged, the two reductions agree. */
  lemma ReduceFromIdentityAgrees<K, V>(s: EntrySequence<K, V>, identity: Entry<K, V>,
                                      op: (Entry<K, V>, Entry<K, V>) -> Entry<K, V>)
    requires Elements(s) != [] && op(identity, Elements(s)[0]) == Elements(s)[0]
    ensures Reduce(s, op) == Some(ReduceWithIdentity(s, identity, op))
  {
    var es := Elements(s);
    assert es == [es[0]] + es[1..];
    FoldLeftCons(identity, es[0], es[1..], op);
  }

  /** at(index): a negative index is rejected; otherwise the entry at the
      index, or empty past the end. */
  function At<K, V>(s: EntrySequence<K, V>, index: int): (r: Result<Option<Entry<K, V>>>)
    ensures r.Err? <==> index < 0
    ensures r.Err? ==> r.error == IllegalArgument
    ensures r.Ok? ==> (r.value.Some? <==> index < |Elements(s)|)
    ensures r.Ok? && r.value.Some? ==> r.value.value == Elements(s)[index]
  {
    var es := Elements(s);
    if index < 0 then Err(IllegalArgument)
    else if index < |es| then Ok(Some(es[index]))
    else Ok(None)
  }

  /** first(): at(0). */
  function First<K, V>(s: EntrySequence<K, V>): (r: Option<Entry<K, V>>)
    ensures r.None? <==> Elements(s) == []
    ensures r.Some? ==> r.value == Elements(s)[0]
  {
    At(s, 0).value
  }

  /** at(index, predicate): the index-th matching entry. */
  function AtMatching<K, V>(s: EntrySequence<K, V>, index: int, condition: Entry<K, V> -> bool)
    : (r: Result<Option<Entry<K, V>>>)
    ensures r.Err? <==> index < 0
    ensures r.Ok? && r.value.Some? ==> condition(r.value.value) && r.value.value in Elements(s)
    ensures r.Ok? ==> (r.value.Some? <==> index < |Filter(condition, Elements(s))|)
    ensures r.Ok? && r.value.Some? ==> r.value.value == Filter(condition, Elements(s))[index]
  {
    var r := At(Filtering(s, condition), index);
    FilterMembers(condition, Elements(s));
    r
  }
}
