/**
 * A PHP array with string keys, as the form collections use it: a table from name
 * to value that remembers the order in which names were first inserted.  Writing
 * an existing key keeps its position; `array_merge` keeps the first position of a
 * key and the last value written for it.
 */
module OrderedMaps {
  import opened Wrappers

  datatype OrderedMap<V> = OrderedMap(keys: seq<string>, entries: map<string, V>)
  {
    /** Each key is listed once, and exactly the keys of the table are listed. */
    ghost predicate Valid() {
      && Distinct(keys)
      && (forall k :: k in entries <==> k in keys)
    }
  }

  ghost predicate Distinct(ks: seq<string>) {
    forall i, j :: 0 <= i < j < |ks| ==> ks[i] != ks[j]
  }

  function Empty<V>(): (m: OrderedMap<V>)
    ensures m.Valid() && m.keys == [] && |m.entries| == 0
  {
    OrderedMap([], map[])
  }

  /** The value stored under `k`, or None (PHP's null) when there is none. */
  function Get<V>(m: OrderedMap<V>, k: string): (r: Option<V>)
    ensures r.Some? <==> k in m.entries
    ensures r.Some? ==> r.value == m.entries[k]
  {
    if k in m.entries then Some(m.entries[k]) else None
  }

  /** `$m[$k] = $v`: overwrite in place, or append a new key at the end. */
  function Put<V>(m: OrderedMap<V>, k: string, v: V): (r: OrderedMap<V>)
    requires m.Valid()
    ensures r.Valid()
    ensures r.entries == m.entries[k := v]
    ensures r.keys == if k in m.entries then m.keys else m.keys + [k]
  {
    OrderedMap(if k in m.entries then m.keys else m.keys + [k], m.entries[k := v])
  }

  /**
   * After a write, the key reads the new value and every other key reads as
   * before; the count grows by one exactly when the key was new, and the earlier
   * keys keep their order.
   */
  lemma PutSpec<V>(m: OrderedMap<V>, k: string, v: V)
    requires m.Valid()
    ensures Get(Put(m, k, v), k) == Some(v)
    ensures forall k' :: k' != k ==> Get(Put(m, k, v), k') == Get(m, k')
    ensures |Put(m, k, v).entries| == if k in m.entries then |m.entries| else |m.entries| + 1
    ensures m.keys <= Put(m, k, v).keys
  {
  }

  /** The keys of `ks` other than `k`, in their order. */
  function Without(ks: seq<string>, k: string): (r: seq<string>)
    ensures forall x :: x in r <==> x in ks && x != k
    ensures |r| <= |ks|
  {
    if ks == [] then []
    else if ks[0] == k then Without(ks[1..], k)
    else [ks[0]] + Without(ks[1..], k)
  }

  /** `unset($m[$k])`: drop the key; the other keys keep their order. */
  function Remove<V>(m: OrderedMap<V>, k: string): (r: OrderedMap<V>)
    requires m.Valid()
    ensures r.Valid()
    ensures k !in r.entries
    ensures forall k' :: k' != k ==> Get(r, k') == Get(m, k')
    ensures |r.entries| == if k in m.entries then |m.entries| - 1 else |m.entries|
    ensures r.keys == Without(m.keys, k)
  {
    WithoutKeepsDistinct(m.keys, k);
    OrderedMap(Without(m.keys, k), m.entries - {k})
  }

  lemma {:induction false} WithoutKeepsDistinct(ks: seq<string>, k: string)
    requires Distinct(ks)
    ensures Distinct(Without(ks, k))
  {
    if ks != [] {
      var rest := Without(ks[1..], k);
      WithoutKeepsDistinct(ks[1..], k);
      if ks[0] != k {
        var r := Without(ks, k);
        assert r == [ks[0]] + rest;
        assert ks[0] !in ks[1..] by {
          forall j | 0 <= j < |ks| - 1 ensures ks[1..][j] != ks[0] {
            assert ks[1..][j] == ks[j + 1];
          }
        }
        forall i, j | 0 <= i < j < |r| ensures r[i] != r[j] {
          assert r[j] == rest[j - 1];
          if i == 0 {
            assert rest[j - 1] in rest;
          } else {
            assert r[i] == rest[i - 1];
          }
        }
      }
    }
  }

  /** A valid table lists as many keys as it holds entries, so iterating it visits every entry once. */
  lemma {:induction false} KeyCountIsSize<V>(m: OrderedMap<V>)
    requires m.Valid()
    ensures |m.keys| == |m.entries|
    decreases |m.keys|
  {
    if m.keys == [] {
      assert m.entries.Keys == {};
    } else {
      var n := |m.keys|;
      var last := m.keys[n - 1];
      var rest := OrderedMap(m.keys[..n - 1], m.entries - {last});
      assert rest.Valid() by {
        forall k ensures k in rest.entries <==> k in rest.keys {
          if k in m.keys && k != last {
            var i :| 0 <= i < n && m.keys[i] == k;
            assert i < n - 1;
          }
        }
      }
      KeyCountIsSize(rest);
    }
  }

  /** Write the entries of `src` under `ks`, one `Put` at a time in the order of `ks`. */
  function PutKeys<V>(m: OrderedMap<V>, ks: seq<string>, src: map<string, V>): (r: OrderedMap<V>)
    requires m.Valid()
    requires forall k :: k in ks ==> k in src
    ensures r.Valid()
    ensures m.keys <= r.keys
  {
    if ks == [] then m
    else
      var init := ks[..|ks| - 1];
      assert forall k :: k in init ==> k in ks;
      Put(PutKeys(m, init, src), ks[|ks| - 1], src[ks[|ks| - 1]])
  }

  /** After the writes, a key is held when it was held or written; a written key has its new value, any other its old one. */
  lemma {:induction false} PutKeysAt<V>(m: OrderedMap<V>, ks: seq<string>, src: map<string, V>, k: string)
    requires m.Valid()
    requires forall x :: x in ks ==> x in src
    ensures k in PutKeys(m, ks, src).entries <==> k in m.entries || k in ks
    ensures k in ks ==> PutKeys(m, ks, src).entries[k] == src[k]
    ensures k in m.entries && k !in ks ==> PutKeys(m, ks, src).entries[k] == m.entries[k]
  {
    if ks != [] {
      var init := ks[..|ks| - 1];
      var last := ks[|ks| - 1];
      assert forall x :: x in init ==> x in ks;
      PutKeysAt(m, init, src, k);
      assert k in ks <==> k in init || k == last;
    }
  }

  /** `array_merge($a, $b)` for string keys: the keys of `b` overwrite those of `a`; new keys go to the end. */
  function Merge<V>(a: OrderedMap<V>, b: OrderedMap<V>): (r: OrderedMap<V>)
    requires a.Valid() && b.Valid()
    ensures r.Valid()
    ensures forall k :: k in r.entries <==> k in a.entries || k in b.entries
    ensures forall k :: k in b.entries ==> r.entries[k] == b.entries[k]
    ensures forall k :: k in a.entries && k !in b.entries ==> r.entries[k] == a.entries[k]
    ensures a.keys <= r.keys
  {
    forall k ensures k in b.keys <==> k in b.entries {
    }
    forall k {
      PutKeysAt(a, b.keys, b.entries, k);
    }
    PutKeys(a, b.keys, b.entries)
  }

  /** The keys of `ks` not in `held`, in their order. */
  function Unseen(ks: seq<string>, held: set<string>): (r: seq<string>)
    ensures forall x :: x in r <==> x in ks && x !in held
    ensures |r| <= |ks|
  {
    if ks == [] then []
    else
      var last := ks[|ks| - 1];
      Unseen(ks[..|ks| - 1], held) + (if last in held then [] else [last])
  }

  /** Nothing held: every key is unseen. */
  lemma {:induction false} UnseenNothingHeld(ks: seq<string>)
    ensures Unseen(ks, {}) == ks
  {
    if ks != [] {
      UnseenNothingHeld(ks[..|ks| - 1]);
      assert ks == ks[..|ks| - 1] + [ks[|ks| - 1]];
    }
  }

  /** `Unseen` one key at a time, from the end. */
  lemma UnseenSnoc(ks: seq<string>, held: set<string>)
    requires ks != []
    ensures ks[|ks| - 1] in held ==> Unseen(ks, held) == Unseen(ks[..|ks| - 1], held)
    ensures ks[|ks| - 1] !in held ==> Unseen(ks, held) == Unseen(ks[..|ks| - 1], held) + [ks[|ks| - 1]]
  {
    assert Unseen(ks[..|ks| - 1], held) + [] == Unseen(ks[..|ks| - 1], held);
  }

  /** Dropping the last of distinct keys leaves distinct keys, none of them the last. */
  lemma DistinctInit(ks: seq<string>)
    requires Distinct(ks) && ks != []
    ensures Distinct(ks[..|ks| - 1]) && ks[|ks| - 1] !in ks[..|ks| - 1]
  {
    var init := ks[..|ks| - 1];
    forall i | 0 <= i < |init| ensures init[i] != ks[|ks| - 1] {
      assert ks[i] != ks[|ks| - 1];
    }
  }

  /** Writing distinct keys one by one: the old keys, then each written key that was new, in writing order. */
  lemma {:induction false} PutKeysOrder<V>(m: OrderedMap<V>, ks: seq<string>, src: map<string, V>)
    requires m.Valid() && Distinct(ks)
    requires forall k :: k in ks ==> k in src
    ensures PutKeys(m, ks, src).keys == m.keys + Unseen(ks, m.entries.Keys)
  {
    if ks != [] {
      var init := ks[..|ks| - 1];
      var last := ks[|ks| - 1];
      var held := m.entries.Keys;
      DistinctInit(ks);
      assert forall k :: k in init ==> k in ks;
      PutKeysOrder(m, init, src);
      PutKeysAt(m, init, src, last);
      var p := PutKeys(m, init, src);
      UnseenSnoc(ks, held);
      if last in held {
        calc {
          PutKeys(m, ks, src).keys;
          p.keys;
          m.keys + Unseen(init, held);
        }
      } else {
        calc {
          PutKeys(m, ks, src).keys;
          p.keys + [last];
          (m.keys + Unseen(init, held)) + [last];
          m.keys + (Unseen(init, held) + [last]);
        }
      }
    }
  }

  /** The key order of `array_merge($a, $b)`: the keys of `a`, then the keys of `b` that `a` lacks, in `b`'s order. */
  lemma MergeKeys<V>(a: OrderedMap<V>, b: OrderedMap<V>)
    requires a.Valid() && b.Valid()
    ensures Merge(a, b).keys == a.keys + Unseen(b.keys, a.entries.Keys)
  {
    forall k | k in b.keys ensures k in b.entries {
    }
    PutKeysOrder(a, b.keys, b.entries);
  }

  /** `array_merge([], $b)` is `$b`: same keys, same order, same values. */
  lemma MergeIntoEmpty<V>(b: OrderedMap<V>)
    requires b.Valid()
    ensures Merge(Empty(), b) == b
  {
    var e: OrderedMap<V> := Empty();
    var m := Merge(e, b);
    forall k ensures k in m.entries <==> k in b.entries {
    }
    forall k | k in b.entries ensures m.entries[k] == b.entries[k] {
    }
    assert m.entries == b.entries;
    MergeKeys(e, b);
    UnseenNothingHeld(b.keys);
  }

  /** The merge of all tables, left to right, as a loop of `array_merge` calls builds it. */
  function MergeAll<V>(ts: seq<OrderedMap<V>>): (r: OrderedMap<V>)
    requires forall i :: 0 <= i < |ts| ==> ts[i].Valid()
    ensures r.Valid()
  {
    if ts == [] then Empty() else Merge(MergeAll(ts[..|ts| - 1]), ts[|ts| - 1])
  }

  /** The index of the last table holding `k`, or -1 when none does. */
  function LastOwner<V>(ts: seq<OrderedMap<V>>, k: string): (j: int)
    ensures -1 <= j < |ts|
    ensures j >= 0 ==> k in ts[j].entries
    ensures forall i :: j < i < |ts| ==> k !in ts[i].entries
  {
    if ts == [] then -1
    else if k in ts[|ts| - 1].entries then |ts| - 1
    else LastOwner(ts[..|ts| - 1], k)
  }

  /**
   * A key is in the merge exactly when some table holds it, and the merge holds
   * the value of the last table that has the key.
   */
  lemma {:induction false} MergeAllEntries<V>(ts: seq<OrderedMap<V>>, k: string)
    requires forall i :: 0 <= i < |ts| ==> ts[i].Valid()
    ensures k in MergeAll(ts).entries <==> LastOwner(ts, k) >= 0
    ensures k in MergeAll(ts).entries ==> MergeAll(ts).entries[k] == ts[LastOwner(ts, k)].entries[k]
  {
    if ts != [] {
      var init := ts[..|ts| - 1];
      MergeAllEntries(init, k);
    }
  }

  /** Keys of earlier tables come first: merging a prefix of the tables gives a prefix of the keys. */
  lemma {:induction false} MergeAllPrefix<V>(ts: seq<OrderedMap<V>>, n: nat)
    requires forall i :: 0 <= i < |ts| ==> ts[i].Valid()
    requires n <= |ts|
    ensures MergeAll(ts[..n]).keys <= MergeAll(ts).keys
    decreases |ts|
  {
    if n < |ts| {
      var init := ts[..|ts| - 1];
      assert ts[..n] == init[..n];
      MergeAllPrefix(init, n);
    } else {
      assert ts[..n] == ts;
    }
  }

  /** The table with every value transformed by `f`, keys and order unchanged. */
  function MapValues<V, U>(m: OrderedMap<V>, f: V -> U): (r: OrderedMap<U>)
    requires m.Valid()
    ensures r.Valid() && r.keys == m.keys
    ensures forall k :: k in m.entries ==> k in r.entries && r.entries[k] == f(m.entries[k])
  {
    OrderedMap(m.keys, map k | k in m.entries :: f(m.entries[k]))
  }

  /** A table with the keys of `m`, in the same order, holding `f` of each value is `MapValues(m, f)`. */
  lemma MapValuesUnique<V, U>(m: OrderedMap<V>, f: V -> U, r: OrderedMap<U>)
    requires m.Valid() && r.Valid() && r.keys == m.keys
    requires forall k :: k in m.entries ==> k in r.entries && r.entries[k] == f(m.entries[k])
    ensures r == MapValues(m, f)
  {
    assert r.entries.Keys == m.entries.Keys;
    assert r.entries == MapValues(m, f).entries;
  }

  lemma MapValuesPut<V, U>(m: OrderedMap<V>, k: string, v: V, f: V -> U)
    requires m.Valid()
    ensures MapValues(Put(m, k, v), f) == Put(MapValues(m, f), k, f(v))
  {
    var mv := MapValues(m, f);
    var written := m.entries[k := v];
    var left := map x | x in written :: f(written[x]);
    var right := mv.entries[k := f(v)];
    assert k in mv.entries <==> k in m.entries;
    forall x | x in written ensures x in right && left[x] == right[x] {
    }
    assert left.Keys == right.Keys;
    assert left == right;
  }

  /** Transforming the values commutes with writing them one key at a time. */
  lemma {:induction false} MapValuesPutKeys<V, U>(m: OrderedMap<V>, ks: seq<string>, src: map<string, V>, f: V -> U)
    requires m.Valid()
    requires forall k :: k in ks ==> k in src
    ensures MapValues(PutKeys(m, ks, src), f)
         == PutKeys(MapValues(m, f), ks, map k | k in src :: f(src[k]))
  {
    var fsrc := map k | k in src :: f(src[k]);
    if ks != [] {
      var init := ks[..|ks| - 1];
      var last := ks[|ks| - 1];
      assert forall k :: k in init ==> k in ks;
      calc {
        MapValues(PutKeys(m, ks, src), f);
        MapValues(Put(PutKeys(m, init, src), last, src[last]), f);
        { MapValuesPut(PutKeys(m, init, src), last, src[last], f); }
        Put(MapValues(PutKeys(m, init, src), f), last, f(src[last]));
        { MapValuesPutKeys(m, init, src, f); }
        Put(PutKeys(MapValues(m, f), init, fsrc), last, fsrc[last]);
        PutKeys(MapValues(m, f), ks, fsrc);
      }
    }
  }

  /** Transforming the values commutes with `array_merge`. */
  lemma MapValuesMerge<V, U>(a: OrderedMap<V>, b: OrderedMap<V>, f: V -> U)
    requires a.Valid() && b.Valid()
    ensures MapValues(Merge(a, b), f) == Merge(MapValues(a, f), MapValues(b, f))
  {
    MapValuesPutKeys(a, b.keys, b.entries, f);
  }
}
