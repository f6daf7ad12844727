/** Scans, dump and restore over the `cluster` column family
    (src/placement-center/src/storage/rocksdb.rs, `write_all` in storage/raft.rs). */
module RocksEngine {
  import opened ByteOrder
  import opened OrderedStore
  import opened Utf8Text

  /** A Rust string: the bytes it is stored as. */
  type Text = bs: Key | Utf8(bs) witness []

  /** Every writer takes string keys and string values. */
  ghost predicate TextStore(m: map<Key, Key>) {
    forall k | k in m :: Utf8(k) && Utf8(m[k])
  }

  predicate StartsWith(k: Key, prefix: Key) {
    prefix <= k
  }

  // ---- keys with a common prefix form one block ----

  lemma {:induction false} PrefixNotBelow(p: Key, k: Key)
    requires StartsWith(k, p)
    ensures !Less(k, p)
  {
    if p != [] {
      PrefixNotBelow(p[1..], k[1..]);
    }
  }

  lemma {:induction false} PrefixBlock(p: Key, k: Key, later: Key)
    requires !Less(k, p) && !StartsWith(k, p) && Less(k, later)
    ensures !StartsWith(later, p)
  {
    if p != [] && k != [] && later != [] {
      StartsWithTail(k, p);
      StartsWithTail(later, p);
      if k[0] == p[0] == later[0] {
        PrefixBlock(p[1..], k[1..], later[1..]);
      }
    }
  }

  lemma StartsWithTail(k: Key, p: Key)
    requires k != [] && p != []
    ensures StartsWith(k, p) <==> k[0] == p[0] && StartsWith(k[1..], p[1..])
  {
    if k[0] == p[0] && StartsWith(k[1..], p[1..]) {
      assert k == [k[0]] + k[1..] && p == [p[0]] + p[1..];
    }
  }

  // ---- scan results ----

  /** The source pushes one single-entry map per key. */
  function RowsOf(m: map<Key, Key>, keys: seq<Key>): (rows: seq<map<Key, Key>>)
    requires forall k | k in keys :: k in m
    ensures |rows| == |keys|
  {
    seq(|keys|, i requires 0 <= i < |keys| => map[keys[i] := m[keys[i]]])
  }

  /** `Spins` is the loop that skips a key without advancing the cursor. */
  datatype Scan = Spins | Done(rows: seq<map<Key, Key>>)

  class RocksDBEngine {
    var cluster: map<Key, Key>

    constructor ()
      ensures cluster == map[]
    {
      cluster := map[];
    }

    method WriteStr(key: Text, value: Text)
      modifies this
      ensures cluster == old(cluster)[key := value]
      ensures old(TextStore(cluster)) ==> TextStore(cluster)
    {
      cluster := cluster[key := value];
    }

    method Delete(key: Text)
      modifies this
      ensures cluster == old(cluster) - {key}
      ensures old(TextStore(cluster)) ==> TextStore(cluster)
    {
      cluster := cluster - {key};
    }

    /** The cursor loop of `read_prefix`, from position `first`. It stops at the first key that
        is not a text with the prefix: by leaving the loop if it is text, by spinning if not. */
    method PrefixLoop(order: seq<Key>, first: nat, searchKey: Text) returns (r: Scan, ghost end: nat)
      requires forall k | k in order :: k in cluster
      requires first <= |order|
      ensures first <= end <= |order|
      ensures forall p | first <= p < end :: Utf8(order[p]) && StartsWith(order[p], searchKey)
      ensures end < |order| ==> !Utf8(order[end]) || !StartsWith(order[end], searchKey)
      ensures r == if end < |order| && !Utf8(order[end]) then Spins else Done(RowsOf(cluster, order[first..end]))
    {
      var result: seq<map<Key, Key>> := [];
      end := first;
      for at := first to |order|
        invariant end == at
        invariant result == RowsOf(cluster, order[first..at])
        invariant forall p | first <= p < at :: Utf8(order[p]) && StartsWith(order[p], searchKey)
      {
        var key := order[at];
        if !Utf8(key) {
          return Spins, end;
        }
        if !StartsWith(key, searchKey) {
          return Done(result), end;
        }
        assert order[first..at + 1] == order[first..at] + [key];
        result := result + [map[key := cluster[key]]];
        end := at + 1;
      }
      r := Done(result);
    }

    /** Exactly the bindings whose key starts with the prefix, in key order. The loop never ends
        exactly when a non-text key comes up while every key before it, from the seek point on,
        has the prefix. */
    method ReadPrefix(searchKey: Text) returns (r: Scan, ghost keys: seq<Key>)
      ensures r.Spins? <==> exists bad :: SpinsOn(cluster, searchKey, bad)
      ensures TextStore(cluster) ==> r.Done?
      ensures r.Done? ==>
        && Ascending(keys)
        && (forall k :: k in keys <==> k in cluster && StartsWith(k, searchKey))
        && r.rows == RowsOf(cluster, keys)
    {
      var order := SortedKeys(cluster.Keys);
      var first := Seek(order, searchKey);
      ghost var end;
      r, end := PrefixLoop(order, first, searchKey);
      keys := order[first..end];
      SpinExact(cluster, order, searchKey, first, end);
      if r.Done? {
        BlockIsPrefix(cluster, order, searchKey, first, end);
      } else {
        assert order[end] in order;
      }
    }

    /** Every text binding once, in key order; others are logged and left out. */
    method ReadAllByCf() returns (rows: seq<map<Key, Key>>, ghost keys: seq<Key>)
      ensures Ascending(keys)
      ensures forall k :: k in keys <==> k in cluster && Utf8(k) && Utf8(cluster[k])
      ensures rows == RowsOf(cluster, keys)
    {
      var order := SortedKeys(cluster.Keys);
      rows, keys := AllLoop(order);
    }

    method AllLoop(order: seq<Key>) returns (rows: seq<map<Key, Key>>, ghost keys: seq<Key>)
      requires forall k :: k in order <==> k in cluster
      requires Ascending(order)
      ensures Ascending(keys)
      ensures forall k :: k in keys <==> k in cluster && Utf8(k) && Utf8(cluster[k])
      ensures rows == RowsOf(cluster, keys)
    {
      rows, keys := [], [];
      var at := 0;
      while at < |order|
        invariant at <= |order|
        invariant Ascending(keys)
        invariant forall k :: k in keys <==> k in order[..at] && Utf8(k) && Utf8(cluster[k])
        invariant rows == RowsOf(cluster, keys)
      {
        var key := order[at];
        assert order[..at + 1] == order[..at] + [key];
        if Utf8(key) && Utf8(cluster[key]) {
          AscendingSnoc(keys, order, at);
          rows := rows + [map[key := cluster[key]]];
          keys := keys + [key];
        }
        at := at + 1;
      }
      assert order[..|order|] == order;
    }
  }

  lemma AscendingSnoc(keys: seq<Key>, order: seq<Key>, at: nat)
    requires Ascending(keys) && Ascending(order) && at < |order|
    requires forall k | k in keys :: k in order[..at]
    ensures Ascending(keys + [order[at]])
  {
    forall i | 0 <= i < |keys| ensures Less(keys[i], order[at]) {
      assert keys[i] in keys;
      var j :| 0 <= j < at && order[j] == keys[i];
    }
  }

  /** A non-text key that the scan reaches. */
  ghost predicate SpinsOn(m: map<Key, Key>, searchKey: Key, bad: Key) {
    && bad in m && !Less(bad, searchKey) && !Utf8(bad)
    && forall k | k in m && !Less(k, searchKey) && Less(k, bad) :: Utf8(k) && StartsWith(k, searchKey)
  }

  lemma SpinExact(m: map<Key, Key>, order: seq<Key>, searchKey: Key, first: nat, end: nat)
    requires Ascending(order) && forall k :: k in order <==> k in m
    requires first == Seek(order, searchKey) <= end <= |order|
    requires forall p | first <= p < end :: Utf8(order[p]) && StartsWith(order[p], searchKey)
    requires end < |order| ==> !Utf8(order[end]) || !StartsWith(order[end], searchKey)
    ensures (exists bad :: SpinsOn(m, searchKey, bad)) <==> end < |order| && !Utf8(order[end])
  {
    if end < |order| && !Utf8(order[end]) {
      var bad := order[end];
      assert bad in order;
      forall k | k in m && !Less(k, searchKey) && Less(k, bad) ensures Utf8(k) && StartsWith(k, searchKey) {
        Between(m, order, searchKey, first, end, k);
      }
      assert SpinsOn(m, searchKey, bad);
    }
    if bad :| SpinsOn(m, searchKey, bad) {
      var p := PositionOf(order, bad);
      assert end <= p;
      if end < p {
        assert Less(order[end], bad);
        assert order[end] in order;
      }
    }
  }

  lemma PositionOf(order: seq<Key>, k: Key) returns (p: nat)
    requires k in order
    ensures p < |order| && order[p] == k
  {
    p :| 0 <= p < |order| && order[p] == k;
  }

  /** A stored key at or above the seek point and below position `end` sits in between. */
  lemma Between(m: map<Key, Key>, order: seq<Key>, searchKey: Key, first: nat, end: nat, k: Key)
    requires Ascending(order) && forall o :: o in order <==> o in m
    requires first == Seek(order, searchKey) <= end < |order|
    requires k in m && !Less(k, searchKey) && Less(k, order[end])
    ensures exists p :: first <= p < end && order[p] == k
  {
    assert k in order;
    var p := PositionOf(order, k);
    if p >= end {
      LessTrichotomy(k, order[end]);
    }
  }

  lemma BlockIsPrefix(m: map<Key, Key>, order: seq<Key>, searchKey: Key, first: nat, end: nat)
    requires Ascending(order) && forall k :: k in order <==> k in m
    requires first == Seek(order, searchKey) <= end <= |order|
    requires forall p | first <= p < end :: StartsWith(order[p], searchKey)
    requires end < |order| ==> !StartsWith(order[end], searchKey)
    ensures Ascending(order[first..end])
    ensures forall k :: k in order[first..end] <==> k in m && StartsWith(k, searchKey)
  {
    forall k | k in m && StartsWith(k, searchKey) ensures k in order[first..end] {
      assert k in order;
      var p := PositionOf(order, k);
      PrefixNotBelow(searchKey, k);
      assert first <= p;
      if p >= end {
        if p > end { PrefixBlock(searchKey, order[end], k); }
      }
      assert order[first..end][p - first] == k;
    }
    forall k | k in order[first..end] ensures k in m && StartsWith(k, searchKey) {
      var i := PositionOf(order[first..end], k);
      assert order[first + i] == k;
      assert k in order;
    }
  }

  // ---- dump and restore ----

  const CLUSTER_FAMILY := "cluster"

  /** What `read_all` returns and a snapshot carries: rows by column family. */
  type Dump = map<string, seq<map<Key, Key>>>

  function Overlay(m: map<Key, Key>, rows: seq<map<Key, Key>>): map<Key, Key> {
    if rows == [] then m else Overlay(m, rows[..|rows| - 1]) + rows[|rows| - 1]
  }

  function Families(d: Dump, order: seq<string>): (rows: seq<map<Key, Key>>)
    requires forall f | f in order :: f in d
  {
    if order == [] then [] else Families(d, order[..|order| - 1]) + d[order[|order| - 1]]
  }

  /** Each family once, in some order: a hash map's iteration. */
  ghost predicate Enumerates(order: seq<string>, s: set<string>) {
    (forall f :: f in order <==> f in s) && |order| == |s|
  }

  method ReadAll(engine: RocksDBEngine) returns (d: Dump, ghost keys: seq<Key>)
    ensures Ascending(keys)
    ensures forall k :: k in keys <==> k in engine.cluster && Utf8(k) && Utf8(engine.cluster[k])
    ensures d == map[CLUSTER_FAMILY := RowsOf(engine.cluster, keys)]
  {
    var rows;
    rows, keys := engine.ReadAllByCf();
    d := map[CLUSTER_FAMILY := rows];
  }

  /** A dump is typed as strings: decoding it yields only text. */
  ghost predicate TextRows(rows: seq<map<Key, Key>>) {
    forall raw | raw in rows :: forall k | k in raw :: Utf8(k) && Utf8(raw[k])
  }

  ghost predicate TextDump(d: Dump) {
    forall f | f in d :: TextRows(d[f])
  }

  function Restrict(m: map<Key, Key>, keys: set<Key>): map<Key, Key> {
    map k | k in m && k in keys :: m[k]
  }

  lemma RestrictGrows(base: map<Key, Key>, m: map<Key, Key>, keys: set<Key>, k: Key)
    requires k in m
    ensures base + Restrict(m, keys + {k}) == (base + Restrict(m, keys))[k := m[k]]
  {
  }

  /** Writes one row: its keys in any order. */
  method WriteRow(engine: RocksDBEngine, raw: map<Key, Key>)
    requires forall k | k in raw :: Utf8(k) && Utf8(raw[k])
    modifies engine
    ensures engine.cluster == old(engine.cluster) + raw
  {
    hide Utf8;
    var left := raw.Keys;
    while left != {}
      invariant left <= raw.Keys
      invariant engine.cluster == old(engine.cluster) + Restrict(raw, raw.Keys - left)
      decreases |left|
    {
      var key :| key in left;
      RestrictGrows(old(engine.cluster), raw, raw.Keys - left, key);
      assert raw.Keys - left + {key} == raw.Keys - (left - {key});
      engine.WriteStr(key, raw[key]);
      left := left - {key};
    }
    assert Restrict(raw, raw.Keys - left) == raw;
  }

  method WriteRows(engine: RocksDBEngine, rows: seq<map<Key, Key>>)
    requires TextRows(rows)
    modifies engine
    ensures engine.cluster == Overlay(old(engine.cluster), rows)
  {
    for n := 0 to |rows|
      invariant engine.cluster == Overlay(old(engine.cluster), rows[..n])
    {
      assert rows[..n + 1][..n] == rows[..n];
      assert rows[n] in rows;
      WriteRow(engine, rows[n]);
    }
    assert rows[..|rows|] == rows;
  }

  /** After the families of `order`: `cluster` is the start overlaid by their rows. */
  ghost predicate Overlaid(start: map<Key, Key>, cluster: map<Key, Key>, d: Dump, order: seq<string>) {
    (forall f | f in order :: f in d) && cluster == Overlay(start, Families(d, order))
  }

  /** Every family of the dump goes into the one column family, in the hash map's order. */
  method WriteAll(engine: RocksDBEngine, d: Dump) returns (ghost order: seq<string>)
    requires TextDump(d)
    modifies engine
    ensures Enumerates(order, d.Keys)
    ensures engine.cluster == Overlay(old(engine.cluster), Families(d, order))
  {
    hide Utf8, Overlay, Families, Overlaid, Enumerates;
    NoFamilies(engine.cluster, d);
    order := [];
    var left := d.Keys;
    assert d.Keys - left == {};
    while left != {}
      invariant left <= d.Keys
      invariant Enumerates(order, d.Keys - left)
      invariant Overlaid(old(engine.cluster), engine.cluster, d, order)
      decreases |left|
    {
      var family :| family in left;
      FamilyStep(old(engine.cluster), engine.cluster, d, order, left, family);
      WriteRows(engine, d[family]);
      order := order + [family];
      left := left - {family};
    }
    assert d.Keys - left == d.Keys;
    OverlaidIs(old(engine.cluster), engine.cluster, d, order);
  }

  /** Writing the rows of one more family. */
  lemma FamilyStep(start: map<Key, Key>, cluster: map<Key, Key>, d: Dump, order: seq<string>, left: set<string>, family: string)
    requires left <= d.Keys && family in left
    requires Enumerates(order, d.Keys - left) && Overlaid(start, cluster, d, order)
    ensures Enumerates(order + [family], d.Keys - (left - {family}))
    ensures Overlaid(start, Overlay(cluster, d[family]), d, order + [family])
  {
    hide Overlay, Families;
    OverlayConcat(start, Families(d, order), d[family]);
    FamiliesSnoc(d, order, family);
    assert d.Keys - (left - {family}) == (d.Keys - left) + {family};
  }

  lemma OverlaidIs(start: map<Key, Key>, cluster: map<Key, Key>, d: Dump, order: seq<string>)
    requires Overlaid(start, cluster, d, order)
    ensures (forall f | f in order :: f in d) && cluster == Overlay(start, Families(d, order))
  {
  }

  lemma NoFamilies(m: map<Key, Key>, d: Dump)
    ensures Overlaid(m, m, d, []) && Enumerates([], {})
  {
  }

  lemma FamiliesSnoc(d: Dump, order: seq<string>, family: string)
    requires family in d && forall f | f in order :: f in d
    ensures Families(d, order + [family]) == Families(d, order) + d[family]
  {
    assert (order + [family])[..|order|] == order;
  }

  lemma {:induction false} OverlayConcat(m: map<Key, Key>, a: seq<map<Key, Key>>, b: seq<map<Key, Key>>)
    ensures Overlay(m, a + b) == Overlay(Overlay(m, a), b)
  {
    if b == [] {
      assert a + b == a;
    } else {
      assert (a + b)[..|a + b| - 1] == a + b[..|b| - 1];
      OverlayConcat(m, a, b[..|b| - 1]);
    }
  }

  function KeySet(keys: seq<Key>): set<Key> {
    set k | k in keys
  }

  lemma RowsSnoc(source: map<Key, Key>, init: seq<Key>, last: Key)
    requires forall k | k in init + [last] :: k in source
    ensures last in source && forall k | k in init :: k in source
    ensures RowsOf(source, init + [last]) == RowsOf(source, init) + [map[last := source[last]]]
    ensures KeySet(init + [last]) == KeySet(init) + {last}
  {
    assert forall k :: k in init + [last] <==> k in init || k == last;
  }

  /** Writing a listing of `keys` over a target overrides exactly those keys. */
  lemma {:induction false} OverlayRows(target: map<Key, Key>, source: map<Key, Key>, keys: seq<Key>)
    requires forall k | k in keys :: k in source
    ensures Overlay(target, RowsOf(source, keys)) == target + Restrict(source, KeySet(keys))
  {
    hide RowsOf, KeySet, Restrict;
    if keys == [] {
      EmptyListing(target, source);
    } else {
      var init, last := keys[..|keys| - 1], keys[|keys| - 1];
      assert keys == init + [last];
      RowsSnoc(source, init, last);
      OverlayRows(target, source, init);
      OverlayConcat(target, RowsOf(source, init), [map[last := source[last]]]);
      OverlayOne(Overlay(target, RowsOf(source, init)), map[last := source[last]]);
      RestrictGrows(target, source, KeySet(init), last);
    }
  }

  lemma EmptyListing(target: map<Key, Key>, source: map<Key, Key>)
    ensures Overlay(target, RowsOf(source, [])) == target + Restrict(source, KeySet([]))
  {
  }

  lemma OverlayOne(m: map<Key, Key>, row: map<Key, Key>)
    ensures Overlay(m, [row]) == m + row
  {
    assert [row][..0] == [];
  }

  lemma OneFamily(rows: seq<map<Key, Key>>, order: seq<string>)
    requires Enumerates(order, {CLUSTER_FAMILY})
    ensures Families(map[CLUSTER_FAMILY := rows], order) == rows
  {
    assert order[0] in order;
    assert order == [CLUSTER_FAMILY];
    assert order[..0] == [];
  }

  lemma RowsAreText(m: map<Key, Key>, keys: seq<Key>)
    requires TextStore(m) && forall k | k in keys :: k in m
    ensures TextDump(map[CLUSTER_FAMILY := RowsOf(m, keys)])
  {
    hide Utf8;
    forall raw | raw in RowsOf(m, keys) ensures forall k | k in raw :: Utf8(k) && Utf8(raw[k]) {
      var i :| 0 <= i < |keys| && RowsOf(m, keys)[i] == raw;
      assert keys[i] in keys;
    }
  }

  lemma RestrictToAll(m: map<Key, Key>, keys: seq<Key>)
    requires forall k | k in m :: k in keys
    ensures Restrict(m, KeySet(keys)) == m
  {
  }

  /** Dump and restore: the target ends up overridden by every source binding and otherwise
      unchanged. On an empty target that is a copy, and restoring again changes nothing. */
  method DumpAndRestore(source: RocksDBEngine, target: RocksDBEngine)
    requires source != target && TextStore(source.cluster)
    modifies target
    ensures target.cluster == old(target.cluster) + source.cluster
    ensures old(target.cluster) == map[] ==> target.cluster == source.cluster
    ensures target.cluster + source.cluster == target.cluster
  {
    hide *;
    ghost var before := target.cluster;
    var d;
    ghost var keys;
    d, keys := ReadAll(source);
    AllKeysListed(source.cluster, keys);
    RowsAreText(source.cluster, keys);
    ghost var order := WriteAll(target, d);
    RestoredIs(before, source.cluster, keys, order);
    OverrideLaws(before, source.cluster);
  }

  lemma AllKeysListed(m: map<Key, Key>, keys: seq<Key>)
    requires TextStore(m)
    requires forall k :: k in keys <==> k in m && Utf8(k) && Utf8(m[k])
    ensures forall k :: k in keys <==> k in m
  {
    hide Utf8;
  }

  lemma RestoredIs(target: map<Key, Key>, source: map<Key, Key>, keys: seq<Key>, order: seq<string>)
    requires forall k :: k in keys <==> k in source
    requires Enumerates(order, (map[CLUSTER_FAMILY := RowsOf(source, keys)]).Keys)
    ensures Overlay(target, Families(map[CLUSTER_FAMILY := RowsOf(source, keys)], order)) == target + source
  {
    hide Overlay, Families, RowsOf, Restrict, KeySet;
    assert (map[CLUSTER_FAMILY := RowsOf(source, keys)]).Keys == {CLUSTER_FAMILY};
    OneFamily(RowsOf(source, keys), order);
    OverlayRows(target, source, keys);
    RestrictToAll(source, keys);
  }

  lemma OverrideLaws(target: map<Key, Key>, source: map<Key, Key>)
    ensures target == map[] ==> target + source == source
    ensures (target + source) + source == target + source
  {
  }
}
