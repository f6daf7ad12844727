/** The openraft log (src/placement-center/src/openraft/store/log_store.rs). */
module OpenraftLog {
  import opened RaftTypes
  import opened ByteOrder
  import opened OrderedStore
  import opened Disk

  datatype Bound = Included(x: U64) | Excluded(x: U64) | Unbounded

  datatype IndexRange = IndexRange(lower: Bound, upper: Bound)

  /** Rust's `RangeBounds::contains`. */
  predicate Contains(r: IndexRange, i: U64) {
    && (match r.lower case Included(x) => x <= i case Excluded(x) => x < i case Unbounded => true)
    && (match r.upper case Included(x) => i <= x case Excluded(x) => i < x case Unbounded => true)
  }

  /** `Panicked` stands for a failed assertion in the source. */
  datatype ReadOutcome = Panicked | Entries(entries: seq<Entry>)

  datatype LogState = LogState(lastPurged: Option<LogId>, lastLogId: Option<LogId>)

  // ---- the stored log, by index ----

  ghost predicate AscendingIndex(es: seq<Entry>) {
    forall i, j | 0 <= i < j < |es| :: es[i].logId.index < es[j].logId.index
  }

  ghost predicate StoredEntry(logs: map<U64, Entry>, e: Entry) {
    exists id :: id in logs && logs[id] == e
  }

  /** `es` lists, by ascending index and without repeats, exactly the stored entries in range. */
  ghost predicate IsRead(logs: map<U64, Entry>, r: IndexRange, es: seq<Entry>) {
    && AscendingIndex(es)
    && (forall e :: e in es <==> StoredEntry(logs, e) && Contains(r, e.logId.index))
  }

  function Put(logs: map<U64, Entry>, e: Entry): map<U64, Entry> {
    logs[e.logId.index := e]
  }

  function PutAll(logs: map<U64, Entry>, es: seq<Entry>): map<U64, Entry> {
    if es == [] then logs else Put(PutAll(logs, es[..|es| - 1]), es[|es| - 1])
  }

  /** What `truncate` leaves: the upper end of its key range is the largest index, exclusive. */
  function CutFrom(logs: map<U64, Entry>, index: U64): map<U64, Entry> {
    map id | id in logs && !(index <= id < MAX_U64) :: logs[id]
  }

  /** What `purge` leaves: the upper end of its key range is `index + 1`, exclusive. */
  function CutThrough(logs: map<U64, Entry>, index: U64): map<U64, Entry> {
    map id | id in logs && !(0 <= id < WrapSucc(index)) :: logs[id]
  }

  ghost predicate IsGreatest(id: U64, ids: set<U64>) {
    id in ids && forall o | o in ids :: o <= id
  }

  lemma {:induction false} GreatestExists(ids: set<U64>)
    requires ids != {}
    ensures exists id :: IsGreatest(id, ids)
  {
    var some :| some in ids;
    var rest := ids - {some};
    if rest == {} {
      assert ids == {some};
      assert IsGreatest(some, ids);
    } else {
      GreatestExists(rest);
      var g :| IsGreatest(g, rest);
      assert ids == rest + {some};
      assert IsGreatest(if g < some then some else g, ids);
    }
  }

  /** The id of the last log entry, or the purge point of an empty log. */
  ghost function LastLogId(d: Image): Option<LogId> {
    if d.logs == map[] then LastPurged(d)
    else
      GreatestExists(d.logs.Keys);
      var id :| IsGreatest(id, d.logs.Keys);
      Some(d.logs[id].logId)
  }

  // ---- the stored log, by key ----

  /** Every key is the 8-byte key of its entry's own index. */
  ghost predicate WellKeyed(logs: map<Key, Entry>) {
    forall k | k in logs :: |k| == 8 && BinToId(k) == logs[k].logId.index
  }

  /** The source decodes the first eight bytes of a key; a shorter one cannot be decoded. */
  predicate OwnKey(k: Key, e: Entry) {
    |k| >= 8 && BinToId(k) == e.logId.index
  }

  /** A key that is not its entry's own, from the seek point on, with only entries in range and
      under their own keys before it. */
  ghost predicate Trips(logs: map<Key, Entry>, r: IndexRange, bad: Key) {
    && bad in logs && !Less(bad, StartKey(r.lower)) && !OwnKey(bad, logs[bad])
    && forall k | k in logs && !Less(k, StartKey(r.lower)) && Less(k, bad) ::
         OwnKey(k, logs[k]) && Contains(r, logs[k].logId.index)
  }

  /** The key the range scan seeks to. */
  function StartKey(lower: Bound): (key: Key)
    ensures |key| == 8
  {
    match lower
    case Included(x) => IdToBin(x)
    case Excluded(x) => IdToBin(WrapSucc(x))
    case Unbounded => IdToBin(0)
  }

  /** The entries under `keys`, in that order. */
  function Listed(logs: map<Key, Entry>, keys: seq<Key>): (es: seq<Entry>)
    requires forall k | k in keys :: k in logs
    ensures |es| == |keys| && forall i | 0 <= i < |es| :: es[i] == logs[keys[i]]
  {
    seq(|keys|, i requires 0 <= i < |keys| => logs[keys[i]])
  }

  /** A handle on the shared database; `get_log_reader` clones the handle. */
  class LogStore {
    const db: Db

    constructor (db: Db)
      ensures this.db == db
    {
      this.db := db;
    }

    /** The iterator chain of the range read: check each entry's key, then keep entries
        while they are in range. */
    method TakeWhileInRange(order: seq<Key>, first: nat, range: IndexRange) returns (r: ReadOutcome, ghost end: nat)
      requires forall k | k in order :: k in db.logs
      requires first <= |order|
      ensures first <= end <= |order|
      ensures r.Panicked? <==> end < |order| && !OwnKey(order[end], db.logs[order[end]])
      ensures forall p | first <= p < end :: OwnKey(order[p], db.logs[order[p]])
      ensures forall p | first <= p < end :: Contains(range, db.logs[order[p]].logId.index)
      ensures r.Entries? ==> r.entries == Listed(db.logs, order)[first..end]
      ensures r.Entries? && end < |order| ==> !Contains(range, Listed(db.logs, order)[end].logId.index)
    {
      ghost var all := Listed(db.logs, order);
      var out: seq<Entry> := [];
      end := first;
      for i := first to |order|
        invariant end == i
        invariant out == all[first..i]
        invariant forall p | first <= p < i :: OwnKey(order[p], all[p]) && Contains(range, all[p].logId.index)
      {
        var key := order[i];
        var entry := db.logs[key];
        if !OwnKey(key, entry) {
          return Panicked, end;
        }
        if !Contains(range, BinToId(key)) {
          return Entries(out), end;
        }
        assert all[first..i + 1] == all[first..i] + [all[i]];
        out := out + [entry];
        end := i + 1;
      }
      r := Entries(out);
    }

    /** The source's assertion fires exactly when the scan comes to an entry under a key not its
        own; so never in a well-keyed log, where stopping at the first miss returns exactly the
        entries in range. */
    method TryGetLogEntries(range: IndexRange) returns (r: ReadOutcome)
      ensures r.Panicked? <==> exists bad :: Trips(db.logs, range, bad)
      ensures WellKeyed(db.logs) ==> r.Entries? && IsRead(db.Durable().logs, range, r.entries)
    {
      var order := SortedKeys(db.logs.Keys);
      var first := Seek(order, StartKey(range.lower));
      ghost var end;
      r, end := TakeWhileInRange(order, first, range);
      TripExact(db.logs, range, order, first, end);
      if WellKeyed(db.logs) {
        OutsideScan(db.logs, range, order, first, end);
        StretchIsRead(db.logs, range, order, first, end);
      }
    }

    /** The last entry is the one under the greatest key, whatever its key is; in a well-keyed log
        that is the entry with the greatest index. */
    method GetLogState() returns (s: LogState)
      ensures s.lastPurged == LastPurged(db.Durable())
      ensures db.logs == map[] ==> s.lastLogId == s.lastPurged
      ensures forall k | IsLastKey(k, db.logs.Keys) :: s.lastLogId == Some(db.logs[k].logId)
      ensures WellKeyed(db.logs) ==> s.lastLogId == LastLogId(db.Durable())
    {
      var order := SortedKeys(db.logs.Keys);
      var purged := LastPurged(db.Durable());
      LastKeyIsLast(db.logs.Keys, order);
      if WellKeyed(db.logs) {
        LastKeyIsLastId(db.Durable(), db.logs, order);
      }
      if order == [] {
        s := LogState(purged, purged);
      } else {
        s := LogState(purged, Some(db.logs[order[|order| - 1]].logId));
      }
    }

    method SaveCommitted(id: Option<LogId>)
      modifies db
      ensures db.Durable() == WithCommitted(old(db.Durable()), id)
      ensures db.logs == old(db.logs)
    {
      db.store := db.store[COMMITTED_KEY := CommittedRecord(id)];
    }

    method ReadCommitted() returns (id: Option<LogId>)
      ensures id == SavedCommitted(db.Durable())
    {
      id := if COMMITTED_KEY in db.store && db.store[COMMITTED_KEY].CommittedRecord?
            then db.store[COMMITTED_KEY].committed else None;
    }

    method Append(entries: seq<Entry>)
      modifies db
      ensures db.Durable() == old(db.Durable()).(logs := PutAll(old(db.Durable()).logs, entries))
      ensures old(WellKeyed(db.logs)) ==> WellKeyed(db.logs)
    {
      hide ById, IdToBin, BinToId;
      for n := 0 to |entries|
        invariant db.store == old(db.store)
        invariant ById(db.logs) == PutAll(ById(old(db.logs)), entries[..n])
        invariant old(WellKeyed(db.logs)) ==> WellKeyed(db.logs)
      {
        var index := entries[n].logId.index;
        var id := IdToBin(index);
        // the source's own assertion on the key
        assert BinToId(id) == index by { IdRoundTrip(index); }
        PutById(db.logs, index, entries[n]);
        db.logs := db.logs[id := entries[n]];
        assert entries[..n + 1][..n] == entries[..n];
      }
      assert entries[..|entries|] == entries;
    }

    method Truncate(id: LogId)
      modifies db
      ensures db.Durable() == old(db.Durable()).(logs := CutFrom(old(db.Durable()).logs, id.index))
      ensures old(WellKeyed(db.logs)) ==> WellKeyed(db.logs)
    {
      DeleteRangeById(db.logs, id.index, 0xff_ff_ff_ff_ff_ff_ff_ff);
      var from := IdToBin(id.index);
      var to := IdToBin(0xff_ff_ff_ff_ff_ff_ff_ff);
      db.logs := DeleteRange(db.logs, from, to);
    }

    method SetLastPurged(id: LogId)
      modifies db
      ensures db.Durable() == WithPurged(old(db.Durable()), id)
      ensures db.logs == old(db.logs)
    {
      db.store := db.store[PURGED_KEY := LogIdRecord(id)];
    }

    /** Records the purge point first, then deletes. */
    method Purge(id: LogId)
      modifies db
      ensures db.Durable() == WithPurged(old(db.Durable()), id).(logs := CutThrough(old(db.Durable()).logs, id.index))
      ensures old(WellKeyed(db.logs)) ==> WellKeyed(db.logs)
    {
      hide ById, IdToBin, BinToId;
      SetLastPurged(id);
      DeleteRangeById(db.logs, 0, WrapSucc(id.index));
      var from := IdToBin(0);
      var to := IdToBin(WrapSucc(id.index));
      db.logs := DeleteRange(db.logs, from, to);
    }
  }

  // ---- range reads ----

  lemma AscendsFrom(order: seq<Key>, i: nat, j: nat)
    requires Ascending(order) && i <= j < |order|
    ensures order[i] in order && (i == j || Less(order[i], order[j]))
  {
  }

  lemma TripExact(logs: map<Key, Entry>, r: IndexRange, order: seq<Key>, first: nat, end: nat)
    requires Ascending(order) && forall k :: k in order <==> k in logs
    requires first == Seek(order, StartKey(r.lower)) <= end <= |order|
    requires forall p | first <= p < end :: OwnKey(order[p], logs[order[p]]) && Contains(r, logs[order[p]].logId.index)
    requires end < |order| ==>
      !OwnKey(order[end], logs[order[end]]) || !Contains(r, logs[order[end]].logId.index)
    ensures (exists bad :: Trips(logs, r, bad)) <==> end < |order| && !OwnKey(order[end], logs[order[end]])
  {
    hide Less, OwnKey, Contains, StartKey;
    if end < |order| && !OwnKey(order[end], logs[order[end]]) {
      var bad := order[end];
      assert bad in order;
      forall k | k in logs && !Less(k, StartKey(r.lower)) && Less(k, bad)
        ensures OwnKey(k, logs[k]) && Contains(r, logs[k].logId.index)
      {
        assert k in order;
        var p :| 0 <= p < |order| && order[p] == k;
        if p >= end { LessTrichotomy(k, bad); }
      }
      assert Trips(logs, r, bad);
    }
    if bad :| Trips(logs, r, bad) {
      assert bad in order;
      var p :| 0 <= p < |order| && order[p] == bad;
      assert end <= p;
      AscendsFrom(order, end, p);
    }
  }

  /** Keys below the seek point are out of range; keys from there on fail no lower bound
      unless the range is empty anyway. */
  lemma SeekSkipsOnlyOutOfRange(r: IndexRange, key: Key)
    requires |key| == 8
    ensures Less(key, StartKey(r.lower)) ==> !Contains(r, BinToId(key))
    ensures !Less(key, StartKey(r.lower)) && !Contains(r, BinToId(key)) ==>
      forall i: U64 | BinToId(key) <= i :: !Contains(r, i)
  {
    KeyOrderIsIdOrder(key, StartKey(r.lower));
    match r.lower
    case Included(x) => IdRoundTrip(x);
    case Excluded(x) => IdRoundTrip(WrapSucc(x));
    case Unbounded => IdRoundTrip(0);
  }

  lemma ListedAscends(logs: map<Key, Entry>, order: seq<Key>)
    requires WellKeyed(logs)
    requires Ascending(order) && forall k | k in order :: k in logs
    ensures AscendingIndex(Listed(logs, order))
  {
    forall i, j | 0 <= i < j < |order| ensures logs[order[i]].logId.index < logs[order[j]].logId.index {
      assert order[i] in logs && order[j] in logs;
      KeyOrderIsIdOrder(order[i], order[j]);
    }
  }

  /** Keys before the seek point are out of range; so is everything from the first miss on. */
  lemma ScanBounds(logs: map<Key, Entry>, r: IndexRange, order: seq<Key>, first: nat, end: nat, p: nat)
    requires WellKeyed(logs)
    requires Ascending(order) && forall k | k in order :: k in logs
    requires first == Seek(order, StartKey(r.lower)) <= end <= |order|
    requires end < |order| ==> !Contains(r, logs[order[end]].logId.index)
    requires p < |order| && (p < first || end <= p)
    ensures order[p] in logs && !Contains(r, logs[order[p]].logId.index)
  {
    assert order[p] in order;
    SeekSkipsOnlyOutOfRange(r, order[p]);
    if end < p {
      assert order[end] in order;
      SeekSkipsOnlyOutOfRange(r, order[end]);
      ListedAscends(logs, order);
      assert Listed(logs, order)[end].logId.index < Listed(logs, order)[p].logId.index;
    }
  }

  lemma ListedIsStored(logs: map<Key, Entry>, order: seq<Key>, e: Entry)
    requires forall k :: k in order <==> k in logs
    requires WellKeyed(logs)
    ensures e in Listed(logs, order) <==> StoredEntry(ById(logs), e)
  {
    if e in Listed(logs, order) {
      var p :| 0 <= p < |order| && Listed(logs, order)[p] == e;
      assert order[p] in order;
      BinRoundTrip(order[p]);
      assert BinToId(order[p]) in ById(logs);
    }
    if StoredEntry(ById(logs), e) {
      var id :| id in ById(logs) && ById(logs)[id] == e;
      var k := IdToBin(id);
      assert k in order;
      var p :| 0 <= p < |order| && order[p] == k;
      assert Listed(logs, order)[p] == e;
    }
  }

  /** A stretch of an ascending list that leaves out only entries out of range. */
  lemma StretchIsFilter(all: seq<Entry>, r: IndexRange, first: nat, end: nat, e: Entry)
    requires first <= end <= |all|
    requires forall p | 0 <= p < |all| :: first <= p < end <==> Contains(r, all[p].logId.index)
    ensures e in all[first..end] <==> e in all && Contains(r, e.logId.index)
  {
    if e in all && Contains(r, e.logId.index) {
      var p :| 0 <= p < |all| && all[p] == e;
      assert all[first..end][p - first] == e;
    }
  }

  lemma OutsideScan(logs: map<Key, Entry>, r: IndexRange, order: seq<Key>, first: nat, end: nat)
    requires WellKeyed(logs)
    requires Ascending(order) && forall k | k in order :: k in logs
    requires first == Seek(order, StartKey(r.lower)) <= end <= |order|
    requires end < |order| ==> !Contains(r, logs[order[end]].logId.index)
    ensures AscendingIndex(Listed(logs, order))
    ensures forall p | 0 <= p < |order| && (p < first || end <= p) :: !Contains(r, Listed(logs, order)[p].logId.index)
  {
    ListedAscends(logs, order);
    forall p | 0 <= p < |order| && (p < first || end <= p) ensures !Contains(r, Listed(logs, order)[p].logId.index) {
      ScanBounds(logs, r, order, first, end, p);
    }
  }

  /** Stopping at the first id out of range loses nothing that is in range. */
  lemma StretchIsRead(logs: map<Key, Entry>, r: IndexRange, order: seq<Key>, first: nat, end: nat)
    requires WellKeyed(logs)
    requires forall k :: k in order <==> k in logs
    requires first <= end <= |order|
    requires AscendingIndex(Listed(logs, order))
    requires forall p | 0 <= p < |order| :: first <= p < end <==> Contains(r, Listed(logs, order)[p].logId.index)
    ensures IsRead(ById(logs), r, Listed(logs, order)[first..end])
  {
    hide ById, Listed;
    var all := Listed(logs, order);
    forall e ensures e in all[first..end] <==> StoredEntry(ById(logs), e) && Contains(r, e.logId.index) {
      ListedIsStored(logs, order, e);
      StretchIsFilter(all, r, first, end, e);
    }
  }

  // ---- log-state query ----

  ghost predicate IsLastKey(k: Key, keys: set<Key>) {
    k in keys && forall o | o in keys :: o == k || Less(o, k)
  }

  lemma LastKeyIsLast(keys: set<Key>, order: seq<Key>)
    requires Ascending(order) && forall k :: k in order <==> k in keys
    ensures order == [] <==> keys == {}
    ensures order != [] ==> forall k :: IsLastKey(k, keys) <==> k == order[|order| - 1]
  {
    if order == [] {
      assert keys == {};
    } else {
      var last := order[|order| - 1];
      assert last in order;
      forall k | k in keys ensures k == last || Less(k, last) {
        assert k in order;
      }
      forall k | IsLastKey(k, keys) ensures k == last {
        if k != last { LessTrichotomy(k, last); }
      }
    }
  }

  lemma LastKeyIsLastId(d: Image, logs: map<Key, Entry>, order: seq<Key>)
    requires WellKeyed(logs) && d.logs == ById(logs)
    requires Ascending(order) && forall k :: k in order <==> k in logs
    ensures order == [] ==> LastLogId(d) == LastPurged(d)
    ensures order != [] ==> order[|order| - 1] in logs && LastLogId(d) == Some(logs[order[|order| - 1]].logId)
  {
    hide ById, IdToBin, BinToId, Less;
    if order == [] {
      assert logs == map[];
    } else {
      var last := order[|order| - 1];
      assert last in order;
      BinRoundTrip(last);
      var id := BinToId(last);
      assert id in d.logs;
      forall o | o in d.logs ensures o <= id {
        var k := IdToBin(o);
        assert k in order;
        var p :| 0 <= p < |order| && order[p] == k;
        IdRoundTrip(o);
        KeyOrderIsIdOrder(k, last);
      }
      assert IsGreatest(id, d.logs.Keys);
    }
  }
}
