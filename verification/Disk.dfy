/** The database both openraft stores share: column family `_raft_logs` holds the log,
    `_raft_store` the purge point, the committed id and the current snapshot. */
module Disk {
  import opened RaftTypes
  import opened ByteOrder
  import opened OrderedStore

  datatype Record =
    | LogIdRecord(id: LogId)
    | CommittedRecord(committed: Option<LogId>)
    | SnapshotRecord(snapshot: StoredSnapshot)

  const PURGED_KEY := "last_purged_log_id"
  const COMMITTED_KEY := "committed"
  const SNAPSHOT_KEY := "snapshot"

  /** What survives a crash, with the log keyed by index instead of by key bytes. */
  datatype Image = Image(logs: map<U64, Entry>, store: map<string, Record>)

  class Db {
    var logs: map<Key, Entry>
    var store: map<string, Record>

    function Durable(): Image
      reads this
    {
      Image(ById(logs), store)
    }

    constructor ()
      ensures logs == map[] && store == map[]
    {
      logs, store := map[], map[];
    }
  }

  function IdsOf(logs: map<Key, Entry>): set<U64> {
    set k | k in logs && |k| == 8 :: BinToId(k)
  }

  lemma InIdsOf(logs: map<Key, Entry>, id: U64)
    ensures id in IdsOf(logs) <==> IdToBin(id) in logs
  {
    IdRoundTrip(id);
    if id in IdsOf(logs) {
      var k :| k in logs && |k| == 8 && BinToId(k) == id;
      BinRoundTrip(k);
    }
  }

  /** The log entries by the index their key decodes to. */
  function ById(logs: map<Key, Entry>): (m: map<U64, Entry>)
    ensures forall id: U64 :: id in m <==> IdToBin(id) in logs
    ensures forall id: U64 | id in m :: m[id] == logs[IdToBin(id)]
  {
    assert forall id: U64 :: id in IdsOf(logs) <==> IdToBin(id) in logs by {
      forall id: U64 ensures id in IdsOf(logs) <==> IdToBin(id) in logs { InIdsOf(logs, id); }
    }
    map id: U64 | id in IdsOf(logs) :: logs[IdToBin(id)]
  }

  lemma PutById(logs: map<Key, Entry>, id: U64, e: Entry)
    ensures ById(logs[IdToBin(id) := e]) == ById(logs)[id := e]
  {
    forall o: U64 | IdToBin(o) == IdToBin(id) ensures o == id {
      IdRoundTrip(o);
      IdRoundTrip(id);
    }
  }

  /** Deleting a range of keys deletes the same range of ids: lexicographic order of the
      keys is numeric order of the ids. */
  lemma DeleteRangeById(logs: map<Key, Entry>, from: U64, to: U64)
    ensures ById(DeleteRange(logs, IdToBin(from), IdToBin(to)))
         == map id | id in ById(logs) && !(from <= id < to) :: ById(logs)[id]
  {
    forall id: U64
      ensures Less(IdToBin(id), IdToBin(from)) <==> id < from
      ensures Less(IdToBin(id), IdToBin(to)) <==> id < to
    {
      IdRoundTrip(id);
      IdRoundTrip(from);
      IdRoundTrip(to);
      KeyOrderIsIdOrder(IdToBin(id), IdToBin(from));
      KeyOrderIsIdOrder(IdToBin(id), IdToBin(to));
    }
  }

  /** A record that is missing or does not parse reads as none. */
  function LastPurged(d: Image): Option<LogId> {
    if PURGED_KEY in d.store && d.store[PURGED_KEY].LogIdRecord? then Some(d.store[PURGED_KEY].id) else None
  }

  function SavedCommitted(d: Image): Option<LogId> {
    if COMMITTED_KEY in d.store && d.store[COMMITTED_KEY].CommittedRecord? then d.store[COMMITTED_KEY].committed else None
  }

  function CurrentSnapshot(d: Image): Option<StoredSnapshot> {
    if SNAPSHOT_KEY in d.store && d.store[SNAPSHOT_KEY].SnapshotRecord? then Some(d.store[SNAPSHOT_KEY].snapshot) else None
  }

  function WithPurged(d: Image, id: LogId): (r: Image)
    ensures LastPurged(r) == Some(id) && r.logs == d.logs
    ensures CurrentSnapshot(r) == CurrentSnapshot(d) && SavedCommitted(r) == SavedCommitted(d)
  {
    d.(store := d.store[PURGED_KEY := LogIdRecord(id)])
  }

  function WithCommitted(d: Image, id: Option<LogId>): (r: Image)
    ensures SavedCommitted(r) == id && r.logs == d.logs
    ensures CurrentSnapshot(r) == CurrentSnapshot(d) && LastPurged(r) == LastPurged(d)
  {
    d.(store := d.store[COMMITTED_KEY := CommittedRecord(id)])
  }

  function WithSnapshot(d: Image, s: StoredSnapshot): (r: Image)
    ensures CurrentSnapshot(r) == Some(s) && r.logs == d.logs
    ensures LastPurged(r) == LastPurged(d) && SavedCommitted(r) == SavedCommitted(d)
  {
    d.(store := d.store[SNAPSHOT_KEY := SnapshotRecord(s)])
  }
}
