/** The raft-rs log storage (src/placement-center/src/storage/raft.rs) and its read adapter
    (src/placement-center/src/raft/storage.rs). */
module RaftStorage {
  import opened RaftTypes
  import opened RaftKeys

  datatype LogEntry = LogEntry(index: U64, term: U64, data: string)

  datatype HardState = HardState(term: U64, vote: U64, commit: U64)

  datatype ConfState = ConfState(voters: seq<U64>)

  datatype SnapshotMetadata = SnapshotMetadata(conf: ConfState, index: U64, term: U64)

  /** `data` is the dump of the whole column family. */
  datatype RaftSnapshot = RaftSnapshot(metadata: SnapshotMetadata, data: map<string, Record>)

  /** What is stored under one key of the `cluster` column family. */
  datatype Record =
    | IndexRecord(index: U64)
    | EntryRecord(entry: LogEntry)
    | HardStateRecord(hard: HardState)
    | ConfStateRecord(conf: ConfState)
    | UncommitRecord(uncommit: map<U64, int>)
    | SnapshotRecord(snapshot: RaftSnapshot)
    | Other(text: string)

  /** The records the storage reads back, each with the default for a missing one; of the saved
      snapshot only the metadata. */
  datatype Stored = Stored(
    first: Option<U64>, last: Option<U64>, hard: HardState, conf: ConfState,
    uncommit: map<U64, int>, snapshot: Option<SnapshotMetadata>, entries: map<U64, LogEntry>)

  // ---- reading single records ----

  function ReadIndex(kv: map<string, Record>, key: string): Option<U64> {
    if key in kv && kv[key].IndexRecord? then Some(kv[key].index) else None
  }

  function ReadHardState(kv: map<string, Record>): HardState {
    if HARD_STATE_KEY in kv && kv[HARD_STATE_KEY].HardStateRecord? then kv[HARD_STATE_KEY].hard else HardState(0, 0, 0)
  }

  function ReadConfState(kv: map<string, Record>): ConfState {
    if CONF_STATE_KEY in kv && kv[CONF_STATE_KEY].ConfStateRecord? then kv[CONF_STATE_KEY].conf else ConfState([])
  }

  function ReadUncommit(kv: map<string, Record>): map<U64, int> {
    if UNCOMMIT_KEY in kv && kv[UNCOMMIT_KEY].UncommitRecord? then kv[UNCOMMIT_KEY].uncommit else map[]
  }

  function ReadSnapshot(kv: map<string, Record>): Option<RaftSnapshot> {
    if SNAPSHOT_KEY in kv && kv[SNAPSHOT_KEY].SnapshotRecord? then Some(kv[SNAPSHOT_KEY].snapshot) else None
  }

  function ReadEntry(kv: map<string, Record>, idx: U64): Option<LogEntry> {
    var key := EntryKey(idx);
    if key in kv && kv[key].EntryRecord? then Some(kv[key].entry) else None
  }

  ghost function StoredOf(kv: map<string, Record>): (s: Stored)
    ensures forall i: U64 :: i in s.entries <==> ReadEntry(kv, i).Some?
    ensures forall i: U64 | i in s.entries :: s.entries[i] == ReadEntry(kv, i).value
  {
    Stored(ReadIndex(kv, FIRST_INDEX_KEY), ReadIndex(kv, LAST_INDEX_KEY), ReadHardState(kv), ReadConfState(kv),
           ReadUncommit(kv), if ReadSnapshot(kv).Some? then Some(ReadSnapshot(kv).value.metadata) else None,
           map i: U64 | 0 <= i <= MAX_U64 && ReadEntry(kv, i).Some? :: ReadEntry(kv, i).value)
  }

  // ---- saving one record leaves every other record readable as before ----

  lemma SavedEntry(kv: map<string, Record>, idx: U64, e: LogEntry)
    ensures StoredOf(kv[EntryKey(idx) := EntryRecord(e)]) == StoredOf(kv).(entries := StoredOf(kv).entries[idx := e])
  {
    var after := kv[EntryKey(idx) := EntryRecord(e)];
    FixedUntouched(kv, idx, e);
    hide ReadEntry, EntryKey;
    forall i: U64 ensures ReadEntry(after, i) == if i == idx then Some(e) else ReadEntry(kv, i) {
      ReadAfterPut(kv, idx, e, i);
    }
    assert StoredOf(after).entries == StoredOf(kv).entries[idx := e];
  }

  lemma ReadAfterPut(kv: map<string, Record>, idx: U64, e: LogEntry, i: U64)
    ensures ReadEntry(kv[EntryKey(idx) := EntryRecord(e)], i) == if i == idx then Some(e) else ReadEntry(kv, i)
  {
    EntryKeysDistinct(i, idx);
  }

  lemma FixedUntouched(kv: map<string, Record>, idx: U64, e: LogEntry)
    ensures var after := StoredOf(kv[EntryKey(idx) := EntryRecord(e)]);
      after.(entries := StoredOf(kv).entries) == StoredOf(kv)
  {
    EntryKeysDistinct(idx, idx);
    hide EntryKey;
  }

  lemma EntriesUntouched(kv: map<string, Record>, key: string, r: Record)
    requires key in FIXED_KEYS
    ensures StoredOf(kv[key := r]).entries == StoredOf(kv).entries
  {
    forall i: U64 ensures EntryKey(i) != key { EntryKeysDistinct(i, i); }
  }

  lemma SavedFirst(kv: map<string, Record>, n: U64)
    ensures StoredOf(kv[FIRST_INDEX_KEY := IndexRecord(n)]) == StoredOf(kv).(first := Some(n))
  {
    EntriesUntouched(kv, FIRST_INDEX_KEY, IndexRecord(n));
  }

  lemma SavedLast(kv: map<string, Record>, n: U64)
    ensures StoredOf(kv[LAST_INDEX_KEY := IndexRecord(n)]) == StoredOf(kv).(last := Some(n))
  {
    EntriesUntouched(kv, LAST_INDEX_KEY, IndexRecord(n));
  }

  lemma SavedHardState(kv: map<string, Record>, hs: HardState)
    ensures StoredOf(kv[HARD_STATE_KEY := HardStateRecord(hs)]) == StoredOf(kv).(hard := hs)
  {
    EntriesUntouched(kv, HARD_STATE_KEY, HardStateRecord(hs));
  }

  lemma SavedConfState(kv: map<string, Record>, cs: ConfState)
    ensures StoredOf(kv[CONF_STATE_KEY := ConfStateRecord(cs)]) == StoredOf(kv).(conf := cs)
  {
    EntriesUntouched(kv, CONF_STATE_KEY, ConfStateRecord(cs));
  }

  lemma SavedUncommit(kv: map<string, Record>, ui: map<U64, int>)
    ensures StoredOf(kv[UNCOMMIT_KEY := UncommitRecord(ui)]) == StoredOf(kv).(uncommit := ui)
  {
    EntriesUntouched(kv, UNCOMMIT_KEY, UncommitRecord(ui));
  }

  lemma SavedSnapshot(kv: map<string, Record>, snap: RaftSnapshot)
    ensures StoredOf(kv[SNAPSHOT_KEY := SnapshotRecord(snap)]) == StoredOf(kv).(snapshot := Some(snap.metadata))
  {
    EntriesUntouched(kv, SNAPSHOT_KEY, SnapshotRecord(snap));
  }

  // ---- the operations on values ----

  /** The database records plus the two fields kept in memory. */
  datatype Core = Core(disk: Stored, uncommit: map<U64, int>, meta: SnapshotMetadata)

  /** Without a saved first index the log starts after the snapshot metadata's index. */
  function FirstIndex(c: Core): U64 {
    if c.disk.first.Some? then c.disk.first.value else WrapSucc(c.meta.index)
  }

  function LastIndex(c: Core): U64 {
    if c.disk.last.Some? then c.disk.last.value else c.meta.index
  }

  function MetadataOf(d: Stored): SnapshotMetadata {
    SnapshotMetadata(d.conf, d.hard.commit, d.hard.term)
  }

  /** Otherwise `append` panics: compacted entries overwritten, or a gap. */
  predicate AppendAllowed(c: Core, es: seq<LogEntry>) {
    es == [] || FirstIndex(c) <= es[0].index <= WrapSucc(LastIndex(c))
  }

  /** The first write for an entry, before the last index moves to it. */
  function PutEntry(c: Core, e: LogEntry): Core {
    c.(disk := c.disk.(entries := c.disk.entries[e.index := e]))
  }

  function WithFirst(c: Core, index: U64): Core {
    c.(disk := c.disk.(first := Some(index)))
  }

  function SaveEntry(c: Core, e: LogEntry): Core {
    c.(disk := c.disk.(entries := c.disk.entries[e.index := e], last := Some(e.index)),
       uncommit := c.uncommit[e.index := 1])
  }

  function SaveEntries(c: Core, es: seq<LogEntry>): Core {
    if es == [] then c else SaveEntry(SaveEntries(c, es[..|es| - 1]), es[|es| - 1])
  }

  function SyncUncommit(c: Core): Core {
    c.(disk := c.disk.(uncommit := c.uncommit))
  }

  function Appended(c: Core, es: seq<LogEntry>): Core {
    if es == [] then c else SyncUncommit(SaveEntries(c, es))
  }

  /** The part of `commmit_index` before it unwraps the entry. */
  function Unmarked(c: Core, idx: U64): Core {
    SyncUncommit(c.(uncommit := c.uncommit - {idx}))
  }

  function WithHardState(c: Core, hs: HardState): Core {
    c.(disk := c.disk.(hard := hs))
  }

  function WithCommit(c: Core, commit: U64): Core {
    WithHardState(c, c.disk.hard.(commit := commit))
  }

  function WithConfState(c: Core, cs: ConfState): Core {
    c.(disk := c.disk.(conf := cs))
  }

  function Committed(c: Core, idx: U64): Core {
    if idx in c.disk.entries
    then WithHardState(Unmarked(c, idx), c.disk.hard.(commit := idx, term := c.disk.entries[idx].term))
    else Unmarked(c, idx)
  }

  /** The saved first index is the commit index itself, not one past it. */
  function Snapshotted(c: Core): Core {
    var meta := MetadataOf(c.disk);
    c.(disk := c.disk.(first := Some(meta.index), snapshot := Some(meta)), meta := meta)
  }

  function Reopened(d: Stored): Core {
    Core(d, d.uncommit, MetadataOf(d))
  }

  /** The entry stored under `i`, if any. */
  function StoredAt(entries: map<U64, LogEntry>, i: U64): seq<LogEntry> {
    if i in entries then [entries[i]] else []
  }

  /** The entries present under `low ..= high`, in order. */
  function Present(entries: map<U64, LogEntry>, low: U64, high: U64): seq<LogEntry>
    decreases high
  {
    if low > high then []
    else if high == 0 then StoredAt(entries, 0)
    else Present(entries, low, high - 1) + StoredAt(entries, high)
  }

  datatype EntriesOutcome = Compacted | OutOfBound | Found(entries: seq<LogEntry>)

  /** The range is documented as half-open but read inclusively. */
  function EntriesOf(c: Core, low: U64, high: U64): EntriesOutcome {
    if low < FirstIndex(c) then Compacted
    else if high > WrapSucc(LastIndex(c)) then OutOfBound
    else Found(Present(c.disk.entries, low, high))
  }

  datatype TermOutcome = TermCompacted | TermUnavailable | TermIs(term: U64)

  function TermOf(c: Core, idx: U64): TermOutcome {
    if idx == c.meta.index then TermIs(c.meta.index)
    else if idx < FirstIndex(c) then TermCompacted
    else if idx > LastIndex(c) then TermUnavailable
    else if idx in c.disk.entries then TermIs(c.disk.entries[idx].term)
    else TermIs(c.meta.term)
  }

  // ---- the storage object ----

  class ClusterEngine {
    var cluster: map<string, Record>

    constructor ()
      ensures cluster == map[]
    {
      cluster := map[];
    }
  }

  class RaftMachineStorage {
    var uncommitIndex: map<U64, int>
    var snapshotMetadata: SnapshotMetadata
    const engine: ClusterEngine

    ghost function View(): Core
      reads this, engine
    {
      Core(StoredOf(engine.cluster), uncommitIndex, snapshotMetadata)
    }

    constructor (engine: ClusterEngine)
      ensures this.engine == engine
      ensures View() == Reopened(StoredOf(engine.cluster))
    {
      this.engine := engine;
      uncommitIndex := ReadUncommit(engine.cluster);
      snapshotMetadata := SnapshotMetadata(
        ReadConfState(engine.cluster), ReadHardState(engine.cluster).commit, ReadHardState(engine.cluster).term);
    }

    method GetFirstIndex() returns (n: U64)
      ensures n == FirstIndex(View())
      ensures View().disk.first.None? && View().meta.index < MAX_U64 ==> n == View().meta.index + 1
      ensures View().disk.first.Some? ==> n == View().disk.first.value
    {
      var value := ReadIndex(engine.cluster, FIRST_INDEX_KEY);
      n := if value.Some? then value.value else WrapSucc(snapshotMetadata.index);
    }

    method GetLastIndex() returns (n: U64)
      ensures n == LastIndex(View())
      ensures View().disk.last.None? ==> n == View().meta.index
      ensures View().disk.last.Some? ==> n == View().disk.last.value
    {
      var value := ReadIndex(engine.cluster, LAST_INDEX_KEY);
      n := if value.Some? then value.value else snapshotMetadata.index;
    }

    method SaveHardState(hs: HardState)
      modifies engine
      ensures View() == WithHardState(old(View()), hs)
    {
      SavedHardState(engine.cluster, hs);
      engine.cluster := engine.cluster[HARD_STATE_KEY := HardStateRecord(hs)];
    }

    method SetHardStateCommit(commit: U64)
      modifies engine
      ensures View() == WithCommit(old(View()), commit)
    {
      var hs := ReadHardState(engine.cluster);
      SaveHardState(hs.(commit := commit));
    }

    method SaveConfState(cs: ConfState)
      modifies engine
      ensures View() == WithConfState(old(View()), cs)
    {
      SavedConfState(engine.cluster, cs);
      engine.cluster := engine.cluster[CONF_STATE_KEY := ConfStateRecord(cs)];
    }

    method SaveUncommitIndex()
      modifies engine
      ensures View() == SyncUncommit(old(View()))
    {
      SavedUncommit(engine.cluster, uncommitIndex);
      engine.cluster := engine.cluster[UNCOMMIT_KEY := UncommitRecord(uncommitIndex)];
    }

    method Unmark(idx: U64)
      modifies this, engine
      ensures View() == Unmarked(old(View()), idx)
    {
      uncommitIndex := uncommitIndex - {idx};
      SaveUncommitIndex();
    }

    /** Fails where the source panics on a missing entry, after the mark is already gone. */
    method CommitIndex(idx: U64) returns (ok: bool)
      modifies this, engine
      ensures ok <==> idx in old(View()).disk.entries
      ensures View() == Committed(old(View()), idx)
      ensures idx !in View().uncommit && idx !in View().disk.uncommit
    {
      var entry := ReadEntry(engine.cluster, idx);
      Unmark(idx);
      var hs := ReadHardState(engine.cluster);
      if entry.None? {
        return false;
      }
      SaveHardState(hs.(commit := idx, term := entry.value.term));
      ok := true;
    }

    /** Fails, changing nothing, where the source panics. */
    method Append(entrys: seq<LogEntry>) returns (ok: bool)
      modifies this, engine
      ensures ok <==> AppendAllowed(old(View()), entrys)
      ensures View() == if ok then Appended(old(View()), entrys) else old(View())
    {
      if |entrys| == 0 {
        return true;
      }
      var entryFirstIndex := entrys[0].index;
      var firstIndex := GetFirstIndex();
      if firstIndex > entryFirstIndex {
        return false;
      }
      var lastIndex := GetLastIndex();
      if WrapSucc(lastIndex) < entryFirstIndex {
        return false;
      }
      for n := 0 to |entrys|
        invariant View() == SaveEntries(old(View()), entrys[..n])
      {
        assert entrys[..n + 1][..n] == entrys[..n];
        SaveOne(entrys[n]);
      }
      assert entrys[..|entrys|] == entrys;
      SaveUncommitIndex();
      ok := true;
    }

    /** The body of the append loop. */
    method SaveOne(entry: LogEntry)
      modifies this, engine
      ensures View() == SaveEntry(old(View()), entry)
    {
      WriteEntry(entry);
      uncommitIndex := uncommitIndex[entry.index := 1];
      SavedLast(engine.cluster, entry.index);
      engine.cluster := engine.cluster[LAST_INDEX_KEY := IndexRecord(entry.index)];
    }

    method WriteEntry(entry: LogEntry)
      modifies engine
      ensures View() == PutEntry(old(View()), entry)
    {
      SavedEntry(engine.cluster, entry.index, entry);
      engine.cluster := engine.cluster[EntryKey(entry.index) := EntryRecord(entry)];
    }

    method SaveFirstIndex(index: U64)
      modifies engine
      ensures View() == WithFirst(old(View()), index)
      ensures engine.cluster == old(engine.cluster)[FIRST_INDEX_KEY := IndexRecord(index)]
    {
      SavedFirst(engine.cluster, index);
      engine.cluster := engine.cluster[FIRST_INDEX_KEY := IndexRecord(index)];
    }

    method CreateSnapshot()
      modifies this, engine
      ensures View() == Snapshotted(old(View()))
      ensures ReadSnapshot(engine.cluster) == Some(RaftSnapshot(MetadataOf(old(View()).disk), old(engine.cluster)))
    {
      var hard := ReadHardState(engine.cluster);
      var meta := SnapshotMetadata(ReadConfState(engine.cluster), hard.commit, hard.term);
      var snapshot := RaftSnapshot(meta, engine.cluster);
      SaveFirstIndex(meta.index);
      SavedSnapshot(engine.cluster, snapshot);
      engine.cluster := engine.cluster[SNAPSHOT_KEY := SnapshotRecord(snapshot)];
      snapshotMetadata := meta;
    }

    method Entrys(low: U64, high: U64) returns (list: seq<LogEntry>)
      ensures list == Present(View().disk.entries, low, high)
    {
      hide StoredOf, ReadEntry, EntryKey;
      list := [];
      if low > high {
        return;
      }
      var idx: nat := low;
      ghost var entries := View().disk.entries;
      while idx <= high
        invariant low <= idx <= high + 1
        invariant list == if idx == 0 then [] else Present(entries, low, idx - 1)
      {
        var entry := ReadEntry(engine.cluster, idx);
        if entry.Some? {
          list := list + [entry.value];
        }
        idx := idx + 1;
      }
    }
  }

  /** The `raft::Storage` view of the shared core. */
  class RaftRocksDBStorage {
    const core: RaftMachineStorage

    constructor (core: RaftMachineStorage)
      ensures this.core == core
    {
      this.core := core;
    }

    method Entries(low: U64, high: U64) returns (r: EntriesOutcome)
      ensures r == EntriesOf(core.View(), low, high)
    {
      var first := core.GetFirstIndex();
      if low < first {
        return Compacted;
      }
      var last := core.GetLastIndex();
      if high > WrapSucc(last) {
        return OutOfBound;
      }
      var list := core.Entrys(low, high);
      r := Found(list);
    }

    method Term(idx: U64) returns (r: TermOutcome)
      ensures r == TermOf(core.View(), idx)
    {
      if idx == core.snapshotMetadata.index {
        return TermIs(core.snapshotMetadata.index);
      }
      var first := core.GetFirstIndex();
      if idx < first {
        return TermCompacted;
      }
      var last := core.GetLastIndex();
      if idx > last {
        return TermUnavailable;
      }
      var entry := ReadEntry(core.engine.cluster, idx);
      r := TermIs(if entry.Some? then entry.value.term else core.snapshotMetadata.term);
    }
  }
}
