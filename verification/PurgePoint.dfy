/** What a purge, and a crash inside one, does to the log as openraft sees it. */
module PurgePoint {
  import opened RaftTypes
  import opened Disk
  import opened OpenraftLog
  import opened LogRefinement
  import opened Recovery

  function Purged(d: Image, id: LogId): Image {
    WithPurged(d, id).(logs := CutThrough(d.logs, id.index))
  }

  /** A purge point openraft would pass: the id of an entry of the log, one past it, or the
      recorded purge point once more. */
  ghost predicate IsLogPoint(d: Image, l: Log, id: LogId) {
    && id.index < MAX_U64
    && (l.lo <= id.index < l.Next() ==> l.entries[id.index - l.lo].logId == id)
    && (id.index < l.lo ==> LastPurged(d) == Some(id))
  }

  lemma PurgedLastId(d: Image, l: Log, id: LogId)
    requires DiskInv(d, l) && IsLogPoint(d, l, id)
    ensures LastLogId(Purged(d, id)) == if id.index + 1 < l.Next() then LastLogId(d) else Some(id)
  {
    hide Holds, LastLogId, CutThrough;
    PurgeHolds(d.logs, l, id);
    PurgedLog(l, id);
    LastLogIdRefines(d, l.lo, l.entries);
    var l' := StepLog(l, Purge(id));
    LastLogIdRefines(Purged(d, id), l'.lo, l'.entries);
  }

  /** Purging at or below the last entry does not change the reported last id. */
  lemma PurgeKeepsLastId(d: Image, l: Log, id: LogId)
    requires DiskInv(d, l) && IsLogPoint(d, l, id) && id.index < l.Next()
    ensures LastLogId(Purged(d, id)) == LastLogId(d)
  {
    PurgedLastId(d, l, id);
    LastLogIdRefines(d, l.lo, l.entries);
  }

  /** A crash after the purge point is recorded and before the range is deleted: the reported
      last id is the one the finished purge reports exactly when the purge stops within the
      log or there is nothing to delete. Otherwise it is a stale id below the purge point. */
  lemma CrashInPurgeLastId(d: Image, l: Log, id: LogId)
    requires DiskInv(d, l) && IsLogPoint(d, l, id)
    ensures LastLogId(WithPurged(d, id)) == LastLogId(Purged(d, id)) <==> id.index < l.Next() || l.entries == []
    ensures !(id.index < l.Next() || l.entries == []) ==>
      LastLogId(WithPurged(d, id)).Some? && LastLogId(WithPurged(d, id)).value.index < id.index
  {
    PurgedLastId(d, l, id);
    LastLogIdRefines(d, l.lo, l.entries);
    LastLogIdRefines(WithPurged(d, id), l.lo, l.entries);
  }

  /** The log above the purge point is the same after the crash as after the finished purge,
      for every range read above it. */
  lemma CrashInPurgeVisibleLog(d: Image, l: Log, id: LogId, r: IndexRange, out: seq<Entry>)
    requires DiskInv(d, l) && id.index < MAX_U64
    requires forall i: U64 | Contains(r, i) :: id.index < i
    ensures IsRead(WithPurged(d, id).logs, r, out) <==> IsRead(Purged(d, id).logs, r, out)
  {
    var cut := CutThrough(d.logs, id.index);
    forall e ensures StoredEntry(d.logs, e) && Contains(r, e.logId.index) <==> StoredEntry(cut, e) && Contains(r, e.logId.index) {
      if StoredEntry(d.logs, e) && Contains(r, e.logId.index) {
        StoredAtIndex(d.logs, l, e);
        assert e.logId.index in d.logs;
        assert e.logId.index in cut;
      }
      if StoredEntry(cut, e) {
        var i :| i in cut && cut[i] == e;
        assert i in d.logs;
      }
    }
  }
}
