/** The openraft state machine (src/placement-center/src/openraft/store/state_machine_store.rs). */
module OpenraftStateMachine {
  import opened RaftTypes
  import opened Disk
  import opened Replay

  /** The shared cell behind `Arc<RwLock<BTreeMap<String, String>>>`: clones of a state
      machine hold the same cell. */
  class KvCell {
    var kvs: map<string, string>

    constructor ()
      ensures kvs == map[]
    {
      kvs := map[];
    }
  }

  /** The state that installing or loading `meta` with map `kvs` produces. */
  function SnapshotState(meta: SnapshotMeta, kvs: map<string, string>): State {
    State(meta.lastLogId, meta.lastMembership, kvs)
  }

  /** The state a start from `d` produces, if the stored snapshot decodes. */
  function LoadedState(d: Image): Option<State> {
    match CurrentSnapshot(d)
    case None => Some(EMPTY)
    case Some(snap) =>
      match DecodeKvs(snap.data)
      case None => None
      case Some(kvs) => Some(SnapshotState(snap.meta, kvs))
  }

  class StateMachineStore {
    var lastApplied: Option<LogId>
    var lastMembership: StoredMembership
    var kvs: KvCell
    var snapshotIdx: U64
    const db: Db

    function View(): State
      reads this, kvs
    {
      State(lastApplied, lastMembership, kvs.kvs)
    }

    constructor Default(db: Db)
      ensures View() == EMPTY && snapshotIdx == 0 && this.db == db && fresh(kvs)
    {
      lastApplied := None;
      lastMembership := NO_MEMBERSHIP;
      kvs := new KvCell();
      snapshotIdx := 0;
      this.db := db;
    }

    /** `new`: an empty machine, then the stored snapshot if there is one. */
    static method Open(db: Db) returns (ok: bool, sm: StateMachineStore)
      ensures fresh(sm) && fresh(sm.kvs) && sm.db == db && sm.snapshotIdx == 0
      ensures ok <==> LoadedState(db.Durable()).Some?
      ensures ok ==> sm.View() == LoadedState(db.Durable()).value
      ensures var stored := CurrentSnapshot(db.Durable());
        && (ok <==> stored.None? || stored.value.data.Json?)
        && (stored.None? ==> sm.lastApplied == None && sm.lastMembership == NO_MEMBERSHIP && sm.kvs.kvs == map[])
        && (stored.Some? && ok ==>
              && sm.lastApplied == stored.value.meta.lastLogId
              && sm.lastMembership == stored.value.meta.lastMembership
              && sm.kvs.kvs == stored.value.data.kvs)
    {
      sm := new StateMachineStore.Default(db);
      ok := true;
      var snapshot := CurrentSnapshot(db.Durable());
      if snapshot.Some? {
        ok := sm.UpdateStateMachine(snapshot.value);
      }
    }

    /** Decodes before touching anything: on failure nothing changes. */
    method UpdateStateMachine(snapshot: StoredSnapshot) returns (ok: bool)
      modifies this, kvs
      ensures kvs == old(kvs) && snapshotIdx == old(snapshotIdx)
      ensures ok <==> DecodeKvs(snapshot.data).Some?
      ensures ok ==> View() == SnapshotState(snapshot.meta, DecodeKvs(snapshot.data).value)
      ensures !ok ==> View() == old(View())
    {
      var decoded := DecodeKvs(snapshot.data);
      if decoded.None? {
        return false;
      }
      lastApplied := snapshot.meta.lastLogId;
      lastMembership := snapshot.meta.lastMembership;
      kvs.kvs := decoded.value;
      ok := true;
    }

    method SetCurrentSnapshot(snapshot: StoredSnapshot)
      modifies db
      ensures db.Durable() == WithSnapshot(old(db.Durable()), snapshot) && db.logs == old(db.logs)
    {
      db.store := db.store[SNAPSHOT_KEY := SnapshotRecord(snapshot)];
    }

    method Apply(entries: seq<Entry>) returns (replies: seq<Option<string>>)
      modifies this, kvs
      ensures kvs == old(kvs) && snapshotIdx == old(snapshotIdx)
      ensures View() == ApplyAll(old(View()), entries)
      ensures replies == RepliesOf(entries)
    {
      replies := [];
      for n := 0 to |entries|
        invariant kvs == old(kvs) && snapshotIdx == old(snapshotIdx)
        invariant View() == ApplyAll(old(View()), entries[..n])
        invariant replies == RepliesOf(entries[..n])
      {
        var ent := entries[n];
        lastApplied := Some(ent.logId);
        var respValue: Option<string> := None;
        match ent.payload {
          case Blank =>
          case Normal(Set(key, value)) =>
            respValue := Some(value);
            kvs.kvs := kvs.kvs[key := value];
          case Normal(Delete(key)) =>
            kvs.kvs := kvs.kvs - {key};
          case ConfigChange(mem) =>
            lastMembership := StoredMembership(Some(ent.logId), mem);
        }
        replies := replies + [respValue];
        assert entries[..n + 1][..n] == entries[..n];
      }
      assert entries[..|entries|] == entries;
    }

    /** The builder is a clone: its own copy of the ids, the same map cell. */
    method GetSnapshotBuilder() returns (builder: StateMachineStore)
      modifies this
      ensures snapshotIdx == WrapSucc(old(snapshotIdx)) && kvs == old(kvs) && View() == old(View())
      ensures fresh(builder) && builder.kvs == kvs && builder.db == db
      ensures builder.lastApplied == lastApplied && builder.lastMembership == lastMembership
      ensures builder.snapshotIdx == snapshotIdx
    {
      snapshotIdx := WrapSucc(snapshotIdx);
      builder := new StateMachineStore.Default(db);
      builder.lastApplied := lastApplied;
      builder.lastMembership := lastMembership;
      builder.kvs := kvs;
      builder.snapshotIdx := snapshotIdx;
    }

    /** The first half of `build_snapshot`: the map as it is now, from the shared cell. The lock
        is released before the second half, so the machine may apply in between. */
    method ReadMap() returns (data: Blob)
      ensures data == Json(kvs.kvs)
    {
      data := Json(kvs.kvs);
    }

    /** The second half: the ids of this clone with the map it read, stored. */
    method StoreSnapshot(data: Blob) returns (snapshot: StoredSnapshot)
      modifies db
      ensures snapshot == StoredSnapshot(SnapshotMeta(lastApplied, lastMembership, SnapshotId(lastApplied, snapshotIdx)), data)
      ensures db.Durable() == WithSnapshot(old(db.Durable()), snapshot) && db.logs == old(db.logs)
    {
      var meta := SnapshotMeta(lastApplied, lastMembership, SnapshotId(lastApplied, snapshotIdx));
      snapshot := StoredSnapshot(meta, data);
      SetCurrentSnapshot(snapshot);
    }

    method InstallSnapshot(meta: SnapshotMeta, data: Blob) returns (ok: bool)
      modifies this, kvs, db
      ensures kvs == old(kvs) && snapshotIdx == old(snapshotIdx)
      ensures ok <==> DecodeKvs(data).Some?
      ensures ok ==> View() == SnapshotState(meta, DecodeKvs(data).value)
      ensures ok ==> db.Durable() == WithSnapshot(old(db.Durable()), StoredSnapshot(meta, data))
      ensures !ok ==> View() == old(View()) && db.Durable() == old(db.Durable())
      ensures db.logs == old(db.logs)
    {
      var newSnapshot := StoredSnapshot(meta, data);
      ok := UpdateStateMachine(newSnapshot);
      if ok {
        SetCurrentSnapshot(newSnapshot);
      }
    }
  }

  /** Building without an apply in between and installing elsewhere makes the two machines
      equal; the receiver stays equal under the same entries and across its own restart. */
  method ShipSnapshot(sender: StateMachineStore, receiver: StateMachineStore, more: seq<Entry>)
    returns (reopened: StateMachineStore)
    requires sender != receiver && sender.kvs != receiver.kvs && sender.db != receiver.db
    modifies sender, sender.kvs, sender.db, receiver, receiver.kvs, receiver.db
    ensures receiver.View() == sender.View() == ApplyAll(old(sender.View()), more)
    ensures reopened.View() == old(sender.View())
  {
    hide ById, ApplyAll, RepliesOf;
    var builder := sender.GetSnapshotBuilder();
    var data := builder.ReadMap();
    var snapshot := builder.StoreSnapshot(data);
    var installed := receiver.InstallSnapshot(snapshot.meta, snapshot.data);
    assert installed;
    var ok;
    ok, reopened := StateMachineStore.Open(receiver.db);
    var _ := sender.Apply(more);
    var _ := receiver.Apply(more);
  }
}
