/** The heap objects of one node, driven event by event: every method call the openraft library
    makes on the two stores does what the step machine of `Recovery` says, including the map
    cell that a pending builder shares with the state machine. */
module OpenraftNode {
  import opened RaftTypes
  import opened Disk
  import opened OpenraftLog
  import opened Replay
  import opened OpenraftStateMachine
  import opened Recovery

  class OpenraftNode {
    var db: Db
    var log: LogStore
    var sm: StateMachineStore
    var builder: StateMachineStore?
    /** What the builder's task has read from the shared map, with the applied id at that moment. */
    var reading: Option<Reading>

    ghost predicate Valid()
      reads this, db, sm, builder
    {
      && log.db == db && sm.db == db
      && WellKeyed(db.logs)
      && (builder != null ==> builder != sm && builder.db == db && builder.kvs == sm.kvs)
    }

    ghost function View(): Node
      reads this, db, sm, sm.kvs, builder
    {
      Node(db.Durable(), sm.View(), sm.snapshotIdx,
           if builder == null then None
           else Some(Builder(builder.lastApplied, builder.lastMembership, builder.snapshotIdx, reading)))
    }

    constructor ()
      ensures Valid() && View() == FRESH
      ensures fresh(db) && fresh(sm) && fresh(sm.kvs) && builder == null
    {
      var d := new Db();
      db := d;
      log := new LogStore(d);
      sm := new StateMachineStore.Default(d);
      builder, reading := null, None;
      new;
      assert View().disk.logs == map[];
    }

    /** The process dies and starts again on the same database. */
    method Reopen()
      requires Valid() && LoadedState(db.Durable()).Some?
      modifies this
      ensures Valid() && db == old(db) && db.Durable() == old(db.Durable())
      ensures View() == Restart(old(db.Durable()))
      ensures fresh(sm) && fresh(sm.kvs) && builder == null
    {
      log := new LogStore(db);
      var ok, loaded := StateMachineStore.Open(db);
      sm := loaded;
      builder, reading := null, None;
    }

    method OnLog(ev: Event)
      requires Valid() && (ev.Append? || ev.Truncate? || ev.Purge? || ev.SaveCommitted?)
      modifies db
      ensures Valid() && View() == Step(old(View()), ev)
    {
      hide ById, PutAll, CutFrom, CutThrough, WellKeyed;
      match ev {
        case Append(es) => log.Append(es);
        case Truncate(id) => log.Truncate(id);
        case Purge(id) => log.Purge(id);
        case SaveCommitted(id) => log.SaveCommitted(id);
      }
    }

    method OnStateMachine(ev: Event)
      requires Valid() && (ev.Apply? || ev.GetBuilder? || ev.ReadMap? || ev.StoreSnapshot? || ev.Install?)
      requires Enabled(View(), ev)
      modifies this, db, sm, sm.kvs
      ensures Valid() && View() == Step(old(View()), ev)
      ensures db == old(db) && sm == old(sm) && sm.kvs == old(sm.kvs)
      ensures builder == null || builder == old(builder) || fresh(builder)
    {
      hide ById, ApplyAll, RepliesOf, WellKeyed;
      match ev {
        case Apply(es) =>
          var _ := sm.Apply(es);
        case GetBuilder =>
          builder := sm.GetSnapshotBuilder();
          reading := None;
        case ReadMap =>
          var data := builder.ReadMap();
          reading := Some(Reading(data.kvs, sm.lastApplied));
        case StoreSnapshot =>
          var _ := builder.StoreSnapshot(Json(reading.value.kvs));
          builder, reading := null, None;
        case Install(meta, data) =>
          var _ := sm.InstallSnapshot(meta, data);
      }
    }

    method Do(ev: Event)
      requires Valid() && Enabled(View(), ev) && LoadedState(View().disk).Some?
      modifies this, db, sm, sm.kvs
      ensures Valid() && View() == Step(old(View()), ev)
      ensures db == old(db)
      ensures sm == old(sm) || fresh(sm)
      ensures sm.kvs == old(sm.kvs) || fresh(sm.kvs)
      ensures builder == null || builder == old(builder) || fresh(builder)
    {
      if ev.Crash? {
        Reopen();
      } else if ev.CrashInPurge? {
        log.SetLastPurged(ev.id);
        Reopen();
      } else if ev.Append? || ev.Truncate? || ev.Purge? || ev.SaveCommitted? {
        OnLog(ev);
      } else {
        OnStateMachine(ev);
      }
    }
  }

  /** Over every valid run the objects hold exactly the state of the step machine, the log's
      keys stay well formed, and so every theorem about `Run` is about this code. */
  method Execute(evs: seq<Event>) returns (node: OpenraftNode)
    requires ValidRun(FRESH, evs)
    ensures node.Valid() && node.View() == Run(FRESH, evs)
  {
    hide *;
    node := new OpenraftNode();
    RunStart(evs);
    for i := 0 to |evs|
      invariant fresh(node) && fresh(node.db) && fresh(node.sm) && fresh(node.sm.kvs)
      invariant node.Valid() && node.View() == Run(FRESH, evs[..i])
    {
      RunStep(evs, i);
      node.Do(evs[i]);
    }
    assert evs[..|evs|] == evs;
  }

  lemma RunStart(evs: seq<Event>)
    ensures Run(FRESH, evs[..0]) == FRESH
  {
  }

  lemma RunStep(evs: seq<Event>, i: nat)
    requires ValidRun(FRESH, evs) && i < |evs|
    ensures var n := Run(FRESH, evs[..i]);
      Enabled(n, evs[i]) && Run(FRESH, evs[..i + 1]) == Step(n, evs[i]) && LoadedState(n.disk).Some?
  {
    hide *;
    PrefixIsValid(evs, i);
    PrefixIsValid(evs, i + 1);
    assert evs[..i + 1][..i] == evs[..i];
    RunLast(evs[..i + 1]);
    AlwaysLoads(evs[..i]);
  }

  lemma RunLast(evs: seq<Event>)
    requires ValidRun(FRESH, evs) && evs != []
    ensures var n, last := Run(FRESH, evs[..|evs| - 1]), evs[|evs| - 1];
      Enabled(n, last) && Run(FRESH, evs) == Step(n, last)
  {
    hide Enabled, Step;
  }

  /** `new` succeeds on the database of every reachable node. */
  lemma AlwaysLoads(evs: seq<Event>)
    requires ValidRun(FRESH, evs)
    ensures LoadedState(Run(FRESH, evs).disk).Some?
  {
    ReachableInv(evs);
  }

  lemma {:induction false} PrefixIsValid(evs: seq<Event>, i: nat)
    requires ValidRun(FRESH, evs) && i <= |evs|
    ensures ValidRun(FRESH, evs[..i])
    decreases |evs|
  {
    hide Enabled, Step;
    if i < |evs| {
      var init := evs[..|evs| - 1];
      PrefixIsValid(init, i);
      assert init[..i] == evs[..i];
    } else {
      assert evs[..i] == evs;
    }
  }
}
