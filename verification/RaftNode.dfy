/** The raft-rs storage objects driven event by event: each call that `RaftMachine` makes does what
    the step machine of `RaftRuns` says, so its theorems are about these methods. */
module RaftNode {
  import opened RaftTypes
  import opened RaftStorage
  import opened RaftRuns
  import opened RaftReads
  import opened SavedCommit
  import opened SavedRecords

  class RaftNode {
    const engine: ClusterEngine
    var storage: RaftMachineStorage

    ghost predicate Valid()
      reads this
    {
      storage.engine == engine
    }

    constructor ()
      ensures Valid() && storage.View() == FRESH
      ensures fresh(engine) && fresh(storage)
    {
      var e := new ClusterEngine();
      engine := e;
      storage := new RaftMachineStorage(e);
      new;
      assert storage.View().disk.entries == map[];
    }

    /** The process dies and starts again on the same database. */
    method Reopen()
      requires Valid()
      modifies this
      ensures Valid() && fresh(storage) && storage.View() == Reopened(old(storage.View()).disk)
    {
      storage := new RaftMachineStorage(engine);
    }

    /** The first `puts` writes of `append`. */
    method AppendPart(es: seq<LogEntry>, puts: nat)
      requires Valid() && puts <= 2 * |es|
      modifies storage, engine
      ensures Valid() && storage.View() == AppendedPuts(old(storage.View()), es, puts)
    {
      for n := 0 to puts / 2
        invariant Valid() && storage.View() == SaveEntries(old(storage.View()), es[..n])
      {
        assert es[..n + 1][..n] == es[..n];
        storage.SaveOne(es[n]);
      }
      if puts % 2 == 1 {
        storage.WriteEntry(es[puts / 2]);
      }
    }

    /** A crash inside a call: its first writes, then a new process. */
    method CrashIn(ev: Event)
      requires Valid() && (ev.CrashInAppend? || ev.CrashInCommit? || ev.CrashInSnapshot?)
      requires ev.CrashInAppend? ==> ev.puts <= 2 * |ev.entries|
      modifies this, storage, engine
      ensures Valid() && fresh(storage)
      ensures storage.View() == Step(old(storage.View()), ev)
    {
      match ev {
        case CrashInAppend(es, puts) => AppendPart(es, puts);
        case CrashInCommit(idx) => storage.Unmark(idx);
        case CrashInSnapshot =>
          var hard := ReadHardState(engine.cluster);
          storage.SaveFirstIndex(hard.commit);
      }
      Reopen();
    }

    /** `ok` is false where the source panics. */
    method Do(ev: Event) returns (ok: bool)
      requires Valid()
      requires ev.CrashInAppend? ==> ev.puts <= 2 * |ev.entries|
      modifies this, storage, engine
      ensures Valid() && (storage == old(storage) || fresh(storage))
      ensures ok <==> Succeeds(old(storage.View()), ev)
      ensures ok ==> storage.View() == Step(old(storage.View()), ev)
    {
      ok := true;
      match ev {
        case Append(es) => ok := storage.Append(es);
        case Begin(_) =>
        case Commit(idx) => ok := storage.CommitIndex(idx);
        case SaveHard(hs) => storage.SaveHardState(hs);
        case SetCommit(commit) => storage.SetHardStateCommit(commit);
        case SaveConf(cs) => storage.SaveConfState(cs);
        case Snapshot => storage.CreateSnapshot();
        case Restart => Reopen();
        case _ => CrashIn(ev);
      }
    }
  }

  predicate Succeeds(c: Core, ev: Event) {
    && (ev.Append? ==> AppendAllowed(c, ev.entries))
    && (ev.Commit? ==> ev.idx in c.disk.entries)
  }

  /** Over every valid run no call panics and the objects hold the state of the step machine. */
  method Execute(evs: seq<Event>) returns (node: RaftNode)
    requires ValidRun(evs)
    ensures node.Valid() && node.storage.View() == Run(evs).core
    ensures fresh(node)
  {
    hide *;
    node := new RaftNode();
    RunStart(evs);
    for i := 0 to |evs|
      invariant fresh(node) && fresh(node.engine) && fresh(node.storage)
      invariant node.Valid() && node.storage.View() == Run(evs[..i]).core
    {
      RunStep(evs, i);
      var ok := node.Do(evs[i]);
      assert ok;
    }
    assert evs[..|evs|] == evs;
  }

  lemma RunStart(evs: seq<Event>)
    ensures Run(evs[..0]).core == FRESH
  {
  }

  lemma RunStep(evs: seq<Event>, i: nat)
    requires ValidRun(evs) && i < |evs|
    ensures Succeeds(Run(evs[..i]).core, evs[i])
    ensures evs[i].CrashInAppend? ==> evs[i].puts <= 2 * |evs[i].entries|
    ensures Run(evs[..i + 1]).core == Step(Run(evs[..i]).core, evs[i])
  {
    hide *;
    PrefixIsValid(evs, i);
    PrefixIsValid(evs, i + 1);
    assert evs[..i + 1][..i] == evs[..i];
    RunLast(evs[..i + 1]);
    NoPanic(evs[..i], evs[i]);
    EventSucceeds(Run(evs[..i]).core, evs[i]);
  }

  lemma EventSucceeds(c: Core, ev: Event)
    requires ev.Append? ==> AppendAllowed(c, ev.entries)
    requires ev.Commit? ==> ev.idx in c.disk.entries
    ensures Succeeds(c, ev)
  {
  }

  lemma RunLast(evs: seq<Event>)
    requires ValidRun(evs) && evs != []
    ensures var p, last := Run(evs[..|evs| - 1]), evs[|evs| - 1];
      && Enabled(p.history, last) && Run(evs).core == Step(p.core, last)
      && (last.CrashInAppend? ==> last.puts <= 2 * |last.entries|)
  {
    hide Step, StepHistory;
  }

  /** The adapter's range read on a node after any run: the documented half-open range of the
      visible log, plus the record stored under the upper bound if there is one. */
  method ReadEntries(node: RaftNode, ghost evs: seq<Event>, low: U64, high: U64) returns (r: EntriesOutcome)
    requires ValidRun(evs) && node.Valid() && node.storage.View() == Run(evs).core
    ensures var first, log, entries := FirstOf(evs), Run(evs).history.log, Run(evs).core.disk.entries;
      && (r == Compacted <==> low < first)
      && (r == OutOfBound <==> first <= low && |log| + 1 < high)
      && (first <= low <= high <= |log| + 1 ==>
            r == Found(HalfOpen(log, low, high) + if high in entries then [entries[high]] else []))
      && (first <= low && high < low && high <= |log| + 1 ==> r == Found([]))
  {
    ReachableInv(evs);
    FirstIsLast(evs);
    if FirstIndex(Run(evs).core) <= low <= high <= |Run(evs).history.log| + 1 {
      EntriesRead(evs, low, high);
    }
    var adapter := new RaftRocksDBStorage(node.storage);
    r := adapter.Entries(low, high);
  }

  /** The adapter's term query on a node after any run: the term of the visible entry, except
      that at the snapshot index it is the index. */
  method ReadTerm(node: RaftNode, ghost evs: seq<Event>, idx: U64) returns (r: TermOutcome)
    requires ValidRun(evs) && node.Valid() && node.storage.View() == Run(evs).core
    ensures var first, log := FirstOf(evs), Run(evs).history.log;
      var cut := BeforeMeta(evs);
      && (idx == LastCommit(cut) ==> r == TermIs(idx))
      && (r == TermCompacted <==> idx != LastCommit(cut) && idx < first)
      && (r == TermUnavailable <==> idx != LastCommit(cut) && first <= idx && |log| < idx)
      && (idx != LastCommit(cut) && first <= idx <= |log| ==>
            r.TermIs? && r.term == if idx == 0 then LastTerm(cut) else log[idx - 1].term)
  {
    ReachableInv(evs);
    FirstIsLast(evs);
    MetaIsLast(evs);
    var adapter := new RaftRocksDBStorage(node.storage);
    r := adapter.Term(idx);
  }
}
