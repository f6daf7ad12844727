/** What the saved records and the snapshot metadata are after any run, told by the run's events. */
module SavedRecords {
  import opened RaftTypes
  import opened RaftStorage
  import opened RaftRuns
  import opened SavedCommit
  import opened RaftReads

  // ---- hard state and conf state ----

  /** The term that the last call writing one wrote. */
  function LastTerm(evs: seq<Event>): nat {
    if evs == [] then 0
    else
      var before := evs[..|evs| - 1];
      match evs[|evs| - 1]
      case SaveHard(hs) => hs.term
      case Commit(idx) => TermAt(before, idx)
      case _ => LastTerm(before)
  }

  function LastVote(evs: seq<Event>): nat {
    if evs == [] then 0
    else if evs[|evs| - 1].SaveHard? then evs[|evs| - 1].hs.vote
    else LastVote(evs[..|evs| - 1])
  }

  function LastConf(evs: seq<Event>): ConfState {
    if evs == [] then ConfState([])
    else if evs[|evs| - 1].SaveConf? then evs[|evs| - 1].cs
    else LastConf(evs[..|evs| - 1])
  }

  /** Over every run, crashes included, the saved vote is that of the last saved hard state, term
      and commit index are the last ones written, and the conf state is the last one saved. */
  lemma {:induction false} RecordsAreLast(evs: seq<Event>)
    requires ValidRun(evs)
    ensures var d := Run(evs).core.disk;
      && d.hard.vote == LastVote(evs) && d.hard.term == LastTerm(evs) && d.hard.commit == LastCommit(evs)
      && d.conf == LastConf(evs)
  {
    if evs != [] {
      var before, ev := evs[..|evs| - 1], evs[|evs| - 1];
      RecordsAreLast(before);
      HardStateStep(before, ev);
      RecordStep(before, ev);
    }
  }

  /** What each event does to conf state, snapshot records and metadata. */
  lemma RecordStep(evs: seq<Event>, ev: Event)
    requires ValidRun(evs) && Enabled(Run(evs).history, ev)
    ensures var c := Run(evs).core;
      var d, now := c.disk, Step(c, ev);
      && now.disk.conf == (if ev.SaveConf? then ev.cs else d.conf)
      && now.disk.first == (if ev.Snapshot? || ev.CrashInSnapshot? then Some(d.hard.commit) else d.first)
      && now.disk.snapshot == (if ev.Snapshot? then Some(SnapshotMetadata(d.conf, d.hard.commit, d.hard.term)) else d.snapshot)
      && now.meta == (if ev.Snapshot? || IsRestart(ev) then SnapshotMetadata(d.conf, d.hard.commit, d.hard.term) else c.meta)
  {
    var p := Run(evs);
    hide Run, ValidRun;
    match ev
    case Append(es) =>
      BatchKeeps(p.core, p.history, es, |es|);
    case CrashInAppend(es, puts) =>
      BatchKeeps(p.core, p.history, es, puts / 2);
    case _ => hide SaveEntries, AppendedPuts;
  }

  lemma BatchKeeps(c: Core, h: History, es: seq<LogEntry>, n: nat)
    requires AppendEnabled(h, es) && n <= |es|
    ensures var s := SaveEntries(c, es[..n]);
      s == c.(disk := c.disk.(entries := s.disk.entries, last := s.disk.last), uncommit := s.uncommit)
    ensures n == |es| ==> es[..n] == es
  {
    var part := es[..n];
    assert part == [] || part[0] == es[0];
    SavedBatch(c, part, if es == [] then 0 else es[0].index);
  }

  // ---- snapshot metadata and first index ----

  /** The run up to its last local snapshot or restart, which set the metadata in memory. */
  function BeforeMeta(evs: seq<Event>): seq<Event> {
    if evs == [] then []
    else if evs[|evs| - 1].Snapshot? || IsRestart(evs[|evs| - 1]) then evs[..|evs| - 1]
    else BeforeMeta(evs[..|evs| - 1])
  }

  /** The run up to its last local snapshot. */
  function BeforeSnapshot(evs: seq<Event>): Option<seq<Event>> {
    if evs == [] then None
    else if evs[|evs| - 1].Snapshot? then Some(evs[..|evs| - 1])
    else BeforeSnapshot(evs[..|evs| - 1])
  }

  /** The run up to the last time a first index was written, by a snapshot or part of one. */
  function BeforeFirst(evs: seq<Event>): Option<seq<Event>> {
    if evs == [] then None
    else if evs[|evs| - 1].Snapshot? || evs[|evs| - 1].CrashInSnapshot? then Some(evs[..|evs| - 1])
    else BeforeFirst(evs[..|evs| - 1])
  }

  /** `meta` carries what `evs` had saved. */
  ghost predicate Carries(meta: SnapshotMetadata, evs: seq<Event>) {
    meta.conf == LastConf(evs) && meta.index == LastCommit(evs) && meta.term == LastTerm(evs)
  }

  /** Over every run: the metadata in memory is what was saved when the last snapshot was cut or
      the process last started, the stored snapshot's is what was saved when it was cut. */
  lemma {:induction false} MetaIsLast(evs: seq<Event>)
    requires ValidRun(evs)
    ensures Carries(Run(evs).core.meta, BeforeMeta(evs))
    ensures Run(evs).core.disk.snapshot.Some? <==> BeforeSnapshot(evs).Some?
    ensures BeforeSnapshot(evs).Some? ==> Carries(Run(evs).core.disk.snapshot.value, BeforeSnapshot(evs).value)
  {
    if evs != [] {
      var before, ev := evs[..|evs| - 1], evs[|evs| - 1];
      MetaIsLast(before);
      RecordsAreLast(before);
      RecordStep(before, ev);
      hide Step, Enabled;
    }
  }

  /** The first index, from the events: the commit index at the last snapshot that wrote one, or
      one past the commit index that the process started with. */
  function FirstOf(evs: seq<Event>): nat {
    var written := BeforeFirst(evs);
    if written.Some? then LastCommit(written.value) else LastCommit(BeforeMeta(evs)) + 1
  }

  lemma FirstIsLast(evs: seq<Event>)
    requires ValidRun(evs)
    ensures FirstIndex(Run(evs).core) == FirstOf(evs)
  {
    MetaIsLast(evs);
    FirstIsWritten(evs);
    ReachableInv(evs);
    CommitIsShort(evs);
  }

  lemma CommitIsShort(evs: seq<Event>)
    requires ValidRun(evs)
    ensures Run(evs).core.meta.index < MAX_U64
  {
    ReachableInv(evs);
  }

  lemma {:induction false} FirstIsWritten(evs: seq<Event>)
    requires ValidRun(evs)
    ensures Run(evs).core.disk.first.Some? <==> BeforeFirst(evs).Some?
    ensures BeforeFirst(evs).Some? ==> Run(evs).core.disk.first.value == LastCommit(BeforeFirst(evs).value)
  {
    if evs != [] {
      var before, ev := evs[..|evs| - 1], evs[|evs| - 1];
      FirstIsWritten(before);
      RecordsAreLast(before);
      RecordStep(before, ev);
      hide Step, Enabled;
    }
  }

  /** A restart takes its metadata from what was saved last. Without a first index on disk, all
      that was committed counts as compacted from then on, although no snapshot was cut. */
  lemma RestartCompacts(evs: seq<Event>, low: U64, high: U64)
    requires ValidRun(evs)
    ensures var c := Run(evs + [Restart]).core;
      && Carries(c.meta, evs)
      && (BeforeFirst(evs).None? ==> (EntriesOf(c, low, high) == Compacted <==> low <= LastCommit(evs)))
  {
    Extend(evs, Restart);
    assert (evs + [Restart])[..|evs + [Restart]| - 1] == evs;
    MetaIsLast(evs + [Restart]);
    FirstIsLast(evs + [Restart]);
  }

  /** A node that committed two entries, cut no snapshot and restarts: both read as compacted. */
  lemma RestartCompactsBoth() returns (evs: seq<Event>)
    ensures ValidRun(evs) && BeforeSnapshot(evs).None? && |Run(evs).history.log| == 2
    ensures EntriesOf(Run(evs).core, 1, 2) == EntriesOf(Run(evs).core, 2, 2) == Compacted
  {
    evs := TwoLogged();
    hide Run, ValidRun, SaveEntries;
    evs := Handle(evs, 1);
    evs := Handle(evs, 2);
    assert evs == [Append([A1, A2]), Begin(1), Commit(1), Begin(2), Commit(2)];
    NoSnapshot(evs);
    assert LastCommit(evs) == 2;
    RestartCompacts(evs, 1, 2);
    RestartCompacts(evs, 2, 2);
    Extend(evs, Restart);
    evs := evs + [Restart];
    NoSnapshot(evs);
  }

  lemma {:induction false} NoSnapshot(evs: seq<Event>)
    requires Snapshot !in evs && CrashInSnapshot !in evs
    ensures BeforeFirst(evs).None? && BeforeSnapshot(evs).None?
  {
    if evs != [] {
      NoSnapshot(evs[..|evs| - 1]);
    }
  }

  /** In every reachable state, `append` panics exactly on a batch that starts below the first
      index or leaves a gap after the last. */
  lemma RefusedExact(evs: seq<Event>, es: seq<LogEntry>)
    requires ValidRun(evs)
    ensures AppendAllowed(Run(evs).core, es) <==>
      es == [] || FirstOf(evs) <= es[0].index <= |Run(evs).history.log| + 1
  {
    FirstIsLast(evs);
    ReachableInv(evs);
  }
}
