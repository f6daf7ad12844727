/** The uncommitted set over all runs of the storage, crashes inside a call included. */
module UncommittedSet {
  import opened RaftTypes
  import opened RaftStorage
  import opened RaftRuns
  import opened RaftReads
  import opened CommitLoop

  ghost predicate MarksAreUncommitted(c: Core) {
    forall i: U64 | 1 <= i <= LastIndex(c) :: i in c.uncommit <==> c.disk.hard.commit < i
  }

  predicate Covers(es: seq<LogEntry>, i: nat) {
    es != [] && es[0].index <= i < es[0].index + |es|
  }

  /** The last call that touched the mark of `i` set it: a finished append. */
  predicate Marked(evs: seq<Event>, i: U64) {
    evs != [] &&
    match evs[|evs| - 1]
    case Append(es) => Covers(es, i) || Marked(evs[..|evs| - 1], i)
    case Commit(idx) => idx != i && Marked(evs[..|evs| - 1], i)
    case CrashInCommit(idx) => idx != i && Marked(evs[..|evs| - 1], i)
    case _ => Marked(evs[..|evs| - 1], i)
  }

  /** Entry `i` is without its mark through a crash: one inside its commit took the mark, or one
      inside an append made the entry visible without marking it, no stale mark being there. */
  ghost predicate Lost(evs: seq<Event>, i: U64) {
    evs != [] &&
    var before := evs[..|evs| - 1];
    match evs[|evs| - 1]
    case Append(es) => !Covers(es, i) && Lost(before, i)
    case Commit(idx) => idx != i && Lost(before, i)
    case CrashInCommit(idx) => idx == i || Lost(before, i)
    case CrashInAppend(es, _) => if i <= |Run(before).history.log| then Lost(before, i) else !Marked(before, i)
    case _ => Lost(before, i)
  }

  lemma {:induction false} SetIsMarked(evs: seq<Event>, i: U64)
    requires ValidRun(evs)
    ensures i in Run(evs).core.uncommit <==> Marked(evs, i)
  {
    if evs != [] {
      var before, ev := evs[..|evs| - 1], evs[|evs| - 1];
      SetIsMarked(before, i);
      ReachableInv(before);
      hide ValidRun, SaveEntries, LogInv;
      SetStep(Run(before).core, Run(before).history, ev, i);
    }
  }

  lemma SetStep(c: Core, h: History, ev: Event, i: U64)
    requires Inv(c, h) && Enabled(h, ev)
    ensures i in Step(c, ev).uncommit <==>
      match ev
      case Append(es) => Covers(es, i) || i in c.uncommit
      case Commit(idx) => idx != i && i in c.uncommit
      case CrashInCommit(idx) => idx != i && i in c.uncommit
      case _ => i in c.uncommit
  {
    hide LogInv;
    match ev
    case Append(es) =>
      if es != [] { SavedBatch(c, es, es[0].index); }
    case CrashInAppend(es, puts) =>
      assert es[..puts / 2] == [] || es[..puts / 2][0] == es[0];
      SavedBatch(c, es[..puts / 2], es[0].index);
    case _ =>
  }

  /** A visible entry is marked if and only if it was not committed and lost no mark. */
  lemma {:induction false} MarkedExact(evs: seq<Event>, i: U64)
    requires ValidRun(evs) && 1 <= i <= |Run(evs).history.log|
    ensures Marked(evs, i) <==> Commit(i) !in evs && !Lost(evs, i)
  {
    var before, ev := evs[..|evs| - 1], evs[|evs| - 1];
    assert evs == before + [ev];
    ReachableInv(before);
    CommittedOnce(before, i);
    if i <= |Run(before).history.log| {
      MarkedExact(before, i);
    } else {
      hide LogInv, CutAndExtend, Commits, JumpedOver;
      NewlyVisible(Run(before).core, Run(before).history, ev, i);
    }
  }

  /** Only an append makes an index visible, whole or in part. */
  lemma NewlyVisible(c: Core, h: History, ev: Event, i: U64)
    requires Inv(c, h) && Enabled(h, ev)
    requires |h.log| < i <= |StepHistory(h, ev, c.disk.hard.commit).log|
    ensures ev.CrashInAppend? || (ev.Append? && Covers(ev.entries, i))
    ensures h.applied < i
  {
    match ev
    case Append(es) => CutAndExtendLength(h.log, es);
    case _ =>
  }

  /** Over every run: the set on the visible log is exactly (commit, last] if and only if each
      entry up to the saved commit index was committed by the loop or lost its mark, and no
      entry past it lost its mark. */
  lemma UncommittedExact(evs: seq<Event>)
    requires ValidRun(evs)
    ensures var c := Run(evs).core;
      MarksAreUncommitted(c) <==>
        forall i: U64 | 1 <= i <= LastIndex(c) ::
          if i <= c.disk.hard.commit then Commit(i) in evs || Lost(evs, i) else !Lost(evs, i)
  {
    ReachableInv(evs);
    var c := Run(evs).core;
    forall i: U64 | 1 <= i <= LastIndex(c)
      ensures i in c.uncommit <==> Commit(i) !in evs && !Lost(evs, i)
      ensures c.disk.hard.commit < i ==> Commit(i) !in evs
    {
      SetIsMarked(evs, i);
      MarkedExact(evs, i);
      CommittedOnce(evs, i);
    }
  }

  // ---- runs without a crash inside append or commit ----

  ghost predicate WholeCalls(evs: seq<Event>) {
    forall ev | ev in evs :: !ev.CrashInAppend? && !ev.CrashInCommit?
  }

  lemma {:induction false} NothingLost(evs: seq<Event>, i: U64)
    requires WholeCalls(evs)
    ensures !Lost(evs, i)
  {
    if evs != [] {
      assert evs[|evs| - 1] in evs;
      NothingLost(evs[..|evs| - 1], i);
    }
  }

  /** Every index up to `to` was committed exactly when the loop reached it and never jumped. */
  lemma AllCommitted(evs: seq<Event>)
    requires ValidRun(evs)
    ensures var p := Run(evs);
      (forall i: U64 | 1 <= i <= p.core.disk.hard.commit :: Commit(i) in evs)
        <==> LevelRestarts(evs) && p.history.applied == p.core.disk.hard.commit
  {
    ReachableInv(evs);
    SkippedExact(evs);
    var p := Run(evs);
    var hc: U64 := p.core.disk.hard.commit;
    CommittedOnce(evs, hc);
  }

  /** While no process dies inside a call: the set is exact if and only if the commit loop is
      level with the saved commit index, now and at every restart. */
  lemma UncommittedWhole(evs: seq<Event>)
    requires ValidRun(evs) && WholeCalls(evs)
    ensures var p := Run(evs);
      MarksAreUncommitted(p.core) <==> LevelRestarts(evs) && p.history.applied == p.core.disk.hard.commit
  {
    ReachableInv(evs);
    UncommittedExact(evs);
    AllCommitted(evs);
    forall i: U64 ensures !Lost(evs, i) { NothingLost(evs, i); }
  }

  lemma LostSnoc(evs: seq<Event>, ev: Event, i: U64)
    requires WholeCalls(evs)
    ensures Commit(i) in evs + [ev] <==> Commit(i) in evs || ev == Commit(i)
    ensures ev.CrashInCommit? ==> (Lost(evs + [ev], i) <==> ev.idx == i)
    ensures ev.CrashInAppend? ==> (Lost(evs + [ev], i) <==> |Run(evs).history.log| < i && !Marked(evs, i))
  {
    NothingLost(evs, i);
    LostStep(evs, ev, i);
  }

  lemma LostStep(evs: seq<Event>, ev: Event, i: U64)
    requires !Lost(evs, i)
    ensures ev.CrashInCommit? ==> (Lost(evs + [ev], i) <==> ev.idx == i)
    ensures ev.CrashInAppend? ==> (Lost(evs + [ev], i) <==> |Run(evs).history.log| < i && !Marked(evs, i))
  {
    hide Run, Marked;
    assert (evs + [ev])[..|evs + [ev]| - 1] == evs;
  }

  /** One crash inside an append after such a run: also no newly visible entry may be unmarked. */
  lemma UncommittedAfterCrashInAppend(evs: seq<Event>, es: seq<LogEntry>, puts: nat)
    requires ValidRun(evs) && WholeCalls(evs) && Enabled(Run(evs).history, CrashInAppend(es, puts))
    ensures var p := Run(evs);
      var c := Step(p.core, CrashInAppend(es, puts));
      MarksAreUncommitted(c) <==>
        && LevelRestarts(evs) && p.history.applied == p.core.disk.hard.commit
        && forall i: U64 | |p.history.log| < i <= LastIndex(c) :: i in p.core.uncommit
  {
    var p, ev := Run(evs), CrashInAppend(es, puts);
    Extend(evs, ev);
    ReachableInv(evs);
    ReachableInv(evs + [ev]);
    LastAfterCrash(p, ev);
    UncommittedExact(evs + [ev]);
    AllCommitted(evs);
    hide ValidRun, Run, Step, LevelRestarts, Enabled, MarksAreUncommitted, LogInv;
    forall i: U64
      ensures Commit(i) in evs + [ev] <==> Commit(i) in evs
      ensures Lost(evs + [ev], i) <==> |p.history.log| < i && i !in p.core.uncommit
    {
      LostSnoc(evs, ev, i);
      SetIsMarked(evs, i);
    }
  }

  lemma LastAfterCrash(p: Point, ev: Event)
    requires Inv(p.core, p.history) && Enabled(p.history, ev)
    requires ev.CrashInAppend? || ev.CrashInCommit?
    requires Inv(Next(p, ev).core, Next(p, ev).history)
    ensures Step(p.core, ev).disk.hard == p.core.disk.hard
    ensures p.core.disk.hard.commit <= LastIndex(Step(p.core, ev))
    ensures ev.CrashInCommit? ==> LastIndex(Step(p.core, ev)) == |p.history.log|
  {
    hide LogInv;
    if ev.CrashInAppend? {
      var first := ev.entries[..ev.puts / 2];
      assert first == [] || first[0] == ev.entries[0];
      SavedBatch(p.core, first, ev.entries[0].index);
    }
  }

  /** One crash inside a commit after such a run: the set is exact if and only if the entry was
      the last one up to the saved commit index, and every restart was level. */
  lemma UncommittedAfterCrashInCommit(evs: seq<Event>, idx: U64)
    requires ValidRun(evs) && WholeCalls(evs) && Enabled(Run(evs).history, CrashInCommit(idx))
    ensures var p := Run(evs);
      MarksAreUncommitted(Step(p.core, CrashInCommit(idx))) <==> LevelRestarts(evs) && p.core.disk.hard.commit == idx
  {
    var p, ev := Run(evs), CrashInCommit(idx);
    Extend(evs, ev);
    ReachableInv(evs);
    ReachableInv(evs + [ev]);
    LastAfterCrash(p, ev);
    UncommittedExact(evs + [ev]);
    SkippedExact(evs);
    hide ValidRun, Run, Step, LevelRestarts, MarksAreUncommitted, LogInv, Commits;
    forall i: U64
      ensures Commit(i) in evs + [ev] <==> Commit(i) in evs
      ensures Lost(evs + [ev], i) <==> i == idx
      ensures Commit(i) in evs ==> i <= p.history.applied
    {
      LostSnoc(evs, ev, i);
      if Commit(i) in evs { CommittedIsBelow(evs, i); }
    }
    var hc: U64 := p.core.disk.hard.commit;
    assert hc == idx || hc <= p.history.applied || Commit(hc) !in evs;
    assert idx == p.history.applied + 1 <= LastIndex(Step(p.core, ev));
  }

  lemma CommittedIsBelow(evs: seq<Event>, i: U64)
    requires ValidRun(evs) && Commit(i) in evs
    ensures i <= Run(evs).history.applied
  {
    CommittedOnce(evs, i);
  }

  // ---- both departures happen ----

  /** A crash after the first entry of a batch, before the set is saved: index 1 is visible and
      not committed, but unmarked. */
  lemma CrashInAppendUnmarks() returns (evs: seq<Event>)
    ensures evs == [CrashInAppend([A1], 2)] && ValidRun(evs)
    ensures var c := Run(evs).core; LastIndex(c) == 1 && c.disk.hard.commit == 0 && 1 !in c.uncommit
  {
    evs := [] + [CrashInAppend([A1], 2)];
    Extend([], CrashInAppend([A1], 2));
    assert [A1][..1] == [A1];
    SavedBatch(FRESH, [A1], 1);
  }

  /** A crash between the two writes of a commit, with every restart and the loop level: index 1
      is visible and not committed, but unmarked. */
  lemma CrashInCommitUnmarks() returns (evs: seq<Event>)
    ensures evs == [Append([A1, A2]), Begin(1), CrashInCommit(1)] && ValidRun(evs) && LevelRestarts(evs)
    ensures var c := Run(evs).core; LastIndex(c) == 2 && c.disk.hard.commit == 0 && 1 !in c.uncommit
  {
    evs := TwoLogged();
    hide Run, ValidRun, SaveEntries;
    Extend(evs, Begin(1));
    LevelSnoc(evs, Begin(1));
    Extend(evs + [Begin(1)], CrashInCommit(1));
    LevelSnoc(evs + [Begin(1)], CrashInCommit(1));
    evs := evs + [Begin(1)] + [CrashInCommit(1)];
    ReachableInv(evs);
  }
}
