/** How the saved hard state moves over all runs of the storage: the commit loop overwrites its
    commit index and its term with those of the entry it commits. */
module SavedCommit {
  import opened RaftTypes
  import opened RaftStorage
  import opened RaftRuns
  import opened RaftReads

  // ---- the commit index ----

  /** The commit index that the last call writing one wrote. */
  function LastCommit(evs: seq<Event>): nat {
    if evs == [] then 0
    else
      match evs[|evs| - 1]
      case Commit(idx) => idx
      case SaveHard(hs) => hs.commit
      case SetCommit(commit) => commit
      case _ => LastCommit(evs[..|evs| - 1])
  }

  /** The highest commit index that any event of the run carries, written or not. */
  function HighestCommit(evs: seq<Event>): nat {
    if evs == [] then 0
    else
      var before := HighestCommit(evs[..|evs| - 1]);
      match evs[|evs| - 1]
      case Begin(idx) => Max(before, idx)
      case Commit(idx) => Max(before, idx)
      case SaveHard(hs) => Max(before, hs.commit)
      case SetCommit(commit) => Max(before, commit)
      case _ => before
  }

  lemma {:induction false} CommitIsLast(evs: seq<Event>)
    requires ValidRun(evs)
    ensures Run(evs).core.disk.hard.commit == LastCommit(evs)
    ensures Run(evs).history.committed == HighestCommit(evs)
  {
    if evs != [] {
      var before, ev := evs[..|evs| - 1], evs[|evs| - 1];
      CommitIsLast(before);
      HardStateStep(before, ev);
    }
  }

  /** What each event does to the saved hard state. */
  lemma HardStateStep(evs: seq<Event>, ev: Event)
    requires ValidRun(evs) && Enabled(Run(evs).history, ev)
    ensures var p := Run(evs);
      var was, now := p.core.disk.hard, Step(p.core, ev).disk.hard;
      match ev
      case Commit(idx) => 1 <= idx <= |p.history.log| && now == HardState(p.history.log[idx - 1].term, was.vote, idx)
      case SaveHard(hs) => now == hs
      case SetCommit(commit) => now == HardState(was.term, was.vote, commit)
      case _ => now == was
  {
    ReachableInv(evs);
    hide Run, ValidRun;
    var p := Run(evs);
    match ev
    case Append(es) =>
      if es != [] { SavedBatch(p.core, es, es[0].index); }
    case CrashInAppend(es, puts) =>
      assert es[..puts / 2] == [] || es[..puts / 2][0] == es[0];
      SavedBatch(p.core, es[..puts / 2], es[0].index);
    case Commit(idx) => CommitStep(p.core, p.history, idx);
    case _ =>
  }

  /** A commit moves the saved commit index back if and only if the index is ahead of the loop by
      more than the entry being committed. */
  lemma CommitLowers(evs: seq<Event>, idx: U64)
    requires ValidRun(evs) && Enabled(Run(evs).history, Commit(idx))
    ensures var p := Run(evs);
      Step(p.core, Commit(idx)).disk.hard.commit < p.core.disk.hard.commit <==>
        p.history.applied + 1 < p.core.disk.hard.commit
  {
    HardStateStep(evs, Commit(idx));
  }

  /** Over every run the saved commit index, and so the one that a restart resumes from, is the
      highest index known to be committed if and only if the last one written is. */
  lemma CommitBehind(evs: seq<Event>)
    requires ValidRun(evs)
    ensures var c := Next(Run(evs), Restart);
      && LastCommit(evs) <= HighestCommit(evs)
      && (c.history.applied == c.history.committed <==> LastCommit(evs) == HighestCommit(evs))
  {
    CommitIsLast(evs);
    ReachableInv(evs);
  }

  /** The commit loop moves the saved commit index back, and a restart resumes from there: index
      2 is known to be committed, the node restarts at 1. */
  lemma CommitRecedes() returns (evs: seq<Event>)
    ensures ValidRun(evs) && Run(evs).history.committed == 2
    ensures Run(evs).history.applied == Run(evs).core.disk.hard.commit == 1
  {
    evs := TwoLogged();
    hide Run, ValidRun, SaveEntries;
    Extend(evs, SaveHard(HardState(1, 1, 2)));
    evs := Handle(evs + [SaveHard(HardState(1, 1, 2))], 1);
    Extend(evs, Restart);
    evs := evs + [Restart];
  }

  // ---- the term ----

  /** The highest term that the run saved, in a hard state or with a commit. */
  function HighestTerm(evs: seq<Event>): nat {
    if evs == [] then 0
    else
      var before := evs[..|evs| - 1];
      match evs[|evs| - 1]
      case SaveHard(hs) => Max(HighestTerm(before), hs.term)
      case Commit(idx) => Max(HighestTerm(before), TermAt(before, idx))
      case _ => HighestTerm(before)
  }

  function TermAt(evs: seq<Event>, idx: U64): nat {
    var log := Run(evs).history.log;
    if 1 <= idx <= |log| then log[idx - 1].term else 0
  }

  /** A commit of an entry of lower term, or a hard state of lower term, came after the highest
      term was saved, and no later write made it good. */
  predicate TermFell(evs: seq<Event>) {
    evs != [] &&
    var before := evs[..|evs| - 1];
    match evs[|evs| - 1]
    case SaveHard(hs) => hs.term < HighestTerm(before)
    case Commit(idx) => TermAt(before, idx) < HighestTerm(before)
    case _ => TermFell(before)
  }

  lemma {:induction false} TermBehind(evs: seq<Event>)
    requires ValidRun(evs)
    ensures Run(evs).core.disk.hard.term <= HighestTerm(evs)
    ensures Run(evs).core.disk.hard.term < HighestTerm(evs) <==> TermFell(evs)
  {
    if evs != [] {
      var before, ev := evs[..|evs| - 1], evs[|evs| - 1];
      TermBehind(before);
      HardStateStep(before, ev);
    }
  }

  /** A commit lowers the saved term if and only if the entry's term is below it. */
  lemma CommitLowersTerm(evs: seq<Event>, idx: U64)
    requires ValidRun(evs) && Enabled(Run(evs).history, Commit(idx))
    ensures var p := Run(evs);
      Step(p.core, Commit(idx)).disk.hard.term < p.core.disk.hard.term <==>
        TermAt(evs, idx) < p.core.disk.hard.term
  {
    HardStateStep(evs, Commit(idx));
  }

  /** A node that saved its vote in term 2 and then commits an entry of term 1 restarts in term 1,
      with the vote of term 2. */
  lemma SavedTermFalls() returns (evs: seq<Event>)
    ensures ValidRun(evs) && SaveHard(HardState(2, 7, 1)) in evs
    ensures Run(evs).core.disk.hard == HardState(1, 7, 1)
  {
    evs := TwoLogged();
    hide Run, ValidRun, SaveEntries;
    Extend(evs, SaveHard(HardState(2, 7, 1)));
    evs := evs + [SaveHard(HardState(2, 7, 1))];
    assert Run(evs).history.log[0] == A1;
    Extend(evs, Begin(1));
    HardStateStep(evs + [Begin(1)], Commit(1));
    evs := Handle(evs, 1);
    Extend(evs, Restart);
    evs := evs + [Restart];
  }
}
