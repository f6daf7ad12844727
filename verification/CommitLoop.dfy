/** Which committed entries the event loop's commit loop handles, over all runs of the storage. */
module CommitLoop {
  import opened RaftTypes
  import opened RaftStorage
  import opened RaftRuns
  import opened RaftReads

  // ---- entries that a restart jumps over ----

  /** Some restart resumed at a saved commit index at or above `i` while the loop was below. */
  ghost predicate JumpedOver(evs: seq<Event>, i: nat) {
    evs != [] &&
    (|| JumpedOver(evs[..|evs| - 1], i)
     || var p := Run(evs[..|evs| - 1]);
        IsRestart(evs[|evs| - 1]) && p.history.applied < i <= p.core.disk.hard.commit)
  }

  /** Every restart of the run found the commit loop level with the saved commit index. */
  ghost predicate LevelRestarts(evs: seq<Event>) {
    evs == [] ||
    (&& LevelRestarts(evs[..|evs| - 1])
     && var p := Run(evs[..|evs| - 1]);
        IsRestart(evs[|evs| - 1]) ==> p.history.applied == p.core.disk.hard.commit)
  }

  lemma LevelSnoc(evs: seq<Event>, ev: Event)
    ensures var p := Run(evs);
      LevelRestarts(evs + [ev]) <==>
        LevelRestarts(evs) && (IsRestart(ev) ==> p.history.applied == p.core.disk.hard.commit)
  {
    hide Run;
    assert (evs + [ev])[..|evs + [ev]| - 1] == evs;
  }

  lemma {:induction false} JumpedIsBelow(evs: seq<Event>, i: nat)
    requires ValidRun(evs) && JumpedOver(evs, i)
    ensures i <= Run(evs).history.applied
  {
    var before := evs[..|evs| - 1];
    ReachableInv(before);
    if JumpedOver(before, i) {
      JumpedIsBelow(before, i);
    }
  }

  lemma {:induction false} LevelNeverJumps(evs: seq<Event>, i: nat)
    requires LevelRestarts(evs)
    ensures !JumpedOver(evs, i)
  {
    if evs != [] {
      LevelNeverJumps(evs[..|evs| - 1], i);
    }
  }

  lemma {:induction false} UnlevelJumps(evs: seq<Event>) returns (i: U64)
    requires ValidRun(evs) && !LevelRestarts(evs)
    ensures JumpedOver(evs, i) && 1 <= i <= Run(evs).history.applied
  {
    var before := evs[..|evs| - 1];
    ReachableInv(before);
    if LevelRestarts(before) {
      i := Run(before).core.disk.hard.commit;
    } else {
      i := UnlevelJumps(before);
    }
  }

  // ---- how often an entry is begun and committed ----

  ghost function Begins(evs: seq<Event>, i: U64): nat {
    multiset(evs)[Begin(i)]
  }

  ghost function Commits(evs: seq<Event>, i: U64): nat {
    multiset(evs)[Commit(i)]
  }

  lemma CountsSnoc(evs: seq<Event>, i: U64)
    requires evs != []
    ensures Begins(evs, i) == Begins(evs[..|evs| - 1], i) + (if evs[|evs| - 1] == Begin(i) then 1 else 0)
    ensures Commits(evs, i) == Commits(evs[..|evs| - 1], i) + (if evs[|evs| - 1] == Commit(i) then 1 else 0)
  {
    assert evs == evs[..|evs| - 1] + [evs[|evs| - 1]];
  }

  /** Over every run, restarts and crashes included, the loop commits each index at most once:
      once if it lies at or below the loop's position and no restart jumped over it, else never. */
  lemma {:induction false} CommittedOnce(evs: seq<Event>, i: U64)
    requires ValidRun(evs)
    ensures Commits(evs, i) == if 1 <= i <= Run(evs).history.applied && !JumpedOver(evs, i) then 1 else 0
  {
    if evs != [] {
      var before := evs[..|evs| - 1];
      CommittedOnce(before, i);
      ReachableInv(before);
      CountsSnoc(evs, i);
      if JumpedOver(before, i) { JumpedIsBelow(before, i); }
      hide Inv, Commits, ValidRun;
    }
  }

  /** The loop is in the body of entry `i`. */
  predicate InBody(evs: seq<Event>, i: U64) {
    evs != [] &&
    var ev := evs[|evs| - 1];
    ev == Begin(i) || (InBody(evs[..|evs| - 1], i) && !ev.Begin? && !ev.Commit? && !IsRestart(ev))
  }

  /** How many process lives ended in the body of entry `i`. */
  function Interrupted(evs: seq<Event>, i: U64): nat {
    if evs == [] then 0
    else
      var before := evs[..|evs| - 1];
      Interrupted(before, i) + (if IsRestart(evs[|evs| - 1]) && InBody(before, i) then 1 else 0)
  }

  lemma {:induction false} InBodyIsBegun(evs: seq<Event>, i: U64)
    requires ValidRun(evs)
    ensures InBody(evs, i) <==> Run(evs).history.begun && i == Run(evs).history.applied + 1
  {
    if evs != [] {
      InBodyIsBegun(evs[..|evs| - 1], i);
    }
  }

  /** Over every run: the body of an entry was entered once for its commit, once for every life
      that ended in it, and once more if the loop is in it now. */
  lemma {:induction false} BeginsExact(evs: seq<Event>, i: U64)
    requires ValidRun(evs)
    ensures Begins(evs, i) == Commits(evs, i) + Interrupted(evs, i) + (if InBody(evs, i) then 1 else 0)
  {
    if evs != [] {
      var before := evs[..|evs| - 1];
      BeginsExact(before, i);
      CountsSnoc(evs, i);
      InBodyIsBegun(before, i);
      InBodyIsBegun(evs, i);
    }
  }

  /** An entry that the loop has passed was begun exactly once and committed if and only if no
      restart jumped over it and no life ended in its body. */
  lemma HandledOnce(evs: seq<Event>, i: U64)
    requires ValidRun(evs) && 1 <= i <= Run(evs).history.applied
    ensures Begins(evs, i) == 1 == Commits(evs, i) <==> !JumpedOver(evs, i) && Interrupted(evs, i) == 0
    ensures Begins(evs, i) == Interrupted(evs, i) + (if JumpedOver(evs, i) then 0 else 1)
  {
    CommittedOnce(evs, i);
    BeginsExact(evs, i);
    InBodyIsBegun(evs, i);
  }

  /** The commit loop has committed every entry up to its position if and only if no restart came
      between saving a commit index and committing the entries up to it. */
  lemma SkippedExact(evs: seq<Event>)
    requires ValidRun(evs)
    ensures (forall i: U64 | 1 <= i <= Run(evs).history.applied :: Commit(i) in evs) <==> LevelRestarts(evs)
  {
    forall i: U64 ensures Commit(i) in evs <==> 1 <= i <= Run(evs).history.applied && !JumpedOver(evs, i) {
      CommittedOnce(evs, i);
    }
    if LevelRestarts(evs) {
      forall i: U64 ensures !JumpedOver(evs, i) { LevelNeverJumps(evs, i); }
    } else {
      var i := UnlevelJumps(evs);
      assert Commit(i) !in evs;
    }
  }

  // ---- both departures happen ----

  /** A restart between saving a commit index and the commit loop skips a committed entry: the
      loop resumes after index 1, which it never began. */
  lemma RestartSkips() returns (evs: seq<Event>)
    ensures ValidRun(evs) && Run(evs).history.applied == 1 && Begin(1) !in evs && Commit(1) !in evs
  {
    evs := TwoLogged();
    hide Run, ValidRun, SaveEntries;
    Extend(evs, SaveHard(HardState(1, 1, 1)));
    evs := evs + [SaveHard(HardState(1, 1, 1))];
    Extend(evs, Restart);
    evs := evs + [Restart];
  }

  const C1 := ConfState([1, 2])

  /** A process that ends in the body of entry 1, after saving its configuration change. */
  lemma BodyCut() returns (evs: seq<Event>)
    ensures evs == [Append([A1, A2]), Begin(1), SaveConf(C1), Restart] && ValidRun(evs)
    ensures Run(evs).history == History([A1, A2], 0, 1, false)
  {
    evs := TwoLogged();
    hide Run, ValidRun, SaveEntries;
    Extend(evs, Begin(1));
    evs := evs + [Begin(1)];
    Extend(evs, SaveConf(C1));
    evs := evs + [SaveConf(C1)];
    Extend(evs, Restart);
    evs := evs + [Restart];
  }

  /** Then the next process begins the entry, and saves the change, once more. */
  lemma BodyRunsTwice() returns (evs: seq<Event>)
    ensures ValidRun(evs) && Run(evs).history.applied == 1 && Begins(evs, 1) == 2 && Commits(evs, 1) == 1
    ensures multiset(evs)[SaveConf(C1)] == 2
  {
    evs := BodyCut();
    hide Run, ValidRun, SaveEntries;
    Extend(evs, Begin(1));
    evs := evs + [Begin(1)];
    Extend(evs, SaveConf(C1));
    evs := evs + [SaveConf(C1)];
    Extend(evs, Commit(1));
    evs := evs + [Commit(1)];
    hide *;
    assert evs == [Append([A1, A2]), Begin(1), SaveConf(C1), Restart, Begin(1), SaveConf(C1), Commit(1)];
  }
}
