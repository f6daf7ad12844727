/** Runs of the raft-rs storage: every call that the event loop makes, restarts between calls, and
    crashes between the writes of one call. */
module RaftRuns {
  import opened RaftTypes
  import opened RaftStorage

  /** `Begin` is no storage call: the event loop starts on a committed entry, routing its data or
      applying its configuration change, and `Commit` completes the entry. A crash in `append`
      comes after `puts` of its writes, two for each entry; in `commmit_index` and in
      `create_snapshot` after the first of their two. */
  datatype Event =
    | Append(entries: seq<LogEntry>)
    | Begin(idx: U64)
    | Commit(idx: U64)
    | SaveHard(hs: HardState)
    | SetCommit(commit: U64)
    | SaveConf(cs: ConfState)
    | Snapshot
    | Restart
    | CrashInAppend(entries: seq<LogEntry>, puts: nat)
    | CrashInCommit(idx: U64)
    | CrashInSnapshot

  const FRESH := Core(
    Stored(None, None, HardState(0, 0, 0), ConfState([]), map[], None, map[]),
    map[], SnapshotMetadata(ConfState([]), 0, 0))

  /** `log[i]` is the entry of index `i + 1`. `applied` is how far the commit loop got, or, after
      a restart, the commit index the library is told to resume from; `begun`: the loop is in the
      body of the next entry. `committed` is the highest index ever known to be committed; the
      saved commit index can fall back behind it, because the commit loop writes its own. */
  datatype History = History(log: seq<LogEntry>, applied: nat, committed: nat, begun: bool)

  const EMPTY := History([], 0, 0, false)

  ghost predicate Indexed(es: seq<LogEntry>, from: nat) {
    forall i | 0 <= i < |es| :: es[i].index == from + i
  }

  /** raft-rs's calling order: batches are consecutive, start above the commit point and leave
      no gap; the commit loop goes one by one; a saved commit index lies between the commit
      loop and the end of the log. */
  ghost predicate Enabled(h: History, ev: Event) {
    match ev
    case Append(es) => AppendEnabled(h, es)
    case Begin(idx) => !h.begun && idx == h.applied + 1 <= |h.log|
    case Commit(idx) => h.begun && idx == h.applied + 1
    case SaveHard(hs) => h.applied <= hs.commit <= |h.log|
    case SetCommit(commit) => h.applied <= commit <= |h.log|
    case CrashInAppend(es, puts) => es != [] && AppendEnabled(h, es) && puts <= 2 * |es|
    case CrashInCommit(idx) => h.begun && idx == h.applied + 1
    case _ => true
  }

  ghost predicate AppendEnabled(h: History, es: seq<LogEntry>) {
    es != [] ==>
      && h.committed < es[0].index <= |h.log| + 1
      && Indexed(es, es[0].index) && es[0].index + |es| - 1 < MAX_U64
  }

  /** The first `puts` writes of `append`: by turns an entry and the last index. */
  function AppendedPuts(c: Core, es: seq<LogEntry>, puts: nat): Core
    requires puts <= 2 * |es|
  {
    var s := SaveEntries(c, es[..puts / 2]);
    if puts % 2 == 1 then PutEntry(s, es[puts / 2]) else s
  }

  function Step(c: Core, ev: Event): Core {
    match ev
    case Append(es) => Appended(c, es)
    case Begin(_) => c
    case Commit(idx) => Committed(c, idx)
    case SaveHard(hs) => WithHardState(c, hs)
    case SetCommit(commit) => WithCommit(c, commit)
    case SaveConf(cs) => WithConfState(c, cs)
    case Snapshot => Snapshotted(c)
    case Restart => Reopened(c.disk)
    case CrashInAppend(es, puts) => if puts <= 2 * |es| then Reopened(AppendedPuts(c, es, puts).disk) else c
    case CrashInCommit(idx) => Reopened(Unmarked(c, idx).disk)
    case CrashInSnapshot => Reopened(WithFirst(c, c.disk.hard.commit).disk)
  }

  function StepHistory(h: History, ev: Event, saved: nat): History {
    match ev
    case Append(es) => if es == [] then h else h.(log := CutAndExtend(h.log, es))
    case Begin(idx) => h.(begun := true, committed := Max(h.committed, idx))
    case Commit(idx) => h.(applied := idx, begun := false, committed := Max(h.committed, idx))
    case SaveHard(hs) => h.(committed := Max(h.committed, hs.commit))
    case SetCommit(commit) => h.(committed := Max(h.committed, commit))
    case CrashInAppend(es, puts) =>
      History(if puts <= 2 * |es| then PartLog(h.log, es, puts) else h.log, saved, h.committed, false)
    case _ => if IsRestart(ev) then h.(applied := saved, begun := false) else h
  }

  predicate IsRestart(ev: Event) {
    ev.Restart? || ev.CrashInAppend? || ev.CrashInCommit? || ev.CrashInSnapshot?
  }

  /** The old log cut before the batch's first index, then the batch. */
  function CutAndExtend(log: seq<LogEntry>, es: seq<LogEntry>): seq<LogEntry>
    requires es != []
  {
    (if 1 <= es[0].index <= |log| then log[..es[0].index - 1] else log) + es
  }

  /** The visible log after `puts` writes of an append. The first write alone does not cut the
      log: it replaces one entry and leaves the old ones after it visible. */
  function PartLog(log: seq<LogEntry>, es: seq<LogEntry>, puts: nat): seq<LogEntry>
    requires puts <= 2 * |es|
  {
    if puts >= 2 then CutAndExtend(log, es[..puts / 2])
    else if puts == 1 && 1 <= es[0].index <= |log| then log[es[0].index - 1 := es[0]]
    else log
  }

  datatype Point = Point(core: Core, history: History)

  function Next(p: Point, ev: Event): Point {
    Point(Step(p.core, ev), StepHistory(p.history, ev, p.core.disk.hard.commit))
  }

  function Run(evs: seq<Event>): Point {
    if evs == [] then Point(FRESH, EMPTY) else Next(Run(evs[..|evs| - 1]), evs[|evs| - 1])
  }

  ghost predicate ValidRun(evs: seq<Event>) {
    evs == [] || (ValidRun(evs[..|evs| - 1]) && Enabled(Run(evs[..|evs| - 1]).history, evs[|evs| - 1]))
  }

  lemma {:induction false} PrefixIsValid(evs: seq<Event>, i: nat)
    requires ValidRun(evs) && i <= |evs|
    ensures ValidRun(evs[..i])
    decreases |evs|
  {
    hide Enabled, Next;
    if i < |evs| {
      var init := evs[..|evs| - 1];
      PrefixIsValid(init, i);
      assert init[..i] == evs[..i];
    } else {
      assert evs[..i] == evs;
    }
  }

  lemma Extend(evs: seq<Event>, ev: Event)
    requires ValidRun(evs) && Enabled(Run(evs).history, ev)
    ensures ValidRun(evs + [ev]) && Run(evs + [ev]) == Next(Run(evs), ev)
  {
    hide Enabled, Next;
    assert (evs + [ev])[..|evs + [ev]| - 1] == evs;
  }

  // ---- the invariant ----

  /** Every index of the log is stored under itself; records past the end may be stale but
      still carry their own index. */
  ghost predicate LogInv(entries: map<U64, LogEntry>, log: seq<LogEntry>) {
    && |log| < MAX_U64
    && (forall i: U64 | 1 <= i <= |log| :: i in entries && entries[i] == log[i - 1])
    && (forall i | i in entries :: 1 <= i == entries[i].index)
  }

  ghost predicate BoundsInv(c: Core, h: History) {
    && (c.disk.last.None? ==> h.log == [])
    && LastIndex(c) == |h.log|
    && h.applied <= c.disk.hard.commit <= h.committed <= |h.log|
    && (h.begun ==> h.applied < h.committed)
    && c.meta.index <= h.committed
    && FirstIndex(c) <= h.committed + 1
    && c.disk.uncommit == c.uncommit
  }

  ghost predicate Inv(c: Core, h: History) {
    LogInv(c.disk.entries, h.log) && BoundsInv(c, h)
  }

  // ---- append ----

  ghost predicate EntriesSaved(before: map<U64, LogEntry>, after: map<U64, LogEntry>, es: seq<LogEntry>, from: nat) {
    && (forall i: U64 | from <= i < from + |es| :: i in after && after[i] == es[i - from])
    && (forall i: U64 | !(from <= i < from + |es|) :: (i in after <==> i in before) && (i in before ==> after[i] == before[i]))
  }

  ghost predicate MarksSaved(before: map<U64, int>, after: map<U64, int>, from: nat, len: nat) {
    forall i: U64 :: i in after <==> i in before || from <= i < from + len
  }

  /** What the loop of `append` leaves, index by index. */
  lemma {:induction false} SavedBatch(c: Core, es: seq<LogEntry>, from: nat)
    requires Indexed(es, from) && from + |es| <= MAX_U64 + 1
    ensures var s := SaveEntries(c, es);
      && EntriesSaved(c.disk.entries, s.disk.entries, es, from)
      && MarksSaved(c.uncommit, s.uncommit, from, |es|)
      && s == c.(disk := c.disk.(entries := s.disk.entries, last := s.disk.last), uncommit := s.uncommit)
      && s.disk.last == if es == [] then c.disk.last else Some(from + |es| - 1)
  {
    if es != [] {
      SavedBatch(c, es[..|es| - 1], from);
    }
  }

  lemma CutAndExtendLength(log: seq<LogEntry>, es: seq<LogEntry>)
    requires es != [] && 1 <= es[0].index <= |log| + 1
    ensures |CutAndExtend(log, es)| == es[0].index + |es| - 1
  {
  }

  lemma CutAndExtendAt(log: seq<LogEntry>, es: seq<LogEntry>, i: nat)
    requires es != [] && 1 <= es[0].index <= |log| + 1
    requires 1 <= i <= |CutAndExtend(log, es)|
    ensures CutAndExtend(log, es)[i - 1] == if i < es[0].index then log[i - 1] else es[i - es[0].index]
  {
  }

  /** The visible log after an append: the old one cut before the batch, then the batch. */
  lemma AppendLog(before: map<U64, LogEntry>, after: map<U64, LogEntry>, log: seq<LogEntry>, es: seq<LogEntry>)
    requires LogInv(before, log) && es != [] && 1 <= es[0].index <= |log| + 1
    requires Indexed(es, es[0].index) && es[0].index + |es| - 1 < MAX_U64
    requires EntriesSaved(before, after, es, es[0].index)
    ensures LogInv(after, CutAndExtend(log, es))
  {
    var from, cut := es[0].index, CutAndExtend(log, es);
    CutAndExtendLength(log, es);
    forall i: U64 | 1 <= i <= |cut| ensures i in after && after[i] == cut[i - 1] {
      CutAndExtendAt(log, es, i);
    }
  }

  /** A batch, or the first entries of one, saved with its last index. */
  lemma BatchStep(c: Core, h: History, es: seq<LogEntry>)
    requires Inv(c, h) && es != [] && AppendEnabled(h, es)
    ensures var s := SaveEntries(c, es);
      && LogInv(s.disk.entries, CutAndExtend(h.log, es))
      && s.disk.last == Some(|CutAndExtend(h.log, es)|)
      && |CutAndExtend(h.log, es)| == es[0].index + |es| - 1
      && s == c.(disk := c.disk.(entries := s.disk.entries, last := s.disk.last), uncommit := s.uncommit)
  {
    hide LogInv, SaveEntries, EntriesSaved, MarksSaved, CutAndExtend;
    SavedBatch(c, es, es[0].index);
    AppendLog(c.disk.entries, SaveEntries(c, es).disk.entries, h.log, es);
    CutAndExtendLength(h.log, es);
  }

  lemma AppendStep(c: Core, h: History, es: seq<LogEntry>)
    requires Inv(c, h) && Enabled(h, Append(es))
    ensures AppendAllowed(c, es)
    ensures Inv(Step(c, Append(es)), StepHistory(h, Append(es), c.disk.hard.commit))
  {
    LogIsShort(c.disk.entries, h.log);
    hide LogInv, SaveEntries, CutAndExtend;
    if es != [] {
      BatchStep(c, h, es);
    }
  }

  lemma LogIsShort(entries: map<U64, LogEntry>, log: seq<LogEntry>)
    requires LogInv(entries, log)
    ensures |log| < MAX_U64
  {
  }

  lemma FirstEntries(h: History, es: seq<LogEntry>, n: nat)
    requires AppendEnabled(h, es) && 0 < n <= |es|
    ensures AppendEnabled(h, es[..n]) && es[..n] != [] && es[..n][0] == es[0]
  {
  }

  /** One more entry stored, but the last index not moved to it: either it lies right past the
      end and stays invisible, or it replaces an entry of the log. */
  lemma PutStep(entries: map<U64, LogEntry>, log: seq<LogEntry>, e: LogEntry)
    requires LogInv(entries, log) && 1 <= e.index <= |log| + 1
    ensures LogInv(entries[e.index := e], if e.index <= |log| then log[e.index - 1 := e] else log)
  {
  }

  lemma CrashInAppendStep(c: Core, h: History, es: seq<LogEntry>, puts: nat)
    requires Inv(c, h) && Enabled(h, CrashInAppend(es, puts))
    ensures Inv(Step(c, CrashInAppend(es, puts)), StepHistory(h, CrashInAppend(es, puts), c.disk.hard.commit))
  {
    LogIsShort(c.disk.entries, h.log);
    if puts < 2 {
      assert SaveEntries(c, es[..0]) == c;
      hide LogInv, SaveEntries;
      PutStep(c.disk.entries, h.log, es[0]);
    } else {
      hide *;
      BatchPart(c, h, es, puts);
      PartReopened(c, h, es, puts);
    }
  }

  lemma BatchPart(c: Core, h: History, es: seq<LogEntry>, puts: nat)
    requires Inv(c, h) && AppendEnabled(h, es) && 2 <= puts <= 2 * |es|
    ensures var s, log := AppendedPuts(c, es, puts), CutAndExtend(h.log, es[..puts / 2]);
      && LogInv(s.disk.entries, log) && |log| == es[0].index + puts / 2 - 1
      && s.disk == c.disk.(entries := s.disk.entries, last := Some(|log|))
  {
    var n := puts / 2;
    hide LogInv, SaveEntries, CutAndExtend;
    FirstEntries(h, es, n);
    BatchStep(c, h, es[..n]);
    if puts % 2 == 1 {
      PutStep(SaveEntries(c, es[..n]).disk.entries, CutAndExtend(h.log, es[..n]), es[n]);
    }
  }

  lemma PartReopened(c: Core, h: History, es: seq<LogEntry>, puts: nat)
    requires Inv(c, h) && AppendEnabled(h, es) && 2 <= puts <= 2 * |es|
    requires var s, log := AppendedPuts(c, es, puts), CutAndExtend(h.log, es[..puts / 2]);
      && LogInv(s.disk.entries, log) && |log| == es[0].index + puts / 2 - 1
      && s.disk == c.disk.(entries := s.disk.entries, last := Some(|log|))
    ensures Inv(Step(c, CrashInAppend(es, puts)), StepHistory(h, CrashInAppend(es, puts), c.disk.hard.commit))
  {
    hide LogInv, AppendedPuts, CutAndExtend;
  }

  // ---- the other steps ----

  lemma CommitStep(c: Core, h: History, idx: U64)
    requires Inv(c, h) && h.begun && idx == h.applied + 1
    ensures idx in c.disk.entries && c.disk.entries[idx] == h.log[idx - 1]
    ensures Inv(Step(c, Commit(idx)), StepHistory(h, Commit(idx), c.disk.hard.commit))
    ensures Inv(Step(c, CrashInCommit(idx)), StepHistory(h, CrashInCommit(idx), c.disk.hard.commit))
  {
  }

  lemma StepKeepsInv(c: Core, h: History, ev: Event)
    requires Inv(c, h) && Enabled(h, ev)
    ensures Inv(Step(c, ev), StepHistory(h, ev, c.disk.hard.commit))
    ensures ev.Append? ==> AppendAllowed(c, ev.entries)
    ensures ev.Commit? ==> ev.idx in c.disk.entries
  {
    match ev
    case Append(es) => AppendStep(c, h, es);
    case CrashInAppend(es, puts) => CrashInAppendStep(c, h, es, puts);
    case Commit(idx) => CommitStep(c, h, idx);
    case CrashInCommit(idx) => CommitStep(c, h, idx);
    case _ =>
  }

  /** Over every run the indices 1..last are present with matching index, whatever stale
      records lie past the end, and the persisted set equals the one in memory. */
  lemma {:induction false} ReachableInv(evs: seq<Event>)
    requires ValidRun(evs)
    ensures Inv(Run(evs).core, Run(evs).history)
  {
    if evs != [] {
      var p := Run(evs[..|evs| - 1]);
      ReachableInv(evs[..|evs| - 1]);
      StepKeepsInv(p.core, p.history, evs[|evs| - 1]);
    }
  }

  /** Neither guard of `append` fires and no commit misses its entry, over every run. */
  lemma NoPanic(evs: seq<Event>, ev: Event)
    requires ValidRun(evs) && Enabled(Run(evs).history, ev)
    ensures ev.Append? ==> AppendAllowed(Run(evs).core, ev.entries)
    ensures ev.Commit? ==> ev.idx in Run(evs).core.disk.entries
  {
    ReachableInv(evs);
    StepKeepsInv(Run(evs).core, Run(evs).history, ev);
  }
}
