/** One openraft node as a step machine over both stores, and crash recovery over all runs.

    The guards of `Enabled` are openraft's calling order; the effects in `Step` are the
    specification functions that the methods of `LogStore` and `StateMachineStore` are proved
    to compute. */
module Recovery {
  import opened RaftTypes
  import opened Disk
  import opened OpenraftLog
  import opened LogRefinement
  import opened Replay
  import opened OpenraftStateMachine

  /** What a builder read from the shared map, and the applied id at that moment. */
  datatype Reading = Reading(kvs: map<string, string>, at: Option<LogId>)

  /** A snapshot builder: its own ids, and the map only once it has read it. */
  datatype Builder = Builder(applied: Option<LogId>, membership: StoredMembership, idx: U64, reading: Option<Reading>)

  datatype Node = Node(disk: Image, sm: State, snapshotIdx: U64, builder: Option<Builder>)

  datatype Event =
    | Append(entries: seq<Entry>)
    | Truncate(id: LogId)
    | Purge(id: LogId)
    | CrashInPurge(id: LogId)
    | SaveCommitted(committed: Option<LogId>)
    | Apply(entries: seq<Entry>)
    | GetBuilder
    | ReadMap
    | StoreSnapshot
    | Install(meta: SnapshotMeta, data: Blob)
    | Crash

  const FRESH := Node(Image(map[], map[]), EMPTY, 0, None)

  /** What a start loads. Over all runs the stored snapshot decodes (`ReachableInv`). */
  function Loaded(d: Image): State {
    if LoadedState(d).Some? then LoadedState(d).value else EMPTY
  }

  function Restart(d: Image): Node {
    Node(d, Loaded(d), 0, None)
  }

  function Built(b: Builder, kvs: map<string, string>): StoredSnapshot {
    StoredSnapshot(SnapshotMeta(b.applied, b.membership, SnapshotId(b.applied, b.idx)), Json(kvs))
  }

  /** The builder has read the map, and released its lock, but not stored the snapshot yet. */
  predicate HasRead(n: Node) {
    n.builder.Some? && n.builder.value.reading.Some?
  }

  /** The snapshot that a builder which has read the map is about to store. */
  function Pending(n: Node): StoredSnapshot
    requires HasRead(n)
  {
    Built(n.builder.value, n.builder.value.reading.value.kvs)
  }

  ghost predicate Enabled(n: Node, ev: Event) {
    match ev
    case Append(es) =>
      var next := NextIndex(LastLogId(n.disk));
      Consecutive(es, next) && NextIndex(n.sm.applied) <= next && next + |es| <= MAX_U64
    case Truncate(id) => NextIndex(n.sm.applied) <= id.index && NextIndex(SavedCommitted(n.disk)) <= id.index
    case Purge(id) => NextIndex(LastPurged(n.disk)) <= id.index + 1 <= NextIndex(Loaded(n.disk).applied)
    case CrashInPurge(id) => NextIndex(LastPurged(n.disk)) <= id.index + 1 <= NextIndex(Loaded(n.disk).applied)
    case SaveCommitted(id) =>
      NextIndex(SavedCommitted(n.disk)) <= NextIndex(id) <= Max(NextIndex(LastLogId(n.disk)), NextIndex(Loaded(n.disk).applied))
    case Apply(es) =>
      Consecutive(es, NextIndex(n.sm.applied)) && forall e | e in es :: StoredEntry(n.disk.logs, e)
    case GetBuilder => n.builder.None?
    case ReadMap => n.builder.Some? && n.builder.value.reading.None?
    case StoreSnapshot => n.builder.Some? && n.builder.value.reading.Some?
    case Install(meta, _) =>
      n.builder.None? && meta.lastLogId.Some? && NextIndex(n.sm.applied) <= meta.lastLogId.value.index < MAX_U64
    case Crash => true
  }

  function Step(n: Node, ev: Event): Node {
    match ev
    case Append(es) => n.(disk := n.disk.(logs := PutAll(n.disk.logs, es)))
    case Truncate(id) => n.(disk := n.disk.(logs := CutFrom(n.disk.logs, id.index)))
    case Purge(id) => n.(disk := WithPurged(n.disk, id).(logs := CutThrough(n.disk.logs, id.index)))
    case CrashInPurge(id) => Restart(WithPurged(n.disk, id))
    case SaveCommitted(id) => n.(disk := WithCommitted(n.disk, id))
    case Apply(es) => n.(sm := ApplyAll(n.sm, es))
    case GetBuilder =>
      var idx := WrapSucc(n.snapshotIdx);
      n.(snapshotIdx := idx, builder := Some(Builder(n.sm.applied, n.sm.membership, idx, None)))
    case ReadMap =>
      if n.builder.None? then n
      else n.(builder := Some(n.builder.value.(reading := Some(Reading(n.sm.kvs, n.sm.applied)))))
    case StoreSnapshot =>
      if !HasRead(n) then n
      else n.(disk := WithSnapshot(n.disk, Pending(n)), builder := None)
    case Install(meta, data) =>
      if data.Json? then n.(disk := WithSnapshot(n.disk, StoredSnapshot(meta, data)), sm := SnapshotState(meta, data.kvs)) else n
    case Crash => Restart(n.disk)
  }

  ghost predicate ValidRun(n: Node, evs: seq<Event>) {
    evs == [] || (ValidRun(n, evs[..|evs| - 1]) && Enabled(Run(n, evs[..|evs| - 1]), evs[|evs| - 1]))
  }

  function Run(n: Node, evs: seq<Event>): Node {
    if evs == [] then n else Step(Run(n, evs[..|evs| - 1]), evs[|evs| - 1])
  }

  // ---- the abstract log ----

  /** The gap-free log behind the stored bytes; its head may reach below the purge point
      after a crash inside a purge. */
  datatype Log = Log(lo: nat, entries: seq<Entry>) {
    function Next(): nat { lo + |entries| }
  }

  function StepLog(l: Log, ev: Event): Log {
    match ev
    case Append(es) => Log(l.lo, l.entries + es)
    case Truncate(id) => if l.lo <= id.index < l.Next() then Log(l.lo, l.entries[..id.index - l.lo]) else l
    case Purge(id) =>
      var lo := Max(l.lo, id.index + 1);
      Log(lo, if lo < l.Next() then l.entries[lo - l.lo..] else [])
    case CrashInPurge(id) => if l.entries == [] then Log(Max(l.lo, id.index + 1), []) else l
    case _ => l
  }

  function RunLog(evs: seq<Event>): Log {
    if evs == [] then Log(0, []) else StepLog(RunLog(evs[..|evs| - 1]), evs[|evs| - 1])
  }

  function Stretch(l: Log, from: nat, to: nat): seq<Entry> {
    if l.lo <= from <= to <= l.Next() then l.entries[from - l.lo..to - l.lo] else []
  }

  /** Replaying the log from just after `start` up to the applied id of `s` gives `s`. */
  ghost predicate ReplaysTo(start: State, l: Log, s: State) {
    var from, to := NextIndex(start.applied), NextIndex(s.applied);
    && from <= to
    && (from == to || (l.lo <= from && to <= l.Next()))
    && ApplyAll(start, Stretch(l, from, to)) == s
  }

  /** The ids of the builder with the map it has read, or would read from the shared map now. */
  function Behind(b: Builder, kvs: map<string, string>): State {
    State(b.applied, b.membership, if b.reading.Some? then b.reading.value.kvs else kvs)
  }

  /** The database holds the log; the purge point lies between the log's head and the
      snapshot; the committed id lies within the log or the snapshot; the snapshot decodes. */
  ghost predicate DiskInv(d: Image, l: Log) {
    && Holds(d.logs, l.lo, l.entries) && l.Next() <= MAX_U64
    && LoadedState(d).Some?
    && l.lo <= NextIndex(LastPurged(d)) <= NextIndex(Loaded(d).applied)
    && (l.entries == [] ==> l.lo == NextIndex(LastPurged(d)))
    && NextIndex(SavedCommitted(d)) <= Max(l.Next(), NextIndex(Loaded(d).applied))
  }

  /** Memory is a replay of the stored snapshot, and of what a pending builder would store. */
  ghost predicate MemoryInv(stored: State, sm: State, builder: Option<Builder>, l: Log) {
    && NextIndex(sm.applied) <= MAX_U64
    && ReplaysTo(stored, l, sm)
    && (builder.Some? ==>
          && NextIndex(stored.applied) <= NextIndex(builder.value.applied)
          && ReplaysTo(Behind(builder.value, sm.kvs), l, sm))
  }

  ghost predicate Inv(n: Node, l: Log) {
    DiskInv(n.disk, l) && MemoryInv(Loaded(n.disk), n.sm, n.builder, l)
  }

  // ---- each step keeps the database part ----

  lemma NextOfLast(d: Image, l: Log)
    requires DiskInv(d, l)
    ensures NextIndex(LastLogId(d)) == l.Next()
  {
    LastLogIdRefines(d, l.lo, l.entries);
  }

  lemma AppendDisk(d: Image, l: Log, es: seq<Entry>)
    requires DiskInv(d, l) && Consecutive(es, l.Next()) && l.Next() + |es| <= MAX_U64
    ensures DiskInv(d.(logs := PutAll(d.logs, es)), Log(l.lo, l.entries + es))
  {
    AppendRefines(d.logs, l.lo, l.entries, es);
  }

  lemma TruncateDisk(d: Image, l: Log, id: LogId)
    requires DiskInv(d, l) && NextIndex(Loaded(d).applied) <= id.index && NextIndex(SavedCommitted(d)) <= id.index
    ensures DiskInv(d.(logs := CutFrom(d.logs, id.index)), StepLog(l, Truncate(id)))
  {
    TruncateRefines(d.logs, l.lo, l.entries, id.index);
  }

  lemma PurgeDisk(d: Image, l: Log, id: LogId)
    requires DiskInv(d, l)
    requires NextIndex(LastPurged(d)) <= id.index + 1 <= NextIndex(Loaded(d).applied) <= MAX_U64
    ensures DiskInv(WithPurged(d, id).(logs := CutThrough(d.logs, id.index)), StepLog(l, Purge(id)))
  {
    PurgeHolds(d.logs, l, id);
  }

  lemma PurgedLog(l: Log, id: LogId)
    ensures StepLog(l, Purge(id)) ==
      if id.index < l.lo then l
      else if id.index + 1 < l.Next() then Log(id.index + 1, l.entries[id.index + 1 - l.lo..])
      else Log(id.index + 1, [])
  {
  }

  lemma PurgeHolds(logs: map<U64, Entry>, l: Log, id: LogId)
    requires Holds(logs, l.lo, l.entries) && id.index < MAX_U64
    ensures var l' := StepLog(l, Purge(id)); Holds(CutThrough(logs, id.index), l'.lo, l'.entries)
  {
    hide Holds, CutThrough, StepLog;
    PurgedLog(l, id);
    if id.index < l.lo {
      PurgeBelow(logs, l.lo, l.entries, id.index);
    } else if id.index + 1 < l.Next() {
      PurgeHead(logs, l.lo, l.entries, id.index);
    } else {
      PurgeWhole(logs, l.lo, l.entries, id.index);
    }
  }

  lemma CrashInPurgeDisk(d: Image, l: Log, id: LogId)
    requires DiskInv(d, l)
    requires NextIndex(LastPurged(d)) <= id.index + 1 <= NextIndex(Loaded(d).applied) <= MAX_U64
    ensures DiskInv(WithPurged(d, id), StepLog(l, CrashInPurge(id)))
  {
  }

  lemma SnapshotDisk(d: Image, l: Log, snap: StoredSnapshot)
    requires DiskInv(d, l)
    requires snap.data.Json? && NextIndex(Loaded(d).applied) <= NextIndex(snap.meta.lastLogId)
    ensures DiskInv(WithSnapshot(d, snap), l)
  {
  }

  // ---- each step keeps the memory part ----

  lemma AppendMemory(stored: State, sm: State, builder: Option<Builder>, l: Log, es: seq<Entry>)
    requires MemoryInv(stored, sm, builder, l) && NextIndex(sm.applied) <= l.Next()
    ensures MemoryInv(stored, sm, builder, Log(l.lo, l.entries + es))
  {
    hide ReplaysTo;
    AppendKeepsReplay(stored, l, sm, es);
    if builder.Some? {
      AppendKeepsReplay(Behind(builder.value, sm.kvs), l, sm, es);
    }
  }

  lemma AppendKeepsReplay(start: State, l: Log, s: State, es: seq<Entry>)
    requires ReplaysTo(start, l, s) && NextIndex(s.applied) <= l.Next()
    ensures ReplaysTo(start, Log(l.lo, l.entries + es), s)
  {
    var from, to := NextIndex(start.applied), NextIndex(s.applied);
    if l.lo <= from {
      assert (l.entries + es)[from - l.lo..to - l.lo] == l.entries[from - l.lo..to - l.lo];
    }
  }

  lemma TruncateMemory(stored: State, sm: State, builder: Option<Builder>, l: Log, id: LogId)
    requires MemoryInv(stored, sm, builder, l) && NextIndex(sm.applied) <= id.index
    ensures MemoryInv(stored, sm, builder, StepLog(l, Truncate(id)))
  {
    hide ReplaysTo;
    if l.lo <= id.index < l.Next() {
      TruncateKeepsReplay(stored, l, sm, id.index);
      if builder.Some? {
        TruncateKeepsReplay(Behind(builder.value, sm.kvs), l, sm, id.index);
      }
    }
  }

  lemma TruncateKeepsReplay(start: State, l: Log, s: State, cut: nat)
    requires ReplaysTo(start, l, s) && NextIndex(s.applied) <= cut
    requires l.lo <= cut < l.Next()
    ensures ReplaysTo(start, Log(l.lo, l.entries[..cut - l.lo]), s)
  {
    var from, to := NextIndex(start.applied), NextIndex(s.applied);
    if l.lo <= from {
      assert l.entries[..cut - l.lo][from - l.lo..to - l.lo] == l.entries[from - l.lo..to - l.lo];
    }
  }

  lemma PurgeMemory(stored: State, sm: State, builder: Option<Builder>, l: Log, id: LogId)
    requires MemoryInv(stored, sm, builder, l) && id.index + 1 <= NextIndex(stored.applied)
    ensures MemoryInv(stored, sm, builder, StepLog(l, Purge(id)))
  {
    PurgeKeepsReplay(stored, l, sm, id);
    if builder.Some? {
      PurgeKeepsReplay(Behind(builder.value, sm.kvs), l, sm, id);
    }
  }

  lemma PurgeKeepsReplay(start: State, l: Log, s: State, id: LogId)
    requires id.index + 1 <= NextIndex(start.applied)
    requires ReplaysTo(start, l, s)
    ensures ReplaysTo(start, StepLog(l, Purge(id)), s)
  {
    var from, to := NextIndex(start.applied), NextIndex(s.applied);
    var l' := StepLog(l, Purge(id));
    if from < to {
      assert l'.entries == l.entries[l'.lo - l.lo..];
      assert l'.entries[from - l'.lo..to - l'.lo] == l.entries[from - l.lo..to - l.lo];
    }
  }

  lemma StoredAtIndex(logs: map<U64, Entry>, l: Log, e: Entry)
    requires Holds(logs, l.lo, l.entries) && StoredEntry(logs, e)
    ensures l.lo <= e.logId.index < l.Next() && e == l.entries[e.logId.index - l.lo]
  {
    HoldsIsExact(logs, l.lo, l.entries, e);
    var j :| 0 <= j < |l.entries| && l.entries[j] == e;
  }

  /** What `apply` is handed is the next stretch of the log. */
  lemma AppliedStretch(logs: map<U64, Entry>, l: Log, from: nat, es: seq<Entry>)
    requires Holds(logs, l.lo, l.entries)
    requires Consecutive(es, from) && es != []
    requires forall e | e in es :: StoredEntry(logs, e)
    ensures l.lo <= from && from + |es| <= l.Next() && es == Stretch(l, from, from + |es|)
  {
    forall i | 0 <= i < |es| ensures IsNth(l, from, es, i) {
      assert es[i] in es;
      StoredAtIndex(logs, l, es[i]);
    }
    PointwiseStretch(l, from, es);
  }

  ghost predicate IsNth(l: Log, from: nat, es: seq<Entry>, i: nat)
    requires i < |es|
  {
    l.lo <= from + i < l.Next() && es[i] == l.entries[from + i - l.lo]
  }

  lemma PointwiseStretch(l: Log, from: nat, es: seq<Entry>)
    requires es != []
    requires forall i | 0 <= i < |es| :: IsNth(l, from, es, i)
    ensures l.lo <= from && from + |es| <= l.Next() && es == Stretch(l, from, from + |es|)
  {
    assert IsNth(l, from, es, 0) && IsNth(l, from, es, |es| - 1);
    forall i | 0 <= i < |es| ensures es[i] == Stretch(l, from, from + |es|)[i] {
      assert IsNth(l, from, es, i);
    }
  }

  lemma StretchesJoin(l: Log, a: nat, b: nat, c: nat)
    requires a <= b <= c
    requires a == b || (l.lo <= a && b <= l.Next())
    requires l.lo <= b && c <= l.Next()
    ensures Stretch(l, a, b) + Stretch(l, b, c) == Stretch(l, a, c)
  {
  }

  /** Replay and `apply` compose along the log. */
  lemma ReplayExtends(start: State, l: Log, sm: State, es: seq<Entry>, to: nat)
    requires ReplaysTo(start, l, sm)
    requires to == NextIndex(sm.applied) + |es| == NextIndex(ApplyAll(sm, es).applied)
    requires l.lo <= NextIndex(sm.applied) && to <= l.Next() && es == Stretch(l, NextIndex(sm.applied), to)
    ensures ReplaysTo(start, l, ApplyAll(sm, es))
  {
    hide Stretch, ApplyAll;
    var a, from := NextIndex(start.applied), NextIndex(sm.applied);
    StretchesJoin(l, a, from, to);
    ApplyAllConcat(start, Stretch(l, a, from), es);
  }

  /** What a pending builder will store keeps replaying to the present, however many
      entries are applied before it reads the map and before it stores what it read. */
  lemma BuilderAbsorbs(b: Builder, l: Log, sm: State, es: seq<Entry>, to: nat)
    requires ReplaysTo(Behind(b, sm.kvs), l, sm)
    requires to == NextIndex(sm.applied) + |es| == NextIndex(ApplyAll(sm, es).applied)
    requires l.lo <= NextIndex(sm.applied) && to <= l.Next() && es == Stretch(l, NextIndex(sm.applied), to)
    ensures ReplaysTo(Behind(b, ApplyAll(sm, es).kvs), l, ApplyAll(sm, es))
  {
    hide Stretch, ApplyAll;
    var behind := Behind(b, sm.kvs);
    if b.reading.Some? {
      ReplayExtends(behind, l, sm, es, to);
    } else {
      var a, from := NextIndex(b.applied), NextIndex(sm.applied);
      StretchesJoin(l, a, from, to);
      Absorb(behind, Stretch(l, a, from), sm, es);
    }
  }

  lemma ApplyMemory(stored: State, sm: State, builder: Option<Builder>, l: Log, es: seq<Entry>)
    requires MemoryInv(stored, sm, builder, l)
    requires Consecutive(es, NextIndex(sm.applied)) && es != []
    requires var from := NextIndex(sm.applied);
      l.lo <= from && from + |es| <= l.Next() <= MAX_U64 && es == Stretch(l, from, from + |es|)
    ensures MemoryInv(stored, ApplyAll(sm, es), builder, l)
  {
    hide ReplaysTo, Stretch, ApplyAll;
    var to := NextIndex(sm.applied) + |es|;
    AppliedIsLast(sm, es);
    assert es[|es| - 1].logId.index == to - |es| + (|es| - 1);
    ReplayExtends(stored, l, sm, es, to);
    if builder.Some? {
      BuilderAbsorbs(builder.value, l, sm, es, to);
    }
  }

  // ---- runs ----

  lemma AppendStep(n: Node, l: Log, es: seq<Entry>)
    requires Inv(n, l) && Enabled(n, Append(es))
    ensures Inv(Step(n, Append(es)), StepLog(l, Append(es)))
  {
    NextOfLast(n.disk, l);
    AppendDisk(n.disk, l, es);
    AppendMemory(Loaded(n.disk), n.sm, n.builder, l, es);
  }

  lemma ApplyStep(n: Node, l: Log, es: seq<Entry>)
    requires Inv(n, l) && Enabled(n, Apply(es))
    ensures Inv(Step(n, Apply(es)), l)
  {
    if es != [] {
      AppliedStretch(n.disk.logs, l, NextIndex(n.sm.applied), es);
      ApplyMemory(Loaded(n.disk), n.sm, n.builder, l, es);
    }
  }

  lemma SnapshotStep(n: Node, l: Log, ev: Event)
    requires Inv(n, l) && Enabled(n, ev)
    requires ev.GetBuilder? || ev.ReadMap? || ev.StoreSnapshot? || ev.Install?
    ensures Inv(Step(n, ev), l)
  {
    match ev
    case StoreSnapshot =>
      SnapshotDisk(n.disk, l, Pending(n));
    case Install(meta, data) =>
      if data.Json? {
        SnapshotDisk(n.disk, l, StoredSnapshot(meta, data));
      }
    case _ =>
  }

  lemma CommittedStep(n: Node, l: Log, id: Option<LogId>)
    requires Inv(n, l) && Enabled(n, SaveCommitted(id))
    ensures Inv(Step(n, SaveCommitted(id)), l)
  {
    NextOfLast(n.disk, l);
  }

  lemma TruncateStep(n: Node, l: Log, id: LogId)
    requires Inv(n, l) && Enabled(n, Truncate(id))
    ensures Inv(Step(n, Truncate(id)), StepLog(l, Truncate(id)))
  {
    TruncateDisk(n.disk, l, id);
    TruncateMemory(Loaded(n.disk), n.sm, n.builder, l, id);
  }

  lemma PurgeStep(n: Node, l: Log, id: LogId)
    requires Inv(n, l) && Enabled(n, Purge(id))
    ensures Inv(Step(n, Purge(id)), StepLog(l, Purge(id)))
  {
    PurgeDisk(n.disk, l, id);
    PurgeMemory(Loaded(n.disk), n.sm, n.builder, l, id);
  }

  lemma StepKeepsInv(n: Node, l: Log, ev: Event)
    requires Inv(n, l) && Enabled(n, ev)
    ensures Inv(Step(n, ev), StepLog(l, ev))
  {
    match ev
    case Append(es) => AppendStep(n, l, es);
    case Apply(es) => ApplyStep(n, l, es);
    case Crash =>
    case SaveCommitted(id) => CommittedStep(n, l, id);
    case GetBuilder => SnapshotStep(n, l, ev);
    case ReadMap => SnapshotStep(n, l, ev);
    case StoreSnapshot => SnapshotStep(n, l, ev);
    case Install(_, _) => SnapshotStep(n, l, ev);
    case Truncate(id) => TruncateStep(n, l, id);
    case Purge(id) => PurgeStep(n, l, id);
    case CrashInPurge(id) => CrashInPurgeDisk(n.disk, l, id);
  }

  /** Over every run the stored bytes are a gap-free log, the stored snapshot decodes, and
      snapshot plus log suffix replay to the state in memory. */
  lemma {:induction false} ReachableInv(evs: seq<Event>)
    requires ValidRun(FRESH, evs)
    ensures Inv(Run(FRESH, evs), RunLog(evs))
  {
    if evs != [] {
      ReachableInv(evs[..|evs| - 1]);
      StepKeepsInv(Run(FRESH, evs[..|evs| - 1]), RunLog(evs[..|evs| - 1]), evs[|evs| - 1]);
    }
  }

  /** In every reachable state a range read is the stretch of the log the range covers, and
      the reported last id is the one just before the next index. */
  lemma ReachableRead(evs: seq<Event>, r: IndexRange, from: nat, to: nat, out: seq<Entry>)
    requires ValidRun(FRESH, evs)
    requires RunLog(evs).lo <= from <= to <= RunLog(evs).Next()
    requires forall i: U64 | RunLog(evs).lo <= i < RunLog(evs).Next() :: Contains(r, i) <==> from <= i < to
    requires IsRead(Run(FRESH, evs).disk.logs, r, out)
    ensures out == Stretch(RunLog(evs), from, to)
    ensures NextIndex(LastLogId(Run(FRESH, evs).disk)) == RunLog(evs).Next()
  {
    ReachableInv(evs);
    hide *;
    InvGivesDisk(Run(FRESH, evs), RunLog(evs));
    ReadOfLog(Run(FRESH, evs).disk, RunLog(evs), r, from, to, out);
  }

  lemma InvGivesDisk(n: Node, l: Log)
    requires Inv(n, l)
    ensures DiskInv(n.disk, l)
  {
  }

  lemma ReadOfLog(d: Image, l: Log, r: IndexRange, from: nat, to: nat, out: seq<Entry>)
    requires DiskInv(d, l)
    requires l.lo <= from <= to <= l.Next()
    requires forall i: U64 | l.lo <= i < l.Next() :: Contains(r, i) <==> from <= i < to
    requires IsRead(d.logs, r, out)
    ensures out == Stretch(l, from, to)
    ensures NextIndex(LastLogId(d)) == l.Next()
  {
    hide *;
    StoredLog(d, l);
    ReadRefines(d.logs, l.lo, l.entries, r, from, to, out);
    StretchIs(l, from, to);
    NextOfLast(d, l);
  }

  lemma StoredLog(d: Image, l: Log)
    requires DiskInv(d, l)
    ensures Holds(d.logs, l.lo, l.entries) && l.Next() == l.lo + |l.entries|
  {
  }

  lemma StretchIs(l: Log, from: nat, to: nat)
    requires l.lo <= from <= to <= l.Next()
    ensures l.Next() == l.lo + |l.entries| && Stretch(l, from, to) == l.entries[from - l.lo..to - l.lo]
  {
  }

  // ---- recovery ----

  /** The entries above `after` up to and including `through`. */
  function ReplayRange(after: Option<LogId>, through: Option<LogId>): IndexRange {
    IndexRange(
      if after.Some? then Excluded(after.value.index) else Unbounded,
      if through.Some? then Included(through.value.index) else Excluded(0))
  }

  lemma ReplayRangeIs(after: Option<LogId>, through: Option<LogId>, i: U64)
    ensures Contains(ReplayRange(after, through), i) <==> NextIndex(after) <= i < NextIndex(through)
  {
  }

  lemma NothingBetween(logs: map<U64, Entry>, after: Option<LogId>, through: Option<LogId>, out: seq<Entry>)
    requires IsRead(logs, ReplayRange(after, through), out)
    requires NextIndex(through) <= NextIndex(after)
    ensures out == []
  {
    NonEmptyHasMember(out);
    forall i: U64 ensures !Contains(ReplayRange(after, through), i) {
      ReplayRangeIs(after, through, i);
    }
  }

  lemma ProperRead(logs: map<U64, Entry>, l: Log, after: Option<LogId>, through: Option<LogId>, out: seq<Entry>)
    requires Holds(logs, l.lo, l.entries)
    requires IsRead(logs, ReplayRange(after, through), out)
    requires l.lo <= NextIndex(after) <= NextIndex(through) <= l.Next()
    ensures out == l.entries[NextIndex(after) - l.lo..NextIndex(through) - l.lo]
  {
    assert l.Next() == l.lo + |l.entries|;
    hide *;
    forall i: U64 ensures Contains(ReplayRange(after, through), i) <==> NextIndex(after) <= i < NextIndex(through) {
      ReplayRangeIs(after, through, i);
    }
    ReadRefines(logs, l.lo, l.entries, ReplayRange(after, through), NextIndex(after), NextIndex(through), out);
  }

  lemma StretchRead(logs: map<U64, Entry>, l: Log, after: Option<LogId>, through: Option<LogId>, out: seq<Entry>)
    requires Holds(logs, l.lo, l.entries)
    requires IsRead(logs, ReplayRange(after, through), out)
    requires NextIndex(after) == NextIndex(through) || l.lo <= NextIndex(after) <= NextIndex(through) <= l.Next()
    ensures out == Stretch(l, NextIndex(after), NextIndex(through))
  {
    hide Holds, IsRead, ReplayRange, Contains;
    if NextIndex(after) == NextIndex(through) {
      NothingBetween(logs, after, through, out);
    } else {
      ProperRead(logs, l, after, through, out);
    }
  }

  lemma SuffixRead(n: Node, l: Log, suffix: seq<Entry>)
    requires Inv(n, l)
    requires IsRead(n.disk.logs, ReplayRange(Loaded(n.disk).applied, n.sm.applied), suffix)
    ensures ApplyAll(Loaded(n.disk), suffix) == n.sm
  {
    StretchRead(n.disk.logs, l, Loaded(n.disk).applied, n.sm.applied, suffix);
  }

  /** Crash recovery: in every reachable state the stored snapshot loads, and applying what a
      range read returns above it, up to the applied id before the crash, rebuilds the map,
      the applied id and the membership exactly. */
  lemma CrashRecovery(evs: seq<Event>, suffix: seq<Entry>)
    requires ValidRun(FRESH, evs)
    requires var n := Run(FRESH, evs);
      IsRead(n.disk.logs, ReplayRange(Restart(n.disk).sm.applied, n.sm.applied), suffix)
    ensures var n := Run(FRESH, evs);
      LoadedState(n.disk).Some? && ApplyAll(Restart(n.disk).sm, suffix) == n.sm
  {
    ReachableInv(evs);
    SuffixRead(Run(FRESH, evs), RunLog(evs), suffix);
  }

  // ---- recovery by what is on disk alone ----

  /** Where a start stands that replays the log up to the saved committed id. */
  function RestartPoint(d: Image): nat {
    Max(NextIndex(Loaded(d).applied), NextIndex(SavedCommitted(d)))
  }

  lemma CommittedRead(d: Image, l: Log, suffix: seq<Entry>)
    requires DiskInv(d, l)
    requires IsRead(d.logs, ReplayRange(Loaded(d).applied, SavedCommitted(d)), suffix)
    ensures suffix == Stretch(l, NextIndex(Loaded(d).applied), RestartPoint(d))
    ensures NextIndex(ApplyAll(Loaded(d), suffix).applied) == RestartPoint(d)
  {
    var after, through := Loaded(d).applied, SavedCommitted(d);
    AppliedIsLast(Loaded(d), suffix);
    if NextIndex(after) <= NextIndex(through) {
      hide IsRead, ReplayRange, LoadedState, ApplyAll;
      StretchRead(d.logs, l, after, through, suffix);
      assert suffix != [] ==> suffix[|suffix| - 1].logId.index + 1 == NextIndex(through);
    } else {
      NothingBetween(d.logs, after, through, suffix);
    }
  }

  /** Two replays from one start, to `a` and to `b`: the shorter one continues to the longer. */
  lemma ReplaysMeet(start: State, l: Log, a: nat, b: nat)
    requires var from := NextIndex(start.applied);
      from <= a <= b && (from == b || (l.lo <= from && b <= l.Next()))
    ensures var from := NextIndex(start.applied);
      ApplyAll(ApplyAll(start, Stretch(l, from, a)), Stretch(l, a, b)) == ApplyAll(start, Stretch(l, from, b))
  {
    var from := NextIndex(start.applied);
    if from < b {
      StretchesJoin(l, from, a, b);
    }
    ApplyAllConcat(start, Stretch(l, from, a), Stretch(l, a, b));
  }

  /** A start needs nothing but the disk: replaying up to the saved committed id reaches the
      state before the crash carried on to that id; or, if the id had fallen behind the
      applied one, a state from which the log leads on to the state before the crash. */
  lemma CommittedRecovery(evs: seq<Event>, suffix: seq<Entry>)
    requires ValidRun(FRESH, evs)
    requires var d := Run(FRESH, evs).disk; IsRead(d.logs, ReplayRange(Loaded(d).applied, SavedCommitted(d)), suffix)
    ensures var n, l := Run(FRESH, evs), RunLog(evs);
      var s := ApplyAll(Restart(n.disk).sm, suffix);
      var was, at := NextIndex(n.sm.applied), RestartPoint(n.disk);
      && NextIndex(s.applied) == at
      && (was <= at ==> s == ApplyAll(n.sm, Stretch(l, was, at)))
      && (at <= was ==> n.sm == ApplyAll(s, Stretch(l, at, was)))
  {
    ReachableInv(evs);
    RestartMeets(Run(FRESH, evs), RunLog(evs), suffix);
  }

  lemma RestartMeets(n: Node, l: Log, suffix: seq<Entry>)
    requires Inv(n, l)
    requires IsRead(n.disk.logs, ReplayRange(Loaded(n.disk).applied, SavedCommitted(n.disk)), suffix)
    ensures var s := ApplyAll(Loaded(n.disk), suffix);
      var was, at := NextIndex(n.sm.applied), RestartPoint(n.disk);
      && NextIndex(s.applied) == at
      && (was <= at ==> s == ApplyAll(n.sm, Stretch(l, was, at)))
      && (at <= was ==> n.sm == ApplyAll(s, Stretch(l, at, was)))
  {
    CommittedRead(n.disk, l, suffix);
    var was, at := NextIndex(n.sm.applied), RestartPoint(n.disk);
    if was <= at {
      ReplaysMeet(Loaded(n.disk), l, was, at);
    }
    if at <= was {
      ReplaysMeet(Loaded(n.disk), l, at, was);
    }
  }

  /** Every `apply` stayed at or below the committed id saved before it. */
  ghost predicate AppliesCommitted(evs: seq<Event>) {
    evs == [] ||
    (&& AppliesCommitted(evs[..|evs| - 1])
     && var n := Run(FRESH, evs[..|evs| - 1]);
        var ev := evs[|evs| - 1];
        ev.Apply? ==> NextIndex(n.sm.applied) + |ev.entries| <= RestartPoint(n.disk))
  }

  /** If the committed id is always saved before entries are applied, a start never stands
      behind the state before the crash. */
  lemma {:induction false} RestartNotBehind(evs: seq<Event>)
    requires ValidRun(FRESH, evs) && AppliesCommitted(evs)
    ensures NextIndex(Run(FRESH, evs).sm.applied) <= RestartPoint(Run(FRESH, evs).disk)
  {
    if evs != [] {
      var before := evs[..|evs| - 1];
      RestartNotBehind(before);
      ReachableInv(before);
      NotBehindStep(Run(FRESH, before), RunLog(before), evs[|evs| - 1]);
    }
  }

  lemma NotBehindStep(n: Node, l: Log, ev: Event)
    requires Inv(n, l) && Enabled(n, ev)
    requires ev.Apply? ==> NextIndex(n.sm.applied) + |ev.entries| <= RestartPoint(n.disk)
    requires NextIndex(n.sm.applied) <= RestartPoint(n.disk)
    ensures var n' := Step(n, ev); NextIndex(n'.sm.applied) <= RestartPoint(n'.disk)
  {
    hide ReplaysTo;
    match ev
    case Apply(es) => AppliedIsLast(n.sm, es);
    case _ =>
  }

  /** The same through the two stores' own methods, on the heap. */
  method Recover(db: Db, ghost evs: seq<Event>, applied: Option<LogId>) returns (sm: StateMachineStore)
    requires ValidRun(FRESH, evs)
    requires WellKeyed(db.logs) && db.Durable() == Run(FRESH, evs).disk && applied == Run(FRESH, evs).sm.applied
    ensures sm.View() == Run(FRESH, evs).sm
  {
    ReachableInv(evs);
    var ok;
    ok, sm := StateMachineStore.Open(db);
    var log := new LogStore(db);
    var read := log.TryGetLogEntries(ReplayRange(sm.lastApplied, applied));
    SuffixRead(Run(FRESH, evs), RunLog(evs), read.entries);
    var _ := sm.Apply(read.entries);
  }

  /** A start by the saved committed id, through the two stores' own methods. */
  method RecoverCommitted(db: Db, ghost evs: seq<Event>) returns (sm: StateMachineStore)
    requires ValidRun(FRESH, evs) && AppliesCommitted(evs)
    requires WellKeyed(db.logs) && db.Durable() == Run(FRESH, evs).disk
    ensures var was := Run(FRESH, evs).sm;
      sm.View() == ApplyAll(was, Stretch(RunLog(evs), NextIndex(was.applied), RestartPoint(db.Durable())))
  {
    ReachableInv(evs);
    RestartNotBehind(evs);
    var ok;
    ok, sm := StateMachineStore.Open(db);
    var log := new LogStore(db);
    var committed := log.ReadCommitted();
    var read := log.TryGetLogEntries(ReplayRange(sm.lastApplied, committed));
    RestartMeets(Run(FRESH, evs), RunLog(evs), read.entries);
    var _ := sm.Apply(read.entries);
  }
}
