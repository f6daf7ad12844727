/** What the read adapter answers over all runs of the storage. */
module RaftReads {
  import opened RaftTypes
  import opened RaftStorage
  import opened RaftRuns

  /** The entries of indices `low .. high - 1`; index 0 has none. */
  function HalfOpen(log: seq<LogEntry>, low: nat, high: nat): seq<LogEntry>
    requires low <= high <= |log| + 1
  {
    if high <= 1 then [] else if low == 0 then log[..high - 1] else log[low - 1..high - 1]
  }

  lemma HalfOpenStep(log: seq<LogEntry>, low: nat, high: nat)
    requires low < high <= |log| + 1 && high >= 2
    ensures HalfOpen(log, low, high) == HalfOpen(log, low, high - 1) + [log[high - 2]]
  {
    SliceSnoc(log, if low == 0 then 0 else low - 1, high - 2);
  }

  lemma SliceSnoc<T>(s: seq<T>, a: nat, b: nat)
    requires a <= b < |s|
    ensures s[a..b + 1] == s[a..b] + [s[b]]
  {
  }

  lemma {:induction false} PresentIs(entries: map<U64, LogEntry>, log: seq<LogEntry>, low: U64, high: U64)
    requires LogInv(entries, log) && low <= high <= |log| + 1
    ensures Present(entries, low, high) == HalfOpen(log, low, high) + StoredAt(entries, high)
  {
    if low == high {
      assert HalfOpen(log, low, high) == [];
    } else {
      PresentIs(entries, log, low, high - 1);
      assert high - 1 == 0 || entries[high - 1] == log[high - 2];
      if high >= 2 {
        HalfOpenStep(log, low, high);
      }
    }
  }

  /** Within bounds `entries(low, high)` is the half-open range it documents, plus whatever is
      stored under `high`: it meets its documentation exactly when nothing is. */
  lemma EntriesRead(evs: seq<Event>, low: U64, high: U64)
    requires ValidRun(evs)
    requires FirstIndex(Run(evs).core) <= low <= high <= |Run(evs).history.log| + 1
    ensures var p := Run(evs);
      var want := HalfOpen(p.history.log, low, high);
      && EntriesOf(p.core, low, high) == Found(want + StoredAt(p.core.disk.entries, high))
      && (EntriesOf(p.core, low, high) == Found(want) <==> high !in p.core.disk.entries)
  {
    ReachableInv(evs);
    PresentIs(Run(evs).core.disk.entries, Run(evs).history.log, low, high);
    var want := HalfOpen(Run(evs).history.log, low, high);
    assert want + [] == want;
  }

  /** On visible indices `term` agrees with the entry, except that at the snapshot index it
      answers the index itself. */
  lemma TermRead(evs: seq<Event>, idx: U64)
    requires ValidRun(evs)
    requires 1 <= idx && FirstIndex(Run(evs).core) <= idx <= |Run(evs).history.log|
    ensures var p := Run(evs);
      var term := p.history.log[idx - 1].term;
      TermOf(p.core, idx) == TermIs(term) <==> idx != p.core.meta.index || term == idx
  {
    ReachableInv(evs);
  }

  // ---- the departures happen ----

  const A1 := LogEntry(1, 1, "a")
  const A2 := LogEntry(2, 1, "b")
  const B1 := LogEntry(1, 2, "c")

  lemma StaleEntries()
    ensures var c := Appended(Appended(FRESH, [A1, A2]), [B1]);
      LastIndex(c) == 1 && FirstIndex(c) == 1 && Present(c.disk.entries, 1, 2) == [B1, A2]
  {
    SavedBatch(FRESH, [A1, A2], 1);
    var c := Appended(FRESH, [A1, A2]);
    assert 1 in c.disk.entries && 2 in c.disk.entries;
    SavedBatch(c, [B1], 1);
    var entries := Appended(c, [B1]).disk.entries;
    assert 1 in entries && entries[1] == B1;
    assert 2 in entries && entries[2] == A2;
    assert Present(entries, 1, 1) == [] + [B1];
  }

  /** A conflict overwrite shortens the log to index 1, yet `entries(1, 2)` also hands out the
      stale record of index 2 left behind the end. */
  lemma StaleTailIsRead() returns (evs: seq<Event>)
    ensures ValidRun(evs) && LastIndex(Run(evs).core) == 1
    ensures EntriesOf(Run(evs).core, 1, 2) == Found([B1, A2])
  {
    StaleEntries();
    Extend([], Append([A1, A2]));
    hide Run, ValidRun, SaveEntries, Present;
    evs := [] + [Append([A1, A2])];
    Extend(evs, Append([B1]));
    evs := evs + [Append([B1])];
  }

  lemma TwoLogged() returns (evs: seq<Event>)
    ensures evs == [Append([A1, A2])]
    ensures ValidRun(evs) && Run(evs).history == History([A1, A2], 0, 0, false)
    ensures Run(evs).core == Appended(FRESH, [A1, A2]) && Run(evs).core.disk.hard == FRESH.disk.hard
    ensures 1 in Run(evs).core.disk.entries && 2 in Run(evs).core.disk.entries
  {
    SavedBatch(FRESH, [A1, A2], 1);
    Extend([], Append([A1, A2]));
    evs := [] + [Append([A1, A2])];
    assert [] + [A1, A2] == [A1, A2];
  }

  /** The commit loop handles the next entry. */
  lemma Handle(evs: seq<Event>, idx: U64) returns (longer: seq<Event>)
    requires ValidRun(evs) && Enabled(Run(evs).history, Begin(idx))
    ensures longer == evs + [Begin(idx)] + [Commit(idx)] && ValidRun(longer)
    ensures Run(longer) == Next(Next(Run(evs), Begin(idx)), Commit(idx))
    ensures idx in Run(evs).core.disk.entries
  {
    Extend(evs, Begin(idx));
    Extend(evs + [Begin(idx)], Commit(idx));
    NoPanic(evs + [Begin(idx)], Commit(idx));
    longer := evs + [Begin(idx)] + [Commit(idx)];
  }

  /** After a snapshot at index 2, `term(2)` answers 2 for an entry of term 1. */
  lemma TermDeparts() returns (evs: seq<Event>)
    ensures ValidRun(evs) && FirstIndex(Run(evs).core) <= 2 <= |Run(evs).history.log|
    ensures Run(evs).history.log[1].term == 1 && TermOf(Run(evs).core, 2) == TermIs(2)
  {
    evs := TwoLogged();
    hide Run, ValidRun, SaveEntries;
    evs := Handle(evs, 1);
    evs := Handle(evs, 2);
    Extend(evs, Snapshot);
    evs := evs + [Snapshot];
  }
}
