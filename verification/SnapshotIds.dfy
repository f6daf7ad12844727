/** When two snapshots of one node carry the same id. The source asks for a suffix that is
    globally unique and counts from zero in every process. */
module SnapshotIds {
  import opened RaftTypes
  import opened Disk
  import opened Replay
  import opened Recovery
  import opened Hazards
  import opened RaftKeys

  predicate IsCrash(ev: Event) {
    ev.Crash? || ev.CrashInPurge?
  }

  /** Builders cut since the last crash. */
  function Cuts(evs: seq<Event>): nat {
    if evs == [] then 0
    else if IsCrash(evs[|evs| - 1]) then 0
    else Cuts(evs[..|evs| - 1]) + (if evs[|evs| - 1].GetBuilder? then 1 else 0)
  }

  /** The applied id when the latest builder was cut. */
  function AppliedAtCut(evs: seq<Event>): Option<LogId> {
    if evs == [] then None
    else if evs[|evs| - 1].GetBuilder? then Run(FRESH, evs[..|evs| - 1]).sm.applied
    else AppliedAtCut(evs[..|evs| - 1])
  }

  /** Equal as far as a u64 suffix can tell. */
  predicate SameSuffix(a: nat, b: nat) {
    a % (MAX_U64 + 1) == b % (MAX_U64 + 1)
  }

  lemma WrapIsMod(n: nat)
    ensures WrapSucc(n % (MAX_U64 + 1)) == (n + 1) % (MAX_U64 + 1)
  {
  }

  lemma {:induction false} SuffixCountsCuts(evs: seq<Event>)
    ensures Run(FRESH, evs).snapshotIdx == Cuts(evs) % (MAX_U64 + 1)
  {
    if evs != [] {
      SuffixCountsCuts(evs[..|evs| - 1]);
      WrapIsMod(Cuts(evs[..|evs| - 1]));
    }
  }

  /** A pending builder has the applied id of its cut and, no other having been cut since, the
      present count as its suffix. */
  lemma {:induction false} BuilderId(evs: seq<Event>)
    requires ValidRun(FRESH, evs) && Run(FRESH, evs).builder.Some?
    ensures var b := Run(FRESH, evs).builder.value;
      b.applied == AppliedAtCut(evs) && b.idx == Cuts(evs) % (MAX_U64 + 1)
  {
    var before, ev := evs[..|evs| - 1], evs[|evs| - 1];
    if ev.GetBuilder? {
      SuffixCountsCuts(evs);
    } else {
      BuilderKept(Run(FRESH, before), ev);
      hide Enabled, Step;
      BuilderId(before);
    }
  }

  /** Only `GetBuilder` makes a builder, and none survives a crash. */
  lemma BuilderKept(n: Node, ev: Event)
    requires !ev.GetBuilder? && Step(n, ev).builder.Some?
    ensures n.builder.Some? && !IsCrash(ev)
    ensures Step(n, ev).builder.value.applied == n.builder.value.applied
    ensures Step(n, ev).builder.value.idx == n.builder.value.idx
  {
  }

  // ---- the id as it is printed ----

  /** How the library prints a leader id: distinct ids print differently. */
  ghost predicate Injective(leader: (U64, U64) -> string) {
    forall t, n, t', n' | leader(t, n) == leader(t', n') :: t == t' && n == n'
  }

  function Printed(id: SnapshotId, leader: (U64, U64) -> string): string {
    if id.last.Some? then
      leader(id.last.value.term, id.last.value.node) + "-" + Decimal(id.last.value.index) + "-" + Decimal(id.suffix)
    else "--" + Decimal(id.suffix)
  }

  lemma {:induction false} DecimalHasNoDash(n: nat)
    ensures Decimal(n) != "" && '-' !in Decimal(n)
  {
    assert '-' !in DIGITS;
    assert forall d | 0 <= d < 10 :: DIGITS[d] in DIGITS;
    if n >= 10 {
      DecimalHasNoDash(n / 10);
    }
  }

  /** What follows the last dash of a string. */
  function AfterDash(s: string): string {
    if s == "" || s[|s| - 1] == '-' then "" else AfterDash(s[..|s| - 1]) + [s[|s| - 1]]
  }

  lemma {:induction false} AfterDashIs(a: string, d: string)
    requires '-' !in d
    ensures AfterDash(a + "-" + d) == d
  {
    var s := a + "-" + d;
    if d != "" {
      var init, last := d[..|d| - 1], d[|d| - 1];
      assert last in d && s[..|s| - 1] == a + "-" + init;
      AfterDashIs(a, init);
    }
  }

  lemma LastDash(a: string, d: string, b: string, e: string)
    requires '-' !in d && '-' !in e
    requires a + "-" + d == b + "-" + e
    ensures a == b && d == e
  {
    AfterDashIs(a, d);
    AfterDashIs(b, e);
    assert |a| == |b| && (a + "-" + d)[..|a|] == a && (b + "-" + e)[..|b|] == b;
  }

  /** An id without a last log id has its parts empty. */
  function Parts(id: SnapshotId, leader: (U64, U64) -> string): (string, string) {
    if id.last.Some? then (leader(id.last.value.term, id.last.value.node), Decimal(id.last.value.index)) else ("", "")
  }

  lemma PrintedParts(id: SnapshotId, leader: (U64, U64) -> string)
    ensures Printed(id, leader) == Parts(id, leader).0 + "-" + Parts(id, leader).1 + "-" + Decimal(id.suffix)
    ensures '-' !in Parts(id, leader).1 && '-' !in Decimal(id.suffix)
    ensures Parts(id, leader).1 == "" <==> id.last.None?
  {
    DecimalHasNoDash(id.suffix);
    if id.last.Some? {
      DecimalHasNoDash(id.last.value.index);
    } else {
      assert "" + "-" + "" + "-" == "--";
    }
  }

  /** The printed string determines the applied id and the suffix. */
  lemma PrintedInjective(a: SnapshotId, b: SnapshotId, leader: (U64, U64) -> string)
    requires Injective(leader) && Printed(a, leader) == Printed(b, leader)
    ensures a == b
  {
    PrintedParts(a, leader);
    PrintedParts(b, leader);
    hide Printed, Decimal;
    var p, q := Parts(a, leader), Parts(b, leader);
    LastDash(p.0 + "-" + p.1, Decimal(a.suffix), q.0 + "-" + q.1, Decimal(b.suffix));
    LastDash(p.0, p.1, q.0, q.1);
    DecimalInjective(a.suffix, b.suffix);
    if a.last.Some? {
      DecimalInjective(a.last.value.index, b.last.value.index);
    }
  }

  // ---- when ids coincide ----

  function IdAfter(evs: seq<Event>, leader: (U64, U64) -> string): string
    requires HasRead(Run(FRESH, evs))
  {
    Printed(Pending(Run(FRESH, evs)).meta.id, leader)
  }

  /** Two snapshots about to be stored, in one run or in two, get the same id if and only if
      their builders were cut at the same applied id as the same-numbered cut, modulo 2^64,
      since the last start. */
  lemma IdsCoincide(evs: seq<Event>, others: seq<Event>, leader: (U64, U64) -> string)
    requires Injective(leader)
    requires ValidRun(FRESH, evs) && HasRead(Run(FRESH, evs))
    requires ValidRun(FRESH, others) && HasRead(Run(FRESH, others))
    ensures IdAfter(evs, leader) == IdAfter(others, leader)
       <==> AppliedAtCut(evs) == AppliedAtCut(others) && SameSuffix(Cuts(evs), Cuts(others))
  {
    hide Run, ValidRun, Cuts, AppliedAtCut;
    BuilderId(evs);
    BuilderId(others);
    hide Injective, Printed;
    if IdAfter(evs, leader) == IdAfter(others, leader) {
      PrintedInjective(Pending(Run(FRESH, evs)).meta.id, Pending(Run(FRESH, others)).meta.id, leader);
    }
  }

  lemma {:induction false} CutsGrow(evs: seq<Event>, more: seq<Event>)
    requires forall ev | ev in more :: !IsCrash(ev)
    ensures Cuts(evs + more) >= Cuts(evs)
    ensures GetBuilder in more ==> Cuts(evs + more) > Cuts(evs)
  {
    if more == [] {
      assert evs + more == evs;
    } else {
      var init := more[..|more| - 1];
      assert (evs + more)[..|evs + more| - 1] == evs + init;
      assert more == init + [more[|more| - 1]];
      CutsGrow(evs, init);
    }
  }

  /** Within one process, and for fewer than 2^64 cuts, two builders never get the same id. */
  lemma IdsDistinctInOneProcess(evs: seq<Event>, more: seq<Event>, leader: (U64, U64) -> string)
    requires Injective(leader)
    requires ValidRun(FRESH, evs) && HasRead(Run(FRESH, evs))
    requires ValidRun(FRESH, evs + more) && HasRead(Run(FRESH, evs + more))
    requires GetBuilder in more && Cuts(evs + more) <= MAX_U64
    requires forall ev | ev in more :: !IsCrash(ev)
    ensures IdAfter(evs, leader) != IdAfter(evs + more, leader)
  {
    hide Run, ValidRun, Cuts, AppliedAtCut;
    IdsCoincide(evs, evs + more, leader);
    CutsGrow(evs, more);
  }

  const STORED_AT_1 := CUT_AT_1 + [ReadMap, StoreSnapshot]
  const FIRST := StoredSnapshot(SnapshotMeta(Some(E0.logId), NO_MEMBERSHIP, SnapshotId(Some(E0.logId), 1)), Json(S1.kvs))

  lemma StoredAt1Run()
    ensures ValidRun(FRESH, STORED_AT_1)
    ensures Run(FRESH, STORED_AT_1) == Node(WithSnapshot(Image(LOGGED, map[]), FIRST), S1, 1, None)
  {
    CutAt1Run();
    hide Run, ValidRun, ApplyAll;
    RunSnoc(FRESH, CUT_AT_1, ReadMap);
    RunSnoc(FRESH, CUT_AT_1 + [ReadMap], StoreSnapshot);
    assert CUT_AT_1 + [ReadMap] + [StoreSnapshot] == STORED_AT_1;
  }

  lemma CutAgainRun() returns (evs: seq<Event>)
    ensures evs == STORED_AT_1 + [Crash, GetBuilder, Apply([E1])]
    ensures ValidRun(FRESH, evs)
    ensures Run(FRESH, evs) == Node(WithSnapshot(Image(LOGGED, map[]), FIRST), S2, 1, Some(CUT))
  {
    StoredAt1Run();
    ApplyBoth();
    hide Run, ValidRun, ApplyAll;
    RunSnoc(FRESH, STORED_AT_1, Crash);
    evs := STORED_AT_1 + [Crash];
    RunSnoc(FRESH, evs, GetBuilder);
    evs := evs + [GetBuilder];
    var n := Run(FRESH, evs);
    assert 1 in n.disk.logs && n.disk.logs[1] == E1;
    RunSnoc(FRESH, evs, Apply([E1]));
    evs := evs + [Apply([E1])];
  }

  /** The suffix restarts at zero with the process, so ids do repeat: two snapshots with one id
      and different data, on one node, in one valid run. */
  lemma SnapshotIdRepeats()
    ensures var later := STORED_AT_1 + [Crash, GetBuilder, Apply([E1]), ReadMap, StoreSnapshot];
      && ValidRun(FRESH, STORED_AT_1) && ValidRun(FRESH, later)
      && var a := CurrentSnapshot(Run(FRESH, STORED_AT_1).disk);
         var b := CurrentSnapshot(Run(FRESH, later).disk);
         a.Some? && b.Some? && a.value.meta == b.value.meta && a.value.data != b.value.data
  {
    StoredAt1Run();
    var evs := CutAgainRun();
    hide Run, ValidRun;
    RunSnoc(FRESH, evs, ReadMap);
    RunSnoc(FRESH, evs + [ReadMap], StoreSnapshot);
    assert evs + [ReadMap] + [StoreSnapshot]
        == STORED_AT_1 + [Crash, GetBuilder, Apply([E1]), ReadMap, StoreSnapshot];
    assert "b" in S2.kvs && "b" !in S1.kvs;
  }
}
