/** Runs on which a stronger property fails, each from the code's own steps. */
module Hazards {
  import opened RaftTypes
  import opened Disk
  import opened OpenraftLog
  import opened LogRefinement
  import opened Replay
  import opened Recovery
  import opened Cluster

  const E0 := Entry(LogId(1, 1, 0), Normal(Set("a", "1")))
  const E1 := Entry(LogId(1, 1, 1), Normal(Set("b", "2")))

  const S1 := State(Some(E0.logId), NO_MEMBERSHIP, map["a" := "1"])
  const S2 := State(Some(E1.logId), NO_MEMBERSHIP, map["a" := "1", "b" := "2"])

  lemma ApplyBoth()
    ensures ApplyAll(EMPTY, [E0]) == S1
    ensures ApplyAll(S1, [E1]) == S2
    ensures ApplyAll(EMPTY, [E0, E1]) == S2
  {
    assert [E0, E1][..1] == [E0];
    assert [E0][..0] == [] && [E1][..0] == [];
  }

  lemma RunSnoc(n: Node, evs: seq<Event>, ev: Event)
    requires ValidRun(n, evs) && Enabled(Run(n, evs), ev)
    ensures ValidRun(n, evs + [ev]) && Run(n, evs + [ev]) == Step(Run(n, evs), ev)
  {
    hide Enabled, Step;
    assert (evs + [ev])[..|evs + [ev]| - 1] == evs;
  }

  /** A node that logged both entries, applied the first, and cut a builder. */
  const LOGGED := map[0 := E0, 1 := E1]
  const CUT_AT_1 := [Append([E0, E1]), Apply([E0]), GetBuilder]

  lemma CutAt1Run()
    ensures ValidRun(FRESH, CUT_AT_1)
    ensures Run(FRESH, CUT_AT_1) == Node(Image(LOGGED, map[]), S1, 1, Some(Builder(Some(E0.logId), NO_MEMBERSHIP, 1, None)))
  {
    ApplyBoth();
    assert LastLogId(FRESH.disk) == None;
    assert [E0, E1][..1] == [E0] && [E0][..0] == [];
    assert PutAll(map[], [E0]) == map[0 := E0];
    assert PutAll(map[], [E0, E1]) == LOGGED;
    RunSnoc(FRESH, [], Append([E0, E1]));
    assert [] + [Append([E0, E1])] == [Append([E0, E1])];
    var n1 := Run(FRESH, [Append([E0, E1])]);
    assert n1 == Node(Image(LOGGED, map[]), EMPTY, 0, None);
    assert 0 in n1.disk.logs;
    RunSnoc(FRESH, [Append([E0, E1])], Apply([E0]));
    assert [Append([E0, E1])] + [Apply([E0])] == [Append([E0, E1]), Apply([E0])];
    RunSnoc(FRESH, [Append([E0, E1]), Apply([E0])], GetBuilder);
    assert [Append([E0, E1]), Apply([E0])] + [GetBuilder] == CUT_AT_1;
  }

  const NEWER := SnapshotMeta(Some(E1.logId), NO_MEMBERSHIP, SnapshotId(Some(E1.logId), 7))
  const INSTALL := Install(NEWER, Json(S2.kvs))

  /** The node after an install that ignores its pending builder, and the purge it allows. */
  lemma Overtaken() returns (n: Node)
    ensures var cut := Run(FRESH, CUT_AT_1);
      && ValidRun(FRESH, CUT_AT_1) && n == Step(Step(cut, INSTALL), Purge(E1.logId))
      && !Enabled(cut, INSTALL) && Enabled(cut.(builder := None), INSTALL)
      && Enabled(Step(cut, INSTALL), Purge(E1.logId))
    ensures n.disk.logs == map[] && n.sm == S2 && n.builder == Some(CUT)
  {
    CutAt1Run();
    n := Step(Step(Run(FRESH, CUT_AT_1), INSTALL), Purge(E1.logId));
    assert n.disk.logs == map[];
  }

  /** The guard on `Install` is needed: an install (and the purge it allows) while a builder is
      pending lets the builder overwrite the newer snapshot with an older one whose log suffix
      is gone. No read of the log rebuilds the state then. The pending builder is the only guard
      broken: without it the install is allowed, and every later step is allowed as it is. */
  lemma InstallDuringBuildLosesState(suffix: seq<Entry>)
    ensures var cut := Run(FRESH, CUT_AT_1);
      var n1 := Step(cut, INSTALL);
      var n2 := Step(n1, Purge(E1.logId));
      var n3 := Step(n2, ReadMap);
      var n := Step(n3, StoreSnapshot);
      && ValidRun(FRESH, CUT_AT_1)
      && !Enabled(cut, INSTALL) && Enabled(cut.(builder := None), INSTALL)
      && Enabled(n1, Purge(E1.logId)) && Enabled(n2, ReadMap) && Enabled(n3, StoreSnapshot)
      && n.sm == S2
      && (IsRead(n.disk.logs, ReplayRange(Loaded(n.disk).applied, n.sm.applied), suffix) ==>
            ApplyAll(Loaded(n.disk), suffix) != n.sm)
  {
    var n2 := Overtaken();
    hide Run, ValidRun;
    var n := Step(Step(n2, ReadMap), StoreSnapshot);
    assert n.disk.logs == map[];
    assert Loaded(n.disk).applied == Some(E0.logId);
    if IsRead(n.disk.logs, ReplayRange(Loaded(n.disk).applied, n.sm.applied), suffix) {
      NonEmptyHasMember(suffix);
      assert suffix == [];
    }
  }

  /** A purge past the log's end, as after an INSTALL, that crashes before deleting: the
      reported last id is that of entry 0, below the recorded purge point. */
  lemma CrashInPurgeReportsStaleId()
    ensures var evs := [Append([E0]), INSTALL, CrashInPurge(E1.logId)];
      var d := Run(FRESH, evs).disk;
      ValidRun(FRESH, evs) && LastLogId(d) == Some(E0.logId) && LastPurged(d) == Some(E1.logId)
  {
    assert LastLogId(FRESH.disk) == None;
    assert PutAll(map[], [E0]) == map[0 := E0] by { assert [E0][..0] == []; }
    RunSnoc(FRESH, [], Append([E0]));
    var n1 := Run(FRESH, [] + [Append([E0])]);
    assert n1 == Node(Image(map[0 := E0], map[]), EMPTY, 0, None);
    hide Run, ValidRun;
    RunSnoc(FRESH, [] + [Append([E0])], INSTALL);
    RunSnoc(FRESH, [] + [Append([E0])] + [INSTALL], CrashInPurge(E1.logId));
    assert [] + [Append([E0])] + [INSTALL] + [CrashInPurge(E1.logId)]
        == [Append([E0]), INSTALL, CrashInPurge(E1.logId)];
    var d := Run(FRESH, [Append([E0]), INSTALL, CrashInPurge(E1.logId)]).disk;
    assert d.logs == map[0 := E0];
    LastLogIdRefines(d, 0, [E0]);
  }

  // ---- a fuzzy snapshot seen on another node ----

  lemma Then(start: Cluster, ms: seq<Move>, c: Cluster, m: Move) returns (longer: seq<Move>)
    requires ValidMoves(start, ms) && Moves(start, ms) == c && MoveEnabled(c, m)
    ensures ValidMoves(start, longer) && Moves(start, longer) == MoveTo(c, m)
  {
    MovesSnoc(start, ms, m);
    longer := ms + [m];
  }

  const BOTH := [E0, E1]
  const CUT := Builder(Some(E0.logId), NO_MEMBERSHIP, 1, None)
  const FUZZY := StoredSnapshot(SnapshotMeta(Some(E0.logId), NO_MEMBERSHIP, SnapshotId(Some(E0.logId), 1)), Json(S2.kvs))

  function Pair(sender: Node, receiver: Node, published: set<StoredSnapshot>, frontier: nat): Cluster {
    Cluster(BOTH, [sender, receiver], published, frontier)
  }

  lemma BothCommitted() returns (ms: seq<Move>)
    ensures ValidMoves(Start(2), ms) && Moves(Start(2), ms) == Pair(FRESH, FRESH, {}, 0)
  {
    assert Start(2).nodes == [FRESH, FRESH];
    ms := Then(Start(2), [], Start(2), Commit(E0));
    ms := Then(Start(2), ms, Cluster([E0], [FRESH, FRESH], {}, 0), Commit(E1));
  }

  lemma SenderLogged() returns (ms: seq<Move>)
    ensures ValidMoves(Start(2), ms)
    ensures Moves(Start(2), ms) == Pair(Node(Image(LOGGED, map[]), EMPTY, 0, None), FRESH, {}, 0)
  {
    ms := BothCommitted();
    hide Moves, ValidMoves;
    assert PutAll(map[], [E0]) == map[0 := E0];
    assert BOTH[..1] == [E0];
    assert PutAll(map[], BOTH) == LOGGED;
    ms := Then(Start(2), ms, Pair(FRESH, FRESH, {}, 0), Local(0, Append(BOTH)));
  }

  lemma SenderCut() returns (ms: seq<Move>)
    ensures ValidMoves(Start(2), ms)
    ensures Moves(Start(2), ms) == Pair(Node(Image(LOGGED, map[]), S1, 1, Some(CUT)), FRESH, {}, 1)
  {
    ms := SenderLogged();
    hide Moves, ValidMoves;
    ApplyBoth();
    var n := Node(Image(LOGGED, map[]), EMPTY, 0, None);
    assert 0 in n.disk.logs && n.disk.logs[0] == E0;
    assert BOTH[0..1] == [E0];
    ms := Then(Start(2), ms, Pair(n, FRESH, {}, 0), Local(0, Apply([E0])));
    ms := Then(Start(2), ms, Pair(n.(sm := S1), FRESH, {}, 1), Local(0, GetBuilder));
  }

  lemma SenderAhead() returns (ms: seq<Move>)
    ensures ValidMoves(Start(2), ms)
    ensures Moves(Start(2), ms) == Pair(Node(Image(LOGGED, map[]), S2, 1, Some(CUT)), FRESH, {}, 2)
  {
    ms := SenderCut();
    hide Moves, ValidMoves;
    ApplyBoth();
    var n := Node(Image(LOGGED, map[]), S1, 1, Some(CUT));
    assert 1 in n.disk.logs && n.disk.logs[1] == E1;
    assert BOTH[1..2] == [E1];
    ms := Then(Start(2), ms, Pair(n, FRESH, {}, 1), Local(0, Apply([E1])));
  }

  lemma SenderBuilt() returns (ms: seq<Move>, sender: Node)
    ensures ValidMoves(Start(2), ms)
    ensures Moves(Start(2), ms) == Pair(sender, FRESH, {FUZZY}, 2)
  {
    ms := SenderAhead();
    hide Moves, ValidMoves;
    var n := Node(Image(LOGGED, map[]), S2, 1, Some(CUT));
    ms := Then(Start(2), ms, Pair(n, FRESH, {}, 2), Local(0, ReadMap));
    var n1 := Step(n, ReadMap);
    ms := Then(Start(2), ms, Pair(n1, FRESH, {}, 2), Local(0, StoreSnapshot));
    sender := Step(n1, StoreSnapshot);
    assert Pending(n1) == FUZZY;
  }

  /** Without the condition of `Agreement` it fails: there is a valid run after which the
      receiver of a fuzzy snapshot stands at index 0 and holds a key that only entry 1 wrote. */
  lemma HurriedDisagrees() returns (ms: seq<Move>)
    ensures ValidMoves(Start(2), ms)
    ensures var c := Moves(Start(2), ms);
      && |c.nodes| == 2 && |c.committed| == 2
      && PositionOf(c.nodes[1].sm) == 1 && c.nodes[1].sm != At(c.committed, 1)
  {
    var sender;
    ms, sender := SenderBuilt();
    ApplyBoth();
    ms := Then(Start(2), ms, Pair(sender, FRESH, {FUZZY}, 2), Local(1, Install(FUZZY.meta, FUZZY.data)));
    assert BOTH[..1] == [E0];
    assert "b" in S2.kvs && "b" !in S1.kvs;
  }
}
