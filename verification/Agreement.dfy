/** Below the frontier: exactly when nodes at the same applied index hold the same state. */
module Agreement {
  import opened RaftTypes
  import opened OpenraftLog
  import opened LogRefinement
  import opened Replay
  import opened OpenraftStateMachine
  import opened Recovery
  import opened Cluster

  /** The entries `from .. to - 1` leave every key with the value it had before them. */
  ghost predicate NoNetChange(log: seq<Entry>, from: nat, to: nat)
    requires from <= to <= |log|
  {
    forall k ::
      After(LastEffect(log[from..to], k), Lookup(At(log, from).kvs, k)) == Lookup(At(log, from).kvs, k)
  }

  lemma NoNetChangeIs(log: seq<Entry>, from: nat, to: nat)
    requires from <= to <= |log|
    ensures NoNetChange(log, from, to) <==> At(log, to).kvs == At(log, from).kvs
  {
    hide ApplyAll, LastEffect;
    PrefixState(log, from, to);
    forall k
      ensures Lookup(At(log, to).kvs, k) == After(LastEffect(log[from..to], k), Lookup(At(log, from).kvs, k))
    {
      LastWriteWins(At(log, from), log[from..to], k);
    }
    if NoNetChange(log, from, to) {
      MapsAgree(At(log, to).kvs, At(log, from).kvs);
    }
  }

  /** What the node applied between cutting a builder and the builder's read of the map had no
      net effect on any key. Known as soon as the snapshot is about to be stored. */
  ghost predicate Sharp(c: Cluster, m: Move) {
    m.Local? && m.event.StoreSnapshot? && m.k < |c.nodes| && HasRead(c.nodes[m.k]) ==>
      var b := c.nodes[m.k].builder.value;
      var from, to := NextIndex(b.applied), NextIndex(b.reading.value.at);
      from <= to <= |c.committed| && NoNetChange(c.committed, from, to)
  }

  ghost predicate SharpMoves(c: Cluster, ms: seq<Move>) {
    ms == [] || (SharpMoves(c, ms[..|ms| - 1]) && Sharp(Moves(c, ms[..|ms| - 1]), ms[|ms| - 1]))
  }

  ghost predicate Exact(log: seq<Entry>, s: State) {
    PositionOf(s) <= |log| && s == At(log, PositionOf(s))
  }

  /** The builder's ids are those of its own position, and what it has read is the map of the
      position it read at. */
  ghost predicate ExactBuilder(log: seq<Entry>, b: Builder, now: nat)
    requires now <= |log|
  {
    var from := NextIndex(b.applied);
    && from <= now
    && b.membership == At(log, from).membership && b.applied == At(log, from).applied
    && (b.reading.Some? ==>
          && from <= NextIndex(b.reading.value.at) <= now
          && b.reading.value.kvs == At(log, NextIndex(b.reading.value.at)).kvs)
  }

  ghost predicate ExactNode(log: seq<Entry>, n: Node) {
    && Exact(log, n.sm) && Exact(log, Loaded(n.disk))
    && (n.builder.Some? ==> ExactBuilder(log, n.builder.value, PositionOf(n.sm)))
  }

  ghost predicate ExactSnapshot(log: seq<Entry>, s: StoredSnapshot) {
    s.data.Json? && Exact(log, SnapshotState(s.meta, s.data.kvs))
  }

  ghost predicate ExactPublished(c: Cluster) {
    forall s | s in c.published :: ExactSnapshot(c.committed, s)
  }

  /** Every node, in memory and on disk, and every published snapshot is in the state that
      one machine has at the same index. */
  ghost predicate ExactCluster(c: Cluster) {
    && Consecutive(c.committed, 0) && |c.committed| <= MAX_U64
    && (forall n | n in c.nodes :: ExactNode(c.committed, n))
    && ExactPublished(c)
  }

  lemma ExactApply(log: seq<Entry>, n: Node, es: seq<Entry>)
    requires Consecutive(log, 0) && ExactNode(log, n)
    requires var from := PositionOf(n.sm); from + |es| <= |log| && es == log[from..from + |es|]
    ensures ExactNode(log, n.(sm := ApplyAll(n.sm, es)))
  {
    hide ApplyAll;
    var from := PositionOf(n.sm);
    AppliedIsLast(n.sm, es);
    PrefixState(log, from, from + |es|);
  }

  /** A snapshot about to be stored on an exact node is exact exactly when its read was sharp. */
  lemma PendingIsExact(log: seq<Entry>, n: Node)
    requires ExactNode(log, n) && HasRead(n)
    ensures var b := n.builder.value;
      ExactSnapshot(log, Pending(n)) <==> NoNetChange(log, NextIndex(b.applied), NextIndex(b.reading.value.at))
  {
    hide ApplyAll, NoNetChange;
    var b := n.builder.value;
    NoNetChangeIs(log, NextIndex(b.applied), NextIndex(b.reading.value.at));
  }

  lemma ExactLocal(log: seq<Entry>, n: Node, ev: Event)
    requires Consecutive(log, 0) && ExactNode(log, n) && Enabled(n, ev)
    requires ev.Apply? ==> var from := PositionOf(n.sm);
      from + |ev.entries| <= |log| && ev.entries == log[from..from + |ev.entries|]
    requires ev.Install? && ev.data.Json? ==> ExactSnapshot(log, StoredSnapshot(ev.meta, ev.data))
    requires ev.StoreSnapshot? ==> ExactSnapshot(log, Pending(n))
    ensures ExactNode(log, Step(n, ev))
  {
    hide ApplyAll;
    match ev
    case Apply(es) => ExactApply(log, n, es);
    case _ =>
  }

  lemma ExactCommit(c: Cluster, e: Entry)
    requires ExactCluster(c) && MoveEnabled(c, Commit(e))
    ensures ExactCluster(MoveTo(c, Commit(e)))
  {
    hide ApplyAll;
    forall n | n in c.nodes ensures ExactNode(c.committed + [e], n) {
      LongerLog(c.committed, e, 0, PositionOf(n.sm));
      LongerLog(c.committed, e, 0, PositionOf(Loaded(n.disk)));
      if n.builder.Some? { LongerLog(c.committed, e, 0, NextIndex(n.builder.value.applied)); }
      if HasRead(n) { LongerLog(c.committed, e, 0, NextIndex(n.builder.value.reading.value.at)); }
    }
    forall s | s in c.published ensures ExactSnapshot(c.committed + [e], s) {
      LongerLog(c.committed, e, 0, PositionOf(SnapshotState(s.meta, s.data.kvs)));
    }
  }

  lemma ExactStep(c: Cluster, m: Move)
    requires ExactCluster(c) && MoveEnabled(c, m) && Sharp(c, m)
    ensures ExactCluster(MoveTo(c, m))
  {
    match m
    case Commit(e) => ExactCommit(c, e);
    case Local(k, ev) => ExactLocalStep(c, k, ev);
  }

  lemma ExactLocalStep(c: Cluster, k: nat, ev: Event)
    requires ExactCluster(c) && MoveEnabled(c, Local(k, ev)) && Sharp(c, Local(k, ev))
    ensures ExactCluster(MoveTo(c, Local(k, ev)))
  {
    hide ExactNode, ExactSnapshot, NoNetChange, Enabled, Step;
    var n := c.nodes[k];
    assert n in c.nodes;
    if ev.StoreSnapshot? {
      StoresRead(n);
      PendingIsExact(c.committed, n);
    }
    ExactLocal(c.committed, n, ev);
    forall o | o in MoveTo(c, Local(k, ev)).nodes ensures ExactNode(c.committed, o) {
      assert o == Step(n, ev) || o in c.nodes;
    }
  }

  lemma StoresRead(n: Node)
    ensures Enabled(n, StoreSnapshot) <==> HasRead(n)
  {
  }

  /** Storing a snapshot that was not read sharply publishes an inexact one. */
  lemma UnsharpPublishes(c: Cluster, m: Move)
    requires ExactCluster(c) && MoveEnabled(c, m) && !Sharp(c, m)
    ensures Pending(c.nodes[m.k]) in MoveTo(c, m).published
    ensures MoveTo(c, m).committed == c.committed && !ExactSnapshot(c.committed, Pending(c.nodes[m.k]))
  {
    var n := c.nodes[m.k];
    assert n in c.nodes;
    PendingIsExact(c.committed, n);
  }

  /** Once published, an inexact snapshot stays inexact. */
  lemma InexactStays(c: Cluster, m: Move)
    requires ClusterInv(c) && MoveEnabled(c, m) && !ExactPublished(c)
    ensures !ExactPublished(MoveTo(c, m))
  {
    var s :| s in c.published && !ExactSnapshot(c.committed, s);
    assert SnapshotTracks(c.committed, s, c.frontier);
    if m.Commit? {
      LongerLog(c.committed, m.entry, 0, PositionOf(SnapshotState(s.meta, s.data.kvs)));
    }
    assert s in MoveTo(c, m).published && !ExactSnapshot(MoveTo(c, m).committed, s);
  }

  /** Over every run: all published snapshots, and then all nodes too, are exact if and only if
      each stored snapshot was read sharply. */
  lemma {:induction false} ExactIffSharp(size: nat, ms: seq<Move>)
    requires ValidMoves(Start(size), ms)
    ensures SharpMoves(Start(size), ms) <==> ExactCluster(Moves(Start(size), ms))
    ensures SharpMoves(Start(size), ms) <==> ExactPublished(Moves(Start(size), ms))
  {
    if ms != [] {
      var before, m := ms[..|ms| - 1], ms[|ms| - 1];
      var c := Moves(Start(size), before);
      ExactIffSharp(size, before);
      hide MoveEnabled, MoveTo, Sharp, ClusterInv;
      if SharpMoves(Start(size), ms) {
        ExactStep(c, m);
      } else if SharpMoves(Start(size), before) {
        UnsharpPublishes(c, m);
      } else {
        ReachableCluster(size, before);
        InexactStays(c, m);
      }
    } else {
      forall n | n in Start(size).nodes ensures n == FRESH {}
    }
  }

  ghost predicate NodesAgree(c: Cluster) {
    forall m, n | m in c.nodes && n in c.nodes && PositionOf(m.sm) == PositionOf(n.sm) :: m.sm == n.sm
  }

  /** Agreement at every index: when every stored snapshot was read sharply, nodes with the same
      applied position hold the same state. */
  lemma Agreement(size: nat, ms: seq<Move>)
    requires ValidMoves(Start(size), ms) && SharpMoves(Start(size), ms)
    ensures NodesAgree(Moves(Start(size), ms))
  {
    ExactIffSharp(size, ms);
  }

  // ---- and only then ----

  /** Moves that store no snapshot of their own. */
  ghost predicate Quiet(ms: seq<Move>) {
    forall m | m in ms :: !(m.Local? && m.event.StoreSnapshot?)
  }

  lemma {:induction false} PrefixMoves(c: Cluster, ms: seq<Move>, i: nat)
    requires i <= |ms|
    ensures ValidMoves(c, ms) ==> ValidMoves(c, ms[..i])
    ensures SharpMoves(c, ms) ==> SharpMoves(c, ms[..i])
    decreases |ms|
  {
    hide MoveEnabled, MoveTo, Sharp;
    if i < |ms| {
      var init := ms[..|ms| - 1];
      PrefixMoves(c, init, i);
      assert init[..i] == ms[..i];
    } else {
      assert ms[..i] == ms;
    }
  }

  lemma {:induction false} QuietStaysSharp(c: Cluster, ms: seq<Move>, more: seq<Move>)
    requires SharpMoves(c, ms) && Quiet(more)
    ensures SharpMoves(c, ms + more)
  {
    hide MoveTo;
    if more == [] {
      assert ms + more == ms;
    } else {
      var init := more[..|more| - 1];
      assert (ms + more)[..|ms + more| - 1] == ms + init;
      assert more[|more| - 1] in more;
      QuietStaysSharp(c, ms, init);
    }
  }

  function WithFresh(c: Cluster): Cluster {
    c.(nodes := c.nodes + [FRESH])
  }

  /** One more node that does nothing changes nothing. */
  lemma {:induction false} FreshNode(size: nat, ms: seq<Move>)
    requires ValidMoves(Start(size), ms)
    ensures ValidMoves(Start(size + 1), ms) && Moves(Start(size + 1), ms) == WithFresh(Moves(Start(size), ms))
    ensures SharpMoves(Start(size), ms) <==> SharpMoves(Start(size + 1), ms)
  {
    if ms == [] {
      assert Start(size + 1) == WithFresh(Start(size));
    } else {
      var before, m := ms[..|ms| - 1], ms[|ms| - 1];
      FreshNode(size, before);
      FreshStep(Moves(Start(size), before), m);
    }
  }

  lemma FreshStep(c: Cluster, m: Move)
    requires MoveEnabled(c, m)
    ensures MoveEnabled(WithFresh(c), m) && MoveTo(WithFresh(c), m) == WithFresh(MoveTo(c, m))
    ensures Sharp(WithFresh(c), m) <==> Sharp(c, m)
  {
    hide Enabled, Step, NoNetChange;
  }

  /** A fresh node that logs and applies the first `p` committed entries. */
  lemma CatchUp(c: Cluster, k: nat, p: nat)
    requires k < |c.nodes| && c.nodes[k] == FRESH && Consecutive(c.committed, 0) && p <= |c.committed| <= MAX_U64
    ensures var es := c.committed[..p];
      var logged := MoveTo(c, Local(k, Append(es)));
      && MoveEnabled(c, Local(k, Append(es))) && MoveEnabled(logged, Local(k, Apply(es)))
      && MoveTo(logged, Local(k, Apply(es))).nodes[k].sm == At(c.committed, p)
  {
    var es := c.committed[..p];
    AppendRefines(map[], 0, [], es);
    assert [] + es == es;
    assert LastLogId(FRESH.disk) == None;
    var logs := PutAll(map[], es);
    forall e | e in es ensures StoredEntry(logs, e) {
      HoldsIsExact(logs, 0, es, e);
    }
    assert c.committed[0..0 + |es|] == es;
  }

  /** Three quiet moves: node `k` restarts, fresh node `j` logs and applies as much as `k` then holds. */
  function Rival(c: Cluster, k: nat, j: nat): seq<Move>
    requires k < |c.nodes|
  {
    var es := c.committed[..Min(PositionOf(Loaded(c.nodes[k].disk)), |c.committed|)];
    [Local(k, Crash), Local(j, Append(es)), Local(j, Apply(es))]
  }

  lemma ThenThree(start: Cluster, ms: seq<Move>, more: seq<Move>)
    requires |more| == 3 && ValidMoves(start, ms)
    requires var c := Moves(start, ms);
      && MoveEnabled(c, more[0]) && MoveEnabled(MoveTo(c, more[0]), more[1])
      && MoveEnabled(MoveTo(MoveTo(c, more[0]), more[1]), more[2])
    ensures ValidMoves(start, ms + more)
    ensures Moves(start, ms + more) == MoveTo(MoveTo(MoveTo(Moves(start, ms), more[0]), more[1]), more[2])
  {
    hide MoveEnabled, MoveTo;
    MovesSnoc(start, ms, more[0]);
    MovesSnoc(start, ms + [more[0]], more[1]);
    MovesSnoc(start, ms + [more[0]] + [more[1]], more[2]);
    assert ms + more == ms + [more[0]] + [more[1]] + [more[2]];
  }

  /** A node that restarts from an inexact snapshot disagrees with one that applied the log up
      to that snapshot's index. */
  lemma RivalDisagrees(c: Cluster, k: nat, j: nat)
    requires Consecutive(c.committed, 0) && |c.committed| <= MAX_U64
    requires k < j < |c.nodes| && c.nodes[j] == FRESH
    requires PositionOf(Loaded(c.nodes[k].disk)) <= |c.committed| && !Exact(c.committed, Loaded(c.nodes[k].disk))
    ensures var more := Rival(c, k, j);
      var c1 := MoveTo(c, more[0]);
      var c2 := MoveTo(c1, more[1]);
      && MoveEnabled(c, more[0]) && MoveEnabled(c1, more[1]) && MoveEnabled(c2, more[2])
      && !NodesAgree(MoveTo(c2, more[2]))
  {
    var more := Rival(c, k, j);
    var stored := Loaded(c.nodes[k].disk);
    var p := PositionOf(stored);
    var c1 := MoveTo(c, more[0]);
    CrashMove(c, k);
    hide MoveEnabled, Step, Loaded, ApplyAll;
    CatchUp(c1, j, p);
    AtPosition(c.committed, p);
    var c3 := MoveTo(MoveTo(c1, more[1]), more[2]);
    assert c3.nodes[k].sm == stored && c3.nodes[j].sm == At(c.committed, p);
    assert c3.nodes[k] in c3.nodes && c3.nodes[j] in c3.nodes;
  }

  lemma CrashMove(c: Cluster, k: nat)
    requires k < |c.nodes|
    ensures MoveEnabled(c, Local(k, Crash))
    ensures Step(c.nodes[k], Crash).sm == Loaded(c.nodes[k].disk)
  {
  }

  lemma AtPosition(log: seq<Entry>, p: nat)
    requires Consecutive(log, 0) && p <= |log|
    ensures PositionOf(At(log, p)) == p
  {
    AppliedIsLast(EMPTY, log[..p]);
  }

  lemma StoredPosition(c: Cluster, k: nat)
    requires ClusterInv(c) && k < |c.nodes|
    ensures Consecutive(c.committed, 0) && PositionOf(Loaded(c.nodes[k].disk)) <= |c.committed| <= MAX_U64
  {
    assert c.nodes[k] in c.nodes;
  }

  lemma Disagree(size: nat, ms: seq<Move>, k: nat) returns (more: seq<Move>)
    requires ValidMoves(Start(size), ms)
    requires var c := Moves(Start(size), ms); k < |c.nodes| && !Exact(c.committed, Loaded(c.nodes[k].disk))
    ensures Quiet(more) && ValidMoves(Start(size + 1), ms + more) && !NodesAgree(Moves(Start(size + 1), ms + more))
  {
    hide Moves, ValidMoves, MoveEnabled, MoveTo, Exact, NodesAgree, ClusterInv;
    var c := Moves(Start(size), ms);
    ReachableCluster(size, ms);
    StoredPosition(c, k);
    FreshNode(size, ms);
    more := Rival(WithFresh(c), k, |c.nodes|);
    RivalDisagrees(WithFresh(c), k, |c.nodes|);
    ThenThree(Start(size + 1), ms, more);
  }

  /** Every node agrees with every other at the same index, after every prefix of the run and
      every quiet continuation of it with one node more, if and only if each snapshot that the
      run stores was read sharply. */
  lemma AgreementExact(size: nat, ms: seq<Move>)
    requires ValidMoves(Start(size), ms)
    ensures SharpMoves(Start(size), ms) <==>
      forall i: nat, more | i <= |ms| && Quiet(more) && ValidMoves(Start(size + 1), ms[..i] + more) ::
        NodesAgree(Moves(Start(size + 1), ms[..i] + more))
  {
    hide *;
    if SharpMoves(Start(size), ms) {
      forall i: nat, more | i <= |ms| && Quiet(more) && ValidMoves(Start(size + 1), ms[..i] + more)
        ensures NodesAgree(Moves(Start(size + 1), ms[..i] + more))
      {
        PrefixMoves(Start(size), ms, i);
        FreshNode(size, ms[..i]);
        QuietStaysSharp(Start(size + 1), ms[..i], more);
        Agreement(size + 1, ms[..i] + more);
      }
    } else {
      var i, more := FirstUnsharp(size, ms);
    }
  }

  /** Just after the first unsharp snapshot is stored. */
  lemma {:induction false} FirstUnsharp(size: nat, ms: seq<Move>) returns (i: nat, more: seq<Move>)
    requires ValidMoves(Start(size), ms) && !SharpMoves(Start(size), ms)
    ensures i <= |ms| && Quiet(more) && ValidMoves(Start(size + 1), ms[..i] + more)
    ensures !NodesAgree(Moves(Start(size + 1), ms[..i] + more))
  {
    var before, m := ms[..|ms| - 1], ms[|ms| - 1];
    if SharpMoves(Start(size), before) {
      i := |ms|;
      assert ms[..i] == ms;
      var c := Moves(Start(size), before);
      ExactIffSharp(size, before);
      UnsharpStored(c, m);
      more := Disagree(size, ms, m.k);
    } else {
      i, more := FirstUnsharp(size, before);
      assert ms[..i] == before[..i];
    }
  }

  lemma UnsharpStored(c: Cluster, m: Move)
    requires ExactCluster(c) && MoveEnabled(c, m) && !Sharp(c, m)
    ensures var c' := MoveTo(c, m); m.k < |c'.nodes| && !Exact(c'.committed, Loaded(c'.nodes[m.k].disk))
  {
    UnsharpPublishes(c, m);
  }
}
