/** Several openraft nodes that apply one committed log and ship snapshots to each other.

    That the entries a node applies are the committed ones is Raft's State Machine Safety
    (section 5.4.3 of the Raft paper), provided by the openraft library; here it is a guard. */
module Cluster {
  import opened RaftTypes
  import opened Replay
  import opened OpenraftStateMachine
  import opened Recovery

  /** `published` is every snapshot ever built; `frontier` is one past the highest index any
      node ever applied. */
  datatype Cluster = Cluster(committed: seq<Entry>, nodes: seq<Node>, published: set<StoredSnapshot>, frontier: nat)

  datatype Move = Commit(entry: Entry) | Local(k: nat, event: Event)

  function Start(size: nat): Cluster {
    Cluster([], seq(size, _ => FRESH), {}, 0)
  }

  function PositionOf(s: State): nat {
    NextIndex(s.applied)
  }

  ghost predicate MoveEnabled(c: Cluster, m: Move) {
    match m
    case Commit(e) => e.logId.index == |c.committed| < MAX_U64
    case Local(k, ev) =>
      && k < |c.nodes| && Enabled(c.nodes[k], ev)
      && (ev.Apply? ==>
            var from := PositionOf(c.nodes[k].sm);
            from + |ev.entries| <= |c.committed| && ev.entries == c.committed[from..from + |ev.entries|])
      && (ev.Install? && ev.data.Json? ==> StoredSnapshot(ev.meta, ev.data) in c.published)
  }

  function MoveTo(c: Cluster, m: Move): Cluster {
    match m
    case Commit(e) => c.(committed := c.committed + [e])
    case Local(k, ev) =>
      if k >= |c.nodes| then c else
        var n := c.nodes[k];
        var n' := Step(n, ev);
        c.(nodes := c.nodes[k := n'],
           published := c.published + (if ev.StoreSnapshot? && HasRead(n) then {Pending(n)} else {}),
           frontier := Max(c.frontier, PositionOf(n'.sm)))
  }

  ghost predicate ValidMoves(c: Cluster, ms: seq<Move>) {
    ms == [] || (ValidMoves(c, ms[..|ms| - 1]) && MoveEnabled(Moves(c, ms[..|ms| - 1]), ms[|ms| - 1]))
  }

  function Moves(c: Cluster, ms: seq<Move>): Cluster {
    if ms == [] then c else MoveTo(Moves(c, ms[..|ms| - 1]), ms[|ms| - 1])
  }

  lemma MovesSnoc(start: Cluster, ms: seq<Move>, m: Move)
    requires ValidMoves(start, ms) && MoveEnabled(Moves(start, ms), m)
    ensures ValidMoves(start, ms + [m]) && Moves(start, ms + [m]) == MoveTo(Moves(start, ms), m)
  {
    hide MoveEnabled, MoveTo;
    assert (ms + [m])[..|ms + [m]| - 1] == ms;
  }

  /** The state after exactly the first `n` committed entries. */
  function At(log: seq<Entry>, n: nat): State
    requires n <= |log|
  {
    ApplyAll(EMPTY, log[..n])
  }

  /** Applying the committed entries from `s` on up to `f` gives the exact state there. */
  ghost predicate Tracks(log: seq<Entry>, s: State, f: nat) {
    PositionOf(s) <= f <= |log| && ApplyAll(s, log[PositionOf(s)..f]) == At(log, f)
  }

  ghost predicate BuilderTracks(log: seq<Entry>, b: Builder, sm: State) {
    var from, to := NextIndex(b.applied), PositionOf(sm);
    from <= to <= |log| && ApplyAll(Behind(b, sm.kvs), log[from..to]) == sm
  }

  ghost predicate NodeTracks(log: seq<Entry>, n: Node, f: nat) {
    && Tracks(log, n.sm, f)
    && Tracks(log, Loaded(n.disk), f)
    && (n.builder.Some? ==> BuilderTracks(log, n.builder.value, n.sm))
  }

  ghost predicate SnapshotTracks(log: seq<Entry>, s: StoredSnapshot, f: nat) {
    s.data.Json? && Tracks(log, SnapshotState(s.meta, s.data.kvs), f)
  }

  ghost predicate ClusterInv(c: Cluster) {
    && Consecutive(c.committed, 0)
    && c.frontier <= |c.committed| <= MAX_U64
    && (forall n | n in c.nodes :: NodeTracks(c.committed, n, c.frontier))
    && (forall s | s in c.published :: SnapshotTracks(c.committed, s, c.frontier))
  }

  // ---- tracking is stable ----

  lemma TracksFurther(log: seq<Entry>, s: State, f: nat, g: nat)
    requires Tracks(log, s, f) && f <= g <= |log|
    ensures Tracks(log, s, g)
  {
    var from := PositionOf(s);
    SlicesJoin(log, from, f, g);
    ApplyAllConcat(s, log[from..f], log[f..g]);
    PrefixState(log, f, g);
  }

  lemma LongerLog(log: seq<Entry>, e: Entry, from: nat, to: nat)
    requires from <= to <= |log|
    ensures (log + [e])[from..to] == log[from..to] && (log + [e])[..to] == log[..to]
  {
  }

  lemma NodeTracksFurther(log: seq<Entry>, n: Node, f: nat, g: nat)
    requires NodeTracks(log, n, f) && f <= g <= |log|
    ensures NodeTracks(log, n, g)
  {
    TracksFurther(log, n.sm, f, g);
    TracksFurther(log, Loaded(n.disk), f, g);
  }

  lemma NodeTracksLonger(log: seq<Entry>, e: Entry, n: Node, f: nat)
    requires NodeTracks(log, n, f)
    ensures NodeTracks(log + [e], n, f)
  {
    LongerLog(log, e, PositionOf(n.sm), f);
    LongerLog(log, e, PositionOf(Loaded(n.disk)), f);
    if n.builder.Some? {
      LongerLog(log, e, NextIndex(n.builder.value.applied), PositionOf(n.sm));
    }
  }

  lemma CommitKeepsInv(c: Cluster, e: Entry)
    requires ClusterInv(c) && MoveEnabled(c, Commit(e))
    ensures ClusterInv(MoveTo(c, Commit(e)))
  {
    forall n | n in c.nodes ensures NodeTracks(c.committed + [e], n, c.frontier) {
      NodeTracksLonger(c.committed, e, n, c.frontier);
    }
    forall s | s in c.published ensures SnapshotTracks(c.committed + [e], s, c.frontier) {
      LongerLog(c.committed, e, PositionOf(SnapshotState(s.meta, s.data.kvs)), c.frontier);
    }
  }

  // ---- local steps ----

  lemma ApplyTracks(log: seq<Entry>, n: Node, f: nat, es: seq<Entry>)
    requires Consecutive(log, 0) && NodeTracks(log, n, f)
    requires var from := PositionOf(n.sm); from + |es| <= f && es == log[from..from + |es|]
    ensures PositionOf(ApplyAll(n.sm, es)) == PositionOf(n.sm) + |es|
    ensures NodeTracks(log, n.(sm := ApplyAll(n.sm, es)), f)
  {
    var from := PositionOf(n.sm);
    var to := from + |es|;
    AppliedIsLast(n.sm, es);
    SlicesJoin(log, from, to, f);
    ApplyAllConcat(n.sm, es, log[to..f]);
    if n.builder.Some? {
      BuilderTracksFurther(log, n.builder.value, n.sm, es);
    }
  }

  lemma BuilderTracksFurther(log: seq<Entry>, b: Builder, sm: State, es: seq<Entry>)
    requires BuilderTracks(log, b, sm) && PositionOf(ApplyAll(sm, es)) == PositionOf(sm) + |es| <= |log|
    requires es == log[PositionOf(sm)..PositionOf(sm) + |es|]
    ensures BuilderTracks(log, b, ApplyAll(sm, es))
  {
    hide ApplyAll;
    var from, at := NextIndex(b.applied), PositionOf(sm);
    SlicesJoin(log, from, at, at + |es|);
    if b.reading.Some? {
      ApplyAllConcat(Behind(b, sm.kvs), log[from..at], es);
    } else {
      Absorb(Behind(b, sm.kvs), log[from..at], sm, es);
    }
  }

  lemma BuiltTracks(log: seq<Entry>, n: Node, f: nat)
    requires NodeTracks(log, n, f) && HasRead(n)
    ensures SnapshotTracks(log, Pending(n), f)
  {
    var b := n.builder.value;
    var from, at := NextIndex(b.applied), PositionOf(n.sm);
    SlicesJoin(log, from, at, f);
    ApplyAllConcat(Behind(b, n.sm.kvs), log[from..at], log[at..f]);
  }

  /** A local step, with the frontier already moved to where the step may take it. */
  lemma LocalTracks(log: seq<Entry>, n: Node, f: nat, ev: Event)
    requires Consecutive(log, 0) && NodeTracks(log, n, f) && Enabled(n, ev)
    requires ev.Apply? ==> var from := PositionOf(n.sm);
      from + |ev.entries| <= f && ev.entries == log[from..from + |ev.entries|]
    requires ev.Install? && ev.data.Json? ==> SnapshotTracks(log, StoredSnapshot(ev.meta, ev.data), f)
    ensures NodeTracks(log, Step(n, ev), f)
  {
    match ev
    case Apply(es) => ApplyTracks(log, n, f, es);
    case StoreSnapshot => BuiltTracks(log, n, f);
    case GetBuilder =>
      assert log[PositionOf(n.sm)..PositionOf(n.sm)] == [];
    case _ =>
  }

  /** Where the frontier stands after a local step. */
  lemma FrontierAfter(c: Cluster, k: nat, ev: Event)
    requires ClusterInv(c) && MoveEnabled(c, Local(k, ev))
    ensures PositionOf(Step(c.nodes[k], ev).sm) <= |c.committed|
    ensures ev.Apply? ==> PositionOf(Step(c.nodes[k], ev).sm) == PositionOf(c.nodes[k].sm) + |ev.entries|
  {
    var n := c.nodes[k];
    assert n in c.nodes;
    match ev
    case Apply(es) =>
      AppliedIsLast(n.sm, es);
    case Install(meta, data) =>
      if data.Json? { assert SnapshotTracks(c.committed, StoredSnapshot(meta, data), c.frontier); }
    case _ =>
  }

  lemma LocalKeepsInv(c: Cluster, k: nat, ev: Event)
    requires ClusterInv(c) && MoveEnabled(c, Local(k, ev))
    ensures ClusterInv(MoveTo(c, Local(k, ev)))
  {
    hide NodeTracks, Step, Enabled, Tracks;
    var c' := MoveTo(c, Local(k, ev));
    var log, f, g := c.committed, c.frontier, c'.frontier;
    var n := c.nodes[k];
    FrontierAfter(c, k, ev);
    forall o | o in c.nodes ensures NodeTracks(log, o, g) {
      NodeTracksFurther(log, o, f, g);
    }
    forall s | s in c.published ensures SnapshotTracks(log, s, g) {
      TracksFurther(log, SnapshotState(s.meta, s.data.kvs), f, g);
    }
    assert n in c.nodes;
    LocalTracks(log, n, g, ev);
    if HasRead(n) { BuiltTracks(log, n, g); }
    forall o | o in c'.nodes ensures NodeTracks(log, o, g) {
      assert o == Step(n, ev) || o in c.nodes;
    }
  }

  /** Over every run: each node, each stored, published or pending snapshot of any node,
      however fuzzy, replays to the exact state at the frontier. */
  lemma {:induction false} ReachableCluster(size: nat, ms: seq<Move>)
    requires ValidMoves(Start(size), ms)
    ensures ClusterInv(Moves(Start(size), ms))
  {
    if ms != [] {
      var before := ms[..|ms| - 1];
      ReachableCluster(size, before);
      match ms[|ms| - 1]
      case Commit(e) => CommitKeepsInv(Moves(Start(size), before), e);
      case Local(k, ev) => LocalKeepsInv(Moves(Start(size), before), k, ev);
    } else {
      forall n | n in Start(size).nodes ensures n == FRESH {}
    }
  }

  /** Convergence: in every reachable cluster, feeding a node the committed entries it lacks
      up to the frontier gives the state that one machine gets from the whole log; so nodes
      that reached the frontier agree. */
  lemma Convergence(size: nat, ms: seq<Move>, k: nat)
    requires ValidMoves(Start(size), ms)
    requires k < |Moves(Start(size), ms).nodes|
    ensures var c := Moves(Start(size), ms);
      var sm := c.nodes[k].sm;
      && PositionOf(sm) <= c.frontier <= |c.committed|
      && ApplyAll(sm, c.committed[PositionOf(sm)..c.frontier]) == At(c.committed, c.frontier)
      && (PositionOf(sm) == c.frontier ==> sm == At(c.committed, c.frontier))
  {
    ReachableCluster(size, ms);
    var c := Moves(Start(size), ms);
    var sm := c.nodes[k].sm;
    assert c.nodes[k] in c.nodes;
    if PositionOf(sm) == c.frontier {
      assert c.committed[PositionOf(sm)..c.frontier] == [];
    }
  }
}
