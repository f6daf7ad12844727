/** What applying log entries means (src/placement-center/src/openraft/store/state_machine_store.rs),
    as functions on values, and the laws of replay. */
module Replay {
  import opened RaftTypes

  /** The part of `StateMachineData` that applying changes. */
  datatype State = State(applied: Option<LogId>, membership: StoredMembership, kvs: map<string, string>)

  const EMPTY := State(None, NO_MEMBERSHIP, map[])

  function ApplyKvs(kvs: map<string, string>, p: Payload): map<string, string> {
    match p
    case Normal(Set(k, v)) => kvs[k := v]
    case Normal(Delete(k)) => kvs - {k}
    case _ => kvs
  }

  function ApplyOne(s: State, e: Entry): State {
    State(
      Some(e.logId),
      if e.payload.ConfigChange? then StoredMembership(Some(e.logId), e.payload.membership) else s.membership,
      ApplyKvs(s.kvs, e.payload))
  }

  function ApplyAll(s: State, es: seq<Entry>): State {
    if es == [] then s else ApplyOne(ApplyAll(s, es[..|es| - 1]), es[|es| - 1])
  }

  /** A set answers with the value it stored, everything else with none. */
  function ReplyOf(e: Entry): Option<string> {
    match e.payload
    case Normal(Set(_, v)) => Some(v)
    case _ => None
  }

  function RepliesOf(es: seq<Entry>): seq<Option<string>> {
    seq(|es|, i requires 0 <= i < |es| => ReplyOf(es[i]))
  }

  // ---- what a log does to one key ----

  datatype Effect = Untouched | Wrote(value: string) | Erased

  function EffectOf(e: Entry, k: string): Effect {
    match e.payload
    case Normal(Set(key, v)) => if key == k then Wrote(v) else Untouched
    case Normal(Delete(key)) => if key == k then Erased else Untouched
    case _ => Untouched
  }

  /** The effect of the last entry of `es` that touches `k`. */
  function LastEffect(es: seq<Entry>, k: string): Effect {
    if es == [] then Untouched
    else
      var last := EffectOf(es[|es| - 1], k);
      if last.Untouched? then LastEffect(es[..|es| - 1], k) else last
  }

  function Lookup(kvs: map<string, string>, k: string): Option<string> {
    if k in kvs then Some(kvs[k]) else None
  }

  function After(effect: Effect, before: Option<string>): Option<string> {
    match effect
    case Untouched => before
    case Wrote(v) => Some(v)
    case Erased => None
  }

  /** Each key holds the value of the last set or delete that touched it. */
  lemma {:induction false} LastWriteWins(s: State, es: seq<Entry>, k: string)
    ensures Lookup(ApplyAll(s, es).kvs, k) == After(LastEffect(es, k), Lookup(s.kvs, k))
  {
    if es != [] {
      LastWriteWins(s, es[..|es| - 1], k);
    }
  }

  /** Replies tell what the entry did: a set is answered with the value its key then holds,
      anything else with none; after a delete the key is gone. */
  lemma RepliesTell(s: State, es: seq<Entry>, i: nat)
    requires i < |es|
    ensures var after := ApplyAll(s, es[..i + 1]).kvs;
      |RepliesOf(es)| == |es| &&
      match es[i].payload
      case Normal(Set(k, v)) => RepliesOf(es)[i] == Lookup(after, k) == Some(v)
      case Normal(Delete(k)) => RepliesOf(es)[i] == Lookup(after, k) == None
      case _ => RepliesOf(es)[i] == None && after == ApplyAll(s, es[..i]).kvs
  {
    assert es[..i + 1][..i] == es[..i];
  }

  /** Replay arrives at the membership of the last membership entry, under that entry's id. */
  lemma {:induction false} MembershipIsLast(s: State, es: seq<Entry>, i: nat)
    requires i < |es| && es[i].payload.ConfigChange?
    requires forall j | i < j < |es| :: !es[j].payload.ConfigChange?
    ensures ApplyAll(s, es).membership == StoredMembership(Some(es[i].logId), es[i].payload.membership)
  {
    if i < |es| - 1 {
      MembershipIsLast(s, es[..|es| - 1], i);
    }
  }

  lemma {:induction false} MembershipStays(s: State, es: seq<Entry>)
    requires forall e | e in es :: !e.payload.ConfigChange?
    ensures ApplyAll(s, es).membership == s.membership
  {
    if es != [] {
      MembershipStays(s, es[..|es| - 1]);
    }
  }

  lemma {:induction false} LastEffectConcat(a: seq<Entry>, b: seq<Entry>, k: string)
    ensures LastEffect(a + b, k) == if LastEffect(b, k).Untouched? then LastEffect(a, k) else LastEffect(b, k)
  {
    if b == [] {
      assert a + b == a;
    } else {
      assert (a + b)[..|a + b| - 1] == a + b[..|b| - 1];
      LastEffectConcat(a, b[..|b| - 1], k);
    }
  }

  lemma {:induction false} ApplyAllConcat(s: State, a: seq<Entry>, b: seq<Entry>)
    ensures ApplyAll(s, a + b) == ApplyAll(ApplyAll(s, a), b)
  {
    if b == [] {
      assert a + b == a;
    } else {
      assert (a + b)[..|a + b| - 1] == a + b[..|b| - 1];
      ApplyAllConcat(s, a, b[..|b| - 1]);
    }
  }

  /** Applied id and membership do not depend on the map replay starts from. */
  lemma {:induction false} MetaIgnoresMap(s: State, t: State, es: seq<Entry>)
    requires s.applied == t.applied && s.membership == t.membership
    ensures ApplyAll(s, es).applied == ApplyAll(t, es).applied
    ensures ApplyAll(s, es).membership == ApplyAll(t, es).membership
  {
    if es != [] {
      MetaIgnoresMap(s, t, es[..|es| - 1]);
    }
  }

  lemma AppliedIsLast(s: State, es: seq<Entry>)
    ensures ApplyAll(s, es).applied == if es == [] then s.applied else Some(es[|es| - 1].logId)
  {
  }

  lemma MapsAgree(m: map<string, string>, n: map<string, string>)
    requires forall k :: Lookup(m, k) == Lookup(n, k)
    ensures m == n
  {
    forall k
      ensures k in m <==> k in n
      ensures k in m && k in n ==> m[k] == n[k]
    {
      assert Lookup(m, k) == Lookup(n, k);
    }
  }

  /** `behind` has the metadata of an earlier position but the map of a later one, and replaying
      `es` brings it to `s`. Then the map may run ahead by any further entries and replay
      still converges. */
  lemma Absorb(behind: State, es: seq<Entry>, s: State, more: seq<Entry>)
    requires behind.kvs == s.kvs
    requires ApplyAll(behind, es) == s
    ensures ApplyAll(behind.(kvs := ApplyAll(s, more).kvs), es + more) == ApplyAll(s, more)
  {
    var target := ApplyAll(s, more);
    var ahead := behind.(kvs := target.kvs);
    var replayed := ApplyAll(ahead, es + more);
    ApplyAllConcat(behind, es, more);
    MetaIgnoresMap(ahead, behind, es + more);
    forall k ensures Lookup(replayed.kvs, k) == Lookup(target.kvs, k) {
      LastWriteWins(ahead, es + more, k);
      LastEffectConcat(es, more, k);
      LastWriteWins(s, more, k);
      LastWriteWins(behind, es, k);
    }
    MapsAgree(replayed.kvs, target.kvs);
  }

  /** A snapshot cut from log position `i` whose map was read at position `j`. */
  function Fuzzy(log: seq<Entry>, i: nat, j: nat): State
    requires i <= j <= |log|
  {
    ApplyAll(EMPTY, log[..i]).(kvs := ApplyAll(EMPTY, log[..j]).kvs)
  }

  lemma SlicesJoin<T>(s: seq<T>, a: nat, b: nat, c: nat)
    requires a <= b <= c <= |s|
    ensures s[a..b] + s[b..c] == s[a..c]
    ensures s[..a] + s[a..b] == s[..b]
  {
  }

  /** The map of `s` after `a`, under the metadata of `s`, replays over `a + b` like `s` itself. */
  lemma RunAheadConverges(s: State, a: seq<Entry>, b: seq<Entry>)
    ensures ApplyAll(s.(kvs := ApplyAll(s, a).kvs), a + b) == ApplyAll(s, a + b)
  {
    var ahead := s.(kvs := ApplyAll(s, a).kvs);
    Absorb(s, [], s, a);
    assert [] + a == a;
    ApplyAllConcat(ahead, a, b);
    ApplyAllConcat(s, a, b);
  }

  /** Replaying a fuzzy snapshot to any position from `j` on gives the exact state there. */
  lemma FuzzyConverges(log: seq<Entry>, i: nat, j: nat, n: nat)
    requires i <= j <= n <= |log|
    ensures ApplyAll(Fuzzy(log, i, j), log[i..n]) == ApplyAll(EMPTY, log[..n])
  {
    var s := ApplyAll(EMPTY, log[..i]);
    PrefixState(log, i, j);
    PrefixState(log, i, n);
    SlicesJoin(log, i, j, n);
    RunAheadConverges(s, log[i..j], log[j..n]);
  }

  lemma PrefixState(log: seq<Entry>, i: nat, n: nat)
    requires i <= n <= |log|
    ensures ApplyAll(ApplyAll(EMPTY, log[..i]), log[i..n]) == ApplyAll(EMPTY, log[..n])
  {
    SlicesJoin(log, i, n, n);
    ApplyAllConcat(EMPTY, log[..i], log[i..n]);
  }

  /** Stopping replay short of `j` gives the exact state exactly when every key whose value
      changed between `n` and `j` was written by the replayed entries. */
  lemma FuzzyShortReplay(log: seq<Entry>, i: nat, n: nat, j: nat)
    requires i <= n <= j <= |log|
    ensures ApplyAll(Fuzzy(log, i, j), log[i..n]) == ApplyAll(EMPTY, log[..n])
       <==> forall k :: LastEffect(log[i..n], k).Untouched? ==>
                          After(LastEffect(log[n..j], k), Lookup(ApplyAll(EMPTY, log[..n]).kvs, k))
                            == Lookup(ApplyAll(EMPTY, log[..n]).kvs, k)
  {
    var start := Fuzzy(log, i, j);
    var exact := ApplyAll(EMPTY, log[..n]);
    var got := ApplyAll(start, log[i..n]);
    PrefixState(log, i, n);
    PrefixState(log, n, j);
    MetaIgnoresMap(start, ApplyAll(EMPTY, log[..i]), log[i..n]);
    forall k
      ensures Lookup(got.kvs, k) == Lookup(exact.kvs, k) <==>
              (LastEffect(log[i..n], k).Untouched? ==> After(LastEffect(log[n..j], k), Lookup(exact.kvs, k)) == Lookup(exact.kvs, k))
    {
      LastWriteWins(start, log[i..n], k);
      LastWriteWins(exact, log[n..j], k);
      LastWriteWins(ApplyAll(EMPTY, log[..i]), log[i..n], k);
    }
    if forall k :: Lookup(got.kvs, k) == Lookup(exact.kvs, k) {
      MapsAgree(got.kvs, exact.kvs);
    }
  }

  // ---- batching ----

  function Flatten(batches: seq<seq<Entry>>): seq<Entry> {
    if batches == [] then [] else Flatten(batches[..|batches| - 1]) + batches[|batches| - 1]
  }

  function ApplyBatches(s: State, batches: seq<seq<Entry>>): State {
    if batches == [] then s
    else ApplyAll(ApplyBatches(s, batches[..|batches| - 1]), batches[|batches| - 1])
  }

  function BatchReplies(batches: seq<seq<Entry>>): seq<Option<string>> {
    if batches == [] then []
    else BatchReplies(batches[..|batches| - 1]) + RepliesOf(batches[|batches| - 1])
  }

  lemma RepliesConcat(a: seq<Entry>, b: seq<Entry>)
    ensures RepliesOf(a + b) == RepliesOf(a) + RepliesOf(b)
  {
  }

  /** How the committed log is cut into `apply` calls changes neither state nor replies. */
  lemma {:induction false} BatchingIsInvisible(s: State, batches: seq<seq<Entry>>)
    ensures ApplyBatches(s, batches) == ApplyAll(s, Flatten(batches))
    ensures BatchReplies(batches) == RepliesOf(Flatten(batches))
  {
    if batches != [] {
      var init, last := batches[..|batches| - 1], batches[|batches| - 1];
      BatchingIsInvisible(s, init);
      ApplyAllConcat(s, Flatten(init), last);
      RepliesConcat(Flatten(init), last);
    }
  }
}
