/** The event loop over the storage: what the loop writes, in any number of process lives that each
    end at any write, is a run of `RaftRuns`; so that module's theorems hold of the loop. */
module LoopStorage {
  import opened RaftTypes
  import opened RaftStorage
  import opened RaftRuns
  import opened EventLoop
  import opened SavedCommit
  import opened SavedRecords

  /** The storage calls among the loop's effects, in order. */
  function Calls(effects: seq<Effect>): seq<Event> {
    if effects == [] then []
    else
      var last := effects[|effects| - 1];
      Calls(effects[..|effects| - 1]) + (if last.Store? then [last.call] else [])
  }

  lemma {:induction false} CallsConcat(a: seq<Effect>, b: seq<Effect>)
    ensures Calls(a + b) == Calls(a) + Calls(b)
  {
    if b == [] {
      assert a + b == a;
    } else {
      assert (a + b)[..|a + b| - 1] == a + b[..|b| - 1];
      CallsConcat(a, b[..|b| - 1]);
    }
  }

  lemma CallsOfOne(e: Effect)
    ensures Calls([e]) == if e.Store? then [e.call] else []
  {
    assert [e][..0] == [];
  }

  lemma CallsOfAtMostOne(es: seq<Effect>)
    requires |es| <= 1
    ensures Calls(es) == if es != [] && es[0].Store? then [es[0].call] else []
  {
    if es != [] {
      assert es == [es[0]];
      CallsOfOne(es[0]);
    }
  }

  /** All calls so far: those of earlier processes, then this one's. */
  function Written(past: seq<Event>, b: Books): seq<Event> {
    past + Calls(b.effects)
  }

  lemma WrittenMessage(past: seq<Event>, b: Books, m: Message)
    ensures Written(past, OnMessage(b, m)) == Written(past, b)
  {
    var more := OnMessage(b, m).effects[|b.effects|..];
    assert OnMessage(b, m).effects == b.effects + more;
    CallsConcat(b.effects, more);
    CallsOfAtMostOne(more);
  }

  lemma WrittenSaved(past: seq<Event>, b: Books, calls: seq<Event>)
    requires |calls| <= 1
    ensures Written(past, Saved(b, calls)) == Written(past, b) + calls
  {
    var more := if calls == [] then [] else [Store(calls[0])];
    assert Saved(b, calls).effects == b.effects + more;
    CallsConcat(b.effects, more);
    CallsOfAtMostOne(more);
    assert Calls(b.effects + more) == Calls(b.effects) + calls;
  }

  function ConfCall(e: CommittedEntry): seq<Event> {
    if e.conf.Some? then [SaveConf(e.conf.value)] else []
  }

  function CutCall(b: Books): seq<Event> {
    if b.entryNum % 1000 == 0 then [Snapshot] else []
  }

  lemma CallsOfParts(a: seq<Effect>, p: seq<Effect>, q: seq<Effect>, r: seq<Effect>, t: seq<Effect>)
    ensures Calls(a + p + q + r + t) == Calls(a) + Calls(p) + Calls(q) + Calls(r) + Calls(t)
  {
    hide Calls;
    CallsConcat(a, p);
    CallsConcat(a + p, q);
    CallsConcat(a + p + q, r);
    CallsConcat(a + p + q + r, t);
  }

  /** Handling one committed entry: all of its effects but the answer are calls. */
  lemma CommittedCalls(b: Books, e: CommittedEntry)
      returns (begin: seq<Effect>, conf: seq<Effect>, commit: seq<Effect>, answers: seq<Effect>, cuts: seq<Effect>)
    ensures OnCommitted(b, e).effects == b.effects + begin + conf + commit + answers + cuts
    ensures Calls(begin) == [Begin(e.index)] && Calls(conf) == ConfCall(e) && Calls(commit) == [Commit(e.index)]
    ensures Calls(answers) == [] && Calls(cuts) == CutCall(b)
  {
    begin, conf, commit, answers, cuts := CommittedParts(b, e);
    hide Calls;
    CallsOfAtMostOne(begin);
    CallsOfAtMostOne(conf);
    CallsOfAtMostOne(commit);
    CallsOfAtMostOne(answers);
    CallsOfAtMostOne(cuts);
  }

  lemma WrittenCommitted(past: seq<Event>, b: Books, e: CommittedEntry)
    ensures Written(past, OnCommitted(b, e))
         == Written(past, b) + [Begin(e.index)] + ConfCall(e) + [Commit(e.index)] + CutCall(b)
  {
    hide Calls, OnCommitted, ConfCall, CutCall;
    var begin, conf, commit, answers, cuts := CommittedCalls(b, e);
    CallsConcat(b.effects, begin);
    CallsOfParts(b.effects + begin, conf, commit, answers, cuts);
    var calls := Calls(b.effects) + [Begin(e.index)];
    assert past + (calls + ConfCall(e) + [Commit(e.index)] + [] + CutCall(b))
        == past + Calls(b.effects) + [Begin(e.index)] + ConfCall(e) + [Commit(e.index)] + CutCall(b);
  }

  // ---- what the library delivers ----

  ghost predicate Follow(es: seq<CommittedEntry>, applied: nat) {
    forall i | 0 <= i < |es| :: es[i].index == applied + 1 + i
  }

  /** raft-rs's side: a batch above the commit point without a gap; then the next committed
      entries; commit indices between what was handed out and the end of the log. */
  ghost predicate Delivers(h: History, r: Ready) {
    && Enabled(h, Append(r.entries))
    && var log := StepHistory(h, Append(r.entries), 0).log;
       var handled := h.applied + |r.committed|;
    && Follow(r.committed, h.applied) && handled <= |log|
    && (r.hs.Some? ==> handled <= r.hs.value.commit <= |log|)
    && (r.commit.Some? ==> handled <= r.commit.value <= |log|)
    && Follow(r.light, handled) && handled + |r.light| <= |log|
  }

  /** Where a run stands: its log and commit loop, and the hard state and conf state on disk. */
  datatype Standing = Standing(log: seq<LogEntry>, applied: nat, begun: bool, term: nat, vote: nat, commit: nat, conf: ConfState)

  ghost function StandingOf(evs: seq<Event>): Standing {
    var h, d := Run(evs).history, Run(evs).core.disk;
    Standing(h.log, h.applied, h.begun, d.hard.term, d.hard.vote, d.hard.commit, d.conf)
  }

  ghost predicate Stands(evs: seq<Event>, s: Standing) {
    ValidRun(evs) && StandingOf(evs) == s
  }

  function TermIn(log: seq<LogEntry>, idx: nat): nat {
    if 1 <= idx <= |log| then log[idx - 1].term else 0
  }

  function Moved(s: Standing, ev: Event): Standing {
    match ev
    case Append(es) => if es == [] then s else s.(log := CutAndExtend(s.log, es))
    case Begin(_) => s.(begun := true)
    case Commit(idx) => s.(applied := idx, begun := false, commit := idx, term := TermIn(s.log, idx))
    case SaveHard(hs) => s.(term := hs.term, vote := hs.vote, commit := hs.commit)
    case SetCommit(commit) => s.(commit := commit)
    case SaveConf(cs) => s.(conf := cs)
    case _ => s
  }

  lemma StandsSnoc(evs: seq<Event>, ev: Event, s: Standing)
    requires Stands(evs, s) && Enabled(Run(evs).history, ev) && !IsRestart(ev)
    ensures Stands(evs + [ev], Moved(s, ev))
  {
    Extend(evs, ev);
    HardStateStep(evs, ev);
    RecordStep(evs, ev);
    hide Step, Enabled, Run, ValidRun, CutAndExtend;
  }

  lemma StandsIs(evs: seq<Event>, s: Standing)
    requires Stands(evs, s)
    ensures var h := Run(evs).history; h.log == s.log && h.applied == s.applied && h.begun == s.begun
  {
  }

  lemma StandsOptional(evs: seq<Event>, calls: seq<Event>, s: Standing)
    requires Stands(evs, s) && |calls| <= 1
    requires calls == [] || calls[0].SaveConf? || calls[0].Snapshot?
      || (calls[0].SaveHard? && s.applied <= calls[0].hs.commit <= |s.log|)
      || (calls[0].SetCommit? && s.applied <= calls[0].commit <= |s.log|)
    ensures Stands(evs + calls, if calls == [] then s else Moved(s, calls[0]))
  {
    StandsIs(evs, s);
    hide Stands;
    if calls == [] {
      assert evs + calls == evs;
    } else {
      assert calls == [calls[0]];
      StandsSnoc(evs, calls[0], s);
    }
  }

  /** The conf state of the last entry that changes it. */
  function ConfAfter(es: seq<CommittedEntry>, conf: ConfState): ConfState {
    if es == [] then conf
    else if es[|es| - 1].conf.Some? then es[|es| - 1].conf.value
    else ConfAfter(es[..|es| - 1], conf)
  }

  /** After handling the next `es`: the commit loop and the saved commit index stand at the last
      of them, the saved term is its term, the vote is untouched. */
  function Handled(s: Standing, es: seq<CommittedEntry>): Standing {
    if es == [] then s
    else
      var to := s.applied + |es|;
      s.(applied := to, commit := to, term := TermIn(s.log, to), conf := ConfAfter(es, s.conf))
  }

  lemma ConfOfOne(e: CommittedEntry, conf: ConfState)
    ensures ConfAfter([e], conf) == if e.conf.Some? then e.conf.value else conf
  {
    var one := [e];
    assert one[..|one| - 1] == [];
  }

  lemma BeginStands(evs: seq<Event>, idx: U64, s: Standing)
    requires Stands(evs, s) && !s.begun && idx == s.applied + 1 <= |s.log|
    ensures Stands(evs + [Begin(idx)], s.(begun := true))
  {
    StandsIs(evs, s);
    hide Stands, Run, ValidRun;
    StandsSnoc(evs, Begin(idx), s);
  }

  lemma CommitStands(evs: seq<Event>, idx: U64, s: Standing)
    requires Stands(evs, s) && s.begun && idx == s.applied + 1
    ensures Stands(evs + [Commit(idx)], s.(applied := idx, begun := false, commit := idx, term := TermIn(s.log, idx)))
  {
    StandsIs(evs, s);
    hide Stands, Run, ValidRun;
    StandsSnoc(evs, Commit(idx), s);
  }

  lemma ConfStands(evs: seq<Event>, e: CommittedEntry, s: Standing)
    requires Stands(evs, s)
    ensures Stands(evs + ConfCall(e), s.(conf := if e.conf.Some? then e.conf.value else s.conf))
  {
    hide Stands, Run, ValidRun;
    StandsOptional(evs, ConfCall(e), s);
  }

  lemma CutStands(evs: seq<Event>, cut: seq<Event>, s: Standing)
    requires Stands(evs, s) && (cut == [] || cut == [Snapshot])
    ensures Stands(evs + cut, s)
  {
    hide Stands, Run, ValidRun;
    StandsOptional(evs, cut, s);
  }

  /** The calls of one committed entry, one after the other. */
  lemma CallsStand(evs: seq<Event>, e: CommittedEntry, cut: seq<Event>, s: Standing)
    requires Stands(evs, s) && !s.begun && e.index == s.applied + 1 <= |s.log|
    requires cut == [] || cut == [Snapshot]
    ensures Stands(evs + [Begin(e.index)] + ConfCall(e) + [Commit(e.index)] + cut, Handled(s, [e]))
  {
    var conf := if e.conf.Some? then e.conf.value else s.conf;
    var done := s.(applied := e.index, commit := e.index, term := TermIn(s.log, e.index), conf := conf);
    assert Handled(s, [e]) == done by { ConfOfOne(e, s.conf); }
    hide *;
    var evs1 := evs + [Begin(e.index)];
    BeginStands(evs, e.index, s);
    ConfStands(evs1, e, s.(begun := true));
    CommitStands(evs1 + ConfCall(e), e.index, s.(begun := true, conf := conf));
    CutStands(evs1 + ConfCall(e) + [Commit(e.index)], cut, done);
  }

  lemma CommittedValid(past: seq<Event>, b: Books, e: CommittedEntry, s: Standing)
    requires Stands(Written(past, b), s) && !s.begun && e.index == s.applied + 1 <= |s.log|
    ensures Stands(Written(past, OnCommitted(b, e)), Handled(s, [e]))
  {
    assert CutCall(b) == [] || CutCall(b) == [Snapshot];
    hide *;
    WrittenCommitted(past, b, e);
    CallsStand(Written(past, b), e, CutCall(b), s);
  }

  lemma HandledSnoc(s: Standing, es: seq<CommittedEntry>)
    requires es != []
    ensures Handled(Handled(s, es[..|es| - 1]), [es[|es| - 1]]) == Handled(s, es)
  {
    ConfOfOne(es[|es| - 1], Handled(s, es[..|es| - 1]).conf);
  }

  lemma {:induction false} AllCommittedValid(past: seq<Event>, b: Books, es: seq<CommittedEntry>, s: Standing)
    requires Stands(Written(past, b), s) && !s.begun && Follow(es, s.applied) && s.applied + |es| <= |s.log|
    ensures Stands(Written(past, OnAllCommitted(b, es)), Handled(s, es))
  {
    hide Stands, Written, OnCommitted;
    if es != [] {
      AllCommittedValid(past, b, es[..|es| - 1], s);
      CommittedValid(past, OnAllCommitted(b, es[..|es| - 1]), es[|es| - 1], Handled(s, es[..|es| - 1]));
      HandledSnoc(s, es);
    }
  }

  lemma EntriesValid(past: seq<Event>, b: Books, r: Ready, s: Standing)
    requires Stands(Written(past, b), s) && Enabled(Run(Written(past, b)).history, Append(r.entries))
    ensures Stands(Written(past, Saved(b, EntriesCall(r))), s.(log := LogAfter(s.log, r)))
  {
    hide Written, Enabled, Stands, Saved, Run;
    var evs := Written(past, b);
    WrittenSaved(past, b, EntriesCall(r));
    if r.entries == [] {
      assert evs + [] == evs;
    } else {
      StandsSnoc(evs, Append(r.entries), s);
    }
  }

  function LogAfter(log: seq<LogEntry>, r: Ready): seq<LogEntry> {
    if r.entries == [] then log else CutAndExtend(log, r.entries)
  }

  /** A run that stands between two entries of the commit loop. */
  ghost predicate Between(evs: seq<Event>) {
    ValidRun(evs) && !Run(evs).history.begun
  }

  /** What one ready leaves: its entries in the log, every committed entry handled; on disk the
      vote of its hard state, if it has one; the commit index and term of the last thing it brought, in
      the order light entries, light commit index, hard state, committed entries; the last
      accepted conf state. */
  ghost predicate Leaves(s: Standing, r: Ready, t: Standing) {
    var log := LogAfter(s.log, r);
    var handled := s.applied + |r.committed|;
    && t.log == log && t.applied == handled + |r.light| && !t.begun
    && t.vote == (if r.hs.Some? then r.hs.value.vote else s.vote)
    && t.commit == (
         if r.light != [] then handled + |r.light|
         else if r.commit.Some? then r.commit.value
         else if r.hs.Some? then r.hs.value.commit
         else if r.committed != [] then handled
         else s.commit)
    && t.term == (
         if r.light != [] then TermIn(log, handled + |r.light|)
         else if r.hs.Some? then r.hs.value.term
         else if r.committed != [] then TermIn(log, handled)
         else s.term)
    && t.conf == ConfAfter(r.light, ConfAfter(r.committed, s.conf))
  }

  /** One ready extends the run by valid steps, and leaves what it should. */
  lemma ReadyValid(past: seq<Event>, b: Books, r: Ready)
    requires Between(Written(past, b)) && Delivers(Run(Written(past, b)).history, r)
    ensures Between(Written(past, AfterReady(b, r)))
    ensures Leaves(StandingOf(Written(past, b)), r, StandingOf(Written(past, AfterReady(b, r))))
  {
    var s := StandingOf(Written(past, b));
    assert Stands(Written(past, b), s) && !s.begun;
    assert AfterReady(b, r) == OnAllCommitted(AfterFirst(b, r), r.light);
    hide *;
    FirstStands(past, b, r, s);
    AllCommittedStands(past, b, r, s);
    LeavesAll(s, r);
    AllCommittedValid(past, AfterFirst(b, r), r.light, FirstStanding(s, r));
    StandsMeans(Written(past, AfterReady(b, r)), Handled(FirstStanding(s, r), r.light));
    LeavesIsBetween(s, r, Handled(FirstStanding(s, r), r.light));
  }

  /** Before the light entries. */
  function AfterFirst(b: Books, r: Ready): Books {
    Saved(Saved(OnAllCommitted(Saved(b, EntriesCall(r)), r.committed), HardStateCall(r)), CommitCall(r))
  }

  function FirstStanding(s: Standing, r: Ready): Standing {
    var s2 := Handled(s.(log := LogAfter(s.log, r)), r.committed);
    var s3 := if r.hs.Some? then Moved(s2, SaveHard(r.hs.value)) else s2;
    if r.commit.Some? then Moved(s3, SetCommit(r.commit.value)) else s3
  }

  lemma FirstStands(past: seq<Event>, b: Books, r: Ready, s: Standing)
    requires Stands(Written(past, b), s) && !s.begun && Delivers(Run(Written(past, b)).history, r)
    ensures Stands(Written(past, AfterFirst(b, r)), FirstStanding(s, r))
  {
    AllCommittedStands(past, b, r, s);
    hide Written, Saved, OnAllCommitted, Stands, LogAfter, Delivers, Run;
    var s2 := Handled(s.(log := LogAfter(s.log, r)), r.committed);
    var b2 := OnAllCommitted(Saved(b, EntriesCall(r)), r.committed);
    WrittenSaved(past, b2, HardStateCall(r));
    StandsOptional(Written(past, b2), HardStateCall(r), s2);
    var b3 := Saved(b2, HardStateCall(r));
    var s3 := if r.hs.Some? then Moved(s2, SaveHard(r.hs.value)) else s2;
    WrittenSaved(past, b3, CommitCall(r));
    StandsOptional(Written(past, b3), CommitCall(r), s3);
  }

  lemma StandsMeans(evs: seq<Event>, s: Standing)
    requires Stands(evs, s)
    ensures StandingOf(evs) == s && (!s.begun ==> Between(evs))
  {
  }

  lemma LeavesAll(s: Standing, r: Ready)
    requires !s.begun
    ensures Leaves(s, r, Handled(FirstStanding(s, r), r.light))
    ensures var s4 := FirstStanding(s, r);
      s4.log == LogAfter(s.log, r) && s4.applied == s.applied + |r.committed| && !s4.begun
  {
    hide CutAndExtend;
  }

  lemma LeavesIsBetween(s: Standing, r: Ready, t: Standing)
    requires Leaves(s, r, t)
    ensures !t.begun
  {
  }

  lemma AllCommittedStands(past: seq<Event>, b: Books, r: Ready, s: Standing)
    requires Stands(Written(past, b), s) && !s.begun && Delivers(Run(Written(past, b)).history, r)
    ensures var s1 := s.(log := LogAfter(s.log, r));
      && Stands(Written(past, OnAllCommitted(Saved(b, EntriesCall(r)), r.committed)), Handled(s1, r.committed))
      && s.applied + |r.committed| + |r.light| <= |s1.log|
      && (r.hs.Some? ==> s.applied + |r.committed| <= r.hs.value.commit <= |s1.log|)
      && (r.commit.Some? ==> s.applied + |r.committed| <= r.commit.value <= |s1.log|)
      && Follow(r.light, s.applied + |r.committed|)
  {
    StandsIs(Written(past, b), s);
    hide Stands, Written, Saved, OnAllCommitted, Run;
    EntriesValid(past, b, r, s);
    AllCommittedValid(past, Saved(b, EntriesCall(r)), r.committed, s.(log := LogAfter(s.log, r)));
  }

  // ---- turns and process lives ----

  function AfterInput(b: Books, t: Turn): Books {
    if t.input.Received? then OnMessage(b, t.input.message) else b
  }

  /** In every turn of the loop the library keeps its side. */
  ghost predicate DeliversAll(past: seq<Event>, b: Books, ts: seq<Turn>)
    decreases |ts|
  {
    ts == [] || ts[0].stop ||
    (&& (!ts[0].input.Closed? && ts[0].ready.Some? ==>
           Delivers(Run(Written(past, AfterInput(b, ts[0]))).history, ts[0].ready.value))
     && DeliversAll(past, OnTurn(b, ts[0]), ts[1..]))
  }

  /** The readies that the loop gets to, in order. */
  function Readies(ts: seq<Turn>): seq<Ready>
    decreases |ts|
  {
    if ts == [] || ts[0].stop then []
    else (if !ts[0].input.Closed? && ts[0].ready.Some? then [ts[0].ready.value] else []) + Readies(ts[1..])
  }

  /** The standing goes through one ready after the other. */
  ghost predicate LeavesInTurn(s: Standing, rs: seq<Ready>, t: Standing)
    decreases |rs|
  {
    if rs == [] then t == s else exists u :: Leaves(s, rs[0], u) && LeavesInTurn(u, rs[1..], t)
  }

  /** The loop's writes are a run in which every ready leaves what it should. */
  lemma {:induction false} TurnsValid(past: seq<Event>, b: Books, ts: seq<Turn>)
    requires Between(Written(past, b)) && DeliversAll(past, b, ts)
    ensures Between(Written(past, OnTurns(b, ts)))
    ensures LeavesInTurn(StandingOf(Written(past, b)), Readies(ts), StandingOf(Written(past, OnTurns(b, ts))))
    decreases |ts|
  {
    hide Written, Between, Delivers, OnMessage, AfterReady, StandingOf, Leaves;
    if ts != [] && !ts[0].stop {
      var t := ts[0];
      if t.input.Received? {
        WrittenMessage(past, b, t.input.message);
      }
      if !t.input.Closed? && t.ready.Some? {
        ReadyValid(past, AfterInput(b, t), t.ready.value);
        assert Readies(ts)[0] == t.ready.value && Readies(ts)[1..] == Readies(ts[1..]);
        assert Leaves(StandingOf(Written(past, b)), t.ready.value, StandingOf(Written(past, OnTurn(b, t))));
      } else {
        assert Readies(ts) == Readies(ts[1..]);
        assert Written(past, OnTurn(b, t)) == Written(past, b);
      }
      TurnsValid(past, OnTurn(b, t), ts[1..]);
    }
  }

  /** The vote of the last ready that brings a hard state. */
  function VoteAfter(rs: seq<Ready>, vote: nat): nat
    decreases |rs|
  {
    if rs == [] then vote else VoteAfter(rs[1..], if rs[0].hs.Some? then rs[0].hs.value.vote else vote)
  }

  function CountOf(rs: seq<Ready>): nat
    decreases |rs|
  {
    if rs == [] then 0 else |rs[0].committed| + |rs[0].light| + CountOf(rs[1..])
  }

  lemma {:induction false} VoteIsKept(s: Standing, rs: seq<Ready>, t: Standing)
    requires LeavesInTurn(s, rs, t)
    ensures t.vote == VoteAfter(rs, s.vote) && t.applied == s.applied + CountOf(rs)
    decreases |rs|
  {
    if rs != [] {
      var u :| Leaves(s, rs[0], u) && LeavesInTurn(u, rs[1..], t);
      VoteIsKept(u, rs[1..], t);
    }
  }

  /** After any number of turns the vote on disk is the last one the library handed out, or the
      old one, and the commit loop has handled every committed entry it handed out. */
  lemma TurnsLeave(past: seq<Event>, b: Books, ts: seq<Turn>)
    requires Between(Written(past, b)) && DeliversAll(past, b, ts)
    ensures var was, now := Run(Written(past, b)), Run(Written(past, OnTurns(b, ts)));
      && now.core.disk.hard.vote == VoteAfter(Readies(ts), was.core.disk.hard.vote)
      && now.history.applied == was.history.applied + CountOf(Readies(ts))
  {
    TurnsValid(past, b, ts);
    VoteIsKept(StandingOf(Written(past, b)), Readies(ts), StandingOf(Written(past, OnTurns(b, ts))));
  }

  /** One process: `new_node` saves the voters, the loop takes its turns, and the process ends
      after `calls` of its storage calls and `puts` writes of the next. */
  datatype Life = Life(conf: ConfState, turns: seq<Turn>, calls: nat, puts: nat)

  function CallsIn(life: Life): seq<Event> {
    [SaveConf(life.conf)] + Calls(OnTurns(OPENED, life.turns).effects)
  }

  /** A process that ends after `puts` writes of `call`, as far as it has an inside. */
  function Ending(call: Event, puts: nat): Event {
    if puts == 0 then Restart
    else
      match call
      case Append(es) => CrashInAppend(es, Min(puts, 2 * |es|))
      case Commit(idx) => CrashInCommit(idx)
      case Snapshot => CrashInSnapshot
      case _ => Restart
  }

  /** What one life writes, its end included. */
  function Lived(life: Life): seq<Event> {
    var all := CallsIn(life);
    if life.calls < |all| then all[..life.calls] + [Ending(all[life.calls], life.puts)] else all + [Restart]
  }

  function AllCalls(lives: seq<Life>): seq<Event> {
    if lives == [] then [] else AllCalls(lives[..|lives| - 1]) + Lived(lives[|lives| - 1])
  }

  ghost predicate DeliversInAll(lives: seq<Life>) {
    lives == [] ||
    var before, life := lives[..|lives| - 1], lives[|lives| - 1];
    DeliversInAll(before) && DeliversAll(AllCalls(before) + [SaveConf(life.conf)], OPENED, life.turns)
  }

  lemma LifeValid(past: seq<Event>, life: Life)
    requires Between(past) && DeliversAll(past + [SaveConf(life.conf)], OPENED, life.turns)
    ensures ValidRun(past + CallsIn(life))
  {
    hide DeliversAll, ValidRun, OnTurns;
    var start := past + [SaveConf(life.conf)];
    Extend(past, SaveConf(life.conf));
    assert Written(start, OPENED) == start;
    TurnsValid(start, OPENED, life.turns);
    assert Written(start, OnTurns(OPENED, life.turns)) == past + CallsIn(life);
  }

  /** Wherever a run may make a call, the process may also end inside it. */
  lemma EndValid(evs: seq<Event>, call: Event, puts: nat)
    requires ValidRun(evs) && Enabled(Run(evs).history, call) && (call.Append? ==> call.entries != [])
    ensures Between(evs + [Ending(call, puts)])
  {
    hide Run, ValidRun;
    EndEnabled(Run(evs).history, call, puts);
    hide Enabled, Ending, Step;
    Extend(evs, Ending(call, puts));
  }

  lemma EndEnabled(h: History, call: Event, puts: nat)
    requires Enabled(h, call) && (call.Append? ==> call.entries != [])
    ensures Enabled(h, Ending(call, puts)) && IsRestart(Ending(call, puts))
  {
  }

  lemma LivedValid(past: seq<Event>, life: Life)
    requires ValidRun(past + CallsIn(life))
    requires forall ev | ev in CallsIn(life) && ev.Append? :: ev.entries != []
    ensures Between(past + Lived(life))
  {
    var all := CallsIn(life);
    hide CallsIn, ValidRun, Ending, Between, Enabled;
    if life.calls < |all| {
      var to := |past| + life.calls;
      var evs := past + all;
      assert evs[..to] == past + all[..life.calls] && evs[..to + 1] == evs[..to] + [all[life.calls]];
      PrefixIsValid(evs, to);
      PrefixIsValid(evs, to + 1);
      LastIsEnabled(evs[..to], all[life.calls]);
      EndValid(evs[..to], all[life.calls], life.puts);
      assert past + Lived(life) == evs[..to] + [Ending(all[life.calls], life.puts)];
    } else {
      Restarts(past + all);
      assert past + Lived(life) == past + all + [Restart];
    }
  }

  lemma LastIsEnabled(evs: seq<Event>, ev: Event)
    requires ValidRun(evs + [ev])
    ensures Enabled(Run(evs).history, ev)
  {
    hide Enabled;
    assert (evs + [ev])[..|evs + [ev]| - 1] == evs;
  }

  lemma Restarts(evs: seq<Event>)
    requires ValidRun(evs)
    ensures Between(evs + [Restart])
  {
    Extend(evs, Restart);
  }

  // ---- the loop never calls append without entries ----

  ghost predicate Proper(effects: seq<Effect>) {
    forall e | e in effects && e.Store? && e.call.Append? :: e.call.entries != []
  }

  lemma {:induction false} ProperAllCommitted(b: Books, es: seq<CommittedEntry>)
    requires Proper(b.effects)
    ensures Proper(OnAllCommitted(b, es).effects)
  {
    if es != [] {
      ProperAllCommitted(b, es[..|es| - 1]);
    }
  }

  lemma ProperReady(b: Books, r: Ready)
    requires Proper(b.effects)
    ensures Proper(AfterReady(b, r).effects)
  {
    var b1 := Saved(b, EntriesCall(r));
    ProperAllCommitted(b1, r.committed);
    var b2 := Saved(Saved(OnAllCommitted(b1, r.committed), HardStateCall(r)), CommitCall(r));
    ProperAllCommitted(b2, r.light);
  }

  lemma {:induction false} ProperTurns(b: Books, ts: seq<Turn>)
    requires Proper(b.effects)
    ensures Proper(OnTurns(b, ts).effects)
    decreases |ts|
  {
    hide AfterReady;
    if ts != [] && !ts[0].stop {
      if ts[0].ready.Some? && !ts[0].input.Closed? {
        ProperReady(AfterInput(b, ts[0]), ts[0].ready.value);
      }
      ProperTurns(OnTurn(b, ts[0]), ts[1..]);
    }
  }

  lemma {:induction false} ProperCalls(effects: seq<Effect>)
    requires Proper(effects)
    ensures forall ev | ev in Calls(effects) && ev.Append? :: ev.entries != []
  {
    if effects != [] {
      assert effects[|effects| - 1] in effects;
      ProperCalls(effects[..|effects| - 1]);
    }
  }

  lemma ProperLife(life: Life)
    ensures forall ev | ev in CallsIn(life) && ev.Append? :: ev.entries != []
  {
    ProperTurns(OPENED, life.turns);
    ProperCalls(OnTurns(OPENED, life.turns).effects);
  }

  /** As long as the library keeps its side, what the event loop writes over any number of
      process lives, each cut off between or inside its storage calls, is a run of the storage. */
  lemma {:induction false} LoopIsValid(lives: seq<Life>)
    requires DeliversInAll(lives)
    ensures Between(AllCalls(lives))
  {
    hide Lived, DeliversAll;
    if lives != [] {
      var before, life := lives[..|lives| - 1], lives[|lives| - 1];
      LoopIsValid(before);
      LifeValid(AllCalls(before), life);
      ProperLife(life);
      LivedValid(AllCalls(before), life);
    }
  }
}
