/** The raft-rs event loop (src/placement-center/src/raft/machine.rs): request bookkeeping, and the
    storage calls it makes in the order it makes them. */
module EventLoop {
  import opened RaftTypes
  import opened RaftStorage
  import RaftRuns

  /** The sending half of a request's own oneshot channel. */
  type Chan = nat

  /** A request, with the library's verdict on it. */
  datatype Message =
    | ConfChange(chan: Chan, accepted: bool)
    | Peer(chan: Chan, stepped: bool)
    | TransferLeader(chan: Chan)
    | Propose(chan: Chan, accepted: bool)

  /** A committed entry; `seqnum` is what its context decodes to, if it does, and `conf` the
      state after the configuration change it carries, if the library accepts one. */
  datatype CommittedEntry = CommittedEntry(index: U64, seqnum: Option<U64>, conf: Option<ConfState>)

  /** What the loop does to the outside, in order. Starting on a committed entry (routing its
      data, changing the peer list) is recorded as `Store(Begin(index))`. */
  datatype Effect = Answer(chan: Chan) | Drop(chan: Chan) | Store(call: RaftRuns.Event)

  const CUT := Store(RaftRuns.Snapshot)

  /** What the library hands out in one `Ready` and the `LightReady` after it. */
  datatype Ready = Ready(
    entries: seq<LogEntry>, committed: seq<CommittedEntry>, hs: Option<HardState>,
    commit: Option<U64>, light: seq<CommittedEntry>)

  datatype Books = Books(seqnum: U64, waiting: map<U64, Chan>, entryNum: U64, effects: seq<Effect>)

  const OPENED := Books(1, map[], 1, [])

  /** One pass of the loop. */
  datatype Input = Received(message: Message) | Closed | Timeout

  datatype Turn = Turn(stop: bool, input: Input, ready: Option<Ready>)

  // ---- specification ----

  /** Registers a waiter under the next number, or drops the channel of a refused proposal. */
  function Register(b: Books, chan: Chan, accepted: bool): Books {
    var number := b.seqnum;
    var next := b.(seqnum := WrapSucc(number));
    if !accepted then next.(effects := b.effects + [Drop(chan)])
    else next.(waiting := b.waiting[number := chan],
               effects := b.effects + (if number in b.waiting then [Drop(b.waiting[number])] else []))
  }

  function OnMessage(b: Books, m: Message): Books {
    match m
    case ConfChange(chan, accepted) => Register(b, chan, accepted)
    case Propose(chan, accepted) => Register(b, chan, accepted)
    case Peer(chan, stepped) => b.(effects := b.effects + [if stepped then Answer(chan) else Drop(chan)])
    case TransferLeader(chan) => b.(effects := b.effects + [Answer(chan)])
  }

  predicate HasWaiter(b: Books, e: CommittedEntry) {
    e.seqnum.Some? && e.seqnum.value in b.waiting
  }

  function OnCommitted(b: Books, e: CommittedEntry): Books {
    b.(waiting := if HasWaiter(b, e) then b.waiting - {e.seqnum.value} else b.waiting,
       entryNum := WrapSucc(b.entryNum),
       effects := b.effects
         + [Store(RaftRuns.Begin(e.index))]
         + (if e.conf.Some? then [Store(RaftRuns.SaveConf(e.conf.value))] else [])
         + [Store(RaftRuns.Commit(e.index))]
         + (if HasWaiter(b, e) then [Answer(b.waiting[e.seqnum.value])] else [])
         + (if b.entryNum % 1000 == 0 then [CUT] else []))
  }

  function OnAllCommitted(b: Books, es: seq<CommittedEntry>): Books {
    if es == [] then b else OnCommitted(OnAllCommitted(b, es[..|es| - 1]), es[|es| - 1])
  }

  function Saved(b: Books, calls: seq<RaftRuns.Event>): Books {
    b.(effects := b.effects + seq(|calls|, i requires 0 <= i < |calls| => Store(calls[i])))
  }

  function EntriesCall(r: Ready): seq<RaftRuns.Event> {
    if r.entries == [] then [] else [RaftRuns.Append(r.entries)]
  }

  function HardStateCall(r: Ready): seq<RaftRuns.Event> {
    if r.hs.Some? then [RaftRuns.SaveHard(r.hs.value)] else []
  }

  function CommitCall(r: Ready): seq<RaftRuns.Event> {
    if r.commit.Some? then [RaftRuns.SetCommit(r.commit.value)] else []
  }

  /** New entries, then committed ones, then the hard state; then the light part: the commit
      index before the entries that it commits. */
  function AfterReady(b: Books, r: Ready): Books {
    var first := OnAllCommitted(Saved(b, EntriesCall(r)), r.committed);
    OnAllCommitted(Saved(Saved(first, HardStateCall(r)), CommitCall(r)), r.light)
  }

  /** A closed request channel skips the rest of the turn. */
  function OnTurn(b: Books, t: Turn): Books {
    if t.input.Closed? then b
    else
      var received := if t.input.Received? then OnMessage(b, t.input.message) else b;
      if t.ready.Some? then AfterReady(received, t.ready.value) else received
  }

  /** The loop stops at the first turn that sees the stop signal. */
  function OnTurns(b: Books, ts: seq<Turn>): Books
    decreases |ts|
  {
    if ts == [] || ts[0].stop then b else OnTurns(OnTurn(b, ts[0]), ts[1..])
  }

  // ---- the loop ----

  class RaftMachine {
    var seqnum: U64
    var respChannel: map<U64, Chan>
    var entryNum: U64
    ghost var effects: seq<Effect>

    ghost function View(): Books
      reads this
    {
      Books(seqnum, respChannel, entryNum, effects)
    }

    constructor ()
      ensures View() == OPENED
    {
      seqnum := 1;
      respChannel := map[];
      entryNum := 1;
      effects := [];
    }

    /** A new request's channel gets one fate, and no other channel's fate changes. */
    method Receive(m: Message)
      modifies this
      ensures View() == OnMessage(old(View()), m)
      ensures forall received | Conserved(old(View()), received) && m.chan !in received ::
        Conserved(View(), received + {m.chan})
    {
      forall received | Conserved(View(), received) && m.chan !in received
        ensures Conserved(OnMessage(View(), m), received + {m.chan})
      {
        MessageConserves(View(), m, received);
      }
      hide Conserved;
      match m {
        case ConfChange(chan, accepted) => Enqueue(chan, accepted);
        case Propose(chan, accepted) => Enqueue(chan, accepted);
        case Peer(chan, stepped) =>
          effects := effects + [if stepped then Answer(chan) else Drop(chan)];
        case TransferLeader(chan) =>
          effects := effects + [Answer(chan)];
      }
    }

    method Enqueue(chan: Chan, accepted: bool)
      modifies this
      ensures View() == Register(old(View()), chan, accepted)
    {
      var number := seqnum;
      seqnum := WrapSucc(seqnum);
      if accepted {
        if number in respChannel {
          effects := effects + [Drop(respChannel[number])];
        }
        respChannel := respChannel[number := chan];
      } else {
        effects := effects + [Drop(chan)];
      }
    }

    method HandleCommittedEntries(entrys: seq<CommittedEntry>)
      modifies this
      ensures View() == OnAllCommitted(old(View()), entrys)
    {
      hide OnCommitted;
      for n := 0 to |entrys|
        invariant View() == OnAllCommitted(old(View()), entrys[..n])
      {
        HandleEntry(entrys[n]);
        assert entrys[..n + 1][..n] == entrys[..n];
      }
      assert entrys[..|entrys|] == entrys;
    }

    /** The body of the loop. */
    method HandleEntry(entry: CommittedEntry)
      modifies this
      ensures View() == OnCommitted(old(View()), entry)
    {
      effects := effects + [Store(RaftRuns.Begin(entry.index))];
      if entry.conf.Some? {
        effects := effects + [Store(RaftRuns.SaveConf(entry.conf.value))];
      }
      effects := effects + [Store(RaftRuns.Commit(entry.index))];
      if entry.seqnum.Some? && entry.seqnum.value in respChannel {
        effects := effects + [Answer(respChannel[entry.seqnum.value])];
        respChannel := respChannel - {entry.seqnum.value};
      }
      CountEntry();
    }

    /** `create_snapshot`: every thousandth committed entry cuts a snapshot. */
    method CountEntry()
      modifies this
      ensures entryNum == WrapSucc(old(entryNum)) && seqnum == old(seqnum) && respChannel == old(respChannel)
      ensures effects == old(effects) + (if old(entryNum) % 1000 == 0 then [CUT] else [])
    {
      var num := entryNum;
      entryNum := WrapSucc(entryNum);
      if num % 1000 == 0 {
        effects := effects + [CUT];
      }
    }

    method OnReady(r: Ready)
      modifies this
      ensures View() == AfterReady(old(View()), r)
    {
      hide OnAllCommitted;
      if r.entries != [] {
        effects := effects + [Store(RaftRuns.Append(r.entries))];
      }
      assert View() == Saved(old(View()), EntriesCall(r));
      HandleCommittedEntries(r.committed);
      ghost var first := View();
      if r.hs.Some? {
        effects := effects + [Store(RaftRuns.SaveHard(r.hs.value))];
      }
      assert View() == Saved(first, HardStateCall(r));
      ghost var second := View();
      if r.commit.Some? {
        effects := effects + [Store(RaftRuns.SetCommit(r.commit.value))];
      }
      assert View() == Saved(second, CommitCall(r));
      HandleCommittedEntries(r.light);
    }

    method Run(turns: seq<Turn>)
      modifies this
      ensures View() == OnTurns(old(View()), turns)
    {
      var at := 0;
      while at < |turns|
        invariant at <= |turns|
        invariant OnTurns(old(View()), turns) == OnTurns(View(), turns[at..])
      {
        var t := turns[at];
        if t.stop {
          return;
        }
        at := at + 1;
        if t.input.Closed? {
          continue;
        }
        if t.input.Received? {
          Receive(t.input.message);
        }
        if t.ready.Some? {
          OnReady(t.ready.value);
        }
      }
    }
  }

  // ---- waiter conservation ----

  function ChansOf(ts: seq<Turn>): seq<Chan>
    decreases |ts|
  {
    if ts == [] || ts[0].stop then []
    else (if ts[0].input.Received? then [ts[0].input.message.chan] else []) + ChansOf(ts[1..])
  }

  ghost predicate Distinct(cs: seq<Chan>) {
    forall i, j | 0 <= i < j < |cs| :: cs[i] != cs[j]
  }

  /** How often a channel is answered, dropped or waiting. */
  ghost function Fates(b: Books, chan: Chan): nat {
    multiset(b.effects)[Answer(chan)] + multiset(b.effects)[Drop(chan)] + (if chan in b.waiting.Values then 1 else 0)
  }

  ghost predicate WaitersDistinct(b: Books) {
    forall j, k | j in b.waiting && k in b.waiting && j != k :: b.waiting[j] != b.waiting[k]
  }

  /** Each received channel has exactly one fate, no other channel has any. */
  ghost predicate Conserved(b: Books, received: set<Chan>) {
    WaitersDistinct(b) && forall chan :: Fates(b, chan) == if chan in received then 1 else 0
  }

  lemma FatesOfEffects(b: Books, more: seq<Effect>, chan: Chan)
    ensures multiset(b.effects + more)[Answer(chan)] == multiset(b.effects)[Answer(chan)] + multiset(more)[Answer(chan)]
    ensures multiset(b.effects + more)[Drop(chan)] == multiset(b.effects)[Drop(chan)] + multiset(more)[Drop(chan)]
  {
    assert multiset(b.effects + more) == multiset(b.effects) + multiset(more);
  }

  lemma RegisterConserves(b: Books, newcomer: Chan, accepted: bool, received: set<Chan>)
    requires Conserved(b, received) && newcomer !in received
    ensures Conserved(Register(b, newcomer, accepted), received + {newcomer})
  {
    var b' := Register(b, newcomer, accepted);
    assert Fates(b, newcomer) == 0;
    forall chan ensures Fates(b', chan) == if chan in received + {newcomer} then 1 else 0 {
      assert Fates(b, chan) == if chan in received then 1 else 0;
      WaitersAfterRegister(b, newcomer, accepted, chan);
      RegisterEffects(b, newcomer, accepted, chan);
    }
  }

  lemma RegisterEffects(b: Books, newcomer: Chan, accepted: bool, chan: Chan)
    ensures var b' := Register(b, newcomer, accepted);
      && multiset(b'.effects)[Answer(chan)] == multiset(b.effects)[Answer(chan)]
      && multiset(b'.effects)[Drop(chan)] == multiset(b.effects)[Drop(chan)]
           + (if (if accepted then b.seqnum in b.waiting && b.waiting[b.seqnum] == chan else chan == newcomer) then 1 else 0)
  {
    var replaced := if b.seqnum in b.waiting then [Drop(b.waiting[b.seqnum])] else [];
    var more := if accepted then replaced else [Drop(newcomer)];
    assert Register(b, newcomer, accepted).effects == b.effects + more;
    FatesOfEffects(b, more, chan);
  }

  lemma MessageConserves(b: Books, m: Message, received: set<Chan>)
    requires Conserved(b, received) && m.chan !in received
    ensures Conserved(OnMessage(b, m), received + {m.chan})
  {
    if m.ConfChange? || m.Propose? {
      RegisterConserves(b, m.chan, m.accepted, received);
    } else {
      var b' := OnMessage(b, m);
      var effect := if m.Peer? && !m.stepped then Drop(m.chan) else Answer(m.chan);
      assert Fates(b, m.chan) == 0;
      forall chan ensures Fates(b', chan) == if chan in received + {m.chan} then 1 else 0 {
        assert Fates(b, chan) == if chan in received then 1 else 0;
        FatesOfEffects(b, [effect], chan);
      }
    }
  }

  lemma WaitersAfterRegister(b: Books, newcomer: Chan, accepted: bool, chan: Chan)
    requires WaitersDistinct(b) && newcomer !in b.waiting.Values
    ensures var after := Register(b, newcomer, accepted).waiting;
      chan in after.Values <==>
        if !accepted then chan in b.waiting.Values
        else chan == newcomer || (chan in b.waiting.Values && !(b.seqnum in b.waiting && b.waiting[b.seqnum] == chan))
  {
    var after := Register(b, newcomer, accepted).waiting;
    if accepted {
      assert after[b.seqnum] == newcomer;
      if chan in b.waiting.Values {
        var k :| k in b.waiting && b.waiting[k] == chan;
        if k != b.seqnum { assert after[k] == chan; }
      }
    }
  }

  lemma WaitersAfterCommit(b: Books, e: CommittedEntry, chan: Chan)
    requires WaitersDistinct(b)
    ensures WaitersDistinct(OnCommitted(b, e))
    ensures chan in OnCommitted(b, e).waiting.Values <==>
      chan in b.waiting.Values && !(HasWaiter(b, e) && chan == b.waiting[e.seqnum.value])
  {
    var after := OnCommitted(b, e).waiting;
    if chan in b.waiting.Values && !(HasWaiter(b, e) && chan == b.waiting[e.seqnum.value]) {
      var k :| k in b.waiting && b.waiting[k] == chan;
      assert after[k] == chan;
    }
  }

  lemma CountAtMostOne(es: seq<Effect>, x: Effect)
    requires |es| <= 1
    ensures multiset(es)[x] == if es != [] && es[0] == x then 1 else 0
  {
    if es != [] { assert es == [es[0]]; }
  }

  lemma CountParts(a: seq<Effect>, p: seq<Effect>, q: seq<Effect>, r: seq<Effect>, t: seq<Effect>, u: seq<Effect>, x: Effect)
    ensures multiset(a + p + q + r + t + u)[x]
         == multiset(a)[x] + multiset(p)[x] + multiset(q)[x] + multiset(r)[x] + multiset(t)[x] + multiset(u)[x]
  {
  }

  lemma CommittedParts(b: Books, e: CommittedEntry)
      returns (begin: seq<Effect>, conf: seq<Effect>, commit: seq<Effect>, answers: seq<Effect>, cuts: seq<Effect>)
    ensures OnCommitted(b, e).effects == b.effects + begin + conf + commit + answers + cuts
    ensures begin == [Store(RaftRuns.Begin(e.index))] && commit == [Store(RaftRuns.Commit(e.index))]
    ensures conf == if e.conf.Some? then [Store(RaftRuns.SaveConf(e.conf.value))] else []
    ensures answers == if HasWaiter(b, e) then [Answer(b.waiting[e.seqnum.value])] else []
    ensures cuts == if b.entryNum % 1000 == 0 then [CUT] else []
  {
    begin := [Store(RaftRuns.Begin(e.index))];
    conf := if e.conf.Some? then [Store(RaftRuns.SaveConf(e.conf.value))] else [];
    commit := [Store(RaftRuns.Commit(e.index))];
    answers := if HasWaiter(b, e) then [Answer(b.waiting[e.seqnum.value])] else [];
    cuts := if b.entryNum % 1000 == 0 then [CUT] else [];
  }

  /** How often an effect other than a call for the entry itself occurs. */
  lemma CommittedCount(b: Books, e: CommittedEntry, x: Effect)
    requires x == CUT || !x.Store?
    ensures multiset(OnCommitted(b, e).effects)[x] == multiset(b.effects)[x]
      + (if HasWaiter(b, e) && x == Answer(b.waiting[e.seqnum.value]) then 1 else 0)
      + (if x == CUT && b.entryNum % 1000 == 0 then 1 else 0)
  {
    var waits := HasWaiter(b, e);
    var begin, conf, commit, answers, cuts := CommittedParts(b, e);
    var effects := OnCommitted(b, e).effects;
    hide OnCommitted;
    CountParts(b.effects, begin, conf, commit, answers, cuts, x);
    CountAtMostOne(begin, x);
    CountAtMostOne(conf, x);
    CountAtMostOne(commit, x);
    CountAtMostOne(answers, x);
    CountAtMostOne(cuts, x);
  }

  lemma CommittedEffects(b: Books, e: CommittedEntry, chan: Chan)
    ensures var b' := OnCommitted(b, e);
      && multiset(b'.effects)[Drop(chan)] == multiset(b.effects)[Drop(chan)]
      && multiset(b'.effects)[Answer(chan)] == multiset(b.effects)[Answer(chan)]
           + (if HasWaiter(b, e) && chan == b.waiting[e.seqnum.value] then 1 else 0)
      && multiset(b'.effects)[CUT] == multiset(b.effects)[CUT] + (if b.entryNum % 1000 == 0 then 1 else 0)
  {
    hide OnCommitted;
    CommittedCount(b, e, Drop(chan));
    CommittedCount(b, e, Answer(chan));
    CommittedCount(b, e, CUT);
  }

  lemma SavedEffects(b: Books, calls: seq<RaftRuns.Event>, chan: Chan)
    requires |calls| <= 1 && RaftRuns.Snapshot !in calls
    ensures var b' := Saved(b, calls);
      && multiset(b'.effects)[Drop(chan)] == multiset(b.effects)[Drop(chan)]
      && multiset(b'.effects)[Answer(chan)] == multiset(b.effects)[Answer(chan)]
      && multiset(b'.effects)[CUT] == multiset(b.effects)[CUT]
  {
    var more := if calls == [] then [] else [Store(calls[0])];
    assert Saved(b, calls).effects == b.effects + more;
  }

  lemma SavedConserves(b: Books, calls: seq<RaftRuns.Event>, received: set<Chan>)
    requires |calls| <= 1 && RaftRuns.Snapshot !in calls
    requires Conserved(b, received)
    ensures Conserved(Saved(b, calls), received)
  {
    hide Saved;
    forall chan ensures Fates(Saved(b, calls), chan) == Fates(b, chan) {
      SavedEffects(b, calls, chan);
      SavedKeeps(b, calls);
    }
    SavedKeeps(b, calls);
  }

  lemma SavedKeeps(b: Books, calls: seq<RaftRuns.Event>)
    ensures var b' := Saved(b, calls); b'.seqnum == b.seqnum && b'.waiting == b.waiting && b'.entryNum == b.entryNum
  {
  }

  lemma CommittedConserves(b: Books, e: CommittedEntry, received: set<Chan>)
    requires Conserved(b, received)
    ensures Conserved(OnCommitted(b, e), received)
  {
    hide OnCommitted;
    WaitersAfterCommit(b, e, 0);
    forall chan ensures Fates(OnCommitted(b, e), chan) == if chan in received then 1 else 0 {
      CommittedEffects(b, e, chan);
      WaitersAfterCommit(b, e, chan);
      assert Fates(b, chan) == if chan in received then 1 else 0;
    }
  }

  lemma {:induction false} AllCommittedConserves(b: Books, es: seq<CommittedEntry>, received: set<Chan>)
    requires Conserved(b, received)
    ensures Conserved(OnAllCommitted(b, es), received)
  {
    if es != [] {
      AllCommittedConserves(b, es[..|es| - 1], received);
      CommittedConserves(OnAllCommitted(b, es[..|es| - 1]), es[|es| - 1], received);
    }
  }

  function ChanSet(ts: seq<Turn>): set<Chan> {
    set c | c in ChansOf(ts)
  }

  function Brought(t: Turn): set<Chan> {
    if t.input.Received? then {t.input.message.chan} else {}
  }

  lemma TurnConserves(b: Books, t: Turn, received: set<Chan>)
    requires Conserved(b, received) && Brought(t) !! received
    ensures Conserved(OnTurn(b, t), received + Brought(t))
  {
    hide Conserved, OnMessage, AfterReady;
    var after := received + Brought(t);
    var b1 := b;
    if t.input.Received? {
      assert t.input.message.chan in Brought(t);
      MessageConserves(b, t.input.message, received);
      b1 := OnMessage(b, t.input.message);
    } else {
      assert after == received;
    }
    if t.ready.Some? {
      ReadyConserves(b1, t.ready.value, after);
    }
  }

  lemma ReadyConserves(b: Books, r: Ready, received: set<Chan>)
    requires Conserved(b, received)
    ensures Conserved(AfterReady(b, r), received)
  {
    hide Conserved, Saved, OnAllCommitted;
    var b1 := Saved(b, EntriesCall(r));
    SavedConserves(b, EntriesCall(r), received);
    AllCommittedConserves(b1, r.committed, received);
    var b2 := OnAllCommitted(b1, r.committed);
    SavedConserves(b2, HardStateCall(r), received);
    SavedConserves(Saved(b2, HardStateCall(r)), CommitCall(r), received);
    AllCommittedConserves(Saved(Saved(b2, HardStateCall(r)), CommitCall(r)), r.light, received);
  }

  lemma DistinctSplit(head: seq<Chan>, rest: seq<Chan>)
    requires Distinct(head + rest)
    ensures Distinct(rest)
    ensures forall c | c in head :: c !in rest
  {
    var all := head + rest;
    forall i, j | 0 <= i < j < |rest| ensures rest[i] != rest[j] {
      assert all[i + |head|] == rest[i] && all[j + |head|] == rest[j];
    }
    forall c | c in head ensures c !in rest {
      var i :| 0 <= i < |head| && head[i] == c;
      forall j | 0 <= j < |rest| ensures rest[j] != c {
        assert all[i] != all[j + |head|];
      }
    }
  }

  lemma ChansSplit(ts: seq<Turn>, received: set<Chan>)
    requires ts != [] && !ts[0].stop
    requires Distinct(ChansOf(ts)) && ChanSet(ts) !! received
    ensures Brought(ts[0]) !! received
    ensures Distinct(ChansOf(ts[1..])) && ChanSet(ts[1..]) !! received + Brought(ts[0])
    ensures ChanSet(ts) == Brought(ts[0]) + ChanSet(ts[1..])
  {
    hide Distinct;
    var rest := ChansOf(ts[1..]);
    var head := if ts[0].input.Received? then [ts[0].input.message.chan] else [];
    assert ChansOf(ts) == head + rest;
    DistinctSplit(head, rest);
    hide ChansOf;
    forall c ensures c in ChanSet(ts) <==> c in Brought(ts[0]) || c in ChanSet(ts[1..]) {
      assert c in head + rest <==> c in head || c in rest;
    }
  }

  lemma {:induction false} TurnsConserve(b: Books, ts: seq<Turn>, received: set<Chan>)
    requires Conserved(b, received)
    requires Distinct(ChansOf(ts)) && ChanSet(ts) !! received
    ensures Conserved(OnTurns(b, ts), received + ChanSet(ts))
    decreases |ts|
  {
    hide Conserved, OnTurn;
    if ts == [] || ts[0].stop {
      assert received + ChanSet(ts) == received;
    } else {
      hide ChanSet, ChansOf, Distinct;
      ChansSplit(ts, received);
      TurnConserves(b, ts[0], received);
      TurnsConserve(OnTurn(b, ts[0]), ts[1..], received + Brought(ts[0]));
      assert received + ChanSet(ts) == received + Brought(ts[0]) + ChanSet(ts[1..]);
    }
  }

  /** Waiter conservation: when every request brings its own channel, then after any number of
      turns each received channel has been answered once, or dropped once, or is waiting, and
      no channel has more than one of these fates. */
  lemma WaiterConservation(ts: seq<Turn>, chan: Chan)
    requires Distinct(ChansOf(ts))
    ensures Fates(OnTurns(OPENED, ts), chan) == if chan in ChansOf(ts) then 1 else 0
  {
    hide OnTurns;
    assert Conserved(OPENED, {});
    TurnsConserve(OPENED, ts, {});
    assert Conserved(OnTurns(OPENED, ts), {} + ChanSet(ts));
  }

  // ---- sequence numbers ----

  function Issued(ts: seq<Turn>): nat
    decreases |ts|
  {
    if ts == [] || ts[0].stop then 0
    else (if ts[0].input.Received? && (ts[0].input.message.ConfChange? || ts[0].input.message.Propose?) then 1 else 0)
         + Issued(ts[1..])
  }

  /** `issued` numbers were handed out; waiters hold only those. */
  ghost predicate Numbered(b: Books, issued: nat) {
    issued <= MAX_U64 ==>
      && b.seqnum == WrapSucc(issued)
      && forall k | k in b.waiting :: 1 <= k <= issued
  }

  lemma {:induction false} CommittedKeepsNumbers(b: Books, es: seq<CommittedEntry>, issued: nat)
    requires Numbered(b, issued)
    ensures Numbered(OnAllCommitted(b, es), issued)
  {
    if es != [] {
      CommittedKeepsNumbers(b, es[..|es| - 1], issued);
    }
  }

  lemma ReadyKeepsNumbers(b: Books, r: Ready, issued: nat)
    requires Numbered(b, issued)
    ensures Numbered(AfterReady(b, r), issued)
  {
    var b1 := Saved(b, EntriesCall(r));
    CommittedKeepsNumbers(b1, r.committed, issued);
    var b2 := Saved(Saved(OnAllCommitted(b1, r.committed), HardStateCall(r)), CommitCall(r));
    CommittedKeepsNumbers(b2, r.light, issued);
  }

  lemma {:induction false} TurnsNumber(b: Books, ts: seq<Turn>, issued: nat)
    requires Numbered(b, issued)
    ensures Numbered(OnTurns(b, ts), issued + Issued(ts))
    decreases |ts|
  {
    if ts != [] && !ts[0].stop {
      var t := ts[0];
      var b1 := if t.input.Received? then OnMessage(b, t.input.message) else b;
      var n := Issued(ts) - Issued(ts[1..]);
      if t.ready.Some? {
        ReadyKeepsNumbers(b1, t.ready.value, issued + n);
      }
      TurnsNumber(OnTurn(b, t), ts[1..], issued + n);
    }
  }

  /** Until the counter has handed out 2^64 numbers, the next number is not in use: a new
      waiter never replaces an old one. */
  lemma NextNumberIsFree(ts: seq<Turn>)
    requires Issued(ts) <= MAX_U64
    ensures OnTurns(OPENED, ts).seqnum !in OnTurns(OPENED, ts).waiting
  {
    TurnsNumber(OPENED, ts, 0);
  }

  // ---- snapshot cadence ----

  function CommitsIn(t: Turn): nat {
    if t.input.Closed? || t.ready.None? then 0 else |t.ready.value.committed| + |t.ready.value.light|
  }

  function CommitsOf(ts: seq<Turn>): nat
    decreases |ts|
  {
    if ts == [] || ts[0].stop then 0 else CommitsIn(ts[0]) + CommitsOf(ts[1..])
  }

  ghost predicate Paced(b: Books, commits: nat) {
    commits < MAX_U64 ==> b.entryNum == commits + 1 && multiset(b.effects)[CUT] == commits / 1000
  }

  lemma CommitPaces(b: Books, e: CommittedEntry, commits: nat)
    requires Paced(b, commits)
    ensures Paced(OnCommitted(b, e), commits + 1)
  {
    assert OnCommitted(b, e).entryNum == WrapSucc(b.entryNum);
    CommittedEffects(b, e, 0);
    hide OnCommitted;
    assert (commits + 1) / 1000 == commits / 1000 + (if (commits + 1) % 1000 == 0 then 1 else 0);
  }

  lemma {:induction false} CommittedPaces(b: Books, es: seq<CommittedEntry>, commits: nat)
    requires Paced(b, commits)
    ensures Paced(OnAllCommitted(b, es), commits + |es|)
  {
    hide OnCommitted, Paced;
    if es != [] {
      CommittedPaces(b, es[..|es| - 1], commits);
      CommitPaces(OnAllCommitted(b, es[..|es| - 1]), es[|es| - 1], commits + |es| - 1);
    }
  }

  lemma MessagePaces(b: Books, m: Message, commits: nat)
    requires Paced(b, commits)
    ensures Paced(OnMessage(b, m), commits)
  {
    var more := OnMessage(b, m).effects[|b.effects|..];
    assert OnMessage(b, m).effects == b.effects + more;
    assert multiset(b.effects + more) == multiset(b.effects) + multiset(more);
  }

  lemma TurnPaces(b: Books, t: Turn, commits: nat)
    requires Paced(b, commits)
    ensures Paced(OnTurn(b, t), commits + CommitsIn(t))
  {
    hide Paced, OnMessage, AfterReady;
    var b1 := b;
    if t.input.Received? {
      MessagePaces(b, t.input.message, commits);
      b1 := OnMessage(b, t.input.message);
    }
    if t.ready.Some? && !t.input.Closed? {
      ReadyPaces(b1, t.ready.value, commits);
    }
  }

  lemma SavedPaces(b: Books, calls: seq<RaftRuns.Event>, commits: nat)
    requires |calls| <= 1 && RaftRuns.Snapshot !in calls
    requires Paced(b, commits)
    ensures Paced(Saved(b, calls), commits)
  {
    SavedEffects(b, calls, 0);
    SavedKeeps(b, calls);
  }

  lemma ReadyPaces(b: Books, r: Ready, commits: nat)
    requires Paced(b, commits)
    ensures Paced(AfterReady(b, r), commits + |r.committed| + |r.light|)
  {
    hide Paced, Saved, OnAllCommitted;
    var b1 := Saved(b, EntriesCall(r));
    SavedPaces(b, EntriesCall(r), commits);
    CommittedPaces(b1, r.committed, commits);
    var b2 := OnAllCommitted(b1, r.committed);
    SavedPaces(b2, HardStateCall(r), commits + |r.committed|);
    SavedPaces(Saved(b2, HardStateCall(r)), CommitCall(r), commits + |r.committed|);
    CommittedPaces(Saved(Saved(b2, HardStateCall(r)), CommitCall(r)), r.light, commits + |r.committed|);
  }

  lemma {:induction false} TurnsPace(b: Books, ts: seq<Turn>, commits: nat)
    requires Paced(b, commits)
    ensures Paced(OnTurns(b, ts), commits + CommitsOf(ts))
    decreases |ts|
  {
    hide Paced, OnTurn;
    if ts != [] && !ts[0].stop {
      TurnPaces(b, ts[0], commits);
      TurnsPace(OnTurn(b, ts[0]), ts[1..], commits + CommitsIn(ts[0]));
    }
  }

  lemma OpenedPaced()
    ensures Paced(OPENED, 0)
  {
  }

  lemma PacedMeans(b: Books, commits: nat)
    requires Paced(b, commits) && commits < MAX_U64
    ensures multiset(b.effects)[CUT] == commits / 1000
  {
  }

  /** One snapshot for every full thousand of committed entries. */
  lemma SnapshotCadence(ts: seq<Turn>)
    requires CommitsOf(ts) < MAX_U64
    ensures multiset(OnTurns(OPENED, ts).effects)[CUT] == CommitsOf(ts) / 1000
  {
    hide *;
    OpenedPaced();
    TurnsPace(OPENED, ts, 0);
    PacedMeans(OnTurns(OPENED, ts), CommitsOf(ts));
  }
}
