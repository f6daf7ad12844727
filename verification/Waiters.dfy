/** What becomes of each request, told by what the event loop received and committed. */
module Waiters {
  import opened RaftTypes
  import opened EventLoop

  /** A request arrives, or a committed entry is handled. */
  datatype Happening = Got(message: Message) | Done(entry: CommittedEntry)

  function Dones(es: seq<CommittedEntry>): seq<Happening> {
    seq(|es|, i requires 0 <= i < |es| => Done(es[i]))
  }

  /** What happens in one turn, in order. */
  function InTurn(t: Turn): seq<Happening> {
    if t.input.Closed? then []
    else
      (if t.input.Received? then [Got(t.input.message)] else [])
      + (if t.ready.Some? then Dones(t.ready.value.committed) + Dones(t.ready.value.light) else [])
  }

  function Happenings(ts: seq<Turn>): seq<Happening>
    decreases |ts|
  {
    if ts == [] || ts[0].stop then [] else InTurn(ts[0]) + Happenings(ts[1..])
  }

  ghost function Answers(b: Books, chan: Chan): nat {
    multiset(b.effects)[Answer(chan)]
  }

  ghost function Drops(b: Books, chan: Chan): nat {
    multiset(b.effects)[Drop(chan)]
  }

  // ---- the books depend on nothing else ----

  function After(b: Books, h: Happening): Books {
    match h
    case Got(m) => OnMessage(b, m)
    case Done(e) => OnCommitted(b, e)
  }

  function Fold(hs: seq<Happening>): Books {
    if hs == [] then OPENED else After(Fold(hs[..|hs| - 1]), hs[|hs| - 1])
  }

  lemma FoldSnoc(hs: seq<Happening>, h: Happening)
    ensures Fold(hs + [h]) == After(Fold(hs), h)
  {
    assert (hs + [h])[..|hs + [h]| - 1] == hs;
  }

  /** Equal but for the storage calls. */
  ghost predicate Same(b: Books, c: Books) {
    && b.seqnum == c.seqnum && b.waiting == c.waiting
    && forall chan :: Answers(b, chan) == Answers(c, chan) && Drops(b, chan) == Drops(c, chan)
  }

  /** What one request or one committed entry adds to the fates of a channel. */
  lemma MessageEffects(b: Books, m: Message, chan: Chan)
    ensures var b' := OnMessage(b, m);
      var registers := m.ConfChange? || m.Propose?;
      && Answers(b', chan) == Answers(b, chan)
           + (if chan == m.chan && (m.TransferLeader? || (m.Peer? && m.stepped)) then 1 else 0)
      && Drops(b', chan) == Drops(b, chan)
           + (if chan == m.chan && ((m.Peer? && !m.stepped) || (registers && !m.accepted)) then 1 else 0)
           + (if registers && m.accepted && b.seqnum in b.waiting && b.waiting[b.seqnum] == chan then 1 else 0)
  {
    if m.ConfChange? || m.Propose? {
      RegisterEffects(b, m.chan, m.accepted, chan);
    } else {
      FatesOfEffects(b, [if m.Peer? && !m.stepped then Drop(m.chan) else Answer(m.chan)], chan);
    }
  }

  lemma SameAfter(b: Books, c: Books, h: Happening)
    requires Same(b, c)
    ensures Same(After(b, h), After(c, h))
  {
    forall chan
      ensures Answers(After(b, h), chan) == Answers(After(c, h), chan)
      ensures Drops(After(b, h), chan) == Drops(After(c, h), chan)
    {
      assert Answers(b, chan) == Answers(c, chan) && Drops(b, chan) == Drops(c, chan);
      match h
      case Got(m) =>
        MessageEffects(b, m, chan);
        MessageEffects(c, m, chan);
      case Done(e) =>
        CommittedEffects(b, e, chan);
        CommittedEffects(c, e, chan);
    }
    MapAfter(b, c, h);
  }

  lemma MapAfter(b: Books, c: Books, h: Happening)
    requires b.seqnum == c.seqnum && b.waiting == c.waiting
    ensures After(b, h).seqnum == After(c, h).seqnum && After(b, h).waiting == After(c, h).waiting
  {
  }

  lemma SameSaved(b: Books, c: Books, calls: seq<RaftRuns.Event>)
    requires Same(b, c) && |calls| <= 1 && RaftRuns.Snapshot !in calls
    ensures Same(Saved(b, calls), c)
  {
    SavedKeeps(b, calls);
    forall chan
      ensures Answers(Saved(b, calls), chan) == Answers(c, chan) && Drops(Saved(b, calls), chan) == Drops(c, chan)
    {
      SavedEffects(b, calls, chan);
      assert Answers(b, chan) == Answers(c, chan) && Drops(b, chan) == Drops(c, chan);
    }
  }

  lemma {:induction false} FoldCommitted(b: Books, hs: seq<Happening>, es: seq<CommittedEntry>)
    requires Same(b, Fold(hs))
    ensures Same(OnAllCommitted(b, es), Fold(hs + Dones(es)))
  {
    hide Same, OnCommitted, Fold;
    if es == [] {
      assert hs + Dones(es) == hs;
    } else {
      var init, last := es[..|es| - 1], es[|es| - 1];
      FoldCommitted(b, hs, init);
      SameAfter(OnAllCommitted(b, init), Fold(hs + Dones(init)), Done(last));
      assert hs + Dones(es) == hs + Dones(init) + [Done(last)];
      FoldSnoc(hs + Dones(init), Done(last));
    }
  }

  lemma FoldReady(b: Books, hs: seq<Happening>, r: Ready)
    requires Same(b, Fold(hs))
    ensures Same(AfterReady(b, r), Fold(hs + Dones(r.committed) + Dones(r.light)))
  {
    hide Same, Fold, OnAllCommitted, Saved;
    SameSaved(b, Fold(hs), EntriesCall(r));
    var b1 := Saved(b, EntriesCall(r));
    FoldCommitted(b1, hs, r.committed);
    var b2 := OnAllCommitted(b1, r.committed);
    var c := Fold(hs + Dones(r.committed));
    SameSaved(b2, c, HardStateCall(r));
    SameSaved(Saved(b2, HardStateCall(r)), c, CommitCall(r));
    FoldCommitted(Saved(Saved(b2, HardStateCall(r)), CommitCall(r)), hs + Dones(r.committed), r.light);
  }

  lemma FoldTurn(b: Books, hs: seq<Happening>, t: Turn)
    requires Same(b, Fold(hs))
    ensures Same(OnTurn(b, t), Fold(hs + InTurn(t)))
  {
    hide Same, Fold, AfterReady, OnMessage, Dones;
    if t.input.Closed? {
      assert hs + InTurn(t) == hs;
    } else {
      var got := if t.input.Received? then [Got(t.input.message)] else [];
      var b1 := if t.input.Received? then OnMessage(b, t.input.message) else b;
      if t.input.Received? {
        SameAfter(b, Fold(hs), got[0]);
        FoldSnoc(hs, got[0]);
      } else {
        assert hs + got == hs;
      }
      if t.ready.Some? {
        FoldReady(b1, hs + got, t.ready.value);
        var c, l := Dones(t.ready.value.committed), Dones(t.ready.value.light);
        assert hs + InTurn(t) == hs + got + c + l;
      } else {
        assert hs + InTurn(t) == hs + got;
      }
    }
  }

  lemma {:induction false} FoldTurns(b: Books, hs: seq<Happening>, ts: seq<Turn>)
    requires Same(b, Fold(hs))
    ensures Same(OnTurns(b, ts), Fold(hs + Happenings(ts)))
    decreases |ts|
  {
    hide Same, Fold, OnTurn, InTurn;
    if ts == [] || ts[0].stop {
      assert hs + Happenings(ts) == hs;
    } else {
      FoldTurn(b, hs, ts[0]);
      FoldTurns(OnTurn(b, ts[0]), hs + InTurn(ts[0]), ts[1..]);
      assert hs + Happenings(ts) == hs + InTurn(ts[0]) + Happenings(ts[1..]);
    }
  }

  // ---- numbers ----

  predicate TakesNumber(h: Happening) {
    h.Got? && (h.message.ConfChange? || h.message.Propose?)
  }

  /** How many sequence numbers were handed out. */
  function Numbers(hs: seq<Happening>): nat {
    if hs == [] then 0 else Numbers(hs[..|hs| - 1]) + (if TakesNumber(hs[|hs| - 1]) then 1 else 0)
  }

  lemma {:induction false} FoldNumbered(hs: seq<Happening>)
    ensures Numbered(Fold(hs), Numbers(hs))
  {
    if hs != [] {
      FoldNumbered(hs[..|hs| - 1]);
    }
  }

  lemma {:induction false} NumbersGrow(hs: seq<Happening>, p: nat)
    requires p < |hs|
    ensures Numbers(hs[..p]) + (if TakesNumber(hs[p]) then 1 else 0) <= Numbers(hs)
  {
    var init := hs[..|hs| - 1];
    if p < |hs| - 1 {
      NumbersGrow(init, p);
      assert init[..p] == hs[..p];
    }
  }

  // ---- every channel's fate ----

  ghost predicate DistinctChans(hs: seq<Happening>) {
    forall p, q | 0 <= p < q < |hs| && hs[p].Got? && hs[q].Got? :: hs[p].message.chan != hs[q].message.chan
  }

  function ChansIn(hs: seq<Happening>): set<Chan> {
    set p | 0 <= p < |hs| && hs[p].Got? :: hs[p].message.chan
  }

  lemma {:induction false} FoldConserved(hs: seq<Happening>)
    requires DistinctChans(hs)
    ensures Conserved(Fold(hs), ChansIn(hs))
  {
    if hs == [] {
      assert Fold(hs) == OPENED;
    } else {
      var init, last := hs[..|hs| - 1], hs[|hs| - 1];
      FoldConserved(init);
      ChansSnoc(init, last);
      assert hs == init + [last];
      hide Conserved, OnMessage, OnCommitted;
      match last
      case Got(m) => MessageConserves(Fold(init), m, ChansIn(init));
      case Done(e) => CommittedConserves(Fold(init), e, ChansIn(init));
    }
  }

  lemma ChansSnoc(hs: seq<Happening>, h: Happening)
    ensures ChansIn(hs + [h]) == ChansIn(hs) + (if h.Got? then {h.message.chan} else {})
    ensures DistinctChans(hs + [h]) && h.Got? ==> h.message.chan !in ChansIn(hs)
  {
    var all := hs + [h];
    forall c ensures c in ChansIn(all) <==> c in ChansIn(hs) || (h.Got? && c == h.message.chan) {
      if c in ChansIn(hs) {
        var p :| 0 <= p < |hs| && hs[p].Got? && hs[p].message.chan == c;
        assert all[p] == hs[p];
      }
      if h.Got? && c == h.message.chan {
        assert all[|hs|] == h;
      }
    }
    if h.Got? && h.message.chan in ChansIn(hs) {
      var p :| 0 <= p < |hs| && hs[p].Got? && hs[p].message.chan == h.message.chan;
      assert all[p] == hs[p] && all[|hs|] == h;
      assert !DistinctChans(all);
    }
  }

  /** The number that the request at `p` took, if it took one. */
  function NumberOf(hs: seq<Happening>, p: nat): nat
    requires p < |hs|
  {
    Numbers(hs[..p]) + 1
  }

  predicate Carries(h: Happening, n: nat) {
    h.Done? && h.entry.seqnum.Some? && h.entry.seqnum.value == n
  }

  /** An entry with the request's number was committed after it arrived. */
  ghost predicate CommittedSince(hs: seq<Happening>, p: nat)
    requires p < |hs|
  {
    exists q :: p < q < |hs| && Carries(hs[q], NumberOf(hs, p))
  }

  /** The fate of a request: an accepted proposal waits, under its number, until an entry with that
      number is committed, and is answered then; a refused one is dropped; a peer's message is
      answered if the library took it, else dropped; a leader transfer is answered. */
  ghost predicate HasFate(b: Books, m: Message, number: nat, since: bool) {
    var answered, dropped := Answers(b, m.chan), Drops(b, m.chan);
    match m
    case TransferLeader(_) => answered == 1 && dropped == 0
    case Peer(_, stepped) => if stepped then answered == 1 && dropped == 0 else answered == 0 && dropped == 1
    case _ =>
      if !m.accepted then answered == 0 && dropped == 1
      else if since then answered == 1 && dropped == 0 && number !in b.waiting
      else answered == 0 && dropped == 0 && number in b.waiting && b.waiting[number] == m.chan
  }

  lemma FateOfNewcomer(b: Books, m: Message, issued: nat, received: set<Chan>)
    requires Numbered(b, issued) && Conserved(b, received) && m.chan !in received
    requires issued + (if TakesNumber(Got(m)) then 1 else 0) <= MAX_U64
    ensures HasFate(OnMessage(b, m), m, issued + 1, false)
  {
    assert Fates(b, m.chan) == 0;
    MessageEffects(b, m, m.chan);
  }

  /** A committed entry answers exactly the request whose number it carries. */
  lemma FateAfterCommit(b: Books, m: Message, number: nat, since: bool, e: CommittedEntry, received: set<Chan>)
    requires Conserved(b, received) && m.chan in received
    requires HasFate(b, m, number, since)
    ensures HasFate(OnCommitted(b, e), m, number, since || Carries(Done(e), number))
  {
    assert Fates(b, m.chan) == 1;
    CommittedEffects(b, e, m.chan);
    assert HasWaiter(b, e) ==> b.waiting[e.seqnum.value] in b.waiting.Values;
  }

  /** After anything that happens, for the first 2^64 - 1 numbers: every request has the fate that
      the library's verdict and the commits since give it. */
  lemma {:induction false} FateInFold(hs: seq<Happening>, p: nat)
    requires DistinctChans(hs) && Numbers(hs) <= MAX_U64
    requires p < |hs| && hs[p].Got?
    ensures HasFate(Fold(hs), hs[p].message, NumberOf(hs, p), CommittedSince(hs, p))
  {
    var init, last := hs[..|hs| - 1], hs[|hs| - 1];
    assert hs == init + [last];
    if p == |init| {
      FateOfLast(init, last);
    } else {
      hide *;
      Shorter(init, last);
      FateInFold(init, p);
      FateOfEarlier(init, last, p);
    }
  }

  lemma FateOfLast(hs: seq<Happening>, h: Happening)
    requires DistinctChans(hs + [h]) && Numbers(hs + [h]) <= MAX_U64 && h.Got?
    ensures HasFate(Fold(hs + [h]), h.message, NumberOf(hs + [h], |hs|), CommittedSince(hs + [h], |hs|))
  {
    hide *;
    assert h == Got(h.message);
    Shorter(hs, h);
    FoldNumbered(hs);
    FoldConserved(hs);
    ChansSnoc(hs, h);
    FoldSnoc(hs, h);
    AfterGot(Fold(hs), h.message);
    NothingSince(hs, h);
    FateOfNewcomer(Fold(hs), h.message, Numbers(hs), ChansIn(hs));
  }

  lemma NothingSince(hs: seq<Happening>, h: Happening)
    ensures NumberOf(hs + [h], |hs|) == Numbers(hs) + 1 && !CommittedSince(hs + [h], |hs|)
  {
    assert (hs + [h])[..|hs|] == hs;
  }

  lemma Shorter(hs: seq<Happening>, h: Happening)
    ensures DistinctChans(hs + [h]) ==> DistinctChans(hs)
    ensures Numbers(hs + [h]) == Numbers(hs) + (if TakesNumber(h) then 1 else 0)
  {
    var all := hs + [h];
    assert all[..|all| - 1] == hs;
    if DistinctChans(all) {
      forall p, q | 0 <= p < q < |hs| && hs[p].Got? && hs[q].Got? ensures hs[p].message.chan != hs[q].message.chan {
        assert all[p] == hs[p] && all[q] == hs[q];
      }
    }
  }

  lemma FateOfEarlier(hs: seq<Happening>, h: Happening, p: nat)
    requires DistinctChans(hs + [h]) && Numbers(hs + [h]) <= MAX_U64
    requires p < |hs| && hs[p].Got?
    requires HasFate(Fold(hs), hs[p].message, NumberOf(hs, p), CommittedSince(hs, p))
    ensures HasFate(Fold(hs + [h]), (hs + [h])[p].message, NumberOf(hs + [h], p), CommittedSince(hs + [h], p))
  {
    Shorter(hs, h);
    FoldNumbered(hs);
    FoldConserved(hs);
    ChansSnoc(hs, h);
    FoldSnoc(hs, h);
    NumbersGrow(hs, p);
    SinceSnoc(hs, h, p);
    assert hs[p].message.chan in ChansIn(hs);
    hide HasFate, OnMessage, Conserved, Numbered, Fold, After, Numbers, DistinctChans, CommittedSince;
    FateStep(Fold(hs), hs[p].message, NumberOf(hs, p), CommittedSince(hs, p), h, Numbers(hs), ChansIn(hs));
  }

  lemma AfterGot(b: Books, m: Message)
    ensures After(b, Got(m)) == OnMessage(b, m)
  {
  }

  lemma SinceSnoc(hs: seq<Happening>, h: Happening, p: nat)
    requires p < |hs|
    ensures NumberOf(hs + [h], p) == NumberOf(hs, p)
    ensures CommittedSince(hs + [h], p) <==> CommittedSince(hs, p) || Carries(h, NumberOf(hs, p))
  {
    var all := hs + [h];
    assert all[..p] == hs[..p];
    if q :| p < q < |hs| && Carries(hs[q], NumberOf(hs, p)) {
      assert all[q] == hs[q];
    }
    assert all[|hs|] == h;
  }

  lemma FateStep(b: Books, m: Message, number: nat, since: bool, h: Happening, issued: nat, received: set<Chan>)
    requires Numbered(b, issued) && issued <= MAX_U64 && Conserved(b, received) && m.chan in received
    requires TakesNumber(h) ==> issued < MAX_U64
    requires h.Got? ==> h.message.chan != m.chan
    requires TakesNumber(Got(m)) ==> number <= issued
    requires HasFate(b, m, number, since)
    ensures HasFate(After(b, h), m, number, since || Carries(h, number))
  {
    match h
    case Got(other) =>
      MessageEffects(b, other, m.chan);
    case Done(e) => FateAfterCommit(b, m, number, since, e, received);
  }

  /** Only accepted proposals wait, each under its own number. */
  lemma {:induction false} WaiterIsRequest(hs: seq<Happening>, number: U64) returns (p: nat)
    requires Numbers(hs) <= MAX_U64 && number in Fold(hs).waiting
    ensures p < |hs| && TakesNumber(hs[p]) && hs[p].message.accepted
    ensures NumberOf(hs, p) == number && Fold(hs).waiting[number] == hs[p].message.chan
  {
    var init, last := hs[..|hs| - 1], hs[|hs| - 1];
    FoldNumbered(init);
    if TakesNumber(last) && last.message.accepted && number == Numbers(init) + 1 {
      p := |init|;
    } else {
      p := WaiterIsRequest(init, number);
      assert init[..p] == hs[..p];
    }
  }

  /** Over every run of the loop, for the first 2^64 - 1 numbers: each request has exactly the fate
      that the library's verdict and the commits since it arrived give it. */
  lemma FateExact(ts: seq<Turn>, p: nat)
    requires DistinctChans(Happenings(ts)) && Numbers(Happenings(ts)) <= MAX_U64
    requires p < |Happenings(ts)| && Happenings(ts)[p].Got?
    ensures var hs := Happenings(ts);
      HasFate(OnTurns(OPENED, ts), hs[p].message, NumberOf(hs, p), CommittedSince(hs, p))
  {
    var hs := Happenings(ts);
    hide *;
    FateInFold(hs, p);
    SameInTurns(ts);
    FateOfSame(OnTurns(OPENED, ts), Fold(hs), hs[p].message, NumberOf(hs, p), CommittedSince(hs, p));
  }

  lemma SameInTurns(ts: seq<Turn>)
    ensures Same(OnTurns(OPENED, ts), Fold(Happenings(ts)))
  {
    assert Same(OPENED, Fold([]));
    FoldTurns(OPENED, [], ts);
    assert [] + Happenings(ts) == Happenings(ts);
  }

  lemma FateOfSame(b: Books, c: Books, m: Message, number: nat, since: bool)
    requires Same(b, c) && HasFate(c, m, number, since)
    ensures HasFate(b, m, number, since)
  {
    assert Answers(b, m.chan) == Answers(c, m.chan) && Drops(b, m.chan) == Drops(c, m.chan);
  }

  /** A number waits if and only if an accepted request took it and no entry with it was
      committed since. */
  lemma WaitsExact(ts: seq<Turn>, number: U64)
    requires DistinctChans(Happenings(ts)) && Numbers(Happenings(ts)) <= MAX_U64
    ensures var hs := Happenings(ts);
      number in OnTurns(OPENED, ts).waiting <==>
        exists p :: 0 <= p < |hs| && TakesNumber(hs[p]) && hs[p].message.accepted
                      && NumberOf(hs, p) == number && !CommittedSince(hs, p)
  {
    var hs := Happenings(ts);
    SameInTurns(ts);
    hide OnTurns, Happenings;
    if number in Fold(hs).waiting {
      var p := WaiterIsRequest(hs, number);
      FateInFold(hs, p);
    }
    forall p: nat | p < |hs| && TakesNumber(hs[p]) && hs[p].message.accepted && NumberOf(hs, p) == number && !CommittedSince(hs, p)
      ensures number in Fold(hs).waiting
    {
      FateInFold(hs, p);
    }
  }

  // ---- no answer before its commit ----

  /** Every answer, but those on the exempt channels, directly follows a commit. */
  ghost predicate AfterCommits(effects: seq<Effect>, exempt: set<Chan>) {
    forall q | 0 <= q < |effects| && effects[q].Answer? && effects[q].chan !in exempt ::
      q > 0 && effects[q - 1].Store? && effects[q - 1].call.Commit?
  }

  lemma AfterCommitsConcat(a: seq<Effect>, b: seq<Effect>, exempt: set<Chan>)
    requires AfterCommits(a, exempt) && AfterCommits(b, exempt)
    ensures AfterCommits(a + b, exempt)
  {
  }

  /** Peers' messages and leader transfers are answered on arrival. */
  function AnsweredAtOnce(ts: seq<Turn>): set<Chan> {
    set h | h in Happenings(ts) && h.Got? && !TakesNumber(h) :: h.message.chan
  }

  lemma CommittedFollows(b: Books, e: CommittedEntry, exempt: set<Chan>)
    requires AfterCommits(b.effects, exempt)
    ensures AfterCommits(OnCommitted(b, e).effects, exempt)
  {
    var begin, conf, commit, answers, cuts := CommittedParts(b, e);
    hide OnCommitted;
    var tail := begin + conf + (commit + answers) + cuts;
    assert b.effects + begin + conf + commit + answers + cuts == b.effects + tail;
    AfterCommitsConcat(begin, conf, exempt);
    AfterCommitsConcat(begin + conf, commit + answers, exempt);
    AfterCommitsConcat(begin + conf + (commit + answers), cuts, exempt);
    AfterCommitsConcat(b.effects, tail, exempt);
  }

  lemma {:induction false} AllCommittedFollow(b: Books, es: seq<CommittedEntry>, exempt: set<Chan>)
    requires AfterCommits(b.effects, exempt)
    ensures AfterCommits(OnAllCommitted(b, es).effects, exempt)
  {
    hide AfterCommits, OnCommitted;
    if es != [] {
      AllCommittedFollow(b, es[..|es| - 1], exempt);
      CommittedFollows(OnAllCommitted(b, es[..|es| - 1]), es[|es| - 1], exempt);
    }
  }

  lemma SavedFollows(b: Books, calls: seq<RaftRuns.Event>, exempt: set<Chan>)
    requires AfterCommits(b.effects, exempt)
    ensures AfterCommits(Saved(b, calls).effects, exempt)
  {
    AfterCommitsConcat(b.effects, seq(|calls|, i requires 0 <= i < |calls| => Store(calls[i])), exempt);
  }

  lemma MessageFollows(b: Books, m: Message, exempt: set<Chan>)
    requires AfterCommits(b.effects, exempt)
    requires m.chan in exempt || TakesNumber(Got(m))
    ensures AfterCommits(OnMessage(b, m).effects, exempt)
  {
    var more := OnMessage(b, m).effects[|b.effects|..];
    assert OnMessage(b, m).effects == b.effects + more;
    AfterCommitsConcat(b.effects, more, exempt);
  }

  lemma {:induction false} TurnsFollow(b: Books, ts: seq<Turn>, exempt: set<Chan>)
    requires AfterCommits(b.effects, exempt) && AnsweredAtOnce(ts) <= exempt
    ensures AfterCommits(OnTurns(b, ts).effects, exempt)
    decreases |ts|
  {
    hide AfterCommits, OnAllCommitted, OnMessage, Saved, Dones;
    if ts != [] && !ts[0].stop {
      var t := ts[0];
      if !t.input.Closed? {
        var b1 := b;
        if t.input.Received? {
          var h := Got(t.input.message);
          assert InTurn(t)[0] == h && h in Happenings(ts);
          MessageFollows(b, t.input.message, exempt);
          b1 := OnMessage(b, t.input.message);
        }
        if t.ready.Some? {
          ReadyFollows(b1, t.ready.value, exempt);
        }
      }
      assert forall h | h in Happenings(ts[1..]) :: h in Happenings(ts);
      TurnsFollow(OnTurn(b, t), ts[1..], exempt);
    }
  }

  lemma ReadyFollows(b: Books, r: Ready, exempt: set<Chan>)
    requires AfterCommits(b.effects, exempt)
    ensures AfterCommits(AfterReady(b, r).effects, exempt)
  {
    hide AfterCommits, OnAllCommitted, Saved;
    var b1 := Saved(b, EntriesCall(r));
    SavedFollows(b, EntriesCall(r), exempt);
    AllCommittedFollow(b1, r.committed, exempt);
    var b2 := OnAllCommitted(b1, r.committed);
    SavedFollows(b2, HardStateCall(r), exempt);
    SavedFollows(Saved(b2, HardStateCall(r)), CommitCall(r), exempt);
    AllCommittedFollow(Saved(Saved(b2, HardStateCall(r)), CommitCall(r)), r.light, exempt);
  }

  /** Over every run a proposal is answered only directly after an entry's commit was saved. */
  lemma AnswersFollowCommits(ts: seq<Turn>)
    ensures AfterCommits(OnTurns(OPENED, ts).effects, AnsweredAtOnce(ts))
  {
    TurnsFollow(OPENED, ts, AnsweredAtOnce(ts));
  }
}
