/** Raft's logs never decrease in term (section 5.4.1 of the Raft paper); a crash behind the first
    write of an append can break that for the stored one. */
module TermOrder {
  import opened RaftStorage
  import opened RaftRuns
  import opened RaftReads

  ghost predicate TermsAscend(log: seq<LogEntry>) {
    forall i, j | 0 <= i < j < |log| :: log[i].term <= log[j].term
  }

  /** A crash after the first write of an append that overwrites: the log keeps ascending terms
      if and only if the new entry is the last one, or its term is not above the old entry's
      after it. */
  lemma TornExact(evs: seq<Event>, es: seq<LogEntry>)
    requires ValidRun(evs) && Enabled(Run(evs).history, CrashInAppend(es, 1))
    requires TermsAscend(Run(evs).history.log) && TermsAscend(CutAndExtend(Run(evs).history.log, es))
    ensures var h := Run(evs).history;
      var torn := StepHistory(h, CrashInAppend(es, 1), Run(evs).core.disk.hard.commit).log;
      TermsAscend(torn) <==> es[0].index >= |h.log| || es[0].term <= h.log[es[0].index].term
  {
    hide Run, ValidRun;
    if es[0].index <= |Run(evs).history.log| {
      TornTerms(Run(evs).history.log, es);
    }
  }

  lemma TornTerms(log: seq<LogEntry>, es: seq<LogEntry>)
    requires es != [] && 1 <= es[0].index <= |log| && TermsAscend(log) && TermsAscend(CutAndExtend(log, es))
    ensures TermsAscend(log[es[0].index - 1 := es[0]]) <==> es[0].index == |log| || es[0].term <= log[es[0].index].term
  {
    var k := es[0].index;
    var cut, torn := CutAndExtend(log, es), log[k - 1 := es[0]];
    assert cut[k - 1] == es[0] && forall i | 0 <= i < k - 1 :: cut[i] == log[i] == torn[i];
    if k < |log| {
      assert torn[k] == log[k] && torn[k - 1] == es[0];
    }
  }

  // ---- over runs ----

  /** The library only hands out batches that keep the terms of the log they extend ascending. */
  ghost predicate RaftBatches(evs: seq<Event>) {
    evs == [] ||
    (&& RaftBatches(evs[..|evs| - 1])
     && var ev := evs[|evs| - 1];
        (ev.Append? || ev.CrashInAppend?) && ev.entries != [] ==>
          TermsAscend(CutAndExtend(Run(evs[..|evs| - 1]).history.log, ev.entries)))
  }

  /** A crash behind the first write of a batch that replaces an entry by one of a term above
      that of the entry after it. */
  predicate Tears(h: History, ev: Event) {
    && ev.CrashInAppend? && ev.puts == 1 && ev.entries != []
    && ev.entries[0].index < |h.log| && ev.entries[0].term > h.log[ev.entries[0].index].term
  }

  predicate NeverTears(evs: seq<Event>) {
    evs == [] || (NeverTears(evs[..|evs| - 1]) && !Tears(Run(evs[..|evs| - 1]).history, evs[|evs| - 1]))
  }

  ghost predicate AlwaysAscends(evs: seq<Event>) {
    TermsAscend(Run(evs).history.log) && (evs == [] || AlwaysAscends(evs[..|evs| - 1]))
  }

  lemma PrefixAscends(log: seq<LogEntry>, es: seq<LogEntry>, n: nat)
    requires es != [] && 0 < n <= |es| && TermsAscend(CutAndExtend(log, es))
    ensures TermsAscend(CutAndExtend(log, es[..n]))
  {
    var all, part := CutAndExtend(log, es), CutAndExtend(log, es[..n]);
    assert part == all[..|part|];
  }

  lemma AscendStep(h: History, ev: Event, saved: nat)
    requires TermsAscend(h.log) && Enabled(h, ev)
    requires (ev.Append? || ev.CrashInAppend?) && ev.entries != [] ==> TermsAscend(CutAndExtend(h.log, ev.entries))
    ensures TermsAscend(StepHistory(h, ev, saved).log) <==> !Tears(h, ev)
  {
    if ev.CrashInAppend? {
      hide TermsAscend, CutAndExtend;
      if ev.puts >= 2 {
        PrefixAscends(h.log, ev.entries, ev.puts / 2);
      } else if ev.puts == 1 && ev.entries[0].index <= |h.log| {
        TornTerms(h.log, ev.entries);
      }
    }
  }

  /** Over every run: the visible log's terms ascend, always, if and only if no crash tears it. */
  lemma {:induction false} AscendsExact(evs: seq<Event>)
    requires ValidRun(evs) && RaftBatches(evs)
    ensures AlwaysAscends(evs) <==> NeverTears(evs)
  {
    hide TermsAscend, Tears, Enabled, StepHistory, Step;
    if evs != [] {
      var before, ev := evs[..|evs| - 1], evs[|evs| - 1];
      AscendsExact(before);
      if AlwaysAscends(before) {
        AscendStep(Run(before).history, ev, Run(before).core.disk.hard.commit);
      }
    } else {
      assert TermsAscend(EMPTY.log) by { EmptyAscends(); }
    }
  }

  lemma EmptyAscends()
    ensures TermsAscend([])
  {
  }

  /** A crash after the first write of a conflict overwrite: the log continues, after the new
      entry of term 2, with the old entry of term 1. */
  lemma TornLog() returns (evs: seq<Event>)
    ensures ValidRun(evs) && Run(evs).history.log == [B1, A2] && LastIndex(Run(evs).core) == 2
    ensures !TermsAscend(Run(evs).history.log)
  {
    evs := TwoLogged();
    Extend(evs, CrashInAppend([B1], 1));
    ReachableInv(evs + [CrashInAppend([B1], 1)]);
    hide Run, ValidRun, SaveEntries;
    evs := evs + [CrashInAppend([B1], 1)];
    assert Run(evs).history.log[0] == B1 && Run(evs).history.log[1] == A2;
  }
}
