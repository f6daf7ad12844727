/** The stored log as a gap-free sequence, and how each `LogStore` operation acts on it. */
module LogRefinement {
  import opened RaftTypes
  import opened Disk
  import opened OpenraftLog

  /** The log holds exactly the entries `es`, under the indices `lo`, `lo + 1`, ... */
  ghost predicate Holds(logs: map<U64, Entry>, lo: nat, es: seq<Entry>) {
    && lo + |es| <= MAX_U64 + 1
    && Consecutive(es, lo)
    && (forall id :: id in logs <==> lo <= id < lo + |es|)
    && (forall id | id in logs :: logs[id] == es[id - lo])
  }

  /** What is stored determines the entries. */
  lemma HoldsIsExact(logs: map<U64, Entry>, lo: nat, es: seq<Entry>, e: Entry)
    requires Holds(logs, lo, es)
    ensures StoredEntry(logs, e) <==> e in es
  {
    if e in es {
      var i :| 0 <= i < |es| && es[i] == e;
      assert lo + i in logs;
    }
  }

  // ---- append ----

  /** Within a batch the last entry of an index wins, and it replaces the stored one. */
  lemma {:induction false} BatchOverwrites(logs: map<U64, Entry>, batch: seq<Entry>, i: nat)
    requires i < |batch| && forall j | i < j < |batch| :: batch[j].logId.index != batch[i].logId.index
    ensures batch[i].logId.index in PutAll(logs, batch)
    ensures PutAll(logs, batch)[batch[i].logId.index] == batch[i]
  {
    if i < |batch| - 1 {
      BatchOverwrites(logs, batch[..|batch| - 1], i);
    }
  }

  lemma {:induction false} BatchSpares(logs: map<U64, Entry>, batch: seq<Entry>, id: U64)
    requires forall e | e in batch :: e.logId.index != id
    ensures id in PutAll(logs, batch) <==> id in logs
    ensures id in logs ==> PutAll(logs, batch)[id] == logs[id]
  {
    if batch != [] {
      BatchSpares(logs, batch[..|batch| - 1], id);
    }
  }

  lemma HoldsPut(logs: map<U64, Entry>, lo: nat, es: seq<Entry>, e: Entry)
    requires Holds(logs, lo, es) && e.logId.index == lo + |es|
    ensures Holds(Put(logs, e), lo, es + [e])
  {
  }

  /** A consecutive batch starting right after the last entry extends the log by itself. */
  lemma {:induction false} AppendRefines(logs: map<U64, Entry>, lo: nat, es: seq<Entry>, batch: seq<Entry>)
    requires Holds(logs, lo, es) && Consecutive(batch, lo + |es|)
    ensures Holds(PutAll(logs, batch), lo, es + batch)
  {
    if batch == [] {
      assert es + batch == es;
    } else {
      var init, last := batch[..|batch| - 1], batch[|batch| - 1];
      assert es + batch == es + init + [last];
      AppendRefines(logs, lo, es, init);
      HoldsPut(PutAll(logs, init), lo, es + init, last);
    }
  }

  // ---- truncate ----

  /** The entries a truncation is meant to keep. */
  ghost function Below(logs: map<U64, Entry>, index: U64): map<U64, Entry> {
    map id | id in logs && id < index :: logs[id]
  }

  /** Truncation removes exactly the entries at or above `index`, unless the log holds an
      entry under the largest index, which the exclusive upper key spares. */
  lemma TruncateExact(logs: map<U64, Entry>, index: U64)
    ensures CutFrom(logs, index) == Below(logs, index) <==> MAX_U64 !in logs
    ensures MAX_U64 in logs ==> CutFrom(logs, index) == Below(logs, index)[MAX_U64 := logs[MAX_U64]]
  {
    if MAX_U64 in logs {
      assert MAX_U64 in CutFrom(logs, index) && MAX_U64 !in Below(logs, index);
    }
  }

  lemma TruncateRefines(logs: map<U64, Entry>, lo: nat, es: seq<Entry>, index: U64)
    requires Holds(logs, lo, es) && lo + |es| <= MAX_U64 && lo <= index
    ensures Holds(CutFrom(logs, index), lo, if index < lo + |es| then es[..index - lo] else es)
  {
  }

  // ---- purge ----

  /** The entries a purge is meant to keep. */
  ghost function Above(logs: map<U64, Entry>, index: U64): map<U64, Entry> {
    map id | id in logs && index < id :: logs[id]
  }

  /** Purging removes exactly the entries at or below `index`, unless `index + 1` wraps while
      there is something to remove. */
  lemma PurgeExact(logs: map<U64, Entry>, index: U64)
    ensures CutThrough(logs, index) == Above(logs, index) <==> index < MAX_U64 || logs == map[]
    ensures index == MAX_U64 ==> CutThrough(logs, index) == logs
  {
    if index == MAX_U64 && logs != map[] {
      var id :| id in logs;
      assert id in CutThrough(logs, index) && id !in Above(logs, index);
    }
  }

  lemma PurgeBelow(logs: map<U64, Entry>, lo: nat, es: seq<Entry>, index: U64)
    requires Holds(logs, lo, es) && index < lo && index < MAX_U64
    ensures Holds(CutThrough(logs, index), lo, es)
  {
  }

  lemma PurgeHead(logs: map<U64, Entry>, lo: nat, es: seq<Entry>, index: U64)
    requires Holds(logs, lo, es) && index < MAX_U64 && lo <= index < lo + |es|
    ensures Holds(CutThrough(logs, index), index + 1, es[index + 1 - lo..])
  {
  }

  lemma PurgeWhole(logs: map<U64, Entry>, lo: nat, es: seq<Entry>, index: U64)
    requires Holds(logs, lo, es) && index < MAX_U64 && lo + |es| <= index + 1
    ensures Holds(CutThrough(logs, index), index + 1, [])
  {
  }

  // ---- log-state query ----

  lemma LastLogIdRefines(d: Image, lo: nat, es: seq<Entry>)
    requires Holds(d.logs, lo, es)
    ensures LastLogId(d) == if es == [] then LastPurged(d) else Some(es[|es| - 1].logId)
  {
    if es == [] {
      assert d.logs == map[];
    } else {
      assert lo + |es| - 1 in d.logs;
    }
  }

  // ---- range read ----

  lemma NonEmptyHasMember<T>(s: seq<T>)
    ensures s == [] || exists e :: e in s
  {
    if s != [] { assert s[0] in s; }
  }

  lemma AscendingInit(a: seq<Entry>, e: Entry)
    requires AscendingIndex(a) && a != []
    ensures AscendingIndex(a[..|a| - 1])
    ensures e in a[..|a| - 1] <==> e in a && e != a[|a| - 1]
    ensures e in a ==> e.logId.index <= a[|a| - 1].logId.index
  {
    if e in a && e != a[|a| - 1] {
      var i :| 0 <= i < |a| && a[i] == e;
      assert a[..|a| - 1][i] == e;
    }
  }

  lemma {:induction false} AscendingUnique(a: seq<Entry>, b: seq<Entry>)
    requires AscendingIndex(a) && AscendingIndex(b)
    requires forall e :: e in a <==> e in b
    ensures a == b
  {
    if a != [] {
      var x := a[|a| - 1];
      assert x in b;
      var y := b[|b| - 1];
      assert y in a;
      AscendingInit(a, y);
      AscendingInit(b, x);
      var a', b' := a[..|a| - 1], b[..|b| - 1];
      forall e ensures e in a' <==> e in b' {
        AscendingInit(a, e);
        AscendingInit(b, e);
      }
      AscendingUnique(a', b');
      assert a == a' + [x] && b == b' + [y];
    } else {
      NonEmptyHasMember(b);
    }
  }

  lemma InStretch(es: seq<Entry>, lo: nat, from: nat, to: nat, e: Entry)
    requires Consecutive(es, lo) && lo <= from <= to <= lo + |es|
    ensures e in es[from - lo..to - lo] <==> e in es && from <= e.logId.index < to
  {
    if e in es && from <= e.logId.index < to {
      var i :| 0 <= i < |es| && es[i] == e;
      assert es[from - lo..to - lo][i - (from - lo)] == e;
    }
  }

  lemma StretchAscends(es: seq<Entry>, lo: nat, from: nat, to: nat)
    requires Consecutive(es, lo) && lo <= from <= to <= lo + |es|
    ensures AscendingIndex(es[from - lo..to - lo])
  {
  }

  /** Reading any range of a gap-free log yields exactly the stretch of it that the range covers. */
  lemma ReadRefines(logs: map<U64, Entry>, lo: nat, es: seq<Entry>, r: IndexRange, from: nat, to: nat, out: seq<Entry>)
    requires Holds(logs, lo, es)
    requires lo <= from <= to <= lo + |es|
    requires forall i: U64 | lo <= i < lo + |es| :: Contains(r, i) <==> from <= i < to
    requires IsRead(logs, r, out)
    ensures out == es[from - lo..to - lo]
  {
    var want := es[from - lo..to - lo];
    forall e ensures e in out <==> e in want {
      HoldsIsExact(logs, lo, es, e);
      InStretch(es, lo, from, to, e);
    }
    StretchAscends(es, lo, from, to);
    AscendingUnique(out, want);
  }

  /** The part of a gap-free log from index `from` up to but not including `to`. */
  function Clip(lo: nat, es: seq<Entry>, from: nat, to: nat): seq<Entry> {
    var a, b := Max(lo, from), Min(to, lo + |es|);
    if a < b then es[a - lo..b - lo] else []
  }

  lemma ReadsClip(logs: map<U64, Entry>, lo: nat, es: seq<Entry>, r: IndexRange, from: nat, to: nat, out: seq<Entry>)
    requires Holds(logs, lo, es) && IsRead(logs, r, out)
    requires forall i: U64 :: Contains(r, i) <==> from <= i < to
    ensures out == Clip(lo, es, from, to)
  {
    hide Holds, IsRead, Contains;
    var a, b := Max(lo, from), Min(to, lo + |es|);
    if a < b {
      ReadRefines(logs, lo, es, r, a, b, out);
    } else {
      ReadRefines(logs, lo, es, r, lo, lo, out);
    }
  }

  /** What each kind of bound reads, by indices: `a..b`, `a..=b`, `a..`, the same without `a`
      itself, and `..b`, `..=b`, `..`, for all `a` and `b`, in the log or out of it. */
  lemma ReadByIndex(logs: map<U64, Entry>, lo: nat, es: seq<Entry>, a: U64, b: U64, out: seq<Entry>)
    requires Holds(logs, lo, es)
    ensures var end := lo + |es|;
      && (IsRead(logs, IndexRange(Included(a), Excluded(b)), out) ==> out == Clip(lo, es, a, b))
      && (IsRead(logs, IndexRange(Included(a), Included(b)), out) ==> out == Clip(lo, es, a, b + 1))
      && (IsRead(logs, IndexRange(Included(a), Unbounded), out) ==> out == Clip(lo, es, a, end))
      && (IsRead(logs, IndexRange(Excluded(a), Excluded(b)), out) ==> out == Clip(lo, es, a + 1, b))
      && (IsRead(logs, IndexRange(Excluded(a), Included(b)), out) ==> out == Clip(lo, es, a + 1, b + 1))
      && (IsRead(logs, IndexRange(Excluded(a), Unbounded), out) ==> out == Clip(lo, es, a + 1, end))
      && (IsRead(logs, IndexRange(Unbounded, Excluded(b)), out) ==> out == Clip(lo, es, lo, b))
      && (IsRead(logs, IndexRange(Unbounded, Included(b)), out) ==> out == Clip(lo, es, lo, b + 1))
      && (IsRead(logs, IndexRange(Unbounded, Unbounded), out) ==> out == es)
  {
    hide Holds, IsRead, Clip, Contains;
    ClipEnds(logs, lo, es, a, b);
    ClipEnds(logs, lo, es, a + 1, b + 1);
    ClipEnds(logs, lo, es, 0, lo + |es|);
    ReadsBounds(logs, lo, es, Included(a), Excluded(b), out);
    ReadsBounds(logs, lo, es, Included(a), Included(b), out);
    ReadsBounds(logs, lo, es, Included(a), Unbounded, out);
    ReadsBounds(logs, lo, es, Excluded(a), Excluded(b), out);
    ReadsBounds(logs, lo, es, Excluded(a), Included(b), out);
    ReadsBounds(logs, lo, es, Excluded(a), Unbounded, out);
    ReadsBounds(logs, lo, es, Unbounded, Excluded(b), out);
    ReadsBounds(logs, lo, es, Unbounded, Included(b), out);
    ReadsBounds(logs, lo, es, Unbounded, Unbounded, out);
  }

  lemma ReadsBounds(logs: map<U64, Entry>, lo: nat, es: seq<Entry>, lower: Bound, upper: Bound, out: seq<Entry>)
    requires Holds(logs, lo, es)
    ensures IsRead(logs, IndexRange(lower, upper), out) ==> out == Clip(lo, es, FromOf(lower), ToOf(upper))
  {
    hide Holds, IsRead, Clip;
    BoundsMean(IndexRange(lower, upper));
    if IsRead(logs, IndexRange(lower, upper), out) {
      ReadsClip(logs, lo, es, IndexRange(lower, upper), FromOf(lower), ToOf(upper), out);
    }
  }

  function FromOf(lower: Bound): nat {
    match lower case Included(x) => x case Excluded(x) => x + 1 case Unbounded => 0
  }

  function ToOf(upper: Bound): nat {
    match upper case Included(x) => x + 1 case Excluded(x) => x case Unbounded => MAX_U64 + 1
  }

  lemma BoundsMean(r: IndexRange)
    ensures forall i: U64 :: Contains(r, i) <==> FromOf(r.lower) <= i < ToOf(r.upper)
  {
  }

  lemma ClipEnds(logs: map<U64, Entry>, lo: nat, es: seq<Entry>, from: nat, to: nat)
    requires Holds(logs, lo, es)
    ensures Clip(lo, es, from, MAX_U64 + 1) == Clip(lo, es, from, lo + |es|)
    ensures Clip(lo, es, 0, to) == Clip(lo, es, lo, to)
    ensures Clip(lo, es, lo, lo + |es|) == es
  {
  }
}
