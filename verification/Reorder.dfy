/** The writer loop: entries arrive in any order and are written either as they come or, when
    sorting, in index order with a buffer for those that come early. */
module Reorder {
  import opened Sequences
  import opened ZipWriter

  /** The sorting loop's variables: entries written, entries waiting, next index due. */
  datatype Buffer = Buffer(written: seq<EncodedEntry>, pending: map<nat, EncodedEntry>, next: nat)

  const EMPTY: Buffer := Buffer([], map[], 0)

  /** Writes waiting entries for as long as the next one due is there. */
  function Flush(b: Buffer): Buffer
    decreases |b.pending|
  {
    if b.next in b.pending then
      Flush(Buffer(b.written + [b.pending[b.next]], b.pending - {b.next}, b.next + 1))
    else b
  }

  function Arrive(b: Buffer, e: EncodedEntry): Buffer
  {
    Flush(b.(pending := b.pending[e.index := e]))
  }

  function ArriveAll(es: seq<EncodedEntry>): Buffer
  {
    if es == [] then EMPTY else Arrive(ArriveAll(es[..|es| - 1]), es[|es| - 1])
  }

  predicate Distinct(es: seq<EncodedEntry>)
  {
    forall i, j :: 0 <= i < j < |es| ==> es[i].index != es[j].index
  }

  // ---------------------------------------------------------------- what the buffer holds

  /** Written is the gap-free prefix of the entries in `all`, waiting is what lies beyond the
      next index due. */
  ghost predicate Holds(b: Buffer, all: set<EncodedEntry>)
  {
    && |b.written| == b.next
    && (forall k :: 0 <= k < b.next ==> b.written[k] in all && b.written[k].index == k)
    && (forall k :: k in b.pending ==> k >= b.next && b.pending[k] in all && b.pending[k].index == k)
    && (forall e :: e in all ==> if e.index < b.next then b.written[e.index] == e
                                 else e.index in b.pending && b.pending[e.index] == e)
  }

  lemma {:induction false} FlushHolds(b: Buffer, all: set<EncodedEntry>)
    requires Holds(b, all)
    ensures Holds(Flush(b), all) && Flush(b).next !in Flush(b).pending
    decreases |b.pending|
  {
    if b.next in b.pending {
      FlushHolds(Buffer(b.written + [b.pending[b.next]], b.pending - {b.next}, b.next + 1), all);
    }
  }

  function Elements(es: seq<EncodedEntry>): set<EncodedEntry> { set e | e in es }

  lemma {:induction false} ArriveHolds(es: seq<EncodedEntry>)
    requires Distinct(es)
    ensures Holds(ArriveAll(es), Elements(es)) && ArriveAll(es).next !in ArriveAll(es).pending
    decreases |es|
  {
    if es != [] {
      hide Holds, Flush;
      var n := |es| - 1;
      var b, e := ArriveAll(es[..n]), es[n];
      ArriveHolds(es[..n]);
      forall x | x in Elements(es[..n])
        ensures x.index != e.index
      {
        var i :| 0 <= i < n && es[..n][i] == x;
      }
      InsertHolds(b, Elements(es[..n]), e);
      assert Elements(es) == Elements(es[..n]) + {e};
      FlushHolds(b.(pending := b.pending[e.index := e]), Elements(es));
    }
  }

  lemma InsertHolds(b: Buffer, all: set<EncodedEntry>, e: EncodedEntry)
    requires Holds(b, all) && forall x :: x in all ==> x.index != e.index
    ensures Holds(b.(pending := b.pending[e.index := e]), all + {e})
  {
    if e.index < b.next {
      HasIndex(b.written, e.index);
    }
  }

  lemma HasIndex(w: seq<EncodedEntry>, i: nat)
    requires i < |w| && forall k :: 0 <= k < |w| ==> w[k].index == k
    ensures exists e :: e in w && e.index == i
  {
    assert w[i] in w && w[i].index == i;
  }

  /** After any arrivals with distinct indices: what is written is exactly the arrivals below
      the first missing index, in index order; what waits is exactly the arrivals beyond it. */
  lemma FirstGap(es: seq<EncodedEntry>)
    requires Distinct(es)
    ensures var b := ArriveAll(es);
            && (forall e :: e in es ==> e.index != b.next)
            && |b.written| == b.next && (forall k :: 0 <= k < b.next ==> b.written[k] in es && b.written[k].index == k)
            && (forall e :: e in es && e.index < b.next ==> b.written[e.index] == e)
            && (forall e :: e in es && e.index > b.next <==> e in b.pending.Values)
  {
    ArriveHolds(es);
    var b := ArriveAll(es);
    forall e
      ensures e in es && e.index > b.next <==> e in b.pending.Values
    {
      if e in es && e.index > b.next {
        assert e in Elements(es);
        assert b.pending[e.index] == e;
      }
      if e in b.pending.Values {
        var k :| k in b.pending && b.pending[k] == e;
      }
    }
    assert forall e :: e in es ==> e in Elements(es);
  }

  // ---------------------------------------------------------------- independence of the order

  /** The sorted output depends only on which entries arrived. */
  lemma SortedOutputIsUnique(es: seq<EncodedEntry>, fs: seq<EncodedEntry>)
    requires Distinct(es) && Distinct(fs) && multiset(es) == multiset(fs)
    ensures ArriveAll(es).written == ArriveAll(fs).written
  {
    FirstGap(es);
    FirstGap(fs);
    SameMembers(es, fs);
    NotEarlier(es, fs);
    NotEarlier(fs, es);
  }

  lemma SameMembers(es: seq<EncodedEntry>, fs: seq<EncodedEntry>)
    requires multiset(es) == multiset(fs)
    ensures forall e :: e in es <==> e in fs
  {
    forall e
      ensures e in es <==> e in fs
    {
      assert e in es <==> e in multiset(es);
      assert e in fs <==> e in multiset(fs);
    }
  }

  lemma NotEarlier(es: seq<EncodedEntry>, fs: seq<EncodedEntry>)
    requires Distinct(es) && Distinct(fs) && forall e :: e in es <==> e in fs
    ensures ArriveAll(es).next >= ArriveAll(fs).next
  {
    FirstGap(es);
    FirstGap(fs);
    var b, c := ArriveAll(es), ArriveAll(fs);
    if b.next < c.next {
      HasIndex(c.written, b.next);
    }
  }

  /** Everything is written and nothing waits, if and only if the indices are 0..n: otherwise
      all entries past the first missing index are lost without an error. */
  lemma AllWritten(es: seq<EncodedEntry>)
    requires Distinct(es)
    ensures multiset(ArriveAll(es).written) == multiset(es) <==> forall e :: e in es ==> e.index < |es|
    ensures multiset(ArriveAll(es).written) == multiset(es) <==> ArriveAll(es).pending == map[]
  {
    hide ArriveAll, Distinct;
    var b := ArriveAll(es);
    WrittenCounts(es);
    if forall e :: e in es ==> e.index < |es| {
      FirstGap(es);
      Pigeonhole(es, b.next);
      assert multiset(b.written) == multiset(es);
    }
    if multiset(b.written) == multiset(es) {
      NothingWaits(es);
    }
    if b.pending == map[] {
      FirstGap(es);
      assert multiset(b.written) == multiset(es);
    }
  }

  lemma WrittenCounts(es: seq<EncodedEntry>)
    requires Distinct(es)
    ensures forall e :: multiset(es)[e] == if e in es then 1 else 0
    ensures forall e :: multiset(ArriveAll(es).written)[e] == if e in es && e.index < ArriveAll(es).next then 1 else 0
  {
    hide ArriveAll;
    FirstGap(es);
    IndexInjective(es);
    assert Distinct(ArriveAll(es).written);
    IndexInjective(ArriveAll(es).written);
  }

  lemma NothingWaits(es: seq<EncodedEntry>)
    requires Distinct(es) && multiset(ArriveAll(es).written) == multiset(es)
    ensures ArriveAll(es).pending == map[] && forall e :: e in es ==> e.index < |es|
  {
    hide ArriveAll, Distinct;
    var b := ArriveAll(es);
    FirstGap(es);
    WrittenCounts(es);
    assert |b.written| == |multiset(b.written)| == |multiset(es)| == |es|;
    forall e | e in es
      ensures e.index < |es| && e.index < b.next
    {
      assert multiset(es)[e] == 1;
    }
    if b.pending != map[] {
      HasValues(b.pending);
    }
    assert b.pending.Values == {};
  }

  lemma HasValues(m: map<nat, EncodedEntry>)
    requires m != map[]
    ensures m.Values != {}
  {
    var k :| k in m;
    assert m[k] in m.Values;
  }

  lemma {:induction false} IndexInjective(es: seq<EncodedEntry>)
    requires Distinct(es)
    ensures forall e :: multiset(es)[e] == if e in es then 1 else 0
    decreases |es|
  {
    if es != [] {
      var n := |es| - 1;
      IndexInjective(es[..n]);
      assert es == es[..n] + [es[n]];
      assert es[n] !in es[..n];
    }
  }

  /** Distinct indices below n = |es|: none is missing, so the first gap is n. */
  lemma Pigeonhole(es: seq<EncodedEntry>, gap: nat)
    requires Distinct(es) && (forall e :: e in es ==> e.index < |es|) && (forall e :: e in es ==> e.index != gap)
    ensures gap >= |es|
  {
    var used := set i | 0 <= i < |es| :: es[i].index;
    CountIndices(es);
    var all := Below(|es|);
    BelowFacts(|es|);
    if gap < |es| {
      assert used <= all - {gap};
      SubsetSize(used, all - {gap});
    }
  }

  lemma {:induction false} CountIndices(es: seq<EncodedEntry>)
    requires Distinct(es)
    ensures |set i | 0 <= i < |es| :: es[i].index| == |es|
    decreases |es|
  {
    if es != [] {
      var n := |es| - 1;
      CountIndices(es[..n]);
      var prior := set i | 0 <= i < n :: es[..n][i].index;
      assert (set i | 0 <= i < |es| :: es[i].index) == prior + {es[n].index};
    }
  }

  // ---------------------------------------------------------------- the loop

  /** Receives every arrival and writes to the archive. */
  method WriteArrivals(sort: bool, arrivals: seq<EncodedEntry>, zw: ZipWriter)
    requires zw.Valid()
    modifies zw
    ensures zw.Valid()
    ensures zw.written == old(zw.written) + if sort then ArriveAll(arrivals).written else arrivals
  {
    hide *;
    if sort {
      var pending: map<nat, EncodedEntry> := map[];
      var nextIdx := 0;
      Started(zw.written, arrivals);
      for n := 0 to |arrivals|
        invariant zw.Valid()
        invariant Synced(zw.written, old(zw.written), pending, nextIdx, ArriveAll(arrivals[..n]))
      {
        ghost var goal := ArriveAll(arrivals[..n + 1]);
        Received(arrivals, n, zw.written, old(zw.written), pending, nextIdx);
        pending := pending[arrivals[n].index := arrivals[n]];
        while nextIdx in pending
          invariant zw.Valid() && Leads(zw.written, old(zw.written), pending, nextIdx, goal)
          decreases |pending|
        {
          FlushOne(zw.written, old(zw.written), pending, nextIdx, goal);
          zw.WriteEntry(pending[nextIdx]);
          pending := pending - {nextIdx};
          nextIdx := nextIdx + 1;
        }
        Flushed(zw.written, old(zw.written), pending, nextIdx, goal);
      }
      assert arrivals[..|arrivals|] == arrivals;
      SyncedWritten(zw.written, old(zw.written), pending, nextIdx, ArriveAll(arrivals));
    } else {
      for n := 0 to |arrivals|
        invariant zw.Valid() && zw.written == old(zw.written) + arrivals[..n]
      {
        zw.WriteEntry(arrivals[n]);
      }
      assert arrivals[..|arrivals|] == arrivals;
    }
  }

  /** The loop's variables are those of buffer `b`; `before` was written earlier. */
  ghost predicate Synced(written: seq<EncodedEntry>, before: seq<EncodedEntry>, pending: map<nat, EncodedEntry>,
                         next: nat, b: Buffer)
  {
    written == before + b.written && pending == b.pending && next == b.next
  }

  /** Flushing the loop's variables leads to `goal`. */
  ghost predicate Leads(written: seq<EncodedEntry>, before: seq<EncodedEntry>, pending: map<nat, EncodedEntry>,
                        next: nat, goal: Buffer)
  {
    exists w :: written == before + w && Flush(Buffer(w, pending, next)) == goal
  }

  lemma Started(before: seq<EncodedEntry>, arrivals: seq<EncodedEntry>)
    ensures Synced(before, before, map[], 0, ArriveAll(arrivals[..0]))
  {
  }

  lemma Received(arrivals: seq<EncodedEntry>, n: nat, written: seq<EncodedEntry>, before: seq<EncodedEntry>,
                 pending: map<nat, EncodedEntry>, next: nat)
    requires n < |arrivals| && Synced(written, before, pending, next, ArriveAll(arrivals[..n]))
    ensures Leads(written, before, pending[arrivals[n].index := arrivals[n]], next, ArriveAll(arrivals[..n + 1]))
  {
    hide Flush;
    assert arrivals[..n + 1][..n] == arrivals[..n];
  }

  lemma FlushOne(written: seq<EncodedEntry>, before: seq<EncodedEntry>, pending: map<nat, EncodedEntry>, next: nat,
                 goal: Buffer)
    requires Leads(written, before, pending, next, goal) && next in pending
    ensures Leads(written + [pending[next]], before, pending - {next}, next + 1, goal)
    ensures |pending - {next}| < |pending|
  {
    var w :| written == before + w && Flush(Buffer(w, pending, next)) == goal;
    assert written + [pending[next]] == before + (w + [pending[next]]);
  }

  lemma Flushed(written: seq<EncodedEntry>, before: seq<EncodedEntry>, pending: map<nat, EncodedEntry>, next: nat,
                goal: Buffer)
    requires Leads(written, before, pending, next, goal) && next !in pending
    ensures Synced(written, before, pending, next, goal)
  {
  }

  lemma SyncedWritten(written: seq<EncodedEntry>, before: seq<EncodedEntry>, pending: map<nat, EncodedEntry>,
                      next: nat, b: Buffer)
    requires Synced(written, before, pending, next, b)
    ensures written == before + b.written
  {
  }
}
