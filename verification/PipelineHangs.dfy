/** Which configurations can hang, exactly: a run hangs when no event at all can happen any more
    and the program is not over. */
module PipelineHangs {
  import opened Bytes
  import opened Items
  import opened Sequences
  import opened Splitter
  import opened Pipeline
  import opened PipelineLaws
  import opened PipelineRuns

  // ---------------------------------------------------------------- the conditions

  /** More items than the readers, the feeder's hand, the walker's channel and its hand take. */
  predicate ManyItems(c: Config) { |c.items| >= c.readJobs + Max(2 * c.readJobs, 64) + 2 }

  /** The walker may be left behind by a bridge that has stopped receiving. */
  predicate WalkCanBlock(c: Config) { c.streaming && !c.bulk && ManyItems(c) }

  /** The most chunks in a run that does not end by itself. A failing walk makes the feed shorter,
      and a shorter feed may give more chunks; but without workers the main thread is past the
      writer's loop and ends the program with the walker's error. */
  function MostChunks(c: Config): nat
  {
    var readers := if c.bulk then Max(c.readJobs, 1) else c.readJobs;
    if c.streaming && c.cpuJobs > 0 then Min(|c.items|, readers) else ChunkCount(|c.items|, readers)
  }

  function ChunkCount(total: nat, n: nat): nat
  {
    if total == 0 || n == 0 then 0
    else
      var share := (total + n - 1) / n;
      PerReaderPositive(total, n);
      (total + share - 1) / share
  }

  /** There may be more readers at work than volumes. */
  predicate PoolCanDry(c: Config) { c.bulk && c.pool.Some? && c.pool.value < MostChunks(c) }

  predicate CanHang(c: Config) { WalkCanBlock(c) || PoolCanDry(c) }

  ghost predicate Dead(c: Config, s: State) { forall e :: !Enabled(c, s, e) }

  ghost predicate Hangs(c: Config, es: seq<Event>)
  {
    Legal(c, Init(c), es) && Dead(c, Final(c, es)) && !Finished(Final(c, es))
  }

  // ---------------------------------------------------------------- counting chunks

  lemma {:induction false} PiecesCount(items: seq<Job>, per: nat)
    requires per > 0
    ensures |Pieces(items, per)| == (|items| + per - 1) / per && |Pieces(items, per)| <= |items|
    decreases |items|
  {
    if items == [] {
      Quotient(per - 1, per, 0);
    } else {
      PiecesCount(items[Min(per, |items|)..], per);
      OneMorePiece(|items|, per);
    }
  }

  lemma OneMorePiece(total: nat, per: nat)
    requires 0 < total && 0 < per
    ensures (total + per - 1) / per == 1 + (total - Min(per, total) + per - 1) / per
  {
    var rest := total - Min(per, total) + per - 1;
    var q := rest / per;
    assert per * q <= rest < per * q + per;
    Quotient(total + per - 1, per, if total < per then 1 else q + 1);
    if total < per {
      Quotient(rest, per, 0);
    }
  }

  lemma ChunksCount(items: seq<Job>, n: nat)
    requires n > 0
    ensures |Chunks(items, n)| == ChunkCount(|items|, n) <= Min(|items|, n)
  {
    ChunksLaws(items, n);
    if items != [] {
      PerReaderPositive(|items|, n);
      PiecesCount(items, PerReader(|items|, n));
    }
  }

  lemma OneEach(total: nat, n: nat)
    requires total <= n
    ensures ChunkCount(total, n) == total
  {
    if total > 0 {
      Quotient(total + n - 1, n, 1);
      Quotient(total, 1, total);
    }
  }

  // ---------------------------------------------------------------- what every run keeps

  function Has<A>(x: Option<A>): nat { if x.Some? then 1 else 0 }

  function Hand(f: Feeder): nat { if f.Feeding? then Has(f.hand) else 0 }

  function Found(w: Walker): nat { if w.Walking? then Has(w.found) else 0 }

  function Taken(r: Reader): nat { if r.Idle? then 0 else 1 }

  /** Each reader that is not idle has taken an item, so the feeder has numbered one for it. */
  ghost predicate WalkInv(c: Config, s: State)
  {
    && |s.readers| == Readers(c)
    && s.numbered + |s.walkQ| + Found(s.walker) + |s.walk| <= |c.items|
    && (!c.streaming ==> s.walker.NoWalker?)
    && (c.bulk && !s.feeder.NoFeeder? ==> s.splitter.Collecting?)
    && (!c.bulk && s.feeder.Feeding? ==> s.numbered >= Hand(s.feeder) + |s.feedQ| + Sum(Taken, s.readers))
    && (s.feeder.Joining? && s.walker.Walking? ==> !c.bulk && s.numbered >= c.readJobs + 1)
  }

  lemma {:induction false} AllTaken(rs: seq<Reader>)
    requires forall r :: 0 <= r < |rs| ==> rs[r].NoReader?
    ensures Sum(Taken, rs) == |rs|
    decreases |rs|
  {
    if rs != [] {
      AllTaken(rs[..|rs| - 1]);
    }
  }

  lemma WalkInvFeed(c: Config, s: State, e: Event)
    requires WalkInv(c, s) && Enabled(c, s, e) && InputEvent(e)
    ensures WalkInv(c, Apply(c, s, e))
  {
    hide ReadBound, WalkBound, EncBound, Chunks, Sum, Taken;
    InputFrame(c, s, e);
    if e.Feed? && !FeedHeard(c, s) {
      AllTaken(s.readers);
    }
  }

  lemma WalkInvRest(c: Config, s: State, e: Event)
    requires WalkInv(c, s) && Enabled(c, s, e) && (WorkerEvent(e) || WriterEvent(e))
    ensures WalkInv(c, Apply(c, s, e))
  {
    if WorkerEvent(e) {
      WorkerFrame(c, s, e);
    } else {
      WriterFrame(c, s, e);
    }
    hide Enabled, Apply, Sum, Taken;
  }

  lemma WalkInvReader(c: Config, s: State, e: Event)
    requires WalkInv(c, s) && Enabled(c, s, e) && ReaderEvent(e)
    ensures WalkInv(c, Apply(c, s, e))
  {
    hide ReadBound, WalkBound, EncBound, Chunks, Without, Fetch, Encode, Sum;
    SumUpdate(Taken, s.readers, e.r, Apply(c, s, e).readers[e.r]);
  }

  lemma {:induction false} RunWalkInv(c: Config, es: seq<Event>)
    requires Legal(c, Init(c), es)
    ensures WalkInv(c, Final(c, es))
    decreases |es|
  {
    hide Apply, Enabled;
    if es == [] {
      SumConstant(Taken, Init(c).readers, 0);
    } else {
      var n := |es| - 1;
      RunWalkInv(c, es[..n]);
      hide WalkInv, Init;
      if ReaderEvent(es[n]) {
        WalkInvReader(c, Final(c, es[..n]), es[n]);
      } else if InputEvent(es[n]) {
        WalkInvFeed(c, Final(c, es[..n]), es[n]);
      } else {
        WalkInvRest(c, Final(c, es[..n]), es[n]);
      }
    }
  }

  lemma BlockedNeedsItems(c: Config, s: State)
    requires WalkInv(c, s) && WalkerBlocked(c, s)
    ensures WalkCanBlock(c)
  {
    hide Sum, Taken;
  }

  // ---------------------------------------------------------------- the pool

  function AtWork(r: Reader): nat { if r.Busy? then 1 else 0 }

  function InLine(r: Reader): nat { if r.Waiting? then 1 else 0 }

  /** What the splitter still gets. */
  function ToCome(s: State): nat
    requires s.splitter.Collecting?
  {
    |s.splitter.got| + |s.feedQ| + Hand(s.feeder) + |s.walkQ| + Found(s.walker) + |s.walk|
  }

  predicate WalkFailed(s: State) { s.walker == NoWalker(true) }

  /** The most chunks that the splitter can have made. */
  function ChunkLimit(c: Config, s: State): nat
  {
    if WalkFailed(s) then Min(|c.items|, Readers(c)) else ChunkCount(|c.items|, Readers(c))
  }

  /** Volumes are in the pool, at work, or lost with a chunk; every chunk is in a queue, at work,
      in line, or lost. */
  ghost predicate PoolInv(c: Config, s: State)
  {
    && |s.readers| == Readers(c) && (!c.streaming ==> s.walker == NoWalker(false))
    && (s.walker.NoWalker? ==> s.walk == [])
    && (c.bulk ==> !s.feeder.Feeding? ==> s.walkQ == [] && s.walker.NoWalker?)
    && (!Pooled(c) ==> Sum(InLine, s.readers) == 0)
    && (Pooled(c) ==>
          && s.volumes + Sum(AtWork, s.readers) <= c.pool.value
          && if s.splitter.Collecting? then
               && s.volumes == c.pool.value && s.chunkQ == [] && Sum(InLine, s.readers) == 0
               && ToCome(s) <= |c.items| && (!WalkFailed(s) ==> ToCome(s) == |c.items|)
             else
               && s.feeder.NoFeeder?
               && (if s.splitter.Sending? then |s.splitter.chunks| else 0) + |s.chunkQ|
                  + (c.pool.value - s.volumes) + Sum(InLine, s.readers) <= ChunkLimit(c, s))
  }

  lemma PoolInvFeed(c: Config, s: State, e: Event)
    requires PoolInv(c, s) && WalkInv(c, s) && Enabled(c, s, e) && InputEvent(e) && !e.Split?
    ensures PoolInv(c, Apply(c, s, e))
  {
    hide ReadBound, WalkBound, EncBound, Chunks, AnyReader, Sum, Taken, InLine, AtWork, ChunkCount;
    InputFrame(c, s, e);
  }

  lemma PoolInvRest(c: Config, s: State, e: Event)
    requires PoolInv(c, s) && Enabled(c, s, e) && (WorkerEvent(e) || WriterEvent(e))
    ensures PoolInv(c, Apply(c, s, e))
  {
    if WorkerEvent(e) {
      WorkerFrame(c, s, e);
    } else {
      WriterFrame(c, s, e);
    }
    hide Enabled, Apply, Sum, InLine, AtWork, ChunkCount;
  }

  lemma PoolInvSplit(c: Config, s: State)
    requires PoolInv(c, s) && Enabled(c, s, Split)
    ensures PoolInv(c, Apply(c, s, Split))
  {
    hide Chunks, Sum, InLine, AtWork;
    if c.bulk {
      ChunksCount(s.splitter.got, Max(c.readJobs, 1));
    }
  }

  /** A reader changes its place in the accounts, and nothing else does but volumes and chunks. */
  lemma PoolCounts(c: Config, s: State, e: Event)
    requires Enabled(c, s, e) && ReaderEvent(e)
    ensures e.r < |s.readers| == |Apply(c, s, e).readers|
    ensures var s' := Apply(c, s, e);
            && Sum(InLine, s'.readers) + InLine(s.readers[e.r]) == Sum(InLine, s.readers) + InLine(s'.readers[e.r])
            && Sum(AtWork, s'.readers) + AtWork(s.readers[e.r]) == Sum(AtWork, s.readers) + AtWork(s'.readers[e.r])
            && Sum(InLine, s.readers) >= InLine(s.readers[e.r]) && Sum(AtWork, s.readers) >= AtWork(s.readers[e.r])
  {
    ReaderFrame(c, s, e);
    hide Enabled, Apply, Sum, InLine, AtWork;
    SumUpdate(InLine, s.readers, e.r, Apply(c, s, e).readers[e.r]);
    SumUpdate(AtWork, s.readers, e.r, Apply(c, s, e).readers[e.r]);
    SumAtLeast(InLine, s.readers, e.r);
    SumAtLeast(AtWork, s.readers, e.r);
  }

  lemma PoolInvMoves(c: Config, s: State, e: Event)
    requires PoolInv(c, s) && Enabled(c, s, e) && (e.Take? || e.Acquire? || e.Finish?)
    ensures PoolInv(c, Apply(c, s, e))
  {
    hide ChunkCount, Sum;
    PoolCounts(c, s, e);
  }

  lemma PoolInvStays(c: Config, s: State, e: Event)
    requires PoolInv(c, s) && Enabled(c, s, e) && ReaderEvent(e) && !e.Take? && !e.Acquire? && !e.Finish?
    ensures PoolInv(c, Apply(c, s, e))
  {
    hide ReadBound, Without, Fetch, ChunkCount, Sum, AnyWorker, SourceDry;
    PoolCounts(c, s, e);
  }

  lemma {:induction false} SumAtLeast<A>(w: A -> nat, s: seq<A>, i: nat)
    requires i < |s|
    ensures Sum(w, s) >= w(s[i])
    decreases |s|
  {
    if i < |s| - 1 {
      SumAtLeast(w, s[..|s| - 1], i);
    }
  }

  lemma {:induction false} RunPoolInv(c: Config, es: seq<Event>)
    requires Legal(c, Init(c), es)
    ensures PoolInv(c, Final(c, es))
    decreases |es|
  {
    hide Apply, Enabled;
    if es == [] {
      SumConstant(InLine, Init(c).readers, 0);
      SumConstant(AtWork, Init(c).readers, 0);
    } else {
      var n := |es| - 1;
      var s := Final(c, es[..n]);
      RunPoolInv(c, es[..n]);
      RunWalkInv(c, es[..n]);
      hide PoolInv, WalkInv, Init;
      if es[n].Take? || es[n].Acquire? || es[n].Finish? {
        PoolInvMoves(c, s, es[n]);
      } else if ReaderEvent(es[n]) {
        PoolInvStays(c, s, es[n]);
      } else if es[n].Split? {
        PoolInvSplit(c, s);
      } else if InputEvent(es[n]) {
        PoolInvFeed(c, s, es[n]);
      } else {
        PoolInvRest(c, s, es[n]);
      }
    }
  }

  /** A dry pool has lost all its volumes to readers that took a chunk each, and one more chunk
      waits. */
  lemma DryNeedsChunks(c: Config, s: State)
    requires PoolInv(c, s) && PoolDry(s)
    ensures Pooled(c) && c.pool.value < ChunkLimit(c, s)
  {
    hide Sum, ChunkCount;
    var r :| 0 <= r < |s.readers| && s.readers[r].Waiting?;
    SumAtLeast(InLine, s.readers, r);
  }

  /** If the program is not over, then either there are workers, or the walk has not failed. */
  lemma DryWithoutEnd(c: Config, s: State)
    requires Stuck(c, s) && Shaped(c, s) && PoolInv(c, s) && PoolDry(s) && !Finished(s)
    requires |s.workers| == c.cpuJobs
    ensures PoolCanDry(c)
  {
    DryNeedsChunks(c, s);
    hide Sum, InLine, AtWork;
    if c.cpuJobs == 0 {
      NoWork(c, s);
      assert !AnyWorker(s) && !Enabled(c, s, WriterEnd);
      if WalkFailed(s) && s.feeder.NoFeeder? {
        WalkErrorEnds(c, s);
      }
    } else if WalkFailed(s) {
      assert c.streaming;
    } else {
      FewerChunks(c);
    }
  }

  /** The feeder is joined first, and returns the walker's error. */
  lemma WalkErrorEnds(c: Config, s: State)
    requires Shaped(c, s) && WalkFailed(s) && s.feeder.NoFeeder?
    ensures Joined(Statuses(s)).Failed?
  {
  }

  lemma FewerChunks(c: Config)
    requires c.bulk
    ensures ChunkCount(|c.items|, Readers(c)) <= Min(|c.items|, Readers(c))
  {
    ChunksCount(Fed(c), Readers(c));
  }

  /** Without faults every volume is in the pool or at work. */
  lemma {:induction false} FaultFreePool(c: Config, es: seq<Event>)
    requires Legal(c, Init(c), es) && NoFault(es)
    ensures var s := Final(c, es); Pooled(c) ==> s.volumes + Sum(AtWork, s.readers) == c.pool.value
    decreases |es|
  {
    hide Apply, Enabled;
    if es == [] {
      SumConstant(AtWork, Init(c).readers, 0);
    } else {
      var n := |es| - 1;
      FaultFreePool(c, es[..n]);
      hide Init;
      VolumesKept(c, Final(c, es[..n]), es[n]);
    }
  }

  lemma VolumesKept(c: Config, s: State, e: Event)
    requires Enabled(c, s, e) && !Fault(e)
    ensures var s' := Apply(c, s, e);
            Pooled(c) ==> s'.volumes + Sum(AtWork, s'.readers) == s.volumes + Sum(AtWork, s.readers)
  {
    hide Sum;
    if ReaderEvent(e) {
      hide ReadBound, Without, Fetch, AnyWorker, SourceDry;
      PoolCounts(c, s, e);
    } else {
      hide Apply, Enabled;
      SameReaders(c, s, e);
    }
  }

  lemma SameReaders(c: Config, s: State, e: Event)
    requires Enabled(c, s, e) && !ReaderEvent(e)
    ensures Apply(c, s, e).readers == s.readers && Apply(c, s, e).volumes == s.volumes
  {
    hide Apply, Enabled;
    if InputEvent(e) {
      InputFrame(c, s, e);
    } else if WorkerEvent(e) {
      WorkerFrame(c, s, e);
    } else {
      WriterFrame(c, s, e);
    }
  }

  // ---------------------------------------------------------------- no hang without the condition

  /** A hang has a blocked walker or a dry pool, and so the configuration allows one. */
  lemma HangNeeds(c: Config, es: seq<Event>)
    requires Legal(c, Init(c), es) && Stuck(c, Final(c, es)) && !Finished(Final(c, es))
    ensures CanHang(c)
    ensures NoFault(es) ==> WalkCanBlock(c) && !Staffed(c)
  {
    var s := Final(c, es);
    RunShaped(c, es);
    RunWalkInv(c, es);
    RunPoolInv(c, es);
    WorkersKept(c, es);
    hide Stuck, Shaped, WalkInv, PoolInv, Init, WalkCanBlock, PoolCanDry, Finished;
    StuckMeansFinished(c, s);
    if WalkerBlocked(c, s) {
      BlockedNeedsItems(c, s);
      if NoFault(es) && Staffed(c) {
        RunInOrder(c, es);
        OrderedNotBlocked(c, s);
      }
    } else {
      DryWithoutEnd(c, s);
      if NoFault(es) {
        FaultFreePool(c, es);
        NobodyAtWork(s);
      }
    }
  }

  lemma {:induction false} WorkersKept(c: Config, es: seq<Event>)
    requires Legal(c, Init(c), es)
    ensures |Final(c, es).workers| == c.cpuJobs
    decreases |es|
  {
    hide Enabled, Apply;
    if es != [] {
      var n := |es| - 1;
      WorkersKept(c, es[..n]);
      hide Init;
      SameWorkers(c, Final(c, es[..n]), es[n]);
    }
  }

  lemma SameWorkers(c: Config, s: State, e: Event)
    requires Enabled(c, s, e)
    ensures |Apply(c, s, e).workers| == |s.workers|
  {
    hide ReadBound, WalkBound, EncBound, Chunks, Without, Fetch, Encode, FeedHeard, AnyReader, AnyWorker, SourceDry;
  }

  lemma OrderedNotBlocked(c: Config, s: State)
    requires InOrder(c, s)
    ensures !WalkerBlocked(c, s)
  {
  }

  lemma NobodyAtWork(s: State)
    requires PoolDry(s)
    ensures s.volumes + Sum(AtWork, s.readers) == 0
  {
    SumConstant(AtWork, s.readers, 0);
  }

  /** From wherever a run stands the threads can go on, without faults, until the program is
      over: always if the configuration cannot hang, and if it can, then as long as no thread has
      failed and there are a reader and a worker. */
  lemma CanFinish(c: Config, es: seq<Event>) returns (more: seq<Event>)
    requires Legal(c, Init(c), es) && (!CanHang(c) || (NoFault(es) && Staffed(c)))
    ensures NoFault(more) && Complete(c, es + more)
  {
    hide CanHang, Init, Stuck, Staffed;
    more := GoOn(c, es);
    if !Finished(Final(c, es + more)) {
      HangNeeds(c, es + more);
    }
  }

  // ---------------------------------------------------------------- traps

  /** The first reader waits at a dry pool, and the main thread either still waits for workers, or
      blocks on joining that reader. */
  predicate ReaderTrap(c: Config, s: State)
  {
    && Pooled(c) && s.volumes == 0 && s.readers != [] && s.readers[0].Waiting?
    && (forall r :: 0 <= r < |s.readers| ==> !s.readers[r].Busy?)
    && s.feeder.NoFeeder? && s.walker.NoWalker? && ((s.writer.Writing? && AnyWorker(s)) || !s.feeder.failed)
  }

  /** States that no event without a fault leads out of, and none at all once nothing else steps. */
  predicate Trapped(c: Config, s: State)
  {
    !s.writer.WriteFailed? && (WalkerBlocked(c, s) || ReaderTrap(c, s))
  }

  lemma BlockedHolds(c: Config, s: State, e: Event)
    requires WalkerBlocked(c, s) && Enabled(c, s, e)
    ensures WalkerBlocked(c, Apply(c, s, e))
  {
    hide ReadBound, WalkBound, EncBound, Chunks, Without, Fetch, Encode, AnyReader, AnyWorker, FeedHeard, SourceDry;
  }

  lemma ReadersHold(c: Config, s: State, e: Event)
    requires ReaderTrap(c, s) && Enabled(c, s, e) && ReaderEvent(e)
    ensures ReaderTrap(c, Apply(c, s, e))
  {
    hide ReadBound, WalkBound, EncBound, Chunks, Without, Fetch, Encode, AnyReader, FeedHeard, SourceDry;
    assert e.r != 0;
    assert Apply(c, s, e).readers[0].Waiting? && Apply(c, s, e).workers == s.workers;
  }

  lemma WorkersHold(c: Config, s: State, e: Event)
    requires ReaderTrap(c, s) && Enabled(c, s, e) && WorkerEvent(e) && !Fault(e)
    ensures ReaderTrap(c, Apply(c, s, e))
  {
    hide ReadBound, WalkBound, EncBound, Chunks, Without, Fetch, Encode, FeedHeard, SourceDry;
    var s' := Apply(c, s, e);
    assert s'.readers == s.readers && AnyReader(s);
    if s.writer.Writing? {
      assert !s'.workers[e.w].NoWorker?;
    }
  }

  lemma OthersHold(c: Config, s: State, e: Event)
    requires ReaderTrap(c, s) && Enabled(c, s, e) && !WorkerEvent(e) && !ReaderEvent(e) && !Fault(e)
    ensures ReaderTrap(c, Apply(c, s, e))
  {
    hide ReadBound, WalkBound, EncBound, Chunks, Without, Fetch, Encode, AnyReader, FeedHeard, SourceDry;
    assert Apply(c, s, e).readers == s.readers && Apply(c, s, e).workers == s.workers;
  }

  lemma WriterHolds(c: Config, s: State, e: Event)
    requires !s.writer.WriteFailed? && Enabled(c, s, e) && !Fault(e)
    ensures !Apply(c, s, e).writer.WriteFailed?
  {
    hide ReadBound, WalkBound, EncBound, Chunks, Without, Fetch, Encode, AnyReader, AnyWorker, FeedHeard, SourceDry;
  }

  lemma TrapHolds(c: Config, s: State, e: Event)
    requires Trapped(c, s) && Enabled(c, s, e) && !Fault(e)
    ensures Trapped(c, Apply(c, s, e))
  {
    hide Enabled, Apply, WalkerBlocked, ReaderTrap, Fault, ReaderEvent, WorkerEvent;
    WriterHolds(c, s, e);
    if WalkerBlocked(c, s) {
      BlockedHolds(c, s, e);
    } else if ReaderEvent(e) {
      ReadersHold(c, s, e);
    } else if WorkerEvent(e) {
      WorkersHold(c, s, e);
    } else {
      OthersHold(c, s, e);
    }
  }

  lemma {:induction false} TrapLasts(c: Config, es: seq<Event>, more: seq<Event>)
    requires Legal(c, Init(c), es + more) && NoFault(more)
    requires Legal(c, Init(c), es) && Trapped(c, Final(c, es))
    ensures Trapped(c, Final(c, es + more))
    decreases |more|
  {
    hide Apply, Enabled, Trapped, Init, Fault;
    if more == [] {
      assert es + more == es;
    } else {
      var n := |more| - 1;
      assert (es + more)[..|es + more| - 1] == es + more[..n];
      TrapLasts(c, es, more[..n]);
      TrapHolds(c, Final(c, es + more[..n]), more[n]);
    }
  }

  lemma TrapIsDead(c: Config, s: State)
    requires Trapped(c, s) && Stuck(c, s)
    ensures Dead(c, s) && !Finished(s)
  {
    NoWork(c, s);
    NoReading(c, s);
    forall e
      ensures !Enabled(c, s, e)
    {
      assert Enabled(c, s, e) ==> Fault(e) || e.Drop?;
    }
    hide Stuck, Dead, Enabled;
    TrapIsNoEnd(c, s);
  }

  lemma TrapIsNoEnd(c: Config, s: State)
    requires Trapped(c, s)
    ensures !Finished(s)
  {
    var ts := Statuses(s);
    if WalkerBlocked(c, s) {
      JoinedBlocks(ts, 0);
    } else if !s.feeder.failed {
      assert ts[0].Ended? && !ts[1].Failed? && ts[2] == ReaderStatus(s.readers[0]);
      JoinedBlocks(ts, 2);
    }
  }

  /** A run that is trapped can go on, without faults, until it hangs. */
  lemma TrapHangs(c: Config, es: seq<Event>) returns (more: seq<Event>)
    requires Legal(c, Init(c), es) && Trapped(c, Final(c, es))
    ensures NoFault(more) && Hangs(c, es + more)
  {
    hide Trapped, Stuck, Dead, Init, Finished;
    more := GoOn(c, es);
    TrapLasts(c, es, more);
    TrapIsDead(c, Final(c, es + more));
  }

  // ---------------------------------------------------------------- leading into the walker's trap

  /** One more event of a run. */
  lemma Next(c: Config, es: seq<Event>, e: Event) returns (longer: seq<Event>)
    requires Legal(c, Init(c), es) && Enabled(c, Final(c, es), e)
    ensures longer == es + [e] && Legal(c, Init(c), longer) && Final(c, longer) == Apply(c, Final(c, es), e)
    ensures NoFault(es) && !Fault(e) ==> NoFault(longer)
  {
    LegalStep(c, Init(c), es, e);
    longer := es + [e];
  }

  /** The first `k` of `n` readers are gone, the others idle. */
  function Gone(n: nat, k: nat, failed: bool): (rs: seq<Reader>)
    ensures |rs| == n
  {
    seq(n, i => if i < k then NoReader(failed) else Idle)
  }

  lemma OneMoreGone(n: nat, k: nat, failed: bool, x: Reader)
    requires k < n
    ensures Gone(n, k, failed)[k] == Idle
    ensures Gone(n, k, failed)[k := x][k := NoReader(failed)] == Gone(n, k + 1, failed)
  {
  }

  /** After `k` items: `dead` readers are gone and nothing else is under way. */
  function Led(c: Config, k: nat, dead: nat): State
    requires k <= |c.items|
  {
    Init(c).(walk := c.items[k..], numbered := k, readers := Gone(Readers(c), dead, c.cpuJobs > 0))
  }

  lemma LedStart(c: Config)
    requires c.streaming
    ensures Legal(c, Init(c), []) && Final(c, []) == Led(c, 0, 0)
  {
    assert Gone(Readers(c), 0, c.cpuJobs > 0) == seq(Readers(c), _ => Idle);
    assert c.items[0..] == c.items;
  }

  /** The next item reaches the feeder's hand. */
  lemma NextInHand(c: Config, es: seq<Event>, k: nat, dead: nat) returns (longer: seq<Event>)
    requires c.streaming && k < |c.items| && Legal(c, Init(c), es) && Final(c, es) == Led(c, k, dead)
    ensures Legal(c, Init(c), longer) && (NoFault(es) ==> NoFault(longer))
    ensures Final(c, longer) == Led(c, k + 1, dead).(feeder := Feeding(Some(Job(k, c.items[k]))))
  {
    hide Legal, After, NoFault, Readers, EncBound, ReadBound, Gone, Fed;
    var s := Led(c, k, dead);
    var x := c.items[k];
    assert [] + [x] == [x] && [x][1..] == [];
    longer := Next(c, es, WalkFind);
    assert Final(c, longer) == s.(walker := Walking(Some(x)), walk := c.items[k + 1..]);
    longer := Next(c, longer, WalkSend);
    assert Final(c, longer) == s.(walkQ := [x], walk := c.items[k + 1..]);
    longer := Next(c, longer, Receive);
  }

  lemma ServeReader(c: Config, es: seq<Event>, k: nat) returns (longer: seq<Event>)
    requires c.streaming && !c.bulk && k < |c.items| && k < c.readJobs
    requires Legal(c, Init(c), es) && Final(c, es) == Led(c, k, k)
    ensures Legal(c, Init(c), longer) && (NoFault(es) ==> NoFault(longer))
    ensures Final(c, longer)
            == Led(c, k + 1, k).(readers := Gone(Readers(c), k, c.cpuJobs > 0)[k := Busy([Job(k, c.items[k])], None)])
  {
    hide Legal, After, NoFault, EncBound, WalkBound;
    longer := NextInHand(c, es, k, k);
    var s := Led(c, k + 1, k);
    var j := Job(k, c.items[k]);
    assert s.readers[k] == Idle && AnyReader(s);
    longer := Next(c, longer, Feed);
    assert Final(c, longer) == s.(feedQ := [j]);
    longer := Next(c, longer, Take(k));
    assert [j][1..] == [];
  }

  /** A reader takes the next item and is gone: it fails to read it, or finds no worker left. */
  lemma LoseReader(c: Config, es: seq<Event>, k: nat) returns (longer: seq<Event>)
    requires c.streaming && !c.bulk && k < |c.items| && k < c.readJobs
    requires Legal(c, Init(c), es) && Final(c, es) == Led(c, k, k)
    ensures Legal(c, Init(c), longer) && Final(c, longer) == Led(c, k + 1, k + 1)
    ensures NoFault(es) && c.cpuJobs == 0 ==> NoFault(longer)
  {
    hide Legal, After, NoFault, EncBound, ReadBound, WalkBound;
    longer := ServeReader(c, es, k);
    var j := Job(k, c.items[k]);
    if c.cpuJobs > 0 {
      longer := Next(c, longer, ReadFails(k));
      OneMoreGone(Readers(c), k, true, Busy([j], None));
    } else {
      longer := Next(c, longer, Read(k, 0));
      assert Without([j], 0) == [];
      longer := Next(c, longer, Send(k));
      LostAtLast(Readers(c), k, false, Busy([j], None), Busy([], Some(Fetch(c, j))));
    }
  }

  lemma LostAtLast(n: nat, k: nat, failed: bool, x: Reader, y: Reader)
    requires k < n
    ensures Gone(n, k, failed)[k := x][k := y][k := NoReader(failed)] == Gone(n, k + 1, failed)
  {
  }

  lemma {:induction false} LoseReaders(c: Config, k: nat) returns (es: seq<Event>)
    requires c.streaming && !c.bulk && k <= |c.items| && k <= c.readJobs
    ensures Legal(c, Init(c), es) && Final(c, es) == Led(c, k, k)
    ensures c.cpuJobs == 0 || k == 0 ==> NoFault(es)
  {
    hide Legal, After, Led, Init;
    if k == 0 {
      es := [];
      LedStart(c);
    } else {
      es := LoseReaders(c, k - 1);
      es := LoseReader(c, es, k - 1);
    }
  }

  /** After the feeder has found no reader left, and `k` more items in the walker's channel. */
  function Left(c: Config, k: nat): State
    requires c.readJobs + 1 + k <= |c.items|
  {
    var at := c.readJobs + 1;
    Led(c, at, c.readJobs).(feeder := Joining, walk := c.items[at + k..], walkQ := c.items[at..at + k])
  }

  lemma LeaveWalker(c: Config) returns (es: seq<Event>)
    requires c.streaming && !c.bulk && c.readJobs + 1 <= |c.items|
    ensures Legal(c, Init(c), es) && Final(c, es) == Left(c, 0)
    ensures c.cpuJobs == 0 || c.readJobs == 0 ==> NoFault(es)
  {
    hide Legal, After, NoFault, EncBound, ReadBound, WalkBound;
    var n := c.readJobs;
    es := LoseReaders(c, n);
    es := NextInHand(c, es, n, n);
    assert !AnyReader(Led(c, n + 1, n));
    es := Next(c, es, Feed);
    assert c.items[n + 1..n + 1] == [];
  }

  lemma {:induction false} FillChannel(c: Config, k: nat) returns (es: seq<Event>)
    requires c.streaming && !c.bulk && c.readJobs + 1 + k <= |c.items| && k <= WalkBound(c)
    ensures Legal(c, Init(c), es) && Final(c, es) == Left(c, k)
    ensures c.cpuJobs == 0 || c.readJobs == 0 ==> NoFault(es)
  {
    hide Legal, After, NoFault, EncBound, ReadBound, WalkBound, Init;
    if k == 0 {
      es := LeaveWalker(c);
    } else {
      es := FillChannel(c, k - 1);
      LeftWalker(c);
      es := Next(c, es, WalkFind);
      es := Next(c, es, WalkSend);
      var at := c.readJobs + 1;
      assert c.items[at..at + k - 1] + [c.items[at + k - 1]] == c.items[at..at + k];
    }
  }

  lemma LeftWalker(c: Config)
    requires c.streaming
    ensures Init(c).walker == Walking(None) && Init(c).writer == Writing
  {
  }

  /** When the walker can block, a run leads there: faults are needed only to get rid of the
      readers while there are workers. */
  lemma BlockWalker(c: Config) returns (es: seq<Event>)
    requires WalkCanBlock(c)
    ensures Legal(c, Init(c), es) && Trapped(c, Final(c, es))
    ensures !Staffed(c) ==> NoFault(es)
  {
    assert WalkBound(c) == Max(2 * c.readJobs, 64);
    hide Legal, After, NoFault, EncBound, ReadBound, WalkBound, Init;
    es := FillChannel(c, WalkBound(c));
    LeftWalker(c);
    es := Next(c, es, WalkFind);
  }

  // ---------------------------------------------------------------- leading into the pool's trap

  /** `k` items are with the splitter. */
  function Gathering(c: Config, k: nat): State
    requires k <= |c.items|
  {
    if c.streaming then Init(c).(walk := c.items[k..], numbered := k, splitter := Collecting(Numbered(0, c.items[..k])))
    else Init(c).(walkQ := c.items[k..], numbered := k, splitter := Collecting(Numbered(0, c.items[..k])))
  }

  lemma {:induction false} Gather(c: Config, k: nat) returns (es: seq<Event>)
    requires c.bulk && k <= |c.items|
    ensures Legal(c, Init(c), es) && Final(c, es) == Gathering(c, k)
  {
    hide Legal, After, NoFault, EncBound, ReadBound, WalkBound, Readers;
    if k == 0 {
      es := [];
      assert c.items[0..] == c.items && Numbered(0, c.items[..0]) == [];
      GatherStart(c);
    } else {
      es := Gather(c, k - 1);
      es := GatherOne(c, es, k - 1);
    }
  }

  lemma GatherStart(c: Config)
    requires c.bulk
    ensures Legal(c, Init(c), []) && Final(c, []) == Init(c)
  {
  }

  lemma GatherOne(c: Config, es: seq<Event>, k: nat) returns (longer: seq<Event>)
    requires c.bulk && k < |c.items| && Legal(c, Init(c), es) && Final(c, es) == Gathering(c, k)
    ensures Legal(c, Init(c), longer) && Final(c, longer) == Gathering(c, k + 1)
  {
    hide Legal, After, NoFault, EncBound, WalkBound, Readers, Numbered;
    longer := GatherHand(c, es, k);
    var j := Job(k, c.items[k]);
    longer := Next(c, longer, Feed);
    longer := Next(c, longer, Collect);
    assert [j][1..] == [];
    NumberedAppend(0, c.items[..k], c.items[k]);
    assert c.items[..k] + [c.items[k]] == c.items[..k + 1];
  }

  /** Item `k` in the feeder's hand, those before it with the splitter. */
  lemma GatherHand(c: Config, es: seq<Event>, k: nat) returns (longer: seq<Event>)
    requires c.bulk && k < |c.items| && Legal(c, Init(c), es) && Final(c, es) == Gathering(c, k)
    ensures Legal(c, Init(c), longer)
    ensures Final(c, longer)
            == Gathering(c, k + 1).(splitter := Gathering(c, k).splitter,
                                    feeder := Feeding(Some(Job(k, c.items[k]))))
  {
    hide Legal, After, NoFault, EncBound, ReadBound, Readers, Numbered;
    longer := es;
    var x := c.items[k];
    if c.streaming {
      longer := Next(c, longer, WalkFind);
      longer := Next(c, longer, WalkSend);
      assert [] + [x] == [x] && [x][1..] == [];
    }
    longer := Next(c, longer, Receive);
  }

  /** The walk is made to fail early where the main thread does not notice. */
  predicate CutShort(c: Config) { c.streaming && c.cpuJobs > 0 }

  /** How many items are fed before the walk ends: enough for one chunk more than volumes. */
  function Enough(c: Config): nat
    requires PoolCanDry(c)
  {
    if CutShort(c) then c.pool.value + 1 else |c.items|
  }

  /** What the splitter has cut. */
  function Pieced(c: Config): seq<Chunk>
    requires PoolCanDry(c) && Enough(c) <= |c.items| && Readers(c) > 0
  {
    Chunks(Numbered(0, c.items[..Enough(c)]), Readers(c))
  }

  lemma EnoughChunks(c: Config)
    requires PoolCanDry(c)
    ensures Enough(c) <= |c.items| && c.pool.value < Readers(c) && |Pieced(c)| > c.pool.value
  {
    hide Chunks, ChunkCount;
    ChunksCount(Numbered(0, c.items[..Enough(c)]), Readers(c));
    if CutShort(c) {
      OneEach(Enough(c), Readers(c));
    }
  }

  /** All but the first of the first `q + 1` readers have failed. */
  function Broken(n: nat, q: nat): (rs: seq<Reader>)
    ensures |rs| == n
  {
    seq(n, i => if 1 <= i <= q then NoReader(true) else Idle)
  }

  /** `q` readers have failed, each with a chunk and a volume; the first reader is idle. */
  function Losses(c: Config, q: nat): State
    requires PoolCanDry(c) && Enough(c) <= |c.items| && Readers(c) > 0
    requires q <= |Pieced(c)| && q <= c.pool.value
  {
    Init(c).(walker := NoWalker(CutShort(c)), walk := [], walkQ := [], numbered := Enough(c),
             feeder := NoFeeder(CutShort(c)), splitter := Sending(Pieced(c)[q..]), volumes := c.pool.value - q,
             readers := Broken(Readers(c), q))
  }

  lemma CutFeed(c: Config) returns (es: seq<Event>)
    requires PoolCanDry(c) && Enough(c) <= |c.items| && Readers(c) > 0
    ensures Legal(c, Init(c), es) && Final(c, es) == Losses(c, 0)
  {
    hide Legal, After, NoFault, EncBound, ReadBound, WalkBound, Numbered, Chunks, MostChunks;
    es := Gather(c, Enough(c));
    if CutShort(c) {
      es := Next(c, es, WalkFails);
    } else if c.streaming {
      es := Next(c, es, WalkEnd);
    }
    es := Next(c, es, FeedEnd);
    es := Next(c, es, Join);
    es := Next(c, es, Split);
    assert Pieced(c)[0..] == Pieced(c);
    assert Broken(Readers(c), 0) == seq(Readers(c), _ => Idle);
  }

  /** The next chunk goes to the idle reader `r`. */
  lemma TakeChunk(c: Config, es: seq<Event>, q: nat, r: nat) returns (longer: seq<Event>)
    requires PoolCanDry(c) && Enough(c) <= |c.items| && q <= c.pool.value < Readers(c) && q < |Pieced(c)|
    requires r < Readers(c) && (r == 0 || r > q)
    requires Legal(c, Init(c), es) && Final(c, es) == Losses(c, q)
    ensures Legal(c, Init(c), longer)
    ensures Final(c, longer)
            == Losses(c, q).(splitter := Sending(Pieced(c)[q + 1..]),
                             readers := Broken(Readers(c), q)[r := Waiting(Pieced(c)[q])])
  {
    hide Legal, After, NoFault, EncBound, ReadBound, WalkBound, Pieced, MostChunks, Enough;
    var s := Losses(c, q);
    assert s.readers[r] == Idle && AnyReader(s);
    longer := Next(c, es, SendChunk);
    longer := Next(c, longer, Take(r));
    assert ([] + [Pieced(c)[q]])[1..] == [];
    assert Pieced(c)[q..][1..] == Pieced(c)[q + 1..];
  }

  lemma FailReader(c: Config, es: seq<Event>, q: nat) returns (longer: seq<Event>)
    requires PoolCanDry(c) && Enough(c) <= |c.items| && q < c.pool.value < Readers(c) && q < |Pieced(c)|
    requires Legal(c, Init(c), es) && Final(c, es) == Losses(c, q)
    ensures Legal(c, Init(c), longer) && Final(c, longer) == Losses(c, q + 1)
  {
    hide Legal, After, NoFault, EncBound, ReadBound, WalkBound, Pieced, MostChunks, Enough, Broken;
    longer := TakeChunk(c, es, q, q + 1);
    var ch := Pieced(c)[q];
    longer := Next(c, longer, Acquire(q + 1));
    longer := Next(c, longer, ReadFails(q + 1));
    OneMoreBroken(Readers(c), q, Waiting(ch), Busy(ch, None));
  }

  lemma OneMoreBroken(n: nat, q: nat, x: Reader, y: Reader)
    requires q + 1 < n
    ensures Broken(n, q)[q + 1 := x][q + 1 := y][q + 1 := NoReader(true)] == Broken(n, q + 1)
  {
  }

  lemma {:induction false} FailReaders(c: Config, q: nat) returns (es: seq<Event>)
    requires PoolCanDry(c) && Enough(c) <= |c.items| && q <= c.pool.value < Readers(c) && q <= |Pieced(c)|
    ensures Legal(c, Init(c), es) && Final(c, es) == Losses(c, q)
  {
    hide Legal, After, Losses, Pieced, Init, PoolCanDry, Enough;
    if q == 0 {
      es := CutFeed(c);
    } else {
      es := FailReaders(c, q - 1);
      es := FailReader(c, es, q - 1);
    }
  }

  /** When the pool can dry up, a run leads there: the first reader, which is joined first, waits
      for a volume, and the others that took a chunk have failed. */
  lemma DryPool(c: Config) returns (es: seq<Event>)
    requires PoolCanDry(c)
    ensures Legal(c, Init(c), es) && Trapped(c, Final(c, es))
  {
    hide Legal, After, Pieced, MostChunks, Enough;
    EnoughChunks(c);
    var p := c.pool.value;
    es := FailReaders(c, p);
    es := TakeChunk(c, es, p, 0);
    assert c.cpuJobs > 0 ==> Final(c, es).workers[0] == Free;
  }

  // ---------------------------------------------------------------- exactly these hang

  /** Some run hangs, if and only if the configuration streams without the bulk path and has more
      items than fit into the stages before the readers, or can have more chunks than volumes. */
  lemma HangsExactly(c: Config)
    ensures (exists es :: Hangs(c, es)) <==> CanHang(c)
  {
    hide Hangs, CanHang, WalkCanBlock, PoolCanDry, Trapped, Init, Legal, After;
    if es :| Hangs(c, es) {
      HangNeedsCondition(c, es);
    }
    if CanHang(c) {
      var es := SomeHang(c);
    }
  }

  lemma HangNeedsCondition(c: Config, es: seq<Event>)
    requires Hangs(c, es)
    ensures CanHang(c) && (NoFault(es) ==> WalkCanBlock(c) && !Staffed(c))
  {
    hide CanHang, WalkCanBlock, Enabled, Init, Legal, After;
    HangNeeds(c, es);
  }

  lemma SomeHang(c: Config) returns (es: seq<Event>)
    requires CanHang(c)
    ensures Hangs(c, es)
  {
    hide Hangs, WalkCanBlock, PoolCanDry, Trapped, Init, Legal, After;
    if WalkCanBlock(c) {
      es := BlockWalker(c);
    } else {
      es := DryPool(c);
    }
    var more := TrapHangs(c, es);
    es := es + more;
  }

  /** Some run hangs in which no thread has failed, if and only if, besides, there is no reader or
      no worker, and it is the walker that is left. */
  lemma FaultFreeHangsExactly(c: Config)
    ensures (exists es :: Hangs(c, es) && NoFault(es)) <==> WalkCanBlock(c) && !Staffed(c)
  {
    hide Hangs, CanHang, WalkCanBlock, Trapped, Init, Legal, After, Staffed;
    if es :| Hangs(c, es) && NoFault(es) {
      HangNeedsCondition(c, es);
    }
    if WalkCanBlock(c) && !Staffed(c) {
      var es := BlockWalker(c);
      var more := TrapHangs(c, es);
      assert NoFault(es + more);
    }
  }
}
