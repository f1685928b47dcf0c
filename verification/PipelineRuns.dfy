/** Whole runs of the pipeline: sequences of events from the initial state. */
module PipelineRuns {
  import opened Bytes
  import opened Items
  import opened Sequences
  import opened Splitter
  import opened ZipWriter
  import opened Pipeline
  import opened PipelineLaws

  /** An interleaving that the threads can produce. */
  predicate Legal(c: Config, s: State, es: seq<Event>)
    decreases |es|, 0
  {
    es == [] || (Legal(c, s, es[..|es| - 1]) && Enabled(c, After(c, s, es[..|es| - 1]), es[|es| - 1]))
  }

  function After(c: Config, s: State, es: seq<Event>): State
    requires Legal(c, s, es)
    decreases |es|, 1
  {
    if es == [] then s else Apply(c, After(c, s, es[..|es| - 1]), es[|es| - 1])
  }

  /** A run after which the program is over without an error, and has finished the archive. */
  predicate Succeeds(c: Config, es: seq<Event>) { Legal(c, Init(c), es) && Successful(After(c, Init(c), es)) }

  predicate NoFault(es: seq<Event>) { forall i :: 0 <= i < |es| ==> !Fault(es[i]) }

  /** A run that has come to its end. */
  predicate Complete(c: Config, es: seq<Event>) { Legal(c, Init(c), es) && Finished(After(c, Init(c), es)) }

  function Final(c: Config, es: seq<Event>): State
    requires Legal(c, Init(c), es)
  {
    After(c, Init(c), es)
  }

  lemma LegalStep(c: Config, s: State, es: seq<Event>, e: Event)
    requires Legal(c, s, es) && Enabled(c, After(c, s, es), e)
    ensures Legal(c, s, es + [e]) && After(c, s, es + [e]) == Apply(c, After(c, s, es), e)
  {
    assert (es + [e])[..|es|] == es;
  }

  // ---------------------------------------------------------------- every run ends

  function Steps(): Value { (st: Stage, x: EncodedEntry) => Rank(st) }

  /** Bounds the number of events still to come. */
  function Work(c: Config, s: State): nat { Total(c, s, Steps()) + Threads(s) }

  lemma {:induction false} RunShrinks(c: Config, s: State, es: seq<Event>)
    requires Legal(c, s, es)
    ensures |es| + Work(c, After(c, s, es)) <= Work(c, s)
    decreases |es|
  {
    hide Total, Threads, Apply, Enabled;
    if es != [] {
      var n := |es| - 1;
      RunShrinks(c, s, es[..n]);
      StepsSteep();
      EveryEventGood(c, After(c, s, es[..n]), es[n], Steps());
    }
  }

  lemma StepsSteep()
    ensures Steep(Steps())
  {
  }

  lemma {:induction false} SumConstant<A>(w: A -> nat, s: seq<A>, k: nat)
    requires forall x :: x in s ==> w(x) == k
    ensures Sum(w, s) == k * |s|
    decreases |s|
  {
    if s != [] {
      SumConstant(w, s[..|s| - 1], k);
    }
  }

  lemma InitialWork(c: Config)
    ensures Work(c, Init(c))
            == (if c.streaming then 16 else 14) * |c.items| + Readers(c) + c.cpuJobs
               + 3 + (if c.streaming then 1 else 0) + if c.bulk then 2 else 0
  {
    hide EntryOf, Numbered;
    var s, v := Init(c), Steps();
    NumberedNothing(0);
    SumNothing(OfJob(c, v, Unfound));
    SumNothing(OfJob(c, v, InWalk));
    SumConstant(OfJob(c, v, Unfound), Fed(c), 16);
    SumConstant(OfJob(c, v, InWalk), Fed(c), 14);
    NumberedNothing(|c.items|);
    SumConstant(OfReader(c, v), s.readers, 0);
    SumConstant(OfWorker(c, v), s.workers, 0);
    SumConstant(LiveReader, s.readers, 1);
    SumConstant(LiveWorker, s.workers, 1);
  }

  /** No interleaving, with or without faults, has more events than this. */
  lemma RunsEnd(c: Config, es: seq<Event>)
    requires Legal(c, Init(c), es)
    ensures |es| <= 16 * |c.items| + Readers(c) + c.cpuJobs + 6
  {
    RunShrinks(c, Init(c), es);
    InitialWork(c);
  }

  lemma {:induction false} RunShaped(c: Config, es: seq<Event>)
    requires Legal(c, Init(c), es)
    ensures Shaped(c, Final(c, es))
    decreases |es|
  {
    hide Apply, Enabled;
    if es != [] {
      var n := |es| - 1;
      RunShaped(c, es[..n]);
      hide Shaped, Init;
      StaysShaped(c, Final(c, es[..n]), es[n]);
    }
  }

  lemma StaysShaped(c: Config, s: State, e: Event)
    requires Shaped(c, s) && Enabled(c, s, e)
    ensures Shaped(c, Apply(c, s, e))
  {
    if InputEvent(e) {
      hide ReadBound, WalkBound, Chunks, AnyReader, FeedHeard;
    } else {
      hide Apply, Enabled;
      SameInput(c, s, e);
    }
  }

  lemma SameInput(c: Config, s: State, e: Event)
    requires Enabled(c, s, e) && !InputEvent(e)
    ensures var s' := Apply(c, s, e);
            s'.walker == s.walker && s'.walk == s.walk && s'.walkQ == s.walkQ && s'.feeder == s.feeder
                && s'.splitter == s.splitter
  {
    hide Apply, Enabled;
    if ReaderEvent(e) {
      ReaderFrame(c, s, e);
    } else if WorkerEvent(e) {
      WorkerFrame(c, s, e);
    } else {
      WriterFrame(c, s, e);
    }
  }

  /** From wherever a run stands the threads can go on, without faults and without dropping
      items, until none of them can step. */
  lemma {:induction false} GoOn(c: Config, es: seq<Event>) returns (more: seq<Event>)
    requires Legal(c, Init(c), es)
    ensures NoFault(more) && Legal(c, Init(c), es + more) && Stuck(c, Final(c, es + more))
    decreases Work(c, Final(c, es))
  {
    hide Work, Enabled, Apply, Init;
    var s := Final(c, es);
    if Stuck(c, s) {
      more := [];
      assert es + more == es;
    } else {
      var e :| Enabled(c, s, e) && !Fault(e) && !e.Drop?;
      LegalStep(c, Init(c), es, e);
      StepShrinks(c, s, e);
      more := GoOn(c, es + [e]);
      assert es + [e] + more == es + ([e] + more);
      more := [e] + more;
    }
  }

  lemma StepShrinks(c: Config, s: State, e: Event)
    requires Enabled(c, s, e)
    ensures Work(c, Apply(c, s, e)) < Work(c, s)
  {
    hide Total, Threads, Apply, Enabled;
    StepsSteep();
    EveryEventGood(c, s, e, Steps());
  }

  /** No channel holds more than its bound. */
  predicate Bounded(c: Config, s: State)
  {
    && |s.feedQ| <= Max(2 * c.readJobs, 2) && |s.rawQ| <= Max(2 * c.readJobs, 2) && |s.encQ| <= Max(2 * c.cpuJobs, 2)
    && |s.chunkQ| <= Max(c.readJobs, 1) && (c.streaming ==> |s.walkQ| <= Max(2 * c.readJobs, 64))
    && (!c.streaming ==> s.walker.NoWalker?)
  }

  lemma StaysBounded(c: Config, s: State, e: Event)
    requires Bounded(c, s) && Enabled(c, s, e) && !Unheard(c, s, e)
    ensures Bounded(c, Apply(c, s, e))
  {
    hide Chunks, Without, Fetch, Encode;
  }

  lemma StillBounded(c: Config, s: State, e: Event)
    requires Bounded(c, s) && Enabled(c, s, e) && Unheard(c, s, e)
    ensures Bounded(c, Apply(c, s, e))
  {
    hide Chunks, Without, Fetch, Encode;
  }

  /** In every run, with or without faults, the channels respect their bounds. */
  lemma {:induction false} ChannelsBounded(c: Config, es: seq<Event>)
    requires Legal(c, Init(c), es)
    ensures Bounded(c, Final(c, es))
    decreases |es|
  {
    hide Apply, Enabled;
    if es != [] {
      var n := |es| - 1;
      ChannelsBounded(c, es[..n]);
      hide Bounded, Unheard, Init;
      if Unheard(c, Final(c, es[..n]), es[n]) {
        StillBounded(c, Final(c, es[..n]), es[n]);
      } else {
        StaysBounded(c, Final(c, es[..n]), es[n]);
      }
    }
  }

  // ---------------------------------------------------------------- success

  predicate HasFailed(s: State)
  {
    s.walker == NoWalker(true) || s.writer.WriteFailed? || ReaderFailed(s.readers) || WorkerFailed(s.workers)
  }

  predicate ReaderFailed(rs: seq<Reader>) { exists r :: 0 <= r < |rs| && rs[r] == NoReader(true) }

  predicate WorkerFailed(ws: seq<Worker>) { exists w :: 0 <= w < |ws| && ws[w] == NoWorker(true) }

  /** Readers that have ended stay as they are, and a reader fails only by its fault. */
  lemma ReaderFailures(c: Config, s: State, e: Event)
    requires Enabled(c, s, e) && ReaderEvent(e)
    ensures ReaderFailed(Apply(c, s, e).readers) <==> ReaderFailed(s.readers) || Fault(e)
  {
    hide ReadBound, Without, Fetch, AnyWorker, SourceDry;
    ReaderFrame(c, s, e);
    var rs := Apply(c, s, e).readers;
    if r :| 0 <= r < |s.readers| && s.readers[r] == NoReader(true) {
      assert rs[r] == NoReader(true);
    }
    if Fault(e) {
      assert rs[e.r] == NoReader(true);
    }
  }

  lemma WorkerFailures(c: Config, s: State, e: Event)
    requires Enabled(c, s, e) && WorkerEvent(e)
    ensures WorkerFailed(Apply(c, s, e).workers) <==> WorkerFailed(s.workers) || Fault(e)
  {
    hide EncBound, Encode, AnyReader;
    WorkerFrame(c, s, e);
    var ws := Apply(c, s, e).workers;
    if w :| 0 <= w < |s.workers| && s.workers[w] == NoWorker(true) {
      assert ws[w] == NoWorker(true);
    }
    if Fault(e) {
      assert ws[e.w] == NoWorker(true);
    }
  }

  lemma WalkFailures(c: Config, s: State, e: Event)
    requires Enabled(c, s, e) && InputEvent(e)
    ensures Apply(c, s, e).walker == NoWalker(true) <==> s.walker == NoWalker(true) || Fault(e)
  {
    hide ReadBound, WalkBound, Chunks, AnyReader, FeedHeard;
  }

  lemma WriteFailures(c: Config, s: State, e: Event)
    requires Enabled(c, s, e) && WriterEvent(e)
    ensures Apply(c, s, e).writer.WriteFailed? <==> s.writer.WriteFailed? || Fault(e)
  {
    hide AnyWorker;
  }

  /** An event leaves a mark of failure if and only if there was one or it is a fault. */
  lemma FailureMarks(c: Config, s: State, e: Event)
    requires Enabled(c, s, e)
    ensures HasFailed(Apply(c, s, e)) <==> HasFailed(s) || Fault(e)
  {
    hide Apply, Enabled, ReaderFailed, WorkerFailed;
    if InputEvent(e) {
      InputFrame(c, s, e);
      WalkFailures(c, s, e);
    } else if ReaderEvent(e) {
      ReaderFrame(c, s, e);
      ReaderFailures(c, s, e);
    } else if WorkerEvent(e) {
      WorkerFrame(c, s, e);
      WorkerFailures(c, s, e);
    } else {
      WriterFrame(c, s, e);
      WriteFailures(c, s, e);
    }
  }

  lemma {:induction false} FailuresShow(c: Config, es: seq<Event>)
    requires Legal(c, Init(c), es)
    ensures NoFault(es) <==> !HasFailed(Final(c, es))
    decreases |es|
  {
    hide Apply, Enabled, Fault;
    if es != [] {
      var n := |es| - 1;
      FailuresShow(c, es[..n]);
      hide HasFailed, Init;
      FailureMarks(c, Final(c, es[..n]), es[n]);
      assert NoFault(es) <==> NoFault(es[..n]) && !Fault(es[n]) by {
        assert forall i :: 0 <= i < n ==> es[..n][i] == es[i];
      }
    }
  }

  /** A run ends in success, with a finished archive, if and only if the program is over and no
      thread has failed. */
  lemma SuccessExactly(c: Config, es: seq<Event>)
    requires Legal(c, Init(c), es)
    ensures Succeeds(c, es) <==> Complete(c, es) && NoFault(es)
  {
    var s := Final(c, es);
    RunShaped(c, es);
    FailuresShow(c, es);
    hide Init, Legal, After, NoFault;
    if Successful(s) {
      AllEnded(s);
    }
    if Finished(s) && !HasFailed(s) {
      NobodyFailed(c, s);
    }
  }

  lemma NobodyFailed(c: Config, s: State)
    requires Shaped(c, s) && !HasFailed(s)
    ensures !Joined(Statuses(s)).Failed?
  {
    forall i | 0 <= i < |Statuses(s)|
      ensures !Statuses(s)[i].Failed?
    {
    }
    JoinedFailed(Statuses(s));
  }

  lemma {:induction false} JoinedFailed(ts: seq<Status>)
    requires forall i :: 0 <= i < |ts| ==> !ts[i].Failed?
    ensures !Joined(ts).Failed?
  {
    if ts != [] {
      JoinedFailed(ts[1..]);
    }
  }

  // ---------------------------------------------------------------- nothing is lost

  /** The feed is served and its files are encoded: a reader and a worker exist. */
  predicate Staffed(c: Config) { (c.bulk || c.readJobs >= 1) && c.cpuJobs >= 1 }

  /** Without faults, a thread ends only when its source is closed. */
  ghost predicate InOrder(c: Config, s: State)
  {
    && |s.readers| == Readers(c) && |s.workers| == c.cpuJobs && !s.writer.WriteFailed?
    && (s.walker.NoWalker? ==> s.walk == [] && !s.walker.failed)
    && (!s.feeder.Feeding? ==> s.walker.NoWalker? && s.walkQ == [])
    && (if c.bulk then !s.splitter.Collecting? ==> s.feeder.NoFeeder? && s.feedQ == []
        else s.splitter.NoSplitter? && s.chunkQ == [])
    && (forall r :: 0 <= r < |s.readers| && s.readers[r].NoReader? ==> SourceDry(c, s))
    && (forall w :: 0 <= w < |s.workers| && s.workers[w].NoWorker? ==> !AnyReader(s) && s.rawQ == [])
    && (!s.writer.Writing? ==> !AnyWorker(s) && s.encQ == [])
  }

  lemma NobodyUnheard(c: Config, s: State, e: Event)
    requires InOrder(c, s) && Enabled(c, s, e) && Staffed(c)
    ensures !Unheard(c, s, e)
  {
    hide ReadBound, WalkBound, EncBound;
    assert s.readers[0].NoReader? ==> SourceDry(c, s);
    assert s.workers[0].NoWorker? ==> !AnyReader(s);
  }

  lemma FeedKeepsOrder(c: Config, s: State, e: Event)
    requires InOrder(c, s) && Enabled(c, s, e) && !Fault(e) && !Unheard(c, s, e) && InputEvent(e)
    ensures InOrder(c, Apply(c, s, e))
  {
    hide ReadBound, WalkBound, EncBound, Chunks;
    InputFrame(c, s, e);
  }

  lemma TakingKeepsOrder(c: Config, s: State, e: Event)
    requires InOrder(c, s) && Enabled(c, s, e) && (e.Take? || e.Acquire? || e.Finish?)
    ensures InOrder(c, Apply(c, s, e))
  {
    hide EncBound;
    ReaderFrame(c, s, e);
    assert AnyReader(s);
  }

  lemma ReadingKeepsOrder(c: Config, s: State, e: Event)
    requires InOrder(c, s) && Enabled(c, s, e) && (e.Read? || e.Drop?)
    ensures InOrder(c, Apply(c, s, e))
  {
    hide EncBound, Without, Fetch;
    ReaderFrame(c, s, e);
    assert AnyReader(s);
  }

  lemma SendingKeepsOrder(c: Config, s: State, e: Event)
    requires InOrder(c, s) && Enabled(c, s, e) && !Unheard(c, s, e) && (e.Send? || e.ReaderEnd?)
    ensures InOrder(c, Apply(c, s, e))
  {
    hide ReadBound, EncBound;
    ReaderFrame(c, s, e);
  }

  lemma WorkersKeepOrder(c: Config, s: State, e: Event)
    requires InOrder(c, s) && Enabled(c, s, e) && !Fault(e) && !Unheard(c, s, e) && WorkerEvent(e)
    ensures InOrder(c, Apply(c, s, e))
  {
    hide ReadBound, EncBound, Encode;
    WorkerFrame(c, s, e);
  }

  lemma WriterKeepsOrder(c: Config, s: State, e: Event)
    requires InOrder(c, s) && Enabled(c, s, e) && !Fault(e) && WriterEvent(e)
    ensures InOrder(c, Apply(c, s, e))
  {
    hide ReadBound, EncBound;
    WriterFrame(c, s, e);
  }

  lemma KeepsOrder(c: Config, s: State, e: Event)
    requires InOrder(c, s) && Enabled(c, s, e) && !Fault(e) && !Unheard(c, s, e)
    ensures InOrder(c, Apply(c, s, e))
  {
    hide InOrder, Enabled, Apply, Unheard;
    if InputEvent(e) {
      FeedKeepsOrder(c, s, e);
    } else if e.Take? || e.Acquire? || e.Finish? {
      TakingKeepsOrder(c, s, e);
    } else if e.Read? || e.Drop? {
      ReadingKeepsOrder(c, s, e);
    } else if e.Send? || e.ReaderEnd? {
      SendingKeepsOrder(c, s, e);
    } else if WorkerEvent(e) {
      WorkersKeepOrder(c, s, e);
    } else {
      WriterKeepsOrder(c, s, e);
    }
  }

  lemma {:induction false} RunInOrder(c: Config, es: seq<Event>)
    requires Legal(c, Init(c), es) && NoFault(es) && Staffed(c)
    ensures InOrder(c, Final(c, es))
    decreases |es|
  {
    hide Apply, Enabled, Fault;
    if es != [] {
      var n := |es| - 1;
      RunInOrder(c, es[..n]);
      hide InOrder, Staffed, Init;
      NobodyUnheard(c, Final(c, es[..n]), es[n]);
      KeepsOrder(c, Final(c, es[..n]), es[n]);
    }
  }

  /** Counts the occurrences of one entry, wherever it is. */
  function Count(e: EncodedEntry): Value { (st: Stage, x: EncodedEntry) => if x == e then 1 else 0 }

  lemma CountLevel(e: EncodedEntry)
    ensures Level(Count(e))
  {
  }

  lemma {:induction false} RunKeepsTotal(c: Config, es: seq<Event>, v: Value)
    requires Legal(c, Init(c), es) && NoFault(es) && Staffed(c) && Level(v)
    ensures Total(c, Final(c, es), v) == Total(c, Init(c), v)
    decreases |es|
  {
    hide Apply, Enabled, Fault, Total, Level, InOrder, Staffed, Init;
    if es != [] {
      var n := |es| - 1;
      RunKeepsTotal(c, es[..n], v);
      RunInOrder(c, es[..n]);
      NobodyUnheard(c, Final(c, es[..n]), es[n]);
      EveryEventGood(c, Final(c, es[..n]), es[n], v);
    }
  }

  lemma {:induction false} CountJobs(c: Config, e: EncodedEntry, st: Stage, jobs: seq<Job>)
    ensures Sum(OfJob(c, Count(e), st), jobs) == multiset(Map(EntryOf(c), jobs))[e]
    decreases |jobs|
  {
    hide EntryOf;
    if jobs != [] {
      CountJobs(c, e, st, jobs[..|jobs| - 1]);
    }
  }

  lemma {:induction false} CountEntries(e: EncodedEntry, st: Stage, es: seq<EncodedEntry>)
    ensures Sum(OfEntry(Count(e), st), es) == multiset(es)[e]
    decreases |es|
  {
    if es != [] {
      CountEntries(e, st, es[..|es| - 1]);
      assert es == es[..|es| - 1] + [es[|es| - 1]];
    }
  }

  lemma InitialTotal(c: Config, v: Value)
    requires Level(v)
    ensures Total(c, Init(c), v) == Sum(OfJob(c, v, Unfound), Fed(c))
  {
    hide EntryOf, Numbered, Level;
    var s := Init(c);
    NumberedNothing(0);
    NumberedNothing(|c.items|);
    SumNothing(OfJob(c, v, Unfound));
    SumNothing(OfJob(c, v, InWalk));
    Shift(c, v, Unfound, InWalk, Fed(c));
    SumConstant(OfReader(c, v), s.readers, 0);
    SumConstant(OfWorker(c, v), s.workers, 0);
  }

  lemma FinalTotal(c: Config, s: State, v: Value)
    requires InOrder(c, s) && Successful(s) && Staffed(c)
    ensures Total(c, s, v) == Sum(OfEntry(v, Arrived), s.arrived) + Sum(OfJob(c, v, Lost), s.lost)
  {
    hide EntryOf, ReadBound, WalkBound, EncBound, OfJob, OfRaw, OfEntry, OfChunk, Numbered, Successful;
    AllEnded(s);
    assert s.readers[0].NoReader? && s.workers[0].NoWorker?;
    NumberedNothing(s.numbered);
    SumNothing(OfJob(c, v, Unfound));
    SumNothing(OfJob(c, v, InWalk));
    AllGone(c, s, v);
  }

  /** After a success every thread has ended and none has failed. */
  lemma AllEnded(s: State)
    requires Successful(s)
    ensures s.writer.WriterDone? && s.feeder == NoFeeder(false) && s.splitter.NoSplitter?
    ensures forall r :: 0 <= r < |s.readers| ==> s.readers[r] == NoReader(false)
    ensures forall w :: 0 <= w < |s.workers| ==> s.workers[w] == NoWorker(false)
  {
    var ts := Statuses(s);
    JoinedAll(ts);
    assert ts[0] == FeederStatus(s.feeder) && ts[1] == SplitterStatus(s.splitter);
    forall r | 0 <= r < |s.readers|
      ensures s.readers[r] == NoReader(false)
    {
      assert ts[2 + r] == ReaderStatus(s.readers[r]);
    }
    forall w | 0 <= w < |s.workers|
      ensures s.workers[w] == NoWorker(false)
    {
      assert ts[2 + |s.readers| + w] == WorkerStatus(s.workers[w]);
    }
  }

  lemma AllGone(c: Config, s: State, v: Value)
    requires !AnyReader(s) && !AnyWorker(s)
    ensures Sum(OfReader(c, v), s.readers) == 0 && Sum(OfWorker(c, v), s.workers) == 0
  {
    SumConstant(OfReader(c, v), s.readers, 0);
    SumConstant(OfWorker(c, v), s.workers, 0);
  }

  /** In every run, with faults and missing threads, only what was fed arrives, and nothing more
      often than it was fed. */
  lemma ArrivedWereFed(c: Config, es: seq<Event>)
    requires Legal(c, Init(c), es)
    ensures multiset(Final(c, es).arrived) + multiset(Map(EntryOf(c), Final(c, es).lost)) <= multiset(Everything(c))
  {
    var s := Final(c, es);
    hide Init, EntryOf, Map, Legal, After, Everything;
    forall e
      ensures multiset(s.arrived)[e] + multiset(Map(EntryOf(c), s.lost))[e] <= multiset(Everything(c))[e]
    {
      CountLevel(e);
      TotalFalls(c, es, Count(e));
      CountFed(c, e);
      CountOut(c, s, e);
    }
  }

  lemma CountFed(c: Config, e: EncodedEntry)
    ensures Total(c, Init(c), Count(e)) == multiset(Everything(c))[e]
  {
    hide Total, Init, Map, EntryOf, Sum;
    CountLevel(e);
    InitialTotal(c, Count(e));
    CountJobs(c, e, Unfound, Fed(c));
  }

  lemma CountOut(c: Config, s: State, e: EncodedEntry)
    ensures Total(c, s, Count(e)) >= multiset(s.arrived)[e] + multiset(Map(EntryOf(c), s.lost))[e]
  {
    hide Map, EntryOf, Sum, OfFeeder, OfSplitter, OfWalker, OfReader, OfWorker, OfJob, OfRaw, OfEntry, OfChunk;
    CountJobs(c, e, Lost, s.lost);
    CountEntries(e, Arrived, s.arrived);
  }

  lemma {:induction false} TotalFalls(c: Config, es: seq<Event>, v: Value)
    requires Legal(c, Init(c), es) && Level(v)
    ensures Total(c, Final(c, es), v) <= Total(c, Init(c), v)
    decreases |es|
  {
    hide Apply, Enabled, Fault, Unheard, Total, Level, Init;
    if es != [] {
      var n := |es| - 1;
      TotalFalls(c, es[..n], v);
      EveryEventGood(c, Final(c, es[..n]), es[n], v);
    }
  }

  /** In a successful run, for every interleaving: each item's entry reaches the
      writer exactly as often as it was fed, except for the items that were dropped. */
  lemma Conservation(c: Config, es: seq<Event>)
    requires Succeeds(c, es) && Staffed(c)
    ensures multiset(Final(c, es).arrived) + multiset(Map(EntryOf(c), Final(c, es).lost)) == multiset(Everything(c))
  {
    var s := Final(c, es);
    SuccessExactly(c, es);
    RunInOrder(c, es);
    hide InOrder, Init, Total, EntryOf, Map, Successful, Legal, After;
    forall e
      ensures multiset(s.arrived)[e] + multiset(Map(EntryOf(c), s.lost))[e] == multiset(Everything(c))[e]
    {
      CountLevel(e);
      RunKeepsTotal(c, es, Count(e));
      CountFed(c, e);
      FinalTotal(c, s, Count(e));
      CountJobs(c, e, Lost, s.lost);
      CountEntries(e, Arrived, s.arrived);
    }
  }
}
