/** One event of the pipeline: what it moves, and that it brings the end closer. */
module PipelineLaws {
  import opened Bytes
  import opened Items
  import opened Sequences
  import opened Splitter
  import opened ZipWriter
  import opened Pipeline

  // ---------------------------------------------------------------- what is in the pipeline

  /** Where an item can be, and how many events at least still lie before it. */
  datatype Stage =
    | Unfound | Found | InWalk | InHand | InFeed | Gathered | Cut | InChunks | Assigned | Todo | Held
    | InRaw | AtWorker | Encoded | InEnc | Arrived | Lost

  function Rank(st: Stage): nat
  {
    match st
    case Unfound => 16 case Found => 15 case InWalk => 14 case InHand => 13 case InFeed => 12 case Gathered => 11
    case Cut => 10 case InChunks => 9 case Assigned => 7 case Todo => 6 case Held => 5 case InRaw => 4
    case AtWorker => 3 case Encoded => 2 case InEnc => 1 case Arrived => 0 case Lost => 0
  }

  /** A value for each item at each stage. Summed over a state it counts occurrences of one
      entry, or measures the work left, depending on the value. */
  type Value = (Stage, EncodedEntry) -> nat

  ghost predicate Level(v: Value) { forall st, x :: v(st, x) == v(Arrived, x) }

  ghost predicate Steep(v: Value) { forall st, x :: v(st, x) == Rank(st) }

  function OfJob(c: Config, v: Value, st: Stage): Job -> nat { (j: Job) => v(st, EntryOf(c)(j)) }

  function OfRaw(c: Config, v: Value, st: Stage): RawItem -> nat { (x: RawItem) => v(st, Encode(c, x)) }

  function OfEntry(v: Value, st: Stage): EncodedEntry -> nat { (e: EncodedEntry) => v(st, e) }

  function OfChunk(c: Config, v: Value, st: Stage): Chunk -> nat { (ch: Chunk) => Sum(OfJob(c, v, st), ch) }

  function InReader(c: Config, v: Value, r: Reader): nat
  {
    match r
    case Waiting(jobs) => Sum(OfJob(c, v, Assigned), jobs)
    case Busy(todo, out) => Sum(OfJob(c, v, Todo), todo) + (if out.Some? then v(Held, Encode(c, out.value)) else 0)
    case _ => 0
  }

  function OfReader(c: Config, v: Value): Reader -> nat { (r: Reader) => InReader(c, v, r) }

  function InWorker(c: Config, v: Value, w: Worker): nat
  {
    if w.Raw? then v(AtWorker, Encode(c, w.x)) else if w.Ready? then v(Encoded, w.e) else 0
  }

  function OfWorker(c: Config, v: Value): Worker -> nat { (w: Worker) => InWorker(c, v, w) }

  function OfSplitter(c: Config, v: Value, s: SplitterState): nat
  {
    match s
    case Collecting(got) => Sum(OfJob(c, v, Gathered), got)
    case Sending(chunks) => Sum(OfChunk(c, v, Cut), chunks)
    case NoSplitter => 0
  }

  function OfFeeder(c: Config, v: Value, f: Feeder): nat
  {
    if f.Feeding? && f.hand.Some? then v(InHand, EntryOf(c)(f.hand.value)) else 0
  }

  function OfWalker(c: Config, v: Value, w: Walker, at: nat): nat
  {
    if w.Walking? && w.found.Some? then v(Found, EntryOf(c)(Job(at, w.found.value))) else 0
  }

  /** The number that the next item to be found is going to get. */
  function Pending(s: State): nat
  {
    s.numbered + |s.walkQ| + if s.walker.Walking? && s.walker.found.Some? then 1 else 0
  }

  /** Items not yet numbered have the numbers they are going to get. */
  function WalkSide(c: Config, s: State, v: Value): nat
  {
    Sum(OfJob(c, v, Unfound), Numbered(Pending(s), s.walk)) + OfWalker(c, v, s.walker, s.numbered + |s.walkQ|)
    + Sum(OfJob(c, v, InWalk), Numbered(s.numbered, s.walkQ)) + OfFeeder(c, v, s.feeder)
  }

  function InputSide(c: Config, s: State, v: Value): nat
  {
    Sum(OfJob(c, v, InFeed), s.feedQ) + OfSplitter(c, v, s.splitter) + Sum(OfChunk(c, v, InChunks), s.chunkQ)
  }

  function OutputSide(c: Config, s: State, v: Value): nat
  {
    Sum(OfRaw(c, v, InRaw), s.rawQ) + Sum(OfWorker(c, v), s.workers)
    + Sum(OfEntry(v, InEnc), s.encQ) + Sum(OfEntry(v, Arrived), s.arrived) + Sum(OfJob(c, v, Lost), s.lost)
  }

  /** The value of everything in the pipeline. */
  function Total(c: Config, s: State, v: Value): nat
  {
    WalkSide(c, s, v) + InputSide(c, s, v) + Sum(OfReader(c, v), s.readers) + OutputSide(c, s, v)
  }

  /** Threads that have not ended; feeder, splitter and working readers end in two steps. */
  function Threads(s: State): nat
  {
    (if s.walker.Walking? then 1 else 0) + (match s.feeder case Feeding(_) => 2 case Joining => 1 case NoFeeder(_) => 0)
    + (match s.splitter case Collecting(_) => 2 case Sending(_) => 1 case NoSplitter => 0)
    + Sum(LiveReader, s.readers) + Sum(LiveWorker, s.workers) + (if s.writer.Writing? then 1 else 0)
  }

  function LiveReader(r: Reader): nat { if r.NoReader? then 0 else if r.Idle? then 1 else 2 }

  function LiveWorker(w: Worker): nat { if w.NoWorker? then 0 else 1 }

  /** Sending to a channel nobody listens to, or leaving one without having emptied it. */
  predicate Unheard(c: Config, s: State, e: Event)
  {
    || (e.Feed? && !FeedHeard(c, s)) || (e.SendChunk? && !AnyReader(s))
    || (e.Send? && !AnyWorker(s)) || (e.Pass? && !s.writer.Writing?) || (e.Join? && (s.walkQ != [] || s.walk != []))
  }

  // ---------------------------------------------------------------- one event

  /** An event never raises a level total, keeps it unless it is a fault or unheard, and lowers a
      steep total, counting threads. */
  ghost predicate Good(c: Config, s: State, e: Event, v: Value)
    requires Enabled(c, s, e)
  {
    var s' := Apply(c, s, e);
    && (Level(v) ==> Total(c, s', v) <= Total(c, s, v))
    && (Level(v) && !Fault(e) && !Unheard(c, s, e) ==> Total(c, s', v) == Total(c, s, v))
    && (Steep(v) ==> Total(c, s', v) + Threads(s') < Total(c, s, v) + Threads(s))
  }

  /** Moving jobs from one stage to a later one. */
  lemma {:induction false} Shift(c: Config, v: Value, a: Stage, b: Stage, jobs: seq<Job>)
    ensures Level(v) ==> Sum(OfJob(c, v, a), jobs) == Sum(OfJob(c, v, b), jobs)
    ensures Steep(v) && Rank(a) > Rank(b) ==> Sum(OfJob(c, v, a), jobs) >= Sum(OfJob(c, v, b), jobs) + |jobs|
    ensures Steep(v) && Rank(a) > Rank(b) + 1 ==> Sum(OfJob(c, v, a), jobs) >= Sum(OfJob(c, v, b), jobs) + 2 * |jobs|
    decreases |jobs|
  {
    if jobs != [] {
      var n := |jobs| - 1;
      Shift(c, v, a, b, jobs[..n]);
      ShiftOne(v, a, b, EntryOf(c)(jobs[n]));
    }
  }

  lemma ShiftOne(v: Value, a: Stage, b: Stage, x: EncodedEntry)
    ensures Level(v) ==> v(a, x) == v(b, x)
    ensures Steep(v) ==> v(a, x) == Rank(a) && v(b, x) == Rank(b)
  {
    assert Level(v) ==> v(a, x) == v(Arrived, x) && v(b, x) == v(Arrived, x);
  }

  lemma RankGap()
    ensures Rank(Unfound) > Rank(Found) > Rank(InWalk) > Rank(InHand) > Rank(InFeed) > Rank(Gathered)
    ensures Rank(Gathered) > Rank(Cut) > Rank(InChunks)
    ensures Rank(InFeed) > Rank(Todo) + 1 && Rank(InChunks) > Rank(Assigned) + 1
    ensures Rank(InChunks) > Rank(Todo) + 1 && Rank(Assigned) > Rank(Todo) > Rank(Held) > Rank(InRaw)
    ensures Rank(InRaw) > Rank(AtWorker) > Rank(Encoded) > Rank(InEnc) > Rank(Arrived) == Rank(Lost)
  {
  }

  lemma SumNothing<A>(w: A -> nat)
    ensures Sum(w, []) == 0
  {
  }

  lemma NumberedTail(from: nat, items: seq<WorkItem>)
    requires items != []
    ensures Numbered(from, items)[0] == Job(from, items[0])
    ensures Numbered(from, items)[1..] == Numbered(from + 1, items[1..])
  {
  }

  lemma NumberedAppend(from: nat, items: seq<WorkItem>, x: WorkItem)
    ensures Numbered(from, items + [x]) == Numbered(from, items) + [Job(from + |items|, x)]
  {
  }

  lemma NumberedNothing(from: nat)
    ensures Numbered(from, []) == []
  {
  }

  lemma {:induction false} SumChunks(c: Config, v: Value, st: Stage, chunks: seq<Chunk>)
    ensures Sum(OfChunk(c, v, st), chunks) == Sum(OfJob(c, v, st), Flatten(chunks))
    decreases |chunks|
  {
    if chunks != [] {
      var n := |chunks| - 1;
      SumChunks(c, v, st, chunks[..n]);
      SumConcat(OfJob(c, v, st), Flatten(chunks[..n]), chunks[n]);
    }
  }

  lemma ReaderChange(c: Config, s: State, v: Value, r: nat, x: Reader)
    requires r < |s.readers|
    ensures Sum(OfReader(c, v), s.readers[r := x]) + InReader(c, v, s.readers[r])
            == Sum(OfReader(c, v), s.readers) + InReader(c, v, x)
    ensures Sum(LiveReader, s.readers[r := x]) + LiveReader(s.readers[r]) == Sum(LiveReader, s.readers) + LiveReader(x)
    ensures LiveReader(s.readers[r]) == (if s.readers[r].NoReader? then 0 else if s.readers[r].Idle? then 1 else 2)
    ensures LiveReader(x) == (if x.NoReader? then 0 else if x.Idle? then 1 else 2)
  {
    hide Sum, InReader;
    SumUpdate(OfReader(c, v), s.readers, r, x);
    SumUpdate(LiveReader, s.readers, r, x);
  }

  lemma WorkerChange(c: Config, s: State, v: Value, w: nat, x: Worker)
    requires w < |s.workers|
    ensures Sum(OfWorker(c, v), s.workers[w := x]) + InWorker(c, v, s.workers[w])
            == Sum(OfWorker(c, v), s.workers) + InWorker(c, v, x)
    ensures Sum(LiveWorker, s.workers[w := x]) + LiveWorker(s.workers[w]) == Sum(LiveWorker, s.workers) + LiveWorker(x)
    ensures LiveWorker(s.workers[w]) == (if s.workers[w].NoWorker? then 0 else 1)
    ensures LiveWorker(x) == (if x.NoWorker? then 0 else 1)
  {
    hide Sum, InWorker;
    SumUpdate(OfWorker(c, v), s.workers, w, x);
    SumUpdate(LiveWorker, s.workers, w, x);
  }

  lemma GoodWalkFind(c: Config, s: State, v: Value)
    requires Enabled(c, s, WalkFind)
    ensures Good(c, s, WalkFind, v)
  {
    hide EntryOf, Encode, Fetch, Level, Steep, Sum, OfChunk, OfSplitter, OfFeeder, OfReader, OfWorker, OfRaw,
      OfEntry, LiveReader, LiveWorker, InReader, InWorker, Chunks, Without, Rank, Numbered;
    var at := s.numbered + |s.walkQ|;
    NumberedTail(at, s.walk);
    SumTail(OfJob(c, v, Unfound), Numbered(at, s.walk));
    ShiftOne(v, Unfound, Found, EntryOf(c)(Job(at, s.walk[0])));
    RankGap();
  }

  lemma GoodWalkSend(c: Config, s: State, v: Value)
    requires Enabled(c, s, WalkSend)
    ensures Good(c, s, WalkSend, v)
  {
    hide EntryOf, Encode, Fetch, Level, Steep, Sum, OfChunk, OfSplitter, OfFeeder, OfReader, OfWorker, OfRaw,
      OfEntry, LiveReader, LiveWorker, InReader, InWorker, Chunks, Without, Rank, Numbered;
    var x := s.walker.found.value;
    var j := Job(s.numbered + |s.walkQ|, x);
    NumberedAppend(s.numbered, s.walkQ, x);
    SumAppend(OfJob(c, v, InWalk), Numbered(s.numbered, s.walkQ), j);
    ShiftOne(v, Found, InWalk, EntryOf(c)(j));
    RankGap();
  }

  lemma GoodWalkEnd(c: Config, s: State, v: Value)
    requires Enabled(c, s, WalkEnd)
    ensures Good(c, s, WalkEnd, v)
  {
    hide EntryOf, Encode, Fetch, Level, Steep, Sum, OfJob, OfChunk, OfSplitter, OfFeeder, OfReader, OfWorker,
      OfRaw, OfEntry, LiveReader, LiveWorker, InReader, InWorker, Chunks, Without, Rank, Numbered;
  }

  lemma GoodReceive(c: Config, s: State, v: Value)
    requires Enabled(c, s, Receive)
    ensures Good(c, s, Receive, v)
  {
    hide EntryOf, Encode, Fetch, Level, Steep, Sum, OfChunk, OfSplitter, OfWalker, OfReader, OfWorker, OfRaw,
      OfEntry, LiveReader, LiveWorker, InReader, InWorker, Chunks, Without, Rank, Numbered;
    var x := s.walkQ[0];
    var j := Job(s.numbered, x);
    NumberedTail(s.numbered, s.walkQ);
    SumTail(OfJob(c, v, InWalk), Numbered(s.numbered, s.walkQ));
    ShiftOne(v, InWalk, InHand, EntryOf(c)(j));
    RankGap();
  }

  lemma GoodFeed(c: Config, s: State, v: Value)
    requires Enabled(c, s, Feed)
    ensures Good(c, s, Feed, v)
  {
    hide EntryOf, Encode, Fetch, Level, Steep, Sum, OfChunk, OfSplitter, OfWalker, OfReader, OfWorker, OfRaw,
      OfEntry, LiveReader, LiveWorker, InReader, InWorker, Chunks, Without, Rank, Numbered;
    var j := s.feeder.hand.value;
    SumAppend(OfJob(c, v, InFeed), s.feedQ, j);
    ShiftOne(v, InHand, InFeed, EntryOf(c)(j));
    RankGap();
  }

  lemma GoodFeedEnd(c: Config, s: State, v: Value)
    requires Enabled(c, s, FeedEnd)
    ensures Good(c, s, FeedEnd, v)
  {
    hide EntryOf, Encode, Fetch, Level, Steep, Sum, OfJob, OfChunk, OfSplitter, OfWalker, OfReader, OfWorker,
      OfRaw, OfEntry, LiveReader, LiveWorker, InReader, InWorker, Chunks, Without, Rank, Numbered;
  }

  lemma GoodJoin(c: Config, s: State, v: Value)
    requires Enabled(c, s, Join)
    ensures Good(c, s, Join, v)
  {
    hide EntryOf, Encode, Fetch, Level, Steep, Sum, OfJob, OfChunk, OfSplitter, OfReader, OfWorker, OfRaw,
      OfEntry, LiveReader, LiveWorker, InReader, InWorker, Chunks, Without, Rank, Numbered;
    NumberedNothing(s.numbered);
    SumNothing(OfJob(c, v, InWalk));
    SumNothing(OfJob(c, v, Unfound));
    if s.walkQ == [] && s.walk == [] {
      NumberedNothing(s.numbered + |s.walkQ|);
    }
  }

  lemma GoodCollect(c: Config, s: State, v: Value)
    requires Enabled(c, s, Collect)
    ensures Good(c, s, Collect, v)
  {
    hide EntryOf, Encode, Fetch, Level, Steep, Sum, OfChunk, OfFeeder, OfWalker, OfReader, OfWorker, OfRaw,
      OfEntry, LiveReader, LiveWorker, InReader, InWorker, Chunks, Without, Rank, Numbered;
    var j := s.feedQ[0];
    SumTail(OfJob(c, v, InFeed), s.feedQ);
    SumAppend(OfJob(c, v, Gathered), s.splitter.got, j);
    ShiftOne(v, InFeed, Gathered, EntryOf(c)(j));
    RankGap();
  }

  lemma GoodSplit(c: Config, s: State, v: Value)
    requires Enabled(c, s, Split)
    ensures Good(c, s, Split, v)
  {
    hide EntryOf, Encode, Fetch, Level, Steep, Sum, OfJob, OfChunk, OfFeeder, OfWalker, OfReader, OfWorker,
      OfRaw, OfEntry, LiveReader, LiveWorker, InReader, InWorker, Chunks, Without, Rank, Numbered;
    var got, n := s.splitter.got, Max(c.readJobs, 1);
    ChunksLaws(got, n);
    SumChunks(c, v, Cut, Chunks(got, n));
    Shift(c, v, Gathered, Cut, got);
    RankGap();
  }

  lemma GoodSendChunk(c: Config, s: State, v: Value)
    requires Enabled(c, s, SendChunk)
    ensures Good(c, s, SendChunk, v)
  {
    hide EntryOf, Encode, Fetch, Level, Steep, Sum, OfJob, OfFeeder, OfWalker, OfReader, OfWorker, OfRaw,
      OfEntry, LiveReader, LiveWorker, InReader, InWorker, Chunks, Without, Rank, Numbered;
    var ch := s.splitter.chunks[0];
    SumTail(OfChunk(c, v, Cut), s.splitter.chunks);
    SumAppend(OfChunk(c, v, InChunks), s.chunkQ, ch);
    Shift(c, v, Cut, InChunks, ch);
    RankGap();
  }

  lemma GoodSplitEnd(c: Config, s: State, v: Value)
    requires Enabled(c, s, SplitEnd)
    ensures Good(c, s, SplitEnd, v)
  {
    hide EntryOf, Encode, Fetch, Level, Steep, Sum, OfJob, OfChunk, OfFeeder, OfWalker, OfReader, OfWorker,
      OfRaw, OfEntry, LiveReader, LiveWorker, InReader, InWorker, Chunks, Without, Rank, Numbered;
    SumNothing(OfChunk(c, v, Cut));
  }

  lemma GoodTake(c: Config, s: State, v: Value, r: nat)
    requires Enabled(c, s, Take(r))
    ensures Good(c, s, Take(r), v)
  {
    hide EntryOf, Encode, Fetch, Level, Steep, Sum, OfSplitter, OfFeeder, OfWalker, OfReader, OfWorker, OfRaw,
      OfEntry, LiveReader, LiveWorker, InWorker, Chunks, Without, Rank, Numbered;
    ReaderChange(c, s, v, r, Apply(c, s, Take(r)).readers[r]);
    RankGap();
    if c.bulk {
      SumTail(OfChunk(c, v, InChunks), s.chunkQ);
      Shift(c, v, InChunks, Assigned, s.chunkQ[0]);
      Shift(c, v, InChunks, Todo, s.chunkQ[0]);
    } else {
      SumTail(OfJob(c, v, InFeed), s.feedQ);
      SumOne(OfJob(c, v, Todo), s.feedQ[0]);
      ShiftOne(v, InFeed, Todo, EntryOf(c)(s.feedQ[0]));
    }
  }

  lemma GoodAcquire(c: Config, s: State, v: Value, r: nat)
    requires Enabled(c, s, Acquire(r))
    ensures Good(c, s, Acquire(r), v)
  {
    hide EntryOf, Encode, Fetch, Level, Steep, Sum, OfJob, OfChunk, OfSplitter, OfFeeder, OfWalker, OfReader,
      OfWorker, OfRaw, OfEntry, LiveReader, LiveWorker, InWorker, Chunks, Without, Rank, Numbered;
    var jobs := s.readers[r].jobs;
    ReaderChange(c, s, v, r, Busy(jobs, None));
    Shift(c, v, Assigned, Todo, jobs);
    RankGap();
  }

  lemma GoodRead(c: Config, s: State, v: Value, r: nat, k: nat)
    requires Enabled(c, s, Read(r, k))
    ensures Good(c, s, Read(r, k), v)
  {
    hide Encode, Fetch, Level, Steep, Sum, OfChunk, OfSplitter, OfFeeder, OfWalker, OfReader, OfWorker, OfRaw,
      OfEntry, LiveReader, LiveWorker, InWorker, Chunks, Without, Rank, Numbered;
    var todo := s.readers[r].todo;
    ReaderChange(c, s, v, r, Busy(Without(todo, k), Some(Fetch(c, todo[k]))));
    SumWithout(OfJob(c, v, Todo), todo, k);
    ShiftOne(v, Todo, Held, EntryOf(c)(todo[k]));
    RankGap();
  }

  lemma GoodSend(c: Config, s: State, v: Value, r: nat)
    requires Enabled(c, s, Send(r))
    ensures Good(c, s, Send(r), v)
  {
    hide EntryOf, Encode, Fetch, Level, Steep, Sum, OfJob, OfChunk, OfSplitter, OfFeeder, OfWalker, OfReader,
      OfWorker, OfEntry, LiveReader, LiveWorker, InWorker, Chunks, Without, Rank, Numbered;
    var x := s.readers[r];
    ReaderChange(c, s, v, r, Apply(c, s, Send(r)).readers[r]);
    SumAppend(OfRaw(c, v, InRaw), s.rawQ, x.out.value);
    SumNothing(OfJob(c, v, Todo));
    ShiftOne(v, Held, InRaw, Encode(c, x.out.value));
    RankGap();
  }

  lemma GoodFinish(c: Config, s: State, v: Value, r: nat)
    requires Enabled(c, s, Finish(r))
    ensures Good(c, s, Finish(r), v)
  {
    hide EntryOf, Encode, Fetch, Level, Steep, Sum, OfJob, OfChunk, OfSplitter, OfFeeder, OfWalker, OfReader,
      OfWorker, OfRaw, OfEntry, LiveReader, LiveWorker, InWorker, Chunks, Without, Rank, Numbered;
    ReaderChange(c, s, v, r, Idle);
    SumNothing(OfJob(c, v, Todo));
  }

  lemma GoodReaderEnd(c: Config, s: State, v: Value, r: nat)
    requires Enabled(c, s, ReaderEnd(r))
    ensures Good(c, s, ReaderEnd(r), v)
  {
    hide EntryOf, Encode, Fetch, Level, Steep, Sum, OfJob, OfChunk, OfSplitter, OfFeeder, OfWalker, OfReader,
      OfWorker, OfRaw, OfEntry, LiveReader, LiveWorker, InWorker, Chunks, Without, Rank, Numbered;
    ReaderChange(c, s, v, r, NoReader(false));
  }

  lemma GoodGrab(c: Config, s: State, v: Value, w: nat)
    requires Enabled(c, s, Grab(w))
    ensures Good(c, s, Grab(w), v)
  {
    hide EntryOf, Encode, Fetch, Level, Steep, Sum, OfJob, OfChunk, OfSplitter, OfFeeder, OfWalker, OfReader,
      OfWorker, OfEntry, LiveReader, LiveWorker, InReader, Chunks, Without, Rank, Numbered;
    var x := s.rawQ[0];
    WorkerChange(c, s, v, w, Raw(x));
    SumTail(OfRaw(c, v, InRaw), s.rawQ);
    ShiftOne(v, InRaw, AtWorker, Encode(c, x));
    RankGap();
  }

  lemma GoodEncode(c: Config, s: State, v: Value, w: nat)
    requires Enabled(c, s, DoEncode(w))
    ensures Good(c, s, DoEncode(w), v)
  {
    hide EntryOf, Encode, Fetch, Level, Steep, Sum, OfJob, OfChunk, OfSplitter, OfFeeder, OfWalker, OfReader,
      OfWorker, OfRaw, OfEntry, LiveReader, LiveWorker, InReader, Chunks, Without, Rank, Numbered;
    var e := Encode(c, s.workers[w].x);
    WorkerChange(c, s, v, w, Ready(e));
    ShiftOne(v, AtWorker, Encoded, e);
    RankGap();
  }

  lemma GoodPass(c: Config, s: State, v: Value, w: nat)
    requires Enabled(c, s, Pass(w))
    ensures Good(c, s, Pass(w), v)
  {
    hide EntryOf, Encode, Fetch, Level, Steep, Sum, OfJob, OfChunk, OfSplitter, OfFeeder, OfWalker, OfReader,
      OfWorker, OfRaw, LiveReader, LiveWorker, InReader, Chunks, Without, Rank, Numbered;
    var e := s.workers[w].e;
    WorkerChange(c, s, v, w, Apply(c, s, Pass(w)).workers[w]);
    SumAppend(OfEntry(v, InEnc), s.encQ, e);
    ShiftOne(v, Encoded, InEnc, e);
    RankGap();
  }

  lemma GoodWorkerEnd(c: Config, s: State, v: Value, w: nat)
    requires Enabled(c, s, WorkerEnd(w))
    ensures Good(c, s, WorkerEnd(w), v)
  {
    hide EntryOf, Encode, Fetch, Level, Steep, Sum, OfJob, OfChunk, OfSplitter, OfFeeder, OfWalker, OfReader,
      OfWorker, OfRaw, OfEntry, LiveReader, LiveWorker, InReader, Chunks, Without, Rank, Numbered;
    WorkerChange(c, s, v, w, NoWorker(false));
  }

  lemma GoodWrite(c: Config, s: State, v: Value)
    requires Enabled(c, s, Write)
    ensures Good(c, s, Write, v)
  {
    hide EntryOf, Encode, Fetch, Level, Steep, Sum, OfJob, OfChunk, OfSplitter, OfFeeder, OfWalker, OfReader,
      OfWorker, OfRaw, LiveReader, LiveWorker, InReader, InWorker, Chunks, Without, Rank, Numbered;
    var e := s.encQ[0];
    SumTail(OfEntry(v, InEnc), s.encQ);
    SumAppend(OfEntry(v, Arrived), s.arrived, e);
    ShiftOne(v, InEnc, Arrived, e);
    RankGap();
  }

  lemma GoodWriterEnd(c: Config, s: State, v: Value)
    requires Enabled(c, s, WriterEnd)
    ensures Good(c, s, WriterEnd, v)
  {
    hide EntryOf, Encode, Fetch, Level, Steep, Sum, OfJob, OfChunk, OfSplitter, OfFeeder, OfWalker, OfReader,
      OfWorker, OfRaw, OfEntry, LiveReader, LiveWorker, InReader, InWorker, Chunks, Without, Rank, Numbered;
  }

  lemma GoodDrop(c: Config, s: State, v: Value, r: nat, k: nat)
    requires Enabled(c, s, Drop(r, k))
    ensures Good(c, s, Drop(r, k), v)
  {
    hide EntryOf, Encode, Fetch, Level, Steep, Sum, OfChunk, OfSplitter, OfFeeder, OfWalker, OfReader,
      OfWorker, OfRaw, OfEntry, LiveReader, LiveWorker, InWorker, Chunks, Without, Rank, Numbered;
    var todo := s.readers[r].todo;
    ReaderChange(c, s, v, r, Busy(Without(todo, k), None));
    SumWithout(OfJob(c, v, Todo), todo, k);
    SumAppend(OfJob(c, v, Lost), s.lost, todo[k]);
    ShiftOne(v, Todo, Lost, EntryOf(c)(todo[k]));
    RankGap();
  }

  lemma GoodWalkFails(c: Config, s: State, v: Value)
    requires Enabled(c, s, WalkFails)
    ensures Good(c, s, WalkFails, v)
  {
    hide EntryOf, Encode, Fetch, Level, Steep, Sum, OfJob, OfChunk, OfSplitter, OfFeeder, OfReader, OfWorker,
      OfRaw, OfEntry, LiveReader, LiveWorker, InReader, InWorker, Chunks, Without, Rank, Numbered;
    NumberedNothing(s.numbered + |s.walkQ|);
    SumNothing(OfJob(c, v, Unfound));
  }

  lemma GoodReadFails(c: Config, s: State, v: Value, r: nat)
    requires Enabled(c, s, ReadFails(r))
    ensures Good(c, s, ReadFails(r), v)
  {
    hide EntryOf, Encode, Fetch, Level, Steep, Sum, OfJob, OfChunk, OfSplitter, OfFeeder, OfWalker, OfReader,
      OfWorker, OfRaw, OfEntry, LiveReader, LiveWorker, InWorker, Chunks, Without, Rank, Numbered;
    ReaderChange(c, s, v, r, NoReader(true));
  }

  lemma GoodEncodeFails(c: Config, s: State, v: Value, w: nat)
    requires Enabled(c, s, EncodeFails(w))
    ensures Good(c, s, EncodeFails(w), v)
  {
    hide EntryOf, Encode, Fetch, Level, Steep, Sum, OfJob, OfChunk, OfSplitter, OfFeeder, OfWalker, OfReader,
      OfWorker, OfRaw, OfEntry, LiveReader, LiveWorker, InReader, Chunks, Without, Rank, Numbered;
    WorkerChange(c, s, v, w, NoWorker(true));
  }

  lemma GoodWriteFails(c: Config, s: State, v: Value)
    requires Enabled(c, s, WriteFails)
    ensures Good(c, s, WriteFails, v)
  {
    hide EntryOf, Encode, Fetch, Level, Steep, Sum, OfJob, OfChunk, OfSplitter, OfFeeder, OfWalker, OfReader,
      OfWorker, OfRaw, OfEntry, LiveReader, LiveWorker, InReader, InWorker, Chunks, Without, Rank, Numbered;
  }

  /** What each event does to what is in the pipeline. */
  lemma EveryEventGood(c: Config, s: State, e: Event, v: Value)
    requires Enabled(c, s, e)
    ensures Good(c, s, e, v)
  {
    hide Good, Apply;
    match e
    case WalkFind => GoodWalkFind(c, s, v);
    case WalkSend => GoodWalkSend(c, s, v);
    case WalkEnd => GoodWalkEnd(c, s, v);
    case Receive => GoodReceive(c, s, v);
    case Feed => GoodFeed(c, s, v);
    case FeedEnd => GoodFeedEnd(c, s, v);
    case Join => GoodJoin(c, s, v);
    case Collect => GoodCollect(c, s, v);
    case Split => GoodSplit(c, s, v);
    case SendChunk => GoodSendChunk(c, s, v);
    case SplitEnd => GoodSplitEnd(c, s, v);
    case Take(r) => GoodTake(c, s, v, r);
    case Acquire(r) => GoodAcquire(c, s, v, r);
    case Read(r, k) => GoodRead(c, s, v, r, k);
    case Send(r) => GoodSend(c, s, v, r);
    case Finish(r) => GoodFinish(c, s, v, r);
    case ReaderEnd(r) => GoodReaderEnd(c, s, v, r);
    case Grab(w) => GoodGrab(c, s, v, w);
    case DoEncode(w) => GoodEncode(c, s, v, w);
    case Pass(w) => GoodPass(c, s, v, w);
    case WorkerEnd(w) => GoodWorkerEnd(c, s, v, w);
    case Write => GoodWrite(c, s, v);
    case WriterEnd => GoodWriterEnd(c, s, v);
    case Drop(r, k) => GoodDrop(c, s, v, r, k);
    case WalkFails => GoodWalkFails(c, s, v);
    case ReadFails(r) => GoodReadFails(c, s, v, r);
    case EncodeFails(w) => GoodEncodeFails(c, s, v, w);
    case WriteFails => GoodWriteFails(c, s, v);
  }
}
