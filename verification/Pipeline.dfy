/** The pipeline as a transition system: a feeder, or a walker whose finds a bridge feeds, an
    optional splitter, readers, workers and one writer, joined by bounded channels. A channel
    closes for its receivers when all its senders are gone and it is empty; sending fails when
    all receivers are gone. Every event is one channel operation or one unit of work of one
    thread, so a sequence of events is an arbitrary interleaving of the threads. */
module Pipeline {
  import opened Bytes
  import opened Items
  import opened Sequences
  import opened Splitter
  import opened ZipWriter

  type Positive = n: nat | n > 0 witness 1

  /** A run's parameters. `read` and `encode` are what reading and encoding one item yield.
      With a `pool`, bulk readers are raw-volume readers that share so many open volumes. */
  datatype Config = Config(
    items: seq<WorkItem>,
    streaming: bool,
    bulk: bool,
    pool: Option<Positive>,
    readJobs: nat,
    cpuJobs: nat,
    read: WorkItem -> RawItem,
    encode: RawItem -> EncodedEntry)

  predicate Pooled(c: Config) { c.bulk && c.pool.Some? }

  /** The bulk path starts at least one reader. */
  function Readers(c: Config): nat { if c.bulk then Max(c.readJobs, 1) else c.readJobs }

  function ReadBound(c: Config): nat { Max(c.readJobs * 2, 2) }

  function WalkBound(c: Config): nat { Max(ReadBound(c), 64) }

  function EncBound(c: Config): nat { Max(c.cpuJobs * 2, 2) }

  /** Items numbered consecutively. */
  function Numbered(from: nat, items: seq<WorkItem>): (jobs: seq<Job>)
    ensures |jobs| == |items|
  {
    seq(|items|, i requires 0 <= i < |items| => Job(from + i, items[i]))
  }

  /** The feeder numbers the items in walk order. */
  function Fed(c: Config): seq<Job> { Numbered(0, c.items) }

  function Fetch(c: Config, j: Job): RawItem { c.read(j.item).(index := j.index) }

  /** The encoder keeps the item's index. */
  function Encode(c: Config, x: RawItem): EncodedEntry { c.encode(x).(index := x.index) }

  function EntryOf(c: Config): Job -> EncodedEntry { (j: Job) => Encode(c, Fetch(c, j)) }

  /** Every item's entry, in walk order. */
  function Everything(c: Config): seq<EncodedEntry> { Map(EntryOf(c), Fed(c)) }

  // ---------------------------------------------------------------- states

  // Threads that have ended may have failed.

  /** The walker may hold an item it has found and not yet sent. */
  datatype Walker = Walking(found: Option<WorkItem>) | NoWalker(failed: bool)

  /** Feeding numbers items and sends them on. Joining waits for the walker, and goes on holding
      the receiving end of the walker's channel. */
  datatype Feeder = Feeding(hand: Option<Job>) | Joining | NoFeeder(failed: bool)

  datatype SplitterState = Collecting(got: seq<Job>) | Sending(chunks: seq<Chunk>) | NoSplitter

  /** A reader waits for a volume with the jobs it has taken, or works on them, in any order, and
      may hold one item to send. */
  datatype Reader =
    Idle | Waiting(jobs: Chunk) | Busy(todo: seq<Job>, out: Option<RawItem>) | NoReader(failed: bool)

  datatype Worker = Free | Raw(x: RawItem) | Ready(e: EncodedEntry) | NoWorker(failed: bool)

  datatype Writer = Writing | WriterDone | WriteFailed

  datatype State = State(
    walker: Walker,
    walk: seq<WorkItem>,        // not yet found by the walker
    walkQ: seq<WorkItem>,       // the walker's channel; without streaming, the batch list
    numbered: nat,              // items numbered so far
    feeder: Feeder,
    feedQ: seq<Job>,
    splitter: SplitterState,
    chunkQ: seq<Chunk>,
    volumes: nat,               // in the pool
    readers: seq<Reader>,
    rawQ: seq<RawItem>,
    workers: seq<Worker>,
    encQ: seq<EncodedEntry>,
    writer: Writer,
    arrived: seq<EncodedEntry>, // at the writer, in arrival order
    lost: seq<Job>)             // dropped by a bulk reader without an error

  function Init(c: Config): State
  {
    State(if c.streaming then Walking(None) else NoWalker(false),
          if c.streaming then c.items else [], if c.streaming then [] else c.items, 0,
          Feeding(None), [], if c.bulk then Collecting([]) else NoSplitter, [],
          if Pooled(c) then c.pool.value else 0,
          seq(Readers(c), _ => Idle), [], seq(c.cpuJobs, _ => Free), [], Writing, [], [])
  }

  predicate AnyReader(s: State) { exists r :: 0 <= r < |s.readers| && !s.readers[r].NoReader? }

  predicate AnyWorker(s: State) { exists w :: 0 <= w < |s.workers| && !s.workers[w].NoWorker? }

  /** Some thread still listens to the feed. */
  predicate FeedHeard(c: Config, s: State)
  {
    if c.bulk then !s.splitter.NoSplitter? else AnyReader(s)
  }

  /** No more chunks, or no more items, will come for a reader. */
  predicate SourceDry(c: Config, s: State)
  {
    if c.bulk then s.splitter.NoSplitter? && s.chunkQ == [] else s.feeder.NoFeeder? && s.feedQ == []
  }

  // ---------------------------------------------------------------- the end of the program

  datatype Status = Running | Ended | Failed

  function FeederStatus(f: Feeder): Status { if !f.NoFeeder? then Running else if f.failed then Failed else Ended }

  function SplitterStatus(s: SplitterState): Status { if s.NoSplitter? then Ended else Running }

  function ReaderStatus(r: Reader): Status { if !r.NoReader? then Running else if r.failed then Failed else Ended }

  function WorkerStatus(w: Worker): Status { if !w.NoWorker? then Running else if w.failed then Failed else Ended }

  /** The threads in the order in which the main thread joins them. */
  function Statuses(s: State): seq<Status>
  {
    [FeederStatus(s.feeder), SplitterStatus(s.splitter)]
    + seq(|s.readers|, r requires 0 <= r < |s.readers| => ReaderStatus(s.readers[r]))
    + seq(|s.workers|, w requires 0 <= w < |s.workers| => WorkerStatus(s.workers[w]))
  }

  /** Joining goes on to the first thread that has failed, which ends the program with its error,
      or that is still running. */
  function Joined(ts: seq<Status>): Status
  {
    if ts == [] then Ended else if ts[0].Ended? then Joined(ts[1..]) else ts[0]
  }

  /** The program is over: the writer has failed, which ends it at once, or the writer is done and
      the main thread's joins have come to an end, with an error or without. */
  predicate Finished(s: State)
  {
    s.writer.WriteFailed? || (s.writer.WriterDone? && !Joined(Statuses(s)).Running?)
  }

  /** All threads were joined without an error; only then the archive is finished. */
  predicate Successful(s: State) { s.writer.WriterDone? && Joined(Statuses(s)).Ended? }

  lemma {:induction false} JoinedAll(ts: seq<Status>)
    ensures Joined(ts).Ended? <==> forall i :: 0 <= i < |ts| ==> ts[i].Ended?
    ensures (forall i :: 0 <= i < |ts| ==> !ts[i].Running?) ==> !Joined(ts).Running?
  {
    if ts != [] {
      JoinedAll(ts[1..]);
      assert ts == [ts[0]] + ts[1..];
    }
  }

  /** A thread that is running blocks the joins, if none before it has failed. */
  lemma {:induction false} JoinedBlocks(ts: seq<Status>, i: nat)
    requires i < |ts| && ts[i].Running? && forall j :: 0 <= j < i ==> !ts[j].Failed?
    ensures Joined(ts).Running?
  {
    if i > 0 && ts[0].Ended? {
      JoinedBlocks(ts[1..], i - 1);
    }
  }

  // ---------------------------------------------------------------- events

  datatype Event =
    | WalkFind | WalkSend | WalkEnd
    | Receive | Feed | FeedEnd | Join
    | Collect | Split | SendChunk | SplitEnd
    | Take(r: nat) | Acquire(r: nat) | Read(r: nat, k: nat) | Send(r: nat) | Finish(r: nat) | ReaderEnd(r: nat)
    | Grab(w: nat) | DoEncode(w: nat) | Pass(w: nat) | WorkerEnd(w: nat)
    | Write | WriterEnd
    | Drop(r: nat, k: nat) // an item is skipped without an error
    | WalkFails | ReadFails(r: nat) | EncodeFails(w: nat) | WriteFails // a thread ends with an error

  predicate Fault(e: Event) { e.WalkFails? || e.ReadFails? || e.EncodeFails? || e.WriteFails? }

  predicate ReaderIs(s: State, r: nat, x: Reader) { r < |s.readers| && s.readers[r] == x }

  predicate ReadingReader(s: State, r: nat) { r < |s.readers| && s.readers[r].Busy? && s.readers[r].out == None }

  predicate Enabled(c: Config, s: State, e: Event)
  {
    match e
    case WalkFind => s.walker == Walking(None) && s.walk != []
    case WalkSend => s.walker.Walking? && s.walker.found.Some? && |s.walkQ| < WalkBound(c)
    case WalkEnd => s.walker == Walking(None) && s.walk == []
    case Receive => s.feeder == Feeding(None) && s.walkQ != []
    case Feed => s.feeder.Feeding? && s.feeder.hand.Some? && (FeedHeard(c, s) ==> |s.feedQ| < ReadBound(c))
    case FeedEnd => s.feeder == Feeding(None) && s.walkQ == [] && s.walker.NoWalker?
    case Join => s.feeder.Joining? && s.walker.NoWalker?
    case Collect => s.splitter.Collecting? && s.feedQ != []
    case Split => s.splitter.Collecting? && s.feedQ == [] && s.feeder.NoFeeder?
    case SendChunk =>
      s.splitter.Sending? && s.splitter.chunks != [] && (AnyReader(s) ==> |s.chunkQ| < Max(c.readJobs, 1))
    case SplitEnd => s.splitter == Sending([])
    case Take(r) => ReaderIs(s, r, Idle) && if c.bulk then s.chunkQ != [] else s.feedQ != []
    case Acquire(r) => r < |s.readers| && s.readers[r].Waiting? && s.volumes > 0
    case Read(r, k) => ReadingReader(s, r) && k < |s.readers[r].todo|
    case Send(r) =>
      r < |s.readers| && s.readers[r].Busy? && s.readers[r].out.Some? && (AnyWorker(s) ==> |s.rawQ| < ReadBound(c))
    case Finish(r) => ReaderIs(s, r, Busy([], None))
    case ReaderEnd(r) => ReaderIs(s, r, Idle) && SourceDry(c, s)
    case Grab(w) => w < |s.workers| && s.workers[w].Free? && s.rawQ != []
    case DoEncode(w) => w < |s.workers| && s.workers[w].Raw?
    case Pass(w) => w < |s.workers| && s.workers[w].Ready? && (s.writer.Writing? ==> |s.encQ| < EncBound(c))
    case WorkerEnd(w) => w < |s.workers| && s.workers[w].Free? && s.rawQ == [] && !AnyReader(s)
    case Write => s.writer.Writing? && s.encQ != []
    case WriterEnd => s.writer.Writing? && s.encQ == [] && !AnyWorker(s)
    case Drop(r, k) => c.bulk && ReadingReader(s, r) && k < |s.readers[r].todo|
    case WalkFails => s.walker == Walking(None)
    case ReadFails(r) => ReadingReader(s, r) && s.readers[r].todo != []
    case EncodeFails(w) => w < |s.workers| && s.workers[w].Raw?
    case WriteFails => s.writer.Writing? && s.encQ != []
  }

  function SetReader(s: State, r: nat, x: Reader): State
    requires r < |s.readers|
  {
    s.(readers := s.readers[r := x])
  }

  function SetWorker(s: State, w: nat, x: Worker): State
    requires w < |s.workers|
  {
    s.(workers := s.workers[w := x])
  }

  /** A failed send makes the feeder stop receiving and join the walker. A failed raw-volume
      reader does not return its volume; every other way out of a chunk does. */
  function Apply(c: Config, s: State, e: Event): State
    requires Enabled(c, s, e)
  {
    match e
    case WalkFind => s.(walker := Walking(Some(s.walk[0])), walk := s.walk[1..])
    case WalkSend => s.(walker := Walking(None), walkQ := s.walkQ + [s.walker.found.value])
    case WalkEnd => s.(walker := NoWalker(false))
    case Receive =>
      s.(feeder := Feeding(Some(Job(s.numbered, s.walkQ[0]))), numbered := s.numbered + 1, walkQ := s.walkQ[1..])
    case Feed =>
      if FeedHeard(c, s) then s.(feeder := Feeding(None), feedQ := s.feedQ + [s.feeder.hand.value])
      else s.(feeder := Joining)
    case FeedEnd => s.(feeder := Joining)
    case Join => s.(feeder := NoFeeder(s.walker.failed), walkQ := [], walk := [])
    case Collect => s.(splitter := Collecting(s.splitter.got + [s.feedQ[0]]), feedQ := s.feedQ[1..])
    case Split => s.(splitter := Sending(Chunks(s.splitter.got, Max(c.readJobs, 1))))
    case SendChunk =>
      var chunks := s.splitter.chunks;
      if AnyReader(s) then s.(splitter := Sending(chunks[1..]), chunkQ := s.chunkQ + [chunks[0]])
      else s.(splitter := NoSplitter)
    case SplitEnd => s.(splitter := NoSplitter)
    case Take(r) =>
      if Pooled(c) then SetReader(s, r, Waiting(s.chunkQ[0])).(chunkQ := s.chunkQ[1..])
      else if c.bulk then SetReader(s, r, Busy(s.chunkQ[0], None)).(chunkQ := s.chunkQ[1..])
      else SetReader(s, r, Busy([s.feedQ[0]], None)).(feedQ := s.feedQ[1..])
    case Acquire(r) => SetReader(s, r, Busy(s.readers[r].jobs, None)).(volumes := s.volumes - 1)
    case Read(r, k) =>
      var todo := s.readers[r].todo;
      SetReader(s, r, Busy(Without(todo, k), Some(Fetch(c, todo[k]))))
    case Send(r) =>
      var x := s.readers[r];
      if AnyWorker(s) then SetReader(s, r, Busy(x.todo, None)).(rawQ := s.rawQ + [x.out.value])
      else SetReader(s, r, if c.bulk then Busy([], None) else NoReader(false))
    case Finish(r) => SetReader(s, r, Idle).(volumes := if Pooled(c) then s.volumes + 1 else s.volumes)
    case ReaderEnd(r) => SetReader(s, r, NoReader(false))
    case Grab(w) => SetWorker(s, w, Raw(s.rawQ[0])).(rawQ := s.rawQ[1..])
    case DoEncode(w) => SetWorker(s, w, Ready(Encode(c, s.workers[w].x)))
    case Pass(w) =>
      if s.writer.Writing? then SetWorker(s, w, Free).(encQ := s.encQ + [s.workers[w].e])
      else SetWorker(s, w, NoWorker(false))
    case WorkerEnd(w) => SetWorker(s, w, NoWorker(false))
    case Write => s.(encQ := s.encQ[1..], arrived := s.arrived + [s.encQ[0]])
    case WriterEnd => s.(writer := WriterDone)
    case Drop(r, k) =>
      var todo := s.readers[r].todo;
      SetReader(s, r, Busy(Without(todo, k), None)).(lost := s.lost + [todo[k]])
    case WalkFails => s.(walker := NoWalker(true), walk := [])
    case ReadFails(r) => SetReader(s, r, NoReader(true))
    case EncodeFails(w) => SetWorker(s, w, NoWorker(true))
    case WriteFails => s.(writer := WriteFailed)
  }

  // ---------------------------------------------------------------- what events leave alone

  predicate InputEvent(e: Event)
  {
    || e.WalkFind? || e.WalkSend? || e.WalkEnd? || e.WalkFails? || e.Receive? || e.Feed? || e.FeedEnd? || e.Join?
    || e.Collect? || e.Split? || e.SendChunk? || e.SplitEnd?
  }

  predicate ReaderEvent(e: Event)
  {
    e.Take? || e.Acquire? || e.Read? || e.Send? || e.Finish? || e.ReaderEnd? || e.Drop? || e.ReadFails?
  }

  predicate WorkerEvent(e: Event) { e.Grab? || e.DoEncode? || e.Pass? || e.WorkerEnd? || e.EncodeFails? }

  predicate WriterEvent(e: Event) { e.Write? || e.WriterEnd? || e.WriteFails? }

  lemma InputFrame(c: Config, s: State, e: Event)
    requires Enabled(c, s, e) && InputEvent(e)
    ensures var s' := Apply(c, s, e);
            s' == s.(walker := s'.walker, walk := s'.walk, walkQ := s'.walkQ, numbered := s'.numbered,
                     feeder := s'.feeder, feedQ := s'.feedQ, splitter := s'.splitter, chunkQ := s'.chunkQ)
  {
    hide AnyReader, FeedHeard, ReadBound, WalkBound, Chunks;
  }

  lemma ReaderFrame(c: Config, s: State, e: Event)
    requires Enabled(c, s, e) && ReaderEvent(e)
    ensures e.r < |s.readers|
    ensures var s' := Apply(c, s, e);
            && |s'.readers| == |s.readers|
            && s' == s.(readers := s.readers[e.r := s'.readers[e.r]], feedQ := s'.feedQ, chunkQ := s'.chunkQ,
                        volumes := s'.volumes, rawQ := s'.rawQ, lost := s'.lost)
  {
    hide AnyReader, AnyWorker, FeedHeard, SourceDry, ReadBound, Without, Fetch;
  }

  lemma WorkerFrame(c: Config, s: State, e: Event)
    requires Enabled(c, s, e) && WorkerEvent(e)
    ensures e.w < |s.workers|
    ensures var s' := Apply(c, s, e);
            && |s'.workers| == |s.workers|
            && s' == s.(workers := s.workers[e.w := s'.workers[e.w]], rawQ := s'.rawQ, encQ := s'.encQ)
  {
    hide AnyReader, EncBound, Encode;
  }

  lemma WriterFrame(c: Config, s: State, e: Event)
    requires Enabled(c, s, e) && WriterEvent(e)
    ensures var s' := Apply(c, s, e);
            s' == s.(writer := s'.writer, encQ := s'.encQ, arrived := s'.arrived)
  {
    hide AnyWorker;
  }

  // ---------------------------------------------------------------- stuck states

  /** No thread can take a step, other than by failing or dropping an item. */
  ghost predicate Stuck(c: Config, s: State)
  {
    forall e :: Enabled(c, s, e) ==> Fault(e) || e.Drop?
  }

  /** The walker waits for room in its channel, whose only receiver waits for the walker. */
  predicate WalkerBlocked(c: Config, s: State)
  {
    s.feeder.Joining? && s.walker.Walking? && s.walker.found.Some? && |s.walkQ| >= WalkBound(c)
  }

  /** A reader waits for a volume, none is left, and no reader holds one that it could return. */
  predicate PoolDry(s: State)
  {
    && s.volumes == 0
    && (exists r :: 0 <= r < |s.readers| && s.readers[r].Waiting?)
    && (forall r :: 0 <= r < |s.readers| ==> !s.readers[r].Busy?)
  }

  lemma NoWork(c: Config, s: State)
    requires Stuck(c, s)
    ensures forall w :: 0 <= w < |s.workers| ==> s.workers[w].Free? || s.workers[w].NoWorker?
    ensures s.writer.Writing? ==> s.encQ == []
    ensures AnyWorker(s) ==> s.rawQ == []
  {
    assert !Enabled(c, s, Write);
    forall w | 0 <= w < |s.workers|
      ensures s.workers[w].Free? || s.workers[w].NoWorker?
      ensures s.workers[w].NoWorker? || s.rawQ == []
    {
      assert !Enabled(c, s, Pass(w)) && !Enabled(c, s, DoEncode(w)) && !Enabled(c, s, Grab(w));
    }
  }

  lemma NoReading(c: Config, s: State)
    requires Stuck(c, s)
    ensures forall r :: 0 <= r < |s.readers| ==> !s.readers[r].Busy?
    ensures forall r :: 0 <= r < |s.readers| && s.readers[r].Waiting? ==> s.volumes == 0
    ensures (exists r :: 0 <= r < |s.readers| && s.readers[r].Idle?) ==>
            if c.bulk then s.chunkQ == [] else s.feedQ == []
  {
    NoWork(c, s);
    forall r | 0 <= r < |s.readers|
      ensures !s.readers[r].Busy? && (s.readers[r].Waiting? ==> s.volumes == 0)
      ensures s.readers[r].Idle? ==> if c.bulk then s.chunkQ == [] else s.feedQ == []
    {
      assert !Enabled(c, s, Send(r)) && !Enabled(c, s, Read(r, 0)) && !Enabled(c, s, Finish(r));
      assert !Enabled(c, s, Acquire(r)) && !Enabled(c, s, Take(r));
    }
  }

  /** Only bulk runs have a splitter, and a feeder that has ended has joined the walker and
      returns its error. */
  predicate Shaped(c: Config, s: State)
  {
    && (!c.bulk ==> s.splitter.NoSplitter?)
    && (s.feeder.NoFeeder? ==> s.walker == NoWalker(s.feeder.failed))
  }

  /** Without a blocked walker and without a dry pool, a thread can step until all have ended. */
  lemma StuckMeansFinished(c: Config, s: State)
    requires Stuck(c, s) && Shaped(c, s)
    ensures Finished(s) || WalkerBlocked(c, s) || PoolDry(s)
  {
    NoWork(c, s);
    NoReading(c, s);
    if !PoolDry(s) && !WalkerBlocked(c, s) {
      NoFeeding(c, s);
      forall r | 0 <= r < |s.readers|
        ensures s.readers[r].NoReader?
      {
        assert !Enabled(c, s, ReaderEnd(r));
      }
      forall w | 0 <= w < |s.workers|
        ensures s.workers[w].NoWorker?
      {
        assert !Enabled(c, s, WorkerEnd(w));
      }
      assert !Enabled(c, s, WriterEnd);
      JoinedAll(Statuses(s));
    }
  }

  lemma NoFeeding(c: Config, s: State)
    requires Stuck(c, s) && Shaped(c, s) && !PoolDry(s) && !WalkerBlocked(c, s)
    ensures s.feeder.NoFeeder? && s.splitter.NoSplitter?
  {
    NoReading(c, s);
    assert !Enabled(c, s, WalkFind) && !Enabled(c, s, WalkSend) && !Enabled(c, s, WalkEnd);
    assert !Enabled(c, s, Receive) && !Enabled(c, s, Feed) && !Enabled(c, s, FeedEnd) && !Enabled(c, s, Join);
    assert !Enabled(c, s, Collect) && !Enabled(c, s, Split) && !Enabled(c, s, SendChunk) && !Enabled(c, s, SplitEnd);
  }
}
