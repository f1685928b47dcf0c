/** The Linux bulk reader: windows of files, each read in the order of the files' first
    physical offsets, either by blocking reads or through the io_uring batch reader. */
module LinuxExtents {
  import opened Bytes
  import opened Items
  import opened StableSort
  import opened Sequences
  import Uring = UringBatch

  const WINDOW: nat := 256

  /** What the file system answers for one item: whether it opens, the first physical offset
      when the probe knows one, the content behind the handle and whether reading it works,
      and what a second attempt by path gives. */
  datatype Seen = Seen(opens: bool, phys: Option<U64>, content: seq<Byte>, readable: bool, byPath: Option<seq<Byte>>)

  type FileSystem = WorkItem -> Seen

  datatype Outcome = Done | Closed | ReadError

  // ---------------------------------------------------------------- disk order

  /** Unknown layouts sort last. */
  function Phys(fs: FileSystem, job: Job): int
  {
    var s := fs(job.item);
    if s.opens && s.phys.Some? then s.phys.value else U64_MAX
  }

  function ByPhys(fs: FileSystem): (Job, Job) -> bool { ByKey((j: Job) => Phys(fs, j)) }

  function DiskOrder(fs: FileSystem, window: seq<Job>): seq<Job>
  {
    SortBy(window, ByPhys(fs))
  }

  /** The bytes of one item as a single reader would get them; None is a read error. */
  function Direct(fs: FileSystem, item: WorkItem): Option<seq<Byte>>
  {
    var s := fs(item);
    if s.opens then (if s.readable then Some(s.content) else None) else s.byPath
  }

  function Item(job: Job, bytes: seq<Byte>): RawItem
  {
    RawItem(job.index, job.item, bytes)
  }

  function Got(fs: FileSystem, item: WorkItem): seq<Byte>
  {
    if Direct(fs, item).Some? then Direct(fs, item).value else []
  }

  /** One item, read by itself. */
  function ReadBy(fs: FileSystem): Job -> RawItem { (j: Job) => Item(j, Got(fs, j.item)) }

  predicate Readable(fs: FileSystem, jobs: seq<Job>)
  {
    forall i :: 0 <= i < |jobs| ==> Direct(fs, jobs[i].item).Some?
  }

  /** All windows, each in disk order. */
  function Sweep(fs: FileSystem, items: seq<Job>): seq<Job>
    decreases |items|
  {
    if items == [] then []
    else
      var n := Min(WINDOW, |items|);
      DiskOrder(fs, items[..n]) + Sweep(fs, items[n..])
  }

  /** Within a window the sweep ascends, and files with equal offsets keep the walk order. */
  lemma SweepWindow(fs: FileSystem, window: seq<Job>)
    ensures var r := DiskOrder(fs, window);
            && multiset(r) == multiset(window)
            && (forall i, j :: 0 <= i < j < |r| ==> Phys(fs, r[i]) <= Phys(fs, r[j]))
            && (forall x :: Like(r, ByPhys(fs), x) == Like(window, ByPhys(fs), x))
  {
    KeyOrder((j: Job) => Phys(fs, j));
    SortLaws(window, ByPhys(fs));
    var r := DiskOrder(fs, window);
    forall i, j | 0 <= i < j < |r|
      ensures Phys(fs, r[i]) <= Phys(fs, r[j])
    {
      assert ByPhys(fs)(r[i], r[j]);
    }
  }

  /** The sweep visits every item exactly once. */
  lemma {:induction false} SweepPermutes(fs: FileSystem, items: seq<Job>)
    ensures multiset(Sweep(fs, items)) == multiset(items)
    decreases |items|
  {
    if items != [] {
      var n := Min(WINDOW, |items|);
      SweepWindow(fs, items[..n]);
      SweepPermutes(fs, items[n..]);
      assert items == items[..n] + items[n..];
    }
  }

  /** Reading in disk order gives, up to order, what reading in walk order gives. */
  lemma SweepRefinesWalk(fs: FileSystem, items: seq<Job>)
    ensures multiset(Map(ReadBy(fs), Sweep(fs, items))) == multiset(Map(ReadBy(fs), items))
  {
    SweepPermutes(fs, items);
    MapPermutes(ReadBy(fs), Sweep(fs, items), items);
  }

  /** Files whose offset is known come first, ascending. */
  lemma KnownFirst(fs: FileSystem, window: seq<Job>, i: nat, j: nat)
    requires i < j < |DiskOrder(fs, window)|
    ensures var a, b := fs(DiskOrder(fs, window)[i].item), fs(DiskOrder(fs, window)[j].item);
            b.opens && b.phys.Some? && b.phys.value < 0xFFFF_FFFF_FFFF_FFFF ==>
              a.opens && a.phys.Some? && a.phys.value <= b.phys.value
  {
    hide DiskOrder;
    SweepWindow(fs, window);
  }

  /** Windows hold 256 files. */
  lemma WindowsOf256(fs: FileSystem, items: seq<Job>)
    ensures |items| <= 256 ==> Sweep(fs, items) == DiskOrder(fs, items)
    ensures |items| > 256 ==> Sweep(fs, items) == DiskOrder(fs, items[..256]) + Sweep(fs, items[256..])
  {
    if 0 < |items| <= 256 {
      hide DiskOrder;
      assert items[..|items|] == items && items[|items|..] == [];
      assert Sweep(fs, []) == [];
      assert DiskOrder(fs, items) + [] == DiskOrder(fs, items);
    } else if |items| > 256 {
      hide DiskOrder;
    }
  }

  /** What is read for one item: by path when the file does not open, and otherwise from the handle,
      to the end when blocking and to the recorded size through the ring. */
  lemma ReadMeans(fs: FileSystem, job: Job)
    ensures var s := fs(job.item);
            Direct(fs, job.item).Some? <==> if s.opens then s.readable else s.byPath.Some?
    ensures var s := fs(job.item);
            Direct(fs, job.item).Some? ==>
              && ReadBy(fs)(job) == RawItem(job.index, job.item, if s.opens then s.content else s.byPath.value)
              && RingBy(fs)(job) == RawItem(job.index, job.item,
                                            if !s.opens then s.byPath.value
                                            else s.content[..Min(job.item.size, |s.content|)])
  {
  }

  // ---------------------------------------------------------------- blocking reads

  lemma SweepStep(fs: FileSystem, items: seq<Job>, at: nat)
    requires at < |items|
    ensures var n := Min(WINDOW, |items| - at);
            Sweep(fs, items[at..]) == DiskOrder(fs, items[at..at + n]) + Sweep(fs, items[at + n..])
  {
    var n := Min(WINDOW, |items| - at);
    assert items[at..][..n] == items[at..at + n] && items[at..][n..] == items[at + n..];
  }

  /** Sends the files of one window in disk order; on a read error or when the receivers are
      gone, a prefix has been sent. */
  method BlockingWindow(fs: FileSystem, window: seq<Job>, tx: Sender<RawItem>) returns (r: Outcome, ghost m: nat)
    modifies tx
    ensures m <= |window| == |DiskOrder(fs, window)|
    ensures tx.sent == old(tx.sent) + Map(ReadBy(fs), DiskOrder(fs, window)[..m])
    ensures Readable(fs, DiskOrder(fs, window)[..m])
    ensures r == Done <==> m == |window|
    ensures r == Closed ==> |tx.sent| >= tx.room
    ensures r == ReadError ==> m < |window| && Direct(fs, DiskOrder(fs, window)[m].item) == None
  {
    hide Map;
    SweepWindow(fs, window);
    var entries := DiskOrder(fs, window);
    assert |entries| == |multiset(entries)| == |window|;
    m := 0;
    NothingRead(fs, entries);
    hide Direct, Got, DiskOrder, ReadBy, Readable;
    for i := 0 to |entries|
      invariant m == i && tx.sent == old(tx.sent) + Map(ReadBy(fs), entries[..i])
      invariant Readable(fs, entries[..i])
    {
      var bytes := Direct(fs, entries[i].item);
      if bytes == None {
        return ReadError, i;
      }
      ReadStep(fs, entries, i);
      var ok := tx.Send(Item(entries[i], bytes.value));
      if !ok {
        return Closed, i;
      }
      m := i + 1;
    }
    assert entries[..|entries|] == entries;
    r := Done;
  }

  lemma NothingRead(fs: FileSystem, jobs: seq<Job>)
    ensures Map(ReadBy(fs), jobs[..0]) == [] && Readable(fs, jobs[..0])
  {
  }

  lemma ReadStep(fs: FileSystem, jobs: seq<Job>, i: nat)
    requires i < |jobs| && Readable(fs, jobs[..i]) && Direct(fs, jobs[i].item).Some?
    ensures Map(ReadBy(fs), jobs[..i + 1])
            == Map(ReadBy(fs), jobs[..i]) + [Item(jobs[i], Direct(fs, jobs[i].item).value)]
    ensures Readable(fs, jobs[..i + 1])
  {
    hide Direct, Map;
    MapStep(ReadBy(fs), jobs, i);
  }

  /** Everything is sent once, in sweep order, unless a read fails or the receivers go away. */
  method BlockingAll(fs: FileSystem, items: seq<Job>, tx: Sender<RawItem>) returns (r: Outcome, ghost m: nat)
    modifies tx
    ensures m <= |items| == |Sweep(fs, items)|
    ensures tx.sent == old(tx.sent) + Map(ReadBy(fs), Sweep(fs, items)[..m])
    ensures r == Done <==> m == |items|
    ensures r == Done ==> Readable(fs, items)
    ensures r == Closed ==> |tx.sent| >= tx.room
    ensures r == ReadError ==> m < |items| && Direct(fs, Sweep(fs, items)[m].item) == None
  {
    hide Map, Sweep, DiskOrder, Direct, Readable, ReadBy, SweptTo;
    SweepStart(fs, items, tx.sent);
    m := 0;
    var at := 0;
    while at < |items|
      invariant at == m <= |items| == |Sweep(fs, items)| && SweptTo(fs, items, at, old(tx.sent), tx.sent)
      decreases |items| - at
    {
      var n := Min(WINDOW, |items| - at);
      ghost var sent := tx.sent;
      ghost var k;
      r, k := BlockingWindow(fs, items[at..at + n], tx);
      SweepMore(fs, items, Sweep(fs, items), at, DiskOrder(fs, items[at..at + n]), k, old(tx.sent), sent, tx.sent);
      m := at + k;
      if r != Done {
        return;
      }
      at := at + n;
    }
    SweepEnd(fs, items, old(tx.sent), tx.sent);
    r := Done;
  }

  /** The first `at` items of the sweep, whole windows, have been sent. */
  ghost predicate SweptTo(fs: FileSystem, items: seq<Job>, at: nat, before: seq<RawItem>, sent: seq<RawItem>)
  {
    var sweep := Sweep(fs, items);
    && at <= |items| == |sweep| && sweep[at..] == Sweep(fs, items[at..])
    && sent == before + Map(ReadBy(fs), sweep[..at]) && Readable(fs, sweep[..at])
  }

  lemma SweepStart(fs: FileSystem, items: seq<Job>, before: seq<RawItem>)
    ensures SweptTo(fs, items, 0, before, before) && |items| == |Sweep(fs, items)|
  {
    hide Sweep, Direct;
    SweepPermutes(fs, items);
    var sweep := Sweep(fs, items);
    assert |multiset(sweep)| == |sweep| == |items|;
    NothingRead(fs, sweep);
    assert sweep[0..] == sweep && items[0..] == items;
  }

  lemma SweepMore(fs: FileSystem, items: seq<Job>, sweep: seq<Job>, at: nat, order: seq<Job>, k: nat,
                  before: seq<RawItem>, sent: seq<RawItem>, sent': seq<RawItem>)
    requires SweptTo(fs, items, at, before, sent) && at < |items| && sweep == Sweep(fs, items)
    requires order == DiskOrder(fs, items[at..at + Min(WINDOW, |items| - at)])
    requires k <= |order| == Min(WINDOW, |items| - at)
    requires sent' == sent + Map(ReadBy(fs), order[..k]) && Readable(fs, order[..k])
    ensures |sweep| == |items| && at + k <= |items|
    ensures sent' == before + Map(ReadBy(fs), sweep[..at + k]) && Readable(fs, sweep[..at + k])
    ensures k == |order| ==> SweptTo(fs, items, at + k, before, sent')
    ensures k < |order| ==> sweep[at + k] == order[k]
  {
    hide Map, Sweep, DiskOrder, Direct, Readable, ReadBy;
    SweepStep(fs, items, at);
    SweepPart(fs, sweep, at, order, k);
    Associate(before, Map(ReadBy(fs), sweep[..at]), Map(ReadBy(fs), order[..k]));
    if k == |order| {
      assert (order + Sweep(fs, items[at + k..]))[k..] == Sweep(fs, items[at + k..]);
    }
  }

  lemma SweepEnd(fs: FileSystem, items: seq<Job>, before: seq<RawItem>, sent: seq<RawItem>)
    requires SweptTo(fs, items, |items|, before, sent)
    ensures sent == before + Map(ReadBy(fs), Sweep(fs, items)[..|items|]) && Readable(fs, items)
  {
    hide Direct, Sweep, Map;
    var sweep := Sweep(fs, items);
    SweepPermutes(fs, items);
    assert sweep[..|items|] == sweep;
    ReadableAll(fs, sweep, items);
  }

  lemma SweepPart(fs: FileSystem, sweep: seq<Job>, at: nat, order: seq<Job>, k: nat)
    requires at + |order| <= |sweep| && sweep[at..][..|order|] == order && k <= |order|
    ensures Map(ReadBy(fs), sweep[..at]) + Map(ReadBy(fs), order[..k]) == Map(ReadBy(fs), sweep[..at + k])
    ensures Readable(fs, sweep[..at]) && Readable(fs, order[..k]) ==> Readable(fs, sweep[..at + k])
    ensures sweep[at + k..] == sweep[at..][k..]
    ensures k < |order| ==> sweep[at + k] == order[k]
  {
    hide Map, Direct;
    assert sweep[..at + k] == sweep[..at] + order[..k];
    MapConcat(ReadBy(fs), sweep[..at], order[..k]);
  }

  lemma ReadableAll(fs: FileSystem, sweep: seq<Job>, items: seq<Job>)
    requires Readable(fs, sweep) && multiset(sweep) == multiset(items)
    ensures Readable(fs, items)
  {
    forall i | 0 <= i < |items|
      ensures Direct(fs, items[i].item).Some?
    {
      assert items[i] in multiset(sweep);
      assert items[i] in sweep;
    }
  }

  // ---------------------------------------------------------------- io_uring

  /** What the io_uring path ships for an item: an open file is read up to its recorded size. */
  function Ringed(fs: FileSystem, item: WorkItem): seq<Byte>
  {
    var s := fs(item);
    if s.opens then Uring.Expected(Uring.ReadJob(s.content, item.size)) else Got(fs, item)
  }

  function RingBy(fs: FileSystem): Job -> RawItem { (j: Job) => Item(j, Ringed(fs, j.item)) }

  /** The batch job for an open file. */
  function JobBy(fs: FileSystem): Job -> Uring.ReadJob
  {
    (j: Job) => Uring.ReadJob(fs(j.item).content, j.item.size)
  }

  /** A result of the batch as it is sent on; results for other than the batch's own jobs
      do not occur. */
  function Relabel(ringed: seq<Job>): ((nat, seq<Byte>)) -> RawItem
  {
    (e: (nat, seq<Byte>)) =>
      if e.0 < |ringed| then Item(ringed[e.0], e.1) else RawItem(0, WorkItem([], [], 0, 0, 0), [])
  }

  predicate AllOpen(fs: FileSystem, ringed: seq<Job>)
  {
    forall i :: 0 <= i < |ringed| ==> fs(ringed[i].item).opens
  }

  lemma {:induction false} WholeAt(jobs: seq<Uring.ReadJob>)
    ensures forall q :: 0 <= q < |jobs| ==>
              Uring.Whole(jobs)[q] == (q, jobs[q].file[..Min(jobs[q].len, |jobs[q].file|)])
    decreases |jobs|
  {
    if jobs != [] {
      WholeAt(jobs[..|jobs| - 1]);
    }
  }

  /** Relabelling the batch's results gives the items read through the ring. */
  lemma RelabelWhole(fs: FileSystem, ringed: seq<Job>)
    requires AllOpen(fs, ringed)
    ensures Map(Relabel(ringed), Uring.Whole(Map(JobBy(fs), ringed))) == Map(RingBy(fs), ringed)
  {
    hide Map, Uring.Whole;
    var jobs := Map(JobBy(fs), ringed);
    WholeAt(jobs);
    MapAt(JobBy(fs), ringed);
    MapAt(RingBy(fs), ringed);
    MapAt(Relabel(ringed), Uring.Whole(jobs));
    assert forall q :: 0 <= q < |ringed| ==> Map(Relabel(ringed), Uring.Whole(jobs))[q] == RingBy(fs)(ringed[q]);
  }

  /** First pass over a window: files that did not open are read by path and sent. */
  method SendUnopened(fs: FileSystem, entries: seq<Job>, tx: Sender<RawItem>)
    returns (r: Outcome, ringed: seq<Job>, ghost rest: seq<Job>)
    modifies tx
    ensures tx.sent == old(tx.sent) + Map(RingBy(fs), rest)
    ensures AllOpen(fs, ringed)
    ensures multiset(ringed + rest) <= multiset(entries)
    ensures r == Done ==> multiset(ringed + rest) == multiset(entries)
    ensures r == ReadError ==> Unreadable(fs, entries)
    ensures r == Closed ==> |tx.sent| >= tx.room
  {
    hide *;
    r, ringed, rest := Done, [], [];
    MapNothing(RingBy(fs));
    PassStart(fs, entries);
    for i := 0 to |entries|
      invariant tx.sent == old(tx.sent) + Map(RingBy(fs), rest)
      invariant AllOpen(fs, ringed) && r == Done && Passed(entries, i, ringed, rest)
    {
      var e := entries[i];
      PassStep(fs, entries, i, ringed, rest);
      if fs(e.item).opens {
        ringed := ringed + [e];
      } else {
        var bytes := fs(e.item).byPath;
        if bytes == None {
          PassPart(entries, i, ringed, rest);
          CannotRead(fs, entries, i);
          return ReadError, ringed, rest;
        }
        var ok := tx.Send(Item(e, bytes.value));
        if !ok {
          PassPart(entries, i, ringed, rest);
          return Closed, ringed, rest;
        }
        rest := rest + [e];
      }
    }
    PassEnd(entries, ringed, rest);
  }

  /** The first `i` entries are divided between the ring and the path reads. */
  ghost predicate Passed(entries: seq<Job>, i: nat, ringed: seq<Job>, rest: seq<Job>)
    requires i <= |entries|
  {
    multiset(ringed) + multiset(rest) == multiset(entries[..i])
  }

  lemma PassStart(fs: FileSystem, entries: seq<Job>)
    ensures Passed(entries, 0, [], []) && AllOpen(fs, [])
  {
  }

  lemma PassPart(entries: seq<Job>, i: nat, ringed: seq<Job>, rest: seq<Job>)
    requires i <= |entries| && Passed(entries, i, ringed, rest)
    ensures multiset(ringed + rest) <= multiset(entries)
  {
    assert entries == entries[..i] + entries[i..];
  }

  /** Some item neither opens nor can be read by path. */
  predicate Unreadable(fs: FileSystem, jobs: seq<Job>)
  {
    exists i :: 0 <= i < |jobs| && !fs(jobs[i].item).opens && fs(jobs[i].item).byPath == None
  }

  lemma CannotRead(fs: FileSystem, jobs: seq<Job>, i: nat)
    requires i < |jobs| && !fs(jobs[i].item).opens && fs(jobs[i].item).byPath == None
    ensures Unreadable(fs, jobs)
  {
  }

  lemma PassEnd(entries: seq<Job>, ringed: seq<Job>, rest: seq<Job>)
    requires Passed(entries, |entries|, ringed, rest)
    ensures multiset(ringed + rest) == multiset(entries)
  {
    assert entries[..|entries|] == entries;
  }

  lemma PassStep(fs: FileSystem, entries: seq<Job>, i: nat, ringed: seq<Job>, rest: seq<Job>)
    requires i < |entries| && Passed(entries, i, ringed, rest) && AllOpen(fs, ringed)
    ensures Passed(entries, i + 1, ringed + [entries[i]], rest) && Passed(entries, i + 1, ringed, rest + [entries[i]])
    ensures fs(entries[i].item).opens ==> AllOpen(fs, ringed + [entries[i]])
    ensures !fs(entries[i].item).opens && fs(entries[i].item).byPath.Some? ==>
              Map(RingBy(fs), rest + [entries[i]])
                  == Map(RingBy(fs), rest) + [Item(entries[i], fs(entries[i].item).byPath.value)]
  {
    hide Map, Uring.Expected;
    var e := entries[i];
    assert entries[..i + 1] == entries[..i] + [e];
    MapAppend(RingBy(fs), rest, e);
  }

  /** Sends finished files on as the batch emits them. */
  method SendEmitted(ringed: seq<Job>, emitted: seq<(nat, seq<Byte>)>, tx: Sender<RawItem>)
    requires emitted != [] ==> |tx.sent| + |emitted| <= tx.room
    modifies tx
    ensures tx.sent == old(tx.sent) + Map(Relabel(ringed), emitted)
  {
    hide Map, Relabel;
    MapNothing(Relabel(ringed));
    for q := 0 to |emitted|
      invariant tx.sent == old(tx.sent) + Map(Relabel(ringed), emitted[..q])
    {
      MapStep(Relabel(ringed), emitted, q);
      var ok := tx.Send(Relabel(ringed)(emitted[q]));
    }
    assert emitted[..|emitted|] == emitted;
  }

  /** One window through the ring: whatever the completions, every item is sent exactly once, and
      if the window stops early, none more than once. A window fails only when an unopened file
      cannot be read by path or the kernel fails. */
  method RingWindow(fs: FileSystem, window: seq<Job>, tx: Sender<RawItem>, kernel: Uring.Kernel)
    returns (r: Outcome, ghost out: seq<RawItem>)
    requires !kernel.erred && kernel.flying == map[]
    modifies tx, kernel
    ensures tx.sent == old(tx.sent) + out
    ensures multiset(out) <= multiset(Map(RingBy(fs), window))
    ensures r == Done ==> multiset(out) == multiset(Map(RingBy(fs), window)) && !kernel.erred && kernel.flying == map[]
    ensures r == Closed ==> |tx.sent| >= tx.room
    ensures r == ReadError ==> kernel.erred || Unreadable(fs, window)
  {
    hide Map, Uring.Expected, Uring.Emitted, Uring.Whole, DiskOrder, RingBy, Relabel, JobBy, AllOpen, Unreadable;
    SweepWindow(fs, window);
    UnreadableAnyway(fs, DiskOrder(fs, window), window);
    ghost var rest;
    var ringed;
    r, ringed, rest := SendUnopened(fs, DiskOrder(fs, window), tx);
    out := Map(RingBy(fs), rest);
    if r != Done {
      RestPart(fs, ringed, rest, window);
      return;
    }
    var sink := new Sender(if |tx.sent| < tx.room then tx.room - |tx.sent| else 0);
    var flow, fin := Uring.ReadBatch(Map(JobBy(fs), ringed), sink, kernel);
    SendEmitted(ringed, sink.sent, tx);
    out := out + Map(Relabel(ringed), sink.sent);
    r := match flow case Go => Done case Stopped => Closed case IoError => ReadError;
    Uring.EmittedOwed(sink.sent, Map(JobBy(fs), ringed), fin);
    RelabelWhole(fs, ringed);
    RingPart(fs, ringed, rest, window, sink.sent);
    if flow == Uring.Go {
      assert sink.sent[0..] == sink.sent;
      RingWhole(fs, ringed, rest, window, sink.sent);
    }
  }

  lemma UnreadableAnyway(fs: FileSystem, a: seq<Job>, b: seq<Job>)
    requires multiset(a) == multiset(b)
    ensures Unreadable(fs, a) ==> Unreadable(fs, b)
  {
    if i :| 0 <= i < |a| && !fs(a[i].item).opens && fs(a[i].item).byPath == None {
      assert a[i] in multiset(b);
      assert a[i] in b;
    }
  }

  lemma RestPart(fs: FileSystem, ringed: seq<Job>, rest: seq<Job>, window: seq<Job>)
    requires multiset(ringed + rest) <= multiset(window)
    ensures multiset(Map(RingBy(fs), rest)) <= multiset(Map(RingBy(fs), window))
  {
    hide Map, RingBy;
    MapPart(RingBy(fs), rest, window);
  }

  lemma RingPart(fs: FileSystem, ringed: seq<Job>, rest: seq<Job>, window: seq<Job>, emitted: seq<(nat, seq<Byte>)>)
    requires multiset(ringed + rest) == multiset(window)
    requires multiset(emitted) <= multiset(Uring.Whole(Map(JobBy(fs), ringed)))
    requires Map(Relabel(ringed), Uring.Whole(Map(JobBy(fs), ringed))) == Map(RingBy(fs), ringed)
    ensures multiset(Map(RingBy(fs), rest) + Map(Relabel(ringed), emitted)) <= multiset(Map(RingBy(fs), window))
  {
    hide Map, RingBy, Relabel, JobBy, Uring.Whole;
    MapPart(Relabel(ringed), emitted, Uring.Whole(Map(JobBy(fs), ringed)));
    MapConcat(RingBy(fs), ringed, rest);
    MapPermutes(RingBy(fs), ringed + rest, window);
  }

  lemma RingWhole(fs: FileSystem, ringed: seq<Job>, rest: seq<Job>, window: seq<Job>, emitted: seq<(nat, seq<Byte>)>)
    requires multiset(ringed + rest) == multiset(window)
    requires multiset(emitted) == multiset(Uring.Whole(Map(JobBy(fs), ringed)))
    requires Map(Relabel(ringed), Uring.Whole(Map(JobBy(fs), ringed))) == Map(RingBy(fs), ringed)
    ensures multiset(Map(RingBy(fs), rest) + Map(Relabel(ringed), emitted)) == multiset(Map(RingBy(fs), window))
  {
    hide Map, RingBy, Relabel, JobBy, Uring.Whole;
    MapPermutes(Relabel(ringed), emitted, Uring.Whole(Map(JobBy(fs), ringed)));
    MapConcat(RingBy(fs), ringed, rest);
    MapPermutes(RingBy(fs), ringed + rest, window);
  }

  /** All windows through the ring: on success every item is sent exactly once, otherwise none
      more than once. */
  method RingAll(fs: FileSystem, items: seq<Job>, tx: Sender<RawItem>, kernel: Uring.Kernel)
    returns (r: Outcome, ghost out: seq<RawItem>)
    requires !kernel.erred && kernel.flying == map[]
    modifies tx, kernel
    ensures tx.sent == old(tx.sent) + out
    ensures multiset(out) <= multiset(Map(RingBy(fs), items))
    ensures r == Done ==> multiset(out) == multiset(Map(RingBy(fs), items)) && !kernel.erred && kernel.flying == map[]
    ensures r == Closed ==> |tx.sent| >= tx.room
    ensures r == ReadError ==> kernel.erred || Unreadable(fs, items)
  {
    hide Map, RingBy, Unreadable;
    out, r := [], Done;
    var at := 0;
    MapNothing(RingBy(fs));
    while at < |items|
      invariant at <= |items| && tx.sent == old(tx.sent) + out && r == Done && !kernel.erred && kernel.flying == map[]
      invariant multiset(out) == multiset(Map(RingBy(fs), items[..at]))
    {
      var n := Min(WINDOW, |items| - at);
      WindowOf(fs, items, at, n);
      ghost var part;
      r, part := RingWindow(fs, items[at..at + n], tx, kernel);
      out := out + part;
      if r != Done {
        return;
      }
      at := at + n;
    }
    assert items[..|items|] == items;
  }

  /** One more window of the items. */
  lemma WindowOf(fs: FileSystem, items: seq<Job>, at: nat, n: nat)
    requires at + n <= |items|
    ensures Map(RingBy(fs), items[..at + n]) == Map(RingBy(fs), items[..at]) + Map(RingBy(fs), items[at..at + n])
    ensures multiset(Map(RingBy(fs), items[..at + n])) <= multiset(Map(RingBy(fs), items))
    ensures Unreadable(fs, items[at..at + n]) ==> Unreadable(fs, items)
  {
    hide Map, RingBy;
    assert items[..at + n] == items[..at] + items[at..at + n];
    MapConcat(RingBy(fs), items[..at], items[at..at + n]);
    assert items == items[..at + n] + items[at + n..];
    MapConcat(RingBy(fs), items[..at + n], items[at + n..]);
    var w := items[at..at + n];
    if i :| 0 <= i < |w| && !fs(w[i].item).opens && fs(w[i].item).byPath == None {
      assert w[i] == items[at + i];
    }
  }

  // ---------------------------------------------------------------- comparing the two

  /** No open file is longer than the size recorded when it was walked. */
  predicate NoneGrew(fs: FileSystem, items: seq<Job>)
  {
    forall i :: 0 <= i < |items| ==> fs(items[i].item).opens ==> |fs(items[i].item).content| <= items[i].item.size
  }

  function Weight(x: RawItem): nat { |x.bytes| }

  lemma {:induction false} RingIsShorter(fs: FileSystem, items: seq<Job>)
    requires Readable(fs, items)
    ensures Sum(Weight, Map(RingBy(fs), items)) <= Sum(Weight, Map(ReadBy(fs), items))
    ensures !NoneGrew(fs, items) ==> Sum(Weight, Map(RingBy(fs), items)) < Sum(Weight, Map(ReadBy(fs), items))
    ensures NoneGrew(fs, items) ==> Map(RingBy(fs), items) == Map(ReadBy(fs), items)
    decreases |items|
  {
    if items != [] {
      hide Map, Sum, Direct, Ringed, Got, Readable, NoneGrew;
      var n := |items| - 1;
      LastItem(fs, items);
      RingIsShorter(fs, items[..n]);
      RingOne(fs, items[n].item);
      assert items == items[..n] + [items[n]];
      LastWeight(RingBy(fs), items);
      LastWeight(ReadBy(fs), items);
      MapAppend(RingBy(fs), items[..n], items[n]);
      MapAppend(ReadBy(fs), items[..n], items[n]);
    }
  }

  lemma LastItem(fs: FileSystem, items: seq<Job>)
    requires items != [] && Readable(fs, items)
    ensures var n := |items| - 1;
            && Readable(fs, items[..n]) && Direct(fs, items[n].item).Some?
            && (NoneGrew(fs, items) <==> NoneGrew(fs, items[..n])
                                         && (fs(items[n].item).opens ==>
                                            |fs(items[n].item).content| <= items[n].item.size))
  {
    hide Direct;
    var n := |items| - 1;
    if NoneGrew(fs, items[..n]) {
      assert forall i :: 0 <= i < n ==> items[..n][i] == items[i];
    }
  }

  lemma RingOne(fs: FileSystem, item: WorkItem)
    requires Direct(fs, item).Some?
    ensures var s := fs(item);
            if s.opens && |s.content| > item.size then |Ringed(fs, item)| < |Got(fs, item)|
                else Ringed(fs, item) == Got(fs, item)
  {
    var s := fs(item);
    assert s.content[..|s.content|] == s.content;
  }

  lemma LastWeight(f: Job -> RawItem, items: seq<Job>)
    requires items != []
    ensures Sum(Weight, Map(f, items)) == Sum(Weight, Map(f, items[..|items| - 1])) + |f(items[|items| - 1]).bytes|
  {
    assert Map(f, items)[..|items| - 1] == Map(f, items[..|items| - 1]);
  }

  /** The io_uring path and the blocking path ship the same files, if and only if no file has
      grown past its recorded size since the walk: blocking reads run to the end of the file,
      the ring stops at the recorded size. */
  lemma RingAgreesWithBlocking(fs: FileSystem, items: seq<Job>)
    requires Readable(fs, items)
    ensures multiset(Map(RingBy(fs), items)) == multiset(Map(ReadBy(fs), Sweep(fs, items))) <==> NoneGrew(fs, items)
  {
    hide Map, Sum, Readable, NoneGrew, RingBy, ReadBy, Sweep;
    SweepRefinesWalk(fs, items);
    RingIsShorter(fs, items);
    if multiset(Map(RingBy(fs), items)) == multiset(Map(ReadBy(fs), Sweep(fs, items))) {
      SumPermutes(Weight, Map(RingBy(fs), items), Map(ReadBy(fs), items));
    }
  }
}
