/** The io_uring batch reader: up to 128 reads in flight, completions in any order and of any
    size, continuation of short reads, early end of file. The kernel is an adversary. */
module UringBatch {
  import opened Bytes
  import opened Items
  import opened Sequences

  const QUEUE_DEPTH: nat := 128

  /** One job: an open file, here its content, and the length to read. */
  datatype ReadJob = ReadJob(file: seq<Byte>, len: nat)

  /** What must be emitted for a job: as much of the requested length as the file has. */
  function Expected(job: ReadJob): seq<Byte>
  {
    job.file[..Min(job.len, |job.file|)]
  }

  datatype JobState = JobState(buf: seq<Byte>, filled: nat, len: nat)

  /** Submission entry: read `length` bytes at `offset` into the job's buffer at `offset`. */
  datatype Sqe = Sqe(job: nat, offset: nat, length: nat)

  /** Completion: a byte count, 0 at the end of the file, or a negative error. */
  datatype Cqe = Cqe(job: nat, res: int)

  // ---------------------------------------------------------------- the kernel

  /** A read of `length` > 0 bytes at `offset` may deliver any positive number of the bytes
      there, reports 0 exactly at the end of the file, and may always fail. */
  predicate LegalResult(file: seq<Byte>, e: Sqe, res: int)
  {
    res < 0 ||
    if e.offset >= |file| then res == 0 else 1 <= res <= Min(e.length, |file| - e.offset)
  }

  /** The kernel touches a job's buffer only from the offset of its read on, and what it
      reports as delivered is the file's. */
  predicate Delivered(file: seq<Byte>, s: JobState, s': JobState, e: Sqe, res: int)
  {
    && s'.filled == s.filled && s'.len == s.len && |s'.buf| == |s.buf|
    && e.offset <= |s.buf| && s'.buf[..e.offset] == s.buf[..e.offset]
    && (res > 0 ==> e.offset + res <= |s.buf| && e.offset + res <= |file|
                    && s'.buf[e.offset..e.offset + res] == file[e.offset..e.offset + res])
  }

  /** The least that the kernel must do for a result. */
  function Deliver(file: seq<Byte>, s: JobState, e: Sqe, res: int): (s': JobState)
    requires LegalResult(file, e, res) && e.offset + e.length <= |s.buf|
    ensures Delivered(file, s, s', e, res) && Delivered(file, s, s', e, 0)
  {
    if res <= 0 then s
    else
      s.(buf := s.buf[..e.offset] + file[e.offset..e.offset + res] + s.buf[e.offset + res..])
  }

  predicate CompletionOk(jobs: seq<ReadJob>, flying: map<nat, Sqe>, states: seq<JobState>, c: Cqe,
                         states': seq<JobState>)
    requires |states| == |jobs| == |states'|
  {
    && c.job in flying && c.job < |jobs|
    && LegalResult(jobs[c.job].file, flying[c.job], c.res)
    && Delivered(jobs[c.job].file, states[c.job], states'[c.job], flying[c.job], c.res)
  }

  ghost predicate DistinctJobs(cqes: seq<Cqe>)
  {
    forall p, q :: 0 <= p < q < |cqes| ==> cqes[p].job != cqes[q].job
  }

  /** One `submit_and_wait`: some reads complete, at least one; buffers of reads in flight may
      change as above, all other buffers stay. */
  ghost predicate KernelStep(jobs: seq<ReadJob>, flying: map<nat, Sqe>, states: seq<JobState>,
                             cqes: seq<Cqe>, states': seq<JobState>)
  {
    && |states| == |jobs| == |states'|
    && cqes != [] && DistinctJobs(cqes)
    && (forall q :: 0 <= q < |cqes| ==> CompletionOk(jobs, flying, states, cqes[q], states'))
    && (forall i :: 0 <= i < |jobs| && i in flying ==> Delivered(jobs[i].file, states[i], states'[i], flying[i], 0))
    && (forall i :: 0 <= i < |jobs| && i !in flying ==> states'[i] == states[i])
  }

  predicate Negative(cqes: seq<Cqe>) { exists q :: 0 <= q < |cqes| && cqes[q].res < 0 }

  /** The kernel: the reads in flight, and whether it has failed a call or a read. Callers rely on
      the contracts alone, which leave it free to fail. */
  class Kernel {
    var flying: map<nat, Sqe>
    ghost var erred: bool

    constructor ()
      ensures flying == map[] && !erred
    {
      flying, erred := map[], false;
    }

    method Setup() returns (ok: bool)
      modifies this`erred
      ensures erred == (old(erred) || !ok)
    {
      ok := true;
    }
  }

  class Ring {
    const depth: nat
    const kernel: Kernel
    var sq: seq<Sqe>

    constructor (depth: nat, kernel: Kernel)
      ensures sq == [] && this.depth == depth && this.kernel == kernel
    {
      this.depth, this.kernel, sq := depth, kernel, [];
    }

    method Push(e: Sqe) returns (ok: bool)
      modifies this`sq
      ensures ok == (|old(sq)| < depth)
      ensures sq == if ok then old(sq) + [e] else old(sq)
    {
      ok := |sq| < depth;
      if ok {
        sq := sq + [e];
      }
    }

    /** All queued entries are in flight after a submit. */
    static ghost function Launch(flying: map<nat, Sqe>, sq: seq<Sqe>): map<nat, Sqe>
    {
      if sq == [] then flying else Launch(flying, sq[..|sq| - 1])[sq[|sq| - 1].job := sq[|sq| - 1]]
    }

    /** Submits everything queued and waits for at least one completion, or fails. Callers rely on the
        contract alone, which leaves the choice of completions, results and their order to the
        kernel; the body is one kernel that meets it. */
    method SubmitAndWait(jobs: seq<ReadJob>, states: seq<JobState>)
      returns (failed: bool, cqes: seq<Cqe>, states': seq<JobState>)
      requires |states| == |jobs|
      requires Launch(kernel.flying, sq) != map[]
      requires forall i :: i in Launch(kernel.flying, sq) ==>
                 i < |jobs| &&
                 var e := Launch(kernel.flying, sq)[i]; e.length > 0 && e.offset + e.length <= |states[i].buf|
      modifies this, kernel
      ensures kernel.erred == (old(kernel.erred) || failed || Negative(cqes))
      ensures !failed ==> sq == [] && KernelStep(jobs, Launch(old(kernel.flying), old(sq)), states, cqes, states')
      ensures !failed ==>
                kernel.flying == Launch(old(kernel.flying), old(sq)) - (set q | 0 <= q < |cqes| :: cqes[q].job)
    {
      ghost var all: map<nat, Sqe> := Launch(kernel.flying, sq);
      for n := 0 to |sq|
        invariant sq == old(sq) && kernel.flying == Launch(old(kernel.flying), sq[..n])
                  && kernel.erred == old(kernel.erred)
      {
        assert sq[..n + 1][..n] == sq[..n];
        kernel.flying := kernel.flying[sq[n].job := sq[n]];
      }
      assert sq[..|sq|] == sq;
      sq, failed := [], false;
      var i :| i in kernel.flying;
      var e := kernel.flying[i];
      assert LegalResult(jobs[i].file, e, -1);
      var res :| LegalResult(jobs[i].file, e, res);
      states' := states[i := Deliver(jobs[i].file, states[i], e, res)];
      cqes := [Cqe(i, res)];
      kernel.erred := kernel.erred || res < 0;
      kernel.flying := kernel.flying - {i};
      OneCompletion(jobs, all, states, i, res);
    }
  }

  /** Delivering one result is a step of the kernel. */
  lemma OneCompletion(jobs: seq<ReadJob>, all: map<nat, Sqe>, states: seq<JobState>, i: nat, res: int)
    requires |states| == |jobs| && i in all && i < |jobs| && LegalResult(jobs[i].file, all[i], res)
    requires forall j :: j in all ==>
             j < |jobs| && all[j].length > 0 && all[j].offset + all[j].length <= |states[j].buf|
    ensures KernelStep(jobs, all, states, [Cqe(i, res)], states[i := Deliver(jobs[i].file, states[i], all[i], res)])
    ensures (set q | 0 <= q < |[Cqe(i, res)]| :: [Cqe(i, res)][q].job) == {i}
    ensures Negative([Cqe(i, res)]) <==> res < 0
  {
    hide LegalResult, Delivered, Deliver;
    var cqes := [Cqe(i, res)];
    var states' := states[i := Deliver(jobs[i].file, states[i], all[i], res)];
    assert cqes[0] == Cqe(i, res);
    assert CompletionOk(jobs, all, states, cqes[0], states');
    forall j | 0 <= j < |jobs| && j in all
      ensures Delivered(jobs[j].file, states[j], states'[j], all[j], 0)
    {
      Undelivered(jobs[j].file, states[j], all[j]);
    }
    assert forall j :: 0 <= j < |jobs| && j !in all ==> states'[j] == states[j];
  }

  lemma Undelivered(file: seq<Byte>, s: JobState, e: Sqe)
    requires e.offset + e.length <= |s.buf|
    ensures Delivered(file, s, s, e, 0)
  {
  }

  // ---------------------------------------------------------------- progress of a batch

  /** The loop's variables: per-job state, next job to submit, jobs in flight, jobs finished. */
  datatype Progress = Progress(states: seq<JobState>, next: nat, inflight: nat, done: nat)

  /** The read that continues a job where it stands. */
  function Request(s: JobState, i: nat): Sqe
    requires s.filled <= s.len
  {
    Sqe(i, s.filled, Min(s.len - s.filled, U32_MAX))
  }

  /** A job in flight: its buffer is allocated and starts with the file's first bytes. */
  predicate Active(job: ReadJob, s: JobState)
  {
    && s.len == job.len == |s.buf| && s.filled < s.len && s.filled <= |job.file|
    && s.buf[..s.filled] == job.file[..s.filled]
  }

  /** Jobs before `next` are finished or in flight, never both; the counters agree. */
  ghost predicate Counts(p: Progress, n: nat, fin: set<nat>, wait: set<nat>)
  {
    && p.next <= n
    && fin + wait == Below(p.next) && fin !! wait
    && p.done == |fin| && p.inflight == |wait| <= QUEUE_DEPTH
  }

  /** Jobs not yet submitted are untouched, those in flight hold the start of their file. */
  ghost predicate StatesOk(jobs: seq<ReadJob>, states: seq<JobState>, next: nat, wait: set<nat>)
  {
    && |states| == |jobs|
    && (forall i :: next <= i < |jobs| ==> states[i] == JobState([], 0, jobs[i].len))
    && (forall i :: 0 <= i < |jobs| && i in wait ==> Active(jobs[i], states[i]))
    && (forall i :: 0 <= i < |jobs| ==> states[i].filled <= states[i].len)
  }

  ghost predicate Inv(jobs: seq<ReadJob>, p: Progress, fin: set<nat>, wait: set<nat>)
  {
    Counts(p, |jobs|, fin, wait) && StatesOk(jobs, p.states, p.next, wait)
  }

  /** The ring holds exactly one current request for each job in flight. */
  ghost predicate Queued(flying: map<nat, Sqe>, sq: seq<Sqe>, p: Progress, wait: set<nat>)
  {
    && Ring.Launch(flying, sq).Keys == wait && |sq| <= |wait|
    && forall i :: i in wait ==> i < |p.states| && p.states[i].filled <= p.states[i].len
                                 && Ring.Launch(flying, sq)[i] == Request(p.states[i], i)
  }

  /** Index and bytes owed for the jobs in `fin`. */
  function Results(jobs: seq<ReadJob>, fin: set<nat>): set<(nat, seq<Byte>)>
  {
    set i | i in fin && i < |jobs| :: (i, Expected(jobs[i]))
  }

  /** Each finished job was emitted exactly once, with its expected bytes, and nothing else was. */
  ghost predicate Emitted(emitted: seq<(nat, seq<Byte>)>, before: seq<(nat, seq<Byte>)>, jobs: seq<ReadJob>,
                          fin: set<nat>)
  {
    && |before| <= |emitted| && emitted[..|before|] == before
    && multiset(emitted[|before|..]) == multiset(Results(jobs, fin))
  }

  lemma EmitStep(emitted: seq<(nat, seq<Byte>)>, before: seq<(nat, seq<Byte>)>, jobs: seq<ReadJob>, fin: set<nat>,
                 i: nat)
    requires Emitted(emitted, before, jobs, fin) && i !in fin && i < |jobs|
    ensures Emitted(emitted + [(i, Expected(jobs[i]))], before, jobs, fin + {i})
  {
    hide Expected;
    var pair := (i, Expected(jobs[i]));
    assert (emitted + [pair])[|before|..] == emitted[|before|..] + [pair];
    assert Results(jobs, fin + {i}) == Results(jobs, fin) + {pair} && pair !in Results(jobs, fin);
  }

  /** Every job in order, each with what must be emitted for it. */
  function Whole(jobs: seq<ReadJob>): (r: seq<(nat, seq<Byte>)>)
    ensures |r| == |jobs|
  {
    if jobs == [] then [] else Whole(jobs[..|jobs| - 1]) + [(|jobs| - 1, Expected(jobs[|jobs| - 1]))]
  }

  lemma {:induction false} AllResults(jobs: seq<ReadJob>)
    ensures multiset(Results(jobs, Below(|jobs|))) == multiset(Whole(jobs))
    decreases |jobs|
  {
    if jobs != [] {
      hide Expected, Results, Below;
      var n := |jobs| - 1;
      AllResults(jobs[..n]);
      ResultsGrow(jobs, n);
    } else {
      assert Results(jobs, Below(0)) == {};
    }
  }

  lemma ResultsGrow(jobs: seq<ReadJob>, n: nat)
    requires n + 1 == |jobs|
    ensures multiset(Results(jobs, Below(n + 1)))
            == multiset(Results(jobs[..n], Below(n))) + multiset{(n, Expected(jobs[n]))}
  {
    hide Expected;
    var pair := (n, Expected(jobs[n]));
    BelowFacts(n);
    assert Results(jobs[..n], Below(n)) == Results(jobs, Below(n));
    assert Results(jobs, Below(n + 1)) == Results(jobs, Below(n)) + {pair};
    assert pair !in Results(jobs, Below(n));
  }

  /** Bytes still to be read by all jobs. */
  function Unread(states: seq<JobState>): int
  {
    if states == [] then 0 else Unread(states[..|states| - 1]) + states[|states| - 1].len - states[|states| - 1].filled
  }

  lemma {:induction false} UnreadUpdate(states: seq<JobState>, i: nat, s: JobState)
    requires i < |states|
    ensures Unread(states[i := s]) == Unread(states) - (states[i].len - states[i].filled) + (s.len - s.filled)
    decreases |states|
  {
    var n := |states| - 1;
    if i < n {
      UnreadUpdate(states[..n], i, s);
      assert states[i := s][..n] == states[..n][i := s];
    } else {
      assert states[i := s][..n] == states[..n];
    }
  }

  lemma {:induction false} UnreadNonNegative(states: seq<JobState>)
    requires forall i :: 0 <= i < |states| ==> states[i].filled <= states[i].len
    ensures Unread(states) >= 0
    decreases |states|
  {
    if states != [] {
      UnreadNonNegative(states[..|states| - 1]);
    }
  }

  /** Decreases with every completion: unfinished jobs plus unread bytes. */
  function Work(p: Progress): int { |p.states| - p.done + Unread(p.states) }

  /** Counting: finished plus in flight is the number of jobs submitted. */
  lemma Counting(jobs: seq<ReadJob>, p: Progress, fin: set<nat>, wait: set<nat>)
    requires Inv(jobs, p, fin, wait)
    ensures p.done + p.inflight == p.next
    ensures Work(p) >= 0
  {
    BelowFacts(p.next);
    assert |fin + wait| == |fin| + |wait|;
    UnreadNonNegative(p.states);
  }

  // ---------------------------------------------------------------- submitting

  /** Builds the request for job `i`, allocating its buffer the first time. */
  function Prepared(s: JobState): JobState
  {
    if s.buf == [] && s.len > 0 then s.(buf := Zeros(s.len)) else s
  }

  lemma PushStep(flying: map<nat, Sqe>, sq: seq<Sqe>, p: Progress, wait: set<nat>, i: nat, p': Progress)
    requires Queued(flying, sq, p, wait) && i !in wait
    requires |p'.states| == |p.states| && i < |p.states| && p'.states[i].filled <= p'.states[i].len
    requires forall j :: 0 <= j < |p.states| && j != i ==> p'.states[j] == p.states[j]
    ensures Queued(flying, sq + [Request(p'.states[i], i)], p', wait + {i})
  {
    var e := Request(p'.states[i], i);
    assert (sq + [e])[..|sq|] == sq;
    assert Ring.Launch(flying, sq + [e]) == Ring.Launch(flying, sq)[i := e];
    assert |wait + {i}| == |wait| + 1;
  }

  method TopUp(jobs: seq<ReadJob>, ring: Ring, p: Progress, sink: Sender<(nat, seq<Byte>)>,
               ghost before: seq<(nat, seq<Byte>)>,
               ghost fin: set<nat>, ghost wait: set<nat>)
    returns (p': Progress, stopped: bool, ghost fin': set<nat>, ghost wait': set<nat>)
    requires ring.depth == QUEUE_DEPTH && Inv(jobs, p, fin, wait) && Queued(ring.kernel.flying, ring.sq, p, wait)
    requires Emitted(sink.sent, before, jobs, fin)
    modifies ring`sq, sink
    ensures Emitted(sink.sent, before, jobs, fin')
    ensures !stopped ==> Inv(jobs, p', fin', wait') && Queued(ring.kernel.flying, ring.sq, p', wait')
                         && (p'.inflight == 128 || p'.next == |jobs|) && Work(p') <= Work(p)
    ensures stopped ==> |sink.sent| >= sink.room
    ensures |old(sink.sent)| <= sink.room ==> |sink.sent| <= sink.room
  {
    hide *;
    p', stopped, fin', wait' := p, false, fin, wait;
    while p'.inflight < QUEUE_DEPTH && p'.next < |jobs|
      invariant Inv(jobs, p', fin', wait') && Queued(ring.kernel.flying, ring.sq, p', wait')
      invariant Emitted(sink.sent, before, jobs, fin') && Work(p') <= Work(p)
      invariant |old(sink.sent)| <= sink.room ==> |sink.sent| <= sink.room
      decreases |jobs| - p'.next
    {
      NextIsFresh(jobs, p', fin', wait');
      if p'.states[p'.next].len == 0 {
        SkipStep(jobs, ring.kernel.flying, ring.sq, p', fin', wait', sink.sent, before);
        var ok := sink.Send((p'.next, []));
        if !ok {
          return p', true, fin', wait';
        }
        fin' := fin' + {p'.next};
        p' := p'.(done := p'.done + 1, next := p'.next + 1);
      } else {
        StartStep(jobs, ring.kernel.flying, ring.sq, p', fin', wait');
        var ok := ring.Push(Request(Prepared(p'.states[p'.next]), p'.next));
        if !ok {
          assert false; // the queue has room for everything in flight
        }
        wait' := wait' + {p'.next};
        p' := Started(p');
      }
    }
    InflightBound(jobs, p', fin', wait');
  }

  /** The next job's buffer is allocated and its request queued. */
  function Started(p: Progress): Progress
    requires p.next < |p.states|
  {
    p.(states := p.states[p.next := Prepared(p.states[p.next])], inflight := p.inflight + 1, next := p.next + 1)
  }

  lemma SkipStep(jobs: seq<ReadJob>, flying: map<nat, Sqe>, sq: seq<Sqe>, p: Progress, fin: set<nat>, wait: set<nat>,
                 emitted: seq<(nat, seq<Byte>)>, before: seq<(nat, seq<Byte>)>)
    requires Inv(jobs, p, fin, wait) && Queued(flying, sq, p, wait) && Emitted(emitted, before, jobs, fin)
    requires p.next < |jobs| && jobs[p.next].len == 0
    ensures var p' := p.(done := p.done + 1, next := p.next + 1);
            Inv(jobs, p', fin + {p.next}, wait) && Queued(flying, sq, p', wait) && Work(p') < Work(p)
    ensures Emitted(emitted + [(p.next, [])], before, jobs, fin + {p.next})
  {
    hide Inv, Queued, Emitted, Work, Expected;
    NextIsFresh(jobs, p, fin, wait);
    EmptyExpected(jobs[p.next]);
    EmitStep(emitted, before, jobs, fin, p.next);
    SkipEmpty(jobs, p, fin, wait);
    QueuedKeeps(flying, sq, p, wait, p.(done := p.done + 1, next := p.next + 1));
  }

  lemma StartStep(jobs: seq<ReadJob>, flying: map<nat, Sqe>, sq: seq<Sqe>, p: Progress, fin: set<nat>, wait: set<nat>)
    requires Inv(jobs, p, fin, wait) && Queued(flying, sq, p, wait)
    requires p.next < |jobs| && jobs[p.next].len > 0 && p.inflight < QUEUE_DEPTH
    ensures p.next < |p.states| && Prepared(p.states[p.next]).filled <= Prepared(p.states[p.next]).len
    ensures Inv(jobs, Started(p), fin, wait + {p.next}) && Work(Started(p)) == Work(p) && Started(p).next == p.next + 1
            && |sq| < QUEUE_DEPTH
    ensures Queued(flying, sq + [Request(Prepared(p.states[p.next]), p.next)], Started(p), wait + {p.next})
  {
    hide Inv, Queued, Work, Prepared, Request;
    NextIsFresh(jobs, p, fin, wait);
    StartJob(jobs, p, fin, wait);
    SqRoom(jobs, flying, sq, p, fin, wait);
    PushStep(flying, sq, p, wait, p.next, Started(p));
  }

  lemma NextIsFresh(jobs: seq<ReadJob>, p: Progress, fin: set<nat>, wait: set<nat>)
    requires Inv(jobs, p, fin, wait) && p.next < |jobs|
    ensures |p.states| == |jobs| && p.states[p.next].len == jobs[p.next].len
    ensures p.states[p.next] == JobState([], 0, jobs[p.next].len)
    ensures p.next !in fin && p.next !in wait
  {
    BelowFacts(p.next);
    assert p.next !in fin + wait;
  }

  lemma InflightBound(jobs: seq<ReadJob>, p: Progress, fin: set<nat>, wait: set<nat>)
    requires Inv(jobs, p, fin, wait)
    ensures QUEUE_DEPTH == 128 && p.inflight <= QUEUE_DEPTH && p.next <= |jobs| == |p.states|
  {
  }

  lemma SkipEmpty(jobs: seq<ReadJob>, p: Progress, fin: set<nat>, wait: set<nat>)
    requires Inv(jobs, p, fin, wait) && p.next < |jobs| && jobs[p.next].len == 0
    ensures var p' := p.(done := p.done + 1, next := p.next + 1);
            Inv(jobs, p', fin + {p.next}, wait) && Work(p') < Work(p)
  {
    NextIsFresh(jobs, p, fin, wait);
    CountFinish(p, |jobs|, fin, wait);
    hide Active, Counts, Unread;
  }

  lemma CountFinish(p: Progress, n: nat, fin: set<nat>, wait: set<nat>)
    requires Counts(p, n, fin, wait) && p.next < n
    ensures Counts(p.(done := p.done + 1, next := p.next + 1), n, fin + {p.next}, wait)
  {
    BelowFacts(p.next);
    assert p.next !in fin + wait;
    assert |fin + {p.next}| == |fin| + 1;
    assert (fin + {p.next}) + wait == (fin + wait) + {p.next};
  }

  lemma CountStart(p: Progress, n: nat, fin: set<nat>, wait: set<nat>, states: seq<JobState>)
    requires Counts(p, n, fin, wait) && p.next < n && p.inflight < QUEUE_DEPTH
    ensures Counts(p.(states := states, inflight := p.inflight + 1, next := p.next + 1), n, fin, wait + {p.next})
  {
    BelowFacts(p.next);
    assert p.next !in fin + wait;
    assert p.next !in wait && |wait + {p.next}| == |wait| + 1;
    assert fin + (wait + {p.next}) == (fin + wait) + {p.next};
  }

  lemma StartJob(jobs: seq<ReadJob>, p: Progress, fin: set<nat>, wait: set<nat>)
    requires Inv(jobs, p, fin, wait) && p.next < |jobs| == |p.states| && jobs[p.next].len > 0
             && p.inflight < QUEUE_DEPTH
    ensures var s := Prepared(p.states[p.next]);
            var p' := p.(states := p.states[p.next := s], inflight := p.inflight + 1, next := p.next + 1);
            Inv(jobs, p', fin, wait + {p.next}) && Work(p') == Work(p) && s.filled <= s.len
  {
    NextIsFresh(jobs, p, fin, wait);
    var s := Prepared(p.states[p.next]);
    assert Active(jobs[p.next], s);
    UnreadUpdate(p.states, p.next, s);
    CountStart(p, |jobs|, fin, wait, p.states[p.next := s]);
    hide Active, Counts, Unread;
  }

  lemma EmptyExpected(job: ReadJob)
    ensures job.len == 0 ==> Expected(job) == []
  {
  }

  lemma QueuedKeeps(flying: map<nat, Sqe>, sq: seq<Sqe>, p: Progress, wait: set<nat>, p': Progress)
    requires Queued(flying, sq, p, wait) && p'.states == p.states
    ensures Queued(flying, sq, p', wait)
  {
  }

  lemma SqRoom(jobs: seq<ReadJob>, flying: map<nat, Sqe>, sq: seq<Sqe>, p: Progress, fin: set<nat>, wait: set<nat>)
    requires Queued(flying, sq, p, wait) && Inv(jobs, p, fin, wait)
    ensures |sq| <= p.inflight
  {
  }

  // ---------------------------------------------------------------- completions

  /** What a completion means for a job in flight, before the loop has accounted for it. */
  predicate Landed(job: ReadJob, s: JobState, res: int)
  {
    && Active(job, s)
    && (res == 0 ==> s.filled == |job.file|)
    && (res > 0 ==> s.filled + res <= s.len && s.filled + res <= |job.file|
                    && s.buf[..s.filled + res] == job.file[..s.filled + res])
  }

  lemma LandedFrom(job: ReadJob, s: JobState, s': JobState, i: nat, res: int)
    requires Active(job, s) && LegalResult(job.file, Request(s, i), res)
    requires Delivered(job.file, s, s', Request(s, i), res)
    ensures Landed(job, s', res)
  {
    if res > 0 {
      assert s'.buf[..s.filled + res] == s'.buf[..s.filled] + s'.buf[s.filled..s.filled + res];
      assert job.file[..s.filled + res] == job.file[..s.filled] + job.file[s.filled..s.filled + res];
    }
  }

  lemma StillActive(job: ReadJob, s: JobState, s': JobState, i: nat)
    requires Active(job, s) && Delivered(job.file, s, s', Request(s, i), 0)
    ensures Active(job, s')
  {
  }

  /** Jobs of the completions from `q` on. */
  function JobsOf(cqes: seq<Cqe>, q: nat): (s: set<nat>)
    requires q <= |cqes|
    ensures forall i: nat :: i in s <==> exists k :: q <= k < |cqes| && cqes[k].job == i
    decreases |cqes| - q
  {
    if q == |cqes| then {} else {cqes[q].job} + JobsOf(cqes, q + 1)
  }

  function Elems(s: seq<nat>): set<nat> { set i | i in s }

  /** While completions are being processed: what is in flight is still flying, or completed
      but unprocessed, or waiting to be resubmitted. */
  ghost predicate Split(flying: set<nat>, cqes: seq<Cqe>, q: nat, resubmit: seq<nat>, wait: set<nat>)
  {
    && q <= |cqes| && DistinctJobs(cqes) && NoDup(resubmit)
    && wait == flying + JobsOf(cqes, q) + Elems(resubmit)
    && flying !! JobsOf(cqes, q) && flying !! Elems(resubmit) && JobsOf(cqes, q) !! Elems(resubmit)
  }

  /** Flying requests are current. */
  ghost predicate Current(flying: map<nat, Sqe>, states: seq<JobState>)
  {
    forall i :: i in flying ==> i < |states| && states[i].filled <= states[i].len && flying[i] == Request(states[i], i)
  }

  /** Unprocessed completions still describe their jobs. */
  ghost predicate AllLanded(jobs: seq<ReadJob>, states: seq<JobState>, cqes: seq<Cqe>, q: nat)
  {
    |states| == |jobs| &&
    forall k :: q <= k < |cqes| ==> cqes[k].job < |jobs| && Landed(jobs[cqes[k].job], states[cqes[k].job], cqes[k].res)
  }

  /** A kernel step keeps the invariant, and every completion reports file bytes that are
      already in place. */
  lemma AfterKernel(jobs: seq<ReadJob>, all: map<nat, Sqe>, p: Progress, fin: set<nat>, wait: set<nat>, cqes: seq<Cqe>,
                    states: seq<JobState>)
    requires Inv(jobs, p, fin, wait) && all.Keys == wait && Current(all, p.states)
    requires KernelStep(jobs, all, p.states, cqes, states)
    ensures Inv(jobs, p.(states := states), fin, wait) && Unread(states) == Unread(p.states)
    ensures AllLanded(jobs, states, cqes, 0)
    ensures var flying := all - (set q | 0 <= q < |cqes| :: cqes[q].job);
            Current(flying, states) && Split(flying.Keys, cqes, 0, [], wait)
  {
    hide Inv, KernelStep, AllLanded, Split, Unread;
    KernelStates(jobs, all, p, fin, wait, cqes, states);
    KernelUnread(p, states);
    KernelLands(jobs, all, p, fin, wait, cqes, states);
    KernelSplits(jobs, all, p.states, cqes, states);
  }

  lemma KernelLands(jobs: seq<ReadJob>, all: map<nat, Sqe>, p: Progress, fin: set<nat>, wait: set<nat>, cqes: seq<Cqe>,
                    states: seq<JobState>)
    requires Inv(jobs, p, fin, wait) && all.Keys == wait && Current(all, p.states)
    requires KernelStep(jobs, all, p.states, cqes, states)
    ensures AllLanded(jobs, states, cqes, 0)
  {
    hide Counts, Landed, Active, LegalResult, Delivered, DistinctJobs;
    forall k | 0 <= k < |cqes|
      ensures cqes[k].job < |jobs| && Landed(jobs[cqes[k].job], states[cqes[k].job], cqes[k].res)
    {
      var i := cqes[k].job;
      assert CompletionOk(jobs, all, p.states, cqes[k], states);
      LandedFrom(jobs[i], p.states[i], states[i], i, cqes[k].res);
    }
  }

  lemma KernelSplits(jobs: seq<ReadJob>, all: map<nat, Sqe>, states: seq<JobState>, cqes: seq<Cqe>,
                     states': seq<JobState>)
    requires KernelStep(jobs, all, states, cqes, states')
    ensures Split((all - (set q | 0 <= q < |cqes| :: cqes[q].job)).Keys, cqes, 0, [], all.Keys)
  {
    hide LegalResult, Delivered;
    var gone := set q | 0 <= q < |cqes| :: cqes[q].job;
    assert forall q :: 0 <= q < |cqes| ==> CompletionOk(jobs, all, states, cqes[q], states');
    assert gone <= all.Keys;
    assert forall i: nat :: i in JobsOf(cqes, 0) <==> i in gone;
    assert (all - gone).Keys == all.Keys - gone;
    assert Elems([]) == {};
  }

  lemma KernelStates(jobs: seq<ReadJob>, all: map<nat, Sqe>, p: Progress, fin: set<nat>, wait: set<nat>,
                     cqes: seq<Cqe>, states: seq<JobState>)
    requires Inv(jobs, p, fin, wait) && all.Keys == wait && Current(all, p.states)
    requires KernelStep(jobs, all, p.states, cqes, states)
    ensures Inv(jobs, p.(states := states), fin, wait)
    ensures |states| == |jobs| == |p.states|
    ensures forall i :: 0 <= i < |jobs| ==> states[i].filled == p.states[i].filled && states[i].len == p.states[i].len
  {
    hide LegalResult, CompletionOk, DistinctJobs, KernelStep, Counts;
    KernelSize(jobs, all, p.states, cqes, states);
    WaitBelow(p, |jobs|, fin, wait);
    forall i | 0 <= i < |jobs|
      ensures states[i].filled == p.states[i].filled && states[i].len == p.states[i].len
      ensures i in wait ==> Active(jobs[i], states[i])
      ensures i !in wait ==> states[i] == p.states[i]
    {
      KernelKeeps(jobs, all, p.states, cqes, states, i);
      if i in wait {
        StillActive(jobs[i], p.states[i], states[i], i);
      }
    }
    hide Active;
    CountStates(p, |jobs|, fin, wait, states);
  }

  lemma WaitBelow(p: Progress, n: nat, fin: set<nat>, wait: set<nat>)
    requires Counts(p, n, fin, wait)
    ensures forall i :: i in wait ==> i < p.next <= n
  {
    BelowFacts(p.next);
    assert forall i: nat :: i in wait ==> i in fin + wait;
  }

  lemma CountStates(p: Progress, n: nat, fin: set<nat>, wait: set<nat>, states: seq<JobState>)
    requires Counts(p, n, fin, wait)
    ensures Counts(p.(states := states), n, fin, wait)
  {
  }

  lemma KernelSize(jobs: seq<ReadJob>, all: map<nat, Sqe>, states: seq<JobState>, cqes: seq<Cqe>,
                   states': seq<JobState>)
    requires KernelStep(jobs, all, states, cqes, states')
    ensures |states'| == |jobs| == |states|
  {
  }

  lemma KernelKeeps(jobs: seq<ReadJob>, all: map<nat, Sqe>, states: seq<JobState>, cqes: seq<Cqe>,
                    states': seq<JobState>, i: nat)
    requires KernelStep(jobs, all, states, cqes, states') && i < |jobs|
    ensures states'[i].filled == states[i].filled && states'[i].len == states[i].len
    ensures if i in all then Delivered(jobs[i].file, states[i], states'[i], all[i], 0) else states'[i] == states[i]
  {
  }

  lemma KernelUnread(p: Progress, states: seq<JobState>)
    requires |states| == |p.states|
    requires forall i :: 0 <= i < |states| ==>
             states[i].filled == p.states[i].filled && states[i].len == p.states[i].len
    ensures Unread(states) == Unread(p.states)
  {
    SameUnread(p.states, states);
  }

  lemma {:induction false} SameUnread(a: seq<JobState>, b: seq<JobState>)
    requires |a| == |b| && forall i :: 0 <= i < |a| ==> a[i].filled == b[i].filled && a[i].len == b[i].len
    ensures Unread(a) == Unread(b)
    decreases |a|
  {
    if a != [] {
      SameUnread(a[..|a| - 1], b[..|b| - 1]);
    }
  }

  // ---------------------------------------------------------------- draining

  datatype Flow = Go | Stopped | IoError

  lemma {:induction false} JobsOfLater(cqes: seq<Cqe>, q: nat)
    requires q < |cqes| && DistinctJobs(cqes)
    ensures JobsOf(cqes, q) == {cqes[q].job} + JobsOf(cqes, q + 1) && cqes[q].job !in JobsOf(cqes, q + 1)
  {
  }

  lemma SplitFinish(flying: set<nat>, cqes: seq<Cqe>, q: nat, resubmit: seq<nat>, wait: set<nat>)
    requires Split(flying, cqes, q, resubmit, wait) && q < |cqes|
    ensures cqes[q].job in wait && cqes[q].job !in flying
    ensures Split(flying, cqes, q + 1, resubmit, wait - {cqes[q].job})
  {
    JobsOfLater(cqes, q);
    hide JobsOf, Elems, DistinctJobs, NoDup;
  }

  lemma SplitShort(flying: set<nat>, cqes: seq<Cqe>, q: nat, resubmit: seq<nat>, wait: set<nat>)
    requires Split(flying, cqes, q, resubmit, wait) && q < |cqes|
    ensures Split(flying, cqes, q + 1, resubmit + [cqes[q].job], wait)
  {
    var i := cqes[q].job;
    JobsOfLater(cqes, q);
    assert Elems(resubmit + [i]) == Elems(resubmit) + {i};
    assert i !in Elems(resubmit);
    hide JobsOf, Elems, DistinctJobs;
  }

  /** Changing a job that is not flying and is processed now leaves the rest as it was. */
  lemma OthersStay(jobs: seq<ReadJob>, flying: map<nat, Sqe>, states: seq<JobState>, cqes: seq<Cqe>, q: nat,
                   s: JobState)
    requires q < |cqes| && DistinctJobs(cqes) && AllLanded(jobs, states, cqes, q) && Current(flying, states)
    requires cqes[q].job !in flying
    ensures cqes[q].job < |states|
    ensures AllLanded(jobs, states[cqes[q].job := s], cqes, q + 1) && Current(flying, states[cqes[q].job := s])
  {
    hide Landed;
  }

  lemma CountDone(p: Progress, n: nat, fin: set<nat>, wait: set<nat>, i: nat, states: seq<JobState>)
    requires Counts(p, n, fin, wait) && i in wait
    ensures p.inflight > 0 && i !in fin
    ensures Counts(p.(states := states, done := p.done + 1, inflight := p.inflight - 1), n, fin + {i}, wait - {i})
  {
    assert (fin + {i}) + (wait - {i}) == fin + wait;
    assert |fin + {i}| == |fin| + 1;
    assert |wait - {i}| == |wait| - 1;
  }

  /** A job leaves the batch: its slot no longer matters. */
  lemma FinishJob(jobs: seq<ReadJob>, p: Progress, fin: set<nat>, wait: set<nat>, i: nat, s: JobState)
    requires Inv(jobs, p, fin, wait) && i in wait && i < |jobs|
    requires |p.states| == |jobs| && s.len == p.states[i].len && p.states[i].filled <= s.filled <= s.len
    ensures p.inflight > 0 && i !in fin
    ensures var p' := p.(states := p.states[i := s], done := p.done + 1, inflight := p.inflight - 1);
            Inv(jobs, p', fin + {i}, wait - {i}) && Work(p') < Work(p)
  {
    CountDone(p, |jobs|, fin, wait, i, p.states[i := s]);
    WaitBelow(p, |jobs|, fin, wait);
    UnreadUpdate(p.states, i, s);
    hide Counts, StatesOk, Unread;
    StatesFinish(jobs, p.states, p.next, wait, i, s);
  }

  lemma StatesFinish(jobs: seq<ReadJob>, states: seq<JobState>, next: nat, wait: set<nat>, i: nat, s: JobState)
    requires StatesOk(jobs, states, next, wait) && i < next && i < |states| && s.filled <= s.len
    ensures StatesOk(jobs, states[i := s], next, wait - {i})
  {
    hide Active;
  }

  /** A short read advances its job. */
  lemma AdvanceJob(jobs: seq<ReadJob>, p: Progress, fin: set<nat>, wait: set<nat>, i: nat, res: int)
    requires Inv(jobs, p, fin, wait) && i in wait && i < |jobs| == |p.states| && res > 0
    requires Landed(jobs[i], p.states[i], res) && p.states[i].filled + res < p.states[i].len
    ensures var p' := p.(states := p.states[i := p.states[i].(filled := p.states[i].filled + res)]);
            Inv(jobs, p', fin, wait) && Work(p') < Work(p)
  {
    var s := p.states[i].(filled := p.states[i].filled + res);
    assert Active(jobs[i], s);
    CountStates(p, |jobs|, fin, wait, p.states[i := s]);
    WaitBelow(p, |jobs|, fin, wait);
    UnreadUpdate(p.states, i, s);
    hide Counts, Active, Unread, Landed;
  }

  lemma EndOfFile(job: ReadJob, s: JobState)
    requires Landed(job, s, 0)
    ensures s.filled <= |s.buf| && s.buf[..s.filled] == Expected(job)
  {
  }

  lemma WholeFile(job: ReadJob, s: JobState, res: int)
    requires Landed(job, s, res) && res > 0 && s.filled + res >= s.len
    ensures s.buf == Expected(job) && s.filled + res == s.len
  {
    assert s.buf[..s.len] == s.buf;
  }

  lemma LandedAt(jobs: seq<ReadJob>, states: seq<JobState>, cqes: seq<Cqe>, q: nat)
    requires AllLanded(jobs, states, cqes, q) && q < |cqes|
    ensures cqes[q].job < |jobs| == |states| && Landed(jobs[cqes[q].job], states[cqes[q].job], cqes[q].res)
  {
  }

  lemma LandedActive(job: ReadJob, s: JobState, res: int)
    requires Landed(job, s, res)
    ensures s.filled < s.len
  {
  }

  lemma SplitDistinct(flying: set<nat>, cqes: seq<Cqe>, q: nat, resubmit: seq<nat>, wait: set<nat>)
    requires Split(flying, cqes, q, resubmit, wait)
    ensures DistinctJobs(cqes) && q <= |cqes|
  {
  }

  /** The first completion ends its job. */
  predicate FirstFinishes(states: seq<JobState>, cqes: seq<Cqe>)
  {
    && cqes != [] && cqes[0].res >= 0 && cqes[0].job < |states|
    && (cqes[0].res == 0 || states[cqes[0].job].filled + cqes[0].res >= states[cqes[0].job].len)
  }

  /** Accounts for all completions; short reads are collected for resubmission. */
  method Drain(jobs: seq<ReadJob>, p: Progress, cqes: seq<Cqe>, ghost flying: map<nat, Sqe>,
               sink: Sender<(nat, seq<Byte>)>,
               ghost before: seq<(nat, seq<Byte>)>, ghost fin: set<nat>, ghost wait: set<nat>)
    returns (p': Progress, resubmit: seq<nat>, flow: Flow, ghost fin': set<nat>, ghost wait': set<nat>)
    requires Inv(jobs, p, fin, wait) && AllLanded(jobs, p.states, cqes, 0) && Current(flying, p.states)
    requires Split(flying.Keys, cqes, 0, [], wait) && Emitted(sink.sent, before, jobs, fin)
    modifies sink
    ensures Emitted(sink.sent, before, jobs, fin')
    ensures flow == Go ==> Inv(jobs, p', fin', wait') && Current(flying, p'.states)
    ensures flow == Go ==> Split(flying.Keys, cqes, |cqes|, resubmit, wait') && |p'.states| == |p.states|
    ensures flow == Go ==> Work(p') <= Work(p) && (cqes != [] ==> Work(p') < Work(p))
    ensures flow == Stopped ==> |sink.sent| >= sink.room
    ensures |old(sink.sent)| <= sink.room ==> |sink.sent| <= sink.room
    ensures flow == IoError ==> Negative(cqes)
    ensures flow == Go ==> !Negative(cqes)
    ensures |old(sink.sent)| >= sink.room && FirstFinishes(p.states, cqes) ==> flow == Stopped
  {
    hide Inv, AllLanded, Current, Split, Emitted, Landed, Expected, Unread, DistinctJobs;
    p', resubmit, flow, fin', wait' := p, [], Go, fin, wait;
    for q := 0 to |cqes|
      invariant Inv(jobs, p', fin', wait') && AllLanded(jobs, p'.states, cqes, q) && Current(flying, p'.states)
      invariant Split(flying.Keys, cqes, q, resubmit, wait') && Emitted(sink.sent, before, jobs, fin')
      invariant |old(sink.sent)| <= sink.room ==> |sink.sent| <= sink.room
      invariant forall k :: 0 <= k < q ==> cqes[k].res >= 0
      invariant if q == 0 then p' == p && sink.sent == old(sink.sent)
                else |old(sink.sent)| >= sink.room ==> !FirstFinishes(p.states, cqes)
      invariant Work(p') <= Work(p) && (q > 0 ==> Work(p') < Work(p)) && |p'.states| == |p.states|
    {
      var i, res := cqes[q].job, cqes[q].res;
      if res < 0 {
        flow := IoError;
        return;
      }
      LandedAt(jobs, p'.states, cqes, q);
      SplitDistinct(flying.Keys, cqes, q, resubmit, wait');
      SplitFinish(flying.Keys, cqes, q, resubmit, wait');
      SplitShort(flying.Keys, cqes, q, resubmit, wait');
      var st := p'.states[i];
      LandedActive(jobs[i], st, res);
      if res == 0 {
        EndOfFile(jobs[i], st);
        var s := st.(buf := []);
        OthersStay(jobs, flying, p'.states, cqes, q, s);
        FinishJob(jobs, p', fin', wait', i, s);
        EmitStep(sink.sent, before, jobs, fin', i);
        var ok := sink.Send((i, st.buf[..st.filled]));
        if !ok {
          flow := Stopped;
          return;
        }
        p' := p'.(states := p'.states[i := s], done := p'.done + 1, inflight := p'.inflight - 1);
        fin', wait' := fin' + {i}, wait' - {i};
      } else if st.filled + res >= st.len {
        WholeFile(jobs[i], st, res);
        var s := st.(buf := [], filled := st.filled + res);
        OthersStay(jobs, flying, p'.states, cqes, q, s);
        FinishJob(jobs, p', fin', wait', i, s);
        EmitStep(sink.sent, before, jobs, fin', i);
        var ok := sink.Send((i, st.buf));
        if !ok {
          flow := Stopped;
          return;
        }
        p' := p'.(states := p'.states[i := s], done := p'.done + 1, inflight := p'.inflight - 1);
        fin', wait' := fin' + {i}, wait' - {i};
      } else {
        var s := st.(filled := st.filled + res);
        OthersStay(jobs, flying, p'.states, cqes, q, s);
        AdvanceJob(jobs, p', fin', wait', i, res);
        p' := p'.(states := p'.states[i := s]);
        resubmit := resubmit + [i];
      }
    }
  }

  // ---------------------------------------------------------------- resubmission and the loop

  /** In flight when the first `r` short reads have been resubmitted. */
  ghost function Part(flying: set<nat>, resubmit: seq<nat>, r: nat): set<nat>
    requires r <= |resubmit|
  {
    flying + Elems(resubmit[..r])
  }

  lemma ResubmitRoom(flying: set<nat>, cqes: seq<Cqe>, resubmit: seq<nat>, wait: set<nat>, r: nat)
    requires Split(flying, cqes, |cqes|, resubmit, wait) && r < |resubmit|
    ensures resubmit[r] !in Part(flying, resubmit, r) && resubmit[r] in wait
    ensures Part(flying, resubmit, r + 1) == Part(flying, resubmit, r) + {resubmit[r]}
    ensures |Part(flying, resubmit, r)| < |wait|
  {
    assert resubmit[r] in resubmit;
    var part := flying + Elems(resubmit[..r]);
    assert Elems(resubmit[..r + 1]) == Elems(resubmit[..r]) + {resubmit[r]};
    assert part <= wait - {resubmit[r]};
    SubsetSize(part, wait - {resubmit[r]});
  }

  lemma ResubmitEnds(flying: set<nat>, cqes: seq<Cqe>, resubmit: seq<nat>, wait: set<nat>)
    requires Split(flying, cqes, |cqes|, resubmit, wait)
    ensures Part(flying, resubmit, 0) == flying && Part(flying, resubmit, |resubmit|) == wait
  {
    assert Elems(resubmit[..0]) == {} && resubmit[..|resubmit|] == resubmit;
  }

  /** Queues the continuations of short reads; the ring always has room for them. */
  method Resubmit(jobs: seq<ReadJob>, ring: Ring, p: Progress, cqes: seq<Cqe>, resubmit: seq<nat>,
                  ghost fin: set<nat>, ghost wait: set<nat>)
    requires ring.depth == QUEUE_DEPTH && ring.sq == [] && Current(ring.kernel.flying, p.states)
    requires Inv(jobs, p, fin, wait) && Split(ring.kernel.flying.Keys, cqes, |cqes|, resubmit, wait)
    modifies ring`sq
    ensures Queued(ring.kernel.flying, ring.sq, p, wait)
  {
    hide *;
    ghost var flying := ring.kernel.flying.Keys;
    ResubmitEnds(flying, cqes, resubmit, wait);
    ResubmitStart(ring.kernel.flying, p);
    for r := 0 to |resubmit|
      invariant Queued(ring.kernel.flying, ring.sq, p, Part(flying, resubmit, r))
    {
      var i := resubmit[r];
      ResubmitRoom(flying, cqes, resubmit, wait, r);
      ResubmitStep(jobs, ring.kernel.flying, ring.sq, p, fin, wait, Part(flying, resubmit, r), i);
      var ok := ring.Push(Request(p.states[i], i));
      if !ok {
        assert false; // at most 128 reads are in flight, so the queue has room
      }
    }
  }

  lemma ResubmitStart(flying: map<nat, Sqe>, p: Progress)
    requires Current(flying, p.states)
    ensures Queued(flying, [], p, flying.Keys)
  {
  }

  lemma ResubmitStep(jobs: seq<ReadJob>, flying: map<nat, Sqe>, sq: seq<Sqe>, p: Progress,
                     fin: set<nat>, wait: set<nat>, part: set<nat>, i: nat)
    requires Inv(jobs, p, fin, wait) && Queued(flying, sq, p, part)
    requires i in wait && i !in part && |part| < |wait|
    ensures i < |p.states| && p.states[i].filled <= p.states[i].len && |sq| < QUEUE_DEPTH
    ensures Queued(flying, sq + [Request(p.states[i], i)], p, part + {i})
  {
    hide Inv, Queued, Request;
    WaitingJob(jobs, p, fin, wait, i);
    SqSize(flying, sq, p, part);
    PushStep(flying, sq, p, part, i, p);
  }

  lemma WaitingJob(jobs: seq<ReadJob>, p: Progress, fin: set<nat>, wait: set<nat>, i: nat)
    requires Inv(jobs, p, fin, wait) && i in wait
    ensures i < |p.states| && p.states[i].filled <= p.states[i].len && |wait| <= QUEUE_DEPTH
  {
    hide Active;
    WaitBelow(p, |jobs|, fin, wait);
  }

  lemma SqSize(flying: map<nat, Sqe>, sq: seq<Sqe>, p: Progress, wait: set<nat>)
    requires Queued(flying, sq, p, wait)
    ensures |sq| <= |wait|
  {
  }

  lemma Ready(jobs: seq<ReadJob>, flying: map<nat, Sqe>, sq: seq<Sqe>, p: Progress, fin: set<nat>, wait: set<nat>)
    requires Inv(jobs, p, fin, wait) && Queued(flying, sq, p, wait)
    ensures Current(Ring.Launch(flying, sq), p.states) && Ring.Launch(flying, sq).Keys == wait
    ensures |p.states| == |jobs|
    ensures p.inflight > 0 ==> Ring.Launch(flying, sq) != map[]
    ensures forall i :: i in Ring.Launch(flying, sq) ==>
              i < |jobs| &&
              var e := Ring.Launch(flying, sq)[i]; e.length > 0 && e.offset + e.length <= |p.states[i].buf|
  {
    WaitBelow(p, |jobs|, fin, wait);
    var all := Ring.Launch(flying, sq);
    if p.inflight > 0 {
      assert all.Keys != {};
    }
    forall i | i in all
      ensures i < |jobs| && all[i].length > 0 && all[i].offset + all[i].length <= |p.states[i].buf|
    {
      assert i in wait && Active(jobs[i], p.states[i]);
    }
  }

  /** When nothing is in flight after topping up, or every job is counted as done, all jobs are
      finished. */
  lemma AllDone(jobs: seq<ReadJob>, p: Progress, fin: set<nat>, wait: set<nat>)
    requires Inv(jobs, p, fin, wait) && (p.done >= |jobs| || (p.inflight == 0 && p.next == |jobs|))
    ensures fin == Below(|jobs|) && p.done == |jobs|
  {
    Counting(jobs, p, fin, wait);
    BelowFacts(p.next);
    assert |wait| == 0;
  }

  /** The states before anything is submitted. */
  function Initial(jobs: seq<ReadJob>): (states: seq<JobState>)
    ensures |states| == |jobs|
  {
    seq(|jobs|, i requires 0 <= i < |jobs| => JobState([], 0, jobs[i].len))
  }

  lemma Start(jobs: seq<ReadJob>, before: seq<(nat, seq<Byte>)>)
    ensures Inv(jobs, Progress(Initial(jobs), 0, 0, 0), {}, {})
    ensures Queued(map[], [], Progress(Initial(jobs), 0, 0, 0), {}) && Emitted(before, before, jobs, {})
  {
    assert before[|before|..] == [] && Results(jobs, {}) == {};
  }

  /** After the kernel step: the facts the drain needs. */
  lemma Woken(jobs: seq<ReadJob>, flying: map<nat, Sqe>, sq: seq<Sqe>, p: Progress, fin: set<nat>, wait: set<nat>,
              cqes: seq<Cqe>, states: seq<JobState>)
    requires Inv(jobs, p, fin, wait) && Queued(flying, sq, p, wait)
    requires KernelStep(jobs, Ring.Launch(flying, sq), p.states, cqes, states)
    ensures Inv(jobs, p.(states := states), fin, wait) && AllLanded(jobs, states, cqes, 0) && cqes != []
    ensures Work(p.(states := states)) == Work(p)
    ensures var left := Ring.Launch(flying, sq) - (set q | 0 <= q < |cqes| :: cqes[q].job);
            Current(left, states) && Split(left.Keys, cqes, 0, [], wait)
  {
    WokenSize(jobs, Ring.Launch(flying, sq), p, cqes, states);
    hide Inv, Queued, KernelStep, AllLanded, Split, Unread, Current, Ring.Launch;
    Ready(jobs, flying, sq, p, fin, wait);
    AfterKernel(jobs, Ring.Launch(flying, sq), p, fin, wait, cqes, states);
  }

  lemma WokenSize(jobs: seq<ReadJob>, all: map<nat, Sqe>, p: Progress, cqes: seq<Cqe>, states: seq<JobState>)
    requires KernelStep(jobs, all, p.states, cqes, states)
    ensures |states| == |p.states| && cqes != []
  {
  }

  /** Reads all jobs. Whatever the kernel completes, in whatever order and sizes: a batch that
      ends without an early stop or an error has emitted every job exactly once with the first
      min(length, file size) bytes of its file, and every batch ends. */
  method ReadBatch(jobs: seq<ReadJob>, sink: Sender<(nat, seq<Byte>)>, kernel: Kernel)
    returns (flow: Flow, ghost fin: set<nat>)
    requires !kernel.erred && kernel.flying == map[]
    modifies sink, kernel
    ensures Emitted(sink.sent, old(sink.sent), jobs, fin)
    ensures flow == Go ==> |old(sink.sent)| <= |sink.sent|
                           && multiset(sink.sent[|old(sink.sent)|..]) == multiset(Whole(jobs))
    ensures flow == Go ==> !kernel.erred && kernel.flying == map[]
    ensures flow == IoError ==> kernel.erred
    ensures flow == Stopped ==> |sink.sent| >= sink.room
    ensures |old(sink.sent)| <= sink.room ==> |sink.sent| <= sink.room
  {
    hide *;
    ghost var before := sink.sent;
    var p := Progress(Initial(jobs), 0, 0, 0);
    ghost var wait: set<nat> := {};
    fin, flow := {}, Go;
    Start(jobs, before);
    WorkBound(jobs, p, fin, wait);
    if |jobs| == 0 {
      AllDone(jobs, p, fin, wait);
      AllResults(jobs);
      Wrapped(sink.sent, before, jobs, fin);
      return;
    }
    var created := kernel.Setup();
    if !created {
      return IoError, fin;
    }
    var ring := new Ring(QUEUE_DEPTH, kernel);
    while p.done < |jobs|
      invariant ring.depth == QUEUE_DEPTH && ring.kernel == kernel && !kernel.erred
      invariant Inv(jobs, p, fin, wait) && Queued(ring.kernel.flying, ring.sq, p, wait)
      invariant Emitted(sink.sent, before, jobs, fin) && Work(p) >= 0 && flow == Go
      invariant |before| <= sink.room ==> |sink.sent| <= sink.room
      decreases Work(p)
    {
      var stopped;
      p, stopped, fin, wait := TopUp(jobs, ring, p, sink, before, fin, wait);
      if stopped {
        return Stopped, fin;
      }
      if p.inflight == 0 {
        break;
      }
      Counting(jobs, p, fin, wait);
      SqRoom(jobs, ring.kernel.flying, ring.sq, p, fin, wait);
      InflightBound(jobs, p, fin, wait);
      assert p.done + p.inflight == p.next && |ring.sq| <= p.inflight <= QUEUE_DEPTH;
      Ready(jobs, ring.kernel.flying, ring.sq, p, fin, wait);
      ghost var flying, sq := ring.kernel.flying, ring.sq;
      var failed, cqes, states := ring.SubmitAndWait(jobs, p.states);
      if failed {
        return IoError, fin;
      }
      Woken(jobs, flying, sq, p, fin, wait, cqes, states);
      p := p.(states := states);
      var resubmit;
      p, resubmit, flow, fin, wait := Drain(jobs, p, cqes, ring.kernel.flying, sink, before, fin, wait);
      if flow != Go {
        return;
      }
      WorkBound(jobs, p, fin, wait);
      Resubmit(jobs, ring, p, cqes, resubmit, fin, wait);
    }
    AllDone(jobs, p, fin, wait);
    NothingInFlight(jobs, ring.kernel.flying, ring.sq, p, fin, wait);
    AllResults(jobs);
    Wrapped(sink.sent, before, jobs, fin);
  }

  /** When all jobs are done, no read is queued or in flight. */
  lemma NothingInFlight(jobs: seq<ReadJob>, flying: map<nat, Sqe>, sq: seq<Sqe>, p: Progress, fin: set<nat>,
                        wait: set<nat>)
    requires Inv(jobs, p, fin, wait) && Queued(flying, sq, p, wait) && fin == Below(|jobs|) && p.done == |jobs|
    ensures flying == map[] && sq == []
  {
    Counting(jobs, p, fin, wait);
    assert |wait| == 0;
    assert Ring.Launch(flying, sq).Keys == {};
  }

  /** The kernel has completed some of the reads in `all` into fresh buffers. */
  ghost predicate Completes(jobs: seq<ReadJob>, all: map<nat, Sqe>, cqes: seq<Cqe>, flying: map<nat, Sqe>)
  {
    && (exists states, states': seq<JobState> ::
          && (forall i :: 0 <= i < |states| ==> i < |jobs| && states[i] == JobState(Zeros(jobs[i].len), 0, jobs[i].len))
          && KernelStep(jobs, all, states, cqes, states'))
    && flying == all - (set q | 0 <= q < |cqes| :: cqes[q].job)
  }

  /** Two files of one byte each, both reads in flight, a receiver that is gone, and a kernel that
      completes the first read: the batch stops, and drops its buffers, while the second read is
      still in flight into one of them. */
  method EarlyStop(jobs: seq<ReadJob>, cqes: seq<Cqe>) returns (flow: Flow, ghost flying: map<nat, Sqe>)
    requires jobs == [ReadJob([7], 1), ReadJob([8], 1)] && cqes == [Cqe(0, 1)]
    ensures Completes(jobs, map[0 := Sqe(0, 0, 1), 1 := Sqe(1, 0, 1)], cqes, flying)
    ensures flow == Stopped
    ensures flying == map[1 := Sqe(1, 0, 1)]
  {
    hide *;
    var sink := new Sender<(nat, seq<Byte>)>(0);
    var p := Progress([JobState([7], 0, 1), JobState([0], 0, 1)], 2, 2, 0);
    flying := map[1 := Sqe(1, 0, 1)];
    FirstCompletes(jobs, cqes, flying);
    FirstLands(jobs, cqes, flying, p);
    NothingEmitted(jobs);
    var p', resubmit, f, fin', wait' := Drain(jobs, p, cqes, flying, sink, [], {}, {0, 1});
    flow := f;
  }

  lemma NothingEmitted(jobs: seq<ReadJob>)
    ensures Emitted([], [], jobs, {})
  {
    assert Results(jobs, {}) == {};
  }

  lemma FirstCompletes(jobs: seq<ReadJob>, cqes: seq<Cqe>, flying: map<nat, Sqe>)
    requires jobs == [ReadJob([7], 1), ReadJob([8], 1)] && cqes == [Cqe(0, 1)] && flying == map[1 := Sqe(1, 0, 1)]
    ensures Completes(jobs, map[0 := Sqe(0, 0, 1), 1 := Sqe(1, 0, 1)], cqes, flying)
  {
    var all := map[0 := Sqe(0, 0, 1), 1 := Sqe(1, 0, 1)];
    var states, states' := [JobState([0], 0, 1), JobState([0], 0, 1)], [JobState([7], 0, 1), JobState([0], 0, 1)];
    assert CompletionOk(jobs, all, states, cqes[0], states');
    assert KernelStep(jobs, all, states, cqes, states');
    assert forall i :: 0 <= i < |states| ==> i < |jobs| && states[i] == JobState(Zeros(jobs[i].len), 0, jobs[i].len);
    assert (set q | 0 <= q < |cqes| :: cqes[q].job) == {0} by {
      assert cqes[0].job == 0;
    }
  }

  lemma FirstLands(jobs: seq<ReadJob>, cqes: seq<Cqe>, flying: map<nat, Sqe>, p: Progress)
    requires jobs == [ReadJob([7], 1), ReadJob([8], 1)] && cqes == [Cqe(0, 1)] && flying == map[1 := Sqe(1, 0, 1)]
    requires p == Progress([JobState([7], 0, 1), JobState([0], 0, 1)], 2, 2, 0)
    ensures Inv(jobs, p, {}, {0, 1}) && AllLanded(jobs, p.states, cqes, 0) && Current(flying, p.states)
    ensures Split(flying.Keys, cqes, 0, [], {0, 1}) && FirstFinishes(p.states, cqes)
  {
    hide Landed, Active, Counts, StatesOk, Split, Current, Request;
    OneByteLanded();
    TwoInFlight(p);
    TwoStates(jobs, p.states);
    OneProcessed(cqes, flying);
    OneCurrent(flying, p.states);
  }

  lemma OneByteLanded()
    ensures Landed(ReadJob([7], 1), JobState([7], 0, 1), 1)
    ensures Active(ReadJob([7], 1), JobState([7], 0, 1)) && Active(ReadJob([8], 1), JobState([0], 0, 1))
  {
  }

  lemma OneCurrent(flying: map<nat, Sqe>, states: seq<JobState>)
    requires flying == map[1 := Sqe(1, 0, 1)] && |states| == 2 && states[1].filled == 0 && states[1].len == 1
    ensures Current(flying, states)
  {
    assert flying[1] == Request(states[1], 1);
  }

  lemma TwoInFlight(p: Progress)
    requires p.next == 2 && p.inflight == 2 && p.done == 0
    ensures Counts(p, 2, {}, {0, 1})
  {
    BelowFacts(2);
    assert {} + {0, 1} == Below(2);
  }

  lemma TwoStates(jobs: seq<ReadJob>, states: seq<JobState>)
    requires |jobs| == |states| == 2 && Active(jobs[0], states[0]) && Active(jobs[1], states[1])
    ensures StatesOk(jobs, states, 2, {0, 1})
  {
  }

  lemma OneProcessed(cqes: seq<Cqe>, flying: map<nat, Sqe>)
    requires cqes == [Cqe(0, 1)] && flying.Keys == {1}
    ensures Split(flying.Keys, cqes, 0, [], {0, 1})
  {
    assert JobsOf(cqes, 0) == {0} by {
      assert cqes[0].job == 0;
    }
    assert Elems([]) == {};
  }

  lemma WorkBound(jobs: seq<ReadJob>, p: Progress, fin: set<nat>, wait: set<nat>)
    requires Inv(jobs, p, fin, wait)
    ensures Work(p) >= 0
  {
    Counting(jobs, p, fin, wait);
  }

  lemma Wrapped(emitted: seq<(nat, seq<Byte>)>, before: seq<(nat, seq<Byte>)>, jobs: seq<ReadJob>, fin: set<nat>)
    requires Emitted(emitted, before, jobs, fin)
    ensures |before| <= |emitted| && multiset(emitted[|before|..]) == multiset(Results(jobs, fin))
  {
  }

  /** What a batch has emitted, even if it stopped early, is part of what it owes. */
  lemma EmittedOwed(emitted: seq<(nat, seq<Byte>)>, jobs: seq<ReadJob>, fin: set<nat>)
    requires Emitted(emitted, [], jobs, fin)
    ensures multiset(emitted) <= multiset(Whole(jobs))
  {
    hide Expected;
    AllResults(jobs);
    BelowFacts(|jobs|);
    assert emitted[0..] == emitted;
    assert Results(jobs, fin) <= Results(jobs, Below(|jobs|));
  }
}
