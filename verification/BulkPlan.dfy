/** What the bulk reader has to do for one window of files, and what the result means:
    the jobs that resolve, the extent tasks, and the bytes of each file. */
module BulkPlan {
  import opened Bytes
  import opened Items
  import DosTime

  datatype Extent = Extent(logicalAddr: nat, physBlock: nat, length: nat)

  datatype Inode = Inode(symlink: bool, compressed: bool, size: nat, privateId: nat, modifyTime: int)

  /** The volume's metadata: the true answers to path, inode and extent lookups, and what the
      per-file reader returns for symlinks and compressed files. A missing key is a failed lookup. */
  datatype Volume = Volume(
    blockSize: nat,
    oids: map<seq<Byte>, nat>,
    inodes: map<nat, Inode>,
    extents: map<nat, seq<Extent>>,
    pointReads: map<nat, seq<Byte>>)

  /** A file of the window whose path and inode resolved. */
  datatype Resolved = Resolved(index: nat, item: WorkItem, oid: nat, inode: Inode)

  /** Read `length` bytes at `diskOffset` into slot `slotIdx` at `fileOffset`. */
  datatype Task = Task(diskOffset: nat, length: nat, slotIdx: nat, fileOffset: nat)

  // ---------------------------------------------------------------- jobs

  function Resolve(vol: Volume, job: Job): Option<Resolved>
  {
    if job.item.path in vol.oids && vol.oids[job.item.path] in vol.inodes then
      var oid := vol.oids[job.item.path];
      Some(Resolved(job.index, job.item, oid, vol.inodes[oid]))
    else None
  }

  /** Jobs that do not resolve are dropped. */
  function ResolveAll(vol: Volume, window: seq<Job>): seq<Resolved>
  {
    if window == [] then []
    else ResolveAll(vol, window[..|window| - 1]) +
         match Resolve(vol, window[|window| - 1])
         case Some(r) => [r]
         case None => []
  }

  predicate PointRead(vol: Volume, r: Resolved)
  {
    r.inode.symlink || r.inode.compressed || (r.inode.size > 0 && r.inode.privateId !in vol.extents)
  }

  /** The item with its real time, and its real size unless it is a symlink or compressed. */
  function Stamped(r: Resolved): WorkItem
  {
    var (date, time) := DosTime.UnixToDos(DosTime.TruncDiv(r.inode.modifyTime, 1_000_000_000));
    var item := r.item.(date := date, time := time);
    if r.inode.symlink || r.inode.compressed then item else item.(size := r.inode.size)
  }

  /** A job is kept if its path and then its inode are known, with both looked up, and it comes
      after the jobs before it. */
  lemma ResolveNext(vol: Volume, window: seq<Job>, job: Job)
    ensures ResolveAll(vol, []) == []
    ensures ResolveAll(vol, window + [job]) ==
            if job.item.path !in vol.oids || vol.oids[job.item.path] !in vol.inodes then ResolveAll(vol, window)
            else ResolveAll(vol, window)
                 + [Resolved(job.index, job.item, vol.oids[job.item.path], vol.inodes[vol.oids[job.item.path]])]
  {
    assert (window + [job])[..|window|] == window;
    assert ResolveAll(vol, window) + [] == ResolveAll(vol, window);
  }

  /** The stamp decodes to the inode's time, which counts nanoseconds, cut to a whole and even
      second, exactly for the times from 1980 through 2107. The inode's size replaces the walk's
      zero only for files that are neither symlinks nor compressed. */
  lemma StampDecodes(r: Resolved, secs: int)
    requires if r.inode.modifyTime >= 0 then secs * 1_000_000_000 <= r.inode.modifyTime < (secs + 1) * 1_000_000_000
             else (secs - 1) * 1_000_000_000 < r.inode.modifyTime <= secs * 1_000_000_000
    ensures DosTime.DecodeDos(Stamped(r).date, Stamped(r).time)
            == (DosTime.CivilFromDays(secs / 86_400), secs % 86_400 - secs % 2)
            <==> 315_532_800 <= secs < 4_354_819_200
    ensures Stamped(r).path == r.item.path && Stamped(r).name == r.item.name
    ensures Stamped(r).size == if r.inode.symlink || r.inode.compressed then r.item.size else r.inode.size
  {
    hide DosTime.UnixToDos, DosTime.CivilFromDays, DosTime.DecodeDos;
    DosTime.UnixToDosCorrect(secs);
    DosTime.EvenSecond(secs);
    assert DosTime.TruncDiv(r.inode.modifyTime, 1_000_000_000) == secs;
  }

  // ---------------------------------------------------------------- tasks

  /** Where the extent starts on disk. */
  function Phys(e: Extent, blockSize: nat): nat { e.physBlock * blockSize }

  /** Bytes of the extent that lie inside the file. */
  function Usable(e: Extent, size: nat): nat
  {
    if e.logicalAddr >= size then 0 else Min(e.length, size - e.logicalAddr)
  }

  function ExtentTasks(es: seq<Extent>, size: nat, blockSize: nat, slot: nat): seq<Task>
  {
    if es == [] then []
    else
      var e := es[|es| - 1];
      ExtentTasks(es[..|es| - 1], size, blockSize, slot) +
      if Usable(e, size) == 0 then [] else [Task(Phys(e, blockSize), Usable(e, size), slot, e.logicalAddr)]
  }

  function SlotTasks(vol: Volume, r: Resolved, slot: nat): seq<Task>
  {
    if PointRead(vol, r) || r.inode.size == 0 then []
    else ExtentTasks(vol.extents[r.inode.privateId], r.inode.size, vol.blockSize, slot)
  }

  function AllTasks(vol: Volume, rs: seq<Resolved>): seq<Task>
  {
    if rs == [] then []
    else AllTasks(vol, rs[..|rs| - 1]) + SlotTasks(vol, rs[|rs| - 1], |rs| - 1)
  }

  /** The tasks of slot `i`, in order. */
  function Mine(ts: seq<Task>, i: nat): seq<Task>
  {
    if ts == [] then []
    else Mine(ts[..|ts| - 1], i) + if ts[|ts| - 1].slotIdx == i then [ts[|ts| - 1]] else []
  }

  /** Bytes that the tasks still owe slot `i`. */
  function Owed(ts: seq<Task>, i: nat): nat
  {
    if ts == [] then 0 else (if ts[0].slotIdx == i then ts[0].length else 0) + Owed(ts[1..], i)
  }

  // ---------------------------------------------------------------- contents

  predicate TaskFits(t: Task, size: nat)
  {
    t.length > 0 && t.fileOffset + t.length <= size
  }

  predicate AllFit(ts: seq<Task>, size: nat)
  {
    forall t :: t in ts ==> TaskFits(t, size)
  }

  /** The device's byte at an address; addresses past its end are never served. */
  function DiskByte(disk: seq<Byte>, at: nat): Byte { if at < |disk| then disk[at] else 0 }

  function Stored(disk: seq<Byte>, at: nat, n: nat): (b: seq<Byte>)
    ensures |b| == n
    ensures at + n <= |disk| ==> b == disk[at..at + n]
  {
    var b := seq<Byte>(n, q requires 0 <= q < n => DiskByte(disk, at + q));
    assert forall q :: 0 <= q < n ==> b[q] == DiskByte(disk, at + q);
    assert at + n <= |disk| ==> forall q :: 0 <= q < n ==> b[q] == disk[at..at + n][q];
    b
  }

  function Overlay(data: seq<Byte>, at: nat, bytes: seq<Byte>): (r: seq<Byte>)
    requires at + |bytes| <= |data|
    ensures |r| == |data|
  {
    data[..at] + bytes + data[at + |bytes|..]
  }

  /** Zeros, overlaid by the tasks' disk bytes in order. */
  function Image(size: nat, ts: seq<Task>, disk: seq<Byte>): (data: seq<Byte>)
    requires AllFit(ts, size)
    ensures |data| == size
  {
    if ts == [] then Zeros(size)
    else
      var t := ts[|ts| - 1];
      assert TaskFits(t, size);
      Overlay(Image(size, ts[..|ts| - 1], disk), t.fileOffset, Stored(disk, t.diskOffset, t.length))
  }

  predicate Covers(e: Extent, p: nat) { e.logicalAddr <= p < e.logicalAddr + e.length }

  function Address(e: Extent, blockSize: nat, p: nat): nat
    requires Covers(e, p)
  {
    Phys(e, blockSize) + (p - e.logicalAddr)
  }

  /** Reference meaning of a file: byte `p` comes from the last extent that covers it, and a
      byte that no extent covers is zero. */
  function FileByte(es: seq<Extent>, blockSize: nat, disk: seq<Byte>, p: nat): Byte
  {
    if es == [] then 0
    else
      var e := es[|es| - 1];
      if Covers(e, p) then DiskByte(disk, Address(e, blockSize, p))
      else FileByte(es[..|es| - 1], blockSize, disk, p)
  }

  function FileContent(es: seq<Extent>, size: nat, blockSize: nat, disk: seq<Byte>): (data: seq<Byte>)
  {
    seq(size, p requires 0 <= p < size => FileByte(es, blockSize, disk, p))
  }

  /** Extents never map the same byte of the file to two places. */
  predicate NoConflict(es: seq<Extent>, size: nat, blockSize: nat)
  {
    forall e, f, p: nat :: e in es && f in es && p < size && Covers(e, p) && Covers(f, p)
      ==> Address(e, blockSize, p) == Address(f, blockSize, p)
  }

  lemma DisjointNoConflict(es: seq<Extent>, size: nat, blockSize: nat)
    requires forall i, j :: 0 <= i < j < |es| ==>
               es[i].logicalAddr + es[i].length <= es[j].logicalAddr
                   || es[j].logicalAddr + es[j].length <= es[i].logicalAddr
    ensures NoConflict(es, size, blockSize)
  {
    forall e, f, p: nat | e in es && f in es && p < size && Covers(e, p) && Covers(f, p)
      ensures Address(e, blockSize, p) == Address(f, blockSize, p)
    {
      var i :| 0 <= i < |es| && es[i] == e;
      var j :| 0 <= j < |es| && es[j] == f;
      assert i == j;
    }
  }

  // ---------------------------------------------------------------- order does not matter

  predicate Hits(t: Task, p: nat) { t.fileOffset <= p < t.fileOffset + t.length }

  lemma ImageSnoc(size: nat, ts: seq<Task>, t: Task, disk: seq<Byte>, p: nat)
    requires AllFit(ts, size) && TaskFits(t, size) && p < size
    ensures AllFit(ts + [t], size)
    ensures Image(size, ts + [t], disk)[p] ==
            if Hits(t, p) then DiskByte(disk, t.diskOffset + (p - t.fileOffset)) else Image(size, ts, disk)[p]
  {
    assert (ts + [t])[..|ts|] == ts;
  }

  /** Byte `p` of the image comes from a task that covers it, or is zero when none does. */
  lemma {:induction false} ImageByte(size: nat, ts: seq<Task>, disk: seq<Byte>, p: nat)
    requires AllFit(ts, size) && p < size
    ensures (forall t :: t in ts ==> !Hits(t, p)) ==> Image(size, ts, disk)[p] == 0
    ensures (exists t :: t in ts && Hits(t, p)) ==>
              exists t :: t in ts && Hits(t, p)
                  && Image(size, ts, disk)[p] == DiskByte(disk, t.diskOffset + (p - t.fileOffset))
    decreases |ts|
  {
    if ts != [] {
      var t, init := ts[|ts| - 1], ts[..|ts| - 1];
      assert ts == init + [t];
      assert TaskFits(t, size);
      ImageByte(size, init, disk, p);
      ImageSnoc(size, init, t, disk, p);
    }
  }

  predicate SameTarget(t: Task, u: Task, p: nat)
  {
    Hits(t, p) && Hits(u, p) ==> t.diskOffset - t.fileOffset == u.diskOffset - u.fileOffset
  }

  /** Tasks that never disagree give the same image in any order. */
  lemma ImageOrder(size: nat, ts: seq<Task>, us: seq<Task>, disk: seq<Byte>)
    requires multiset(ts) == multiset(us) && AllFit(ts, size)
    requires forall t, u, p: nat :: t in ts && u in ts && p < size ==> SameTarget(t, u, p)
    ensures AllFit(us, size) && Image(size, ts, disk) == Image(size, us, disk)
  {
    assert forall t :: t in us <==> t in multiset(us);
    assert forall t :: t in ts <==> t in multiset(ts);
    assert AllFit(us, size);
    hide AllFit, Image, SameTarget;
    forall p: nat | p < size
      ensures Image(size, ts, disk)[p] == Image(size, us, disk)[p]
    {
      SameImageByte(size, ts, us, disk, p);
    }
  }

  lemma SameImageByte(size: nat, ts: seq<Task>, us: seq<Task>, disk: seq<Byte>, p: nat)
    requires AllFit(ts, size) && AllFit(us, size) && p < size && forall t :: t in ts <==> t in us
    requires forall t, u :: t in ts && u in ts ==> SameTarget(t, u, p)
    ensures Image(size, ts, disk)[p] == Image(size, us, disk)[p]
  {
    hide AllFit, Image, DiskByte;
    ImageByte(size, ts, disk, p);
    ImageByte(size, us, disk, p);
    if t :| t in ts && Hits(t, p) {
      var a :| a in ts && Hits(a, p) && Image(size, ts, disk)[p] == DiskByte(disk, a.diskOffset + (p - a.fileOffset));
      var b :| b in us && Hits(b, p) && Image(size, us, disk)[p] == DiskByte(disk, b.diskOffset + (p - b.fileOffset));
      assert SameTarget(a, b, p);
    }
  }

  // ---------------------------------------------------------------- tasks mean the file

  lemma {:induction false} ExtentTasksFit(es: seq<Extent>, size: nat, blockSize: nat, slot: nat)
    ensures AllFit(ExtentTasks(es, size, blockSize, slot), size)
    ensures forall t :: t in ExtentTasks(es, size, blockSize, slot) ==> t.slotIdx == slot
    ensures ExtentTasks(es, size, blockSize, slot) == [] <==> forall e :: e in es ==> Usable(e, size) == 0
    ensures forall t :: t in ExtentTasks(es, size, blockSize, slot) ==>
              exists e :: e in es && t == Task(Phys(e, blockSize), Usable(e, size), slot, e.logicalAddr)
    decreases |es|
  {
    hide Phys;
    if es != [] {
      var e, init := es[|es| - 1], es[..|es| - 1];
      assert es == init + [e];
      ExtentTasksFit(init, size, blockSize, slot);
    }
  }

  lemma {:induction false} TasksAreFile(es: seq<Extent>, size: nat, blockSize: nat, slot: nat, disk: seq<Byte>, p: nat)
    requires p < size
    requires AllFit(ExtentTasks(es, size, blockSize, slot), size)
    ensures Image(size, ExtentTasks(es, size, blockSize, slot), disk)[p] == FileByte(es, blockSize, disk, p)
    decreases |es|
  {
    hide Phys, Image;
    if es == [] {
      ImageEmpty(size, disk);
    } else {
      var e, init := es[|es| - 1], es[..|es| - 1];
      assert es == init + [e];
      var ts, us := ExtentTasks(es, size, blockSize, slot), ExtentTasks(init, size, blockSize, slot);
      assert forall t :: t in us ==> t in ts;
      TasksAreFile(init, size, blockSize, slot, disk, p);
      if Usable(e, size) > 0 {
        var t := Task(Phys(e, blockSize), Usable(e, size), slot, e.logicalAddr);
        assert ts == us + [t];
        assert TaskFits(t, size);
        ImageSnoc(size, us, t, disk, p);
      } else {
        assert ts == us;
      }
    }
  }

  lemma ImageEmpty(size: nat, disk: seq<Byte>)
    ensures Image(size, [], disk) == Zeros(size)
  {
  }

  lemma TasksAgree(es: seq<Extent>, size: nat, blockSize: nat, slot: nat)
    requires NoConflict(es, size, blockSize)
    ensures var ts := ExtentTasks(es, size, blockSize, slot);
            forall t, u, p: nat :: t in ts && u in ts && p < size ==> SameTarget(t, u, p)
  {
    hide Phys, ExtentTasks;
    var ts := ExtentTasks(es, size, blockSize, slot);
    ExtentTasksFit(es, size, blockSize, slot);
    forall t, u, p: nat | t in ts && u in ts && p < size
      ensures SameTarget(t, u, p)
    {
      var e :| e in es && t == Task(Phys(e, blockSize), Usable(e, size), slot, e.logicalAddr);
      var f :| f in es && u == Task(Phys(f, blockSize), Usable(f, size), slot, f.logicalAddr);
      if Hits(t, p) && Hits(u, p) {
        assert Address(e, blockSize, p) == Address(f, blockSize, p);
      }
    }
  }

  /** Whatever order the tasks of a file are served in, the buffer ends up as the file. */
  lemma AnyOrderIsFile(es: seq<Extent>, size: nat, blockSize: nat, slot: nat, us: seq<Task>, disk: seq<Byte>)
    requires NoConflict(es, size, blockSize)
    requires multiset(us) == multiset(ExtentTasks(es, size, blockSize, slot))
    ensures AllFit(us, size) && Image(size, us, disk) == FileContent(es, size, blockSize, disk)
  {
    hide Image, ExtentTasks, NoConflict, FileByte;
    var ts := ExtentTasks(es, size, blockSize, slot);
    ExtentTasksFit(es, size, blockSize, slot);
    TasksAgree(es, size, blockSize, slot);
    ImageOrder(size, ts, us, disk);
    forall p: nat | p < size
      ensures Image(size, ts, disk)[p] == FileContent(es, size, blockSize, disk)[p]
    {
      TasksAreFile(es, size, blockSize, slot, disk, p);
    }
  }

  // ---------------------------------------------------------------- bookkeeping of tasks

  lemma {:induction false} MineTasks(vol: Volume, rs: seq<Resolved>, i: nat)
    ensures Mine(AllTasks(vol, rs), i) == if i < |rs| then SlotTasks(vol, rs[i], i) else []
    decreases |rs|
  {
    if rs != [] {
      var init := rs[..|rs| - 1];
      MineTasks(vol, init, i);
      MineOwn(vol, rs[|rs| - 1], |rs| - 1, i);
      MineConcat(AllTasks(vol, init), SlotTasks(vol, rs[|rs| - 1], |rs| - 1), i);
    }
  }

  lemma {:induction false} MineConcat(ts: seq<Task>, us: seq<Task>, i: nat)
    ensures Mine(ts + us, i) == Mine(ts, i) + Mine(us, i)
    decreases |us|
  {
    if us == [] {
      assert ts + us == ts;
    } else {
      MineConcat(ts, us[..|us| - 1], i);
      assert (ts + us)[..|ts + us| - 1] == ts + us[..|us| - 1];
    }
  }

  lemma MineOwn(vol: Volume, r: Resolved, slot: nat, i: nat)
    ensures Mine(SlotTasks(vol, r, slot), i) == if i == slot then SlotTasks(vol, r, slot) else []
  {
    if !PointRead(vol, r) && r.inode.size > 0 {
      ExtentTasksFit(vol.extents[r.inode.privateId], r.inode.size, vol.blockSize, slot);
    }
    MineAll(SlotTasks(vol, r, slot), slot, i);
  }

  lemma {:induction false} MineAll(ts: seq<Task>, slot: nat, i: nat)
    requires forall t :: t in ts ==> t.slotIdx == slot
    ensures Mine(ts, i) == if i == slot then ts else []
    decreases |ts|
  {
    if ts != [] {
      assert ts == ts[..|ts| - 1] + [ts[|ts| - 1]];
      MineAll(ts[..|ts| - 1], slot, i);
    }
  }

  lemma {:induction false} MineCount(ts: seq<Task>, i: nat, t: Task)
    ensures multiset(Mine(ts, i))[t] == if t.slotIdx == i then multiset(ts)[t] else 0
    decreases |ts|
  {
    if ts != [] {
      assert ts == ts[..|ts| - 1] + [ts[|ts| - 1]];
      MineCount(ts[..|ts| - 1], i, t);
    }
  }

  lemma MinePermutes(ts: seq<Task>, us: seq<Task>, i: nat)
    requires multiset(ts) == multiset(us)
    ensures multiset(Mine(ts, i)) == multiset(Mine(us, i))
  {
    forall t: Task
      ensures multiset(Mine(ts, i))[t] == multiset(Mine(us, i))[t]
    {
      MineCount(ts, i, t);
      MineCount(us, i, t);
    }
  }

  lemma OwedStep(ts: seq<Task>, k: nat, i: nat)
    requires k < |ts|
    ensures Owed(ts[k..], i) == (if ts[k].slotIdx == i then ts[k].length else 0) + Owed(ts[k + 1..], i)
  {
    assert ts[k..][1..] == ts[k + 1..];
  }

  lemma {:induction false} OwedConcat(ts: seq<Task>, us: seq<Task>, i: nat)
    ensures Owed(ts + us, i) == Owed(ts, i) + Owed(us, i)
    decreases |ts|
  {
    if ts == [] {
      assert ts + us == us;
    } else {
      OwedConcat(ts[1..], us, i);
      assert (ts + us)[1..] == ts[1..] + us;
    }
  }

  predicate Positive(ts: seq<Task>) { forall t :: t in ts ==> t.length > 0 }

  /** A slot is owed nothing exactly when it has no task left. */
  lemma {:induction false} OwedNothing(ts: seq<Task>, i: nat)
    requires Positive(ts)
    ensures Owed(ts, i) == 0 <==> Mine(ts, i) == []
    decreases |ts|
  {
    if ts != [] {
      OwedNothing(ts[1..], i);
      assert ts == [ts[0]] + ts[1..];
      MineConcat([ts[0]], ts[1..], i);
    }
  }

  /** Once a slot is owed nothing, the tasks seen so far are all of its tasks. */
  lemma MineComplete(ts: seq<Task>, k: nat, i: nat)
    requires Positive(ts) && k <= |ts| && Owed(ts[k..], i) == 0
    ensures Mine(ts[..k], i) == Mine(ts, i)
  {
    OwedNothing(ts[k..], i);
    assert ts == ts[..k] + ts[k..];
    MineConcat(ts[..k], ts[k..], i);
  }

  // ---------------------------------------------------------------- the order of shipping

  /** Slots completed by the first `k` tasks, in the order of their last task. */
  function Completed(ts: seq<Task>, k: nat): seq<nat>
    requires k <= |ts|
  {
    if k == 0 then []
    else Completed(ts, k - 1) + if Owed(ts[k..], ts[k - 1].slotIdx) == 0 then [ts[k - 1].slotIdx] else []
  }

  /** The slots among the first `n` that have no task at all. */
  function Taskless(ts: seq<Task>, n: nat): seq<nat>
  {
    if n == 0 then [] else Taskless(ts, n - 1) + if Owed(ts, n - 1) == 0 then [n - 1] else []
  }

  /** Slots in the order their files are shipped. */
  function ShipOrder(ts: seq<Task>, n: nat): seq<nat>
  {
    Completed(ts, |ts|) + Taskless(ts, n)
  }

  lemma {:induction false} CompletedCount(ts: seq<Task>, k: nat, i: nat)
    requires Positive(ts) && k <= |ts|
    ensures multiset(Completed(ts, k))[i] == if Owed(ts, i) > 0 && Owed(ts[k..], i) == 0 then 1 else 0
  {
    if k == 0 {
      assert ts[0..] == ts;
    } else {
      CompletedCount(ts, k - 1, i);
      OwedStep(ts, k - 1, i);
      assert ts == ts[..k - 1] + ts[k - 1..];
      OwedConcat(ts[..k - 1], ts[k - 1..], i);
      assert ts[k - 1] in ts;
    }
  }

  lemma CountAppend(s: seq<nat>, x: nat, i: nat)
    ensures multiset(s + [x])[i] == multiset(s)[i] + if x == i then 1 else 0
  {
  }

  lemma TasklessNext(ts: seq<Task>, n: nat)
    requires n > 0
    ensures Taskless(ts, n) == if Owed(ts, n - 1) == 0 then Taskless(ts, n - 1) + [n - 1] else Taskless(ts, n - 1)
  {
    hide Owed;
    assert Taskless(ts, n - 1) + [] == Taskless(ts, n - 1);
  }

  lemma {:induction false} TasklessCount(ts: seq<Task>, n: nat, i: nat)
    ensures multiset(Taskless(ts, n))[i] == if i < n && Owed(ts, i) == 0 then 1 else 0
  {
    if n > 0 {
      hide Owed, Taskless;
      TasklessCount(ts, n - 1, i);
      TasklessNext(ts, n);
      CountAppend(Taskless(ts, n - 1), n - 1, i);
    }
  }

  /** Every slot is shipped exactly once, and nothing else is. */
  lemma ShippedOnce(ts: seq<Task>, n: nat, i: nat)
    requires Positive(ts) && forall t :: t in ts ==> t.slotIdx < n
    ensures multiset(ShipOrder(ts, n))[i] == if i < n then 1 else 0
  {
    CompletedCount(ts, |ts|, i);
    TasklessCount(ts, n, i);
    assert ts[|ts|..] == [];
    if i >= n {
      MineOutside(ts, n, i);
      OwedNothing(ts, i);
    }
  }

  lemma {:induction false} MineOutside(ts: seq<Task>, n: nat, i: nat)
    requires (forall t :: t in ts ==> t.slotIdx < n) && i >= n
    ensures Mine(ts, i) == []
    decreases |ts|
  {
    if ts != [] {
      assert ts[|ts| - 1] in ts;
      MineOutside(ts[..|ts| - 1], n, i);
    }
  }
}
