/** Disk-order bulk reading refines the reference meaning of files: whatever the extents' layout, every
    resolved file is shipped exactly once, under its own index, with its own content. */
module BulkMeaning {
  import opened Bytes
  import opened Items
  import opened Sequences
  import opened BulkPlan
  import opened BulkReader
  import opened AlignedReader

  // ---------------------------------------------------------------- one file

  /** Some extent holds bytes and starts inside the file. */
  predicate HasData(es: seq<Extent>, size: nat) { exists e :: e in es && e.length > 0 && e.logicalAddr < size }

  /** The file as it is meant: its point-read bytes, or zeros of its size overlaid by its extents. */
  function Reference(vol: Volume, r: Resolved, disk: seq<Byte>): RawItem
  {
    var whole := if r.oid in vol.pointReads then vol.pointReads[r.oid] else [];
    RawItem(r.index, Stamped(r),
            if r.inode.symlink || r.inode.compressed then whole
            else if r.inode.size == 0 then []
            else if r.inode.privateId !in vol.extents then whole
            else FileContent(vol.extents[r.inode.privateId], r.inode.size, vol.blockSize, disk))
  }

  /** What the bulk reader needs of a file: consistent extents, at least one of which starts
      inside the file unless the file is empty. */
  predicate Regular(vol: Volume, r: Resolved)
  {
    r.inode.symlink || r.inode.compressed || r.inode.size == 0 || r.inode.privateId !in vol.extents ||
    (NoConflict(vol.extents[r.inode.privateId], r.inode.size, vol.blockSize) &&
     HasData(vol.extents[r.inode.privateId], r.inode.size))
  }

  lemma TasksOfFile(vol: Volume, window: seq<Job>, i: nat)
    requires i < |ResolveAll(vol, window)|
    ensures var rs, ts := ResolveAll(vol, window), WindowTasks(vol, window);
            && WellFormed(vol, rs, ts)
            && multiset(Mine(ts, i)) == multiset(SlotTasks(vol, rs[i], i))
            && (Owed(ts, i) == 0 <==> SlotTasks(vol, rs[i], i) == [])
  {
    hide WellFormed, InDiskOrder, SlotTasks, Positive;
    var rs, ts := ResolveAll(vol, window), WindowTasks(vol, window);
    SortedTasks(vol, rs);
    MinePermutes(ts, AllTasks(vol, rs), i);
    MineTasks(vol, rs, i);
    OwedNothing(ts, i);
    var mine, own := Mine(ts, i), SlotTasks(vol, rs[i], i);
    assert multiset(mine) == multiset(own) ==> |mine| == |own| by {
      assert |multiset(mine)| == |mine| && |multiset(own)| == |own|;
    }
  }

  /** A file read by extents is shipped with its content, if and only if it is empty or one of
      its extents starts inside it. Otherwise an empty buffer goes out in place of its zeros. */
  lemma ShipsContent(vol: Volume, window: seq<Job>, i: nat, disk: seq<Byte>)
    requires i < |ResolveAll(vol, window)| && !PointRead(vol, ResolveAll(vol, window)[i])
    requires var r := ResolveAll(vol, window)[i];
             r.inode.size > 0 ==> NoConflict(vol.extents[r.inode.privateId], r.inode.size, vol.blockSize)
    ensures WellFormed(vol, ResolveAll(vol, window), WindowTasks(vol, window))
    ensures var r := ResolveAll(vol, window)[i];
            Shipment(vol, ResolveAll(vol, window), WindowTasks(vol, window), i, disk) == Reference(vol, r, disk)
            <==> r.inode.size == 0 || HasData(vol.extents[r.inode.privateId], r.inode.size)
  {
    hide WindowTasks, WellFormed, NoConflict, Stamped;
    var rs, ts := ResolveAll(vol, window), WindowTasks(vol, window);
    var r := rs[i];
    TasksOfFile(vol, window, i);
    if r.inode.size > 0 {
      var es := vol.extents[r.inode.privateId];
      ExtentTasksFit(es, r.inode.size, vol.blockSize, i);
      assert SlotTasks(vol, r, i) == [] <==> !HasData(es, r.inode.size);
      AnyOrderIsFile(es, r.inode.size, vol.blockSize, i, Mine(ts, i), disk);
      assert |FileContent(es, r.inode.size, vol.blockSize, disk)| == r.inode.size;
    }
  }

  /** A four-byte file without extents: its content is four zeros, but nothing is shipped. */
  lemma SparseFileShipsNothing(vol: Volume, job: Job, r: Resolved)
    requires job == Job(0, WorkItem([0x2F, 0x66], [], 0, 0, 0))
    requires r == Resolved(0, job.item, 7, Inode(false, false, 4, 9, 0))
    requires vol == Volume(4096, map[[0x2F, 0x66] := 7], map[7 := r.inode], map[9 := []], map[])
    ensures ResolveAll(vol, [job]) == [r] && WellFormed(vol, [r], WindowTasks(vol, [job]))
    ensures Reference(vol, r, []).bytes == [0, 0, 0, 0]
    ensures Shipment(vol, [r], WindowTasks(vol, [job]), 0, []).bytes == []
  {
    hide Stamped, WindowTasks, WellFormed;
    assert [job][..0] == [];
    assert ResolveAll(vol, [job]) == ResolveAll(vol, []) + [r];
    TasksOfFile(vol, [job], 0);
    assert FileContent([], 4, 4096, []) == [0, 0, 0, 0];
  }

  /** What goes out for a file, by its inode: a symlink, a compressed file, and a file whose extents
      cannot be looked up go out as the volume library reads them, and an empty file empty. */
  lemma ShipsByKind(vol: Volume, window: seq<Job>, i: nat, disk: seq<Byte>)
    requires i < |ResolveAll(vol, window)|
    ensures WellFormed(vol, ResolveAll(vol, window), WindowTasks(vol, window))
    ensures var r := ResolveAll(vol, window)[i];
            var out := Shipment(vol, ResolveAll(vol, window), WindowTasks(vol, window), i, disk);
            var plain := !r.inode.symlink && !r.inode.compressed;
            && out.index == r.index && out.item.path == r.item.path && out.item.name == r.item.name
            && out.item.size == (if plain then r.inode.size else r.item.size)
            && (!plain || (r.inode.size > 0 && r.inode.privateId !in vol.extents) ==>
                  out.bytes == if r.oid in vol.pointReads then vol.pointReads[r.oid] else [])
            && (plain && r.inode.size == 0 ==> out.bytes == [])
  {
    hide WindowTasks, WellFormed;
    TasksOfFile(vol, window, i);
  }

  /** A byte that extents map, even to different places, is the device's byte at one of those
      places; every other byte is zero. */
  ghost predicate AsMapped(es: seq<Extent>, blockSize: nat, disk: seq<Byte>, p: nat, byte: Byte)
  {
    if exists e :: e in es && e.logicalAddr <= p < e.logicalAddr + e.length then
      exists e :: e in es && e.logicalAddr <= p < e.logicalAddr + e.length
        && var at := e.physBlock * blockSize + (p - e.logicalAddr);
           byte == if at < |disk| then disk[at] else 0
    else byte == 0
  }

  /** What goes out for any other file: nothing when no extent with bytes starts inside it, and
      otherwise as many bytes as the file has, each as the extents map it. */
  lemma ShipsMapped(vol: Volume, window: seq<Job>, i: nat, disk: seq<Byte>)
    requires i < |ResolveAll(vol, window)|
    requires var n := ResolveAll(vol, window)[i].inode;
             !n.symlink && !n.compressed && n.size > 0 && n.privateId in vol.extents
    ensures WellFormed(vol, ResolveAll(vol, window), WindowTasks(vol, window))
    ensures var n := ResolveAll(vol, window)[i].inode;
            var es := vol.extents[n.privateId];
            var out := Shipment(vol, ResolveAll(vol, window), WindowTasks(vol, window), i, disk).bytes;
            && |out| == (if exists e :: e in es && e.length > 0 && e.logicalAddr < n.size then n.size else 0)
            && forall p :: 0 <= p < |out| ==> AsMapped(es, vol.blockSize, disk, p, out[p])
  {
    hide ResolveAll, WindowTasks, WellFormed, Stamped, Shipment, Image;
    var n := ResolveAll(vol, window)[i].inode;
    var us := ShippedImage(vol, window, i, disk);
    forall p | 0 <= p < n.size && us != []
      ensures AsMapped(vol.extents[n.privateId], vol.blockSize, disk, p, Image(n.size, us, disk)[p])
    {
      MappedByte(vol.extents[n.privateId], n.size, vol.blockSize, i, us, disk, p);
    }
  }

  lemma ShippedImage(vol: Volume, window: seq<Job>, i: nat, disk: seq<Byte>) returns (us: seq<Task>)
    requires i < |ResolveAll(vol, window)|
    requires var n := ResolveAll(vol, window)[i].inode;
             !n.symlink && !n.compressed && n.size > 0 && n.privateId in vol.extents
    ensures WellFormed(vol, ResolveAll(vol, window), WindowTasks(vol, window))
    ensures var n := ResolveAll(vol, window)[i].inode;
            && AllFit(us, n.size)
            && (us == [] <==> !HasData(vol.extents[n.privateId], n.size))
            && multiset(us) == multiset(ExtentTasks(vol.extents[n.privateId], n.size, vol.blockSize, i))
            && Shipment(vol, ResolveAll(vol, window), WindowTasks(vol, window), i, disk).bytes
               == if us == [] then [] else Image(n.size, us, disk)
  {
    hide WindowTasks, Stamped, Image, ExtentTasks, Owed;
    var rs, ts := ResolveAll(vol, window), WindowTasks(vol, window);
    var es, size := vol.extents[rs[i].inode.privateId], rs[i].inode.size;
    TasksOfFile(vol, window, i);
    ExtentTasksFit(es, size, vol.blockSize, i);
    us := Mine(ts, i);
    MineFits(ts, i, size);
    assert |multiset(us)| == |us|;
  }

  lemma {:induction false} TaskOf(es: seq<Extent>, size: nat, blockSize: nat, slot: nat, e: Extent)
    requires e in es && Usable(e, size) > 0
    ensures Task(Phys(e, blockSize), Usable(e, size), slot, e.logicalAddr) in ExtentTasks(es, size, blockSize, slot)
    decreases |es|
  {
    hide Phys, Usable;
    var n := |es| - 1;
    if es[n] != e {
      assert es == es[..n] + [es[n]];
      TaskOf(es[..n], size, blockSize, slot, e);
    }
  }

  /** One byte of the buffer, whatever the order of the file's tasks. */
  lemma MappedByte(es: seq<Extent>, size: nat, blockSize: nat, slot: nat, us: seq<Task>, disk: seq<Byte>, p: nat)
    requires AllFit(us, size) && p < size && multiset(us) == multiset(ExtentTasks(es, size, blockSize, slot))
    ensures AsMapped(es, blockSize, disk, p, Image(size, us, disk)[p])
  {
    hide ExtentTasks, Image, AllFit;
    var ts := ExtentTasks(es, size, blockSize, slot);
    ExtentTasksFit(es, size, blockSize, slot);
    ImageByte(size, us, disk, p);
    assert forall t :: t in us <==> t in multiset(us);
    assert forall t :: t in ts <==> t in multiset(ts);
    if e :| e in es && e.logicalAddr <= p < e.logicalAddr + e.length {
      TaskOf(es, size, blockSize, slot, e);
      assert Hits(Task(Phys(e, blockSize), Usable(e, size), slot, e.logicalAddr), p);
      var t :| t in us && Hits(t, p) && Image(size, us, disk)[p] == DiskByte(disk, t.diskOffset + (p - t.fileOffset));
      var f :| f in es && t == Task(Phys(f, blockSize), Usable(f, size), slot, f.logicalAddr);
      assert f.logicalAddr <= p < f.logicalAddr + f.length;
    } else {
      forall t | t in us
        ensures !Hits(t, p)
      {
        var f :| f in es && t == Task(Phys(f, blockSize), Usable(f, size), slot, f.logicalAddr);
      }
    }
  }

  // ---------------------------------------------------------------- one window

  function Range(n: nat): seq<nat> { if n == 0 then [] else Range(n - 1) + [n - 1] }

  lemma {:induction false} RangeCount(n: nat, i: nat)
    ensures multiset(Range(n))[i] == if i < n then 1 else 0
    ensures Indices(Range(n), n) && |Range(n)| == n
  {
    if n > 0 {
      RangeCount(n - 1, i);
    }
  }

  lemma {:induction false} ShipmentsConcat(vol: Volume, rs: seq<Resolved>, ts: seq<Task>, a: seq<nat>, b: seq<nat>,
                                           disk: seq<Byte>)
    requires WellFormed(vol, rs, ts) && Indices(a, |rs|) && Indices(b, |rs|)
    ensures Indices(a + b, |rs|)
    ensures Shipments(vol, rs, ts, a + b, disk) == Shipments(vol, rs, ts, a, disk) + Shipments(vol, rs, ts, b, disk)
    decreases |b|
  {
    hide WellFormed, Shipment;
    if b == [] {
      assert a + b == a;
    } else {
      ShipmentsConcat(vol, rs, ts, a, b[..|b| - 1], disk);
      assert (a + b)[..|a + b| - 1] == a + b[..|b| - 1];
    }
  }

  /** The order of shipping does not change what is shipped. */
  lemma {:induction false} ShipmentsPermute(vol: Volume, rs: seq<Resolved>, ts: seq<Task>, a: seq<nat>, b: seq<nat>,
                                            disk: seq<Byte>)
    requires WellFormed(vol, rs, ts) && Indices(a, |rs|) && Indices(b, |rs|) && multiset(a) == multiset(b)
    ensures multiset(Shipments(vol, rs, ts, a, disk)) == multiset(Shipments(vol, rs, ts, b, disk))
    decreases |a|
  {
    hide WellFormed, Shipment;
    assert |multiset(a)| == |a| && |multiset(b)| == |b|;
    if a != [] {
      var init, x := a[..|a| - 1], a[|a| - 1];
      var k := RemoveOne(a, b);
      PullOut(vol, rs, ts, b, k, disk);
      ShipmentsPermute(vol, rs, ts, init, Without(b, k), disk);
      assert multiset(Shipments(vol, rs, ts, a, disk)) ==
             multiset(Shipments(vol, rs, ts, init, disk)) + multiset{Shipment(vol, rs, ts, x, disk)};
    }
  }

  lemma PullOut(vol: Volume, rs: seq<Resolved>, ts: seq<Task>, b: seq<nat>, k: nat, disk: seq<Byte>)
    requires WellFormed(vol, rs, ts) && Indices(b, |rs|) && k < |b|
    ensures Indices(Without(b, k), |rs|)
    ensures multiset(Shipments(vol, rs, ts, b, disk)) ==
            multiset(Shipments(vol, rs, ts, Without(b, k), disk)) + multiset{Shipment(vol, rs, ts, b[k], disk)}
  {
    hide WellFormed, Shipment;
    var l, x, r := b[..k], b[k], b[k + 1..];
    assert b == l + ([x] + r);
    ShipmentsConcat(vol, rs, ts, l, r, disk);
    ShipmentsConcat(vol, rs, ts, [x], r, disk);
    ShipmentsConcat(vol, rs, ts, l, [x] + r, disk);
    assert [x][..0] == [];
    assert Shipments(vol, rs, ts, [x], disk) == [Shipment(vol, rs, ts, x, disk)];
  }

  function ReferenceAll(vol: Volume, rs: seq<Resolved>, disk: seq<Byte>): seq<RawItem>
  {
    if rs == [] then [] else ReferenceAll(vol, rs[..|rs| - 1], disk) + [Reference(vol, rs[|rs| - 1], disk)]
  }

  lemma {:induction false} InSlotOrder(vol: Volume, window: seq<Job>, n: nat, disk: seq<Byte>)
    requires n <= |ResolveAll(vol, window)|
    requires forall r :: r in ResolveAll(vol, window) ==> Regular(vol, r)
    ensures var rs, ts := ResolveAll(vol, window), WindowTasks(vol, window);
            && WellFormed(vol, rs, ts) && Indices(Range(n), |rs|)
            && Shipments(vol, rs, ts, Range(n), disk) == ReferenceAll(vol, rs[..n], disk)
  {
    hide WellFormed, WindowTasks, Reference, ReferenceAll, Shipment, Regular, Shipments, Positive, ResolveAll, Range,
        Indices;
    var rs, ts := ResolveAll(vol, window), WindowTasks(vol, window);
    SortedTasksOk(vol, window);
    RangeCount(n, 0);
    if n > 0 {
      InSlotOrder(vol, window, n - 1, disk);
      ShipsReference(vol, window, n - 1, disk);
      RangeCount(n - 1, 0);
      ShipmentsSnoc(vol, rs, ts, Range(n - 1), n - 1, disk);
      RangeStep(n);
      ReferenceStep(vol, rs, n, disk);
    } else {
      NothingInOrder(vol, rs, ts, disk);
    }
  }

  lemma ReferenceStep(vol: Volume, rs: seq<Resolved>, n: nat, disk: seq<Byte>)
    requires 0 < n <= |rs|
    ensures ReferenceAll(vol, rs[..n], disk) == ReferenceAll(vol, rs[..n - 1], disk) + [Reference(vol, rs[n - 1], disk)]
  {
    hide Reference;
    assert rs[..n][..n - 1] == rs[..n - 1];
  }

  lemma NothingInOrder(vol: Volume, rs: seq<Resolved>, ts: seq<Task>, disk: seq<Byte>)
    requires WellFormed(vol, rs, ts)
    ensures Range(0) == [] && Indices([], |rs|) && Shipments(vol, rs, ts, [], disk) == []
    ensures ReferenceAll(vol, rs[..0], disk) == []
  {
  }

  lemma RangeStep(n: nat)
    requires n > 0
    ensures Range(n) == Range(n - 1) + [n - 1]
  {
  }

  lemma SortedTasksOk(vol: Volume, window: seq<Job>)
    ensures WellFormed(vol, ResolveAll(vol, window), WindowTasks(vol, window)) && Positive(WindowTasks(vol, window))
  {
    SortedTasks(vol, ResolveAll(vol, window));
  }

  lemma ShipsReference(vol: Volume, window: seq<Job>, i: nat, disk: seq<Byte>)
    requires i < |ResolveAll(vol, window)| && Regular(vol, ResolveAll(vol, window)[i])
    ensures WellFormed(vol, ResolveAll(vol, window), WindowTasks(vol, window))
    ensures Shipment(vol, ResolveAll(vol, window), WindowTasks(vol, window), i, disk)
            == Reference(vol, ResolveAll(vol, window)[i], disk)
  {
    hide WindowTasks, WellFormed, NoConflict, HasData;
    SortedTasksOk(vol, window);
    if !PointRead(vol, ResolveAll(vol, window)[i]) {
      ShipsContent(vol, window, i, disk);
    }
  }

  /** A window's output is, up to order, the reference meaning of its resolved files. */
  lemma WindowRefinesReference(vol: Volume, window: seq<Job>, disk: seq<Byte>)
    requires forall r :: r in ResolveAll(vol, window) ==> Regular(vol, r)
    ensures multiset(WindowOutput(vol, window, disk)) == multiset(ReferenceAll(vol, ResolveAll(vol, window), disk))
  {
    hide WellFormed, WindowTasks, ResolveAll, Reference, ReferenceAll, Shipment, Shipments, Regular, Positive,
      ShipOrder, Range, Indices;
    var rs, ts := ResolveAll(vol, window), WindowTasks(vol, window);
    var n := |rs|;
    SortedTasksOk(vol, window);
    AllIndices(vol, rs, ts);
    SlotsInRange(vol, rs, ts);
    EachSlotOnce(ts, n);
    RangeCount(n, 0);
    ShipmentsPermute(vol, rs, ts, ShipOrder(ts, n), Range(n), disk);
    InSlotOrder(vol, window, n, disk);
    assert rs[..n] == rs;
  }

  /** The order of shipping is some order of the slots. */
  lemma EachSlotOnce(ts: seq<Task>, n: nat)
    requires Positive(ts) && forall t :: t in ts ==> t.slotIdx < n
    ensures multiset(ShipOrder(ts, n)) == multiset(Range(n))
  {
    hide Positive, ShipOrder, Range;
    forall i: nat
      ensures multiset(ShipOrder(ts, n))[i] == multiset(Range(n))[i]
    {
      ShippedOnce(ts, n, i);
      RangeCount(n, i);
    }
  }

  lemma SlotsInRange(vol: Volume, rs: seq<Resolved>, ts: seq<Task>)
    requires WellFormed(vol, rs, ts)
    ensures forall t :: t in ts ==> t.slotIdx < |rs|
  {
  }

  // ---------------------------------------------------------------- all windows

  /** The output of all windows of at most `WINDOW` files, one after the other. */
  function AllOutput(vol: Volume, items: seq<Job>, disk: seq<Byte>): seq<RawItem>
    decreases |items|
  {
    if items == [] then []
    else
      var n := Min(WINDOW, |items|);
      WindowOutput(vol, items[..n], disk) + AllOutput(vol, items[n..], disk)
  }

  lemma {:induction false} ResolveConcat(vol: Volume, a: seq<Job>, b: seq<Job>)
    ensures ResolveAll(vol, a + b) == ResolveAll(vol, a) + ResolveAll(vol, b)
    decreases |b|
  {
    if b == [] {
      assert a + b == a;
    } else {
      ResolveConcat(vol, a, b[..|b| - 1]);
      assert (a + b)[..|a + b| - 1] == a + b[..|b| - 1];
    }
  }

  lemma {:induction false} ReferenceConcat(vol: Volume, a: seq<Resolved>, b: seq<Resolved>, disk: seq<Byte>)
    ensures ReferenceAll(vol, a + b, disk) == ReferenceAll(vol, a, disk) + ReferenceAll(vol, b, disk)
    decreases |b|
  {
    hide Reference;
    if b == [] {
      assert a + b == a;
    } else {
      ReferenceConcat(vol, a, b[..|b| - 1], disk);
      assert (a + b)[..|a + b| - 1] == a + b[..|b| - 1];
    }
  }

  /** Bulk reading of any item list ships, up to order, exactly the reference meaning of the
      items that resolve. */
  lemma {:induction false} BulkRefinesReference(vol: Volume, items: seq<Job>, disk: seq<Byte>)
    requires forall r :: r in ResolveAll(vol, items) ==> Regular(vol, r)
    ensures multiset(AllOutput(vol, items, disk)) == multiset(ReferenceAll(vol, ResolveAll(vol, items), disk))
    decreases |items|
  {
    hide WindowOutput, Reference, Regular;
    if items != [] {
      var n := Min(WINDOW, |items|);
      var a, b := items[..n], items[n..];
      assert items == a + b;
      ResolveConcat(vol, a, b);
      ReferenceConcat(vol, ResolveAll(vol, a), ResolveAll(vol, b), disk);
      WindowRefinesReference(vol, a, disk);
      BulkRefinesReference(vol, b, disk);
    }
  }

  predicate Addressed(vol: Volume, items: seq<Job>)
    decreases |items|
  {
    items == [] ||
    var n := Min(WINDOW, |items|);
    Addressable(WindowTasks(vol, items[..n]), vol.blockSize) && Addressed(vol, items[n..])
  }

  /** The device holds the aligned range of every extent that the items need. */
  predicate AllCovered(vol: Volume, items: seq<Job>, disk: seq<Byte>)
    requires vol.blockSize > 0
    decreases |items|
  {
    items == [] ||
    var n := Min(WINDOW, |items|);
    Covered(WindowTasks(vol, items[..n]), vol.blockSize, disk) && AllCovered(vol, items[n..], disk)
  }

  lemma CoveredStep(vol: Volume, items: seq<Job>, at: nat, disk: seq<Byte>)
    requires vol.blockSize > 0 && at < |items|
    ensures var n := Min(WINDOW, |items| - at);
            AllCovered(vol, items[at..], disk)
            <==> Covered(WindowTasks(vol, items[at..at + n]), vol.blockSize, disk)
                 && AllCovered(vol, items[at + n..], disk)
  {
    hide WindowTasks, Covered;
    var n := Min(WINDOW, |items| - at);
    assert items[at..][..n] == items[at..at + n] && items[at..][n..] == items[at + n..];
  }

  lemma NothingToCover(vol: Volume, disk: seq<Byte>)
    requires vol.blockSize > 0
    ensures AllCovered(vol, [], disk)
  {
  }

  lemma AddressedStep(vol: Volume, items: seq<Job>, at: nat)
    requires at < |items| && Addressed(vol, items[at..])
    ensures var n := Min(WINDOW, |items| - at);
            Addressable(WindowTasks(vol, items[at..at + n]), vol.blockSize) && Addressed(vol, items[at + n..])
  {
    hide WindowTasks, Addressable;
    var n := Min(WINDOW, |items| - at);
    assert items[at..][..n] == items[at..at + n] && items[at..][n..] == items[at + n..];
  }

  /** Windows hold 512 files. */
  lemma WindowsOf512(vol: Volume, items: seq<Job>, disk: seq<Byte>)
    ensures 0 < |items| <= 512 ==> AllOutput(vol, items, disk) == WindowOutput(vol, items, disk)
    ensures |items| > 512 ==>
              AllOutput(vol, items, disk) == WindowOutput(vol, items[..512], disk) + AllOutput(vol, items[512..], disk)
  {
    hide WindowOutput;
    if 0 < |items| <= 512 {
      assert items[..|items|] == items && items[|items|..] == [];
      assert WindowOutput(vol, items, disk) + [] == WindowOutput(vol, items, disk);
    }
  }

  lemma AllOutputStep(vol: Volume, items: seq<Job>, at: nat, disk: seq<Byte>)
    requires at < |items|
    ensures var n := Min(WINDOW, |items| - at);
            AllOutput(vol, items[at..], disk)
                == WindowOutput(vol, items[at..at + n], disk) + AllOutput(vol, items[at + n..], disk)
  {
    hide WindowOutput;
    var n := Min(WINDOW, |items| - at);
    assert items[at..][..n] == items[at..at + n] && items[at..][n..] == items[at + n..];
  }

  lemma AllOutputEmpty(vol: Volume, disk: seq<Byte>)
    ensures AllOutput(vol, [], disk) == []
  {
  }

  /** Reads all items window by window; stops early when the receivers are gone, or when the
      device is too short for some extent or reports an error itself. */
  method BulkReadAll(reader: AlignedRawReader, vol: Volume, items: seq<Job>, tx: Sender<RawItem>) returns (r: Outcome)
    requires reader.Valid() && vol.blockSize > 0 && Addressed(vol, items)
    modifies reader, reader.file, reader.cache, reader.cache.shards, tx
    ensures reader.Valid()
    ensures r == Done ==> tx.sent == old(tx.sent) + AllOutput(vol, items, reader.file.data)
                          && AllCovered(vol, items, reader.file.data)
    ensures r != Done ==> exists m: nat :: m <= |AllOutput(vol, items, reader.file.data)|
                                        && tx.sent == old(tx.sent) + AllOutput(vol, items, reader.file.data)[..m]
    ensures r == Closed ==> |tx.sent| >= tx.room
    ensures r == DeviceError ==> !AllCovered(vol, items, reader.file.data) || Fail in old(reader.file.script)
  {
    hide WindowOutput, WindowTasks, Addressable, Covered, AllOutput, AllCovered, Through, AlignedRawReader.Valid;
    ghost var disk := reader.file.data;
    var at := 0;
    ghost var done: seq<RawItem> := [];
    ThroughStart(vol, items, disk);
    while at < |items|
      invariant at <= |items| && reader.Valid() && Through(vol, items, at, done, disk)
      invariant tx.sent == old(tx.sent) + done
      invariant forall x :: x in reader.file.script ==> x in old(reader.file.script)
      decreases |items| - at
    {
      var n := Min(WINDOW, |items| - at);
      var window := items[at..at + n];
      ThroughStep(vol, items, at, done, disk);
      r := BulkReadWindow(reader, vol, window, MAX_RUN_BYTES, tx);
      if r != Done {
        ghost var m: nat :| m <= |WindowOutput(vol, window, disk)|
                            && tx.sent == old(tx.sent) + done + WindowOutput(vol, window, disk)[..m];
        ThroughPart(vol, items, at, done, m, old(tx.sent), disk);
        return;
      }
      done := done + WindowOutput(vol, window, disk);
      at := at + n;
    }
    ThroughEnd(vol, items, done, disk);
    r := Done;
  }

  /** The first `at` items, whole windows, are done and gave `done`. */
  ghost predicate Through(vol: Volume, items: seq<Job>, at: nat, done: seq<RawItem>, disk: seq<Byte>)
    requires vol.blockSize > 0
  {
    && at <= |items| && Addressed(vol, items[at..])
    && (AllCovered(vol, items, disk) <==> AllCovered(vol, items[at..], disk))
    && done + AllOutput(vol, items[at..], disk) == AllOutput(vol, items, disk)
  }

  lemma ThroughStart(vol: Volume, items: seq<Job>, disk: seq<Byte>)
    requires vol.blockSize > 0 && Addressed(vol, items)
    ensures Through(vol, items, 0, [], disk)
  {
    hide AllOutput, AllCovered, Addressed;
    assert items[0..] == items;
  }

  lemma ThroughStep(vol: Volume, items: seq<Job>, at: nat, done: seq<RawItem>, disk: seq<Byte>)
    requires vol.blockSize > 0 && at < |items| && Through(vol, items, at, done, disk)
    ensures var n := Min(WINDOW, |items| - at);
            var window := items[at..at + n];
            && Addressable(WindowTasks(vol, window), vol.blockSize)
            && (!Covered(WindowTasks(vol, window), vol.blockSize, disk) ==> !AllCovered(vol, items, disk))
            && (Covered(WindowTasks(vol, window), vol.blockSize, disk) ==>
                  Through(vol, items, at + n, done + WindowOutput(vol, window, disk), disk))
  {
    hide AllOutput, AllCovered, Addressed, WindowOutput, WindowTasks, Covered, Addressable;
    var n := Min(WINDOW, |items| - at);
    AllOutputStep(vol, items, at, disk);
    AddressedStep(vol, items, at);
    CoveredStep(vol, items, at, disk);
    Associate(done, WindowOutput(vol, items[at..at + n], disk), AllOutput(vol, items[at + n..], disk));
  }

  lemma ThroughPart(vol: Volume, items: seq<Job>, at: nat, done: seq<RawItem>, m: nat, before: seq<RawItem>,
                    disk: seq<Byte>)
    requires vol.blockSize > 0 && at < |items| && Through(vol, items, at, done, disk)
    requires m <= |WindowOutput(vol, items[at..at + Min(WINDOW, |items| - at)], disk)|
    ensures var out := WindowOutput(vol, items[at..at + Min(WINDOW, |items| - at)], disk);
            var all := AllOutput(vol, items, disk);
            |done| + m <= |all| && before + done + out[..m] == before + all[..|done| + m]
  {
    hide AllOutput, AllCovered, Addressed, WindowOutput;
    var n := Min(WINDOW, |items| - at);
    AllOutputStep(vol, items, at, disk);
    var out, rest := WindowOutput(vol, items[at..at + n], disk), AllOutput(vol, items[at + n..], disk);
    assert (done + (out + rest))[..|done| + m] == done + out[..m];
    Associate(before, done, out[..m]);
  }

  lemma ThroughEnd(vol: Volume, items: seq<Job>, done: seq<RawItem>, disk: seq<Byte>)
    requires vol.blockSize > 0 && Through(vol, items, |items|, done, disk)
    ensures done == AllOutput(vol, items, disk) && AllCovered(vol, items, disk)
  {
    assert items[|items|..] == [];
    AllOutputEmpty(vol, disk);
    NothingToCover(vol, disk);
  }
}
