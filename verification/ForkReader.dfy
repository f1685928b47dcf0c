/** The per-file reader of the volume library, which the bulk reader replaces: extents in logical
    order, gaps as zeros, and nothing after the last extent. */
module ForkReader {
  import opened Bytes
  import opened Items
  import opened StableSort
  import opened AlignedReader
  import opened BulkPlan
  import opened BulkReader
  import opened BulkMeaning

  const READ_BATCH: nat := 4 * 1024 * 1024

  function ByLogical(): (Extent, Extent) -> bool { ByKey((e: Extent) => e.logicalAddr) }

  function Ordered(es: seq<Extent>): seq<Extent> { SortBy(es, ByLogical()) }

  /** How far the extents reach into the file. */
  function Reach(es: seq<Extent>, size: nat): (n: nat)
    ensures n <= size
  {
    if es == [] then 0
    else
      var e := es[|es| - 1];
      Max(Reach(es[..|es| - 1], size), if e.length > 0 then Min(size, e.logicalAddr + e.length) else 0)
  }

  /** Byte `p` comes from the first extent that covers it. */
  function FirstByte(es: seq<Extent>, blockSize: nat, disk: seq<Byte>, p: nat): Byte
  {
    if es == [] then 0
    else if Covers(es[0], p) then DiskByte(disk, Address(es[0], blockSize, p))
    else FirstByte(es[1..], blockSize, disk, p)
  }

  /** The first `n` bytes of the file as this reader sees it. */
  function Fork(es: seq<Extent>, n: nat, blockSize: nat, disk: seq<Byte>): (data: seq<Byte>)
    ensures |data| == n
  {
    seq(n, p requires 0 <= p < n => FirstByte(Ordered(es), blockSize, disk, p))
  }

  // ---------------------------------------------------------------- facts about extents

  lemma {:induction false} ReachCovers(es: seq<Extent>, size: nat, p: nat)
    requires p < size && Reach(es, size) <= p
    ensures forall e :: e in es ==> !Covers(e, p)
    decreases |es|
  {
    if es != [] {
      var n := |es| - 1;
      ReachCovers(es[..n], size, p);
      forall e | e in es
        ensures !Covers(e, p)
      {
        assert e in es[..n] || e == es[n] by {
          assert es == es[..n] + [es[n]];
        }
      }
    }
  }

  lemma {:induction false} FirstOf(es: seq<Extent>, k: nat, blockSize: nat, disk: seq<Byte>, p: nat)
    requires k <= |es| && forall i :: 0 <= i < k ==> !Covers(es[i], p)
    ensures FirstByte(es, blockSize, disk, p) == FirstByte(es[k..], blockSize, disk, p)
    decreases k
  {
    if k == 0 {
      assert es[0..] == es;
    } else {
      FirstOf(es[1..], k - 1, blockSize, disk, p);
      assert es[1..][k - 1..] == es[k..];
    }
  }

  /** Bytes not reached before record `k` and not covered by a later one are zero. */
  lemma HoleByte(es: seq<Extent>, size: nat, k: nat, blockSize: nat, disk: seq<Byte>, p: nat)
    requires k < |Ordered(es)| && Reach(Ordered(es)[..k], size) <= p < size && p < Ordered(es)[k].logicalAddr
    ensures FirstByte(Ordered(es), blockSize, disk, p) == 0
  {
    var o := Ordered(es);
    OrderedLaws(es);
    ReachCovers(o[..k], size, p);
    assert forall i :: 0 <= i < k ==> o[i] in o[..k];
    assert forall i :: k <= i < |o| ==> o[i].logicalAddr >= o[k].logicalAddr;
    FirstOf(o, |o|, blockSize, disk, p);
  }

  /** Bytes not reached before record `k` that it covers are its own. */
  lemma DataByte(es: seq<Extent>, size: nat, k: nat, blockSize: nat, disk: seq<Byte>, p: nat)
    requires k < |Ordered(es)| && Reach(Ordered(es)[..k], size) <= p < size && Covers(Ordered(es)[k], p)
    ensures FirstByte(Ordered(es), blockSize, disk, p) == DiskByte(disk, Address(Ordered(es)[k], blockSize, p))
  {
    hide Ordered;
    var o := Ordered(es);
    ReachCovers(o[..k], size, p);
    assert forall i :: 0 <= i < k ==> o[i] in o[..k];
    FirstOf(o, k, blockSize, disk, p);
  }

  lemma OrderedLaws(es: seq<Extent>)
    ensures multiset(Ordered(es)) == multiset(es) && |Ordered(es)| == |es|
    ensures forall i, j :: 0 <= i < j < |es| ==> Ordered(es)[i].logicalAddr <= Ordered(es)[j].logicalAddr
  {
    KeyOrder((e: Extent) => e.logicalAddr);
    SortLaws(es, ByLogical());
    var o := Ordered(es);
    assert |multiset(o)| == |o| && |multiset(es)| == |es|;
    forall i, j | 0 <= i < j < |o|
      ensures o[i].logicalAddr <= o[j].logicalAddr
    {
      assert ByLogical()(o[i], o[j]);
    }
  }

  lemma ReachStep(es: seq<Extent>, k: nat, size: nat)
    requires k < |es|
    ensures Reach(es[..k + 1], size)
            == Max(Reach(es[..k], size), if es[k].length > 0 then Min(size, es[k].logicalAddr + es[k].length) else 0)
  {
    assert es[..k + 1][..k] == es[..k];
  }

  lemma {:induction false} ReachGrows(es: seq<Extent>, k: nat, size: nat)
    requires k <= |es|
    ensures Reach(es[..k], size) <= Reach(es, size)
    decreases |es|
  {
    if k < |es| {
      ReachGrows(es[..|es| - 1], k, size);
      assert es[..|es| - 1][..k] == es[..k];
    } else {
      assert es[..k] == es;
    }
  }

  // ---------------------------------------------------------------- the reader

  /** The address arithmetic of the extents that have an address. */
  predicate Reachable(es: seq<Extent>, blockSize: nat)
  {
    forall e :: e in es && Phys(e, blockSize) <= U64_MAX ==> Phys(e, blockSize) + e.length <= U64_MAX
  }

  /** The device holds every extent. */
  predicate Backed(es: seq<Extent>, blockSize: nat, disk: seq<Byte>)
  {
    forall e :: e in es ==> Phys(e, blockSize) + e.length <= |disk|
  }

  /** `out` is the file so far; it reaches at least as far as the first `k` extents. */
  predicate Written(es: seq<Extent>, size: nat, blockSize: nat, disk: seq<Byte>, out: seq<Byte>)
  {
    |out| <= size && out == Fork(es, |out|, blockSize, disk)
  }

  lemma AppendHole(es: seq<Extent>, size: nat, k: nat, blockSize: nat, disk: seq<Byte>, out: seq<Byte>, gap: nat)
    requires k < |Ordered(es)| && Written(es, size, blockSize, disk, out) && |out| + gap <= size
    requires Reach(Ordered(es)[..k], size) <= |out| && |out| + gap <= Ordered(es)[k].logicalAddr
    ensures Written(es, size, blockSize, disk, out + Zeros(gap))
  {
    hide Ordered, Reach;
    forall p | |out| <= p < |out| + gap
      ensures FirstByte(Ordered(es), blockSize, disk, p) == 0
    {
      HoleByte(es, size, k, blockSize, disk, p);
    }
  }

  lemma AppendData(es: seq<Extent>, size: nat, k: nat, blockSize: nat, disk: seq<Byte>, out: seq<Byte>,
                   bytes: seq<Byte>)
    requires k < |Ordered(es)| && Written(es, size, blockSize, disk, out) && |out| + |bytes| <= size
    requires Reach(Ordered(es)[..k], size) <= |out|
    requires var e := Ordered(es)[k];
             e.logicalAddr <= |out| && |out| + |bytes| <= e.logicalAddr + e.length
             && bytes == Slice(disk, Phys(e, blockSize) + (|out| - e.logicalAddr), |bytes|)
    ensures Written(es, size, blockSize, disk, out + bytes)
  {
    hide Ordered, Reach, Phys;
    forall p | |out| <= p < |out| + |bytes|
      ensures FirstByte(Ordered(es), blockSize, disk, p) == (out + bytes)[p]
    {
      DataByte(es, size, k, blockSize, disk, p);
    }
  }

  /** Reads one file by its extents. The result is the file up to where the extents reach; it
      fails only if the device errs or does not hold an extent. */
  method ReadFileData(reader: AlignedRawReader, es: seq<Extent>, size: nat, blockSize: nat)
    returns (r: Option<seq<Byte>>)
    requires reader.Valid() && Reachable(es, blockSize)
    modifies reader, reader.file, reader.cache, reader.cache.shards
    ensures reader.Valid()
    ensures r.Some? ==> r.value == Fork(es, Reach(Ordered(es), size), blockSize, reader.file.data)
    ensures r.None? ==> !Backed(es, blockSize, reader.file.data) || Fail in old(reader.file.script)
  {
    hide AlignedRawReader.Valid, Slice, Written, Reach, Ordered, Fork, Backed, Reachable;
    ghost var disk := reader.file.data;
    var out := [];
    var ordered := Ordered(es);
    StartEmpty(es, size, blockSize, disk);
    var k := 0;
    while k < |ordered| && |out| < size
      invariant reader.Valid() && k <= |ordered| && Written(es, size, blockSize, disk, out)
      invariant |out| == Reach(ordered[..k], size) <= size
      invariant forall x :: x in reader.file.script ==> x in old(reader.file.script)
      decreases |ordered| - k
    {
      var failed;
      failed, out := ReadExtent(reader, es, size, blockSize, k, out);
      if failed {
        return None;
      }
      k := k + 1;
    }
    ReachGrows(ordered, k, size);
    assert k == |ordered| ==> ordered[..k] == ordered;
    WrittenAll(es, size, blockSize, disk, out);
    r := Some(out);
  }

  lemma StartEmpty(es: seq<Extent>, size: nat, blockSize: nat, disk: seq<Byte>)
    ensures Written(es, size, blockSize, disk, []) && Reach(Ordered(es)[..0], size) == 0
  {
  }

  lemma WrittenAll(es: seq<Extent>, size: nat, blockSize: nat, disk: seq<Byte>, out: seq<Byte>)
    requires Written(es, size, blockSize, disk, out)
    ensures out == Fork(es, |out|, blockSize, disk)
  {
  }

  /** One record: the gap before it, then what of it has not been written yet. */
  method ReadExtent(reader: AlignedRawReader, es: seq<Extent>, size: nat, blockSize: nat, k: nat, before: seq<Byte>)
    returns (failed: bool, out: seq<Byte>)
    requires reader.Valid() && Reachable(es, blockSize) && k < |Ordered(es)|
    requires Written(es, size, blockSize, reader.file.data, before) && |before| < size
    requires |before| == Reach(Ordered(es)[..k], size)
    modifies reader, reader.file, reader.cache, reader.cache.shards
    ensures reader.Valid()
    ensures !failed ==> Written(es, size, blockSize, reader.file.data, out)
    ensures !failed ==> |out| == Reach(Ordered(es)[..k + 1], size)
    ensures failed ==> !Backed(es, blockSize, reader.file.data) || Fail in old(reader.file.script)
    ensures forall x :: x in reader.file.script ==> x in old(reader.file.script)
  {
    assert |reader.file.data| <= U64_MAX;
    hide AlignedRawReader.Valid, Slice, Written, Reach, Ordered, Fork, Backed, Reachable;
    ghost var disk := reader.file.data;
    var e := Ordered(es)[k];
    failed, out := false, before;
    ReachStep(Ordered(es), k, size);
    if e.length == 0 {
      return;
    }
    if e.logicalAddr > |out| {
      var gap := Min(e.logicalAddr - |out|, size - |out|);
      AppendHole(es, size, k, blockSize, disk, out, gap);
      out := out + Zeros(gap);
      if |out| >= size {
        return;
      }
    }
    var skip := Max(|out| - e.logicalAddr, 0);
    if skip >= e.length {
      return;
    }
    var start := Phys(e, blockSize);
    ExtentFacts(es, k, blockSize, disk);
    if start > U64_MAX {
      return true, out;
    }
    var offset := skip;
    while offset < e.length && |out| < size
      invariant reader.Valid() && Written(es, size, blockSize, disk, out)
      invariant Reach(Ordered(es)[..k], size) <= |out| <= size && offset <= e.length && |out| == e.logicalAddr + offset
      invariant forall x :: x in reader.file.script ==> x in old(reader.file.script)
      decreases e.length - offset
    {
      var n := Min(Min(size - |out|, e.length - offset), READ_BATCH);
      var bytes := reader.ReadRawAt(start + offset, n);
      if bytes.None? {
        ShortSlice(disk, start + offset, n);
        return true, out;
      }
      AppendData(es, size, k, blockSize, disk, out, bytes.value);
      out := out + bytes.value;
      offset := offset + n;
    }
  }

  lemma ExtentFacts(es: seq<Extent>, k: nat, blockSize: nat, disk: seq<Byte>)
    requires k < |Ordered(es)| && Reachable(es, blockSize)
    ensures var e := Ordered(es)[k];
            && (Phys(e, blockSize) <= U64_MAX ==> Phys(e, blockSize) + e.length <= U64_MAX)
            && (Backed(es, blockSize, disk) ==> Phys(e, blockSize) + e.length <= |disk|)
  {
    hide Ordered, Phys;
    OrderedLaws(es);
    assert Ordered(es)[k] in multiset(Ordered(es));
    assert Ordered(es)[k] in es;
  }

  lemma ShortSlice(disk: seq<Byte>, at: nat, n: nat)
    ensures |Slice(disk, at, n)| < n ==> at + n > |disk|
  {
  }

  // ---------------------------------------------------------------- against the bulk reader

  /** Where extents do not conflict, the first and the last one that cover a byte agree. */
  lemma {:induction false} FileByteOf(es: seq<Extent>, size: nat, blockSize: nat, disk: seq<Byte>, p: nat)
    ensures (forall e :: e in es ==> !Covers(e, p)) ==> FileByte(es, blockSize, disk, p) == 0
    ensures (exists e :: e in es && Covers(e, p)) ==>
              exists e :: e in es && Covers(e, p)
                  && FileByte(es, blockSize, disk, p) == DiskByte(disk, Address(e, blockSize, p))
    decreases |es|
  {
    if es != [] {
      var n := |es| - 1;
      assert es == es[..n] + [es[n]];
      FileByteOf(es[..n], size, blockSize, disk, p);
      assert Covers(es[n], p) ==> FileByte(es, blockSize, disk, p) == DiskByte(disk, Address(es[n], blockSize, p));
    }
  }

  lemma {:induction false} FirstByteOf(es: seq<Extent>, blockSize: nat, disk: seq<Byte>, p: nat)
    ensures (forall e :: e in es ==> !Covers(e, p)) ==> FirstByte(es, blockSize, disk, p) == 0
    ensures (exists e :: e in es && Covers(e, p)) ==>
              exists e :: e in es && Covers(e, p)
                  && FirstByte(es, blockSize, disk, p) == DiskByte(disk, Address(e, blockSize, p))
  {
    if es != [] {
      assert es == [es[0]] + es[1..];
      FirstByteOf(es[1..], blockSize, disk, p);
      assert Covers(es[0], p) ==> FirstByte(es, blockSize, disk, p) == DiskByte(disk, Address(es[0], blockSize, p));
    }
  }

  lemma SameByte(es: seq<Extent>, size: nat, blockSize: nat, disk: seq<Byte>, p: nat)
    requires NoConflict(es, size, blockSize) && p < size
    ensures FirstByte(Ordered(es), blockSize, disk, p) == FileByte(es, blockSize, disk, p)
  {
    hide Ordered, FirstByte, FileByte, Address, Covers, DiskByte;
    OrderedLaws(es);
    assert forall e :: e in Ordered(es) <==> e in multiset(Ordered(es));
    assert forall e :: e in es <==> e in multiset(es);
    FirstByteOf(Ordered(es), blockSize, disk, p);
    FileByteOf(es, size, blockSize, disk, p);
  }

  /** Reading by extents gives the file's content up to where its extents reach. */
  lemma ForkIsContent(es: seq<Extent>, size: nat, n: nat, blockSize: nat, disk: seq<Byte>)
    requires NoConflict(es, size, blockSize) && n <= size
    ensures Fork(es, n, blockSize, disk) == FileContent(es, size, blockSize, disk)[..n]
  {
    hide NoConflict, FirstByte, FileByte, Ordered;
    forall p | 0 <= p < n
      ensures Fork(es, n, blockSize, disk)[p] == FileContent(es, size, blockSize, disk)[p]
    {
      SameByte(es, size, blockSize, disk, p);
    }
  }

  /** The bulk reader ships what the per-file reader would read, if and only if the extents reach
      the end of the file, or, when none starts inside it, there is none at all. */
  lemma BulkAgreesWithFork(vol: Volume, window: seq<Job>, i: nat, disk: seq<Byte>)
    requires i < |ResolveAll(vol, window)| && !PointRead(vol, ResolveAll(vol, window)[i])
    requires var r := ResolveAll(vol, window)[i];
             r.inode.size > 0 && NoConflict(vol.extents[r.inode.privateId], r.inode.size, vol.blockSize)
    ensures WellFormed(vol, ResolveAll(vol, window), WindowTasks(vol, window))
    ensures var r := ResolveAll(vol, window)[i];
            var es, size := vol.extents[r.inode.privateId], r.inode.size;
            Shipment(vol, ResolveAll(vol, window), WindowTasks(vol, window), i, disk).bytes
            == Fork(es, Reach(Ordered(es), size), vol.blockSize, disk)
            <==> Reach(Ordered(es), size) == if HasData(es, size) then size else 0
  {
    hide WindowTasks, WellFormed, NoConflict, Stamped, Reach, Ordered, Fork, FileContent;
    var rs, ts := ResolveAll(vol, window), WindowTasks(vol, window);
    var r := rs[i];
    var es, size := vol.extents[r.inode.privateId], r.inode.size;
    var n := Reach(Ordered(es), size);
    TasksOfFile(vol, window, i);
    ExtentTasksFit(es, size, vol.blockSize, i);
    assert SlotTasks(vol, r, i) == [] <==> !HasData(es, size);
    AnyOrderIsFile(es, size, vol.blockSize, i, Mine(ts, i), disk);
    ForkIsContent(es, size, n, vol.blockSize, disk);
    ContentSize(es, size, vol.blockSize, disk);
  }

  lemma ContentSize(es: seq<Extent>, size: nat, blockSize: nat, disk: seq<Byte>)
    ensures |FileContent(es, size, blockSize, disk)| == size
    ensures FileContent(es, size, blockSize, disk)[..size] == FileContent(es, size, blockSize, disk)
  {
  }
}
