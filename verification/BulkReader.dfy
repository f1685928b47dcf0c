/** The bulk reader: one window of files, read in disk order through coalesced runs, and
    shipped file by file as soon as each is complete. */
module BulkReader {
  import opened Bytes
  import opened Items
  import opened BulkPlan
  import opened StableSort
  import opened AlignedReader

  /** Largest gap between tasks that a run reads across. */
  const MAX_GAP: nat := 256 * 1024
  /** Cap on a coalesced run. */
  const MAX_RUN_BYTES: nat := 64 * 1024 * 1024
  /** Files per window. */
  const WINDOW: nat := 512

  datatype Outcome = Done | Closed | DeviceError

  datatype Slot = Slot(index: nat, item: WorkItem, data: seq<Byte>, remaining: nat, special: bool, sent: bool)

  const BLANK_ITEM := WorkItem([], [], 0, 0, 0)

  // ---------------------------------------------------------------- specification

  function ByOffset(): (Task, Task) -> bool { ByKey((t: Task) => t.diskOffset) }

  function InDiskOrder(ts: seq<Task>): seq<Task> { SortBy(ts, ByOffset()) }

  /** Every task belongs to a file that is read by extents, and lies inside it. */
  predicate WellFormed(vol: Volume, rs: seq<Resolved>, ts: seq<Task>)
  {
    forall t :: t in ts ==>
      t.slotIdx < |rs| && TaskFits(t, rs[t.slotIdx].inode.size) && !PointRead(vol, rs[t.slotIdx])
  }

  lemma {:induction false} MineFits(ts: seq<Task>, i: nat, size: nat)
    requires forall t :: t in ts && t.slotIdx == i ==> TaskFits(t, size)
    ensures AllFit(Mine(ts, i), size)
    decreases |ts|
  {
    if ts != [] {
      assert ts == ts[..|ts| - 1] + [ts[|ts| - 1]];
      MineFits(ts[..|ts| - 1], i, size);
    }
  }

  /** Slot `i`'s buffer after the tasks `ts`. */
  function Buffer(vol: Volume, rs: seq<Resolved>, ts: seq<Task>, i: nat, disk: seq<Byte>): seq<Byte>
    requires WellFormed(vol, rs, ts) && i < |rs|
  {
    MineFits(ts, i, rs[i].inode.size);
    Image(rs[i].inode.size, Mine(ts, i), disk)
  }

  /** What is shipped for slot `i` when the window's tasks are `ts`. */
  function Shipment(vol: Volume, rs: seq<Resolved>, ts: seq<Task>, i: nat, disk: seq<Byte>): RawItem
    requires WellFormed(vol, rs, ts) && i < |rs|
  {
    var r := rs[i];
    RawItem(r.index, Stamped(r),
            if PointRead(vol, r) then (if r.oid in vol.pointReads then vol.pointReads[r.oid] else [])
            else if Owed(ts, i) == 0 then []
            else Buffer(vol, rs, ts, i, disk))
  }

  predicate Indices(order: seq<nat>, n: nat) { forall q :: 0 <= q < |order| ==> order[q] < n }

  function Shipments(vol: Volume, rs: seq<Resolved>, ts: seq<Task>, order: seq<nat>, disk: seq<Byte>): (s: seq<RawItem>)
    requires WellFormed(vol, rs, ts) && Indices(order, |rs|)
    ensures |s| == |order|
  {
    if order == [] then []
    else Shipments(vol, rs, ts, order[..|order| - 1], disk) + [Shipment(vol, rs, ts, order[|order| - 1], disk)]
  }

  /** The device holds the aligned range of every task. */
  predicate Covered(ts: seq<Task>, blockSize: nat, disk: seq<Byte>)
    requires blockSize > 0
  {
    forall t :: t in ts ==> AlignUp(t.diskOffset + t.length, blockSize) <= |disk|
  }

  /** 64-bit arithmetic on the tasks' addresses does not overflow. */
  predicate Addressable(ts: seq<Task>, blockSize: nat)
  {
    forall t :: t in ts ==> t.diskOffset + t.length + blockSize <= U64_MAX
  }

  // ---------------------------------------------------------------- phase 1

  function Fresh(vol: Volume, r: Resolved, owed: nat): Slot
  {
    Slot(r.index, Stamped(r), if PointRead(vol, r) then [] else Zeros(r.inode.size), owed, PointRead(vol, r), false)
  }

  predicate AllFresh(vol: Volume, rs: seq<Resolved>, slots: seq<Slot>, ts: seq<Task>)
  {
    |slots| <= |rs| && forall i :: 0 <= i < |slots| ==> slots[i] == Fresh(vol, rs[i], Owed(ts, i))
  }

  lemma FreshGrows(vol: Volume, rs: seq<Resolved>, slots: seq<Slot>, ts: seq<Task>, more: seq<Task>)
    requires AllFresh(vol, rs, slots, ts) && |slots| < |rs|
    requires forall i :: 0 <= i < |slots| ==> Owed(ts + more, i) == Owed(ts, i)
    ensures AllFresh(vol, rs, slots + [Fresh(vol, rs[|slots|], Owed(ts + more, |slots|))], ts + more)
  {
    hide Fresh, Owed;
  }

  method ResolveWindow(vol: Volume, window: seq<Job>) returns (rs: seq<Resolved>)
    ensures rs == ResolveAll(vol, window)
  {
    rs := [];
    for n := 0 to |window|
      invariant rs == ResolveAll(vol, window[..n])
    {
      assert window[..n + 1][..n] == window[..n];
      match Resolve(vol, window[n])
      case Some(r) => rs := rs + [r];
      case None =>
    }
    assert window[..|window|] == window;
  }

  /** Tasks of one file, and the bytes they owe it. */
  method PlanFile(es: seq<Extent>, size: nat, blockSize: nat, slot: nat) returns (ts: seq<Task>, remaining: nat)
    ensures ts == ExtentTasks(es, size, blockSize, slot) && remaining == Owed(ts, slot)
  {
    ts, remaining := [], 0;
    for n := 0 to |es|
      invariant ts == ExtentTasks(es[..n], size, blockSize, slot) && remaining == Owed(ts, slot)
    {
      assert es[..n + 1][..n] == es[..n];
      var e := es[n];
      var phys := Phys(e, blockSize);
      if e.logicalAddr >= size {
        continue;
      }
      var usable := Min(e.length, size - e.logicalAddr);
      if usable == 0 {
        continue;
      }
      var t := Task(phys, usable, slot, e.logicalAddr);
      OwedConcat(ts, [t], slot);
      ts := ts + [t];
      remaining := remaining + usable;
    }
    assert es[..|es|] == es;
  }

  method BuildSlots(vol: Volume, rs: seq<Resolved>) returns (slots: seq<Slot>, tasks: seq<Task>)
    ensures tasks == AllTasks(vol, rs) && |slots| == |rs|
    ensures AllFresh(vol, rs, slots, tasks)
  {
    slots, tasks := [], [];
    for n := 0 to |rs|
      invariant |slots| == n && tasks == AllTasks(vol, rs[..n])
      invariant AllFresh(vol, rs, slots, tasks)
    {
      hide ExtentTasks, Owed, Zeros, Stamped, AllTasks, AllFresh;
      assert rs[..n + 1][..n] == rs[..n];
      var r := rs[n];
      var more, remaining := [], 0;
      var data := [];
      if !PointRead(vol, r) && r.inode.size > 0 {
        more, remaining := PlanFile(vol.extents[r.inode.privateId], r.inode.size, vol.blockSize, n);
        data := Zeros(r.inode.size);
      }
      OwedGrows(vol, rs, n);
      assert more == SlotTasks(vol, r, n);
      FreshGrows(vol, rs, slots, tasks, more);
      slots := slots + [Slot(r.index, Stamped(r), data, remaining, PointRead(vol, r), false)];
      tasks := tasks + more;
    }
    assert rs[..|rs|] == rs;
  }

  /** A new file's tasks owe nothing to the earlier slots, and earlier tasks nothing to it. */
  lemma OwedGrows(vol: Volume, rs: seq<Resolved>, n: nat)
    requires n < |rs|
    ensures var more := SlotTasks(vol, rs[n], n);
            && AllTasks(vol, rs[..n + 1]) == AllTasks(vol, rs[..n]) + more
            && (forall i :: 0 <= i < n ==> Owed(AllTasks(vol, rs[..n + 1]), i) == Owed(AllTasks(vol, rs[..n]), i))
            && Owed(AllTasks(vol, rs[..n + 1]), n) == Owed(more, n)
    ensures Owed([], n) == 0 && Zeros(0) == []
  {
    hide SlotTasks, Owed, ExtentTasks;
    var old', more := AllTasks(vol, rs[..n]), SlotTasks(vol, rs[n], n);
    assert rs[..n + 1][..n] == rs[..n];
    AllTasksOk(vol, rs[..n]);
    AllTasksOk(vol, rs[..n + 1]);
    assert Positive(more) by {
      assert forall t :: t in more ==> t in AllTasks(vol, rs[..n + 1]);
    }
    forall i | 0 <= i < n
      ensures Owed(old' + more, i) == Owed(old', i)
    {
      OwedConcat(old', more, i);
      MineOwn(vol, rs[n], n, i);
      OwedNothing(more, i);
    }
    OwedConcat(old', more, n);
    MineTasks(vol, rs[..n], n);
    OwedNothing(old', n);
    OwedNothing([], n);
  }

  lemma {:induction false} AllTasksOk(vol: Volume, rs: seq<Resolved>)
    ensures WellFormed(vol, rs, AllTasks(vol, rs)) && Positive(AllTasks(vol, rs))
    decreases |rs|
  {
    if rs != [] {
      var init, r := rs[..|rs| - 1], rs[|rs| - 1];
      AllTasksOk(vol, init);
      if !PointRead(vol, r) && r.inode.size > 0 {
        ExtentTasksFit(vol.extents[r.inode.privateId], r.inode.size, vol.blockSize, |rs| - 1);
      }
      assert WellFormed(vol, rs, AllTasks(vol, init)) by {
        assert forall j :: 0 <= j < |init| ==> rs[j] == init[j];
      }
    }
  }

  // ---------------------------------------------------------------- phase 2: runs

  predicate DiskSorted(ts: seq<Task>)
  {
    forall i, j :: 0 <= i < j < |ts| ==> ts[i].diskOffset <= ts[j].diskOffset
  }

  /** A task may extend the run: it touches the run or leaves a small gap, and the cap holds. */
  predicate Joins(t: Task, runStart: nat, runEnd: nat, maxRun: nat)
  {
    t.diskOffset + t.length - runStart <= maxRun && t.diskOffset <= runEnd + 262_144
  }

  function TotalLength(ts: seq<Task>): nat
  {
    if ts == [] then 0 else TotalLength(ts[..|ts| - 1]) + ts[|ts| - 1].length
  }

  /** Tasks i..j make up one run ending at `runEnd`: the run covers them and ends with one of
      them; its length is bounded by the cap (unless its first task alone is longer) and by
      its bytes plus the gaps read across. */
  predicate RunOk(ts: seq<Task>, i: nat, j: nat, runEnd: nat, maxRun: nat)
  {
    && i < j <= |ts|
    && (forall k :: i <= k < j ==> ts[i].diskOffset <= ts[k].diskOffset && ts[k].diskOffset + ts[k].length <= runEnd)
    && (exists k :: i <= k < j && ts[k].diskOffset + ts[k].length == runEnd)
    && runEnd - ts[i].diskOffset <= Max(maxRun, ts[i].length)
    && runEnd - ts[i].diskOffset <= TotalLength(ts[i..j]) + 262_144 * (j - i - 1)
  }

  lemma RunStarts(ts: seq<Task>, i: nat, maxRun: nat)
    requires i < |ts|
    ensures RunOk(ts, i, i + 1, ts[i].diskOffset + ts[i].length, maxRun)
  {
    assert ts[i..i + 1] == [ts[i]] && [ts[i]][..0] == [];
    assert TotalLength([ts[i]]) == TotalLength([ts[i]][..0]) + ts[i].length;
  }

  lemma RunGrows(ts: seq<Task>, i: nat, j: nat, runEnd: nat, maxRun: nat)
    requires DiskSorted(ts) && RunOk(ts, i, j, runEnd, maxRun) && j < |ts|
    requires Joins(ts[j], ts[i].diskOffset, runEnd, maxRun)
    ensures RunOk(ts, i, j + 1, Max(runEnd, ts[j].diskOffset + ts[j].length), maxRun)
  {
    hide TotalLength;
    TotalGrows(ts, i, j);
    LastEnd(ts, i, j, runEnd);
    assert forall k :: i <= k < j + 1 ==> ts[i].diskOffset <= ts[k].diskOffset;
  }

  lemma TotalGrows(ts: seq<Task>, i: nat, j: nat)
    requires i <= j < |ts|
    ensures TotalLength(ts[i..j + 1]) == TotalLength(ts[i..j]) + ts[j].length
  {
    assert ts[i..j + 1][..j - i] == ts[i..j];
  }

  lemma LastEnd(ts: seq<Task>, i: nat, j: nat, runEnd: nat)
    requires i < j < |ts| && exists k :: i <= k < j && ts[k].diskOffset + ts[k].length == runEnd
    ensures exists k ::
              i <= k < j + 1 && ts[k].diskOffset + ts[k].length == Max(runEnd, ts[j].diskOffset + ts[j].length)
  {
    if ts[j].diskOffset + ts[j].length <= runEnd {
      var k :| i <= k < j && ts[k].diskOffset + ts[k].length == runEnd;
      assert i <= k < j + 1;
    } else {
      assert i <= j < j + 1;
    }
  }

  /** The run that starts with task `i`, as long as the joining rule allows. */
  method Coalesce(tasks: seq<Task>, i: nat, maxRun: nat) returns (j: nat, runEnd: nat)
    requires i < |tasks| && DiskSorted(tasks)
    ensures RunOk(tasks, i, j, runEnd, maxRun)
    ensures j < |tasks| ==> !Joins(tasks[j], tasks[i].diskOffset, runEnd, maxRun)
  {
    hide RunOk;
    var runStart := tasks[i].diskOffset;
    runEnd := runStart + tasks[i].length;
    j := i + 1;
    RunStarts(tasks, i, maxRun);
    while j < |tasks|
      invariant i < j <= |tasks| && RunOk(tasks, i, j, runEnd, maxRun)
    {
      var t := tasks[j];
      if t.diskOffset <= runEnd && t.diskOffset + t.length - runStart <= maxRun {
        RunGrows(tasks, i, j, runEnd, maxRun);
        runEnd := Max(runEnd, t.diskOffset + t.length);
        j := j + 1;
      } else if t.diskOffset > runEnd && t.diskOffset + t.length - runStart <= maxRun
          && t.diskOffset - runEnd <= MAX_GAP {
        RunGrows(tasks, i, j, runEnd, maxRun);
        runEnd := t.diskOffset + t.length;
        j := j + 1;
      } else {
        break;
      }
    }
  }

  // ---------------------------------------------------------------- phase 2: scatter

  /** Slot `i` after the first `k` tasks. */
  predicate SlotOk(vol: Volume, rs: seq<Resolved>, ts: seq<Task>, s: Slot, i: nat, k: nat, disk: seq<Byte>)
    requires WellFormed(vol, rs, ts) && i < |rs| && k <= |ts|
  {
    && s.special == PointRead(vol, rs[i])
    && s.remaining == Owed(ts[k..], i)
    && s.sent == (Owed(ts, i) > 0 && Owed(ts[k..], i) == 0)
    && (!s.sent ==>
          && s.index == rs[i].index && s.item == Stamped(rs[i])
          && (!s.special ==> s.data == Buffer(vol, rs, ts[..k], i, disk)))
  }

  predicate SlotsOk(vol: Volume, rs: seq<Resolved>, ts: seq<Task>, slots: seq<Slot>, k: nat, disk: seq<Byte>)
    requires WellFormed(vol, rs, ts) && k <= |ts|
  {
    |slots| == |rs| && forall i :: 0 <= i < |rs| ==> SlotOk(vol, rs, ts, slots[i], i, k, disk)
  }

  lemma PrefixOk(vol: Volume, rs: seq<Resolved>, ts: seq<Task>, k: nat)
    requires WellFormed(vol, rs, ts) && k <= |ts|
    ensures WellFormed(vol, rs, ts[..k])
  {
  }

  lemma MineSnoc(ts: seq<Task>, k: nat, i: nat)
    requires k < |ts|
    ensures Mine(ts[..k + 1], i) == Mine(ts[..k], i) + if ts[k].slotIdx == i then [ts[k]] else []
  {
    assert ts[..k + 1][..k] == ts[..k];
  }

  /** A buffer changes by the tasks of its own slot, one at a time. */
  lemma BufferStep(vol: Volume, rs: seq<Resolved>, ts: seq<Task>, i: nat, k: nat, disk: seq<Byte>)
    requires WellFormed(vol, rs, ts) && i < |rs| && k < |ts|
    ensures WellFormed(vol, rs, ts[..k]) && WellFormed(vol, rs, ts[..k + 1])
    ensures |Buffer(vol, rs, ts[..k], i, disk)| == rs[i].inode.size
    ensures var t := ts[k];
            if t.slotIdx != i then Buffer(vol, rs, ts[..k + 1], i, disk) == Buffer(vol, rs, ts[..k], i, disk)
            else t.fileOffset + t.length <= rs[i].inode.size
                 && Buffer(vol, rs, ts[..k + 1], i, disk) ==
                    Overlay(Buffer(vol, rs, ts[..k], i, disk), t.fileOffset, Stored(disk, t.diskOffset, t.length))
  {
    hide Stored, Overlay, Mine, Zeros;
    PrefixOk(vol, rs, ts, k);
    PrefixOk(vol, rs, ts, k + 1);
    MineSnoc(ts, k, i);
    MineFits(ts[..k], i, rs[i].inode.size);
    MineFits(ts[..k + 1], i, rs[i].inode.size);
    assert ts[k] in ts;
    var init := Mine(ts[..k], i);
    assert ts[k].slotIdx == i ==> (init + [ts[k]])[..|init|] == init;
    assert init + [] == init;
  }

  /** A task leaves the other slots as they are. */
  lemma SlotUntouched(vol: Volume, rs: seq<Resolved>, ts: seq<Task>, s: Slot, i: nat, k: nat, disk: seq<Byte>)
    requires WellFormed(vol, rs, ts) && i < |rs| && k < |ts| && ts[k].slotIdx != i
    requires SlotOk(vol, rs, ts, s, i, k, disk)
    ensures SlotOk(vol, rs, ts, s, i, k + 1, disk)
  {
    hide Buffer, Owed, WellFormed, Stamped;
    OwedStep(ts, k, i);
    BufferStep(vol, rs, ts, i, k, disk);
  }

  /** A task's slot is still waiting, and receives exactly its bytes. */
  lemma SlotFilled(vol: Volume, rs: seq<Resolved>, ts: seq<Task>, s: Slot, k: nat, disk: seq<Byte>)
    requires WellFormed(vol, rs, ts) && k < |ts|
    requires ts[k].slotIdx < |rs| && SlotOk(vol, rs, ts, s, ts[k].slotIdx, k, disk)
    ensures WellFormed(vol, rs, ts[..k + 1])
    ensures var t := ts[k];
            && !s.sent && !s.special && s.remaining >= t.length
            && s.remaining - t.length == Owed(ts[k + 1..], t.slotIdx) && Owed(ts, t.slotIdx) > 0
            && t.fileOffset + t.length <= |s.data|
            && Overlay(s.data, t.fileOffset, Stored(disk, t.diskOffset, t.length))
               == Buffer(vol, rs, ts[..k + 1], t.slotIdx, disk)
  {
    hide Owed, Buffer, Overlay, Stored, Stamped;
    var t := ts[k];
    assert t in ts;
    OwedStep(ts, k, t.slotIdx);
    assert ts == ts[..k] + ts[k..];
    OwedConcat(ts[..k], ts[k..], t.slotIdx);
    BufferStep(vol, rs, ts, t.slotIdx, k, disk);
  }

  lemma {:induction false} CompletedIndices(vol: Volume, rs: seq<Resolved>, ts: seq<Task>, k: nat)
    requires WellFormed(vol, rs, ts) && k <= |ts|
    ensures Indices(Completed(ts, k), |rs|)
  {
    if k > 0 {
      CompletedIndices(vol, rs, ts, k - 1);
      assert ts[k - 1] in ts;
    }
  }

  lemma ShipmentsSnoc(vol: Volume, rs: seq<Resolved>, ts: seq<Task>, order: seq<nat>, i: nat, disk: seq<Byte>)
    requires WellFormed(vol, rs, ts) && Indices(order, |rs|) && i < |rs|
    ensures Indices(order + [i], |rs|)
    ensures Shipments(vol, rs, ts, order + [i], disk)
            == Shipments(vol, rs, ts, order, disk) + [Shipment(vol, rs, ts, i, disk)]
  {
    assert (order + [i])[..|order|] == order;
  }

  /** What has gone out after the first `k` tasks. */
  predicate Shipped(vol: Volume, rs: seq<Resolved>, ts: seq<Task>, sent: seq<RawItem>, before: seq<RawItem>, k: nat,
                    disk: seq<Byte>)
    requires WellFormed(vol, rs, ts) && k <= |ts|
  {
    CompletedIndices(vol, rs, ts, k);
    sent == before + Shipments(vol, rs, ts, Completed(ts, k), disk)
  }

  /** Processes task `k`: copies its bytes, and ships its file if that was the last of it. */
  method Apply(vol: Volume, rs: seq<Resolved>, ts: seq<Task>, slots: seq<Slot>, k: nat, src: seq<Byte>,
               tx: Sender<RawItem>, ghost before: seq<RawItem>, ghost disk: seq<Byte>)
    returns (slots': seq<Slot>, closed: bool)
    requires WellFormed(vol, rs, ts) && Positive(ts) && k < |ts| && SlotsOk(vol, rs, ts, slots, k, disk)
    requires src == Stored(disk, ts[k].diskOffset, ts[k].length)
    requires Shipped(vol, rs, ts, tx.sent, before, k, disk)
    modifies tx
    ensures !closed ==> SlotsOk(vol, rs, ts, slots', k + 1, disk) && Shipped(vol, rs, ts, tx.sent, before, k + 1, disk)
    ensures closed ==> tx.sent == old(tx.sent) && |tx.sent| >= tx.room && |Completed(ts, k + 1)| > |Completed(ts, k)|
  {
    hide SlotOk, WellFormed, Owed, Buffer, Overlay, Stored, Stamped, Positive, Completed, Shipped;
    var t := ts[k];
    TaskSlot(vol, rs, ts, k);
    SlotFilled(vol, rs, ts, slots[t.slotIdx], k, disk);
    forall i | 0 <= i < |rs| && i != t.slotIdx
      ensures SlotOk(vol, rs, ts, slots[i], i, k + 1, disk)
    {
      SlotUntouched(vol, rs, ts, slots[i], i, k, disk);
    }
    var slot := slots[t.slotIdx];
    var data := Overlay(slot.data, t.fileOffset, src);
    var remaining := slot.remaining - t.length;
    slot := slot.(data := data, remaining := remaining);
    closed := false;
    ShippedStep(vol, rs, ts, tx.sent, before, k, disk);
    if remaining == 0 && !slot.special && !slot.sent {
      SlotDone(vol, rs, ts, slots[t.slotIdx], k, disk);
      var out := RawItem(slot.index, slot.item, data);
      var ok := tx.Send(out);
      closed := !ok;
      slot := slot.(data := [], item := BLANK_ITEM, sent := true);
    }
    SlotAfter(vol, rs, ts, slots[t.slotIdx], k, disk);
    slots' := slots[t.slotIdx := slot];
  }

  lemma ShippedStep(vol: Volume, rs: seq<Resolved>, ts: seq<Task>, sent: seq<RawItem>, before: seq<RawItem>, k: nat,
                    disk: seq<Byte>)
    requires WellFormed(vol, rs, ts) && k < |ts| && ts[k].slotIdx < |rs|
    requires Shipped(vol, rs, ts, sent, before, k, disk)
    ensures if Owed(ts[k + 1..], ts[k].slotIdx) == 0
            then Shipped(vol, rs, ts, sent + [Shipment(vol, rs, ts, ts[k].slotIdx, disk)], before, k + 1, disk)
                 && |Completed(ts, k + 1)| == |Completed(ts, k)| + 1
            else Shipped(vol, rs, ts, sent, before, k + 1, disk)
  {
    hide WellFormed, Owed, Shipment;
    CompletedIndices(vol, rs, ts, k);
    CompletedIndices(vol, rs, ts, k + 1);
    assert Completed(ts, k) + [] == Completed(ts, k);
    ShipmentsSnoc(vol, rs, ts, Completed(ts, k), ts[k].slotIdx, disk);
  }

  lemma TaskSlot(vol: Volume, rs: seq<Resolved>, ts: seq<Task>, k: nat)
    requires WellFormed(vol, rs, ts) && k < |ts|
    ensures ts[k].slotIdx < |rs|
  {
    assert ts[k] in ts;
  }

  /** The last task of a slot leaves the complete file in its buffer. */
  lemma SlotDone(vol: Volume, rs: seq<Resolved>, ts: seq<Task>, s: Slot, k: nat, disk: seq<Byte>)
    requires WellFormed(vol, rs, ts) && Positive(ts) && k < |ts|
    requires ts[k].slotIdx < |rs| && SlotOk(vol, rs, ts, s, ts[k].slotIdx, k, disk)
    requires Owed(ts[k + 1..], ts[k].slotIdx) == 0
    ensures WellFormed(vol, rs, ts[..k + 1])
    ensures Shipment(vol, rs, ts, ts[k].slotIdx, disk) ==
            RawItem(s.index, s.item, Buffer(vol, rs, ts[..k + 1], ts[k].slotIdx, disk))
  {
    SlotFilled(vol, rs, ts, s, k, disk);
    hide Owed, Stamped, Mine, Image;
    MineComplete(ts, k + 1, ts[k].slotIdx);
  }

  /** Slot state after its task, both when the file is complete and when it is not. */
  lemma SlotAfter(vol: Volume, rs: seq<Resolved>, ts: seq<Task>, s: Slot, k: nat, disk: seq<Byte>)
    requires WellFormed(vol, rs, ts) && k < |ts|
    requires ts[k].slotIdx < |rs| && SlotOk(vol, rs, ts, s, ts[k].slotIdx, k, disk)
    ensures s.remaining >= ts[k].length && ts[k].fileOffset + ts[k].length <= |s.data|
    ensures var t := ts[k];
            var s' := s.(data := Overlay(s.data, t.fileOffset, Stored(disk, t.diskOffset, t.length)),
                         remaining := s.remaining - t.length);
            if s'.remaining == 0 then SlotOk(vol, rs, ts, s'.(data := [], item := BLANK_ITEM, sent := true), t.slotIdx,
                k + 1, disk)
            else SlotOk(vol, rs, ts, s', t.slotIdx, k + 1, disk)
  {
    SlotFilled(vol, rs, ts, s, k, disk);
    hide Owed, Buffer, Overlay, Stored, Stamped;
  }

  // ---------------------------------------------------------------- phase 2: the loop over runs

  lemma {:induction false} CompletedPrefix(ts: seq<Task>, k: nat, m: nat)
    requires k <= m <= |ts|
    ensures Completed(ts, k) <= Completed(ts, m)
    decreases m
  {
    if k < m {
      CompletedPrefix(ts, k, m - 1);
    }
  }

  /** The bytes of a task, cut out of a run that covers it. */
  lemma RunSlice(run: seq<Byte>, disk: seq<Byte>, start: nat, len: nat, at: nat, n: nat)
    requires run == Slice(disk, start, len) && |run| == len
    requires start <= at && at + n <= start + len && n > 0
    ensures run[at - start..at - start + n] == Stored(disk, at, n)
  {
    SliceOfSlice(disk, start, len, at - start, n);
  }

  /** Part of the ship order has gone out. */
  ghost predicate SentUpTo(vol: Volume, rs: seq<Resolved>, ts: seq<Task>, sent: seq<RawItem>, before: seq<RawItem>,
                           m: nat, disk: seq<Byte>)
    requires WellFormed(vol, rs, ts)
  {
    && m <= |ShipOrder(ts, |rs|)|
    && Indices(ShipOrder(ts, |rs|), |rs|)
    && sent == before + Shipments(vol, rs, ts, ShipOrder(ts, |rs|)[..m], disk)
  }

  lemma ShippedIsPrefix(vol: Volume, rs: seq<Resolved>, ts: seq<Task>, sent: seq<RawItem>, before: seq<RawItem>,
                        k: nat, disk: seq<Byte>)
    requires WellFormed(vol, rs, ts) && k <= |ts| && Shipped(vol, rs, ts, sent, before, k, disk)
    ensures SentUpTo(vol, rs, ts, sent, before, |Completed(ts, k)|, disk)
  {
    hide WellFormed, Shipments;
    CompletedPrefix(ts, k, |ts|);
    CompletedIndices(vol, rs, ts, k);
    CompletedIndices(vol, rs, ts, |ts|);
    TasklessIndices(ts, |rs|);
    assert ShipOrder(ts, |rs|)[..|Completed(ts, k)|] == Completed(ts, k);
  }

  lemma {:induction false} TasklessIndices(ts: seq<Task>, n: nat)
    ensures Indices(Taskless(ts, n), n)
  {
    if n > 0 {
      TasklessIndices(ts, n - 1);
    }
  }

  lemma CompletedBound(ts: seq<Task>, k: nat, n: nat)
    requires k < |ts| && |Completed(ts, k + 1)| > |Completed(ts, k)|
    ensures |Completed(ts, k)| < |ShipOrder(ts, n)|
  {
    CompletedPrefix(ts, k + 1, |ts|);
  }

  /** Copies the tasks of one run out of the run buffer. */
  method Scatter(vol: Volume, rs: seq<Resolved>, ts: seq<Task>, slots: seq<Slot>, i: nat, j: nat, runBuf: seq<Byte>,
                 alignedStart: nat, tx: Sender<RawItem>, ghost before: seq<RawItem>, ghost disk: seq<Byte>)
    returns (slots': seq<Slot>, closed: bool)
    requires WellFormed(vol, rs, ts) && Positive(ts) && i <= j <= |ts| && SlotsOk(vol, rs, ts, slots, i, disk)
    requires runBuf == Slice(disk, alignedStart, |runBuf|)
    requires forall k :: i <= k < j ==>
             alignedStart <= ts[k].diskOffset && ts[k].diskOffset + ts[k].length <= alignedStart + |runBuf|
    requires Shipped(vol, rs, ts, tx.sent, before, i, disk)
    modifies tx
    ensures !closed ==> SlotsOk(vol, rs, ts, slots', j, disk) && Shipped(vol, rs, ts, tx.sent, before, j, disk)
    ensures closed ==> |tx.sent| >= tx.room
    ensures closed ==>
              exists m: nat :: SentUpTo(vol, rs, ts, tx.sent, before, m, disk) && m < |ShipOrder(ts, |rs|)|
  {
    hide WellFormed, SlotsOk, Shipped, SentUpTo, Positive;
    slots', closed := slots, false;
    for k := i to j
      invariant SlotsOk(vol, rs, ts, slots', k, disk) && Shipped(vol, rs, ts, tx.sent, before, k, disk)
    {
      var t := ts[k];
      TaskPositive(ts, k);
      var offInRun := t.diskOffset - alignedStart;
      RunSlice(runBuf, disk, alignedStart, |runBuf|, t.diskOffset, t.length);
      ShippedIsPrefix(vol, rs, ts, tx.sent, before, k, disk);
      slots', closed := Apply(vol, rs, ts, slots', k, runBuf[offInRun..offInRun + t.length], tx, before, disk);
      if closed {
        CompletedBound(ts, k, |rs|);
        return;
      }
    }
  }

  lemma TaskPositive(ts: seq<Task>, k: nat)
    requires Positive(ts) && k < |ts|
    ensures ts[k].length > 0
  {
    assert ts[k] in ts;
  }

  /** Reads all runs in disk order. */
  method ReadRuns(reader: AlignedRawReader, vol: Volume, rs: seq<Resolved>, ts: seq<Task>, slots: seq<Slot>,
                  maxRun: nat,
                  tx: Sender<RawItem>, ghost before: seq<RawItem>)
    returns (slots': seq<Slot>, r: Outcome)
    requires reader.Valid() && vol.blockSize > 0 && Addressable(ts, vol.blockSize)
    requires WellFormed(vol, rs, ts) && Positive(ts) && DiskSorted(ts)
    requires SlotsOk(vol, rs, ts, slots, 0, reader.file.data) && tx.sent == before
    modifies reader, reader.file, reader.cache, reader.cache.shards, tx
    ensures reader.Valid()
    ensures r == Done ==> SlotsOk(vol, rs, ts, slots', |ts|, reader.file.data)
                          && Shipped(vol, rs, ts, tx.sent, before, |ts|, reader.file.data)
    ensures r == Closed ==> |tx.sent| >= tx.room
    ensures r != Done ==> exists m: nat :: SentUpTo(vol, rs, ts, tx.sent, before, m, reader.file.data)
                                      && (r == Closed ==> m < |ShipOrder(ts, |rs|)|)
    ensures r == DeviceError ==> !Covered(ts, vol.blockSize, reader.file.data) || Fail in old(reader.file.script)
    ensures r != DeviceError ==> r == Closed || Covered(ts, vol.blockSize, reader.file.data)
    ensures forall x :: x in reader.file.script ==> x in old(reader.file.script)
  {
    hide WellFormed, SlotsOk, Shipped, SentUpTo, Positive, Slice, AlignUp, AlignDown, Covered, Addressable;
    ghost var disk := reader.file.data;
    slots' := slots;
    ShippedNothing(vol, rs, ts, before, disk);
    var i := 0;
    while i < |ts|
      invariant i <= |ts| && reader.Valid() && reader.file.data == disk
      invariant SlotsOk(vol, rs, ts, slots', i, disk) && Shipped(vol, rs, ts, tx.sent, before, i, disk)
      invariant CoveredUpTo(ts, i, vol.blockSize, disk)
      invariant forall x :: x in reader.file.script ==> x in old(reader.file.script)
      decreases |ts| - i
    {
      var runStart := ts[i].diskOffset;
      var j, runEnd := Coalesce(ts, i, maxRun);
      var alignedStart := AlignDown(runStart, vol.blockSize);
      var alignedEnd := AlignUp(runEnd, vol.blockSize);
      RunAddresses(ts, i, j, runEnd, maxRun, vol.blockSize);
      var runBuf := reader.ReadRawAt(alignedStart, alignedEnd - alignedStart);
      if runBuf.None? {
        RunFails(ts, i, j, runEnd, maxRun, vol.blockSize, disk);
        ShippedIsPrefix(vol, rs, ts, tx.sent, before, i, disk);
        return slots', DeviceError;
      }
      TaskPositive(ts, i);
      RunCovered(ts, i, j, runEnd, maxRun, vol.blockSize, disk);
      var closed;
      slots', closed := Scatter(vol, rs, ts, slots', i, j, runBuf.value, alignedStart, tx, before, disk);
      if closed {
        return slots', Closed;
      }
      i := j;
    }
    assert Covered(ts, vol.blockSize, disk) by {
      CoveredAll(ts, vol.blockSize, disk);
    }
    r := Done;
  }

  lemma ShippedNothing(vol: Volume, rs: seq<Resolved>, ts: seq<Task>, before: seq<RawItem>, disk: seq<Byte>)
    requires WellFormed(vol, rs, ts)
    ensures Shipped(vol, rs, ts, before, before, 0, disk)
  {
  }

  ghost predicate CoveredUpTo(ts: seq<Task>, i: nat, blockSize: nat, disk: seq<Byte>)
    requires blockSize > 0
  {
    i <= |ts| && forall k :: 0 <= k < i ==> AlignUp(ts[k].diskOffset + ts[k].length, blockSize) <= |disk|
  }

  lemma CoveredAll(ts: seq<Task>, blockSize: nat, disk: seq<Byte>)
    requires blockSize > 0 && CoveredUpTo(ts, |ts|, blockSize, disk)
    ensures Covered(ts, blockSize, disk)
  {
    hide AlignUp;
  }

  /** A run's aligned range: no overflow, and every task inside. */
  lemma RunAddresses(ts: seq<Task>, i: nat, j: nat, runEnd: nat, maxRun: nat, blockSize: nat)
    requires RunOk(ts, i, j, runEnd, maxRun) && blockSize > 0 && Addressable(ts, blockSize)
    ensures AlignDown(ts[i].diskOffset, blockSize) <= AlignUp(runEnd, blockSize) <= U64_MAX
    ensures forall k :: i <= k < j ==> AlignDown(ts[i].diskOffset, blockSize) <= ts[k].diskOffset
                                       && ts[k].diskOffset + ts[k].length <= AlignUp(runEnd, blockSize)
  {
    hide AlignUp, AlignDown, TotalLength;
    var k :| i <= k < j && ts[k].diskOffset + ts[k].length == runEnd;
    assert ts[k] in ts;
  }

  lemma AlignUpMonotone(a: nat, b: nat, blockSize: nat)
    requires blockSize > 0 && a <= b
    ensures AlignUp(a, blockSize) <= AlignUp(b, blockSize)
  {
    var x, y := a + blockSize - 1, b + blockSize - 1;
    var p, q := x / blockSize, y / blockSize;
    assert x == p * blockSize + x % blockSize && y == q * blockSize + y % blockSize;
    MulStep(q, p, blockSize);
    MulStep(p, q, blockSize);
  }

  lemma RunFails(ts: seq<Task>, i: nat, j: nat, runEnd: nat, maxRun: nat, blockSize: nat, disk: seq<Byte>)
    requires RunOk(ts, i, j, runEnd, maxRun) && blockSize > 0
    ensures var s := AlignDown(ts[i].diskOffset, blockSize);
            s <= AlignUp(runEnd, blockSize) &&
            (|Slice(disk, s, AlignUp(runEnd, blockSize) - s)| < AlignUp(runEnd, blockSize) - s ==>
                !Covered(ts, blockSize, disk))
  {
    hide AlignUp, AlignDown, TotalLength;
    var k :| i <= k < j && ts[k].diskOffset + ts[k].length == runEnd;
    assert ts[k] in ts;
  }

  lemma RunCovered(ts: seq<Task>, i: nat, j: nat, runEnd: nat, maxRun: nat, blockSize: nat, disk: seq<Byte>)
    requires RunOk(ts, i, j, runEnd, maxRun) && blockSize > 0 && CoveredUpTo(ts, i, blockSize, disk) && ts[i].length > 0
    requires var s := AlignDown(ts[i].diskOffset, blockSize);
             s <= AlignUp(runEnd, blockSize)
                 && |Slice(disk, s, AlignUp(runEnd, blockSize) - s)| == AlignUp(runEnd, blockSize) - s
    ensures CoveredUpTo(ts, j, blockSize, disk)
  {
    hide AlignUp, AlignDown, TotalLength;
    forall k | i <= k < j
      ensures AlignUp(ts[k].diskOffset + ts[k].length, blockSize) <= |disk|
    {
      AlignUpMonotone(ts[k].diskOffset + ts[k].length, runEnd, blockSize);
    }
  }

  // ---------------------------------------------------------------- phase 3 and the window

  predicate FromVolume(vol: Volume, rs: seq<Resolved>)
  {
    forall r :: r in rs ==> r.item.path in vol.oids && vol.oids[r.item.path] == r.oid
  }

  /** After the runs, slot `i` was shipped exactly if it had tasks; otherwise it is a point read
      or has nothing to fill. */
  lemma RestCase(vol: Volume, rs: seq<Resolved>, ts: seq<Task>, slots: seq<Slot>, i: nat, disk: seq<Byte>)
    requires WellFormed(vol, rs, ts) && i < |rs| && SlotsOk(vol, rs, ts, slots, |ts|, disk) && FromVolume(vol, rs)
    ensures slots[i].sent == (Owed(ts, i) > 0)
    ensures !slots[i].sent ==>
              && slots[i].remaining == 0 && slots[i].item.path == rs[i].item.path
              && slots[i].item.path in vol.oids
              && Shipment(vol, rs, ts, i, disk) ==
                 RawItem(slots[i].index, slots[i].item,
                         if !slots[i].special then []
                         else if vol.oids[slots[i].item.path] in vol.pointReads then
                             vol.pointReads[vol.oids[slots[i].item.path]] else [])
  {
    assert SlotOk(vol, rs, ts, slots[i], i, |ts|, disk);
    assert ts[|ts|..] == [];
    assert rs[i] in rs;
    assert Stamped(rs[i]).path == rs[i].item.path;
  }

  lemma TasklessStep(vol: Volume, rs: seq<Resolved>, ts: seq<Task>, i: nat, disk: seq<Byte>)
    requires WellFormed(vol, rs, ts) && i < |rs|
    ensures Indices(Completed(ts, |ts|) + Taskless(ts, i), |rs|)
            && Indices(Completed(ts, |ts|) + Taskless(ts, i + 1), |rs|)
    ensures Shipments(vol, rs, ts, Completed(ts, |ts|) + Taskless(ts, i + 1), disk) ==
            Shipments(vol, rs, ts, Completed(ts, |ts|) + Taskless(ts, i), disk) +
            if Owed(ts, i) == 0 then [Shipment(vol, rs, ts, i, disk)] else []
  {
    hide WellFormed, Shipment, Owed, Completed;
    var done := Completed(ts, |ts|);
    CompletedIndices(vol, rs, ts, |ts|);
    TasklessIndices(ts, i);
    TasklessIndices(ts, i + 1);
    if Owed(ts, i) == 0 {
      assert done + Taskless(ts, i + 1) == (done + Taskless(ts, i)) + [i];
      ShipmentsSnoc(vol, rs, ts, done + Taskless(ts, i), i, disk);
    } else {
      assert Taskless(ts, i + 1) == Taskless(ts, i);
    }
  }

  lemma ShipOrderPrefix(ts: seq<Task>, i: nat, n: nat)
    requires i < n
    ensures Completed(ts, |ts|) + Taskless(ts, i) <= ShipOrder(ts, n)
    ensures Owed(ts, i) == 0 ==> |Completed(ts, |ts|) + Taskless(ts, i)| < |ShipOrder(ts, n)|
  {
    hide Owed, Completed;
    TasklessPrefix(ts, i, n);
    TasklessPrefix(ts, i + 1, n);
  }

  lemma {:induction false} TasklessPrefix(ts: seq<Task>, i: nat, n: nat)
    requires i <= n
    ensures Taskless(ts, i) <= Taskless(ts, n)
    decreases n
  {
    if i < n {
      TasklessPrefix(ts, i, n - 1);
    }
  }

  /** Ships what the runs did not: empty files and point reads, in slot order. */
  method ShipRest(vol: Volume, rs: seq<Resolved>, ts: seq<Task>, slots: seq<Slot>, tx: Sender<RawItem>,
                  ghost before: seq<RawItem>, ghost disk: seq<Byte>)
    returns (closed: bool)
    requires WellFormed(vol, rs, ts) && SlotsOk(vol, rs, ts, slots, |ts|, disk) && FromVolume(vol, rs)
    requires Shipped(vol, rs, ts, tx.sent, before, |ts|, disk)
    modifies tx
    ensures !closed ==> SentUpTo(vol, rs, ts, tx.sent, before, |ShipOrder(ts, |rs|)|, disk)
    ensures closed ==> |tx.sent| >= tx.room
    ensures closed ==>
              exists m: nat :: SentUpTo(vol, rs, ts, tx.sent, before, m, disk) && m < |ShipOrder(ts, |rs|)|
  {
    hide WellFormed, SlotOk, Owed, FromVolume, Completed, Taskless, Shipments, Shipment;
    closed := false;
    SentStart(vol, rs, ts, tx.sent, before, disk);
    for i := 0 to |slots|
      invariant Indices(Completed(ts, |ts|) + Taskless(ts, i), |rs|)
      invariant tx.sent == before + Shipments(vol, rs, ts, Completed(ts, |ts|) + Taskless(ts, i), disk)
    {
      RestCase(vol, rs, ts, slots, i, disk);
      TasklessStep(vol, rs, ts, i, disk);
      var slot := slots[i];
      if slot.sent {
        continue;
      }
      var ok := true;
      if !slot.special && slot.remaining == 0 {
        ok := tx.Send(RawItem(slot.index, slot.item, []));
      } else if slot.special && slot.item.path in vol.oids {
        var oid := vol.oids[slot.item.path];
        ok := tx.Send(RawItem(slot.index, slot.item, if oid in vol.pointReads then vol.pointReads[oid] else []));
      }
      if !ok {
        AllIndices(vol, rs, ts);
        ShipOrderPrefix(ts, i, |rs|);
        ghost var order := Completed(ts, |ts|) + Taskless(ts, i);
        assert ShipOrder(ts, |rs|)[..|order|] == order;
        assert SentUpTo(vol, rs, ts, tx.sent, before, |order|, disk);
        return true;
      }
    }
    AllIndices(vol, rs, ts);
    assert ShipOrder(ts, |rs|)[..|ShipOrder(ts, |rs|)|] == ShipOrder(ts, |rs|);
  }

  lemma AllIndices(vol: Volume, rs: seq<Resolved>, ts: seq<Task>)
    requires WellFormed(vol, rs, ts)
    ensures Indices(ShipOrder(ts, |rs|), |rs|)
  {
    hide WellFormed;
    CompletedIndices(vol, rs, ts, |ts|);
    TasklessIndices(ts, |rs|);
  }

  lemma SentStart(vol: Volume, rs: seq<Resolved>, ts: seq<Task>, sent: seq<RawItem>, before: seq<RawItem>,
                  disk: seq<Byte>)
    requires WellFormed(vol, rs, ts) && Shipped(vol, rs, ts, sent, before, |ts|, disk)
    ensures Indices(Completed(ts, |ts|) + Taskless(ts, 0), |rs|)
    ensures sent == before + Shipments(vol, rs, ts, Completed(ts, |ts|) + Taskless(ts, 0), disk)
  {
    CompletedIndices(vol, rs, ts, |ts|);
    assert Completed(ts, |ts|) + [] == Completed(ts, |ts|);
  }

  lemma {:induction false} ResolvedFromVolume(vol: Volume, window: seq<Job>)
    ensures FromVolume(vol, ResolveAll(vol, window))
    decreases |window|
  {
    if window != [] {
      ResolvedFromVolume(vol, window[..|window| - 1]);
    }
  }

  lemma {:induction false} OwedSorted(ts: seq<Task>, i: nat)
    ensures Owed(InDiskOrder(ts), i) == Owed(ts, i)
    decreases |ts|
  {
    if ts != [] {
      OwedSorted(ts[1..], i);
      OwedInsert(ts[0], InDiskOrder(ts[1..]), i);
    }
  }

  lemma {:induction false} OwedInsert(t: Task, ts: seq<Task>, i: nat)
    ensures Owed(Insert(t, ts, ByOffset()), i) == (if t.slotIdx == i then t.length else 0) + Owed(ts, i)
    decreases |ts|
  {
    var r := Insert(t, ts, ByOffset());
    if ts == [] || ByOffset()(t, ts[0]) {
      assert r[1..] == ts;
    } else {
      OwedInsert(t, ts[1..], i);
      assert r[1..] == Insert(t, ts[1..], ByOffset());
    }
  }

  /** Sorting keeps the tasks, their bookkeeping, and each file's set of tasks. */
  lemma SortedTasks(vol: Volume, rs: seq<Resolved>)
    ensures var ts := InDiskOrder(AllTasks(vol, rs));
            && WellFormed(vol, rs, ts) && Positive(ts) && DiskSorted(ts)
            && multiset(ts) == multiset(AllTasks(vol, rs))
            && forall i :: 0 <= i < |rs| ==> Owed(ts, i) == Owed(AllTasks(vol, rs), i)
  {
    var all := AllTasks(vol, rs);
    var ts := InDiskOrder(all);
    AllTasksOk(vol, rs);
    KeyOrder((t: Task) => t.diskOffset);
    SortLaws(all, ByOffset());
    assert forall t :: t in ts <==> t in multiset(ts);
    assert forall t :: t in all <==> t in multiset(all);
    assert DiskSorted(ts) by {
      forall i, j | 0 <= i < j < |ts|
        ensures ts[i].diskOffset <= ts[j].diskOffset
      {
        assert ByOffset()(ts[i], ts[j]);
      }
    }
    forall i | 0 <= i < |rs|
      ensures Owed(ts, i) == Owed(all, i)
    {
      OwedSorted(all, i);
    }
  }

  /** Fresh slots are the slots before any task. */
  lemma FreshOk(vol: Volume, rs: seq<Resolved>, all: seq<Task>, ts: seq<Task>, slots: seq<Slot>, disk: seq<Byte>)
    requires WellFormed(vol, rs, ts) && |slots| == |rs| && AllFresh(vol, rs, slots, all)
    requires forall i :: 0 <= i < |rs| ==> Owed(ts, i) == Owed(all, i)
    ensures SlotsOk(vol, rs, ts, slots, 0, disk)
  {
    hide Owed, Stamped;
    assert ts[0..] == ts && ts[..0] == [];
  }

  /** The tasks of a window, in the order they are served. */
  function WindowTasks(vol: Volume, window: seq<Job>): seq<Task>
  {
    InDiskOrder(AllTasks(vol, ResolveAll(vol, window)))
  }

  /** Everything that one window ships, in order, on a device that holds it. */
  function WindowOutput(vol: Volume, window: seq<Job>, disk: seq<Byte>): seq<RawItem>
  {
    var rs := ResolveAll(vol, window);
    SortedTasks(vol, rs);
    AllIndices(vol, rs, WindowTasks(vol, window));
    Shipments(vol, rs, WindowTasks(vol, window), ShipOrder(WindowTasks(vol, window), |rs|), disk)
  }

  /** One window. `Done` means that its whole output went out, in order; `Closed` and
      `DeviceError` that a prefix did. The device fails a window exactly when it is too short
      for some task or reports an error itself. */
  method BulkReadWindow(reader: AlignedRawReader, vol: Volume, window: seq<Job>, maxRun: nat, tx: Sender<RawItem>)
    returns (r: Outcome)
    requires reader.Valid() && vol.blockSize > 0 && Addressable(WindowTasks(vol, window), vol.blockSize)
    modifies reader, reader.file, reader.cache, reader.cache.shards, tx
    ensures reader.Valid()
    ensures r == Done ==> tx.sent == old(tx.sent) + WindowOutput(vol, window, reader.file.data)
                          && Covered(WindowTasks(vol, window), vol.blockSize, reader.file.data)
    ensures r != Done ==> (exists m: nat ::
              && m <= |WindowOutput(vol, window, reader.file.data)|
              && tx.sent == old(tx.sent) + WindowOutput(vol, window, reader.file.data)[..m]
              && (r == Closed ==> m < |WindowOutput(vol, window, reader.file.data)|))
    ensures r == Closed ==> |tx.sent| >= tx.room
    ensures r == DeviceError ==>
              !Covered(WindowTasks(vol, window), vol.blockSize, reader.file.data) || Fail in old(reader.file.script)
    ensures forall x :: x in reader.file.script ==> x in old(reader.file.script)
  {
    hide WellFormed, SlotsOk, Shipped, SentUpTo, Positive, Covered, Addressable, ShipOrder, Shipments, AllFresh,
        AllTasks, InDiskOrder;
    ghost var before := tx.sent;
    var rs := ResolveWindow(vol, window);
    ResolvedFromVolume(vol, window);
    var slots, tasks := BuildSlots(vol, rs);
    SortedTasks(vol, rs);
    var ts := InDiskOrder(tasks);
    FreshOk(vol, rs, tasks, ts, slots, reader.file.data);
    slots, r := ReadRuns(reader, vol, rs, ts, slots, maxRun, tx, before);
    if r == Done {
      var closed := ShipRest(vol, rs, ts, slots, tx, before, reader.file.data);
      if closed {
        r := Closed;
      }
    }
    OutputPrefix(vol, window, tx.sent, before, reader.file.data);
  }

  /** A sent prefix of the ship order is a prefix of the window's output. */
  lemma OutputPrefix(vol: Volume, window: seq<Job>, sent: seq<RawItem>, before: seq<RawItem>, disk: seq<Byte>)
    requires WellFormed(vol, ResolveAll(vol, window), WindowTasks(vol, window))
    ensures var rs, ts := ResolveAll(vol, window), WindowTasks(vol, window);
            && |WindowOutput(vol, window, disk)| == |ShipOrder(ts, |rs|)|
            && (SentUpTo(vol, rs, ts, sent, before, |ShipOrder(ts, |rs|)|, disk) ==>
               sent == before + WindowOutput(vol, window, disk))
            && forall m: nat :: SentUpTo(vol, rs, ts, sent, before, m, disk) ==>
                 m <= |WindowOutput(vol, window, disk)| && sent == before + WindowOutput(vol, window, disk)[..m]
  {
    hide WellFormed, InDiskOrder, ResolveAll, AllTasks, ShipOrder;
    var rs, ts := ResolveAll(vol, window), WindowTasks(vol, window);
    SortedTasks(vol, rs);
    AllIndices(vol, rs, ts);
    var order := ShipOrder(ts, |rs|);
    forall m: nat | SentUpTo(vol, rs, ts, sent, before, m, disk)
      ensures m <= |order| && sent == before + WindowOutput(vol, window, disk)[..m]
    {
      ShipmentsPrefix(vol, rs, ts, order, m, disk);
    }
    assert order[..|order|] == order;
  }

  lemma {:induction false} ShipmentsPrefix(vol: Volume, rs: seq<Resolved>, ts: seq<Task>, order: seq<nat>, m: nat,
                                           disk: seq<Byte>)
    requires WellFormed(vol, rs, ts) && Indices(order, |rs|) && m <= |order|
    ensures Shipments(vol, rs, ts, order[..m], disk) == Shipments(vol, rs, ts, order, disk)[..m]
    decreases |order|
  {
    hide WellFormed, Shipment;
    if m == |order| {
      assert order[..m] == order;
    } else {
      ShipmentsPrefix(vol, rs, ts, order[..|order| - 1], m, disk);
      assert order[..|order| - 1][..m] == order[..m];
    }
  }
}
