/** From successful runs to archives: what is written does not depend on the schedule, and it
    reads back as the items that were fed. */
module PipelineArchive {
  import opened Bytes
  import opened Items
  import opened Sequences
  import opened ZipWriter
  import opened ZipRoundTrip
  import R = ZipReader
  import opened Reorder
  import opened Pipeline
  import opened PipelineRuns
  import opened PipelineHangs
  import L = LinuxExtents
  import WalkOrder

  /** The archive of a successful run; a run that ends with an error leaves no finished archive. */
  function Output(sort: bool, c: Config, es: seq<Event>): seq<Byte>
    requires Succeeds(c, es)
  {
    Archive(if sort then ArriveAll(Final(c, es).arrived).written else Final(c, es).arrived)
  }

  // ---------------------------------------------------------------- missing threads

  /** No worker, or no reader and so nothing to encode. */
  ghost predicate NoOutput(s: State)
  {
    && s.encQ == [] && s.arrived == []
    && (forall w :: 0 <= w < |s.workers| ==> s.workers[w].Free? || s.workers[w].NoWorker?)
    && (s.workers == [] || (s.readers == [] && s.rawQ == []))
  }

  lemma KeepsNoOutput(c: Config, s: State, e: Event)
    requires NoOutput(s) && Enabled(c, s, e)
    ensures NoOutput(Apply(c, s, e))
  {
    hide ReadBound, WalkBound, EncBound, Splitter.Chunks, Without, Fetch, Encode;
  }

  /** Without a worker, or without a reader, nothing ever arrives. */
  lemma {:induction false} Unstaffed(c: Config, es: seq<Event>)
    requires Legal(c, Init(c), es) && !Staffed(c)
    ensures NoOutput(Final(c, es))
    decreases |es|
  {
    hide Apply, Enabled;
    if es != [] {
      Unstaffed(c, es[..|es| - 1]);
      hide NoOutput, Init;
      KeepsNoOutput(c, Final(c, es[..|es| - 1]), es[|es| - 1]);
    }
  }

  /** Without a worker, or without a reader: a run that comes to its end without a failed thread is
      a success with an empty archive, and so is every success; and some run without faults hangs
      instead, exactly if the walker can be left behind. */
  lemma UnstaffedOutcome(c: Config)
    requires !Staffed(c)
    ensures forall sort, es :: Succeeds(c, es) ==> Output(sort, c, es) == Archive([])
    ensures forall es :: Complete(c, es) && NoFault(es) ==> Succeeds(c, es)
    ensures (exists es :: Hangs(c, es) && NoFault(es)) <==> WalkCanBlock(c)
  {
    hide Archive, Init, Finished, Successful, Legal, After, Hangs, WalkCanBlock, Staffed;
    FaultFreeHangsExactly(c);
    forall sort, es | Succeeds(c, es)
      ensures Output(sort, c, es) == Archive([])
    {
      Unstaffed(c, es);
    }
    forall es | Complete(c, es) && NoFault(es)
      ensures Succeeds(c, es)
    {
      SuccessExactly(c, es);
    }
  }

  /** In a successful run without dropped items, exactly the items fed are written, if
      and only if there is nothing to feed or there are a reader and a worker. */
  lemma EverythingArrives(c: Config, es: seq<Event>)
    requires Succeeds(c, es) && Final(c, es).lost == []
    ensures multiset(Final(c, es).arrived) == multiset(Everything(c)) <==> c.items == [] || Staffed(c)
  {
    hide Init, Map, Apply, Enabled, Successful;
    var s := Final(c, es);
    if Staffed(c) {
      Conservation(c, es);
      assert Map(EntryOf(c), []) == [] by {
        MapNothing(EntryOf(c));
      }
    } else {
      Unstaffed(c, es);
      assert s.arrived == [];
      assert |multiset(Everything(c))| == |Everything(c)| == |c.items|;
    }
  }

  // ---------------------------------------------------------------- the sorted archive

  /** One entry for each item: the encoding of what is read for it, under its place in the walk. */
  lemma EverythingIndexed(c: Config)
    ensures |Everything(c)| == |c.items|
    ensures forall i :: 0 <= i < |c.items| ==>
              Everything(c)[i] == c.encode(c.read(c.items[i]).(index := i)).(index := i)
  {
    hide Map;
    MapAt(EntryOf(c), Fed(c));
  }

  /** Part of a sequence with distinct indices has distinct indices. */
  lemma PartDistinct(part: seq<EncodedEntry>, rest: seq<EncodedEntry>, all: seq<EncodedEntry>)
    requires multiset(part) + multiset(rest) == multiset(all) && forall i :: 0 <= i < |all| ==> all[i].index == i
    ensures Distinct(part)
    ensures forall e :: e in part <==> e in all && e !in rest
    ensures forall e :: e in rest ==> e in all
  {
    IndexInjective(all);
    forall e
      ensures multiset(part)[e] + multiset(rest)[e] == if e in all then 1 else 0
    {
      assert (multiset(part) + multiset(rest))[e] == multiset(all)[e];
    }
    assert forall e :: e in part <==> multiset(part)[e] > 0;
    assert forall e :: e in rest <==> multiset(rest)[e] > 0;
    forall i, j | 0 <= i < j < |part|
      ensures part[i].index != part[j].index
    {
      if part[i] == part[j] {
        Twice(part, i, j);
      }
      assert part[i] in all && part[j] in all;
    }
  }

  lemma Twice<A>(s: seq<A>, i: nat, j: nat)
    requires i < j < |s| && s[i] == s[j]
    ensures multiset(s)[s[i]] >= 2
  {
    assert s == s[..j] + s[j..];
    assert s[i] in multiset(s[..j]) && s[j] in multiset(s[j..]) by {
      assert s[..j][i] == s[i] && s[j..][0] == s[j];
    }
  }

  /** Number of items, out of `n`, before the first dropped one. */
  function FirstLost(lost: seq<Job>, n: nat): (k: nat)
  {
    if lost == [] then n else Min(FirstLost(lost[..|lost| - 1], n), lost[|lost| - 1].index)
  }

  lemma {:induction false} FirstLostLeast(lost: seq<Job>, n: nat)
    ensures FirstLost(lost, n) <= n && forall j :: j in lost ==> j.index >= FirstLost(lost, n)
    ensures FirstLost(lost, n) < n ==> exists j :: j in lost && j.index == FirstLost(lost, n)
    decreases |lost|
  {
    if lost != [] {
      var m := |lost| - 1;
      FirstLostLeast(lost[..m], n);
      assert lost[m] in lost;
      assert lost == lost[..m] + [lost[m]];
    }
  }

  lemma LostEntries(c: Config, lost: seq<Job>)
    ensures forall j :: j in lost ==> exists e :: e in Map(EntryOf(c), lost) && e.index == j.index
    ensures forall e :: e in Map(EntryOf(c), lost) ==> exists j :: j in lost && j.index == e.index
  {
    hide Map;
    MapAt(EntryOf(c), lost);
    forall j | j in lost
      ensures exists e :: e in Map(EntryOf(c), lost) && e.index == j.index
    {
      var i :| 0 <= i < |lost| && lost[i] == j;
      assert Map(EntryOf(c), lost)[i] in Map(EntryOf(c), lost);
    }
    forall e | e in Map(EntryOf(c), lost)
      ensures exists j :: j in lost && j.index == e.index
    {
      var i :| 0 <= i < |lost| && Map(EntryOf(c), lost)[i] == e;
      assert lost[i] in lost;
    }
  }

  /** When sorting, a successful run writes the items in walk order, up to and
      excluding the first dropped one, for every interleaving. In particular everything is
      written when nothing was dropped, and a single dropped item silently cuts the archive. */
  lemma SortedRun(c: Config, es: seq<Event>)
    requires Succeeds(c, es) && Staffed(c)
    ensures var s := Final(c, es);
            FirstLost(s.lost, |c.items|) <= |c.items| == |Everything(c)|
            && ArriveAll(s.arrived).written == Everything(c)[..FirstLost(s.lost, |c.items|)]
  {
    var s := Final(c, es);
    Conservation(c, es);
    hide *;
    FirstLostLeast(s.lost, |c.items|);
    EverythingIndexed(c);
    WrittenPrefix(c, s.arrived, s.lost);
  }

  /** Which entries arrived, by index. */
  lemma WrittenPrefix(c: Config, arrived: seq<EncodedEntry>, lost: seq<Job>)
    requires multiset(arrived) + multiset(Map(EntryOf(c), lost)) == multiset(Everything(c))
    ensures FirstLost(lost, |c.items|) <= |c.items| == |Everything(c)|
    ensures ArriveAll(arrived).written == Everything(c)[..FirstLost(lost, |c.items|)]
  {
    EverythingIndexed(c);
    LostEntries(c, lost);
    hide *;
    IndexedPrefix(Everything(c), arrived, Map(EntryOf(c), lost), lost);
  }

  lemma IndexedPrefix(all: seq<EncodedEntry>, arrived: seq<EncodedEntry>, gone: seq<EncodedEntry>, lost: seq<Job>)
    requires multiset(arrived) + multiset(gone) == multiset(all)
    requires forall i :: 0 <= i < |all| ==> all[i].index == i
    requires forall j :: j in lost ==> exists e :: e in gone && e.index == j.index
    requires forall e :: e in gone ==> exists j :: j in lost && j.index == e.index
    ensures FirstLost(lost, |all|) <= |all| && ArriveAll(arrived).written == all[..FirstLost(lost, |all|)]
  {
    hide *;
    PartDistinct(arrived, gone, all);
    ArrivedIndices(all, arrived, gone, lost);
    FirstLostLeast(lost, |all|);
    GapFacts(arrived);
    CutAtGap(all, arrived, lost, ArriveAll(arrived), FirstLost(lost, |all|));
  }

  lemma GapFacts(es: seq<EncodedEntry>)
    requires Distinct(es)
    ensures var b := ArriveAll(es);
            && |b.written| == b.next && (forall e :: e in es ==> e.index != b.next)
            && (forall i :: 0 <= i < b.next ==> b.written[i] in es && b.written[i].index == i)
  {
    hide *;
    FirstGap(es);
  }

  /** An item's entry arrived if and only if no item with its index was dropped. */
  lemma ArrivedIndices(all: seq<EncodedEntry>, arrived: seq<EncodedEntry>, gone: seq<EncodedEntry>, lost: seq<Job>)
    requires forall i :: 0 <= i < |all| ==> all[i].index == i
    requires forall e :: e in arrived <==> e in all && e !in gone
    requires forall e :: e in gone ==> e in all
    requires forall j :: j in lost ==> exists e :: e in gone && e.index == j.index
    requires forall e :: e in gone ==> exists j :: j in lost && j.index == e.index
    ensures forall i :: 0 <= i < |all| ==> (all[i] in arrived <==> forall j :: j in lost ==> j.index != i)
  {
    forall i | 0 <= i < |all|
      ensures all[i] in arrived <==> forall j :: j in lost ==> j.index != i
    {
      if j :| j in lost && j.index == i {
        var e :| e in gone && e.index == i;
        assert all[i] == e;
      }
    }
  }

  lemma CutAtGap(all: seq<EncodedEntry>, arrived: seq<EncodedEntry>, lost: seq<Job>, b: Buffer, k: nat)
    requires forall i :: 0 <= i < |all| ==> all[i].index == i
    requires forall e :: e in arrived ==> e in all
    requires forall i :: 0 <= i < |all| ==> (all[i] in arrived <==> forall j :: j in lost ==> j.index != i)
    requires k <= |all| && (forall j :: j in lost ==> j.index >= k)
             && (k < |all| ==> exists j :: j in lost && j.index == k)
    requires |b.written| == b.next && (forall e :: e in arrived ==> e.index != b.next)
    requires forall i :: 0 <= i < b.next ==> b.written[i] in arrived && b.written[i].index == i
    ensures b.written == all[..k]
  {
    forall i | 0 <= i < b.next
      ensures i < |all| && b.written[i] == all[i] && i != k
    {
      assert b.written[i] in all;
    }
    assert forall i :: 0 <= i < k ==> all[i] in arrived;
    if b.next < k {
      AtIndex(all, b.next);
    } else if k < b.next {
      AtIndex(b.written, k);
    }
  }

  lemma AtIndex(w: seq<EncodedEntry>, k: nat)
    requires k < |w|
    ensures w[k] in w
  {
  }

  /** Without dropped items, every successful sorted run writes the same archive. */
  lemma SortedOutput(c: Config, es: seq<Event>)
    requires Succeeds(c, es) && Staffed(c) && Final(c, es).lost == []
    ensures Output(true, c, es) == Archive(Everything(c))
  {
    SortedRun(c, es);
    hide Archive, ArriveAll, Everything, Init, Successful;
    assert Everything(c)[..|c.items|] == Everything(c);
  }

  /** Two configurations that feed the same items and read and encode them alike. */
  ghost predicate SameWork(c: Config, d: Config)
  {
    c.items == d.items && c.encode == d.encode && forall i :: 0 <= i < |c.items| ==>
        c.read(c.items[i]) == d.read(d.items[i])
  }

  /** Sorted archives are byte-identical for any schedules, any numbers of readers and workers,
      and whether or not the readers reorder their work. */
  lemma SortedRunsAgree(c: Config, es: seq<Event>, d: Config, fs: seq<Event>)
    requires Succeeds(c, es) && Staffed(c) && Final(c, es).lost == []
    requires Succeeds(d, fs) && Staffed(d) && Final(d, fs).lost == []
    requires SameWork(c, d)
    ensures Output(true, c, es) == Output(true, d, fs)
  {
    SortedOutput(c, es);
    SortedOutput(d, fs);
    SameEntries(c, d);
    hide Archive, Output, Succeeds, Final, Legal, Init;
  }

  /** The same files found in any two orders give the same sorted archive, if no two different
      files share an archive name. */
  lemma AnyWalkAnySchedule(found: seq<WorkItem>, found': seq<WorkItem>, c: Config, es: seq<Event>, d: Config,
                           fs: seq<Event>)
    requires multiset(found) == multiset(found') && WalkOrder.NamesIdentify(found)
    requires c.items == WalkOrder.SortByName(found) && d.items == WalkOrder.SortByName(found')
    requires c.encode == d.encode && forall w :: c.read(w) == d.read(w)
    requires Succeeds(c, es) && Staffed(c) && Final(c, es).lost == []
    requires Succeeds(d, fs) && Staffed(d) && Final(d, fs).lost == []
    ensures Output(true, c, es) == Output(true, d, fs)
  {
    hide WalkOrder.SortByName, WalkOrder.NamesIdentify, Output, Succeeds, Final, Legal, Init, Staffed;
    WalkOrder.WalkOrderIsFixed(found);
    SortedRunsAgree(c, es, d, fs);
  }

  lemma SameEntries(c: Config, d: Config)
    requires SameWork(c, d)
    ensures Everything(c) == Everything(d)
  {
    hide Map;
    MapAt(EntryOf(c), Fed(c));
    MapAt(EntryOf(d), Fed(d));
  }

  /** A sorted run's archive reads back as the items in walk order, if and only if their names
      fit. */
  lemma SortedRoundTrip(c: Config, es: seq<Event>)
    requires Succeeds(c, es) && Staffed(c) && Final(c, es).lost == []
    ensures |Output(true, c, es)| <= U64_MAX ==>
              (R.Parse(Output(true, c, es)) == Some(Views(Everything(c)))
               <==> forall i :: 0 <= i < |Everything(c)| ==> NameFits(Everything(c)[i]))
  {
    SortedOutput(c, es);
    hide Archive, Everything, Output, R.Parse, Views, NameFits, Succeeds, Final, Legal, Init;
    ParseArchive(Everything(c));
  }

  /** An unsorted run's archive reads back as the same items in some order. */
  lemma UnsortedRoundTrip(c: Config, es: seq<Event>)
    requires Succeeds(c, es) && Staffed(c) && Final(c, es).lost == []
    ensures multiset(Final(c, es).arrived) == multiset(Everything(c))
    ensures |Output(false, c, es)| <= U64_MAX ==>
              (R.Parse(Output(false, c, es)) == Some(Views(Final(c, es).arrived))
               <==> forall i :: 0 <= i < |Final(c, es).arrived| ==> NameFits(Final(c, es).arrived[i]))
  {
    EverythingArrives(c, es);
    hide Archive, Everything, R.Parse, Views, NameFits, Init, Successful;
    ParseArchive(Final(c, es).arrived);
  }

  /** Reading with default reads and reading through io_uring give the same sorted archive,
      provided that no file has grown since the walk. */
  lemma DefaultAndRingAgree(fs: L.FileSystem, c: Config, es: seq<Event>, d: Config, ds: seq<Event>)
    requires Succeeds(c, es) && Staffed(c) && Final(c, es).lost == []
    requires Succeeds(d, ds) && Staffed(d) && Final(d, ds).lost == []
    requires c.items == d.items && c.encode == d.encode
    requires forall w :: c.read(w) == RawItem(0, w, L.Got(fs, w)) && d.read(w) == RawItem(0, w, L.Ringed(fs, w))
    requires L.Readable(fs, Fed(c)) && L.NoneGrew(fs, Fed(c))
    ensures Output(true, c, es) == Output(true, d, ds)
  {
    hide Output, Succeeds, Final, Legal, Init, Staffed;
    forall i | 0 <= i < |c.items|
      ensures c.read(c.items[i]) == d.read(d.items[i])
    {
      assert Fed(c)[i].item == c.items[i];
      L.RingOne(fs, c.items[i]);
    }
    SortedRunsAgree(c, es, d, ds);
  }
}
