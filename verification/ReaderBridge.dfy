/** The concrete bulk readers are readers of the pipeline: what each sends for a chunk is, up
    to order, the fetched items of the chunk, except those it drops. */
module ReaderBridge {
  import opened Bytes
  import opened Items
  import opened Sequences
  import opened BulkPlan
  import opened BulkMeaning
  import L = LinuxExtents
  import P = Pipeline
  import O = OidCache
  import W = WalkDir
  import U = UringBatch
  import A = AlignedReader
  import B = BulkReader

  /** What the pipeline says a reader sends for one job. */
  function FetchBy(c: P.Config): Job -> RawItem { (j: Job) => P.Fetch(c, j) }

  /** The jobs that resolve on the volume, in order; the others are dropped. */
  function Found(vol: Volume, items: seq<Job>): seq<Job>
  {
    if items == [] then []
    else
      Found(vol, items[..|items| - 1])
      + if Resolve(vol, items[|items| - 1]).Some? then [items[|items| - 1]] else []
  }

  /** The configuration reads what the files of the volume mean. */
  ghost predicate ReadsVolume(c: P.Config, vol: Volume, disk: seq<Byte>)
  {
    forall w, i :: Resolve(vol, Job(i, w)).Some? ==>
        c.read(w).(index := i) == Reference(vol, Resolve(vol, Job(i, w)).value, disk)
  }

  lemma {:induction false} ReferenceFetches(c: P.Config, vol: Volume, items: seq<Job>, disk: seq<Byte>)
    requires ReadsVolume(c, vol, disk)
    ensures ReferenceAll(vol, ResolveAll(vol, items), disk) == Map(FetchBy(c), Found(vol, items))
    decreases |items|
  {
    hide Reference, Resolve;
    if items != [] {
      var n := |items| - 1;
      ReferenceFetches(c, vol, items[..n], disk);
      var j := items[n];
      assert Resolve(vol, Job(j.index, j.item)) == Resolve(vol, j);
      MapAppend(FetchBy(c), Found(vol, items[..n]), j);
      if Resolve(vol, j).Some? {
        var rs, r := ResolveAll(vol, items[..n]), Resolve(vol, j).value;
        assert (rs + [r])[..|rs|] == rs;
        assert FetchBy(c)(j) == Reference(vol, r, disk);
      } else {
        assert ResolveAll(vol, items) == ResolveAll(vol, items[..n]) && Found(vol, items) == Found(vol, items[..n]);
      }
    }
  }

  /** The raw volume's bulk reader sends the fetch of every item that resolves, once. */
  lemma BulkReaderFetches(c: P.Config, vol: Volume, items: seq<Job>, disk: seq<Byte>)
    requires ReadsVolume(c, vol, disk) && forall r :: r in ResolveAll(vol, items) ==> Regular(vol, r)
    ensures multiset(AllOutput(vol, items, disk)) == multiset(Map(FetchBy(c), Found(vol, items)))
  {
    BulkRefinesReference(vol, items, disk);
    ReferenceFetches(c, vol, items, disk);
  }

  /** Linux bulk reading, through the ring or blocking: on success the fetch of every item has
      been sent once, and otherwise none more than once. */
  method LinuxReadBulk(c: P.Config, fs: L.FileSystem, uring: bool, items: seq<Job>, tx: Sender<RawItem>,
                       kernel: U.Kernel)
    returns (r: L.Outcome, ghost out: seq<RawItem>)
    requires !kernel.erred && kernel.flying == map[]
    requires forall w :: c.read(w) == RawItem(0, w, if uring then L.Ringed(fs, w) else L.Got(fs, w))
    modifies tx, kernel
    ensures tx.sent == old(tx.sent) + out && multiset(out) <= multiset(Map(FetchBy(c), items))
    ensures r == L.Done ==> multiset(out) == multiset(Map(FetchBy(c), items))
    ensures r == L.Closed ==> |tx.sent| >= tx.room
  {
    hide Map, L.Sweep, L.Ringed, L.Got, L.Direct, L.Readable;
    if uring {
      RingFetches(c, fs, items);
      r, out := L.RingAll(fs, items, tx, kernel);
    } else {
      ghost var m;
      r, m := L.BlockingAll(fs, items, tx);
      out := Map(L.ReadBy(fs), L.Sweep(fs, items)[..m]);
      BlockingFetches(c, fs, items, m);
    }
  }

  lemma RingFetches(c: P.Config, fs: L.FileSystem, items: seq<Job>)
    requires forall w :: c.read(w) == RawItem(0, w, L.Ringed(fs, w))
    ensures Map(L.RingBy(fs), items) == Map(FetchBy(c), items)
  {
    hide L.Ringed;
    MapAt(L.RingBy(fs), items);
    MapAt(FetchBy(c), items);
  }

  lemma BlockingFetches(c: P.Config, fs: L.FileSystem, items: seq<Job>, m: nat)
    requires forall w :: c.read(w) == RawItem(0, w, L.Got(fs, w))
    requires m <= |items| == |L.Sweep(fs, items)|
    ensures multiset(Map(L.ReadBy(fs), L.Sweep(fs, items)[..m])) <= multiset(Map(FetchBy(c), items))
    ensures m == |items| ==> multiset(Map(L.ReadBy(fs), L.Sweep(fs, items)[..m])) == multiset(Map(FetchBy(c), items))
  {
    hide L.Sweep, L.Got;
    var sweep := L.Sweep(fs, items);
    L.SweepRefinesWalk(fs, items);
    MapAt(L.ReadBy(fs), items);
    MapAt(FetchBy(c), items);
    hide Map;
    assert Map(L.ReadBy(fs), items) == Map(FetchBy(c), items);
    assert sweep == sweep[..m] + sweep[m..];
    MapConcat(L.ReadBy(fs), sweep[..m], sweep[m..]);
    assert m == |items| ==> sweep[..m] == sweep;
  }

  /** Raw bulk reading: on success the fetch of every item that resolves has been sent once. */
  method RawReadBulk(c: P.Config, reader: A.AlignedRawReader, vol: Volume, items: seq<Job>, tx: Sender<RawItem>)
    returns (r: B.Outcome)
    requires reader.Valid() && vol.blockSize > 0 && Addressed(vol, items)
    requires ReadsVolume(c, vol, reader.file.data) && forall x :: x in ResolveAll(vol, items) ==> Regular(vol, x)
    modifies reader, reader.file, reader.cache, reader.cache.shards, tx
    ensures |old(tx.sent)| <= |tx.sent| && tx.sent[..|old(tx.sent)|] == old(tx.sent)
    ensures multiset(tx.sent[|old(tx.sent)|..]) <= multiset(Map(FetchBy(c), Found(vol, items)))
    ensures r == B.Done ==> multiset(tx.sent[|old(tx.sent)|..]) == multiset(Map(FetchBy(c), Found(vol, items)))
    ensures r == B.Closed ==> |tx.sent| >= tx.room
  {
    hide AllOutput, Map, Addressed, AllCovered, ReadsVolume, Regular, A.AlignedRawReader.Valid;
    ghost var all := AllOutput(vol, items, reader.file.data);
    ghost var before := tx.sent;
    BulkReaderFetches(c, vol, items, reader.file.data);
    r := BulkReadAll(reader, vol, items, tx);
    ghost var m: nat :| m <= |all| && tx.sent == before + all[..m] && (r == B.Done ==> m == |all|) by {
      assert all[..|all|] == all;
    }
    assert all == all[..m] + all[m..];
    assert tx.sent[|before|..] == all[..m];
  }

  // ---------------------------------------------------------------- from the walk to the readers

  /** The path lookups of the bulk reader know every object of the directory tree below the mount
      point. */
  ghost predicate Answers(vol: Volume, tree: O.Tree, mount: seq<Byte>)
  {
    forall cs :: W.GoodNames(cs) && O.Lookup(tree, cs).Some? ==>
      W.UnderMount(mount, cs) in vol.oids && vol.oids[W.UnderMount(mount, cs)] == O.Lookup(tree, cs).value
  }

  /** What the walk sends, the bulk reader finds: the item resolves to the file of its name, unless
      the file has no inode. */
  lemma SentItemsAreRead(vol: Volume, tree: O.Tree, oid: nat, mount: seq<Byte>, base: seq<O.Name>, prefix: seq<Byte>,
                         exclude: seq<seq<Byte>>, x: WorkItem, i: nat)
    returns (cs: seq<O.Name>)
    requires O.WellFormed(tree) && W.GoodMount(mount) && W.GoodNames(base) && O.Lookup(tree, base) == Some(oid)
    requires x in W.WalkOut(tree, oid, W.UnderMount(mount, base), prefix, exclude) && Answers(vol, tree, mount)
    ensures W.Wanted(tree, oid, prefix, exclude, cs) && x.name == W.FullName(prefix, cs)
    ensures var file := W.FileOid(tree, oid, cs);
            Resolve(vol, Job(i, x)) == if file in vol.inodes then Some(Resolved(i, x, file, vol.inodes[file])) else None
  {
    hide W.WalkOut, W.Wanted, W.FullName, W.FileOid, O.Normal, O.Resolve, O.Lookup, W.RelStr, W.UnderMount, W.GoodNames;
    cs := W.SentItemsResolve(tree, oid, mount, base, prefix, exclude, x);
  }

  /** A volume at "/" with one file "f", and the lookups that know it. */
  lemma AnswersWitness(tree: O.Tree, vol: Volume)
    requires tree == O.Tree(0, map[0 := [O.DirEntry([0x66], 7, O.File)]], _ => 1)
    requires vol.oids == map[[O.SLASH] := 0, [O.SLASH, 0x66] := 7]
    ensures O.WellFormed(tree) && Answers(vol, tree, [O.SLASH])
  {
    forall cs | W.GoodNames(cs) && O.Lookup(tree, cs).Some?
      ensures W.UnderMount([O.SLASH], cs) in vol.oids
      ensures vol.oids[W.UnderMount([O.SLASH], cs)] == O.Lookup(tree, cs).value
    {
      OnlyOneFile(tree, cs);
      assert O.Path([[0x66]]) == [O.SLASH, 0x66];
    }
  }

  lemma {:induction false} OnlyOneFile(tree: O.Tree, cs: seq<O.Name>)
    requires tree == O.Tree(0, map[0 := [O.DirEntry([0x66], 7, O.File)]], _ => 1)
    requires O.Lookup(tree, cs).Some?
    ensures (cs == [] && O.Lookup(tree, cs) == Some(0)) || (cs == [[0x66]] && O.Lookup(tree, cs) == Some(7))
    decreases |cs|
  {
    assert O.Listing(tree, 7) == [];
    if cs != [] {
      var n := |cs| - 1;
      OnlyOneFile(tree, cs[..n]);
      O.FindIs(O.Listing(tree, O.Lookup(tree, cs[..n]).value), cs[n]);
      assert cs == cs[..n] + [cs[n]];
    }
  }
}
