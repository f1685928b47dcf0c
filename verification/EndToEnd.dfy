/** From files to archive and back: parsing and extracting a run's archive restores the files. */
module EndToEnd {
  import opened Bytes
  import opened Items
  import opened Sequences
  import opened ZipWriter
  import opened ZipRoundTrip
  import R = ZipReader
  import opened Pipeline
  import opened PipelineRuns
  import opened PipelineArchive
  import E = Encoder
  import Ae2

  /** How a run's workers encode: one codec, one password, any salt for each item. */
  datatype Coding = Coding(codec: E.Codec, suite: Ae2.Suite, password: Option<seq<Byte>>, salts: nat -> Ae2.Block)

  function Coded(k: Coding, x: RawItem): EncodedEntry
  {
    E.EntryFor(k.codec, k.suite, k.password, k.salts(x.index), x)
  }

  /** The entries restore the files: as many as were fed, and each has its item's name, time and
      date and extracts to the bytes read for it. */
  predicate Restores(k: Coding, c: Config, vs: Option<seq<R.Entry>>)
  {
    && vs.Some? && |vs.value| == |c.items|
    && forall i :: 0 <= i < |c.items| ==>
         E.Labelled(vs.value[i], c.read(c.items[i]))
             && E.Extract(k.codec, k.suite, k.password, vs.value[i]) == Some(c.read(c.items[i]).bytes)
  }

  lemma EverythingCoded(k: Coding, c: Config, i: nat)
    requires (forall x :: c.encode(x) == Coded(k, x)) && i < |c.items|
    ensures |Everything(c)| == |c.items| && Everything(c)[i] == Coded(k, c.read(c.items[i]).(index := i))
  {
    hide Map, E.EntryFor;
    MapAt(EntryOf(c), Fed(c));
    assert Coded(k, Fetch(c, Fed(c)[i])).index == i by {
      IndexKept(k, Fetch(c, Fed(c)[i]));
    }
  }

  lemma IndexKept(k: Coding, x: RawItem)
    ensures Coded(k, x).index == x.index && Coded(k, x).nameBytes == x.item.name
  {
  }

  lemma ExtractAt(k: Coding, c: Config, i: nat)
    requires (forall x :: c.encode(x) == Coded(k, x)) && i < |c.items| && |c.read(c.items[i]).bytes| <= U64_MAX
    ensures |Everything(c)| == |c.items|
    ensures var v, raw := Views(Everything(c))[i], c.read(c.items[i]);
            && E.Labelled(v, raw) && v.name == raw.item.name == Everything(c)[i].nameBytes
            && (E.Extract(k.codec, k.suite, k.password, v) == Some(raw.bytes) <==> E.Lossless(k.codec, raw.bytes))
  {
    EverythingCoded(k, c, i);
    hide Everything, E.EntryFor, E.Extract, E.Lossless;
    var raw := c.read(c.items[i]).(index := i);
    IndexKept(k, raw);
    E.ExtractIsInverse(k.codec, k.suite, k.password, k.salts(i), raw, Offset(Everything(c), i));
  }

  /** From files to archive and back: for every schedule of a sorted run, parsing the archive
      and extracting its entries restores every file in walk order, if and only if every name
      is shorter than 64 KiB and the codec is lossless on every file. */
  lemma Sorted(k: Coding, c: Config, es: seq<Event>)
    requires Succeeds(c, es) && Staffed(c) && Final(c, es).lost == []
    requires forall x :: c.encode(x) == Coded(k, x)
    requires |Output(true, c, es)| <= U64_MAX
    requires forall i :: 0 <= i < |c.items| ==> |c.read(c.items[i]).bytes| <= U64_MAX
    ensures Restores(k, c, R.Parse(Output(true, c, es)))
            <==> forall i :: 0 <= i < |c.items| ==>
                 |c.read(c.items[i]).item.name| < 0x1_0000 && E.Lossless(k.codec, c.read(c.items[i]).bytes)
  {
    SortedRoundTrip(c, es);
    ParsedNamesFit(Output(true, c, es));
    hide *;
    RestoredIff(k, c, R.Parse(Output(true, c, es)));
  }

  lemma RestoredIff(k: Coding, c: Config, vs: Option<seq<R.Entry>>)
    requires forall x :: c.encode(x) == Coded(k, x)
    requires forall i :: 0 <= i < |c.items| ==> |c.read(c.items[i]).bytes| <= U64_MAX
    requires vs == Some(Views(Everything(c))) <==> forall i :: 0 <= i < |Everything(c)| ==> NameFits(Everything(c)[i])
    requires vs.Some? ==> forall i :: 0 <= i < |vs.value| ==> |vs.value[i].name| < 0x1_0000
    ensures Restores(k, c, vs)
            <==> forall i :: 0 <= i < |c.items| ==>
                 |c.read(c.items[i]).item.name| < 0x1_0000 && E.Lossless(k.codec, c.read(c.items[i]).bytes)
  {
    hide Everything, Views, E.Extract, E.Lossless, Coded;
    EverythingIndexed(c);
    forall i | 0 <= i < |c.items|
      ensures var v, raw := Views(Everything(c))[i], c.read(c.items[i]);
            && E.Labelled(v, raw) && v.name == raw.item.name == Everything(c)[i].nameBytes
            && (E.Extract(k.codec, k.suite, k.password, v) == Some(raw.bytes) <==> E.Lossless(k.codec, raw.bytes))
    {
      ExtractAt(k, c, i);
    }
    if Restores(k, c, vs) {
      forall i | 0 <= i < |c.items|
        ensures NameFits(Everything(c)[i])
      {
        assert |vs.value[i].name| < 0x1_0000;
      }
    }
  }

  // ---------------------------------------------------------------- without sorting

  /** A file as an archive holds it: its labels, and what it extracts to. */
  datatype Copy = Copy(name: seq<Byte>, time: nat, date: nat, bytes: Option<seq<Byte>>)

  function MakeCopy(k: Coding, v: R.Entry): Copy
  {
    Copy(v.name, v.time, v.date, E.Extract(k.codec, k.suite, k.password, v))
  }

  function CopyOf(k: Coding): R.Entry -> Copy { (v: R.Entry) => MakeCopy(k, v) }

  /** The file as it was read. */
  function Original(c: Config): WorkItem -> Copy
  {
    (w: WorkItem) =>
      var raw := c.read(w);
      Copy(raw.item.name, raw.item.time, raw.item.date, Some(raw.bytes))
  }

  /** The file as the codec gives it back. */
  function Recoded(k: Coding, c: Config): WorkItem -> Copy
  {
    (w: WorkItem) =>
      var raw := c.read(w);
      Copy(raw.item.name, raw.item.time, raw.item.date, E.Recovered(k.codec, E.Encrypts(k.password), raw.bytes))
  }

  /** The entries are, in some order, copies of the files that were fed. */
  ghost predicate RestoresAnyOrder(k: Coding, c: Config, vs: Option<seq<R.Entry>>)
  {
    vs.Some? && multiset(Map(CopyOf(k), vs.value)) == multiset(Map(Original(c), c.items))
  }

  predicate NamesShort(c: Config) { forall i :: 0 <= i < |c.items| ==> |c.read(c.items[i]).item.name| < 0x1_0000 }

  predicate AllLossless(k: Coding, c: Config)
  {
    forall i :: 0 <= i < |c.items| ==> E.Lossless(k.codec, c.read(c.items[i]).bytes)
  }

  predicate NamesDiffer(c: Config)
  {
    forall i, j :: 0 <= i < j < |c.items| ==> c.read(c.items[i]).item.name != c.read(c.items[j]).item.name
  }

  /** The copy that an entry gives, wherever it stands in the archive. */
  function EntryCopy(k: Coding): EncodedEntry -> Copy { (e: EncodedEntry) => MakeCopy(k, View(e, 0)) }

  lemma CopyAnywhere(k: Coding, e: EncodedEntry, offset: nat)
    ensures CopyOf(k)(View(e, offset)) == EntryCopy(k)(e)
  {
    hide E.Extract;
    var v := View(e, 0);
    assert View(e, offset) == v.(offset := offset);
    E.ExtractIgnoresOffset(k.codec, k.suite, k.password, v, offset);
  }

  lemma EntryCopyIs(k: Coding, e: EncodedEntry)
    ensures var v := View(e, 0);
            EntryCopy(k)(e) == Copy(v.name, v.time, v.date, E.Extract(k.codec, k.suite, k.password, v))
  {
  }

  lemma CopiesOfViews(k: Coding, es: seq<EncodedEntry>)
    ensures Map(CopyOf(k), Views(es)) == Map(EntryCopy(k), es)
  {
    hide Map, View, CopyOf, EntryCopy, Offset;
    MapAt(CopyOf(k), Views(es));
    MapAt(EntryCopy(k), es);
    forall i | 0 <= i < |es|
      ensures Map(CopyOf(k), Views(es))[i] == Map(EntryCopy(k), es)[i]
    {
      CopyAnywhere(k, es[i], Offset(es, i));
    }
  }

  lemma CopiesRecoded(k: Coding, c: Config)
    requires forall x :: c.encode(x) == Coded(k, x)
    requires forall i :: 0 <= i < |c.items| ==> |c.read(c.items[i]).bytes| <= U64_MAX
    ensures |Everything(c)| == |c.items|
    ensures Map(EntryCopy(k), Everything(c)) == Map(Recoded(k, c), c.items)
    ensures (forall i :: 0 <= i < |c.items| ==> NameFits(Everything(c)[i])) <==> NamesShort(c)
  {
    hide Map, Everything, E.Extract, E.EntryFor, E.Recovered;
    EverythingIndexed(c);
    MapAt(EntryCopy(k), Everything(c));
    MapAt(Recoded(k, c), c.items);
    forall i | 0 <= i < |c.items|
      ensures Map(EntryCopy(k), Everything(c))[i] == Map(Recoded(k, c), c.items)[i]
      ensures Everything(c)[i].nameBytes == c.read(c.items[i]).item.name
    {
      EverythingCoded(k, c, i);
      var raw := c.read(c.items[i]).(index := i);
      IndexKept(k, raw);
      E.ExtractRecovers(k.codec, k.suite, k.password, k.salts(i), raw, 0);
      EntryCopyIs(k, Everything(c)[i]);
    }
  }

  /** Entries whose names are short cannot be copies of a file whose name is not. */
  lemma ShortCopies(k: Coding, c: Config, vs: Option<seq<R.Entry>>)
    requires RestoresAnyOrder(k, c, vs) && forall i :: 0 <= i < |vs.value| ==> |vs.value[i].name| < 0x1_0000
    ensures NamesShort(c)
  {
    hide Map, E.Extract;
    MapAt(CopyOf(k), vs.value);
    MapAt(Original(c), c.items);
    var copies, originals := Map(CopyOf(k), vs.value), Map(Original(c), c.items);
    forall i | 0 <= i < |c.items|
      ensures |c.read(c.items[i]).item.name| < 0x1_0000
    {
      assert originals[i] in multiset(copies);
      assert originals[i] in copies;
      var j :| 0 <= j < |copies| && copies[j] == originals[i];
    }
  }

  lemma LosslessRecodes(k: Coding, c: Config)
    requires AllLossless(k, c)
    ensures Map(Recoded(k, c), c.items) == Map(Original(c), c.items)
  {
    hide Map, E.Recovered, E.Lossless;
    MapAt(Recoded(k, c), c.items);
    MapAt(Original(c), c.items);
    forall i | 0 <= i < |c.items|
      ensures Map(Recoded(k, c), c.items)[i] == Map(Original(c), c.items)[i]
    {
      E.RecoversIffLossless(k.codec, E.Encrypts(k.password), c.read(c.items[i]).bytes);
    }
  }

  /** With distinct names no file can stand in for another. */
  lemma RecodedIsLossless(k: Coding, c: Config)
    requires NamesDiffer(c) && multiset(Map(Recoded(k, c), c.items)) == multiset(Map(Original(c), c.items))
    ensures AllLossless(k, c)
  {
    hide Map, E.Recovered, E.Lossless;
    MapAt(Recoded(k, c), c.items);
    MapAt(Original(c), c.items);
    var recoded, originals := Map(Recoded(k, c), c.items), Map(Original(c), c.items);
    forall i | 0 <= i < |c.items|
      ensures E.Lossless(k.codec, c.read(c.items[i]).bytes)
    {
      assert recoded[i] in multiset(originals);
      assert recoded[i] in originals;
      var j :| 0 <= j < |originals| && originals[j] == recoded[i];
      assert originals[j].name == c.read(c.items[i]).item.name;
      E.RecoversIffLossless(k.codec, E.Encrypts(k.password), c.read(c.items[i]).bytes);
    }
  }

  /** A run that does not sort restores the files, in the order of arrival, if and only if the names
      are short and the codec gives back the same collection of files. It does if it is lossless
      on each of them, and only then if no two of them have the same name. */
  lemma Unsorted(k: Coding, c: Config, es: seq<Event>)
    requires Succeeds(c, es) && Staffed(c) && Final(c, es).lost == []
    requires forall x :: c.encode(x) == Coded(k, x)
    requires |Output(false, c, es)| <= U64_MAX
    requires forall i :: 0 <= i < |c.items| ==> |c.read(c.items[i]).bytes| <= U64_MAX
    ensures RestoresAnyOrder(k, c, R.Parse(Output(false, c, es)))
            <==> NamesShort(c) && multiset(Map(Recoded(k, c), c.items)) == multiset(Map(Original(c), c.items))
    ensures NamesShort(c) && AllLossless(k, c) ==> RestoresAnyOrder(k, c, R.Parse(Output(false, c, es)))
    ensures NamesDiffer(c) && RestoresAnyOrder(k, c, R.Parse(Output(false, c, es))) ==> AllLossless(k, c)
  {
    UnsortedRoundTrip(c, es);
    ParsedNamesFit(Output(false, c, es));
    var arrived, vs := Final(c, es).arrived, R.Parse(Output(false, c, es));
    hide *;
    CopiesRecoded(k, c);
    CopiesOfViews(k, arrived);
    MapPermutes(EntryCopy(k), arrived, Everything(c));
    SameNamesFit(arrived, Everything(c));
    CopiesDecide(k, c, arrived, vs);
    if AllLossless(k, c) {
      LosslessRecodes(k, c);
    }
    if NamesDiffer(c) && multiset(Map(Recoded(k, c), c.items)) == multiset(Map(Original(c), c.items)) {
      RecodedIsLossless(k, c);
    }
  }

  lemma SameNamesFit(a: seq<EncodedEntry>, b: seq<EncodedEntry>)
    requires multiset(a) == multiset(b)
    ensures (forall i :: 0 <= i < |a| ==> NameFits(a[i])) <==> (forall i :: 0 <= i < |b| ==> NameFits(b[i]))
  {
    if forall i :: 0 <= i < |a| ==> NameFits(a[i]) {
      SameNamesFitOneWay(a, b);
    }
    if forall i :: 0 <= i < |b| ==> NameFits(b[i]) {
      SameNamesFitOneWay(b, a);
    }
  }

  lemma SameNamesFitOneWay(a: seq<EncodedEntry>, b: seq<EncodedEntry>)
    requires multiset(a) == multiset(b) && forall i :: 0 <= i < |a| ==> NameFits(a[i])
    ensures forall i :: 0 <= i < |b| ==> NameFits(b[i])
  {
    forall i | 0 <= i < |b|
      ensures NameFits(b[i])
    {
      assert b[i] in multiset(a);
      assert b[i] in a;
    }
  }

  lemma CopiesDecide(k: Coding, c: Config, arrived: seq<EncodedEntry>, vs: Option<seq<R.Entry>>)
    requires vs == Some(Views(arrived)) <==> NamesShort(c)
    requires Map(CopyOf(k), Views(arrived)) == Map(EntryCopy(k), arrived)
    requires multiset(Map(EntryCopy(k), arrived)) == multiset(Map(Recoded(k, c), c.items))
    requires vs.Some? ==> forall i :: 0 <= i < |vs.value| ==> |vs.value[i].name| < 0x1_0000
    ensures RestoresAnyOrder(k, c, vs)
            <==> NamesShort(c) && multiset(Map(Recoded(k, c), c.items)) == multiset(Map(Original(c), c.items))
  {
    hide Map, Views, NamesShort, CopyOf, EntryCopy, Recoded, Original;
    if RestoresAnyOrder(k, c, vs) {
      ShortCopies(k, c, vs);
    }
  }
}
