/** The raw walker: a directory tree is streamed depth first, files of a directory before its
    subdirectories, and every path it meets goes to the cache. */
module WalkDir {
  import opened Bytes
  import opened Items
  import opened Sequences
  import opened Glob
  import opened OidCache

  /** The date every walked item carries. */
  const WALK_DATE: U16 := 0x200 + 0x20

  // ---------------------------------------------------------------- specification

  /** A name below an archive prefix. */
  function InPrefix(prefix: seq<Byte>, name: Name): seq<Byte>
  {
    if prefix == [] then name else prefix + [SLASH] + name
  }

  /** A name below a file system path. */
  function Join(abs: seq<Byte>, name: Name): seq<Byte>
  {
    if abs != [] && abs[|abs| - 1] == SLASH then abs + name else abs + [SLASH] + name
  }

  function Walked(abs: seq<Byte>, prefix: seq<Byte>, name: Name): WorkItem
  {
    WorkItem(Join(abs, name), InPrefix(prefix, name), 0, WALK_DATE, 0)
  }

  predicate Skips(prefix: seq<Byte>, name: Name, exclude: seq<seq<Byte>>)
  {
    IsExcluded(InPrefix(prefix, name), exclude) || IsExcluded(name, exclude)
  }

  /** What is sent for the files among `es`. */
  function FilesOut(es: seq<DirEntry>, abs: seq<Byte>, prefix: seq<Byte>, exclude: seq<seq<Byte>>): seq<WorkItem>
  {
    if es == [] then []
    else
      var e := es[|es| - 1];
      FilesOut(es[..|es| - 1], abs, prefix, exclude)
      + if e.kind == Directory || Skips(prefix, e.name, exclude) then [] else [Walked(abs, prefix, e.name)]
  }

  /** The directories among `es` lie lower than `h`. */
  ghost predicate Lower(vol: Tree, es: seq<DirEntry>, h: nat)
  {
    forall e :: e in es && e.kind == Directory ==> vol.height(e.oid) < h
  }

  /** What is sent for the directories among `es`. */
  ghost function DirsOut(vol: Tree, es: seq<DirEntry>, abs: seq<Byte>, prefix: seq<Byte>, exclude: seq<seq<Byte>>,
                         h: nat): seq<WorkItem>
    requires WellFormed(vol) && Lower(vol, es, h)
    decreases h, 0, |es|
  {
    if es == [] then []
    else
      var e := es[|es| - 1];
      DirsOut(vol, es[..|es| - 1], abs, prefix, exclude, h)
      + if e.kind == Directory then WalkOut(vol, e.oid, Join(abs, e.name), InPrefix(prefix, e.name), exclude) else []
  }

  /** Everything that is sent for a directory. */
  ghost function WalkOut(vol: Tree, oid: nat, abs: seq<Byte>, prefix: seq<Byte>, exclude: seq<seq<Byte>>): seq<WorkItem>
    requires WellFormed(vol)
    decreases vol.height(oid), 1, 0
  {
    FilesOut(Listing(vol, oid), abs, prefix, exclude)
        + DirsOut(vol, Listing(vol, oid), abs, prefix, exclude, vol.height(oid))
  }

  /** What a channel with this room takes of `s`. */
  function Cut(s: seq<WorkItem>, room: nat): seq<WorkItem>
  {
    s[..Min(|s|, room)]
  }

  // ---------------------------------------------------------------- what the walk means

  /** A file or symbolic link at these components below a directory. */
  predicate IsFile(vol: Tree, oid: nat, cs: seq<Name>)
    decreases |cs|
  {
    cs != [] &&
    match Find(Listing(vol, oid), cs[0])
    case None => false
    case Some(e) => if |cs| == 1 then e.kind != Directory else e.kind == Directory && IsFile(vol, e.oid, cs[1..])
  }

  /** The archive prefix of the directory that holds the last component. */
  function FullPrefix(prefix: seq<Byte>, cs: seq<Name>): seq<Byte>
    requires cs != []
    decreases |cs|
  {
    if |cs| == 1 then prefix else FullPrefix(InPrefix(prefix, cs[0]), cs[1..])
  }

  /** The slash-joined name below the prefix. */
  function FullName(prefix: seq<Byte>, cs: seq<Name>): seq<Byte>
    requires cs != []
  {
    InPrefix(FullPrefix(prefix, cs), cs[|cs| - 1])
  }

  /** The file system path of the last component. */
  function FullPath(abs: seq<Byte>, cs: seq<Name>): seq<Byte>
    requires cs != []
    decreases |cs|
  {
    if |cs| == 1 then Join(abs, cs[0]) else FullPath(Join(abs, cs[0]), cs[1..])
  }

  /** The object at these components. */
  function FileOid(vol: Tree, oid: nat, cs: seq<Name>): nat
    requires IsFile(vol, oid, cs)
    decreases |cs|
  {
    var e := Find(Listing(vol, oid), cs[0]).value;
    if |cs| == 1 then e.oid else FileOid(vol, e.oid, cs[1..])
  }

  /** Some pattern stands for the name. */
  ghost predicate Meant(name: seq<Byte>, exclude: seq<seq<Byte>>)
  {
    exists g :: 0 <= g < |exclude| && Means(exclude[g], name)
  }

  /** A file to be archived: present, and no pattern stands for its whole or for its last name. */
  ghost predicate Wanted(vol: Tree, oid: nat, prefix: seq<Byte>, exclude: seq<seq<Byte>>, cs: seq<Name>)
  {
    IsFile(vol, oid, cs) && !Meant(FullName(prefix, cs), exclude) && !Meant(cs[|cs| - 1], exclude)
  }

  lemma SkipsMeant(prefix: seq<Byte>, name: Name, exclude: seq<seq<Byte>>)
    ensures Skips(prefix, name, exclude) <==> Meant(InPrefix(prefix, name), exclude) || Meant(name, exclude)
  {
    hide InPrefix;
    Kept(InPrefix(prefix, name), exclude);
    Kept(name, exclude);
  }

  lemma {:induction false} FilesOutHas(es: seq<DirEntry>, abs: seq<Byte>, prefix: seq<Byte>, exclude: seq<seq<Byte>>,
                                       e: DirEntry)
    requires e in es && e.kind != Directory && !Skips(prefix, e.name, exclude)
    ensures Walked(abs, prefix, e.name) in FilesOut(es, abs, prefix, exclude)
    decreases |es|
  {
    hide Skips, Walked;
    var n := |es| - 1;
    if es[n] != e {
      assert es == es[..n] + [es[n]];
      FilesOutHas(es[..n], abs, prefix, exclude, e);
    }
  }

  lemma {:induction false} FilesOutOnly(es: seq<DirEntry>, abs: seq<Byte>, prefix: seq<Byte>, exclude: seq<seq<Byte>>,
                                        x: WorkItem)
    requires x in FilesOut(es, abs, prefix, exclude)
    ensures exists e ::
              e in es && e.kind != Directory && !Skips(prefix, e.name, exclude) && x == Walked(abs, prefix, e.name)
    decreases |es|
  {
    hide Skips, Walked;
    if es != [] {
      var n := |es| - 1;
      assert es == es[..n] + [es[n]];
      if x in FilesOut(es[..n], abs, prefix, exclude) {
        FilesOutOnly(es[..n], abs, prefix, exclude, x);
      }
    }
  }

  lemma {:induction false} DirsOutHas(vol: Tree, es: seq<DirEntry>, abs: seq<Byte>, prefix: seq<Byte>,
                                      exclude: seq<seq<Byte>>, h: nat, e: DirEntry)
    requires WellFormed(vol) && Lower(vol, es, h) && e in es && e.kind == Directory
    ensures forall x :: x in WalkOut(vol, e.oid, Join(abs, e.name), InPrefix(prefix, e.name), exclude) ==>
            x in DirsOut(vol, es, abs, prefix, exclude, h)
    decreases |es|
  {
    hide WellFormed, WalkOut, Join, InPrefix;
    var n := |es| - 1;
    if es[n] != e {
      assert es == es[..n] + [es[n]];
      DirsOutHas(vol, es[..n], abs, prefix, exclude, h, e);
    }
  }

  lemma {:induction false} DirsOutOnly(vol: Tree, es: seq<DirEntry>, abs: seq<Byte>, prefix: seq<Byte>,
                                       exclude: seq<seq<Byte>>, h: nat, x: WorkItem)
    requires WellFormed(vol) && Lower(vol, es, h) && x in DirsOut(vol, es, abs, prefix, exclude, h)
    ensures exists e ::
              e in es && e.kind == Directory
              && x in WalkOut(vol, e.oid, Join(abs, e.name), InPrefix(prefix, e.name), exclude)
    decreases |es|
  {
    hide WellFormed, WalkOut, Join, InPrefix;
    if es != [] {
      var n := |es| - 1;
      assert es == es[..n] + [es[n]];
      if x in DirsOut(vol, es[..n], abs, prefix, exclude, h) {
        DirsOutOnly(vol, es[..n], abs, prefix, exclude, h, x);
      }
    }
  }

  lemma ListingFacts(vol: Tree, oid: nat)
    requires WellFormed(vol)
    ensures Lower(vol, Listing(vol, oid), vol.height(oid))
    ensures forall e :: e in Listing(vol, oid) ==> GoodName(e.name)
    ensures forall i, j :: 0 <= i < j < |Listing(vol, oid)| ==> Listing(vol, oid)[i].name != Listing(vol, oid)[j].name
    ensures forall e :: e in Listing(vol, oid) ==> Find(Listing(vol, oid), e.name) == Some(e)
  {
    var es := Listing(vol, oid);
    forall e | e in es
      ensures Find(es, e.name) == Some(e)
    {
      var i :| 0 <= i < |es| && es[i] == e;
      FindListed(es, i);
    }
  }

  /** A file below a directory resolves from the root. */
  lemma {:induction false} FileResolves(vol: Tree, oid: nat, base: seq<Name>, cs: seq<Name>)
    requires Lookup(vol, base) == Some(oid) && IsFile(vol, oid, cs)
    ensures Lookup(vol, base + cs) == Some(FileOid(vol, oid, cs))
    decreases |cs|
  {
    hide Lookup, Listing;
    var e := Find(Listing(vol, oid), cs[0]).value;
    LookupChild(vol, base, cs[0], oid);
    if |cs| == 1 {
      assert cs == [cs[0]];
    } else {
      FileResolves(vol, e.oid, base + [cs[0]], cs[1..]);
      assert base + [cs[0]] + cs[1..] == base + cs;
    }
  }

  /** The item for a file, which carries a placeholder for its time and no size yet. */
  function Expected(abs: seq<Byte>, prefix: seq<Byte>, cs: seq<Name>): WorkItem
    requires cs != []
  {
    WorkItem(FullPath(abs, cs), FullName(prefix, cs), 0, 0x220, 0)
  }

  /** Every wanted file is sent. */
  lemma {:induction false} WalkHas(vol: Tree, oid: nat, abs: seq<Byte>, prefix: seq<Byte>, exclude: seq<seq<Byte>>,
                                   cs: seq<Name>)
    requires WellFormed(vol) && Wanted(vol, oid, prefix, exclude, cs)
    ensures Expected(abs, prefix, cs) in WalkOut(vol, oid, abs, prefix, exclude)
    decreases |cs|
  {
    hide WellFormed, Skips, Meant, Join, InPrefix, Listing, DirsOut, FilesOut;
    ListingFacts(vol, oid);
    var es := Listing(vol, oid);
    FindIs(es, cs[0]);
    var e := Find(es, cs[0]).value;
    if |cs| == 1 {
      SkipsMeant(prefix, e.name, exclude);
      FilesOutHas(es, abs, prefix, exclude, e);
      assert Walked(abs, prefix, e.name) in WalkOut(vol, oid, abs, prefix, exclude);
    } else {
      WalkHas(vol, e.oid, Join(abs, e.name), InPrefix(prefix, e.name), exclude, cs[1..]);
      DirsOutHas(vol, es, abs, prefix, exclude, vol.height(oid), e);
    }
  }

  /** Only wanted files are sent. */
  lemma {:induction false} WalkOnly(vol: Tree, oid: nat, abs: seq<Byte>, prefix: seq<Byte>, exclude: seq<seq<Byte>>,
                                    x: WorkItem)
    returns (cs: seq<Name>)
    requires WellFormed(vol) && x in WalkOut(vol, oid, abs, prefix, exclude)
    ensures Wanted(vol, oid, prefix, exclude, cs) && cs != [] && x == Expected(abs, prefix, cs)
    ensures forall i :: 0 <= i < |cs| ==> GoodName(cs[i])
    decreases vol.height(oid)
  {
    hide WellFormed, Skips, Meant, Join, InPrefix, Listing, DirsOut, FilesOut, GoodName;
    ListingFacts(vol, oid);
    var es := Listing(vol, oid);
    if x in FilesOut(es, abs, prefix, exclude) {
      FilesOutOnly(es, abs, prefix, exclude, x);
      var e :| e in es && e.kind != Directory && !Skips(prefix, e.name, exclude) && x == Walked(abs, prefix, e.name);
      cs := [e.name];
      SkipsMeant(prefix, e.name, exclude);
    } else {
      DirsOutOnly(vol, es, abs, prefix, exclude, vol.height(oid), x);
      var e :| e in es && e.kind == Directory
          && x in WalkOut(vol, e.oid, Join(abs, e.name), InPrefix(prefix, e.name), exclude);
      var rest := WalkOnly(vol, e.oid, Join(abs, e.name), InPrefix(prefix, e.name), exclude, x);
      cs := [e.name] + rest;
      assert cs[1..] == rest;
    }
  }

  // ---------------------------------------------------------------- names are unique

  lemma ComponentsInPrefix(prefix: seq<Byte>, name: Name)
    requires GoodName(name)
    ensures Components(InPrefix(prefix, name)) == Components(prefix) + [name]
  {
    ComponentsOne(name);
    ComponentsAppend(prefix, name);
  }

  lemma {:induction false} ComponentsOfName(prefix: seq<Byte>, cs: seq<Name>)
    requires cs != [] && forall i :: 0 <= i < |cs| ==> GoodName(cs[i])
    ensures Components(FullName(prefix, cs)) == Components(prefix) + cs
    decreases |cs|
  {
    hide Components, InPrefix, GoodName;
    ComponentsInPrefix(prefix, cs[0]);
    if |cs| > 1 {
      ComponentsOfName(InPrefix(prefix, cs[0]), cs[1..]);
      assert cs[1..][|cs[1..]| - 1] == cs[|cs| - 1];
      assert [cs[0]] + cs[1..] == cs;
      assert Components(prefix) + [cs[0]] + cs[1..] == Components(prefix) + ([cs[0]] + cs[1..]);
    }
  }

  predicate DistinctNames(s: seq<WorkItem>) { forall i, j :: 0 <= i < j < |s| ==> s[i].name != s[j].name }

  /** The item lies at or below the entry `e` of a directory with this archive prefix. */
  predicate Belongs(prefix: seq<Byte>, e: DirEntry, x: WorkItem)
  {
    && |Components(x.name)| > |Components(prefix)|
    && Components(x.name)[|Components(prefix)|] == e.name
  }

  function Entries(es: seq<DirEntry>): set<DirEntry> { set e | e in es }

  lemma DistinctJoin(prefix: seq<Byte>, a: seq<WorkItem>, b: seq<WorkItem>, es: set<DirEntry>, fs: set<DirEntry>)
    requires DistinctNames(a) && DistinctNames(b)
    requires forall x :: x in a ==> exists e :: e in es && Belongs(prefix, e, x)
    requires forall x :: x in b ==> exists f :: f in fs && Belongs(prefix, f, x)
    requires forall e, f :: e in es && f in fs ==> e.name != f.name
    ensures DistinctNames(a + b)
  {
    hide Components;
    forall x, y | x in a && y in b
      ensures x.name != y.name
    {
      var e :| e in es && Belongs(prefix, e, x);
      var f :| f in fs && Belongs(prefix, f, y);
    }
    forall i, j | 0 <= i < j < |a + b|
      ensures (a + b)[i].name != (a + b)[j].name
    {
      if i < |a| <= j {
        assert (a + b)[i] in a && (a + b)[j] in b;
      }
    }
  }

  lemma WalkedBelongs(abs: seq<Byte>, prefix: seq<Byte>, e: DirEntry)
    requires GoodName(e.name)
    ensures Belongs(prefix, e, Walked(abs, prefix, e.name))
  {
    hide Components;
    ComponentsInPrefix(prefix, e.name);
  }

  lemma WalkBelongs(vol: Tree, abs: seq<Byte>, prefix: seq<Byte>, exclude: seq<seq<Byte>>, e: DirEntry, x: WorkItem)
    requires WellFormed(vol) && GoodName(e.name) && x in WalkOut(vol, e.oid, abs, InPrefix(prefix, e.name), exclude)
    ensures Belongs(prefix, e, x)
  {
    hide Components, WalkOut, WellFormed, Wanted, FullName;
    var cs := WalkOnly(vol, e.oid, abs, InPrefix(prefix, e.name), exclude, x);
    WantedNonEmpty(vol, e.oid, InPrefix(prefix, e.name), exclude, cs);
    ComponentsOfName(InPrefix(prefix, e.name), cs);
    ComponentsInPrefix(prefix, e.name);
  }

  lemma WantedNonEmpty(vol: Tree, oid: nat, prefix: seq<Byte>, exclude: seq<seq<Byte>>, cs: seq<Name>)
    requires Wanted(vol, oid, prefix, exclude, cs)
    ensures cs != []
  {
  }

  lemma {:induction false} FilesOutDistinct(es: seq<DirEntry>, abs: seq<Byte>, prefix: seq<Byte>,
                                            exclude: seq<seq<Byte>>)
    requires forall e :: e in es ==> GoodName(e.name)
    requires forall i, j :: 0 <= i < j < |es| ==> es[i].name != es[j].name
    ensures DistinctNames(FilesOut(es, abs, prefix, exclude))
    ensures forall x :: x in FilesOut(es, abs, prefix, exclude) ==>
            exists e :: e in es && e.kind != Directory && Belongs(prefix, e, x)
    decreases |es|
  {
    hide Skips, Belongs, Walked, GoodName;
    if es != [] {
      var n := |es| - 1;
      var rest, last := es[..n], es[n];
      assert es == rest + [last];
      FilesOutDistinct(rest, abs, prefix, exclude);
      WalkedBelongs(abs, prefix, last);
      DistinctJoin(prefix, FilesOut(rest, abs, prefix, exclude), [Walked(abs, prefix, last.name)], Entries(rest),
          {last});
    }
  }

  lemma {:induction false} DirsOutDistinct(vol: Tree, es: seq<DirEntry>, abs: seq<Byte>, prefix: seq<Byte>,
                                           exclude: seq<seq<Byte>>, h: nat)
    requires WellFormed(vol) && Lower(vol, es, h)
    requires forall e :: e in es ==> GoodName(e.name)
    requires forall i, j :: 0 <= i < j < |es| ==> es[i].name != es[j].name
    ensures DistinctNames(DirsOut(vol, es, abs, prefix, exclude, h))
    ensures forall x :: x in DirsOut(vol, es, abs, prefix, exclude, h) ==>
            exists e :: e in es && e.kind == Directory && Belongs(prefix, e, x)
    decreases h, 0, |es|
  {
    hide Belongs, WalkOut, WellFormed, Join, InPrefix, GoodName;
    if es != [] {
      var n := |es| - 1;
      var rest, last := es[..n], es[n];
      assert es == rest + [last];
      DirsOutDistinct(vol, rest, abs, prefix, exclude, h);
      if last.kind == Directory {
        var sub := WalkOut(vol, last.oid, Join(abs, last.name), InPrefix(prefix, last.name), exclude);
        WalkDistinct(vol, last.oid, Join(abs, last.name), InPrefix(prefix, last.name), exclude);
        forall x | x in sub
          ensures Belongs(prefix, last, x)
        {
          WalkBelongs(vol, Join(abs, last.name), prefix, exclude, last, x);
        }
        DistinctJoin(prefix, DirsOut(vol, rest, abs, prefix, exclude, h), sub, Entries(rest), {last});
      }
    }
  }

  lemma {:induction false} WalkDistinct(vol: Tree, oid: nat, abs: seq<Byte>, prefix: seq<Byte>, exclude: seq<seq<Byte>>)
    requires WellFormed(vol)
    ensures DistinctNames(WalkOut(vol, oid, abs, prefix, exclude))
    decreases vol.height(oid), 1, 0
  {
    hide Belongs, FilesOut, DirsOut, WellFormed, Listing, GoodName, DistinctNames;
    var es := Listing(vol, oid);
    ListingFacts(vol, oid);
    FilesOutDistinct(es, abs, prefix, exclude);
    DirsOutDistinct(vol, es, abs, prefix, exclude, vol.height(oid));
    var files, dirs := set e | e in es && e.kind != Directory, set e | e in es && e.kind == Directory;
    forall e, f | e in files && f in dirs
      ensures e.name != f.name
    {
      assert Find(es, e.name) == Some(e) && Find(es, f.name) == Some(f);
    }
    DistinctJoin(prefix, FilesOut(es, abs, prefix, exclude), DirsOut(vol, es, abs, prefix, exclude, vol.height(oid)),
        files, dirs);
  }

  /** A walk sends every wanted file once and nothing else: names of sent items are distinct, and
      the sent items are exactly those of the files and links that no pattern stands for. */
  lemma WalkSendsFiles(vol: Tree, oid: nat, abs: seq<Byte>, prefix: seq<Byte>, exclude: seq<seq<Byte>>)
    requires WellFormed(vol)
    ensures DistinctNames(WalkOut(vol, oid, abs, prefix, exclude))
    ensures forall cs :: Wanted(vol, oid, prefix, exclude, cs) ==>
              Expected(abs, prefix, cs) in WalkOut(vol, oid, abs, prefix, exclude)
    ensures forall x :: x in WalkOut(vol, oid, abs, prefix, exclude) ==>
              exists cs :: Wanted(vol, oid, prefix, exclude, cs) && x == Expected(abs, prefix, cs)
  {
    hide WellFormed, WalkOut, DistinctNames, Meant, FullName, Expected;
    WalkDistinct(vol, oid, abs, prefix, exclude);
    forall cs | Wanted(vol, oid, prefix, exclude, cs)
      ensures Expected(abs, prefix, cs) in WalkOut(vol, oid, abs, prefix, exclude)
    {
      WalkHas(vol, oid, abs, prefix, exclude, cs);
    }
    forall x | x in WalkOut(vol, oid, abs, prefix, exclude)
      ensures exists cs :: Wanted(vol, oid, prefix, exclude, cs) && x == Expected(abs, prefix, cs)
    {
      var cs := WalkOnly(vol, oid, abs, prefix, exclude, x);
    }
  }

  /** The archive name is the prefix and the components with a slash between them; the path is the
      directory's path and the components, without a second slash after one at its end. */
  lemma NamesJoined(abs: seq<Byte>, prefix: seq<Byte>, cs: seq<Name>, name: Name)
    requires forall i :: 0 <= i < |cs| ==> GoodName(cs[i])
    ensures FullName(prefix, cs + [name])
            == if cs != [] then FullName(prefix, cs) + [0x2F] + name
               else if prefix != [] then prefix + [0x2F] + name else name
    ensures FullPath(abs, cs + [name])
            == if cs != [] then FullPath(abs, cs) + [0x2F] + name
               else if abs != [] && abs[|abs| - 1] == 0x2F then abs + name else abs + [0x2F] + name
  {
    NameJoined(prefix, cs, name);
    PathJoined(abs, cs, name);
  }

  lemma {:induction false} NameJoined(prefix: seq<Byte>, cs: seq<Name>, name: Name)
    requires forall i :: 0 <= i < |cs| ==> GoodName(cs[i])
    ensures FullName(prefix, cs + [name]) == InPrefix(if cs != [] then FullName(prefix, cs) else prefix, name)
    ensures cs != [] ==> FullName(prefix, cs) != []
    decreases |cs|
  {
    if cs == [] {
      assert cs + [name] == [name];
    } else {
      PrefixNotEmpty(prefix, cs[0]);
      hide InPrefix, GoodName;
      assert (cs + [name])[1..] == cs[1..] + [name] && (cs + [name])[|cs|] == name;
      NameJoined(InPrefix(prefix, cs[0]), cs[1..], name);
    }
  }

  lemma PrefixNotEmpty(prefix: seq<Byte>, name: Name)
    requires GoodName(name)
    ensures InPrefix(prefix, name) != []
  {
  }

  lemma {:induction false} PathJoined(abs: seq<Byte>, cs: seq<Name>, name: Name)
    requires forall i :: 0 <= i < |cs| ==> GoodName(cs[i])
    ensures FullPath(abs, cs + [name]) == Join(if cs != [] then FullPath(abs, cs) else abs, name)
    ensures cs != [] ==> FullPath(abs, cs) != [] && FullPath(abs, cs)[|FullPath(abs, cs)| - 1] != SLASH
    decreases |cs|
  {
    if cs == [] {
      assert cs + [name] == [name];
    } else {
      JoinEnds(abs, cs[0]);
      hide Join, GoodName;
      PathJoined(Join(abs, cs[0]), cs[1..], name);
      assert (cs + [name])[1..] == cs[1..] + [name];
    }
  }

  lemma JoinEnds(abs: seq<Byte>, name: Name)
    requires GoodName(name)
    ensures Join(abs, name) != [] && Join(abs, name)[|Join(abs, name)| - 1] != SLASH
  {
    var p := Join(abs, name);
    assert p[|p| - 1] == name[|name| - 1] && name[|name| - 1] in name;
  }

  // ---------------------------------------------------------------- what is sent can be found

  /** The root directory, or a path that does not end in a slash. */
  predicate GoodMount(mount: seq<Byte>) { mount == [SLASH] || (mount != [] && mount[|mount| - 1] != SLASH) }

  /** The file system path of a path of the volume. */
  function UnderMount(mount: seq<Byte>, cs: seq<Name>): seq<Byte>
  {
    if cs == [] then mount else if mount == [SLASH] then Path(cs) else mount + Path(cs)
  }

  function TrimStart(p: seq<Byte>): seq<Byte>
  {
    if p != [] && p[0] == SLASH then TrimStart(p[1..]) else p
  }

  /** The path on the volume: without the mount point, if the path lies below it, and with a
      single slash in front. */
  function RelStr(mount: seq<Byte>, path: seq<Byte>): seq<Byte>
  {
    var below := mount <= path && (mount == [SLASH] || path == mount || path[|mount|] == SLASH);
    [SLASH] + TrimStart(if below then path[|mount|..] else path)
  }

  predicate GoodNames(cs: seq<Name>) { forall i :: 0 <= i < |cs| ==> GoodName(cs[i]) }

  lemma {:induction false} PathStart(cs: seq<Name>)
    requires cs != [] && GoodNames(cs)
    ensures |Path(cs)| >= 2 && Path(cs)[0] == SLASH && Path(cs)[1] != SLASH
    decreases |cs|
  {
    if |cs| == 1 {
      assert Path(cs)[1] == cs[0][0] && cs[0][0] in cs[0];
    } else {
      PathStart(cs[..|cs| - 1]);
    }
  }

  lemma PathLast(cs: seq<Name>)
    requires cs != [] && GoodNames(cs)
    ensures Path(cs) != [] && Path(cs)[|Path(cs)| - 1] != SLASH
  {
    var p, n := Path(cs), cs[|cs| - 1];
    assert p[|p| - 1] == n[|n| - 1];
  }

  lemma JoinUnder(mount: seq<Byte>, cs: seq<Name>, name: Name)
    requires GoodMount(mount) && GoodNames(cs) && GoodName(name)
    ensures Join(UnderMount(mount, cs), name) == UnderMount(mount, cs + [name])
  {
    hide GoodNames, GoodName;
    assert (cs + [name])[..|cs|] == cs;
    if cs != [] {
      PathNonEmpty(cs);
      PathLast(cs);
      assert Path(cs + [name]) == Path(cs) + [SLASH] + name;
      hide Path;
      var p := UnderMount(mount, cs);
      assert p[|p| - 1] == Path(cs)[|Path(cs)| - 1];
    }
  }

  lemma {:induction false} FullUnder(mount: seq<Byte>, base: seq<Name>, cs: seq<Name>)
    requires GoodMount(mount) && GoodNames(base) && GoodNames(cs) && cs != []
    ensures FullPath(UnderMount(mount, base), cs) == UnderMount(mount, base + cs)
    decreases |cs|
  {
    hide Join, UnderMount, GoodName;
    JoinUnder(mount, base, cs[0]);
    if |cs| == 1 {
      assert cs == [cs[0]];
    } else {
      FullUnder(mount, base + [cs[0]], cs[1..]);
      assert base + [cs[0]] + cs[1..] == base + cs;
    }
  }

  lemma RelUnder(mount: seq<Byte>, cs: seq<Name>)
    requires GoodMount(mount) && GoodNames(cs) && cs != []
    ensures RelStr(mount, UnderMount(mount, cs)) == Path(cs)
  {
    hide Path, GoodNames;
    PathStart(cs);
    var p := Path(cs);
    var full := UnderMount(mount, cs);
    assert full[|mount|..] == if mount == [SLASH] then p[1..] else p;
    assert TrimStart(p[1..]) == p[1..] && TrimStart(p) == p[1..];
  }

  /** A sent item's path on the volume is normal and resolves to the file that its name stands
      for, when the walk started at the mount point or at a directory below it. */
  lemma SentItemsResolve(vol: Tree, oid: nat, mount: seq<Byte>, base: seq<Name>, prefix: seq<Byte>,
                         exclude: seq<seq<Byte>>, x: WorkItem)
    returns (cs: seq<Name>)
    requires WellFormed(vol) && GoodMount(mount) && GoodNames(base) && Lookup(vol, base) == Some(oid)
    requires x in WalkOut(vol, oid, UnderMount(mount, base), prefix, exclude)
    ensures Wanted(vol, oid, prefix, exclude, cs) && x.name == FullName(prefix, cs)
    ensures GoodNames(base + cs) && x.path == UnderMount(mount, base + cs)
    ensures Lookup(vol, base + cs) == Some(FileOid(vol, oid, cs))
    ensures Normal(RelStr(mount, x.path)) && Resolve(vol, RelStr(mount, x.path)) == Some(FileOid(vol, oid, cs))
  {
    hide WellFormed, WalkOut, Components, Lookup, FullName, Path, UnderMount, RelStr, FullPath, Meant;
    cs := WalkOnly(vol, oid, UnderMount(mount, base), prefix, exclude, x);
    FullUnder(mount, base, cs);
    RelUnder(mount, base + cs);
    FileResolves(vol, oid, base, cs);
    ComponentsOfPath(base + cs);
  }

  /** So the readers find it: resolving a sent item's path through the cache succeeds, whatever
      the cache holds. */
  method FindSent(vol: Tree, oids: OidCache, oid: nat, mount: seq<Byte>, base: seq<Name>, prefix: seq<Byte>,
                  exclude: seq<seq<Byte>>, x: WorkItem) returns (r: Option<nat>, ghost cs: seq<Name>)
    requires WellFormed(vol) && oids.Agrees(vol)
    requires GoodMount(mount) && GoodNames(base) && Lookup(vol, base) == Some(oid)
    requires x in WalkOut(vol, oid, UnderMount(mount, base), prefix, exclude)
    modifies oids
    ensures oids.Agrees(vol)
    ensures Wanted(vol, oid, prefix, exclude, cs) && x.name == FullName(prefix, cs)
    ensures r == Some(FileOid(vol, oid, cs))
  {
    hide WalkOut, Wanted, FullName, FileOid, Normal, Resolve, RelStr;
    cs := SentItemsResolve(vol, oid, mount, base, prefix, exclude, x);
    r := oids.ResolveOid(vol, RelStr(mount, x.path));
  }

  /** Different files get different archive names. */
  lemma NameIdentifiesFile(prefix: seq<Byte>, cs: seq<Name>, ds: seq<Name>)
    requires cs != [] && forall i :: 0 <= i < |cs| ==> GoodName(cs[i])
    requires ds != [] && forall i :: 0 <= i < |ds| ==> GoodName(ds[i])
    ensures FullName(prefix, cs) == FullName(prefix, ds) <==> cs == ds
  {
    hide FullName, Components;
    ComponentsOfName(prefix, cs);
    ComponentsOfName(prefix, ds);
    var p := Components(prefix);
    assert (p + cs)[|p|..] == cs && (p + ds)[|p|..] == ds;
  }

  // ---------------------------------------------------------------- the walk

  lemma CutConcat(s: seq<WorkItem>, b: seq<WorkItem>, room: nat)
    ensures Cut(Cut(s, room) + b, room) == Cut(s + b, room)
    ensures |Cut(s, room)| >= room ==> Cut(s + b, room) == Cut(s, room)
  {
  }

  /** Sends the files of a directory; `full` when the channel has closed. */
  method SendFiles(es: seq<DirEntry>, abs: seq<Byte>, prefix: seq<Byte>, exclude: seq<seq<Byte>>, tx: Sender<WorkItem>)
    returns (closed: bool)
    requires |tx.sent| <= tx.room
    modifies tx
    ensures tx.sent == Cut(old(tx.sent) + FilesOut(es, abs, prefix, exclude), tx.room)
    ensures closed ==> |tx.sent| == tx.room
  {
    hide Skips, Walked, Cut;
    CutNothing(tx.sent, tx.room);
    for i := 0 to |es|
      invariant tx.sent == Cut(old(tx.sent) + FilesOut(es[..i], abs, prefix, exclude), tx.room)
    {
      var e := es[i];
      assert es[..i + 1][..i] == es[..i];
      ghost var out := old(tx.sent) + FilesOut(es[..i], abs, prefix, exclude);
      if e.kind == Directory || Skips(prefix, e.name, exclude) {
        assert FilesOut(es[..i + 1], abs, prefix, exclude) == FilesOut(es[..i], abs, prefix, exclude);
        continue;
      }
      var x := Walked(abs, prefix, e.name);
      var ok := tx.Send(x);
      assert old(tx.sent) + FilesOut(es[..i + 1], abs, prefix, exclude) == out + [x];
      CutOne(out, x, tx.room);
      if !ok {
        FilesOutPrefix(es, i + 1, abs, prefix, exclude);
        CutFull(old(tx.sent), FilesOut(es[..i], abs, prefix, exclude), FilesOut(es, abs, prefix, exclude), tx.room);
        return true;
      }
    }
    assert es[..|es|] == es;
    closed := false;
  }

  lemma CutNothing(s: seq<WorkItem>, room: nat)
    requires |s| <= room
    ensures Cut(s + [], room) == s
  {
  }

  lemma CutOne(s: seq<WorkItem>, x: WorkItem, room: nat)
    ensures |Cut(s, room)| <= room
    ensures Cut(s + [x], room) == if |Cut(s, room)| < room then Cut(s, room) + [x] else Cut(s, room)
  {
  }

  lemma CutFull(s: seq<WorkItem>, a: seq<WorkItem>, b: seq<WorkItem>, room: nat)
    requires |Cut(s + a, room)| >= room && a <= b
    ensures Cut(s + b, room) == Cut(s + a, room) && |Cut(s + a, room)| == room
  {
  }

  lemma {:induction false} FilesOutPrefix(es: seq<DirEntry>, i: nat, abs: seq<Byte>, prefix: seq<Byte>,
                                          exclude: seq<seq<Byte>>)
    requires 0 < i <= |es|
    ensures FilesOut(es[..i - 1], abs, prefix, exclude) <= FilesOut(es, abs, prefix, exclude)
    decreases |es|
  {
    hide Skips, Walked;
    var n := |es| - 1;
    if i <= n {
      FilesOutPrefix(es[..n], i, abs, prefix, exclude);
      assert es[..n][..i - 1] == es[..i - 1];
    }
  }

  /** Streams a directory tree: what is sent is the walk of the tree, cut off where the channel
      closes, and the cache goes on agreeing with the volume. */
  method WalkDir(vol: Tree, oids: OidCache, dirAbs: seq<Byte>, dirRel: seq<Byte>, oid: nat, prefix: seq<Byte>,
                 exclude: seq<seq<Byte>>, tx: Sender<WorkItem>)
    requires WellFormed(vol) && oids.Agrees(vol) && Resolve(vol, dirRel) == Some(oid) && |tx.sent| <= tx.room
    modifies oids, tx
    ensures oids.Agrees(vol)
    ensures tx.sent == Cut(old(tx.sent) + WalkOut(vol, oid, dirAbs, prefix, exclude), tx.room)
    decreases vol.height(oid)
  {
    hide *;
    var entries := Listing(vol, oid);
    ListingFacts(vol, oid);
    oids.InsertChildren(vol, dirRel, oid);
    var closed := SendFiles(entries, dirAbs, prefix, exclude, tx);
    ghost var files := FilesOut(entries, dirAbs, prefix, exclude);
    ghost var h := vol.height(oid);
    WalkParts(vol, oid, dirAbs, prefix, exclude);
    if closed {
      CutConcat(old(tx.sent) + files, DirsOut(vol, entries, dirAbs, prefix, exclude, h), tx.room);
      Associate(old(tx.sent), files, DirsOut(vol, entries, dirAbs, prefix, exclude, h));
      return;
    }
    DirsStart(vol, entries, dirAbs, prefix, exclude, h);
    ghost var base := old(tx.sent) + files;
    CutBound(base, tx.room);
    assert base + [] == base;
    for i := 0 to |entries|
      invariant oids.Agrees(vol) && |tx.sent| <= tx.room && Lower(vol, entries[..i], h)
      invariant tx.sent == Cut(base + DirsOut(vol, entries[..i], dirAbs, prefix, exclude, h), tx.room)
    {
      var e := entries[i];
      DirsStep(vol, entries, i, dirAbs, prefix, exclude, h);
      if e.kind == Directory {
        ghost var prior := base + DirsOut(vol, entries[..i], dirAbs, prefix, exclude, h);
        ghost var sub := WalkOut(vol, e.oid, Join(dirAbs, e.name), InPrefix(prefix, e.name), exclude);
        ListedResolves(vol, dirRel, oid, i);
        WalkDir(vol, oids, Join(dirAbs, e.name), ChildPath(dirRel, e.name), e.oid, InPrefix(prefix, e.name), exclude,
            tx);
        CutConcat(prior, sub, tx.room);
        CutBound(prior + sub, tx.room);
        Associate(base, DirsOut(vol, entries[..i], dirAbs, prefix, exclude, h), sub);
      } else {
        assert DirsOut(vol, entries[..i], dirAbs, prefix, exclude, h) + []
               == DirsOut(vol, entries[..i], dirAbs, prefix, exclude, h);
      }
    }
    assert entries[..|entries|] == entries;
    Associate(old(tx.sent), files, DirsOut(vol, entries, dirAbs, prefix, exclude, h));
  }

  lemma CutBound(s: seq<WorkItem>, room: nat)
    ensures |Cut(s, room)| <= room
  {
  }

  lemma WalkParts(vol: Tree, oid: nat, abs: seq<Byte>, prefix: seq<Byte>, exclude: seq<seq<Byte>>)
    requires WellFormed(vol)
    ensures Lower(vol, Listing(vol, oid), vol.height(oid))
    ensures WalkOut(vol, oid, abs, prefix, exclude)
            == FilesOut(Listing(vol, oid), abs, prefix, exclude)
                + DirsOut(vol, Listing(vol, oid), abs, prefix, exclude, vol.height(oid))
  {
  }

  lemma DirsStart(vol: Tree, es: seq<DirEntry>, abs: seq<Byte>, prefix: seq<Byte>, exclude: seq<seq<Byte>>, h: nat)
    requires WellFormed(vol) && Lower(vol, es, h)
    ensures Lower(vol, es[..0], h) && DirsOut(vol, es[..0], abs, prefix, exclude, h) == []
  {
  }

  lemma DirsStep(vol: Tree, es: seq<DirEntry>, i: nat, abs: seq<Byte>, prefix: seq<Byte>, exclude: seq<seq<Byte>>,
                 h: nat)
    requires WellFormed(vol) && Lower(vol, es, h) && i < |es|
    ensures Lower(vol, es[..i], h) && Lower(vol, es[..i + 1], h)
    ensures es[i].kind == Directory ==> vol.height(es[i].oid) < h
    ensures DirsOut(vol, es[..i + 1], abs, prefix, exclude, h)
            == DirsOut(vol, es[..i], abs, prefix, exclude, h)
               + if es[i].kind == Directory then
                   WalkOut(vol, es[i].oid, Join(abs, es[i].name), InPrefix(prefix, es[i].name), exclude) else []
  {
    assert es[..i + 1][..i] == es[..i];
    assert es[i] in es;
  }
}
