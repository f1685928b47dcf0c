/** Paths on the raw volume and the cache from path to object: whatever mix of walker inserts
    and lazily listed parents fills it, it answers as resolving from the root would. */
module OidCache {
  import opened Bytes

  const SLASH: Byte := 0x2F

  type Name = seq<Byte>

  datatype Kind = File | Directory | Symlink

  datatype DirEntry = DirEntry(name: Name, oid: nat, kind: Kind)

  /** A volume: the root, the records of each directory, and a height that bounds how deep
      each directory is nested. */
  datatype Tree = Tree(root: nat, records: map<nat, seq<DirEntry>>, height: nat -> nat)

  predicate GoodName(n: Name) { n != [] && SLASH !in n }

  /** Names are non-empty, without slashes and distinct within a directory. Exactly the
      directories have records, and they are nested to a finite depth. */
  ghost predicate WellFormed(vol: Tree)
  {
    && vol.root in vol.records
    && (forall d :: d in vol.records ==>
          && (forall i, j :: 0 <= i < j < |vol.records[d]| ==> vol.records[d][i].name != vol.records[d][j].name)
          && (forall e :: e in vol.records[d] ==>
                && GoodName(e.name) && (e.kind == Directory <==> e.oid in vol.records)
                && (e.kind == Directory ==> vol.height(e.oid) < vol.height(d))))
  }

  /** Listing by object: nothing for an object that is not a directory. */
  function Listing(vol: Tree, oid: nat): seq<DirEntry>
  {
    if oid in vol.records then vol.records[oid] else []
  }

  function Find(es: seq<DirEntry>, name: Name): Option<DirEntry>
  {
    if es == [] then None else if es[0].name == name then Some(es[0]) else Find(es[1..], name)
  }

  lemma {:induction false} FindIs(es: seq<DirEntry>, name: Name)
    ensures match Find(es, name)
            case Some(e) => e in es && e.name == name
            case None => forall e :: e in es ==> e.name != name
  {
    if es != [] && es[0].name != name {
      FindIs(es[1..], name);
      assert es == [es[0]] + es[1..];
    }
  }

  // ---------------------------------------------------------------- paths

  function LastSlash(p: seq<Byte>): (r: Option<nat>)
    ensures r.Some? ==> r.value < |p| && p[r.value] == SLASH
  {
    if p == [] then None
    else if p[|p| - 1] == SLASH then Some(|p| - 1)
    else LastSlash(p[..|p| - 1])
  }

  /** The non-empty pieces between slashes. */
  function Components(p: seq<Byte>): seq<Name>
  {
    match LastSlash(p)
    case None => if p == [] then [] else [p]
    case Some(i) => Components(p[..i]) + if i + 1 == |p| then [] else [p[i + 1..]]
  }

  /** The path with these components. */
  function Path(cs: seq<Name>): seq<Byte>
  {
    if cs == [] then [SLASH] else if |cs| == 1 then [SLASH] + cs[0] else Path(cs[..|cs| - 1]) + [SLASH] + cs[|cs| - 1]
  }

  lemma {:induction false} LastSlashBefore(p: seq<Byte>, n: Name)
    requires SLASH !in n
    ensures LastSlash(p + [SLASH] + n) == Some(|p|)
    decreases |n|
  {
    var q := p + [SLASH] + n;
    if n == [] {
      assert q[|q| - 1] == SLASH;
    } else {
      assert q[|q| - 1] == n[|n| - 1];
      assert q[..|q| - 1] == p + [SLASH] + n[..|n| - 1];
      LastSlashBefore(p, n[..|n| - 1]);
    }
  }

  lemma {:induction false} NoSlash(n: Name)
    ensures LastSlash(n) == None <==> SLASH !in n
    decreases |n|
  {
    if n != [] {
      NoSlash(n[..|n| - 1]);
      assert n == n[..|n| - 1] + [n[|n| - 1]];
    }
  }

  /** One more component at the end. */
  lemma ComponentsAppend(p: seq<Byte>, n: Name)
    requires SLASH !in n
    ensures Components(p + [SLASH] + n) == Components(p) + if n == [] then [] else [n]
  {
    LastSlashBefore(p, n);
    var q := p + [SLASH] + n;
    assert q[..|p|] == p && q[|p| + 1..] == n;
  }

  lemma ComponentsOne(n: Name)
    requires GoodName(n)
    ensures Components(n) == [n] && Components([SLASH] + n) == [n]
  {
    NoSlash(n);
    ComponentsAppend([], n);
    assert [] + [SLASH] + n == [SLASH] + n;
  }

  lemma {:induction false} ComponentsOfPath(cs: seq<Name>)
    requires forall i :: 0 <= i < |cs| ==> GoodName(cs[i])
    ensures Components(Path(cs)) == cs
    decreases |cs|
  {
    if cs == [] {
      ComponentsAppend([], []);
      assert [] + [SLASH] + [] == [SLASH];
    } else if |cs| == 1 {
      ComponentsOne(cs[0]);
    } else {
      ComponentsOfPath(cs[..|cs| - 1]);
      ComponentsAppend(Path(cs[..|cs| - 1]), cs[|cs| - 1]);
    }
  }

  /** Without trailing slashes. */
  function Trimmed(p: seq<Byte>): seq<Byte>
  {
    if p != [] && p[|p| - 1] == SLASH then Trimmed(p[..|p| - 1]) else p
  }

  lemma {:induction false} TrimKeeps(p: seq<Byte>)
    ensures Components(Trimmed(p)) == Components(p)
    decreases |p|
  {
    if p != [] && p[|p| - 1] == SLASH {
      TrimKeeps(p[..|p| - 1]);
      ComponentsAppend(p[..|p| - 1], []);
      assert p[..|p| - 1] + [SLASH] + [] == p;
    }
  }

  /** A directory's path and a name in it. */
  function ChildPath(dir: seq<Byte>, name: Name): seq<Byte>
  {
    if Trimmed(dir) == [] then [SLASH] + name else Trimmed(dir) + [SLASH] + name
  }

  lemma ChildComponents(dir: seq<Byte>, name: Name)
    requires GoodName(name)
    ensures Components(ChildPath(dir, name)) == Components(dir) + [name]
  {
    TrimKeeps(dir);
    ComponentsAppend(Trimmed(dir), name);
    ComponentsOne(name);
    assert Trimmed(dir) == [] ==> Components(Trimmed(dir)) == [];
  }

  // ---------------------------------------------------------------- resolution

  /** Resolving components from the root, record by record. */
  function Lookup(vol: Tree, cs: seq<Name>): Option<nat>
  {
    if cs == [] then Some(vol.root)
    else
      var d :- Lookup(vol, cs[..|cs| - 1]);
      var e :- Find(Listing(vol, d), cs[|cs| - 1]);
      Some(e.oid)
  }

  function Resolve(vol: Tree, path: seq<Byte>): Option<nat> { Lookup(vol, Components(path)) }

  /** Resolves a path that must lead to a directory. */
  function OpenDirectory(vol: Tree, path: seq<Byte>): Option<nat>
  {
    var oid :- Resolve(vol, path);
    var _ :- Check(oid in vol.records);
    Some(oid)
  }

  lemma LookupChild(vol: Tree, cs: seq<Name>, name: Name, dir: nat)
    requires Lookup(vol, cs) == Some(dir)
    ensures Lookup(vol, cs + [name])
            == match Find(Listing(vol, dir), name) case Some(e) => Some(e.oid) case None => None
  {
    assert (cs + [name])[..|cs|] == cs;
  }

  /** Splits at the last slash; at the root the parent is the root itself. */
  function SplitParentName(rel: seq<Byte>): (seq<Byte>, Name)
  {
    match LastSlash(rel)
    case None => ([SLASH], rel)
    case Some(i) => (if i == 0 then [SLASH] else rel[..i], rel[i + 1..])
  }

  /** Absolute, with single slashes between good names and none at the end. */
  ghost predicate Normal(rel: seq<Byte>)
  {
    exists cs :: (forall i :: 0 <= i < |cs| ==> GoodName(cs[i])) && rel == Path(cs)
  }

  lemma {:induction false} PathNonEmpty(cs: seq<Name>)
    ensures Path(cs) != []
    decreases |cs|
  {
  }

  lemma {:induction false} PathEnd(cs: seq<Name>)
    requires cs != [] && forall i :: 0 <= i < |cs| ==> GoodName(cs[i])
    ensures Trimmed(Path(cs)) == Path(cs)
  {
    var p, n := Path(cs), cs[|cs| - 1];
    assert p[|p| - 1] == n[|n| - 1];
  }

  /** The parent of a normal path below the root is the path of its components but the last,
      and the path is that of a child of it. */
  lemma SplitNormal(cs: seq<Name>)
    requires cs != [] && forall i :: 0 <= i < |cs| ==> GoodName(cs[i])
    ensures SplitParentName(Path(cs)) == (Path(cs[..|cs| - 1]), cs[|cs| - 1])
    ensures ChildPath(Path(cs[..|cs| - 1]), cs[|cs| - 1]) == Path(cs)
  {
    hide Components, LastSlash, SplitParentName, Trimmed, ChildPath;
    var n := |cs| - 1;
    if n == 0 {
      assert Path(cs) == [SLASH] + cs[0] && Path(cs[..n]) == [SLASH];
      SplitTop(cs[0]);
    } else {
      PathNonEmpty(cs[..n]);
      PathEnd(cs[..n]);
      SplitBelow(Path(cs[..n]), cs[n]);
    }
  }

  lemma SplitTop(name: Name)
    requires GoodName(name)
    ensures SplitParentName([SLASH] + name) == ([SLASH], name) && ChildPath([SLASH], name) == [SLASH] + name
  {
    LastSlashBefore([], name);
    assert [] + [SLASH] + name == [SLASH] + name;
    assert Trimmed([SLASH]) == [] by {
      assert [SLASH][..0] == [];
    }
  }

  lemma SplitBelow(dir: seq<Byte>, name: Name)
    requires GoodName(name) && dir != [] && Trimmed(dir) == dir
    ensures SplitParentName(dir + [SLASH] + name) == (dir, name) && ChildPath(dir, name) == dir + [SLASH] + name
  {
    LastSlashBefore(dir, name);
    var p := dir + [SLASH] + name;
    assert p[..|dir|] == dir && p[|dir| + 1..] == name;
  }

  // ---------------------------------------------------------------- the cache

  class OidCache {
    var cache: map<seq<Byte>, nat>

    constructor ()
      ensures cache == map[]
    {
      cache := map[];
    }

    /** Every cached path resolves to its cached object. */
    ghost predicate Agrees(vol: Tree)
      reads this
    {
      forall k :: k in cache ==> Resolve(vol, k) == Some(cache[k])
    }

    method Insert(vol: Tree, path: seq<Byte>, oid: nat)
      requires Agrees(vol) && Resolve(vol, path) == Some(oid)
      modifies this
      ensures Agrees(vol) && cache == old(cache)[path := oid]
      ensures forall k :: k in old(cache) ==> cache[k] == old(cache)[k]
    {
      cache := cache[path := oid];
    }

    /** Other readers and walkers share the cache. Callers rely on the contract alone: entries
        may be added between any two steps, all of which agree with the volume. */
    method Interleave(vol: Tree)
      requires Agrees(vol)
      modifies this
      ensures Agrees(vol)
      ensures forall k :: k in old(cache) ==> k in cache && cache[k] == old(cache)[k]
    {
    }

    /** Caches all children of a directory. */
    method InsertChildren(vol: Tree, dir: seq<Byte>, oid: nat)
      requires WellFormed(vol) && Agrees(vol) && Resolve(vol, dir) == Some(oid)
      modifies this
      ensures Agrees(vol)
      ensures forall k :: k in old(cache) ==> k in cache && cache[k] == old(cache)[k]
      ensures forall e :: e in Listing(vol, oid) ==> ChildPath(dir, e.name) in cache
    {
      hide Resolve, ChildPath;
      var entries := Listing(vol, oid);
      for i := 0 to |entries|
        invariant Agrees(vol)
        invariant forall k :: k in old(cache) ==> k in cache && cache[k] == old(cache)[k]
        invariant forall j :: 0 <= j < i ==> ChildPath(dir, entries[j].name) in cache
      {
        ListedResolves(vol, dir, oid, i);
        Insert(vol, ChildPath(dir, entries[i].name), entries[i].oid);
      }
    }

    /** Answers from the cache, or lists the parent directory into the cache first. What it
        answers is what resolving the path gives, and for every normal path it answers
        exactly when the path resolves. */
    method ResolveOid(vol: Tree, rel: seq<Byte>) returns (r: Option<nat>)
      requires WellFormed(vol) && Agrees(vol)
      modifies this
      ensures Agrees(vol)
      ensures forall k :: k in old(cache) ==> k in cache && cache[k] == old(cache)[k]
      ensures r.Some? ==> Resolve(vol, rel) == r
      ensures Normal(rel) ==> Resolve(vol, rel) == r
    {
      hide Resolve, ChildPath, Listing, OpenDirectory, SplitParentName, WellFormed, Normal;
      if rel in cache {
        return Some(cache[rel]);
      }
      Interleave(vol);
      var parent := SplitParentName(rel).0;
      var parentOid: nat;
      if parent in cache {
        parentOid := cache[parent];
      } else {
        Interleave(vol);
        var found := OpenDirectory(vol, parent);
        if found == None {
          NoParent(vol, rel);
          return None;
        }
        parentOid := found.value;
        OpenResolves(vol, parent);
        Insert(vol, parent, parentOid);
      }
      InsertChildren(vol, parent, parentOid);
      assert parent in cache;
      Interleave(vol);
      if rel in cache {
        return Some(cache[rel]);
      }
      NotListed(vol, rel, parentOid, cache);
      r := None;
    }
  }

  lemma ListedResolves(vol: Tree, dir: seq<Byte>, oid: nat, i: nat)
    requires WellFormed(vol) && Resolve(vol, dir) == Some(oid) && i < |Listing(vol, oid)|
    ensures Resolve(vol, ChildPath(dir, Listing(vol, oid)[i].name)) == Some(Listing(vol, oid)[i].oid)
  {
    hide Lookup, Components, ChildPath;
    var es := Listing(vol, oid);
    var e := es[i];
    assert e in es;
    ChildComponents(dir, e.name);
    LookupChild(vol, Components(dir), e.name, oid);
    FindListed(es, i);
  }

  lemma {:induction false} FindListed(es: seq<DirEntry>, i: nat)
    requires i < |es| && forall a, b :: 0 <= a < b < |es| ==> es[a].name != es[b].name
    ensures Find(es, es[i].name) == Some(es[i])
    decreases |es|
  {
    if i > 0 {
      assert es[0].name != es[i].name;
      FindListed(es[1..], i - 1);
    }
  }

  lemma OpenResolves(vol: Tree, path: seq<Byte>)
    requires OpenDirectory(vol, path).Some?
    ensures Resolve(vol, path) == OpenDirectory(vol, path)
  {
  }

  /** A normal path whose parent is no directory does not resolve. */
  lemma NoParent(vol: Tree, rel: seq<Byte>)
    requires WellFormed(vol) && OpenDirectory(vol, SplitParentName(rel).0) == None
    ensures Normal(rel) ==> Resolve(vol, rel) == None
  {
    hide Components, SplitParentName, Path;
    if Normal(rel) {
      var cs: seq<Name> :| (forall i :: 0 <= i < |cs| ==> GoodName(cs[i])) && rel == Path(cs);
      ComponentsOfPath(cs);
      if cs == [] {
        RootParent(vol);
      } else {
        SplitNormal(cs);
        ComponentsOfPath(cs[..|cs| - 1]);
      }
    }
  }

  lemma RootParent(vol: Tree)
    requires WellFormed(vol)
    ensures Path([]) == [SLASH] == SplitParentName(Path([])).0 && OpenDirectory(vol, [SLASH]) == Some(vol.root)
  {
    ComponentsOfPath([]);
    LastSlashBefore([], []);
    assert [] + [SLASH] + [] == [SLASH];
  }

  /** After its parent was listed, a normal path that is still not cached does not resolve. */
  lemma NotListed(vol: Tree, rel: seq<Byte>, parentOid: nat, cache: map<seq<Byte>, nat>)
    requires WellFormed(vol) && rel !in cache
    requires SplitParentName(rel).0 in cache && Resolve(vol, SplitParentName(rel).0) == Some(parentOid)
    requires forall e :: e in Listing(vol, parentOid) ==> ChildPath(SplitParentName(rel).0, e.name) in cache
    ensures Normal(rel) ==> Resolve(vol, rel) == None
  {
    hide Components, SplitParentName, Path, ChildPath, WellFormed, Listing;
    if Normal(rel) {
      var cs: seq<Name> :| (forall i :: 0 <= i < |cs| ==> GoodName(cs[i])) && rel == Path(cs);
      if cs == [] {
        RootParent(vol);
      } else {
        SplitNormal(cs);
        ComponentsOfPath(cs);
        ComponentsOfPath(cs[..|cs| - 1]);
        FindIs(Listing(vol, parentOid), cs[|cs| - 1]);
      }
    }
  }
}
