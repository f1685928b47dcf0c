/** The batch walk's order: whatever order the walkers discover files in, the list is sorted by
    archive name before it is numbered. */
module WalkOrder {
  import opened Bytes
  import opened Items
  import opened StableSort

  /** Byte-wise lexicographic order. */
  predicate Leq(a: seq<Byte>, b: seq<Byte>)
  {
    a == [] || (b != [] && (a[0] < b[0] || (a[0] == b[0] && Leq(a[1..], b[1..]))))
  }

  lemma {:induction false} LeqTotal(a: seq<Byte>, b: seq<Byte>)
    ensures Leq(a, b) || Leq(b, a)
    ensures Leq(a, b) && Leq(b, a) ==> a == b
    decreases |a|
  {
    if a != [] && b != [] {
      LeqTotal(a[1..], b[1..]);
      assert a == [a[0]] + a[1..] && b == [b[0]] + b[1..];
    }
  }

  lemma {:induction false} LeqTransitive(a: seq<Byte>, b: seq<Byte>, c: seq<Byte>)
    requires Leq(a, b) && Leq(b, c)
    ensures Leq(a, c)
    decreases |a|
  {
    if a != [] && a[0] == b[0] == c[0] {
      LeqTransitive(a[1..], b[1..], c[1..]);
    }
  }

  /** At the first byte where two names differ, the smaller byte comes first; where there is none,
      the shorter name does. */
  lemma {:induction false} FirstDifference(a: seq<Byte>, b: seq<Byte>, k: nat)
    requires k <= |a| && k <= |b| && a[..k] == b[..k]
    requires k < |a| && k < |b| ==> a[k] != b[k]
    ensures Leq(a, b) <==> if k < |a| && k < |b| then a[k] < b[k] else k == |a|
    decreases k
  {
    if k > 0 {
      assert a[0] == a[..k][0] && b[0] == b[..k][0];
      assert a[1..][..k - 1] == a[..k][1..] && b[1..][..k - 1] == b[..k][1..];
      FirstDifference(a[1..], b[1..], k - 1);
    }
  }

  function ByName(): (WorkItem, WorkItem) -> bool { (x: WorkItem, y: WorkItem) => Leq(x.name, y.name) }

  lemma NameOrder()
    ensures Order(ByName())
    ensures forall x, y :: ByName()(x, y) && ByName()(y, x) <==> x.name == y.name
  {
    forall x: WorkItem, y: WorkItem
      ensures ByName()(x, y) || ByName()(y, x)
      ensures ByName()(x, y) && ByName()(y, x) <==> x.name == y.name
    {
      LeqTotal(x.name, y.name);
    }
    forall x: WorkItem, y: WorkItem, z: WorkItem | ByName()(x, y) && ByName()(y, z)
      ensures ByName()(x, z)
    {
      LeqTransitive(x.name, y.name, z.name);
    }
  }

  /** In the sorted list no name stands before a smaller one. */
  lemma NamesAscend(s: seq<WorkItem>, i: nat, j: nat)
    requires i < j < |SortByName(s)|
    ensures Leq(SortByName(s)[i].name, SortByName(s)[j].name) && multiset(SortByName(s)) == multiset(s)
  {
    NameOrder();
    hide Leq, Order, SortBy;
    SortLaws(s, ByName());
  }

  /** The stable sort by archive name. */
  function SortByName(s: seq<WorkItem>): seq<WorkItem> { SortBy(s, ByName()) }

  /** Items with the same archive name are the same item. */
  predicate NamesIdentify(s: seq<WorkItem>)
  {
    forall x, y :: x in s && y in s && x.name == y.name ==> x == y
  }

  lemma {:induction false} SortedUnique(a: seq<WorkItem>, b: seq<WorkItem>)
    requires SortedBy(a, ByName()) && SortedBy(b, ByName()) && multiset(a) == multiset(b) && NamesIdentify(a)
    ensures a == b
    decreases |a|
  {
    hide ByName;
    assert |a| == |multiset(a)| == |multiset(b)| == |b|;
    if a != [] {
      FirstSame(a, b);
      assert a == [a[0]] + a[1..] && b == [b[0]] + b[1..];
      assert multiset(a[1..]) == multiset(a) - multiset{a[0]};
      assert multiset(b[1..]) == multiset(b) - multiset{b[0]};
      SortedUnique(a[1..], b[1..]);
    }
  }

  lemma FirstSame(a: seq<WorkItem>, b: seq<WorkItem>)
    requires a != [] && b != []
    requires SortedBy(a, ByName()) && SortedBy(b, ByName()) && multiset(a) == multiset(b) && NamesIdentify(a)
    ensures a[0] == b[0]
  {
    hide ByName;
    NameOrder();
    assert a[0] in multiset(b) && b[0] in multiset(a);
    var i :| 0 <= i < |a| && a[i] == b[0];
    var j :| 0 <= j < |b| && b[j] == a[0];
    assert ByName()(a[0], a[i]) && ByName()(b[0], b[j]);
  }

  /** The order in which the walkers find the files does not matter, if and only if no two
      different files share an archive name. */
  lemma WalkOrderIsFixed(s: seq<WorkItem>)
    ensures (forall t :: multiset(t) == multiset(s) ==> SortByName(t) == SortByName(s)) <==> NamesIdentify(s)
  {
    hide SortByName;
    if NamesIdentify(s) {
      forall t | multiset(t) == multiset(s)
        ensures SortByName(t) == SortByName(s)
      {
        SameSort(s, t);
      }
    } else {
      var t, u := DifferentSorts(s);
    }
  }

  lemma SameSort(s: seq<WorkItem>, t: seq<WorkItem>)
    requires NamesIdentify(s) && multiset(t) == multiset(s)
    ensures SortByName(t) == SortByName(s)
  {
    NameOrder();
    hide ByName, Order, SortBy, SortedBy, NamesIdentify;
    SortLaws(s, ByName());
    SortLaws(t, ByName());
    NamesCarry(s, SortByName(s));
    SortedUnique(SortByName(s), SortByName(t));
  }

  lemma DifferentSorts(s: seq<WorkItem>) returns (t: seq<WorkItem>, u: seq<WorkItem>)
    requires !NamesIdentify(s)
    ensures multiset(t) == multiset(u) == multiset(s) && SortByName(t) != SortByName(u)
  {
    var x, y :| x in s && y in s && x.name == y.name && x != y;
    t := ToFront(s, x);
    u := ToFront(s, y);
    NameOrder();
    hide ByName, Order, SortBy, SortedBy, NamesIdentify, Like;
    SortLaws(t, ByName());
    SortLaws(u, ByName());
    LikeFirst(t, ByName(), x);
    LikeFirst(u, ByName(), x);
    assert Like(t, ByName(), x)[0] == x && Like(u, ByName(), x)[0] == y;
  }

  lemma NamesCarry(s: seq<WorkItem>, t: seq<WorkItem>)
    requires NamesIdentify(s) && multiset(s) == multiset(t)
    ensures NamesIdentify(t)
  {
    forall x | x in t
      ensures x in s
    {
      assert x in multiset(s);
    }
  }

  lemma ToFront(s: seq<WorkItem>, x: WorkItem) returns (t: seq<WorkItem>)
    requires x in s
    ensures t != [] && t[0] == x && multiset(t) == multiset(s)
  {
    var k :| 0 <= k < |s| && s[k] == x;
    t := [x] + (s[..k] + s[k + 1..]);
    assert s == s[..k] + [x] + s[k + 1..];
  }
}
