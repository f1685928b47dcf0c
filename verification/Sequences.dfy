/** Mapping over sequences, and what it keeps of their contents. */
module Sequences {

  ghost predicate NoDup<T(!new)>(s: seq<T>)
  {
    forall i, j :: 0 <= i < j < |s| ==> s[i] != s[j]
  }

  function Map<A, B>(f: A -> B, s: seq<A>): (r: seq<B>)
    ensures |r| == |s|
  {
    if s == [] then [] else Map(f, s[..|s| - 1]) + [f(s[|s| - 1])]
  }

  lemma {:induction false} MapConcat<A, B>(f: A -> B, a: seq<A>, b: seq<A>)
    ensures Map(f, a + b) == Map(f, a) + Map(f, b)
    decreases |b|
  {
    if b == [] {
      assert a + b == a;
    } else {
      MapConcat(f, a, b[..|b| - 1]);
      assert (a + b)[..|a + b| - 1] == a + b[..|b| - 1];
    }
  }

  lemma {:induction false} MapAt<A, B>(f: A -> B, s: seq<A>)
    ensures forall i :: 0 <= i < |s| ==> Map(f, s)[i] == f(s[i])
    decreases |s|
  {
    if s != [] {
      MapAt(f, s[..|s| - 1]);
    }
  }

  lemma MapStep<A, B>(f: A -> B, s: seq<A>, i: nat)
    requires i < |s|
    ensures Map(f, s[..i + 1]) == Map(f, s[..i]) + [f(s[i])]
  {
    assert s[..i + 1][..i] == s[..i];
  }

  lemma MapNothing<A, B>(f: A -> B)
    ensures Map(f, []) == []
  {
  }

  lemma MapAppend<A, B>(f: A -> B, s: seq<A>, x: A)
    ensures Map(f, s + [x]) == Map(f, s) + [f(x)]
  {
    assert (s + [x])[..|s|] == s;
  }

  lemma Associate<A>(a: seq<A>, b: seq<A>, c: seq<A>)
    ensures (a + b) + c == a + (b + c)
  {
  }

  /** Equal contents without one equal element are equal contents. */
  lemma RemoveOne<A>(a: seq<A>, b: seq<A>) returns (k: nat)
    requires a != [] && multiset(a) == multiset(b)
    ensures k < |b| && b[k] == a[|a| - 1]
    ensures b == b[..k] + [b[k]] + b[k + 1..]
    ensures multiset(a[..|a| - 1]) == multiset(b[..k] + b[k + 1..])
  {
    var n := |a| - 1;
    assert a == a[..n] + [a[n]];
    assert a[n] in multiset(a) && a[n] in b;
    k :| 0 <= k < |b| && b[k] == a[n];
    assert b == b[..k] + [b[k]] + b[k + 1..];
    var x := a[n];
    assert multiset(a) == multiset(a[..n]) + multiset{x};
    assert multiset(b[..k] + [x] + b[k + 1..]) == multiset(b[..k] + b[k + 1..]) + multiset{x};
    assert multiset(a[..n]) == multiset(a) - multiset{x};
    assert multiset(b[..k] + b[k + 1..]) == multiset(b) - multiset{x};
  }

  /** Mapping a permutation gives a permutation. */
  lemma {:induction false} MapPermutes<A, B>(f: A -> B, a: seq<A>, b: seq<A>)
    requires multiset(a) == multiset(b)
    ensures multiset(Map(f, a)) == multiset(Map(f, b))
    decreases |a|
  {
    if a == [] {
      assert |b| == |multiset(b)| == 0;
    } else {
      var k := RemoveOne(a, b);
      MapPermutes(f, a[..|a| - 1], b[..k] + b[k + 1..]);
      MapConcat(f, b[..k], b[k + 1..]);
      MapConcat(f, b[..k], [b[k]]);
      MapConcat(f, b[..k] + [b[k]], b[k + 1..]);
      MapStep(f, [b[k]], 0);
    }
  }

  /** Mapping a part gives a part. */
  lemma {:induction false} MapPart<A, B>(f: A -> B, a: seq<A>, b: seq<A>)
    requires multiset(a) <= multiset(b)
    ensures multiset(Map(f, a)) <= multiset(Map(f, b))
    decreases |a|
  {
    if a != [] {
      hide Map;
      var n := |a| - 1;
      var x := a[n];
      assert a == a[..n] + [x] && x in multiset(a);
      var k :| 0 <= k < |b| && b[k] == x;
      PartWithout(a, b, k);
      MapPart(f, a[..n], Without(b, k));
      MapWithout(f, b, k);
      MapAppend(f, a[..n], x);
    }
  }

  lemma PartWithout<A>(a: seq<A>, b: seq<A>, k: nat)
    requires a != [] && k < |b| && b[k] == a[|a| - 1] && multiset(a) <= multiset(b)
    ensures multiset(a[..|a| - 1]) <= multiset(Without(b, k))
  {
    var n := |a| - 1;
    assert a == a[..n] + [a[n]];
    assert b == b[..k] + [b[k]] + b[k + 1..];
    assert multiset(a[..n]) == multiset(a) - multiset{a[n]};
    assert multiset(Without(b, k)) == multiset(b) - multiset{b[k]};
  }

  lemma MapWithout<A, B>(f: A -> B, s: seq<A>, k: nat)
    requires k < |s|
    ensures multiset(Map(f, s)) == multiset(Map(f, Without(s, k))) + multiset{f(s[k])}
  {
    hide Map;
    assert s == s[..k + 1] + s[k + 1..];
    assert s[..k + 1] == s[..k] + [s[k]];
    MapConcat(f, s[..k + 1], s[k + 1..]);
    MapAppend(f, s[..k], s[k]);
    MapConcat(f, s[..k], s[k + 1..]);
    Middle(Map(f, s[..k]), f(s[k]), Map(f, s[k + 1..]));
  }

  lemma Middle<A>(a: seq<A>, x: A, b: seq<A>)
    ensures multiset((a + [x]) + b) == multiset(a + b) + multiset{x}
  {
  }

  function Sum<A>(w: A -> nat, s: seq<A>): nat
  {
    if s == [] then 0 else Sum(w, s[..|s| - 1]) + w(s[|s| - 1])
  }

  lemma {:induction false} SumConcat<A>(w: A -> nat, a: seq<A>, b: seq<A>)
    ensures Sum(w, a + b) == Sum(w, a) + Sum(w, b)
    decreases |b|
  {
    if b == [] {
      assert a + b == a;
    } else {
      SumConcat(w, a, b[..|b| - 1]);
      assert (a + b)[..|a + b| - 1] == a + b[..|b| - 1];
    }
  }

  /** Totals do not depend on the order. */
  lemma {:induction false} SumPermutes<A>(w: A -> nat, a: seq<A>, b: seq<A>)
    requires multiset(a) == multiset(b)
    ensures Sum(w, a) == Sum(w, b)
    decreases |a|
  {
    if a == [] {
      assert |b| == |multiset(b)| == 0;
    } else {
      var k := RemoveOne(a, b);
      SumPermutes(w, a[..|a| - 1], b[..k] + b[k + 1..]);
      SumConcat(w, b[..k], b[k + 1..]);
      SumConcat(w, b[..k], [b[k]]);
      SumConcat(w, b[..k] + [b[k]], b[k + 1..]);
    }
  }

  lemma {:induction false} SumUpdate<A>(w: A -> nat, s: seq<A>, i: nat, x: A)
    requires i < |s|
    ensures Sum(w, s[i := x]) + w(s[i]) == Sum(w, s) + w(x)
    decreases |s|
  {
    var n := |s| - 1;
    if i < n {
      SumUpdate(w, s[..n], i, x);
      assert s[i := x][..n] == s[..n][i := x];
    } else {
      assert s[i := x][..n] == s[..n];
    }
  }

  lemma SumOne<A>(w: A -> nat, x: A)
    ensures Sum(w, [x]) == w(x) && Sum(w, []) == 0
  {
    assert [x][..0] == [];
  }

  lemma SumAppend<A>(w: A -> nat, s: seq<A>, x: A)
    ensures Sum(w, s + [x]) == Sum(w, s) + w(x)
  {
    assert (s + [x])[..|s|] == s;
  }

  /** Taking the first element away. */
  lemma SumTail<A>(w: A -> nat, s: seq<A>)
    requires s != []
    ensures Sum(w, s) == w(s[0]) + Sum(w, s[1..])
  {
    assert s == [s[0]] + s[1..];
    SumConcat(w, [s[0]], s[1..]);
    SumOne(w, s[0]);
  }

  function Without<A>(s: seq<A>, k: nat): (r: seq<A>)
    requires k < |s|
    ensures |r| == |s| - 1
  {
    s[..k] + s[k + 1..]
  }

  lemma {:induction false} SumWithout<A>(w: A -> nat, s: seq<A>, k: nat)
    requires k < |s|
    ensures Sum(w, s) == w(s[k]) + Sum(w, Without(s, k))
    decreases |s|
  {
    var n := |s| - 1;
    if k < n {
      SumWithout(w, s[..n], k);
      assert Without(s, k)[..n - 1] == Without(s[..n], k);
    } else {
      assert Without(s, k) == s[..n];
    }
  }

  // ---------------------------------------------------------------- sets of numbers

  /** The first `n` numbers. */
  function Below(n: nat): set<nat>
  {
    if n == 0 then {} else Below(n - 1) + {n - 1}
  }

  lemma {:induction false} InBelow(n: nat, i: nat)
    ensures i in Below(n) <==> i < n
  {
    if n > 0 {
      InBelow(n - 1, i);
    }
  }

  lemma {:induction false} BelowSize(n: nat)
    ensures |Below(n)| == n
  {
    if n > 0 {
      BelowSize(n - 1);
      InBelow(n - 1, n - 1);
    }
  }

  lemma BelowFacts(n: nat)
    ensures (forall i: nat :: i in Below(n) <==> i < n) && |Below(n)| == n
  {
    hide Below;
    BelowSize(n);
    forall i: nat
      ensures i in Below(n) <==> i < n
    {
      InBelow(n, i);
    }
  }

  lemma SubsetSize(a: set<nat>, b: set<nat>)
    requires a <= b
    ensures |a| <= |b|
  {
    assert b == a + (b - a);
  }
}
