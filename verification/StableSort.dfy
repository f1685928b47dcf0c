/** The stable sort that the readers and the walker rely on, as a function, with the laws that
    determine it. */
module StableSort {

  /** Total and transitive. */
  ghost predicate Order<T(!new)>(le: (T, T) -> bool)
  {
    && (forall a, b :: le(a, b) || le(b, a))
    && (forall a, b, c :: le(a, b) && le(b, c) ==> le(a, c))
  }

  /** Ordering by an integer. */
  function ByKey<T>(key: T -> int): (T, T) -> bool { (a: T, b: T) => key(a) <= key(b) }

  lemma KeyOrder<T(!new)>(key: T -> int)
    ensures Order(ByKey(key))
  {
  }

  predicate SortedBy<T>(s: seq<T>, le: (T, T) -> bool)
  {
    forall i, j :: 0 <= i < j < |s| ==> le(s[i], s[j])
  }

  /** Elements that rank like `x`, in order. */
  function Like<T>(s: seq<T>, le: (T, T) -> bool, x: T): seq<T>
  {
    if s == [] then [] else (if le(x, s[0]) && le(s[0], x) then [s[0]] else []) + Like(s[1..], le, x)
  }

  /** `x` in front of the first element that does not rank lower. */
  function Insert<T>(x: T, s: seq<T>, le: (T, T) -> bool): seq<T>
  {
    if s == [] || le(x, s[0]) then [x] + s else [s[0]] + Insert(x, s[1..], le)
  }

  function SortBy<T>(s: seq<T>, le: (T, T) -> bool): seq<T>
  {
    if s == [] then [] else Insert(s[0], SortBy(s[1..], le), le)
  }

  lemma {:induction false} InsertPermutes<T>(x: T, s: seq<T>, le: (T, T) -> bool)
    ensures multiset(Insert(x, s, le)) == multiset{x} + multiset(s)
  {
    if s != [] && !le(x, s[0]) {
      assert s == [s[0]] + s[1..];
      InsertPermutes(x, s[1..], le);
    }
  }

  lemma {:induction false} InsertSorted<T(!new)>(x: T, s: seq<T>, le: (T, T) -> bool)
    requires Order(le) && SortedBy(s, le)
    ensures SortedBy(Insert(x, s, le), le)
  {
    if s != [] && !le(x, s[0]) {
      InsertSorted(x, s[1..], le);
      InsertPermutes(x, s[1..], le);
      LowestFirst(s[0], Insert(x, s[1..], le), le, multiset{x} + multiset(s[1..]));
    }
  }

  /** Putting an element in front of higher ones. */
  lemma LowestFirst<T>(first: T, rest: seq<T>, le: (T, T) -> bool, all: multiset<T>)
    requires SortedBy(rest, le) && multiset(rest) == all && forall y :: y in all ==> le(first, y)
    ensures SortedBy([first] + rest, le)
  {
    forall j | 0 <= j < |rest|
      ensures le(first, rest[j])
    {
      assert rest[j] in multiset(rest);
    }
  }

  lemma {:induction false} InsertStable<T(!new)>(x: T, s: seq<T>, le: (T, T) -> bool, y: T)
    requires Order(le)
    ensures Like(Insert(x, s, le), le, y) == (if le(y, x) && le(x, y) then [x] else []) + Like(s, le, y)
  {
    if s == [] || le(x, s[0]) {
      LikeCons(x, s, le, y);
    } else {
      hide Like;
      InsertStable(x, s[1..], le, y);
      LikeCons(s[0], Insert(x, s[1..], le), le, y);
      LikeCons(s[0], s[1..], le, y);
      assert s == [s[0]] + s[1..];
      NotAlike(x, s[0], le, y);
    }
  }

  lemma LikeCons<T>(x: T, s: seq<T>, le: (T, T) -> bool, y: T)
    ensures Like([x] + s, le, y) == (if le(y, x) && le(x, y) then [x] else []) + Like(s, le, y)
  {
    assert ([x] + s)[1..] == s;
  }

  lemma NotAlike<T(!new)>(x: T, z: T, le: (T, T) -> bool, y: T)
    requires Order(le) && !le(x, z)
    ensures le(y, x) && le(x, y) ==> !(le(y, z) && le(z, y))
  {
  }

  /** The sort is a sorted permutation that keeps the order of elements that rank alike. */
  lemma {:induction false} SortLaws<T(!new)>(s: seq<T>, le: (T, T) -> bool)
    requires Order(le)
    ensures SortedBy(SortBy(s, le), le)
    ensures multiset(SortBy(s, le)) == multiset(s)
    ensures forall x :: Like(SortBy(s, le), le, x) == Like(s, le, x)
  {
    if s != [] {
      hide Order, SortedBy, Insert;
      SortLaws(s[1..], le);
      InsertSorted(s[0], SortBy(s[1..], le), le);
      InsertPermutes(s[0], SortBy(s[1..], le), le);
      assert s == [s[0]] + s[1..];
      forall x
        ensures Like(SortBy(s, le), le, x) == Like(s, le, x)
      {
        InsertStable(s[0], SortBy(s[1..], le), le, x);
      }
    }
  }

  /** These laws leave no freedom: two sorted sequences that agree on the elements of every rank
      are equal. So any stable sorting algorithm computes `SortBy`. */
  lemma {:induction false} SortUnique<T(!new)>(a: seq<T>, b: seq<T>, le: (T, T) -> bool)
    requires Order(le) && SortedBy(a, le) && SortedBy(b, le)
    requires forall x :: Like(a, le, x) == Like(b, le, x)
    ensures a == b
  {
    hide Like, Order;
    if a != [] {
      BothNonEmpty(a, b, le);
      SameFirst(a, b, le);
      forall x
        ensures Like(a[1..], le, x) == Like(b[1..], le, x)
      {
        LikeTail(a, b, le, x);
      }
      SortUnique(a[1..], b[1..], le);
      assert a == [a[0]] + a[1..] && b == [b[0]] + b[1..];
    } else if b != [] {
      BothNonEmpty(b, a, le);
    }
  }

  lemma FirstLike<T(!new)>(a: seq<T>, le: (T, T) -> bool)
    requires Order(le) && a != []
    ensures Like(a, le, a[0]) != [] && Like(a, le, a[0])[0] == a[0]
  {
    assert le(a[0], a[0]);
  }

  lemma BothNonEmpty<T(!new)>(a: seq<T>, b: seq<T>, le: (T, T) -> bool)
    requires Order(le) && a != [] && forall x :: Like(a, le, x) == Like(b, le, x)
    ensures b != []
  {
    FirstLike(a, le);
    assert Like(b, le, a[0]) != [];
  }

  lemma {:induction false} LikeIn<T(!new)>(a: seq<T>, le: (T, T) -> bool, x: T)
    requires Like(a, le, x) != []
    ensures exists i :: 0 <= i < |a| && le(x, a[i]) && le(a[i], x)
  {
    if !(le(x, a[0]) && le(a[0], x)) {
      LikeIn(a[1..], le, x);
      var i :| 0 <= i < |a[1..]| && le(x, a[1..][i]) && le(a[1..][i], x);
      assert le(x, a[i + 1]) && le(a[i + 1], x);
    }
  }

  lemma FirstIsLeast<T(!new)>(a: seq<T>, b: seq<T>, le: (T, T) -> bool)
    requires Order(le) && a != [] && b != [] && SortedBy(a, le)
    requires Like(a, le, b[0]) == Like(b, le, b[0])
    ensures le(a[0], b[0])
  {
    FirstLike(b, le);
    LikeIn(a, le, b[0]);
    var i :| 0 <= i < |a| && le(b[0], a[i]) && le(a[i], b[0]);
    assert le(a[0], a[0]) && le(a[0], a[i]);
  }

  lemma SameFirst<T(!new)>(a: seq<T>, b: seq<T>, le: (T, T) -> bool)
    requires Order(le) && a != [] && b != [] && SortedBy(a, le) && SortedBy(b, le)
    requires forall x :: Like(a, le, x) == Like(b, le, x)
    ensures a[0] == b[0]
  {
    FirstIsLeast(a, b, le);
    FirstIsLeast(b, a, le);
    FirstLike(a, le);
    LikeFirst(b, le, a[0]);
  }

  lemma LikeFirst<T>(b: seq<T>, le: (T, T) -> bool, x: T)
    requires b != [] && le(x, b[0]) && le(b[0], x)
    ensures Like(b, le, x) != [] && Like(b, le, x)[0] == b[0]
  {
  }

  lemma LikeTail<T>(a: seq<T>, b: seq<T>, le: (T, T) -> bool, x: T)
    requires a != [] && b != [] && a[0] == b[0] && Like(a, le, x) == Like(b, le, x)
    ensures Like(a[1..], le, x) == Like(b[1..], le, x)
  {
    var pre := if le(x, a[0]) && le(a[0], x) then [a[0]] else [];
    assert Like(a[1..], le, x) == Like(a, le, x)[|pre|..];
  }
}
