/** The exclude patterns: `*` stands for any bytes, `?` for one byte, everything else for
    itself, anchored at both ends. */
module Glob {
  import opened Bytes

  const STAR: Byte := 0x2A
  const QUESTION: Byte := 0x3F

  function GlobMatch(p: seq<Byte>, t: seq<Byte>): bool
    decreases |p| + |t|
  {
    if p == [] then t == []
    else if p[0] == STAR then GlobMatch(p[1..], t) || (t != [] && GlobMatch(p, t[1..]))
    else if t == [] then false
    else if p[0] == QUESTION then GlobMatch(p[1..], t[1..])
    else p[0] == t[0] && GlobMatch(p[1..], t[1..])
  }

  function IsExcluded(name: seq<Byte>, globs: seq<seq<Byte>>): bool
  {
    exists g :: 0 <= g < |globs| && GlobMatch(globs[g], name)
  }

  // ---------------------------------------------------------------- what a pattern means

  /** What one pattern byte stands for. */
  predicate Stands(c: Byte, part: seq<Byte>)
  {
    c == STAR || (|part| == 1 && (c == QUESTION || part[0] == c))
  }

  /** `parts` are consecutive pieces of `t`, one for each pattern byte, each of which stands
      for its piece. */
  ghost predicate Aligned(p: seq<Byte>, t: seq<Byte>, parts: seq<seq<Byte>>)
  {
    |parts| == |p| && Flatten(parts) == t && forall i :: 0 <= i < |p| ==> Stands(p[i], parts[i])
  }

  ghost predicate Means(p: seq<Byte>, t: seq<Byte>)
  {
    exists parts :: Aligned(p, t, parts)
  }

  lemma {:induction false} AlignedCons(c: Byte, p: seq<Byte>, part: seq<Byte>, t: seq<Byte>, parts: seq<seq<Byte>>)
    requires Aligned(p, t, parts) && Stands(c, part)
    ensures Aligned([c] + p, part + t, [part] + parts)
  {
    hide Flatten;
    FlattenCons(part, parts);
  }

  lemma {:induction false} AlignedTail(p: seq<Byte>, t: seq<Byte>, parts: seq<seq<Byte>>)
    requires Aligned(p, t, parts) && p != []
    ensures Stands(p[0], parts[0]) && parts[0] <= t && Aligned(p[1..], t[|parts[0]|..], parts[1..])
  {
    hide Flatten;
    assert parts == [parts[0]] + parts[1..];
    FlattenCons(parts[0], parts[1..]);
  }

  /** A star takes any prefix. */
  lemma {:induction false} StarMatch(p: seq<Byte>, t: seq<Byte>, k: nat)
    requires p != [] && p[0] == STAR && k <= |t| && GlobMatch(p[1..], t[k..])
    ensures GlobMatch(p, t)
    decreases k
  {
    if k == 0 {
      assert t[0..] == t;
    } else {
      assert t[1..][k - 1..] == t[k..];
      StarMatch(p, t[1..], k - 1);
    }
  }

  lemma {:induction false} MatchMeans(p: seq<Byte>, t: seq<Byte>)
    requires GlobMatch(p, t)
    ensures Means(p, t)
    decreases |p| + |t|
  {
    if p == [] {
      assert Aligned(p, t, []);
    } else {
      var c, rest := p[0], p[1..];
      assert p == [c] + rest;
      if c == STAR && GlobMatch(rest, t) {
        MatchMeans(rest, t);
        var parts :| Aligned(rest, t, parts);
        AlignedCons(c, rest, [], t, parts);
        assert [] + t == t;
      } else if c == STAR {
        MatchMeans(p, t[1..]);
        var parts :| Aligned(p, t[1..], parts);
        AlignedTail(p, t[1..], parts);
        var longer := [t[0]] + parts[0];
        AlignedCons(c, rest, longer, t[1..][|parts[0]|..], parts[1..]);
        assert longer + t[1..][|parts[0]|..] == t;
      } else {
        MatchMeans(rest, t[1..]);
        var parts :| Aligned(rest, t[1..], parts);
        AlignedCons(c, rest, [t[0]], t[1..], parts);
        assert [t[0]] + t[1..] == t;
      }
    }
  }

  lemma {:induction false} MeansMatch(p: seq<Byte>, t: seq<Byte>, parts: seq<seq<Byte>>)
    requires Aligned(p, t, parts)
    ensures GlobMatch(p, t)
    decreases |p|
  {
    if p != [] {
      AlignedTail(p, t, parts);
      MeansMatch(p[1..], t[|parts[0]|..], parts[1..]);
      if p[0] == STAR {
        StarMatch(p, t, |parts[0]|);
      }
    }
  }

  /** Matching is exactly the declarative meaning. */
  lemma MatchIsMeaning(p: seq<Byte>, t: seq<Byte>)
    ensures GlobMatch(p, t) <==> Means(p, t)
  {
    if GlobMatch(p, t) {
      MatchMeans(p, t);
    }
    if Means(p, t) {
      var parts :| Aligned(p, t, parts);
      MeansMatch(p, t, parts);
    }
  }

  // ---------------------------------------------------------------- concatenation

  lemma {:induction false} Join(p: seq<Byte>, q: seq<Byte>, t: seq<Byte>, u: seq<Byte>)
    requires GlobMatch(p, t) && GlobMatch(q, u)
    ensures GlobMatch(p + q, t + u)
    decreases |p| + |t|
  {
    if p == [] {
      assert p + q == q && t + u == u;
    } else {
      assert (p + q)[1..] == p[1..] + q;
      if p[0] == STAR && GlobMatch(p[1..], t) {
        Join(p[1..], q, t, u);
      } else {
        assert (t + u)[1..] == t[1..] + u;
        Join(if p[0] == STAR then p else p[1..], q, t[1..], u);
      }
    }
  }

  lemma {:induction false} Part(p: seq<Byte>, q: seq<Byte>, t: seq<Byte>) returns (k: nat)
    requires GlobMatch(p + q, t)
    ensures k <= |t| && GlobMatch(p, t[..k]) && GlobMatch(q, t[k..])
    decreases |p| + |t|
  {
    if p == [] {
      assert p + q == q && t[0..] == t;
      k := 0;
    } else {
      assert (p + q)[1..] == p[1..] + q;
      if p[0] == STAR && GlobMatch(p[1..] + q, t) {
        k := Part(p[1..], q, t);
      } else {
        k := Part(if p[0] == STAR then p else p[1..], q, t[1..]);
        assert t[1..][k..] == t[k + 1..];
        assert t[..k + 1][1..] == t[1..][..k];
        k := k + 1;
      }
    }
  }

  /** A concatenated pattern matches exactly the concatenations. */
  lemma MatchConcatenation(p: seq<Byte>, q: seq<Byte>, t: seq<Byte>)
    ensures GlobMatch(p + q, t) <==> exists k :: 0 <= k <= |t| && GlobMatch(p, t[..k]) && GlobMatch(q, t[k..])
  {
    if GlobMatch(p + q, t) {
      var k := Part(p, q, t);
    }
    if k :| 0 <= k <= |t| && GlobMatch(p, t[..k]) && GlobMatch(q, t[k..]) {
      Join(p, q, t[..k], t[k..]);
      assert t[..k] + t[k..] == t;
    }
  }

  /** What the pattern bytes stand for, one by one: `*` (0x2A) for any bytes, `?` (0x3F) for any one
      byte, and each other byte for itself. */
  lemma ByteMeanings(c: Byte, t: seq<Byte>)
    ensures Means([c], t) <==> c == 0x2A || (|t| == 1 && (c == 0x3F || t == [c]))
  {
    if Means([c], t) {
      var parts :| Aligned([c], t, parts);
      assert parts == [parts[0]];
      FlattenCons(parts[0], []);
    }
    if c == 0x2A || (|t| == 1 && (c == 0x3F || t == [c])) {
      FlattenCons(t, []);
      assert Aligned([c], t, [t]);
    }
  }

  /** A question mark stands for one byte: no character whose encoding is longer. */
  lemma {:induction false} QuestionIsOneByte(p: seq<Byte>, t: seq<Byte>)
    requires forall i :: 0 <= i < |p| ==> p[i] == QUESTION
    ensures GlobMatch(p, t) <==> |t| == |p|
    decreases |p|
  {
    if p != [] && t != [] {
      QuestionIsOneByte(p[1..], t[1..]);
    }
  }

  /** A name is kept when no pattern's meaning covers it. */
  lemma Kept(name: seq<Byte>, globs: seq<seq<Byte>>)
    ensures !IsExcluded(name, globs) <==> forall g :: 0 <= g < |globs| ==> !Means(globs[g], name)
  {
    forall g | 0 <= g < |globs|
      ensures GlobMatch(globs[g], name) <==> Means(globs[g], name)
    {
      MatchIsMeaning(globs[g], name);
    }
  }
}
