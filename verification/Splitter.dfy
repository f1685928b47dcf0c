/** The bulk splitter: the whole feed, cut into contiguous chunks, at most one per reader. */
module Splitter {
  import opened Bytes
  import opened Items

  type Chunk = s: seq<Job> | s != [] witness [Job(0, WorkItem([], [], 0, 0, 0))]

  /** Pieces of `per` items, the last one possibly shorter. */
  function Pieces(items: seq<Job>, per: nat): seq<Chunk>
    requires per > 0
    decreases |items|
  {
    if items == [] then []
    else
      var n := Min(per, |items|);
      [items[..n]] + Pieces(items[n..], per)
  }

  function PerReader(total: nat, n: nat): nat
    requires n > 0
  {
    (total + n - 1) / n
  }

  /** What the splitter sends to `n` readers. */
  function Chunks(items: seq<Job>, n: nat): seq<Chunk>
    requires n > 0
  {
    if items == [] then [] else
      PerReaderPositive(|items|, n);
      Pieces(items, PerReader(|items|, n))
  }

  lemma PerReaderPositive(total: nat, n: nat)
    requires n > 0 && total > 0
    ensures PerReader(total, n) > 0 && PerReader(total, n) * n >= total
  {
  }

  lemma {:induction false} PiecesLaws(items: seq<Job>, per: nat, n: nat)
    requires per > 0 && |items| <= per * n
    ensures Flatten(Pieces(items, per)) == items && |Pieces(items, per)| <= n
    decreases |items|
  {
    FlattenNothing();
    if items != [] {
      hide Flatten;
      var k := Min(per, |items|);
      OneLess(|items|, per, n);
      PiecesLaws(items[k..], per, n - 1);
      assert items == items[..k] + items[k..];
      FlattenCons(items[..k], Pieces(items[k..], per));
    }
  }

  lemma {:induction false} PiecesBounded(items: seq<Job>, per: nat)
    requires per > 0
    ensures forall i :: 0 <= i < |Pieces(items, per)| ==> |Pieces(items, per)[i]| <= per
    decreases |items|
  {
    if items != [] {
      PiecesBounded(items[Min(per, |items|)..], per);
    }
  }

  lemma FlattenNothing()
    ensures Flatten<Job>([]) == []
  {
  }

  lemma OneLess(total: nat, per: nat, n: nat)
    requires 0 < total <= per * n && per > 0
    ensures n > 0 && total - Min(per, total) <= per * (n - 1)
  {
  }

  /** The chunks hold every item once, in feed order; there are at most `n`, none is empty or
      longer than its share. */
  lemma ChunksLaws(items: seq<Job>, n: nat)
    requires n > 0
    ensures Flatten(Chunks(items, n)) == items && |Chunks(items, n)| <= n
    ensures forall i :: 0 <= i < |Chunks(items, n)| ==> 0 < |Chunks(items, n)[i]| <= (|items| + n - 1) / n
  {
    if items != [] {
      PerReaderPositive(|items|, n);
      PiecesLaws(items, PerReader(|items|, n), n);
      PiecesBounded(items, PerReader(|items|, n));
    }
  }

  lemma {:induction false} PieceSizes(items: seq<Job>, per: nat, i: nat)
    requires per > 0 && i < |Pieces(items, per)|
    ensures |Pieces(items, per)[i]| == Min(per, |items| - i * per)
    decreases |items|
  {
    if i > 0 {
      NextStart(i - 1, per);
      PieceSizes(items[Min(per, |items|)..], per, i - 1);
    }
  }

  lemma {:induction false} PieceCount(items: seq<Job>, per: nat)
    requires per > 0 && items != []
    ensures |Pieces(items, per)| > 0
    ensures (|Pieces(items, per)| - 1) * per < |items| <= |Pieces(items, per)| * per
    decreases |items|
  {
    var rest := items[Min(per, |items|)..];
    if rest != [] {
      PieceCount(rest, per);
      NextStart(|Pieces(rest, per)|, per);
      NextStart(|Pieces(rest, per)| - 1, per);
    }
  }

  /** Each chunk has the total over the number of readers, rounded up, except that the last one
      takes what is left; and there are as many chunks as that takes. */
  predicate Shares(chunks: seq<Chunk>, total: nat, n: nat)
    requires n > 0
  {
    var share := (total + n - 1) / n;
    && (forall i :: 0 <= i < |chunks| ==> |chunks[i]| == Min(share, total - i * share))
    && (if total == 0 then chunks == [] else (|chunks| - 1) * share < total <= |chunks| * share)
  }

  lemma ChunkSizes(items: seq<Job>, n: nat)
    requires n > 0
    ensures Shares(Chunks(items, n), |items|, n)
  {
    hide Pieces;
    if items != [] {
      PerReaderPositive(|items|, n);
      PieceCount(items, PerReader(|items|, n));
      forall i | 0 <= i < |Chunks(items, n)|
        ensures |Chunks(items, n)[i]| == Min(PerReader(|items|, n), |items| - i * PerReader(|items|, n))
      {
        PieceSizes(items, PerReader(|items|, n), i);
      }
    } else {
      NoChunks(n);
    }
  }

  lemma PiecesStep(items: seq<Job>, per: nat, at: nat)
    requires per > 0 && at < |items|
    ensures Pieces(items[at..], per)
            == [items[at..Min(at + per, |items|)]] + Pieces(items[Min(at + per, |items|)..], per)
  {
    var k := Min(per, |items| - at);
    assert items[at..][..k] == items[at..Min(at + per, |items|)];
    assert items[at..][k..] == items[Min(at + per, |items|)..];
  }

  /** Cuts and sends; the chunk channel has room for all chunks, so `sent` is what the readers
      will receive. */
  method Split(items: seq<Job>, n: nat) returns (sent: seq<Chunk>)
    requires n > 0
    ensures sent == Chunks(items, n) && Flatten(sent) == items && |sent| <= n
    ensures Shares(sent, |items|, n)
  {
    hide Pieces, Chunks, Flatten, PerReader, Shares;
    ChunkSizes(items, n);
    var total := |items|;
    if total == 0 {
      ChunksLaws(items, n);
      NoChunks(n);
      return [];
    }
    var per := PerReader(total, n);
    ChunksLaws(items, n);
    PerReaderPositive(total, n);
    ghost var at := 0;
    sent := [];
    FirstPiece(items, n);
    var i := 0;
    while i < n
      invariant i <= n && at == Min(i * per, total)
      invariant sent + Pieces(items[at..], per) == Chunks(items, n)
    {
      var start := i * per;
      if start >= total {
        break;
      }
      NextStart(i, per);
      var end := Min((i + 1) * per, total);
      PiecesStep(items, per, start);
      sent := sent + [items[start..end]];
      at := end;
      i := i + 1;
    }
    LastStart(i, n, per, total);
    LastPiece(items, per);
  }

  lemma NoChunks(n: nat)
    requires n > 0
    ensures Chunks([], n) == []
  {
  }

  lemma FirstPiece(items: seq<Job>, n: nat)
    requires n > 0 && items != [] && PerReader(|items|, n) > 0
    ensures Chunks(items, n) == Pieces(items[0..], PerReader(|items|, n))
  {
    assert items[0..] == items;
  }

  lemma LastPiece(items: seq<Job>, per: nat)
    requires per > 0
    ensures Pieces(items[|items|..], per) == []
  {
  }

  lemma NextStart(i: nat, per: nat)
    ensures (i + 1) * per == i * per + per
  {
  }

  lemma LastStart(i: nat, n: nat, per: nat, total: nat)
    requires total <= per * n && (i >= n || i * per >= total)
    ensures i * per >= total
  {
    if i >= n {
      assert per * i == per * n + per * (i - n);
    }
  }
}
