/** The block-aligned raw-device reader: a cache-hit path, widened reads and bypassing
    large reads, over a device whose reads may be short, interrupted or fail. It refines
    a plain byte-addressed device. */
module AlignedReader {
  import opened Bytes
  import opened BlockCache

  /** Small physical reads are widened to this many bytes. */
  const READ_AHEAD: nat := 256 * 1024

  datatype IoResult<+T> = Ok(value: T) | Interrupted | Failed

  /** What the device does with one read request: a transfer of at most `n` bytes, an
      interruption, or an error. */
  datatype Reply = Transfer(n: nat) | Interrupt | Fail

  /** The bytes of `device` in [at, at + want), cut at the end of the device. */
  function Slice(device: seq<Byte>, at: nat, want: nat): (s: seq<Byte>)
    ensures |s| == if at >= |device| then 0 else Min(want, |device| - at)
  {
    if at >= |device| then [] else device[at..at + Min(want, |device| - at)]
  }

  /** The answer to a request, in the device's own terms. */
  predicate Served(device: seq<Byte>, at: nat, want: nat, bytes: seq<Byte>)
  {
    bytes == if at > |device| then [] else device[at..Min(at + want, |device|)]
  }

  lemma SliceServed(device: seq<Byte>, at: nat, want: nat)
    ensures Served(device, at, want, Slice(device, at, want))
  {
  }

  lemma SliceJoin(device: seq<Byte>, at: nat, n: nat, m: nat)
    requires n == |Slice(device, at, n)|
    ensures Slice(device, at, n) + Slice(device, at + n, m) == Slice(device, at, n + m)
  {
    if at + n < |device| {
      var k := Min(m, |device| - at - n);
      assert Slice(device, at, n) == device[at..at + n] && Slice(device, at + n, m) == device[at + n..at + n + k];
      assert Slice(device, at, n + m) == device[at..at + n + k];
      hide Slice;
      assert device[at..at + n + k] == device[at..at + n] + device[at + n..at + n + k];
    }
  }

  lemma SliceSelf(device: seq<Byte>, at: nat, want: nat)
    ensures Slice(device, at, |Slice(device, at, want)|) == Slice(device, at, want)
  {
  }

  lemma SliceNone(device: seq<Byte>, at: nat)
    ensures Slice(device, at, 0) == []
  {
  }

  lemma SliceEnd(device: seq<Byte>, at: nat, got: nat, want: nat)
    requires got <= want && got == |Slice(device, at, got)|
    requires got == want || at + got >= |device|
    ensures Slice(device, at, got) == Slice(device, at, want)
  {
  }

  lemma SliceOfSlice(device: seq<Byte>, at: nat, want: nat, off: nat, n: nat)
    requires off + n <= |Slice(device, at, want)|
    ensures Slice(device, at, want)[off..off + n] == Slice(device, at + off, n)
  {
  }

  lemma Splice<T>(s: seq<T>, at: nat, bytes: seq<T>)
    requires at + |bytes| <= |s|
    ensures var t := s[..at] + bytes + s[at + |bytes|..];
            |t| == |s| && t[..at + |bytes|] == s[..at] + bytes
  {
  }

  lemma SubSlice<T>(s: seq<T>, got: nat, off: nat, n: nat)
    requires off + n <= got <= |s|
    ensures s[..got][off..off + n] == s[off..off + n]
  {
  }

  /** An open file on the immutable device. `script` fixes how the next requests go; once it
      is used up, requests transfer in full. Every behaviour is some script. */
  class RawFile {
    const data: seq<Byte>
    var at: nat
    var script: seq<Reply>

    constructor (data: seq<Byte>, script: seq<Reply>)
      ensures this.data == data && this.script == script && at == 0
    {
      this.data, this.script, at := data, script, 0;
    }

    method Seek(pos: nat)
      modifies this`at
      ensures at == pos
    {
      at := pos;
    }

    /** 0 bytes only at the end of the device or for an empty request. */
    method Read(want: nat) returns (r: IoResult<seq<Byte>>)
      modifies this
      ensures r.Ok? ==> r.value == Slice(data, old(at), |r.value|) && |r.value| <= want && at == old(at) + |r.value|
      ensures r.Ok? && r.value == [] ==> want == 0 || old(at) >= |data|
      ensures !r.Ok? ==> at == old(at) && |script| < |old(script)|
      ensures script == old(script) || (old(script) != [] && script == old(script)[1..])
      ensures r.Failed? ==> Fail in old(script)
    {
      var full := Slice(data, at, want);
      if script == [] {
        at := at + |full|;
        return Ok(full);
      }
      var reply := script[0];
      script := script[1..];
      match reply
      case Interrupt => r := Interrupted;
      case Fail => r := Failed;
      case Transfer(n) =>
        var got := if full == [] then full else full[..Max(1, Min(n, |full|))];
        at := at + |got|;
        r := Ok(got);
    }
  }

  /** Rounding to a multiple of the block size; for a power of two this is the source's mask. */
  function AlignDown(n: nat, block: nat): (r: nat)
    requires block > 0
    ensures r <= n < r + block
  {
    n - n % block
  }

  function AlignUp(n: nat, block: nat): (r: nat)
    requires block > 0
    ensures n <= r < n + block
  {
    AlignDown(n + block - 1, block)
  }

  class AlignedRawReader {
    const file: RawFile
    const block: nat
    const cache: SharedBlockCache
    var pos: U64
    var scratch: seq<Byte>

    ghost predicate Valid()
      reads this, file, cache, cache.shards
    {
      && cache.Valid() && cache.Truthful(file.data)
      && cache.block == block && 0 < block < 0x1_0000_0000
      && |file.data| <= U64_MAX
    }

    constructor (file: RawFile, cache: SharedBlockCache)
      requires cache.Valid() && cache.Truthful(file.data) && cache.block < 0x1_0000_0000
      requires |file.data| <= U64_MAX
      ensures Valid() && pos == 0 && this.file == file && this.cache == cache && block == cache.block
    {
      this.file, this.cache, this.block := file, cache, cache.block;
      pos, scratch := 0, [];
    }

    /** Reads up to `want` bytes at the current position: exactly the device's bytes there,
        cut at the end of the device, for any cache content, any interleaving with other
        readers and any behaviour of the device. */
    method Read(want: U64) returns (r: IoResult<seq<Byte>>)
      requires Valid()
      modifies this, file, cache, cache.shards
      ensures Valid()
      ensures r.Ok? ==> r.value == Slice(file.data, old(pos), want) && pos == old(pos) + |r.value|
      ensures r.Ok? ==> Served(file.data, old(pos), want, r.value)
      ensures !r.Ok? ==> r.Failed? && pos == old(pos) && Fail in old(file.script)
      ensures forall x :: x in file.script ==> x in old(file.script)
    {
      hide AlignUp, AlignDown, Slice, SharedBlockCache.Valid, SharedBlockCache.Truthful, SharedBlockCache.Lookup,
          TrueBlock, Served;
      SliceServed(file.data, pos, want);
      if want == 0 {
        return Ok([]);
      }
      var start := pos;
      var end := Min(start + want, U64_MAX);               // saturating_add
      var alignedStart := AlignDown(start, block);
      var alignedEnd := if end + (block - 1) <= U64_MAX    // checked_add
                        then AlignUp(end, block) else end;
      var reqLen := alignedEnd - alignedStart;

      if reqLen == block {
        var cached := cache.Get(alignedStart, file.data);
        if cached.Some? {
          var off := start - alignedStart;
          var n := Min(want, block - off);
          HitYields(cached.value, file.data, start, want, block);
          pos := pos + n;
          return Ok(cached.value[off..off + n]);
        }
      }
      r := ReadThrough(alignedStart, reqLen, want);
    }

    /** The physical read: widened to 256 KiB and cached when small, exact and not cached when large. */
    method ReadThrough(alignedStart: nat, reqLen: nat, want: U64) returns (r: IoResult<seq<Byte>>)
      requires Valid()
      requires alignedStart == AlignDown(pos, block) && reqLen == AlignedSpan(pos, want, block)
      modifies this, file, cache, cache.shards
      ensures Valid()
      ensures r.Ok? ==> r.value == Slice(file.data, old(pos), want) && pos == old(pos) + |r.value|
      ensures r.Ok? ==>
                cache.puts == old(cache.puts)
                              + if reqLen >= 262_144 then []
                                else Blocks(alignedStart, |Slice(file.data, alignedStart, 262_144)| / block, block)
      ensures !r.Ok? ==> r.Failed? && pos == old(pos) && Fail in old(file.script) && cache.puts == old(cache.puts)
      ensures forall x :: x in file.script ==> x in old(file.script)
    {
      hide AlignUp, AlignDown, AlignedSpan, Slice, SharedBlockCache.Valid, SharedBlockCache.Truthful;
      var start := pos;
      var widen := reqLen < READ_AHEAD;
      var physLen := if widen then READ_AHEAD else reqLen;
      var filled := Fill(alignedStart, physLen);
      if filled.None? {
        return Failed;
      }
      var got := filled.value;
      if widen {
        CacheBlocks(alignedStart, got, physLen);
      }
      var off := start - alignedStart;
      var avail := Max(got - off, 0); // saturating_sub
      var n := Min(want, avail);
      Yields(scratch, file.data, start, want, block, physLen);
      if n == 0 {
        return Ok([]);
      }
      pos := pos + n;
      return Ok(scratch[off..off + n]);
    }

    /** Fills the scratch buffer from the device until `physLen` bytes or the end of the
        device; None when the device fails. */
    method Fill(alignedStart: nat, physLen: nat) returns (r: Option<nat>)
      requires Valid()
      modifies this`scratch, file
      ensures Valid()
      ensures r.Some? ==> r.value == |Slice(file.data, alignedStart, physLen)| <= |scratch|
      ensures r.Some? ==> scratch[..r.value] == Slice(file.data, alignedStart, physLen)
      ensures r.None? ==> Fail in old(file.script)
      ensures forall x :: x in file.script ==> x in old(file.script)
    {
      hide Slice;
      if |scratch| < physLen {
        scratch := scratch + Zeros(physLen - |scratch|);
      }
      file.Seek(alignedStart);
      var got := 0;
      while got < physLen
        invariant 0 <= got <= physLen <= |scratch|
        invariant scratch[..got] == Slice(file.data, alignedStart, got)
        invariant file.at == alignedStart + got
        invariant forall x :: x in file.script ==> x in old(file.script)
        decreases physLen - got, |file.script|
      {
        var reply := file.Read(physLen - got);
        match reply
        case Ok(bytes) =>
          if bytes == [] {
            break;
          }
          SliceJoin(file.data, alignedStart, got, |bytes|);
          Splice(scratch, got, bytes);
          scratch := scratch[..got] + bytes + scratch[got + |bytes|..];
          got := got + |bytes|;
        case Interrupted =>
        case Failed => return None;
      }
      SliceEnd(file.data, alignedStart, got, physLen);
      return Some(got);
    }

    /** Puts every whole block of the first `got` scratch bytes into the cache. */
    method CacheBlocks(alignedStart: nat, got: nat, ghost physLen: nat)
      requires Valid() && got <= |scratch|
      requires got == |Slice(file.data, alignedStart, physLen)|
               && scratch[..got] == Slice(file.data, alignedStart, physLen)
      modifies cache, cache.shards
      ensures Valid() && cache.puts == old(cache.puts) + Blocks(alignedStart, got / block, block)
    {
      var off := 0;
      var abs := alignedStart;
      ghost var n := 0;
      while off + block <= got
        invariant off <= got && abs == alignedStart + off && off == n * block
        invariant Valid() && cache.puts == old(cache.puts) + Blocks(alignedStart, n, block)
      {
        BlocksStep(alignedStart, n, block);
        SliceOfSlice(file.data, alignedStart, physLen, off, block);
        SubSlice(scratch, got, off, block);
        cache.Put(abs, scratch[off..off + block], file.data);
        off := off + block;
        abs := abs + block;
        n := n + 1;
      }
      Quotient(got, block, n);
    }

    /** Seeks and reads exactly `want` bytes; None at an early end of the device or when the
        device fails. */
    method ReadRawAt(offset: U64, want: U64) returns (r: Option<seq<Byte>>)
      requires Valid()
      modifies this, file, cache, cache.shards
      ensures Valid()
      ensures r.Some? ==> r.value == Slice(file.data, offset, want) && |r.value| == want
      ensures r.Some? && want > 0 ==> offset + want <= |file.data| && r.value == file.data[offset..offset + want]
      ensures r.None? ==> |Slice(file.data, offset, want)| < want || Fail in old(file.script)
      ensures r.None? ==> offset + want > |file.data| || Fail in old(file.script)
      ensures forall x :: x in file.script ==> x in old(file.script)
    {
      hide Slice, SharedBlockCache.Valid, SharedBlockCache.Truthful, SharedBlockCache.Lookup;
      SliceNone(file.data, offset);
      SliceServed(file.data, offset, want);
      pos := offset;
      var buf := [];
      while |buf| < want
        invariant Valid() && |buf| <= want
        invariant buf == Slice(file.data, offset, |buf|) && pos == offset + |buf|
        invariant forall x :: x in file.script ==> x in old(file.script)
      {
        var reply := Read(want - |buf|);
        match reply
        case Ok(bytes) =>
          if bytes == [] {
            break;
          }
          SliceSelf(file.data, offset + |buf|, want - |buf|);
          SliceJoin(file.data, offset, |buf|, |bytes|);
          buf := buf + bytes;
        case _ => return None;
      }
      r := if |buf| == want then Some(buf) else None;
    }
  }

  /** The offsets of `n` blocks from `at` on. */
  function Blocks(at: nat, n: nat, block: nat): seq<nat>
  {
    if n == 0 then [] else Blocks(at, n - 1, block) + [at + (n - 1) * block]
  }

  lemma BlocksStep(at: nat, n: nat, block: nat)
    ensures Blocks(at, n + 1, block) == Blocks(at, n, block) + [at + n * block]
    ensures (n + 1) * block == n * block + block
  {
  }

  /** The aligned span that the reader computes for a request. */
  function AlignedSpan(start: nat, want: nat, block: nat): int
    requires block > 0
  {
    var end := Min(start + want, U64_MAX);
    (if end + (block - 1) <= U64_MAX then AlignUp(end, block) else end) - AlignDown(start, block)
  }

  /** What is asked of the device starts and ends at multiples of the block size and covers the
      request, unless its end lies within a block of the end of the address space. */
  lemma RequestsAligned(start: nat, want: nat, block: nat)
    requires 0 < block && start + want + (block - 1) <= U64_MAX
    ensures AlignDown(start, block) % block == 0 && AlignedSpan(start, want, block) % block == 0
    ensures AlignDown(start, block) <= start
    ensures start + want <= AlignDown(start, block) + AlignedSpan(start, want, block) < start + want + block
  {
    var n := start + want + block - 1;
    Rounded(start, block);
    Rounded(n, block);
    assert AlignedSpan(start, want, block) == AlignDown(n, block) - AlignDown(start, block);
    hide AlignDown, AlignUp, AlignedSpan;
    Multiple(n / block, start / block, block);
    Multiple(start / block, 0, block);
  }

  lemma Rounded(n: nat, block: nat)
    requires block > 0
    ensures AlignDown(n, block) == n / block * block
  {
    assert n == block * (n / block) + n % block;
  }

  lemma Multiple(a: int, b: int, block: nat)
    requires block > 0
    ensures (a * block - b * block) % block == 0
  {
    var n := (a - b) * block;
    assert n == a * block - b * block;
    Quotient(n, block, a - b);
    assert n == block * (n / block) + n % block;
  }

  /** A request whose aligned span is one block is served in full by that block. */
  lemma HitCovers(start: nat, want: nat, block: nat, device: nat)
    requires 0 < block && AlignedSpan(start, want, block) == block
    requires AlignDown(start, block) + block <= device <= U64_MAX
    ensures Min(want, block - (start - AlignDown(start, block))) == Min(want, device - start)
  {
  }

  lemma HitYields(cached: seq<Byte>, device: seq<Byte>, start: nat, want: nat, block: nat)
    requires 0 < block == |cached| && AlignedSpan(start, want, block) == block && |device| <= U64_MAX
    requires TrueBlock(device, AlignDown(start, block), cached)
    ensures var off := start - AlignDown(start, block);
            var n := Min(want, block - off);
            start + n <= |device| && cached[off..off + n] == Slice(device, start, want)
  {
    HitCovers(start, want, block, |device|);
    hide AlignDown;
    var s := AlignDown(start, block);
    var off := start - s;
    assert Slice(device, s, block) == cached;
    SliceOfSlice(device, s, block, off, Min(want, block - off));
  }

  /** A physical read of at least the aligned span reaches the end of the request, or of the
      device, so what it yields past `start` is the whole answer. */
  lemma TailCovers(start: nat, want: nat, block: nat, device: nat, physLen: nat)
    requires 0 < block && start <= U64_MAX && device <= U64_MAX
    requires physLen >= AlignedSpan(start, want, block)
    ensures var s := AlignDown(start, block);
            var got := if s >= device then 0 else Min(physLen, device - s);
            Min(want, Max(got - (start - s), 0)) == (if start >= device then 0 else Min(want, device - start))
  {
  }

  /** What a physical read yields past `start` is the device's slice there. */
  lemma Yields(scratch: seq<Byte>, device: seq<Byte>, start: nat, want: nat, block: nat, physLen: nat)
    requires 0 < block && start <= U64_MAX && |device| <= U64_MAX
    requires physLen >= AlignedSpan(start, want, block)
    requires var bytes := Slice(device, AlignDown(start, block), physLen);
             |bytes| <= |scratch| && scratch[..|bytes|] == bytes
    ensures var off := start - AlignDown(start, block);
            var n := Min(want, Max(|Slice(device, AlignDown(start, block), physLen)| - off, 0));
            && (n == 0 ==> Slice(device, start, want) == [])
            && (n > 0 ==> off + n <= |scratch| && start + n <= |device|
                          && scratch[off..off + n] == Slice(device, start, want))
  {
    hide AlignDown;
    var s := AlignDown(start, block);
    var off, got := start - s, |Slice(device, s, physLen)|;
    var n := Min(want, Max(got - off, 0));
    TailCovers(start, want, block, |device|, physLen);
    if n > 0 {
      SliceOfSlice(device, s, physLen, off, n);
      SubSlice(scratch, got, off, n);
    }
  }
}
