/** The streaming ZIP writer: a class that appends headers and bodies to its output
    field by field, and the byte-level specification of what it appends. */
module ZipWriter {
  import opened Bytes

  const SIG_LFH: U32 := 0x0403_4b50
  const SIG_CDR: U32 := 0x0201_4b50
  const SIG_EOCD: U32 := 0x0605_4b50
  const SIG_EOCD64: U32 := 0x0606_4b50
  const SIG_EOCD64_LOC: U32 := 0x0706_4b50
  const AES_EXTRA_ID: U16 := 0x9901
  const METHOD_AES: U16 := 99

  /** Per-entry info produced by the workers. `nameBytes` are the UTF-8 bytes of the name. */
  datatype EncodedEntry = EncodedEntry(
    index: nat,
    nameBytes: seq<Byte>,
    body: seq<Byte>,
    uncompressedSize: U64,
    crc32: U32,
    methodOnWire: U16,
    innerMethod: U16,
    encrypted: bool,
    gpBit1: bool,
    versionNeeded: U16,
    date: U16,
    time: U16)

  /** What the writer remembers of an entry until the central directory is due. */
  datatype CentralEntry = CentralEntry(
    nameBytes: seq<Byte>,
    methodOnWire: U16,
    innerMethod: U16,
    encrypted: bool,
    gpBit1: bool,
    versionNeeded: U16,
    crc32: U32,
    compSize: nat,
    uncompSize: U64,
    lfhOffset: nat,
    date: U16,
    time: U16)

  // ---------------------------------------------------------------- specification

  predicate Big(n: nat) { n >= 0xFFFF_FFFF }

  function Flags(encrypted: bool, gpBit1: bool): U16
  {
    0x800 + (if encrypted then 1 else 0) + (if gpBit1 then 2 else 0)
  }

  function LocalVersion(e: EncodedEntry): U16
  {
    Max(e.versionNeeded, if Big(|e.body|) || Big(e.uncompressedSize) then 45 else 20)
  }

  function Remember(e: EncodedEntry, offset: nat): CentralEntry
  {
    CentralEntry(e.nameBytes, e.methodOnWire, e.innerMethod, e.encrypted, e.gpBit1,
                 LocalVersion(e), if e.encrypted then 0 else e.crc32,
                 |e.body|, e.uncompressedSize, offset, e.date, e.time)
  }

  /** The headers below are groups of little-endian integers; the groups that the local
      and the central header share come first. */
  function Stamp(c: CentralEntry): (b: seq<Byte>)
    ensures |b| == 8
  {
    Four(2, Flags(c.encrypted, c.gpBit1), 2, c.methodOnWire, 2, c.time, 2, c.date)
  }

  function Sizes(c: CentralEntry): (b: seq<Byte>)
    ensures |b| == 12
  {
    var z := Big(c.compSize) || Big(c.uncompSize);
    Three(4, c.crc32, 4, if z then 0xFFFF_FFFF else c.compSize, 4, if z then 0xFFFF_FFFF else c.uncompSize)
  }

  function AesExtra(encrypted: bool, innerMethod: U16): (x: seq<Byte>)
    ensures |x| == if encrypted then 11 else 0
  {
    if encrypted then Two(2, AES_EXTRA_ID, 2, 7) + Four(2, 2, 2, 0x4541, 1, 3, 2, innerMethod) else []
  }

  /** ZIP64 extra field of a header; `sizes` and `offset` say which values it carries. */
  function Zip64Extra(sizes: bool, offset: bool, uncomp: nat, comp: nat, lfhOffset: nat): (x: seq<Byte>)
    ensures |x| == if !sizes && !offset then 0 else 4 + (if sizes then 16 else 0) + (if offset then 8 else 0)
  {
    if !sizes && !offset then []
    else
      Two(2, 0x0001, 2, (if sizes then 16 else 0) + (if offset then 8 else 0))
      + (if sizes then Two(8, uncomp, 8, comp) else [])
      + (if offset then LE(8, lfhOffset) else [])
  }

  function LocalExtra(c: CentralEntry): seq<Byte>
  {
    Zip64Extra(Big(c.compSize) || Big(c.uncompSize), false, c.uncompSize, c.compSize, 0)
    + AesExtra(c.encrypted, c.innerMethod)
  }

  function LocalFixed(c: CentralEntry, extra: nat): (b: seq<Byte>)
    ensures |b| == 30
  {
    Two(4, SIG_LFH, 2, c.versionNeeded) + Stamp(c) + Sizes(c) + Two(2, |c.nameBytes|, 2, extra)
  }

  /** Everything `WriteEntry` appends for one entry. */
  function LocalPart(e: EncodedEntry): seq<Byte>
  {
    var c := Remember(e, 0);
    LocalHeader(c) + e.body
  }

  function LocalHeader(c: CentralEntry): seq<Byte>
  {
    LocalFixed(c, |LocalExtra(c)|) + c.nameBytes + LocalExtra(c)
  }

  /** Header, name, up to two extra fields, and then the body once, with nothing between. */
  lemma LocalLength(e: EncodedEntry)
    ensures |LocalPart(e)| == 30 + |e.nameBytes| + |e.body| + (if e.encrypted then 11 else 0)
                              + if |e.body| >= 0xFFFF_FFFF || e.uncompressedSize >= 0xFFFF_FFFF then 20 else 0
    ensures LocalPart(e)[|LocalPart(e)| - |e.body|..] == e.body
    ensures LocalPart(e)[30..30 + |e.nameBytes|] == e.nameBytes
  {
    hide LocalFixed, Zip64Extra, AesExtra;
  }

  function CentralExtra(c: CentralEntry): seq<Byte>
  {
    Zip64Extra(Big(c.compSize) || Big(c.uncompSize), Big(c.lfhOffset), c.uncompSize, c.compSize, c.lfhOffset)
    + AesExtra(c.encrypted, c.innerMethod)
  }

  function CentralFixed(c: CentralEntry, extra: nat): (b: seq<Byte>)
    ensures |b| == 46
  {
    Three(4, SIG_CDR, 2, 0x031E, 2, Max(c.versionNeeded, 45)) + Stamp(c) + Sizes(c)
    + Four(2, |c.nameBytes|, 2, extra, 2, 0, 2, 0)
    + Three(2, 0, 4, 0x81A4_0000, 4, if Big(c.lfhOffset) then 0xFFFF_FFFF else c.lfhOffset)
  }

  function CentralPart(c: CentralEntry): seq<Byte>
  {
    CentralFixed(c, |CentralExtra(c)|) + c.nameBytes + CentralExtra(c)
  }

  lemma CentralLength(c: CentralEntry)
    ensures |CentralPart(c)| ==
            46 + |c.nameBytes| + (if c.encrypted then 11 else 0)
            + var sizes, offset := c.compSize >= 0xFFFF_FFFF || c.uncompSize >= 0xFFFF_FFFF, c.lfhOffset >= 0xFFFF_FFFF;
              (if sizes || offset then 4 else 0) + (if sizes then 16 else 0) + (if offset then 8 else 0)
  {
    hide CentralFixed, Zip64Extra, AesExtra;
  }

  predicate NeedsEnd64(count: nat, size: nat, offset: nat)
  {
    count >= 0xFFFF || Big(offset) || Big(size)
  }

  function End64(count: nat, size: nat, offset: nat): (b: seq<Byte>)
    ensures |b| == 56
  {
    Two(4, SIG_EOCD64, 8, 44) + Four(2, 0x031E, 2, 45, 4, 0, 4, 0) + Four(8, count, 8, count, 8, size, 8, offset)
  }

  function Locator(at: nat): (b: seq<Byte>)
    ensures |b| == 20
  {
    Four(4, SIG_EOCD64_LOC, 4, 0, 8, at, 4, 1)
  }

  function End(count: nat, size: nat, offset: nat): (b: seq<Byte>)
    ensures |b| == 22
  {
    Three(4, SIG_EOCD, 2, 0, 2, 0) + Two(2, Min(count, 0xFFFF), 2, Min(count, 0xFFFF))
    + Three(4, Min(size, 0xFFFF_FFFF), 4, Min(offset, 0xFFFF_FFFF), 2, 0)
  }

  function Trailer(count: nat, size: nat, offset: nat): seq<Byte>
  {
    (if NeedsEnd64(count, size, offset) then End64(count, size, offset) + Locator(offset + size) else [])
    + End(count, size, offset)
  }

  function LocalParts(es: seq<EncodedEntry>): (ps: seq<seq<Byte>>)
    ensures |ps| == |es|
  {
    seq(|es|, i requires 0 <= i < |es| => LocalPart(es[i]))
  }

  function Offset(es: seq<EncodedEntry>, i: nat): nat
    requires i <= |es|
  {
    |Flatten(LocalParts(es[..i]))|
  }

  function Remembered(es: seq<EncodedEntry>): (cs: seq<CentralEntry>)
    ensures |cs| == |es|
  {
    seq(|es|, i requires 0 <= i < |es| => Remember(es[i], Offset(es, i)))
  }

  function CentralParts(cs: seq<CentralEntry>): (ps: seq<seq<Byte>>)
    ensures |ps| == |cs|
  {
    seq(|cs|, i requires 0 <= i < |cs| => CentralPart(cs[i]))
  }

  /** The complete archive of a sequence of entries. */
  function Archive(es: seq<EncodedEntry>): seq<Byte>
  {
    var locals := Flatten(LocalParts(es));
    var central := Flatten(CentralParts(Remembered(es)));
    locals + central + Trailer(|es|, |central|, |locals|)
  }

  // ---------------------------------------------------------------- the writer

  lemma AppendEntry(es: seq<EncodedEntry>, e: EncodedEntry)
    ensures Flatten(LocalParts(es + [e])) == Flatten(LocalParts(es)) + LocalPart(e)
    ensures Remembered(es + [e]) == Remembered(es) + [Remember(e, |Flatten(LocalParts(es))|)]
  {
    hide LocalPart, Remember;
    var es' := es + [e];
    assert LocalParts(es')[..|es|] == LocalParts(es);
    assert es'[..|es|] == es;
    forall i | 0 <= i < |es|
      ensures Remembered(es')[i] == Remembered(es)[i]
    {
      assert es'[..i] == es[..i];
    }
  }

  lemma AppendCentral(cs: seq<CentralEntry>, i: nat)
    requires i < |cs|
    ensures Flatten(CentralParts(cs[..i + 1])) == Flatten(CentralParts(cs[..i])) + CentralPart(cs[i])
  {
    assert CentralParts(cs[..i + 1])[..i] == CentralParts(cs[..i]);
  }

  class ZipWriter {
    var inner: seq<Byte>
    var entries: seq<CentralEntry>
    var pos: nat
    /** The entries written so far. */
    ghost var written: seq<EncodedEntry>

    ghost predicate Valid()
      reads this
    {
      && inner == Flatten(LocalParts(written))
      && pos == |inner|
      && entries == Remembered(written)
    }

    constructor ()
      ensures Valid() && written == []
    {
      inner, entries, pos, written := [], [], 0, [];
    }

    method WriteEntry(e: EncodedEntry)
      requires Valid()
      modifies this
      ensures Valid() && written == old(written) + [e]
      ensures inner == old(inner) + LocalPart(e)
      ensures |inner| == |old(inner)| + 30 + |e.nameBytes| + |e.body| + (if e.encrypted then 11 else 0)
                         + if |e.body| >= 0xFFFF_FFFF || e.uncompressedSize >= 0xFFFF_FFFF then 20 else 0
      ensures inner[|inner| - |e.body|..] == e.body
    {
      LocalLength(e);
      hide LocalHeader, Flatten, LocalParts, Remembered;
      var compSize := |e.body|;
      var needsZip64 := compSize >= 0xFFFF_FFFF || e.uncompressedSize >= 0xFFFF_FFFF;
      var lfhOffset := pos;
      var vn: U16 := if needsZip64 then Max(e.versionNeeded, 45) else Max(e.versionNeeded, 20);
      var lfh := PutLocal(e, needsZip64, vn);

      AppendEntry(written, e);
      inner := inner + (lfh + e.body);
      pos := pos + |lfh| + compSize;
      entries := entries + [CentralEntry(e.nameBytes, e.methodOnWire, e.innerMethod, e.encrypted, e.gpBit1,
                                         vn, if e.encrypted then 0 else e.crc32, compSize,
                                         e.uncompressedSize, lfhOffset, e.date, e.time)];
      written := written + [e];
    }

    /** Writes the central directory and the end records; the result is the finished archive. */
    method Finish() returns (archive: seq<Byte>)
      requires Valid()
      modifies this
      ensures archive == Archive(written) && written == old(written) && inner == archive
    {
      hide CentralPart, LocalPart, Trailer, CentralParts, LocalParts, Remembered;
      var cdOffset := pos;
      ghost var locals := inner;
      var i := 0;
      while i < |entries|
        invariant 0 <= i <= |entries|
        invariant entries == old(entries) && written == old(written)
        invariant inner == locals + Flatten(CentralParts(entries[..i]))
        invariant pos == |inner|
      {
        var cdr := PutCentral(entries[i]);
        AppendCentral(entries, i);
        inner := inner + cdr;
        pos := pos + |cdr|;
        i := i + 1;
      }
      assert entries[..i] == entries;
      var cdSize := pos - cdOffset;
      var count := |entries|;

      var trailer := PutTrailer(count, cdSize, cdOffset);
      inner := inner + trailer;
      pos := pos + |trailer|;
      archive := inner;
    }
  }

  /** The local header of `e`: fixed part, name, extra fields. */
  method PutLocal(e: EncodedEntry, needsZip64: bool, vn: U16) returns (lfh: seq<Byte>)
    requires needsZip64 == (Big(|e.body|) || Big(e.uncompressedSize)) && vn == LocalVersion(e)
    ensures lfh == LocalHeader(Remember(e, 0))
  {
    hide LE;
    var compSize := |e.body|;
    ghost var c := Remember(e, 0);

    lfh := LE(4, SIG_LFH);
    lfh := lfh + LE(2, vn);
    var stamp := PutStamp(e.encrypted, e.gpBit1, e.methodOnWire, e.time, e.date);
    var sizes := LE(4, if e.encrypted then 0 else e.crc32);
    sizes := sizes + LE(4, if needsZip64 then 0xFFFF_FFFF else compSize);
    sizes := sizes + LE(4, if needsZip64 then 0xFFFF_FFFF else e.uncompressedSize);
    var extraLen := (if needsZip64 then 4 + 16 else 0) + (if e.encrypted then 4 + 7 else 0);
    var lengths := LE(2, |e.nameBytes|);
    lengths := lengths + LE(2, extraLen);
    lfh := lfh + stamp + sizes + lengths;

    var extra := [];
    if needsZip64 {
      extra := LE(2, 0x0001);
      extra := extra + LE(2, 16);
      var values := LE(8, e.uncompressedSize);
      values := values + LE(8, compSize);
      extra := extra + values;
    }
    if e.encrypted {
      var aes := PutAes(e.innerMethod);
      extra := extra + aes;
    }
    assert extra == LocalExtra(c);
    lfh := lfh + e.nameBytes + extra;
  }

  method PutStamp(encrypted: bool, gpBit1: bool, methodOnWire: U16, time: U16, date: U16) returns (b: seq<Byte>)
    ensures b == Four(2, Flags(encrypted, gpBit1), 2, methodOnWire, 2, time, 2, date)
  {
    // bit 11 (0x800): UTF-8 name; bit 0: encrypted; bit 1: LZMA end marker present
    var gpbf := 0x800;
    if encrypted {
      gpbf := gpbf + 1;
    }
    if gpBit1 {
      gpbf := gpbf + 2;
    }
    b := LE(2, gpbf);
    b := b + LE(2, methodOnWire);
    b := b + LE(2, time);
    b := b + LE(2, date);
  }

  method PutAes(innerMethod: U16) returns (b: seq<Byte>)
    ensures b == AesExtra(true, innerMethod)
  {
    hide LE;
    b := LE(2, AES_EXTRA_ID);
    b := b + LE(2, 7);
    var data := LE(2, 2);
    data := data + LE(2, 0x4541); // the vendor bytes "AE"
    data := data + LE(1, 3);
    data := data + LE(2, innerMethod);
    b := b + data;
  }

  method PutCentral(c: CentralEntry) returns (cdr: seq<Byte>)
    ensures cdr == CentralPart(c)
  {
    hide LE;
    cdr := LE(4, SIG_CDR);
    cdr := cdr + LE(2, 0x031E);
    cdr := cdr + LE(2, Max(c.versionNeeded, 45));
    var stamp := PutStamp(c.encrypted, c.gpBit1, c.methodOnWire, c.time, c.date);
    var needsSize := c.compSize >= 0xFFFF_FFFF || c.uncompSize >= 0xFFFF_FFFF;
    var needsOffset := c.lfhOffset >= 0xFFFF_FFFF;
    var sizes := LE(4, c.crc32);
    sizes := sizes + LE(4, if needsSize then 0xFFFF_FFFF else c.compSize);
    sizes := sizes + LE(4, if needsSize then 0xFFFF_FFFF else c.uncompSize);

    var extra := [];
    if needsSize || needsOffset {
      extra := LE(2, 0x0001);
      extra := extra + LE(2, (if needsSize then 16 else 0) + (if needsOffset then 8 else 0));
      if needsSize {
        var values := LE(8, c.uncompSize);
        values := values + LE(8, c.compSize);
        extra := extra + values;
      }
      if needsOffset {
        extra := extra + LE(8, c.lfhOffset);
      }
    }
    if c.encrypted {
      var aes := PutAes(c.innerMethod);
      extra := extra + aes;
    }
    assert extra == CentralExtra(c);

    var lengths := LE(2, |c.nameBytes|);
    lengths := lengths + LE(2, |extra|);
    lengths := lengths + LE(2, 0); // comment length
    lengths := lengths + LE(2, 0); // disk number
    var attrs := LE(2, 0);
    attrs := attrs + LE(4, 0x81A4_0000); // 0o100644 in the high half
    attrs := attrs + LE(4, if needsOffset then 0xFFFF_FFFF else c.lfhOffset);
    cdr := cdr + stamp + sizes + lengths + attrs;
    cdr := cdr + c.nameBytes + extra;
  }

  method PutTrailer(count: nat, size: nat, offset: nat) returns (b: seq<Byte>)
    ensures b == Trailer(count, size, offset)
  {
    hide LE;
    b := [];
    if count >= 0xFFFF || offset >= 0xFFFF_FFFF || size >= 0xFFFF_FFFF {
      var end64At := offset + size;
      var head := LE(4, SIG_EOCD64);
      head := head + LE(8, 44);
      var versions := LE(2, 0x031E);
      versions := versions + LE(2, 45);
      versions := versions + LE(4, 0);
      versions := versions + LE(4, 0);
      var totals := LE(8, count);
      totals := totals + LE(8, count);
      totals := totals + LE(8, size);
      totals := totals + LE(8, offset);
      var loc := LE(4, SIG_EOCD64_LOC);
      loc := loc + LE(4, 0);
      loc := loc + LE(8, end64At);
      loc := loc + LE(4, 1);
      b := (head + versions + totals) + loc;
    }
    var eocd := LE(4, SIG_EOCD);
    eocd := eocd + LE(2, 0);
    eocd := eocd + LE(2, 0);
    var counts := LE(2, Min(count, 0xFFFF));
    counts := counts + LE(2, Min(count, 0xFFFF));
    var extent := LE(4, Min(size, 0xFFFF_FFFF));
    extent := extent + LE(4, Min(offset, 0xFFFF_FFFF));
    extent := extent + LE(2, 0);
    b := b + (eocd + counts + extent);
  }
}
