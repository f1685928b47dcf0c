/** A reference reader of the ZIP format, written from PKWARE APPNOTE 6.3.10 alone:
    sections 4.3.7 (local header), 4.3.12 (central header), 4.3.14 and 4.3.15 (ZIP64
    end of central directory record and locator), 4.3.16 (end of central directory
    record), 4.4.1.4 (sentinel values), 4.5.2 and 4.5.3 (extra fields). It shares no
    definition with the writer, and it refuses archives whose local headers disagree
    with the central directory. */
module ZipReader {
  import opened Bytes

  /** One entry as a reader sees it: the header fields as integers, sizes and offset
      after ZIP64 resolution, and the stored bytes. */
  datatype Entry = Entry(
    name: seq<Byte>,
    versionNeeded: nat, // of the central header
    versionLocal: nat,  // of the local header
    unixMode: nat,      // high half of the external attributes when made on Unix
    flags: nat,
    compression: nat,
    time: nat,
    date: nat,
    crc32: nat,
    compSize: nat,
    uncompSize: nat,
    offset: nat,
    aes: Option<Aes>,
    body: seq<Byte>)

  /** The WinZip AES extra field 0x9901. */
  datatype Aes = Aes(version: nat, vendor: nat, strength: nat, compression: nat)

  /** An extra-field block: its identifier and where its data stands. */
  datatype Extra = Extra(id: nat, at: nat, len: nat)

  /** What the end-of-archive records say about the central directory. */
  datatype Directory = Directory(count: nat, size: nat, offset: nat)

  // ---------------------------------------------------------------- extra fields

  function Extras(a: seq<Byte>, at: nat, len: nat): Option<seq<Extra>>
    decreases len
  {
    if len == 0 then Some([])
    else if len < 4 then None
    else
      var _ :- Check(at + 4 <= |a|);
      var id, n := Num(a, at, 2), Num(a, at + 2, 2);
      var _ :- Check(n <= len - 4);
      var rest :- Extras(a, at + 4 + n, len - 4 - n);
      Some([Extra(id, at + 4, n)] + rest)
  }

  function Find(xs: seq<Extra>, id: nat): Option<Extra>
  {
    if xs == [] then None
    else if xs[0].id == id then Some(xs[0])
    else Find(xs[1..], id)
  }

  /** Section 4.5.3: the 64-bit values replace, in this order, those of (uncompressed
      size, compressed size, offset) that carry the sentinel 0xFFFFFFFF, and only those. */
  function Resolve64(a: seq<Byte>, xs: seq<Extra>, uncomp: nat, comp: nat, offset: nat)
    : Option<(nat, nat, nat)>
  {
    if uncomp != 0xFFFF_FFFF && comp != 0xFFFF_FFFF && offset != 0xFFFF_FFFF then
      Some((uncomp, comp, offset))
    else
      var x :- Find(xs, 0x0001);
      var u := if uncomp == 0xFFFF_FFFF then 8 else 0;
      var c := if comp == 0xFFFF_FFFF then 8 else 0;
      var o := if offset == 0xFFFF_FFFF then 8 else 0;
      var _ :- Check(u + c + o <= x.len && x.at + u + c + o <= |a|);
      Some((if u == 0 then uncomp else Num(a, x.at, 8),
            if c == 0 then comp else Num(a, x.at + u, 8),
            if o == 0 then offset else Num(a, x.at + u + c, 8)))
  }

  function AesOf(a: seq<Byte>, xs: seq<Extra>): Option<Option<Aes>>
  {
    match Find(xs, 0x9901)
    case None => Some(None)
    case Some(x) =>
      var _ :- Check(x.len == 7 && x.at + 7 <= |a|);
      Some(Some(Aes(Num(a, x.at, 2), Num(a, x.at + 2, 2), Num(a, x.at + 4, 1), Num(a, x.at + 5, 2))))
  }

  // ---------------------------------------------------------------- headers

  function Name(a: seq<Byte>, at: nat, len: nat): Option<seq<Byte>>
  {
    if at + len <= |a| then Some(a[at..at + len]) else None
  }

  /** Section 4.3.7: the local header of `c` at its offset must repeat the central
      header's fields; the body follows it. */
  function Local(a: seq<Byte>, c: Entry): Option<Entry>
  {
    var at := c.offset;
    var _ :- Check(at + 30 <= |a|);
    var nameLen, extraLen := Num(a, at + 26, 2), Num(a, at + 28, 2);
    var name :- Name(a, at + 30, nameLen);
    var xs :- Extras(a, at + 30 + nameLen, extraLen);
    var sizes :- Resolve64(a, xs, Num(a, at + 22, 4), Num(a, at + 18, 4), 0);
    var aes :- AesOf(a, xs);
    var _ :- Check(
      && Num(a, at, 4) == 0x0403_4b50
      && name == c.name
      && Num(a, at + 6, 2) == c.flags
      && Num(a, at + 8, 2) == c.compression
      && Num(a, at + 10, 2) == c.time
      && Num(a, at + 12, 2) == c.date
      && Num(a, at + 14, 4) == c.crc32
      && sizes == (c.uncompSize, c.compSize, 0)
      && aes == c.aes);
    var body :- Name(a, at + 30 + nameLen + extraLen, c.compSize);
    Some(c.(body := body, versionLocal := Num(a, at + 4, 2)))
  }

  /** Section 4.3.12: one central header at `at`, and the length of the header. */
  function Central(a: seq<Byte>, at: nat): Option<(Entry, nat)>
  {
    var _ :- Check(at + 46 <= |a|);
    var nameLen, extraLen := Num(a, at + 28, 2), Num(a, at + 30, 2);
    var name :- Name(a, at + 46, nameLen);
    var xs :- Extras(a, at + 46 + nameLen, extraLen);
    var sizes :- Resolve64(a, xs, Num(a, at + 24, 4), Num(a, at + 20, 4), Num(a, at + 42, 4));
    var aes :- AesOf(a, xs);
    var _ :- Check(Num(a, at, 4) == 0x0201_4b50 && Num(a, at + 34, 2) == 0);
    var unixMode := if Num(a, at + 4, 2) / 0x100 == 3 then Num(a, at + 38, 4) / 0x1_0000 else 0;
    Some((Entry(name, Num(a, at + 6, 2), 0, unixMode, Num(a, at + 8, 2), Num(a, at + 10, 2), Num(a, at + 12, 2),
        Num(a, at + 14, 2),
                Num(a, at + 16, 4), sizes.1, sizes.0, sizes.2, aes, []),
          46 + nameLen + extraLen + Num(a, at + 32, 2)))
  }

  /** The `count` entries whose central headers start at `at`, and where the headers end. */
  function Entries(a: seq<Byte>, at: nat, count: nat): Option<(seq<Entry>, nat)>
    decreases count
  {
    hide Central, Local;
    if count == 0 then Some(([], at))
    else
      var header :- Central(a, at);
      var entry :- Local(a, header.0);
      var rest :- Entries(a, at + header.1, count - 1);
      Some(([entry] + rest.0, rest.1))
  }

  // ---------------------------------------------------------------- end of archive

  /** Section 4.3.16: the last offset at or before `at` holding the end-of-directory
      signature with a comment that reaches exactly to the end of the archive. */
  function FindEnd(a: seq<Byte>, at: nat): (r: Option<nat>)
    ensures r.Some? ==> r.value + 22 <= |a|
  {
    if at + 22 <= |a| && Num(a, at, 4) == 0x0605_4b50 && at + 22 + Num(a, at + 20, 2) == |a| then Some(at)
    else if at == 0 then None
    else FindEnd(a, at - 1)
  }

  /** Sections 4.3.14 to 4.3.16 and 4.4.1.4: the ZIP64 records take over as soon as one
      of the three fields carries its sentinel. */
  function DirectoryAt(a: seq<Byte>, end: nat): Option<Directory>
    requires end + 22 <= |a|
  {
    var count, size, offset := Num(a, end + 10, 2), Num(a, end + 12, 4), Num(a, end + 16, 4);
    var _ :- Check(Num(a, end + 4, 2) == 0 && Num(a, end + 6, 2) == 0 && Num(a, end + 8, 2) == count);
    if count != 0xFFFF && size != 0xFFFF_FFFF && offset != 0xFFFF_FFFF then
      Some(Directory(count, size, offset))
    else
      var _ :- Check(end >= 20);
      var loc := end - 20;
      var z := Num(a, loc + 8, 8);
      var _ :- Check(Num(a, loc, 4) == 0x0706_4b50 && Num(a, loc + 4, 4) == 0 && Num(a, loc + 16, 4) == 1);
      var _ :- Check(z + 56 <= loc);
      var _ :- Check(
        && Num(a, z, 4) == 0x0606_4b50
        && Num(a, z + 4, 8) >= 44
        && z + 12 + Num(a, z + 4, 8) == loc
        && Num(a, z + 16, 4) == 0
        && Num(a, z + 20, 4) == 0
        && Num(a, z + 24, 8) == Num(a, z + 32, 8));
      Some(Directory(Num(a, z + 32, 8), Num(a, z + 40, 8), Num(a, z + 48, 8)))
  }

  /** The entries of an archive, or None when `a` is not a well-formed single-volume archive. */
  function Parse(a: seq<Byte>): Option<seq<Entry>>
  {
    var _ :- Check(|a| >= 22);
    var end :- FindEnd(a, |a| - 22);
    var d :- DirectoryAt(a, end);
    var es :- Entries(a, d.offset, d.count);
    var _ :- Check(es.1 == d.offset + d.size && es.1 <= end);
    Some(es.0)
  }
}
