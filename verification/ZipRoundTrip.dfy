/** What the writer produces is what the reference reader reads back, for every sequence
    of entries whose names the format can hold. */
module ZipRoundTrip {
  import opened Bytes
  import W = ZipWriter
  import R = ZipReader

  /** The entry a reader must see for `e`. */
  function View(e: W.EncodedEntry, offset: nat): R.Entry
  {
    R.Entry(e.nameBytes,
            Max(e.versionNeeded, 45),
            Max(e.versionNeeded, if |e.body| >= 0xFFFF_FFFF || e.uncompressedSize >= 0xFFFF_FFFF then 45 else 20),
            0x81A4, // regular file, rw-r--r--
            0x800 + (if e.encrypted then 1 else 0) + (if e.gpBit1 then 2 else 0),
            e.methodOnWire, e.time, e.date,
            if e.encrypted then 0 else e.crc32,
            |e.body|, e.uncompressedSize, offset,
            if e.encrypted then Some(R.Aes(2, 0x4541, 3, e.innerMethod)) else None,
            e.body)
  }

  function Views(es: seq<W.EncodedEntry>): (vs: seq<R.Entry>)
    ensures |vs| == |es|
  {
    seq(|es|, i requires 0 <= i < |es| => View(es[i], W.Offset(es, i)))
  }

  /** What the central header alone says of the entry. */
  function Headline(e: W.EncodedEntry, offset: nat): R.Entry
  {
    View(e, offset).(body := [], versionLocal := 0)
  }

  predicate NameFits(e: W.EncodedEntry) { |e.nameBytes| < 0x1_0000 }

  // ---------------------------------------------------------------- extra fields

  lemma ExtraIds(a: seq<Byte>, at: nat, sizes: bool, offset: bool, u: nat, c: nat, o: nat, enc: bool, m: U16)
    returns (z: seq<R.Extra>, x: seq<R.Extra>)
    requires Embedded(a, at, W.Zip64Extra(sizes, offset, u, c, o) + W.AesExtra(enc, m))
    ensures R.Extras(a, at, |W.Zip64Extra(sizes, offset, u, c, o) + W.AesExtra(enc, m)|) == Some(z + x)
    ensures var n := |W.Zip64Extra(sizes, offset, u, c, o)|;
            && z == (if n < 4 then [] else [R.Extra(1, at + 4, n - 4)])
            && x == (if enc then [R.Extra(0x9901, at + n + 4, 7)] else [])
  {
    hide LE, Num;
    var zb, xb := W.Zip64Extra(sizes, offset, u, c, o), W.AesExtra(enc, m);
    var n := |zb|;
    EmbeddedSplit(a, at, zb, xb);
    PowValues();
    z := if n < 4 then [] else [R.Extra(1, at + 4, n - 4)];
    x := if enc then [R.Extra(0x9901, at + n + 4, 7)] else [];
    assert R.Extras(a, at + n, |xb|) == Some(x) by {
      if enc {
        EmbeddedSplit(a, at + n, Two(2, 0x9901, 2, 7), Four(2, 2, 2, 0x4541, 1, 3, 2, m));
        ReadTwo(a, at + n, 2, 0x9901, 2, 7);
        assert R.Extras(a, at + n + 11, 0) == Some([]);
        assert [R.Extra(0x9901, at + n + 4, 7)] + [] == x;
      }
    }
    if n > 0 {
      var payload := (if sizes then 16 else 0) + (if offset then 8 else 0);
      var v := if sizes then Two(8, u, 8, c) else [];
      var w := if offset then LE(8, o) else [];
      EmbeddedSplit(a, at, Two(2, 1, 2, payload) + v, w);
      EmbeddedSplit(a, at, Two(2, 1, 2, payload), v);
      ReadTwo(a, at, 2, 1, 2, payload);
      assert at + 4 + payload == at + n;
      assert R.Extras(a, at, n + |xb|) == Some([R.Extra(1, at + 4, payload)] + x);
    } else {
      assert zb + xb == xb && z + x == x;
    }
  }

  /** Both extra fields are found and mean what was put in, at every ZIP64 threshold. */
  lemma ExtraReads(a: seq<Byte>, at: nat, u: nat, c: nat, o: nat, enc: bool, m: U16)
    returns (xs: seq<R.Extra>)
    requires Embedded(a, at, W.Zip64Extra(W.Big(c) || W.Big(u), W.Big(o), u, c, o) + W.AesExtra(enc, m))
    requires u <= U64_MAX && c <= U64_MAX && o <= U64_MAX
    ensures R.Extras(a, at, |W.Zip64Extra(W.Big(c) || W.Big(u), W.Big(o), u, c, o) + W.AesExtra(enc, m)|) == Some(xs)
    ensures var z := W.Big(c) || W.Big(u);
            R.Resolve64(a, xs, if z then 0xFFFF_FFFF else u, if z then 0xFFFF_FFFF else c,
                        if W.Big(o) then 0xFFFF_FFFF else o) == Some((u, c, o))
    ensures R.AesOf(a, xs) == Some(if enc then Some(R.Aes(2, 0x4541, 3, m)) else None)
  {
    hide LE, Num, R.Extras, R.Resolve64, R.AesOf, R.Find, W.Zip64Extra, W.AesExtra;
    var sizes, offset := W.Big(c) || W.Big(u), W.Big(o);
    var zb, xb := W.Zip64Extra(sizes, offset, u, c, o), W.AesExtra(enc, m);
    var z, x := ExtraIds(a, at, sizes, offset, u, c, o, enc, m);
    xs := z + x;
    EmbeddedSplit(a, at, zb, xb);
    FindBoth(z, x, |zb|, at, enc);
    Zip64Reads(a, at, xs, u, c, o);
    AesReads(a, at + |zb|, xs, enc, m);
  }

  lemma FindBoth(z: seq<R.Extra>, x: seq<R.Extra>, n: nat, at: nat, enc: bool)
    requires z == (if n < 4 then [] else [R.Extra(1, at + 4, n - 4)])
    requires x == (if enc then [R.Extra(0x9901, at + n + 4, 7)] else [])
    ensures R.Find(z + x, 1) == if n < 4 then None else Some(R.Extra(1, at + 4, n - 4))
    ensures R.Find(z + x, 0x9901) == if enc then Some(R.Extra(0x9901, at + n + 4, 7)) else None
  {
    assert enc ==> R.Find(x[1..], 1) == None;
    assert z == [] ==> z + x == x;
    assert z != [] ==> (z + x)[1..] == x;
  }

  lemma Zip64Reads(a: seq<Byte>, at: nat, xs: seq<R.Extra>, u: nat, c: nat, o: nat)
    requires u <= U64_MAX && c <= U64_MAX && o <= U64_MAX
    requires Embedded(a, at, W.Zip64Extra(W.Big(c) || W.Big(u), W.Big(o), u, c, o))
    requires var n := |W.Zip64Extra(W.Big(c) || W.Big(u), W.Big(o), u, c, o)|;
             R.Find(xs, 1) == if n < 4 then None else Some(R.Extra(1, at + 4, n - 4))
    ensures var z := W.Big(c) || W.Big(u);
            R.Resolve64(a, xs, if z then 0xFFFF_FFFF else u, if z then 0xFFFF_FFFF else c,
                        if W.Big(o) then 0xFFFF_FFFF else o) == Some((u, c, o))
  {
    hide LE, Num, R.Find;
    var sizes, offset := W.Big(c) || W.Big(u), W.Big(o);
    if sizes || offset {
      var v := if sizes then Two(8, u, 8, c) else [];
      var w := if offset then LE(8, o) else [];
      var head := Two(2, 1, 2, (if sizes then 16 else 0) + (if offset then 8 else 0));
      EmbeddedSplit(a, at, head + v, w);
      EmbeddedSplit(a, at, head, v);
      PowValues();
      if sizes {
        ReadTwo(a, at + 4, 8, u, 8, c);
      }
      if offset {
        ReadOne(a, at + 4 + |v|, 8, o);
      }
    }
  }

  lemma AesReads(a: seq<Byte>, at: nat, xs: seq<R.Extra>, enc: bool, m: U16)
    requires Embedded(a, at, W.AesExtra(enc, m))
    requires R.Find(xs, 0x9901) == if enc then Some(R.Extra(0x9901, at + 4, 7)) else None
    ensures R.AesOf(a, xs) == Some(if enc then Some(R.Aes(2, 0x4541, 3, m)) else None)
  {
    hide LE, Num, R.Find;
    if enc {
      EmbeddedSplit(a, at, Two(2, 0x9901, 2, 7), Four(2, 2, 2, 0x4541, 1, 3, 2, m));
      PowValues();
      ReadFour(a, at + 4, 2, 2, 2, 0x4541, 1, 3, 2, m);
    }
  }

  // ---------------------------------------------------------------- headers

  lemma StampReads(a: seq<Byte>, at: nat, e: W.EncodedEntry, offset: nat)
    requires Embedded(a, at, W.Stamp(W.Remember(e, offset)))
    ensures at + 8 <= |a|
    ensures Num(a, at, 2) == View(e, offset).flags && Num(a, at + 2, 2) == e.methodOnWire
    ensures Num(a, at + 4, 2) == e.time && Num(a, at + 6, 2) == e.date
  {
    PowValues();
    ReadFour(a, at, 2, W.Flags(e.encrypted, e.gpBit1), 2, e.methodOnWire, 2, e.time, 2, e.date);
  }

  lemma SizesRead(a: seq<Byte>, at: nat, e: W.EncodedEntry, offset: nat)
    requires Embedded(a, at, W.Sizes(W.Remember(e, offset)))
    ensures at + 12 <= |a|
    ensures var z := W.Big(|e.body|) || W.Big(e.uncompressedSize);
      && Num(a, at, 4) == View(e, offset).crc32
      && Num(a, at + 4, 4) == (if z then 0xFFFF_FFFF else |e.body|)
      && Num(a, at + 8, 4) == (if z then 0xFFFF_FFFF else e.uncompressedSize)
  {
    PowValues();
    var z := W.Big(|e.body|) || W.Big(e.uncompressedSize);
    ReadThree(a, at, 4, if e.encrypted then 0 else e.crc32, 4, if z then 0xFFFF_FFFF else |e.body|,
              4, if z then 0xFFFF_FFFF else e.uncompressedSize);
  }

  lemma LocalFixedReads(a: seq<Byte>, at: nat, e: W.EncodedEntry, extra: nat, offset: nat)
    requires Embedded(a, at, W.LocalFixed(W.Remember(e, offset), extra)) && NameFits(e) && extra < 0x1_0000
    ensures at + 30 <= |a|
    ensures Num(a, at + 4, 2) == W.Remember(e, offset).versionNeeded
    ensures Num(a, at, 4) == 0x0403_4b50 && Num(a, at + 26, 2) == |e.nameBytes| && Num(a, at + 28, 2) == extra
    ensures Embedded(a, at + 6, W.Stamp(W.Remember(e, offset)))
    ensures Embedded(a, at + 14, W.Sizes(W.Remember(e, offset)))
  {
    hide Num, LE, W.Stamp, W.Sizes;
    var c := W.Remember(e, offset);
    var head, tail := Two(4, W.SIG_LFH, 2, c.versionNeeded), Two(2, |c.nameBytes|, 2, extra);
    EmbeddedSplit(a, at, head + W.Stamp(c) + W.Sizes(c), tail);
    EmbeddedSplit(a, at, head + W.Stamp(c), W.Sizes(c));
    EmbeddedSplit(a, at, head, W.Stamp(c));
    PowValues();
    ReadTwo(a, at, 4, W.SIG_LFH, 2, c.versionNeeded);
    ReadTwo(a, at + 26, 2, |c.nameBytes|, 2, extra);
  }

  lemma CentralFixedReads(a: seq<Byte>, at: nat, e: W.EncodedEntry, extra: nat, offset: nat)
    requires Embedded(a, at, W.CentralFixed(W.Remember(e, offset), extra)) && NameFits(e) && extra < 0x1_0000
    ensures at + 46 <= |a|
    ensures Num(a, at + 4, 2) == 0x031E && Num(a, at + 6, 2) == Max(W.Remember(e, offset).versionNeeded, 45)
    ensures Num(a, at + 38, 4) == 0x81A4_0000
    ensures Num(a, at, 4) == 0x0201_4b50 && Num(a, at + 28, 2) == |e.nameBytes| && Num(a, at + 30, 2) == extra
    ensures Num(a, at + 32, 2) == 0 && Num(a, at + 34, 2) == 0 && Num(a, at + 36, 2) == 0
    ensures Num(a, at + 42, 4) == if W.Big(offset) then 0xFFFF_FFFF else offset
    ensures Embedded(a, at + 8, W.Stamp(W.Remember(e, offset)))
    ensures Embedded(a, at + 16, W.Sizes(W.Remember(e, offset)))
  {
    hide Num, LE, W.Stamp, W.Sizes;
    var c := W.Remember(e, offset);
    var o := if W.Big(offset) then 0xFFFF_FFFF else offset;
    var head := Three(4, W.SIG_CDR, 2, 0x031E, 2, Max(c.versionNeeded, 45));
    var lens, tail := Four(2, |c.nameBytes|, 2, extra, 2, 0, 2, 0), Three(2, 0, 4, 0x81A4_0000, 4, o);
    EmbeddedSplit(a, at, head + W.Stamp(c) + W.Sizes(c) + lens, tail);
    EmbeddedSplit(a, at, head + W.Stamp(c) + W.Sizes(c), lens);
    EmbeddedSplit(a, at, head + W.Stamp(c), W.Sizes(c));
    EmbeddedSplit(a, at, head, W.Stamp(c));
    PowValues();
    ReadThree(a, at, 4, W.SIG_CDR, 2, 0x031E, 2, Max(c.versionNeeded, 45));
    ReadFour(a, at + 28, 2, |c.nameBytes|, 2, extra, 2, 0, 2, 0);
    ReadThree(a, at + 36, 2, 0, 4, 0x81A4_0000, 4, o);
  }

  lemma ExtraLength(e: W.EncodedEntry, offset: nat)
    ensures |W.LocalExtra(W.Remember(e, offset))| <= 31 && |W.CentralExtra(W.Remember(e, offset))| <= 39
  {
  }

  lemma LocalPieces(a: seq<Byte>, at: nat, e: W.EncodedEntry)
    requires Embedded(a, at, W.LocalPart(e))
    ensures var c := W.Remember(e, 0);
            var extra := W.LocalExtra(c);
            && Embedded(a, at, W.LocalFixed(c, |extra|)) && Embedded(a, at + 30, e.nameBytes)
            && Embedded(a, at + 30 + |e.nameBytes|, extra)
            && Embedded(a, at + 30 + |e.nameBytes| + |extra|, e.body)
  {
    hide W.LocalFixed, W.LocalExtra, Embedded;
    var c := W.Remember(e, 0);
    var extra := W.LocalExtra(c);
    var fixed := W.LocalFixed(c, |extra|);
    EmbeddedSplit(a, at, fixed + c.nameBytes + extra, e.body);
    EmbeddedSplit(a, at, fixed + c.nameBytes, extra);
    EmbeddedSplit(a, at, fixed, c.nameBytes);
  }

  /** The local part of `e`, wherever it stands, reads as `e`'s view and agrees with it. */
  lemma LocalReads(a: seq<Byte>, at: nat, e: W.EncodedEntry)
    requires Embedded(a, at, W.LocalPart(e)) && NameFits(e) && |e.body| <= U64_MAX
    ensures R.Local(a, Headline(e, at)) == Some(View(e, at))
  {
    hide Num, LE, R.Extras, R.Resolve64, R.AesOf, W.LocalFixed, W.Zip64Extra, W.AesExtra, W.LocalPart;
    var extra := W.LocalExtra(W.Remember(e, 0));
    ExtraLength(e, 0);
    LocalPieces(a, at, e);
    LocalFixedReads(a, at, e, |extra|, 0);
    StampReads(a, at + 6, e, 0);
    SizesRead(a, at + 14, e, 0);
    var xs := ExtraReads(a, at + 30 + |e.nameBytes|, e.uncompressedSize, |e.body|, 0, e.encrypted, e.innerMethod);
  }

  /** The central header of `e` reads as `e`'s view without its body. */
  lemma CentralReads(a: seq<Byte>, at: nat, e: W.EncodedEntry, offset: nat)
    requires Embedded(a, at, W.CentralPart(W.Remember(e, offset)))
    requires NameFits(e) && |e.body| <= U64_MAX && offset <= U64_MAX
    ensures R.Central(a, at) == Some((Headline(e, offset), |W.CentralPart(W.Remember(e, offset))|))
  {
    hide Num, LE, R.Extras, R.Resolve64, R.AesOf, W.CentralFixed, W.Zip64Extra, W.AesExtra;
    var c := W.Remember(e, offset);
    var extra := W.CentralExtra(c);
    var fixed := W.CentralFixed(c, |extra|);
    ExtraLength(e, offset);
    EmbeddedSplit(a, at, fixed + c.nameBytes, extra);
    EmbeddedSplit(a, at, fixed, c.nameBytes);
    CentralFixedReads(a, at, e, |extra|, offset);
    StampReads(a, at + 8, e, offset);
    SizesRead(a, at + 16, e, offset);
    var xs := ExtraReads(a, at + 46 + |e.nameBytes|, e.uncompressedSize, |e.body|, offset, e.encrypted, e.innerMethod);
  }

  // ---------------------------------------------------------------- the directory

  predicate Readable(a: seq<Byte>, es: seq<W.EncodedEntry>, cdAt: nat)
  {
    && |a| <= U64_MAX
    && Embedded(a, 0, Flatten(W.LocalParts(es)))
    && Embedded(a, cdAt, Flatten(W.CentralParts(W.Remembered(es))))
    && forall i :: 0 <= i < |es| ==> NameFits(es[i])
  }

  /** Entry `i` reads back at its place in the directory. */
  lemma EntryReads(a: seq<Byte>, es: seq<W.EncodedEntry>, cdAt: nat, i: nat)
    requires Readable(a, es, cdAt) && i < |es|
    ensures var parts := W.CentralParts(W.Remembered(es));
            && R.Central(a, cdAt + |Flatten(parts[..i])|) == Some((Headline(es[i], W.Offset(es, i)), |parts[i]|))
            && |Flatten(parts[..i + 1])| == |Flatten(parts[..i])| + |parts[i]|
    ensures R.Local(a, Headline(es[i], W.Offset(es, i))) == Some(Views(es)[i])
  {
    hide R.Central, R.Local, W.CentralPart, W.LocalPart, View, NameFits;
    var locals, parts := W.LocalParts(es), W.CentralParts(W.Remembered(es));
    FlattenAt(locals, i);
    assert W.LocalParts(es[..i]) == locals[..i];
    EmbeddedTrans(a, 0, Flatten(locals), W.Offset(es, i), locals[i]);
    FlattenAt(parts, i);
    EmbeddedTrans(a, cdAt, Flatten(parts), |Flatten(parts[..i])|, parts[i]);
    BodyFits(a, W.Offset(es, i), es[i]);
    LocalReads(a, W.Offset(es, i), es[i]);
    CentralReads(a, cdAt + |Flatten(parts[..i])|, es[i], W.Offset(es, i));
  }

  lemma BodyFits(a: seq<Byte>, at: nat, e: W.EncodedEntry)
    requires Embedded(a, at, W.LocalPart(e)) && |a| <= U64_MAX
    ensures |e.body| <= U64_MAX && at <= U64_MAX
  {
    hide W.LocalHeader;
  }

  lemma {:induction false} EntriesRead(a: seq<Byte>, es: seq<W.EncodedEntry>, cdAt: nat, i: nat)
    requires Readable(a, es, cdAt) && i <= |es|
    ensures var parts := W.CentralParts(W.Remembered(es));
            R.Entries(a, cdAt + |Flatten(parts[..i])|, |es| - i) == Some((Views(es)[i..], cdAt + |Flatten(parts)|))
    decreases |es| - i
  {
    hide R.Central, R.Local, W.CentralParts, W.Remembered, Views, Headline, Flatten, Readable;
    var parts := W.CentralParts(W.Remembered(es));
    if i == |es| {
      assert parts[..i] == parts;
      assert Views(es)[i..] == [];
    } else {
      EntryReads(a, es, cdAt, i);
      EntriesRead(a, es, cdAt, i + 1);
      assert Views(es)[i..] == [Views(es)[i]] + Views(es)[i + 1..];
    }
  }

  // ---------------------------------------------------------------- end records

  lemma EndReads(a: seq<Byte>, at: nat, count: nat, size: nat, offset: nat)
    requires Embedded(a, at, W.End(count, size, offset)) && at + 22 == |a|
    ensures R.FindEnd(a, at) == Some(at)
    ensures Num(a, at + 4, 2) == 0 && Num(a, at + 6, 2) == 0
    ensures Num(a, at + 8, 2) == Num(a, at + 10, 2) == Min(count, 0xFFFF)
    ensures Num(a, at + 12, 4) == Min(size, 0xFFFF_FFFF) && Num(a, at + 16, 4) == Min(offset, 0xFFFF_FFFF)
  {
    hide Num, LE, Two, Three;
    var n, s, o := Min(count, 0xFFFF), Min(size, 0xFFFF_FFFF), Min(offset, 0xFFFF_FFFF);
    var head, counts := Three(4, W.SIG_EOCD, 2, 0, 2, 0), Two(2, n, 2, n);
    EmbeddedSplit(a, at, head + counts, Three(4, s, 4, o, 2, 0));
    EmbeddedSplit(a, at, head, counts);
    EndHeadReads(a, at, n);
    EndSizesRead(a, at + 12, s, o);
  }

  lemma EndHeadReads(a: seq<Byte>, at: nat, n: U16)
    requires Embedded(a, at, Three(4, W.SIG_EOCD, 2, 0, 2, 0)) && Embedded(a, at + 8, Two(2, n, 2, n))
    ensures Num(a, at, 4) == 0x0605_4b50 && Num(a, at + 4, 2) == 0 && Num(a, at + 6, 2) == 0
    ensures Num(a, at + 8, 2) == n && Num(a, at + 10, 2) == n
  {
    hide Num, LE;
    PowValues();
    ReadThree(a, at, 4, W.SIG_EOCD, 2, 0, 2, 0);
    ReadTwo(a, at + 8, 2, n, 2, n);
  }

  lemma EndSizesRead(a: seq<Byte>, at: nat, s: U32, o: U32)
    requires Embedded(a, at, Three(4, s, 4, o, 2, 0))
    ensures Num(a, at, 4) == s && Num(a, at + 4, 4) == o && Num(a, at + 8, 2) == 0
  {
    hide Num, LE;
    PowValues();
    ReadThree(a, at, 4, s, 4, o, 2, 0);
  }

  lemma End64Reads(a: seq<Byte>, at: nat, count: nat, size: nat, offset: nat)
    requires Embedded(a, at, W.End64(count, size, offset))
    requires count <= U64_MAX && size <= U64_MAX && offset <= U64_MAX
    ensures Num(a, at, 4) == 0x0606_4b50 && Num(a, at + 4, 8) == 44
    ensures Num(a, at + 12, 2) == 0x031E && Num(a, at + 14, 2) == 45
    ensures Num(a, at + 16, 4) == 0 && Num(a, at + 20, 4) == 0
    ensures Num(a, at + 24, 8) == Num(a, at + 32, 8) == count
    ensures Num(a, at + 40, 8) == size && Num(a, at + 48, 8) == offset
  {
    hide Num, LE;
    var head, versions := Two(4, W.SIG_EOCD64, 8, 44), Four(2, 0x031E, 2, 45, 4, 0, 4, 0);
    EmbeddedSplit(a, at, head + versions, Four(8, count, 8, count, 8, size, 8, offset));
    EmbeddedSplit(a, at, head, versions);
    PowValues();
    ReadTwo(a, at, 4, W.SIG_EOCD64, 8, 44);
    ReadFour(a, at + 12, 2, 0x031E, 2, 45, 4, 0, 4, 0);
    ReadFour(a, at + 24, 8, count, 8, count, 8, size, 8, offset);
  }

  lemma LocatorReads(a: seq<Byte>, at: nat, end64: nat)
    requires Embedded(a, at, W.Locator(end64)) && end64 <= U64_MAX
    ensures Num(a, at, 4) == 0x0706_4b50 && Num(a, at + 4, 4) == 0 && Num(a, at + 8, 8) == end64
            && Num(a, at + 16, 4) == 1
  {
    hide Num, LE;
    PowValues();
    ReadFour(a, at, 4, W.SIG_EOCD64_LOC, 4, 0, 8, end64, 4, 1);
  }

  /** The end records lead the reader to the central directory, with or without ZIP64. */
  lemma TrailerReads(a: seq<Byte>, count: nat, size: nat, offset: nat)
    requires |a| <= U64_MAX && count <= U64_MAX
    requires |a| == offset + size + |W.Trailer(count, size, offset)|
    requires Embedded(a, offset + size, W.Trailer(count, size, offset))
    ensures |a| >= 22 && R.FindEnd(a, |a| - 22) == Some(|a| - 22) && offset + size <= |a| - 22
    ensures R.DirectoryAt(a, |a| - 22) == Some(R.Directory(count, size, offset))
  {
    hide Num, LE, W.End, W.End64, W.Locator, R.FindEnd, R.DirectoryAt;
    var end := W.End(count, size, offset);
    var at := |a| - 22;
    if W.NeedsEnd64(count, size, offset) {
      var end64, loc := W.End64(count, size, offset), W.Locator(offset + size);
      EmbeddedSplit(a, offset + size, end64 + loc, end);
      EmbeddedSplit(a, offset + size, end64, loc);
      End64Reads(a, offset + size, count, size, offset);
      LocatorReads(a, at - 20, offset + size);
      EndReads(a, at, count, size, offset);
      Directory64(a, at, count, size, offset);
    } else {
      assert [] + end == end;
      EndReads(a, at, count, size, offset);
      Directory32(a, at, count, size, offset);
    }
  }

  lemma Directory32(a: seq<Byte>, at: nat, count: nat, size: nat, offset: nat)
    requires at + 22 <= |a| && !W.NeedsEnd64(count, size, offset)
    requires Num(a, at + 4, 2) == 0 && Num(a, at + 6, 2) == 0
    requires Num(a, at + 8, 2) == Num(a, at + 10, 2) == Min(count, 0xFFFF)
    requires Num(a, at + 12, 4) == Min(size, 0xFFFF_FFFF) && Num(a, at + 16, 4) == Min(offset, 0xFFFF_FFFF)
    ensures R.DirectoryAt(a, at) == Some(R.Directory(count, size, offset))
  {
    hide Num;
  }

  lemma Directory64(a: seq<Byte>, at: nat, count: nat, size: nat, offset: nat)
    requires at + 22 <= |a| && W.NeedsEnd64(count, size, offset) && at >= 20
    requires Num(a, at + 4, 2) == 0 && Num(a, at + 6, 2) == 0
    requires Num(a, at + 8, 2) == Num(a, at + 10, 2) == Min(count, 0xFFFF)
    requires Num(a, at + 12, 4) == Min(size, 0xFFFF_FFFF) && Num(a, at + 16, 4) == Min(offset, 0xFFFF_FFFF)
    requires offset + size + 56 == at - 20
    requires Num(a, at - 20, 4) == 0x0706_4b50 && Num(a, at - 16, 4) == 0 && Num(a, at - 12, 8) == offset + size
             && Num(a, at - 4, 4) == 1
    requires var z := offset + size;
             && Num(a, z, 4) == 0x0606_4b50 && Num(a, z + 4, 8) == 44
             && Num(a, z + 16, 4) == 0 && Num(a, z + 20, 4) == 0
             && Num(a, z + 24, 8) == Num(a, z + 32, 8) == count
             && Num(a, z + 40, 8) == size && Num(a, z + 48, 8) == offset
    ensures R.DirectoryAt(a, at) == Some(R.Directory(count, size, offset))
  {
    hide Num;
  }

  // ---------------------------------------------------------------- the theorem

  /** Round trip: reading an archive gives exactly the entries written, if and only if every
      name fits its 16-bit length field. Sizes, offsets, counts and the directory itself may
      lie on either side of every ZIP64 threshold. */
  lemma ParseArchive(es: seq<W.EncodedEntry>)
    ensures |W.Archive(es)| <= U64_MAX ==>
              (R.Parse(W.Archive(es)) == Some(Views(es)) <==> forall i :: 0 <= i < |es| ==> NameFits(es[i]))
  {
    var a := W.Archive(es);
    EntriesTakeSpace(es);
    ParsedNamesFit(a);
    hide W.Archive, R.Parse, View;
    if |a| <= U64_MAX && (forall i :: 0 <= i < |es| ==> NameFits(es[i])) {
      ParseArchiveFits(es);
    } else if i :| 0 <= i < |es| && !NameFits(es[i]) {
      ViewKeepsName(es, i);
    }
  }

  lemma ViewKeepsName(es: seq<W.EncodedEntry>, i: nat)
    requires i < |es|
    ensures Views(es)[i].name == es[i].nameBytes
  {
    hide W.Offset;
  }

  /** An archive has more bytes than entries. */
  lemma EntriesTakeSpace(es: seq<W.EncodedEntry>)
    ensures |es| <= |W.Archive(es)|
  {
    hide W.Trailer, W.CentralPart, W.LocalPart, W.Remembered;
    LocalsTakeSpace(es);
  }

  lemma {:induction false} LocalsTakeSpace(es: seq<W.EncodedEntry>)
    ensures |es| <= |Flatten(W.LocalParts(es))|
    decreases |es|
  {
    if es != [] {
      hide W.LocalParts, W.LocalPart, Flatten, W.Remembered, W.Remember;
      var n := |es| - 1;
      LocalsTakeSpace(es[..n]);
      W.AppendEntry(es[..n], es[n]);
      W.LocalLength(es[n]);
      assert es == es[..n] + [es[n]];
    }
  }

  lemma TrailerLength(count: nat, size: nat, offset: nat)
    ensures |W.Trailer(count, size, offset)|
            == if count >= 0xFFFF || size >= 0xFFFF_FFFF || offset >= 0xFFFF_FFFF then 98 else 22
  {
    hide W.End64, W.Locator, W.End;
  }

  /** The end records of an archive lead to its directory. */
  lemma DirectoryRead(es: seq<W.EncodedEntry>)
    requires |W.Archive(es)| <= U64_MAX && |es| <= U64_MAX
    ensures var a := W.Archive(es);
            var size, offset := |Flatten(W.CentralParts(W.Remembered(es)))|, |Flatten(W.LocalParts(es))|;
            && |a| == offset + size
                      + (if |es| >= 0xFFFF || size >= 0xFFFF_FFFF || offset >= 0xFFFF_FFFF then 98 else 22)
            && R.FindEnd(a, |a| - 22) == Some(|a| - 22)
            && R.DirectoryAt(a, |a| - 22) == Some(R.Directory(|es|, size, offset))
  {
    hide W.Trailer, Flatten, R.DirectoryAt, R.FindEnd;
    var a := W.Archive(es);
    var locals, central := Flatten(W.LocalParts(es)), Flatten(W.CentralParts(W.Remembered(es)));
    assert Embedded(a, 0, a);
    EmbeddedSplit(a, 0, locals + central, W.Trailer(|es|, |central|, |locals|));
    TrailerReads(a, |es|, |central|, |locals|);
    TrailerLength(|es|, |central|, |locals|);
  }

  lemma ArchiveReadable(es: seq<W.EncodedEntry>)
    requires |W.Archive(es)| <= U64_MAX && forall i :: 0 <= i < |es| ==> NameFits(es[i])
    ensures Readable(W.Archive(es), es, |Flatten(W.LocalParts(es))|)
  {
    hide W.Trailer, Flatten, NameFits, W.LocalParts, W.CentralParts, W.Remembered;
    var a := W.Archive(es);
    var locals, central := Flatten(W.LocalParts(es)), Flatten(W.CentralParts(W.Remembered(es)));
    assert Embedded(a, 0, a);
    EmbeddedSplit(a, 0, locals + central, W.Trailer(|es|, |central|, |locals|));
    EmbeddedSplit(a, 0, locals, central);
  }

  lemma ParseArchiveFits(es: seq<W.EncodedEntry>)
    requires |W.Archive(es)| <= U64_MAX && |es| <= U64_MAX
    requires forall i :: 0 <= i < |es| ==> NameFits(es[i])
    ensures R.Parse(W.Archive(es)) == Some(Views(es))
  {
    hide W.Archive, W.LocalParts, W.CentralParts, W.Remembered, Flatten, Readable, Views;
    hide R.DirectoryAt, R.Entries, R.FindEnd, NameFits;
    DirectoryRead(es);
    ArchiveReadable(es);
    AllEntriesRead(W.Archive(es), es, |Flatten(W.LocalParts(es))|);
  }

  lemma AllEntriesRead(a: seq<Byte>, es: seq<W.EncodedEntry>, cdAt: nat)
    requires Readable(a, es, cdAt)
    ensures R.Entries(a, cdAt, |es|) == Some((Views(es), cdAt + |Flatten(W.CentralParts(W.Remembered(es)))|))
  {
    EntriesRead(a, es, cdAt, 0);
    hide Readable, R.Entries, W.CentralParts, W.Remembered, Views;
    assert W.CentralParts(W.Remembered(es))[..0] == [] && Views(es)[0..] == Views(es);
    assert |Flatten<Byte>([])| == 0;
  }

  /** Bytes of the archive from an entry's local header to the end of its body. */
  function Span(v: R.Entry): nat
  {
    30 + |v.name| + (if v.compSize >= 0xFFFF_FFFF || v.uncompSize >= 0xFFFF_FFFF then 20 else 0)
    + (if v.aes.Some? then 11 else 0) + v.compSize
  }

  /** Bytes of the entries' headers in the central directory. */
  function HeadersSpan(vs: seq<R.Entry>): nat
  {
    if vs == [] then 0
    else
      var v := vs[|vs| - 1];
      var sizes, offset := v.compSize >= 0xFFFF_FFFF || v.uncompSize >= 0xFFFF_FFFF, v.offset >= 0xFFFF_FFFF;
      HeadersSpan(vs[..|vs| - 1]) + 46 + |v.name| + (if v.aes.Some? then 11 else 0)
      + (if sizes || offset then 4 else 0) + (if sizes then 16 else 0) + (if offset then 8 else 0)
  }

  /** The archive `a` with entries `vs` and directory `d` has no byte to spare: the first entry stands
      at its start, each next one where the one before ends, the central directory where the last one
      ends, and the end records, 22 bytes or 98 with ZIP64, where the directory ends and up to the end
      of the archive. */
  predicate Adjoins(a: seq<Byte>, vs: seq<R.Entry>, d: R.Directory)
  {
    && (vs != [] ==> vs[0].offset == 0)
    && (forall i :: 0 <= i < |vs| - 1 ==> vs[i + 1].offset == vs[i].offset + Span(vs[i]))
    && d.count == |vs| && d.size == HeadersSpan(vs)
    && d.offset == (if vs == [] then 0 else vs[|vs| - 1].offset + Span(vs[|vs| - 1]))
    && |a| == d.offset + d.size
              + if d.count >= 0xFFFF || d.size >= 0xFFFF_FFFF || d.offset >= 0xFFFF_FFFF then 98 else 22
  }

  /** What the reader finds in an archive of the writer adjoins. */
  lemma EntriesAdjoin(es: seq<W.EncodedEntry>)
    requires |W.Archive(es)| <= U64_MAX && forall i :: 0 <= i < |es| ==> NameFits(es[i])
    ensures R.Parse(W.Archive(es)).Some? && R.DirectoryAt(W.Archive(es), |W.Archive(es)| - 22).Some?
    ensures Adjoins(W.Archive(es), R.Parse(W.Archive(es)).value,
                    R.DirectoryAt(W.Archive(es), |W.Archive(es)| - 22).value)
  {
    EntriesTakeSpace(es);
    hide W.Archive, R.Parse, R.DirectoryAt, Views, HeadersSpan, Flatten;
    ParseArchiveFits(es);
    DirectoryRead(es);
    SpansAdjoin(es);
    HeadersLength(es, |es|);
    var parts := W.CentralParts(W.Remembered(es));
    assert parts[..|es|] == parts && Views(es)[..|es|] == Views(es);
  }

  lemma SpansAdjoin(es: seq<W.EncodedEntry>)
    ensures var vs := Views(es);
            && (vs != [] ==> vs[0].offset == 0)
            && (forall i :: 0 <= i < |vs| - 1 ==> vs[i + 1].offset == vs[i].offset + Span(vs[i]))
            && |Flatten(W.LocalParts(es))| == if vs == [] then 0 else vs[|vs| - 1].offset + Span(vs[|vs| - 1])
  {
    hide Span;
    forall i | 0 <= i < |es|
      ensures |Flatten(W.LocalParts(es[..i + 1]))| == Views(es)[i].offset + Span(Views(es)[i])
    {
      NextOffset(es, i);
    }
    assert es[..|es|] == es;
  }

  lemma NextOffset(es: seq<W.EncodedEntry>, i: nat)
    requires i < |es|
    ensures W.Offset(es, i + 1) == W.Offset(es, i) + Span(Views(es)[i])
  {
    hide W.LocalPart;
    assert es[..i + 1] == es[..i] + [es[i]];
    W.AppendEntry(es[..i], es[i]);
    W.LocalLength(es[i]);
  }

  lemma {:induction false} HeadersLength(es: seq<W.EncodedEntry>, n: nat)
    requires n <= |es|
    ensures |Flatten(W.CentralParts(W.Remembered(es))[..n])| == HeadersSpan(Views(es)[..n])
  {
    hide W.CentralPart, W.Offset;
    if n > 0 {
      HeadersLength(es, n - 1);
      var parts := W.CentralParts(W.Remembered(es));
      FlattenAt(parts, n - 1);
      assert Views(es)[..n][..n - 1] == Views(es)[..n - 1];
      W.CentralLength(W.Remember(es[n - 1], W.Offset(es, n - 1)));
    }
  }

  /** A reader never reports a name of 64 KiB or more. */
  lemma ParsedNamesFit(a: seq<Byte>)
    ensures R.Parse(a).Some? ==> forall i :: 0 <= i < |R.Parse(a).value| ==> |R.Parse(a).value[i].name| < 0x1_0000
  {
    hide R.FindEnd, R.Central, R.Local;
    if R.Parse(a).Some? {
      var d := R.DirectoryAt(a, R.FindEnd(a, |a| - 22).value).value;
      EntryNamesFit(a, d.offset, d.count);
    }
  }

  lemma {:induction false} EntryNamesFit(a: seq<Byte>, at: nat, count: nat)
    ensures var es := R.Entries(a, at, count);
            es.Some? ==> forall i :: 0 <= i < |es.value.0| ==> |es.value.0[i].name| < 0x1_0000
    decreases count
  {
    hide R.Local, R.Central;
    if count > 0 && R.Entries(a, at, count).Some? {
      var header := R.Central(a, at).value;
      NameFitsField(a, at);
      LocalKeepsName(a, header.0);
      EntryNamesFit(a, at + header.1, count - 1);
    }
  }

  lemma NameFitsField(a: seq<Byte>, at: nat)
    requires R.Central(a, at).Some?
    ensures |R.Central(a, at).value.0.name| < 0x1_0000
  {
    FromLEBound(a[at + 28..at + 30]);
    PowValues();
  }

  lemma LocalKeepsName(a: seq<Byte>, c: R.Entry)
    requires R.Local(a, c).Some?
    ensures R.Local(a, c).value.name == c.name
  {
  }
}
