/** The worker's encoding of one file, and a reference extraction of one entry. Compression
    and the checksum are arbitrary functions; `decompress` is what a reader applies. */
module Encoder {
  import opened Bytes
  import opened Items
  import opened Ae2
  import W = ZipWriter
  import R = ZipReader
  import opened ZipRoundTrip

  datatype Codec = Codec(
    compress: seq<Byte> -> (seq<Byte>, bool),
    decompress: seq<Byte> -> Option<seq<Byte>>,
    methodId: U16,
    versionNeeded: U16,
    crc32: seq<Byte> -> U32)

  /** The codec is lossless on these bytes. */
  predicate Lossless(codec: Codec, bytes: seq<Byte>)
  {
    codec.decompress(codec.compress(bytes).0) == Some(bytes)
  }

  predicate Encrypts(password: Option<seq<Byte>>) { password.Some? && password.value != [] }

  /** The size field holds the length modulo 2^64, which is the length of any real buffer. */
  function Size64(n: nat): U64 { n % 0x1_0000_0000_0000_0000 }

  /** The entry for a file; the salt matters only with a password. */
  function EntryFor(codec: Codec, suite: Suite, password: Option<seq<Byte>>, salt: Block, raw: RawItem): W.EncodedEntry
  {
    var (data, bit1) := codec.compress(raw.bytes);
    var enc := Encrypts(password);
    W.EncodedEntry(raw.index, raw.item.name, if enc then Seal(suite, password.value, salt, data) else data,
                   Size64(|raw.bytes|), codec.crc32(raw.bytes), if enc then 99 else codec.methodId, codec.methodId,
                   enc, bit1, codec.versionNeeded, raw.item.date, raw.item.time)
  }

  /** Compresses, and with a password seals the compressed bytes in their own buffer. */
  method EncodeOne(codec: Codec, suite: Suite, password: Option<seq<Byte>>, salt: Block, raw: RawItem)
    returns (e: W.EncodedEntry)
    ensures e == EntryFor(codec, suite, password, salt, raw)
  {
    hide Seal;
    var crc := codec.crc32(raw.bytes);
    var (data, bit1) := codec.compress(raw.bytes);
    var body, encrypted, method0 := data, false, codec.methodId;
    if Encrypts(password) {
      var sealed := Envelope(suite, password.value, salt, data);
      body, encrypted, method0 := sealed.value, true, W.METHOD_AES;
    }
    e := W.EncodedEntry(raw.index, raw.item.name, body, Size64(|raw.bytes|), crc, method0, codec.methodId,
                        encrypted, bit1, codec.versionNeeded, raw.item.date, raw.item.time);
  }

  /** What a reader does with an entry: bit 0 of the flags says encrypted, and then the real
      method is in the AES field and the checksum is not used (AE-2); otherwise the checksum
      must hold. The length must hold in either case. */
  function Extract(codec: Codec, suite: Suite, password: Option<seq<Byte>>, e: R.Entry): Option<seq<Byte>>
  {
    if e.flags % 2 == 1 then
      var aes :- e.aes;
      var _ :- Check(e.compression == 99 && aes.version == 2 && aes.strength == 3 && aes.compression == codec.methodId);
      var pw :- password;
      var data :- Open(suite, pw, e.body);
      var bytes :- codec.decompress(data);
      var _ :- Check(|bytes| == e.uncompSize);
      Some(bytes)
    else
      var _ :- Check(e.compression == codec.methodId);
      var bytes :- codec.decompress(e.body);
      var _ :- Check(|bytes| == e.uncompSize && codec.crc32(bytes) == e.crc32);
      Some(bytes)
  }

  /** The entry carries the file's name, time, date and size. */
  predicate Labelled(e: R.Entry, raw: RawItem)
  {
    e.name == raw.item.name && e.time == raw.item.time && e.date == raw.item.date && e.uncompSize == |raw.bytes|
  }

  lemma ExtractIgnoresOffset(codec: Codec, suite: Suite, password: Option<seq<Byte>>, e: R.Entry, offset: nat)
    ensures Extract(codec, suite, password, e.(offset := offset)) == Extract(codec, suite, password, e)
  {
    hide Open;
  }

  /** What extraction makes of a file's own entry. */
  function Recovered(codec: Codec, encrypted: bool, bytes: seq<Byte>): Option<seq<Byte>>
  {
    var back :- codec.decompress(codec.compress(bytes).0);
    var _ :- Check(|back| == |bytes| && (encrypted || codec.crc32(back) == codec.crc32(bytes)));
    Some(back)
  }

  /** Extraction of an entry depends on the codec alone, whatever the salt and the place. */
  lemma ExtractRecovers(codec: Codec, suite: Suite, password: Option<seq<Byte>>, salt: Block, raw: RawItem,
                        offset: nat)
    requires |raw.bytes| <= U64_MAX
    ensures Extract(codec, suite, password, View(EntryFor(codec, suite, password, salt, raw), offset))
            == Recovered(codec, Encrypts(password), raw.bytes)
    ensures Labelled(View(EntryFor(codec, suite, password, salt, raw), offset), raw)
  {
    hide Open, Seal;
    var data := codec.compress(raw.bytes).0;
    if Encrypts(password) {
      SealOpens(suite, password.value, salt, data);
    }
  }

  /** The reader's entry in the terms of the codec: bit 0 of the flags says encrypted, bit 1 is the
      codec's own, bit 11 says that the name is UTF-8; the versions are the codec's, but at least 45
      in the directory and 20 in the local header, or 45 with ZIP64 sizes. */
  lemma EntryFields(codec: Codec, suite: Suite, password: Option<seq<Byte>>, salt: Block, raw: RawItem, offset: nat)
    requires |raw.bytes| <= U64_MAX
    ensures var v := View(EntryFor(codec, suite, password, salt, raw), offset);
            var (data, bit1) := codec.compress(raw.bytes);
            var enc := password.Some? && password.value != [];
            && v.flags == 0x800 + (if enc then 1 else 0) + (if bit1 then 2 else 0)
            && v.versionNeeded == Max(codec.versionNeeded, 45)
            && v.versionLocal
               == Max(codec.versionNeeded, if v.compSize >= 0xFFFF_FFFF || |raw.bytes| >= 0xFFFF_FFFF then 45 else 20)
            && v.compression == (if enc then 99 else codec.methodId)
            && v.compSize == |data| + (if enc then 28 else 0)
            && v.crc32 == (if enc then 0 else codec.crc32(raw.bytes))
            && (v.body == data <== !enc)
            && v.aes == (if enc then Some(R.Aes(2, 0x4541, 3, codec.methodId)) else None)
            && v.offset == offset
  {
    hide Seal;
  }

  lemma RecoversIffLossless(codec: Codec, encrypted: bool, bytes: seq<Byte>)
    ensures Recovered(codec, encrypted, bytes) == Some(bytes) <==> Lossless(codec, bytes)
  {
  }

  /** Extraction recovers the file, with or without a password, exactly when the codec does. */
  lemma ExtractIsInverse(codec: Codec, suite: Suite, password: Option<seq<Byte>>, salt: Block, raw: RawItem,
                         offset: nat)
    requires |raw.bytes| <= U64_MAX
    ensures Extract(codec, suite, password, View(EntryFor(codec, suite, password, salt, raw), offset))
            == Some(raw.bytes)
            <==> Lossless(codec, raw.bytes)
    ensures Labelled(View(EntryFor(codec, suite, password, salt, raw), offset), raw)
  {
    hide Extract, EntryFor, Recovered;
    ExtractRecovers(codec, suite, password, salt, raw, offset);
    RecoversIffLossless(codec, Encrypts(password), raw.bytes);
  }
}
