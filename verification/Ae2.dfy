/** The WinZip AE-2 envelope, assembled in place around compressed data: salt, password
    verifier, ciphertext, truncated authentication code. Key derivation, the block cipher and
    the authentication code are arbitrary functions of the right output length. */
module Ae2 {
  import opened Bytes

  const SALT_LEN: nat := 16
  const VERIFY_LEN: nat := 2
  const MAC_LEN: nat := 10
  const KEY_LEN: nat := 32
  const MAC_KEY_LEN: nat := 32
  const PREFIX: nat := SALT_LEN + VERIFY_LEN
  const AE2_OVERHEAD: nat := SALT_LEN + VERIFY_LEN + MAC_LEN

  type Block = s: seq<Byte> | |s| == 16 witness seq(16, _ => 0)
  type Digest = s: seq<Byte> | |s| == 20 witness seq(20, _ => 0)
  type Derived = s: seq<Byte> | |s| == 66 witness seq(66, _ => 0)

  /** Password and salt to key material; key and counter to a block of keystream; key and
      message to an authentication code. */
  datatype Suite = Suite(
    derive: (seq<Byte>, seq<Byte>) -> Derived,
    block: (seq<Byte>, nat) -> Block,
    mac: (seq<Byte>, seq<Byte>) -> Digest)

  // ---------------------------------------------------------------- exclusive or

  /** Exclusive or of the low `width` bits. */
  function XorBits(width: nat, a: nat, b: nat): nat
  {
    if width == 0 then 0 else 2 * XorBits(width - 1, a / 2, b / 2) + (a % 2 + b % 2) % 2
  }

  function Pow2(width: nat): (p: nat)
    ensures p > 0
  {
    if width == 0 then 1 else 2 * Pow2(width - 1)
  }

  lemma Halves(x: nat, q: nat, r: nat)
    requires x == 2 * q + r && r < 2
    ensures x / 2 == q && x % 2 == r
  {
  }

  lemma Bit(a: nat, b: nat)
    ensures var r := (a % 2 + b % 2) % 2; r < 2 && (r + b % 2) % 2 == a % 2
  {
  }

  lemma {:induction false} XorTwice(width: nat, a: nat, b: nat)
    requires a < Pow2(width)
    ensures XorBits(width, a, b) < Pow2(width)
    ensures XorBits(width, XorBits(width, a, b), b) == a
  {
    if width > 0 {
      Halves(a, a / 2, a % 2);
      XorTwice(width - 1, a / 2, b / 2);
      var q, r := XorBits(width - 1, a / 2, b / 2), (a % 2 + b % 2) % 2;
      Bit(a, b);
      Halves(2 * q + r, q, r);
    }
  }

  lemma XorByte(a: Byte, b: Byte)
    ensures XorBits(8, a, b) < 0x100 && XorBits(8, XorBits(8, a, b), b) == a
  {
    assert Pow2(4) == 16 && Pow2(8) == 0x100;
    XorTwice(8, a, b);
  }

  function Xor(a: Byte, b: Byte): Byte
  {
    XorByte(a, b);
    XorBits(8, a, b)
  }

  // ---------------------------------------------------------------- specification

  /** Counter mode: the first block has counter 1. */
  function Stream(suite: Suite, key: seq<Byte>, i: nat): Byte
  {
    suite.block(key, 1 + i / 16)[i % 16]
  }

  function Ctr(suite: Suite, key: seq<Byte>, data: seq<Byte>): (r: seq<Byte>)
    ensures |r| == |data|
  {
    seq(|data|, i requires 0 <= i < |data| => Xor(data[i], Stream(suite, key, i)))
  }

  /** Salt, verifier, ciphertext and the first ten bytes of the code, one after the other. */
  function Seal(suite: Suite, password: seq<Byte>, salt: Block, data: seq<Byte>): (r: seq<Byte>)
    ensures |r| == |data| + AE2_OVERHEAD
  {
    var keys := suite.derive(password, salt);
    var cipher := Ctr(suite, keys[..32], data);
    salt + keys[64..] + cipher + suite.mac(keys[32..64], cipher)[..MAC_LEN]
  }

  /** Section III of the WinZip AES specification, from the reader's side: check the password
      verifier, check the code over the ciphertext, decrypt. */
  function Open(suite: Suite, password: seq<Byte>, sealed: seq<Byte>): Option<seq<Byte>>
  {
    var _ :- Check(|sealed| >= 28);
    var n := |sealed| - 28;
    var salt, verifier, cipher, code := sealed[..16], sealed[16..18], sealed[18..18 + n], sealed[18 + n..];
    var keys := suite.derive(password, salt);
    var _ :- Check(verifier == keys[64..66]);
    var _ :- Check(code == suite.mac(keys[32..64], cipher)[..10]);
    Some(Ctr(suite, keys[..32], cipher))
  }

  lemma CtrTwice(suite: Suite, key: seq<Byte>, data: seq<Byte>)
    ensures Ctr(suite, key, Ctr(suite, key, data)) == data
  {
    hide Xor, Stream;
    var once := Ctr(suite, key, data);
    forall i | 0 <= i < |data|
      ensures Ctr(suite, key, once)[i] == data[i]
    {
      XorIsItsInverse(data[i], Stream(suite, key, i));
    }
  }

  lemma XorIsItsInverse(a: Byte, b: Byte)
    ensures Xor(Xor(a, b), b) == a
  {
    XorByte(a, b);
  }

  lemma SealParts(suite: Suite, password: seq<Byte>, salt: Block, data: seq<Byte>)
    ensures var keys := suite.derive(password, salt);
            var s, cipher := Seal(suite, password, salt, data), Ctr(suite, keys[..32], data);
            && s[..16] == salt && s[16..18] == keys[64..66] && s[18..18 + |data|] == cipher
            && s[18 + |data|..] == suite.mac(keys[32..64], cipher)[..10]
  {
    hide Ctr;
  }

  /** An envelope opens to some data, if and only if it is the envelope of that data under its
      own salt. So decryption recovers what was sealed, and nothing else is accepted. */
  lemma OpensIffSealed(suite: Suite, password: seq<Byte>, sealed: seq<Byte>, data: seq<Byte>)
    ensures Open(suite, password, sealed) == Some(data)
            <==> |sealed| >= 16 && sealed == Seal(suite, password, sealed[..16], data)
  {
    hide Open, Seal;
    if |sealed| >= 16 && sealed == Seal(suite, password, sealed[..16], data) {
      SealOpens(suite, password, sealed[..16], data);
    }
    if Open(suite, password, sealed) == Some(data) {
      OpenIsSealed(suite, password, sealed, data);
    }
  }

  lemma SealOpens(suite: Suite, password: seq<Byte>, salt: Block, data: seq<Byte>)
    ensures Open(suite, password, Seal(suite, password, salt, data)) == Some(data)
  {
    SealParts(suite, password, salt, data);
    hide Ctr, Seal;
    CtrTwice(suite, suite.derive(password, salt)[..32], data);
  }

  lemma OpenIsSealed(suite: Suite, password: seq<Byte>, sealed: seq<Byte>, data: seq<Byte>)
    requires Open(suite, password, sealed) == Some(data)
    ensures |sealed| >= 16 && sealed == Seal(suite, password, sealed[..16], data)
  {
    hide Ctr;
    var n := |sealed| - 28;
    var keys := suite.derive(password, sealed[..16]);
    CtrTwice(suite, keys[..32], sealed[18..18 + n]);
    assert sealed == sealed[..16] + sealed[16..18] + sealed[18..18 + n] + sealed[18 + n..];
  }

  /** Bit `k` of the exclusive or is set if and only if the two bits differ. */
  lemma {:induction false} XorBit(width: nat, a: nat, b: nat, k: nat)
    requires k < width
    ensures XorBits(width, a, b) / Pow2(k) % 2 == 1 <==> a / Pow2(k) % 2 != b / Pow2(k) % 2
    decreases width
  {
    var q, r := XorBits(width - 1, a / 2, b / 2), (a % 2 + b % 2) % 2;
    Halves(2 * q + r, q, r);
    assert XorBits(width, a, b) == 2 * q + r;
    hide XorBits;
    if k > 0 {
      var m := Pow2(k - 1);
      assert Pow2(k) == 2 * m;
      XorBit(width - 1, a / 2, b / 2, k - 1);
      hide Pow2;
      HalfFirst(2 * q + r, m);
      HalfFirst(a, m);
      HalfFirst(b, m);
    }
  }

  lemma HalfFirst(n: nat, m: nat)
    requires m > 0
    ensures n / (2 * m) == (n / 2) / m
  {
    var k := (n / 2) / m;
    assert n / 2 == k * m + (n / 2) % m;
    Quotient(n, 2 * m, k);
  }

  /** Bit `k` of a byte, the lowest first. */
  predicate HasBit(x: Byte, k: nat)
    requires k < 8
  {
    x / [1, 2, 4, 8, 16, 32, 64, 128][k] % 2 == 1
  }

  lemma BitOf(x: Byte, k: nat)
    requires k < 8
    ensures HasBit(x, k) <==> x / Pow2(k) % 2 == 1
  {
    assert Pow2(3) == 8 && Pow2(6) == 64;
    assert Pow2(k) == [1, 2, 4, 8, 16, 32, 64, 128][k];
  }

  lemma CtrBit(suite: Suite, key: seq<Byte>, data: seq<Byte>, i: nat, k: nat)
    requires i < |data| && k < 8
    ensures HasBit(Ctr(suite, key, data)[i], k)
            <==> HasBit(data[i], k) != HasBit(suite.block(key, 1 + i / 16)[i % 16], k)
  {
    hide XorBits, Pow2, HasBit;
    var a, b := data[i], Stream(suite, key, i);
    XorBit(8, a, b, k);
    BitOf(a, k);
    BitOf(b, k);
    BitOf(Xor(a, b), k);
  }

  /** The envelope, bit by bit: after the salt and the verifier comes the data, with each bit
      flipped that is set in the cipher's blocks number 1, 2, 3, ... under the first key, and then
      ten bytes of the code of that ciphertext under the second key. */
  lemma SealBits(suite: Suite, password: seq<Byte>, salt: Block, data: seq<Byte>)
    ensures var keys := suite.derive(password, salt);
            var s, n := Seal(suite, password, salt, data), |data|;
            && |s| == n + 28 && s[..16] == salt && s[16..18] == keys[64..66]
            && s[18 + n..] == suite.mac(keys[32..64], s[18..18 + n])[..10]
            && forall i, k :: 0 <= i < n && 0 <= k < 8 ==>
                 var mask := suite.block(keys[..32], 1 + i / 16)[i % 16];
                 (HasBit(s[18 + i], k) <==> HasBit(data[i], k) != HasBit(mask, k))
  {
    SealParts(suite, password, salt, data);
    hide Seal, Ctr, XorBits, Pow2, HasBit;
    var key := suite.derive(password, salt)[..32];
    var s := Seal(suite, password, salt, data);
    forall i, k | 0 <= i < |data| && 0 <= k < 8
      ensures HasBit(s[18 + i], k) <==> HasBit(data[i], k) != HasBit(suite.block(key, 1 + i / 16)[i % 16], k)
    {
      assert s[18..18 + |data|][i] == s[18 + i];
      CtrBit(suite, key, data, i, k);
    }
  }

  // ---------------------------------------------------------------- in place

  method ApplyKeystream(suite: Suite, key: seq<Byte>, buf: array<Byte>, start: nat, end: nat)
    requires start <= end <= buf.Length
    modifies buf
    ensures buf[..start] == old(buf[..start]) && buf[end..] == old(buf[end..])
    ensures buf[start..end] == Ctr(suite, key, old(buf[start..end]))
  {
    hide Xor, Stream;
    for i := start to end
      invariant forall k :: 0 <= k < start || i <= k < buf.Length ==> buf[k] == old(buf[k])
      invariant forall k :: start <= k < i ==> buf[k] == Xor(old(buf[k]), Stream(suite, key, k - start))
    {
      buf[i] := Xor(buf[i], Stream(suite, key, i - start));
    }
    assert old(buf[start..end]) == old(buf[..])[start..end];
  }

  /** Copies `data` into the buffer at `start`. */
  method CopyFromSlice(buf: array<Byte>, start: nat, data: seq<Byte>)
    requires start + |data| <= buf.Length
    modifies buf
    ensures buf[..] == old(buf[..start]) + data + old(buf[start + |data|..])
  {
    forall k | 0 <= k < |data| {
      buf[start + k] := data[k];
    }
  }

  /** Seals the data that stands at offset 18 of the buffer, which must have exactly 18 bytes
      in front and 10 behind it; any other buffer is refused and left as it was. */
  method EncryptInPlaceWithSalt(suite: Suite, password: seq<Byte>, salt: Block, buf: array<Byte>, plaintextLen: nat)
    returns (ok: bool)
    modifies buf
    ensures ok == (buf.Length == PREFIX + plaintextLen + MAC_LEN)
    ensures ok ==> buf[..] == Seal(suite, password, salt, old(buf[..])[PREFIX..PREFIX + plaintextLen])
    ensures !ok ==> buf[..] == old(buf[..])
  {
    hide Ctr;
    if buf.Length != PREFIX + plaintextLen + MAC_LEN {
      return false;
    }
    ghost var was := buf[..];
    ghost var data := was[PREFIX..PREFIX + plaintextLen];
    var derived := suite.derive(password, salt);
    var encKey, macKey, verify := derived[..KEY_LEN], derived[KEY_LEN..KEY_LEN + MAC_KEY_LEN],
        derived[KEY_LEN + MAC_KEY_LEN..];

    CopyFromSlice(buf, 0, salt);
    assert buf[..] == salt + was[SALT_LEN..];
    assert was[SALT_LEN..][VERIFY_LEN..] == was[PREFIX..];
    CopyFromSlice(buf, SALT_LEN, verify);
    assert buf[..] == (salt + verify) + was[PREFIX..];
    var ptEnd := PREFIX + plaintextLen;
    assert buf[..PREFIX] == salt + verify;
    assert buf[PREFIX..ptEnd] == data;
    ApplyKeystream(suite, encKey, buf, PREFIX, ptEnd);
    var cipher := buf[PREFIX..ptEnd];
    var tag := suite.mac(macKey, cipher);
    assert buf[..ptEnd] == salt + verify + cipher;
    CopyFromSlice(buf, ptEnd, tag[..MAC_LEN]);
    assert buf[..] == salt + verify + cipher + tag[..MAC_LEN];
    ok := true;
  }

  /** Grows the compressed data by the overhead, shifts it right over itself by 18 bytes and
      seals it. An empty password is refused. */
  method Envelope(suite: Suite, password: seq<Byte>, salt: Block, data: seq<Byte>) returns (body: Option<seq<Byte>>)
    ensures body == if password == [] then None else Some(Seal(suite, password, salt, data))
  {
    if password == [] {
      return None;
    }
    var buf := new Byte[|data| + AE2_OVERHEAD](i => 0);
    CopyFromSlice(buf, 0, data);
    CopyWithin(buf, |data|, PREFIX);
    assert buf[..][PREFIX..PREFIX + |data|] == data;
    var ok := EncryptInPlaceWithSalt(suite, password, salt, buf, |data|);
    body := Some(buf[..]);
  }

  /** Moves the first `len` bytes to `dest`; the ranges may overlap. */
  method CopyWithin(buf: array<Byte>, len: nat, dest: nat)
    requires dest + len <= buf.Length
    modifies buf
    ensures buf[..] == old(buf[..dest]) + old(buf[..len]) + old(buf[dest + len..])
  {
    forall k | 0 <= k < len {
      buf[dest + k] := buf[k];
    }
  }
}
