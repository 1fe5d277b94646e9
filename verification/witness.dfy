/**
  One concrete library that meets every property `Sound` asks for, so the
  assumptions the keychain lemmas rest on are consistent. The constructions are
  deliberately simple (they are not secure); only their algebraic properties
  matter: a self-delimiting key tag in front of each ciphertext, a fixed-layout
  padding, and an injective fixed-width encoding of strings.
*/
module Witness {
  import opened Wrappers
  import opened Primitives

  /** 2 to the power n. */
  function Pow2(n: nat): (r: nat)
    ensures r >= 1
  {
    if n == 0 then 1 else 2 * Pow2(n - 1)
  }

  lemma {:induction false} Pow2Add(a: nat, b: nat)
    ensures Pow2(a + b) == Pow2(a) * Pow2(b)
  {
    if a > 0 {
      Pow2Add(a - 1, b);
    }
  }

  /** The w low bits of x, least significant first. */
  function NatBits(x: nat, w: nat): (r: Bits)
    ensures |r| == w
  {
    if w == 0 then [] else [x % 2 == 1] + NatBits(x / 2, w - 1)
  }

  /** The number a bit array denotes, least significant bit first. */
  function BitsNat(b: Bits): (r: nat)
    ensures r < Pow2(|b|)
  {
    if b == [] then 0 else (if b[0] then 1 else 0) + 2 * BitsNat(b[1..])
  }

  lemma {:induction false} BitsNatOfNatBits(x: nat, w: nat)
    requires x < Pow2(w)
    ensures BitsNat(NatBits(x, w)) == x
  {
    if w > 0 {
      BitsNatOfNatBits(x / 2, w - 1);
      assert NatBits(x, w)[1..] == NatBits(x / 2, w - 1);
    }
  }

  function Zeros(n: nat): (r: Bits)
    ensures |r| == n
  {
    seq(n, _ => false)
  }

  const CHAR_BITS: nat := 21

  /** Each character as 21 bits, enough for every Unicode scalar value. */
  function StrBits(s: string): (r: Bits)
    ensures |r| == CHAR_BITS * |s|
  {
    if s == [] then [] else NatBits(s[0] as int, CHAR_BITS) + StrBits(s[1..])
  }

  lemma {:induction false} StrBitsInjective(s: string, t: string)
    requires StrBits(s) == StrBits(t)
    ensures s == t
  {
    if s != [] {
      assert t != [];
      var bs := StrBits(s);
      assert bs[..CHAR_BITS] == NatBits(s[0] as int, CHAR_BITS);
      assert bs[..CHAR_BITS] == NatBits(t[0] as int, CHAR_BITS);
      assert Pow2(7) == 128;
      Pow2Add(7, 7);
      Pow2Add(14, 7);
      BitsNatOfNatBits(s[0] as int, CHAR_BITS);
      BitsNatOfNatBits(t[0] as int, CHAR_BITS);
      assert bs[CHAR_BITS..] == StrBits(s[1..]) == StrBits(t[1..]);
      StrBitsInjective(s[1..], t[1..]);
      assert s == [s[0]] + s[1..];
      assert t == [t[0]] + t[1..];
    }
  }

  /** Each bit of the key doubled, then the pair (true, false): no tag is a proper
      prefix of another, and no two keys share one. */
  function Tag(k: Bits): (r: Bits)
    ensures |r| == 2 * |k| + 2
  {
    seq(2 * |k| + 2, i requires 0 <= i < 2 * |k| + 2 => if i < 2 * |k| then k[i / 2] else i == 2 * |k|)
  }

  function Seal(k: Bits, nonce: Bits, p: Bits): (ct: Bits) {
    Tag(k) + p
  }

  function Open(k: Bits, ct: Bits): (r: Option<Bits>) {
    var t := Tag(k);
    if |t| <= |ct| && ct[..|t|] == t then Some(ct[|t|..]) else None
  }

  /** Where a tag is a prefix of a sealed text, it is the tag of the sealing key.
      The first pair of positions at which either key has run out is the
      terminator pair (true, false) in both, so the keys have equal length, and
      every doubled bit before it agrees. */
  lemma TagDeterminesKey(k: Bits, k': Bits, p: Bits)
    requires |Tag(k')| <= |Tag(k) + p| && (Tag(k) + p)[..|Tag(k')|] == Tag(k')
    ensures k == k'
  {
    var x := Tag(k) + p;
    var t' := Tag(k');
    var n := if |k| <= |k'| then |k| else |k'|;
    assert x[2 * n] == t'[2 * n] && x[2 * n + 1] == t'[2 * n + 1];
    assert (x[2 * n] != x[2 * n + 1]) == (n == |k|);
    assert (t'[2 * n] != t'[2 * n + 1]) == (n == |k'|);
    assert |k| == |k'|;
    forall i | 0 <= i < |k| ensures k[i] == k'[i] {
      assert x[2 * i] == t'[2 * i];
    }
  }

  lemma TagBindsKey(k: Bits, k': Bits, p: Bits)
    ensures Open(k', Seal(k, [], p)).Some? ==> k == k'
  {
    if Open(k', Seal(k, [], p)).Some? {
      TagDeterminesKey(k, k', p);
    }
  }

  /** The bytes of a value, eight bits each. */
  function ByteBits(v: string): (r: Bits)
    ensures |r| == 8 * |v|
  {
    if v == [] then [] else NatBits(v[0] as int, 8) + ByteBits(v[1..])
  }

  const LENGTH_BITS: nat := 7

  /** The length in 7 bits, the bytes, then zeros up to PADDED_BITS. */
  function Pad(v: string, bytes: nat): (r: Option<Bits>) {
    var body := NatBits(|v|, LENGTH_BITS) + ByteBits(v);
    if |body| <= PADDED_BITS then Some(body + Zeros(PADDED_BITS - |body|)) else None
  }

  /** The first n bytes of b as characters. */
  function DecodeBytes(b: Bits, n: nat): (v: string)
    decreases n
  {
    if n == 0 || |b| < 8 then []
    else
      var x := BitsNat(b[..8]);
      assert Pow2(8) == 256;
      [x as char] + DecodeBytes(b[8..], n - 1)
  }

  lemma {:induction false} DecodeByteBits(v: string, rest: Bits)
    requires forall i :: 0 <= i < |v| ==> v[i] as int < 256
    ensures DecodeBytes(ByteBits(v) + rest, |v|) == v
  {
    if v != [] {
      var b := ByteBits(v) + rest;
      assert b[..8] == NatBits(v[0] as int, 8);
      assert Pow2(8) == 256;
      BitsNatOfNatBits(v[0] as int, 8);
      assert b[8..] == ByteBits(v[1..]) + rest;
      DecodeByteBits(v[1..], rest);
      assert v == [v[0]] + v[1..];
    }
  }

  function Unpad(b: Bits): (v: string) {
    if |b| < LENGTH_BITS then [] else DecodeBytes(b[LENGTH_BITS..], BitsNat(b[..LENGTH_BITS]))
  }

  lemma PadRoundTripHolds(v: string)
    requires Fits(v)
    ensures Pad(v, PADDED_BYTES).Some?
    ensures |Pad(v, PADDED_BYTES).value| == PADDED_BITS && Unpad(Pad(v, PADDED_BYTES).value) == v
  {
    var b := Pad(v, PADDED_BYTES).value;
    var z := Zeros(PADDED_BITS - LENGTH_BITS - 8 * |v|);
    assert b == NatBits(|v|, LENGTH_BITS) + (ByteBits(v) + z);
    assert b[..LENGTH_BITS] == NatBits(|v|, LENGTH_BITS);
    assert Pow2(LENGTH_BITS) == 128;
    BitsNatOfNatBits(|v|, LENGTH_BITS);
    assert b[LENGTH_BITS..] == ByteBits(v) + z;
    DecodeByteBits(v, z);
  }

  /** The concrete library. */
  function Library(): (c: Crypto) {
    Crypto(
      (password, salt) => salt,
      (key, message) => Zeros(MAC_KEY_LENGTH) + StrBits(message),
      text => StrBits(text),
      (key, nonce, p) => Seal(key, nonce, p),
      (key, ct) => Open(key, ct),
      (value: string, bytes: nat) => Pad(value, bytes),
      b => Unpad(b),
      text => StrBits(text))
  }

  /** The concrete library satisfies every assumption of the keychain lemmas. */
  lemma LibraryIsSound()
    ensures Sound(Library())
  {
    var c := Library();
    forall k, n, p ensures c.decGcm(k, c.encGcm(k, n, p)) == Some(p) {
      assert (Tag(k) + p)[..|Tag(k)|] == Tag(k);
    }
    forall k, k', n, p | k != k' ensures c.decGcm(k', c.encGcm(k, n, p)) == None {
      TagBindsKey(k, k', p);
    }
    forall k, a, b | a != b ensures c.hmac(k, a) != c.hmac(k, b) {
      if c.hmac(k, a) == c.hmac(k, b) {
        assert c.hmac(k, a)[MAC_KEY_LENGTH..] == StrBits(a);
        assert c.hmac(k, b)[MAC_KEY_LENGTH..] == StrBits(b);
        StrBitsInjective(a, b);
      }
    }
    forall v | Fits(v)
      ensures c.pad(v, PADDED_BYTES).Some?
      ensures |c.pad(v, PADDED_BYTES).value| == PADDED_BITS && c.unpad(c.pad(v, PADDED_BYTES).value) == v
    {
      PadRoundTripHolds(v);
    }
    forall s, t | s != t ensures c.sha256(s) != c.sha256(t) {
      if StrBits(s) == StrBits(t) {
        StrBitsInjective(s, t);
      }
    }
  }
}
