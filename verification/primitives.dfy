/**
  The cryptographic library the keychain is built on (`./lib/lib`), whose code
  is not part of this model. Every primitive is an uninterpreted function, a
  field of the `Crypto` record that the keychain operations take as a
  parameter; the few properties the keychain relies on are stated once, as the
  predicate `Sound`, and lemmas assume them explicitly.
*/
module Primitives {
  import opened Wrappers

  /** A bit array, the library's representation of keys, tags and ciphertexts. */
  type Bits = seq<bool>

  /** Maximum length of a stored value, in bytes. */
  const MAX_PW_LEN_BYTES: nat := 64
  /** Every value is padded to one byte more than the maximum. */
  const PADDED_BYTES: nat := MAX_PW_LEN_BYTES + 1
  const PADDED_BITS: nat := 8 * PADDED_BYTES
  /** Length of the salt and of the AUTH and GCM subkeys, in bits. */
  const AES_KEY_LENGTH: nat := 128
  /** Length of the HMAC subkey, in bits. */
  const MAC_KEY_LENGTH: nat := 256

  /** The library operations the keychain calls. */
  datatype Crypto = Crypto(
    /** KDF(password, salt): the slow password-hardening derivation. */
    kdf: (string, Bits) -> Bits,
    /** HMAC(key, message). */
    hmac: (Bits, string) -> Bits,
    /** SHA256(text). */
    sha256: string -> Bits,
    /** enc_gcm(setup_cipher(key), plaintext), with the nonce the library draws made explicit. */
    encGcm: (Bits, Bits, Bits) -> Bits,
    /** dec_gcm(setup_cipher(key), ciphertext); `None` where the library throws. */
    decGcm: (Bits, Bits) -> Option<Bits>,
    /** string_to_padded_bitarray(value, length in bytes); `None` where the library
        throws, which it may do for a value the length cannot hold. */
    pad: (string, nat) -> Option<Bits>,
    /** string_from_padded_bitarray. */
    unpad: Bits -> string,
    /** string_to_bitarray. */
    encode: string -> Bits
  )

  /** A value the padding can hold: at most MAX_PW_LEN_BYTES characters, each an
      ASCII character, so that each is one byte in any encoding the library uses. */
  predicate Fits(value: string) {
    |value| <= MAX_PW_LEN_BYTES && forall i :: 0 <= i < |value| ==> value[i] as int < 128
  }

  /** bitarray_slice(b, 0, n): the first n bits of b, or all of b when it is shorter. */
  function Prefix(b: Bits, n: nat): (r: Bits)
    ensures |r| == if n <= |b| then n else |b|
    ensures r <= b
  {
    if n <= |b| then b[..n] else b
  }

  /** Decryption under the encrypting key returns the plaintext, whatever the nonce. */
  ghost predicate GcmRoundTrip(c: Crypto) {
    forall k, n, p :: c.decGcm(k, c.encGcm(k, n, p)) == Some(p)
  }

  /** Decryption under any other key fails authentication. */
  ghost predicate GcmKeyBinding(c: Crypto) {
    forall k, k', n, p :: k != k' ==> c.decGcm(k', c.encGcm(k, n, p)) == None
  }

  /** Under one key, distinct messages have distinct tags (collision resistance, idealised). */
  ghost predicate HmacInjective(c: Crypto) {
    forall k, a, b :: a != b ==> c.hmac(k, a) != c.hmac(k, b)
  }

  /** A tag is at least as long as the HMAC subkey taken from it. */
  ghost predicate HmacWide(c: Crypto) {
    forall k, m :: |c.hmac(k, m)| >= MAC_KEY_LENGTH
  }

  /** A value that fits pads, to exactly PADDED_BYTES bytes, and unpads back to itself. */
  ghost predicate PadRoundTrip(c: Crypto) {
    forall v :: Fits(v) ==>
      && c.pad(v, PADDED_BYTES).Some?
      && |c.pad(v, PADDED_BYTES).value| == PADDED_BITS
      && c.unpad(c.pad(v, PADDED_BYTES).value) == v
  }

  /** Distinct texts have distinct checksums (collision resistance, idealised). */
  ghost predicate ShaInjective(c: Crypto) {
    forall s, t :: s != t ==> c.sha256(s) != c.sha256(t)
  }

  /** Everything the keychain assumes of its library. */
  ghost predicate Sound(c: Crypto) {
    && GcmRoundTrip(c)
    && GcmKeyBinding(c)
    && HmacInjective(c)
    && HmacWide(c)
    && PadRoundTrip(c)
    && ShaInjective(c)
  }
}
