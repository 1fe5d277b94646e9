/**
  dump and load: the persisted snapshot {salt, signature, store}, its JSON text
  and the SHA-256 checksum of that text. The signature is the encryption of a
  fixed known string under the AUTH subkey; a password that re-derives the
  AUTH subkey proves itself by decrypting it. The checksum, kept by the caller
  somewhere trusted, detects a stale (rolled-back) snapshot.
*/
module Persistence {
  import opened Wrappers
  import opened Primitives
  import opened Keychain

  /** The known plaintext of the signature. */
  const AUTH_SIGNATURE: string := "AUTH_SIGNATURE"

  datatype Snapshot = Snapshot(salt: Bits, signature: Bits, store: Store)

  /** JSON.stringify and JSON.parse restricted to snapshots. */
  datatype Json = Json(stringify: Snapshot -> string, parse: string -> Snapshot)

  /** Parsing the text of a snapshot gives the snapshot back. */
  ghost predicate JsonSound(j: Json) {
    forall s :: j.parse(j.stringify(s)) == s
  }

  /** dump's result: arr[0] the JSON text, arr[1] its checksum. */
  datatype Dumped = Dumped(repr: string, checksum: Bits)

  /** dump(), with `nonce` the one the cipher draws for the signature. */
  function Dump(c: Crypto, j: Json, s: State, nonce: Bits): (r: Option<Dumped>)
    ensures r.None? <==> s.NotReady?
    ensures r.Some? ==> r.value.checksum == c.sha256(r.value.repr)
    ensures r.Some? && JsonSound(j) ==>
      var snap := j.parse(r.value.repr);
      && snap.salt == s.salt && snap.store == s.store
      && (GcmRoundTrip(c) ==> c.decGcm(s.keys.auth, snap.signature) == Some(c.encode(AUTH_SIGNATURE)))
  {
    match s
    case NotReady => None
    case Ready(salt, keys, store) =>
      var repr := j.stringify(Snapshot(salt, c.encGcm(keys.auth, nonce, c.encode(AUTH_SIGNATURE)), store));
      Some(Dumped(repr, c.sha256(repr)))
  }

  /** The snapshot's signature decrypts to the known string under `keys`. */
  predicate SignatureValid(c: Crypto, keys: Keys, snap: Snapshot) {
    c.decGcm(keys.auth, snap.signature) == Some(c.encode(AUTH_SIGNATURE))
  }

  /** load(password, repr, trusted_data_check). Whatever state the keychain was in
      is replaced: on success by the snapshot's contents under the password's
      subkeys, on any failure by NotReady. A wrong password or a forged signature
      returns false; a checksum mismatch on a correctly signed snapshot throws. */
  function Load(c: Crypto, j: Json, password: string, repr: string, trusted: Option<Bits>): (r: Step<bool>)
    ensures r.next.Ready? <==> r.out == Success(true)
    ensures r.out.Failure? ==> r.out.error == RollbackDetected
    ensures r.out == Success(true) ==>
      && Unlocks(c, password, r.next)
      && r.next.salt == j.parse(repr).salt && r.next.store == j.parse(repr).store
      && (trusted.Some? ==> trusted.value == c.sha256(repr))
    ensures r.out == Success(false) <==> !SignatureValid(c, DeriveKeys(c, password, j.parse(repr).salt), j.parse(repr))
    ensures r.out == Failure(RollbackDetected) ==> trusted.Some? && trusted.value != c.sha256(repr)
  {
    var snap := j.parse(repr);
    var keys := DeriveKeys(c, password, snap.salt);
    if !SignatureValid(c, keys, snap) then Step(NotReady, Success(false))
    else if trusted.Some? && trusted.value != c.sha256(repr) then Step(NotReady, Failure(RollbackDetected))
    else Step(Ready(snap.salt, keys, snap.store), Success(true))
  }

  /** Loading a dump with the right password and its checksum restores exactly the
      dumped keychain, so every get agrees with the original. */
  lemma DumpLoadRoundTrip(c: Crypto, j: Json, password: string, s: State, nonce: Bits)
    requires Sound(c) && JsonSound(j) && Unlocks(c, password, s)
    ensures var d := Dump(c, j, s, nonce);
      && d.Some?
      && Load(c, j, password, d.value.repr, Some(d.value.checksum)) == Step(s, Success(true))
      && Load(c, j, password, d.value.repr, None) == Step(s, Success(true))
  {
    var d := Dump(c, j, s, nonce).value;
    var snap := j.parse(d.repr);
    assert SignatureValid(c, DeriveKeys(c, password, snap.salt), snap);
  }
}
