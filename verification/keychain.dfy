/**
  The keychain state machine: a NotReady/Ready lifecycle, three subkeys derived
  from the master password, and a store mapping domain pseudonyms to record
  ciphertexts. Each operation is a pure function from the current state to the
  next state and the operation's outcome; an operation that throws in the
  source returns `Failure` and leaves the state as it was.
*/
module Keychain {
  import opened Wrappers
  import opened Primitives

  /** The fixed labels from which the three subkeys are derived. */
  const HMAC_LABEL: string := "bT2XHI7poJiBI0RqHIKN"
  const AUTH_LABEL: string := "icqjutMI3k80pmyhDjgy"
  const GCM_LABEL: string := "Xjfx8KSD3vbIYP4Nm9PK"

  /** HMAC pseudonymises names, AUTH signs snapshots, GCM encrypts records. */
  datatype Keys = Keys(hmac: Bits, auth: Bits, gcm: Bits)

  /** A store maps a pseudonym HMAC(K_HMAC, name) to the record ciphertext. */
  type Store = map<Bits, Bits>

  datatype State = NotReady | Ready(salt: Bits, keys: Keys, store: Store)

  /** The exceptions the keychain raises. */
  datatype Error =
    | NotReadyError
    | DecryptionFailure
    | SwapAttackDetected
    | RollbackDetected
    | PaddingFailure
    | TypeError

  /** The state after an operation, and what the operation returned or threw. */
  datatype Step<+T> = Step(next: State, out: Result<T, Error>)

  /** The subkeys a password and salt give: HMAC over each label, truncated. */
  function DeriveKeys(c: Crypto, password: string, salt: Bits): (k: Keys)
    ensures Sound(c) ==>
      |k.hmac| == MAC_KEY_LENGTH && |k.auth| == AES_KEY_LENGTH && |k.gcm| == AES_KEY_LENGTH
  {
    var masterKey := c.kdf(password, salt);
    Keys(Prefix(c.hmac(masterKey, HMAC_LABEL), MAC_KEY_LENGTH),
         Prefix(c.hmac(masterKey, AUTH_LABEL), AES_KEY_LENGTH),
         Prefix(c.hmac(masterKey, GCM_LABEL), AES_KEY_LENGTH))
  }

  /** Each subkey is taken from HMAC of the master key over its own label; the
      three labels are distinct, so under an injective HMAC the three untruncated
      derivations are pairwise distinct. */
  lemma SubkeyDerivationsSeparated(c: Crypto, password: string, salt: Bits)
    requires HmacInjective(c)
    ensures var mk := c.kdf(password, salt);
      var k := DeriveKeys(c, password, salt);
      && k.hmac <= c.hmac(mk, HMAC_LABEL)
      && k.auth <= c.hmac(mk, AUTH_LABEL)
      && k.gcm <= c.hmac(mk, GCM_LABEL)
      && c.hmac(mk, HMAC_LABEL) != c.hmac(mk, AUTH_LABEL)
      && c.hmac(mk, HMAC_LABEL) != c.hmac(mk, GCM_LABEL)
      && c.hmac(mk, AUTH_LABEL) != c.hmac(mk, GCM_LABEL)
  {
    assert HMAC_LABEL[0] != AUTH_LABEL[0] && HMAC_LABEL[0] != GCM_LABEL[0] && AUTH_LABEL[0] != GCM_LABEL[0];
  }

  /** The state is Ready and its subkeys are those the password gives for its salt. */
  ghost predicate Unlocks(c: Crypto, password: string, s: State) {
    s.Ready? && s.keys == DeriveKeys(c, password, s.salt)
  }

  /** init(password), with `salt` the 128 random bits the source draws. Never fails;
      the store it starts is empty. */
  function Init(c: Crypto, password: string, salt: Bits): (s: State)
    requires |salt| == AES_KEY_LENGTH
    ensures s.Ready? && s.salt == salt && s.store == map[]
    ensures Unlocks(c, password, s)
  {
    Ready(salt, DeriveKeys(c, password, salt), map[])
  }

  /** The slot a name occupies in the store. */
  function Pseudonym(c: Crypto, keys: Keys, name: string): (p: Bits) {
    c.hmac(keys.hmac, name)
  }

  /** What set encrypts: the padded value followed by the name's pseudonym. */
  function SignedPlaintext(c: Crypto, keys: Keys, name: string, padded: Bits): (pt: Bits) {
    padded + Pseudonym(c, keys, name)
  }

  /** The plaintext's length depends on the name's pseudonym but never on the value. */
  lemma SignedPlaintextHidesLength(c: Crypto, keys: Keys, name: string, v: string, w: string)
    requires PadRoundTrip(c) && Fits(v) && Fits(w)
    ensures c.pad(v, PADDED_BYTES).Some? && c.pad(w, PADDED_BYTES).Some?
    ensures |SignedPlaintext(c, keys, name, c.pad(v, PADDED_BYTES).value)|
         == |SignedPlaintext(c, keys, name, c.pad(w, PADDED_BYTES).value)|
    ensures |SignedPlaintext(c, keys, name, c.pad(v, PADDED_BYTES).value)|
         == PADDED_BITS + |Pseudonym(c, keys, name)|
  {
  }

  /** set(name, value), with `nonce` the one the cipher draws. A value the
      padding rejects makes set throw before anything is stored. */
  function Set(c: Crypto, s: State, name: string, value: string, nonce: Bits): (r: Step<()>)
    ensures s.NotReady? ==> r == Step(s, Failure(NotReadyError))
    ensures s.Ready? && c.pad(value, PADDED_BYTES).None? ==> r == Step(s, Failure(PaddingFailure))
    ensures s.Ready? && c.pad(value, PADDED_BYTES).Some? ==>
      var p := Pseudonym(c, s.keys, name);
      && r.out.Success?
      && r.next.Ready? && r.next.salt == s.salt && r.next.keys == s.keys
      && r.next.store.Keys == s.store.Keys + {p}
      && (forall q :: q in s.store && q != p ==> r.next.store[q] == s.store[q])
      && (GcmRoundTrip(c) ==>
            c.decGcm(s.keys.gcm, r.next.store[p])
              == Some(SignedPlaintext(c, s.keys, name, c.pad(value, PADDED_BYTES).value)))
    ensures s.Ready? && PadRoundTrip(c) && Fits(value) ==> r.out.Success?
  {
    match s
    case NotReady => Step(s, Failure(NotReadyError))
    case Ready(salt, keys, store) =>
      match c.pad(value, PADDED_BYTES)
      case None => Step(s, Failure(PaddingFailure))
      case Some(padded) =>
        var record := c.encGcm(keys.gcm, nonce, SignedPlaintext(c, keys, name, padded));
        Step(Ready(salt, keys, store[Pseudonym(c, keys, name) := record]), Success(()))
  }

  /** Decrypts the record found in slot `p`: fails on a ciphertext the key does not
      authenticate, and on a plaintext whose embedded pseudonym is not `p`. */
  function OpenRecord(c: Crypto, keys: Keys, p: Bits, record: Bits): (r: Result<string, Error>)
    ensures r == Failure(DecryptionFailure) <==> c.decGcm(keys.gcm, record).None?
    ensures var d := c.decGcm(keys.gcm, record);
      r.Success? <==> d.Some? && |d.value| >= PADDED_BITS && d.value[PADDED_BITS..] == p
    ensures var d := c.decGcm(keys.gcm, record);
      r.Success? ==> r.value == c.unpad(d.value[..PADDED_BITS])
    ensures r.Failure? ==> r.error in {DecryptionFailure, SwapAttackDetected}
  {
    match c.decGcm(keys.gcm, record)
    case None => Failure(DecryptionFailure)
    case Some(pt) =>
      if |pt| < PADDED_BITS || pt[PADDED_BITS..] != p then Failure(SwapAttackDetected)
      else Success(c.unpad(pt[..PADDED_BITS]))
  }

  /** get(name): null for an absent name; throws when not ready or on tampering. */
  function Get(c: Crypto, s: State, name: string): (r: Result<Option<string>, Error>)
    ensures r == Failure(NotReadyError) <==> s.NotReady?
    ensures r == Success(None) <==> s.Ready? && Pseudonym(c, s.keys, name) !in s.store
    ensures s.Ready? && r.Failure? ==> r.error in {DecryptionFailure, SwapAttackDetected}
    ensures s.Ready? && Pseudonym(c, s.keys, name) in s.store ==>
      var p := Pseudonym(c, s.keys, name);
      match OpenRecord(c, s.keys, p, s.store[p])
      case Success(v) => r == Success(Some(v))
      case Failure(e) => r == Failure(e)
  {
    match s
    case NotReady => Failure(NotReadyError)
    case Ready(_, keys, store) =>
      var p := Pseudonym(c, keys, name);
      if p !in store then Success(None)
      else match OpenRecord(c, keys, p, store[p])
        case Failure(e) => Failure(e)
        case Success(v) => Success(Some(v))
  }

  /** remove(name): reports whether a record was there, and deletes it. */
  function Remove(c: Crypto, s: State, name: string): (r: Step<bool>)
    ensures s.NotReady? ==> r == Step(s, Failure(NotReadyError))
    ensures s.Ready? ==>
      var p := Pseudonym(c, s.keys, name);
      && r.out == Success(p in s.store)
      && r.next.Ready? && r.next.salt == s.salt && r.next.keys == s.keys
      && r.next.store.Keys == s.store.Keys - {p}
      && (forall q :: q in r.next.store ==> r.next.store[q] == s.store[q])
  {
    match s
    case NotReady => Step(s, Failure(NotReadyError))
    case Ready(salt, keys, store) =>
      var p := Pseudonym(c, keys, name);
      Step(Ready(salt, keys, store - {p}), Success(p in store))
  }

  /** After set(name, value), get(name) returns value. */
  lemma GetAfterSet(c: Crypto, s: State, name: string, value: string, nonce: Bits)
    requires Sound(c) && s.Ready? && Fits(value)
    ensures Get(c, Set(c, s, name, value, nonce).next, name) == Success(Some(value))
  {
    var p := Pseudonym(c, s.keys, name);
    var padded := c.pad(value, PADDED_BYTES).value;
    var pt := SignedPlaintext(c, s.keys, name, padded);
    assert pt[PADDED_BITS..] == p;
    assert pt[..PADDED_BITS] == padded;
  }

  /** A stored record that its slot's key does not authenticate (a tampered
      ciphertext) makes get throw rather than return null or a value. */
  lemma GetThrowsOnForgedRecord(c: Crypto, s: State, name: string)
    requires s.Ready? && Pseudonym(c, s.keys, name) in s.store
    requires c.decGcm(s.keys.gcm, s.store[Pseudonym(c, s.keys, name)]).None?
    ensures Get(c, s, name) == Failure(DecryptionFailure)
  {
  }

  /** set(name, _) leaves every other name's get result as it was. */
  lemma GetAfterSetOther(c: Crypto, s: State, name: string, value: string, nonce: Bits, other: string)
    requires HmacInjective(c) && other != name
    ensures Get(c, Set(c, s, name, value, nonce).next, other) == Get(c, s, other)
  {
    if s.Ready? {
      assert Pseudonym(c, s.keys, other) != Pseudonym(c, s.keys, name);
    }
  }

  /** After remove(name), get(name) returns null. */
  lemma GetAfterRemove(c: Crypto, s: State, name: string)
    requires s.Ready?
    ensures Get(c, Remove(c, s, name).next, name) == Success(None)
  {
  }

  /** remove(name) leaves every other name's get result as it was. */
  lemma GetAfterRemoveOther(c: Crypto, s: State, name: string, other: string)
    requires HmacInjective(c) && other != name
    ensures Get(c, Remove(c, s, name).next, other) == Get(c, s, other)
  {
    if s.Ready? {
      assert Pseudonym(c, s.keys, other) != Pseudonym(c, s.keys, name);
    }
  }

  /** remove on a name with a stored record (readable or not) returns true; repeated at once it returns false,
      and get then returns null. */
  lemma RemoveTwice(c: Crypto, s: State, name: string)
    requires s.Ready? && Pseudonym(c, s.keys, name) in s.store
    ensures var first := Remove(c, s, name);
      && first.out == Success(true)
      && Remove(c, first.next, name).out == Success(false)
      && Get(c, Remove(c, first.next, name).next, name) == Success(None)
  {
  }
}
