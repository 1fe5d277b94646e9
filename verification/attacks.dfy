/**
  What the keychain detects: a wrong password, a stale snapshot presented with
  a newer checksum, and records moved between slots of the store.
*/
module Attacks {
  import opened Wrappers
  import opened Primitives
  import opened Keychain
  import opened Persistence
  import opened Refinement

  /** A password whose AUTH subkey differs from the one that signed the dump cannot
      load it: load returns false, whatever checksum is supplied. */
  lemma WrongPasswordRejected(c: Crypto, j: Json, password: string, wrong: string, s: State, nonce: Bits, trusted: Option<Bits>)
    requires Sound(c) && JsonSound(j) && Unlocks(c, password, s)
    requires DeriveKeys(c, wrong, s.salt).auth != s.keys.auth
    ensures Dump(c, j, s, nonce).Some?
    ensures Load(c, j, wrong, Dump(c, j, s, nonce).value.repr, trusted) == Step(NotReady, Success(false))
  {
    var sig := c.encGcm(s.keys.auth, nonce, c.encode(AUTH_SIGNATURE));
    var snap := j.parse(Dump(c, j, s, nonce).value.repr);
    assert snap.signature == sig;
    assert c.decGcm(DeriveKeys(c, wrong, s.salt).auth, sig) == None;
  }

  /** A dump whose salt is replaced by one from which the password derives a
      different AUTH subkey cannot be loaded: load returns false, whatever
      checksum is supplied. */
  lemma WrongSaltRejected(c: Crypto, j: Json, password: string, s: State, nonce: Bits, salt': Bits, trusted: Option<Bits>)
    requires Sound(c) && JsonSound(j) && Unlocks(c, password, s)
    requires DeriveKeys(c, password, salt').auth != s.keys.auth
    ensures Dump(c, j, s, nonce).Some?
    ensures var snap := j.parse(Dump(c, j, s, nonce).value.repr);
      var tampered := j.stringify(Snapshot(salt', snap.signature, snap.store));
      Load(c, j, password, tampered, trusted) == Step(NotReady, Success(false))
  {
    var snap := j.parse(Dump(c, j, s, nonce).value.repr);
    assert snap.signature == c.encGcm(s.keys.auth, nonce, c.encode(AUTH_SIGNATURE));
  }

  /** A snapshot dumped before a new name was successfully set, presented with the checksum of a
      dump taken after, is a rollback: load throws rather than returning. */
  lemma RollbackDetectedAfterSet(c: Crypto, j: Json, password: string, s: State, name: string, value: string,
                                 beforeNonce: Bits, setNonce: Bits, afterNonce: Bits)
    requires Sound(c) && JsonSound(j) && Unlocks(c, password, s)
    requires Pseudonym(c, s.keys, name) !in s.store && Set(c, s, name, value, setNonce).out.Success?
    ensures var s' := Set(c, s, name, value, setNonce).next;
      var before := Dump(c, j, s, beforeNonce);
      var after := Dump(c, j, s', afterNonce);
      && before.Some? && after.Some?
      && Load(c, j, password, before.value.repr, Some(after.value.checksum)) == Step(NotReady, Failure(RollbackDetected))
  {
    var s' := Set(c, s, name, value, setNonce).next;
    var before := Dump(c, j, s, beforeNonce).value;
    var after := Dump(c, j, s', afterNonce).value;
    var p := Pseudonym(c, s.keys, name);
    assert p in j.parse(after.repr).store && p !in j.parse(before.repr).store;
    assert before.repr != after.repr;
    assert c.sha256(before.repr) != after.checksum;
    assert SignatureValid(c, DeriveKeys(c, password, j.parse(before.repr).salt), j.parse(before.repr));
  }

  /** The store with the records in slots `p` and `q` exchanged. */
  function SwapRecords(store: Store, p: Bits, q: Bits): (r: Store)
    requires p in store && q in store
    ensures r.Keys == store.Keys
    ensures r[p] == store[q] && r[q] == store[p]
    ensures forall x :: x in store && x != p && x != q ==> r[x] == store[x]
  {
    store[p := store[q]][q := store[p]]
  }

  /** A record that opens in its own slot `p` fails the pseudonym check in any other slot. */
  lemma RecordBoundToSlot(c: Crypto, keys: Keys, p: Bits, q: Bits, record: Bits)
    requires OpenRecord(c, keys, p, record).Success? && p != q
    ensures OpenRecord(c, keys, q, record) == Failure(SwapAttackDetected)
  {
  }

  /** Exchanging the records of two stored names in a dump still loads (signature and
      salt are untouched), but get then throws for exactly those two names, while
      every other name resolves as before. */
  lemma SwapDetected(c: Crypto, j: Json, password: string, s: State, m: Dict, a: string, b: string, nonce: Bits)
    requires Sound(c) && JsonSound(j) && Unlocks(c, password, s) && Represents(c, s, m)
    requires a in m && b in m && a != b
    ensures var snap := j.parse(Dump(c, j, s, nonce).value.repr);
      var pa := Pseudonym(c, s.keys, a);
      var pb := Pseudonym(c, s.keys, b);
      && pa in snap.store && pb in snap.store
      && var tampered := j.stringify(Snapshot(snap.salt, snap.signature, SwapRecords(snap.store, pa, pb)));
      && var loaded := Load(c, j, password, tampered, None);
      && loaded.out == Success(true)
      && Get(c, loaded.next, a) == Failure(SwapAttackDetected)
      && Get(c, loaded.next, b) == Failure(SwapAttackDetected)
      && forall n :: n != a && n != b ==> Get(c, loaded.next, n) == Success(Lookup(m, n))
  {
    var snap := j.parse(Dump(c, j, s, nonce).value.repr);
    var pa := Pseudonym(c, s.keys, a);
    var pb := Pseudonym(c, s.keys, b);
    assert Get(c, s, a) == Success(Some(m[a]));
    assert Get(c, s, b) == Success(Some(m[b]));
    assert pa != pb;
    var swapped := SwapRecords(snap.store, pa, pb);
    var tampered := j.stringify(Snapshot(snap.salt, snap.signature, swapped));
    assert SignatureValid(c, DeriveKeys(c, password, snap.salt), snap);
    var loaded := Load(c, j, password, tampered, None);
    assert loaded.next == Ready(s.salt, s.keys, swapped);
    RecordBoundToSlot(c, s.keys, pb, pa, s.store[pb]);
    RecordBoundToSlot(c, s.keys, pa, pb, s.store[pa]);
    forall n | n != a && n != b
      ensures Get(c, loaded.next, n) == Success(Lookup(m, n))
    {
      var pn := Pseudonym(c, s.keys, n);
      assert pn != pa && pn != pb;
      assert Get(c, s, n) == Success(Lookup(m, n));
    }
  }
}
