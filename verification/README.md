# Keychain model

A Dafny model of the password-manager keychain in `src/password-manager.js`:
an encrypted key-value store of `(domain, password)` pairs protected by a
master password. The model covers the keychain's state machine (`init`,
`set`, `get`, `remove`, `dump`, `load`) and proves the protocol properties the
keychain relies on: pseudonymised slots, length-hiding padding, records bound
to their slot against swap attacks, a signature that detects a wrong
password, and a trusted checksum that detects a rolled-back snapshot.

Every cryptographic primitive (KDF, HMAC, SHA-256, AES-GCM, padding, string
encoding) is an uninterpreted function: a field of the `Primitives.Crypto`
record that operations take as a parameter. The properties the proofs rely
on are stated once, as `Primitives.Sound`:

- GCM decryption under the encrypting key returns the plaintext, and under any
  other key fails;
- HMAC is injective in the message under a fixed key, and at least 256 bits wide;
- a value of at most 64 ASCII characters pads to exactly 65 bytes and
  unpads back to itself (padding may reject other values; `set` then throws);
- SHA-256 is injective (collision resistance, idealised).

`Witness.LibraryIsSound` builds one concrete (insecure) library and proves it
meets all of them, so the assumptions are consistent. The JSON text of a
snapshot is a `Persistence.Json` record of `stringify`/`parse` functions with
the one property `parse(stringify(s)) == s`. The random salt and the GCM
nonces are parameters.

Modules: `Wrappers` (Option, Result), `Primitives` (library and its
assumptions), `Keychain` (state, subkeys, `init`/`set`/`get`/`remove`),
`Persistence` (`dump`/`load`), `Refinement` (the keychain against a plain
dictionary), `Attacks` (wrong password, rollback, swap), `Findings` (the code
as written where it departs from its comments), `Witness`.

Operations are pure functions from a state to the next state and the outcome;
an operation that throws in JavaScript returns `Failure(error)` and, for
`set` and `remove`, leaves the state as it was.

`get`, `remove`, `dump` and `load` have no bodies in the source (they throw
"Not implemented!"); they are modelled from their doc comments and from the
test script. Where the doc comments leave a choice open, the model chooses:
the snapshot signature is the GCM encryption of the string `AUTH_SIGNATURE`
under the AUTH subkey, and a failed `load` leaves the keychain not ready.
In one place the model overrides a doc comment to follow the test script.
The doc comment of `load` (src/password-manager.js:99-101) says a supplied
checksum that fails the integrity check throws. The test script's cases for a
forged signature and a changed salt (src/test-password-manager.js:82, 103)
pass a stale checksum with the tampered text and expect `false`. So `load`
checks the signature first, and a snapshot whose signature does not open
returns `false` whatever checksum is supplied.

The code and its comments disagree in two places (see Findings); the model
uses the intended behaviour. One of them is `init`. Its doc comment says it
creates an empty keychain, but the code keeps earlier records. `Keychain.Init`
starts with an empty store.

## Model

| member | source | states |
|---|---|---|
| Keychain.DeriveKeys | src/password-manager.js:80-90 | under the library assumptions the HMAC subkey is 256 bits and the AUTH and GCM subkeys are 128 bits |
| Keychain.SubkeyDerivationsSeparated | src/password-manager.js:84-90 | the three labels are distinct, so the three HMAC derivations from the master key are pairwise distinct |
| Keychain.Init | src/password-manager.js:66-93 | init cannot fail: it ends Ready, with the given 128-bit salt, an empty store, and subkeys the same password re-derives from that salt |
| Keychain.SignedPlaintextHidesLength | src/password-manager.js:164-168 | the encrypted plaintext is 65 padded bytes plus the pseudonym, so its length is the same for every value that fits |
| Keychain.Set | src/password-manager.js:147-177 | not ready: throws and the state is unchanged; a value the padding rejects: throws and the state is unchanged; otherwise adds exactly the slot HMAC(K_HMAC, name), overwriting it, keeps every other slot, salt and subkeys, and the new record decrypts to padded value then pseudonym; a value of at most 64 ASCII characters always succeeds |
| Keychain.OpenRecord | src/password-manager.js:168 | a record opens exactly when it decrypts and its plaintext ends with the pseudonym of the slot it was found in, and then yields the unpadded value; decryption failure exactly when it does not authenticate; swap attack otherwise |
| Keychain.Get | src/password-manager.js:133-145 | throws not-ready exactly when not ready; returns null exactly when ready and the name's slot is empty; on an occupied slot returns the record's value or throws its tampering error (decryption failure or swap), and throws nothing else when ready |
| Keychain.GetThrowsOnForgedRecord | src/password-manager.js:136-137 | a stored record that does not authenticate under the GCM subkey makes get throw a decryption failure |
| Keychain.Remove | src/password-manager.js:179-190 | not ready: throws and the state is unchanged; ready: returns whether the name's slot was occupied, empties exactly that slot, keeps everything else |
| Keychain.GetAfterSet | src/test-password-manager.js:34-35 | after set(name, value), get(name) returns value |
| Keychain.GetAfterSetOther | src/password-manager.js:147-150 | set(name, _) does not change get on any other name |
| Keychain.GetAfterRemove | src/test-password-manager.js:39 | after remove(name), get(name) returns null |
| Keychain.GetAfterRemoveOther | src/password-manager.js:179-182 | remove(name) does not change get on any other name |
| Keychain.RemoveTwice | src/test-password-manager.js:36-39 | on a name with a stored record, readable or not, the first remove returns true, an immediate second returns false, and get then returns null |
| Persistence.Dump | src/password-manager.js:116-131 | null exactly when not ready; otherwise the text parses to the keychain's salt and store, its signature opens under the AUTH subkey, and the checksum is SHA-256 of the text |
| Persistence.Load | src/password-manager.js:95-114 | true exactly when the state becomes Ready, then with the snapshot's salt and store and the password's subkeys; false exactly when the signature does not open under the password's AUTH subkey; throws only on a supplied checksum that does not match the text, and only when the signature opens |
| Persistence.DumpLoadRoundTrip | src/test-password-manager.js:46-68 | loading a dump with its password, with or without its checksum, returns true and restores the identical keychain |
| Refinement.InitRepresentsEmpty | src/password-manager.js:66-93 | a fresh keychain answers every get with null |
| Refinement.SetRefines | src/password-manager.js:147-177 | for a value of at most 64 ASCII characters, set succeeds, and a keychain that behaves as dictionary m then behaves as m with name mapped to value |
| Refinement.RemoveRefines | src/password-manager.js:179-190 | remove returns whether the name is in the dictionary, and the keychain then behaves as the dictionary without it |
| Refinement.RunRefines | src/test-password-manager.js:32-44 | any sequence of set and remove keeps the keychain answering get as the same sequence applied to the dictionary |
| Refinement.RunUnlocks | src/password-manager.js:74-93 | set and remove keep the salt and subkeys, so the init password still unlocks the keychain |
| Refinement.DumpLoadKeepsContents | src/test-password-manager.js:46-68 | after init and any set and remove calls whose values are at most 64 ASCII characters, a dump loaded with its password and checksum returns true and answers every get as the dictionary those calls describe |
| Attacks.WrongPasswordRejected | src/test-password-manager.js:72-74 | a password whose AUTH subkey differs from the dumping one makes load return false and stay not ready, whatever checksum is given |
| Attacks.WrongSaltRejected | src/test-password-manager.js:97-103 | a dump whose salt is replaced by one giving the password a different AUTH subkey makes load return false and stay not ready, whatever checksum is given |
| Attacks.RollbackDetectedAfterSet | src/test-password-manager.js:163-179 | a dump taken before a new name was successfully set, loaded with the checksum of a dump taken after, throws a rollback error |
| Attacks.SwapRecords | src/test-password-manager.js:135-146 | exchanging two slots' records keeps the slots and every other record |
| Attacks.RecordBoundToSlot | src/password-manager.js:168 | a record that opens in its own slot is reported as a swap in any other slot |
| Attacks.SwapDetected | src/test-password-manager.js:119-161 | a dump with two stored names' records exchanged still loads, get throws a swap error for exactly those two names, and every other name resolves as before |
| Findings.InitAsWritten | src/password-manager.js:74-93 | init as written keeps the records of a keychain that was already ready |
| Findings.InitAsWrittenNotEmpty | src/password-manager.js:66-93 | a keychain with one record, initialised again, still holds it as written; the intended init leaves the store empty |
| Findings.SetAsWritten | src/password-manager.js:158-162 | set as written never stores anything: not ready it throws not-ready, ready it throws a TypeError |
| Findings.SetAsWrittenLosesValue | src/password-manager.js:158-173 | on a new name and a value of at most 64 ASCII characters, get after set as written returns null, while get after the intended set returns the value |
| Witness.LibraryIsSound | src/password-manager.js:6-31 | some library meets every assumption made of the imported primitives, so the assumptions are consistent |

## Left out

- The primitives of `./lib/lib` are uninterpreted. That covers KDF, HMAC (RFC 2104), SHA-256 (FIPS 180-4), AES-GCM (NIST SP 800-38D), and the bit-array and encoding helpers. `lib/lib.js` is not part of this model. Its behaviour is stated only through `Primitives.Sound`.
- Randomness is not modelled. `random_bitarray` for the salt and the GCM nonces are parameters.
- JSON text encoding and parsing are not modelled. `load` assumes well-formed input, as its doc comment allows.
- Constant-time comparison is not modelled: it is a timing property.
- Concurrency is not modelled: the keychain is single-threaded.
- The unused constants `PADDING_LENGTH` and `ENC_PW_LENGTH` are not modelled.
- The version string is not modelled.
- The padding call's middle argument `0` is dropped. Padding is modelled as `pad(value, 65 bytes)`.
- `bitarray_slice(b, 0, n)` is modelled as the first `n` bits of `b`.
- The test script's "modifying the content" case is not stated. The assumptions say nothing about arbitrary random bit strings used as ciphertexts.
- Persistence.Load: a forged signature is rejected when it does not decrypt to the known string under the password's AUTH subkey. The model does not claim that a random bit string fails to decrypt.
- Persistence.Load: a snapshot whose signature does not open, presented with a checksum that does not match its text, returns false rather than throwing. This departs from the doc comment's promise of an exception on a failed checksum and follows the test script.
- Keychain.GetAfterSet: proved only for values of at most 64 ASCII characters. The library's padding of longer values, or of values with characters that take more than one byte, is unknown. Set then either throws or stores whatever the padding returns.
- Refinement.RunRefines: the same restriction on every value set.
- Refinement.SetRefines: the same restriction on the value set. A value of at most 64 bytes with non-ASCII characters is in the source's range but outside the proof.
- Refinement.DumpLoadKeepsContents: the same restriction on every value set.
- Findings.SetAsWrittenLosesValue: the same restriction on the value, for the half about the intended set.
- Keychain.DeriveKeys: HMAC is assumed at least 256 bits wide rather than exactly 256 bits. An exactly 256-bit HMAC could not also be injective on all names.
- Attacks.WrongPasswordRejected: the wrong password must give a different AUTH subkey. The model does not claim that every distinct password does.
- Attacks.WrongSaltRejected: the replaced salt must give the password a different AUTH subkey. The model does not claim that every distinct salt does; no unbounded salt can map injectively into a 128-bit key, so that claim could not be an assumption of the library.

## Findings

| source | as written | input that shows it | evidently intended | confidence | as-written member | corrected member |
|---|---|---|---|---|---|---|
| src/password-manager.js:158-162 | `set` reads the subkeys from `priv.secret.keys`, but the field declared at line 40 is `priv.secrets` | any `set` on a ready keychain: `init("pw"); set("a.com", "x")` throws a TypeError | read the subkeys `init` stored in `priv.secrets.keys` | high; not executed | Findings.SetAsWritten | Keychain.Set |
| src/password-manager.js:74-93 | `init` replaces salt and subkeys but never clears `priv.data`; latent as written, because `set` (row above) throws before storing and `load` is unimplemented, so `priv.data` stays empty; it shows once `set` is corrected | with the corrected `set`: `init("pw"); set("a.com", "x"); init("pw2")` leaves a record in the store | "creates an empty keychain" (doc comment, line 67) | medium; not executed | Findings.InitAsWritten | Keychain.Init |
