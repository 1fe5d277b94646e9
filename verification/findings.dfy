/**
  Two places where the keychain's code does not do what its own comments say.
  Each is modelled as written, with a lemma exhibiting the discrepancy; the
  rest of the model uses the intended definitions `Keychain.Init` and
  `Keychain.Set`.
*/
module Findings {
  import opened Wrappers
  import opened Primitives
  import opened Keychain

  /** init as written: it replaces the salt and subkeys but never touches the
      records, so a keychain initialised a second time keeps the records of the
      first, encrypted under subkeys it no longer holds. */
  function InitAsWritten(c: Crypto, prior: State, password: string, salt: Bits): (s: State)
    requires |salt| == AES_KEY_LENGTH
    ensures Unlocks(c, password, s) && s.salt == salt
    ensures prior.Ready? ==> s.store == prior.store
  {
    Ready(salt, DeriveKeys(c, password, salt), if prior.Ready? then prior.store else map[])
  }

  /** A keychain holding one record, initialised again, is not empty as written,
      while the intended init leaves it empty. */
  lemma InitAsWrittenNotEmpty(c: Crypto, password: string, salt: Bits, p: Bits, record: Bits)
    requires |salt| == AES_KEY_LENGTH
    ensures var prior := Ready(salt, DeriveKeys(c, password, salt), map[p := record]);
      && p in InitAsWritten(c, prior, password, salt).store
      && Init(c, password, salt).store == map[]
  {
  }

  /** set as written: it reads the subkeys from a field that does not exist, so
      when ready it throws a TypeError before storing anything. */
  function SetAsWritten(c: Crypto, s: State, name: string, value: string, nonce: Bits): (r: Step<()>)
    ensures r.next == s && r.out.Failure?
    ensures s.NotReady? ==> r.out == Failure(NotReadyError)
    ensures s.Ready? ==> r.out == Failure(TypeError)
  {
    match s
    case NotReady => Step(s, Failure(NotReadyError))
    case Ready(_, _, _) => Step(s, Failure(TypeError))
  }

  /** On a ready keychain without the name, get after set returns null as written,
      and returns the value with the intended set. */
  lemma SetAsWrittenLosesValue(c: Crypto, s: State, name: string, value: string, nonce: Bits)
    requires Sound(c) && s.Ready? && Fits(value) && Pseudonym(c, s.keys, name) !in s.store
    ensures Get(c, SetAsWritten(c, s, name, value, nonce).next, name) == Success(None)
    ensures Get(c, Set(c, s, name, value, nonce).next, name) == Success(Some(value))
  {
    GetAfterSet(c, s, name, value, nonce);
  }
}
