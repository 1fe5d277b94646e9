/**
  The keychain against a plain dictionary from names to values: a Ready state
  represents a dictionary when every get answers exactly as a lookup in it
  would. Every set and remove keeps that correspondence, so any sequence of
  them applied to a fresh keychain behaves as the same sequence applied to an
  empty dictionary.
*/
module Refinement {
  import opened Wrappers
  import opened Primitives
  import opened Keychain
  import opened Persistence

  /** The dictionary semantics the keychain is meant to have. */
  type Dict = map<string, string>

  function Lookup(m: Dict, name: string): (r: Option<string>) {
    if name in m then Some(m[name]) else None
  }

  /** `s` is Ready and each get on it answers as a lookup in `m`, never throwing. */
  ghost predicate Represents(c: Crypto, s: State, m: Dict) {
    s.Ready? && forall n :: Get(c, s, n) == Success(Lookup(m, n))
  }

  lemma InitRepresentsEmpty(c: Crypto, password: string, salt: Bits)
    requires |salt| == AES_KEY_LENGTH
    ensures Represents(c, Init(c, password, salt), map[])
  {
  }

  /** set succeeds and the keychain then represents the updated dictionary. */
  lemma SetRefines(c: Crypto, s: State, m: Dict, name: string, value: string, nonce: Bits)
    requires Sound(c) && Fits(value) && Represents(c, s, m)
    ensures Set(c, s, name, value, nonce).out == Success(())
    ensures Represents(c, Set(c, s, name, value, nonce).next, m[name := value])
  {
    var next := Set(c, s, name, value, nonce).next;
    forall n ensures Get(c, next, n) == Success(Lookup(m[name := value], n)) {
      if n == name {
        GetAfterSet(c, s, name, value, nonce);
      } else {
        GetAfterSetOther(c, s, name, value, nonce, n);
      }
    }
  }

  /** remove reports whether the name was in the dictionary, and the keychain then
      represents the dictionary without it. */
  lemma RemoveRefines(c: Crypto, s: State, m: Dict, name: string)
    requires HmacInjective(c) && Represents(c, s, m)
    ensures Remove(c, s, name).out == Success(name in m)
    ensures Represents(c, Remove(c, s, name).next, m - {name})
  {
    assert Get(c, s, name) == Success(Lookup(m, name));
    var next := Remove(c, s, name).next;
    forall n ensures Get(c, next, n) == Success(Lookup(m - {name}, n)) {
      if n == name {
        GetAfterRemove(c, s, name);
      } else {
        GetAfterRemoveOther(c, s, name, n);
      }
    }
  }

  /** One call a client makes on a ready keychain. */
  datatype Op = SetOp(name: string, value: string, nonce: Bits) | RemoveOp(name: string)

  function Exec(c: Crypto, s: State, op: Op): (s': State) {
    match op
    case SetOp(name, value, nonce) => Set(c, s, name, value, nonce).next
    case RemoveOp(name) => Remove(c, s, name).next
  }

  function Apply(m: Dict, op: Op): (m': Dict) {
    match op
    case SetOp(name, value, _) => m[name := value]
    case RemoveOp(name) => m - {name}
  }

  /** The keychain after the calls `ops`, in order. */
  function Run(c: Crypto, s: State, ops: seq<Op>): (s': State)
    decreases |ops|
  {
    if ops == [] then s else Run(c, Exec(c, s, ops[0]), ops[1..])
  }

  /** The dictionary after the calls `ops`, in order. */
  function ApplyAll(m: Dict, ops: seq<Op>): (m': Dict)
    decreases |ops|
  {
    if ops == [] then m else ApplyAll(Apply(m, ops[0]), ops[1..])
  }

  predicate AllFit(ops: seq<Op>) {
    forall i :: 0 <= i < |ops| && ops[i].SetOp? ==> Fits(ops[i].value)
  }

  /** Any sequence of set and remove keeps the keychain in step with the dictionary. */
  lemma {:induction false} RunRefines(c: Crypto, s: State, m: Dict, ops: seq<Op>)
    requires Sound(c) && AllFit(ops) && Represents(c, s, m)
    ensures Represents(c, Run(c, s, ops), ApplyAll(m, ops))
    decreases |ops|
  {
    if ops != [] {
      match ops[0] {
        case SetOp(name, value, nonce) =>
          assert Fits(value) by { assert ops[0].SetOp?; }
          SetRefines(c, s, m, name, value, nonce);
        case RemoveOp(name) =>
          RemoveRefines(c, s, m, name);
      }
      assert AllFit(ops[1..]) by {
        forall i | 0 <= i < |ops[1..]| && ops[1..][i].SetOp? ensures Fits(ops[1..][i].value) {
          assert ops[1..][i] == ops[i + 1];
        }
      }
      RunRefines(c, Exec(c, s, ops[0]), Apply(m, ops[0]), ops[1..]);
    }
  }

  /** set and remove never change the salt or subkeys, so the password still unlocks. */
  lemma {:induction false} RunUnlocks(c: Crypto, password: string, s: State, ops: seq<Op>)
    requires Unlocks(c, password, s)
    ensures Unlocks(c, password, Run(c, s, ops))
    decreases |ops|
  {
    if ops != [] {
      RunUnlocks(c, password, Exec(c, s, ops[0]), ops[1..]);
    }
  }

  /** A keychain built by init and any calls, dumped and loaded with its password and
      checksum, answers every get exactly as the dictionary those calls describe. */
  lemma DumpLoadKeepsContents(c: Crypto, j: Json, password: string, salt: Bits, ops: seq<Op>, nonce: Bits)
    requires Sound(c) && JsonSound(j) && AllFit(ops) && |salt| == AES_KEY_LENGTH
    ensures var s := Run(c, Init(c, password, salt), ops);
      var d := Dump(c, j, s, nonce);
      && d.Some?
      && var loaded := Load(c, j, password, d.value.repr, Some(d.value.checksum));
      && loaded.out == Success(true)
      && forall n :: Get(c, loaded.next, n) == Success(Lookup(ApplyAll(map[], ops), n))
  {
    var s0 := Init(c, password, salt);
    InitRepresentsEmpty(c, password, salt);
    RunRefines(c, s0, map[], ops);
    RunUnlocks(c, password, s0, ops);
    DumpLoadRoundTrip(c, j, password, Run(c, s0, ops), nonce);
  }
}
