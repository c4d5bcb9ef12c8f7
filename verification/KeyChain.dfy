/** The registry's chain of status keys, each one signed in by the newest key before it. */
module KeyChain {
  import opened Prelude

  datatype RegistryKey = RegistryKey(keyId: string, publicKey: string, statement: Option<string>)

  /** The fields of a key statement after its shape, digest and timestamp checks. */
  datatype KeyStatement = KeyStatement(registry: string, keyId: string, publicKey: string, validFrom: int)

  datatype KeyApply = Accepted | Duplicate

  datatype KeyError = StatementInvalid | RecordMismatch | KeyConflict(field: string) | KeyUnknown | SignatureInvalid

  /** Canonical bytes of a well-shaped statement, what they say, and which signatures verify. */
  datatype Reader = Reader(
    canonical: string -> Option<string>, decode: string -> KeyStatement, verifies: (string, string, string) -> bool)

  function ParseStatement(r: Reader, text: string): Result<(KeyStatement, string), KeyError> {
    match r.canonical(text)
    case None => Err(StatementInvalid)
    case Some(bytes) =>
      var s := r.decode(bytes);
      if s.registry == "" || s.keyId == "" then Err(StatementInvalid) else Ok((s, bytes))
  }

  ghost predicate Distinct(keys: seq<RegistryKey>) {
    forall i, j :: 0 <= i < j < |keys| ==> keys[i].keyId != keys[j].keyId && keys[i].publicKey != keys[j].publicKey
  }

  /** Every key after the first was signed in, over its own statement, by the key just before it. */
  ghost predicate SignedIn(r: Reader, keys: seq<RegistryKey>) {
    forall i :: 0 < i < |keys| && keys[i].statement.Some? ==> SignedBy(r, keys[i - 1], keys[i])
  }

  ghost predicate SignedBy(r: Reader, signer: RegistryKey, key: RegistryKey)
    requires key.statement.Some?
  {
    && r.decode(key.statement.value).keyId == key.keyId && r.decode(key.statement.value).publicKey == key.publicKey
    && exists signature :: r.verifies(signer.publicKey, key.statement.value, signature)
  }

  /** The chain after one statement, and the answer given. */
  ghost function Applying(r: Reader, registry: string, keys: seq<RegistryKey>, text: string, signature: string)
    : (seq<RegistryKey>, Result<KeyApply, KeyError>)
  {
    match ParseStatement(r, text)
    case Err(e) => (keys, Err(e))
    case Ok((s, bytes)) =>
      if s.registry != registry then (keys, Err(RecordMismatch))
      else if exists i :: FirstWithId(keys, s.keyId, i) then
        var i :| FirstWithId(keys, s.keyId, i);
        (keys, if keys[i].statement == Some(bytes) || (keys[i].statement.None? && keys[i].publicKey == s.publicKey)
               then Ok(Duplicate) else Err(KeyConflict("key_id")))
      else if exists i :: 0 <= i < |keys| && keys[i].publicKey == s.publicKey then (keys, Err(KeyConflict("public_key")))
      else if keys == [] then (keys, Err(KeyUnknown))
      else if !r.verifies(keys[|keys| - 1].publicKey, bytes, signature) then (keys, Err(SignatureInvalid))
      else (keys + [RegistryKey(s.keyId, s.publicKey, Some(bytes))], Ok(Accepted))
  }

  ghost predicate FirstWithId(keys: seq<RegistryKey>, id: string, i: int) {
    0 <= i < |keys| && keys[i].keyId == id && forall j :: 0 <= j < i ==> keys[j].keyId != id
  }

  class Chain {
    const registry: string
    var keys: seq<RegistryKey>

    constructor (registry: string, keys: seq<RegistryKey>)
      ensures this.registry == registry && this.keys == keys
    {
      this.registry, this.keys := registry, keys;
    }

    /** The first key of this id, or of this public key. */
    method Find(id: Option<string>, publicKey: Option<string>) returns (at: Option<nat>)
      requires id.Some? != publicKey.Some?
      ensures id.Some? && at.Some? ==> FirstWithId(keys, id.value, at.value)
      ensures publicKey.Some? && at.Some? ==> at.value < |keys| && keys[at.value].publicKey == publicKey.value
      ensures at.None? ==> forall i :: 0 <= i < |keys| ==> Some(keys[i].keyId) != id && Some(keys[i].publicKey) != publicKey
    {
      for i := 0 to |keys|
        invariant forall j :: 0 <= j < i ==> Some(keys[j].keyId) != id && Some(keys[j].publicKey) != publicKey
      {
        if Some(keys[i].keyId) == id || Some(keys[i].publicKey) == publicKey { return Some(i); }
      }
      return None;
    }

    method Apply(r: Reader, text: string, signature: string) returns (answer: Result<KeyApply, KeyError>)
      modifies this`keys
      ensures (keys, answer) == Applying(r, registry, old(keys), text, signature)
    {
      var parsed := ParseStatement(r, text);
      if parsed.Err? { return Err(parsed.error); }
      var (s, bytes) := parsed.value;
      if s.registry != registry { return Err(RecordMismatch); }
      var same := Find(Some(s.keyId), None);
      if same.Some? {
        var k := keys[same.value];
        return if k.statement == Some(bytes) || (k.statement.None? && k.publicKey == s.publicKey)
          then Ok(Duplicate) else Err(KeyConflict("key_id"));
      }
      var taken := Find(None, Some(s.publicKey));
      if taken.Some? { return Err(KeyConflict("public_key")); }
      if keys == [] { return Err(KeyUnknown); }
      if !r.verifies(keys[|keys| - 1].publicKey, bytes, signature) { return Err(SignatureInvalid); }
      keys := keys + [RegistryKey(s.keyId, s.publicKey, Some(bytes))];
      return Ok(Accepted);
    }
  }

  /** A statement as received: its text and its signature. */
  type Received = (string, string)

  ghost function Applied(r: Reader, registry: string, keys: seq<RegistryKey>, received: seq<Received>): seq<RegistryKey> {
    if received == [] then keys
    else
      var before := Applied(r, registry, keys, received[..|received| - 1]);
      Applying(r, registry, before, received[|received| - 1].0, received[|received| - 1].1).0
  }

  /** Only an accepted statement changes the chain, by adding the one key it states. */
  lemma ChangesByAppending(r: Reader, registry: string, keys: seq<RegistryKey>, text: string, signature: string)
    requires Distinct(keys) && SignedIn(r, keys)
    ensures var (next, answer) := Applying(r, registry, keys, text, signature);
      && Distinct(next) && SignedIn(r, next) && keys <= next
      && (answer == Ok(Accepted) <==> next != keys) && |next| <= |keys| + 1
  {
    hide SignedBy;
    var (next, answer) := Applying(r, registry, keys, text, signature);
    if answer == Ok(Accepted) {
      var (s, bytes) := ParseStatement(r, text).value;
      forall i | 0 <= i < |keys| ensures keys[i].keyId != s.keyId {
        if keys[i].keyId == s.keyId { FirstExists(keys, s.keyId, i); }
      }
      StatedBy(r, keys[|keys| - 1], s, bytes, signature, text);
    }
  }

  /** The statement says which registry it is for and what key it states. */
  ghost predicate WellShaped(r: Reader, text: string) {
    r.canonical(text).Some? && r.decode(r.canonical(text).value).registry != "" && r.decode(r.canonical(text).value).keyId != ""
  }

  /**
   * A statement adds its key exactly when it is well shaped, for this registry,
   * of a new id and a new public key, and signed by the newest key. It is a
   * duplicate exactly when its id is there with these bytes, or, for a key that
   * came without a statement, with this public key. Any other is refused, for
   * the first of these reasons.
   */
  lemma ApplyingMeans(r: Reader, registry: string, keys: seq<RegistryKey>, text: string, signature: string)
    requires Distinct(keys) && r.canonical(text).Some?
    ensures var ((next, answer), bytes) := (Applying(r, registry, keys, text, signature), r.canonical(text).value);
      var s := r.decode(bytes);
      var ours := WellShaped(r, text) && s.registry == registry;
      var newId := forall i :: 0 <= i < |keys| ==> keys[i].keyId != s.keyId;
      var newKey := forall i :: 0 <= i < |keys| ==> keys[i].publicKey != s.publicKey;
      var signed := keys != [] && r.verifies(keys[|keys| - 1].publicKey, bytes, signature);
      var known := exists i :: 0 <= i < |keys| && keys[i].keyId == s.keyId
                     && (keys[i].statement == Some(bytes) || (keys[i].statement.None? && keys[i].publicKey == s.publicKey));
      && (answer == Ok(Accepted) <==> ours && newId && newKey && signed)
      && (answer == Ok(Accepted) ==> next == keys + [RegistryKey(s.keyId, s.publicKey, Some(bytes))])
      && (answer == Ok(Duplicate) <==> ours && known) && (answer != Ok(Accepted) ==> next == keys)
      && (answer.Err? ==>
            answer.error ==
            if !WellShaped(r, text) then StatementInvalid else if s.registry != registry then RecordMismatch
            else if !newId then KeyConflict("key_id") else if !newKey then KeyConflict("public_key")
            else if keys == [] then KeyUnknown else SignatureInvalid)
  {
    var s := r.decode(r.canonical(text).value);
    forall i | 0 <= i < |keys| && keys[i].keyId == s.keyId ensures FirstWithId(keys, s.keyId, i) {
    }
  }

  lemma StatedBy(r: Reader, signer: RegistryKey, s: KeyStatement, bytes: string, signature: string, text: string)
    requires ParseStatement(r, text) == Ok((s, bytes)) && r.verifies(signer.publicKey, bytes, signature)
    ensures SignedBy(r, signer, RegistryKey(s.keyId, s.publicKey, Some(bytes)))
  {
  }

  lemma {:induction false} FirstExists(keys: seq<RegistryKey>, id: string, i: nat)
    requires i < |keys| && keys[i].keyId == id
    ensures exists f :: FirstWithId(keys, id, f)
  {
    if j: nat :| j < i && keys[j].keyId == id {
      FirstExists(keys, id, j);
    } else {
      assert FirstWithId(keys, id, i);
    }
  }

  /**
   * Over any statements received in any order the chain only grows at its end,
   * keeps key ids and public keys distinct, and every added key is vouched for
   * by the key before it.
   */
  lemma {:induction false} ChainOnlyGrows(r: Reader, registry: string, keys: seq<RegistryKey>, received: seq<Received>)
    requires Distinct(keys) && SignedIn(r, keys)
    ensures var next := Applied(r, registry, keys, received);
      Distinct(next) && SignedIn(r, next) && keys <= next
  {
    hide Applying, Distinct, SignedIn;
    if received != [] {
      var before := Applied(r, registry, keys, received[..|received| - 1]);
      ChainOnlyGrows(r, registry, keys, received[..|received| - 1]);
      ChangesByAppending(r, registry, before, received[|received| - 1].0, received[|received| - 1].1);
    }
  }

  /** Receiving an accepted statement again answers duplicate and changes nothing. */
  lemma AcceptedThenDuplicate(r: Reader, registry: string, keys: seq<RegistryKey>, text: string, signature: string, again: string)
    requires Distinct(keys) && SignedIn(r, keys) && Applying(r, registry, keys, text, signature).1 == Ok(Accepted)
    ensures var next := Applying(r, registry, keys, text, signature).0;
      Applying(r, registry, next, text, again) == (next, Ok(Duplicate))
  {
    ChangesByAppending(r, registry, keys, text, signature);
    var next := Applying(r, registry, keys, text, signature).0;
    assert FirstWithId(next, next[|keys|].keyId, |keys|);
  }
}
