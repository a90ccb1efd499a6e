/** Where every stored identity comes from: each step keeps the identities it stores, but for their
    comment, flag and stamp, or stores the one the command adds. */
module Provenance {
  import opened Wrappers
  import opened Bytes
  import opened Crypto
  import opened IdentityList
  import opened Disk
  import opened Store
  import opened VaultMachine

  /** In memory or in the file. */
  ghost predicate Stored(v: Vault, id: Identity) {
    id in v.ids || (v.disk.Some? && id in v.disk.value.identities)
  }

  /** The same key under the same lifetime. */
  predicate SameKey(a: Identity, b: Identity) {
    a.fingerprint == b.fingerprint && a.publicKey == b.publicKey && a.encryptedBlob == b.encryptedBlob
        && a.expiresAt == b.expiresAt
  }

  ghost predicate Carried(v: Vault, id: Identity) {
    exists was :: Stored(v, was) && SameKey(was, id)
  }

  /** What a command adds, if it is an add. */
  function AddedBy(c: Command): (key: Option<AddedKey>) {
    match c
    case Add(key) => Some(key)
    case AddWithOptions(key, _, _) => Some(key)
    case _ => None
  }

  /** The command adds a key of this fingerprint. */
  predicate Adds(p: Primitives, c: Command, fp: Fp) {
    && AddedBy(c).Some?
    && PublicOf(p, AddedBy(c).value.key).Some?
    && p.fingerprint(PublicOf(p, AddedBy(c).value.key).value) == fp
  }

  /** The identity is the one the command adds, sealed under the vault's present key. */
  ghost predicate Sealed(p: Primitives, v: Vault, key: AddedKey, env: Env, id: Identity) {
    && PublicOf(p, key.key) == Some(id.publicKey)
    && id.fingerprint == p.fingerprint(id.publicKey)
    && v.key.Some?
    && MarshalPrivateKey(p, key.key).Some?
    && EncryptBlob(p, v.key.value, env.iv, MarshalPrivateKey(p, key.key).value) == Ok(id.encryptedBlob)
  }

  ghost predicate ComesFrom(p: Primitives, v: Vault, c: Command, env: Env, id: Identity) {
    Carried(v, id) || (AddedBy(c).Some? && Sealed(p, v, AddedBy(c).value, env, id))
  }

  lemma StoredIsCarried(v: Vault, id: Identity)
    requires Stored(v, id)
    ensures Carried(v, id)
  {
    assert SameKey(id, id);
  }

  /** Putting an edited form of a stored identity, and then saving or failing to, stores nothing new. */
  lemma EditedIsCarried(v: Vault, edited: Identity, fault: SaveFault)
    requires Find(v.ids, edited.fingerprint).Some? && SameKey(Find(v.ids, edited.fingerprint).value, edited)
    ensures forall id :: Stored(Persist(v.(ids := Put(v.ids, edited)), fault).0, id) ==> Carried(v, id)
  {
    PutMembers(v.ids, edited);
    forall id | Stored(Persist(v.(ids := Put(v.ids, edited)), fault).0, id)
      ensures Carried(v, id)
    {
      if id == edited {
        assert Stored(v, Find(v.ids, edited.fingerprint).value);
      } else {
        StoredIsCarried(v, id);
      }
    }
  }

  lemma RemovedAreCarried(v: Vault, gone: set<Fp>, loaded: set<Fp>, hidden: set<Fp>, fault: SaveFault)
    ensures var after := v.(ids := Without(v.ids, gone), loaded := loaded, hidden := hidden);
            forall id :: Stored(after, id) || Stored(Persist(after, fault).0, id) ==> Carried(v, id)
  {
    WithoutMembers(v.ids, gone);
    forall id | Stored(v, id)
      ensures Carried(v, id)
    {
      StoredIsCarried(v, id);
    }
  }

  lemma AddComesFrom(p: Primitives, v: Vault, key: AddedKey, autoload: bool, filepath: Bytes, env: Env)
    ensures forall id :: Stored(AddKey(p, v, key, autoload, filepath, env).0, id) ==>
                           Carried(v, id) || Sealed(p, v, key, env, id)
  {
    forall id | Stored(v, id)
      ensures Carried(v, id)
    {
      StoredIsCarried(v, id);
    }
    if PublicOf(p, key.key).Some? && v.key.Some? && MarshalPrivateKey(p, key.key).Some? {
      var publicKey := PublicOf(p, key.key).value;
      var encrypted := EncryptBlob(p, v.key.value, env.iv, MarshalPrivateKey(p, key.key).value);
      if encrypted.Ok? {
        PutMembers(v.ids, NewIdentity(p, key, publicKey, encrypted.value, autoload, filepath, env.now));
      }
    }
  }

  /** An add that gets as far as saving stores the identity it sealed. */
  lemma AddIsStored(p: Primitives, v: Vault, key: AddedKey, autoload: bool, filepath: Bytes, env: Env)
      returns (id: Identity)
    requires AddKey(p, v, key, autoload, filepath, env).1 in {Done, Failed(SaveFailed)}
    ensures Stored(AddKey(p, v, key, autoload, filepath, env).0, id) && Sealed(p, v, key, env, id)
  {
    var publicKey := PublicOf(p, key.key).value;
    var blob := EncryptBlob(p, v.key.value, env.iv, MarshalPrivateKey(p, key.key).value).value;
    id := NewIdentity(p, key, publicKey, blob, autoload, filepath, env.now);
    PutMembers(v.ids, id);
  }

  lemma EditComesFrom(v: Vault, fp: Fp, on: bool, comment: Bytes, env: Env)
    ensures forall id :: Stored(SetAutoloadFlag(v, fp, on, env).0, id) ==> Carried(v, id)
    ensures forall id :: Stored(SetCommentText(v, fp, comment, env).0, id) ==> Carried(v, id)
  {
    forall id | Stored(v, id)
      ensures Carried(v, id)
    {
      StoredIsCarried(v, id);
    }
    if Find(v.ids, fp).Some? {
      EditedIsCarried(v, Find(v.ids, fp).value.(autoload := on, addedAt := env.now), env.fault);
      EditedIsCarried(v, Find(v.ids, fp).value.(comment := comment, addedAt := env.now), env.fault);
    }
  }

  /** Whatever the step, and whether or not its save succeeds, everything stored after it was stored
      before it with the same key and lifetime, or is what the command adds. */
  lemma StepComesFrom(p: Primitives, v: Vault, c: Command, env: Env)
    ensures forall id :: Stored(Apply(p, v, c, env).0, id) ==> ComesFrom(p, v, c, env, id)
  {
    forall id | Stored(v, id)
      ensures Carried(v, id)
    {
      StoredIsCarried(v, id);
    }
    match c {
      case List => PurgedAreCarried(v, env);
      case Sign(_) => PurgedAreCarried(v, env);
      case Add(key) => AddComesFrom(p, v, key, false, [], env);
      case AddWithOptions(key, autoload, filepath) => AddComesFrom(p, v, key, autoload, filepath, env);
      case Remove(publicKey) =>
        var fp := p.fingerprint(publicKey);
        RemovedAreCarried(v, {fp}, v.loaded - {fp}, v.hidden - {fp}, env.fault);
      case SetAutoload(fp, on) => EditComesFrom(v, fp, on, [], env);
      case SetComment(fp, comment) => EditComesFrom(v, fp, false, comment, env);
      case _ =>
    }
  }

  lemma PurgedAreCarried(v: Vault, env: Env)
    ensures forall id :: Stored(Purge(v, env).0, id) ==> Carried(v, id)
  {
    forall id | Stored(v, id)
      ensures Carried(v, id)
    {
      StoredIsCarried(v, id);
    }
    var gone := ExpiredFps(v.ids, env.now);
    RemovedAreCarried(v, gone, v.loaded - gone, v.hidden - gone, env.fault);
  }

  // ----- filing -----

  /** Every stored identity is filed under the fingerprint of its own public key. */
  ghost predicate Filed(p: Primitives, v: Vault) {
    forall id :: Stored(v, id) ==> id.fingerprint == p.fingerprint(id.publicKey)
  }

  lemma StepKeepsFiling(p: Primitives, v: Vault, c: Command, env: Env)
    requires Filed(p, v)
    ensures Filed(p, Apply(p, v, c, env).0)
  {
    StepComesFrom(p, v, c, env);
    forall id | Stored(Apply(p, v, c, env).0, id)
      ensures id.fingerprint == p.fingerprint(id.publicKey)
    {
      assert ComesFrom(p, v, c, env, id);
    }
  }

  lemma {:induction false} EveryRunKeepsFiling(p: Primitives, v: Vault, steps: seq<Step>)
    requires Filed(p, v)
    ensures Filed(p, Run(p, v, steps))
  {
    if steps == [] {
    } else {
      var front, last := steps[..|steps| - 1], steps[|steps| - 1];
      EveryRunKeepsFiling(p, v, front);
      StepKeepsFiling(p, Run(p, v, front), last.command, last.env);
    }
  }
}
