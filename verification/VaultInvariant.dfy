/** One master key underlies a vault: every reachable state seals its canary, its wrapped recovery
    copy and every stored blob under the same key, in memory and on disk. What a blob holds is the
    private key of its own public key exactly as long as no key with mismatched halves is added. */
module VaultInvariant {
  import opened Wrappers
  import opened Bytes
  import opened Crypto
  import opened IdentityList
  import opened Disk
  import opened Store
  import opened VaultMachine
  import opened Provenance

  /** The master key, and the key the recovery phrase derives when recovery is enabled. */
  datatype Secrets = Secrets(master: Block32, recovery: Option<Block32>)

  /** The identity is filed under its own fingerprint, and its blob opens under `key` alone and holds
      a key that can sign. Whose key that is, OwnKey says. */
  ghost predicate Readable(p: Primitives, key: Block32, id: Identity) {
    && id.fingerprint == p.fingerprint(id.publicKey)
    && DecryptBlob(p, key, id.encryptedBlob).Ok?
    && Holds(p, key, id.encryptedBlob, DecryptBlob(p, key, id.encryptedBlob).value)
    && var back := UnmarshalPrivateKey(p, DecryptBlob(p, key, id.encryptedBlob).value, p.typeOf(id.publicKey));
       back.Ok? && PublicOf(p, back.value).Some?
  }

  /** The blob holds the private key of the public key it is filed under. */
  ghost predicate OwnKey(p: Primitives, key: Block32, id: Identity) {
    && DecryptBlob(p, key, id.encryptedBlob).Ok?
    && var back := UnmarshalPrivateKey(p, DecryptBlob(p, key, id.encryptedBlob).value, p.typeOf(id.publicKey));
       back.Ok? && PublicOf(p, back.value) == Some(id.publicKey)
  }

  ghost predicate MetadataUnder(p: Primitives, s: Secrets, m: Metadata) {
    && m.salt != []
    && Holds(p, s.master, m.canary, CANARY_PLAINTEXT)
    && match s.recovery
       case None => m.recoverySalt == [] && m.wrappedMasterKey == []
       case Some(recovery) => m.recoverySalt != [] && Holds(p, recovery, m.wrappedMasterKey, s.master)
  }

  ghost predicate FileUnder(p: Primitives, s: Secrets, file: VaultFile) {
    && file.metadata.Some? && MetadataUnder(p, s, file.metadata.value)
    && Unique(file.identities)
    && forall i :: 0 <= i < |file.identities| ==> Readable(p, s.master, file.identities[i])
  }

  ghost predicate SessionSetsStored(v: Vault) {
    v.loaded <= Fps(v.ids) && v.hidden <= Fps(v.ids)
  }

  ghost predicate OneKey(p: Primitives, s: Secrets, v: Vault) {
    && FileUnder(p, s, VaultFile(v.metadata, v.ids))
    && v.disk.Some? && FileUnder(p, s, v.disk.value)
    && v.disk.value.metadata == v.metadata
    && (v.key.Some? ==> v.key.value == s.master)
    && SessionSetsStored(v)
  }

  // ----- creation -----

  lemma InitEstablishesOneKey(p: Primitives, passphrase: Bytes, salt: Salt, env: Env)
    requires Lawful(p)
    requires Init(p, Opened(None), passphrase, salt, env).1.None?
    ensures OneKey(p, Secrets(p.derive(passphrase, salt), None), Init(p, Opened(None), passphrase, salt, env).0)
  {
    EncryptHolds(p, p.derive(passphrase, salt), env.iv, CANARY_PLAINTEXT);
  }

  /** Enabling recovery derives a key from the passphrase it is given and never checks it against
      the canary. The recovery phrase opens this vault's own key exactly when that passphrase
      derives it. */
  lemma RecoveryKeepsOneKeyIff(p: Primitives, s: Secrets, v: Vault, passphrase: Bytes, mnemonic: Bytes,
      recoverySalt: Salt, env: Env)
    requires Lawful(p) && OneKey(p, s, v)
    requires EnableRecoveryWithPassphrase(p, v, passphrase, mnemonic, recoverySalt, env).1.None?
    ensures var after := EnableRecoveryWithPassphrase(p, v, passphrase, mnemonic, recoverySalt, env).0;
            OneKey(p, Secrets(s.master, Some(p.derive(mnemonic, recoverySalt))), after)
            <==> p.derive(passphrase, v.metadata.value.salt) == s.master
    ensures var after := EnableRecoveryWithPassphrase(p, v, passphrase, mnemonic, recoverySalt, env).0;
            MasterKeyRecovered(p, after.metadata, mnemonic) == Ok(p.derive(passphrase, v.metadata.value.salt))
  {
    EncryptHolds(p, p.derive(mnemonic, recoverySalt), env.iv, p.derive(passphrase, v.metadata.value.salt));
  }

  /** A concrete vault created under one passphrase with recovery enabled under another: the
      phrase then unlocks it with a key that is not the vault's. */
  lemma RecoveryUnderAnotherPassphrase(env: Env)
    requires env.fault.NoFault?
    ensures var salt: Salt := seq(16, _ => 0);
            var (created, e1) := Init(TOY, Opened(None), [1], salt, env);
            var (withRecovery, e2) := EnableRecoveryWithPassphrase(TOY, created, [], [2], salt, env);
            && e1.None? && e2.None?
            && MasterKeyFor(TOY, withRecovery.metadata, [1]) == Some(ONE_BLOCK)
            && MasterKeyRecovered(TOY, withRecovery.metadata, [2]) == Ok(ZERO_BLOCK)
            && ONE_BLOCK != ZERO_BLOCK
  {
    ToyIsLawful();
    assert ONE_BLOCK[0] != ZERO_BLOCK[0];
    var salt: Salt := seq(16, _ => 0);
    var created := Init(TOY, Opened(None), [1], salt, env).0;
    InitEstablishesOneKey(TOY, [1], salt, env);
    RecoveryKeepsOneKeyIff(TOY, Secrets(ONE_BLOCK, None), created, [], [2], salt, env);
  }

  // ----- unlocking -----

  /** Either way of unlocking yields the vault's one key or nothing at all. */
  lemma UnlockingYieldsTheOneKey(p: Primitives, s: Secrets, v: Vault, secret: Bytes)
    requires Lawful(p) && OneKey(p, s, v)
    ensures MasterKeyFor(p, v.metadata, secret) ==
            if p.derive(secret, v.metadata.value.salt) == s.master then Some(s.master) else None
    ensures MasterKeyRecovered(p, v.metadata, secret) ==
            if s.recovery.None? then Err(NoRecovery)
            else if p.derive(secret, v.metadata.value.recoverySalt) == s.recovery.value then Ok(s.master)
            else Err(WrongPassphrase)
  {
  }

  // ----- every step -----

  /** What an add stores is readable whatever its key, and holds its own key exactly when the key's
      halves agree. */
  lemma SealedIdentityIsReadable(p: Primitives, master: Block32, v: Vault, key: AddedKey, env: Env, id: Identity)
    requires Lawful(p) && v.key == Some(master) && Sealed(p, v, key, env, id)
    ensures Readable(p, master, id)
    ensures OwnKey(p, master, id) <==> Consistent(p, key.key)
  {
    EncryptHolds(p, master, env.iv, MarshalPrivateKey(p, key.key).value);
    StoredKeyReadsBack(p, key.key);
  }

  lemma PersistKeepsOneKey(p: Primitives, s: Secrets, v: Vault, fault: SaveFault)
    requires FileUnder(p, s, VaultFile(v.metadata, v.ids)) && SessionSetsStored(v)
    requires v.disk.Some? && FileUnder(p, s, v.disk.value) && v.disk.value.metadata == v.metadata
    requires v.key.Some? ==> v.key.value == s.master
    ensures OneKey(p, s, Persist(v, fault).0)
  {
  }

  lemma WithoutKeepsFile(p: Primitives, s: Secrets, metadata: Option<Metadata>, ids: seq<Identity>, gone: set<Fp>)
    requires FileUnder(p, s, VaultFile(metadata, ids))
    ensures FileUnder(p, s, VaultFile(metadata, Without(ids, gone)))
    ensures Fps(Without(ids, gone)) == Fps(ids) - gone
  {
    var after := Without(ids, gone);
    WithoutRefines(ids, gone);
    forall i | 0 <= i < |after|
      ensures Readable(p, s.master, after[i])
    {
      WithoutMembers(ids, gone);
      assert after[i] in ids;
    }
  }

  lemma PutKeepsFile(p: Primitives, s: Secrets, metadata: Option<Metadata>, ids: seq<Identity>, id: Identity)
    requires FileUnder(p, s, VaultFile(metadata, ids)) && Readable(p, s.master, id)
    ensures FileUnder(p, s, VaultFile(metadata, Put(ids, id)))
    ensures Fps(Put(ids, id)) == Fps(ids) + {id.fingerprint}
  {
    PutUnique(ids, id);
    PutMembers(ids, id);
  }

  lemma PurgeKeepsOneKey(p: Primitives, s: Secrets, v: Vault, env: Env)
    requires OneKey(p, s, v)
    ensures OneKey(p, s, Purge(v, env).0)
  {
    WithoutKeepsFile(p, s, v.metadata, v.ids, ExpiredFps(v.ids, env.now));
  }

  lemma AddKeepsOneKey(p: Primitives, s: Secrets, v: Vault, key: AddedKey, autoload: bool, filepath: Bytes, env: Env)
    requires Lawful(p) && OneKey(p, s, v)
    ensures OneKey(p, s, AddKey(p, v, key, autoload, filepath, env).0)
  {
    if PublicOf(p, key.key).Some? && v.key.Some? && MarshalPrivateKey(p, key.key).Some? {
      var publicKey := PublicOf(p, key.key).value;
      var blob := EncryptBlob(p, s.master, env.iv, MarshalPrivateKey(p, key.key).value).value;
      var id := NewIdentity(p, key, publicKey, blob, autoload, filepath, env.now);
      SealedIdentityIsReadable(p, s.master, v, key, env, id);
      StoringKeepsOneKey(p, s, v, id, env.fault);
    }
  }

  lemma StoringKeepsOneKey(p: Primitives, s: Secrets, v: Vault, id: Identity, fault: SaveFault)
    requires OneKey(p, s, v) && Readable(p, s.master, id)
    ensures OneKey(p, s, Persist(v.(ids := Put(v.ids, id)), fault).0)
    ensures id.fingerprint in Fps(Put(v.ids, id))
  {
    PutKeepsFile(p, s, v.metadata, v.ids, id);
    PersistKeepsOneKey(p, s, v.(ids := Put(v.ids, id)), fault);
  }

  lemma EditKeepsOneKey(p: Primitives, s: Secrets, v: Vault, fp: Fp, edited: Identity, fault: SaveFault)
    requires OneKey(p, s, v) && Find(v.ids, fp).Some?
    requires edited == Find(v.ids, fp).value.(comment := edited.comment, autoload := edited.autoload,
        addedAt := edited.addedAt)
    ensures OneKey(p, s, Persist(v.(ids := Put(v.ids, edited)), fault).0)
    ensures fp in Fps(v.ids) && Fps(Put(v.ids, edited)) == Fps(v.ids)
  {
    var id := Find(v.ids, fp).value;
    assert Readable(p, s.master, id) && Readable(p, s.master, edited);
    StoringKeepsOneKey(p, s, v, edited, fault);
    PutMembers(v.ids, edited);
    InFps(v.ids, fp);
    assert Fps(Put(v.ids, edited)) == Fps(v.ids);
  }

  lemma RemoveKeepsOneKey(p: Primitives, s: Secrets, v: Vault, publicKey: Bytes, env: Env)
    requires OneKey(p, s, v)
    ensures OneKey(p, s, RemoveKey(p, v, publicKey, env).0)
  {
    var fp := p.fingerprint(publicKey);
    WithoutKeepsFile(p, s, v.metadata, v.ids, {fp});
    PersistKeepsOneKey(p, s, v.(ids := Without(v.ids, {fp}), loaded := v.loaded - {fp}, hidden := v.hidden - {fp}),
        env.fault);
  }

  lemma FlagKeepsOneKey(p: Primitives, s: Secrets, v: Vault, fp: Fp, on: bool, env: Env)
    requires OneKey(p, s, v)
    ensures OneKey(p, s, SetAutoloadFlag(v, fp, on, env).0)
  {
    if Find(v.ids, fp).Some? {
      EditKeepsOneKey(p, s, v, fp, Find(v.ids, fp).value.(autoload := on, addedAt := env.now), env.fault);
    }
  }

  lemma CommentKeepsOneKey(p: Primitives, s: Secrets, v: Vault, fp: Fp, comment: Bytes, env: Env)
    requires OneKey(p, s, v)
    ensures OneKey(p, s, SetCommentText(v, fp, comment, env).0)
  {
    if Find(v.ids, fp).Some? {
      EditKeepsOneKey(p, s, v, fp, Find(v.ids, fp).value.(comment := comment, addedAt := env.now), env.fault);
    }
  }

  lemma SessionKeepsOneKey(p: Primitives, s: Secrets, v: Vault, fp: Fp)
    requires OneKey(p, s, v)
    ensures OneKey(p, s, LoadForSession(v, fp).0)
    ensures OneKey(p, s, UnloadForSession(v, fp).0)
  {
    InFps(v.ids, fp);
  }

  lemma StepKeepsOneKey(p: Primitives, s: Secrets, v: Vault, c: Command, env: Env)
    requires Lawful(p) && OneKey(p, s, v)
    ensures OneKey(p, s, Apply(p, v, c, env).0)
  {
    match c {
      case List => PurgeKeepsOneKey(p, s, v, env);
      case Sign(_) => PurgeKeepsOneKey(p, s, v, env);
      case Add(key) => AddKeepsOneKey(p, s, v, key, false, [], env);
      case AddWithOptions(key, autoload, filepath) => AddKeepsOneKey(p, s, v, key, autoload, filepath, env);
      case Remove(publicKey) => RemoveKeepsOneKey(p, s, v, publicKey, env);
      case SetAutoload(fp, on) => FlagKeepsOneKey(p, s, v, fp, on, env);
      case SetComment(fp, comment) => CommentKeepsOneKey(p, s, v, fp, comment, env);
      case Unlock(secret) => UnlockingYieldsTheOneKey(p, s, v, secret);
      case UnlockRecovery(secret) => UnlockingYieldsTheOneKey(p, s, v, secret);
      case SessionLoad(fp) => SessionKeepsOneKey(p, s, v, fp);
      case SessionUnload(fp) => SessionKeepsOneKey(p, s, v, fp);
      case _ =>
    }
  }

  /** One key in every reachable state, restarts and failed saves included, whatever keys are added. */
  lemma {:induction false} EveryRunKeepsOneKey(p: Primitives, s: Secrets, v: Vault, steps: seq<Step>)
    requires Lawful(p) && OneKey(p, s, v)
    ensures OneKey(p, s, Run(p, v, steps))
  {
    if steps == [] {
    } else {
      var front, last := steps[..|steps| - 1], steps[|steps| - 1];
      EveryRunKeepsOneKey(p, s, v, front);
      StepKeepsOneKey(p, s, Run(p, v, front), last.command, last.env);
    }
  }

  // ----- whose key a blob holds -----

  /** The command adds, under this fingerprint, a key whose halves disagree. */
  predicate AddsMismatched(p: Primitives, c: Command, fp: Fp) {
    Adds(p, c, fp) && !Consistent(p, AddedBy(c).value.key)
  }

  /** Every stored copy of this fingerprint holds its own key. */
  ghost predicate OwnKeyAt(p: Primitives, s: Secrets, v: Vault, fp: Fp) {
    forall id :: Stored(v, id) && id.fingerprint == fp ==> OwnKey(p, s.master, id)
  }

  /** Adding is the one thing that can make a blob hold another's key, and does exactly when the
      halves of the key added disagree, whether or not the save succeeds. */
  lemma AddStoresOwnKeyIff(p: Primitives, s: Secrets, v: Vault, key: AddedKey, autoload: bool, filepath: Bytes,
      env: Env)
    requires Lawful(p) && OneKey(p, s, v) && forall fp :: OwnKeyAt(p, s, v, fp)
    requires AddKey(p, v, key, autoload, filepath, env).1 in {Done, Failed(SaveFailed)}
    ensures var after := AddKey(p, v, key, autoload, filepath, env).0;
            && OneKey(p, s, after)
            && ((forall fp :: OwnKeyAt(p, s, after, fp)) <==> Consistent(p, key.key))
  {
    var after := AddKey(p, v, key, autoload, filepath, env).0;
    AddKeepsOneKey(p, s, v, key, autoload, filepath, env);
    if Consistent(p, key.key) {
      forall fp
        ensures OwnKeyAt(p, s, after, fp)
      {
        StepKeepsOwnKey(p, s, v, AddWithOptions(key, autoload, filepath), env, fp);
      }
    } else {
      var id := AddIsStored(p, v, key, autoload, filepath, env);
      SealedIdentityIsReadable(p, s.master, v, key, env, id);
      assert !OwnKeyAt(p, s, after, id.fingerprint);
    }
  }

  lemma StepKeepsOwnKey(p: Primitives, s: Secrets, v: Vault, c: Command, env: Env, fp: Fp)
    requires Lawful(p) && OneKey(p, s, v) && OwnKeyAt(p, s, v, fp) && !AddsMismatched(p, c, fp)
    ensures OwnKeyAt(p, s, Apply(p, v, c, env).0, fp)
  {
    StepComesFrom(p, v, c, env);
    forall id | Stored(Apply(p, v, c, env).0, id) && id.fingerprint == fp
      ensures OwnKey(p, s.master, id)
    {
      assert ComesFrom(p, v, c, env, id);
      if !Carried(v, id) {
        SealedIdentityIsReadable(p, s.master, v, AddedBy(c).value, env, id);
      }
    }
  }

  /** A stored identity goes on holding its own key through any run that adds no mismatched key under
      its fingerprint; mismatched keys under other fingerprints do not matter. */
  lemma {:induction false} EveryRunKeepsOwnKey(p: Primitives, s: Secrets, v: Vault, steps: seq<Step>, fp: Fp)
    requires Lawful(p) && OneKey(p, s, v) && OwnKeyAt(p, s, v, fp)
    requires forall i :: 0 <= i < |steps| ==> !AddsMismatched(p, steps[i].command, fp)
    ensures OwnKeyAt(p, s, Run(p, v, steps), fp)
  {
    if steps == [] {
    } else {
      var front, last := steps[..|steps| - 1], steps[|steps| - 1];
      EveryRunKeepsOwnKey(p, s, v, front, fp);
      EveryRunKeepsOneKey(p, s, v, front);
      StepKeepsOwnKey(p, s, Run(p, v, front), last.command, last.env, fp);
    }
  }

  // ----- from creation on -----

  lemma StepKeepsMetadata(p: Primitives, s: Secrets, v: Vault, c: Command, env: Env)
    requires OneKey(p, s, v)
    ensures Apply(p, v, c, env).0.metadata == v.metadata
  {
  }

  lemma {:induction false} EveryRunKeepsMetadata(p: Primitives, s: Secrets, v: Vault, steps: seq<Step>)
    requires Lawful(p) && OneKey(p, s, v)
    ensures Run(p, v, steps).metadata == v.metadata
  {
    if steps == [] {
    } else {
      var front, last := steps[..|steps| - 1], steps[|steps| - 1];
      EveryRunKeepsMetadata(p, s, v, front);
      EveryRunKeepsOneKey(p, s, v, front);
      StepKeepsMetadata(p, s, Run(p, v, front), last.command, last.env);
    }
  }

  /** A vault as it is created: initialised, and with recovery enabled under the same passphrase when
      there is a phrase. */
  ghost function Created(p: Primitives, passphrase: Bytes, salt: Salt, phrase: Option<(Bytes, Salt)>, env: Env,
      recoveryEnv: Env)
    : (r: (Vault, Option<SetupError>))
  {
    var (v, error) := Init(p, Opened(None), passphrase, salt, env);
    if error.Some? || phrase.None? then (v, error)
    else EnableRecoveryWithPassphrase(p, v, passphrase, phrase.value.0, phrase.value.1, recoveryEnv)
  }

  /** The secrets a vault is created with. */
  function SecretsOf(p: Primitives, passphrase: Bytes, salt: Salt, phrase: Option<(Bytes, Salt)>): (s: Secrets) {
    Secrets(p.derive(passphrase, salt),
            match phrase case None => None case Some((words, wordsSalt)) => Some(p.derive(words, wordsSalt)))
  }

  lemma CreationEstablishesOneKey(p: Primitives, passphrase: Bytes, salt: Salt, phrase: Option<(Bytes, Salt)>, env: Env,
                                  recoveryEnv: Env)
    requires Lawful(p) && Created(p, passphrase, salt, phrase, env, recoveryEnv).1.None?
    ensures var v := Created(p, passphrase, salt, phrase, env, recoveryEnv).0;
            && OneKey(p, SecretsOf(p, passphrase, salt, phrase), v)
            && (forall id :: !Stored(v, id))
            && v.metadata.value.salt == salt
            && (phrase.Some? ==> v.metadata.value.recoverySalt == phrase.value.1)
  {
    InitEstablishesOneKey(p, passphrase, salt, env);
    if phrase.Some? {
      var v := Init(p, Opened(None), passphrase, salt, env).0;
      RecoveryKeepsOneKeyIff(p, Secrets(p.derive(passphrase, salt), None), v, passphrase, phrase.value.0,
          phrase.value.1, recoveryEnv);
    }
  }

  /** From creation on, whatever is done to it, a vault has one key: its passphrase and its recovery
      phrase, if it has one, both unlock exactly that key in every state it can reach. */
  lemma CreatedVaultHasOneKey(p: Primitives, passphrase: Bytes, salt: Salt, phrase: Option<(Bytes, Salt)>, env: Env,
                              recoveryEnv: Env, steps: seq<Step>)
    requires Lawful(p) && Created(p, passphrase, salt, phrase, env, recoveryEnv).1.None?
    ensures var v := Run(p, Created(p, passphrase, salt, phrase, env, recoveryEnv).0, steps);
            && OneKey(p, SecretsOf(p, passphrase, salt, phrase), v)
            && MasterKeyFor(p, v.metadata, passphrase) == Some(p.derive(passphrase, salt))
            && (phrase.Some? ==> MasterKeyRecovered(p, v.metadata, phrase.value.0) == Ok(p.derive(passphrase, salt)))
            && forall fp :: (forall i :: 0 <= i < |steps| ==> !AddsMismatched(p, steps[i].command, fp)) ==>
                 OwnKeyAt(p, SecretsOf(p, passphrase, salt, phrase), v, fp)
  {
    var start := Created(p, passphrase, salt, phrase, env, recoveryEnv).0;
    var s := SecretsOf(p, passphrase, salt, phrase);
    CreationEstablishesOneKey(p, passphrase, salt, phrase, env, recoveryEnv);
    EveryRunKeepsOneKey(p, s, start, steps);
    EveryRunKeepsMetadata(p, s, start, steps);
    UnlockingYieldsTheOneKey(p, s, Run(p, start, steps), passphrase);
    if phrase.Some? { UnlockingYieldsTheOneKey(p, s, Run(p, start, steps), phrase.value.0); }
    forall fp | forall i :: 0 <= i < |steps| ==> !AddsMismatched(p, steps[i].command, fp)
      ensures OwnKeyAt(p, s, Run(p, start, steps), fp)
    {
      EveryRunKeepsOwnKey(p, s, start, steps, fp);
    }
  }
}
