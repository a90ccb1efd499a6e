/** VaultAgent: the running agent over a VaultStore, changed in place. Each method takes one step of
    the vault machine; the master key lives in a buffer that is wiped when it is given up. */
module RunningAgent {
  import opened Wrappers
  import opened Bytes
  import opened Crypto
  import opened IdentityList
  import opened Disk
  import opened Store
  import opened VaultMachine

  /** Derives the master key and proves it against the canary; a key that fails is wiped. */
  method MasterKeyFromPassphrase(p: Primitives, metadata: Option<Metadata>, passphrase: Bytes)
      returns (key: array?<byte>)
    ensures key != null ==> fresh(key)
    ensures (if key == null then None else Some(key[..])) == MasterKeyFor(p, metadata, passphrase)
  {
    if metadata.None? || metadata.value.salt == [] || metadata.value.canary == [] {
      return null;
    }
    var derived := p.derive(passphrase, metadata.value.salt);
    key := new byte[|derived|](i requires 0 <= i < |derived| => derived[i]);
    assert key[..] == derived;
    var canary := DecryptBlob(p, key[..], metadata.value.canary);
    if canary != Ok(CANARY_PLAINTEXT) {
      Wipe(key);
      return null;
    }
  }

  /** Reports whether a passphrase opens the vault, and leaves nothing changed. */
  method VerifyPassphrase(p: Primitives, store: VaultStore, passphrase: Bytes) returns (ok: bool)
    ensures ok == MasterKeyFor(p, store.metadata, passphrase).Some?
  {
    var metadata := store.GetMetadata();
    var key := MasterKeyFromPassphrase(p, metadata, passphrase);
    if key == null { return false; }
    Wipe(key);
    return true;
  }

  /** A store with no agent over it yet. */
  ghost function Unattended(store: VaultStore): (v: Vault)
    requires store.Valid()
    reads store, store.fs
  {
    Vault(store.metadata, store.identities, store.OnDisk(), None, {}, {})
  }

  method InitVault(p: Primitives, store: VaultStore, passphrase: Bytes, salt: Salt, env: Env)
      returns (error: Option<SetupError>)
    requires store.Valid()
    modifies store, store.fs
    ensures store.Valid()
    ensures (Unattended(store), error) == Init(p, old(Unattended(store)), passphrase, salt, env)
  {
    if !p.policyAccepts(passphrase) { return Some(PolicyRejects); }
    var canary := EncryptBlob(p, p.derive(passphrase, salt), env.iv, CANARY_PLAINTEXT);
    if canary.Err? { return Some(SetupCannotEncrypt); }
    store.SetMetadata(Some(Metadata(salt, canary.value, [], [], env.now)));
    var ok := store.Save(env.fault);
    error := if ok then None else Some(SetupSaveFailed);
  }

  method EnableRecoveryOn(p: Primitives, store: VaultStore, masterKey: Bytes, mnemonic: Bytes, recoverySalt: Salt,
      env: Env)
    returns (error: Option<SetupError>)
    requires store.Valid()
    modifies store, store.fs
    ensures store.Valid()
    ensures (Unattended(store), error) == EnableRecovery(p, old(Unattended(store)), masterKey, mnemonic,
        recoverySalt, env)
  {
    var wrapped := EncryptBlob(p, p.derive(mnemonic, recoverySalt), env.iv, masterKey);
    if wrapped.Err? { return Some(SetupCannotEncrypt); }
    var metadata := store.GetMetadata();
    if metadata.None? { return Some(NotInitialized); }
    store.SetMetadata(Some(metadata.value.(recoverySalt := recoverySalt, wrappedMasterKey := wrapped.value)));
    var ok := store.Save(env.fault);
    error := if ok then None else Some(SetupSaveFailed);
  }

  method EnableRecoveryOnWithPassphrase(p: Primitives, store: VaultStore, passphrase: Bytes, mnemonic: Bytes,
      recoverySalt: Salt, env: Env)
    returns (error: Option<SetupError>)
    requires store.Valid()
    modifies store, store.fs
    ensures store.Valid()
    ensures (Unattended(store), error)
            == EnableRecoveryWithPassphrase(p, old(Unattended(store)), passphrase, mnemonic, recoverySalt, env)
  {
    var metadata := store.GetMetadata();
    if metadata.None? || metadata.value.salt == [] { return Some(NotInitialized); }
    var masterKey := p.derive(passphrase, metadata.value.salt);
    error := EnableRecoveryOn(p, store, masterKey, mnemonic, recoverySalt, env);
  }

  ghost function Elements(fps: seq<Fp>): (r: set<Fp>) {
    set fp | fp in fps
  }

  lemma DroppedOneMore(ids: seq<Identity>, fps: seq<Fp>, i: nat)
    requires i < |fps|
    ensures Elements(fps[..i + 1]) == Elements(fps[..i]) + {fps[i]}
    ensures Without(Without(ids, Elements(fps[..i])), {fps[i]}) == Without(ids, Elements(fps[..i + 1]))
  {
    assert fps[..i + 1] == fps[..i] + [fps[i]];
    assert Elements(fps[..i + 1]) == Elements(fps[..i]) + {fps[i]};
    WithoutTwice(ids, Elements(fps[..i]), {fps[i]});
  }

  class VaultAgent {
    const prims: Primitives
    const store: VaultStore
    var masterKey: array?<byte>
    var sessionAutoload0: set<Fp>
    var sessionUnloaded: set<Fp>

    ghost predicate Valid()
      reads this, store, store.fs
    {
      store.Valid()
    }

    ghost function View(): (v: Vault)
      requires Valid()
      reads this, store, store.fs, masterKey
    {
      Vault(store.metadata, store.identities, store.OnDisk(),
            if masterKey == null then None else Some(masterKey[..]), sessionAutoload0, sessionUnloaded)
    }

    constructor (prims: Primitives, store: VaultStore)
      requires store.Valid()
      ensures Valid() && this.prims == prims && this.store == store
      ensures View() == Unattended(store)
    {
      this.prims, this.store := prims, store;
      masterKey, sessionAutoload0, sessionUnloaded := null, {}, {};
    }

    /** The store as it stands, saved; the session sets and key are not touched. */
    method Persisted(env: Env) returns (reply: Reply)
      requires Valid()
      modifies store.fs
      ensures Valid()
      ensures (View(), reply) == Persist(old(View()), env.fault)
    {
      var ok := store.Save(env.fault);
      reply := if ok then Done else Failed(SaveFailed);
    }

    /** The first loop of purgeExpired: the fingerprints whose lifetime has elapsed. */
    method CollectExpired(now: int) returns (expired: seq<Fp>)
      ensures Elements(expired) == ExpiredFps(store.identities, now)
    {
      var ids := store.AllIdentities();
      expired := [];
      for i := 0 to |ids|
        invariant forall k :: 0 <= k < |expired| ==> expired[k] in ExpiredFps(store.identities, now)
        invariant forall j :: 0 <= j < i && Expired(ids[j], now) ==> ids[j].fingerprint in expired
      {
        if ids[i].expiresAt.Some? && now > ids[i].expiresAt.value {
          assert ids[i] in store.identities && Expired(ids[i], now);
          expired := expired + [ids[i].fingerprint];
        }
      }
    }

    /** The second loop: each expired fingerprint leaves the store and both session sets. */
    method DropAll(expired: seq<Fp>)
      modifies this`sessionAutoload0, this`sessionUnloaded, store
      ensures store.metadata == old(store.metadata)
      ensures store.identities == Without(old(store.identities), Elements(expired))
      ensures sessionAutoload0 == old(sessionAutoload0) - Elements(expired)
      ensures sessionUnloaded == old(sessionUnloaded) - Elements(expired)
    {
      WithoutNothing(store.identities, Elements(expired[..0]));
      for i := 0 to |expired|
        invariant store.metadata == old(store.metadata)
        invariant store.identities == Without(old(store.identities), Elements(expired[..i]))
        invariant sessionAutoload0 == old(sessionAutoload0) - Elements(expired[..i])
        invariant sessionUnloaded == old(sessionUnloaded) - Elements(expired[..i])
      {
        var fp := expired[i];
        var _ := store.RemoveIdentity(fp);
        sessionAutoload0 := sessionAutoload0 - {fp};
        sessionUnloaded := sessionUnloaded - {fp};
        DroppedOneMore(old(store.identities), expired, i);
      }
      assert expired[..|expired|] == expired;
    }

    method PurgeExpired(env: Env) returns (reply: Reply)
      requires Valid()
      modifies this`sessionAutoload0, this`sessionUnloaded, store, store.fs
      ensures Valid()
      ensures (View(), reply) == Purge(old(View()), env)
    {
      if masterKey == null { return Done; }
      var expired := CollectExpired(env.now);
      if |expired| == 0 { return Done; }
      assert expired[0] in Elements(expired);
      DropAll(expired);
      reply := Persisted(env);
    }

    method List(env: Env) returns (reply: Reply)
      requires Valid()
      modifies this`sessionAutoload0, this`sessionUnloaded, store, store.fs
      ensures Valid()
      ensures (View(), reply) == Apply(prims, old(View()), Command.List, env)
    {
      reply := PurgeExpired(env);
      if reply.Failed? { return; }
      if masterKey == null { return Keys([]); }
      var sessionSet, hiddenSet := sessionAutoload0, sessionUnloaded;
      var rows := store.ListIdentitiesForAgent(sessionSet, hiddenSet);
      ghost var now := View();
      RowsAgree(store.identities,
        (id: Identity) => if id.autoload then id.fingerprint !in hiddenSet else id.fingerprint in sessionSet,
        (id: Identity) => Listed(now, id));
      reply := Keys(rows);
    }

    method Add(key: AddedKey, env: Env) returns (reply: Reply)
      requires Valid()
      modifies this`sessionAutoload0, store, store.fs
      ensures Valid()
      ensures (View(), reply) == Apply(prims, old(View()), Command.Add(key), env)
    {
      if key.confirmBeforeUse { return Failed(ConfirmUnsupported); }
      if key.constraintExtensions > 0 { return Failed(ExtensionsUnsupported); }
      if key.certificate { return Failed(CertificateUnsupported); }
      reply := AddKeyWithAutoload(key, false, [], env);
    }

    method AddKeyWithAutoload(key: AddedKey, autoload: bool, filepath: Bytes, env: Env) returns (reply: Reply)
      requires Valid()
      modifies this`sessionAutoload0, store, store.fs
      ensures Valid()
      ensures (View(), reply) == AddKey(prims, old(View()), key, autoload, filepath, env)
    {
      var publicKey := PublicOf(prims, key.key);
      if publicKey.None? { return Failed(NoSigner); }
      var fp := prims.fingerprint(publicKey.value);
      if masterKey == null { return Failed(Locked); }
      var plain := MarshalPrivateKey(prims, key.key);
      if plain.None? { return Failed(CannotMarshal); }
      var encrypted := EncryptBlob(prims, masterKey[..], env.iv, plain.value);
      if encrypted.Err? { return Failed(CannotEncrypt); }
      var id := Identity(fp, publicKey.value, encrypted.value, key.comment, filepath, [], 0, autoload, None);
      if key.lifetimeSecs > 0 {
        id := id.(expiresAt := Some(env.now + key.lifetimeSecs * NANOS_PER_SECOND));
      }
      store.AddOrReplaceIdentity(id, env.now);
      reply := Persisted(env);
      if reply.Failed? { return; }
      if !autoload {
        sessionAutoload0 := sessionAutoload0 + {fp};
      }
    }

    method Remove(publicKey: Bytes, env: Env) returns (reply: Reply)
      requires Valid()
      modifies this`sessionAutoload0, this`sessionUnloaded, store, store.fs
      ensures Valid()
      ensures (View(), reply) == Apply(prims, old(View()), Command.Remove(publicKey), env)
    {
      if masterKey == null { return Failed(Locked); }
      var fp := prims.fingerprint(publicKey);
      var removed := store.RemoveIdentity(fp);
      sessionAutoload0 := sessionAutoload0 - {fp};
      sessionUnloaded := sessionUnloaded - {fp};
      if !removed { return Failed(KeyNotFound); }
      reply := Persisted(env);
    }

    method RemoveAll(env: Env) returns (reply: Reply)
      requires Valid()
      modifies this`sessionAutoload0, this`sessionUnloaded, store, store.fs
      ensures Valid()
      ensures (View(), reply) == Apply(prims, old(View()), Command.RemoveAll, env)
    {
      if masterKey == null { return Failed(Locked); }
      store.RemoveAllIdentities();
      sessionAutoload0, sessionUnloaded := {}, {};
      reply := Persisted(env);
    }

    /** The key buffer is zeroed before it is dropped. */
    method Lock(env: Env) returns (reply: Reply)
      requires Valid()
      modifies this`masterKey, masterKey
      ensures Valid()
      ensures (View(), reply) == Apply(prims, old(View()), Command.Lock, env)
      ensures old(masterKey) != null ==> forall i :: 0 <= i < old(masterKey).Length ==> old(masterKey)[i] == 0
    {
      if masterKey == null { return Failed(AgentLocked); }
      Wipe(masterKey);
      masterKey := null;
      reply := Done;
    }

    /** A vault that is already unlocked has its key replaced, and the old buffer zeroed. */
    method UnlockWithRecovery(mnemonic: Bytes, env: Env) returns (reply: Reply)
      requires Valid()
      modifies this`masterKey, masterKey
      ensures Valid()
      ensures (View(), reply) == Apply(prims, old(View()), Command.UnlockRecovery(mnemonic), env)
      ensures masterKey == old(masterKey) || fresh(masterKey)
      ensures old(masterKey) != null && reply.Done? ==> forall i :: 0 <= i < old(masterKey).Length ==>
          old(masterKey)[i] == 0
    {
      var metadata := store.GetMetadata();
      if metadata.None? || metadata.value.recoverySalt == [] || metadata.value.wrappedMasterKey == [] {
        return Failed(NoRecovery);
      }
      var recoveryKey := prims.derive(mnemonic, metadata.value.recoverySalt);
      var unwrapped := DecryptBlob(prims, recoveryKey, metadata.value.wrappedMasterKey);
      if unwrapped.Err? { return Failed(WrongPassphrase); }
      var key := new byte[|unwrapped.value|](i requires 0 <= i < |unwrapped.value| => unwrapped.value[i]);
      if masterKey != null {
        Wipe(masterKey);
      }
      masterKey := key;
      assert key[..] == unwrapped.value;
      reply := Done;
    }

    method Unlock(passphrase: Bytes, env: Env) returns (reply: Reply)
      requires Valid()
      modifies this`masterKey
      ensures Valid()
      ensures (View(), reply) == Apply(prims, old(View()), Command.Unlock(passphrase), env)
      ensures masterKey == old(masterKey) || fresh(masterKey)
    {
      if masterKey != null { return Failed(AgentNotLocked); }
      var metadata := store.GetMetadata();
      var key := MasterKeyFromPassphrase(prims, metadata, passphrase);
      if key == null { return Failed(WrongPassphrase); }
      masterKey := key;
      reply := Done;
    }

    method SignerForKey(publicKey: Bytes) returns (reply: Reply)
      requires Valid()
      ensures reply == SignerFor(prims, View(), publicKey)
    {
      if masterKey == null { return Failed(Locked); }
      var fp := prims.fingerprint(publicKey);
      var encrypted, autoload, found := store.GetIdentity(fp);
      var inSession := fp in sessionAutoload0;
      if !found { return Failed(KeyNotFound); }
      if !autoload && !inSession { return Failed(KeyNotFound); }
      var plain := DecryptBlob(prims, masterKey[..], encrypted);
      if plain.Err? { return Failed(CannotDecrypt); }
      var key := UnmarshalPrivateKey(prims, plain.value, prims.typeOf(publicKey));
      if key.Err? { return Failed(CannotUnmarshal); }
      if PublicOf(prims, key.value).None? { return Failed(NoSigner); }
      reply := Signer(key.value);
    }

    method Sign(publicKey: Bytes, env: Env) returns (reply: Reply)
      requires Valid()
      modifies this`sessionAutoload0, this`sessionUnloaded, store, store.fs
      ensures Valid()
      ensures (View(), reply) == Apply(prims, old(View()), Command.Sign(publicKey), env)
    {
      reply := PurgeExpired(env);
      if reply.Failed? { return; }
      reply := SignerForKey(publicKey);
    }

    method SessionLoad(fp: Fp) returns (reply: Reply)
      requires Valid()
      modifies this`sessionAutoload0, this`sessionUnloaded
      ensures Valid()
      ensures (View(), reply) == LoadForSession(old(View()), fp)
    {
      if masterKey == null { return Failed(Locked); }
      var _, autoload, found := store.GetIdentity(fp);
      if !found { return Failed(KeyNotFound); }
      sessionUnloaded := sessionUnloaded - {fp};
      if autoload { return Done; }
      sessionAutoload0 := sessionAutoload0 + {fp};
      reply := Done;
    }

    method SessionUnload(fp: Fp) returns (reply: Reply)
      requires Valid()
      modifies this`sessionAutoload0, this`sessionUnloaded
      ensures Valid()
      ensures (View(), reply) == UnloadForSession(old(View()), fp)
    {
      if masterKey == null { return Failed(Locked); }
      var _, _, found := store.GetIdentity(fp);
      if !found { return Failed(KeyNotFound); }
      sessionAutoload0 := sessionAutoload0 - {fp};
      sessionUnloaded := sessionUnloaded + {fp};
      reply := Done;
    }

    /** The search both edits make over a copy of the list. */
    method FindIdentity(fp: Fp) returns (found: Option<Identity>)
      ensures found == Find(store.identities, fp)
    {
      var ids := store.AllIdentities();
      for i := 0 to |ids|
        invariant forall j :: 0 <= j < i ==> ids[j].fingerprint != fp
      {
        if ids[i].fingerprint == fp {
          FirstAt(ids, fp, i);
          return Some(ids[i]);
        }
      }
      return None;
    }

    method SetIdentityAutoload(fp: Fp, on: bool, env: Env) returns (reply: Reply)
      requires Valid()
      modifies this`sessionAutoload0, this`sessionUnloaded, store, store.fs
      ensures Valid()
      ensures (View(), reply) == SetAutoloadFlag(old(View()), fp, on, env)
    {
      if masterKey == null { return Failed(Locked); }
      var found := FindIdentity(fp);
      if found.None? { return Failed(KeyNotFound); }
      var id := found.value;
      if id.autoload == on { return Done; }
      id := id.(autoload := on);
      store.AddOrReplaceIdentity(id, env.now);
      reply := Persisted(env);
      if reply.Failed? { return; }
      if on {
        sessionAutoload0 := sessionAutoload0 - {fp};
      }
      sessionUnloaded := sessionUnloaded - {fp};
    }

    method SetIdentityComment(fp: Fp, comment: Bytes, env: Env) returns (reply: Reply)
      requires Valid()
      modifies store, store.fs
      ensures Valid()
      ensures (View(), reply) == SetCommentText(old(View()), fp, comment, env)
    {
      if masterKey == null { return Failed(Locked); }
      var found := FindIdentity(fp);
      if found.None? { return Failed(KeyNotFound); }
      var id := found.value;
      if id.comment == comment { return Done; }
      id := id.(comment := comment);
      store.AddOrReplaceIdentity(id, env.now);
      reply := Persisted(env);
    }
  }
}
