/** When each operation of the vault agent succeeds, with which error it fails, and what it leaves behind
    either way. */
module VaultOutcomes {
  import opened Wrappers
  import opened Bytes
  import opened Crypto
  import opened IdentityList
  import opened Disk
  import opened Store
  import opened VaultMachine
  import opened Provenance
  import opened VaultInvariant
  import opened VaultBehaviour

  /** A save reaches the file unless a step before the rename's end fails. */
  predicate Lands(fault: SaveFault) {
    fault.NoFault? || fault.ChmodFails?
  }

  // ----- locking and unlocking -----

  /** Locking forgets the key and nothing else, and can be undone by passphrase or by phrase: the exact
      earlier vault is back. A locked vault refuses to be locked. */
  lemma LockThenUnlockRestores(p: Primitives, s: Secrets, v: Vault, secret: Bytes, env: Env)
    requires Lawful(p) && OneKey(p, s, v)
    ensures v.key.None? ==> Apply(p, v, Lock, env) == (v, Failed(AgentLocked))
    ensures v.key.Some? ==>
              var (locked, reply) := Apply(p, v, Lock, env);
              && reply == Done && locked.key == None
              && (p.derive(secret, v.metadata.value.salt) == s.master ==>
                    Apply(p, locked, Unlock(secret), env) == (v, Done))
              && (RightPhrase(p, s, v, secret) ==> Apply(p, locked, UnlockRecovery(secret), env) == (v, Done))
  {
    UnlockingYieldsTheOneKey(p, s, v, secret);
  }

  ghost predicate RightPhrase(p: Primitives, s: Secrets, v: Vault, phrase: Bytes)
    requires OneKey(p, s, v)
  {
    s.recovery.Some? && p.derive(phrase, v.metadata.value.recoverySalt) == s.recovery.value
  }

  /** A passphrase unlocks a locked vault exactly when it derives the vault's key, and installs that key;
      otherwise nothing changes. An unlocked vault refuses whatever the passphrase. */
  lemma UnlockInstallsTheKey(p: Primitives, s: Secrets, v: Vault, passphrase: Bytes, env: Env)
    requires Lawful(p) && OneKey(p, s, v)
    ensures Apply(p, v, Unlock(passphrase), env) ==
            if v.key.Some? then (v, Failed(AgentNotLocked))
            else if p.derive(passphrase, v.metadata.value.salt) == s.master then (v.(key := Some(s.master)), Done)
            else (v, Failed(WrongPassphrase))
  {
    UnlockingYieldsTheOneKey(p, s, v, passphrase);
  }

  /** The right phrase leaves the vault unlocked under its one key, from locked or unlocked alike, and
      changes nothing else; any other phrase changes nothing and is told apart from a vault without one. */
  lemma RecoveryInstallsTheKey(p: Primitives, s: Secrets, v: Vault, phrase: Bytes, env: Env)
    requires Lawful(p) && OneKey(p, s, v)
    ensures Apply(p, v, UnlockRecovery(phrase), env) ==
            if RightPhrase(p, s, v, phrase) then (v.(key := Some(s.master)), Done)
            else (v, Failed(if s.recovery.None? then NoRecovery else WrongPassphrase))
  {
    UnlockingYieldsTheOneKey(p, s, v, phrase);
  }

  /** A store that was never initialised can be opened by nothing. */
  lemma UninitialisedStaysLocked(p: Primitives, v: Vault, secret: Bytes, env: Env)
    requires v.metadata.None? && v.key.None?
    ensures Apply(p, v, Unlock(secret), env) == (v, Failed(WrongPassphrase))
    ensures Apply(p, v, UnlockRecovery(secret), env) == (v, Failed(NoRecovery))
  {
  }

  /** End to end: once the right phrase is given, whatever the vault then lists it signs for. */
  lemma RecoveredVaultSigns(p: Primitives, s: Secrets, v: Vault, phrase: Bytes, id: Identity, env: Env)
    requires Lawful(p) && OneKey(p, s, v) && RightPhrase(p, s, v, phrase)
    requires id in v.ids && PurgeSucceeds(v, env)
    ensures var after := Apply(p, v, UnlockRecovery(phrase), env).0;
            var listing := Apply(p, after, List, env).1;
            && listing.Keys?
            && (Row(id.publicKey, id.comment) in listing.rows ==> Apply(p, after, Sign(id.publicKey), env).1.Signer?)
  {
    RecoveryInstallsTheKey(p, s, v, phrase, env);
    var after := v.(key := Some(s.master));
    assert OneKey(p, s, after);
    ListingAndSigningAgreeButForHidden(p, s, after, [], id, env);
  }

  // ----- creation -----

  /** Creating a vault fails exactly when the policy refuses the passphrase, or the save fails; enabling
      recovery, exactly when the vault is not initialised, or the save fails. A refusal changes nothing. */
  lemma CreationOutcome(p: Primitives, v: Vault, passphrase: Bytes, mnemonic: Bytes, salt: Salt, env: Env)
    requires Lawful(p)
    ensures var (after, error) := Init(p, v, passphrase, salt, env);
            && (error.None? <==> p.policyAccepts(passphrase) && env.fault.NoFault?)
            && (error == Some(PolicyRejects) <==> !p.policyAccepts(passphrase))
            && (error == Some(PolicyRejects) ==> after == v)
            && (error.None? ==> after.metadata.Some? && after.ids == v.ids)
            && (error.None? ==> after.metadata.value.salt == salt && after.metadata.value.createdAt == env.now)
    ensures var (after, error) := EnableRecoveryWithPassphrase(p, v, passphrase, mnemonic, salt, env);
            var initialised := v.metadata.Some? && v.metadata.value.salt != [];
            && (error.None? <==> initialised && env.fault.NoFault?)
            && (error == Some(NotInitialized) <==> !initialised)
            && (error == Some(NotInitialized) ==> after == v)
            && (error.None? ==> after.metadata.Some? && after.ids == v.ids)
            && (error.None? ==> after.metadata.value.recoverySalt == salt)
            && (error.None? ==> v.metadata.value == after.metadata.value.(
                  recoverySalt := v.metadata.value.recoverySalt, wrappedMasterKey := v.metadata.value.wrappedMasterKey))
  {
  }

  // ----- adding -----

  /** A key the vault can sign with and store: any Ed25519 key, and any other that has a public half and
      that PKCS#8 takes. */
  predicate Storable(p: Primitives, key: PrivateKey) {
    PublicOf(p, key).Some? && (key.Ed25519? || p.toPkcs8(key.material).Some?)
  }

  /** Every reason an add can fail, and when. Only a failed save changes anything: the store then holds
      the new identity and the session sets do not know it. */
  lemma AddOutcome(p: Primitives, v: Vault, key: AddedKey, autoload: bool, filepath: Bytes, env: Env)
    ensures var (after, reply) := Apply(p, v, AddWithOptions(key, autoload, filepath), env);
            var ready := v.key.Some? && Storable(p, key.key);
            && (reply == Done <==> ready && |v.key.value| == 32 && env.fault.NoFault?)
            && (reply == Failed(NoSigner) <==> PublicOf(p, key.key).None?)
            && (reply == Failed(Locked) <==> v.key.None? && PublicOf(p, key.key).Some?)
            && (reply == Failed(CannotMarshal) <==>
                  v.key.Some? && PublicOf(p, key.key).Some? && !Storable(p, key.key))
            && (reply == Failed(CannotEncrypt) <==> ready && |v.key.value| != 32)
            && (reply == Failed(SaveFailed) <==> ready && |v.key.value| == 32 && !env.fault.NoFault?)
            && (reply.Done? || reply == Failed(SaveFailed) || after == v)
  {
  }

  /** A save that fails leaves the added identity in memory, under the sessions sets as they were. */
  lemma UnsavedAddEffect(p: Primitives, v: Vault, key: AddedKey, autoload: bool, filepath: Bytes, env: Env)
    requires Apply(p, v, AddWithOptions(key, autoload, filepath), env).1 == Failed(SaveFailed)
    ensures var after := Apply(p, v, AddWithOptions(key, autoload, filepath), env).0;
            var saved := AddKey(p, v, key, autoload, filepath, env.(fault := NoFault)).0;
            && after.ids == saved.ids && after.loaded == v.loaded && after.hidden == v.hidden && after.key == v.key
            && after.disk == if Lands(env.fault) then saved.disk else v.disk
  {
  }

  /** A plain add with a constraint the vault cannot honour is refused, for the first such constraint, in
      any state and without change; any other adds for the session. */
  lemma ConstrainedAddIsRefused(p: Primitives, v: Vault, key: AddedKey, env: Env)
    ensures var constrained := key.confirmBeforeUse || key.constraintExtensions > 0 || key.certificate;
            var refusals := {Failed(ConfirmUnsupported), Failed(ExtensionsUnsupported), Failed(CertificateUnsupported)};
            var (after, reply) := Apply(p, v, Add(key), env);
            && (reply in refusals <==> constrained)
            && (constrained ==> after == v)
            && (!constrained ==> (after, reply) == Apply(p, v, AddWithOptions(key, false, []), env))
            && (reply == Failed(ConfirmUnsupported) <==> key.confirmBeforeUse)
            && (reply == Failed(ExtensionsUnsupported) <==> !key.confirmBeforeUse && key.constraintExtensions > 0)
  {
  }

  // ----- removing -----

  /** When a removal fails, and how. */
  lemma RemoveOutcome(p: Primitives, v: Vault, publicKey: Bytes, env: Env)
    ensures var (after, reply) := Apply(p, v, Remove(publicKey), env);
            var stored := Find(v.ids, p.fingerprint(publicKey)).Some?;
            && (reply == Done <==> v.key.Some? && stored && env.fault.NoFault?)
            && (reply == Failed(Locked) <==> v.key.None?)
            && (reply == Failed(KeyNotFound) <==> v.key.Some? && !stored)
            && (reply == Failed(SaveFailed) <==> v.key.Some? && stored && !env.fault.NoFault?)
            && (reply == Failed(Locked) ==> after == v)
  {
  }

  /** What a removal that fails leaves: without a stored identity, the vault as it was; when only the save
      failed, a vault that no longer has the identity and a file that still may. */
  lemma FailedRemovalEffect(p: Primitives, v: Vault, publicKey: Bytes, env: Env)
    requires v.key.Some?
    ensures var (after, fp) := (RemoveKey(p, v, publicKey, env).0, p.fingerprint(publicKey));
            && (Find(v.ids, fp).None? && SessionSetsStored(v) ==> after == v)
            && Find(after.ids, fp).None?
            && (Find(v.ids, fp).Some? && !env.fault.NoFault? ==>
                  after.disk == if Lands(env.fault) then Some(VaultFile(after.metadata, after.ids)) else v.disk)
  {
    var fp := p.fingerprint(publicKey);
    FindAfterWithout(v.ids, {fp}, fp);
    if Find(v.ids, fp).None? {
      WithoutNothing(v.ids, {fp});
      InFps(v.ids, fp);
    }
  }

  /** Removing all leaves an unlocked vault without any identity, in memory and, if the save lands, in the
      file, and with empty session sets; the key and the metadata stay. */
  lemma RemoveAllEffect(p: Primitives, v: Vault, env: Env)
    ensures v.key.None? ==> Apply(p, v, RemoveAll, env) == (v, Failed(Locked))
    ensures v.key.Some? ==>
              var (after, reply) := Apply(p, v, RemoveAll, env);
              && reply == (if env.fault.NoFault? then Done else Failed(SaveFailed))
              && (forall fp :: Find(after.ids, fp).None? && !Shows(after, fp) && !CanSign(after, fp))
              && Listing(after) == [] && after.loaded == {} && after.hidden == {}
              && after.disk == (if Lands(env.fault) then Some(VaultFile(v.metadata, [])) else v.disk)
              && after.key == v.key && after.metadata == v.metadata
  {
  }

  // ----- the session -----

  lemma SessionCommands(p: Primitives, v: Vault, fp: Fp, on: bool, env: Env)
    ensures Apply(p, v, SessionLoad(fp), env) == LoadForSession(v, fp)
    ensures Apply(p, v, SessionUnload(fp), env) == UnloadForSession(v, fp)
    ensures Apply(p, v, SetAutoload(fp, on), env) == SetAutoloadFlag(v, fp, on, env)
  {
  }

  /** Loading and unloading succeed exactly for a stored identity of an unlocked vault, and otherwise
      change nothing. */
  lemma SessionOutcome(p: Primitives, v: Vault, fp: Fp, env: Env)
    ensures forall c :: c in {SessionLoad(fp), SessionUnload(fp)} ==>
              var (after, reply) := Apply(p, v, c, env);
              && (reply == Done <==> v.key.Some? && Find(v.ids, fp).Some?)
              && (reply == Failed(Locked) <==> v.key.None?)
              && (reply == Failed(KeyNotFound) <==> v.key.Some? && Find(v.ids, fp).None?)
              && (reply.Done? || after == v)
  {
  }

  /** A key loaded for the session and then set to autoload is no longer loaded: turning autoload off again
      hides it and stops it signing. */
  lemma AutoloadEndsTheLoading(v: Vault, fp: Fp, env: Env)
    requires v.key.Some? && Find(v.ids, fp).Some? && !Find(v.ids, fp).value.autoload && env.fault.NoFault?
    ensures var loaded := LoadForSession(v, fp).0;
            var on := SetAutoloadFlag(loaded, fp, true, env).0;
            var off := SetAutoloadFlag(on, fp, false, env).0;
            && Shows(loaded, fp) && Shows(on, fp) && !Shows(off, fp) && !CanSign(off, fp)
  {
    var loaded := LoadForSession(v, fp).0;
    var on := SetAutoloadFlag(loaded, fp, true, env).0;
    SetAutoloadEffect(loaded, fp, true, env);
    FindAfterPut(v.ids, Find(v.ids, fp).value.(autoload := true, addedAt := env.now), fp);
    SetAutoloadEffect(on, fp, false, env);
  }

  /** Loading an autoload key only unhides it: once its autoload is turned off it is gone from the session,
      unless it was loaded before. */
  lemma LoadingAnAutoloadKeyIsNotKept(v: Vault, fp: Fp, env: Env)
    requires v.key.Some? && Find(v.ids, fp).Some? && Find(v.ids, fp).value.autoload && env.fault.NoFault?
    ensures var loaded := LoadForSession(v, fp).0;
            var off := SetAutoloadFlag(loaded, fp, false, env).0;
            Shows(loaded, fp) && (Shows(off, fp) <==> fp in v.loaded)
  {
    SetAutoloadEffect(LoadForSession(v, fp).0, fp, false, env);
  }

  /** Unloading is remembered whatever the flag: added again with autoload, the key stays out of the list,
      and signs all the same, until it is loaded. */
  lemma UnloadingOutlastsAReAdd(p: Primitives, v: Vault, key: AddedKey, fp: Fp, filepath: Bytes, env: Env)
    requires PublicOf(p, key.key).Some? && p.fingerprint(PublicOf(p, key.key).value) == fp
    requires UnloadForSession(v, fp).1.Done?
    requires AddKey(p, UnloadForSession(v, fp).0, key, true, filepath, env).1.Done?
    ensures var unloaded := UnloadForSession(v, fp).0;
            var added := AddKey(p, unloaded, key, true, filepath, env).0;
            && !Shows(unloaded, fp) && !Shows(added, fp) && CanSign(added, fp)
            && LoadForSession(added, fp).1.Done? && Shows(LoadForSession(added, fp).0, fp)
  {
    var unloaded := UnloadForSession(v, fp).0;
    assert fp in unloaded.hidden;
    AddEffect(p, unloaded, key, true, filepath, env);
    assert AddKey(p, unloaded, key, true, filepath, env).0.key.Some?;
  }

  // ----- edits -----

  /** When setting the flag fails, and how. A flag already so set is Done without a save; a failed save has
      changed the store and not the session. */
  lemma SetAutoloadOutcome(p: Primitives, v: Vault, fp: Fp, on: bool, env: Env)
    ensures var (after, reply) := Apply(p, v, SetAutoload(fp, on), env);
            var found := Find(v.ids, fp);
            var idle := found.Some? && found.value.autoload == on;
            && (reply == Done <==> v.key.Some? && found.Some? && (idle || env.fault.NoFault?))
            && (reply == Failed(Locked) <==> v.key.None?)
            && (reply == Failed(KeyNotFound) <==> v.key.Some? && found.None?)
            && (reply == Failed(SaveFailed) <==> v.key.Some? && found.Some? && !idle && !env.fault.NoFault?)
            && (idle || reply in {Failed(Locked), Failed(KeyNotFound)} ==> after == v)
            && (reply == Failed(SaveFailed) ==>
                  && Find(after.ids, fp) == Some(found.value.(autoload := on, addedAt := env.now))
                  && after.loaded == v.loaded && after.hidden == v.hidden
                  && (after.disk == if Lands(env.fault) then Some(VaultFile(after.metadata, after.ids)) else v.disk))
  {
    if Find(v.ids, fp).Some? {
      FindAfterPut(v.ids, Find(v.ids, fp).value.(autoload := on, addedAt := env.now), fp);
    }
  }

  /** The same of the comment. Every text is allowed, the empty one included. */
  lemma SetCommentOutcome(p: Primitives, v: Vault, fp: Fp, comment: Bytes, env: Env)
    ensures var (after, reply) := Apply(p, v, SetComment(fp, comment), env);
            var found := Find(v.ids, fp);
            var idle := found.Some? && found.value.comment == comment;
            && (reply == Done <==> v.key.Some? && found.Some? && (idle || env.fault.NoFault?))
            && (reply == Failed(Locked) <==> v.key.None?)
            && (reply == Failed(KeyNotFound) <==> v.key.Some? && found.None?)
            && (reply == Failed(SaveFailed) <==> v.key.Some? && found.Some? && !idle && !env.fault.NoFault?)
            && (idle || reply in {Failed(Locked), Failed(KeyNotFound)} ==> after == v)
            && (reply == Failed(SaveFailed) ==>
                  && Find(after.ids, fp) == Some(found.value.(comment := comment, addedAt := env.now))
                  && (after.disk == if Lands(env.fault) then Some(VaultFile(after.metadata, after.ids)) else v.disk))
  {
    if Find(v.ids, fp).Some? {
      FindAfterPut(v.ids, Find(v.ids, fp).value.(comment := comment, addedAt := env.now), fp);
    }
  }

  // ----- listing and signing -----

  /** Listing and signing change the vault alike: they drop the expired, and nothing when nothing has
      expired or the vault is locked. What is dropped is saved. */
  lemma ReadingOnlyPurges(p: Primitives, v: Vault, publicKey: Bytes, env: Env)
    ensures var after := Apply(p, v, List, env).0;
            && after == Apply(p, v, Sign(publicKey), env).0
            && after.key == v.key && after.metadata == v.metadata
            && (v.key.None? || (forall id :: id in v.ids ==> InLifetime(id, env.now)) ==> after == v)
            && (after.ids != v.ids && Lands(env.fault) ==> after.disk == Some(VaultFile(v.metadata, after.ids)))
  {
  }

  /** Each way signing can fail for the identity a fingerprint finds. Under the one-key invariant only the
      first can. */
  lemma SigningOutcome(p: Primitives, v: Vault, publicKey: Bytes)
    requires v.key.Some? && Find(v.ids, p.fingerprint(publicKey)).Some?
    ensures var reply, id := SignerFor(p, v, publicKey), Find(v.ids, p.fingerprint(publicKey)).value;
            var plain := DecryptBlob(p, v.key.value, id.encryptedBlob);
            && (reply == Failed(KeyNotFound) <==> !id.autoload && id.fingerprint !in v.loaded)
            && (reply == Failed(CannotDecrypt) <==> (id.autoload || id.fingerprint in v.loaded) && plain.Err?)
            && (reply.Signer? ==> plain.Ok?)
            && (reply.Signer? ==> UnmarshalPrivateKey(p, plain.value, p.typeOf(publicKey)) == Ok(reply.key))
            && reply != Failed(Locked)
  {
  }

  /** What signing says of a key that is not stored, or that has expired. */
  lemma UnstoredDoesNotSign(p: Primitives, v: Vault, publicKey: Bytes, env: Env)
    requires v.key.Some? && PurgeSucceeds(v, env)
    requires forall id :: id in v.ids && id.fingerprint == p.fingerprint(publicKey) ==> Expired(id, env.now)
    ensures Apply(p, v, Sign(publicKey), env).1 == Failed(KeyNotFound)
  {
    FindAfterWithout(v.ids, ExpiredFps(v.ids, env.now), p.fingerprint(publicKey));
  }
}
