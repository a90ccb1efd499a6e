/** What a client of the vault agent sees: what is listed, what can sign, how each operation changes
    both, when lifetimes end, and what a restart keeps. */
module VaultBehaviour {
  import opened Wrappers
  import opened Bytes
  import opened Crypto
  import opened IdentityList
  import opened Disk
  import opened Store
  import opened VaultMachine
  import opened Provenance
  import opened VaultInvariant

  lemma FindAfterPut(ids: seq<Identity>, id: Identity, fp: Fp)
    ensures Find(Put(ids, id), fp) == if fp == id.fingerprint then Some(id) else Find(ids, fp)
  {
    PutMembers(ids, id);
    InFps(ids, fp);
    InFps(Put(ids, id), fp);
    if fp == id.fingerprint || IndexOf(ids, fp) < |ids| {
      PutLooksUp(ids, id, fp);
    }
  }

  lemma {:induction false} FindAfterWithout(ids: seq<Identity>, gone: set<Fp>, fp: Fp)
    ensures Find(Without(ids, gone), fp) == if fp in gone then None else Find(ids, fp)
  {
    if ids == [] {
    } else {
      var front, last := ids[..|ids| - 1], ids[|ids| - 1];
      FindAfterWithout(front, gone, fp);
      FindAppend(front, last, fp);
      FindAppend(Without(front, gone), last, fp);
      assert ids == front + [last];
      if last.fingerprint in gone { assert Without(ids, gone) == Without(front, gone); }
    }
  }

  lemma FindAppend(front: seq<Identity>, last: Identity, fp: Fp)
    ensures Find(front + [last], fp) ==
            if Find(front, fp).Some? then Find(front, fp) else if last.fingerprint == fp then Some(last) else None
  {
    var k := IndexOf(front, fp);
    if k < |front| { FirstAt(front + [last], fp, k); }
    else if last.fingerprint == fp { FirstAt(front + [last], fp, |front|); }
  }

  /** Up to and including its expiry, or for ever without one. */
  predicate InLifetime(id: Identity, now: int) {
    id.expiresAt.None? || now <= id.expiresAt.value
  }

  /** Purging can be persisted, or there is nothing to purge. */
  ghost predicate PurgeSucceeds(v: Vault, env: Env) {
    env.fault.NoFault? || ExpiredFps(v.ids, env.now) == {}
  }

  lemma ExpiredByFingerprint(ids: seq<Identity>, now: int, id: Identity)
    requires Unique(ids) && id in ids
    ensures id.fingerprint in ExpiredFps(ids, now) <==> Expired(id, now)
  {
  }

  /** Purging removes exactly the expired fingerprints, from the store and from both session sets. */
  lemma PurgeRemovesExactlyTheExpired(v: Vault, env: Env)
    requires Unique(v.ids) && v.key.Some?
    ensures var after := Purge(v, env).0;
            && (forall id :: id in after.ids <==> id in v.ids && InLifetime(id, env.now))
            && (forall fp :: Find(after.ids, fp) == if fp in ExpiredFps(v.ids, env.now) then None else Find(v.ids, fp))
            && after.loaded == v.loaded - ExpiredFps(v.ids, env.now)
            && after.hidden == v.hidden - ExpiredFps(v.ids, env.now)
  {
    var gone := ExpiredFps(v.ids, env.now);
    WithoutMembers(v.ids, gone);
    forall id | id in v.ids
      ensures id.fingerprint in gone <==> Expired(id, env.now)
    {
      ExpiredByFingerprint(v.ids, env.now, id);
    }
    forall fp
      ensures Find(Purge(v, env).0.ids, fp) == if fp in gone then None else Find(v.ids, fp)
    {
      FindAfterWithout(v.ids, gone, fp);
    }
  }

  /** When the purge cannot be saved, List and Sign say so and show nothing; the expired identities are
      gone from memory and stay in the file until a later save. */
  lemma PurgeFailureIsReported(p: Primitives, v: Vault, publicKey: Bytes, env: Env)
    requires v.key.Some? && !PurgeSucceeds(v, env) && !env.fault.ChmodFails?
    ensures Apply(p, v, List, env).1 == Failed(SaveFailed) && Apply(p, v, Sign(publicKey), env).1 == Failed(SaveFailed)
    ensures Apply(p, v, List, env).0.disk == v.disk
    ensures forall id :: id in Apply(p, v, List, env).0.ids ==> InLifetime(id, env.now)
  {
    WithoutMembers(v.ids, ExpiredFps(v.ids, env.now));
  }

  // ----- listing and signing -----

  /** List reports, in store order, exactly the unexpired identities that autoload and are not
      hidden, or do not autoload and were loaded for the session. */
  lemma ListReportsExactly(p: Primitives, s: Secrets, v: Vault, env: Env, shown: Identity -> bool)
    requires OneKey(p, s, v) && v.key.Some? && PurgeSucceeds(v, env)
    requires forall id :: shown(id) ==
               (InLifetime(id, env.now)
                   && if id.autoload then id.fingerprint !in v.hidden else id.fingerprint in v.loaded)
    ensures Apply(p, v, List, env).1 == Keys(RowsWhere(v.ids, shown))
  {
    var gone := ExpiredFps(v.ids, env.now);
    var after := Purge(v, env).0;
    forall id | id in v.ids
      ensures shown(id) == (id.fingerprint !in gone && Listed(after, id))
    {
      ListedAfterPurge(v, env, id);
    }
    if gone == {} {
      RowsAgree(v.ids, (id: Identity) => Listed(after, id), shown);
    } else {
      RowsOfWithout(v.ids, gone, (id: Identity) => Listed(after, id), shown);
    }
  }

  lemma ListedAfterPurge(v: Vault, env: Env, id: Identity)
    requires Unique(v.ids) && v.key.Some? && id in v.ids
    ensures InLifetime(id, env.now) <==> id.fingerprint !in ExpiredFps(v.ids, env.now)
    ensures InLifetime(id, env.now) ==> Listed(Purge(v, env).0, id) == Listed(v, id)
  {
    ExpiredByFingerprint(v.ids, env.now, id);
  }

  lemma StoredSignerExactly(p: Primitives, s: Secrets, v: Vault, id: Identity)
    requires Readable(p, s.master, id) && v.key == Some(s.master)
    requires Find(v.ids, id.fingerprint) == Some(id)
    ensures var reply := SignerFor(p, v, id.publicKey);
            if Signable(v, id)
            then reply.Signer? && (PublicOf(p, reply.key) == Some(id.publicKey) <==> OwnKey(p, s.master, id))
            else reply == Failed(KeyNotFound)
  {
  }

  lemma PurgedFind(v: Vault, id: Identity, env: Env)
    requires Unique(v.ids) && v.key.Some? && id in v.ids
    ensures Find(Purge(v, env).0.ids, id.fingerprint) == if Expired(id, env.now) then None else Some(id)
    ensures !Expired(id, env.now) ==> (id.fingerprint in Purge(v, env).0.loaded <==> id.fingerprint in v.loaded)
  {
    PurgeRemovesExactlyTheExpired(v, env);
    ExpiredByFingerprint(v.ids, env.now, id);
    FindUnique(v.ids, id);
  }

  /** A stored identity signs, with the key its blob holds, exactly when it has not expired and either
      autoloads or was loaded for the session. Hiding plays no part. */
  lemma SigningExactly(p: Primitives, s: Secrets, v: Vault, id: Identity, env: Env)
    requires OneKey(p, s, v) && v.key.Some? && PurgeSucceeds(v, env) && id in v.ids
    ensures var reply := Apply(p, v, Sign(id.publicKey), env).1;
            if InLifetime(id, env.now) && (id.autoload || id.fingerprint in v.loaded)
            then reply.Signer? && (PublicOf(p, reply.key) == Some(id.publicKey) <==> OwnKey(p, s.master, id))
            else reply == Failed(KeyNotFound)
  {
    var after := Purge(v, env).0;
    PurgedFind(v, id, env);
    if !Expired(id, env.now) {
      assert Readable(p, s.master, id);
      StoredSignerExactly(p, s, after, id);
    } else {
      assert p.fingerprint(id.publicKey) == id.fingerprint by { assert Readable(p, s.master, id); }
    }
  }

  /** In every state a run reaches unlocked, everything listed can sign, and what can sign without
      being listed is exactly the autoload identities hidden for the session. */
  lemma ListingAndSigningAgreeButForHidden(p: Primitives, s: Secrets, v: Vault, steps: seq<Step>, id: Identity,
      env: Env)
    requires Lawful(p) && OneKey(p, s, v)
    requires var now := Run(p, v, steps); now.key.Some? && id in now.ids && PurgeSucceeds(now, env)
    ensures var now := Run(p, v, steps);
            var listing, signing := Apply(p, now, List, env).1, Apply(p, now, Sign(id.publicKey), env).1;
            var listed := Row(id.publicKey, id.comment) in listing.rows;
            && listing.Keys?
            && (listed ==> signing.Signer?)
            && (signing.Signer? && !listed <==> InLifetime(id, env.now) && id.autoload && id.fingerprint in now.hidden)
  {
    var now := Run(p, v, steps);
    EveryRunKeepsOneKey(p, s, v, steps);
    var shown := (id: Identity) =>
      InLifetime(id, env.now) && if id.autoload then id.fingerprint !in now.hidden else id.fingerprint in now.loaded;
    ListReportsExactly(p, s, now, env, shown);
    SigningExactly(p, s, now, id, env);
    RowsExactly(now.ids, shown, Row(id.publicKey, id.comment));
    forall other | other in now.ids && other.publicKey == id.publicKey
      ensures other == id
    {
      assert Readable(p, s.master, other) && Readable(p, s.master, id);
      FindUnique(now.ids, other);
      FindUnique(now.ids, id);
    }
  }

  /** In every state a run reaches, an identity signs with the private key of its own public key, as long
      as the run added no key with mismatched halves under its fingerprint. */
  lemma RunsSignWithTheOwnKey(p: Primitives, s: Secrets, v: Vault, steps: seq<Step>, id: Identity, env: Env)
    requires Lawful(p) && OneKey(p, s, v) && OwnKeyAt(p, s, v, id.fingerprint)
    requires forall i :: 0 <= i < |steps| ==> !AddsMismatched(p, steps[i].command, id.fingerprint)
    requires var now := Run(p, v, steps); now.key.Some? && id in now.ids && PurgeSucceeds(now, env)
    ensures var reply := Apply(p, Run(p, v, steps), Sign(id.publicKey), env).1;
            reply.Signer? ==> PublicOf(p, reply.key) == Some(id.publicKey)
  {
    EveryRunKeepsOneKey(p, s, v, steps);
    EveryRunKeepsOwnKey(p, s, v, steps, id.fingerprint);
    assert Stored(Run(p, v, steps), id);
    SigningExactly(p, s, Run(p, v, steps), id, env);
  }

  /** While locked nothing is listed and nothing signs. */
  lemma LockedShowsNothing(p: Primitives, v: Vault, publicKey: Bytes, env: Env)
    requires v.key.None?
    ensures Apply(p, v, List, env) == (v, Keys([]))
    ensures Apply(p, v, Sign(publicKey), env) == (v, Failed(Locked))
  {
  }

  /** A key added to an unlocked vault is the key that signs for it, exactly when its two halves
      agree; otherwise signing silently uses the key its seed generates. */
  lemma AddedKeySigns(p: Primitives, master: Block32, v: Vault, key: AddedKey, filepath: Bytes, autoload: bool,
      env: Env)
    requires Lawful(p) && v.key == Some(master)
    requires AddKey(p, v, key, autoload, filepath, env).1.Done?
    ensures var after := AddKey(p, v, key, autoload, filepath, env).0;
            var publicKey := PublicOf(p, key.key).value;
            && SignerFor(p, after, publicKey).Signer?
            && (SignerFor(p, after, publicKey) == Signer(key.key) <==> Consistent(p, key.key))
            && (PublicOf(p, SignerFor(p, after, publicKey).key) == Some(publicKey) <==> Consistent(p, key.key))
  {
    var publicKey := PublicOf(p, key.key).value;
    var plain := MarshalPrivateKey(p, key.key).value;
    EncryptHolds(p, master, env.iv, plain);
    StoredKeyReadsBack(p, key.key);
    var id := NewIdentity(p, key, publicKey, EncryptBlob(p, master, env.iv, plain).value, autoload, filepath, env.now);
    PutLooksUp(v.ids, id, id.fingerprint);
    if key.key.Ed25519? {
      assert p.typeOf(publicKey) == SSH_ED25519;
      assert PublicOf(p, Ed25519(plain, p.edPoint(plain))).Some?;
    }
  }

  /** A concrete mismatched key: a new vault stores it, keeps its one key, and then signs for its public
      key with another private key. */
  lemma MismatchedKeyIsStored(env: Env)
    requires env.fault.NoFault?
    ensures var v := Init(TOY, Opened(None), [1], seq(16, _ => 0), env).0.(key := Some(ONE_BLOCK));
            var key := AddedKey(Ed25519(ZERO_BLOCK, ONE_BLOCK), [], 0, false, 0, false);
            var (after, reply) := AddKey(TOY, v, key, false, [], env);
            var s := Secrets(ONE_BLOCK, None);
            && OneKey(TOY, s, v) && reply == Done && OneKey(TOY, s, after)
            && SignerFor(TOY, after, TOY.edBlob(ONE_BLOCK)).Signer?
            && PublicOf(TOY, SignerFor(TOY, after, TOY.edBlob(ONE_BLOCK)).key) != Some(TOY.edBlob(ONE_BLOCK))
            && !(forall fp :: OwnKeyAt(TOY, s, after, fp))
  {
    ToyIsLawful();
    assert ONE_BLOCK[0] != ZERO_BLOCK[0];
    InitEstablishesOneKey(TOY, [1], seq(16, _ => 0), env);
    var v := Init(TOY, Opened(None), [1], seq(16, _ => 0), env).0.(key := Some(ONE_BLOCK));
    var key := AddedKey(Ed25519(ZERO_BLOCK, ONE_BLOCK), [], 0, false, 0, false);
    AddStoresOwnKeyIff(TOY, Secrets(ONE_BLOCK, None), v, key, false, [], env);
    AddedKeySigns(TOY, ONE_BLOCK, v, key, [], false, env);
  }

  // ----- what each operation changes -----

  predicate Shows(v: Vault, fp: Fp) {
    Find(v.ids, fp).Some? && Listed(v, Find(v.ids, fp).value)
  }

  predicate CanSign(v: Vault, fp: Fp) {
    Find(v.ids, fp).Some? && Signable(v, Find(v.ids, fp).value)
  }

  /** Loading makes the one identity visible and usable, and touches neither the store nor the file. */
  lemma SessionLoadEffect(v: Vault, fp: Fp)
    requires LoadForSession(v, fp).1.Done?
    ensures var after := LoadForSession(v, fp).0;
            && (forall g :: Shows(after, g) <==> Shows(v, g) || g == fp)
            && (forall g :: CanSign(after, g) <==> CanSign(v, g) || g == fp)
            && after.ids == v.ids && after.disk == v.disk
  {
  }

  /** Unloading hides the one identity from listing, but only stops it signing if it does not
      autoload; the store and the file are untouched, and loading undoes the hiding. */
  lemma SessionUnloadEffect(v: Vault, fp: Fp)
    requires UnloadForSession(v, fp).1.Done?
    ensures var after := UnloadForSession(v, fp).0;
            && (forall g :: Shows(after, g) <==> Shows(v, g) && g != fp)
            && (forall g :: CanSign(after, g) <==> CanSign(v, g) && (g != fp || Find(v.ids, fp).value.autoload))
            && after.ids == v.ids && after.disk == v.disk
            && LoadForSession(after, fp).1.Done? && Shows(LoadForSession(after, fp).0, fp)
  {
  }

  /** An edit stored under an existing fingerprint changes that entry alone. */
  lemma EditEffect(ids: seq<Identity>, edited: Identity)
    requires Find(ids, edited.fingerprint).Some?
    ensures AsMap(Put(ids, edited)) == AsMap(ids)[edited.fingerprint := edited]
    ensures Order(Put(ids, edited)) == Order(ids)
    ensures forall g :: Find(Put(ids, edited), g) == if g == edited.fingerprint then Some(edited) else Find(ids, g)
  {
    PutUpdatesMap(ids, edited);
    PutKeepsOrder(ids, edited);
    forall g
      ensures Find(Put(ids, edited), g) == if g == edited.fingerprint then Some(edited) else Find(ids, g)
    {
      FindAfterPut(ids, edited, g);
    }
  }

  lemma FlagVisibility(v: Vault, after: Vault, edited: Identity, g: Fp)
    requires Find(after.ids, g) == if g == edited.fingerprint then Some(edited) else Find(v.ids, g)
    requires after.loaded == if edited.autoload then v.loaded - {edited.fingerprint} else v.loaded
    requires after.hidden == v.hidden - {edited.fingerprint}
    ensures Shows(after, g) <==> if g == edited.fingerprint then edited.autoload || g in v.loaded else Shows(v, g)
    ensures CanSign(after, g) <==> if g == edited.fingerprint then edited.autoload || g in v.loaded else CanSign(v, g)
  {
  }

  /** Changing the flag edits that field of that identity alone. Turning it on shows the identity;
      turning it off hides it at once unless it was loaded for the session. */
  lemma SetAutoloadEffect(v: Vault, fp: Fp, on: bool, env: Env)
    requires SetAutoloadFlag(v, fp, on, env).1.Done? && Find(v.ids, fp).value.autoload != on
    ensures var after := SetAutoloadFlag(v, fp, on, env).0;
            && AsMap(after.ids) == AsMap(v.ids)[fp := Find(v.ids, fp).value.(autoload := on, addedAt := env.now)]
            && Order(after.ids) == Order(v.ids)
            && (forall g :: Shows(after, g) <==> if g == fp then on || fp in v.loaded else Shows(v, g))
            && (forall g :: CanSign(after, g) <==> if g == fp then on || fp in v.loaded else CanSign(v, g))
            && after.disk == Some(VaultFile(after.metadata, after.ids))
  {
    var edited := Find(v.ids, fp).value.(autoload := on, addedAt := env.now);
    var after := SetAutoloadFlag(v, fp, on, env).0;
    EditEffect(v.ids, edited);
    assert after.ids == Put(v.ids, edited);
    forall g
      ensures Shows(after, g) <==> if g == fp then on || fp in v.loaded else Shows(v, g)
      ensures CanSign(after, g) <==> if g == fp then on || fp in v.loaded else CanSign(v, g)
    {
      FlagVisibility(v, after, edited, g);
    }
  }

  /** Changing the comment edits that field of that identity alone and what is visible not at all. */
  lemma SetCommentEffect(v: Vault, fp: Fp, comment: Bytes, env: Env)
    requires SetCommentText(v, fp, comment, env).1.Done? && Find(v.ids, fp).value.comment != comment
    ensures var after := SetCommentText(v, fp, comment, env).0;
            && AsMap(after.ids) == AsMap(v.ids)[fp := Find(v.ids, fp).value.(comment := comment, addedAt := env.now)]
            && Order(after.ids) == Order(v.ids)
            && (forall g :: Shows(after, g) == Shows(v, g) && CanSign(after, g) == CanSign(v, g))
            && after.disk == Some(VaultFile(after.metadata, after.ids))
  {
    var edited := Find(v.ids, fp).value.(comment := comment, addedAt := env.now);
    var after := SetCommentText(v, fp, comment, env).0;
    EditEffect(v.ids, edited);
    assert after.ids == Put(v.ids, edited);
    forall g
      ensures Shows(after, g) == Shows(v, g) && CanSign(after, g) == CanSign(v, g)
    {
      CommentVisibility(v, after, edited, g);
    }
  }

  lemma CommentVisibility(v: Vault, after: Vault, edited: Identity, g: Fp)
    requires Find(after.ids, g) == if g == edited.fingerprint then Some(edited) else Find(v.ids, g)
    requires Find(v.ids, edited.fingerprint).Some? && Find(v.ids, edited.fingerprint).value.autoload == edited.autoload
    requires after.loaded == v.loaded && after.hidden == v.hidden
    ensures Shows(after, g) == Shows(v, g) && CanSign(after, g) == CanSign(v, g)
  {
  }

  lemma AddVisibility(v: Vault, after: Vault, id: Identity, g: Fp)
    requires Find(after.ids, g) == if g == id.fingerprint then Some(id) else Find(v.ids, g)
    requires after.hidden == v.hidden
    requires after.loaded == if id.autoload then v.loaded else v.loaded + {id.fingerprint}
    ensures Shows(after, g) <==> if g == id.fingerprint then !id.autoload || g !in v.hidden else Shows(v, g)
    ensures CanSign(after, g) <==> CanSign(v, g) || g == id.fingerprint
  {
  }

  lemma PutEffect(v: Vault, after: Vault, id: Identity)
    requires after.ids == Put(v.ids, id) && after.hidden == v.hidden
    requires after.loaded == if id.autoload then v.loaded else v.loaded + {id.fingerprint}
    ensures forall g :: Find(after.ids, g) == if g == id.fingerprint then Some(id) else Find(v.ids, g)
    ensures forall g :: Shows(after, g) <==> if g == id.fingerprint then !id.autoload || g !in v.hidden else Shows(v, g)
    ensures forall g :: CanSign(after, g) <==> CanSign(v, g) || g == id.fingerprint
    ensures Order(after.ids) ==
            if Find(v.ids, id.fingerprint).Some? then Order(v.ids) else Order(v.ids) + [id.fingerprint]
  {
    PutKeepsOrder(v.ids, id);
    forall g
      ensures Find(after.ids, g) == if g == id.fingerprint then Some(id) else Find(v.ids, g)
      ensures Shows(after, g) <==> if g == id.fingerprint then !id.autoload || g !in v.hidden else Shows(v, g)
      ensures CanSign(after, g) <==> CanSign(v, g) || g == id.fingerprint
    {
      FindAfterPut(v.ids, id, g);
      AddVisibility(v, after, id, g);
    }
  }

  /** Adding puts one identity in place of its predecessor or last. A session add is visible at once;
      an autoload add is visible unless that fingerprint is still hidden from before. */
  lemma AddEffect(p: Primitives, v: Vault, key: AddedKey, autoload: bool, filepath: Bytes, env: Env)
    requires AddKey(p, v, key, autoload, filepath, env).1.Done?
    ensures var after := AddKey(p, v, key, autoload, filepath, env).0;
            var fp := p.fingerprint(PublicOf(p, key.key).value);
            && Find(after.ids, fp).Some?
            && Find(after.ids, fp).value.expiresAt ==
               (if key.lifetimeSecs == 0 then None else Some(env.now + key.lifetimeSecs * 1_000_000_000))
            && Find(after.ids, fp).value.comment == key.comment
            && Find(after.ids, fp).value.filepath == filepath
            && Find(after.ids, fp).value.autoload == autoload
            && Order(after.ids) == (if Find(v.ids, fp).Some? then Order(v.ids) else Order(v.ids) + [fp])
            && (forall g :: g != fp ==> Find(after.ids, g) == Find(v.ids, g))
            && (forall g :: Shows(after, g) <==> if g == fp then !autoload || fp !in v.hidden else Shows(v, g))
            && (forall g :: CanSign(after, g) <==> CanSign(v, g) || g == fp)
            && after.disk == Some(VaultFile(after.metadata, after.ids))
  {
    var publicKey := PublicOf(p, key.key).value;
    var blob := EncryptBlob(p, v.key.value, env.iv, MarshalPrivateKey(p, key.key).value).value;
    var id := NewIdentity(p, key, publicKey, blob, autoload, filepath, env.now);
    PutEffect(v, AddKey(p, v, key, autoload, filepath, env).0, id);
  }

  /** What is added is stamped with the time, filed with its public key, and nothing else of a predecessor
      is kept. */
  lemma AddedEntry(p: Primitives, v: Vault, key: AddedKey, autoload: bool, filepath: Bytes, env: Env)
    requires AddKey(p, v, key, autoload, filepath, env).1.Done?
    ensures var publicKey := PublicOf(p, key.key).value;
            var stored := Find(AddKey(p, v, key, autoload, filepath, env).0.ids, p.fingerprint(publicKey));
            && stored.Some? && stored.value.publicKey == publicKey && stored.value.addedAt == env.now
            && EncryptBlob(p, v.key.value, env.iv, MarshalPrivateKey(p, key.key).value)
               == Ok(stored.value.encryptedBlob)
            && stored.value.accessTime == []
  {
    var publicKey := PublicOf(p, key.key).value;
    var blob := EncryptBlob(p, v.key.value, env.iv, MarshalPrivateKey(p, key.key).value).value;
    var id := NewIdentity(p, key, publicKey, blob, autoload, filepath, env.now);
    FindAfterPut(v.ids, id, id.fingerprint);
  }

  /** Removing erases the one identity everywhere, session sets included, and keeps the others. */
  lemma RemoveEffect(p: Primitives, v: Vault, publicKey: Bytes, env: Env)
    requires RemoveKey(p, v, publicKey, env).1.Done?
    ensures var after := RemoveKey(p, v, publicKey, env).0;
            var fp := p.fingerprint(publicKey);
            && Find(v.ids, fp).Some?
            && (forall g :: Find(after.ids, g) == if g == fp then None else Find(v.ids, g))
            && (forall g :: Shows(after, g) <==> Shows(v, g) && g != fp)
            && (forall g :: CanSign(after, g) <==> CanSign(v, g) && g != fp)
            && fp !in after.loaded && fp !in after.hidden
            && after.disk == Some(VaultFile(after.metadata, after.ids))
  {
    var fp := p.fingerprint(publicKey);
    var after := RemoveKey(p, v, publicKey, env).0;
    forall g
      ensures Find(after.ids, g) == if g == fp then None else Find(v.ids, g)
    {
      FindAfterWithout(v.ids, {fp}, g);
    }
  }

  // ----- lifetimes -----

  /** Every stored copy of this fingerprint, in memory and on disk, expires by `limit`. */
  ghost predicate ExpiresBy(v: Vault, fp: Fp, limit: int) {
    forall id :: Stored(v, id) && id.fingerprint == fp ==> id.expiresAt.Some? && id.expiresAt.value <= limit
  }

  lemma StepNeverExtends(p: Primitives, v: Vault, c: Command, env: Env, fp: Fp, limit: int)
    requires ExpiresBy(v, fp, limit) && !Adds(p, c, fp)
    ensures ExpiresBy(Apply(p, v, c, env).0, fp, limit)
  {
    StepComesFrom(p, v, c, env);
    forall id | Stored(Apply(p, v, c, env).0, id) && id.fingerprint == fp
      ensures id.expiresAt.Some? && id.expiresAt.value <= limit
    {
      assert ComesFrom(p, v, c, env, id);
      var was :| Stored(v, was) && SameKey(was, id);
    }
  }

  /** The reply neither lists the fingerprint nor signs for a key of that fingerprint. */
  predicate Withholds(p: Primitives, c: Command, reply: Reply, fp: Fp) {
    match reply
    case Keys(rows) => forall i :: 0 <= i < |rows| ==> p.fingerprint(rows[i].publicKey) != fp
    case Signer(_) => c.Sign? ==> p.fingerprint(c.publicKey) != fp
    case _ => true
  }

  lemma NothingLeftAfterLimit(v: Vault, env: Env, fp: Fp, limit: int)
    requires ExpiresBy(v, fp, limit) && env.now > limit && v.key.Some?
    ensures forall id :: id in Purge(v, env).0.ids ==> id in v.ids && id.fingerprint != fp
  {
    WithoutMembers(v.ids, ExpiredFps(v.ids, env.now));
    assert forall id :: id in v.ids ==> Stored(v, id);
  }

  lemma UnstoredIsNotListed(p: Primitives, v: Vault, fp: Fp)
    requires forall id :: id in v.ids ==> id.fingerprint == p.fingerprint(id.publicKey) && id.fingerprint != fp
    ensures forall i :: 0 <= i < |Listing(v)| ==> p.fingerprint(Listing(v)[i].publicKey) != fp
  {
    forall i | 0 <= i < |Listing(v)|
      ensures p.fingerprint(Listing(v)[i].publicKey) != fp
    {
      RowsExactly(v.ids, (id: Identity) => Listed(v, id), Listing(v)[i]);
    }
  }

  lemma ExpiredIsWithheld(p: Primitives, v: Vault, c: Command, env: Env, fp: Fp, limit: int)
    requires Filed(p, v) && ExpiresBy(v, fp, limit) && env.now > limit
    ensures Withholds(p, c, Apply(p, v, c, env).1, fp)
  {
    if v.key.Some? && (c.List? || c.Sign?) {
      NothingLeftAfterLimit(v, env, fp, limit);
      if c.List? { UnstoredIsNotListed(p, Purge(v, env).0, fp); }
    }
  }

  /** In any run that does not add the key again, no step taken after the limit lists it or signs
      with it, whatever is done to its comment or flags and however often the daemon restarts. The
      vault need only file each identity under its own fingerprint, as every step does. */
  lemma {:induction false} NeverServedAfterExpiry(p: Primitives, v: Vault, steps: seq<Step>, fp: Fp, limit: int)
    requires Filed(p, v) && ExpiresBy(v, fp, limit)
    requires forall i :: 0 <= i < |steps| ==> !Adds(p, steps[i].command, fp)
    ensures ExpiresBy(Run(p, v, steps), fp, limit)
    ensures forall i :: 0 <= i < |steps| && steps[i].env.now > limit ==>
              Withholds(p, steps[i].command, ReplyAt(p, v, steps, i), fp)
  {
    if steps == [] {
    } else {
      var front, last := steps[..|steps| - 1], steps[|steps| - 1];
      NeverServedAfterExpiry(p, v, front, fp, limit);
      EveryRunKeepsFiling(p, v, front);
      var before := Run(p, v, front);
      StepNeverExtends(p, before, last.command, last.env, fp, limit);
      forall i | 0 <= i < |steps| && steps[i].env.now > limit
        ensures Withholds(p, steps[i].command, ReplyAt(p, v, steps, i), fp)
      {
        if i < |front| {
          assert front[..i] == steps[..i];
          assert Withholds(p, front[i].command, ReplyAt(p, v, front, i), fp);
        } else {
          ExpiredIsWithheld(p, before, last.command, last.env, fp, limit);
        }
      }
    }
  }

  /** Adding a key with a lifetime sets the limit the run theorem starts from. */
  lemma AddingSetsTheLimit(p: Primitives, v: Vault, key: AddedKey, autoload: bool, filepath: Bytes, env: Env)
    requires Unique(v.ids) && key.lifetimeSecs > 0
    requires AddKey(p, v, key, autoload, filepath, env).1.Done?
    ensures ExpiresBy(AddKey(p, v, key, autoload, filepath, env).0, p.fingerprint(PublicOf(p, key.key).value),
                      env.now + key.lifetimeSecs * 1_000_000_000)
  {
    AddEffect(p, v, key, autoload, filepath, env);
    var after := AddKey(p, v, key, autoload, filepath, env).0;
    var blob := EncryptBlob(p, v.key.value, env.iv, MarshalPrivateKey(p, key.key).value).value;
    PutUnique(v.ids, NewIdentity(p, key, PublicOf(p, key.key).value, blob, autoload, filepath, env.now));
    forall id | Stored(after, id) && id.fingerprint == p.fingerprint(PublicOf(p, key.key).value)
      ensures Find(after.ids, id.fingerprint) == Some(id)
    {
      FindUnique(after.ids, id);
    }
  }

  // ----- the file -----

  ghost predicate Mirrored(v: Vault) {
    v.disk == Some(VaultFile(v.metadata, v.ids))
  }

  /** A run whose saves all succeed never lets memory and the file differ. */
  lemma {:induction false} FileMirrorsMemory(p: Primitives, v: Vault, steps: seq<Step>)
    requires Mirrored(v)
    requires forall i :: 0 <= i < |steps| ==> steps[i].env.fault.NoFault?
    ensures Mirrored(Run(p, v, steps))
  {
    if steps == [] {
    } else {
      var front, last := steps[..|steps| - 1], steps[|steps| - 1];
      FileMirrorsMemory(p, v, front);
      StepKeepsMirror(p, Run(p, v, front), last.command, last.env);
    }
  }

  lemma StepKeepsMirror(p: Primitives, v: Vault, c: Command, env: Env)
    requires Mirrored(v) && env.fault.NoFault?
    ensures Mirrored(Apply(p, v, c, env).0)
  {
    if c.Remove? && Find(v.ids, p.fingerprint(c.publicKey)).None? {
      var fp := p.fingerprint(c.publicKey);
      WithoutNothing(v.ids, {fp});
    }
  }

  /** A restart forgets the key and both session sets and reads the store back from the file;
      unlocking then lists exactly the persisted, unexpired autoload identities. */
  lemma RestartForgetsTheSession(p: Primitives, s: Secrets, v: Vault, secret: Bytes, env: Env, shown: Identity -> bool)
    requires Lawful(p) && OneKey(p, s, v)
    requires p.derive(secret, v.metadata.value.salt) == s.master
    requires forall id :: shown(id) == (id.autoload && InLifetime(id, env.now))
    ensures var restarted := Apply(p, v, Restart, env).0;
            var unlocked := Apply(p, restarted, Unlock(secret), env).0;
            && restarted == Vault(v.metadata, v.disk.value.identities, v.disk, None, {}, {})
            && unlocked == restarted.(key := Some(s.master))
            && (PurgeSucceeds(unlocked, env) ==>
                  Apply(p, unlocked, List, env).1 == Keys(RowsWhere(v.disk.value.identities, shown)))
  {
    RestartedUnlocks(p, s, v, secret, env);
    var unlocked := Vault(v.metadata, v.disk.value.identities, v.disk, Some(s.master), {}, {});
    if PurgeSucceeds(unlocked, env) {
      var listed := (id: Identity) =>
        InLifetime(id, env.now)
            && if id.autoload then id.fingerprint !in unlocked.hidden else id.fingerprint in unlocked.loaded;
      ListReportsExactly(p, s, unlocked, env, listed);
      RowsAgree(unlocked.ids, listed, shown);
    }
  }

  lemma RestartedUnlocks(p: Primitives, s: Secrets, v: Vault, secret: Bytes, env: Env)
    requires Lawful(p) && OneKey(p, s, v)
    requires p.derive(secret, v.metadata.value.salt) == s.master
    ensures var restarted := Apply(p, v, Restart, env).0;
            && restarted == Vault(v.metadata, v.disk.value.identities, v.disk, None, {}, {})
            && Apply(p, restarted, Unlock(secret), env).0 == restarted.(key := Some(s.master))
            && OneKey(p, s, restarted.(key := Some(s.master)))
  {
    UnlockingYieldsTheOneKey(p, s, Apply(p, v, Restart, env).0, secret);
  }
}
