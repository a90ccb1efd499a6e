/** What the verbs that take several selectors have done when they end: whatever a verb reports holds of
    the agent, and of the vault file, however it ended. */
module VerbOutcomes {
  import opened Wrappers
  import opened Bytes
  import opened Text
  import opened Crypto
  import opened IdentityList
  import opened Disk
  import opened Store
  import opened VaultMachine
  import opened VaultBehaviour
  import opened VaultOutcomes
  import opened Wire
  import opened OpDispatch
  import opened VaultVerbs

  // ----- one action -----

  /** What a method's reply is to the verb that called it over sshush-op. */
  function Told(reply: Reply): (problem: Option<Problem>) {
    if reply.Failed? then Some(FromAgent(SentinelFor(reply.error))) else None
  }

  /** Loading a selector loads its fingerprint, and hears the agent's own reason if it cannot. */
  lemma LoadActs(p: Primitives, v: Vault, target: Target, env: Env)
    ensures ActOn(p, Load, env, v, target) ==
            if TrimSpace(target.fp) == [] then (v, Some(FromAgent(BadRequest)))
            else (LoadForSession(v, TrimSpace(target.fp)).0, Told(LoadForSession(v, TrimSpace(target.fp)).1))
  {
    RequestIsMethodCall(p, v, AskSessionLoad(target.fp), env);
    SessionCommands(p, v, TrimSpace(target.fp), true, env);
  }

  /** Setting autoload for a selector sets the flag asked for, of its fingerprint; a fingerprint too long
      for its length field is refused. */
  lemma AutoloadActs(p: Primitives, v: Vault, target: Target, on: bool, env: Env)
    ensures ActOn(p, Autoload(on), env, v, target) ==
            if |target.fp| >= TWO_32 then (v, Some(FromAgent(BadRequest)))
            else (SetAutoloadFlag(v, target.fp, on, env).0, Told(SetAutoloadFlag(v, target.fp, on, env).1))
  {
    if |target.fp| < TWO_32 {
      RequestIsMethodCall(p, v, AskSetAutoload(target.fp, on), env);
      SessionCommands(p, v, target.fp, on, env);
    } else {
      TooLongIsRefused(p, v, target.fp, on, env);
    }
  }

  lemma TooLongIsRefused(p: Primitives, v: Vault, fp: Fp, on: bool, env: Env)
    requires |fp| >= TWO_32
    ensures Serve(p, v, Encoded(AskSetAutoload(fp, on)), env) == (v, Some(Frame(STATUS_BAD_REQUEST, [])))
    ensures DecodeOpResponse(Frame(STATUS_BAD_REQUEST, [])) == Err(BadRequest)
  {
    FrameIsInterpreted(p, OP_SET_AUTOLOAD, SetAutoloadPayload(fp, on));
    GetAfterPut(|fp|);
    assert GetU32(SetAutoloadPayload(fp, on)) == GetU32(U32(|fp|));
  }

  // ----- any verb -----

  /** If acting on a target makes something hold of it, and acting on others does not undo it, then it holds
      of everything the verb reports, even when the verb stopped at a failure. */
  lemma {:induction false} WhatIsReportedHolds<S(!new)>(resolve: Resolve, act: Act<S>, start: S, selectors: seq<Bytes>,
      good: S -> bool, holds: (S, Target) -> bool)
    requires good(start)
    requires forall w, t :: good(w) && act(w, t).1.None? ==> good(act(w, t).0) && holds(act(w, t).0, t)
    requires forall w, t, u :: good(w) && holds(w, u) ==> holds(act(w, t).0, u)
    ensures var r := RunEach(resolve, act, start, selectors);
            && |r.done| <= |selectors|
            && (r.code.None? ==> good(r.after))
            && forall i :: 0 <= i < |r.done| ==>
                 && resolve(selectors[i]).Ok? && resolve(selectors[i]).value.fp == r.done[i]
                 && holds(r.after, resolve(selectors[i]).value)
  {
    StopsAtFirstFailure(resolve, act, start, selectors);
    if selectors == [] {
    } else {
      var front := selectors[..|selectors| - 1];
      WhatIsReportedHolds(resolve, act, start, front, good, holds);
      StopsAtFirstFailure(resolve, act, start, front);
    }
  }

  // ----- SetAutoload -----

  predicate FlagIs(ids: seq<Identity>, fp: Fp, on: bool) {
    Find(ids, fp).Some? && Find(ids, fp).value.autoload == on
  }

  ghost predicate FlagInFile(v: Vault, fp: Fp, on: bool) {
    v.disk.Some? && FlagIs(v.disk.value.identities, fp, on)
  }

  lemma FlagOutcome(v: Vault, g: Fp, on: bool, env: Env, fp: Fp)
    ensures var (after, reply) := SetAutoloadFlag(v, g, on, env);
            && (reply.Done? ==> FlagIs(after.ids, g, on))
            && (reply.Done? && Mirrored(v) ==> Mirrored(after))
            && (FlagIs(v.ids, fp, on) ==> FlagIs(after.ids, fp, on))
            && (Mirrored(v) && FlagIs(v.ids, fp, on) ==> FlagInFile(after, fp, on))
  {
    if Find(v.ids, g).Some? {
      FindAfterPut(v.ids, Find(v.ids, g).value.(autoload := on, addedAt := env.now), fp);
      FindAfterPut(v.ids, Find(v.ids, g).value.(autoload := on, addedAt := env.now), g);
    }
  }

  /** The flag is set in memory, and in the file if file and memory are known to agree to begin with. */
  ghost predicate FlagSet(v: Vault, fp: Fp, on: bool, mirrored: bool) {
    FlagIs(v.ids, fp, on) && (mirrored ==> FlagInFile(v, fp, on))
  }

  lemma AutoloadTurn(p: Primitives, on: bool, envs: Envs, mirrored: bool, w: Turn, t: Target, fp: Fp)
    requires mirrored ==> Mirrored(w.vault)
    ensures var (after, problem) := ActInTurn(p, Autoload(on), envs)(w, t);
            && (problem.None? ==> (mirrored ==> Mirrored(after.vault)) && FlagSet(after.vault, t.fp, on, mirrored))
            && (FlagSet(w.vault, fp, on, mirrored) ==> FlagSet(after.vault, fp, on, mirrored))
  {
    AutoloadActs(p, w.vault, t, on, envs(w.n));
    FlagOutcome(w.vault, t.fp, on, envs(w.n), fp);
  }

  /** However the verb ends, every identity it reports has the flag asked for; and if file and memory agreed
      before, has it in the file too. */
  lemma ReportedAutoloadIsSet(p: Primitives, c: Conn, on: bool, envs: Envs, v: Vault, selectors: seq<Bytes>)
    ensures var r := RunVerb(p, c, Autoload(on), envs, v, selectors);
            forall i :: 0 <= i < |r.done| ==> FlagSet(r.after.vault, r.done[i], on, Mirrored(v))
  {
    var resolve: Resolve := selector => TargetOf(p, c, Autoload(on), selector);
    var act, mirrored := ActInTurn(p, Autoload(on), envs), Mirrored(v);
    var good := (w: Turn) => mirrored ==> Mirrored(w.vault);
    var holds := (w: Turn, t: Target) => FlagSet(w.vault, t.fp, on, mirrored);
    forall w, t | good(w) && act(w, t).1.None?
      ensures good(act(w, t).0) && holds(act(w, t).0, t)
    {
      AutoloadTurn(p, on, envs, mirrored, w, t, t.fp);
    }
    forall w, t, u | good(w) && holds(w, u)
      ensures holds(act(w, t).0, u)
    {
      AutoloadTurn(p, on, envs, mirrored, w, t, u.fp);
    }
    WhatIsReportedHolds(resolve, act, Turn(v, 0), selectors, good, holds);
  }

  // ----- SessionLoad -----

  lemma LoadTurn(p: Primitives, envs: Envs, w: Turn, t: Target, fp: Fp)
    ensures var (after, problem) := ActInTurn(p, Load, envs)(w, t);
            && (problem.None? ==> Shows(after.vault, TrimSpace(t.fp)) && CanSign(after.vault, TrimSpace(t.fp)))
            && (Shows(w.vault, fp) ==> Shows(after.vault, fp))
            && (CanSign(w.vault, fp) ==> CanSign(after.vault, fp))
  {
    LoadActs(p, w.vault, t, envs(w.n));
    if TrimSpace(t.fp) != [] && LoadForSession(w.vault, TrimSpace(t.fp)).1.Done? {
      SessionLoadEffect(w.vault, TrimSpace(t.fp));
    }
  }

  /** However the verb ends, every identity it reports is listed and can sign. */
  lemma ReportedLoadShows(p: Primitives, c: Conn, envs: Envs, v: Vault, selectors: seq<Bytes>)
    ensures var r := RunVerb(p, c, Load, envs, v, selectors);
            forall i :: 0 <= i < |r.done| ==>
              Shows(r.after.vault, TrimSpace(r.done[i])) && CanSign(r.after.vault, TrimSpace(r.done[i]))
  {
    var resolve: Resolve := selector => TargetOf(p, c, Load, selector);
    var act := ActInTurn(p, Load, envs);
    var served := (w: Turn, t: Target) => Shows(w.vault, TrimSpace(t.fp)) && CanSign(w.vault, TrimSpace(t.fp));
    forall w, t | act(w, t).1.None?
      ensures served(act(w, t).0, t)
    {
      LoadTurn(p, envs, w, t, TrimSpace(t.fp));
    }
    forall w, t, u | served(w, u)
      ensures served(act(w, t).0, u)
    {
      LoadTurn(p, envs, w, t, TrimSpace(u.fp));
    }
    WhatIsReportedHolds(resolve, act, Turn(v, 0), selectors, (w: Turn) => true, served);
  }

  // ----- Remove -----

  ghost predicate GoneFromFile(v: Vault, fp: Fp) {
    v.disk.Some? && Find(v.disk.value.identities, fp).None?
  }

  lemma RemovalOutcome(p: Primitives, v: Vault, publicKey: Bytes, env: Env, fp: Fp)
    ensures var (after, reply) := RemoveKey(p, v, publicKey, env);
            && (reply.Done? ==> Find(after.ids, p.fingerprint(publicKey)).None?)
            && (reply.Done? ==> GoneFromFile(after, p.fingerprint(publicKey)))
            && (Find(v.ids, fp).None? ==> Find(after.ids, fp).None?)
            && (Find(v.ids, fp).None? && GoneFromFile(v, fp) ==> GoneFromFile(after, fp))
            && (reply.Done? || reply.Failed?)
  {
    FindAfterWithout(v.ids, {p.fingerprint(publicKey)}, fp);
    FindAfterWithout(v.ids, {p.fingerprint(publicKey)}, p.fingerprint(publicKey));
  }

  lemma RemoveTurn(p: Primitives, envs: Envs, w: Turn, t: Target, fp: Fp)
    ensures var (after, problem) := ActInTurn(p, RemoveIt, envs)(w, t);
            && (problem.None? ==> Find(after.vault.ids, p.fingerprint(t.publicKey)).None?)
            && (problem.None? ==> GoneFromFile(after.vault, p.fingerprint(t.publicKey)))
            && (Find(w.vault.ids, fp).None? ==> Find(after.vault.ids, fp).None?)
            && (Find(w.vault.ids, fp).None? && GoneFromFile(w.vault, fp) ==> GoneFromFile(after.vault, fp))
  {
    RemovalOutcome(p, w.vault, t.publicKey, envs(w.n), fp);
  }

  /** However the verb ends, every identity it reports is gone from the agent and from the file. */
  lemma ReportedRemovalIsGone(p: Primitives, c: Conn, envs: Envs, v: Vault, selectors: seq<Bytes>)
    ensures var r := RunVerb(p, c, RemoveIt, envs, v, selectors);
            && |r.done| <= |selectors|
            && forall i :: 0 <= i < |r.done| ==>
                 var target := TargetOf(p, c, RemoveIt, selectors[i]);
                 && target.Ok? && target.value.fp == r.done[i]
                 && Find(r.after.vault.ids, p.fingerprint(target.value.publicKey)).None?
                 && GoneFromFile(r.after.vault, p.fingerprint(target.value.publicKey))
  {
    var resolve: Resolve := selector => TargetOf(p, c, RemoveIt, selector);
    var act := ActInTurn(p, RemoveIt, envs);
    var gone := (w: Turn, t: Target) =>
      Find(w.vault.ids, p.fingerprint(t.publicKey)).None? && GoneFromFile(w.vault, p.fingerprint(t.publicKey));
    forall w, t | act(w, t).1.None?
      ensures gone(act(w, t).0, t)
    {
      RemoveTurn(p, envs, w, t, p.fingerprint(t.publicKey));
    }
    forall w, t, u | gone(w, u)
      ensures gone(act(w, t).0, u)
    {
      RemoveTurn(p, envs, w, t, p.fingerprint(u.publicKey));
    }
    WhatIsReportedHolds(resolve, act, Turn(v, 0), selectors, (w: Turn) => true, gone);
  }

  // ----- selectors and codes -----

  /** Which problems become which code: what a user can act on is told apart, and an identity is not found
      alike whether the file or the agent lacks it. */
  lemma CodesTellProblemsApart(problem: Problem)
    requires !problem.Raised?
    ensures Describe(problem) == CodeIdentityNotFound <==> problem in {NoMatch, FromAgent(IdentityNotFound)}
    ensures Describe(problem) == CodeAmbiguousSelector <==> problem == AmbiguousComment
    ensures Describe(problem) == CodeEncryptedKey <==> problem == EncryptedKeyFile
    ensures Describe(problem) == CodeVaultLocked <==> problem == FromAgent(VaultLocked)
    ensures Describe(problem) == CodeNoRecovery <==> problem == FromAgent(NoRecoveryPhrase)
    ensures Describe(problem) == CodeWrongPassphrase <==> problem == FromAgent(IncorrectPassphrase)
    ensures Describe(problem) == CodeNotLocked <==> problem == FromAgent(ClientError.NotLocked)
    ensures Describe(problem) == CodeNotVaultAgent <==> problem in {FromAgent(OpUnsupported), FromAgent(OpUnknown)}
    ensures Describe(problem) == CodeAgentFailed <==>
            && problem.FromAgent?
            && problem.error in {BadRequest, AgentInternal, BadResponse, TransportFailed}
  {
  }

  /** The identity a selector stands for: that of the key in the file it names, if it names a key file, and
      otherwise the one it resolves to by fingerprint or comment. */
  lemma SelectorStandsFor(p: Primitives, c: Conn, selector: Bytes, id: Identity)
    ensures var got, initialised := IdentityFor(p, c, selector), c.store.Some? && c.store.value.metadata.Some?;
            && (got == Ok(id) <==>
                  && initialised && !c.inspect(selector).Encrypted?
                  && if c.inspect(selector).KeyFile?
                     then Find(c.store.value.identities, p.fingerprint(c.inspect(selector).publicKey)) == Some(id)
                     else Resolved(c.store.value.identities, selector) == Ok(id))
            && (got == Err(Raised(CodeVaultNotInitialized)) <==> !initialised)
            && (got == Err(EncryptedKeyFile) <==> initialised && c.inspect(selector).Encrypted?)
            && (got == Err(AmbiguousComment) <==>
                  && initialised && c.inspect(selector).NoKeyFile?
                  && selector != [] && Find(c.store.value.identities, selector).None?
                  && |Positions(c.store.value.identities, selector)| > 1)
  {
    if c.store.Some? && c.store.value.metadata.Some? && c.inspect(selector).NoKeyFile? {
      CommentMatchesCount(c.store.value.identities, selector);
    }
  }

  /** A verb that needs only a fingerprint takes it from the identity; with no vault configured it passes a
      SHA256 selector through as it is and refuses any other. */
  lemma FingerprintStandsFor(p: Primitives, c: Conn, selector: Bytes, fp: Fp)
    ensures FingerprintFor(p, c, selector) == Ok(fp) <==>
            if c.store.None? then [0x53, 0x48, 0x41, 0x32, 0x35, 0x36, 0x3a] <= selector && fp == selector
            else IdentityFor(p, c, selector).Ok? && IdentityFor(p, c, selector).value.fingerprint == fp
    ensures FingerprintFor(p, c, selector) == Err(Raised(CodeNoVaultPath)) <==>
            c.store.None? && !([0x53, 0x48, 0x41, 0x32, 0x35, 0x36, 0x3a] <= selector)
  {
  }
}
