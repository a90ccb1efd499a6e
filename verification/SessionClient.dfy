/** The client's session: one op over whatever agent answers, and telling those agents apart. */
module SessionClient {
  import opened Wrappers
  import opened Bytes
  import opened Crypto
  import opened VaultMachine
  import opened Wire
  import opened OpDispatch
  import LockedKeyring

  /** How the agent protocol returns from an extension call. */
  datatype Exchange = Replied(message: Bytes) | Unsupported | Broke

  function Op(e: Exchange): (r: Result<Bytes, ClientError>) {
    match e
    case Unsupported => Err(OpUnsupported)
    case Broke => Err(TransportFailed)
    case Replied(message) => DecodeOpResponse(message)
  }

  datatype Mode = VaultMode | KeysMode

  datatype Backend = Backend(mode: Mode, vaultLocked: bool, speaksOps: bool)

  function BackendOf(answer: Result<Bytes, ClientError>): (b: Result<Backend, ClientError>) {
    match answer
    case Ok(data) => Ok(Backend(VaultMode, |data| == 1 && data[0] == 1, true))
    case Err(OpUnknown) => Ok(Backend(KeysMode, false, true))
    case Err(OpUnsupported) => Ok(Backend(KeysMode, false, false))
    case Err(e) => Err(e)
  }

  /** Asking whether the vault is locked tells a vault (and its lock state), an sshush keyring, and a
      foreign agent apart, and changes none of them. */
  lemma BackendTellsAgentsApart<S>(p: Primitives, v: Vault, env: Env, derive: LockedKeyring.Derive,
      k: LockedKeyring.Keyring<S>)
    ensures var (after, reply) := Serve(p, v, Encoded(AskLocked), env);
            after == v && reply.Some?
                && BackendOf(Op(Replied(reply.value))) == Ok(Backend(VaultMode, v.key.None?, true))
    ensures var (after, message) := LockedKeyring.OpStep(derive, k, Encoded(AskLocked), None);
            after == k && BackendOf(Op(Replied(message))) == Ok(Backend(KeysMode, false, true))
    ensures BackendOf(Op(Unsupported)) == Ok(Backend(KeysMode, false, false))
  {
    RequestIsMethodCall(p, v, AskLocked, env);
    RequestsRoundTrip(Encoded(AskLocked), OP_VAULT_LOCKED, []);
    ResponsesRoundTrip(STATUS_UNSUPPORTED_OP, []);
  }

  /** Session.Lock and Session.Unlock: the plain protocol is tried only when sshush-op is unsupported. */
  function LockOrUnlock(op: Result<Bytes, ClientError>, plain: Result<Bytes, ClientError>)
    : (r: Result<Bytes, ClientError>)
  {
    if op == Err(OpUnsupported) then plain else op
  }

  /** The plain protocol decides exactly when the agent does not know sshush-op; any other agent's own
      answer, or the broken exchange, stands, whatever the plain protocol would have said. */
  lemma FallsBackOnlyWhenUnsupported(e: Exchange, plain: Result<Bytes, ClientError>)
    ensures LockOrUnlock(Op(e), plain) ==
            match e
            case Unsupported => plain
            case Broke => Err(TransportFailed)
            case Replied(message) => DecodeOpResponse(message)
    ensures Op(e) == Err(OpUnsupported) <==> e.Unsupported?
  {
  }

  /** An agent stays unclassified exactly when the exchange broke or it answered with an error that is not
      "unknown operation"; a foreign agent is the one that does not know the extension at all. */
  lemma BackendUnknownIff(e: Exchange)
    ensures BackendOf(Op(e)).Err? <==>
            || e.Broke?
            || (e.Replied? && DecodeOpResponse(e.message).Err? && DecodeOpResponse(e.message) != Err(OpUnknown))
    ensures BackendOf(Op(e)).Err? ==> BackendOf(Op(e)).error == Op(e).error
    ensures BackendOf(Op(e)).Ok? ==> (BackendOf(Op(e)).value.speaksOps <==> e.Replied?)
    ensures BackendOf(Op(e)).Ok? ==>
              (BackendOf(Op(e)).value.mode.VaultMode? <==> e.Replied? && DecodeOpResponse(e.message).Ok?)
  {
  }

  /** Locking over a session locks the vault, or says that it was locked. */
  lemma LockReasonSurvives(p: Primitives, v: Vault, passphrase: Bytes, env: Env, plain: Result<Bytes, ClientError>)
    ensures var (after, reply) := Serve(p, v, Encoded(AskLock(passphrase)), env);
            && reply.Some?
            && LockOrUnlock(Op(Replied(reply.value)), plain) == (if v.key.None? then Err(VaultLocked) else Ok([]))
            && after == v.(key := None)
  {
    RequestIsMethodCall(p, v, AskLock(passphrase), env);
  }

  /** Against an sshush agent the outcome of an unlock is always the reason the agent had, never the
      bare failure of the plain protocol. */
  lemma UnlockReasonSurvives(p: Primitives, v: Vault, passphrase: Bytes, env: Env, plain: Result<Bytes, ClientError>)
    ensures var (after, reply) := Serve(p, v, Encoded(AskUnlock(passphrase)), env);
            && reply.Some?
            && LockOrUnlock(Op(Replied(reply.value)), plain) ==
               (if v.key.Some? then Err(NotLocked)
                else if MasterKeyFor(p, v.metadata, passphrase).None? then Err(IncorrectPassphrase)
                else Ok([]))
            && (after.key.Some? <==> v.key.Some? || MasterKeyFor(p, v.metadata, passphrase).Some?)
  {
    RequestIsMethodCall(p, v, AskUnlock(passphrase), env);
  }
}
