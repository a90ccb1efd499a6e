/** KDFLockedKeyring: a lock over any inner agent, holding only a salt and a derived key while locked. */
module LockedKeyring {
  import opened Wrappers
  import opened Bytes
  import opened Crypto
  import opened Wire

  /** What clients ask of the agent. The wrapper serves the sshush-op extension itself. */
  datatype Request =
    | List
    | Sign(publicKey: Bytes, data: Bytes)
    | Add(key: AddedKey)
    | Remove(publicKey: Bytes)
    | RemoveAll
    | Signers
    | SignWithFlags(publicKey: Bytes, data: Bytes, flags: nat)
    | OtherExtension(name: Bytes, contents: Bytes)

  datatype LockError = AgentLocked | AgentNotLocked | WrongPassphrase | NoRandomness

  /** The inner agent's own answer, or the wrapper's. */
  datatype Answer<A> = Inner(answer: A) | NoKeys | Refused(error: LockError) | Done | OpReply(message: Bytes)

  /** An inner agent is any state and any way of serving requests. */
  type Serving<!S, !A> = (S, Request) -> (S, A)

  datatype Verifier = Verifier(salt: Bytes, derivedKey: Bytes)

  /** Locked exactly when it holds a verifier. */
  datatype Keyring<S> = Keyring(inner: S, verifier: Option<Verifier>)

  /** One call. The salt is random; None when it cannot be generated. */
  datatype Call =
    | Lock(passphrase: Bytes, salt: Option<Salt>)
    | Unlock(passphrase: Bytes)
    | Forward(request: Request)
    | Op(contents: Bytes, salt: Option<Salt>)

  type Derive = (Bytes, Bytes) -> Block32

  function LockStep<S>(derive: Derive, k: Keyring<S>, passphrase: Bytes, salt: Option<Salt>)
    : (r: (Keyring<S>, Option<LockError>))
  {
    if k.verifier.Some? then (k, Some(AgentLocked))
    else if salt.None? then (k, Some(NoRandomness))
    else (k.(verifier := Some(Verifier(salt.value, derive(passphrase, salt.value)))), None)
  }

  function UnlockStep<S>(derive: Derive, k: Keyring<S>, passphrase: Bytes): (r: (Keyring<S>, Option<LockError>)) {
    if k.verifier.None? then (k, Some(AgentNotLocked))
    else if derive(passphrase, k.verifier.value.salt) != k.verifier.value.derivedKey then (k, Some(WrongPassphrase))
    else (k.(verifier := None), None)
  }

  /** Everything but List and the inner extensions is refused while locked; List shows no keys, and
      extensions are passed on whether locked or not. */
  function ForwardStep<S, A>(serve: Serving<S, A>, k: Keyring<S>, request: Request): (r: (Keyring<S>, Answer<A>)) {
    if k.verifier.Some? && request.List? then (k, NoKeys)
    else if k.verifier.Some? && !request.OtherExtension? then (k, Refused(AgentLocked))
    else
      var (inner, answer) := serve(k.inner, request);
      (k.(inner := inner), Inner(answer))
  }

  function KdfResultFor(error: Option<LockError>): (m: Bytes) {
    match error
    case None => Frame(STATUS_OK, [])
    case Some(AgentLocked) => Frame(STATUS_LOCKED, [])
    case Some(AgentNotLocked) => Frame(STATUS_NOT_LOCKED, [])
    case Some(WrongPassphrase) => Frame(STATUS_WRONG_PASSPHRASE, [])
    case Some(NoRandomness) => Frame(STATUS_INTERNAL, [])
  }

  function OpStep<S>(derive: Derive, k: Keyring<S>, contents: Bytes, salt: Option<Salt>): (r: (Keyring<S>, Bytes)) {
    match DecodeOpRequest(contents)
    case Err(_) => (k, Frame(STATUS_BAD_REQUEST, []))
    case Ok((op, payload)) =>
      if op == OP_LOCK then
        var (after, error) := LockStep(derive, k, payload, salt);
        (after, KdfResultFor(error))
      else if op == OP_UNLOCK then
        var (after, error) := UnlockStep(derive, k, payload);
        (after, KdfResultFor(error))
      else (k, Frame(STATUS_UNSUPPORTED_OP, []))
  }

  function Outcome<A>(error: Option<LockError>): (a: Answer<A>) {
    if error.None? then Done else Refused(error.value)
  }

  function Step<S, A>(derive: Derive, serve: Serving<S, A>, k: Keyring<S>, call: Call): (r: (Keyring<S>, Answer<A>)) {
    match call
    case Lock(passphrase, salt) =>
      var (after, error) := LockStep(derive, k, passphrase, salt);
      (after, Outcome(error))
    case Unlock(passphrase) =>
      var (after, error) := UnlockStep(derive, k, passphrase);
      (after, Outcome(error))
    case Forward(request) => ForwardStep(serve, k, request)
    case Op(contents, salt) =>
      var (after, message) := OpStep(derive, k, contents, salt);
      (after, OpReply(message))
  }

  function Trace<S, A>(derive: Derive, serve: Serving<S, A>, k: Keyring<S>, calls: seq<Call>): (r: Keyring<S>) {
    if calls == [] then k
    else Step(derive, serve, Trace(derive, serve, k, calls[..|calls| - 1]), calls[|calls| - 1]).0
  }

  // ----- laws -----

  /** The wrapper over an agent with no state: what is left is the lock. */
  function LockAfter(derive: Derive, v: Option<Verifier>, calls: seq<Call>): (after: Option<Verifier>) {
    Trace(derive, (u: (), r: Request) => ((), ()), Keyring((), v), calls).verifier
  }

  /** The call is a request made while unlocked, or an extension, which the lock does not stop. */
  predicate Reaches(v: Option<Verifier>, call: Call) {
    call.Forward? && (v.None? || call.request.OtherExtension?)
  }

  /** Of these calls, the requests that reach the inner agent, in order. */
  function Forwarded(derive: Derive, v: Option<Verifier>, calls: seq<Call>): (requests: seq<Request>) {
    if calls == [] then []
    else
      var front, last := calls[..|calls| - 1], calls[|calls| - 1];
      Forwarded(derive, v, front)
      + if Reaches(LockAfter(derive, v, front), last) then [last.request] else []
  }

  /** The inner agent on its own. */
  function InnerRun<S, A>(serve: Serving<S, A>, inner: S, requests: seq<Request>): (r: (S, seq<A>)) {
    if requests == [] then (inner, [])
    else
      var before := InnerRun(serve, inner, requests[..|requests| - 1]);
      var (after, answer) := serve(before.0, requests[|requests| - 1]);
      (after, before.1 + [answer])
  }

  function AnswerAt<S, A>(derive: Derive, serve: Serving<S, A>, k: Keyring<S>, calls: seq<Call>, i: nat)
    : (a: Answer<A>)
    requires i < |calls|
  {
    Step(derive, serve, Trace(derive, serve, k, calls[..i]), calls[i]).1
  }

  /** The inner agent's answers among the wrapper's, in order. */
  function InnerAnswers<S, A>(derive: Derive, serve: Serving<S, A>, k: Keyring<S>, calls: seq<Call>)
    : (answers: seq<A>)
  {
    if calls == [] then []
    else
      var answer := AnswerAt(derive, serve, k, calls, |calls| - 1);
      InnerAnswers(derive, serve, k, calls[..|calls| - 1]) + if answer.Inner? then [answer.answer] else []
  }

  /** The lock does not depend on what is inside. */
  lemma StepLocksAlike<S, T, A, B>(derive: Derive, f: Serving<S, A>, g: Serving<T, B>, k: Keyring<S>, l: Keyring<T>,
      call: Call)
    requires k.verifier == l.verifier
    ensures Step(derive, f, k, call).0.verifier == Step(derive, g, l, call).0.verifier
  {
  }

  lemma StepServesInner<S, A>(derive: Derive, serve: Serving<S, A>, k: Keyring<S>, call: Call)
    ensures var (after, answer) := Step(derive, serve, k, call);
            if Reaches(k.verifier, call)
            then after.inner == serve(k.inner, call.request).0 && answer == Inner(serve(k.inner, call.request).1)
            else after.inner == k.inner && !answer.Inner?
  {
  }

  lemma InnerRunAppend<S, A>(serve: Serving<S, A>, inner: S, requests: seq<Request>, request: Request)
    ensures var (before, answers) := InnerRun(serve, inner, requests);
            InnerRun(serve, inner, requests + [request])
            == (serve(before, request).0, answers + [serve(before, request).1])
  {
    assert (requests + [request])[..|requests|] == requests;
  }

  /** For every trace of calls, the wrapped agent has been through exactly the requests made while
      unlocked, and the extensions, as if it had been driven by those alone: its state is that of its own
      run over them, and the answers it gives through the wrapper are that run's, in order. The lock
      itself is as if nothing were inside. */
  lemma {:induction false} UnlockedIsTransparent<S, A>(derive: Derive, serve: Serving<S, A>, k: Keyring<S>,
      calls: seq<Call>)
    ensures var requests := Forwarded(derive, k.verifier, calls);
            && Trace(derive, serve, k, calls)
               == Keyring(InnerRun(serve, k.inner, requests).0, LockAfter(derive, k.verifier, calls))
            && InnerAnswers(derive, serve, k, calls) == InnerRun(serve, k.inner, requests).1
  {
    if calls == [] {
    } else {
      var front, last := calls[..|calls| - 1], calls[|calls| - 1];
      UnlockedIsTransparent(derive, serve, k, front);
      var before := Trace(derive, serve, k, front);
      var idle: Serving<(), ()> := (u: (), r: Request) => ((), ());
      StepLocksAlike(derive, serve, idle, before, Trace(derive, idle, Keyring((), k.verifier), front), last);
      StepServesInner(derive, serve, before, last);
      if Reaches(before.verifier, last) {
        InnerRunAppend(serve, k.inner, Forwarded(derive, k.verifier, front), last.request);
      } else {
        assert Forwarded(derive, k.verifier, calls) == Forwarded(derive, k.verifier, front);
      }
    }
  }

  /** In any trace the inner agent's answer is given to exactly the calls that reach it; every other call
      is answered by the wrapper. */
  lemma AnsweredFromInsideIff<S, A>(derive: Derive, serve: Serving<S, A>, k: Keyring<S>, calls: seq<Call>, i: nat)
    requires i < |calls|
    ensures AnswerAt(derive, serve, k, calls, i).Inner?
            <==> Reaches(LockAfter(derive, k.verifier, calls[..i]), calls[i])
  {
    UnlockedIsTransparent(derive, serve, k, calls[..i]);
    StepServesInner(derive, serve, Trace(derive, serve, k, calls[..i]), calls[i]);
  }

  /** What the wrapper itself answers, at any point of any trace. A locked wrapper shows no keys, without
      an error, and refuses everything else but extensions; nothing else is answered so. */
  lemma LockedAnswers<S, A>(derive: Derive, serve: Serving<S, A>, k: Keyring<S>, calls: seq<Call>, i: nat)
    requires i < |calls|
    ensures var lock, call := LockAfter(derive, k.verifier, calls[..i]), calls[i];
            var answer := AnswerAt(derive, serve, k, calls, i);
            && (answer == NoKeys <==> lock.Some? && call == Forward(List))
            && (answer == Refused(AgentLocked) <==>
                  lock.Some?
                  && (call.Lock? || (call.Forward? && call.request != List && !call.request.OtherExtension?)))
            && (answer.OpReply? <==> call.Op?)
  {
    UnlockedIsTransparent(derive, serve, k, calls[..i]);
  }

  /** What a direct lock or unlock is told: not locked, wrong passphrase, no randomness for a salt, or
      done. */
  lemma LockingAnswers<S, A>(derive: Derive, serve: Serving<S, A>, k: Keyring<S>, calls: seq<Call>, i: nat)
    requires i < |calls|
    ensures var lock, call := LockAfter(derive, k.verifier, calls[..i]), calls[i];
            var answer := AnswerAt(derive, serve, k, calls, i);
            var right := call.Unlock? && lock.Some?
                && derive(call.passphrase, lock.value.salt) == lock.value.derivedKey;
            && (answer == Refused(AgentNotLocked) <==> call.Unlock? && lock.None?)
            && (answer == Refused(WrongPassphrase) <==> call.Unlock? && lock.Some? && !right)
            && (answer == Refused(NoRandomness) <==> call.Lock? && lock.None? && call.salt.None?)
            && (answer == Answer<A>.Done <==> right || (call.Lock? && lock.None? && call.salt.Some?))
  {
    UnlockedIsTransparent(derive, serve, k, calls[..i]);
  }

  /** An unlocked wrapper is locked by a lock, direct or by message, that can have a salt, and by nothing
      else; what it then holds is that salt and the key the passphrase derives with it. */
  lemma UnlockedLocksOnlyBy<S, A>(derive: Derive, serve: Serving<S, A>, k: Keyring<S>, call: Call)
    requires k.verifier.None?
    ensures Step(derive, serve, k, call).0.verifier ==
            if call.Lock? && call.salt.Some? then
              Some(Verifier(call.salt.value, derive(call.passphrase, call.salt.value)))
            else if call.Op? && Frame(OP_LOCK, []) <= call.contents && call.salt.Some? then
              Some(Verifier(call.salt.value, derive(call.contents[2..], call.salt.value)))
            else None
  {
  }

  /** While locked, a call changes nothing at all, except that a call carrying the right passphrase
      unlocks and an extension that is not sshush-op still reaches the inner agent. */
  lemma LockedChangesOnlyBy<S, A>(derive: Derive, serve: Serving<S, A>, k: Keyring<S>, call: Call)
    requires k.verifier.Some?
    ensures var after := Step(derive, serve, k, call).0;
            after == if call.Forward? && call.request.OtherExtension? then k.(inner := serve(k.inner, call.request).0)
                     else if CarriesPassphrase(derive, k.verifier.value, call) then k.(verifier := None)
                     else k
  {
    if call.Op? && |call.contents| >= 2 {
      assert call.contents[0] == OP_VERSION && call.contents[1] == OP_UNLOCK ==>
        call.contents == Frame(OP_UNLOCK, call.contents[2..]);
    }
  }

  /** An unlock, direct or by message, whose passphrase derives the verifier's key. */
  predicate CarriesPassphrase(derive: Derive, v: Verifier, call: Call) {
    match call
    case Unlock(passphrase) => derive(passphrase, v.salt) == v.derivedKey
    case Op(contents, _) =>
      |contents| >= 2 && contents[..2] == Frame(OP_UNLOCK, []) && derive(contents[2..], v.salt) == v.derivedKey
    case _ => false
  }

  /** A plain keyring has no extensions: it answers them all without changing. */
  ghost predicate InertExtensions<S(!new), A>(serve: Serving<S, A>) {
    forall s, name, contents :: serve(s, OtherExtension(name, contents)).0 == s
  }

  /** Over an inner agent without extensions, a locked wrapper is unchanged by any calls of which none
      carries the passphrase. */
  lemma {:induction false} LockedTraceIsStill<S(!new), A>(derive: Derive, serve: Serving<S, A>, k: Keyring<S>,
      calls: seq<Call>)
    requires k.verifier.Some? && InertExtensions(serve)
    requires forall i :: 0 <= i < |calls| ==> !CarriesPassphrase(derive, k.verifier.value, calls[i])
    ensures Trace(derive, serve, k, calls) == k
  {
    if calls == [] {
    } else {
      LockedTraceIsStill(derive, serve, k, calls[..|calls| - 1]);
      LockedChangesOnlyBy(derive, serve, k, calls[|calls| - 1]);
    }
  }

  /** Locking, then any calls none of which carries the passphrase, then unlocking: the exact earlier
      state is back. */
  lemma LockThenUnlockRestores<S(!new), A>(derive: Derive, serve: Serving<S, A>, k: Keyring<S>, passphrase: Bytes,
      salt: Salt, calls: seq<Call>)
    requires k.verifier.None? && InertExtensions(serve)
    requires forall i :: 0 <= i < |calls| ==>
               !CarriesPassphrase(derive, Verifier(salt, derive(passphrase, salt)), calls[i])
    ensures var locked := Step(derive, serve, k, Lock(passphrase, Some(salt))).0;
            Step(derive, serve, Trace(derive, serve, locked, calls), Unlock(passphrase)) == (k, Answer<A>.Done)
  {
    var locked := Step(derive, serve, k, Lock(passphrase, Some(salt))).0;
    LockedTraceIsStill(derive, serve, locked, calls);
  }

  /** The plain-keyring condition is needed: an inner agent that changes on extensions changes while
      locked. */
  lemma ExtensionsReachALockedInner(derive: Derive, passphrase: Bytes, salt: Salt)
    ensures var serve: Serving<nat, bool> := (s: nat, r: Request) => (if r.OtherExtension? then s + 1 else s, true);
            var locked := Step(derive, serve, Keyring(0, None), Lock(passphrase, Some(salt))).0;
            && !InertExtensions(serve)
            && Step(derive, serve, locked, Forward(OtherExtension([], []))).0.inner == 1
  {
    var serve: Serving<nat, bool> := (s: nat, r: Request) => (if r.OtherExtension? then s + 1 else s, true);
    assert serve(0, OtherExtension([], [])).0 != 0;
  }

  /** The reasons an op can fail all reach the client: locked, not locked, wrong passphrase, or none that
      it could act on. Messages that are no request, or ask for anything else, change nothing. */
  lemma LockReasonsReachClient<S>(derive: Derive, k: Keyring<S>, passphrase: Bytes, salt: Option<Salt>)
    ensures var (locked, reply) := OpStep(derive, k, Frame(OP_LOCK, passphrase), salt);
            && DecodeOpResponse(reply) == (if k.verifier.Some? then Err(VaultLocked)
                                           else if salt.None? then Err(AgentInternal)
                                           else Ok([]))
            && (locked.verifier.Some? <==> k.verifier.Some? || salt.Some?) && locked.inner == k.inner
    ensures var (after, reply) := OpStep(derive, k, Frame(OP_UNLOCK, passphrase), salt);
            DecodeOpResponse(reply) == (if k.verifier.None? then Err(NotLocked)
                                        else if after.verifier.Some? then Err(IncorrectPassphrase)
                                        else Ok([]))
  {
    RequestsRoundTrip(Frame(OP_LOCK, passphrase), OP_LOCK, passphrase);
    RequestsRoundTrip(Frame(OP_UNLOCK, passphrase), OP_UNLOCK, passphrase);
  }

  lemma OtherMessagesAreRefused<S>(derive: Derive, k: Keyring<S>, contents: Bytes, salt: Option<Salt>)
    ensures var (after, reply) := OpStep(derive, k, contents, salt);
            var request := |contents| >= 2 && contents[0] == 1;
            && (DecodeOpResponse(reply) == Err(BadRequest) <==> !request)
            && (DecodeOpResponse(reply) == Err(OpUnknown) <==> request && contents[1] !in {2, 3})
            && (DecodeOpResponse(reply) in {Err(BadRequest), Err(OpUnknown)} ==> after == k)
  {
  }

  // ----- the wrapper -----

  class KDFLockedKeyring<S, A> {
    const derive: Derive
    const serve: Serving<S, A>
    var inner: S
    var locked: bool
    var salt: array?<byte>
    var derivedKey: array?<byte>

    ghost predicate Valid()
      reads this, salt, derivedKey
    {
      && (locked <==> salt != null) && (locked <==> derivedKey != null)
      && (locked ==> salt as object != derivedKey as object)
    }

    ghost function View(): (k: Keyring<S>)
      requires Valid()
      reads this, salt, derivedKey
    {
      Keyring(inner, if locked then Some(Verifier(salt[..], derivedKey[..])) else None)
    }

    constructor (derive: Derive, serve: Serving<S, A>, inner: S)
      ensures Valid() && View() == Keyring(inner, None)
      ensures this.derive == derive && this.serve == serve
    {
      this.derive, this.serve, this.inner := derive, serve, inner;
      locked, salt, derivedKey := false, null, null;
    }

    method LockWith(passphrase: Bytes, newSalt: Option<Salt>) returns (error: Option<LockError>)
      requires Valid()
      modifies this`locked, this`salt, this`derivedKey
      ensures Valid()
      ensures (View(), error) == LockStep(derive, old(View()), passphrase, newSalt)
      ensures error.None? ==> fresh(salt) && fresh(derivedKey)
    {
      if locked { return Some(AgentLocked); }
      if newSalt.None? { return Some(NoRandomness); }
      var s, d := newSalt.value, derive(passphrase, newSalt.value);
      var saltCopy := new byte[|s|](i requires 0 <= i < |s| => s[i]);
      var derived := new byte[|d|](i requires 0 <= i < |d| => d[i]);
      salt, derivedKey, locked := saltCopy, derived, true;
      assert salt[..] == s && derivedKey[..] == d;
      error := None;
    }

    /** On success both buffers of the verifier are zeroed before they are dropped. */
    method UnlockWith(passphrase: Bytes) returns (error: Option<LockError>)
      requires Valid()
      modifies this`locked, this`salt, this`derivedKey, salt, derivedKey
      ensures Valid()
      ensures (View(), error) == UnlockStep(derive, old(View()), passphrase)
      ensures error.None? ==> forall i :: 0 <= i < old(salt).Length ==> old(salt)[i] == 0
      ensures error.None? ==> forall i :: 0 <= i < old(derivedKey).Length ==> old(derivedKey)[i] == 0
    {
      if !locked { return Some(AgentNotLocked); }
      var got := derive(passphrase, salt[..]);
      if got != derivedKey[..] { return Some(WrongPassphrase); }
      Wipe(salt);
      Wipe(derivedKey);
      salt, derivedKey, locked := null, null, false;
      error := None;
    }

    /** List, Sign, Add, Remove, RemoveAll, Signers, SignWithFlags and Extension share this gate. */
    method ForwardRequest(request: Request) returns (answer: Answer<A>)
      requires Valid()
      modifies this`inner
      ensures Valid()
      ensures (View(), answer) == ForwardStep(serve, old(View()), request)
    {
      if locked && request.List? { return NoKeys; }
      if locked && !request.OtherExtension? { return Refused(AgentLocked); }
      var (after, reply) := serve(inner, request);
      inner := after;
      answer := Inner(reply);
    }

    method HandleOp(contents: Bytes, newSalt: Option<Salt>) returns (message: Bytes)
      requires Valid()
      modifies this`locked, this`salt, this`derivedKey, salt, derivedKey
      ensures Valid()
      ensures (View(), message) == OpStep(derive, old(View()), contents, newSalt)
    {
      var request := DecodeOpRequest(contents);
      if request.Err? { return Frame(STATUS_BAD_REQUEST, []); }
      var (op, payload) := request.value;
      if op == OP_LOCK {
        var error := LockWith(payload, newSalt);
        message := KdfResultFor(error);
      } else if op == OP_UNLOCK {
        var error := UnlockWith(payload);
        message := KdfResultFor(error);
      } else {
        message := Frame(STATUS_UNSUPPORTED_OP, []);
      }
    }
  }
}
