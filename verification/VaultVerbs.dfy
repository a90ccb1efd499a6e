/** The vault verbs that take several selectors, and the one client code each failure becomes.
    A verb resolves every selector against the vault file as it was read once, and acts on the agent. */
module VaultVerbs {
  import opened Wrappers
  import opened Bytes
  import opened Crypto
  import opened IdentityList
  import opened Disk
  import opened VaultMachine
  import opened VaultBehaviour
  import opened Wire
  import opened OpDispatch
  import opened RunningAgent

  datatype Code =
    | CodeNoVaultPath | CodeVaultNotInitialized | CodeVaultUnreadable | CodeNotVaultAgent | CodeVaultLocked
    | CodeIdentityNotFound | CodeAmbiguousSelector | CodeEncryptedKey | CodeNoRecovery
    | CodeWrongPassphrase | CodeNotLocked | CodeAgentFailed

  /** What can stop a verb. Failures the verb itself raises already carry their code. */
  datatype Problem = Raised(code: Code) | NoMatch | AmbiguousComment | EncryptedKeyFile | FromAgent(error: ClientError)

  function Describe(problem: Problem): (c: Code) {
    match problem
    case Raised(code) => code
    case NoMatch => CodeIdentityNotFound
    case AmbiguousComment => CodeAmbiguousSelector
    case EncryptedKeyFile => CodeEncryptedKey
    case FromAgent(VaultLocked) => CodeVaultLocked
    case FromAgent(IdentityNotFound) => CodeIdentityNotFound
    case FromAgent(NoRecoveryPhrase) => CodeNoRecovery
    case FromAgent(IncorrectPassphrase) => CodeWrongPassphrase
    case FromAgent(NotLocked) => CodeNotLocked
    case FromAgent(OpUnsupported) => CodeNotVaultAgent
    case FromAgent(OpUnknown) => CodeNotVaultAgent
    case FromAgent(_) => CodeAgentFailed
  }

  /** Across the wire and back, a method's own error reaches the front end as the code that names it. */
  lemma MethodErrorReachesFrontEnd(e: Error)
    ensures var heard := DecodeOpResponse(ResultFor(Failed(e)));
            heard.Err? &&
            Describe(FromAgent(heard.error)) ==
            match e
            case Locked => CodeVaultLocked
            case AgentLocked => CodeVaultLocked
            case AgentNotLocked => CodeNotLocked
            case KeyNotFound => CodeIdentityNotFound
            case NoRecovery => CodeNoRecovery
            case WrongPassphrase => CodeWrongPassphrase
            case _ => CodeAgentFailed
  {
    ReplyReachesClient(Failed(e));
  }

  // ----- resolving -----

  ghost function CommentMatches(ids: seq<Identity>, comment: Bytes): (r: seq<Identity>) {
    if ids == [] then []
    else
      var last := ids[|ids| - 1];
      CommentMatches(ids[..|ids| - 1], comment) + if last.comment == comment then [last] else []
  }

  ghost function Resolved(ids: seq<Identity>, spec: Bytes): (r: Result<Identity, Problem>) {
    if spec == [] then Err(NoMatch)
    else if Find(ids, spec).Some? then Ok(Find(ids, spec).value)
    else
      var matches := CommentMatches(ids, spec);
      if |matches| == 0 then Err(NoMatch) else if |matches| == 1 then Ok(matches[0]) else Err(AmbiguousComment)
  }

  /** Where a comment stands in the list. */
  ghost function Positions(ids: seq<Identity>, comment: Bytes): (r: set<nat>) {
    set i: nat | i < |ids| && ids[i].comment == comment
  }

  lemma {:induction false} CommentMatchesMembers(ids: seq<Identity>, comment: Bytes, id: Identity)
    ensures id in CommentMatches(ids, comment) <==> id in ids && id.comment == comment
  {
    if ids == [] {
    } else {
      var front, last := ids[..|ids| - 1], ids[|ids| - 1];
      CommentMatchesMembers(front, comment, id);
      assert ids == front + [last];
    }
  }

  lemma {:induction false} CommentMatchesCount(ids: seq<Identity>, comment: Bytes)
    ensures |CommentMatches(ids, comment)| == |Positions(ids, comment)|
  {
    if ids == [] {
      assert Positions(ids, comment) == {};
    } else {
      var last := |ids| - 1;
      var before, now := Positions(ids[..last], comment), Positions(ids, comment);
      CommentMatchesCount(ids[..last], comment);
      if ids[last].comment == comment { assert now == before + {last}; } else { assert now == before; }
    }
  }

  /** A selector resolves to an identity exactly when it is that identity's fingerprint (first match),
      or no identity's fingerprint and the comment of it alone. */
  lemma ResolvesExactly(ids: seq<Identity>, spec: Bytes, id: Identity)
    ensures Resolved(ids, spec) == Ok(id) <==>
            && spec != []
            && (Find(ids, spec) == Some(id)
                || (Find(ids, spec).None? && id in ids && id.comment == spec
                    && |Positions(ids, spec)| == 1))
  {
    CommentMatchesMembers(ids, spec, id);
    CommentMatchesCount(ids, spec);
    var matches := CommentMatches(ids, spec);
    if |matches| == 1 { assert matches[0] in matches; }
  }

  method ResolveIdentity(ids: seq<Identity>, spec: Bytes) returns (r: Result<Identity, Problem>)
    ensures r == Resolved(ids, spec)
  {
    if |spec| == 0 { return Err(NoMatch); }
    for i := 0 to |ids|
      invariant forall j :: 0 <= j < i ==> ids[j].fingerprint != spec
    {
      if ids[i].fingerprint == spec {
        FirstAt(ids, spec, i);
        return Ok(ids[i]);
      }
    }
    InFps(ids, spec);
    var matches: seq<Identity> := [];
    for i := 0 to |ids|
      invariant matches == CommentMatches(ids[..i], spec)
    {
      assert ids[..i + 1][..i] == ids[..i];
      if ids[i].comment == spec {
        matches := matches + [ids[i]];
      }
    }
    assert ids[..|ids|] == ids;
    if |matches| == 0 { return Err(NoMatch); }
    if |matches| == 1 { return Ok(matches[0]); }
    return Err(AmbiguousComment);
  }

  /** What the path a selector might name turns out to hold. */
  datatype PathHolds = NoKeyFile | KeyFile(publicKey: Bytes) | Encrypted

  /** One unit of work: the store opened when it started, the file system seen through `inspect`, and
      which public key blobs parse. */
  datatype Conn = Conn(store: Option<VaultFile>, inspect: Bytes -> PathHolds, parses: Bytes -> bool)

  ghost function IdentityFor(p: Primitives, c: Conn, selector: Bytes): (r: Result<Identity, Problem>) {
    if c.store.None? || c.store.value.metadata.None? then Err(Raised(CodeVaultNotInitialized))
    else match c.inspect(selector)
      case Encrypted => Err(EncryptedKeyFile)
      case KeyFile(publicKey) =>
        (match Find(c.store.value.identities, p.fingerprint(publicKey))
         case Some(id) => Ok(id)
         case None => Err(NoMatch))
      case NoKeyFile => Resolved(c.store.value.identities, selector)
  }

  /** "SHA256:" */
  const SHA256_PREFIX: Bytes := [0x53, 0x48, 0x41, 0x32, 0x35, 0x36, 0x3a]

  ghost function FingerprintFor(p: Primitives, c: Conn, selector: Bytes): (r: Result<Fp, Problem>) {
    if c.store.None? then
      if SHA256_PREFIX <= selector then Ok(selector) else Err(Raised(CodeNoVaultPath))
    else match IdentityFor(p, c, selector)
      case Ok(id) => Ok(id.fingerprint)
      case Err(e) => Err(e)
  }

  method ResolveSelector(p: Primitives, c: Conn, selector: Bytes) returns (r: Result<Identity, Problem>)
    ensures r == IdentityFor(p, c, selector)
  {
    if c.store.None? || c.store.value.metadata.None? { return Err(Raised(CodeVaultNotInitialized)); }
    match c.inspect(selector) {
      case Encrypted => return Err(EncryptedKeyFile);
      case KeyFile(publicKey) =>
        var found := Find(c.store.value.identities, p.fingerprint(publicKey));
        return if found.Some? then Ok(found.value) else Err(NoMatch);
      case NoKeyFile =>
        r := ResolveIdentity(c.store.value.identities, selector);
    }
  }

  method ResolveFingerprint(p: Primitives, c: Conn, selector: Bytes) returns (r: Result<Fp, Problem>)
    ensures r == FingerprintFor(p, c, selector)
  {
    if c.store.None? {
      return if SHA256_PREFIX <= selector then Ok(selector) else Err(Raised(CodeNoVaultPath));
    }
    var id := ResolveSelector(p, c, selector);
    return if id.Ok? then Ok(id.value.fingerprint) else Err(id.error);
  }

  // ----- every selector, over any agent -----

  /** What a selector resolves to: the fingerprint reported, and the public key removing needs. */
  datatype Target = Target(fp: Fp, publicKey: Bytes)

  datatype Outcome<S> = Outcome(after: S, done: seq<Fp>, code: Option<Code>)

  type Resolve = Bytes -> Result<Target, Problem>
  type Act<!S> = (S, Target) -> (S, Option<Problem>)

  /** Selectors in order, up to the first that does not resolve or that the agent refuses. */
  function RunEach<S>(resolve: Resolve, act: Act<S>, start: S, selectors: seq<Bytes>): (r: Outcome<S>) {
    if selectors == [] then Outcome(start, [], None)
    else
      var before := RunEach(resolve, act, start, selectors[..|selectors| - 1]);
      if before.code.Some? then before
      else match resolve(selectors[|selectors| - 1])
        case Err(e) => before.(code := Some(Describe(e)))
        case Ok(target) =>
          var (after, problem) := act(before.after, target);
          if problem.Some? then Outcome(after, before.done, Some(Describe(problem.value)))
          else Outcome(after, before.done + [target.fp], None)
  }

  /** The agent after acting on each of these selectors that resolves. */
  function ActOnAll<S>(resolve: Resolve, act: Act<S>, start: S, selectors: seq<Bytes>): (after: S) {
    if selectors == [] then start
    else
      var before := ActOnAll(resolve, act, start, selectors[..|selectors| - 1]);
      match resolve(selectors[|selectors| - 1])
      case Err(_) => before
      case Ok(target) => act(before, target).0
  }

  /** A verb stops at the first failure. What it reports is the resolved form of a prefix of the
      selectors; the agent has been through exactly that prefix in order, and then the one it refused,
      if the agent is what stopped it. Without a failure the prefix is everything. */
  lemma {:induction false} StopsAtFirstFailure<S>(resolve: Resolve, act: Act<S>, start: S, selectors: seq<Bytes>)
    ensures var r := RunEach(resolve, act, start, selectors);
            && |r.done| <= |selectors|
            && (forall i :: 0 <= i < |r.done| ==>
                resolve(selectors[i]).Ok? && resolve(selectors[i]).value.fp == r.done[i])
            && (r.code.None? <==> |r.done| == |selectors|)
            && (var reached := ActOnAll(resolve, act, start, selectors[..|r.done|]);
                if r.code.None? then r.after == reached
                else match resolve(selectors[|r.done|])
                  case Err(e) => r.after == reached && r.code == Some(Describe(e))
                  case Ok(target) =>
                    var (after, problem) := act(reached, target);
                    r.after == after && problem.Some? && r.code == Some(Describe(problem.value)))
  {
    if selectors == [] {
    } else {
      var n := |selectors| - 1;
      var front := selectors[..n];
      StopsAtFirstFailure(resolve, act, start, front);
      var before := RunEach(resolve, act, start, front);
      assert front[..|before.done|] == selectors[..|before.done|];
      assert selectors[..n + 1] == selectors;
    }
  }

  /** One selector more. */
  lemma RunOneMore<S>(resolve: Resolve, act: Act<S>, start: S, selectors: seq<Bytes>, i: nat)
    requires i < |selectors| && RunEach(resolve, act, start, selectors[..i]).code.None?
    ensures var before, target := RunEach(resolve, act, start, selectors[..i]), resolve(selectors[i]);
            RunEach(resolve, act, start, selectors[..i + 1]) ==
            if target.Err? then before.(code := Some(Describe(target.error)))
            else
              var (after, problem) := act(before.after, target.value);
              if problem.Some? then Outcome(after, before.done, Some(Describe(problem.value)))
              else Outcome(after, before.done + [target.value.fp], None)
  {
    assert selectors[..i + 1][..i] == selectors[..i];
  }

  /** Once stopped, later selectors are not looked at. */
  lemma {:induction false} StoppedStays<S>(resolve: Resolve, act: Act<S>, start: S, selectors: seq<Bytes>, n: nat)
    requires n <= |selectors| && RunEach(resolve, act, start, selectors[..n]).code.Some?
    ensures RunEach(resolve, act, start, selectors) == RunEach(resolve, act, start, selectors[..n])
  {
    if n == |selectors| {
      assert selectors[..n] == selectors;
    } else {
      assert selectors[..|selectors| - 1][..n] == selectors[..n];
      StoppedStays(resolve, act, start, selectors[..|selectors| - 1], n);
    }
  }

  // ----- the verbs -----

  datatype Verb = Load | Autoload(on: bool) | RemoveIt

  /** Removing needs the stored identity itself; the other verbs need only a fingerprint. */
  ghost function TargetOf(p: Primitives, c: Conn, verb: Verb, selector: Bytes): (r: Result<Target, Problem>) {
    if verb.RemoveIt? then
      match IdentityFor(p, c, selector)
      case Ok(id) => if c.parses(id.publicKey) then Ok(Target(id.fingerprint, id.publicKey))
          else Err(Raised(CodeVaultUnreadable))
      case Err(e) => Err(e)
    else
      match FingerprintFor(p, c, selector)
      case Ok(fp) => Ok(Target(fp, []))
      case Err(e) => Err(e)
  }

  /** Loading and autoload go through sshush-op; removing uses the plain agent protocol, where every
      failure is the same failure. */
  ghost function ActOn(p: Primitives, verb: Verb, env: Env, v: Vault, target: Target): (r: (Vault, Option<Problem>)) {
    match verb
    case RemoveIt =>
      var (after, reply) := RemoveKey(p, v, target.publicKey, env);
      (after, if reply.Failed? then Some(FromAgent(TransportFailed)) else None)
    case Load => Heard(Serve(p, v, Encoded(AskSessionLoad(target.fp)), env))
    case Autoload(on) => Heard(Serve(p, v, Encoded(AskSetAutoload(target.fp, on)), env))
  }

  function Heard(served: (Vault, Option<Bytes>)): (r: (Vault, Option<Problem>)) {
    (served.0,
     if served.1.None? then Some(FromAgent(TransportFailed))
     else match DecodeOpResponse(served.1.value)
          case Err(e) => Some(FromAgent(e))
          case Ok(_) => None)
  }

  /** The vault, and how many times the verb has acted on it. Each action has its own moment: `envs(n)`
      is the clock, IV and fate of any save when it acts for the n-th time. */
  datatype Turn = Turn(vault: Vault, n: nat)

  type Envs = nat -> Env

  ghost function ActInTurn(p: Primitives, verb: Verb, envs: Envs): (act: Act<Turn>) {
    (w: Turn, target) =>
      var (after, problem) := ActOn(p, verb, envs(w.n), w.vault, target);
      (Turn(after, w.n + 1), problem)
  }

  ghost function RunVerb(p: Primitives, c: Conn, verb: Verb, envs: Envs, v: Vault, selectors: seq<Bytes>)
    : (r: Outcome<Turn>)
  {
    RunEach(selector => TargetOf(p, c, verb, selector), ActInTurn(p, verb, envs), Turn(v, 0), selectors)
  }

  /** The loop of Remove. */
  method RemoveEach(agent: VaultAgent, c: Conn, selectors: seq<Bytes>, envs: Envs)
      returns (done: seq<Fp>, code: Option<Code>, ghost turns: nat)
    requires agent.Valid()
    modifies agent, agent.store, agent.store.fs, agent.masterKey
    ensures agent.Valid()
    ensures Outcome(Turn(agent.View(), turns), done, code)
            == RunVerb(agent.prims, c, RemoveIt, envs, old(agent.View()), selectors)
  {
    ghost var resolve: Resolve := selector => TargetOf(agent.prims, c, RemoveIt, selector);
    ghost var act, start := ActInTurn(agent.prims, RemoveIt, envs), Turn(agent.View(), 0);
    done := [];
    for i := 0 to |selectors|
      invariant agent.Valid()
          && (agent.masterKey == null || agent.masterKey == old(agent.masterKey) || fresh(agent.masterKey))
      invariant Outcome(Turn(agent.View(), i), done, None) == RunEach(resolve, act, start, selectors[..i])
    {
      RunOneMore(resolve, act, start, selectors, i);
      var target := ResolveTarget(agent.prims, c, RemoveIt, selectors[i]);
      if target.Err? {
        StoppedStays(resolve, act, start, selectors, i + 1);
        return done, Some(Describe(target.error)), i;
      }
      var problem := ActOnAgent(agent, RemoveIt, target.value, envs(i));
      if problem.Some? {
        StoppedStays(resolve, act, start, selectors, i + 1);
        return done, Some(Describe(problem.value)), i + 1;
      }
      done := done + [target.value.fp];
    }
    assert selectors[..|selectors|] == selectors;
    return done, None, |selectors|;
  }

  /** The loop of SessionLoad. */
  method LoadEach(agent: VaultAgent, c: Conn, selectors: seq<Bytes>, envs: Envs)
      returns (done: seq<Fp>, code: Option<Code>, ghost turns: nat)
    requires agent.Valid()
    modifies agent, agent.store, agent.store.fs, agent.masterKey
    ensures agent.Valid()
    ensures Outcome(Turn(agent.View(), turns), done, code)
            == RunVerb(agent.prims, c, Load, envs, old(agent.View()), selectors)
  {
    ghost var resolve: Resolve := selector => TargetOf(agent.prims, c, Load, selector);
    ghost var act, start := ActInTurn(agent.prims, Load, envs), Turn(agent.View(), 0);
    done := [];
    for i := 0 to |selectors|
      invariant agent.Valid()
          && (agent.masterKey == null || agent.masterKey == old(agent.masterKey) || fresh(agent.masterKey))
      invariant Outcome(Turn(agent.View(), i), done, None) == RunEach(resolve, act, start, selectors[..i])
    {
      RunOneMore(resolve, act, start, selectors, i);
      var target := ResolveTarget(agent.prims, c, Load, selectors[i]);
      if target.Err? {
        StoppedStays(resolve, act, start, selectors, i + 1);
        return done, Some(Describe(target.error)), i;
      }
      var problem := ActOnAgent(agent, Load, target.value, envs(i));
      if problem.Some? {
        StoppedStays(resolve, act, start, selectors, i + 1);
        return done, Some(Describe(problem.value)), i + 1;
      }
      done := done + [target.value.fp];
    }
    assert selectors[..|selectors|] == selectors;
    return done, None, |selectors|;
  }

  /** The loop of SetAutoload. */
  method SetAutoloadEach(agent: VaultAgent, c: Conn, selectors: seq<Bytes>, on: bool, envs: Envs)
      returns (done: seq<Fp>, code: Option<Code>, ghost turns: nat)
    requires agent.Valid()
    modifies agent, agent.store, agent.store.fs, agent.masterKey
    ensures agent.Valid()
    ensures Outcome(Turn(agent.View(), turns), done, code)
            == RunVerb(agent.prims, c, Autoload(on), envs, old(agent.View()), selectors)
  {
    ghost var resolve: Resolve := selector => TargetOf(agent.prims, c, Autoload(on), selector);
    ghost var act, start := ActInTurn(agent.prims, Autoload(on), envs), Turn(agent.View(), 0);
    done := [];
    for i := 0 to |selectors|
      invariant agent.Valid()
          && (agent.masterKey == null || agent.masterKey == old(agent.masterKey) || fresh(agent.masterKey))
      invariant Outcome(Turn(agent.View(), i), done, None) == RunEach(resolve, act, start, selectors[..i])
    {
      RunOneMore(resolve, act, start, selectors, i);
      var target := ResolveTarget(agent.prims, c, Autoload(on), selectors[i]);
      if target.Err? {
        StoppedStays(resolve, act, start, selectors, i + 1);
        return done, Some(Describe(target.error)), i;
      }
      var problem := ActOnAgent(agent, Autoload(on), target.value, envs(i));
      if problem.Some? {
        StoppedStays(resolve, act, start, selectors, i + 1);
        return done, Some(Describe(problem.value)), i + 1;
      }
      done := done + [target.value.fp];
    }
    assert selectors[..|selectors|] == selectors;
    return done, None, |selectors|;
  }

  method ResolveTarget(p: Primitives, c: Conn, verb: Verb, selector: Bytes) returns (r: Result<Target, Problem>)
    ensures r == TargetOf(p, c, verb, selector)
  {
    if verb.RemoveIt? {
      var id := ResolveSelector(p, c, selector);
      if id.Err? { return Err(id.error); }
      if !c.parses(id.value.publicKey) { return Err(Raised(CodeVaultUnreadable)); }
      return Ok(Target(id.value.fingerprint, id.value.publicKey));
    }
    var fp := ResolveFingerprint(p, c, selector);
    return if fp.Ok? then Ok(Target(fp.value, [])) else Err(fp.error);
  }

  method ActOnAgent(agent: VaultAgent, verb: Verb, target: Target, env: Env) returns (problem: Option<Problem>)
    requires agent.Valid()
    modifies agent, agent.store, agent.store.fs, agent.masterKey
    ensures agent.Valid()
        && (agent.masterKey == null || agent.masterKey == old(agent.masterKey) || fresh(agent.masterKey))
    ensures (agent.View(), problem) == ActOn(agent.prims, verb, env, old(agent.View()), target)
  {
    if verb.RemoveIt? {
      var reply := agent.Remove(target.publicKey, env);
      return if reply.Failed? then Some(FromAgent(TransportFailed)) else None;
    }
    var request := if verb.Load? then AskSessionLoad(target.fp) else AskSetAutoload(target.fp, verb.on);
    VerbsDoNotFault(agent.prims, request);
    var reply := HandleOp(agent, Encoded(request), env);
    if reply.None? { return Some(FromAgent(TransportFailed)); }
    var heard := DecodeOpResponse(reply.value);
    return if heard.Err? then Some(FromAgent(heard.error)) else None;
  }

  lemma VerbsDoNotFault(p: Primitives, request: Request)
    requires request.AskSessionLoad? || request.AskSetAutoload?
    ensures !Understood(p, Encoded(request)).Faulting?
  {
    match request {
      case AskSessionLoad(fp) => FrameIsInterpreted(p, OP_SESSION_LOAD, fp);
      case AskSetAutoload(fp, on) => FrameIsInterpreted(p, OP_SET_AUTOLOAD, SetAutoloadPayload(fp, on));
    }
  }

  /** Removing the same stored identity by two selectors fails at the second: the store was read before
      the first took effect, so the selector still resolves, and the agent no longer has the key. */
  lemma RemovingTwiceFailsAtSecond(p: Primitives, c: Conn, v: Vault, a: Bytes, b: Bytes, id: Identity, envs: Envs)
    requires envs(0).fault.NoFault? && v.key.Some?
    requires IdentityFor(p, c, a) == Ok(id) && IdentityFor(p, c, b) == Ok(id) && c.parses(id.publicKey)
    requires Find(v.ids, p.fingerprint(id.publicKey)).Some?
    ensures var r := RunVerb(p, c, RemoveIt, envs, v, [a, b]);
            r.done == [id.fingerprint] && r.code == Some(CodeAgentFailed)
  {
    var target := Target(id.fingerprint, id.publicKey);
    var gone := ActOn(p, RemoveIt, envs(0), v, target).0;
    var after := ActOn(p, RemoveIt, envs(1), gone, target).0;
    RemoveThenGone(p, v, target, envs(0), envs(1));
    FailsAtSecond(p, c, v, a, b, target, target, RemoveIt, envs, gone, after, FromAgent(TransportFailed));
  }

  /** The second of two selectors stops the verb: what the first did stands and is reported. */
  lemma FailsAtSecond(p: Primitives, c: Conn, v: Vault, a: Bytes, b: Bytes, first: Target, second: Target,
      verb: Verb, envs: Envs, gone: Vault, after: Vault, problem: Problem)
    requires TargetOf(p, c, verb, a) == Ok(first) && TargetOf(p, c, verb, b) == Ok(second)
    requires ActOn(p, verb, envs(0), v, first) == (gone, None)
    requires ActOn(p, verb, envs(1), gone, second) == (after, Some(problem))
    ensures RunVerb(p, c, verb, envs, v, [a, b]) == Outcome(Turn(after, 2), [first.fp], Some(Describe(problem)))
  {
    var resolve: Resolve := selector => TargetOf(p, c, verb, selector);
    StopsAtSecond(resolve, ActInTurn(p, verb, envs), Turn(v, 0), a, b, first, second);
  }

  lemma StopsAtSecond<S>(resolve: Resolve, act: Act<S>, start: S, a: Bytes, b: Bytes, first: Target, second: Target)
    requires resolve(a) == Ok(first) && resolve(b) == Ok(second)
    requires act(start, first).1.None? && act(act(start, first).0, second).1.Some?
    ensures var (after, problem) := act(act(start, first).0, second);
            RunEach(resolve, act, start, [a, b]) == Outcome(after, [first.fp], Some(Describe(problem.value)))
  {
    var both: seq<Bytes>, one: seq<Bytes>, none: seq<Bytes> := [a, b], [a], [];
    assert both[..1] == one && one[..0] == none;
    assert RunEach(resolve, act, start, none) == Outcome(start, [], None);
  }

  lemma RemoveThenGone(p: Primitives, v: Vault, target: Target, env: Env, later: Env)
    requires env.fault.NoFault? && v.key.Some? && Find(v.ids, p.fingerprint(target.publicKey)).Some?
    ensures ActOn(p, RemoveIt, env, v, target).1 == None
    ensures var gone := ActOn(p, RemoveIt, env, v, target).0;
            ActOn(p, RemoveIt, later, gone, target).1 == Some(FromAgent(TransportFailed))
  {
    WithoutMembers(v.ids, {p.fingerprint(target.publicKey)});
  }

  /** A save that fails at the second of two removals: the first is reported, the second is reported
      failed, and the vault is left as UnsavedRemovalLeaves describes. */
  lemma SaveFailingMidway(p: Primitives, c: Conn, v: Vault, a: Bytes, b: Bytes, first: Target, second: Target,
      envs: Envs)
    requires TargetOf(p, c, RemoveIt, a) == Ok(first) && TargetOf(p, c, RemoveIt, b) == Ok(second)
    requires p.fingerprint(first.publicKey) != p.fingerprint(second.publicKey) && v.key.Some?
    requires Find(v.ids, p.fingerprint(first.publicKey)).Some? && Find(v.ids, p.fingerprint(second.publicKey)).Some?
    requires envs(0).fault.NoFault? && envs(1).fault.RenameFails?
    ensures var gone := RemovedFrom(v, p.fingerprint(first.publicKey), true);
            var after := RemovedFrom(gone, p.fingerprint(second.publicKey), false);
            RunVerb(p, c, RemoveIt, envs, v, [a, b]) == Outcome(Turn(after, 2), [first.fp], Some(CodeAgentFailed))
  {
    var gone := RemovedFrom(v, p.fingerprint(first.publicKey), true);
    RemovedThenUnsaved(p, v, first, second, envs(0), envs(1));
    FailsAtSecond(p, c, v, a, b, first, second, RemoveIt, envs, gone,
                  RemovedFrom(gone, p.fingerprint(second.publicKey), false), FromAgent(TransportFailed));
  }

  lemma RemovedThenUnsaved(p: Primitives, v: Vault, first: Target, second: Target, env: Env, later: Env)
    requires p.fingerprint(first.publicKey) != p.fingerprint(second.publicKey) && v.key.Some?
    requires Find(v.ids, p.fingerprint(first.publicKey)).Some? && Find(v.ids, p.fingerprint(second.publicKey)).Some?
    requires env.fault.NoFault? && later.fault.RenameFails?
    ensures var (x, y) := (p.fingerprint(first.publicKey), p.fingerprint(second.publicKey));
            var gone := RemovedFrom(v, x, true);
            && ActOn(p, RemoveIt, env, v, first) == (gone, None)
            && ActOn(p, RemoveIt, later, gone, second)
               == (RemovedFrom(gone, y, false), Some(FromAgent(TransportFailed)))
  {
    UnsavedRemovalLeaves(v, p.fingerprint(first.publicKey), p.fingerprint(second.publicKey));
    RemovalActs(p, v, first, env);
    RemovalActs(p, RemovedFrom(v, p.fingerprint(first.publicKey), true), second, later);
  }

  /** After one saved removal and one whose save failed, the agent has neither identity, and the file has
      lost the first and kept the second: a restart brings it back. */
  lemma UnsavedRemovalLeaves(v: Vault, x: Fp, y: Fp)
    requires x != y
    ensures var gone := RemovedFrom(v, x, true);
            var after := RemovedFrom(gone, y, false);
            && Find(gone.ids, y) == Find(v.ids, y)
            && Find(after.ids, x).None? && Find(after.ids, y).None?
            && after.disk == Some(VaultFile(v.metadata, gone.ids))
            && Find(gone.ids, x).None?
  {
    FindAfterWithout(v.ids, {x}, x);
    FindAfterWithout(v.ids, {x}, y);
    FindAfterWithout(Without(v.ids, {x}), {y}, x);
    FindAfterWithout(Without(v.ids, {x}), {y}, y);
  }

  function RemovedFrom(v: Vault, fp: Fp, saved: bool): (after: Vault) {
    var ids := Without(v.ids, {fp});
    v.(ids := ids, loaded := v.loaded - {fp}, hidden := v.hidden - {fp},
       disk := if saved then Some(VaultFile(v.metadata, ids)) else v.disk)
  }

  lemma RemovalActs(p: Primitives, v: Vault, target: Target, env: Env)
    requires v.key.Some? && Find(v.ids, p.fingerprint(target.publicKey)).Some?
    requires env.fault.NoFault? || env.fault.RenameFails?
    ensures ActOn(p, RemoveIt, env, v, target)
            == (RemovedFrom(v, p.fingerprint(target.publicKey), env.fault.NoFault?),
                if env.fault.NoFault? then None else Some(FromAgent(TransportFailed)))
  {
  }
}
