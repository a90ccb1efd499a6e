/** The sshush-op server over a vault agent, and the client on the other side of it. Driving a vault
    through messages is the same as calling its methods. */
module OpDispatch {
  import opened Wrappers
  import opened Bytes
  import opened Text
  import opened Crypto
  import opened Disk
  import opened Store
  import opened VaultMachine
  import opened VaultInvariant
  import opened Wire
  import opened RunningAgent

  function StatusForError(e: Option<Error>): (status: byte) {
    match e
    case None => STATUS_OK
    case Some(Locked) => STATUS_LOCKED
    case Some(AgentLocked) => STATUS_LOCKED
    case Some(KeyNotFound) => STATUS_NOT_FOUND
    case Some(NoRecovery) => STATUS_NO_RECOVERY
    case Some(WrongPassphrase) => STATUS_WRONG_PASSPHRASE
    case Some(AgentNotLocked) => STATUS_NOT_LOCKED
    case Some(_) => STATUS_INTERNAL
  }

  function ErrorOf(reply: Reply): (e: Option<Error>) {
    if reply.Failed? then Some(reply.error) else None
  }

  function ResultFor(reply: Reply): (m: Bytes) {
    Frame(StatusForError(ErrorOf(reply)), [])
  }

  /** The words of a recovery phrase, one space apart. */
  function NormalisedPhrase(payload: Bytes): (m: Bytes) {
    Join(Fields(TrimSpace(payload)))
  }

  function FromPem(parsed: (PrivateKey, Bytes)): (key: AddedKey) {
    AddedKey(parsed.0, parsed.1, 0, false, 0, false)
  }

  /** What the server makes of a message before it touches the vault. */
  datatype Meaning = Query | Call(command: Command) | Refused(status: byte) | Faulting

  function CallOnFp(fp: Bytes, command: Command): (m: Meaning) {
    if fp == [] then Refused(STATUS_BAD_REQUEST) else Call(command)
  }

  function Interpreted(p: Primitives, op: byte, payload: Bytes): (m: Meaning) {
    if op == OP_VAULT_LOCKED then Query
    else if op == OP_LOCK then Call(Lock)
    else if op == OP_UNLOCK then Call(Unlock(payload))
    else if op == OP_UNLOCK_RECOVERY then Call(UnlockRecovery(NormalisedPhrase(payload)))
    else if op == OP_SESSION_LOAD then CallOnFp(TrimSpace(payload), SessionLoad(TrimSpace(payload)))
    else if op == OP_SESSION_UNLOAD then CallOnFp(TrimSpace(payload), SessionUnload(TrimSpace(payload)))
    else if op == OP_SET_AUTOLOAD then
      (match ParseSetAutoloadPayload(payload)
       case Err(_) => Refused(STATUS_BAD_REQUEST)
       case Ok((fp, on)) => Call(SetAutoload(fp, on)))
    else if op == OP_SET_COMMENT then
      (match ParseSetCommentPayload(payload)
       case Err(_) => Refused(STATUS_BAD_REQUEST)
       case Ok((fp, comment)) => Call(SetComment(fp, comment)))
    else if op == OP_ADD_KEY then
      (match SplitAddKeyOptsPayload(payload)
       case Fault => Faulting
       case Malformed(_) => Refused(STATUS_BAD_REQUEST)
       case Split(pem, autoload, path) =>
         match p.parsePem(pem)
         case None => Refused(STATUS_BAD_REQUEST)
         case Some(parsed) => Call(AddWithOptions(FromPem(parsed), autoload, path)))
    else Refused(STATUS_UNSUPPORTED_OP)
  }

  function Understood(p: Primitives, contents: Bytes): (m: Meaning) {
    match DecodeOpRequest(contents)
    case Err(_) => Refused(STATUS_BAD_REQUEST)
    case Ok((op, payload)) => Interpreted(p, op, payload)
  }

  /** handleOp. A fault ends the process: there is no reply, and what comes next is a daemon started
      afresh over the file. */
  ghost function Serve(p: Primitives, v: Vault, contents: Bytes, env: Env): (r: (Vault, Option<Bytes>)) {
    match Understood(p, contents)
    case Query => (v, Some(Frame(STATUS_OK, [Flag(v.key.None?)])))
    case Refused(status) => (v, Some(Frame(status, [])))
    case Faulting => (VaultMachine.Opened(v.disk), None)
    case Call(command) => (Apply(p, v, command, env).0, Some(ResultFor(Apply(p, v, command, env).1)))
  }

  /** Runs one command on the agent. */
  method Perform(agent: VaultAgent, command: Command, env: Env) returns (reply: Reply)
    requires agent.Valid() && !command.Restart?
    modifies agent, agent.store, agent.store.fs, agent.masterKey
    ensures agent.Valid()
    ensures (agent.View(), reply) == Apply(agent.prims, old(agent.View()), command, env)
    ensures agent.masterKey == null || agent.masterKey == old(agent.masterKey) || fresh(agent.masterKey)
  {
    match command {
      case List => reply := agent.List(env);
      case Add(key) => reply := agent.Add(key, env);
      case AddWithOptions(key, autoload, filepath) => reply := agent.AddKeyWithAutoload(key, autoload, filepath, env);
      case Remove(publicKey) => reply := agent.Remove(publicKey, env);
      case RemoveAll => reply := agent.RemoveAll(env);
      case Lock => reply := agent.Lock(env);
      case Unlock(passphrase) => reply := agent.Unlock(passphrase, env);
      case UnlockRecovery(mnemonic) => reply := agent.UnlockWithRecovery(mnemonic, env);
      case Sign(publicKey) => reply := agent.Sign(publicKey, env);
      case SessionLoad(fp) => reply := agent.SessionLoad(fp);
      case SessionUnload(fp) => reply := agent.SessionUnload(fp);
      case SetAutoload(fp, on) => reply := agent.SetIdentityAutoload(fp, on, env);
      case SetComment(fp, comment) => reply := agent.SetIdentityComment(fp, comment, env);
    }
  }

  /** handleOp on the running agent. Without a reply the process is gone and only its file remains. */
  method HandleOp(agent: VaultAgent, contents: Bytes, env: Env) returns (reply: Option<Bytes>)
    requires agent.Valid()
    modifies agent, agent.store, agent.store.fs, agent.masterKey
    ensures agent.Valid()
    ensures (if reply.Some? then agent.View() else VaultMachine.Opened(agent.View().disk), reply)
            == Serve(agent.prims, old(agent.View()), contents, env)
    ensures agent.masterKey == null || agent.masterKey == old(agent.masterKey) || fresh(agent.masterKey)
  {
    match Understood(agent.prims, contents) {
      case Query => reply := Some(Frame(STATUS_OK, [Flag(agent.masterKey == null)]));
      case Refused(status) => reply := Some(Frame(status, []));
      case Faulting => reply := None;
      case Call(command) =>
        OnlyAgentCalls(agent.prims, contents);
        var result := Perform(agent, command, env);
        reply := Some(ResultFor(result));
    }
  }

  lemma OnlyAgentCalls(p: Primitives, contents: Bytes)
    ensures Understood(p, contents).Call? ==> !Understood(p, contents).command.Restart?
  {
  }

  // ----- the client -----

  /** What the client's wrappers ask for, before anything is encoded. */
  datatype Request =
    | AskLocked
    | AskLock(passphrase: Bytes)
    | AskUnlock(passphrase: Bytes)
    | AskUnlockRecovery(phrase: Bytes)
    | AskSessionLoad(fp: Bytes)
    | AskSessionUnload(fp: Bytes)
    | AskSetAutoload(fp: Bytes, on: bool)
    | AskSetComment(fp: Bytes, comment: Bytes)
    | AskAddKey(path: Bytes, pem: Bytes, autoload: bool)

  function Encoded(r: Request): (m: Bytes) {
    match r
    case AskLocked => Frame(OP_VAULT_LOCKED, [])
    case AskLock(passphrase) => Frame(OP_LOCK, passphrase)
    case AskUnlock(passphrase) => Frame(OP_UNLOCK, passphrase)
    case AskUnlockRecovery(phrase) => Frame(OP_UNLOCK_RECOVERY, phrase)
    case AskSessionLoad(fp) => Frame(OP_SESSION_LOAD, fp)
    case AskSessionUnload(fp) => Frame(OP_SESSION_UNLOAD, fp)
    case AskSetAutoload(fp, on) => Frame(OP_SET_AUTOLOAD, SetAutoloadPayload(fp, on))
    case AskSetComment(fp, comment) => Frame(OP_SET_COMMENT, SetCommentPayload(fp, comment))
    case AskAddKey(path, pem, autoload) => Frame(OP_ADD_KEY, AddKeyOptsPayload(pem, autoload, path))
  }

  /** Every length field of the request can carry its length. */
  predicate Fits(r: Request) {
    match r
    case AskSetAutoload(fp, _) => |fp| < TWO_32
    case AskSetComment(fp, comment) => |fp| < TWO_32 && |comment| < TWO_32
    case AskAddKey(path, pem, _) => |path| < TWO_32 && |pem| < TWO_32
    case _ => true
  }

  /** The method call a request stands for, or None for one that calls no method. */
  function MethodCall(p: Primitives, r: Request): (c: Option<Command>) {
    match r
    case AskLocked => None
    case AskLock(_) => Some(Lock)
    case AskUnlock(passphrase) => Some(Unlock(passphrase))
    case AskUnlockRecovery(phrase) => Some(UnlockRecovery(NormalisedPhrase(phrase)))
    case AskSessionLoad(fp) => if TrimSpace(fp) == [] then None else Some(SessionLoad(TrimSpace(fp)))
    case AskSessionUnload(fp) => if TrimSpace(fp) == [] then None else Some(SessionUnload(TrimSpace(fp)))
    case AskSetAutoload(fp, on) => Some(SetAutoload(fp, on))
    case AskSetComment(fp, comment) => Some(SetComment(fp, comment))
    case AskAddKey(path, pem, autoload) =>
      if p.parsePem(pem).None? then None else Some(AddWithOptions(FromPem(p.parsePem(pem).value), autoload, path))
  }

  /** The sentinel that names a method's own error to the client. */
  function SentinelFor(e: Error): (s: ClientError) {
    match e
    case Locked => VaultLocked
    case AgentLocked => VaultLocked
    case AgentNotLocked => ClientError.NotLocked
    case KeyNotFound => IdentityNotFound
    case NoRecovery => NoRecoveryPhrase
    case WrongPassphrase => IncorrectPassphrase
    case _ => AgentInternal
  }

  /** What the client should learn from a method call's own reply. */
  function Learned(reply: Reply): (r: Result<Bytes, ClientError>) {
    if reply.Failed? then Err(SentinelFor(reply.error)) else Ok([])
  }

  /** Status bytes lose nothing the client could act on: decoding the response to a method's reply
      gives the sentinel naming the method's own error. */
  lemma ReplyReachesClient(reply: Reply)
    ensures DecodeOpResponse(ResultFor(reply)) == Learned(reply)
  {
    ResponsesRoundTrip(StatusForError(ErrorOf(reply)), []);
  }

  lemma FrameIsInterpreted(p: Primitives, op: byte, payload: Bytes)
    ensures Understood(p, Frame(op, payload)) == Interpreted(p, op, payload)
  {
    RequestsRoundTrip(Frame(op, payload), op, payload);
  }

  lemma AddKeyIsUnderstood(p: Primitives, path: Bytes, pem: Bytes, autoload: bool)
    requires Fits(AskAddKey(path, pem, autoload))
    ensures Understood(p, Encoded(AskAddKey(path, pem, autoload))) ==
            if p.parsePem(pem).None? then Refused(STATUS_BAD_REQUEST)
            else Call(AddWithOptions(FromPem(p.parsePem(pem).value), autoload, path))
  {
    var payload := AddKeyOptsPayload(pem, autoload, path);
    FrameIsInterpreted(p, OP_ADD_KEY, payload);
    AddKeyOptsParsesBack(pem, autoload, path);
  }

  lemma SetAutoloadIsUnderstood(p: Primitives, fp: Bytes, on: bool)
    requires Fits(AskSetAutoload(fp, on))
    ensures Understood(p, Encoded(AskSetAutoload(fp, on))) == Call(SetAutoload(fp, on))
  {
    FrameIsInterpreted(p, OP_SET_AUTOLOAD, SetAutoloadPayload(fp, on));
    SetAutoloadParsesBack(fp, on);
  }

  lemma SetCommentIsUnderstood(p: Primitives, fp: Bytes, comment: Bytes)
    requires Fits(AskSetComment(fp, comment))
    ensures Understood(p, Encoded(AskSetComment(fp, comment))) == Call(SetComment(fp, comment))
  {
    FrameIsInterpreted(p, OP_SET_COMMENT, SetCommentPayload(fp, comment));
    SetCommentParsesBack(fp, comment);
  }

  /** The server reads from an encoded request the method call the client had in mind. */
  lemma RequestIsUnderstood(p: Primitives, r: Request)
    requires Fits(r)
    ensures Understood(p, Encoded(r)) ==
            match MethodCall(p, r)
            case Some(c) => Call(c)
            case None => if r.AskLocked? then Query else Refused(STATUS_BAD_REQUEST)
  {
    match r {
      case AskSetAutoload(fp, on) => SetAutoloadIsUnderstood(p, fp, on);
      case AskSetComment(fp, comment) => SetCommentIsUnderstood(p, fp, comment);
      case AskAddKey(path, pem, autoload) => AddKeyIsUnderstood(p, path, pem, autoload);
      case AskLock(passphrase) => FrameIsInterpreted(p, OP_LOCK, passphrase);
      case AskUnlock(passphrase) => FrameIsInterpreted(p, OP_UNLOCK, passphrase);
      case AskUnlockRecovery(phrase) => FrameIsInterpreted(p, OP_UNLOCK_RECOVERY, phrase);
      case AskSessionLoad(fp) => FrameIsInterpreted(p, OP_SESSION_LOAD, fp);
      case AskSessionUnload(fp) => FrameIsInterpreted(p, OP_SESSION_UNLOAD, fp);
      case AskLocked => FrameIsInterpreted(p, OP_VAULT_LOCKED, []);
    }
  }

  /** One request over the wire does to the vault what its method call does, and the decoded answer
      is that call's own result; a request that names no method changes nothing. */
  lemma RequestIsMethodCall(p: Primitives, v: Vault, r: Request, env: Env)
    requires Fits(r)
    ensures var (after, reply) := Serve(p, v, Encoded(r), env);
            && reply.Some?
            && match MethodCall(p, r)
               case Some(c) => after == Apply(p, v, c, env).0
                               && DecodeOpResponse(reply.value) == Learned(Apply(p, v, c, env).1)
               case None => after == v
                            && DecodeOpResponse(reply.value) == if r.AskLocked? then Ok([Flag(v.key.None?)])
                                else Err(BadRequest)
  {
    RequestIsUnderstood(p, r);
    match MethodCall(p, r) {
      case Some(c) => ReplyReachesClient(Apply(p, v, c, env).1);
      case None =>
        ResponsesRoundTrip(STATUS_OK, [Flag(v.key.None?)]);
        ResponsesRoundTrip(STATUS_BAD_REQUEST, []);
    }
  }

  // ----- whole conversations -----

  datatype Message = Message(request: Request, env: Env)

  ghost function ServeAll(p: Primitives, v: Vault, messages: seq<Message>): (r: Vault) {
    if messages == [] then v
    else
      var last := messages[|messages| - 1];
      Serve(p, ServeAll(p, v, messages[..|messages| - 1]), Encoded(last.request), last.env).0
  }

  /** The method calls a conversation stands for, in order. */
  function CallsOf(p: Primitives, messages: seq<Message>): (steps: seq<Step>) {
    if messages == [] then []
    else
      var last := messages[|messages| - 1];
      CallsOf(p, messages[..|messages| - 1])
      + match MethodCall(p, last.request) case Some(c) => [Step(c, last.env)] case None => []
  }

  lemma RunAppend(p: Primitives, v: Vault, steps: seq<Step>, step: Step)
    ensures Run(p, v, steps + [step]) == Apply(p, Run(p, v, steps), step.command, step.env).0
  {
    assert (steps + [step])[..|steps|] == steps;
  }

  lemma MessageExtendsRun(p: Primitives, v: Vault, steps: seq<Step>, m: Message)
    requires Fits(m.request)
    ensures Serve(p, Run(p, v, steps), Encoded(m.request), m.env).0 ==
            match MethodCall(p, m.request)
            case Some(c) => Run(p, v, steps + [Step(c, m.env)])
            case None => Run(p, v, steps)
  {
    RequestIsUnderstood(p, m.request);
    if MethodCall(p, m.request).Some? {
      RunAppend(p, v, steps, Step(MethodCall(p, m.request).value, m.env));
    }
  }

  /** A whole conversation leaves the vault exactly where the calls it stands for would. */
  lemma {:induction false} ConversationIsRun(p: Primitives, v: Vault, messages: seq<Message>)
    requires forall i :: 0 <= i < |messages| ==> Fits(messages[i].request)
    ensures ServeAll(p, v, messages) == Run(p, v, CallsOf(p, messages))
  {
    if messages == [] {
    } else {
      var front, last := messages[..|messages| - 1], messages[|messages| - 1];
      ConversationIsRun(p, v, front);
      MessageExtendsRun(p, v, CallsOf(p, front), last);
      assert CallsOf(p, front) + [] == CallsOf(p, front);
    }
  }

  // ----- any bytes at all -----

  datatype Delivery = Delivery(contents: Bytes, env: Env)

  /** The vault after any bytes at all, message after message; a daemon that faults is started again. */
  ghost function ServeBytes(p: Primitives, v: Vault, messages: seq<Delivery>): (r: Vault) {
    if messages == [] then v
    else
      var last := messages[|messages| - 1];
      Serve(p, ServeBytes(p, v, messages[..|messages| - 1]), last.contents, last.env).0
  }

  /** What a message amounts to: a command, a restart if it faults, or nothing. */
  function StepsOf(p: Primitives, m: Delivery): (steps: seq<Step>) {
    match Understood(p, m.contents)
    case Call(command) => [Step(command, m.env)]
    case Faulting => [Step(Restart, m.env)]
    case _ => []
  }

  function StepsIn(p: Primitives, messages: seq<Delivery>): (steps: seq<Step>) {
    if messages == [] then []
    else StepsIn(p, messages[..|messages| - 1]) + StepsOf(p, messages[|messages| - 1])
  }

  lemma DeliveryExtendsRun(p: Primitives, v: Vault, steps: seq<Step>, m: Delivery)
    ensures Serve(p, Run(p, v, steps), m.contents, m.env).0 == Run(p, v, steps + StepsOf(p, m))
  {
    ServedAsSteps(p, Run(p, v, steps), m);
    RunMore(p, v, steps, StepsOf(p, m));
  }

  lemma ServedAsSteps(p: Primitives, v: Vault, m: Delivery)
    ensures |StepsOf(p, m)| <= 1
    ensures Serve(p, v, m.contents, m.env).0 == After(p, v, StepsOf(p, m))
  {
  }

  ghost function After(p: Primitives, v: Vault, more: seq<Step>): (r: Vault)
    requires |more| <= 1
  {
    if more == [] then v else Apply(p, v, more[0].command, more[0].env).0
  }

  lemma RunMore(p: Primitives, v: Vault, steps: seq<Step>, more: seq<Step>)
    requires |more| <= 1
    ensures Run(p, v, steps + more) == After(p, Run(p, v, steps), more)
  {
    if more == [] {
      assert steps + more == steps;
    } else {
      assert more == [more[0]];
      RunAppend(p, v, steps, more[0]);
    }
  }

  /** Any bytes whatever, well formed or not, leave the vault where a run of method calls and restarts
      would. */
  lemma {:induction false} AnyBytesAreARun(p: Primitives, v: Vault, messages: seq<Delivery>)
    ensures ServeBytes(p, v, messages) == Run(p, v, StepsIn(p, messages))
  {
    if messages == [] {
    } else {
      var front, last := messages[..|messages| - 1], messages[|messages| - 1];
      AnyBytesAreARun(p, v, front);
      DeliveryExtendsRun(p, v, StepsIn(p, front), last);
    }
  }

  /** No bytes whatever break the vault's invariant, however many messages there are, whatever keys
      they carry and however often they bring the daemon down. */
  lemma AnyMessagesKeepOneKey(p: Primitives, s: Secrets, v: Vault, messages: seq<Delivery>)
    requires Lawful(p) && OneKey(p, s, v)
    ensures OneKey(p, s, ServeBytes(p, v, messages))
  {
    AnyBytesAreARun(p, v, messages);
    EveryRunKeepsOneKey(p, s, v, StepsIn(p, messages));
  }

  /** The only message that gets no answer is an add-key whose version-1 payload faults. It costs the
      daemon everything it does not keep in its file: the vault is locked, both session sets are empty
      and the store is what the file holds. Every answer is a well-formed frame, and a message refused
      as malformed or unsupported changes nothing. */
  lemma EveryMessageIsAnsweredUnlessItFaults(p: Primitives, v: Vault, contents: Bytes, env: Env)
    ensures var (after, reply) := Serve(p, v, contents, env);
            && (reply.None? <==>
                  |contents| >= 12 && contents[0] == OP_VERSION && contents[1] == OP_ADD_KEY
                  && contents[2] == 1 && |contents| - 7 < TWO_32 && contents[3..7] == U32(|contents| - 7))
            && (reply.None? ==>
                  && after == Apply(p, v, Restart, env).0
                  && after.key.None? && after.loaded == {} && after.hidden == {} && after.disk == v.disk
                  && (v.disk.Some? ==> VaultFile(after.metadata, after.ids) == v.disk.value))
            && (reply.Some? ==> |reply.value| >= 2 && reply.value[0] == OP_VERSION)
            && (reply.Some? && DecodeOpResponse(reply.value) in {Err(BadRequest), Err(OpUnknown)} ==> after == v)
  {
    FaultingExactly(p, contents);
    var meaning := Understood(p, contents);
    if meaning.Call? { ReplyReachesClient(Apply(p, v, meaning.command, env).1); }
  }

  lemma FaultingExactly(p: Primitives, contents: Bytes)
    ensures Understood(p, contents).Faulting? <==>
            |contents| >= 12 && contents[0] == OP_VERSION && contents[1] == OP_ADD_KEY
            && contents[2] == 1 && |contents| - 7 < TWO_32 && contents[3..7] == U32(|contents| - 7)
  {
    if |contents| >= 2 {
      var payload := contents[2..];
      FaultExactly(payload);
      if |payload| >= 10 { assert payload[1..5] == contents[3..7]; }
    }
  }

  /** However a phrase is spaced, what reaches the vault is its words one space apart: two phrases reach it
      alike exactly when their words are the same, and one already in that form is passed on unchanged. */
  lemma PhraseNormalisation(words: seq<Bytes>, payload: Bytes, other: Bytes)
    ensures NormalisedPhrase(payload) == NormalisedPhrase(other) <==> Fields(payload) == Fields(other)
    ensures Fields(NormalisedPhrase(payload)) == Fields(payload)
    ensures NormalisedPhrase(payload) == OneSpaceApart(Fields(payload))
    ensures AreWords(words) ==> NormalisedPhrase(Join(words)) == Join(words)
    ensures NormalisedPhrase(NormalisedPhrase(payload)) == NormalisedPhrase(payload)
    ensures AreWords(Fields(NormalisedPhrase(payload)))
  {
    if AreWords(words) { JoinedIsNormal(words); }
    PhraseKeepsWords(payload);
    PhraseKeepsWords(other);
    JoinedOneSpaceApart(Fields(payload));
    JoinedIsNormal(Fields(payload));
  }

  /** The words in order, each but the last followed by the byte 0x20. */
  function OneSpaceApart(words: seq<Bytes>): (s: Bytes) {
    if words == [] then []
    else
      var front, last := words[..|words| - 1], words[|words| - 1];
      if front == [] then last else OneSpaceApart(front) + [0x20] + last
  }

  lemma {:induction false} JoinedOneSpaceApart(words: seq<Bytes>)
    ensures Join(words) == OneSpaceApart(words)
  {
    if |words| <= 1 {
    } else {
      var front, last := words[..|words| - 1], words[|words| - 1];
      JoinedOneSpaceApart(front);
      JoinAppendWord(front, last);
      assert front + [last] == words;
    }
  }

  lemma {:induction false} JoinAppendWord(words: seq<Bytes>, word: Bytes)
    requires words != []
    ensures Join(words + [word]) == Join(words) + [0x20] + word
  {
    if |words| == 1 {
      assert (words + [word])[1..] == [word];
    } else {
      JoinAppendWord(words[1..], word);
      assert (words + [word])[1..] == words[1..] + [word];
    }
  }

  lemma PhraseKeepsWords(payload: Bytes)
    ensures NormalisedPhrase(payload) == Join(Fields(payload))
    ensures Fields(NormalisedPhrase(payload)) == Fields(payload) && AreWords(Fields(payload))
  {
    FieldsOfTrim(payload);
    FieldsAreWords(payload);
    FieldsOfJoin(Fields(payload));
  }

  lemma JoinedIsNormal(words: seq<Bytes>)
    requires AreWords(words)
    ensures NormalisedPhrase(Join(words)) == Join(words)
  {
    JoinNeedsNoTrim(words);
    FieldsOfJoin(words);
  }
}
