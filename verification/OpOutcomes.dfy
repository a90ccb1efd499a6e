/** What each sshush-op message and answer is in bytes, which messages are refused, and what an accepted
    one does. */
module OpOutcomes {
  import opened Wrappers
  import opened Bytes
  import opened Text
  import opened Crypto
  import opened IdentityList
  import opened Store
  import opened VaultMachine
  import opened VaultBehaviour
  import opened VaultOutcomes
  import opened Wire
  import opened OpDispatch

  // ----- the numbers on the wire -----

  /** The version and operation bytes of every request, which older and newer peers rely on. */
  lemma RequestNumbers(r: Request)
    ensures |Encoded(r)| >= 2 && Encoded(r)[0] == 1
    ensures Encoded(r)[1] ==
            match r
            case AskLocked => 1
            case AskUnlock(_) => 2
            case AskLock(_) => 3
            case AskUnlockRecovery(_) => 4
            case AskSessionLoad(_) => 5
            case AskSessionUnload(_) => 6
            case AskSetAutoload(_, _) => 7
            case AskSetComment(_, _) => 8
            case AskAddKey(_, _, _) => 9
  {
  }

  /** The bytes that answer a method's reply. */
  lemma StatusNumbers(reply: Reply)
    ensures ResultFor(reply) ==
            [1, if !reply.Failed? then 0
                else match reply.error
                  case Locked => 1
                  case AgentLocked => 1
                  case KeyNotFound => 2
                  case NoRecovery => 3
                  case WrongPassphrase => 6
                  case AgentNotLocked => 7
                  case _ => 8]
  {
  }

  /** What a client makes of any answer: its data, the error its status names, an internal failure for a
      status it does not know, or no answer at all. */
  lemma AnswerMeanings(resp: Bytes)
    ensures var answer, framed := DecodeOpResponse(resp), |resp| >= 2 && resp[0] == 1;
            && (answer == Err(BadResponse) <==> !framed)
            && (answer.Ok? <==> framed && resp[1] == 0) && (answer.Ok? ==> resp == [1, 0] + answer.value)
            && (answer == Err(VaultLocked) <==> framed && resp[1] == 1)
            && (answer == Err(IdentityNotFound) <==> framed && resp[1] == 2)
            && (answer == Err(NoRecoveryPhrase) <==> framed && resp[1] == 3)
            && (answer == Err(BadRequest) <==> framed && resp[1] == 4)
            && (answer == Err(OpUnknown) <==> framed && resp[1] == 5)
            && (answer == Err(IncorrectPassphrase) <==> framed && resp[1] == 6)
            && (answer == Err(ClientError.NotLocked) <==> framed && resp[1] == 7)
            && (answer == Err(AgentInternal) <==> framed && resp[1] >= 8)
  {
  }

  lemma BareFrame(status: byte)
    ensures Frame(status, []) == [1, status]
  {
  }

  /** The layouts byte by byte, on payloads small enough to write out. */
  lemma PayloadBytes()
    ensures SetAutoloadPayload([0x61], true) == [0, 0, 0, 1, 0x61, 1]
    ensures SetCommentPayload([0x61], [0x62, 0x63]) == [0, 0, 0, 1, 0x61, 0, 0, 0, 2, 0x62, 0x63]
    ensures AddKeyOptsPayload([0x61], false, [0x62]) == [1, 0, 0, 0, 1, 0x61, 0, 0, 0, 0, 1, 0x62]
    ensures U32(0x0102_0304) == [1, 2, 3, 4]
  {
  }

  // ----- what is refused -----

  ghost predicate IsSetAutoload(payload: Bytes) {
    exists fp, on :: |fp| < TWO_32 && payload == SetAutoloadPayload(fp, on)
  }

  ghost predicate IsSetComment(payload: Bytes) {
    exists fp, comment :: |fp| < TWO_32 && |comment| < TWO_32 && payload == SetCommentPayload(fp, comment)
  }

  lemma SetAutoloadReadIff(payload: Bytes)
    ensures ParseSetAutoloadPayload(payload).Ok? <==> IsSetAutoload(payload)
  {
    if ParseSetAutoloadPayload(payload).Ok? { SetAutoloadBuildsBack(payload); }
    if IsSetAutoload(payload) {
      var fp, on :| |fp| < TWO_32 && payload == SetAutoloadPayload(fp, on);
      SetAutoloadParsesBack(fp, on);
    }
  }

  lemma SetCommentReadIff(payload: Bytes)
    ensures ParseSetCommentPayload(payload).Ok? <==> IsSetComment(payload)
  {
    if ParseSetCommentPayload(payload).Ok? { SetCommentBuildsBack(payload); }
    if IsSetComment(payload) {
      var fp, comment :| |fp| < TWO_32 && |comment| < TWO_32 && payload == SetCommentPayload(fp, comment);
      SetCommentParsesBack(fp, comment);
    }
  }

  /** The payload is none that the operation can be asked with. */
  ghost predicate Unreadable(p: Primitives, op: byte, payload: Bytes) {
    || (op in {5, 6} && TrimSpace(payload) == [])
    || (op == 7 && !IsSetAutoload(payload))
    || (op == 8 && !IsSetComment(payload))
    || (op == 9 && (SplitAddKeyOptsPayload(payload).Malformed?
                    || (SplitAddKeyOptsPayload(payload).Split?
                        && p.parsePem(SplitAddKeyOptsPayload(payload).pem).None?)))
  }

  lemma InterpretedRefusals(p: Primitives, op: byte, payload: Bytes)
    ensures Interpreted(p, op, payload) == Meaning.Refused(4) <==> Unreadable(p, op, payload)
    ensures Interpreted(p, op, payload) == Meaning.Refused(5) <==> !(1 <= op <= 9)
    ensures Interpreted(p, op, payload).Refused? ==> Interpreted(p, op, payload).status in {4, 5}
  {
    SetAutoloadReadIff(payload);
    SetCommentReadIff(payload);
  }

  /** A message is refused as malformed exactly when it is too short, of another version, or its payload is
      none its operation can be asked with; as unsupported, exactly when its operation is none of the nine.
      A refusal changes nothing. */
  lemma RefusedExactly(p: Primitives, v: Vault, contents: Bytes, env: Env)
    ensures var (after, reply) := Serve(p, v, contents, env);
            var request := |contents| >= 2 && contents[0] == 1;
            && (reply == Some([1, 4]) <==> !request || Unreadable(p, contents[1], contents[2..]))
            && (reply == Some([1, 5]) <==> request && !(1 <= contents[1] <= 9))
            && (reply in {Some([1, 4]), Some([1, 5])} ==> after == v)
  {
    if |contents| >= 2 && contents[0] == 1 {
      InterpretedRefusals(p, contents[1], contents[2..]);
    }
    BareFrame(4);
    BareFrame(5);
    var meaning := Understood(p, contents);
    match meaning {
      case Call(command) => StatusNumbers(Apply(p, v, command, env).1);
      case Query => assert |Frame(STATUS_OK, [Flag(v.key.None?)])| == 3;
      case _ =>
    }
  }

  // ----- what is accepted -----

  /** A key file sent to an unlocked vault that can store its key is stored with the file's own comment, the
      path and flag sent with it, and no lifetime. */
  lemma SentKeyIsStored(p: Primitives, v: Vault, path: Bytes, pem: Bytes, autoload: bool, env: Env)
    requires Fits(AskAddKey(path, pem, autoload)) && p.parsePem(pem).Some?
    requires v.key.Some? && |v.key.value| == 32 && Storable(p, p.parsePem(pem).value.0) && env.fault.NoFault?
    ensures var (after, reply) := Serve(p, v, Encoded(AskAddKey(path, pem, autoload)), env);
            var (key, comment) := p.parsePem(pem).value;
            var stored := Find(after.ids, p.fingerprint(PublicOf(p, key).value));
            && reply == Some([1, 0]) && stored.Some?
            && stored.value.comment == comment && stored.value.filepath == path && stored.value.autoload == autoload
            && stored.value.expiresAt.None?
  {
    var key := FromPem(p.parsePem(pem).value);
    SentKeyIsAdded(p, v, path, pem, autoload, env);
    AddOutcome(p, v, key, autoload, path, env);
    StatusNumbers(Done);
    AddEffect(p, v, key, autoload, path, env);
  }

  lemma SentKeyIsAdded(p: Primitives, v: Vault, path: Bytes, pem: Bytes, autoload: bool, env: Env)
    requires Fits(AskAddKey(path, pem, autoload)) && p.parsePem(pem).Some?
    ensures var added := Apply(p, v, AddWithOptions(FromPem(p.parsePem(pem).value), autoload, path), env);
            && Serve(p, v, Encoded(AskAddKey(path, pem, autoload)), env) == (added.0, Some(ResultFor(added.1)))
            && added == AddKey(p, v, FromPem(p.parsePem(pem).value), autoload, path, env)
  {
    RequestIsUnderstood(p, AskAddKey(path, pem, autoload));
  }
}
