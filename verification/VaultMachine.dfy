/** The vault agent as a state machine: one public method, one atomic step. The clock, the random
    IV and the fate of a Save come from `Env`. */
module VaultMachine {
  import opened Wrappers
  import opened Bytes
  import opened Crypto
  import opened IdentityList
  import opened Disk
  import opened Store

  const NANOS_PER_SECOND: int := 1_000_000_000

  datatype Env = Env(now: int, iv: Nonce, fault: SaveFault)

  /** The agent, its store, and the vault file. `key` is None while locked. `loaded` and `hidden`
      are the session sets sessionAutoload0 and sessionUnloaded. */
  datatype Vault = Vault(
    metadata: Option<Metadata>,
    ids: seq<Identity>,
    disk: Option<VaultFile>,
    key: Option<Bytes>,
    loaded: set<Fp>,
    hidden: set<Fp>)

  datatype Error =
    | Locked | AgentLocked | AgentNotLocked | KeyNotFound | NoRecovery | WrongPassphrase
    | SaveFailed | ConfirmUnsupported | ExtensionsUnsupported | CertificateUnsupported
    | NoSigner | CannotMarshal | CannotEncrypt | CannotDecrypt | CannotUnmarshal

  datatype Reply = Done | Failed(error: Error) | Keys(rows: seq<Row>) | Signer(key: PrivateKey)

  datatype Command =
    | List
    | Add(key: AddedKey)
    | AddWithOptions(key: AddedKey, autoload: bool, filepath: Bytes)
    | Remove(publicKey: Bytes)
    | RemoveAll
    | Lock
    | Unlock(passphrase: Bytes)
    | UnlockRecovery(mnemonic: Bytes)
    | Sign(publicKey: Bytes)
    | SessionLoad(fp: Fp)
    | SessionUnload(fp: Fp)
    | SetAutoload(fp: Fp, on: bool)
    | SetComment(fp: Fp, comment: Bytes)
    | Restart

  // ----- creation -----

  function Opened(disk: Option<VaultFile>): (v: Vault) {
    match disk
    case None => Vault(None, [], None, None, {}, {})
    case Some(file) => Vault(file.metadata, file.identities, disk, None, {}, {})
  }

  function Persist(v: Vault, fault: SaveFault): (r: (Vault, Reply)) {
    (v.(disk := Saved(v.disk, VaultFile(v.metadata, v.ids), fault)),
     if fault.NoFault? then Done else Failed(SaveFailed))
  }

  datatype SetupError = PolicyRejects | NotInitialized | SetupSaveFailed | SetupCannotEncrypt

  /** Init: salt and IV are random, so they are arguments. */
  function Init(p: Primitives, v: Vault, passphrase: Bytes, salt: Salt, env: Env): (r: (Vault, Option<SetupError>)) {
    if !p.policyAccepts(passphrase) then (v, Some(PolicyRejects))
    else match EncryptBlob(p, p.derive(passphrase, salt), env.iv, CANARY_PLAINTEXT)
      case Err(_) => (v, Some(SetupCannotEncrypt))
      case Ok(canary) =>
        var (after, reply) := Persist(v.(metadata := Some(Metadata(salt, canary, [], [], env.now))), env.fault);
        (after, if reply.Done? then None else Some(SetupSaveFailed))
  }

  function EnableRecovery(p: Primitives, v: Vault, masterKey: Bytes, mnemonic: Bytes, recoverySalt: Salt, env: Env)
    : (r: (Vault, Option<SetupError>))
  {
    match EncryptBlob(p, p.derive(mnemonic, recoverySalt), env.iv, masterKey)
    case Err(_) => (v, Some(SetupCannotEncrypt))
    case Ok(wrapped) =>
      if v.metadata.None? then (v, Some(NotInitialized))
      else
        var meta := v.metadata.value.(recoverySalt := recoverySalt, wrappedMasterKey := wrapped);
        var (after, reply) := Persist(v.(metadata := Some(meta)), env.fault);
        (after, if reply.Done? then None else Some(SetupSaveFailed))
  }

  function EnableRecoveryWithPassphrase(p: Primitives, v: Vault, passphrase: Bytes, mnemonic: Bytes,
      recoverySalt: Salt, env: Env)
    : (r: (Vault, Option<SetupError>))
  {
    if v.metadata.None? || v.metadata.value.salt == [] then (v, Some(NotInitialized))
    else EnableRecovery(p, v, p.derive(passphrase, v.metadata.value.salt), mnemonic, recoverySalt, env)
  }

  // ----- keys -----

  /** The master key a passphrase derives, if it opens the canary. */
  function MasterKeyFor(p: Primitives, metadata: Option<Metadata>, passphrase: Bytes): (r: Option<Block32>) {
    if metadata.None? || metadata.value.salt == [] || metadata.value.canary == [] then None
    else
      var key := p.derive(passphrase, metadata.value.salt);
      if DecryptBlob(p, key, metadata.value.canary) == Ok(CANARY_PLAINTEXT) then Some(key) else None
  }

  /** The master key a recovery phrase unwraps. Nothing compares it with the canary. */
  function MasterKeyRecovered(p: Primitives, metadata: Option<Metadata>, mnemonic: Bytes): (r: Result<Bytes, Error>) {
    if metadata.None? || metadata.value.recoverySalt == [] || metadata.value.wrappedMasterKey == [] then Err(NoRecovery)
    else match DecryptBlob(p, p.derive(mnemonic, metadata.value.recoverySalt), metadata.value.wrappedMasterKey)
      case Err(_) => Err(WrongPassphrase)
      case Ok(key) => Ok(key)
  }

  // ----- expiry and listing -----

  predicate Expired(id: Identity, now: int) {
    id.expiresAt.Some? && now > id.expiresAt.value
  }

  ghost function ExpiredFps(ids: seq<Identity>, now: int): (r: set<Fp>) {
    set id | id in ids && Expired(id, now) :: id.fingerprint
  }

  ghost function Purge(v: Vault, env: Env): (r: (Vault, Reply)) {
    var gone := ExpiredFps(v.ids, env.now);
    if v.key.None? || gone == {} then (v, Done)
    else Persist(v.(ids := Without(v.ids, gone), loaded := v.loaded - gone, hidden := v.hidden - gone), env.fault)
  }

  predicate Listed(v: Vault, id: Identity) {
    if id.autoload then id.fingerprint !in v.hidden else id.fingerprint in v.loaded
  }

  function Listing(v: Vault): (rows: seq<Row>) {
    RowsWhere(v.ids, (id: Identity) => Listed(v, id))
  }

  /** signerForKey: session loading matters, session hiding does not. */
  predicate Signable(v: Vault, id: Identity) {
    id.autoload || id.fingerprint in v.loaded
  }

  function SignerFor(p: Primitives, v: Vault, publicKey: Bytes): (r: Reply) {
    if v.key.None? then Failed(Locked)
    else match Find(v.ids, p.fingerprint(publicKey))
      case None => Failed(KeyNotFound)
      case Some(id) =>
        if !Signable(v, id) then Failed(KeyNotFound)
        else match DecryptBlob(p, v.key.value, id.encryptedBlob)
          case Err(_) => Failed(CannotDecrypt)
          case Ok(plain) =>
            match UnmarshalPrivateKey(p, plain, p.typeOf(publicKey))
            case Err(_) => Failed(CannotUnmarshal)
            case Ok(key) => if PublicOf(p, key).None? then Failed(NoSigner) else Signer(key)
  }

  // ----- changes to the store -----

  /** The stored form of an added key; a zero lifetime never expires. */
  function NewIdentity(p: Primitives, key: AddedKey, publicKey: Bytes, blob: Bytes, autoload: bool,
      filepath: Bytes, now: int)
    : (id: Identity)
  {
    Identity(p.fingerprint(publicKey), publicKey, blob, key.comment, filepath, [], now, autoload,
             if key.lifetimeSecs > 0 then Some(now + key.lifetimeSecs * NANOS_PER_SECOND) else None)
  }

  function AddKey(p: Primitives, v: Vault, key: AddedKey, autoload: bool, filepath: Bytes, env: Env)
    : (r: (Vault, Reply))
  {
    match PublicOf(p, key.key)
    case None => (v, Failed(NoSigner))
    case Some(publicKey) =>
      if v.key.None? then (v, Failed(Locked))
      else match MarshalPrivateKey(p, key.key)
        case None => (v, Failed(CannotMarshal))
        case Some(plain) =>
          match EncryptBlob(p, v.key.value, env.iv, plain)
          case Err(_) => (v, Failed(CannotEncrypt))
          case Ok(blob) =>
            var id := NewIdentity(p, key, publicKey, blob, autoload, filepath, env.now);
            var (after, reply) := Persist(v.(ids := Put(v.ids, id)), env.fault);
            (if reply.Done? && !autoload then after.(loaded := after.loaded + {id.fingerprint}) else after, reply)
  }

  function Refusal(key: AddedKey): (r: Option<Error>) {
    if key.confirmBeforeUse then Some(ConfirmUnsupported)
    else if key.constraintExtensions > 0 then Some(ExtensionsUnsupported)
    else if key.certificate then Some(CertificateUnsupported)
    else None
  }

  function RemoveKey(p: Primitives, v: Vault, publicKey: Bytes, env: Env): (r: (Vault, Reply)) {
    if v.key.None? then (v, Failed(Locked))
    else
      var fp := p.fingerprint(publicKey);
      var after := v.(ids := Without(v.ids, {fp}), loaded := v.loaded - {fp}, hidden := v.hidden - {fp});
      if Find(v.ids, fp).None? then (after, Failed(KeyNotFound)) else Persist(after, env.fault)
  }

  function LoadForSession(v: Vault, fp: Fp): (r: (Vault, Reply)) {
    if v.key.None? then (v, Failed(Locked))
    else match Find(v.ids, fp)
      case None => (v, Failed(KeyNotFound))
      case Some(id) =>
        (v.(hidden := v.hidden - {fp}, loaded := if id.autoload then v.loaded else v.loaded + {fp}), Done)
  }

  function UnloadForSession(v: Vault, fp: Fp): (r: (Vault, Reply)) {
    if v.key.None? then (v, Failed(Locked))
    else if Find(v.ids, fp).None? then (v, Failed(KeyNotFound))
    else (v.(loaded := v.loaded - {fp}, hidden := v.hidden + {fp}), Done)
  }

  function SetAutoloadFlag(v: Vault, fp: Fp, on: bool, env: Env): (r: (Vault, Reply)) {
    if v.key.None? then (v, Failed(Locked))
    else match Find(v.ids, fp)
      case None => (v, Failed(KeyNotFound))
      case Some(id) =>
        if id.autoload == on then (v, Done)
        else
          var (after, reply) := Persist(v.(ids := Put(v.ids, id.(autoload := on, addedAt := env.now))), env.fault);
          if reply.Done?
          then (after.(loaded := if on then v.loaded - {fp} else v.loaded, hidden := v.hidden - {fp}), Done)
          else (after, reply)
  }

  function SetCommentText(v: Vault, fp: Fp, comment: Bytes, env: Env): (r: (Vault, Reply)) {
    if v.key.None? then (v, Failed(Locked))
    else match Find(v.ids, fp)
      case None => (v, Failed(KeyNotFound))
      case Some(id) =>
        if id.comment == comment then (v, Done)
        else Persist(v.(ids := Put(v.ids, id.(comment := comment, addedAt := env.now))), env.fault)
  }

  // ----- one step -----

  ghost function Apply(p: Primitives, v: Vault, c: Command, env: Env): (r: (Vault, Reply)) {
    match c
    case List =>
      var (after, reply) := Purge(v, env);
      if reply.Failed? then (after, reply)
      else (after, Keys(if after.key.None? then [] else Listing(after)))
    case Add(key) =>
      (match Refusal(key)
       case Some(error) => (v, Failed(error))
       case None => AddKey(p, v, key, false, [], env))
    case AddWithOptions(key, autoload, filepath) => AddKey(p, v, key, autoload, filepath, env)
    case Remove(publicKey) => RemoveKey(p, v, publicKey, env)
    case RemoveAll =>
      if v.key.None? then (v, Failed(Locked))
      else Persist(v.(ids := [], loaded := {}, hidden := {}), env.fault)
    case Lock =>
      if v.key.None? then (v, Failed(AgentLocked)) else (v.(key := None), Done)
    case Unlock(passphrase) =>
      if v.key.Some? then (v, Failed(AgentNotLocked))
      else (match MasterKeyFor(p, v.metadata, passphrase)
            case None => (v, Failed(WrongPassphrase))
            case Some(key) => (v.(key := Some(key)), Done))
    case UnlockRecovery(mnemonic) =>
      (match MasterKeyRecovered(p, v.metadata, mnemonic)
       case Err(error) => (v, Failed(error))
       case Ok(key) => (v.(key := Some(key)), Done))
    case Sign(publicKey) =>
      var (after, reply) := Purge(v, env);
      if reply.Failed? then (after, reply) else (after, SignerFor(p, after, publicKey))
    case SessionLoad(fp) => LoadForSession(v, fp)
    case SessionUnload(fp) => UnloadForSession(v, fp)
    case SetAutoload(fp, on) => SetAutoloadFlag(v, fp, on, env)
    case SetComment(fp, comment) => SetCommentText(v, fp, comment, env)
    case Restart => (Opened(v.disk), Done)
  }

  // ----- runs -----

  datatype Step = Step(command: Command, env: Env)

  ghost function Run(p: Primitives, v: Vault, steps: seq<Step>): (r: Vault) {
    if steps == [] then v
    else Apply(p, Run(p, v, steps[..|steps| - 1]), steps[|steps| - 1].command, steps[|steps| - 1].env).0
  }

  /** The reply to the step at position i of a run. */
  ghost function ReplyAt(p: Primitives, v: Vault, steps: seq<Step>, i: nat): (r: Reply)
    requires i < |steps|
  {
    Apply(p, Run(p, v, steps[..i]), steps[i].command, steps[i].env).1
  }
}
