/** The sshush-op wire format: framing, the three payload codecs, and the status bytes. Lengths are
    4-byte big-endian counts, the layout section 5 of RFC 4251 calls `string`. */
module Wire {
  import opened Wrappers
  import opened Bytes

  const OP_VERSION: byte := 1

  const OP_VAULT_LOCKED: byte := 1
  const OP_UNLOCK: byte := 2
  const OP_LOCK: byte := 3
  const OP_UNLOCK_RECOVERY: byte := 4
  const OP_SESSION_LOAD: byte := 5
  const OP_SESSION_UNLOAD: byte := 6
  const OP_SET_AUTOLOAD: byte := 7
  const OP_SET_COMMENT: byte := 8
  const OP_ADD_KEY: byte := 9

  const STATUS_OK: byte := 0
  const STATUS_LOCKED: byte := 1
  const STATUS_NOT_FOUND: byte := 2
  const STATUS_NO_RECOVERY: byte := 3
  const STATUS_BAD_REQUEST: byte := 4
  const STATUS_UNSUPPORTED_OP: byte := 5
  const STATUS_WRONG_PASSPHRASE: byte := 6
  const STATUS_NOT_LOCKED: byte := 7
  const STATUS_INTERNAL: byte := 8

  /** What a client can be told went wrong. */
  datatype ClientError =
    | OpUnsupported | OpUnknown | VaultLocked | IdentityNotFound | NoRecoveryPhrase
    | IncorrectPassphrase | NotLocked | BadRequest | AgentInternal | BadResponse | TransportFailed

  datatype WireError = ShortMessage | WrongVersion | LengthMismatch | BadFlag

  // ----- framing -----

  /** Version, a code, then the body: the shape of requests and responses alike. */
  function Frame(code: byte, body: Bytes): (m: Bytes) {
    [OP_VERSION, code] + body
  }

  method EncodeFrame(code: byte, body: Bytes) returns (m: array<byte>)
    ensures fresh(m) && m[..] == Frame(code, body)
  {
    m := new byte[2 + |body|](_ => 0);
    m[0] := OP_VERSION;
    m[1] := code;
    Copy(m, 2, body);
    assert m[..] == m[..2] + body;
  }

  function DecodeOpRequest(contents: Bytes): (r: Result<(byte, Bytes), WireError>) {
    if |contents| < 2 then Err(ShortMessage)
    else if contents[0] != OP_VERSION then Err(WrongVersion)
    else Ok((contents[1], contents[2..]))
  }

  function ErrorForStatus(status: byte): (e: Option<ClientError>) {
    if status == STATUS_OK then None
    else if status == STATUS_LOCKED then Some(VaultLocked)
    else if status == STATUS_NOT_FOUND then Some(IdentityNotFound)
    else if status == STATUS_NO_RECOVERY then Some(NoRecoveryPhrase)
    else if status == STATUS_BAD_REQUEST then Some(BadRequest)
    else if status == STATUS_UNSUPPORTED_OP then Some(OpUnknown)
    else if status == STATUS_WRONG_PASSPHRASE then Some(IncorrectPassphrase)
    else if status == STATUS_NOT_LOCKED then Some(NotLocked)
    else Some(AgentInternal)
  }

  function DecodeOpResponse(resp: Bytes): (r: Result<Bytes, ClientError>) {
    if |resp| < 2 then Err(BadResponse)
    else if resp[0] != OP_VERSION then Err(BadResponse)
    else match ErrorForStatus(resp[1])
      case Some(e) => Err(e)
      case None => Ok(resp[2..])
  }

  /** A message decodes to (code, body) exactly when it is their frame. */
  lemma RequestsRoundTrip(contents: Bytes, code: byte, body: Bytes)
    ensures DecodeOpRequest(contents) == Ok((code, body)) <==> contents == Frame(code, body)
  {
    assert Frame(code, body)[2..] == body;
    if |contents| >= 2 { assert contents == [contents[0], contents[1]] + contents[2..]; }
  }

  /** A response carries its data or the sentinel of its status, never both, and is never empty. */
  lemma ResponsesRoundTrip(status: byte, data: Bytes)
    ensures |Frame(status, data)| >= 2
    ensures DecodeOpResponse(Frame(status, data)) ==
            match ErrorForStatus(status) case None => Ok(data) case Some(e) => Err(e)
  {
    assert Frame(status, data)[2..] == data;
  }

  // ----- set-autoload -----

  function Flag(on: bool): (b: byte) {
    if on then 1 else 0
  }

  function SetAutoloadPayload(fp: Bytes, on: bool): (m: Bytes) {
    U32(|fp|) + fp + [Flag(on)]
  }

  method BuildSetAutoloadPayload(fp: Bytes, on: bool) returns (m: array<byte>)
    ensures fresh(m) && m[..] == SetAutoloadPayload(fp, on)
  {
    m := new byte[4 + |fp| + 1](_ => 0);
    PutU32(m, 0, |fp|);
    Copy(m, 4, fp);
    var end := 4 + |fp|;
    assert m[..end] == U32(|fp|) + fp && m[end] == 0;
    if on {
      m[end] := 1;
    }
    assert m[..] == m[..end] + [m[end]];
  }

  function ParseSetAutoloadPayload(contents: Bytes): (r: Result<(Bytes, bool), WireError>) {
    if |contents| < 5 then Err(ShortMessage)
    else
      var fpLen := GetU32(contents);
      if fpLen + 5 != |contents| then Err(LengthMismatch)
      else
        var flag := contents[4 + fpLen];
        if flag != 0 && flag != 1 then Err(BadFlag) else Ok((contents[4..4 + fpLen], flag == 1))
  }

  lemma SetAutoloadFields(a: Bytes, fp: Bytes, flag: byte)
    requires |a| == 4 && flag <= 1
    ensures ParseSetAutoloadPayload(a + fp + [flag]) == Ok((fp, flag == 1)) <==> GetU32(a) == |fp|
  {
    assert (a + fp + [flag])[4..4 + |fp|] == fp;
  }

  /** What was built parses back exactly when the fingerprint's length fits its field. */
  lemma SetAutoloadParsesBack(fp: Bytes, on: bool)
    ensures ParseSetAutoloadPayload(SetAutoloadPayload(fp, on)) == Ok((fp, on)) <==> |fp| < TWO_32
  {
    SetAutoloadFields(U32(|fp|), fp, Flag(on));
    GetAfterPut(|fp|);
  }

  /** What parses is, byte for byte, what the builder makes of the result. */
  lemma SetAutoloadBuildsBack(contents: Bytes)
    requires ParseSetAutoloadPayload(contents).Ok?
    ensures var (fp, on) := ParseSetAutoloadPayload(contents).value;
            |fp| < TWO_32 && SetAutoloadPayload(fp, on) == contents
  {
    PutAfterGet(contents);
    var fpLen := GetU32(contents);
    assert contents == contents[..4] + contents[4..4 + fpLen] + [contents[4 + fpLen]];
  }

  // ----- set-comment -----

  function SetCommentPayload(fp: Bytes, comment: Bytes): (m: Bytes) {
    U32(|fp|) + fp + U32(|comment|) + comment
  }

  method BuildSetCommentPayload(fp: Bytes, comment: Bytes) returns (m: array<byte>)
    ensures fresh(m) && m[..] == SetCommentPayload(fp, comment)
  {
    m := new byte[4 + |fp| + 4 + |comment|](_ => 0);
    PutU32(m, 0, |fp|);
    Copy(m, 4, fp);
    var commentOffset := 4 + |fp|;
    ghost var head := m[..commentOffset];
    assert head == U32(|fp|) + fp;
    PutU32(m, commentOffset, |comment|);
    assert m[..commentOffset + 4] == head + U32(|comment|);
    Copy(m, commentOffset + 4, comment);
    assert m[..] == m[..commentOffset + 4] + comment;
    assert m[..commentOffset + 4] == head + U32(|comment|);
  }

  function ParseSetCommentPayload(contents: Bytes): (r: Result<(Bytes, Bytes), WireError>) {
    if |contents| < 8 then Err(ShortMessage)
    else
      var fpLen := GetU32(contents);
      if 8 + fpLen > |contents| then Err(LengthMismatch)
      else
        var at := 4 + fpLen;
        var commentLen := GetU32(contents[at..]);
        if at + 4 + commentLen != |contents| then Err(LengthMismatch)
        else Ok((contents[4..at], contents[at + 4..at + 4 + commentLen]))
  }

  lemma SetCommentFields(a: Bytes, fp: Bytes, b: Bytes, comment: Bytes)
    requires |a| == 4 && |b| == 4
    ensures ParseSetCommentPayload(a + fp + b + comment) == Ok((fp, comment))
        <==> GetU32(a) == |fp| && GetU32(b) == |comment|
  {
    var m := a + fp + b + comment;
    if GetU32(a) == |fp| {
      assert m[4..4 + |fp|] == fp;
      assert m[4 + |fp|..] == b + comment;
      if GetU32(b) == |comment| { assert m[8 + |fp|..8 + |fp| + |comment|] == comment; }
    }
  }

  lemma SetCommentParsesBack(fp: Bytes, comment: Bytes)
    ensures ParseSetCommentPayload(SetCommentPayload(fp, comment)) == Ok((fp, comment))
            <==> |fp| < TWO_32 && |comment| < TWO_32
  {
    SetCommentFields(U32(|fp|), fp, U32(|comment|), comment);
    GetAfterPut(|fp|);
    GetAfterPut(|comment|);
  }

  lemma SetCommentParts(contents: Bytes, at: nat)
    requires 4 <= at && at + 4 <= |contents|
    ensures contents == contents[..4] + contents[4..at] + contents[at..at + 4] + contents[at + 4..]
    ensures contents[at..][..4] == contents[at..at + 4]
  {
  }

  lemma SetCommentBuildsBack(contents: Bytes)
    requires ParseSetCommentPayload(contents).Ok?
    ensures var (fp, comment) := ParseSetCommentPayload(contents).value;
            |fp| < TWO_32 && |comment| < TWO_32 && SetCommentPayload(fp, comment) == contents
  {
    var at := 4 + GetU32(contents);
    SetCommentParts(contents, at);
    assert contents[..4] == U32(at - 4) by { PutAfterGet(contents); }
    assert contents[at..at + 4] == U32(GetU32(contents[at..])) by { PutAfterGet(contents[at..]); }
  }

  // ----- add-key -----

  function AddKeyOptsPayload(pem: Bytes, autoload: bool, path: Bytes): (m: Bytes) {
    [1] + U32(|pem|) + pem + [Flag(autoload)] + U32(|path|) + path
  }

  /** The layout before filepaths were carried. */
  function LegacyAddKeyPayload(pem: Bytes, autoload: bool): (m: Bytes) {
    U32(|pem|) + pem + [Flag(autoload)]
  }

  /** The key file's bytes are an argument; reading the file is not part of this model. */
  method BuildAddKeyOptsPayload(path: Bytes, pem: Bytes, autoload: bool) returns (m: array<byte>)
    ensures fresh(m) && m[..] == AddKeyOptsPayload(pem, autoload, path)
  {
    m := new byte[1 + 4 + |pem| + 1 + 4 + |path|](_ => 0);
    m[0] := 1;
    PutU32(m, 1, |pem|);
    assert m[..5] == [1] + U32(|pem|);
    Copy(m, 5, pem);
    assert m[..5 + |pem|] == [1] + U32(|pem|) + pem;
    m[5 + |pem|] := Flag(autoload);
    var at := 5 + |pem| + 1;
    assert m[..at] == m[..5 + |pem|] + [m[5 + |pem|]] == [1] + U32(|pem|) + pem + [Flag(autoload)];
    PutU32(m, at, |path|);
    assert m[..at + 4] == [1] + U32(|pem|) + pem + [Flag(autoload)] + U32(|path|);
    Copy(m, at + 4, path);
    assert m[..] == m[..at + 4] + path;
  }

  /** Reading past the end of the payload is a fault of the process, not an answer. */
  datatype Split = Split(pem: Bytes, autoload: bool, path: Bytes) | Malformed(error: WireError) | Fault

  /** Version 1 has no length check on the autoload byte: a PEM that fills the payload exactly passes
      the bound and the next index is one past the end. */
  function SplitAddKeyOptsPayload(contents: Bytes): (r: Split) {
    if |contents| < 5 then Malformed(ShortMessage)
    else if contents[0] == 1 && |contents| >= 10 then
      var pemLen := GetU32(contents[1..5]);
      if 5 + pemLen > |contents| then Malformed(LengthMismatch)
      else if 5 + pemLen == |contents| then Fault
      else
        var flag := contents[5 + pemLen];
        if flag != 0 && flag != 1 then Malformed(BadFlag)
        else
          var at := 5 + pemLen + 1;
          Split(contents[5..5 + pemLen], flag == 1, FilepathAt(contents, at))
    else
      var pemLen := GetU32(contents);
      if pemLen > |contents| - 5 then Malformed(LengthMismatch)
      else
        var flag := contents[4 + pemLen];
        if flag != 0 && flag != 1 then Malformed(BadFlag)
        else Split(contents[4..4 + pemLen], flag == 1, [])
  }

  /** The filepath is taken if it is all there and ignored otherwise. */
  function FilepathAt(contents: Bytes, at: nat): (path: Bytes)
    requires at <= |contents|
  {
    if at + 4 > |contents| then []
    else
      var fpLen := GetU32(contents[at..]);
      if at + 4 + fpLen > |contents| then [] else contents[at + 4..at + 4 + fpLen]
  }

  /** The fault is exactly a version-1 payload whose PEM length accounts for every remaining byte. */
  lemma FaultExactly(contents: Bytes)
    ensures SplitAddKeyOptsPayload(contents).Fault? <==>
            |contents| >= 10 && contents[0] == 1 && |contents| - 5 < TWO_32 && contents[1..5] == U32(|contents| - 5)
  {
    if |contents| >= 10 {
      PutAfterGet(contents[1..5]);
      GetAfterPut(|contents| - 5);
      assert contents[1..5][..4] == contents[1..5];
    }
  }

  lemma AddKeyOptsFields(a: Bytes, pem: Bytes, flag: byte, b: Bytes, path: Bytes)
    requires |a| == 4 && |b| == 4 && flag <= 1 && GetU32(b) <= |path|
    ensures SplitAddKeyOptsPayload([1] + a + pem + [flag] + b + path) == Split(pem, flag == 1, path)
            <==> GetU32(a) == |pem| && GetU32(b) == |path|
  {
    var m := [1] + a + pem + [flag] + b + path;
    assert m[1..5] == a;
    if GetU32(a) == |pem| {
      assert m[5..5 + |pem|] == pem;
      var at := 6 + |pem|;
      assert m[5 + |pem|] == flag;
      assert m[at..] == b + path;
      if GetU32(b) == |path| { assert m[at + 4..at + 4 + |path|] == path; }
    }
  }

  lemma AddKeyOptsParsesBack(pem: Bytes, autoload: bool, path: Bytes)
    ensures SplitAddKeyOptsPayload(AddKeyOptsPayload(pem, autoload, path)) == Split(pem, autoload, path)
            <==> |pem| < TWO_32 && |path| < TWO_32
  {
    GetAfterPut(|pem|);
    GetAfterPut(|path|);
    AddKeyOptsFields(U32(|pem|), pem, Flag(autoload), U32(|path|), path);
  }

  lemma LegacyFields(a: Bytes, pem: Bytes, flag: byte)
    requires |a| == 4 && flag <= 1
    ensures var m := a + pem + [flag];
            SplitAddKeyOptsPayload(m) == Split(pem, flag == 1, []) <==> GetU32(a) == |pem| && !(a[0] == 1 && |m| >= 10)
  {
    var m := a + pem + [flag];
    // Read as version 1, equal fields would need a PEM of this length, which is the fault.
    if GetU32(a) == |pem| && !(a[0] == 1 && |m| >= 10) {
      assert m[4..4 + |pem|] == pem;
    }
  }

  /** The PEM, flag and whatever follows them, after a length field at `start`. */
  lemma FieldsAt(contents: Bytes, start: nat, n: nat)
    requires start + 4 + n + 1 <= |contents| && n == GetU32(contents[start..start + 4])
    ensures var flag := contents[start + 4 + n];
            contents == contents[..start] + U32(n) + contents[start + 4..start + 4 + n] + [flag]
                        + contents[start + 4 + n + 1..]
  {
    PutAfterGet(contents[start..start + 4]);
    assert contents[start..start + 4][..4] == contents[start..start + 4];
  }

  /** Every version-1 payload the parser accepts is its version byte, a length, the PEM and a true flag
      byte, then a filepath field, taken when it is all there; later bytes are ignored. */
  lemma AcceptedV1Shape(contents: Bytes)
    requires SplitAddKeyOptsPayload(contents).Split? && contents[0] == 1 && |contents| >= 10
    ensures var Split(pem, autoload, path) := SplitAddKeyOptsPayload(contents);
            exists rest: Bytes ::
              && contents == [1] + U32(|pem|) + pem + [Flag(autoload)] + rest
              && path == if |rest| >= 4 && 4 + GetU32(rest) <= |rest| then rest[4..4 + GetU32(rest)] else []
  {
    var n := GetU32(contents[1..5]);
    var rest := contents[6 + n..];
    FieldsAt(contents, 1, n);
    assert contents[..1] == [1];
    var Split(pem, autoload, path) := SplitAddKeyOptsPayload(contents);
    assert contents == [1] + U32(|pem|) + pem + [Flag(autoload)] + rest;
  }

  lemma V1Reads(pem: Bytes, autoload: bool, rest: Bytes)
    requires |pem| < TWO_32
    ensures var m := [1] + U32(|pem|) + pem + [Flag(autoload)] + rest;
            |m| >= 10 ==> SplitAddKeyOptsPayload(m).Split?
  {
    var m := [1] + U32(|pem|) + pem + [Flag(autoload)] + rest;
    GetAfterPut(|pem|);
    assert m[1..5] == U32(|pem|);
    assert m[5 + |pem|] == Flag(autoload);
  }

  ghost predicate IsV1(contents: Bytes) {
    exists pem: Bytes, autoload, rest: Bytes ::
      |pem| < TWO_32 && contents == [1] + U32(|pem|) + pem + [Flag(autoload)] + rest
  }

  /** And every payload of that shape is accepted, whether or not a whole filepath follows. */
  lemma V1AcceptedIff(contents: Bytes)
    requires |contents| >= 10 && contents[0] == 1
    ensures SplitAddKeyOptsPayload(contents).Split? <==> IsV1(contents)
  {
    if SplitAddKeyOptsPayload(contents).Split? { AcceptedV1Shape(contents); }
    if IsV1(contents) {
      var pem: Bytes, autoload, rest: Bytes :|
        |pem| < TWO_32 && contents == [1] + U32(|pem|) + pem + [Flag(autoload)] + rest;
      V1Reads(pem, autoload, rest);
    }
  }

  /** Every legacy payload it accepts is a length, the PEM and a true flag byte; it carries no path. */
  lemma AcceptedLegacyShape(contents: Bytes)
    requires SplitAddKeyOptsPayload(contents).Split? && !(contents[0] == 1 && |contents| >= 10)
    ensures var Split(pem, autoload, path) := SplitAddKeyOptsPayload(contents);
            LegacyAddKeyPayload(pem, autoload) <= contents && path == []
  {
    var n := GetU32(contents);
    assert GetU32(contents[0..4]) == n;
    FieldsAt(contents, 0, n);
    var Split(pem, autoload, path) := SplitAddKeyOptsPayload(contents);
    assert contents == LegacyAddKeyPayload(pem, autoload) + contents[5 + n..] by { assert contents[..0] == []; }
  }

  lemma LegacyReads(pem: Bytes, autoload: bool, rest: Bytes)
    requires |pem| < TWO_32
    ensures var m := LegacyAddKeyPayload(pem, autoload) + rest;
            !(m[0] == 1 && |m| >= 10) ==> SplitAddKeyOptsPayload(m).Split?
  {
    var m := LegacyAddKeyPayload(pem, autoload) + rest;
    GetAfterPut(|pem|);
    assert m[4 + |pem|] == Flag(autoload);
    assert m[0] == U32(|pem|)[0] && m[1] == U32(|pem|)[1] && m[2] == U32(|pem|)[2] && m[3] == U32(|pem|)[3];
  }

  ghost predicate IsLegacy(contents: Bytes) {
    exists pem: Bytes, autoload :: |pem| < TWO_32 && LegacyAddKeyPayload(pem, autoload) <= contents
  }

  /** And every payload that begins so is accepted. */
  lemma LegacyAcceptedIff(contents: Bytes)
    requires !(|contents| >= 10 && contents[0] == 1)
    ensures SplitAddKeyOptsPayload(contents).Split? <==> IsLegacy(contents)
  {
    if SplitAddKeyOptsPayload(contents).Split? { AcceptedLegacyShape(contents); }
    if IsLegacy(contents) {
      var pem: Bytes, autoload :| |pem| < TWO_32 && LegacyAddKeyPayload(pem, autoload) <= contents;
      LegacyReads(pem, autoload, contents[|LegacyAddKeyPayload(pem, autoload)|..]);
    }
  }

  /** A legacy payload parses back to its own fields exactly when its first length byte is not taken
      for the version: below 2^24, and again from 2^25 while the length still fits. */
  lemma LegacyParsesBack(pem: Bytes, autoload: bool)
    ensures SplitAddKeyOptsPayload(LegacyAddKeyPayload(pem, autoload)) == Split(pem, autoload, [])
            <==> |pem| < 0x100_0000 || 0x200_0000 <= |pem| < TWO_32
  {
    LegacyFields(U32(|pem|), pem, Flag(autoload));
    GetAfterPut(|pem|);
    assert U32(|pem|)[0] == |pem| % TWO_32 / 0x100_0000;
  }
}
