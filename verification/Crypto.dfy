/** The cryptography and key parsing the vault relies on, and the vault's own layer over it.

    Argon2id, AES-256-GCM, SHA-256 fingerprints, PKCS#8 and PEM are library code. They appear as
    function values in `Primitives`; what the vault needs of them is the hypothesis `Lawful`,
    which `TOY` shows can be met. */
module Crypto {
  import opened Wrappers
  import opened Bytes

  const KEY_LEN: nat := 32
  const IV_SIZE: nat := 12
  const ED25519_SEED_SIZE: nat := 32

  /** "SSHUSH_VALID" */
  const CANARY_PLAINTEXT: Bytes := [0x53, 0x53, 0x48, 0x55, 0x53, 0x48, 0x5f, 0x56, 0x41, 0x4c, 0x49, 0x44]

  /** "ssh-ed25519" */
  const SSH_ED25519: Bytes := [0x73, 0x73, 0x68, 0x2d, 0x65, 0x64, 0x32, 0x35, 0x35, 0x31, 0x39]

  type Block32 = b: Bytes | |b| == 32
    witness seq(32, _ => 0)

  type Nonce = b: Bytes | |b| == IV_SIZE
    witness seq(12, _ => 0)

  /** What kdf.GenerateSalt returns: 16 random bytes. */
  type Salt = b: Bytes | |b| == 16
    witness seq(16, _ => 0)

  /** An Ed25519 private key is its seed followed by the public point; nothing in the type makes
      the two halves agree. Every other key kind is opaque material that PKCS#8 can carry. */
  datatype PrivateKey =
    | Ed25519(seed: Block32, point: Block32)
    | Other(material: Bytes)

  /** sshagent.AddedKey: a private key and what the client asked of the agent with it. */
  datatype AddedKey = AddedKey(
    key: PrivateKey,
    comment: Bytes,
    lifetimeSecs: nat,
    confirmBeforeUse: bool,
    constraintExtensions: nat,
    certificate: bool)

  datatype Primitives = Primitives(
    derive: (Bytes, Bytes) -> Block32,                 // passphrase, salt
    seal: (Bytes, Bytes, Bytes) -> Bytes,              // key, iv, plaintext
    open: (Bytes, Bytes, Bytes) -> Option<Bytes>,      // key, iv, ciphertext and tag
    edPoint: Bytes -> Block32,                         // public point of a seed
    edBlob: Bytes -> Bytes,                            // wire form of an Ed25519 public point
    otherPublic: Bytes -> Option<Bytes>,               // wire form of any other public key
    typeOf: Bytes -> Bytes,                            // key type named by a public key blob
    toPkcs8: Bytes -> Option<Bytes>,
    fromPkcs8: Bytes -> Option<PrivateKey>,
    fingerprint: Bytes -> Bytes,
    parsePem: Bytes -> Option<(PrivateKey, Bytes)>,    // the key and its comment
    policyAccepts: Bytes -> bool)

  /** Authenticated encryption: a ciphertext opens under the key that sealed it and no other. */
  ghost predicate SealsAuthentically(p: Primitives) {
    && (forall k, iv, x :: p.open(k, iv, p.seal(k, iv, x)) == Some(x))
    && (forall k: Block32, l: Block32, iv, x :: k != l ==> p.open(l, iv, p.seal(k, iv, x)) == None)
  }

  /** Public key blobs name their type, and PKCS#8 reads back what it wrote. */
  ghost predicate KeysRoundTrip(p: Primitives) {
    && (forall x :: p.typeOf(p.edBlob(x)) == SSH_ED25519)
    && (forall x, y :: p.edBlob(x) == p.edBlob(y) ==> x == y)
    && (forall m :: p.otherPublic(m).Some? ==> p.typeOf(p.otherPublic(m).value) != SSH_ED25519)
    && (forall m :: p.toPkcs8(m).Some? ==> p.fromPkcs8(p.toPkcs8(m).value) == Some(Other(m)))
  }

  ghost predicate FingerprintsDistinct(p: Primitives) {
    forall x, y :: p.fingerprint(x) == p.fingerprint(y) ==> x == y
  }

  ghost predicate Lawful(p: Primitives) {
    SealsAuthentically(p) && KeysRoundTrip(p) && FingerprintsDistinct(p)
  }

  datatype CryptoError = BadKeyLength | TooShort | DoesNotOpen | BadSeedLength | BadPkcs8

  function EncryptBlob(p: Primitives, masterKey: Bytes, iv: Nonce, plain: Bytes): (r: Result<Bytes, CryptoError>) {
    if |masterKey| != KEY_LEN then Err(BadKeyLength) else Ok(iv + p.seal(masterKey, iv, plain))
  }

  function DecryptBlob(p: Primitives, masterKey: Bytes, ciphertext: Bytes): (r: Result<Bytes, CryptoError>) {
    if |masterKey| != KEY_LEN then Err(BadKeyLength)
    else if |ciphertext| < IV_SIZE then Err(TooShort)
    else match p.open(masterKey, ciphertext[..IV_SIZE], ciphertext[IV_SIZE..])
      case None => Err(DoesNotOpen)
      case Some(plain) => Ok(plain)
  }

  /** `blob` holds `plain` under `key`, and is closed to every other key. */
  ghost predicate Holds(p: Primitives, key: Block32, blob: Bytes, plain: Bytes) {
    && blob != []
    && DecryptBlob(p, key, blob) == Ok(plain)
    && (forall k: Block32 :: k != key ==> DecryptBlob(p, k, blob).Err?)
  }

  lemma EncryptHolds(p: Primitives, key: Block32, iv: Nonce, plain: Bytes)
    requires SealsAuthentically(p)
    ensures EncryptBlob(p, key, iv, plain).Ok?
    ensures Holds(p, key, EncryptBlob(p, key, iv, plain).value, plain)
  {
    var blob := EncryptBlob(p, key, iv, plain).value;
    assert blob[..IV_SIZE] == iv && blob[IV_SIZE..] == p.seal(key, iv, plain);
  }

  /** When encrypting and decrypting fail, and how a blob is laid out: the IV, then what was sealed. */
  lemma BlobOutcome(p: Primitives, key: Bytes, iv: Nonce, plain: Bytes, blob: Bytes)
    ensures EncryptBlob(p, key, iv, plain).Ok? <==> |key| == 32
    ensures EncryptBlob(p, key, iv, plain) == Ok(blob) ==> blob[..12] == iv && blob[12..] == p.seal(key, iv, plain)
    ensures DecryptBlob(p, key, blob) == Ok(plain) <==>
            |key| == 32 && |blob| >= 12 && p.open(key, blob[..12], blob[12..]) == Some(plain)
    ensures DecryptBlob(p, key, blob) == Err(BadKeyLength) <==> |key| != 32
    ensures DecryptBlob(p, key, blob) == Err(TooShort) <==> |key| == 32 && |blob| < 12
  {
    if EncryptBlob(p, key, iv, plain).Ok? {
      var sealed := EncryptBlob(p, key, iv, plain).value;
      assert sealed[..12] == iv && sealed[12..] == p.seal(key, iv, plain);
    }
  }

  /** The public key blob of the signer made from a private key, if one can be made. */
  function PublicOf(p: Primitives, key: PrivateKey): (r: Option<Bytes>) {
    match key
    case Ed25519(_, point) => Some(p.edBlob(point))
    case Other(material) => p.otherPublic(material)
  }

  function MarshalPrivateKey(p: Primitives, key: PrivateKey): (r: Option<Bytes>) {
    match key
    case Ed25519(seed, _) => Some(seed)
    case Other(material) => p.toPkcs8(material)
  }

  function UnmarshalPrivateKey(p: Primitives, plain: Bytes, keyType: Bytes): (r: Result<PrivateKey, CryptoError>) {
    if keyType == SSH_ED25519 then
      if |plain| != ED25519_SEED_SIZE then Err(BadSeedLength) else Ok(Ed25519(plain, p.edPoint(plain)))
    else match p.fromPkcs8(plain)
      case None => Err(BadPkcs8)
      case Some(key) => Ok(key)
  }

  /** An Ed25519 key whose stored point is the one its seed generates. */
  predicate Consistent(p: Primitives, key: PrivateKey) {
    key.Ed25519? ==> key.point == p.edPoint(key.seed)
  }

  /** Storing a key and reading it back always yields a key that can sign; it is the same key, and
      still belongs to the public blob it was filed under, exactly when the key was consistent. */
  lemma StoredKeyReadsBack(p: Primitives, key: PrivateKey)
    requires KeysRoundTrip(p)
    requires PublicOf(p, key).Some? && MarshalPrivateKey(p, key).Some?
    ensures var back := UnmarshalPrivateKey(p, MarshalPrivateKey(p, key).value, p.typeOf(PublicOf(p, key).value));
            && back.Ok? && PublicOf(p, back.value).Some?
            && (back == Ok(key) <==> Consistent(p, key))
            && (PublicOf(p, back.value) == PublicOf(p, key) <==> Consistent(p, key))
  {
    match key {
      case Ed25519(seed, point) =>
        assert p.typeOf(p.edBlob(point)) == SSH_ED25519;
        assert p.edBlob(point) == p.edBlob(p.edPoint(seed)) ==> point == p.edPoint(seed);
      case Other(material) =>
        assert p.typeOf(p.otherPublic(material).value) != SSH_ED25519;
    }
  }

  /** Overwrites a buffer with zeros, in place. */
  method Wipe(b: array<byte>)
    modifies b
    ensures forall i :: 0 <= i < b.Length ==> b[i] == 0
  {
    for i := 0 to b.Length
      invariant forall j :: 0 <= j < i ==> b[j] == 0
    {
      b[i] := 0;
    }
  }

  // ----- an instance -----

  const ZERO_BLOCK: Block32 := seq(32, _ => 0)
  const ONE_BLOCK: Block32 := seq(32, _ => 1)

  /** A transparent instance: sealing prefixes the key, and the salt-free derivation only tells the
      empty passphrase from the others. It shows the laws are consistent, nothing more. */
  const TOY: Primitives := Primitives(
    (pass, salt) => if pass == [] then ZERO_BLOCK else ONE_BLOCK,
    (key, iv, plain) => key + plain,
    (key, iv, sealed) => if |key| <= |sealed| && sealed[..|key|] == key then Some(sealed[|key|..]) else None,
    seed => ZERO_BLOCK,
    point => [1] + point,
    material => Some([0] + material),
    blob => if |blob| > 0 && blob[0] == 1 then SSH_ED25519 else [],
    material => Some(material),
    der => Some(Other(der)),
    blob => blob,
    pem => None,
    pass => true)

  lemma ToyIsLawful()
    ensures Lawful(TOY)
  {
    forall k: Bytes, iv: Bytes, x: Bytes
      ensures TOY.open(k, iv, TOY.seal(k, iv, x)) == Some(x)
    {
      assert (k + x)[..|k|] == k && (k + x)[|k|..] == x;
    }
    forall k: Block32, l: Block32, iv: Bytes, x: Bytes | k != l
      ensures TOY.open(l, iv, TOY.seal(k, iv, x)) == None
    {
      assert (k + x)[..|l|] == k;
    }
    forall x: Bytes, y: Bytes | TOY.edBlob(x) == TOY.edBlob(y)
      ensures x == y
    {
      assert ([1] + x)[1..] == x && ([1] + y)[1..] == y;
    }
    forall m: Bytes
      ensures TOY.typeOf(TOY.otherPublic(m).value) != SSH_ED25519
    {
      assert TOY.otherPublic(m) == Some([0] + m) && ([0] + m)[0] == 0;
    }
  }
}
