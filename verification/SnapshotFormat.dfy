/** Byte layout of one service snapshot and of the manifest that names a generation. */
module SnapshotFormat {
  import opened Options
  import opened BundleImages

  type Byte = b: int | 0 <= b < 256
  type Bytes = seq<Byte>

  /** Why a save or load refuses to go on. */
  datatype Refusal =
    | InvalidServiceSet | Unserializable | SnapshotTooLarge | KeyUnavailable | WriteFailed
    | NoCommittedManifest | UnreadableFile | InvalidManifest | ManifestIntegrity
    | MisplacedEncryption | InvalidFormat | AuthenticationFailed | SnapshotIntegrity
    | Undeserializable | InvalidIdentity | InvalidTopology

  datatype Result<+T> = Ok(value: T) | Err(reason: Refusal)

  datatype FileMeta = FileMeta(filename: string, sha256: Bytes, size: int)
  datatype Manifest = Manifest(format: string, generation: string, services: seq<string>, files: map<string, FileMeta>)

  /** The libraries the code calls: pickle, SHA-256 in hex, AES-GCM (key, nonce, text, associated data), JSON.
      `parse` answers `None` for text that is not JSON or whose fields or field types differ from `Manifest`. */
  datatype Libraries = Libraries(
    dumps: BundleImage -> Option<Bytes>,
    loads: Bytes -> Option<BundleImage>,
    sha: Bytes -> Bytes,
    seal: (Bytes, Bytes, Bytes, Bytes) -> Bytes,
    unseal: (Bytes, Bytes, Bytes, Bytes) -> Option<Bytes>,
    render: Manifest -> Bytes,
    parse: Bytes -> Option<Manifest>)

  predicate IsHex(s: seq<Byte>) {
    forall i :: 0 <= i < |s| ==> 48 <= s[i] <= 57 || 97 <= s[i] <= 102
  }

  /** What the proofs take from those libraries, and nothing more. */
  ghost predicate Lawful(lib: Libraries) {
    && (forall image :: lib.dumps(image).Some? ==>
          |lib.dumps(image).value| > 0 && lib.loads(lib.dumps(image).value) == Some(image))
    && (forall text :: lib.loads(text).Some? ==> ClosedImage(lib.loads(text).value))
    && (forall text :: |lib.sha(text)| == 64 && IsHex(lib.sha(text)))
    && (forall k, n, p, a :: |lib.seal(k, n, p, a)| == |p| + 16)
    && (forall k, n, p, a :: lib.unseal(k, n, lib.seal(k, n, p, a), a) == Some(p))
    && (forall m :: lib.parse(lib.render(m)) == Some(m))
  }

  const DIGEST_SIZE: nat := 64
  const MAX_MANIFEST_BYTES: nat := 64 * 1024
  const MAX_SNAPSHOT_BYTES: nat := 128 * 1024 * 1024
  const AES_KEY_BYTES: nat := 32
  const AES_NONCE_BYTES: nat := 12
  const COGNITO_IDP: string := "cognito-idp"
  const FORMAT: string := "localstack-native-state-v1"
  const NEWLINE: Byte := 10

  function Ascii(text: string): (bytes: Bytes)
    ensures |bytes| == |text|
  {
    seq(|text|, i requires 0 <= i < |text| => text[i] as int % 256)
  }

  const MAGIC: Bytes := Ascii("LOCALSTACK-NATIVE-STATE-V1\n")
  const ENCRYPTED_MAGIC: Bytes := Ascii("LOCALSTACK-NATIVE-STATE-AESGCM-V1\n")
  const HEADER_SIZE: nat := |MAGIC| + DIGEST_SIZE + 1
  const MAX_FILE_BYTES: nat := HEADER_SIZE + MAX_SNAPSHOT_BYTES

  function AssociatedData(service: string): Bytes {
    ENCRYPTED_MAGIC + Ascii(service)
  }

  predicate UsableKey(key: Option<Bytes>) {
    key.Some? && |key.value| == AES_KEY_BYTES
  }

  /** `_encode_snapshot`; `key` is only consulted for the Cognito IDP service. */
  function EncodeSnapshot(lib: Libraries, service: string, image: BundleImage, key: Option<Bytes>,
                          nonce: Bytes): Result<Bytes> {
    match lib.dumps(image)
    case None => Err(Unserializable)
    case Some(payload) =>
      if |payload| > MAX_SNAPSHOT_BYTES then Err(SnapshotTooLarge)
      else if service == COGNITO_IDP then
        if !UsableKey(key) then Err(KeyUnavailable)
        else Ok(ENCRYPTED_MAGIC + nonce + lib.seal(key.value, nonce, payload, AssociatedData(service)))
      else Ok(MAGIC + lib.sha(payload) + [NEWLINE] + payload)
  }

  /** The payload part of `_decode_snapshot`. */
  function OpenSnapshot(lib: Libraries, service: string, data: Bytes, key: Option<Bytes>): Result<Bytes> {
    if ENCRYPTED_MAGIC <= data then
      if service != COGNITO_IDP then Err(MisplacedEncryption)
      else if !UsableKey(key) then Err(KeyUnavailable)
      else
        var start := |ENCRYPTED_MAGIC| + AES_NONCE_BYTES;
        if |data| <= start + 16 then Err(InvalidFormat)
        else
          match lib.unseal(key.value, data[|ENCRYPTED_MAGIC|..start], data[start..], AssociatedData(service))
          case None => Err(AuthenticationFailed)
          case Some(payload) => Ok(payload)
    else if |data| < HEADER_SIZE || !(MAGIC <= data) || data[HEADER_SIZE - 1] != NEWLINE then Err(InvalidFormat)
    else if data[|MAGIC|..HEADER_SIZE - 1] != lib.sha(data[HEADER_SIZE..]) then Err(SnapshotIntegrity)
    else Ok(data[HEADER_SIZE..])
  }

  /** `_decode_snapshot`: payload, unpickling, identity, topology. */
  function DecodeSnapshot(lib: Libraries, service: string, data: Bytes, target: Registration,
                          key: Option<Bytes>): Result<BundleImage> {
    match OpenSnapshot(lib, service, data, key)
    case Err(reason) => Err(reason)
    case Ok(payload) =>
      match lib.loads(payload)
      case None => Err(Undeserializable)
      case Some(image) =>
        if !IdentityAccepted(image, target) then Err(InvalidIdentity)
        else if !TopologyAccepted(image, target) then Err(InvalidTopology)
        else Ok(image)
  }

  /** Neither header is a prefix of the other, so the first bytes decide how a snapshot is read. */
  lemma MagicsDisjoint(rest: Bytes)
    ensures |MAGIC| == 27 && |ENCRYPTED_MAGIC| == 34
    ensures !(ENCRYPTED_MAGIC <= MAGIC + rest) && !(MAGIC <= ENCRYPTED_MAGIC + rest)
  {
    assert MAGIC[24] == 86 && ENCRYPTED_MAGIC[24] == 65;
    assert (MAGIC + rest)[24] == 86 && (ENCRYPTED_MAGIC + rest)[24] == 65;
  }

  /** Snapshot round trip and size bound. A plain snapshot always opens to its payload; an encrypted one does
      exactly when the payload is not empty, and every accepted snapshot stays within the loader's limit. */
  lemma SnapshotRoundTrip(lib: Libraries, service: string, image: BundleImage, key: Option<Bytes>, nonce: Bytes)
    requires (forall text :: |lib.sha(text)| == 64)
    requires (forall k, n, p, a :: |lib.seal(k, n, p, a)| == |p| + 16)
    requires (forall k, n, p, a :: lib.unseal(k, n, lib.seal(k, n, p, a), a) == Some(p))
    requires |nonce| == AES_NONCE_BYTES
    requires EncodeSnapshot(lib, service, image, key, nonce).Ok?
    ensures var data := EncodeSnapshot(lib, service, image, key, nonce).value;
            var payload := lib.dumps(image).value;
            && 0 < |data| <= MAX_FILE_BYTES
            && (OpenSnapshot(lib, service, data, key) == Ok(payload) <==> service != COGNITO_IDP || payload != [])
            && (ENCRYPTED_MAGIC <= data <==> service == COGNITO_IDP)
  {
    var data := EncodeSnapshot(lib, service, image, key, nonce).value;
    var payload := lib.dumps(image).value;
    MagicsDisjoint([]);
    if service == COGNITO_IDP {
      var sealed := lib.seal(key.value, nonce, payload, AssociatedData(service));
      assert data[|ENCRYPTED_MAGIC|..|ENCRYPTED_MAGIC| + AES_NONCE_BYTES] == nonce;
      assert data[|ENCRYPTED_MAGIC| + AES_NONCE_BYTES..] == sealed;
    } else {
      var rest := lib.sha(payload) + [NEWLINE] + payload;
      assert data == MAGIC + rest;
      MagicsDisjoint(rest);
      assert data[|MAGIC|..HEADER_SIZE - 1] == lib.sha(payload);
      assert data[HEADER_SIZE..] == payload;
    }
  }

  /** Whatever is saved from a well-shaped bundle is read back as that bundle. */
  lemma DecodeUndoesEncode(lib: Libraries, service: string, image: BundleImage, target: Registration,
                           key: Option<Bytes>, nonce: Bytes)
    requires Lawful(lib) && |nonce| == AES_NONCE_BYTES && Accepted(image, target)
    requires EncodeSnapshot(lib, service, image, key, nonce).Ok?
    ensures DecodeSnapshot(lib, service, EncodeSnapshot(lib, service, image, key, nonce).value, target, key) ==
             Ok(image)
  {
    SnapshotRoundTrip(lib, service, image, key, nonce);
  }

  /** `data` is a snapshot with this payload: header, digest, newline and payload; or, for Cognito IDP only, the other
      header, a nonce and a text that the key opens to the payload for this service. */
  ghost predicate IsSnapshot(lib: Libraries, service: string, key: Option<Bytes>, data: Bytes, payload: Bytes) {
    || data == MAGIC + lib.sha(payload) + [10] + payload
    || (service == "cognito-idp" && key.Some? && |key.value| == 32 &&
        exists nonce, sealed :: IsSealed(lib, service, key.value, data, nonce, sealed, payload))
  }

  predicate IsSealed(lib: Libraries, service: string, key: Bytes, data: Bytes, nonce: Bytes, sealed: Bytes,
                     payload: Bytes) {
    && |nonce| == 12 && |sealed| > 16 && data == ENCRYPTED_MAGIC + nonce + sealed
    && lib.unseal(key, nonce, sealed, ENCRYPTED_MAGIC + Ascii(service)) == Some(payload)
  }

  lemma PlainOpens(lib: Libraries, service: string, key: Option<Bytes>, payload: Bytes)
    requires |lib.sha(payload)| == 64
    ensures OpenSnapshot(lib, service, MAGIC + lib.sha(payload) + [10] + payload, key) == Ok(payload)
  {
    var rest := lib.sha(payload) + [10] + payload;
    var data := MAGIC + lib.sha(payload) + [10] + payload;
    assert data == MAGIC + rest;
    MagicsDisjoint(rest);
    assert data[|MAGIC|..HEADER_SIZE - 1] == lib.sha(payload);
    assert data[HEADER_SIZE..] == payload;
  }

  lemma SealedOpens(lib: Libraries, service: string, key: Bytes, data: Bytes, nonce: Bytes, sealed: Bytes,
                    payload: Bytes)
    requires service == COGNITO_IDP && |key| == 32 && IsSealed(lib, service, key, data, nonce, sealed, payload)
    ensures OpenSnapshot(lib, service, data, Some(key)) == Ok(payload)
  {
    var start := |ENCRYPTED_MAGIC| + AES_NONCE_BYTES;
    assert data[|ENCRYPTED_MAGIC|..start] == nonce && data[start..] == sealed;
  }

  lemma OpenedIsSnapshot(lib: Libraries, service: string, data: Bytes, key: Option<Bytes>, payload: Bytes)
    requires OpenSnapshot(lib, service, data, key) == Ok(payload)
    ensures IsSnapshot(lib, service, key, data, payload)
  {
    if ENCRYPTED_MAGIC <= data {
      var start := |ENCRYPTED_MAGIC| + AES_NONCE_BYTES;
      var nonce, sealed := data[|ENCRYPTED_MAGIC|..start], data[start..];
      assert data == ENCRYPTED_MAGIC + nonce + sealed;
      assert IsSealed(lib, service, key.value, data, nonce, sealed, payload);
    } else {
      assert data == MAGIC + data[|MAGIC|..HEADER_SIZE - 1] + [data[HEADER_SIZE - 1]] + data[HEADER_SIZE..];
    }
  }

  /** Exactly the snapshots are opened, and to their payload. */
  lemma OpensIffSnapshot(lib: Libraries, service: string, data: Bytes, key: Option<Bytes>, payload: Bytes)
    requires |lib.sha(payload)| == 64
    ensures OpenSnapshot(lib, service, data, key) == Ok(payload) <==> IsSnapshot(lib, service, key, data, payload)
  {
    if OpenSnapshot(lib, service, data, key) == Ok(payload) { OpenedIsSnapshot(lib, service, data, key, payload); }
    if IsSnapshot(lib, service, key, data, payload) {
      if data == MAGIC + lib.sha(payload) + [10] + payload {
        PlainOpens(lib, service, key, payload);
      } else {
        var nonce, sealed :| IsSealed(lib, service, key.value, data, nonce, sealed, payload);
        SealedOpens(lib, service, key.value, data, nonce, sealed, payload);
      }
    }
  }

  /** A bundle is encoded exactly if it can be pickled, the pickle is at most 128 MiB and, for Cognito IDP, there is a
      key of 32 bytes; what comes out is a snapshot of the pickle. */
  lemma EncodesIff(lib: Libraries, service: string, image: BundleImage, key: Option<Bytes>, nonce: Bytes)
    requires Lawful(lib) && |nonce| == AES_NONCE_BYTES
    ensures EncodeSnapshot(lib, service, image, key, nonce).Ok? <==>
              && lib.dumps(image).Some? && |lib.dumps(image).value| <= 134217728
              && (service == "cognito-idp" ==> key.Some? && |key.value| == 32)
    ensures var r := EncodeSnapshot(lib, service, image, key, nonce);
            r.Ok? ==> IsSnapshot(lib, service, key, r.value, lib.dumps(image).value)
  {
    var r := EncodeSnapshot(lib, service, image, key, nonce);
    if r.Ok? {
      SnapshotRoundTrip(lib, service, image, key, nonce);
      OpenedIsSnapshot(lib, service, r.value, key, lib.dumps(image).value);
    }
  }
}
