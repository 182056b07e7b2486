/**
  backup-envelope.ts: the TMSK envelope.  The cipher, JSON and base64 are abstract, known
  only by their inverse laws; the binary layout around them is exact.
 */
module Envelope {
  import opened Wrappers

  type Byte = b: int | 0 <= b < 256

  type Bytes = seq<Byte>

  /** ASCII "TMSK". */
  const MAGIC: Bytes := [84, 77, 83, 75]
  const FORMAT_VERSION: Byte := 1
  const IV_LENGTH := 12
  const AUTH_TAG_LENGTH := 16
  const DATA_KEY_LENGTH := 32
  const HEADER_START := 9
  const UINT32 := 0x1_0000_0000

  datatype Header = Header(
    formatVersion: int, algorithm: string, kmsKeyId: string, encryptedDataKey: string,
    iv: string, authTag: string, sourceDatabase: string, createdAtUtc: string)

  /** A parsed JSON header: any field may be missing or null. */
  datatype RawHeader = RawHeader(
    formatVersion: Option<int>, algorithm: Option<string>, kmsKeyId: Option<string>,
    encryptedDataKey: Option<string>, iv: Option<string>, authTag: Option<string>,
    sourceDatabase: Option<string>, createdAtUtc: Option<string>)

  datatype EnvelopeError =
    | TooShort | InvalidMagic | UnsupportedVersion | TruncatedHeader | NotJson | MissingField
    | HeaderTooLong | WrongKeyLength | WrongIvLength | WrongTagLength | AuthenticationFailed

  datatype Parsed = Parsed(header: Header, ciphertext: Bytes)

  datatype Sealed = Sealed(ciphertext: Bytes, authTag: Bytes)

  /** What the envelope borrows: JSON text, base64, and AES-256-GCM. */
  datatype Codec = Codec(
    toJson: Header -> Bytes,
    fromJson: Bytes -> Option<RawHeader>,
    toBase64: Bytes -> string,
    fromBase64: string -> Bytes,
    seal: (Bytes, Bytes, Bytes) -> Sealed,
    open: (Bytes, Bytes, Bytes, Bytes) -> Option<Bytes>)

  function Complete(h: Header): RawHeader {
    RawHeader(Some(h.formatVersion), Some(h.algorithm), Some(h.kmsKeyId), Some(h.encryptedDataKey),
              Some(h.iv), Some(h.authTag), Some(h.sourceDatabase), Some(h.createdAtUtc))
  }

  /** The laws assumed of the codec: each pair is an encoding and its inverse. */
  ghost predicate Lawful(c: Codec) {
    && (forall h :: c.fromJson(c.toJson(h)) == Some(Complete(h)))
    && (forall b :: c.fromBase64(c.toBase64(b)) == b)
    && (forall key, iv, text :: |key| == DATA_KEY_LENGTH && |iv| == IV_LENGTH ==>
          && |c.seal(key, iv, text).authTag| == AUTH_TAG_LENGTH
          && c.open(key, iv, c.seal(key, iv, text).authTag, c.seal(key, iv, text).ciphertext) == Some(text))
  }

  // ---- layout ----

  function BigEndian(n: int): (b: Bytes)
    requires 0 <= n < UINT32
    ensures |b| == 4
  {
    [n / 0x100_0000, n / 0x1_0000 % 256, n / 256 % 256, n % 256]
  }

  function ReadBigEndian(b: Bytes): (n: int)
    requires |b| == 4
    ensures 0 <= n < UINT32
  {
    var b0: int, b1: int, b2: int := b[0], b[1], b[2];
    b0 * 0x100_0000 + b1 * 0x1_0000 + b2 * 256 + b[3]
  }

  lemma BigEndianInverse(n: int)
    requires 0 <= n < UINT32
    ensures ReadBigEndian(BigEndian(n)) == n
  {
    var q := n / 256;
    var r := n / 0x1_0000;
    assert n == 256 * q + n % 256;
    assert r == q / 256 && q == 256 * r + q % 256;
    assert n / 0x100_0000 == r / 256 && r == 256 * (r / 256) + r % 256;
  }

  function HeaderPart(h: Header, json: Bytes): Bytes
    requires |json| < UINT32
  {
    MAGIC + [h.formatVersion % 256] + BigEndian(|json|) + json
  }

  /** A header of 2^32 bytes or more makes writeUInt32BE throw. */
  function Serialize(c: Codec, h: Header, ciphertext: Bytes): Result<Bytes, EnvelopeError> {
    var json := c.toJson(h);
    if |json| >= UINT32 then Err(HeaderTooLong) else Ok(HeaderPart(h, json) + ciphertext)
  }

  method SerializeEnvelope(c: Codec, h: Header, ciphertext: Bytes) returns (r: Result<Bytes, EnvelopeError>)
    ensures r == Serialize(c, h, ciphertext)
  {
    var headerJson := c.toJson(h);
    if |headerJson| >= UINT32 {
      return Err(HeaderTooLong);
    }
    var headerLength := new Byte[4];
    headerLength[0] := |headerJson| / 0x100_0000;
    headerLength[1] := |headerJson| / 0x1_0000 % 256;
    headerLength[2] := |headerJson| / 256 % 256;
    headerLength[3] := |headerJson| % 256;
    assert headerLength[..] == BigEndian(|headerJson|);
    var versionByte: Bytes := [h.formatVersion % 256];
    return Ok(MAGIC + versionByte + headerLength[..] + headerJson + ciphertext);
  }

  function RequireAll(raw: RawHeader): Result<Header, EnvelopeError> {
    if raw.formatVersion.Some? && raw.algorithm.Some? && raw.kmsKeyId.Some? && raw.encryptedDataKey.Some?
       && raw.iv.Some? && raw.authTag.Some? && raw.sourceDatabase.Some? && raw.createdAtUtc.Some?
    then Ok(Header(raw.formatVersion.value, raw.algorithm.value, raw.kmsKeyId.value, raw.encryptedDataKey.value,
                   raw.iv.value, raw.authTag.value, raw.sourceDatabase.value, raw.createdAtUtc.value))
    else Err(MissingField)
  }

  function ParseHeader(c: Codec, json: Bytes): Result<Header, EnvelopeError> {
    match c.fromJson(json)
    case None => Err(NotJson)
    case Some(raw) => RequireAll(raw)
  }

  function Parse(c: Codec, buffer: Bytes): Result<Parsed, EnvelopeError> {
    if |buffer| < HEADER_START then Err(TooShort)
    else if buffer[..4] != MAGIC then Err(InvalidMagic)
    else if buffer[4] != FORMAT_VERSION then Err(UnsupportedVersion)
    else
      var end := HEADER_START + ReadBigEndian(buffer[5..9]);
      if end > |buffer| then Err(TruncatedHeader)
      else
        match ParseHeader(c, buffer[HEADER_START..end])
        case Err(e) => Err(e)
        case Ok(h) => Ok(Parsed(h, buffer[end..]))
  }

  method ParseEnvelope(c: Codec, buffer: Bytes) returns (r: Result<Parsed, EnvelopeError>)
    ensures r == Parse(c, buffer)
  {
    if |buffer| < |MAGIC| + 1 + 4 {
      return Err(TooShort);
    }
    if buffer[..|MAGIC|] != MAGIC {
      return Err(InvalidMagic);
    }
    var offset := |MAGIC|;
    var formatVersion := buffer[offset];
    offset := offset + 1;
    if formatVersion != FORMAT_VERSION {
      return Err(UnsupportedVersion);
    }
    var headerLength := ReadBigEndian(buffer[offset..offset + 4]);
    offset := offset + 4;
    if offset + headerLength > |buffer| {
      return Err(TruncatedHeader);
    }
    var raw := c.fromJson(buffer[offset..offset + headerLength]);
    offset := offset + headerLength;
    if raw.None? {
      return Err(NotJson);
    }
    var header := RequireAll(raw.value);
    if header.Err? {
      return Err(MissingField);
    }
    return Ok(Parsed(header.value, buffer[offset..]));
  }

  // ---- encryption ----

  /** `iv` is the fresh random IV, `now` the creation time text. */
  function Encrypt(
    c: Codec, plaintext: Bytes, key: Bytes, encryptedKey: Bytes, kmsKeyId: string,
    sourceDatabase: string, iv: Bytes, now: string): Result<Bytes, EnvelopeError>
  {
    if |key| != DATA_KEY_LENGTH then Err(WrongKeyLength)
    else
      var sealed := c.seal(key, iv, plaintext);
      var header := Header(1, "AES-256-GCM", kmsKeyId, c.toBase64(encryptedKey), c.toBase64(iv),
                           c.toBase64(sealed.authTag), sourceDatabase, now);
      Serialize(c, header, sealed.ciphertext)
  }

  function Decrypt(c: Codec, h: Header, ciphertext: Bytes, key: Bytes): Result<Bytes, EnvelopeError> {
    var iv := c.fromBase64(h.iv);
    var authTag := c.fromBase64(h.authTag);
    if |key| != DATA_KEY_LENGTH then Err(WrongKeyLength)
    else if |iv| != IV_LENGTH then Err(WrongIvLength)
    else if |authTag| != AUTH_TAG_LENGTH then Err(WrongTagLength)
    else
      match c.open(key, iv, authTag, ciphertext)
      case None => Err(AuthenticationFailed)
      case Some(text) => Ok(text)
  }

  // ---- laws of the format ----

  lemma MagicSpellsTmsk()
    ensures |MAGIC| == 4 && forall i :: 0 <= i < 4 ==> MAGIC[i] == "TMSK"[i] as int
  {
  }

  lemma LayoutOfSerialized(h: Header, json: Bytes, rest: Bytes)
    requires |json| < UINT32
    ensures var b := HeaderPart(h, json) + rest;
            && |b| == HEADER_START + |json| + |rest|
            && b[..4] == MAGIC && b[4] == h.formatVersion % 256 && b[5..9] == BigEndian(|json|)
            && b[HEADER_START..HEADER_START + |json|] == json && b[HEADER_START + |json|..] == rest
  {
    hide BigEndian;
    var front := MAGIC + [h.formatVersion % 256] + BigEndian(|json|);
    assert HeaderPart(h, json) + rest == front + (json + rest);
    assert (front + (json + rest))[5..9] == front[5..9];
  }

  /** Parsing what was serialized gives header and ciphertext back, exactly for version bytes of 1. */
  lemma ParseOfSerialize(c: Codec, h: Header, ciphertext: Bytes)
    requires Lawful(c) && Serialize(c, h, ciphertext).Ok?
    ensures Parse(c, Serialize(c, h, ciphertext).value) ==
            if h.formatVersion % 256 == 1 then Ok(Parsed(h, ciphertext)) else Err(UnsupportedVersion)
  {
    hide BigEndian, ReadBigEndian, HeaderPart;
    var json := c.toJson(h);
    LayoutOfSerialized(h, json, ciphertext);
    BigEndianInverse(|json|);
    assert c.fromJson(json) == Some(Complete(h));
  }

  /** Different headers or ciphertexts never serialize to the same bytes. */
  lemma SerializeIsInjective(c: Codec, h1: Header, t1: Bytes, h2: Header, t2: Bytes)
    requires Lawful(c) && Serialize(c, h1, t1).Ok? && Serialize(c, h1, t1) == Serialize(c, h2, t2)
    ensures h1 == h2 && t1 == t2
  {
    hide BigEndian, ReadBigEndian, HeaderPart;
    var j1, j2 := c.toJson(h1), c.toJson(h2);
    LayoutOfSerialized(h1, j1, t1);
    LayoutOfSerialized(h2, j2, t2);
    BigEndianInverse(|j1|);
    BigEndianInverse(|j2|);
    assert j1 == j2;
    assert Some(Complete(h1)) == c.fromJson(j1) == Some(Complete(h2));
  }

  /** A file cut off anywhere before the end of its header is rejected. */
  lemma TruncatedIsRejected(c: Codec, h: Header, ciphertext: Bytes, k: nat)
    requires Serialize(c, h, ciphertext).Ok? && k < HEADER_START + |c.toJson(h)|
    ensures k <= |Serialize(c, h, ciphertext).value|
    ensures Parse(c, Serialize(c, h, ciphertext).value[..k]).Err?
  {
    hide BigEndian, ReadBigEndian, HeaderPart;
    var b := Serialize(c, h, ciphertext).value;
    LayoutOfSerialized(h, c.toJson(h), ciphertext);
    BigEndianInverse(|c.toJson(h)|);
    if k >= HEADER_START {
      assert b[..k][5..9] == b[5..9];
    }
  }

  /** Whatever parses is magic, version, length, header and ciphertext laid end to end. */
  lemma ParsedIsLaidOut(c: Codec, buffer: Bytes)
    requires Parse(c, buffer).Ok?
    ensures var r := Parse(c, buffer).value;
            exists json: Bytes ::
              && |json| < UINT32 && c.fromJson(json) == Some(Complete(r.header))
              && buffer == MAGIC + [FORMAT_VERSION] + BigEndian(|json|) + json + r.ciphertext
  {
    hide BigEndian, ReadBigEndian;
    var end := HEADER_START + ReadBigEndian(buffer[5..9]);
    var json := buffer[HEADER_START..end];
    ReadBigEndianInverse(buffer[5..9]);
    assert buffer == buffer[..4] + [buffer[4]] + buffer[5..9] + json + buffer[end..];
  }

  /** And whatever is laid out so, with a complete header, parses to exactly that. */
  lemma LaidOutIsParsed(c: Codec, json: Bytes, h: Header, ciphertext: Bytes)
    requires |json| < UINT32 && c.fromJson(json) == Some(Complete(h))
    ensures Parse(c, MAGIC + [FORMAT_VERSION] + BigEndian(|json|) + json + ciphertext) == Ok(Parsed(h, ciphertext))
  {
    hide BigEndian, ReadBigEndian;
    var b := MAGIC + [FORMAT_VERSION] + BigEndian(|json|) + json + ciphertext;
    BigEndianInverse(|json|);
    assert b[..4] == MAGIC && b[4] == FORMAT_VERSION && b[5..9] == BigEndian(|json|);
    assert b[HEADER_START..HEADER_START + |json|] == json && b[HEADER_START + |json|..] == ciphertext;
  }

  /** Decryption opens the ciphertext exactly when key, IV and tag have their lengths and the cipher accepts them. */
  lemma DecryptExactly(c: Codec, h: Header, ciphertext: Bytes, key: Bytes, text: Bytes)
    ensures Decrypt(c, h, ciphertext, key) == Ok(text) <==>
              && |key| == 32 && |c.fromBase64(h.iv)| == 12 && |c.fromBase64(h.authTag)| == 16
              && c.open(key, c.fromBase64(h.iv), c.fromBase64(h.authTag), ciphertext) == Some(text)
  {
  }

  lemma ReadBigEndianInverse(b: Bytes)
    requires |b| == 4
    ensures BigEndian(ReadBigEndian(b)) == b
  {
    var n := ReadBigEndian(b);
    var b0: int, b1: int, b2: int := b[0], b[1], b[2];
    assert n % 256 == b[3] && n / 256 == b0 * 0x1_0000 + b1 * 256 + b2;
    QuotientSteps(n);
    var q := n / 256;
    assert q % 256 == b2 && q / 256 == b0 * 256 + b1;
    var r := q / 256;
    assert r % 256 == b1 && r / 256 == b0;
  }

  lemma QuotientSteps(n: nat)
    ensures n / 0x1_0000 == n / 256 / 256
    ensures n / 0x100_0000 == n / 256 / 256 / 256
  {
  }

  /** Decrypting the parsed envelope of an encryption gives the plaintext back. */
  lemma DecryptOfEncrypt(
    c: Codec, plaintext: Bytes, key: Bytes, encryptedKey: Bytes, kmsKeyId: string,
    sourceDatabase: string, iv: Bytes, now: string)
    requires Lawful(c) && |iv| == IV_LENGTH
    requires Encrypt(c, plaintext, key, encryptedKey, kmsKeyId, sourceDatabase, iv, now).Ok?
    ensures var r := Parse(c, Encrypt(c, plaintext, key, encryptedKey, kmsKeyId, sourceDatabase, iv, now).value);
            && r.Ok?
            && c.fromBase64(r.value.header.encryptedDataKey) == encryptedKey
            && r.value.header.kmsKeyId == kmsKeyId && r.value.header.sourceDatabase == sourceDatabase
            && r.value.header.createdAtUtc == now && r.value.header.algorithm == "AES-256-GCM"
            && r.value.header.formatVersion == 1 && c.fromBase64(r.value.header.iv) == iv
            && Decrypt(c, r.value.header, r.value.ciphertext, key) == Ok(plaintext)
  {
    hide Serialize, Parse;
    var sealed := c.seal(key, iv, plaintext);
    var header := Header(1, "AES-256-GCM", kmsKeyId, c.toBase64(encryptedKey), c.toBase64(iv),
                         c.toBase64(sealed.authTag), sourceDatabase, now);
    ParseOfSerialize(c, header, sealed.ciphertext);
  }
}
