/** The RSOB v1 frame of an encrypted object. */
module Rsob {
  import opened Options
  import opened Data

  const MAGIC: Bytes := [82, 83, 79, 66]
  const VERSION: byte := 1
  const XCHACHA20_POLY1305_TAG: byte := 1
  const FIXED_HEADER_LEN: nat := 9
  const MAX_ENCRYPTED_OBJECT_BYTES: nat := 1024 * 1024
  const NONCE_SIZE: nat := 24
  const TAG_SIZE: nat := 16
  const MAX_KEY_ID_LEN: nat := 64

  predicate IdChar(c: char) {
    'a' <= c <= 'z' || 'A' <= c <= 'Z' || '0' <= c <= '9' || c in "_-."
  }

  predicate IsKeyId(s: string) {
    0 < |s| <= MAX_KEY_ID_LEN && forall c | c in s :: IdChar(c)
  }

  /** A parsed key id. */
  type KeyId = s: string | IsKeyId(s) witness "system"

  datatype Algorithm = XChaCha20Poly1305

  datatype EncryptedObject = EncryptedObject(keyId: KeyId, algorithm: Algorithm, nonce: Bytes, ciphertext: Bytes)

  datatype FrameError =
    | EmptyCiphertext
    | InvalidNonceLength(actual: nat)
    | CiphertextTooShort(actual: nat)
    | TooLarge(actual: nat)
    | Malformed
    | UnsupportedVersion(version: byte)
    | UnsupportedAlgorithm(tag: byte)

  datatype Result<T> = Ok(value: T) | Err(error: FrameError)

  function ObjectError(o: EncryptedObject): Option<FrameError> {
    if o.ciphertext == [] then Some(EmptyCiphertext)
    else if |o.nonce| != NONCE_SIZE then Some(InvalidNonceLength(|o.nonce|))
    else if |o.ciphertext| < TAG_SIZE then Some(CiphertextTooShort(|o.ciphertext|))
    else None
  }

  // ---------------------------------------------------------------- the format

  function U16(n: nat): Bytes
    requires n < 65536
  {
    [(n / 256) as byte, (n % 256) as byte]
  }

  function FromU16(b: Bytes): nat
    requires |b| == 2
  {
    b[0] as nat * 256 + b[1] as nat
  }

  /** The bytes of an ASCII text. */
  function Ascii(s: string): Bytes
    requires forall c | c in s :: IdChar(c)
  {
    seq(|s|, i requires 0 <= i < |s| => (assert IdChar(s[i]); s[i] as int as byte))
  }

  function Text(b: Bytes): string {
    seq(|b|, i requires 0 <= i < |b| => b[i] as int as char)
  }

  lemma AsciiRoundTrip(s: string, b: Bytes)
    requires forall c | c in s :: IdChar(c)
    ensures Text(Ascii(s)) == s
    ensures (forall c | c in Text(b) :: IdChar(c)) ==> Ascii(Text(b)) == b
  {
  }

  function FrameLength(o: EncryptedObject): nat {
    FIXED_HEADER_LEN + |o.keyId| + |o.nonce| + |o.ciphertext|
  }

  predicate Encodable(o: EncryptedObject) {
    ObjectError(o) == None && FrameLength(o) <= MAX_ENCRYPTED_OBJECT_BYTES
  }

  /** `magic | version | algorithm | key id length | nonce length | key id | nonce | ciphertext`. */
  function Frame(o: EncryptedObject): Bytes
    requires |o.nonce| < 256
  {
    MAGIC + [VERSION, XCHACHA20_POLY1305_TAG] + U16(|o.keyId|) + [|o.nonce| as byte]
    + Ascii(o.keyId) + o.nonce + o.ciphertext
  }

  lemma FrameParts(o: EncryptedObject)
    requires |o.nonce| < 256
    ensures var f, k, n := Frame(o), |o.keyId|, |o.nonce|;
      && |f| == FrameLength(o)
      && f[..4] == MAGIC && f[4] == VERSION && f[5] == XCHACHA20_POLY1305_TAG
      && FromU16(f[6..8]) == k && f[8] as nat == n
      && f[9..9 + k] == Ascii(o.keyId) && f[9 + k..9 + k + n] == o.nonce && f[9 + k + n..] == o.ciphertext
  {
  }

  /** Distinct objects have distinct frames. */
  lemma FrameIsInjective(a: EncryptedObject, b: EncryptedObject)
    requires |a.nonce| < 256 && |b.nonce| < 256 && Frame(a) == Frame(b)
    ensures a == b
  {
    FrameParts(a);
    FrameParts(b);
    AsciiRoundTrip(a.keyId, []);
    AsciiRoundTrip(b.keyId, []);
  }

  // ---------------------------------------------------------------- encoding

  /** Fails for an empty ciphertext, a nonce of the wrong length, a ciphertext without room for its tag, and
      a frame above one mebibyte, in this order. */
  method Encode(o: EncryptedObject) returns (r: Result<Bytes>)
    ensures r.Ok? <==> Encodable(o)
    ensures r.Ok? ==> r.value == Frame(o)
    ensures r == Err(EmptyCiphertext) <==> |o.ciphertext| == 0
    ensures r == Err(InvalidNonceLength(|o.nonce|)) <==> |o.ciphertext| > 0 && |o.nonce| != 24
    ensures r == Err(CiphertextTooShort(|o.ciphertext|)) <==> |o.nonce| == 24 && 0 < |o.ciphertext| < 16
    ensures r == Err(TooLarge(33 + |o.keyId| + |o.ciphertext|)) <==>
      |o.nonce| == 24 && |o.ciphertext| >= 16 && 33 + |o.keyId| + |o.ciphertext| > 0x10_0000
    ensures r.Ok? <==>
      |o.nonce| == 24 && |o.ciphertext| >= 16 && 33 + |o.keyId| + |o.ciphertext| <= 0x10_0000
  {
    var invalid := ObjectError(o);
    if invalid.Some? {
      return Err(invalid.value);
    }
    var keyId := Ascii(o.keyId);
    var capacity := FIXED_HEADER_LEN + |keyId| + |o.nonce| + |o.ciphertext|;
    if capacity > MAX_ENCRYPTED_OBJECT_BYTES {
      return Err(TooLarge(capacity));
    }
    var bytes := MAGIC;
    bytes := bytes + [VERSION];
    bytes := bytes + [XCHACHA20_POLY1305_TAG];
    bytes := bytes + U16(|keyId|);
    bytes := bytes + [|o.nonce| as byte];
    bytes := bytes + keyId;
    bytes := bytes + o.nonce;
    bytes := bytes + o.ciphertext;
    assert MAGIC + [VERSION] + [XCHACHA20_POLY1305_TAG] == MAGIC + [VERSION, XCHACHA20_POLY1305_TAG];
    r := Ok(bytes);
  }

  // ---------------------------------------------------------------- decoding

  class Cursor {
    const bytes: Bytes
    var position: nat

    constructor (bytes: Bytes)
      ensures this.bytes == bytes && position == 0
    {
      this.bytes := bytes;
      position := 0;
    }

    ghost predicate Valid()
      reads this
    {
      position <= |bytes|
    }

    /** The next bytes, or nothing, and the cursor stays, if there are not enough. */
    method Take(length: nat) returns (r: Option<Bytes>)
      requires Valid()
      modifies this
      ensures Valid()
      ensures r.Some? <==> old(position) + length <= |bytes|
      ensures r.Some? ==> position == old(position) + length && r.value == bytes[old(position)..position]
      ensures r == None ==> position == old(position)
    {
      if |bytes| - position < length {
        return None;
      }
      r := Some(bytes[position..position + length]);
      position := position + length;
    }

    function Remaining(): Bytes
      requires Valid()
      reads this
    {
      bytes[position..]
    }
  }

  /** Nothing decodes to these bytes. */
  ghost predicate NoFrame(bytes: Bytes) {
    forall o: EncryptedObject | Encodable(o) :: Frame(o) != bytes
  }

  /** Not even an object that cannot be encoded has these bytes. */
  ghost predicate NothingInside(bytes: Bytes) {
    forall o: EncryptedObject | |o.nonce| < 256 :: Frame(o) != bytes
  }

  lemma NotAFrame(bytes: Bytes)
    ensures |bytes| > MAX_ENCRYPTED_OBJECT_BYTES ==> NoFrame(bytes)
    ensures |bytes| < 9 ==> NothingInside(bytes)
    ensures |bytes| >= 4 && bytes[..4] != MAGIC ==> NothingInside(bytes)
    ensures |bytes| > 4 && bytes[4] != VERSION ==> NothingInside(bytes)
    ensures |bytes| > 5 && bytes[5] != XCHACHA20_POLY1305_TAG ==> NothingInside(bytes)
    ensures |bytes| >= 9 && |bytes| < 9 + FromU16(bytes[6..8]) + bytes[8] as nat ==> NothingInside(bytes)
  {
  }

  /** What the cursor reads after a complete header, as one object. */
  lemma Reassembled(bytes: Bytes, keyId: KeyId, nonce: Bytes, ciphertext: Bytes)
    requires 9 <= |bytes| <= MAX_ENCRYPTED_OBJECT_BYTES
    requires bytes[..4] == MAGIC && bytes[4] == VERSION && bytes[5] == XCHACHA20_POLY1305_TAG
    requires var k, n := FromU16(bytes[6..8]), bytes[8] as nat;
      && 9 + k + n <= |bytes|
      && keyId == Text(bytes[9..9 + k]) && nonce == bytes[9 + k..9 + k + n] && ciphertext == bytes[9 + k + n..]
    ensures |nonce| < 256 && Frame(EncryptedObject(keyId, XChaCha20Poly1305, nonce, ciphertext)) == bytes
  {
  }

  lemma NotAFrameInside(bytes: Bytes, o: EncryptedObject)
    requires |o.nonce| < 256 && Frame(o) == bytes && !Encodable(o)
    ensures NoFrame(bytes)
  {
    forall o': EncryptedObject | Encodable(o') ensures Frame(o') != bytes {
      if Frame(o') == bytes { FrameIsInjective(o, o'); }
    }
  }

  lemma BadKeyId(bytes: Bytes)
    requires 9 <= |bytes| && 9 + FromU16(bytes[6..8]) <= |bytes|
    requires !IsKeyId(Text(bytes[9..9 + FromU16(bytes[6..8])]))
    ensures NothingInside(bytes)
  {
  }

  /** A complete v1 header. */
  predicate HeaderOk(bytes: Bytes) {
    9 <= |bytes| <= MAX_ENCRYPTED_OBJECT_BYTES
    && bytes[..4] == MAGIC && bytes[4] == VERSION && bytes[5] == XCHACHA20_POLY1305_TAG
  }

  /** The header errors that name what they met. */
  ghost predicate HeaderError(bytes: Bytes, error: FrameError) {
    match error
    case TooLarge(n) => n == |bytes| > MAX_ENCRYPTED_OBJECT_BYTES
    case UnsupportedVersion(v) =>
      4 < |bytes| <= MAX_ENCRYPTED_OBJECT_BYTES && bytes[..4] == MAGIC && v == bytes[4] != VERSION
    case UnsupportedAlgorithm(t) =>
      && 5 < |bytes| <= MAX_ENCRYPTED_OBJECT_BYTES && bytes[..4] == MAGIC && bytes[4] == VERSION
      && t == bytes[5] != XCHACHA20_POLY1305_TAG
    case _ => false
  }

  /** Magic, version, algorithm and the two lengths, in this order. */
  method ReadHeader(cursor: Cursor) returns (r: Result<(nat, nat)>)
    requires cursor.position == 0 && |cursor.bytes| <= MAX_ENCRYPTED_OBJECT_BYTES
    modifies cursor
    ensures r.Ok? <==> HeaderOk(cursor.bytes)
    ensures r.Ok? ==>
      cursor.position == 9 && r.value == (FromU16(cursor.bytes[6..8]), cursor.bytes[8] as nat)
    ensures r.Err? ==> (r.error == Malformed <==> !exists error :: HeaderError(cursor.bytes, error))
    ensures r.Err? && r.error != Malformed ==> HeaderError(cursor.bytes, r.error)
  {
    var magic := cursor.Take(4);
    if magic != Some(MAGIC) {
      return Err(Malformed);
    }
    var version := cursor.Take(1);
    if version == None {
      return Err(Malformed);
    }
    if version.value[0] != VERSION {
      assert HeaderError(cursor.bytes, UnsupportedVersion(version.value[0]));
      return Err(UnsupportedVersion(version.value[0]));
    }
    var tag := cursor.Take(1);
    if tag == None {
      return Err(Malformed);
    }
    if tag.value[0] != XCHACHA20_POLY1305_TAG {
      assert HeaderError(cursor.bytes, UnsupportedAlgorithm(tag.value[0]));
      return Err(UnsupportedAlgorithm(tag.value[0]));
    }
    var keyIdLen := cursor.Take(2);
    if keyIdLen == None {
      return Err(Malformed);
    }
    var nonceLen := cursor.Take(1);
    if nonceLen == None {
      return Err(Malformed);
    }
    r := Ok((FromU16(keyIdLen.value), nonceLen.value[0] as nat));
  }

  /** Key id, nonce and ciphertext. */
  method ReadBody(cursor: Cursor, keyIdLen: nat, nonceLen: nat) returns (r: Result<EncryptedObject>)
    requires HeaderOk(cursor.bytes) && cursor.position == 9
    requires keyIdLen == FromU16(cursor.bytes[6..8]) && nonceLen == cursor.bytes[8] as nat
    modifies cursor
    ensures r.Ok? ==> |r.value.nonce| < 256 && Frame(r.value) == cursor.bytes
    ensures r.Err? ==> NothingInside(cursor.bytes) && r.error == Malformed
  {
    NotAFrame(cursor.bytes);
    var keyIdBytes := cursor.Take(keyIdLen);
    if keyIdBytes == None {
      return Err(Malformed);
    }
    var keyId := Text(keyIdBytes.value);
    if !IsKeyId(keyId) {
      BadKeyId(cursor.bytes);
      return Err(Malformed);
    }
    var nonce := cursor.Take(nonceLen);
    if nonce == None {
      return Err(Malformed);
    }
    var ciphertext := cursor.Remaining();
    Reassembled(cursor.bytes, keyId, nonce.value, ciphertext);
    r := Ok(EncryptedObject(keyId, XChaCha20Poly1305, nonce.value, ciphertext));
  }

  /** Decoding succeeds exactly on the frames of valid, fitting objects, and inverts encoding. */
  method Decode(bytes: Bytes) returns (r: Result<EncryptedObject>)
    ensures r.Ok? ==> Encodable(r.value) && Frame(r.value) == bytes
    ensures r.Err? ==> NoFrame(bytes)
    ensures forall error :: HeaderError(bytes, error) ==> r == Err(error)
    ensures |bytes| <= MAX_ENCRYPTED_OBJECT_BYTES ==>
      forall o: EncryptedObject | |o.nonce| < 256 && Frame(o) == bytes && ObjectError(o).Some? ::
        r == Err(ObjectError(o).value)
    ensures NothingInside(bytes) && !(exists error :: HeaderError(bytes, error)) ==> r == Err(Malformed)
  {
    NotAFrame(bytes);
    if |bytes| > MAX_ENCRYPTED_OBJECT_BYTES {
      assert HeaderError(bytes, TooLarge(|bytes|));
      return Err(TooLarge(|bytes|));
    }
    var cursor := new Cursor(bytes);
    var header := ReadHeader(cursor);
    if header.Err? {
      OneHeaderError(bytes);
      NoObjectInside(bytes);
      return Err(header.error);
    }
    r := ReadBody(cursor, header.value.0, header.value.1);
    if r.Ok? {
      FrameParts(r.value);
      OnlyObjectInside(bytes, r.value);
      var invalid := ObjectError(r.value);
      if invalid.Some? {
        NotAFrameInside(bytes, r.value);
        r := Err(invalid.value);
      }
    }
  }

  lemma NoObjectInside(bytes: Bytes)
    requires !HeaderOk(bytes)
    ensures |bytes| <= MAX_ENCRYPTED_OBJECT_BYTES ==> NothingInside(bytes)
  {
    forall o: EncryptedObject | |o.nonce| < 256 && Frame(o) == bytes ensures |bytes| > MAX_ENCRYPTED_OBJECT_BYTES {
      FrameParts(o);
    }
  }

  lemma OnlyObjectInside(bytes: Bytes, o: EncryptedObject)
    requires |o.nonce| < 256 && Frame(o) == bytes
    ensures forall o': EncryptedObject | |o'.nonce| < 256 && Frame(o') == bytes :: o' == o
  {
    forall o': EncryptedObject | |o'.nonce| < 256 && Frame(o') == bytes ensures o' == o { FrameIsInjective(o, o'); }
  }

  lemma OneHeaderError(bytes: Bytes)
    ensures forall a, b | HeaderError(bytes, a) && HeaderError(bytes, b) :: a == b
  {
  }

  /** Decoding what was encoded gives the object back. */
  method RoundTrip(o: EncryptedObject) returns (r: Result<EncryptedObject>)
    requires Encodable(o)
    ensures r == Ok(o)
  {
    var encoded := Encode(o);
    r := Decode(encoded.value);
    if r.Ok? { FrameIsInjective(o, r.value); }
  }
}
