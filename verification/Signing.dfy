/** What devices sign: lists of length-prefixed fields, one list per kind of message. */
module Signing {
  import opened Data
  import opened AccessEvents

  // ---------------------------------------------------------------- framing

  /** The `k` low bytes of a number, most significant first. */
  function BigEndian(k: nat, n: nat): (b: Bytes)
    ensures |b| == k
  {
    if k == 0 then [] else BigEndian(k - 1, n / 256) + [(n % 256) as byte]
  }

  function Value(b: Bytes): nat {
    if b == [] then 0 else Value(b[..|b| - 1]) * 256 + b[|b| - 1] as nat
  }

  function Capacity(k: nat): (c: nat)
    ensures c > 0
  {
    if k == 0 then 1 else 256 * Capacity(k - 1)
  }

  lemma {:induction false} BigEndianRoundTrip(k: nat, n: nat)
    requires n < Capacity(k)
    ensures Value(BigEndian(k, n)) == n
  {
    if k == 0 {
    } else {
      BigEndianRoundTrip(k - 1, n / 256);
      assert BigEndian(k, n)[..k - 1] == BigEndian(k - 1, n / 256);
    }
  }

  lemma DivideTwice(n: nat, c: nat)
    requires c > 0
    ensures n / 256 / c == n / (256 * c)
  {
    var q, s, r := n / 256 / c, n / 256 % c, n % 256;
    var d := 256 * c;
    assert n / 256 == c * q + s;
    assert n == 256 * (c * q + s) + r == d * q + (256 * s + r);
    Quotient(n, d, q, 256 * s + r);
  }

  lemma Quotient(n: nat, d: nat, q: nat, r: nat)
    requires r < d && n == d * q + r
    ensures n / d == q
  {
    var q' := n / d;
    assert n == d * q' + n % d;
    if q' < q { MonotoneProduct(d, q' + 1, q); }
    if q < q' { MonotoneProduct(d, q + 1, q'); }
  }

  lemma MonotoneProduct(d: nat, a: nat, b: nat)
    requires a <= b
    ensures d * a <= d * b
  {
  }

  /** The most significant byte comes first. */
  lemma {:induction false} BigEndianDigits(k: nat, n: nat, i: nat)
    requires i < k
    ensures BigEndian(k, n)[i] as nat == n / Capacity(k - 1 - i) % 256
  {
    if i == k - 1 {
      assert Capacity(0) == 1;
    } else {
      BigEndianDigits(k - 1, n / 256, i);
      DivideTwice(n, Capacity(k - 2 - i));
    }
  }

  predicate FitsU64(n: nat) {
    n <= 0xFFFF_FFFF_FFFF_FFFF
  }

  lemma U64Capacity(n: nat)
    requires FitsU64(n)
    ensures n < Capacity(8)
  {
  }

  function U64(n: nat): (b: Bytes)
    ensures |b| == 8
  {
    BigEndian(8, n)
  }

  lemma U64IsInjective(a: nat, b: nat)
    requires FitsU64(a) && FitsU64(b) && U64(a) == U64(b)
    ensures a == b
  {
    U64Capacity(a);
    U64Capacity(b);
    BigEndianRoundTrip(8, a);
    BigEndianRoundTrip(8, b);
  }

  /** Every field is preceded by its length. */
  function Payload(fields: seq<Bytes>): Bytes {
    if fields == [] then [] else U64(|fields[0]|) + fields[0] + Payload(fields[1..])
  }

  ghost predicate Sized(fields: seq<Bytes>) {
    forall i | 0 <= i < |fields| :: FitsU64(|fields[i]|)
  }

  lemma {:induction false} PayloadOfMore(fields: seq<Bytes>, field: Bytes)
    ensures Payload(fields + [field]) == Payload(fields) + U64(|field|) + field
  {
    if fields == [] {
      assert Payload([]) == [] && ([field])[1..] == [];
    } else {
      PayloadOfMore(fields[1..], field);
      assert (fields + [field])[1..] == fields[1..] + [field];
      var head := U64(|fields[0]|) + fields[0];
      assert head + (Payload(fields[1..]) + U64(|field|) + field) == head + Payload(fields[1..]) + U64(|field|) + field;
    }
  }

  /** A payload determines its fields. */
  lemma {:induction false} PayloadIsInjective(a: seq<Bytes>, b: seq<Bytes>)
    requires Sized(a) && Sized(b) && Payload(a) == Payload(b)
    ensures a == b
  {
    if a != [] && b != [] {
      var p := Payload(a);
      assert p[..8] == U64(|a[0]|) && p[..8] == U64(|b[0]|);
      U64IsInjective(|a[0]|, |b[0]|);
      assert p[8..8 + |a[0]|] == a[0] && p[8..8 + |a[0]|] == b[0];
      assert p[8 + |a[0]|..] == Payload(a[1..]) && p[8 + |a[0]|..] == Payload(b[1..]);
      PayloadIsInjective(a[1..], b[1..]);
      assert a == [a[0]] + a[1..] && b == [b[0]] + b[1..];
    } else {
      assert a != [] ==> |Payload(a)| >= 8;
      assert b != [] ==> |Payload(b)| >= 8;
    }
  }

  // ---------------------------------------------------------------- messages

  /** The bytes of an ASCII literal. */
  function Literal(s: string): Bytes {
    seq(|s|, i requires 0 <= i < |s| => (s[i] as int % 256) as byte)
  }

  function DeviceSignatureDomain(): Bytes { Literal("rustsync/device-signature") }
  function AccessEventDomain(): Bytes { Literal("rustsync/access-event") }
  function JoinRequestDomain(): Bytes { Literal("rustsync/device-join-request") }
  function KeyEnvelopeDomain(): Bytes { Literal("rustsync/key-envelope") }

  function AlgorithmName(): Bytes { Literal("x25519-hkdf-sha256-xchacha20poly1305") }

  datatype JoinRequest = JoinRequest(
    requestId: string, workspaceId: string, device: DeviceRecord, createdAt: nat, signature: Bytes)

  datatype KeyEnvelope = KeyEnvelope(
    workspaceId: string,
    keyId: string,
    keyGeneration: nat,
    accessRevision: nat,
    senderDeviceId: string,
    recipientDeviceId: string,
    senderEphemeralPublicKey: Bytes,
    nonce: Bytes,
    encryptedWorkspaceKey: Bytes,
    createdAt: nat,
    signature: Bytes)

  /** The bytes of a text, injectively (UTF-8). */
  type Encoding = string -> Bytes

  ghost predicate Faithful(text: Encoding) {
    forall a: string, b: string {:trigger text(a), text(b)} :: text(a) == text(b) ==> a == b
  }

  function StatusTag(s: DeviceStatus): Bytes {
    match s case Pending => [1] case Active => [2] case Revoked => [3]
  }

  function StatusName(s: DeviceStatus): Bytes {
    match s case Pending => Literal("pending") case Active => Literal("active") case Revoked => Literal("revoked")
  }

  function RoleTag(r: Role): Bytes {
    match r case Owner => [1] case Member => [2]
  }

  function DeviceFields(text: Encoding, d: DeviceRecord, status: Bytes): seq<Bytes> {
    [text(d.deviceId), text(d.deviceName), d.signingPublicKey, d.exchangePublicKey, text(d.fingerprint), status]
  }

  function EventFields(text: Encoding, e: AccessEvent): seq<Bytes> {
    match e
    case WorkspaceCreated(owner) => [[1]] + DeviceFields(text, owner, StatusTag(owner.status))
    case DeviceJoined(request, device, role) =>
      [[2], text(request)] + DeviceFields(text, device, StatusTag(device.status)) + [RoleTag(role)]
    case DeviceRoleChanged(d, role) => [[3], text(d), RoleTag(role)]
    case DeviceRemoved(d) => [[4], text(d)]
    case RestrictedKeyGranted(key, generation, d) => [[5], text(key), U64(generation), text(d)]
    case RestrictedKeyRevoked(key, generation, d) => [[6], text(key), U64(generation), text(d)]
  }

  function AccessFields(text: Encoding, e: SignedAccessEvent): seq<Bytes> {
    [AccessEventDomain(), text(e.eventId), text(e.workspaceId), U64(e.expectedRevision), text(e.actorDeviceId),
     U64(e.createdAt)] + EventFields(text, e.event)
  }

  function JoinFields(text: Encoding, r: JoinRequest): seq<Bytes> {
    [JoinRequestDomain(), text(r.requestId), text(r.workspaceId)]
    + DeviceFields(text, r.device, StatusName(r.device.status)) + [U64(r.createdAt)]
  }

  function ContextFields(text: Encoding, k: KeyEnvelope): seq<Bytes> {
    [KeyEnvelopeDomain(), text(k.workspaceId), text(k.keyId), U64(k.keyGeneration), U64(k.accessRevision),
     text(k.senderDeviceId), text(k.recipientDeviceId), AlgorithmName(),
     U64(k.createdAt)]
  }

  function EnvelopeFields(text: Encoding, k: KeyEnvelope): seq<Bytes> {
    ContextFields(text, k) + [k.senderEphemeralPublicKey, k.nonce, k.encryptedWorkspaceKey]
  }

  /** The 64-bit numbers of the messages. */
  predicate EventFits(e: SignedAccessEvent) {
    && FitsU64(e.expectedRevision) && FitsU64(e.createdAt)
    && (e.event.RestrictedKeyGranted? || e.event.RestrictedKeyRevoked? ==> FitsU64(e.event.keyGeneration))
  }

  predicate EnvelopeFits(k: KeyEnvelope) {
    FitsU64(k.keyGeneration) && FitsU64(k.accessRevision) && FitsU64(k.createdAt)
  }

  // ---------------------------------------------------------------- building payloads

  /** The growing buffer of `push_bytes` and its relatives. */
  class PayloadBuffer {
    var out: Bytes
    ghost var fields: seq<Bytes>

    ghost predicate Valid()
      reads this
    {
      out == Payload(fields)
    }

    constructor ()
      ensures Valid() && fields == []
    {
      out, fields := [], [];
    }

    method PushBytes(value: Bytes)
      requires Valid()
      modifies this
      ensures Valid() && fields == old(fields) + [value]
    {
      PayloadOfMore(fields, value);
      out := out + U64(|value|);
      out := out + value;
      fields := fields + [value];
    }

    method PushText(text: Encoding, value: string)
      requires Valid()
      modifies this
      ensures Valid() && fields == old(fields) + [text(value)]
    {
      PushBytes(text(value));
    }

    method PushU64(value: nat)
      requires Valid()
      modifies this
      ensures Valid() && fields == old(fields) + [U64(value)]
    {
      PushBytes(U64(value));
    }

    method PushDeviceRecord(text: Encoding, d: DeviceRecord, status: Bytes)
      requires Valid()
      modifies this
      ensures Valid() && fields == old(fields) + DeviceFields(text, d, status)
    {
      PushText(text, d.deviceId);
      PushText(text, d.deviceName);
      PushBytes(d.signingPublicKey);
      PushBytes(d.exchangePublicKey);
      PushText(text, d.fingerprint);
      PushBytes(status);
    }

    method PushKeyAccess(text: Encoding, key: string, generation: nat, d: string)
      requires Valid()
      modifies this
      ensures Valid() && fields == old(fields) + [text(key), U64(generation), text(d)]
    {
      PushText(text, key);
      PushU64(generation);
      PushText(text, d);
    }

    /** `context_bytes`: what the encryption of an envelope is bound to. */
    method PushContext(text: Encoding, k: KeyEnvelope)
      requires Valid()
      modifies this
      ensures Valid() && fields == old(fields) + ContextFields(text, k)
    {
      PushBytes(KeyEnvelopeDomain());
      PushText(text, k.workspaceId);
      PushKeyVersion(text, k.keyId, k.keyGeneration, k.accessRevision);
      PushText(text, k.senderDeviceId);
      PushText(text, k.recipientDeviceId);
      PushBytes(AlgorithmName());
      PushU64(k.createdAt);
    }

    method PushKeyVersion(text: Encoding, key: string, generation: nat, revision: nat)
      requires Valid()
      modifies this
      ensures Valid() && fields == old(fields) + [text(key), U64(generation), U64(revision)]
    {
      PushText(text, key);
      PushU64(generation);
      PushU64(revision);
    }

    method PushCreation(text: Encoding, owner: DeviceRecord)
      requires Valid()
      modifies this
      ensures Valid() && fields == old(fields) + EventFields(text, WorkspaceCreated(owner))
    {
      PushBytes([1]);
      PushDeviceRecord(text, owner, StatusTag(owner.status));
    }

    method PushJoin(text: Encoding, request: string, device: DeviceRecord, role: Role)
      requires Valid()
      modifies this
      ensures Valid() && fields == old(fields) + EventFields(text, DeviceJoined(request, device, role))
    {
      PushBytes([2]);
      PushText(text, request);
      PushDeviceRecord(text, device, StatusTag(device.status));
      PushBytes(RoleTag(role));
    }

    method PushRoleChange(text: Encoding, d: string, role: Role)
      requires Valid()
      modifies this
      ensures Valid() && fields == old(fields) + EventFields(text, DeviceRoleChanged(d, role))
    {
      PushBytes([3]);
      PushText(text, d);
      PushBytes(RoleTag(role));
    }

    method PushAccessEvent(text: Encoding, e: AccessEvent)
      requires Valid()
      modifies this
      ensures Valid() && fields == old(fields) + EventFields(text, e)
    {
      match e
      case WorkspaceCreated(owner) =>
        PushCreation(text, owner);
      case DeviceJoined(request, device, role) =>
        PushJoin(text, request, device, role);
      case DeviceRoleChanged(d, role) =>
        PushRoleChange(text, d, role);
      case DeviceRemoved(d) =>
        PushBytes([4]);
        PushText(text, d);
      case RestrictedKeyGranted(key, generation, d) =>
        PushBytes([5]);
        PushKeyAccess(text, key, generation, d);
      case RestrictedKeyRevoked(key, generation, d) =>
        PushBytes([6]);
        PushKeyAccess(text, key, generation, d);
    }
  }

  /** The fields of an event, byte by byte where they are tags. */
  function SpelledFields(text: Encoding, e: AccessEvent): seq<Bytes> {
    match e
    case WorkspaceCreated(d) =>
      [[1], text(d.deviceId), text(d.deviceName), d.signingPublicKey, d.exchangePublicKey, text(d.fingerprint),
       [if d.status == Pending then 1 else if d.status == Active then 2 else 3]]
    case DeviceJoined(request, d, role) =>
      [[2], text(request), text(d.deviceId), text(d.deviceName), d.signingPublicKey, d.exchangePublicKey,
       text(d.fingerprint), [if d.status == Pending then 1 else if d.status == Active then 2 else 3],
       [if role == Owner then 1 else 2]]
    case DeviceRoleChanged(d, role) => [[3], text(d), [if role == Owner then 1 else 2]]
    case DeviceRemoved(d) => [[4], text(d)]
    case RestrictedKeyGranted(key, generation, d) => [[5], text(key), U64(generation), text(d)]
    case RestrictedKeyRevoked(key, generation, d) => [[6], text(key), U64(generation), text(d)]
  }

  lemma FieldsSpelled(text: Encoding, e: AccessEvent)
    ensures EventFields(text, e) == SpelledFields(text, e)
  {
  }

  method AccessEventPayload(text: Encoding, e: SignedAccessEvent) returns (out: Bytes)
    ensures out == Payload(AccessFields(text, e))
    ensures out == Payload(
      [AccessEventDomain(), text(e.eventId), text(e.workspaceId), U64(e.expectedRevision), text(e.actorDeviceId),
       U64(e.createdAt)] + SpelledFields(text, e.event))
  {
    var buffer := new PayloadBuffer();
    buffer.PushBytes(AccessEventDomain());
    buffer.PushText(text, e.eventId);
    buffer.PushText(text, e.workspaceId);
    buffer.PushU64(e.expectedRevision);
    buffer.PushText(text, e.actorDeviceId);
    buffer.PushU64(e.createdAt);
    buffer.PushAccessEvent(text, e.event);
    assert buffer.fields == AccessFields(text, e);
    FieldsSpelled(text, e.event);
    out := buffer.out;
  }

  method JoinRequestPayload(text: Encoding, r: JoinRequest) returns (out: Bytes)
    ensures
      var fields :=
        [JoinRequestDomain(), text(r.requestId), text(r.workspaceId), text(r.device.deviceId),
         text(r.device.deviceName), r.device.signingPublicKey, r.device.exchangePublicKey,
         text(r.device.fingerprint), StatusName(r.device.status), U64(r.createdAt)];
      fields == JoinFields(text, r) && out == Payload(fields)
  {
    var buffer := new PayloadBuffer();
    buffer.PushBytes(JoinRequestDomain());
    buffer.PushText(text, r.requestId);
    buffer.PushText(text, r.workspaceId);
    buffer.PushDeviceRecord(text, r.device, StatusName(r.device.status));
    buffer.PushU64(r.createdAt);
    assert buffer.fields == JoinFields(text, r);
    out := buffer.out;
  }

  method EnvelopePayload(text: Encoding, k: KeyEnvelope) returns (out: Bytes)
    ensures
      var fields :=
        [KeyEnvelopeDomain(), text(k.workspaceId), text(k.keyId), U64(k.keyGeneration), U64(k.accessRevision),
         text(k.senderDeviceId), text(k.recipientDeviceId), AlgorithmName(), U64(k.createdAt),
         k.senderEphemeralPublicKey, k.nonce, k.encryptedWorkspaceKey];
      fields == EnvelopeFields(text, k) && out == Payload(fields)
  {
    var buffer := new PayloadBuffer();
    buffer.PushContext(text, k);
    buffer.PushBytes(k.senderEphemeralPublicKey);
    buffer.PushBytes(k.nonce);
    buffer.PushBytes(k.encryptedWorkspaceKey);
    assert buffer.fields == EnvelopeFields(text, k);
    out := buffer.out;
  }

  // ---------------------------------------------------------------- unambiguity

  lemma DevicesDiffer(text: Encoding, a: DeviceRecord, b: DeviceRecord, s: Bytes, t: Bytes)
    requires Faithful(text) && DeviceFields(text, a, s) == DeviceFields(text, b, t)
    ensures a.(status := b.status) == b && s == t
  {
  }

  lemma NamesDiffer(s: DeviceStatus, t: DeviceStatus)
    requires StatusName(s) == StatusName(t)
    ensures s == t
  {
    assert Literal("pending")[0] == 112 && Literal("active")[0] == 97 && Literal("revoked")[0] == 114;
  }

  lemma EventFieldsAreInjective(text: Encoding, a: AccessEvent, b: AccessEvent)
    requires Faithful(text) && EventFields(text, a) == EventFields(text, b)
    requires a.RestrictedKeyGranted? || a.RestrictedKeyRevoked? ==> FitsU64(a.keyGeneration)
    requires b.RestrictedKeyGranted? || b.RestrictedKeyRevoked? ==> FitsU64(b.keyGeneration)
    ensures a == b
  {
    var f, g := EventFields(text, a), EventFields(text, b);
    assert f[0] == g[0] && f[1] == g[1];
    match a
    case WorkspaceCreated(owner) =>
      assert f[1..] == DeviceFields(text, owner, StatusTag(owner.status));
      assert g[1..] == DeviceFields(text, b.owner, StatusTag(b.owner.status));
      DevicesDiffer(text, owner, b.owner, StatusTag(owner.status), StatusTag(b.owner.status));
    case DeviceJoined(request, device, role) =>
      assert f[2..8] == DeviceFields(text, device, StatusTag(device.status));
      assert g[2..8] == DeviceFields(text, b.device, StatusTag(b.device.status));
      assert f[8] == g[8];
      DevicesDiffer(text, device, b.device, StatusTag(device.status), StatusTag(b.device.status));
    case DeviceRoleChanged(d, role) =>
      assert f[2] == g[2];
    case DeviceRemoved(d) =>
    case RestrictedKeyGranted(key, generation, d) =>
      assert f[2] == g[2] && f[3] == g[3];
      U64IsInjective(generation, b.keyGeneration);
    case RestrictedKeyRevoked(key, generation, d) =>
      assert f[2] == g[2] && f[3] == g[3];
      U64IsInjective(generation, b.keyGeneration);
  }

  /** Equal access-event payloads are payloads of the same event. */
  lemma AccessPayloadIsInjective(text: Encoding, a: SignedAccessEvent, b: SignedAccessEvent)
    requires Faithful(text) && EventFits(a) && EventFits(b)
    requires Sized(AccessFields(text, a)) && Sized(AccessFields(text, b))
    requires Payload(AccessFields(text, a)) == Payload(AccessFields(text, b))
    ensures a.(signature := b.signature) == b
  {
    var f, g := AccessFields(text, a), AccessFields(text, b);
    PayloadIsInjective(f, g);
    assert f[1] == g[1] && f[2] == g[2] && f[3] == g[3] && f[4] == g[4] && f[5] == g[5];
    assert f[6..] == EventFields(text, a.event) && g[6..] == EventFields(text, b.event);
    U64IsInjective(a.expectedRevision, b.expectedRevision);
    U64IsInjective(a.createdAt, b.createdAt);
    EventFieldsAreInjective(text, a.event, b.event);
  }

  lemma JoinPayloadIsInjective(text: Encoding, a: JoinRequest, b: JoinRequest)
    requires Faithful(text) && FitsU64(a.createdAt) && FitsU64(b.createdAt)
    requires Sized(JoinFields(text, a)) && Sized(JoinFields(text, b))
    requires Payload(JoinFields(text, a)) == Payload(JoinFields(text, b))
    ensures a.(signature := b.signature) == b
  {
    var f, g := JoinFields(text, a), JoinFields(text, b);
    PayloadIsInjective(f, g);
    assert f[1] == g[1] && f[2] == g[2] && f[9] == g[9];
    var s, t := StatusName(a.device.status), StatusName(b.device.status);
    assert f[3..9] == DeviceFields(text, a.device, s) && g[3..9] == DeviceFields(text, b.device, t);
    DevicesDiffer(text, a.device, b.device, s, t);
    NamesDiffer(a.device.status, b.device.status);
    U64IsInjective(a.createdAt, b.createdAt);
  }

  lemma EnvelopePayloadIsInjective(text: Encoding, a: KeyEnvelope, b: KeyEnvelope)
    requires Faithful(text) && EnvelopeFits(a) && EnvelopeFits(b)
    requires Sized(EnvelopeFields(text, a)) && Sized(EnvelopeFields(text, b))
    requires Payload(EnvelopeFields(text, a)) == Payload(EnvelopeFields(text, b))
    ensures a.(signature := b.signature) == b
  {
    var f, g := EnvelopeFields(text, a), EnvelopeFields(text, b);
    PayloadIsInjective(f, g);
    assert f[1] == g[1] && f[2] == g[2] && f[3] == g[3] && f[4] == g[4] && f[5] == g[5] && f[6] == g[6];
    assert f[8] == g[8] && f[9] == g[9] && f[10] == g[10] && f[11] == g[11];
    U64IsInjective(a.keyGeneration, b.keyGeneration);
    U64IsInjective(a.accessRevision, b.accessRevision);
    U64IsInjective(a.createdAt, b.createdAt);
  }

  /** The four kinds of field lists: what is signed, and the context of an envelope's encryption. */
  datatype Message =
    | EventMessage(event: SignedAccessEvent)
    | JoinMessage(request: JoinRequest)
    | EnvelopeMessage(envelope: KeyEnvelope)
    | ContextMessage(context: KeyEnvelope)
    | SignatureMessage(message: Bytes)

  function MessageFields(text: Encoding, m: Message): seq<Bytes> {
    match m
    case EventMessage(e) => AccessFields(text, e)
    case JoinMessage(r) => JoinFields(text, r)
    case EnvelopeMessage(k) => EnvelopeFields(text, k)
    case ContextMessage(k) => ContextFields(text, k)
    case SignatureMessage(bytes) => [DeviceSignatureDomain(), bytes]
  }

  function Kind(m: Message): nat {
    match m
    case EventMessage(_) => 0
    case JoinMessage(_) => 1
    case EnvelopeMessage(_) => 2
    case ContextMessage(_) => 3
    case SignatureMessage(_) => 4
  }

  lemma DomainsDiffer()
    ensures AccessEventDomain() != JoinRequestDomain() && AccessEventDomain() != KeyEnvelopeDomain()
    ensures JoinRequestDomain() != KeyEnvelopeDomain() && DeviceSignatureDomain() != AccessEventDomain()
    ensures DeviceSignatureDomain() != JoinRequestDomain() && DeviceSignatureDomain() != KeyEnvelopeDomain()
  {
    assert AccessEventDomain()[9] == 97 && KeyEnvelopeDomain()[9] == 107;
    assert |AccessEventDomain()| == 21 && |KeyEnvelopeDomain()| == 21;
    assert |JoinRequestDomain()| == 28 && |DeviceSignatureDomain()| == 25;
  }

  /** Payloads of different kinds never coincide. */
  lemma KindsNeverCoincide(text: Encoding, a: Message, b: Message)
    requires Sized(MessageFields(text, a)) && Sized(MessageFields(text, b))
    requires Payload(MessageFields(text, a)) == Payload(MessageFields(text, b))
    ensures Kind(a) == Kind(b)
  {
    var f, g := MessageFields(text, a), MessageFields(text, b);
    PayloadIsInjective(f, g);
    DomainsDiffer();
    assert f[0] == g[0] && |f| == |g|;
  }
}
