/** The authenticated OTA frame as bytes, with the HMAC of RFC 2104 as an
    unknown function. */
module FrameFormat {
  import opened Common
  import opened OtaFrame
  import opened Sections
  import opened CommandGuard

  const TAG_BYTES: nat := 32
  const HEADER_BYTES: nat := 175
  /** "esp-base-ota-v1\n" */
  const DOMAIN: seq<byte> := [101, 115, 112, 45, 98, 97, 115, 101, 45, 111, 116, 97, 45, 118, 49, 10]

  /** The identities a frame is bound to. */
  datatype Ids = Ids(device: string, boot: string, operation: string)

  predicate IdsOk(ids: Ids) {
    Uuid(ids.device) && Uuid(ids.boot) && Uuid(ids.operation)
  }

  function Ascii(s: string): (b: seq<byte>)
    ensures |b| == |s|
  {
    seq(|s|, i requires 0 <= i < |s| => s[i] as int % 256)
  }

  // ----------------------------------------------------------------- big-endian

  function Pow256(n: nat): nat {
    if n == 0 then 1 else 256 * Pow256(n - 1)
  }

  function BigEndian(value: nat, n: nat): (b: seq<byte>)
    ensures |b| == n
  {
    if n == 0 then [] else BigEndian(value / 256, n - 1) + [value % 256]
  }

  function Number(b: seq<byte>): nat {
    if b == [] then 0 else Number(b[..|b| - 1]) * 256 + b[|b| - 1] as int
  }

  lemma {:induction false} NumberOfBigEndian(value: nat, n: nat)
    requires value < Pow256(n)
    ensures Number(BigEndian(value, n)) == value
    decreases n
  {
    if n > 0 {
      NumberOfBigEndian(value / 256, n - 1);
      var b := BigEndian(value, n);
      assert b[..n - 1] == BigEndian(value / 256, n - 1);
    }
  }

  lemma {:induction false} BigEndianOfNumber(b: seq<byte>)
    ensures BigEndian(Number(b), |b|) == b && Number(b) < Pow256(|b|)
    decreases |b|
  {
    if b != [] {
      BigEndianOfNumber(b[..|b| - 1]);
      assert b == b[..|b| - 1] + [b[|b| - 1]];
    }
  }

  lemma Powers()
    ensures Pow256(2) == 65536 && Pow256(4) == UINT32_MAX + 1 && Pow256(8) == UINT64_MAX + 1
  {
    assert Pow256(1) == 256;
    assert Pow256(2) == 65536;
    assert Pow256(3) == 16777216;
    assert Pow256(4) == 4294967296;
    assert Pow256(5) == 1099511627776;
    assert Pow256(6) == 281474976710656;
    assert Pow256(7) == 72057594037927936;
  }

  // --------------------------------------------------------------------- frames

  /** The ranges of the C fields. */
  predicate Typed(f: Frame) {
    f.ticket.offset <= UINT32_MAX && f.ticket.written <= UINT32_MAX && f.ticket.expires <= UINT64_MAX && Readable(f)
  }

  /** valid_frame(). */
  predicate ValidFrame(f: Frame) {
    && f.ticket.expires != 0 && f.ticket.written <= f.ticket.offset && f.length <= BLOCK_BYTES
    && if f.kind.Data? then f.data.Some? && f.length > 0 else f.length == 0
  }

  function KindByte(k: Kind): (b: byte)
    ensures KindOf(b) == Some(k)
  {
    match k case Request => 1 case Data => 2 case End => 3 case Cancel => 4
  }

  function KindOf(b: byte): (k: Option<Kind>)
    ensures k.Some? ==> 1 <= b <= 4
  {
    if b == 1 then Some(Kind.Request) else if b == 2 then Some(Data) else if b == 3 then Some(End)
    else if b == 4 then Some(Cancel) else None
  }

  function Block(f: Frame): seq<byte> {
    if f.length > 0 && f.data.Some? then f.data.value else []
  }

  /** What the tag covers, field by field. */
  function Fields(ids: Ids, f: Frame): (p: seq<seq<byte>>)
    ensures |p| == 10
  {
    [DOMAIN, [KindByte(f.kind)], Ascii(ids.device), Ascii(ids.boot), Ascii(ids.operation),
     BigEndian(f.ticket.offset, 4), BigEndian(f.ticket.written, 4), BigEndian(f.ticket.expires, 8),
     BigEndian(f.length, 2), Block(f)]
  }

  function FieldLengths(block: nat): seq<nat> {
    [16, 1, 36, 36, 36, 4, 4, 8, 2, block]
  }

  type Hmac = (seq<byte>, seq<byte>) -> seq<byte>

  ghost predicate Tags(hmac: Hmac) {
    forall k, m :: |hmac(k, m)| == TAG_BYTES
  }

  function Payload(hmac: Hmac, key: seq<byte>, ids: Ids, f: Frame): seq<byte> {
    var body := Join(Fields(ids, f));
    hmac(key, body) + body
  }

  /** The message around a payload. */
  datatype Envelope = Envelope(topic: string, qos: nat, retained: bool)

  function Topic(device: string, fromDevice: bool): string {
    "esp-base/" + device + "/ota/" + (if fromDevice then "request" else "data")
  }

  predicate EnvelopeOk(e: Envelope, ids: Ids, fromDevice: bool) {
    e.topic == Topic(ids.device, fromDevice) && e.qos == 1 && !e.retained
  }

  lemma LengthsSum(block: nat)
    ensures Sum(FieldLengths(block)) == HEADER_BYTES - TAG_BYTES + block
  {
    var l := FieldLengths(block);
    assert l[9..][1..] == [] && l[8..][1..] == l[9..] && l[7..][1..] == l[8..] && l[6..][1..] == l[7..];
    assert Sum(l[9..]) == block;
    assert Sum(l[8..]) == 2 + block;
    assert Sum(l[7..]) == 10 + block;
    assert Sum(l[6..]) == 14 + block;
    HeadSum(l, block);
  }

  lemma HeadSum(l: seq<nat>, block: nat)
    requires l == FieldLengths(block) && Sum(l[6..]) == 14 + block
    ensures Sum(l) == HEADER_BYTES - TAG_BYTES + block
  {
    assert l[5..][1..] == l[6..] && l[4..][1..] == l[5..] && l[3..][1..] == l[4..] && l[2..][1..] == l[3..];
    assert l[1..][1..] == l[2..];
    assert Sum(l[5..]) == 18 + block;
    assert Sum(l[4..]) == 54 + block;
    assert Sum(l[3..]) == 90 + block;
    assert Sum(l[2..]) == 126 + block;
    assert Sum(l[1..]) == 127 + block;
  }

  /** The fields of a payload. */
  function Cuts(payload: seq<byte>): (p: seq<seq<byte>>)
    requires HEADER_BYTES <= |payload|
    ensures |p| == 10
  {
    LengthsSum(|payload| - HEADER_BYTES);
    Cut(payload[TAG_BYTES..], FieldLengths(|payload| - HEADER_BYTES))
  }

  /** The frame whose fields these are. */
  function FrameOf(p: seq<seq<byte>>, kind: Kind, tag: seq<byte>): Frame
    requires |p| == 10
  {
    var length := Number(p[8]);
    Frame(kind, Ticket(Number(p[5]), Number(p[6]), Number(p[7])), length, if length > 0 then Some(p[9]) else None, tag)
  }

  /** ebase_mqtt_ota_decode(). */
  function Decode(hmac: Hmac, key: seq<byte>, ids: Ids, fromDevice: bool, e: Envelope, payload: seq<byte>): Option<Frame> {
    if !EnvelopeOk(e, ids, fromDevice) || !IdsOk(ids) || !(HEADER_BYTES <= |payload| <= HEADER_BYTES + BLOCK_BYTES) then None
    else if payload[..TAG_BYTES] != hmac(key, payload[TAG_BYTES..]) then None
    else DecodeFields(Cuts(payload), ids, fromDevice, |payload| - HEADER_BYTES, payload[..TAG_BYTES])
  }

  function DecodeFields(p: seq<seq<byte>>, ids: Ids, fromDevice: bool, block: nat, tag: seq<byte>): Option<Frame>
    requires |p| == 10
  {
    if !FrontOk(p, ids, fromDevice) then None
    else
      var f := FrameOf(p, KindOf(p[1][0]).value, tag);
      if f.length == block && ValidFrame(f) then Some(f) else None
  }

  /** Domain, direction and identities are the expected ones. */
  predicate FrontOk(p: seq<seq<byte>>, ids: Ids, fromDevice: bool)
    requires |p| == 10
  {
    && p[0] == DOMAIN && |p[1]| == 1 && KindOf(p[1][0]).Some? && KindOf(p[1][0]).value.Request? == fromDevice
    && p[2] == Ascii(ids.device) && p[3] == Ascii(ids.boot) && p[4] == Ascii(ids.operation)
  }

  // ------------------------------------------------------------------- theorems

  /** What survives transport: the computed tag, and no pointer to an empty block. */
  function Received(hmac: Hmac, key: seq<byte>, ids: Ids, f: Frame): Frame {
    f.(tag := hmac(key, Join(Fields(ids, f))), data := if f.length > 0 then f.data else None)
  }

  lemma FieldsAreSized(ids: Ids, f: Frame)
    requires IdsOk(ids) && ValidFrame(f) && Typed(f)
    ensures Lengths(Fields(ids, f)) == FieldLengths(f.length)
  {
  }

  lemma NumbersRead(ids: Ids, f: Frame, tag: seq<byte>)
    requires ValidFrame(f) && Typed(f)
    ensures FrameOf(Fields(ids, f), f.kind, tag) == f.(tag := tag, data := if f.length > 0 then f.data else None)
  {
    Powers();
    NumberOfBigEndian(f.ticket.offset, 4);
    NumberOfBigEndian(f.ticket.written, 4);
    NumberOfBigEndian(f.ticket.expires, 8);
    NumberOfBigEndian(f.length, 2);
  }

  /** Decoding inverts encoding for every valid frame sent in its direction. */
  lemma DecodeEncode(hmac: Hmac, key: seq<byte>, ids: Ids, f: Frame, e: Envelope)
    requires Tags(hmac) && IdsOk(ids) && ValidFrame(f) && Typed(f) && EnvelopeOk(e, ids, f.kind.Request?)
    ensures Decode(hmac, key, ids, f.kind.Request?, e, Payload(hmac, key, ids, f)) == Some(Received(hmac, key, ids, f))
  {
    var fields := Fields(ids, f);
    var body := Join(fields);
    var tag := hmac(key, body);
    var payload := Payload(hmac, key, ids, f);
    FieldsAreSized(ids, f);
    CutJoin(fields);
    LengthsSum(f.length);
    assert payload[..TAG_BYTES] == tag && payload[TAG_BYTES..] == body;
    assert Cuts(payload) == fields;
    NumbersRead(ids, f, tag);
  }

  lemma FieldsOfDecoded(p: seq<seq<byte>>, ids: Ids, fromDevice: bool, block: nat, tag: seq<byte>)
    requires |p| == 10 && Lengths(p) == FieldLengths(block)
    requires DecodeFields(p, ids, fromDevice, block, tag).Some?
    ensures Fields(ids, DecodeFields(p, ids, fromDevice, block, tag).value) == p
  {
    var f := DecodeFields(p, ids, fromDevice, block, tag).value;
    LengthsAt(p, block);
    BigEndianOfNumber(p[5]);
    BigEndianOfNumber(p[6]);
    BigEndianOfNumber(p[7]);
    BigEndianOfNumber(p[8]);
    assert [p[1][0]] == p[1];
    var q := Fields(ids, f);
    assert q[0] == p[0] && q[1] == p[1] && q[2] == p[2] && q[3] == p[3] && q[4] == p[4];
    assert q[5] == p[5] && q[6] == p[6] && q[7] == p[7] && q[8] == p[8] && q[9] == p[9];
  }

  lemma LengthsAt(p: seq<seq<byte>>, block: nat)
    requires |p| == 10 && Lengths(p) == FieldLengths(block)
    ensures |p[1]| == 1 && |p[5]| == 4 && |p[6]| == 4 && |p[7]| == 8 && |p[8]| == 2 && |p[9]| == block
  {
    var l := Lengths(p);
    assert |p[1]| == l[1] && |p[5]| == l[5] && |p[6]| == l[6] && |p[7]| == l[7] && |p[8]| == l[8] && |p[9]| == l[9];
  }

  /** Every accepted payload is exactly the encoding of the frame it decodes to. */
  lemma EncodeDecode(hmac: Hmac, key: seq<byte>, ids: Ids, fromDevice: bool, e: Envelope, payload: seq<byte>)
    requires Decode(hmac, key, ids, fromDevice, e, payload).Some?
    ensures var f := Decode(hmac, key, ids, fromDevice, e, payload).value;
            && ValidFrame(f) && Readable(f) && f.kind.Request? == fromDevice
            && payload == Payload(hmac, key, ids, f) && f.tag == payload[..TAG_BYTES]
  {
    var f := Decode(hmac, key, ids, fromDevice, e, payload).value;
    var block := |payload| - HEADER_BYTES;
    var p := Cuts(payload);
    LengthsSum(block);
    CutLengths(payload[TAG_BYTES..], FieldLengths(block));
    JoinCut(payload[TAG_BYTES..], FieldLengths(block));
    FieldsOfDecoded(p, ids, fromDevice, block, payload[..TAG_BYTES]);
    LengthsAt(p, block);
    assert payload == payload[..TAG_BYTES] + payload[TAG_BYTES..];
  }

  /** Distinct accepted payloads never decode to the same frame. */
  lemma DecodeInjective(hmac: Hmac, key: seq<byte>, ids: Ids, fromDevice: bool, e: Envelope, a: seq<byte>, b: seq<byte>)
    requires Decode(hmac, key, ids, fromDevice, e, a).Some?
    requires Decode(hmac, key, ids, fromDevice, e, a) == Decode(hmac, key, ids, fromDevice, e, b)
    ensures a == b
  {
    EncodeDecode(hmac, key, ids, fromDevice, e, a);
    EncodeDecode(hmac, key, ids, fromDevice, e, b);
  }
}
