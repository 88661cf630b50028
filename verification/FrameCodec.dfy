/** mqtt_ota.c: the cursor-driven encoder and decoder. */
module FrameCodec {
  import opened Common
  import opened Bytes
  import opened OtaFrame
  import opened Sections
  import opened FrameFormat

  lemma {:induction false} DigitAt(value: nat, n: nat, i: nat)
    requires i < n
    ensures Pow256(n - 1 - i) > 0
    ensures BigEndian(value, n)[i] == value / Pow256(n - 1 - i) % 256
    decreases n
  {
    if i < n - 1 {
      DigitAt(value / 256, n - 1, i);
      DivideTwice(value, Pow256(n - 2 - i));
    }
  }

  lemma DivideTwice(v: nat, p: nat)
    requires p > 0
    ensures v / 256 / p == v / (256 * p)
  {
    var q := v / (256 * p);
    var r := v % (256 * p);
    assert v == (256 * p) * q + r;
    assert v / 256 == p * q + r / 256;
    assert r / 256 < p;
    DivideUnique(v / 256, p, q, r / 256);
  }

  lemma DivideUnique(v: nat, p: nat, q: nat, r: nat)
    requires r < p && v == p * q + r
    ensures v / p == q
  {
    var d := v / p - q;
    assert p * d == r - v % p;
    assert d >= 1 ==> p * d >= p;
    assert d <= -1 ==> p * d + p <= 0;
  }

  lemma {:induction false} PowPositive(n: nat)
    ensures Pow256(n) > 0
  {
    if n > 0 { PowPositive(n - 1); }
  }

  /** put_be(): a right shift by 8 * k divides by 256 to the k. */
  method PutBe(out: array<byte>, at: nat, value: nat, length: nat)
    requires at + length <= out.Length
    modifies out
    ensures out[..at + length] == old(out[..at]) + BigEndian(value, length)
  {
    for i := 0 to length
      invariant out[..at + i] == old(out[..at]) + BigEndian(value, length)[..i]
    {
      PowPositive(length - i - 1);
      DigitAt(value, length, i);
      out[at + i] := value / Pow256(length - i - 1) % 256;
    }
  }

  /** get_be(): at most eight bytes never leave 64 bits. */
  method GetBe(bytes: seq<byte>) returns (value: u64)
    requires |bytes| <= 8
    ensures value == Number(bytes)
  {
    value := 0;
    for i := 0 to |bytes|
      invariant value == Number(bytes[..i])
    {
      BigEndianOfNumber(bytes[..i + 1]);
      PowGrows(i + 1, 8);
      Powers();
      assert bytes[..i + 1][..i] == bytes[..i];
      value := value * 256 + bytes[i];
    }
    assert bytes[..|bytes|] == bytes;
  }

  lemma {:induction false} PowGrows(a: nat, b: nat)
    requires a <= b
    ensures Pow256(a) <= Pow256(b)
    decreases b - a
  {
    if a < b { PowGrows(a, b - 1); }
  }

  /** ebase_mqtt_ota_encode(). `signs` is whether the MAC computation works. */
  method Encode(hmac: Hmac, key: seq<byte>, ids: Ids, f: Frame, out: array<byte>, signs: bool)
    returns (ok: bool, length: nat)
    requires Tags(hmac) && Typed(f)
    modifies out
    ensures ok <==> IdsOk(ids) && ValidFrame(f) && out.Length >= HEADER_BYTES + f.length && signs
    ensures ok ==> length == HEADER_BYTES + f.length && out[..length] == Payload(hmac, key, ids, f)
    ensures !ok ==> length == 0
  {
    if !IdsOk(ids) || !ValidFrame(f) || out.Length < HEADER_BYTES + f.length { return false, 0; }
    FieldsAreSized(ids, f);
    LengthsSum(f.length);
    CutJoin(Fields(ids, f));
    var end := WriteFields(ids, f, out);
    ghost var body := Join(Fields(ids, f));
    assert out[TAG_BYTES..end] == body;
    if !signs { return false, 0; }
    var tag := hmac(key, out[TAG_BYTES..end]);
    for i := 0 to TAG_BYTES
      invariant out[..i] == tag[..i] && out[TAG_BYTES..end] == body
    {
      out[i] := tag[i];
    }
    assert out[..end] == out[..TAG_BYTES] + out[TAG_BYTES..end];
    assert tag[..TAG_BYTES] == tag;
    return true, end;
  }

  /** Everything after the tag, with one moving cursor. */
  method WriteFields(ids: Ids, f: Frame, out: array<byte>) returns (end: nat)
    requires IdsOk(ids) && ValidFrame(f) && Typed(f) && out.Length >= HEADER_BYTES + f.length
    modifies out
    ensures end == HEADER_BYTES + f.length && out[TAG_BYTES..end] == Join(Fields(ids, f))
  {
    ghost var tag := out[..TAG_BYTES];
    var cursor := WriteFront(ids, f.kind, out);
    end := WriteNumbers(f, out, cursor);
    assert out[TAG_BYTES..end] == Front(ids, f.kind) + Numbers(f);
    JoinFields(ids, f);
  }

  function Front(ids: Ids, kind: Kind): seq<byte> {
    DOMAIN + [KindByte(kind)] + Ascii(ids.device) + Ascii(ids.boot) + Ascii(ids.operation)
  }

  method WriteFront(ids: Ids, kind: Kind, out: array<byte>) returns (cursor: nat)
    requires IdsOk(ids) && out.Length >= HEADER_BYTES
    modifies out
    ensures cursor == 157 && out[..cursor] == old(out[..TAG_BYTES]) + Front(ids, kind)
  {
    cursor := Append(out, TAG_BYTES, DOMAIN);
    cursor := Append(out, cursor, [KindByte(kind)]);
    ghost var head := out[..cursor];
    cursor := Append(out, cursor, Ascii(ids.device));
    cursor := Append(out, cursor, Ascii(ids.boot));
    cursor := Append(out, cursor, Ascii(ids.operation));
    assert out[..cursor] == head + Ascii(ids.device) + Ascii(ids.boot) + Ascii(ids.operation);
  }

  function Numbers(f: Frame): seq<byte> {
    TicketBytes(f.ticket) + BigEndian(f.length, 2) + Block(f)
  }

  method WriteNumbers(f: Frame, out: array<byte>, at: nat) returns (end: nat)
    requires ValidFrame(f) && Typed(f) && at + 18 + f.length <= out.Length
    modifies out
    ensures end == at + 18 + f.length && out[..end] == old(out[..at]) + Numbers(f)
  {
    ghost var before := out[..at];
    WriteTicket(f.ticket, out, at);
    PutBe(out, at + 16, f.length, 2);
    end := at + 18;
    assert out[..end] == before + (TicketBytes(f.ticket) + BigEndian(f.length, 2));
    if f.length > 0 { end := Append(out, end, f.data.value); }
  }

  function TicketBytes(t: Ticket): (b: seq<byte>)
    ensures |b| == 16
  {
    BigEndian(t.offset, 4) + BigEndian(t.written, 4) + BigEndian(t.expires, 8)
  }

  method WriteTicket(t: Ticket, out: array<byte>, at: nat)
    requires at + 16 <= out.Length
    modifies out
    ensures out[..at + 16] == old(out[..at]) + TicketBytes(t)
  {
    PutBe(out, at, t.offset, 4);
    PutBe(out, at + 4, t.written, 4);
    PutBe(out, at + 8, t.expires, 8);
  }

  lemma JoinFields(ids: Ids, f: Frame)
    ensures Join(Fields(ids, f)) == Front(ids, f.kind) + Numbers(f)
  {
    var p := Fields(ids, f);
    JoinFive(p[5..]);
    assert Join(p[5..]) == Numbers(f);
    assert p == p[..5] + p[5..];
    JoinAppend(p[..5], p[5..]);
    JoinFive(p[..5]);
  }

  lemma JoinFive(p: seq<seq<byte>>)
    requires |p| == 5
    ensures Join(p) == p[0] + p[1] + p[2] + p[3] + p[4]
  {
    assert p[4..][1..] == [] && p[3..][1..] == p[4..] && p[2..][1..] == p[3..] && p[1..][1..] == p[2..];
    assert Join(p[4..]) == p[4];
    assert Join(p[3..]) == p[3] + p[4];
    assert Join(p[2..]) == p[2] + (p[3] + p[4]);
    assert Join(p[1..]) == p[1] + (p[2] + (p[3] + p[4]));
  }

  /** ebase_mqtt_ota_decode(). None is the cleared output structure. */
  method Decode(hmac: Hmac, key: seq<byte>, ids: Ids, fromDevice: bool, e: Envelope, payload: seq<byte>)
    returns (frame: Option<Frame>)
    requires Tags(hmac)
    ensures frame == FrameFormat.Decode(hmac, key, ids, fromDevice, e, payload)
  {
    if e.qos != 1 || e.retained || !IdsOk(ids)
       || |payload| < HEADER_BYTES || |payload| > HEADER_BYTES + BLOCK_BYTES { return None; }
    if e.topic != Topic(ids.device, fromDevice) { return None; }
    if payload[..TAG_BYTES] != hmac(key, payload[TAG_BYTES..]) { return None; }
    var kind := ReadFront(payload, ids, fromDevice);
    if kind.None? { return None; }
    frame := ReadNumbers(payload, 157, kind.value);
  }

  /** Domain, kind and identities, from the start of the authenticated bytes. */
  method ReadFront(payload: seq<byte>, ids: Ids, fromDevice: bool) returns (kind: Option<Kind>)
    requires HEADER_BYTES <= |payload| && IdsOk(ids)
    ensures kind.Some? <==> FrontOk(Cuts(payload), ids, fromDevice)
    ensures kind.Some? ==> KindOf(Cuts(payload)[1][0]) == kind
  {
    CutsAre(payload);
    var cursor := TAG_BYTES;
    if payload[cursor..cursor + 16] != DOMAIN { return None; }
    cursor := cursor + 16;
    kind := KindOf(payload[cursor]);
    cursor := cursor + 1;
    if kind.None? { return None; }
    if (kind.value == Kind.Request) != fromDevice || payload[cursor..cursor + 36] != Ascii(ids.device)
       || payload[cursor + 36..cursor + 72] != Ascii(ids.boot)
       || payload[cursor + 72..cursor + 108] != Ascii(ids.operation) { return None; }
  }

  method ReadNumbers(payload: seq<byte>, at: nat, kind: Kind) returns (frame: Option<Frame>)
    requires at == 157 && HEADER_BYTES <= |payload|
    ensures var f := FrameOf(Cuts(payload), kind, payload[..TAG_BYTES]);
            frame == if f.length == |payload| - HEADER_BYTES && ValidFrame(f) then Some(f) else None
  {
    CutsAre(payload);
    var offset := GetBe(payload[at..at + 4]);
    var written := GetBe(payload[at + 4..at + 8]);
    var expires := GetBe(payload[at + 8..at + 16]);
    var length := GetBe(payload[at + 16..at + 18]);
    var f := Frame(kind, Ticket(offset, written, expires), length,
                   if length > 0 then Some(payload[at + 18..]) else None, payload[..TAG_BYTES]);
    if length != |payload| - HEADER_BYTES || !ValidFrame(f) { return None; }
    return Some(f);
  }

  /** The fields by position. */
  lemma CutsAre(payload: seq<byte>)
    requires HEADER_BYTES <= |payload|
    ensures Cuts(payload) ==
            [payload[32..48], [payload[48]], payload[49..85], payload[85..121], payload[121..157],
             payload[157..161], payload[161..165], payload[165..173], payload[173..175], payload[175..]]
  {
    var p := [payload[32..48], [payload[48]], payload[49..85], payload[85..121], payload[121..157],
              payload[157..161], payload[161..165], payload[165..173], payload[173..175], payload[175..]];
    JoinFive(p[..5]);
    JoinFive(p[5..]);
    JoinAppend(p[..5], p[5..]);
    assert p == p[..5] + p[5..];
    assert Join(p[..5]) == payload[32..157];
    assert Join(p[5..]) == payload[157..];
    assert Join(p) == payload[TAG_BYTES..];
    CutJoin(p);
    LengthsSum(|payload| - HEADER_BYTES);
    assert Lengths(p) == FieldLengths(|payload| - HEADER_BYTES);
  }
}
