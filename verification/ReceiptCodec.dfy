/** The 182 durable bytes of an OTA receipt. */
module ReceiptCodec {
  import opened Common
  import opened Bytes
  import opened ConfigText
  import opened CommandGuard

  const RECEIPT_BYTES: nat := 182
  const PREPARED: byte := 1
  const FAILED: byte := 2
  const SUCCEEDED: byte := 3
  const OTA_0: byte := 0x10
  const OTA_1: byte := 0x11

  /** What the update library fixes: the slot size and the numbers of its
      boot-state-unknown result and of its last result. */
  datatype Library = Library(slotSize: nat, bootUnknown: byte, lastFailure: byte)

  datatype Record = Record(
    status: byte, source: byte, target: byte, failure: byte, size: u32,
    device: seq<byte>, operation: seq<byte>, digest: seq<byte>, sourceDigest: seq<byte>, inactiveDigest: seq<byte>)

  /** The sizes of the C arrays. */
  predicate Typed(r: Record) {
    && |r.device| == 36 && |r.operation| == 36
    && |r.digest| == 32 && |r.sourceDigest| == 32 && |r.inactiveDigest| == 32
  }

  function Text(b: seq<byte>): string {
    seq(|b|, i requires 0 <= i < |b| => b[i] as char)
  }

  predicate FailureOk(r: Record, lib: Library) {
    if r.status == FAILED then r.failure != 0 && r.failure != lib.bootUnknown && r.failure <= lib.lastFailure
    else r.failure == 0
  }

  predicate RecordOk(r: Record, lib: Library) {
    && (r.status == PREPARED || r.status == FAILED || r.status == SUCCEEDED)
    && ((r.source == OTA_0 && r.target == OTA_1) || (r.source == OTA_1 && r.target == OTA_0))
    && 0 < r.size <= lib.slotSize && FailureOk(r, lib)
    && Uuid(Text(r.device)) && Uuid(Text(r.operation))
    && !AllZero(r.digest) && !AllZero(r.sourceDigest)
    && (!AllZero(r.inactiveDigest) ==> r.inactiveDigest != r.sourceDigest)
  }

  function Head(r: Record): (h: seq<byte>)
    ensures |h| == 10
  {
    [69, 79, 84, 65, 4, r.status, r.source, r.target, r.failure, 0]
  }

  function Layout(r: Record): seq<byte> {
    Head(r) + Put32(r.size) + r.device + r.operation + r.digest + r.sourceDigest + r.inactiveDigest
  }

  /** encode(): the buffer is filled without judging the record. */
  method Encode(r: Record, out: array<byte>)
    requires Typed(r) && out.Length == RECEIPT_BYTES
    modifies out
    ensures out[..] == Layout(r)
  {
    var at := EncodeFront(r, out);
    at := Append(out, at, r.digest);
    at := Append(out, at, r.sourceDigest);
    at := Append(out, at, r.inactiveDigest);
    assert out[..] == out[..at];
  }

  method EncodeFront(r: Record, out: array<byte>) returns (at: nat)
    requires Typed(r) && out.Length == RECEIPT_BYTES
    modifies out
    ensures at == 86 && out[..at] == Head(r) + Put32(r.size) + r.device + r.operation
  {
    at := Append(out, 0, Head(r));
    at := Append(out, at, Put32(r.size));
    at := Append(out, at, r.device);
    at := Append(out, at, r.operation);
  }

  function Read(b: seq<byte>): (r: Record)
    requires |b| == RECEIPT_BYTES
    ensures Typed(r)
  {
    Record(b[5], b[6], b[7], b[8], Get32(b, 10), b[14..50], b[50..86], b[86..118], b[118..150], b[150..182])
  }

  /** decode(). */
  function Decode(b: seq<byte>, lib: Library): Option<Record>
    requires |b| == RECEIPT_BYTES
  {
    if b[..5] == [69, 79, 84, 65, 4] && b[9] == 0 && RecordOk(Read(b), lib) then Some(Read(b)) else None
  }

  lemma LayoutBytes(r: Record)
    requires Typed(r)
    ensures var b := Layout(r);
            && |b| == RECEIPT_BYTES && b[..10] == Head(r) && b[10..14] == Put32(r.size) && b[14..50] == r.device
            && b[50..86] == r.operation && b[86..118] == r.digest && b[118..150] == r.sourceDigest
            && b[150..182] == r.inactiveDigest
  {
  }

  lemma ReadLayout(r: Record)
    requires Typed(r)
    ensures |Layout(r)| == RECEIPT_BYTES && Read(Layout(r)) == r
  {
    LayoutBytes(r);
    var b := Layout(r);
    Digits32(r.size);
    assert b[10] == b[10..14][0] && b[11] == b[10..14][1] && b[12] == b[10..14][2] && b[13] == b[10..14][3];
    assert b[5] == b[..10][5] && b[6] == b[..10][6] && b[7] == b[..10][7] && b[8] == b[..10][8];
  }

  /** A stored record is read back exactly when it is valid, so the readback of
      store() accepts nothing else. */
  lemma DecodeEncode(r: Record, lib: Library)
    requires Typed(r)
    ensures |Layout(r)| == RECEIPT_BYTES
    ensures Decode(Layout(r), lib) == if RecordOk(r, lib) then Some(r) else None
  {
    LayoutBytes(r);
    ReadLayout(r);
    var b := Layout(r);
    assert b[..5] == b[..10][..5] && b[9] == b[..10][9];
  }

  /** Every accepted blob is the encoding of its record. */
  lemma EncodeDecode(b: seq<byte>, lib: Library)
    requires |b| == RECEIPT_BYTES && Decode(b, lib).Some?
    ensures Layout(Decode(b, lib).value) == b
  {
    var r := Read(b);
    Digits32Inverse(b[10] as int, b[11] as int, b[12] as int, b[13] as int);
    assert b[10..14] == Put32(r.size);
    assert b[..10] == Head(r) by {
      assert forall i :: 0 <= i < 5 ==> b[i] == b[..5][i];
    }
    assert b == b[..10] + b[10..14] + b[14..50] + b[50..86] + b[86..118] + b[118..150] + b[150..182];
  }
}
