/** Authenticated MQTT OTA frames as the codec and the stream exchange them. */
module OtaFrame {
  import opened Common

  const BLOCK_BYTES: nat := 1024

  datatype Kind = Request | Data | End | Cancel

  /** The identity of a block request that its answer must echo exactly. */
  datatype Ticket = Ticket(offset: nat, written: nat, expires: nat)

  /** `data` is the borrowed pointer (None is NULL) seen through `length`. */
  datatype Frame = Frame(kind: Kind, ticket: Ticket, length: nat, data: Option<seq<byte>>, tag: seq<byte>)

  /** A non-null pointer covers `length` bytes: the C caller's obligation. */
  predicate Readable(f: Frame) {
    f.data.Some? ==> |f.data.value| == f.length
  }
}
