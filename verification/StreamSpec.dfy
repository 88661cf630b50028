/** The block stream between the network and the update worker, as an abstract
    channel: an unread mailbox, offsets, deadlines and the request/answer pair.
    `MqttOtaStream` refines it with a fixed buffer and cursors. */
module StreamSpec {
  import opened Common
  import opened OtaFrame

  datatype Error = Ok | Timeout | Cancelled | Conflict | BadWrite

  datatype Admission = Ignored | Accepted | Duplicate | Rejected

  /** What is remembered of an accepted answer; its bytes never are. */
  datatype Answer = Answer(kind: Kind, ticket: Ticket, length: nat, tag: seq<byte>)

  datatype Channel = Channel(
    active: bool,
    size: nat,
    mailbox: seq<byte>,
    read: nat,
    written: nat,
    lastNow: nat,
    totalDeadline: nat,
    idleDeadline: nat,
    idleTimeout: nat,
    request: Option<Ticket>,
    previous: Option<Answer>,
    ended: bool,
    selecting: bool,
    error: Error)

  const CLOSED := Channel(false, 0, [], 0, 0, 0, 0, 0, 0, None, None, false, false, Ok)

  predicate Open(c: Channel) {
    c.active && !c.selecting && c.error.Ok?
  }

  /** live(): an open channel records the time or latches a timeout. */
  function Touch(c: Channel, now: nat): Channel {
    if !Open(c) then c
    else if now < c.lastNow || now >= c.totalDeadline || now >= c.idleDeadline then c.(error := Timeout)
    else c.(lastNow := now)
  }

  function Begin(c: Channel, size: nat, now: nat, total: nat, idle: nat): (Channel, bool) {
    if c.active || size == 0 || total == 0 || idle == 0 || idle > total || now > UINT64_MAX - total then (c, false)
    else (CLOSED.(active := true, size := size, lastNow := now, totalDeadline := now + total,
                  idleDeadline := now + idle, idleTimeout := idle), true)
  }

  function RequestBlock(c0: Channel, now: nat): (r: (Channel, Option<Ticket>))
  {
    var c := Touch(c0, now);
    if !Open(c) || c.ended || c.mailbox != [] || (c.read < c.size && c.written != c.read) then (c, None)
    else
      var ticket := if c.request.Some? then c.request.value
                    else Ticket(c.read, c.written, Min(c.idleDeadline, c.totalDeadline));
      (c.(request := Some(ticket)), Some(ticket))
  }

  function Remember(f: Frame): Answer {
    Answer(f.kind, f.ticket, f.length, f.tag)
  }

  function Offer(c0: Channel, now: nat, offered: Option<Frame>): (Channel, Admission)
  {
    var c := Touch(c0, now);
    if c0.selecting then (c0, Ignored)
    else if !Open(c) then (c, Rejected)
    else if offered.None? || offered.value.kind.Request? || offered.value.ticket.expires <= now then (c, Ignored)
    else
      var known := Recognise(c, offered.value);
      if known.Some? then known.value else Admit(c, offered.value)
  }

  /** A repeat of the last answer, a contradiction of it, or a cancellation. */
  function Recognise(c: Channel, f: Frame): Option<(Channel, Admission)> {
    if c.previous.Some? && f.kind == c.previous.value.kind && f.ticket == c.previous.value.ticket then
      if f.length == c.previous.value.length && f.tag == c.previous.value.tag then Some((c, Duplicate))
      else Some((c.(error := Conflict), Rejected))
    else if f.kind.Cancel? && f.length == 0
            && (c.request == Some(f.ticket) || (c.previous.Some? && c.previous.value.ticket == f.ticket)) then
      Some((c.(error := Cancelled), Accepted))
    else None
  }

  predicate ExpectedBlock(c: Channel, f: Frame) {
    c.read < c.size && f.data.Some? && f.length == Min(c.size - c.read, BLOCK_BYTES)
  }

  /** An answer to the pending request. */
  function Admit(c: Channel, f: Frame): (Channel, Admission) {
    if c.request != Some(f.ticket) || c.ended || c.mailbox != [] then (c, Ignored)
    else if f.kind.End? && c.read == c.size && f.length == 0 then
      (c.(ended := true, previous := Some(Remember(f)), request := None), Accepted)
    else if f.kind.Data? && ExpectedBlock(c, f) then
      (c.(mailbox := f.data.value, previous := Some(Remember(f)), request := None), Accepted)
    else (c, Ignored)
  }

  datatype ReadResult = Failure | Waiting | EndOfImage | Bytes(bytes: seq<byte>)

  /** `capacity` is 0 when the caller passes no buffer. */
  function Read(c0: Channel, now: nat, capacity: nat): (Channel, ReadResult) {
    if capacity == 0 then (c0, Failure)
    else
      var c := Touch(c0, now);
      if !Open(c) then (c, Failure)
      else if c.mailbox == [] then (c, if c.ended && c.read == c.size then EndOfImage else Waiting)
      else
        var n := Min(|c.mailbox|, capacity);
        (c.(mailbox := c.mailbox[n..], read := c.read + n), Bytes(c.mailbox[..n]))
  }

  function Written(c0: Channel, now: nat, offset: nat): (Channel, bool) {
    var c := Touch(c0, now);
    if !Open(c) then (c, false)
    else if offset < c.written || offset > c.read then (c.(error := BadWrite), false)
    else if offset == c.written then (c, true)
    else (c.(written := offset, idleDeadline := now + Min(c.totalDeadline - now, c.idleTimeout)), true)
  }

  function Select(c0: Channel, now: nat): (Channel, bool) {
    var c := Touch(c0, now);
    if Open(c) && c.ended && c.read == c.size && c.written == c.size && c.mailbox == []
    then (c.(selecting := true), true)
    else (c, false)
  }
}
