/** mqtt_ota_stream.c: one fixed block, two cursors and machine-word counters. */
module MqttOtaStream {
  import opened Common
  import opened OtaFrame
  import StreamSpec

  const NO_TICKET := Ticket(0, 0, 0)
  const NO_ANSWER := StreamSpec.Answer(Request, NO_TICKET, 0, [])

  class Stream {
    const block: array<byte>
    var used: nat
    var length: nat
    var size: u32
    var readOffset: u32
    var writtenOffset: u32
    var lastNow: u64
    var totalDeadline: u64
    var idleDeadline: u64
    var idleTimeout: u32
    var request: Ticket
    var previous: StreamSpec.Answer
    var active: bool
    var requestValid: bool
    var previousValid: bool
    var ended: bool
    var selecting: bool
    var error: StreamSpec.Error

    ghost predicate Valid()
      reads this, block
    {
      && block.Length == BLOCK_BYTES
      && used <= length <= BLOCK_BYTES
      && readOffset + (length - used) <= size
      && writtenOffset <= readOffset
      && idleDeadline <= totalDeadline
    }

    /** The abstract channel this object represents. */
    ghost function State(): StreamSpec.Channel
      requires block.Length == BLOCK_BYTES && used <= length <= BLOCK_BYTES
      reads this, block
    {
      StreamSpec.Channel(active, size, block[used..length], readOffset, writtenOffset, lastNow,
        totalDeadline, idleDeadline, idleTimeout,
        if requestValid then Some(request) else None, if previousValid then Some(previous) else None,
        ended, selecting, error)
    }

    constructor ()
      ensures Valid() && State() == StreamSpec.CLOSED && fresh(block)
    {
      block := new byte[BLOCK_BYTES](_ => 0);
      used, length, size, readOffset, writtenOffset := 0, 0, 0, 0, 0;
      lastNow, totalDeadline, idleDeadline, idleTimeout := 0, 0, 0, 0;
      request, previous := NO_TICKET, NO_ANSWER;
      active, requestValid, previousValid, ended, selecting := false, false, false, false, false;
      error := StreamSpec.Ok;
    }

    /** Zeroes the structure; the block itself is wiped by Close. */
    method Reset()
      requires block.Length == BLOCK_BYTES
      modifies this
      ensures Valid() && State() == StreamSpec.CLOSED
    {
      ResetCounters();
      active, requestValid, previousValid, ended, selecting := false, false, false, false, false;
      error := StreamSpec.Ok;
      assert block[used..length] == [];
    }

    method ResetCounters()
      modifies this`used, this`length, this`size, this`readOffset, this`writtenOffset,
               this`idleTimeout, this`lastNow, this`totalDeadline, this`idleDeadline
      ensures used == length == size == readOffset == writtenOffset == idleTimeout == 0
      ensures lastNow == totalDeadline == idleDeadline == 0
    {
      used, length := 0, 0;
      size, readOffset, writtenOffset, idleTimeout := 0, 0, 0, 0;
      lastNow, totalDeadline, idleDeadline := 0, 0, 0;
    }

    method Live(now: u64) returns (live: bool)
      requires Valid()
      modifies this`error, this`lastNow
      ensures Valid()
      ensures State() == StreamSpec.Touch(old(State()), now)
      ensures live <==> StreamSpec.Open(State())
    {
      if !active || selecting || error != StreamSpec.Ok { return false; }
      if now < lastNow || now >= totalDeadline || now >= idleDeadline {
        error := StreamSpec.Timeout;
        return false;
      }
      lastNow := now;
      return true;
    }

    method Begin(imageSize: u32, now: u64, total: u32, idle: u32) returns (started: bool)
      requires Valid()
      modifies this
      ensures Valid()
      ensures (State(), started) == StreamSpec.Begin(old(State()), imageSize, now, total, idle)
    {
      if active || imageSize == 0 || total == 0 || idle == 0 || idle > total || now > UINT64_MAX - total {
        return false;
      }
      Reset();
      Arm(imageSize, now, total, idle);
      return true;
    }

    /** The fields of a new session. */
    method Arm(imageSize: u32, now: u64, total: u32, idle: u32)
      requires Valid() && idle <= total && now <= UINT64_MAX - total && readOffset + (length - used) <= imageSize
      modifies this`size, this`idleTimeout, this`lastNow, this`totalDeadline, this`idleDeadline, this`active
      ensures Valid()
      ensures State() == old(State()).(active := true, size := imageSize, idleTimeout := idle, lastNow := now,
                                       totalDeadline := now + total, idleDeadline := now + idle)
    {
      size, idleTimeout := imageSize, idle;
      lastNow, totalDeadline, idleDeadline := now, now + total, now + idle;
      active := true;
    }

    method RequestBlock(now: u64) returns (ready: bool, out: Ticket)
      requires Valid()
      modifies this`error, this`lastNow, this`request, this`requestValid
      ensures Valid()
      ensures (State(), if ready then Some(out) else None) == StreamSpec.RequestBlock(old(State()), now)
    {
      out := NO_TICKET;
      var live := Live(now);
      if !live || ended { return false, out; }
      if used != length || (readOffset < size && writtenOffset != readOffset) { return false, out; }
      if !requestValid {
        request := Ticket(readOffset, writtenOffset,
          if idleDeadline < totalDeadline then idleDeadline else totalDeadline);
        requestValid := true;
      }
      return true, request;
    }

    method Offer(now: u64, offered: Option<Frame>) returns (admitted: StreamSpec.Admission)
      requires Valid()
      requires offered.Some? ==> Readable(offered.value)
      modifies this, block
      ensures Valid()
      ensures (State(), admitted) == StreamSpec.Offer(old(State()), now, offered)
    {
      if selecting { return StreamSpec.Ignored; }
      var live := Live(now);
      if !live { return StreamSpec.Rejected; }
      if offered.None? || offered.value.kind == Request || offered.value.ticket.expires <= now {
        return StreamSpec.Ignored;
      }
      var known, decision := Recognise(offered.value);
      if known { return decision; }
      admitted := Admit(offered.value);
    }

    method Recognise(f: Frame) returns (known: bool, decision: StreamSpec.Admission)
      requires Valid()
      modifies this`error
      ensures Valid()
      ensures var r := StreamSpec.Recognise(old(State()), f);
              known == r.Some? && if known then r.value == (State(), decision) else State() == old(State())
    {
      if previousValid && f.kind == previous.kind && f.ticket == previous.ticket {
        if f.length == previous.length && f.tag == previous.tag { return true, StreamSpec.Duplicate; }
        error := StreamSpec.Conflict;
        return true, StreamSpec.Rejected;
      }
      if f.kind == Cancel && f.length == 0 &&
         ((requestValid && f.ticket == request) || (previousValid && f.ticket == previous.ticket)) {
        error := StreamSpec.Cancelled;
        return true, StreamSpec.Accepted;
      }
      return false, StreamSpec.Ignored;
    }

    method Admit(f: Frame) returns (admitted: StreamSpec.Admission)
      requires Valid() && Readable(f)
      modifies this, block
      ensures Valid()
      ensures (State(), admitted) == StreamSpec.Admit(old(State()), f)
    {
      if !requestValid || f.ticket != request { return StreamSpec.Ignored; }
      if ended || used != length { return StreamSpec.Ignored; }
      if f.kind == End {
        if readOffset != size || f.length != 0 { return StreamSpec.Ignored; }
        ended := true;
      } else if f.kind == Data {
        var stored := Store(f);
        if !stored { return StreamSpec.Ignored; }
      } else {
        return StreamSpec.Ignored;
      }
      previous := StreamSpec.Answer(f.kind, f.ticket, f.length, f.tag);
      previousValid := true;
      requestValid := false;
      return StreamSpec.Accepted;
    }

    /** The DATA branch of offer: exactly the expected block is copied in. */
    method Store(f: Frame) returns (stored: bool)
      requires Valid() && used == length && Readable(f)
      modifies this`used, this`length, block
      ensures Valid()
      ensures stored <==> StreamSpec.ExpectedBlock(old(State()), f)
      ensures State() == if stored then old(State()).(mailbox := f.data.value) else old(State())
    {
      var left := size - readOffset;
      var expected := if left < BLOCK_BYTES then left else BLOCK_BYTES;
      if expected == 0 || f.data == None || f.length != expected { return false; }
      var bytes := f.data.value;
      for i := 0 to f.length
        modifies block
        invariant block[..i] == bytes[..i]
      {
        block[i] := bytes[i];
      }
      length := f.length;
      used := 0;
      assert block[used..length] == bytes;
      return true;
    }

    /** Copies into `out` when it returns a positive count; -1 and -2 as in C. */
    method Read(now: u64, out: array?<byte>, capacity: nat) returns (count: int)
      requires Valid()
      requires out != null ==> out != block && capacity <= out.Length
      modifies this`error, this`lastNow, this`used, this`readOffset, out
      ensures Valid()
      ensures var (c, r) := StreamSpec.Read(old(State()), now, if out == null then 0 else capacity);
              && State() == c
              && count == (match r case Failure => -1 case Waiting => -2 case EndOfImage => 0 case Bytes(b) => |b|)
              && (r.Bytes? ==> out != null && count > 0 && out[..count] == r.bytes)
      ensures out != null ==> forall k :: Max(0, count) <= k < out.Length ==> out[k] == old(out[k])
    {
      if out == null || capacity == 0 { return -1; }
      var live := Live(now);
      if !live { return -1; }
      if used == length { return if ended && readOffset == size then 0 else -2; }
      count := Take(out, capacity);
    }

    /** Hand out the next buffered bytes. */
    method Take(out: array<byte>, capacity: nat) returns (count: int)
      requires Valid() && out != block && 0 < capacity <= out.Length && used < length
      modifies this`used, this`readOffset, out
      ensures Valid() && count == Min(old(length - used), capacity)
      ensures var c := old(State());
              State() == c.(mailbox := c.mailbox[count..], read := c.read + count) && out[..count] == c.mailbox[..count]
      ensures forall k :: count <= k < out.Length ==> out[k] == old(out[k])
    {
      count := length - used;
      if count > capacity { count := capacity; }
      if count > 0x7fff_ffff { count := 0x7fff_ffff; }
      CopyOut(out, count);
      ghost var unread := block[used..length];
      assert block[used..used + count] == unread[..count];
      assert block[used + count..length] == unread[count..];
      used := used + count;
      readOffset := readOffset + count;
    }

    method CopyOut(out: array<byte>, count: nat)
      requires Valid() && out != block && count <= out.Length && used + count <= length
      modifies out
      ensures out[..count] == block[used..used + count]
      ensures forall k :: count <= k < out.Length ==> out[k] == old(out[k])
    {
      for i := 0 to count
        invariant out[..i] == block[used..used + i]
        invariant forall k :: i <= k < out.Length ==> out[k] == old(out[k])
      {
        out[i] := block[used + i];
      }
    }

    method Written(now: u64, offset: u32) returns (acknowledged: bool)
      requires Valid()
      modifies this`error, this`lastNow, this`writtenOffset, this`idleDeadline
      ensures Valid()
      ensures (State(), acknowledged) == StreamSpec.Written(old(State()), now, offset)
    {
      var live := Live(now);
      if !live { return false; }
      if offset < writtenOffset || offset > readOffset {
        error := StreamSpec.BadWrite;
        return false;
      }
      if offset > writtenOffset {
        writtenOffset := offset;
        var left := totalDeadline - now;
        idleDeadline := now + (if left < idleTimeout then left else idleTimeout);
      }
      return true;
    }

    method Select(now: u64) returns (selected: bool)
      requires Valid()
      modifies this`error, this`lastNow, this`selecting
      ensures Valid()
      ensures (State(), selected) == StreamSpec.Select(old(State()), now)
    {
      var live := Live(now);
      if !live || !ended || readOffset != size || writtenOffset != size || used != length { return false; }
      selecting := true;
      return true;
    }

    method Close()
      requires Valid()
      modifies this, block
      ensures Valid() && State() == StreamSpec.CLOSED
    {
      Reset();
      for i := 0 to block.Length
        modifies block
      {
        block[i] := 0;
      }
    }
  }
}
