/** The growing-buffer reader of command_decoder.c and the lazily allocated
    serial input of esp_base_protocol.c, against the split-at-LF specification. */
module LineReader {
  import opened Common
  import opened LineSpec

  /** ebase_line_reader_t. The capacity is the length of the buffer. */
  class Reader {
    var data: array?<byte>
    var length: nat
    var discard: bool

    constructor ()
      ensures data == null && length == 0 && !discard
    {
      data, length, discard := null, 0, false;
    }

    ghost predicate Valid()
      reads this, data
    {
      && (discard ==> data == null && length == 0)
      && Capacity() == Room(length) && length <= LINE_LIMIT && (length > 0 ==> length < Capacity())
    }

    function Capacity(): nat
      reads this, data
    {
      if data == null then 0 else data.Length
    }

    ghost function Value(): Partial
      requires Valid()
      reads this, data
    {
      if discard then Refused else if data == null then Collected([]) else Collected(data[..length])
    }

    /** ebase_line_release(). */
    method Release()
      modifies this
      ensures Valid() && Value() == Collected([]) && !discard && length == 0 && data == null
    {
      data, length, discard := null, 0, false;
    }

    /** One iteration of ebase_line_feed(); `noBuffer` is a failing malloc. */
    method FeedByte(c: byte, noBuffer: bool) returns (out: seq<Delivery>)
      requires Valid()
      modifies this, data
      ensures Valid()
      ensures Value() == StepPartial(old(Value()), c, noBuffer, false)
      ensures out == StepDeliveries(old(Value()), c)
      ensures data == old(data) || data == null || fresh(data)
    {
      out := [];
      if c == LF {
        if discard {
          out := [Bad];
        } else if length > 0 {
          data[length] := 0;
          out := [Line(data[..length])];
        }
        Release();
      } else if !discard {
        if c == 0 || length == LINE_LIMIT {
          Release();
          discard := true;
          return;
        }
        RoomStep(length);
        if length + 1 >= Capacity() {
          if noBuffer {
            Release();
            discard := true;
            return;
          }
          Grow();
        }
        data[length] := c;
        length := length + 1;
        assert data[..length] == data[..length - 1] + [c];
      }
    }

    /** Move the line into a buffer of twice the capacity. */
    method Grow()
      requires Valid() && !discard && length < LINE_LIMIT && Grows(length)
      modifies this
      ensures !discard && length == old(length) && data != null && fresh(data)
      ensures data.Length == Room(length + 1) && length + 1 < data.Length
      ensures Collected(data[..length]) == old(Value())
    {
      RoomStep(length);
      FitStep(64, length);
      var capacity := if Capacity() > 0 then Capacity() * 2 else 64;
      if capacity > LINE_LIMIT + 1 { capacity := LINE_LIMIT + 1; }
      var bigger := new byte[capacity](_ => 0);
      if length > 0 {
        for i := 0 to length
          invariant bigger[..i] == data[..i]
          modifies bigger
        {
          bigger[i] := data[i];
        }
      }
      data := bigger;
    }

    /** ebase_line_feed(): any chunk of any stream, from stream position p. */
    method Feed(chunk: seq<byte>, p: nat, f: Failures) returns (out: seq<Delivery>)
      requires Valid() && forall i :: !f.reader(i)
      modifies this, data
      ensures Valid() && Value() == FeedPartial(old(Value()), chunk, |chunk|, p, f)
      ensures out == FeedDeliveries(old(Value()), chunk, |chunk|, p, f)
      ensures data == old(data) || data == null || fresh(data)
    {
      out := [];
      ghost var l := Value();
      for i := 0 to |chunk|
        invariant Valid() && Value() == FeedPartial(l, chunk, i, p, f)
        invariant out == FeedDeliveries(l, chunk, i, p, f)
        invariant data == old(data) || data == null || fresh(data)
      {
        var d := FeedByte(chunk[i], f.buffer(p + i));
        out := out + d;
      }
    }
  }

  /** feed_serial(): a reader exists only while a line is arriving. */
  class SerialInput {
    var reader: Reader?
    var discard: bool

    constructor ()
      ensures reader == null && !discard
    {
      reader, discard := null, false;
    }

    ghost predicate Valid()
      reads this, reader, if reader != null then {reader.data} else {}
    {
      reader != null ==> reader.Valid() && !discard && !reader.discard && reader.length > 0
    }

    ghost function Value(): Partial
      requires Valid()
      reads this, reader, if reader != null then {reader.data} else {}
    {
      if discard then Refused else if reader == null then Collected([]) else reader.Value()
    }

    ghost function Repr(): set<object>
      reads this, reader
    {
      {this} + (if reader == null then {} else {reader} + if reader.data == null then {} else {reader.data})
    }

    method FeedByte(c: byte, noBuffer: bool, noReader: bool) returns (out: seq<Delivery>)
      requires Valid()
      modifies Repr()
      ensures Valid() && fresh(Repr() - old(Repr()))
      ensures Value() == StepPartial(old(Value()), c, noBuffer, noReader)
      ensures out == StepDeliveries(old(Value()), c)
    {
      out := [];
      if discard {
        if c == LF {
          discard := false;
          out := [Bad];
        }
        return;
      }
      if reader == null {
        if c == LF { return; }
        if noReader {
          discard := true;
          return;
        }
        reader := new Reader();
      }
      out := reader.FeedByte(c, noBuffer);
      if c == LF || reader.discard {
        var refused := reader.discard;
        reader.Release();
        reader := null;
        if refused { discard := true; }
      }
    }

    /** Any chunk of serial bytes, for every pattern of failing allocations. */
    method Feed(chunk: seq<byte>, p: nat, f: Failures) returns (out: seq<Delivery>)
      requires Valid()
      modifies Repr()
      ensures Valid() && fresh(Repr() - old(Repr()))
      ensures Value() == FeedPartial(old(Value()), chunk, |chunk|, p, f)
      ensures out == FeedDeliveries(old(Value()), chunk, |chunk|, p, f)
    {
      out := [];
      ghost var l := Value();
      for i := 0 to |chunk|
        invariant Valid() && fresh(Repr() - old(Repr()))
        invariant Value() == FeedPartial(l, chunk, i, p, f)
        invariant out == FeedDeliveries(l, chunk, i, p, f)
      {
        var d := FeedByte(chunk[i], f.buffer(p + i), f.reader(p + i));
        out := out + d;
      }
    }
  }

  /** However the stream is cut into chunks, the lazily allocated input delivers
      exactly the judged lines, for every pattern of failing allocations. */
  method ReadSerial(chunks: seq<seq<byte>>, f: Failures) returns (out: seq<Delivery>)
    ensures out == Deliveries(Flat(chunks), |Flat(chunks)|, f)
  {
    out := [];
    var serial := new SerialInput();
    var p := 0;
    for i := 0 to |chunks|
      invariant serial.Valid() && fresh(serial.Repr())
      invariant p == |Flat(chunks[..i])|
      invariant serial.Value() == FeedPartial(Collected([]), Flat(chunks[..i]), p, 0, f)
      invariant out == FeedDeliveries(Collected([]), Flat(chunks[..i]), p, 0, f)
    {
      assert chunks[..i + 1][..i] == chunks[..i];
      NextChunk(Flat(chunks[..i]), chunks[i], f);
      var d := serial.Feed(chunks[i], p, f);
      out, p := out + d, p + |chunks[i]|;
    }
    assert chunks[..|chunks|] == chunks;
    FeedIsSplit(Flat(chunks), p, f);
  }

  /** The same for one persistent reader. */
  method ReadPersistent(chunks: seq<seq<byte>>, f: Failures) returns (out: seq<Delivery>)
    requires forall i :: !f.reader(i)
    ensures out == Deliveries(Flat(chunks), |Flat(chunks)|, f)
  {
    out := [];
    var reader := new Reader();
    var p := 0;
    for i := 0 to |chunks|
      invariant reader.Valid() && (reader.data == null || fresh(reader.data))
      invariant p == |Flat(chunks[..i])|
      invariant reader.Value() == FeedPartial(Collected([]), Flat(chunks[..i]), p, 0, f)
      invariant out == FeedDeliveries(Collected([]), Flat(chunks[..i]), p, 0, f)
    {
      assert chunks[..i + 1][..i] == chunks[..i];
      NextChunk(Flat(chunks[..i]), chunks[i], f);
      var d := reader.Feed(chunks[i], p, f);
      out, p := out + d, p + |chunks[i]|;
    }
    assert chunks[..|chunks|] == chunks;
    FeedIsSplit(Flat(chunks), p, f);
  }

  /** One stream, cut differently for the two: where a reader can always be
      allocated they deliver the same lines, all of them fit to be parsed. */
  method ReadBoth(lazy: seq<seq<byte>>, persistent: seq<seq<byte>>, f: Failures)
    returns (a: seq<Delivery>, b: seq<Delivery>)
    requires Flat(lazy) == Flat(persistent) && forall i :: !f.reader(i)
    ensures a == b && forall k :: 0 <= k < |a| && a[k].Line? ==> Sane(a[k].bytes)
  {
    a := ReadSerial(lazy, f);
    b := ReadPersistent(persistent, f);
    DeliveredLinesAreSane(Flat(lazy), |Flat(lazy)|, f);
  }
}
