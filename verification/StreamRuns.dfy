/** Every session of the stream: any sequence of calls by the worker and any
    frames from a network that may lose, repeat, reorder or forge nothing but
    authenticity. One invariant carries all of it. */
module StreamRuns {
  import opened Common
  import opened OtaFrame
  import opened StreamSpec

  datatype Call =
    | CallBegin(size: nat, now: nat, total: nat, idle: nat)
    | CallRequest(now: nat)
    | CallOffer(now: nat, offered: Option<Frame>)
    | CallRead(now: nat, capacity: nat)
    | CallWritten(now: nat, offset: nat)
    | CallSelect(now: nat)

  datatype Result =
    | Flag(ok: bool)
    | Requested(ticket: Option<Ticket>)
    | Offered(admission: Admission)
    | Got(data: ReadResult)

  function Step(c: Channel, call: Call): (Channel, Result) {
    match call
    case CallBegin(size, now, total, idle) =>
      var (d, ok) := Begin(c, size, now, total, idle); (d, Flag(ok))
    case CallRequest(now) => var (d, t) := RequestBlock(c, now); (d, Requested(t))
    case CallOffer(now, f) => var (d, a) := Offer(c, now, f); (d, Offered(a))
    case CallRead(now, capacity) => var (d, r) := Read(c, now, capacity); (d, Got(r))
    case CallWritten(now, offset) => var (d, ok) := Written(c, now, offset); (d, Flag(ok))
    case CallSelect(now) => var (d, ok) := Select(c, now); (d, Flag(ok))
  }

  function Run(c: Channel, calls: seq<Call>): Channel
    decreases |calls|
  {
    if calls == [] then c else Step(Run(c, calls[..|calls| - 1]), calls[|calls| - 1]).0
  }

  /** The result of the last call of a non-empty run. */
  function LastResult(c: Channel, calls: seq<Call>): Result
    requires calls != []
  {
    Step(Run(c, calls[..|calls| - 1]), calls[|calls| - 1]).1
  }

  /** All bytes handed to the worker, in order. */
  function Delivered(c: Channel, calls: seq<Call>): seq<byte>
    decreases |calls|
  {
    if calls == [] then []
    else
      var before := Delivered(c, calls[..|calls| - 1]);
      var r := LastResult(c, calls);
      if r.Got? && r.data.Bytes? then before + r.data.bytes else before
  }

  /** All answers of the given kind that were accepted, in order. */
  function AcceptedFrames(c: Channel, calls: seq<Call>, kind: Kind): seq<Frame>
    decreases |calls|
  {
    if calls == [] then []
    else
      var before := AcceptedFrames(c, calls[..|calls| - 1], kind);
      var last := calls[|calls| - 1];
      if LastResult(c, calls) == Offered(Accepted) && last.CallOffer? && last.offered.Some?
         && last.offered.value.kind == kind
      then before + [last.offered.value] else before
  }

  /** Authentic DATA frames carry the image bytes at their offset. */
  predicate HonestFrame(f: Frame, image: seq<byte>) {
    && Readable(f)
    && (f.kind.Data? && f.data.Some? && f.ticket.offset + f.length <= |image| ==>
          f.data.value == image[f.ticket.offset..f.ticket.offset + f.length])
  }

  predicate HonestCall(call: Call, image: seq<byte>) {
    call.CallOffer? && call.offered.Some? ==> HonestFrame(call.offered.value, image)
  }

  predicate Honest(calls: seq<Call>, image: seq<byte>) {
    forall i :: 0 <= i < |calls| ==> HonestCall(calls[i], image)
  }

  /** The state right after a successful begin. */
  predicate Started(c: Channel, size: nat) {
    && c.active && 0 < c.size == size && c.mailbox == [] && c.read == c.written == 0
    && c.request.None? && c.previous.None? && !c.ended && !c.selecting && c.error.Ok?
    && 0 < c.idleTimeout && c.idleDeadline == c.lastNow + c.idleTimeout
    && c.idleDeadline <= c.totalDeadline <= UINT64_MAX
  }

  lemma BeginStarts(c: Channel, size: nat, now: nat, total: nat, idle: nat)
    ensures Begin(c, size, now, total, idle).1 ==> Started(Begin(c, size, now, total, idle).0, size)
    ensures !Begin(c, size, now, total, idle).1 ==> Begin(c, size, now, total, idle).0 == c
  {
  }

  // ------------------------------------------------------------- one invariant

  /** The accepted blocks tile the image from its start. */
  predicate Tiled(blocks: seq<Frame>, size: nat) {
    forall k :: 0 <= k < |blocks| ==>
      && blocks[k].kind.Data?
      && blocks[k].ticket.offset == BLOCK_BYTES * k < size
      && blocks[k].length == Min(BLOCK_BYTES, size - BLOCK_BYTES * k)
  }

  /** How far the accepted blocks reach. */
  function Reach(blocks: nat, size: nat): nat {
    Min(BLOCK_BYTES * blocks, size)
  }

  predicate FlowInv(c: Channel, size: nat) {
    && c.active && c.size == size
    && c.written <= c.read && c.read + |c.mailbox| <= size
    && c.read + |c.mailbox| - c.written <= BLOCK_BYTES
    && (c.request.Some? ==>
          c.mailbox == [] && c.request.value.offset == c.read && (c.read < size ==> c.written == c.read))
    && (c.ended ==> c.read == size && c.mailbox == [] && c.request.None?)
    && (c.selecting ==> c.ended && c.written == size)
    && (c.ended <==> c.previous.Some? && c.previous.value.kind.End?)
  }

  predicate TimeInv(c: Channel) {
    && c.lastNow < c.idleDeadline <= c.totalDeadline <= UINT64_MAX
    && c.idleDeadline <= c.lastNow + c.idleTimeout
  }

  /** Delivered bytes, then the mailbox, are consecutive pieces of the image. */
  predicate Window(read: nat, mailbox: seq<byte>, image: seq<byte>, out: seq<byte>) {
    && read + |mailbox| <= |image|
    && out == image[..read]
    && mailbox == image[read..read + |mailbox|]
  }

  predicate ImageInv(c: Channel, image: seq<byte>, out: seq<byte>, blocks: seq<Frame>) {
    && Window(c.read, c.mailbox, image, out)
    && Tiled(blocks, |image|)
    && c.read + |c.mailbox| == Reach(|blocks|, |image|)
  }

  lemma FlowOffer(c: Channel, now: nat, f: Frame, size: nat)
    requires FlowInv(c, size) && Readable(f)
    ensures FlowInv(Offer(c, now, Some(f)).0, size)
  {
    var d := Touch(c, now);
    if Recognise(d, f).None? && Admit(d, f).1.Accepted? && f.kind.Data? {
      assert |f.data.value| == f.length;
    }
  }

  lemma FlowRead(c: Channel, now: nat, capacity: nat, size: nat)
    requires FlowInv(c, size)
    ensures FlowInv(Read(c, now, capacity).0, size)
  {
  }

  lemma FlowRequest(c: Channel, now: nat, size: nat)
    requires FlowInv(c, size)
    ensures FlowInv(RequestBlock(c, now).0, size)
  {
  }

  lemma FlowWritten(c: Channel, now: nat, offset: nat, size: nat)
    requires FlowInv(c, size)
    ensures FlowInv(Written(c, now, offset).0, size)
  {
  }

  lemma FlowSelect(c: Channel, now: nat, size: nat)
    requires FlowInv(c, size)
    ensures FlowInv(Select(c, now).0, size)
  {
  }

  lemma FlowStep(c: Channel, call: Call, size: nat)
    requires FlowInv(c, size)
    requires call.CallOffer? && call.offered.Some? ==> Readable(call.offered.value)
    ensures FlowInv(Step(c, call).0, size)
  {
    match call
    case CallBegin(_, _, _, _) =>
    case CallRequest(now) => FlowRequest(c, now, size);
    case CallOffer(now, offered) =>
      TouchKeepsFlow(c, now, size);
      if offered.Some? { FlowOffer(c, now, offered.value, size); }
    case CallRead(now, capacity) => FlowRead(c, now, capacity, size);
    case CallWritten(now, offset) => FlowWritten(c, now, offset, size);
    case CallSelect(now) => FlowSelect(c, now, size);
  }

  lemma TimeStep(c: Channel, call: Call)
    requires c.active && TimeInv(c)
    ensures TimeInv(Step(c, call).0)
  {
  }

  // --------------------------------------------------------- images and blocks

  /** What one call adds to the delivered bytes and to the accepted blocks. */
  function NewBytes(c: Channel, call: Call): seq<byte> {
    var r := Step(c, call).1;
    if r.Got? && r.data.Bytes? then r.data.bytes else []
  }

  function NewBlocks(c: Channel, call: Call): seq<Frame> {
    if Step(c, call).1 == Offered(Accepted) && call.CallOffer? && call.offered.Some? && call.offered.value.kind.Data?
    then [call.offered.value] else []
  }

  lemma ImageAdmit(c: Channel, f: Frame, image: seq<byte>, out: seq<byte>, blocks: seq<Frame>)
    requires FlowInv(c, |image|) && ImageInv(c, image, out, blocks) && HonestFrame(f, image)
    requires Admit(c, f).1.Accepted? && f.kind.Data?
    ensures ImageInv(Admit(c, f).0, image, out, blocks + [f])
  {
    assert c.read == BLOCK_BYTES * |blocks|;
    assert |f.data.value| == f.length;
  }

  lemma ImageOffer(c: Channel, now: nat, f: Frame, image: seq<byte>, out: seq<byte>, blocks: seq<Frame>)
    requires FlowInv(c, |image|) && ImageInv(c, image, out, blocks) && HonestFrame(f, image)
    ensures ImageInv(Offer(c, now, Some(f)).0, image, out, blocks + NewBlocks(c, CallOffer(now, Some(f))))
  {
    var d := Touch(c, now);
    if NewBlocks(c, CallOffer(now, Some(f))) == [f] {
      TouchKeepsFlow(c, now, |image|);
      assert ImageInv(d, image, out, blocks);
      ImageAdmit(d, f, image, out, blocks);
    } else {
      OfferWithoutBlock(c, now, f);
      assert blocks + [] == blocks;
    }
  }

  lemma TouchKeepsFlow(c: Channel, now: nat, size: nat)
    requires FlowInv(c, size)
    ensures FlowInv(Touch(c, now), size)
  {
  }

  lemma OfferWithoutBlock(c: Channel, now: nat, f: Frame)
    requires NewBlocks(c, CallOffer(now, Some(f))) == []
    ensures Offer(c, now, Some(f)).0.mailbox == c.mailbox && Offer(c, now, Some(f)).0.read == c.read
  {
  }

  lemma WindowAdvances(read: nat, mailbox: seq<byte>, image: seq<byte>, out: seq<byte>, n: nat)
    requires Window(read, mailbox, image, out) && n <= |mailbox|
    ensures Window(read + n, mailbox[n..], image, out + mailbox[..n])
  {
    assert image[..read] + image[read..read + n] == image[..read + n];
    assert mailbox[..n] == image[read..read + n];
    assert mailbox[n..] == image[read + n..read + |mailbox|];
  }

  lemma ImageRead(c: Channel, now: nat, capacity: nat, image: seq<byte>, out: seq<byte>, blocks: seq<Frame>)
    requires ImageInv(c, image, out, blocks)
    ensures ImageInv(Read(c, now, capacity).0, image, out + NewBytes(c, CallRead(now, capacity)), blocks)
  {
    var (d, r) := Read(c, now, capacity);
    if r.Bytes? {
      var n := Min(|c.mailbox|, capacity);
      assert d.mailbox == c.mailbox[n..] && d.read == c.read + n && r.bytes == c.mailbox[..n];
      WindowAdvances(c.read, c.mailbox, image, out, n);
    } else {
      assert d.mailbox == c.mailbox && d.read == c.read;
      assert out + [] == out;
    }
  }

  lemma ImageQuiet(c: Channel, call: Call)
    requires c.active && !call.CallOffer? && !call.CallRead?
    ensures Step(c, call).0.read == c.read && Step(c, call).0.mailbox == c.mailbox
    ensures NewBytes(c, call) == [] && NewBlocks(c, call) == []
  {
    match call
    case CallRequest(now) => assert RequestBlock(c, now).0.mailbox == c.mailbox;
    case CallWritten(now, offset) => assert Written(c, now, offset).0.mailbox == c.mailbox;
    case CallSelect(now) => assert Select(c, now).0.mailbox == c.mailbox;
    case CallBegin(_, _, _, _) =>
  }

  lemma ImageStep(c: Channel, call: Call, image: seq<byte>, out: seq<byte>, blocks: seq<Frame>)
    requires FlowInv(c, |image|) && ImageInv(c, image, out, blocks)
    requires call.CallOffer? && call.offered.Some? ==> HonestFrame(call.offered.value, image)
    ensures ImageInv(Step(c, call).0, image, out + NewBytes(c, call), blocks + NewBlocks(c, call))
  {
    assert out + [] == out && blocks + [] == blocks;
    if call.CallOffer? && call.offered.Some? {
      ImageOffer(c, call.now, call.offered.value, image, out, blocks);
    } else if call.CallOffer? {
      assert Offer(c, call.now, None).0.mailbox == c.mailbox;
    } else if call.CallRead? {
      ImageRead(c, call.now, call.capacity, image, out, blocks);
    } else {
      ImageQuiet(c, call);
    }
  }

  /** The invariant over every session. */
  lemma {:induction false} SessionInv(c: Channel, calls: seq<Call>, image: seq<byte>)
    requires Started(c, |image|) && Honest(calls, image)
    ensures var d := Run(c, calls);
            && FlowInv(d, |image|) && TimeInv(d)
            && ImageInv(d, image, Delivered(c, calls), AcceptedFrames(c, calls, Data))
    decreases |calls|
  {
    if calls != [] {
      var n := |calls| - 1;
      var before := calls[..n];
      SessionInv(c, before, image);
      var d := Run(c, before);
      FlowStep(d, calls[n], |image|);
      TimeStep(d, calls[n]);
      ImageStep(d, calls[n], image, Delivered(c, before), AcceptedFrames(c, before, Data));
      assert Delivered(c, calls) == Delivered(c, before) + NewBytes(d, calls[n]);
      assert AcceptedFrames(c, calls, Data) == AcceptedFrames(c, before, Data) + NewBlocks(d, calls[n]);
    }
  }

  /** The worker always holds exactly a prefix of the image, however the network
      behaves; accepted blocks tile it in order, each accepted once. */
  lemma PrefixAlways(c: Channel, calls: seq<Call>, image: seq<byte>)
    requires Started(c, |image|) && Honest(calls, image)
    ensures Run(c, calls).read <= |image| && Delivered(c, calls) == image[..Run(c, calls).read]
    ensures Tiled(AcceptedFrames(c, calls, Data), |image|)
    ensures forall i, j :: 0 <= i < j < |AcceptedFrames(c, calls, Data)| ==>
              AcceptedFrames(c, calls, Data)[i].ticket.offset < AcceptedFrames(c, calls, Data)[j].ticket.offset
  {
    SessionInv(c, calls, image);
  }

  /** At most one block is accepted but not yet acknowledged from Flash. */
  lemma Backpressure(c: Channel, calls: seq<Call>, image: seq<byte>)
    requires Started(c, |image|) && Honest(calls, image)
    ensures var accepted := Reach(|AcceptedFrames(c, calls, Data)|, |image|);
            Run(c, calls).written <= accepted <= Run(c, calls).written + BLOCK_BYTES
  {
    SessionInv(c, calls, image);
  }

  // ------------------------------------------------- the selection boundary

  predicate Refused(r: Result) {
    match r
    case Flag(ok) => !ok
    case Requested(t) => t.None?
    case Offered(a) => a.Ignored? || a.Rejected?
    case Got(data) => data.Failure?
  }

  /** Selected, cancelled, timed out or in conflict: nothing moves any more. */
  predicate Final(c: Channel) {
    c.active && (c.selecting || !c.error.Ok?)
  }

  lemma FinalStep(c: Channel, call: Call)
    requires Final(c)
    ensures Step(c, call).0 == c && Refused(Step(c, call).1)
  {
  }

  /** After selection or after the first error (an accepted CANCEL is one), every
      later call is refused and changes nothing, the recorded error included. */
  lemma {:induction false} FinalForever(c: Channel, calls: seq<Call>, more: seq<Call>)
    requires Final(Run(c, calls))
    ensures Run(c, calls + more) == Run(c, calls)
    ensures more != [] ==> Refused(LastResult(c, calls + more))
    decreases |more|
  {
    if more == [] {
      assert calls + more == calls;
    } else {
      var n := |more| - 1;
      assert (calls + more)[..|calls + more| - 1] == calls + more[..n];
      assert (calls + more)[|calls + more| - 1] == more[n];
      FinalForever(c, calls, more[..n]);
      FinalStep(Run(c, calls), more[n]);
    }
  }

  /** CANCEL has been accepted exactly when the recorded error says so, and only
      once; then nothing moves any more. */
  lemma {:induction false} CancelCount(c: Channel, calls: seq<Call>)
    requires c.active && !c.error.Cancelled?
    ensures Run(c, calls).active
    ensures |AcceptedFrames(c, calls, Cancel)| == (if Run(c, calls).error.Cancelled? then 1 else 0)
    ensures AcceptedFrames(c, calls, Cancel) != [] ==> Final(Run(c, calls))
    decreases |calls|
  {
    if calls != [] {
      CancelCount(c, calls[..|calls| - 1]);
      CancelStep(Run(c, calls[..|calls| - 1]), calls[|calls| - 1]);
    }
  }

  lemma CancelStep(c: Channel, call: Call)
    requires c.active
    ensures var (d, r) := Step(c, call);
            var cancels := r == Offered(Accepted) && call.CallOffer? && call.offered.Some? && call.offered.value.kind.Cancel?;
            && d.active && (cancels ==> !c.error.Cancelled? && d.error.Cancelled?)
            && (!cancels ==> d.error.Cancelled? == c.error.Cancelled?)
  {
  }

  /** END has been accepted exactly when the channel is ended, and only once. */
  lemma {:induction false} EndCount(c: Channel, calls: seq<Call>, image: seq<byte>)
    requires Started(c, |image|) && Honest(calls, image)
    ensures |AcceptedFrames(c, calls, End)| == (if Run(c, calls).ended then 1 else 0)
    decreases |calls|
  {
    if calls != [] {
      var n := |calls| - 1;
      EndCount(c, calls[..n], image);
      SessionInv(c, calls[..n], image);
      EndStep(Run(c, calls[..n]), calls[n], |image|);
    }
  }

  lemma EndStep(c: Channel, call: Call, size: nat)
    requires FlowInv(c, size)
    ensures var (d, r) := Step(c, call);
            var ends := r == Offered(Accepted) && call.CallOffer? && call.offered.Some? && call.offered.value.kind.End?;
            (ends ==> !c.ended && d.ended) && (!ends ==> d.ended == c.ended)
  {
  }

  /** Selection succeeds only at the complete, acknowledged end of the image. */
  lemma SelectOnlyAtTheEnd(c: Channel, calls: seq<Call>, now: nat, image: seq<byte>)
    requires Started(c, |image|) && Honest(calls, image)
    requires Select(Run(c, calls), now).1
    ensures Delivered(c, calls) == image
    ensures |AcceptedFrames(c, calls, End)| == 1
    ensures Reach(|AcceptedFrames(c, calls, Data)|, |image|) == |image| == Run(c, calls).written
    ensures Final(Select(Run(c, calls), now).0)
  {
    SessionInv(c, calls, image);
    EndCount(c, calls, image);
    assert image[..|image|] == image;
  }

  // ------------------------------------------------------ requests and deadlines

  /** The k-th call accepts an answer to ticket t. */
  predicate AnsweredAt(c: Channel, calls: seq<Call>, k: nat, t: Ticket)
    requires k < |calls|
  {
    && calls[k].CallOffer? && calls[k].offered.Some? && calls[k].offered.value.ticket == t
    && Step(Run(c, calls[..k]), calls[k]).1 == Offered(Accepted)
  }

  /** If the k-th call hands out a request, it is ticket t. */
  predicate HandsOutOnly(c: Channel, calls: seq<Call>, k: nat, t: Ticket)
    requires k < |calls|
  {
    var r := Step(Run(c, calls[..k]), calls[k]).1;
    r.Requested? && r.ticket.Some? ==> r.ticket.value == t
  }

  lemma RequestStep(c: Channel, call: Call)
    requires c.active && c.request.Some?
    ensures var (d, r) := Step(c, call);
            && d.active
            && (d.request == c.request
                || (r == Offered(Accepted) && call.CallOffer? && call.offered.Some? && call.offered.value.ticket == c.request.value))
            && (r.Requested? && r.ticket.Some? ==> r.ticket == c.request)
  {
  }

  /** A pending request is the same, and is handed out unchanged, over any run
      until an answer to it is accepted. */
  lemma {:induction false} RequestStable(c: Channel, calls: seq<Call>, i: nat, t: Ticket)
    requires i <= |calls| && Run(c, calls[..i]).active && Run(c, calls[..i]).request == Some(t)
    requires forall k :: i <= k < |calls| ==> !AnsweredAt(c, calls, k, t)
    ensures Run(c, calls).active && Run(c, calls).request == Some(t)
    ensures forall k :: i <= k < |calls| ==> HandsOutOnly(c, calls, k, t)
    decreases |calls|
  {
    assert calls[..|calls|] == calls;
    if i < |calls| {
      var before := calls[..|calls| - 1];
      assert before[..i] == calls[..i];
      forall k | i <= k < |before| ensures !AnsweredAt(c, before, k, t) {
        assert before[..k] == calls[..k] && !AnsweredAt(c, calls, k, t);
      }
      RequestStable(c, before, i, t);
      forall k | i <= k < |before| ensures HandsOutOnly(c, calls, k, t) {
        assert before[..k] == calls[..k] && HandsOutOnly(c, before, k, t);
      }
      assert !AnsweredAt(c, calls, |calls| - 1, t);
      RequestStep(Run(c, before), calls[|calls| - 1]);
    }
  }

  /** The total deadline never moves; the idle deadline never recedes and moves
      only with a strict increase of the acknowledged offset. */
  lemma DeadlineStep(c: Channel, call: Call)
    requires c.active && TimeInv(c)
    ensures var d := Step(c, call).0;
            && d.totalDeadline == c.totalDeadline && d.idleTimeout == c.idleTimeout
            && c.idleDeadline <= d.idleDeadline <= d.totalDeadline
            && (d.idleDeadline != c.idleDeadline ==> d.written > c.written)
            && c.lastNow <= d.lastNow && c.written <= d.written
  {
    if !call.CallWritten? { QuietDeadline(c, call); }
  }

  /** Only an acknowledgement moves a deadline. */
  lemma QuietDeadline(c: Channel, call: Call)
    requires c.active && TimeInv(c) && !call.CallWritten?
    ensures var d := Step(c, call).0;
            && d.totalDeadline == c.totalDeadline && d.idleTimeout == c.idleTimeout
            && d.idleDeadline == c.idleDeadline && c.lastNow <= d.lastNow && d.written == c.written
  {
  }

  lemma {:induction false} DeadlinesOverRuns(c: Channel, calls: seq<Call>, i: nat, image: seq<byte>)
    requires Started(c, |image|) && Honest(calls, image) && i <= |calls|
    ensures var a := Run(c, calls[..i]);
            var b := Run(c, calls);
            && a.totalDeadline == b.totalDeadline == c.totalDeadline <= UINT64_MAX
            && a.idleDeadline <= b.idleDeadline <= b.totalDeadline
            && a.written <= b.written
            && (a.idleDeadline != b.idleDeadline ==> a.written < b.written)
    decreases |calls|
  {
    assert calls[..|calls|] == calls;
    SessionInv(c, calls, image);
    if calls != [] {
      var before := calls[..|calls| - 1];
      SessionInv(c, before, image);
      DeadlineStep(Run(c, before), calls[|calls| - 1]);
      if i < |calls| {
        assert before[..i] == calls[..i];
        DeadlinesOverRuns(c, before, i, image);
      } else {
        DeadlinesOverRuns(c, before, 0, image);
        assert before[..0] == [];
      }
    }
  }
}
