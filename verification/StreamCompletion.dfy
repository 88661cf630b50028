/** Every session in which no call is discourteous and every outstanding need is
    served in the end completes, and every completed transfer has the same shape. */
module StreamCompletion {
  import opened Common
  import opened OtaFrame
  import opened StreamSpec
  import opened StreamRuns
  import opened Descent

  /** ceil(size / 1024). */
  function BlockCount(size: nat): nat {
    (size + BLOCK_BYTES - 1) / BLOCK_BYTES
  }

  /** Whatever the run, a selection means exactly ceil(size/1024) accepted DATA
      frames, one END and the whole image delivered. */
  lemma ShapeAtSelection(c: Channel, calls: seq<Call>, now: nat, image: seq<byte>)
    requires Started(c, |image|) && Honest(calls, image)
    requires Select(Run(c, calls), now).1
    ensures |AcceptedFrames(c, calls, Data)| == BlockCount(|image|)
    ensures |AcceptedFrames(c, calls, End)| == 1
    ensures Delivered(c, calls) == image
  {
    SelectOnlyAtTheEnd(c, calls, now, image);
    WholeImage(c, calls, image);
  }

  lemma WholeImage(c: Channel, calls: seq<Call>, image: seq<byte>)
    requires Started(c, |image|) && Honest(calls, image) && Run(c, calls).read == |image|
    ensures |AcceptedFrames(c, calls, Data)| == BlockCount(|image|) && Delivered(c, calls) == image
  {
    SessionInv(c, calls, image);
    assert image[..|image|] == image;
    var blocks := AcceptedFrames(c, calls, Data);
    var n := |blocks|;
    assert BLOCK_BYTES * n >= |image|;
    if n > 0 {
      assert blocks[n - 1].ticket.offset == BLOCK_BYTES * (n - 1) < |image|;
    }
  }

  // ----------------------------------------- exactly which calls latch an error

  predicate InTime(c: Channel, now: nat) {
    c.lastNow <= now < c.idleDeadline && now < c.totalDeadline
  }

  predicate Repeats(c: Channel, f: Frame) {
    c.previous.Some? && f.kind == c.previous.value.kind && f.ticket == c.previous.value.ticket
  }

  /** Same identity as the last answer, other content. */
  predicate Contradicts(c: Channel, f: Frame) {
    Repeats(c, f) && (f.length != c.previous.value.length || f.tag != c.previous.value.tag)
  }

  predicate Cancels(c: Channel, f: Frame) {
    && !Repeats(c, f) && f.kind.Cancel? && f.length == 0
    && (c.request == Some(f.ticket) || (c.previous.Some? && c.previous.value.ticket == f.ticket))
  }

  /** The frame is looked at: not a request and not past its own expiry. */
  predicate Current(f: Frame, now: nat) {
    !f.kind.Request? && now < f.ticket.expires
  }

  predicate Courteous(c: Channel, call: Call) {
    match call
    case CallBegin(_, _, _, _) => true
    case CallRequest(now) => InTime(c, now)
    case CallOffer(now, f) =>
      InTime(c, now) && (f.Some? && Current(f.value, now) ==> !Contradicts(c, f.value) && !Cancels(c, f.value))
    case CallRead(now, capacity) => capacity == 0 || InTime(c, now)
    case CallWritten(now, offset) => InTime(c, now) && c.written <= offset <= c.read
    case CallSelect(now) => InTime(c, now)
  }

  lemma CourteousExactly(c: Channel, call: Call)
    requires Open(c)
    ensures Step(c, call).0.error.Ok? <==> Courteous(c, call)
    ensures Step(c, call).0.active
  {
    if call.CallOffer? { CourteousOffer(c, call.now, call.offered); }
  }

  lemma CourteousOffer(c: Channel, now: nat, f: Option<Frame>)
    requires Open(c)
    ensures Offer(c, now, f).0.error.Ok? <==> Courteous(c, CallOffer(now, f))
    ensures Offer(c, now, f).0.active
  {
  }

  // ------------------------------------------------------------- what is left

  /** Bytes to read, bytes to acknowledge, and a request and an answer for every
      block and for END; a pending request is already made. */
  function Left(c: Channel): nat
    requires FlowInv(c, c.size)
  {
    c.size - c.read + c.size - c.written
    + 2 * BlockCount(c.size - c.read - |c.mailbox|) + (if c.ended then 0 else 2) - (if c.request.Some? then 1 else 0)
  }

  /** Everything is delivered, acknowledged and ended. */
  predicate Done(c: Channel) {
    c.ended && c.read == c.size && c.written == c.size
  }

  lemma LeftIsZero(c: Channel)
    requires FlowInv(c, c.size)
    ensures Left(c) == 0 <==> Done(c)
    ensures c.selecting ==> Done(c)
  {
  }

  /** The call moves the transfer on. */
  predicate Helps(c: Channel, call: Call) {
    var r := Step(c, call).1;
    match call
    case CallBegin(_, _, _, _) => false
    case CallRequest(_) => c.request.None? && r.ticket.Some?
    case CallOffer(_, f) => r.admission.Accepted? && f.Some? && !f.value.kind.Cancel?
    case CallRead(_, _) => r.data.Bytes?
    case CallWritten(_, offset) => r.ok && offset > c.written
    case CallSelect(_) => false
  }

  /** A courteous call never adds work, and takes some away exactly if it helps. */
  lemma LeftStep(c: Channel, call: Call, image: seq<byte>)
    requires Open(c) && FlowInv(c, |image|) && HonestCall(call, image) && Courteous(c, call)
    ensures var d := Step(c, call).0;
            && FlowInv(d, |image|) && Left(d) <= Left(c)
            && (Helps(c, call) <==> Left(d) < Left(c))
  {
    FlowStep(c, call, |image|);
    match call
    case CallOffer(now, f) => LeftOffer(c, now, f, image);
    case CallRead(now, capacity) => LeftRead(c, now, capacity, image);
    case CallWritten(now, offset) => LeftWritten(c, now, offset, image);
    case _ =>
  }

  lemma LeftOffer(c: Channel, now: nat, f: Option<Frame>, image: seq<byte>)
    requires Open(c) && FlowInv(c, |image|) && HonestCall(CallOffer(now, f), image) && Courteous(c, CallOffer(now, f))
    requires FlowInv(Offer(c, now, f).0, |image|)
    ensures var d := Offer(c, now, f).0;
            Left(d) <= Left(c) && (Helps(c, CallOffer(now, f)) <==> Left(d) < Left(c))
  {
    var d := Offer(c, now, f).0;
    if !Helps(c, CallOffer(now, f)) {
      UnhelpfulOffer(c, now, f);
    } else if f.value.kind.Data? {
      assert |f.value.data.value| == f.value.length;
      OneBlockLess(c.size - c.read);
    } else {
      assert d.ended && d == c.(lastNow := now, ended := true, previous := d.previous, request := None);
    }
  }

  lemma UnhelpfulOffer(c: Channel, now: nat, f: Option<Frame>)
    requires Open(c) && Courteous(c, CallOffer(now, f)) && !Helps(c, CallOffer(now, f))
    ensures Offer(c, now, f).0 == c.(lastNow := now)
  {
  }

  lemma OneBlockLess(n: nat)
    requires n > 0
    ensures BlockCount(n - Min(n, BLOCK_BYTES)) == BlockCount(n) - 1
  {
  }

  lemma LeftRead(c: Channel, now: nat, capacity: nat, image: seq<byte>)
    requires Open(c) && FlowInv(c, |image|) && Courteous(c, CallRead(now, capacity))
    requires FlowInv(Read(c, now, capacity).0, |image|)
    ensures var d := Read(c, now, capacity).0;
            Left(d) <= Left(c) && (Helps(c, CallRead(now, capacity)) <==> Left(d) < Left(c))
  {
  }

  lemma LeftWritten(c: Channel, now: nat, offset: nat, image: seq<byte>)
    requires Open(c) && FlowInv(c, |image|) && Courteous(c, CallWritten(now, offset))
    requires FlowInv(Written(c, now, offset).0, |image|)
    ensures var d := Written(c, now, offset).0;
            Left(d) <= Left(c) && (Helps(c, CallWritten(now, offset)) <==> Left(d) < Left(c))
  {
  }

  // -------------------------------------------------------- endless schedules

  /** The first n calls of a schedule. */
  function First(schedule: nat -> Call, n: nat): (calls: seq<Call>)
    ensures |calls| == n
  {
    seq(n, i requires 0 <= i => schedule(i))
  }

  function At(c: Channel, schedule: nat -> Call, n: nat): Channel {
    Run(c, First(schedule, n))
  }

  lemma AtNext(c: Channel, schedule: nat -> Call, n: nat)
    ensures At(c, schedule, n + 1) == Step(At(c, schedule, n), schedule(n)).0
  {
    assert First(schedule, n + 1)[..n] == First(schedule, n);
  }

  /** Authentic frames only, and no call that latches an error. */
  ghost predicate Cooperative(c: Channel, schedule: nat -> Call, image: seq<byte>) {
    forall n: nat :: HonestCall(schedule(n), image) && (Open(At(c, schedule, n)) ==> Courteous(At(c, schedule, n), schedule(n)))
  }

  predicate Progress(c: Channel, schedule: nat -> Call, n: nat) {
    Done(At(c, schedule, n)) || Helps(At(c, schedule, n), schedule(n))
  }

  /** Whatever is outstanding is served in the end: after every call some later
      one moves the transfer on, until nothing is left. Any number of repeated
      requests, waiting reads, duplicates, foreign or late frames, early
      selections and partial acknowledgements may come in between. */
  ghost predicate Fair(c: Channel, schedule: nat -> Call) {
    forall n: nat :: ServedAfter(c, schedule, n)
  }

  ghost predicate ServedAfter(c: Channel, schedule: nat -> Call, n: nat) {
    exists m: nat :: n <= m && Progress(c, schedule, m)
  }

  /** The same with a bound: served within w calls. */
  ghost predicate Prompt(c: Channel, schedule: nat -> Call, w: nat) {
    forall n: nat :: ServedWithin(c, schedule, n, w)
  }

  predicate ServedWithin(c: Channel, schedule: nat -> Call, n: nat, w: nat) {
    exists m: nat :: n <= m < n + w && Progress(c, schedule, m)
  }

  /** Whoever owes the next move makes it: the worker reads a block and
      acknowledges it (its tail only after END), the control task requests, and
      the sender answers the pending request before it expires. */
  predicate Serves(c: Channel, call: Call) {
    if c.mailbox != [] then call.CallRead? && call.capacity > 0
    else if c.written < c.read && (c.read < c.size || c.ended) then call.CallWritten? && call.offset > c.written
    else if c.request.None? then call.CallRequest?
    else call.CallOffer? && call.offered.Some? && Answers(c, call.offered.value) && call.now < c.request.value.expires
  }

  predicate Answers(c: Channel, f: Frame) {
    && c.request == Some(f.ticket)
    && if c.read == c.size then f.kind.End? && f.length == 0 else f.kind.Data? && ExpectedBlock(c, f)
  }

  /** Every party does its part in the end, however late and whatever else is
      called in between. */
  ghost predicate Obliging(c: Channel, schedule: nat -> Call) {
    forall n: nat :: Done(At(c, schedule, n)) || OwedIsPaid(c, schedule, n)
  }

  ghost predicate OwedIsPaid(c: Channel, schedule: nat -> Call, n: nat) {
    exists m: nat :: n <= m && Serves(At(c, schedule, n), schedule(m))
  }

  /** A cooperative session stays healthy. */
  lemma {:induction false} SessionIsHealthy(c: Channel, schedule: nat -> Call, image: seq<byte>, n: nat)
    requires Started(c, |image|) && Cooperative(c, schedule, image)
    ensures Healthy(At(c, schedule, n), image)
    decreases n
  {
    if n > 0 {
      SessionIsHealthy(c, schedule, image, n - 1);
      AtNext(c, schedule, n - 1);
      assert HonestCall(schedule(n - 1), image);
      HealthyStep(At(c, schedule, n - 1), schedule(n - 1), image);
    }
  }

  predicate Healthy(c: Channel, image: seq<byte>) {
    FlowInv(c, |image|) && c.error.Ok?
  }

  lemma HealthyStep(c: Channel, call: Call, image: seq<byte>)
    requires Healthy(c, image) && HonestCall(call, image) && (Open(c) ==> Courteous(c, call))
    ensures var d := Step(c, call).0;
            && Healthy(d, image) && Work(d) <= Work(c)
            && (Done(c) || Helps(c, call) ==> Work(c) == 0 || Work(d) < Work(c))
  {
    LeftIsZero(c);
    if Open(c) {
      LeftStep(c, call, image);
      CourteousExactly(c, call);
    } else {
      FinalStep(c, call);
    }
  }

  function Work(c: Channel): nat {
    if FlowInv(c, c.size) then Left(c) else 0
  }

  function WorkAt(c: Channel, schedule: nat -> Call): nat -> nat {
    n => Work(At(c, schedule, n))
  }

  lemma WorkMoves(c: Channel, schedule: nat -> Call, image: seq<byte>, n: nat)
    requires Started(c, |image|) && Cooperative(c, schedule, image)
    ensures NeverGrows(WorkAt(c, schedule), n) && (Progress(c, schedule, n) ==> Moves(WorkAt(c, schedule), n))
  {
    SessionIsHealthy(c, schedule, image, n);
    AtNext(c, schedule, n);
    assert HonestCall(schedule(n), image);
    HealthyStep(At(c, schedule, n), schedule(n), image);
  }

  lemma NoWorkIsDone(c: Channel, image: seq<byte>)
    requires Healthy(c, image) && Work(c) == 0
    ensures Done(c)
  {
    LeftIsZero(c);
  }

  /** Every fair cooperative session of every image of 1 to 2^32 - 1 bytes reaches
      a state from which the next timely selection succeeds, unless it has already
      been made: the whole image is delivered, after exactly ceil(size/1024) DATA
      frames and one END. */
  lemma FairSessionCompletes(c: Channel, schedule: nat -> Call, image: seq<byte>) returns (n: nat)
    requires Started(c, |image|) && |image| <= UINT32_MAX
    requires Cooperative(c, schedule, image) && Fair(c, schedule)
    ensures Done(At(c, schedule, n))
    ensures var calls := First(schedule, n);
            var d := Run(c, calls);
            && (d.selecting || forall now :: InTime(d, now) ==> Select(d, now).1)
            && Delivered(c, calls) == image
            && |AcceptedFrames(c, calls, Data)| == BlockCount(|image|)
            && |AcceptedFrames(c, calls, End)| == 1
  {
    var work := WorkAt(c, schedule);
    forall i: nat ensures NeverGrows(work, i) { WorkMoves(c, schedule, image, i); }
    forall i: nat ensures MovesLater(work, i) {
      assert ServedAfter(c, schedule, i);
      var m: nat :| i <= m && Progress(c, schedule, m);
      WorkMoves(c, schedule, image, m);
    }
    n := ReachesZero(work, 0);
    SessionIsHealthy(c, schedule, image, n);
    NoWorkIsDone(At(c, schedule, n), image);
    HonestFirst(schedule, image, n);
    DoneShape(c, First(schedule, n), image);
  }

  // ------------------------------------- parties that do their part are fair

  lemma ServedHelps(c: Channel, call: Call, image: seq<byte>)
    requires Open(c) && FlowInv(c, |image|) && AnswerInv(c) && !Done(c)
    requires Courteous(c, call) && Serves(c, call)
    ensures Helps(c, call)
  {
    if call.CallOffer? { assert !Repeats(c, call.offered.value); }
  }

  lemma UnhelpfulWaits(c: Channel, call: Call, image: seq<byte>)
    requires Open(c) && FlowInv(c, |image|) && !Done(c) && Courteous(c, call) && !Helps(c, call)
    ensures var d := Step(c, call).0;
            Open(d) && d == c.(lastNow := d.lastNow)
  {
  }

  lemma {:induction false} ServedLater(c: Channel, schedule: nat -> Call, image: seq<byte>, n: nat, m: nat)
    requires Started(c, |image|) && Cooperative(c, schedule, image) && n <= m
    requires Serves(At(c, schedule, n), schedule(m))
    ensures ServedAfter(c, schedule, n)
    decreases m - n
  {
    var d := At(c, schedule, n);
    SessionIsHealthy(c, schedule, image, n);
    LeftIsZero(d);
    assert Cooperative(c, schedule, image) && HonestCall(schedule(n), image);
    if !Progress(c, schedule, n) {
      if n < m {
        UnhelpfulWaits(d, schedule(n), image);
        AtNext(c, schedule, n);
        ServedLater(c, schedule, image, n + 1, m);
        var k: nat :| n + 1 <= k && Progress(c, schedule, k);
      } else {
        HonestFirst(schedule, image, n);
        SessionAnswers(c, First(schedule, n), image);
        ServedHelps(d, schedule(n), image);
      }
    }
  }

  lemma HonestFirst(schedule: nat -> Call, image: seq<byte>, n: nat)
    requires forall k: nat :: HonestCall(schedule(k), image)
    ensures Honest(First(schedule, n), image)
  {
    var calls := First(schedule, n);
    forall i | 0 <= i < |calls| ensures HonestCall(calls[i], image) { assert calls[i] == schedule(i); }
  }

  lemma ObligingIsFair(c: Channel, schedule: nat -> Call, image: seq<byte>)
    requires Started(c, |image|) && Cooperative(c, schedule, image) && Obliging(c, schedule)
    ensures Fair(c, schedule)
  {
    forall n: nat ensures ServedAfter(c, schedule, n) {
      if Done(At(c, schedule, n)) {
        assert Progress(c, schedule, n);
      } else {
        assert OwedIsPaid(c, schedule, n);
        var m: nat :| n <= m && Serves(At(c, schedule, n), schedule(m));
        ServedLater(c, schedule, image, n, m);
      }
    }
  }

  /** So a session completes if worker, control task and sender do their parts. */
  lemma ObligingSessionCompletes(c: Channel, schedule: nat -> Call, image: seq<byte>) returns (n: nat)
    requires Started(c, |image|) && |image| <= UINT32_MAX
    requires Cooperative(c, schedule, image) && Obliging(c, schedule)
    ensures Done(At(c, schedule, n)) && Delivered(c, First(schedule, n)) == image
  {
    ObligingIsFair(c, schedule, image);
    n := FairSessionCompletes(c, schedule, image);
  }

  lemma DoneShape(c: Channel, calls: seq<Call>, image: seq<byte>)
    requires Started(c, |image|) && Honest(calls, image) && Done(Run(c, calls)) && Run(c, calls).error.Ok?
    ensures Delivered(c, calls) == image
    ensures |AcceptedFrames(c, calls, Data)| == BlockCount(|image|)
    ensures |AcceptedFrames(c, calls, End)| == 1
    ensures Run(c, calls).selecting || forall now :: InTime(Run(c, calls), now) ==> Select(Run(c, calls), now).1
  {
    SessionInv(c, calls, image);
    EndCount(c, calls, image);
    WholeImage(c, calls, image);
  }

  /** All the work of an image: two moves per byte, block and END. */
  function AllWork(size: nat): nat {
    2 * (size + BlockCount(size) + 1)
  }

  /** With a helpful call among any w successive ones, the transfer is complete
      after w calls for every unit of work. */
  lemma CompletesWithin(c: Channel, schedule: nat -> Call, image: seq<byte>, w: nat)
    requires Started(c, |image|) && Cooperative(c, schedule, image) && Prompt(c, schedule, w)
    ensures Done(At(c, schedule, w * AllWork(|image|)))
  {
    var work := WorkAt(c, schedule);
    forall i: nat ensures NeverGrows(work, i) { WorkMoves(c, schedule, image, i); }
    forall i: nat ensures MovesWithin(work, i, w) {
      assert ServedWithin(c, schedule, i, w);
      var m: nat :| i <= m < i + w && Progress(c, schedule, m);
      WorkMoves(c, schedule, image, m);
    }
    assert First(schedule, 0) == [] && Run(c, []) == c;
    assert work(0) == AllWork(|image|);
    ReachesZeroWithin(work, w, 0);
    SessionIsHealthy(c, schedule, image, w * AllWork(|image|));
    NoWorkIsDone(At(c, schedule, w * AllWork(|image|)), image);
  }

  // -------------------------------------------- when a helpful call exists

  /** Answers so far are DATA before the pending request, and a request expires
      with the idle deadline unless the tail was acknowledged after it. */
  predicate AnswerInv(c: Channel) {
    && (c.previous.Some? && !c.ended ==> c.previous.value.kind.Data? && c.previous.value.ticket.offset < c.read + |c.mailbox|)
    && (c.request.Some? ==>
          && c.request.value.written <= c.written
          && (c.request.value.written == c.written ==> c.request.value.expires == c.idleDeadline)
          && (c.request.value.written < c.written ==> c.read == c.size))
  }

  lemma AnswerStep(c: Channel, call: Call, size: nat)
    requires FlowInv(c, size) && TimeInv(c) && AnswerInv(c)
    requires call.CallOffer? && call.offered.Some? ==> Readable(call.offered.value)
    ensures AnswerInv(Step(c, call).0)
  {
    match call
    case CallOffer(now, f) => if f.Some? { AnswerOffer(c, now, f.value, size); }
    case CallRead(now, capacity) => AnswerRead(c, now, capacity, size);
    case CallWritten(now, offset) => AnswerWritten(c, now, offset, size);
    case CallRequest(now) => AnswerRequest(c, now, size);
    case _ =>
  }

  lemma AnswerRead(c: Channel, now: nat, capacity: nat, size: nat)
    requires FlowInv(c, size) && AnswerInv(c)
    ensures AnswerInv(Read(c, now, capacity).0)
  {
  }

  lemma AnswerWritten(c: Channel, now: nat, offset: nat, size: nat)
    requires FlowInv(c, size) && AnswerInv(c)
    ensures AnswerInv(Written(c, now, offset).0)
  {
  }

  lemma AnswerRequest(c: Channel, now: nat, size: nat)
    requires FlowInv(c, size) && TimeInv(c) && AnswerInv(c)
    ensures AnswerInv(RequestBlock(c, now).0)
  {
  }

  lemma AnswerOffer(c: Channel, now: nat, f: Frame, size: nat)
    requires FlowInv(c, size) && TimeInv(c) && AnswerInv(c) && Readable(f)
    ensures AnswerInv(Offer(c, now, Some(f)).0)
  {
  }

  lemma {:induction false} SessionAnswers(c: Channel, calls: seq<Call>, image: seq<byte>)
    requires Started(c, |image|) && Honest(calls, image)
    ensures AnswerInv(Run(c, calls))
    decreases |calls|
  {
    if calls != [] {
      var before := calls[..|calls| - 1];
      SessionAnswers(c, before, image);
      SessionInv(c, before, image);
      AnswerStep(Run(c, before), calls[|calls| - 1], |image|);
    }
  }

  /** A request has run out although the session has not. */
  predicate Overdue(c: Channel, now: nat) {
    c.request.Some? && c.request.value.expires <= now
  }

  /** The call that serves what is outstanding, at a given time. */
  function Useful(c: Channel, image: seq<byte>, now: nat, tag: seq<byte>): Call
    requires c.read <= c.size == |image|
  {
    if c.mailbox != [] then CallRead(now, BLOCK_BYTES)
    else if c.written < c.read && (c.read < c.size || c.ended || Overdue(c, now)) then CallWritten(now, c.read)
    else if c.request.None? then CallRequest(now)
    else CallOffer(now, Some(AnswerTo(c, image, tag)))
  }

  function AnswerTo(c: Channel, image: seq<byte>, tag: seq<byte>): Frame
    requires c.read <= c.size == |image| && c.request.Some?
  {
    if c.read == c.size then Frame(End, c.request.value, 0, None, tag)
    else
      var n := Min(c.size - c.read, BLOCK_BYTES);
      Frame(Data, c.request.value, n, Some(image[c.read..c.read + n]), tag)
  }

  lemma UsefulHelps(c: Channel, image: seq<byte>, now: nat, tag: seq<byte>)
    requires Open(c) && FlowInv(c, |image|) && AnswerInv(c) && InTime(c, now) && !Done(c)
    requires Overdue(c, now) ==> c.mailbox != [] || c.written < c.read
    ensures var call := Useful(c, image, now, tag);
            call.now == now && HonestCall(call, image) && Courteous(c, call) && Helps(c, call)
  {
    var call := Useful(c, image, now, tag);
    if call.CallOffer? {
      var f := AnswerTo(c, image, tag);
      assert !Repeats(c, f);
      assert Recognise(Touch(c, now), f).None?;
    }
  }

  ghost predicate Helpable(c: Channel, image: seq<byte>, now: nat) {
    exists call: Call :: call.now == now && HonestCall(call, image) && Helps(c, call)
  }

  /** At any timely moment of an open session some honest call helps, if and only
      if the transfer is not done and its pending request has not run out with
      nothing else to do. That a call helps does not mean that the transfer can be
      completed: see `CompletableExactly`. */
  lemma HelpableExactly(c: Channel, calls: seq<Call>, image: seq<byte>, now: nat)
    requires Started(c, |image|) && Honest(calls, image) && Open(Run(c, calls)) && InTime(Run(c, calls), now)
    ensures var d := Run(c, calls);
            Helpable(d, image, now) <==> !Done(d) && (Overdue(d, now) ==> d.mailbox != [] || d.written < d.read)
    ensures var d := Run(c, calls);
            Overdue(d, now) ==> d.read == d.size && d.request.value.written < d.written
  {
    SessionInv(c, calls, image);
    SessionAnswers(c, calls, image);
    var d := Run(c, calls);
    if !Done(d) && (Overdue(d, now) ==> d.mailbox != [] || d.written < d.read) {
      UsefulHelps(d, image, now, []);
      assert Helps(d, Useful(d, image, now, []));
    } else {
      forall call: Call | call.now == now && HonestCall(call, image) ensures !Helps(d, call) {
        NothingHelps(d, call, image);
      }
    }
  }

  lemma NothingHelps(c: Channel, call: Call, image: seq<byte>)
    requires Open(c) && FlowInv(c, |image|) && c.mailbox == [] && c.written == c.read
    requires c.ended || Overdue(c, call.now)
    ensures !Helps(c, call)
  {
  }

  // ------------------------------------------------------------ the stall

  /** What stays once the pending request has run out. */
  predicate Stalled(c: Channel, now: nat) {
    c.active && !c.ended && !c.selecting && c.mailbox == [] && Overdue(c, now)
  }

  /** A session whose request has run out is never ended and never selected,
      whatever is called from then on. */
  lemma {:induction false} OverdueNeverEnds(c: Channel, calls: seq<Call>, now: nat)
    requires Stalled(c, now) && (now <= c.lastNow || NotBefore(calls, now))
    ensures var d := Run(c, calls);
            Stalled(d, now) && d.read == c.read && c.lastNow <= d.lastNow
    decreases |calls|
  {
    if calls != [] {
      OverdueNeverEnds(c, calls[..|calls| - 1], now);
      OverdueStep(Run(c, calls[..|calls| - 1]), calls[|calls| - 1], now);
    }
  }

  lemma OverdueStep(c: Channel, call: Call, now: nat)
    requires Stalled(c, now) && (now <= c.lastNow || now <= call.now)
    ensures var d := Step(c, call).0;
            Stalled(d, now) && d.read == c.read && c.lastNow <= d.lastNow
  {
  }

  const STALL_START := CLOSED.(active := true, size := 1, totalDeadline := 100, idleDeadline := 10, idleTimeout := 10)

  const STALL_CALLS := [
    CallRequest(0), CallOffer(1, Some(Frame(Data, Ticket(0, 0, 10), 1, Some([7]), []))), CallRead(2, BLOCK_BYTES),
    CallRequest(3), CallWritten(5, 1), CallRequest(12)]

  /** Such a session exists: END is requested, then the tail is acknowledged, which
      moves the idle deadline but not the expiry of the pending request. Every call
      is courteous, and yet the transfer can only time out. */
  lemma StallHappens()
    ensures Started(STALL_START, 1) && Honest(STALL_CALLS, [7])
    ensures var d := Run(STALL_START, STALL_CALLS);
            Open(d) && Delivered(STALL_START, STALL_CALLS) == [7] && d.written == 1 && Overdue(d, d.lastNow)
    ensures forall more :: !Run(Run(STALL_START, STALL_CALLS), more).selecting
  {
    StallRun();
    forall more ensures !Run(Run(STALL_START, STALL_CALLS), more).selecting {
      OverdueNeverEnds(Run(STALL_START, STALL_CALLS), more, 12);
    }
    PrefixAlways(STALL_START, STALL_CALLS, [7]);
  }

  lemma StallRun()
    ensures Run(STALL_START, STALL_CALLS)
         == STALL_START.(read := 1, written := 1, lastNow := 12, idleDeadline := 15,
                         request := Some(Ticket(1, 0, 10)), previous := Some(Answer(Data, Ticket(0, 0, 10), 1, [])))
    ensures Honest(STALL_CALLS, [7])
  {
    var c, s := STALL_START, STALL_CALLS;
    assert s[..5][..4] == s[..4] && s[..4][..3] == s[..3] && s[..3][..2] == s[..2] && s[..2][..1] == s[..1] && s[..1][..0] == [];
    assert Run(c, s[..1]) == Step(c, s[0]).0;
    assert Run(c, s[..2]) == Step(Run(c, s[..1]), s[1]).0;
    assert Run(c, s[..3]) == Step(Run(c, s[..2]), s[2]).0;
    assert Run(c, s[..4]) == Step(Run(c, s[..3]), s[3]).0;
    assert Run(c, s[..5]) == Step(Run(c, s[..4]), s[4]).0;
    assert Run(c, s) == Step(Run(c, s[..5]), s[5]).0;
    StallHead();
    StallTail(Run(c, s[..3]));
  }

  lemma StallHead()
    ensures Step(Step(Step(STALL_START, STALL_CALLS[0]).0, STALL_CALLS[1]).0, STALL_CALLS[2]).0
         == STALL_START.(read := 1, lastNow := 2, previous := Some(Answer(Data, Ticket(0, 0, 10), 1, [])))
  {
    assert [7][1..] == [];
  }

  lemma StallTail(c: Channel)
    requires c == STALL_START.(read := 1, lastNow := 2, previous := Some(Answer(Data, Ticket(0, 0, 10), 1, [])))
    ensures Step(Step(Step(c, CallRequest(3)).0, CallWritten(5, 1)).0, CallRequest(12)).0
         == c.(written := 1, lastNow := 12, idleDeadline := 15, request := Some(Ticket(1, 0, 10)))
  {
  }

  // ------------------------------------------- exactly when it can complete

  predicate NotBefore(calls: seq<Call>, now: nat) {
    forall i :: 0 <= i < |calls| ==> now <= calls[i].now
  }

  /** Some honest calls from now on end in a selection. */
  ghost predicate Completable(c: Channel, image: seq<byte>, now: nat) {
    exists calls: seq<Call> :: Honest(calls, image) && NotBefore(calls, now) && Run(c, calls).selecting
  }

  /** A timely session whose pending request has not run out. */
  predicate Promising(c: Channel, image: seq<byte>, now: nat) {
    Open(c) && FlowInv(c, |image|) && TimeInv(c) && AnswerInv(c) && InTime(c, now) && !Overdue(c, now)
  }

  /** Serving what is outstanding at once, with any tags, completes it. */
  lemma {:induction false} CompleteFrom(c: Channel, image: seq<byte>, now: nat, tag: seq<byte>) returns (calls: seq<Call>)
    requires Promising(c, image, now)
    ensures Honest(calls, image) && (forall i :: 0 <= i < |calls| ==> calls[i].now == now)
    ensures Promising(Run(c, calls), image, now) && Done(Run(c, calls))
    decreases Work(c)
  {
    if Done(c) { return []; }
    ServeStep(c, image, now, tag);
    var call := Useful(c, image, now, tag);
    var rest := CompleteFrom(Step(c, call).0, image, now, tag);
    calls := [call] + rest;
    RunFirst(c, call, rest);
  }

  lemma {:induction false} RunFirst(c: Channel, call: Call, rest: seq<Call>)
    ensures Run(c, [call] + rest) == Run(Step(c, call).0, rest)
    decreases |rest|
  {
    var calls := [call] + rest;
    if rest == [] {
      assert calls[..0] == [];
    } else {
      RunFirst(c, call, rest[..|rest| - 1]);
      assert calls[..|calls| - 1] == [call] + rest[..|rest| - 1];
    }
  }

  lemma ServeStep(c: Channel, image: seq<byte>, now: nat, tag: seq<byte>)
    requires Promising(c, image, now) && !Done(c)
    ensures var call := Useful(c, image, now, tag);
            var d := Step(c, call).0;
            call.now == now && HonestCall(call, image) && Promising(d, image, now) && Work(d) < Work(c)
  {
    UsefulHelps(c, image, now, tag);
    var call := Useful(c, image, now, tag);
    LeftStep(c, call, image);
    CourteousExactly(c, call);
    TimeStep(c, call);
    AnswerStep(c, call, |image|);
    ServeKeeps(c, image, now, tag);
  }

  lemma ServeKeeps(c: Channel, image: seq<byte>, now: nat, tag: seq<byte>)
    requires Promising(c, image, now) && !Done(c)
    ensures var d := Step(c, Useful(c, image, now, tag)).0;
            InTime(d, now) && !d.selecting && !Overdue(d, now)
  {
  }

  /** At any timely moment of any honest session the transfer can still be
      completed, if and only if its pending request has not run out. */
  lemma CompletableExactly(c: Channel, calls: seq<Call>, image: seq<byte>, now: nat)
    requires Started(c, |image|) && Honest(calls, image) && Open(Run(c, calls)) && InTime(Run(c, calls), now)
    ensures Completable(Run(c, calls), image, now) <==> !Overdue(Run(c, calls), now)
  {
    SessionInv(c, calls, image);
    SessionAnswers(c, calls, image);
    var d := Run(c, calls);
    if Overdue(d, now) {
      forall more: seq<Call> | NotBefore(more, now) ensures !Run(d, more).selecting {
        OverdueNeverEnds(d, more, now);
      }
    } else {
      var served := CompleteFrom(d, image, now, []);
      var more := served + [CallSelect(now)];
      assert more[..|more| - 1] == served;
      assert Honest(more, image) && NotBefore(more, now) && Run(d, more).selecting;
    }
  }

  /** So for every size there is a session that is selected in the end. */
  lemma EverySizeCompletes(c: Channel, image: seq<byte>, tag: seq<byte>) returns (calls: seq<Call>)
    requires Started(c, |image|) && |image| <= UINT32_MAX
    ensures Honest(calls, image) && Select(Run(c, calls), c.lastNow).1 && Delivered(c, calls) == image
  {
    calls := CompleteFrom(c, image, c.lastNow, tag);
    SessionInv(c, calls, image);
    DoneShape(c, calls, image);
  }

  // ------------------------------------------------------------------- the clock

  lemma ClockStep(c: Channel, call: Call)
    requires c.active
    ensures Step(c, call).0.active && c.lastNow <= Step(c, call).0.lastNow <= Max(c.lastNow, call.now)
  {
  }

  /** mqtt_ota_transfer.c reads the clock inside its critical section, so the
      calls see times that never go back. Then a latched timeout is never
      spurious: a deadline had really passed. */
  lemma {:induction false} TimeoutIsReal(c: Channel, calls: seq<Call>)
    requires c.active && !c.error.Timeout?
    requires forall i :: 0 <= i < |calls| ==> c.lastNow <= calls[i].now
    requires forall i, j :: 0 <= i < j < |calls| ==> calls[i].now <= calls[j].now
    ensures Run(c, calls).active
    ensures calls != [] ==> Run(c, calls).lastNow <= calls[|calls| - 1].now
    ensures Run(c, calls).error.Timeout? ==>
              calls != [] && calls[|calls| - 1].now >= Min(Run(c, calls).idleDeadline, Run(c, calls).totalDeadline)
    decreases |calls|
  {
    if calls != [] {
      var n := |calls| - 1;
      TimeoutIsReal(c, calls[..n]);
      if n > 0 { assert calls[..n][n - 1] == calls[n - 1]; }
      ClockStep(Run(c, calls[..n]), calls[n]);
      TimeoutStep(Run(c, calls[..n]), calls[n]);
    }
  }

  lemma TimeoutStep(c: Channel, call: Call)
    requires c.active && c.lastNow <= call.now
    ensures var d := Step(c, call).0;
            d.error.Timeout? ==>
              && d.idleDeadline == c.idleDeadline && d.totalDeadline == c.totalDeadline
              && (c.error.Timeout? || call.now >= Min(c.idleDeadline, c.totalDeadline))
  {
  }
}
