/** esp_base_business.c: the counted bodies, the pause switch and the 100 ms
    window. */
module Business {
  import opened Common

  const INT32_MAX: nat := 0x7fff_ffff
  const EVENT_LIMIT: nat := 4096
  const WINDOW_MS: nat := 100

  datatype Mode = Idle | Active | Paused

  datatype Status = Status(count: nat, mode: Mode, deadline: nat)

  const RESET := Status(0, Idle, 0)

  function ModeNumber(m: Mode): int {
    match m case Idle => 0 case Active => 1 case Paused => 2
  }

  /** ebase_business_poll(). */
  function Poll(s: Status, now: nat): Status {
    if s.mode.Active? && now >= s.deadline then s.(mode := Idle, deadline := 0) else s
  }

  /** ebase_business_event(): the new state and the result code. */
  function Event(s0: Status, bytes: seq<byte>, now: nat): (Status, int) {
    if bytes == [] || |bytes| > EVENT_LIMIT then (s0, -1)
    else
      var s := Poll(s0, now);
      match bytes[0]
      case 1 => Count(s, |bytes| - 1, now)
      case 2 => if |bytes| != 1 then (s, -1) else (s.(mode := Paused, deadline := 0), s.count as int)
      case 3 => if |bytes| != 1 || !s.mode.Paused? then (s, -1) else (s.(mode := Idle), s.count as int)
      case 4 => (s, if |bytes| == 1 then ModeNumber(s.mode) else -1)
      case 5 => (s, if |bytes| == 1 then s.count as int else -1)
      case _ => (s, -1)
  }

  function Count(s: Status, body: nat, now: nat): (Status, int) {
    if body == 0 then (s, -1)
    else if s.mode.Paused? then (s, -2)
    else if s.count + body > INT32_MAX then (s, -3)
    else if s.mode.Idle? && now > UINT64_MAX - WINDOW_MS then (s, -4)
    else
      var opened_ := if s.mode.Idle? then s.(mode := Active, deadline := now + WINDOW_MS) else s;
      (opened_.(count := s.count + body), s.count + body)
  }

  /** The object the control owner updates. */
  class Counter {
    var byteCount: u32
    var mode: Mode
    var deadline: u64

    constructor ()
      ensures Value() == RESET && Valid()
    {
      byteCount, mode, deadline := 0, Idle, 0;
    }

    ghost predicate Valid()
      reads this
    {
      Inv(Value())
    }

    ghost function Value(): Status
      reads this
    {
      Status(byteCount, mode, deadline)
    }

    method PollWindow(now: u64)
      requires Valid()
      modifies this
      ensures Valid() && Value() == Poll(old(Value()), now)
    {
      if mode.Active? && now >= deadline {
        mode := Idle;
        deadline := 0;
      }
    }

    method HandleEvent(bytes: seq<byte>, now: u64) returns (result: int)
      requires Valid()
      modifies this
      ensures Valid() && (Value(), result) == Event(old(Value()), bytes, now)
    {
      if |bytes| == 0 || |bytes| > EVENT_LIMIT { return -1; }
      PollWindow(now);
      if bytes[0] == 1 {
        result := CountBody(|bytes| - 1, now);
      } else if bytes[0] == 2 {
        if |bytes| != 1 { return -1; }
        deadline := 0;
        mode := Paused;
        return byteCount;
      } else if bytes[0] == 3 {
        if |bytes| != 1 || mode != Paused { return -1; }
        mode := Idle;
        return byteCount;
      } else if bytes[0] == 4 {
        return if |bytes| == 1 then ModeNumber(mode) else -1;
      } else if bytes[0] == 5 {
        return if |bytes| == 1 then byteCount else -1;
      } else {
        return -1;
      }
    }

    method CountBody(body: nat, now: u64) returns (result: int)
      requires Valid() && body < EVENT_LIMIT
      modifies this
      ensures Valid() && (Value(), result) == Count(old(Value()), body, now)
    {
      if body == 0 { return -1; }
      if mode == Paused { return -2; }
      if body > INT32_MAX - byteCount { return -3; }
      if mode == Idle {
        if now > UINT64_MAX - WINDOW_MS { return -4; }
        deadline := now + WINDOW_MS;
        mode := Active;
      }
      byteCount := byteCount + body;
      return byteCount;
    }
  }

  // ------------------------------------------------------------------- theorems

  /** The window is open exactly when its deadline is set. */
  predicate Inv(s: Status) {
    s.count <= INT32_MAX && s.deadline <= UINT64_MAX && (s.mode.Active? <==> s.deadline != 0)
  }

  datatype Op = Deliver(bytes: seq<byte>, now: nat) | Tick(now: nat)

  function Step(s: Status, op: Op): (Status, int) {
    match op
    case Deliver(bytes, now) => Event(s, bytes, now)
    case Tick(now) => (Poll(s, now), 0)
  }

  /** Bytes a step adds: the body of a count event that was not refused. */
  function Counted(op: Op, result: int): nat {
    if op.Deliver? && op.bytes != [] && op.bytes[0] == 1 && result >= 0 then |op.bytes| - 1 else 0
  }

  lemma StepKeeps(s: Status, op: Op)
    requires Inv(s)
    ensures var (t, r) := Step(s, op);
            && Inv(t) && t.count == s.count + Counted(op, r)
            && (t.mode.Active? && (op.Tick? || 0 < |op.bytes| <= EVENT_LIMIT) ==> op.now < t.deadline)
  {
  }

  function Run(s: Status, ops: seq<Op>): Status
    decreases |ops|
  {
    if ops == [] then s else Run(Step(s, ops[0]).0, ops[1..])
  }

  /** The codes returned during a run. */
  function Results(s: Status, ops: seq<Op>): (r: seq<int>)
    ensures |r| == |ops|
    decreases |ops|
  {
    if ops == [] then [] else [Step(s, ops[0]).1] + Results(Step(s, ops[0]).0, ops[1..])
  }

  function BodySum(ops: seq<Op>, results: seq<int>): nat
    requires |ops| == |results|
  {
    if ops == [] then 0 else Counted(ops[0], results[0]) + BodySum(ops[1..], results[1..])
  }

  /** Over every run the counter is the sum of the bodies reported as counted, and
      never passes INT32_MAX. */
  lemma {:induction false} CountIsSumOfBodies(s: Status, ops: seq<Op>)
    requires Inv(s)
    ensures Inv(Run(s, ops))
    ensures Run(s, ops).count == s.count + BodySum(ops, Results(s, ops))
    decreases |ops|
  {
    if ops != [] {
      StepKeeps(s, ops[0]);
      var t := Step(s, ops[0]).0;
      CountIsSumOfBodies(t, ops[1..]);
      assert Results(s, ops)[1..] == Results(t, ops[1..]);
    }
  }

  /** A count is refused exactly when it is empty or too long, the device is
      paused, the total would overflow, or a new window has no deadline. */
  lemma CountRefused(s: Status, bytes: seq<byte>, now: nat)
    requires Inv(s) && bytes != [] && bytes[0] == 1
    ensures Event(s, bytes, now).1 < 0 <==>
              || |bytes| == 1 || |bytes| > EVENT_LIMIT || s.mode.Paused? || s.count + |bytes| - 1 > INT32_MAX
              || ((s.mode.Idle? || now >= s.deadline) && now > UINT64_MAX - WINDOW_MS)
  {
  }
}
