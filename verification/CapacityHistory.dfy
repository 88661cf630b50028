/** analyze_capacity.py: which logs are accepted, and what an accepted log of any
    length proves about all its frames. */
module CapacityHistory {
  import opened Common
  import opened CapacityBounds
  import Mqtt = CapacityMqtt

  const HEAP_GATE_BYTES: nat := 16384
  const LARGEST_GATE_BYTES: nat := 24576
  const STACK_GATE_BYTES: nat := 1024
  const TASK_LIMIT: nat := 32

  /** `name` is the fixed-width task name in hexadecimal. */
  datatype Task = Task(instance: nat, name: string, minStack: nat, state: nat)

  datatype Domain = Domain(caps: Caps, alignment: nat, free: nat, largest: nat, history: string)

  const HISTORY := "region_minima_conservative_bound"

  datatype End = End(
    regions: nat, tasks: nat, created: nat, finalized: nat, completedMin: nat, worst: nat,
    minStack: nat, complete: bool, countersValid: bool, factsValid: bool, workspace: nat, addedBack: nat)

  datatype Readout = Readout(
    schema: nat, frame: nat, uptime: nat, beforeReset: bool, taskLimit: nat, mqtt: Option<Mqtt.Row>,
    regions: seq<Region>, tasks: seq<Task>, domains: seq<Domain>, end: End)

  function Instances(tasks: seq<Task>): set<nat> {
    set i | 0 <= i < |tasks| :: tasks[i].instance
  }

  // ------------------------------------------------------------------ one frame

  predicate RegionOk(r: Region) {
    && r.start < r.end && r.start % 4 == 0 && r.end % 4 == 0 && AllCaps(r) != {}
    && r.minLargest <= r.largest <= r.free && r.minLargest <= r.minFree <= r.free
    && 0 < r.metadata && r.metadata + r.free <= r.end - r.start
    && AliasOk(r)
  }

  predicate AliasOk(r: Region) {
    var a := r.alias;
    if a.start == 0 && a.end == 0 then !a.inverted
    else a.start < a.end && a.start % 4 == 0 && a.end % 4 == 0 && a.end - a.start == r.end - r.start
  }

  /** Sorted by start, no region overlaps the next: no two overlap. */
  predicate Disjoint(regions: seq<Region>) {
    forall i, j :: 0 <= i < j < |regions| ==> regions[i].end <= regions[j].start || regions[j].end <= regions[i].start
  }

  predicate DomainsOk(f: Readout) {
    && |f.domains| == |DOMAIN_CAPS|
    && forall d :: 0 <= d < |DOMAIN_CAPS| ==>
         && f.domains[d].caps == DOMAIN_CAPS[d] && f.domains[d].alignment == 4 && f.domains[d].history == HISTORY
         && f.domains[d].free == FreeBound(f.regions, DOMAIN_CAPS[d]) <= UINT32_MAX
         && f.domains[d].largest == LargestBound(f.regions, DOMAIN_CAPS[d])
  }

  /** The reported stack minimum covers every live and every finished task. */
  predicate StackMinimum(m: nat, tasks: seq<Task>, e: End) {
    && (forall i :: 0 <= i < |tasks| ==> m <= tasks[i].minStack)
    && (e.finalized > 0 ==> m <= e.completedMin)
    && ((exists i :: 0 <= i < |tasks| && tasks[i].minStack == m) || (e.finalized > 0 && m == e.completedMin)
        || (tasks == [] && e.finalized == 0 && m == 0))
  }

  predicate TasksOk(f: Readout) {
    var e := f.end;
    && e.tasks == |f.tasks| <= f.taskLimit == TASK_LIMIT
    && e.finalized <= e.created < UINT32_MAX
    && e.complete == (f.tasks != [] && e.created - e.finalized == |f.tasks|)
    && (!e.complete ==> e.created - e.finalized > |f.tasks| && (f.tasks == [] ==> e.created - e.finalized > f.taskLimit))
    && (e.finalized == 0 ==> e.completedMin == 0 && e.worst == 0) && (e.finalized > 0 ==> e.worst != 0)
    && (forall i :: 0 <= i < |f.tasks| ==> f.tasks[i].instance != 0 && f.tasks[i].state <= 4 && HexPairs(f.tasks[i].name))
    && (forall i :: 0 <= i < |f.tasks| ==> |f.tasks[i].name| == |f.tasks[0].name|)
    && (forall i, j :: 0 <= i < j < |f.tasks| ==> f.tasks[i].instance != f.tasks[j].instance)
    && (e.finalized > 0 ==> e.worst !in Instances(f.tasks))
    && StackMinimum(e.minStack, f.tasks, e) && e.addedBack == 0
  }

  /** One or more bytes in lower-case hexadecimal. */
  predicate HexPairs(name: string) {
    && name != "" && |name| % 2 == 0
    && forall k :: 0 <= k < |name| ==> '0' <= name[k] <= '9' || 'a' <= name[k] <= 'f'
  }

  /** Schema 2 frames carry one MQTT row, schema 1 frames none. */
  predicate MqttOk(f: Readout) {
    if f.schema == 1 then f.mqtt.None? else f.schema == 2 && f.mqtt.Some? && Mqtt.RowOk(f.mqtt.value, f.uptime)
  }

  /** _finish(). */
  predicate FrameOk(f: Readout) {
    && MqttOk(f) && 0 < f.frame < UINT32_MAX && f.regions != [] && f.end.regions == |f.regions|
    && f.end.countersValid && f.end.factsValid && f.end.workspace > 0
    && (forall i :: 0 <= i < |f.regions| ==> RegionOk(f.regions[i])) && Disjoint(f.regions)
    && DomainsOk(f) && TasksOk(f)
  }

  // ---------------------------------------------------------- successive frames

  /** Fields of a region that never change. */
  predicate SameIdentity(a: Region, b: Region) {
    && a.start == b.start && a.end == b.end && a.caps == b.caps && a.alias == b.alias
    && a.atHeapInit == b.atHeapInit && a.metadata == b.metadata
  }

  predicate HasStart(regions: seq<Region>, start: nat) {
    exists i :: 0 <= i < |regions| && regions[i].start == start
  }

  predicate Continues(a: Region, b: Region) {
    a.start == b.start ==> SameIdentity(a, b) && b.minFree <= a.minFree && b.minLargest <= a.minLargest
  }

  predicate RegionsContinue(old_: seq<Region>, now: seq<Region>) {
    && (forall i :: 0 <= i < |old_| ==> HasStart(now, old_[i].start))
    && (forall i, j :: 0 <= i < |old_| && 0 <= j < |now| ==> Continues(old_[i], now[j]))
    && (forall j :: 0 <= j < |now| ==> HasStart(old_, now[j].start) || !now[j].atHeapInit)
  }

  /** _check_readout_history(). */
  predicate ReadoutContinues(a: Readout, b: Readout) {
    && b.schema == a.schema && b.frame == a.frame + 1 && b.uptime > a.uptime && !a.beforeReset
    && RegionsContinue(a.regions, b.regions)
    && b.end.created >= a.end.created && b.end.finalized >= a.end.finalized && b.end.workspace == a.end.workspace
    && (a.end.finalized > 0 ==>
          && b.end.completedMin <= a.end.completedMin
          && (b.end.completedMin == a.end.completedMin ==> b.end.worst == a.end.worst))
    && (b.end.finalized == a.end.finalized ==> b.end.completedMin == a.end.completedMin && b.end.worst == a.end.worst)
  }

  // ----------------------------------------------------- history carried forward

  /** The state the frame loop carries: previous frame, previous complete frame,
      last row seen of every task instance, instances known to be gone, the last
      MQTT row of a running instance and the width of task names. */
  datatype Carry = Carry(
    previous: Option<Readout>, complete: Option<Readout>, seen: map<nat, Task>, retired: set<nat>,
    mqtt: Option<Mqtt.Row>, width: Option<nat>)

  const NOTHING := Carry(None, None, map[], {}, None, None)

  predicate HasMqtt(f: Readout) {
    f.mqtt.Some? && f.mqtt.value.available
  }

  predicate MqttContinues(c: Carry, f: Readout) {
    HasMqtt(f) && c.mqtt.Some? ==> Mqtt.Follows(c.mqtt.value, f.mqtt.value)
  }

  predicate WidthContinues(c: Carry, f: Readout) {
    f.tasks != [] && c.width.Some? ==> |f.tasks[0].name| == c.width.value
  }

  /** Retired after a complete snapshot has been compared with the one before. */
  function Gone(c: Carry, f: Readout): set<nat> {
    c.retired + if c.complete.Some? then Instances(c.complete.value.tasks) - Instances(f.tasks) else {}
  }

  predicate TaskContinues(seen: map<nat, Task>, t: Task) {
    t.instance in seen ==> seen[t.instance].name == t.name && t.minStack <= seen[t.instance].minStack
  }

  /** _check_complete_task_history() and the test after it. */
  predicate CompleteContinues(c: Carry, f: Readout) {
    && (forall i :: 0 <= i < |f.tasks| ==> f.tasks[i].instance !in Gone(c, f))
    && (c.complete.Some? ==>
          && var p := c.complete.value;
          && f.end.minStack <= p.end.minStack
          && |Instances(f.tasks) - Instances(p.tasks)| <= f.end.created - p.end.created
          && |Instances(p.tasks) - Instances(f.tasks)| <= f.end.finalized - p.end.finalized
          && forall i :: 0 <= i < |f.tasks| ==> TaskContinues(c.seen, f.tasks[i]))
  }

  function Rows(tasks: seq<Task>): map<nat, Task> {
    if tasks == [] then map[]
    else Rows(tasks[..|tasks| - 1])[tasks[|tasks| - 1].instance := tasks[|tasks| - 1]]
  }

  predicate StepOk(c: Carry, f: Readout) {
    && FrameOk(f) && MqttContinues(c, f) && WidthContinues(c, f) && (c.previous.Some? ==> ReadoutContinues(c.previous.value, f))
    && (f.end.complete ==> CompleteContinues(c, f))
  }

  function After(c: Carry, f: Readout): Carry {
    var worst := if f.end.finalized > 0 then {f.end.worst} else {};
    Carry(
      Some(f),
      if f.end.complete then Some(f) else c.complete,
      if f.end.complete then c.seen + Rows(f.tasks) else c.seen,
      (if f.end.complete then Gone(c, f) else c.retired) + worst,
      if HasMqtt(f) then f.mqtt else c.mqtt,
      if f.tasks != [] then Some(|f.tasks[0].name|) else c.width)
  }

  function CarryAfter(fs: seq<Readout>): Carry {
    if fs == [] then NOTHING else After(CarryAfter(fs[..|fs| - 1]), fs[|fs| - 1])
  }

  /** The logs the analyzer does not reject. */
  predicate Accepted(fs: seq<Readout>) {
    forall i :: 0 <= i < |fs| ==> AcceptedAt(fs, i)
  }

  predicate AcceptedAt(fs: seq<Readout>, i: nat)
    requires i < |fs|
  {
    StepOk(CarryAfter(fs[..i]), fs[i])
  }

  datatype Gates = Gates(heap: bool, largest: bool, stack: bool)

  function GatesOf(last: Option<Readout>): Gates {
    if last.None? || |last.value.domains| != |DOMAIN_CAPS| then Gates(false, false, false)
    else
      var f := last.value;
      Gates(f.domains[0].free >= HEAP_GATE_BYTES, f.domains[0].largest >= LARGEST_GATE_BYTES, f.end.minStack >= STACK_GATE_BYTES)
  }

  /** The frame loop of analyze(). */
  method Analyze(fs: seq<Readout>) returns (gates: Option<Gates>)
    ensures gates.Some? <==> fs != [] && Accepted(fs)
    ensures gates.Some? ==> gates.value == GatesOf(CarryAfter(fs).complete)
  {
    var c := NOTHING;
    for i := 0 to |fs|
      invariant c == CarryAfter(fs[..i])
      invariant forall k :: 0 <= k < i ==> AcceptedAt(fs, k)
    {
      assert fs[..i + 1][..i] == fs[..i];
      var ok := Check(c, fs, i);
      if !ok { return None; }
      c := Absorb(c, fs[i]);
    }
    assert fs[..|fs|] == fs;
    if fs == [] { return None; }
    return Some(GatesOf(c.complete));
  }

  method Check(c: Carry, fs: seq<Readout>, i: nat) returns (ok: bool)
    requires i < |fs| && c == CarryAfter(fs[..i])
    ensures ok <==> AcceptedAt(fs, i)
  {
    return StepOk(c, fs[i]);
  }

  /** The updates at the end of one frame. */
  method Absorb(c: Carry, f: Readout) returns (next: Carry)
    ensures next == After(c, f)
  {
    var complete, seen, retired := c.complete, c.seen, c.retired;
    if f.end.complete {
      if complete.Some? { retired := retired + (Instances(complete.value.tasks) - Instances(f.tasks)); }
      seen := seen + Rows(f.tasks);
      complete := Some(f);
    }
    if f.end.finalized > 0 { retired := retired + {f.end.worst}; }
    var mqtt, width := c.mqtt, c.width;
    if f.mqtt.Some? && f.mqtt.value.available { mqtt := f.mqtt; }
    if f.tasks != [] { width := Some(|f.tasks[0].name|); }
    next := Carry(Some(f), complete, seen, retired, mqtt, width);
  }

  // ------------------------------------------------------------ domain bounds

  /** Every counted region now was counted before, with minima at least as high. */
  predicate CoveredBy(now: seq<Region>, old_: seq<Region>, mask: Caps) {
    forall j :: 0 <= j < |now| && Counts(now[j], mask) ==> exists i :: 0 <= i < |old_| && Covers(old_[i], now[j], mask)
  }

  predicate Covers(a: Region, b: Region, mask: Caps) {
    a.start == b.start && Counts(a, mask) && b.minFree <= a.minFree && b.minLargest <= a.minLargest
  }

  predicate DistinctStarts(regions: seq<Region>) {
    forall i, j :: 0 <= i < j < |regions| ==> regions[i].start != regions[j].start
  }

  lemma ContinuedIsCovered(old_: seq<Region>, now: seq<Region>, mask: Caps)
    requires RegionsContinue(old_, now)
    ensures CoveredBy(now, old_, mask)
  {
    forall j | 0 <= j < |now| && Counts(now[j], mask)
      ensures exists i :: 0 <= i < |old_| && Covers(old_[i], now[j], mask)
    {
      var i :| 0 <= i < |old_| && old_[i].start == now[j].start;
      assert Continues(old_[i], now[j]);
      assert Covers(old_[i], now[j], mask);
    }
  }

  lemma {:induction false} FreeWithout(regions: seq<Region>, k: nat, mask: Caps)
    requires k < |regions| && Counts(regions[k], mask)
    ensures FreeBound(regions, mask) == FreeBound(regions[..k] + regions[k + 1..], mask) + regions[k].minFree
    decreases |regions|
  {
    var n := |regions| - 1;
    if k == n {
      assert regions[..k] + regions[k + 1..] == regions[..n];
    } else {
      FreeWithout(regions[..n], k, mask);
      var rest := regions[..k] + regions[k + 1..];
      assert rest[..|rest| - 1] == regions[..n][..k] + regions[..n][k + 1..];
    }
  }

  lemma {:induction false} CoveredFreeIsLess(now: seq<Region>, old_: seq<Region>, mask: Caps)
    requires CoveredBy(now, old_, mask) && DistinctStarts(now)
    ensures FreeBound(now, mask) <= FreeBound(old_, mask)
    decreases |now|
  {
    if now != [] {
      var n := |now| - 1;
      if Counts(now[n], mask) {
        var k :| 0 <= k < |old_| && Covers(old_[k], now[n], mask);
        var rest := old_[..k] + old_[k + 1..];
        FreeWithout(old_, k, mask);
        StillCovered(now, old_, k, mask);
        CoveredFreeIsLess(now[..n], rest, mask);
      } else {
        CoveredFreeIsLess(now[..n], old_, mask);
      }
    }
  }

  lemma StillCovered(now: seq<Region>, old_: seq<Region>, k: nat, mask: Caps)
    requires CoveredBy(now, old_, mask) && DistinctStarts(now) && now != [] && k < |old_|
    requires old_[k].start == now[|now| - 1].start
    ensures CoveredBy(now[..|now| - 1], old_[..k] + old_[k + 1..], mask)
  {
    var rest := old_[..k] + old_[k + 1..];
    forall j | 0 <= j < |now| - 1 && Counts(now[j], mask)
      ensures exists i :: 0 <= i < |rest| && Covers(rest[i], now[j], mask)
    {
      var i :| 0 <= i < |old_| && Covers(old_[i], now[j], mask);
      assert i != k;
      var at := if i < k then i else i - 1;
      assert rest[at] == old_[i];
    }
  }

  lemma {:induction false} LargestIsUpper(regions: seq<Region>, mask: Caps, i: nat)
    requires i < |regions| && Counts(regions[i], mask)
    ensures regions[i].minLargest <= LargestBound(regions, mask)
    decreases |regions|
  {
    if i < |regions| - 1 { LargestIsUpper(regions[..|regions| - 1], mask, i); }
  }

  lemma {:induction false} CoveredLargestIsLess(now: seq<Region>, old_: seq<Region>, mask: Caps)
    requires CoveredBy(now, old_, mask)
    ensures LargestBound(now, mask) <= LargestBound(old_, mask)
    decreases |now|
  {
    if now != [] {
      var n := |now| - 1;
      CoveredLargestIsLess(now[..n], old_, mask);
      if Counts(now[n], mask) {
        var k :| 0 <= k < |old_| && Covers(old_[k], now[n], mask);
        LargestIsUpper(old_, mask, k);
      }
    }
  }

  /** One accepted step never raises a domain bound. */
  lemma StepLowersBounds(a: Readout, b: Readout, d: nat)
    requires FrameOk(a) && FrameOk(b) && ReadoutContinues(a, b) && d < |DOMAIN_CAPS|
    ensures b.domains[d].free <= a.domains[d].free && b.domains[d].largest <= a.domains[d].largest
  {
    ContinuedIsCovered(a.regions, b.regions, DOMAIN_CAPS[d]);
    CoveredFreeIsLess(b.regions, a.regions, DOMAIN_CAPS[d]);
    CoveredLargestIsLess(b.regions, a.regions, DOMAIN_CAPS[d]);
  }

  lemma PreviousIsLast(fs: seq<Readout>)
    requires fs != []
    ensures CarryAfter(fs).previous == Some(fs[|fs| - 1])
  {
  }

  lemma FramesContinue(fs: seq<Readout>, i: nat)
    requires Accepted(fs) && i < |fs|
    ensures FrameOk(fs[i]) && (i > 0 ==> FrameOk(fs[i - 1]) && ReadoutContinues(fs[i - 1], fs[i]))
  {
    assert AcceptedAt(fs, i);
    if i > 0 {
      PreviousIsLast(fs[..i]);
      assert AcceptedAt(fs, i - 1);
    }
  }

  /** Frame b reports no higher bounds for domain d than frame a. */
  predicate NoHigher(a: Readout, b: Readout, d: nat) {
    && d < |a.domains| && d < |b.domains|
    && b.domains[d].free <= a.domains[d].free && b.domains[d].largest <= a.domains[d].largest
  }

  lemma NeighbourBounds(fs: seq<Readout>, i: nat, d: nat)
    requires Accepted(fs) && i < |fs| && d < |DOMAIN_CAPS|
    ensures |fs[i].domains| == |DOMAIN_CAPS| && (i > 0 ==> NoHigher(fs[i - 1], fs[i], d))
  {
    FramesContinue(fs, i);
    if i > 0 { StepLowersBounds(fs[i - 1], fs[i], d); }
  }

  /** For any accepted log the bounds of every domain never rise. */
  lemma {:induction false} BoundsNeverRise(fs: seq<Readout>, i: nat, j: nat, d: nat)
    requires Accepted(fs) && i <= j < |fs| && d < |DOMAIN_CAPS|
    ensures |fs[i].domains| == |fs[j].domains| == |DOMAIN_CAPS| && NoHigher(fs[i], fs[j], d)
    decreases j - i
  {
    NeighbourBounds(fs, i, d);
    NeighbourBounds(fs, j, d);
    if i < j { BoundsNeverRise(fs, i, j - 1, d); }
  }

  // -------------------------------------------------------------- stacks, tasks

  /** The last complete frame of a log. */
  lemma {:induction false} CompleteIsThere(fs: seq<Readout>) returns (k: nat)
    requires CarryAfter(fs).complete.Some?
    ensures k < |fs| && fs[k] == CarryAfter(fs).complete.value && fs[k].end.complete
    ensures forall i :: k < i < |fs| ==> !fs[i].end.complete
    decreases |fs|
  {
    var n := |fs| - 1;
    if fs[n].end.complete { return n; }
    k := CompleteIsThere(fs[..n]);
  }

  lemma {:induction false} CompleteExists(fs: seq<Readout>, i: nat)
    requires i < |fs| && fs[i].end.complete
    ensures CarryAfter(fs).complete.Some?
    decreases |fs|
  {
    var n := |fs| - 1;
    if i < n { CompleteExists(fs[..n], i); }
  }

  /** Over complete snapshots the stack minimum never rises. */
  lemma {:induction false} StackNeverRises(fs: seq<Readout>, i: nat, j: nat)
    requires Accepted(fs) && i <= j < |fs| && fs[i].end.complete && fs[j].end.complete
    ensures fs[j].end.minStack <= fs[i].end.minStack
    decreases j
  {
    if i < j {
      var past := fs[..j];
      assert AcceptedAt(fs, j);
      CompleteExists(past, i);
      var k := CompleteIsThere(past);
      assert past[i] == fs[i] && past[k] == fs[k];
      StackNeverRises(fs, i, k);
    }
  }

  /** Finished tasks: their number never falls, and once there is one their
      stack minimum never rises. */
  lemma {:induction false} FinishedNeverRise(fs: seq<Readout>, i: nat, j: nat)
    requires Accepted(fs) && i <= j < |fs|
    ensures fs[i].end.finalized <= fs[j].end.finalized
    ensures fs[i].end.finalized > 0 ==> fs[j].end.completedMin <= fs[i].end.completedMin
    decreases j - i
  {
    if i < j {
      FinishedNeverRise(fs, i, j - 1);
      FramesContinue(fs, j);
    }
  }

  /** Every row of the frame passes the stack gate, and there is something to
      take a minimum of. */
  predicate RowsPassStack(f: Readout) {
    && (forall k :: 0 <= k < |f.tasks| ==> f.tasks[k].minStack >= STACK_GATE_BYTES)
    && !(f.tasks == [] && f.end.finalized == 0)
  }

  /** A gate passed at the last complete frame: both heap gates held at every
      earlier frame; the stack gate held at an earlier frame if and only if the
      task rows of that frame pass it. At complete frames it always did. */
  lemma GatesHeldThroughout(fs: seq<Readout>, i: nat)
    requires Accepted(fs) && CarryAfter(fs).complete.Some?
    requires i < |fs| && exists k :: i <= k < |fs| && fs[k].end.complete
    ensures |fs[i].domains| == |DOMAIN_CAPS|
    ensures var g := GatesOf(CarryAfter(fs).complete);
            && (g.heap ==> fs[i].domains[0].free >= HEAP_GATE_BYTES)
            && (g.largest ==> fs[i].domains[0].largest >= LARGEST_GATE_BYTES)
            && (g.stack ==> (fs[i].end.minStack >= STACK_GATE_BYTES <==> RowsPassStack(fs[i])))
            && (g.stack && fs[i].end.complete ==> fs[i].end.minStack >= STACK_GATE_BYTES)
  {
    var last := CompleteIsThere(fs);
    var k :| i <= k < |fs| && fs[k].end.complete;
    BoundsNeverRise(fs, i, last, 0);
    GatesOfLast(fs, last);
    if fs[i].end.complete { StackNeverRises(fs, i, last); }
    if fs[last].end.minStack >= STACK_GATE_BYTES { StackGateAt(fs, i, last); }
  }

  lemma GatesOfLast(fs: seq<Readout>, last: nat)
    requires Accepted(fs) && last < |fs| && CarryAfter(fs).complete == Some(fs[last])
    ensures |fs[last].domains| == |DOMAIN_CAPS|
    ensures GatesOf(CarryAfter(fs).complete)
         == Gates(fs[last].domains[0].free >= HEAP_GATE_BYTES, fs[last].domains[0].largest >= LARGEST_GATE_BYTES,
                  fs[last].end.minStack >= STACK_GATE_BYTES)
  {
    NeighbourBounds(fs, last, 0);
  }

  lemma StackGateAt(fs: seq<Readout>, i: nat, last: nat)
    requires Accepted(fs) && i <= last < |fs| && fs[last].end.minStack >= STACK_GATE_BYTES
    ensures fs[i].end.minStack >= STACK_GATE_BYTES <==> RowsPassStack(fs[i])
  {
    FinishedNeverRise(fs, i, last);
    FramesContinue(fs, i);
    FramesContinue(fs, last);
    assert StackMinimum(fs[last].end.minStack, fs[last].tasks, fs[last].end);
    assert StackMinimum(fs[i].end.minStack, fs[i].tasks, fs[i].end);
  }

  // ------------------------------------------- an earlier frame below the gate

  const WITNESS_REGION := Region(4096, 8192, [{0}], Alias(0, 0, false), true, 0, 0, 0, 0, 16)

  const WITNESS_DOMAINS := seq(|DOMAIN_CAPS|, d requires 0 <= d < |DOMAIN_CAPS| => Domain(DOMAIN_CAPS[d], 4, 0, 0, HISTORY))

  /** Three tasks were created; the listing shows one, with 100 bytes of stack left. */
  const EARLIER := Readout(1, 1, 1, false, TASK_LIMIT, None, [WITNESS_REGION], [Task(7, "61", 100, 0)],
    WITNESS_DOMAINS, End(1, 1, 3, 0, 0, 0, 100, false, true, true, 1, 0))

  /** That task has finished, reporting more stack than its row had; two remain. */
  const LATER := Readout(1, 2, 2, false, TASK_LIMIT, None, [WITNESS_REGION],
    [Task(8, "62", 2000, 0), Task(9, "63", 2000, 0)],
    WITNESS_DOMAINS, End(1, 2, 3, 1, 5000, 7, 2000, true, true, true, 1, 0))

  lemma WitnessBounds(mask: Caps)
    requires mask in DOMAIN_CAPS
    ensures FreeBound([WITNESS_REGION], mask) == 0 && LargestBound([WITNESS_REGION], mask) == 0
    ensures RegionOk(WITNESS_REGION)
  {
    assert 0 in WITNESS_REGION.caps[0];
    assert 0 in AllCaps(WITNESS_REGION);
    assert [WITNESS_REGION][..0] == [];
  }

  lemma WitnessFramesOk()
    ensures FrameOk(EARLIER) && FrameOk(LATER)
  {
    forall d | 0 <= d < |DOMAIN_CAPS| ensures FreeBound([WITNESS_REGION], DOMAIN_CAPS[d]) == 0
                                           && LargestBound([WITNESS_REGION], DOMAIN_CAPS[d]) == 0 {
      WitnessBounds(DOMAIN_CAPS[d]);
    }
    WitnessBounds(DOMAIN_CAPS[0]);
    WitnessStacks();
  }

  lemma WitnessStacks()
    ensures TasksOk(EARLIER) && TasksOk(LATER)
  {
    assert EARLIER.tasks[0].minStack == 100;
    assert LATER.tasks[0].minStack == 2000;
    forall x | x in Instances(LATER.tasks) ensures x != 7 {
      var k :| 0 <= k < |LATER.tasks| && LATER.tasks[k].instance == x;
    }
  }

  /** The stack gate can pass at the last frame of an accepted log although an
      earlier frame reported a task far below it: the analyzer compares stack
      minima only between complete frames. */
  lemma StackGateMayFailEarlier()
    ensures Accepted([EARLIER, LATER]) && GatesOf(CarryAfter([EARLIER, LATER]).complete).stack
    ensures EARLIER.end.minStack < STACK_GATE_BYTES
  {
    var fs := [EARLIER, LATER];
    WitnessFramesOk();
    assert fs[..0] == [] && fs[..1] == [EARLIER] && [EARLIER][..0] == [];
    assert CarryAfter([EARLIER]) == After(NOTHING, EARLIER);
    assert HasStart([WITNESS_REGION], [WITNESS_REGION][0].start);
    assert RegionsContinue([WITNESS_REGION], [WITNESS_REGION]);
    assert AcceptedAt(fs, 0);
    assert AcceptedAt(fs, 1);
    assert CarryAfter(fs).complete == Some(LATER);
  }

  // ------------------------------------------------- MQTT rows and name widths

  lemma {:induction false} CarriedMqtt(fs: seq<Readout>) returns (k: nat)
    requires CarryAfter(fs).mqtt.Some?
    ensures k < |fs| && HasMqtt(fs[k]) && fs[k].mqtt == CarryAfter(fs).mqtt
    ensures forall i :: k < i < |fs| ==> !HasMqtt(fs[i])
    decreases |fs|
  {
    var n := |fs| - 1;
    if HasMqtt(fs[n]) { return n; }
    k := CarriedMqtt(fs[..n]);
  }

  lemma {:induction false} MqttExists(fs: seq<Readout>, i: nat)
    requires i < |fs| && HasMqtt(fs[i])
    ensures CarryAfter(fs).mqtt.Some?
    decreases |fs|
  {
    var n := |fs| - 1;
    if i < n && !HasMqtt(fs[n]) { MqttExists(fs[..n], i); }
  }

  /** In an accepted log of any length no runtime instance comes back, and within
      one instance counters and the ranked peak never fall. */
  lemma {:induction false} MqttNeverFalls(fs: seq<Readout>, i: nat, j: nat)
    requires Accepted(fs) && i < j < |fs| && HasMqtt(fs[i]) && HasMqtt(fs[j])
    ensures Mqtt.Follows(fs[i].mqtt.value, fs[j].mqtt.value)
    decreases j
  {
    var past := fs[..j];
    assert AcceptedAt(fs, j);
    assert past[i] == fs[i];
    MqttExists(past, i);
    var k := CarriedMqtt(past);
    assert past[k] == fs[k];
    if i < k {
      MqttNeverFalls(fs, i, k);
      Mqtt.FollowsTrans(fs[i].mqtt.value, fs[k].mqtt.value, fs[j].mqtt.value);
    }
  }

  lemma {:induction false} CarriedWidth(fs: seq<Readout>, i: nat)
    requires Accepted(fs) && i < |fs| && fs[i].tasks != []
    ensures CarryAfter(fs).width == Some(|fs[i].tasks[0].name|)
    decreases |fs|
  {
    var n := |fs| - 1;
    if i < n {
      forall k | 0 <= k < n ensures AcceptedAt(fs[..n], k) {
        assert fs[..n][..k] == fs[..k];
        assert AcceptedAt(fs, k);
      }
      CarriedWidth(fs[..n], i);
      assert AcceptedAt(fs, n);
    }
  }

  /** All task names of an accepted log have one width. */
  lemma OneNameWidth(fs: seq<Readout>, i: nat, a: nat, j: nat, b: nat)
    requires Accepted(fs) && i < |fs| && j < |fs| && a < |fs[i].tasks| && b < |fs[j].tasks|
    ensures |fs[i].tasks[a].name| == |fs[j].tasks[b].name|
  {
    CarriedWidth(fs, i);
    CarriedWidth(fs, j);
    FramesContinue(fs, i);
    FramesContinue(fs, j);
  }

  lemma {:induction false} RetiredGrows(fs: seq<Readout>, n: nat)
    requires n <= |fs|
    ensures CarryAfter(fs[..n]).retired <= CarryAfter(fs).retired
    decreases |fs| - n
  {
    if n == |fs| {
      assert fs[..n] == fs;
    } else {
      assert fs[..n + 1][..n] == fs[..n];
      RetiredGrows(fs, n + 1);
    }
  }

  /** A task instance missing from a complete snapshot that follows one with it,
      or reported as finished, is in no later complete snapshot. */
  lemma RetiredStaysAway(fs: seq<Readout>, n: nat, j: nat, x: nat)
    requires Accepted(fs) && n <= j < |fs| && fs[j].end.complete && x in CarryAfter(fs[..n]).retired
    ensures x !in Instances(fs[j].tasks)
  {
    RetiredGrows(fs[..j], n);
    assert fs[..j][..n] == fs[..n];
    assert AcceptedAt(fs, j);
  }
}
