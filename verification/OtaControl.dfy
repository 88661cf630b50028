/** The control owner over the durable update protocol: one device on which app_main,
    the control task and the update worker run, and power may be cut between any two
    durable steps. What an answer to ota.start tells about the receipt and the slots,
    and who holds the storage transaction while they change. */
module OtaControl {
  import opened Common
  import opened OtaSlots
  import Receipts = OtaReceipt
  import Device = OtaProtocol
  import Safe = OtaInvariant
  import Recovery = OtaRecovery
  import Control = ControlSpec
  import Runs = ControlRuns
  import ConfigControl
  import opened ConfigFormat

  /** Where the control task is: not created yet, between two handlers, inside the
      ota.start whose registration is under way, or inside the poll that records a
      failure. */
  datatype Task = Absent | Idle | Registering(command: Control.Command, io: Control.CommandIo) | Polling

  /** `starting`: app_main has not released its startup claim. The fields of an absent
      control task mean nothing; a new boot sets them up again. */
  datatype World = World(control: Control.State, device: Device.System, starting: bool, task: Task)

  datatype Event =
    | Cut
    | Boot(step: Device.Event, config: Config)
    | ReleaseStartup
    | ClearPending
    | Worker(step: Device.Event)
    | Publish(result: Control.WorkerResult)
    | Command(command: Control.Command, io: Control.CommandIo, rd: Receipts.RegisterReads)
    | Inside(step: Device.Event)
    | Poll
    | Other(event: Control.Event)

  // ------------------------------------------------------------- composition

  /** The control task is up and between two handlers. */
  predicate Free(w: World) {
    w.task.Idle? && !w.control.halted
  }

  /** app_main goes on by itself; a restart stops it. */
  predicate Boots(w: World) {
    w.starting && !w.device.pc.Ready? && (w.task.Absent? || Free(w))
  }

  predicate Working(pc: Device.Pc) {
    pc.WorkerLoad? || pc.WorkerRetire? || pc.WorkerBegin? || pc.WorkerPrepare? || pc.WorkerBoundary?
    || pc.WorkerSelect? || pc.WorkerCleanup?
  }

  /** The worker task is over: selected, failed with a recordable code, or in doubt. */
  predicate Ended(pc: Device.Pc) {
    pc.WorkerSelected? || pc.Stuck? || (pc.RecordingFailure? && pc.origin.AtPoll?)
  }

  /** The command passes every test before registration. */
  predicate Starts(s: Control.State, c: Control.Command, device: string, boot: string, io: Control.CommandIo) {
    && Runs.Executes(s, c, device, boot, io)
    && c.kind.OtaStart? && !s.restartPending && Control.OtaRefusal(s, c.kind.ota, io).NoError?
  }

  /** What registration answers to the handler. */
  function Registration(w: World, c: Control.Command, rd: Receipts.RegisterReads): Control.Registered
    requires c.kind.OtaStart?
  {
    var r := Receipts.Register(w.device.d, w.device.running, c.kind.ota.image, rd);
    if r.StorageUncertain? then Control.RegisterUncertain
    else if r.Admit? then Control.Registered
    else Control.Refused(Control.NotAdmitted(r))
  }

  /** What the handler learns when the last durable step of an ota.start is over. */
  function Learned(io: Control.CommandIo, before: Device.Pc, after: Device.Pc): Control.CommandIo {
    if before.StoringIntent? && !after.StartingWorker? then
      io.(receipt := if after.Ready? then Control.Refused(Control.NotStored) else Control.RegisterUncertain)
    else io.(receipt := Control.Registered, workerStarted := after.WorkerLoad?, failureRecorded := after.Ready?)
  }

  predicate Settled(pc: Device.Pc) {
    pc.Ready? || pc.Stuck? || pc.WorkerLoad?
  }

  function ResultOf(pc: Device.Pc, doubtful: Control.WorkerResult): Control.WorkerResult {
    if pc.WorkerSelected? then Control.WorkerOk
    else if pc.RecordingFailure? then Control.WorkerFailed(pc.code)
    else doubtful
  }

  /** The poll has a failure to record first. */
  predicate MustRecord(s: Control.State) {
    s.ota.active && s.ota.done && !s.ota.stageUncertain && s.ota.result.WorkerFailed?
  }

  /** The control task of a new boot: app_main holds the storage transaction, and
      configuration and updates are gated. */
  function Up(config: Config): Control.State {
    ConfigControl.Fresh(config).(pending := true, holder := Control.Elsewhere)
  }

  /** A step of app_main, which creates the control task once its local checks have
      passed; a rejected trial restarts the device. */
  function BootNext(w: World, after: Device.System, config: Config): World {
    if after.pc.Off? then w.(device := after, task := Absent)
    else if w.task.Absent? && after.pc.Reconciling? then World(Up(config), after, true, Idle)
    else w.(device := after)
  }

  /** The ota.start that reaches registration; storing its intent takes further steps. */
  function StartNext(w: World, c: Control.Command, io: Control.CommandIo, rd: Receipts.RegisterReads,
                     device: string, boot: string): World
    requires Control.Sound(w.control) && c.kind.OtaStart?
  {
    var after := Device.Next(w.device, Device.Start(c.kind.ota.image, rd));
    if after.pc.StoringIntent? then w.(device := after, task := Registering(c, io))
    else w.(device := after,
            control := Control.Handle(w.control, c, device, boot, io.(receipt := Registration(w, c, rd))))
  }

  /** A durable step inside ota.start or the poll, which ends with the last of them. */
  function InsideNext(w: World, after: Device.System, device: string, boot: string): World
    requires Control.Sound(w.control)
  {
    if !Settled(after.pc) then w.(device := after)
    else if w.task.Registering? then
      World(Control.Handle(w.control, w.task.command, device, boot, Learned(w.task.io, w.device.pc, after.pc)),
            after, w.starting, Idle)
    else World(Control.PollOta(w.control, after.pc.Ready?), after, w.starting, Idle)
  }

  /** Work of the control task or of others that has nothing to do with the update. */
  predicate Unrelated(w: World, c: Control.Event) {
    c.PollTrialStep? || c.PollRestartStep? || c.ElsewhereClaims? || (c.ElsewhereReleases? && !w.starting)
  }

  /** One event of a device whose control fields are sound. */
  function Act(w: World, e: Event, device: string, boot: string): World
    requires Control.Sound(w.control)
  {
    match e
    case Cut => w.(device := Device.Next(w.device, Device.PowerCut), starting := true, task := Absent)
    case Boot(step, config) =>
      if Boots(w) && !step.PowerCut? then BootNext(w, Device.Next(w.device, step), config) else w
    case ReleaseStartup =>
      if Free(w) && w.starting && w.device.pc.Ready?
      then w.(control := Control.Next(w.control, Control.ElsewhereReleases, device, boot), starting := false) else w
    case ClearPending =>
      if Free(w) && !w.starting then w.(control := Control.Next(w.control, Control.SetPending(false), device, boot)) else w
    case Worker(step) =>
      if Free(w) && Working(w.device.pc) && !step.PowerCut? then w.(device := Device.Next(w.device, step)) else w
    case Publish(result) =>
      if Free(w) && Ended(w.device.pc)
      then w.(control := Control.Next(w.control, Control.WorkerEnds(ResultOf(w.device.pc, result), w.device.pc.Stuck?), device, boot))
      else w
    case Command(c, io, rd) =>
      if !Free(w) then w
      else if Starts(w.control, c, device, boot, io) then StartNext(w, c, io, rd, device, boot)
      else w.(control := Control.Handle(w.control, c, device, boot, io))
    case Inside(step) =>
      if (w.task.Registering? || w.task.Polling?) && !step.PowerCut?
      then InsideNext(w, Device.Next(w.device, step), device, boot) else w
    case Poll =>
      if !Free(w) then w
      else if MustRecord(w.control) then w.(task := Polling)
      else w.(control := Control.PollOta(w.control, false))
    case Other(c) =>
      if Free(w) && Unrelated(w, c) then w.(control := Control.Next(w.control, c, device, boot)) else w
  }

  /** The fields that handlers dereference are present in every reachable state. */
  function Next(w: World, e: Event, device: string, boot: string): World {
    if Control.Sound(w.control) then Act(w, e, device, boot) else w
  }

  function Run(w: World, events: seq<Event>, device: string, boot: string): World
    decreases |events|
  {
    if events == [] then w else Run(Next(w, events[0], device, boot), events[1..], device, boot)
  }

  // --------------------------------------------------------------- invariant

  /** The receipt is that of the request. */
  predicate Bound(r: Receipt, req: Receipts.Request) {
    r.operation == req.operation && r.size == req.size && r.digest == req.digest
  }

  predicate Retained(d: Durable, req: Receipts.Request) {
    d.receipt.Some? && Bound(d.receipt.value, req)
  }

  predicate WorkerAt(s: Device.System, req: Receipts.Request) {
    && Working(s.pc) && Retained(s.d, req)
    && (s.pc.WorkerLoad? ==> s.pc.req == req)
  }

  predicate EndedAt(s: Device.System, req: Receipts.Request) {
    s.pc.Stuck? ||
    (Retained(s.d, req) &&
     if s.pc.WorkerSelected? then Safe.Selected(s, s.d.receipt.value)
     else s.pc.RecordingFailure? && s.pc.operation == req.operation && s.pc.origin.AtPoll?)
  }

  /** The published result is the one the worker ended with. */
  predicate Published(s: Control.State, pc: Device.Pc) {
    && s.ota.stageUncertain == pc.Stuck?
    && (pc.Stuck? || s.ota.result == ResultOf(pc, s.ota.result))
    && (pc.RecordingFailure? || pc.WorkerSelected? || pc.Stuck?)
  }

  /** A failure with this code and from this caller is being recorded. */
  predicate RecordingAt(s: Device.System, req: Receipts.Request, code: FailureCode, origin: Device.Origin) {
    && Retained(s.d, req)
    && if s.pc.RecordingFailure? then s.pc.operation == req.operation && s.pc.code == code && s.pc.origin == origin
       else s.pc.StoringFailure? && s.pc.next.status == Failed(code) && s.pc.origin == origin
  }

  predicate RegisteringAt(s: Device.System, req: Receipts.Request) {
    if s.pc.StoringIntent? then s.pc.req == req
    else if s.pc.StartingWorker? then s.pc.req == req && Retained(s.d, req)
    else RecordingAt(s, req, ResourceFailure, Device.AtStart)
  }

  predicate AbsentPc(pc: Device.Pc) {
    pc.Off? || pc.BootStart? || pc.LocalChecks? || pc.Rejecting? || pc.Halted?
  }

  /** Startup after the control task was created. */
  predicate StartupPc(pc: Device.Pc) {
    || pc.Reconciling? || pc.RecoveryRetire? || pc.Trial? || pc.ConfirmReadback? || pc.Rejecting?
    || pc.RecordingSuccess? || pc.StoringSuccess? || pc.Halted? || pc.Ready?
    || ((pc.RecordingFailure? || pc.StoringFailure?) && pc.origin.AtBoot?)
  }

  predicate IdleLink(w: World) {
    if w.starting then
      StartupPc(w.device.pc) && w.control.pending && w.control.holder.Elsewhere? && !w.control.ota.active
    else if w.control.ota.active && w.control.ota.request.Some? then
      var req := w.control.ota.request.value.image;
      if w.control.ota.done then EndedAt(w.device, req) && Published(w.control, w.device.pc)
      else WorkerAt(w.device, req) || EndedAt(w.device, req)
    else w.device.pc.Ready? || (w.device.pc.Stuck? && Runs.Uncertain(w.control) && w.control.holder.Control?)
  }

  predicate Linked(w: World, device: string, boot: string) {
    match w.task
    case Absent => w.starting && AbsentPc(w.device.pc)
    case Idle => IdleLink(w)
    case Registering(c, io) =>
      !w.starting && !w.control.halted && Starts(w.control, c, device, boot, io) && RegisteringAt(w.device, c.kind.ota.image)
    case Polling =>
      && !w.starting && !w.control.halted && MustRecord(w.control) && w.control.ota.request.Some?
      && RecordingAt(w.device, w.control.ota.request.value.image, w.control.ota.result.code, Device.AtPoll)
  }

  predicate Inv(w: World, device: string, boot: string) {
    Runs.Inv(w.control) && Safe.Inv(w.device) && Linked(w, device, boot)
  }

  // --------------------------------------------------------------- its proof

  lemma UpIsSafe(config: Config)
    ensures Runs.Inv(Up(config))
  {
    ConfigControl.FreshIsSafe(config);
  }

  /** The update protocol makes at most one step of its own. */
  lemma DeviceMoves(w: World, e: Event, device: string, boot: string) returns (steps: seq<Device.Event>)
    requires Control.Sound(w.control)
    ensures |steps| <= 1
    ensures Act(w, e, device, boot).device == if steps == [] then w.device else Device.Next(w.device, steps[0])
  {
    match e
    case Cut => steps := [Device.PowerCut];
    case Boot(step, _) => steps := if Boots(w) && !step.PowerCut? then [step] else [];
    case Worker(step) => steps := if Free(w) && Working(w.device.pc) && !step.PowerCut? then [step] else [];
    case Command(c, io, rd) =>
      steps := if Free(w) && Starts(w.control, c, device, boot, io) then [Device.Start(c.kind.ota.image, rd)] else [];
    case Inside(step) => steps := if (w.task.Registering? || w.task.Polling?) && !step.PowerCut? then [step] else [];
    case _ => steps := [];
  }

  lemma DeviceKeeps(w: World, e: Event, device: string, boot: string)
    requires Safe.Inv(w.device) && Control.Sound(w.control)
    ensures Safe.Inv(Act(w, e, device, boot).device)
  {
    var steps := DeviceMoves(w, e, device, boot);
    if steps != [] { Safe.NextKeeps(w.device, steps[0]); }
  }

  lemma ControlKeeps(w: World, e: Event, device: string, boot: string)
    requires Runs.Inv(w.control)
    ensures Control.Sound(w.control) && Runs.Inv(Act(w, e, device, boot).control)
  {
    match e
    case Boot(_, config) => UpIsSafe(config);
    case Command(c, io, rd) => CommandControlKeeps(w, c, io, rd, device, boot);
    case Inside(step) => InsideControlKeeps(w, Device.Next(w.device, step), device, boot);
    case Poll => Runs.PollOtaKeeps(w.control, false);
    case _ => SignalControlKeeps(w, e, device, boot);
  }

  lemma SignalControlKeeps(w: World, e: Event, device: string, boot: string)
    requires Runs.Inv(w.control) && !e.Boot? && !e.Command? && !e.Inside? && !e.Poll?
    ensures Control.Sound(w.control) && Runs.Inv(Act(w, e, device, boot).control)
  {
    match e
    case ReleaseStartup => Runs.NextKeeps(w.control, Control.ElsewhereReleases, device, boot);
    case ClearPending => Runs.NextKeeps(w.control, Control.SetPending(false), device, boot);
    case Publish(result) =>
      Runs.NextKeeps(w.control, Control.WorkerEnds(ResultOf(w.device.pc, result), w.device.pc.Stuck?), device, boot);
    case Other(c) => Runs.NextKeeps(w.control, c, device, boot);
    case _ =>
  }

  lemma CommandControlKeeps(w: World, c: Control.Command, io: Control.CommandIo, rd: Receipts.RegisterReads, device: string, boot: string)
    requires Runs.Inv(w.control)
    ensures Control.Sound(w.control) && Runs.Inv(Control.Handle(w.control, c, device, boot, io))
    ensures c.kind.OtaStart? ==> Runs.Inv(StartNext(w, c, io, rd, device, boot).control)
  {
    Runs.CommandKeeps(w.control, c, device, boot, io);
    if c.kind.OtaStart? { Runs.CommandKeeps(w.control, c, device, boot, io.(receipt := Registration(w, c, rd))); }
  }

  lemma InsideControlKeeps(w: World, after: Device.System, device: string, boot: string)
    requires Runs.Inv(w.control)
    ensures Control.Sound(w.control) && Runs.Inv(InsideNext(w, after, device, boot).control)
  {
    if w.task.Registering? {
      Runs.CommandKeeps(w.control, w.task.command, device, boot, Learned(w.task.io, w.device.pc, after.pc));
    } else {
      Runs.PollOtaKeeps(w.control, after.pc.Ready?);
    }
  }

  // ----------------------------------------------- what the device's steps do

  lemma StartupMoves(s: Device.System, e: Device.Event)
    requires Safe.Inv(s) && !e.PowerCut? && !s.pc.Ready?
    ensures AbsentPc(s.pc) ==> AbsentPc(Device.Next(s, e).pc) || Device.Next(s, e).pc.Reconciling?
    ensures StartupPc(s.pc) ==> StartupPc(Device.Next(s, e).pc) || Device.Next(s, e).pc.Off?
  {
    if s.pc.RecordingFailure? || s.pc.StoringFailure? { assert Device.Next(s, e) == Device.NextRecord(s, e); }
    else if StartupPc(s.pc) || AbsentPc(s.pc) { StartupBoots(s, e); }
  }

  lemma StartupBoots(s: Device.System, e: Device.Event)
    requires Safe.Inv(s)
    ensures var t := Device.NextBoot(s, e);
            && (AbsentPc(s.pc) ==> AbsentPc(t.pc) || t.pc.Reconciling?)
            && (StartupPc(s.pc) ==> StartupPc(t.pc) || t.pc.Off?)
  {
  }

  lemma WorkerMoves(s: Device.System, e: Device.Event, req: Receipts.Request)
    requires Safe.Inv(s) && WorkerAt(s, req) && !e.PowerCut?
    ensures WorkerAt(Device.Next(s, e), req) || EndedAt(Device.Next(s, e), req)
  {
    assert Device.Next(s, e) == Device.NextWorker(s, e);
    WorkerStepMoves(s, e, req);
  }

  lemma WorkerStepMoves(s: Device.System, e: Device.Event, req: Receipts.Request)
    requires Safe.Inv(s) && WorkerAt(s, req)
    ensures WorkerAt(Device.NextWorker(s, e), req) || EndedAt(Device.NextWorker(s, e), req)
  {
    if e.Select? { assert Safe.Inv(s); }
  }

  /** Where a registration goes; the intent is stored for this very request. */
  predicate RegistrationGoes(s: Device.System, t: Device.System, req: Receipts.Request) {
    || RegisteringAt(t, req)
    || t.pc.Stuck?
    || (t.pc.WorkerLoad? && !s.pc.StoringIntent? && WorkerAt(t, req) && Safe.Acting(t, t.d.receipt.value))
    || (t.pc.Ready? && (if s.pc.StoringIntent? then t.d == s.d else Recorded(t, req, ResourceFailure)))
  }

  lemma RegistrationMoves(s: Device.System, e: Device.Event, req: Receipts.Request)
    requires Safe.Inv(s) && RegisteringAt(s, req) && !e.PowerCut?
    ensures RegistrationGoes(s, Device.Next(s, e), req)
  {
    if s.pc.RecordingFailure? || s.pc.StoringFailure? { RecordMoves(s, e, req, ResourceFailure, Device.AtStart); }
  }

  /** The retained receipt of the request is FAILED with this code, its source is
      confirmed, selected and running, and its target as registered or erased. */
  predicate Recorded(s: Device.System, req: Receipts.Request, code: FailureCode) {
    && Retained(s.d, req) && s.d.receipt.value.status == Failed(code)
    && Safe.Home(s.d, s.d.receipt.value) && s.running == s.d.receipt.value.source
    && Safe.TargetHarmless(s, s.d.receipt.value)
  }

  lemma RecordMoves(s: Device.System, e: Device.Event, req: Receipts.Request, code: FailureCode, origin: Device.Origin)
    requires Safe.Inv(s) && RecordingAt(s, req, code, origin) && !e.PowerCut? && !origin.AtBoot?
    ensures var t := Device.Next(s, e);
            RecordingAt(t, req, code, origin) || t.pc.Stuck? || (t.pc.Ready? && Recorded(t, req, code))
  {
  }

  // --------------------------------------------- what the control's steps do

  /** Neither the update nor the startup gates change. */
  predicate OtaUntouched(s: Control.State, t: Control.State) {
    && t.ota == s.ota && t.pending == s.pending
    && (Runs.Uncertain(s) ==> Runs.Uncertain(t))
    && (s.holder.Nobody? || t.holder == s.holder)
  }

  lemma SameLink(w: World, t: Control.State)
    requires IdleLink(w) && OtaUntouched(w.control, t)
    ensures IdleLink(w.(control := t))
  {
  }

  lemma RefusedCommandWaits(s: Control.State, c: Control.Command, device: string, boot: string, io: Control.CommandIo)
    requires Runs.Inv(s) && !Starts(s, c, device, boot, io)
    ensures OtaUntouched(s, Control.Handle(s, c, device, boot, io))
  {
    if Runs.Executes(s, c, device, boot, io) {
      NoOtaExecuted(Control.Admitted(s, c, |s.entries|), c, |s.entries|, io);
    } else {
      Runs.OtherwiseUnchanged(s, c, device, boot, io);
    }
  }

  lemma NoOtaExecuted(s: Control.State, c: Control.Command, slot: nat, io: Control.CommandIo)
    requires Control.SlotOk(s, slot)
    requires c.kind.OtaStart? ==> s.restartPending || !Control.OtaRefusal(s, c.kind.ota, io).NoError?
    ensures OtaUntouched(s, Control.Execute(s, c, slot, io))
  {
    if c.kind.Pause? || c.kind.Resume? {
      assert OtaUntouched(s, Control.Log(s, c.request.id, Control.BusinessAction));
    } else if c.kind.OtaStart? {
      var refusal := Control.OtaRefusal(s, c.kind.ota, io);
      assert Control.Execute(s, c, slot, io)
          == Control.Save(s, slot, Control.Failed, if s.restartPending then Control.OperationBusy else refusal);
    } else {
      WriteWaits(s, c, slot, io);
    }
  }

  lemma WriteWaits(s: Control.State, c: Control.Command, slot: nat, io: Control.CommandIo)
    requires Control.SlotOk(s, slot)
    ensures OtaUntouched(s, Control.ExecuteWrite(s, c, slot, io))
  {
    if c.kind.ConfigSet? { assert OtaUntouched(s, Control.StartTrial(s, c.request.id, c.kind.config, slot, io)); }
    else { assert OtaUntouched(s, Control.TakeRestart(s, c.request.id, c.viaMqtt, slot, io)); }
  }

  /** What the end of an ota.start that reached registration leaves behind. */
  predicate StartLeaves(t: Control.State, ota: Control.OtaRequest, slot: nat, io: Control.CommandIo) {
    if io.receipt.Registered? && io.workerStarted then
      t.ota.active && !t.ota.done && t.ota.slot == slot && t.ota.request == Some(ota)
    else
      && !t.ota.active && t.ota.request.None?
      && if io.receipt.Refused? || (io.receipt.Registered? && io.failureRecorded) then t.holder.Nobody?
         else t.configUncertain && t.holder.Control?
  }

  /** And what it answers. */
  predicate StartAnswers(phase: Control.Phase, error: Control.Error, io: Control.CommandIo) {
    if io.receipt.Registered? && io.workerStarted then phase.Accepted? || phase.Running?
    else if io.receipt.Refused? then phase.Failed? && error == Control.ReceiptRefused(io.receipt.reason)
    else if io.receipt.Registered? && io.failureRecorded then phase.Failed? && error.ResourceFailure?
    else phase.Unknown?
  }

  predicate StartEnds(s: Control.State, t: Control.State, c: Control.Command, io: Control.CommandIo)
    requires c.kind.OtaStart?
  {
    var slot := |s.entries|;
    && |t.entries| == slot + 1 && slot < |t.outcomes| && t.halted == s.halted
    && StartLeaves(t, c.kind.ota, slot, io) && StartAnswers(t.outcomes[slot].phase, t.outcomes[slot].error, io)
  }

  lemma StartCommandEnds(s: Control.State, c: Control.Command, device: string, boot: string, io: Control.CommandIo)
    requires Runs.Inv(s) && Starts(s, c, device, boot, io)
    ensures StartEnds(s, Control.Handle(s, c, device, boot, io), c, io)
  {
    var slot := |s.entries|;
    var a := Control.Admitted(s, c, slot);
    var t := Control.StartOta(a, c.request.id, c.kind.ota, slot, io);
    assert Control.Handle(s, c, device, boot, io) == t;
    var h := Control.Log(Control.Held(a), c.request.id, Control.OtaStarted);
    EffectLeaves(h, c.kind.ota, slot, io);
    AnswerIs(h, c.kind.ota, io);
    SavedEffect(a, h, c, slot, io);
  }

  lemma EffectLeaves(h: Control.State, ota: Control.OtaRequest, slot: nat, io: Control.CommandIo)
    requires Control.Releases(h) && !h.ota.active && h.ota.request.None?
    ensures StartLeaves(Control.OtaEffect(h, ota, slot, io), ota, slot, io)
    ensures Control.OtaEffect(h, ota, slot, io).halted == h.halted
  {
    if io.receipt.Registered? { RegisteredLeaves(h, ota, slot, io); } else { UnregisteredLeaves(h, ota, slot, io); }
  }

  lemma UnregisteredLeaves(h: Control.State, ota: Control.OtaRequest, slot: nat, io: Control.CommandIo)
    requires Control.Releases(h) && !h.ota.active && h.ota.request.None? && !io.receipt.Registered?
    ensures StartLeaves(Control.OtaEffect(h, ota, slot, io), ota, slot, io)
    ensures Control.OtaEffect(h, ota, slot, io).halted == h.halted
  {
    var t := Control.OtaEffect(h, ota, slot, io);
    if io.receipt.Refused? { assert t == Control.Released(h); } else { assert t == h.(configUncertain := true); }
  }

  lemma RegisteredLeaves(h: Control.State, ota: Control.OtaRequest, slot: nat, io: Control.CommandIo)
    requires Control.Releases(h) && !h.ota.active && h.ota.request.None? && io.receipt.Registered?
    ensures StartLeaves(Control.OtaEffect(h, ota, slot, io), ota, slot, io)
    ensures Control.OtaEffect(h, ota, slot, io).halted == h.halted
  {
  }

  lemma AnswerIs(h: Control.State, ota: Control.OtaRequest, io: Control.CommandIo)
    requires Control.Releases(h)
    ensures var a := Control.OtaAnswer(h, ota, io);
            StartAnswers(a.phase, a.error, io)
  {
  }

  lemma SavedEffect(a: Control.State, h: Control.State, c: Control.Command, slot: nat, io: Control.CommandIo)
    requires c.kind.OtaStart? && Control.SlotOk(a, slot)
    requires h == Control.Log(Control.Held(a), c.request.id, Control.OtaStarted)
    ensures var t := Control.StartOta(a, c.request.id, c.kind.ota, slot, io);
            var e := Control.OtaEffect(h, c.kind.ota, slot, io);
            && t == e.(outcomes := t.outcomes) && t.entries == a.entries && slot < |t.outcomes|
            && t.outcomes[slot].phase == Control.OtaAnswer(h, c.kind.ota, io).phase
            && t.outcomes[slot].error == Control.OtaAnswer(h, c.kind.ota, io).error
  {
  }

  // ------------------------------------------------------- every event keeps it

  lemma BootLinks(w: World, step: Device.Event, config: Config, device: string, boot: string)
    requires Linked(w, device, boot) && Safe.Inv(w.device) && Boots(w) && !step.PowerCut?
    ensures Linked(BootNext(w, Device.Next(w.device, step), config), device, boot)
  {
    StartupMoves(w.device, step);
  }

  lemma WorkerLinks(w: World, step: Device.Event, device: string, boot: string)
    requires Linked(w, device, boot) && Safe.Inv(w.device) && Free(w) && Working(w.device.pc) && !step.PowerCut?
    ensures Linked(w.(device := Device.Next(w.device, step)), device, boot)
  {
    WorkerMoves(w.device, step, w.control.ota.request.value.image);
  }

  /** A ready device registers, refuses or is in doubt. */
  lemma StartMoves(s: Device.System, req: Receipts.Request, rd: Receipts.RegisterReads)
    requires s.pc.Ready?
    ensures var t := Device.Next(s, Device.Start(req, rd));
            var r := Receipts.Register(s.d, s.running, req, rd);
            && t.d == s.d && t.running == s.running
            && (if r.Admit? then t.pc == Device.StoringIntent(req, r.next)
                else if r.StorageUncertain? then t.pc.Stuck? else t.pc.Ready?)
  {
  }

  lemma StartsWhenReady(w: World, c: Control.Command, io: Control.CommandIo, device: string, boot: string)
    requires Linked(w, device, boot) && Free(w) && Starts(w.control, c, device, boot, io)
    ensures !w.starting && w.device.pc.Ready?
  {
  }

  lemma StartLinks(w: World, c: Control.Command, io: Control.CommandIo, rd: Receipts.RegisterReads, device: string, boot: string)
    requires Linked(w, device, boot) && Runs.Inv(w.control) && Control.Sound(w.control)
    requires Free(w) && Starts(w.control, c, device, boot, io)
    ensures Linked(StartNext(w, c, io, rd, device, boot), device, boot)
  {
    StartsWhenReady(w, c, io, device, boot);
    StartMoves(w.device, c.kind.ota.image, rd);
    StartCommandEnds(w.control, c, device, boot, io.(receipt := Registration(w, c, rd)));
  }

  lemma RegisteringLinks(w: World, step: Device.Event, device: string, boot: string)
    requires Linked(w, device, boot) && Runs.Inv(w.control) && Safe.Inv(w.device) && Control.Sound(w.control)
    requires w.task.Registering? && !step.PowerCut?
    ensures Linked(InsideNext(w, Device.Next(w.device, step), device, boot), device, boot)
  {
    var t := Device.Next(w.device, step);
    RegistrationMoves(w.device, step, w.task.command.kind.ota.image);
    RegisteringStep(w, t, device, boot);
  }

  lemma RegisteringStep(w: World, t: Device.System, device: string, boot: string)
    requires Linked(w, device, boot) && Runs.Inv(w.control) && Control.Sound(w.control) && w.task.Registering?
    requires RegistrationGoes(w.device, t, w.task.command.kind.ota.image)
    ensures Linked(InsideNext(w, t, device, boot), device, boot)
  {
    StartCommandEnds(w.control, w.task.command, device, boot, Learned(w.task.io, w.device.pc, t.pc));
  }

  /** The poll that has recorded the failure, or could not. */
  lemma RecordedPollEnds(s: Control.State, recorded: bool)
    requires Runs.Inv(s) && MustRecord(s)
    ensures var t := Control.PollOta(s, recorded);
            && !t.ota.active && t.halted == s.halted && s.ota.slot < |t.outcomes|
            && var o := t.outcomes[s.ota.slot];
            if recorded then o.phase.Failed? && o.error == Control.UpdateFailed(s.ota.result.code)
            else o.phase.Unknown? && t.configUncertain && t.holder.Control?
  {
  }

  lemma PollingLinks(w: World, step: Device.Event, device: string, boot: string)
    requires Linked(w, device, boot) && Runs.Inv(w.control) && Safe.Inv(w.device) && Control.Sound(w.control)
    requires w.task.Polling? && !step.PowerCut?
    ensures Linked(InsideNext(w, Device.Next(w.device, step), device, boot), device, boot)
  {
    RecordMoves(w.device, step, w.control.ota.request.value.image, w.control.ota.result.code, Device.AtPoll);
    RecordedPollEnds(w.control, Device.Next(w.device, step).pc.Ready?);
  }

  /** Any other poll of a worker that has ended: the restart into the candidate, or
      doubt. */
  lemma OtherPollEnds(s: Control.State)
    requires Runs.Inv(s) && s.ota.active && s.ota.done && !MustRecord(s)
    ensures var t := Control.PollOta(s, false);
            && s.ota.slot < |t.outcomes|
            && (if !s.ota.stageUncertain && s.ota.result.WorkerOk? then t.halted && t.ota == s.ota
                else !t.ota.active && Runs.Uncertain(t) && t.holder.Control? && t.halted == s.halted
                     && t.outcomes[s.ota.slot].phase.Unknown?)
  {
  }

  lemma PollLinks(w: World, device: string, boot: string)
    requires Linked(w, device, boot) && Runs.Inv(w.control) && Control.Sound(w.control) && Free(w) && !MustRecord(w.control)
    ensures Linked(w.(control := Control.PollOta(w.control, false)), device, boot)
  {
    if w.control.ota.active && w.control.ota.done { OtherPollEnds(w.control); }
  }

  lemma UnrelatedWaits(s: Control.State, c: Control.Event, device: string, boot: string)
    requires Runs.Inv(s) && Control.Sound(s) && !s.halted
    requires c.PollTrialStep? || c.PollRestartStep? || c.ElsewhereClaims?
    ensures OtaUntouched(s, Control.Next(s, c, device, boot))
  {
  }

  lemma UnrelatedLinks(w: World, c: Control.Event, device: string, boot: string)
    requires Linked(w, device, boot) && Runs.Inv(w.control) && Control.Sound(w.control) && Free(w) && Unrelated(w, c)
    ensures Linked(w.(control := Control.Next(w.control, c, device, boot)), device, boot)
  {
    if !c.ElsewhereReleases? {
      UnrelatedWaits(w.control, c, device, boot);
      SameLink(w, Control.Next(w.control, c, device, boot));
    }
  }

  lemma PublishLinks(w: World, result: Control.WorkerResult, device: string, boot: string)
    requires Linked(w, device, boot) && Control.Sound(w.control)
    ensures Linked(Act(w, Publish(result), device, boot), device, boot)
  {
  }

  lemma InsideLinks(w: World, step: Device.Event, device: string, boot: string)
    requires Linked(w, device, boot) && Runs.Inv(w.control) && Safe.Inv(w.device) && Control.Sound(w.control)
    requires (w.task.Registering? || w.task.Polling?) && !step.PowerCut?
    ensures Linked(InsideNext(w, Device.Next(w.device, step), device, boot), device, boot)
  {
    if w.task.Registering? { RegisteringLinks(w, step, device, boot); } else { PollingLinks(w, step, device, boot); }
  }

  lemma CommandLinks(w: World, e: Event, device: string, boot: string)
    requires Inv(w, device, boot) && Control.Sound(w.control) && e.Command?
    ensures Linked(Act(w, e, device, boot), device, boot)
  {
    if !Free(w) { return; }
    if Starts(w.control, e.command, device, boot, e.io) {
      StartLinks(w, e.command, e.io, e.rd, device, boot);
    } else {
      RefusedCommandWaits(w.control, e.command, device, boot, e.io);
      SameLink(w, Control.Handle(w.control, e.command, device, boot, e.io));
    }
  }

  /** The events with a step of the update protocol. */
  predicate DurableWork(e: Event) {
    e.Inside? || e.Command? || e.Boot? || e.Worker?
  }

  lemma DurableLinks(w: World, e: Event, device: string, boot: string)
    requires Inv(w, device, boot) && Control.Sound(w.control) && DurableWork(e)
    ensures Linked(Act(w, e, device, boot), device, boot)
  {
    match e
    case Boot(step, config) => if Boots(w) && !step.PowerCut? { BootLinks(w, step, config, device, boot); }
    case Worker(step) =>
      if Free(w) && Working(w.device.pc) && !step.PowerCut? { WorkerLinks(w, step, device, boot); }
    case Command(_, _, _) => CommandLinks(w, e, device, boot);
    case Inside(step) =>
      if (w.task.Registering? || w.task.Polling?) && !step.PowerCut? { InsideLinks(w, step, device, boot); }
  }

  lemma LinkKeeps(w: World, e: Event, device: string, boot: string)
    requires Inv(w, device, boot) && Control.Sound(w.control)
    ensures Linked(Act(w, e, device, boot), device, boot)
  {
    if DurableWork(e) { DurableLinks(w, e, device, boot); }
    else if e.Publish? { PublishLinks(w, e.result, device, boot); }
    else if e.Poll? { if Free(w) && !MustRecord(w.control) { PollLinks(w, device, boot); } }
    else if e.Other? { if Free(w) && Unrelated(w, e.event) { UnrelatedLinks(w, e.event, device, boot); } }
  }

  lemma NextKeeps(w: World, e: Event, device: string, boot: string)
    requires Inv(w, device, boot)
    ensures Inv(Next(w, e, device, boot), device, boot)
  {
    ControlKeeps(w, e, device, boot);
    DeviceKeeps(w, e, device, boot);
    LinkKeeps(w, e, device, boot);
  }

  // ---------------------------------------------------------------- whole runs

  /** A device after its assembly, before its first boot. */
  predicate Started(w: World) {
    w.task.Absent? && w.starting && Control.Initial(w.control) && Device.Initial(w.device)
  }

  lemma StartedIsSafe(w: World, device: string, boot: string)
    requires Started(w)
    ensures Inv(w, device, boot)
  {
    Safe.InitialInv(w.device);
  }

  lemma {:induction false} RunKeeps(w: World, events: seq<Event>, device: string, boot: string)
    requires Inv(w, device, boot)
    ensures Inv(Run(w, events, device, boot), device, boot)
    decreases |events|
  {
    if events != [] {
      NextKeeps(w, events[0], device, boot);
      RunKeeps(Next(w, events[0], device, boot), events[1..], device, boot);
    }
  }

  /** In every reachable state of the composed device. */
  lemma ReachableIsSafe(w: World, events: seq<Event>, device: string, boot: string)
    requires Started(w)
    ensures Inv(Run(w, events, device, boot), device, boot)
  {
    StartedIsSafe(w, device, boot);
    RunKeeps(w, events, device, boot);
  }

  lemma NextMoves(w: World, e: Event, device: string, boot: string) returns (steps: seq<Device.Event>)
    ensures Next(w, e, device, boot).device == Device.Run(w.device, steps)
  {
    steps := [];
    if Control.Sound(w.control) { steps := DeviceMoves(w, e, device, boot); }
    if steps != [] {
      assert steps == [steps[0]];
      Recovery.RunOne(w.device, steps[0]);
    }
  }

  /** Every run of the composed system is a run of the update protocol, so all that is
      proved of the protocol holds of it. */
  lemma {:induction false} DeviceRuns(w: World, events: seq<Event>, device: string, boot: string)
    returns (steps: seq<Device.Event>)
    ensures Run(w, events, device, boot).device == Device.Run(w.device, steps)
    decreases |events|
  {
    if events == [] { return []; }
    var first := NextMoves(w, events[0], device, boot);
    var rest := DeviceRuns(Next(w, events[0], device, boot), events[1..], device, boot);
    steps := first + rest;
    Recovery.RunAppend(w.device, first, rest);
  }

  // ----------------------------------------------- who holds the transaction

  /** The storage transaction, which a handler claims before it registers. */
  function HolderNow(w: World): Control.Holder {
    if w.task.Registering? then Control.Holder.Control else w.control.holder
  }

  /** app_main or the update holds the transaction. */
  predicate Claimed(w: World) {
    w.task.Absent? || HolderNow(w) == (if w.starting then Control.Elsewhere else Control.Holder.Control)
  }

  lemma AtRestUnlessClaimed(w: World, device: string, boot: string)
    requires Inv(w, device, boot)
    ensures Claimed(w) || (w.device.pc.Ready? && Safe.Idle(w.device) && !w.control.ota.active)
  {
  }

  /** In every reachable state the storage transaction is held by app_main or by the
      update, or the update protocol is at rest: ready, with nothing PREPARED and the
      whole firmware set confirmed. */
  lemma TransactionCoversTheUpdate(w: World, events: seq<Event>, device: string, boot: string)
    requires Started(w)
    ensures var v := Run(w, events, device, boot);
            Claimed(v) || (v.device.pc.Ready? && Safe.Idle(v.device) && !v.control.ota.active)
  {
    ReachableIsSafe(w, events, device, boot);
    AtRestUnlessClaimed(Run(w, events, device, boot), device, boot);
  }

  // --------------------------------------------------- what an answer tells

  /** An update that has just been accepted is the durable intent, from the running
      image. */
  predicate AcceptanceTells(w: World, v: World) {
    v.task.Idle? && v.control.ota.active && !w.control.ota.active && v.control.ota.request.Some? ==>
      Retained(v.device.d, v.control.ota.request.value.image) && Safe.Acting(v.device, v.device.d.receipt.value)
  }

  /** The answer in a slot: failed with a code that is recorded for the request, or
      unknown and in doubt. */
  predicate FailureTells(v: World, slot: nat, req: Receipts.Request) {
    && slot < |v.control.outcomes|
    && var o := v.control.outcomes[slot];
    if o.phase.Failed? then
      (o.error.UpdateFailed? && Recorded(v.device, req, o.error.code))
      || (o.error.ResourceFailure? && Recorded(v.device, req, ResourceFailure))
    else o.phase.Unknown? && Runs.Uncertain(v.control)
  }

  /** The end of an active update: its failure is recorded, or the device restarts into
      the selected candidate. */
  predicate EndTells(w: World, v: World) {
    !w.task.Absent? && w.control.ota.active && w.control.ota.request.Some? && v.task.Idle? ==>
      var req := w.control.ota.request.value.image;
      && (!v.control.ota.active ==> FailureTells(v, w.control.ota.slot, req))
      && (v.control.halted && !w.control.halted ==>
            Retained(v.device.d, req) && Safe.Selected(v.device, v.device.d.receipt.value))
  }

  /** The end of a registration without a worker: nothing was written, or its failure
      is recorded, or there is doubt. */
  predicate RegistrationTells(w: World, v: World) {
    w.task.Registering? && w.task.command.kind.OtaStart? && v.task.Idle? && !v.control.ota.active ==>
      var slot := |w.control.entries|;
      && slot < |v.control.outcomes|
      && var o := v.control.outcomes[slot];
      if o.phase.Failed? && o.error == Control.ReceiptRefused(Control.NotStored) then
        v.device.d == w.device.d && v.device.pc.Ready?
      else FailureTells(v, slot, w.task.command.kind.ota.image)
  }

  predicate Tells(w: World, v: World) {
    AcceptanceTells(w, v) && EndTells(w, v) && RegistrationTells(w, v)
  }

  lemma InsideTells(w: World, step: Device.Event, device: string, boot: string)
    requires Linked(w, device, boot) && Runs.Inv(w.control) && Safe.Inv(w.device) && Control.Sound(w.control)
    requires (w.task.Registering? || w.task.Polling?) && !step.PowerCut?
    ensures Tells(w, InsideNext(w, Device.Next(w.device, step), device, boot))
  {
    var t := Device.Next(w.device, step);
    if w.task.Registering? {
      RegistrationMoves(w.device, step, w.task.command.kind.ota.image);
      RegisteringTells(w, t, device, boot);
    } else {
      RecordMoves(w.device, step, w.control.ota.request.value.image, w.control.ota.result.code, Device.AtPoll);
      RecordedPollEnds(w.control, t.pc.Ready?);
    }
  }

  lemma RegisteringTells(w: World, t: Device.System, device: string, boot: string)
    requires Linked(w, device, boot) && Runs.Inv(w.control) && Control.Sound(w.control) && w.task.Registering?
    requires RegistrationGoes(w.device, t, w.task.command.kind.ota.image)
    ensures Tells(w, InsideNext(w, t, device, boot))
  {
    if Settled(t.pc) {
      var io := Learned(w.task.io, w.device.pc, t.pc);
      StartCommandEnds(w.control, w.task.command, device, boot, io);
      SettledTells(w, InsideNext(w, t, device, boot), io);
    }
  }

  lemma SettledTells(w: World, v: World, io: Control.CommandIo)
    requires w.task.Registering? && w.task.command.kind.OtaStart? && !w.control.ota.active && !w.control.halted
    requires v.task.Idle? && Settled(v.device.pc) && RegistrationGoes(w.device, v.device, w.task.command.kind.ota.image)
    requires io == Learned(w.task.io, w.device.pc, v.device.pc) && StartEnds(w.control, v.control, w.task.command, io)
    ensures Tells(w, v)
  {
  }

  lemma CommandTells(w: World, e: Event, device: string, boot: string)
    requires Linked(w, device, boot) && Runs.Inv(w.control) && Control.Sound(w.control) && e.Command? && Free(w)
    ensures Tells(w, Act(w, e, device, boot))
  {
    if Starts(w.control, e.command, device, boot, e.io) {
      StartTells(w, e.command, e.io, e.rd, device, boot);
    } else {
      RefusedCommandWaits(w.control, e.command, device, boot, e.io);
      if w.control.ota.active { Runs.CommandWaits(w.control, e.command, device, boot, e.io); }
    }
  }

  lemma StartTells(w: World, c: Control.Command, io: Control.CommandIo, rd: Receipts.RegisterReads, device: string, boot: string)
    requires Linked(w, device, boot) && Runs.Inv(w.control) && Control.Sound(w.control)
    requires Free(w) && Starts(w.control, c, device, boot, io)
    ensures Tells(w, StartNext(w, c, io, rd, device, boot))
  {
    StartsWhenReady(w, c, io, device, boot);
    StartMoves(w.device, c.kind.ota.image, rd);
    StartCommandEnds(w.control, c, device, boot, io.(receipt := Registration(w, c, rd)));
  }

  lemma PollTells(w: World, device: string, boot: string)
    requires Linked(w, device, boot) && Runs.Inv(w.control) && Control.Sound(w.control) && Free(w) && !MustRecord(w.control)
    ensures Tells(w, w.(control := Control.PollOta(w.control, false)))
  {
    if w.control.ota.active && w.control.ota.done { OtherPollEnds(w.control); }
  }

  lemma UnrelatedTells(w: World, c: Control.Event, device: string, boot: string)
    requires Runs.Inv(w.control) && Control.Sound(w.control) && Free(w) && Unrelated(w, c)
    ensures Tells(w, w.(control := Control.Next(w.control, c, device, boot)))
  {
    if !c.ElsewhereReleases? { UnrelatedWaits(w.control, c, device, boot); }
    if w.control.ota.active { UnrelatedRuns(w.control, c, device, boot); }
  }

  lemma UnrelatedRuns(s: Control.State, c: Control.Event, device: string, boot: string)
    requires Runs.Inv(s) && Control.Sound(s) && s.ota.active
    requires c.PollTrialStep? || c.PollRestartStep? || c.ElsewhereClaims? || c.ElsewhereReleases?
    ensures Control.Next(s, c, device, boot).halted == s.halted
  {
  }

  lemma OtherTells(w: World, e: Event, device: string, boot: string)
    requires Inv(w, device, boot) && Control.Sound(w.control) && !e.Command? && !e.Inside?
    ensures Tells(w, Act(w, e, device, boot))
  {
    if e.Poll? || e.Other? { TaskTells(w, e, device, boot); } else { SignalTells(w, e, device, boot); }
  }

  lemma TaskTells(w: World, e: Event, device: string, boot: string)
    requires Linked(w, device, boot) && Runs.Inv(w.control) && Control.Sound(w.control) && (e.Poll? || e.Other?)
    ensures Tells(w, Act(w, e, device, boot))
  {
    if e.Poll? {
      if Free(w) && !MustRecord(w.control) { PollTells(w, device, boot); }
    } else {
      if Free(w) && Unrelated(w, e.event) { UnrelatedTells(w, e.event, device, boot); }
    }
  }

  /** The other events leave the update and its answer alone. */
  lemma SignalTells(w: World, e: Event, device: string, boot: string)
    requires Linked(w, device, boot) && Control.Sound(w.control) && !e.Command? && !e.Inside? && !e.Poll? && !e.Other?
    ensures Tells(w, Act(w, e, device, boot))
  {
  }

  lemma StepTells(w: World, e: Event, device: string, boot: string)
    requires Inv(w, device, boot) && Control.Sound(w.control)
    ensures Tells(w, Act(w, e, device, boot))
  {
    if e.Command? || e.Inside? { HandlerTells(w, e, device, boot); } else { OtherTells(w, e, device, boot); }
  }

  lemma HandlerTells(w: World, e: Event, device: string, boot: string)
    requires Inv(w, device, boot) && Control.Sound(w.control) && (e.Command? || e.Inside?)
    ensures Tells(w, Act(w, e, device, boot))
  {
    if e.Command? {
      if Free(w) { CommandTells(w, e, device, boot); }
    } else {
      if (w.task.Registering? || w.task.Polling?) && !e.step.PowerCut? { InsideTells(w, e.step, device, boot); }
    }
  }

  /** In every reachable state, whatever happens next: an accepted update is the durable
      intent of exactly that request; a failed answer with a code means that the receipt
      of the request is FAILED with that code while its source runs confirmed; any other
      end is in doubt; and the device restarts by itself only into the selected
      candidate. */
  lemma AnswersTellTheReceipt(w: World, events: seq<Event>, e: Event, device: string, boot: string)
    requires Started(w)
    ensures var v := Run(w, events, device, boot);
            Tells(v, Next(v, e, device, boot))
  {
    ReachableIsSafe(w, events, device, boot);
    NextTells(Run(w, events, device, boot), e, device, boot);
  }

  lemma NextTells(w: World, e: Event, device: string, boot: string)
    requires Inv(w, device, boot)
    ensures Tells(w, Next(w, e, device, boot))
  {
    StepTells(w, e, device, boot);
  }

  /** A worker never ends with an unknown boot state alone: it is always in doubt about
      its stage too, so poll_ota never answers ota_boot_state_unknown. */
  lemma BootDoubtIsStageDoubt(w: World, events: seq<Event>, device: string, boot: string)
    requires Started(w)
    ensures var v := Run(w, events, device, boot);
            v.task.Idle? && v.control.ota.active && v.control.ota.done && v.control.ota.result.WorkerBootUnknown? ==>
              v.control.ota.stageUncertain
  {
    ReachableIsSafe(w, events, device, boot);
  }

  // ------------------------------------------------- the next update is taken

  function GoodDevice(s: Device.System, req: Receipts.Request): Device.System {
    Device.Next(Device.Next(s, Device.Start(req, Recovery.GOOD_READS)), Device.Store(true, true, true))
  }

  /** The same as one function. */
  function GoodStart(w: World, c: Control.Command, io: Control.CommandIo, device: string, boot: string): World
    requires Control.Sound(w.control) && c.kind.OtaStart?
  {
    var b := w.(device := GoodDevice(w.device, c.kind.ota.image), task := Registering(c, io));
    InsideNext(b, Device.Next(b.device, Device.TaskCreate(true)), device, boot)
  }

  /** A fresh operation for another image of legal size. */
  predicate Fresh(s: Device.System, req: Receipts.Request) {
    && req.wellFormed && req.digest != 0 && 0 < req.size <= Receipts.SLOT_SIZE
    && (s.d.receipt.Some? ==> s.d.receipt.value.operation != req.operation)
    && (At(s.d, s.running).image.Signed? ==> At(s.d, s.running).image.digest != req.digest)
  }

  lemma ReadyAdmits(s: Device.System, req: Receipts.Request)
    requires Safe.Inv(s) && s.pc.Ready? && Fresh(s, req)
    ensures Receipts.Register(s.d, s.running, req, Recovery.GOOD_READS).Admit?
  {
  }

  lemma GoodDeviceStarts(s: Device.System, req: Receipts.Request)
    requires Safe.Inv(s) && s.pc.Ready? && Fresh(s, req)
    ensures Device.Next(s, Device.Start(req, Recovery.GOOD_READS)).pc.StoringIntent?
    ensures var t := GoodDevice(s, req);
            && t.pc == Device.StartingWorker(req)
            && Device.Next(t, Device.TaskCreate(true)) == t.(pc := Device.WorkerLoad(req))
  {
    ReadyAdmits(s, req);
    StartMoves(s, req, Recovery.GOOD_READS);
  }

  /** The tests before registration pass, and the operation is a fresh one. */
  predicate MayStart(w: World, c: Control.Command, io: Control.CommandIo, device: string, boot: string) {
    Free(w) && Starts(w.control, c, device, boot, io) && Fresh(w.device, c.kind.ota.image)
  }

  /** Registration, the stored intent and the new worker, without a fault. */
  function GoodEvents(c: Control.Command, io: Control.CommandIo): seq<Event> {
    [Command(c, io, Recovery.GOOD_READS), Inside(Device.Store(true, true, true)), Inside(Device.TaskCreate(true))]
  }

  lemma GoodStartSteps(w: World, c: Control.Command, io: Control.CommandIo, device: string, boot: string)
    requires Control.Sound(w.control) && Safe.Inv(w.device) && Free(w) && w.device.pc.Ready?
    requires MayStart(w, c, io, device, boot)
    ensures var a := Act(w, Command(c, io, Recovery.GOOD_READS), device, boot);
            && a.control == w.control
            && var b := Act(a, Inside(Device.Store(true, true, true)), device, boot);
            && b.control == w.control
            && Act(b, Inside(Device.TaskCreate(true)), device, boot) == GoodStart(w, c, io, device, boot)
  {
    GoodDeviceStarts(w.device, c.kind.ota.image);
  }

  /** The update runs, with an open answer. */
  predicate Taken(v: World, t: World, c: Control.Command)
    requires c.kind.OtaStart?
  {
    && t.control.ota.active && t.control.ota.request == Some(c.kind.ota)
    && t.device.pc == Device.WorkerLoad(c.kind.ota.image)
    && |v.control.entries| < |t.control.outcomes| && Runs.Open(t.control.outcomes[|v.control.entries|])
  }

  lemma GoodStartRuns(w: World, c: Control.Command, io: Control.CommandIo, device: string, boot: string)
    requires Runs.Inv(w.control) && Control.Sound(w.control) && Safe.Inv(w.device) && Free(w) && w.device.pc.Ready?
    requires MayStart(w, c, io, device, boot)
    ensures Taken(w, GoodStart(w, c, io, device, boot), c)
  {
    GoodDeviceStarts(w.device, c.kind.ota.image);
    StartCommandEnds(w.control, c, device, boot, io.(receipt := Control.Registered, workerStarted := true, failureRecorded := false));
  }

  /** In every reachable state an ota.start that passes the tests before registration,
      for a fresh operation, is taken by a fault-free device: nothing left over from
      earlier updates stands in its way. */
  lemma NextUpdateIsTaken(w: World, events: seq<Event>, c: Control.Command, io: Control.CommandIo, device: string, boot: string)
    requires Started(w) && MayStart(Run(w, events, device, boot), c, io, device, boot)
    ensures Taken(Run(w, events, device, boot), Run(w, events + GoodEvents(c, io), device, boot), c)
  {
    ReachableIsSafe(w, events, device, boot);
    var v := Run(w, events, device, boot);
    StartsWhenReady(v, c, io, device, boot);
    GoodStartRuns(v, c, io, device, boot);
    RunAppend(w, events, GoodEvents(c, io), device, boot);
    GoodEventsRun(v, c, io, device, boot);
  }

  lemma {:induction false} RunAppend(w: World, a: seq<Event>, b: seq<Event>, device: string, boot: string)
    ensures Run(w, a + b, device, boot) == Run(Run(w, a, device, boot), b, device, boot)
    decreases |a|
  {
    if a == [] {
      assert a + b == b;
    } else {
      assert (a + b)[0] == a[0] && (a + b)[1..] == a[1..] + b;
      RunAppend(Next(w, a[0], device, boot), a[1..], b, device, boot);
    }
  }

  lemma RunThree(w: World, a: Event, b: Event, c: Event, device: string, boot: string)
    ensures Run(w, [a, b, c], device, boot)
         == Next(Next(Next(w, a, device, boot), b, device, boot), c, device, boot)
  {
    assert [a, b, c][1..] == [b, c] && [b, c][1..] == [c] && [c][1..] == [];
    var x := Next(w, a, device, boot);
    var y := Next(x, b, device, boot);
    assert Run(y, [c], device, boot) == Run(Next(y, c, device, boot), [], device, boot);
    assert Run(x, [b, c], device, boot) == Run(y, [c], device, boot);
  }

  lemma GoodEventsRun(w: World, c: Control.Command, io: Control.CommandIo, device: string, boot: string)
    requires Control.Sound(w.control) && Safe.Inv(w.device) && MayStart(w, c, io, device, boot) && w.device.pc.Ready?
    ensures Run(w, GoodEvents(c, io), device, boot) == GoodStart(w, c, io, device, boot)
  {
    var e := GoodEvents(c, io);
    RunThree(w, e[0], e[1], e[2], device, boot);
    GoodStartSteps(w, c, io, device, boot);
  }
}
