/** The crash-safe update protocol as a transition system: app_main's startup,
    recovery and trial (esp_base_main.c), the accepted ota.start and its worker
    (esp_base_protocol.c), and the durable receipt (esp_base_ota_receipt.c).

    One event is one durable step, or a run of reads between durable steps. All
    nondeterminism (faults, results of the OTA library, the network, power) is in
    the event, so a run is a sequence of events and `Run` is a function. An event
    that does not apply at the current program point changes nothing. */
module OtaProtocol {
  import opened Common
  import opened OtaSlots
  import opened OtaReceipt

  datatype UpdateResult = UpdateOk | BootStateUnknown | UpdateFailed(code: FailureCode)

  /** Who called record_failure: startup recovery, a failed task start, or poll_ota. */
  datatype Origin = AtBoot(pending: bool) | AtStart | AtPoll

  datatype Pc =
    | Off
    // app_main
    | BootStart
    | LocalChecks(pending: bool)
    | Reconciling(pending: bool)
    | RecoveryRetire(pending: bool)
    | Trial(needs: bool)
    | ConfirmReadback(needs: bool)
    | Rejecting
    | RecordingSuccess
    | StoringSuccess(next: Receipt)
    | Halted
    // the control owner and its worker
    | Ready
    | StoringIntent(req: Request, next: Receipt)
    | StartingWorker(req: Request)
    | WorkerLoad(req: Request)
    | WorkerRetire(bound: Receipt)
    | WorkerBegin(bound: Receipt)
    | WorkerPrepare(bound: Receipt)
    | WorkerBoundary(bound: Receipt)
    | WorkerSelect(bound: Receipt)
    | WorkerCleanup(bound: Receipt, code: FailureCode)
    | WorkerSelected
    | RecordingFailure(operation: nat, code: FailureCode, origin: Origin)
    | StoringFailure(next: Receipt, origin: Origin)
    | Stuck

  /** `registered` is a history variable: the target's image when the retained
      intent was stored. */
  datatype System = System(d: Durable, running: Slot, pc: Pc, registered: Image)

  datatype Event =
    | PowerCut
    | Bootloader(junkBoots: bool)
    | Inspect(ok: bool)
    | Check(ok: bool)
    | ReconcileReads(boot: BootReads)
    | Retire(mark: Option<OtaState>, erase: bool, ok: bool)
    | RecordReads(load: bool, observe: bool)
    | Store(handle: bool, written: bool, ok: bool)
    | TrialFailed
    | Confirm(written: bool, ok: bool, saysPending: bool)
    | Readback(ok: bool)
    | Reject(written: bool, ok: bool)
    | Start(req: Request, rd: RegisterReads)
    | TaskCreate(ok: bool)
    | Load(ok: bool)
    | Begin(ok: bool)
    | WriteTarget(image: Image, mark: Option<OtaState>)
    | PrepareEnd(result: UpdateResult)
    | Boundary(ok: bool)
    | Select(written: bool, result: UpdateResult)

  // ------------------------------------------------- contracts of the library

  /** eota_retire_inactive first proves that the source is VALID and selected, and
      touches nothing otherwise. */
  predicate MayRetire(d: Durable, target: Slot) {
    d.boot == Other(target) && At(d, Other(target)).state.Valid?
  }

  /** It may retire the target's otadata entry and erase its image header, in any
      order, and be cut short between the two. */
  function RetireEffect(d: Durable, target: Slot, mark: Option<OtaState>, erase: bool): Durable {
    var rec := At(d, target);
    if !MayRetire(d, target) then d
    else With(d, target, SlotRecord(
      if erase then Erased else rec.image,
      if mark.Some? && Retired(mark.value) then mark.value else rec.state))
  }

  predicate RetireDone(d: Durable, target: Slot) {
    At(d, target).image.Erased? && Retired(At(d, target).state)
  }

  /** It reports success only once both are durable. */
  predicate RetireProved(d: Durable, target: Slot) {
    MayRetire(d, target) && RetireDone(d, target)
  }

  /** eota_prepare writes only the slot that is not running; its otadata entry
      may be retired on the way, never promoted. */
  function WriteEffect(d: Durable, running: Slot, image: Image, mark: Option<OtaState>): Durable {
    var target := Other(running);
    With(d, target, SlotRecord(image,
      if mark.Some? && Retired(mark.value) then mark.value else At(d, target).state))
  }

  /** eota_select marks the prepared slot NEW and selects it in one otadata write. */
  function SelectEffect(d: Durable, running: Slot): Durable {
    With(d, Other(running), At(d, Other(running)).(state := New)).(boot := Other(running))
  }

  /** A selection that reports failure may have written otadata nevertheless. */
  function MaybeSelected(s: System, written: bool): Durable {
    if written then SelectEffect(s.d, s.running) else s.d
  }

  function ConfirmEffect(d: Durable, running: Slot): Durable {
    With(d, running, At(d, running).(state := Valid))
  }

  /** eota_reject_pending invalidates the running trial, which moves the selector. */
  function RejectEffect(d: Durable, running: Slot): Durable {
    With(d, running, At(d, running).(state := Invalid)).(boot := Other(running))
  }

  // ------------------------------------------------------------- control flow

  /** stop_after_local_failure. */
  function Stopped(pending: bool): Pc {
    if pending then Rejecting else Halted
  }

  /** app_main after reconcile_interrupted_ota returned true. */
  function Reconciled(pending: bool, needs: bool): Pc {
    if pending then Trial(needs) else if needs then RecordingSuccess else Ready
  }

  function FailureRecorded(origin: Origin): Pc {
    if origin.AtBoot? then Reconciled(origin.pending, false) else Ready
  }

  function FailureRefused(origin: Origin): Pc {
    if origin.AtBoot? then Stopped(origin.pending) else Stuck
  }

  /** ota_task after a failed stage that may have touched the target. */
  function StageFailed(bound: Receipt, result: UpdateResult): Pc {
    match result
    case UpdateFailed(code) => WorkerCleanup(bound, code)
    case _ => Stuck
  }

  /** store(): an NVS blob write leaves the old or the new value; success means
      that the new value was read back. */
  function StoreEffect(d: Durable, next: Receipt, e: Event): Durable
    requires e.Store?
  {
    if e.handle && (e.written || e.ok) then d.(receipt := Some(next)) else d
  }

  function NextBoot(s: System, e: Event): System {
    match (s.pc, e)
    case (Off, Bootloader(junk)) =>
      var choice := BootChoice(s.d, junk);
      if choice.None? then s.(d := BootMarks(s.d))
      else s.(d := BootMarks(s.d), running := choice.value, pc := BootStart)
    case (BootStart, Inspect(ok)) =>
      s.(pc := if ok then LocalChecks(At(s.d, s.running).state.Pending?) else Halted)
    case (LocalChecks(pending), Check(ok)) =>
      s.(pc := if ok then Reconciling(pending) else Stopped(pending))
    case (Reconciling(pending), ReconcileReads(rd)) =>
      (match Reconcile(s.d, s.running, rd)
       case Unresolved => s.(pc := Stopped(pending))
       case Resolved(needs) => s.(pc := Reconciled(pending, needs))
       case RetireTarget => s.(pc := RecoveryRetire(pending)))
    case (RecoveryRetire(pending), Retire(mark, erase, ok)) =>
      if s.d.receipt.None? then s
      else
        var r := s.d.receipt.value;
        var d := RetireEffect(s.d, r.target, mark, erase);
        s.(d := d, pc := if ok && RetireProved(d, r.target)
                         then RecordingFailure(r.operation, ResourceFailure, AtBoot(pending))
                         else Stopped(pending))
    case (Trial(needs), TrialFailed) => s.(pc := Rejecting)
    case (Trial(needs), Confirm(written, ok, saysPending)) =>
      // A failed confirmation may report either state, and may have been written.
      var d := if written || ok then ConfirmEffect(s.d, s.running) else s.d;
      s.(d := d, pc := if ok then ConfirmReadback(needs) else if saysPending then Rejecting else Halted)
    case (ConfirmReadback(needs), Readback(ok)) =>
      s.(pc := if !ok || !At(s.d, s.running).state.Valid? then Halted
               else if needs then RecordingSuccess else Ready)
    case (Rejecting, Reject(written, ok)) =>
      var d := if written || ok then RejectEffect(s.d, s.running) else s.d;
      s.(d := d, pc := if ok then Off else Halted)
    case (RecordingSuccess, RecordReads(load, observe)) =>
      (match RecordSuccess(s.d, s.running, load, observe)
       case Refused => s.(pc := Halted)
       case AlreadyRecorded => s.(pc := Ready)
       case Write(next) => s.(pc := StoringSuccess(next)))
    case (StoringSuccess(next), Store(handle, written, ok)) =>
      s.(d := StoreEffect(s.d, next, e), pc := if handle && ok then Ready else Halted)
    case _ => s
  }

  /** The accepted ota.start: registration and the start of its worker. */
  function NextStart(s: System, e: Event): System {
    match (s.pc, e)
    case (Ready, Start(req, rd)) =>
      (match Register(s.d, s.running, req, rd)
       case Admit(next) => s.(pc := StoringIntent(req, next))
       case StorageUncertain => s.(pc := Stuck)
       case _ => s)
    case (StoringIntent(req, next), Store(handle, written, ok)) =>
      var d := StoreEffect(s.d, next, e);
      s.(d := d,
         registered := if d == s.d then s.registered else At(s.d, next.target).image,
         pc := if !handle then Ready else if ok then StartingWorker(req) else Stuck)
    case (StartingWorker(req), TaskCreate(ok)) =>
      s.(pc := if ok then WorkerLoad(req) else RecordingFailure(req.operation, ResourceFailure, AtStart))
    case _ => s
  }

  /** ota_task. */
  function NextWorker(s: System, e: Event): System {
    match (s.pc, e)
    case (WorkerLoad(req), Load(ok)) =>
      if ok && s.d.receipt.Some?
         && var r := s.d.receipt.value;
            r.status.Prepared? && r.operation == req.operation && r.size == req.size && r.digest == req.digest
      then s.(pc := WorkerRetire(s.d.receipt.value))
      else s.(pc := Stuck)
    case (WorkerRetire(r), Retire(mark, erase, ok)) =>
      var d := RetireEffect(s.d, r.target, mark, erase);
      s.(d := d, pc := if ok && RetireProved(d, r.target) then WorkerBegin(r) else Stuck)
    case (WorkerBegin(r), Begin(ok)) =>
      s.(pc := if ok then WorkerPrepare(r) else RecordingFailure(r.operation, ResourceFailure, AtPoll))
    case (WorkerPrepare(r), WriteTarget(image, mark)) =>
      s.(d := WriteEffect(s.d, s.running, image, mark))
    case (WorkerPrepare(r), PrepareEnd(result)) =>
      if result.UpdateOk? then
        // eota_prepare verifies signature, length and digest before succeeding.
        (if At(s.d, Other(s.running)).image == Signed(r.digest, r.size) then s.(pc := WorkerBoundary(r)) else s)
      else s.(pc := StageFailed(r, result))
    case (WorkerBoundary(r), Boundary(ok)) =>
      s.(pc := if ok then WorkerSelect(r) else WorkerCleanup(r, DownloadFailed))
    case (WorkerSelect(r), Select(written, result)) =>
      (match result
       case UpdateOk => s.(d := SelectEffect(s.d, s.running), pc := WorkerSelected)
       case BootStateUnknown => s.(d := MaybeSelected(s, written), pc := Stuck)
       case UpdateFailed(code) => s.(d := MaybeSelected(s, written), pc := WorkerCleanup(r, code)))
    case (WorkerCleanup(r, code), Retire(mark, erase, ok)) =>
      var d := RetireEffect(s.d, r.target, mark, erase);
      s.(d := d, pc := if ok && RetireProved(d, r.target) then RecordingFailure(r.operation, code, AtPoll)
                       else Stuck)
    case _ => s
  }

  function NextRecord(s: System, e: Event): System {
    match (s.pc, e)
    case (RecordingFailure(operation, code, origin), RecordReads(load, observe)) =>
      (match RecordFailure(s.d, s.running, operation, code, load, observe)
       case Refused => s.(pc := FailureRefused(origin))
       case AlreadyRecorded => s.(pc := FailureRecorded(origin))
       case Write(next) => s.(pc := StoringFailure(next, origin)))
    case (StoringFailure(next, origin), Store(handle, written, ok)) =>
      s.(d := StoreEffect(s.d, next, e),
         pc := if handle && ok then FailureRecorded(origin) else FailureRefused(origin))
    case _ => s
  }

  /** poll_ota's restart after a selected candidate is a power cycle too. */
  function Next(s: System, e: Event): System {
    if e.PowerCut? then s.(pc := Off)
    else
      match s.pc
      case Halted | Stuck | WorkerSelected => s
      case Ready | StoringIntent(_, _) | StartingWorker(_) => NextStart(s, e)
      case WorkerLoad(_) | WorkerRetire(_) | WorkerBegin(_) | WorkerPrepare(_) | WorkerBoundary(_)
           | WorkerSelect(_) | WorkerCleanup(_, _) => NextWorker(s, e)
      case RecordingFailure(_, _, _) | StoringFailure(_, _) => NextRecord(s, e)
      case _ => NextBoot(s, e)
  }

  function Run(s: System, events: seq<Event>): System
    decreases |events|
  {
    if events == [] then s
    else Next(Run(s, events[..|events| - 1]), events[|events| - 1])
  }

  /** After the wired assembly: one confirmed signed image is selected, nothing
      is on trial and no operation is retained. The other slot is arbitrary. */
  predicate Initial(s: System) {
    && s.pc.Off?
    && s.d.receipt.None?
    && At(s.d, s.d.boot).state.Valid? && Verified(At(s.d, s.d.boot).image)
    && !At(s.d, Other(s.d.boot)).state.New? && !At(s.d, Other(s.d.boot)).state.Pending?
  }
}
