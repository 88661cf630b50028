/** The control owner of esp_base_protocol.c as a transition system: commands,
    the configuration trial, the OTA worker's completion and the deferred restart
    share one set of static fields. Answers of other components are parameters. */
module ControlSpec {
  import opened Common
  import opened CommandGuard
  import opened ConfigFormat
  import Slots = OtaSlots
  import Receipts = OtaReceipt

  datatype Phase = Blank | Accepted | Running | Succeeded | Failed | Unknown

  datatype Error =
    | NoError | OperationBusy | PhysicalUsbRequired | OtaVerificationPending | OtaInProgress
    | SigningUnavailable | InvalidRequest | ConfigurationBusy | StorageUncertain | BootStateUnknown
    | NetworkUnavailable | TimeUnavailable | BusinessFailed | ResourceFailure | RevisionConflict
    | RevisionExhausted | ConnectionProofFailed | StorageFailure | ReceiptRefused(reason: Refusal)
    | UpdateFailed(code: Slots.FailureCode)

  datatype Outcome = Outcome(phase: Phase, error: Error, viaMqtt: bool)

  /** Why an operation was not registered: the receipt's own answer, or a store that
      could not be opened. */
  datatype Refusal = NotAdmitted(why: Receipts.Registration) | NotStored

  datatype OtaRequest = OtaRequest(image: Receipts.Request, stream: bool)

  datatype WorkerResult = WorkerOk | WorkerBootUnknown | WorkerFailed(code: Slots.FailureCode)

  /** Who holds the storage transaction. */
  datatype Holder = Nobody | Control | Elsewhere

  datatype What = BusinessAction | TrialStarted | OtaStarted | RestartTaken

  datatype Effect = Effect(id: string, what: What)

  datatype Trial = Trial(active: bool, slot: nat, deadline: nat, candidate: Option<Config>)

  datatype Ota = Ota(
    active: bool, slot: nat, request: Option<OtaRequest>,
    done: bool, stageUncertain: bool, result: WorkerResult,
    claimed: bool, download: bool)

  /** `log` is the history of executed actions, oldest first. */
  datatype State = State(
    entries: seq<Entry>, outcomes: seq<Outcome>,
    configUncertain: bool, bootUncertain: bool,
    config: Config, trial: Trial, ota: Ota,
    holder: Holder, pending: bool,
    restartPending: bool, restartSince: nat,
    halted: bool, log: seq<Effect>)

  // ------------------------------------------------------------------ commands

  datatype Kind = Query | FirmwareStatus | ConfigSet(config: Config) | OtaStart(ota: OtaRequest) | Restart | Pause | Resume

  datatype Command = Command(request: Request, kind: Kind, viaMqtt: bool)

  datatype Registered = Registered | RegisterUncertain | Refused(reason: Refusal)

  datatype CommandIo = CommandIo(
    parsed: bool, fingerprinted: bool, now: nat, later: nat, businessOk: bool,
    eotaAvailable: bool, staticValid: bool, wifiReady: bool, timeReady: bool, mqttReady: bool,
    tokensLeft: bool, receipt: Registered, workerStarted: bool, failureRecorded: bool,
    wifiApplied: bool, restored: bool, resultQueued: bool)

  predicate SlotOk(s: State, slot: nat) {
    |s.outcomes| == SLOTS && slot < SLOTS
  }

  /** store_outcome(). */
  function Save(s: State, slot: nat, phase: Phase, error: Error): State
    requires SlotOk(s, slot)
  {
    s.(outcomes := s.outcomes[slot := Outcome(phase, error, s.outcomes[slot].viaMqtt)])
  }

  function Log(s: State, id: string, what: What): State {
    s.(log := s.log + [Effect(id, what)])
  }

  /** restore_committed(): Wi-Fi that cannot be restored is an uncertain state. */
  function Restore(s: State, applied: bool): State {
    s.(configUncertain := s.configUncertain || !applied)
  }

  function NoTrial(s: State): State {
    s.(trial := s.trial.(active := false, candidate := None))
  }

  /** The OTA ends: gate closed, request freed. */
  function NoOta(s: State): State {
    s.(ota := s.ota.(active := false, request := None, download := false))
  }

  /** restart_write_error(). */
  function WriteError(s: State): Error {
    if s.ota.active then OtaInProgress
    else if s.restartPending then OperationBusy
    else if s.bootUncertain then BootStateUnknown
    else if s.trial.active then ConfigurationBusy
    else if s.configUncertain then StorageUncertain
    else NoError
  }

  function Admitted(s: State, c: Command, slot: nat): State
    requires SlotOk(s, slot)
  {
    s.(entries := Remember(s.entries, c.request),
       outcomes := s.outcomes[slot := s.outcomes[slot].(viaMqtt := c.viaMqtt)])
  }

  /** reply_firmware(): the storage transaction is claimed for the query and its own
      claim released again. A release that fails would be a doubt; it succeeds for
      the current holder, and the query is that. */
  function ReplyFirmware(s: State, tokensLeft: bool): State {
    if !s.holder.Nobody? || !tokensLeft then s
    else
      var held := s.(holder := Control);
      if held.holder.Control? then held.(holder := Nobody) else held.(configUncertain := true)
  }

  /** handle_command_line(). */
  function Handle(s: State, c: Command, device: string, boot: string, io: CommandIo): State
    requires |s.outcomes| == SLOTS
  {
    if !io.parsed || c.kind.Query? then s
    else if c.kind.FirmwareStatus? then ReplyFirmware(s, io.tokensLeft)
    else if !io.fingerprinted then s
    else
      var d := Decide(s.entries, c.request, device, boot, io.now);
      if d.Accept? then Execute(Admitted(s, c, d.slot), c, d.slot, io) else s
  }

  function Execute(s: State, c: Command, slot: nat, io: CommandIo): State
    requires SlotOk(s, slot)
  {
    var id := c.request.id;
    if c.kind.Pause? || c.kind.Resume? then
      Save(Log(s, id, BusinessAction), slot, if io.businessOk then Succeeded else Failed,
           if io.businessOk then NoError else BusinessFailed)
    else if s.restartPending then Save(s, slot, Failed, OperationBusy)
    else if c.viaMqtt && c.kind.ConfigSet? then Save(s, slot, Failed, PhysicalUsbRequired)
    else if c.kind.ConfigSet? && s.pending then Save(s, slot, Failed, OtaVerificationPending)
    else if c.kind.ConfigSet? && s.ota.download then Save(s, slot, Failed, OtaInProgress)
    else if c.kind.OtaStart? then
      var refusal := OtaRefusal(s, c.kind.ota, io);
      if refusal != NoError then Save(s, slot, Failed, refusal)
      else StartOta(s, id, c.kind.ota, slot, io)
    else ExecuteWrite(s, c, slot, io)
  }

  /** A configuration change or a restart. */
  function ExecuteWrite(s: State, c: Command, slot: nat, io: CommandIo): State
    requires SlotOk(s, slot)
  {
    var id := c.request.id;
    if WriteError(s) != NoError then Save(s, slot, Failed, WriteError(s))
    else if c.kind.ConfigSet? then
      if c.kind.config.revision != s.config.revision then Save(s, slot, Failed, RevisionConflict)
      else if c.kind.config.revision == UINT32_MAX then Save(s, slot, Failed, RevisionExhausted)
      else StartTrial(s, id, c.kind.config, slot, io)
    else TakeRestart(s, id, c.viaMqtt, slot, io)
  }

  function OtaRefusal(s: State, ota: OtaRequest, io: CommandIo): Error {
    if !io.eotaAvailable then SigningUnavailable
    else if !io.staticValid then InvalidRequest
    else if s.pending then OtaVerificationPending
    else if s.ota.active then OtaInProgress
    else if s.trial.active then ConfigurationBusy
    else if s.configUncertain then StorageUncertain
    else if s.bootUncertain then BootStateUnknown
    else if !io.wifiReady then NetworkUnavailable
    else if !io.timeReady then TimeUnavailable
    else if ota.stream && !io.mqttReady then NetworkUnavailable
    else if s.ota.claimed || s.holder != Nobody || !io.tokensLeft then OperationBusy
    else NoError
  }

  /** esp_base_storage_release(): succeeds exactly for the current holder. */
  function Released(s: State): State {
    if s.ota.claimed && s.holder.Control? then s.(holder := Nobody, ota := s.ota.(claimed := false)) else s
  }

  predicate Releases(s: State) {
    s.ota.claimed && s.holder.Control?
  }

  datatype Answer = Answer(phase: Phase, error: Error)

  predicate SameRecords(s: State, t: State) {
    t.entries == s.entries && t.outcomes == s.outcomes && t.log == s.log
  }

  /** From the claim on: registration, then the worker. */
  function StartOta(s: State, id: string, ota: OtaRequest, slot: nat, io: CommandIo): State
    requires SlotOk(s, slot)
  {
    StartHeld(Held(s), id, ota, slot, io)
  }

  /** The storage transaction is claimed for the OTA. */
  function Held(s: State): State {
    s.(holder := Control, ota := s.ota.(claimed := true))
  }

  function StartHeld(s: State, id: string, ota: OtaRequest, slot: nat, io: CommandIo): State
    requires SlotOk(s, slot)
  {
    var t := Log(s, id, OtaStarted);
    var a := OtaAnswer(t, ota, io);
    Save(OtaEffect(t, ota, slot, io), slot, a.phase, a.error)
  }

  function OtaAnswer(s: State, ota: OtaRequest, io: CommandIo): (a: Answer)
    ensures !a.phase.Blank?
  {
    if io.receipt.RegisterUncertain? || (io.receipt.Refused? && !Releases(s)) then Answer(Unknown, StorageUncertain)
    else if io.receipt.Refused? then Answer(Failed, ReceiptRefused(io.receipt.reason))
    else if io.workerStarted then Answer(if ota.stream then Accepted else Running, NoError)
    else if io.failureRecorded && Releases(s) then Answer(Failed, ResourceFailure)
    else Answer(Unknown, StorageUncertain)
  }

  function OtaEffect(s: State, ota: OtaRequest, slot: nat, io: CommandIo): (t: State)
    ensures SameRecords(s, t)
  {
    if io.receipt.RegisterUncertain? || (io.receipt.Refused? && !Releases(s)) then s.(configUncertain := true)
    else if io.receipt.Refused? then Released(s)
    else if io.workerStarted then OtaBegun(s, ota, slot)
    else if io.failureRecorded && Releases(s) then NoOta(OtaBegun(Released(s), ota, slot))
    else NoOta(OtaBegun(s, ota, slot)).(configUncertain := true)
  }

  function OtaBegun(s: State, ota: OtaRequest, slot: nat): State {
    s.(ota := s.ota.(active := true, slot := slot, request := Some(ota), done := false, stageUncertain := false,
                     download := true))
  }

  function StartTrial(s: State, id: string, config: Config, slot: nat, io: CommandIo): State
    requires SlotOk(s, slot)
  {
    Save(TrialEffect(Log(s, id, TrialStarted), config, slot, io), slot,
         if io.wifiApplied then Running else Failed, if io.wifiApplied then NoError else ConnectionProofFailed)
  }

  function TrialEffect(s: State, config: Config, slot: nat, io: CommandIo): (t: State)
    ensures SameRecords(s, t)
  {
    var t := s.(trial := Trial(io.wifiApplied, slot, io.later + 20000, Some(config)));
    if io.wifiApplied then t else Restore(NoTrial(t), io.restored)
  }

  function TakeRestart(s: State, id: string, viaMqtt: bool, slot: nat, io: CommandIo): State
    requires SlotOk(s, slot)
  {
    if viaMqtt then
      if io.resultQueued then
        Save(Log(s, id, RestartTaken).(restartPending := true, restartSince := io.later), slot, Running, NoError)
      else Save(s, slot, Failed, ResourceFailure)
    else Save(Log(s, id, RestartTaken), slot, Running, NoError).(halted := true)
  }

  // --------------------------------------------------------------------- polls

  datatype Commit = Committed | CommitUncertain | CommitFailed

  /** `proof`: the Wi-Fi state the candidate asks for is reached. */
  datatype TrialIo = TrialIo(
    now: nat, proof: bool, wifiFailed: bool, flash: bool, memory: bool, released: bool,
    commit: Commit, reloaded: Option<Config>, restored: bool)

  /** poll_configuration(). */
  function PollTrial(s: State, io: TrialIo): State
    requires |s.outcomes| == SLOTS && (s.trial.active ==> s.trial.slot < SLOTS && s.trial.candidate.Some?)
  {
    if !s.trial.active then s
    else if io.proof && io.now < s.trial.deadline then
      if !io.flash then s
      else if !io.memory then
        if io.released then Save(Restore(NoTrial(s), io.restored), s.trial.slot, Failed, ResourceFailure)
        else Save(NoTrial(s).(configUncertain := true), s.trial.slot, Unknown, StorageUncertain)
      else EndTrial(s, io)
    else if io.now >= s.trial.deadline || io.wifiFailed then
      Save(Restore(NoTrial(s), io.restored), s.trial.slot, Failed, ConnectionProofFailed)
    else s
  }

  /** The result of the verified commit. A Flash claim that cannot be released
      makes any result uncertain. */
  function CommitResult(io: TrialIo): Commit {
    if io.released then io.commit else CommitUncertain
  }

  /** The configuration in use afterwards; a committed one has the next revision. */
  function ConfigAfter(s: State, io: TrialIo): Config
    requires s.trial.candidate.Some?
  {
    var candidate := s.trial.candidate.value;
    if CommitResult(io).CommitUncertain? && io.reloaded.Some? then io.reloaded.value
    else if io.commit.Committed? then candidate.(revision := candidate.revision + 1)
    else s.config
  }

  function EndTrial(s: State, io: TrialIo): State
    requires |s.outcomes| == SLOTS && s.trial.slot < SLOTS && s.trial.candidate.Some?
  {
    var r := CommitResult(io);
    var doubt := r.CommitUncertain? || (r.CommitFailed? && !io.restored);
    Save(NoTrial(s).(config := ConfigAfter(s, io), configUncertain := s.configUncertain || doubt), s.trial.slot,
         match r { case Committed => Succeeded case CommitUncertain => Unknown case CommitFailed => Failed },
         match r { case Committed => NoError case CommitUncertain => StorageUncertain case CommitFailed => StorageFailure })
  }

  /** poll_ota(). */
  function PollOta(s: State, recorded: bool): State
    requires |s.outcomes| == SLOTS && (s.ota.active ==> s.ota.slot < SLOTS)
  {
    if !s.ota.active || !s.ota.done then s
    else if s.ota.stageUncertain then
      Save(NoOta(s).(configUncertain := true, bootUncertain := true), s.ota.slot, Unknown, StorageUncertain)
    else PollResult(s, recorded)
  }

  function PollResult(s: State, recorded: bool): State
    requires SlotOk(s, s.ota.slot)
  {
    match s.ota.result
      case WorkerOk => Save(s, s.ota.slot, Running, NoError).(halted := true)
      case WorkerBootUnknown => Save(NoOta(s).(bootUncertain := true), s.ota.slot, Unknown, BootStateUnknown)
      case WorkerFailed(code) => PollFailed(s, recorded, code)
  }

  function PollFailed(s: State, recorded: bool, code: Slots.FailureCode): State
    requires SlotOk(s, s.ota.slot)
  {
    if !recorded then Save(NoOta(s).(configUncertain := true), s.ota.slot, Unknown, StorageUncertain)
    else if !Releases(s) then
      Save(NoOta(s.(bootUncertain := true, ota := s.ota.(done := false))), s.ota.slot, Unknown, StorageUncertain)
    else Save(NoOta(Released(s)), s.ota.slot, Failed, UpdateFailed(code))
  }

  /** An unsigned 64-bit difference, which wraps if the clock went back. */
  function Elapsed(now: nat, since: nat): nat {
    (now - since) % (UINT64_MAX + 1)
  }

  /** poll_mqtt_restart(). */
  function PollRestart(s: State, now: nat, acknowledged: bool): State {
    var elapsed := Elapsed(now, s.restartSince);
    if !s.restartPending || elapsed < 100 || (!acknowledged && elapsed < 2000) then s
    else s.(restartPending := false, halted := true)
  }

  // ---------------------------------------------------------------------- runs

  /** Control-task work, the OTA worker's publication and other components. */
  datatype Event =
    | HandleCommand(command: Command, io: CommandIo)
    | PollTrialStep(trialIo: TrialIo)
    | PollOtaStep(recorded: bool)
    | PollRestartStep(now: nat, acknowledged: bool)
    | WorkerEnds(result: WorkerResult, stageUncertain: bool)
    | ElsewhereClaims
    | ElsewhereReleases
    | SetPending(pending: bool)

  /** The fields that handlers dereference are present. */
  predicate Sound(s: State) {
    && |s.outcomes| == SLOTS
    && (s.trial.active ==> s.trial.slot < SLOTS && s.trial.candidate.Some?)
    && (s.ota.active ==> s.ota.slot < SLOTS && s.ota.request.Some?)
  }

  function Next(s: State, e: Event, device: string, boot: string): State
    requires Sound(s)
  {
    if s.halted then s
    else match e
      case HandleCommand(c, io) => Handle(s, c, device, boot, io)
      case PollTrialStep(io) => PollTrial(s, io)
      case PollOtaStep(recorded) => PollOta(s, recorded)
      case PollRestartStep(now, acknowledged) => PollRestart(s, now, acknowledged)
      case WorkerEnds(result, uncertain) =>
        if s.ota.active && !s.ota.done then
          s.(ota := s.ota.(done := true, stageUncertain := uncertain, result := result))
        else s
      case ElsewhereClaims => if s.holder.Nobody? then s.(holder := Elsewhere) else s
      case ElsewhereReleases => if s.holder.Elsewhere? then s.(holder := Nobody) else s
      case SetPending(p) => s.(pending := p)
  }

  /** A fresh boot; startup code may still hold the storage transaction. */
  predicate Initial(s: State) {
    && s.entries == [] && s.log == [] && |s.outcomes| == SLOTS
    && !s.configUncertain && !s.bootUncertain && !s.halted && !s.restartPending
    && !s.trial.active && s.trial.candidate.None?
    && !s.ota.active && s.ota.request.None? && !s.ota.claimed && !s.ota.download
    && !s.holder.Control?
  }
}
