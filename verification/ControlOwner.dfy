/** The static fields of esp_base_protocol.c and the handlers that update them. The
    class invariant is the one every run of the transition system keeps, so what is
    proved of runs holds of every object, whatever is called on it. */
module ControlOwner {
  import opened Common
  import opened CommandGuard
  import opened ConfigFormat
  import opened Spec = ControlSpec
  import Runs = ControlRuns
  import OtaSlots

  class Owner {
    const guard: Guard
    const outcomes: array<Outcome>
    var configUncertain: bool
    var bootUncertain: bool
    var config: Config
    var trial: Trial
    var ota: Ota
    /** The shared storage owner's view of who holds the transaction. */
    var holder: Holder
    var pending: bool
    var restartPending: bool
    var restartSince: nat
    var halted: bool
    ghost var log: seq<Effect>

    constructor (c: Config, startupHolds: bool)
      ensures Valid() && Initial(Value()) && config == c
      ensures fresh(outcomes) && fresh(guard) && fresh(guard.entries)
    {
      guard := new Guard();
      outcomes := new Outcome[SLOTS](_ => Outcome(Blank, NoError, false));
      configUncertain, bootUncertain, pending, restartPending, halted := false, false, false, false, false;
      config, restartSince, log := c, 0, [];
      trial := Trial(false, 0, 0, None);
      ota := Ota(false, 0, None, false, false, WorkerBootUnknown, false, false);
      holder := if startupHolds then Elsewhere else Nobody;
    }

    /** Array shapes; what steps inside a handler keep. */
    ghost predicate Shaped()
      reads this, guard
    {
      guard.Valid() && guard.count <= SLOTS && outcomes.Length == SLOTS
    }

    ghost function Value(): (s: State)
      requires Shaped()
      reads this, guard, guard.entries, outcomes
      ensures |s.outcomes| == SLOTS
    {
      State(guard.Entries(), outcomes[..], configUncertain, bootUncertain, config, trial, ota, holder, pending,
            restartPending, restartSince, halted, log)
    }

    /** What every handler keeps. */
    ghost predicate Valid()
      reads this, guard, guard.entries, outcomes
    {
      Shaped() && Runs.Inv(Value())
    }

    /** store_outcome(). */
    method Save(slot: nat, phase: Phase, error: Error)
      requires Shaped() && slot < SLOTS
      modifies outcomes
      ensures Shaped() && Value() == Spec.Save(old(Value()), slot, phase, error)
    {
      outcomes[slot] := Outcome(phase, error, outcomes[slot].viaMqtt);
    }

    /** esp_base_storage_release() of the OTA claim. */
    method ReleaseStorage() returns (ok: bool)
      requires Shaped()
      modifies this
      ensures Shaped() && ok == Releases(old(Value())) && Value() == Released(old(Value()))
    {
      ok := ota.claimed && holder.Control?;
      if ok {
        holder := Nobody;
        ota := ota.(claimed := false);
      }
    }

    /** clear_ota_request() and closing the download gate. */
    method EndOta()
      requires Shaped()
      modifies this
      ensures Shaped() && Value() == NoOta(old(Value()))
    {
      ota := ota.(active := false, request := None, download := false);
    }

    method EndTrial()
      requires Shaped()
      modifies this
      ensures Shaped() && Value() == NoTrial(old(Value()))
    {
      trial := trial.(active := false, candidate := None);
    }

    method RestoreCommitted(applied: bool)
      requires Shaped()
      modifies this
      ensures Shaped() && Value() == Restore(old(Value()), applied)
    {
      if !applied { configUncertain := true; }
    }

    /** handle_command_line(). Whatever arrives, the invariant and the step rules
        hold, and nothing under a known request ID changes anything. */
    method HandleCommandLine(c: Command, device: string, boot: string, io: CommandIo)
      requires Valid() && io.now <= UINT64_MAX
      modifies this, guard, guard.entries, outcomes
      ensures Valid() && Runs.StepOk(old(Value()), Value())
      ensures Value() == Handle(old(Value()), c, device, boot, io)
      ensures old(Known(guard.Entries(), c.request.id)) ==> Value() == old(Value())
    {
      Runs.CommandKeeps(Value(), c, device, boot, io);
      DispatchCommand(c, device, boot, io);
    }

    method DispatchCommand(c: Command, device: string, boot: string, io: CommandIo)
      requires Shaped() && Runs.Exclusive(Value()) && io.now <= UINT64_MAX
      modifies this, guard, guard.entries, outcomes
      ensures Shaped() && Value() == Handle(old(Value()), c, device, boot, io)
    {
      if !io.parsed || c.kind.Query? { return; }
      if c.kind.FirmwareStatus? {
        ReplyFirmware(io.tokensLeft);
        return;
      }
      if !io.fingerprinted { return; }
      AdmitAndExecute(c, device, boot, io);
    }

    /** reply_firmware(), as far as it touches the static fields. */
    method ReplyFirmware(tokensLeft: bool)
      requires Shaped()
      modifies this
      ensures Shaped() && Value() == Spec.ReplyFirmware(old(Value()), tokensLeft)
    {
      if holder != Nobody || !tokensLeft { return; }
      holder := Control;
      // The slots are read here; the release of the task's own claim succeeds.
      holder := Nobody;
    }

    method AdmitAndExecute(c: Command, device: string, boot: string, io: CommandIo)
      requires Shaped() && Runs.Exclusive(Value()) && io.now <= UINT64_MAX
      modifies this, guard, guard.entries, outcomes
      ensures Shaped()
      ensures var s := old(Value());
              var d := Decide(s.entries, c.request, device, boot, io.now);
              Value() == if d.Accept? then Execute(Admitted(s, c, d.slot), c, d.slot, io) else s
    {
      var d := AdmitCommand(c, device, boot, io.now);
      if d.Accept? { ExecuteAdmitted(c, d.slot, io); }
    }

    method AdmitCommand(c: Command, device: string, boot: string, now: u64) returns (d: Admission)
      requires Shaped()
      modifies guard, guard.entries, outcomes
      ensures Shaped() && d == Decide(old(guard.Entries()), c.request, device, boot, now)
      ensures Value() == if d.Accept? then Admitted(old(Value()), c, d.slot) else old(Value())
    {
      d := guard.Admit(c.request, device, boot, now);
      if d.Accept? { outcomes[d.slot] := outcomes[d.slot].(viaMqtt := c.viaMqtt); }
    }

    method ExecuteAdmitted(c: Command, slot: nat, io: CommandIo)
      requires Shaped() && slot < SLOTS && Runs.Exclusive(Value())
      modifies this, outcomes
      ensures Shaped() && Value() == Execute(old(Value()), c, slot, io)
    {
      if c.kind.Pause? || c.kind.Resume? {
        log := log + [Effect(c.request.id, BusinessAction)];
        Save(slot, if io.businessOk then Succeeded else Failed, if io.businessOk then NoError else BusinessFailed);
        return;
      }
      if restartPending { Save(slot, Failed, OperationBusy); return; }
      if c.viaMqtt && c.kind.ConfigSet? { Save(slot, Failed, PhysicalUsbRequired); return; }
      if c.kind.ConfigSet? {
        if pending { Save(slot, Failed, OtaVerificationPending); return; }
        if ota.download { Save(slot, Failed, OtaInProgress); return; }
      }
      if c.kind.OtaStart? {
        var refusal := ClaimForOta(c.kind.ota, io);
        if refusal != NoError { Save(slot, Failed, refusal); return; }
        RegisterAndStart(c.request.id, c.kind.ota, slot, io);
        return;
      }
      WriteOrRestart(c, slot, io);
    }

    method WriteOrRestart(c: Command, slot: nat, io: CommandIo)
      requires Shaped() && slot < SLOTS && Runs.Exclusive(Value())
      modifies this, outcomes
      ensures Shaped() && Value() == ExecuteWrite(old(Value()), c, slot, io)
    {
      var error := RestartWriteError();
      assert error == WriteError(Value());
      if error != NoError { Save(slot, Failed, error); return; }
      if c.kind.ConfigSet? {
        if c.kind.config.revision != config.revision { Save(slot, Failed, RevisionConflict); return; }
        if c.kind.config.revision == UINT32_MAX { Save(slot, Failed, RevisionExhausted); return; }
        BeginTrial(c.request.id, c.kind.config, slot, io);
      } else {
        BeginRestart(c.request.id, c.viaMqtt, slot, io);
      }
    }

    /** restart_write_error(). Writing is allowed exactly when nothing is active or
        in doubt, and since at most one of OTA, trial, restart and doubt is present,
        the answer names the one that is, independent of the order of the tests. */
    method RestartWriteError() returns (error: Error)
      requires Shaped() && Runs.Exclusive(Value())
      ensures error.NoError? <==> !ota.active && !trial.active && !restartPending && !configUncertain && !bootUncertain
      ensures error.OtaInProgress? <==> ota.active
      ensures error.ConfigurationBusy? <==> trial.active
      ensures error.OperationBusy? <==> restartPending
      ensures error.BootStateUnknown? <==> bootUncertain
      ensures error.StorageUncertain? <==> configUncertain && !bootUncertain
    {
      if ota.active { return OtaInProgress; }
      if restartPending { return OperationBusy; }
      if bootUncertain { return BootStateUnknown; }
      if trial.active { return ConfigurationBusy; }
      if configUncertain { return StorageUncertain; }
      return NoError;
    }

    /** The tests of ota.start up to and including the storage claim. */
    method ClaimForOta(request: OtaRequest, io: CommandIo) returns (refusal: Error)
      requires Shaped()
      modifies this
      ensures Shaped() && refusal == OtaRefusal(old(Value()), request, io)
      ensures Value() == if refusal == NoError then Held(old(Value())) else old(Value())
    {
      if !io.eotaAvailable { return SigningUnavailable; }
      if !io.staticValid { return InvalidRequest; }
      if pending { return OtaVerificationPending; }
      if ota.active { return OtaInProgress; }
      if trial.active { return ConfigurationBusy; }
      if configUncertain { return StorageUncertain; }
      if bootUncertain { return BootStateUnknown; }
      if !io.wifiReady { return NetworkUnavailable; }
      if !io.timeReady { return TimeUnavailable; }
      if request.stream && !io.mqttReady { return NetworkUnavailable; }
      if ota.claimed || holder != Nobody || !io.tokensLeft { return OperationBusy; }
      holder := Control;
      ota := ota.(claimed := true);
      return NoError;
    }

    method RegisterAndStart(id: string, request: OtaRequest, slot: nat, io: CommandIo)
      requires Shaped() && slot < SLOTS && ota.claimed && holder.Control?
      modifies this, outcomes
      ensures Shaped() && Value() == StartHeld(old(Value()), id, request, slot, io)
    {
      log := log + [Effect(id, OtaStarted)];
      if !io.receipt.Registered? {
        RefuseOta(request, slot, io);
      } else {
        StartWorker(request, slot, io);
      }
    }

    /** What the answer and the effect of a started OTA come to. */
    ghost predicate Started(s: State, request: OtaRequest, slot: nat, io: CommandIo)
      requires Shaped() && SlotOk(s, slot)
      reads this, guard, guard.entries, outcomes
    {
      var a := OtaAnswer(s, request, io);
      Value() == Spec.Save(OtaEffect(s, request, slot, io), slot, a.phase, a.error)
    }

    method RefuseOta(request: OtaRequest, slot: nat, io: CommandIo)
      requires Shaped() && slot < SLOTS && !io.receipt.Registered?
      modifies this, outcomes
      ensures Shaped() && Started(old(Value()), request, slot, io)
    {
      var uncertain := io.receipt.RegisterUncertain?;
      if !uncertain {
        var released := ReleaseStorage();
        uncertain := !released;
      }
      if uncertain {
        configUncertain := true;
        Save(slot, Unknown, StorageUncertain);
      } else {
        Save(slot, Failed, ReceiptRefused(io.receipt.reason));
      }
    }

    method StartWorker(request: OtaRequest, slot: nat, io: CommandIo)
      requires Shaped() && slot < SLOTS && io.receipt.Registered?
      modifies this, outcomes
      ensures Shaped() && Started(old(Value()), request, slot, io)
    {
      ghost var s := Value();
      ota := ota.(active := true, slot := slot, request := Some(request), done := false, stageUncertain := false,
                  download := true);
      assert Value() == OtaBegun(s, request, slot);
      if io.workerStarted {
        Save(slot, if request.stream then Accepted else Running, NoError);
      } else {
        AbandonStart(slot, io.failureRecorded);
      }
    }

    /** The worker could not be created: the failure is recorded first; only then
        may the transaction end. */
    method AbandonStart(slot: nat, recorded: bool)
      requires Shaped() && slot < SLOTS
      modifies this, outcomes
      ensures Shaped()
      ensures var s := old(Value());
              Value() == if recorded && Releases(s) then Spec.Save(NoOta(Released(s)), slot, Failed, ResourceFailure)
                         else Spec.Save(NoOta(s).(configUncertain := true), slot, Unknown, StorageUncertain)
    {
      var failed := recorded;
      if failed { failed := ReleaseStorage(); }
      EndOta();
      if failed {
        Save(slot, Failed, ResourceFailure);
      } else {
        configUncertain := true;
        Save(slot, Unknown, StorageUncertain);
      }
    }

    method BeginTrial(id: string, candidate: Config, slot: nat, io: CommandIo)
      requires Shaped() && slot < SLOTS
      modifies this, outcomes
      ensures Shaped() && Value() == StartTrial(old(Value()), id, candidate, slot, io)
    {
      ghost var s := Log(Value(), id, TrialStarted);
      log := log + [Effect(id, TrialStarted)];
      trial := Trial(false, slot, io.later + 20000, Some(candidate));
      assert Value() == s.(trial := trial);
      ApplyTrial(slot, io);
    }

    /** The request is answered as running before its Wi-Fi is tried. */
    method ApplyTrial(slot: nat, io: CommandIo)
      requires Shaped() && slot < SLOTS && !trial.active
      modifies this, outcomes
      ensures Shaped()
      ensures var s := old(Value());
              Value() == if io.wifiApplied then Spec.Save(s.(trial := s.trial.(active := true)), slot, Running, NoError)
                         else Spec.Save(Restore(NoTrial(s), io.restored), slot, Failed, ConnectionProofFailed)
    {
      ghost var was := outcomes[..];
      Save(slot, Running, NoError);
      if io.wifiApplied {
        trial := trial.(active := true);
      } else {
        AbandonTrial(slot, io.restored);
        assert outcomes[..] == was[slot := outcomes[slot]];
      }
    }

    /** The candidate's Wi-Fi could not be applied, or proved in time. */
    method AbandonTrial(slot: nat, restored: bool)
      requires Shaped() && slot < SLOTS
      modifies this, outcomes
      ensures Shaped()
      ensures Value() == Spec.Save(Restore(NoTrial(old(Value())), restored), slot, Failed, ConnectionProofFailed)
    {
      EndTrial();
      RestoreCommitted(restored);
      Save(slot, Failed, ConnectionProofFailed);
    }

    method BeginRestart(id: string, viaMqtt: bool, slot: nat, io: CommandIo)
      requires Shaped() && slot < SLOTS
      modifies this, outcomes
      ensures Shaped() && Value() == TakeRestart(old(Value()), id, viaMqtt, slot, io)
    {
      if viaMqtt {
        Save(slot, Running, NoError);
        if !io.resultQueued { Save(slot, Failed, ResourceFailure); return; }
        log := log + [Effect(id, RestartTaken)];
        restartSince := io.later;
        restartPending := true;
      } else {
        log := log + [Effect(id, RestartTaken)];
        Save(slot, Running, NoError);
        halted := true;
      }
    }

    /** poll_configuration(). At its deadline a trial has its final answer. */
    method PollConfiguration(io: TrialIo)
      requires Valid()
      modifies this, outcomes
      ensures Valid() && Runs.StepOk(old(Value()), Value())
      ensures Value() == PollTrial(old(Value()), io)
      ensures old(trial.active) && io.now >= old(trial.deadline) ==>
                !trial.active && old(trial.slot) < SLOTS && Runs.Terminal(outcomes[old(trial.slot)]) && config == old(config)
    {
      Runs.PollTrialKeeps(Value(), io);
      if trial.active {
        Runs.PolledTrialAnswers(Value(), io);
        Runs.PollTrialGates(Value(), io);
      }
      EndOrKeepTrial(io);
    }

    method EndOrKeepTrial(io: TrialIo)
      requires Shaped() && Sound(Value())
      modifies this, outcomes
      ensures Shaped() && Value() == PollTrial(old(Value()), io)
    {
      if !trial.active { return; }
      var slot := trial.slot;
      if io.proof && io.now < trial.deadline {
        if !io.flash { return; }
        if io.memory {
          CommitTrial(io);
        } else {
          EndTrial();
          if io.released {
            RestoreCommitted(io.restored);
            Save(slot, Failed, ResourceFailure);
          } else {
            configUncertain := true;
            Save(slot, Unknown, StorageUncertain);
          }
        }
      } else if io.now >= trial.deadline || io.wifiFailed {
        AbandonTrial(slot, io.restored);
      }
    }

    method CommitTrial(io: TrialIo)
      requires Shaped() && trial.slot < SLOTS && trial.candidate.Some?
      modifies this, outcomes
      ensures Shaped() && Value() == Spec.EndTrial(old(Value()), io)
    {
      var slot, error := trial.slot, io.commit;
      if error.Committed? {
        config := trial.candidate.value.(revision := trial.candidate.value.revision + 1);
      }
      if !io.released { error := CommitUncertain; }
      EndTrial();
      if error.CommitUncertain? && io.reloaded.Some? { config := io.reloaded.value; }
      if error.Committed? {
        Save(slot, Succeeded, NoError);
      } else if error.CommitUncertain? {
        configUncertain := true;
        Save(slot, Unknown, StorageUncertain);
      } else {
        RestoreCommitted(io.restored);
        Save(slot, Failed, StorageFailure);
      }
    }

    /** Close the gate, answer the request and free it. */
    method CloseOta(phase: Phase, error: Error)
      requires Shaped() && ota.slot < SLOTS
      modifies this, outcomes
      ensures Shaped() && Value() == Spec.Save(NoOta(old(Value())), old(ota.slot), phase, error)
    {
      var slot := ota.slot;
      EndOta();
      Save(slot, phase, error);
    }

    /** poll_ota(). A worker that has ended leaves a final answer, or the device
        restarts into its candidate. */
    method PollOta(recorded: bool)
      requires Valid()
      modifies this, outcomes
      ensures Valid() && Runs.StepOk(old(Value()), Value())
      ensures Value() == Spec.PollOta(old(Value()), recorded)
      ensures old(ota.active && ota.done) ==>
                halted || (!ota.active && old(ota.slot) < SLOTS && Runs.Terminal(outcomes[old(ota.slot)]))
    {
      Runs.PollOtaKeeps(Value(), recorded);
      if ota.active && ota.done { Runs.PolledOtaAnswers(Value(), recorded); }
      EndOrKeepOta(recorded);
    }

    method EndOrKeepOta(recorded: bool)
      requires Shaped() && Sound(Value())
      modifies this, outcomes
      ensures Shaped() && Value() == Spec.PollOta(old(Value()), recorded)
    {
      if !ota.active || !ota.done { return; }
      if ota.stageUncertain {
        configUncertain, bootUncertain := true, true;
        CloseOta(Unknown, StorageUncertain);
      } else {
        FinishWorker(recorded);
      }
    }

    method FinishWorker(recorded: bool)
      requires Shaped() && ota.slot < SLOTS
      modifies this, outcomes
      ensures Shaped() && Value() == PollResult(old(Value()), recorded)
    {
      match ota.result
      case WorkerOk =>
        Save(ota.slot, Running, NoError);
        halted := true;
      case WorkerBootUnknown =>
        bootUncertain := true;
        CloseOta(Unknown, BootStateUnknown);
      case WorkerFailed(code) =>
        FinishFailed(recorded, code);
    }

    /** The failure is recorded first; only then may the transaction end. */
    method FinishFailed(recorded: bool, code: OtaSlots.FailureCode)
      requires Shaped() && ota.slot < SLOTS
      modifies this, outcomes
      ensures Shaped() && Value() == PollFailed(old(Value()), recorded, code)
    {
      if !recorded {
        configUncertain := true;
        CloseOta(Unknown, StorageUncertain);
        return;
      }
      var released := ReleaseStorage();
      if released {
        CloseOta(Failed, UpdateFailed(code));
      } else {
        bootUncertain := true;
        ota := ota.(done := false);
        CloseOta(Unknown, StorageUncertain);
      }
    }

    /** poll_mqtt_restart(). On a clock that has not wrapped since, the restart
        comes not before 100 ms and not after the first poll past 2000 ms. */
    method PollMqttRestart(now: nat, acknowledged: bool)
      requires Valid()
      modifies this
      ensures Valid() && Runs.StepOk(old(Value()), Value())
      ensures Value() == PollRestart(old(Value()), now, acknowledged)
      ensures old(restartPending) && old(restartSince) + 2000 <= now <= old(restartSince) + UINT64_MAX ==> halted
      ensures old(restartSince) <= now < old(restartSince) + 100 ==> Value() == old(Value())
      ensures halted && !old(halted) ==> old(restartPending) && !restartPending && !configUncertain && !bootUncertain
    {
      Runs.RestartKeeps(Value(), now, acknowledged);
      if !restartPending || Elapsed(now, restartSince) < 100 { return; }
      if !acknowledged && Elapsed(now, restartSince) < 2000 { return; }
      restartPending := false;
      halted := true;
    }

    // --------------------------------------------------------- any order of work

    /** One piece of work: a handler or poll of the control task, the worker's
        publication, or another component's claim. A device that restarts does
        nothing more. */
    method Dispatch(e: Event, device: string, boot: string)
      requires Valid() && (e.HandleCommand? ==> e.io.now <= UINT64_MAX)
      modifies this, guard, guard.entries, outcomes
      ensures Valid() && Value() == Next(old(Value()), e, device, boot)
    {
      if halted { return; }
      match e
      case HandleCommand(c, io) => HandleCommandLine(c, device, boot, io);
      case PollTrialStep(io) => PollConfiguration(io);
      case PollOtaStep(recorded) => PollOta(recorded);
      case PollRestartStep(now, acknowledged) => PollMqttRestart(now, acknowledged);
      case _ => Outside(e);
    }

    method Outside(e: Event)
      requires Valid() && !halted && !e.HandleCommand? && !e.PollTrialStep? && !e.PollOtaStep? && !e.PollRestartStep?
      modifies this
      ensures Valid() && Value() == Next(old(Value()), e, "", "")
    {
      Runs.OthersKeep(Value(), e);
      match e
      case WorkerEnds(result, uncertain) =>
        if ota.active && !ota.done { ota := ota.(done := true, stageUncertain := uncertain, result := result); }
      case ElsewhereClaims => if holder.Nobody? { holder := Elsewhere; }
      case ElsewhereReleases => if holder.Elsewhere? { holder := Nobody; }
      case SetPending(p) => pending := p;
    }

    /** Any sequence of work, in any order: the object goes through exactly the run
        of the transition system, keeps every answer and never clears a doubt. */
    method Serve(events: seq<Event>, device: string, boot: string)
      requires Valid() && forall i :: 0 <= i < |events| && events[i].HandleCommand? ==> events[i].io.now <= UINT64_MAX
      modifies this, guard, guard.entries, outcomes
      ensures Valid() && Value() == Runs.Run(old(Value()), events, device, boot)
      ensures Runs.RunOk(old(Value()), Value())
      ensures old(configUncertain || bootUncertain) ==>
                forall i :: |old(log)| <= i < |log| ==> log[i].what.BusinessAction?
    {
      ghost var s := Value();
      assert events[0..] == events;
      for k := 0 to |events|
        invariant Valid() && Runs.Run(Value(), events[k..], device, boot) == Runs.Run(s, events, device, boot)
      {
        assert events[k..][0] == events[k] && events[k..][1..] == events[k + 1..];
        Dispatch(events[k], device, boot);
      }
      Runs.RunKeepsAnswers(s, events, device, boot);
      if Runs.Uncertain(s) { Runs.DoubtBlocks(s, events, device, boot); }
    }
  }
}
