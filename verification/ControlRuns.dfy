/** What holds of the control owner over every run of one boot. */
module ControlRuns {
  import opened Common
  import opened CommandGuard
  import opened ControlSpec

  // ------------------------------------------------------------- the invariant

  predicate Terminal(o: Outcome) {
    o.phase.Succeeded? || o.phase.Failed? || o.phase.Unknown?
  }

  predicate Open(o: Outcome) {
    o.phase.Running? || o.phase.Accepted?
  }

  predicate Uncertain(s: State) {
    s.configUncertain || s.bootUncertain
  }

  /** Every admitted request has an answer. */
  predicate Answered(s: State) {
    |s.outcomes| == SLOTS && |s.entries| <= SLOTS && forall i :: 0 <= i < |s.entries| ==> s.outcomes[i].phase != Blank
  }

  /** Only admitted requests were executed, each at most once. */
  predicate ExecutedOnce(s: State) {
    && (forall i :: 0 <= i < |s.log| ==> Known(s.entries, s.log[i].id))
    && forall i, j :: 0 <= i < j < |s.log| ==> s.log[i].id != s.log[j].id
  }

  predicate TrialOk(s: State) {
    && s.trial.active == s.trial.candidate.Some?
    && (s.trial.active ==> s.trial.slot < |s.entries| && s.trial.slot < |s.outcomes| && Open(s.outcomes[s.trial.slot]))
  }

  /** The active OTA owns its request, its open answer, the gate and the storage
      transaction. */
  predicate OtaOk(s: State) {
    && s.ota.active == s.ota.request.Some? == s.ota.download
    && (s.ota.active ==> s.ota.claimed && s.ota.slot < |s.entries| && s.ota.slot < |s.outcomes| && Open(s.outcomes[s.ota.slot]))
    && s.ota.claimed == s.holder.Control?
    && (s.ota.claimed && !s.ota.active ==> Uncertain(s))
  }

  /** At most one of trial, OTA and pending restart, and none of them while
      storage or boot state is uncertain. */
  predicate Exclusive(s: State) {
    && !(s.trial.active && s.ota.active) && !(s.restartPending && (s.trial.active || s.ota.active))
    && (s.trial.active || s.ota.active || s.restartPending ==> !Uncertain(s))
  }

  predicate Inv(s: State) {
    Distinct(s.entries) && Answered(s) && ExecutedOnce(s) && TrialOk(s) && OtaOk(s) && Exclusive(s)
  }

  // -------------------------------------------------------------- single steps

  /** What any step may do: answers and history only grow, doubt never clears,
      and an execution needs a newly admitted request and no doubt. */
  predicate StepOk(s: State, t: State) {
    && s.entries <= t.entries && |t.entries| <= |s.entries| + 1
    && |t.outcomes| == |s.outcomes| == SLOTS
    && (forall i :: 0 <= i < |s.entries| && i < SLOTS && Terminal(s.outcomes[i]) ==> t.outcomes[i] == s.outcomes[i])
    && (s.configUncertain ==> t.configUncertain) && (s.bootUncertain ==> t.bootUncertain)
    && (t.log == s.log || NewEffect(s, t))
    && (t.halted && !s.halted ==> !Uncertain(s))
  }

  predicate NewEffect(s: State, t: State) {
    && |t.log| == |s.log| + 1 && t.log[..|s.log|] == s.log
    && |t.entries| == |s.entries| + 1
    && t.log[|s.log|].id == t.entries[|s.entries|].id && !Known(s.entries, t.log[|s.log|].id)
    && (!t.log[|s.log|].what.BusinessAction? ==> !Uncertain(s) && !s.trial.active && !s.ota.active && !s.restartPending)
  }

  /** The state right after admission: everything holds but the new answer. */
  predicate JustAdmitted(s: State, id: string, slot: nat) {
    && Distinct(s.entries) && |s.outcomes| == SLOTS && slot == |s.entries| - 1 && s.entries[slot].id == id
    && (forall i :: 0 <= i < slot ==> s.outcomes[i].phase != Blank)
    && ExecutedOnce(s) && !Known(s.entries[..slot], id)
    && (forall i :: 0 <= i < |s.log| ==> s.log[i].id != id)
    && TrialOk(s) && OtaOk(s) && Exclusive(s)
    && (s.trial.active ==> s.trial.slot < slot) && (s.ota.active ==> s.ota.slot < slot)
  }

  /** What executing an admitted request does to the rest. */
  predicate Executed(s: State, t: State, id: string, slot: nat)
    requires SlotOk(s, slot)
  {
    && t.entries == s.entries && |t.outcomes| == SLOTS
    && (forall i :: 0 <= i < SLOTS && i != slot ==> t.outcomes[i] == s.outcomes[i])
    && (s.configUncertain ==> t.configUncertain) && (s.bootUncertain ==> t.bootUncertain)
    && (t.log == s.log
        || exists w :: t.log == s.log + [Effect(id, w)] && (w.BusinessAction? || (!Uncertain(s) && !s.trial.active && !s.ota.active && !s.restartPending)))
    && (t.halted && !s.halted ==> !Uncertain(s))
  }

  lemma AdmissionPrepares(s: State, c: Command, device: string, boot: string, now: nat)
    requires Inv(s) && Decide(s.entries, c.request, device, boot, now).Accept?
    ensures JustAdmitted(Admitted(s, c, |s.entries|), c.request.id, |s.entries|)
  {
    var t := Admitted(s, c, |s.entries|);
    AdmitKeepsDistinct(s.entries, c.request, device, boot, now);
    assert t.entries[..|s.entries|] == s.entries;
    forall i | 0 <= i < |t.log| ensures Known(t.entries, t.log[i].id) && t.log[i].id != c.request.id {
      var k :| 0 <= k < |s.entries| && s.entries[k].id == s.log[i].id;
      assert t.entries[k].id == s.log[i].id;
    }
  }

  lemma LogExecutes(s: State, t: State, id: string, slot: nat, what: What)
    requires JustAdmitted(s, id, slot) && t.entries == s.entries && t.log == s.log + [Effect(id, what)]
    ensures ExecutedOnce(t)
  {
    assert Known(t.entries, id);
  }

  /** The parts of the invariant that concern answers and history. */
  predicate Recorded(s: State) {
    Distinct(s.entries) && Answered(s) && ExecutedOnce(s)
  }

  /** Only the answer in one slot differs, and it is there. */
  predicate OneAnswer(s: State, t: State, slot: nat) {
    && |t.outcomes| == |s.outcomes| == SLOTS && slot < SLOTS && !t.outcomes[slot].phase.Blank?
    && forall i :: 0 <= i < SLOTS && i != slot ==> t.outcomes[i] == s.outcomes[i]
  }

  lemma AnswerRecords(s: State, t: State, id: string, slot: nat, what: What)
    requires JustAdmitted(s, id, slot) && OneAnswer(s, t, slot) && t.entries == s.entries
    requires t.log == s.log || t.log == s.log + [Effect(id, what)]
    ensures Recorded(t)
  {
    if t.log != s.log { LogExecutes(s, t, id, slot, what); }
  }

  lemma StartOtaKeeps(s: State, id: string, ota: OtaRequest, slot: nat, io: CommandIo)
    requires JustAdmitted(s, id, slot) && !s.restartPending && OtaRefusal(s, ota, io) == NoError
    ensures var t := StartOta(s, id, ota, slot, io);
            Inv(t) && Executed(s, t, id, slot)
  {
    var t := StartOta(s, id, ota, slot, io);
    StartOtaOutcome(s, id, ota, slot, io);
    AnswerRecords(s, t, id, slot, OtaStarted);
    if t.ota.active { StartedOtaKeeps(s, id, ota, slot, io); } else { EndedOtaKeeps(s, id, ota, slot, io); }
  }

  lemma StartOtaOutcome(s: State, id: string, ota: OtaRequest, slot: nat, io: CommandIo)
    requires SlotOk(s, slot)
    ensures var t := StartOta(s, id, ota, slot, io);
            t.entries == s.entries && t.log == s.log + [Effect(id, OtaStarted)] && OneAnswer(s, t, slot)
  {
  }

  lemma StartedOtaKeeps(s: State, id: string, ota: OtaRequest, slot: nat, io: CommandIo)
    requires JustAdmitted(s, id, slot) && !s.restartPending && OtaRefusal(s, ota, io) == NoError
    requires StartOta(s, id, ota, slot, io).ota.active
    ensures var t := StartOta(s, id, ota, slot, io);
            TrialOk(t) && OtaOk(t) && Exclusive(t) && t.configUncertain == s.configUncertain
            && t.bootUncertain == s.bootUncertain && t.halted == s.halted
  {
    var t := StartOta(s, id, ota, slot, io);
    assert t.ota.slot == slot && t.holder.Control? && t.ota.claimed && Open(t.outcomes[slot]) && t.trial == s.trial;
  }

  lemma EndedOtaKeeps(s: State, id: string, ota: OtaRequest, slot: nat, io: CommandIo)
    requires JustAdmitted(s, id, slot) && !s.restartPending && OtaRefusal(s, ota, io) == NoError
    requires !StartOta(s, id, ota, slot, io).ota.active
    ensures var t := StartOta(s, id, ota, slot, io);
            TrialOk(t) && OtaOk(t) && Exclusive(t) && t.bootUncertain == s.bootUncertain && t.halted == s.halted
  {
    var t := StartOta(s, id, ota, slot, io);
    assert t.trial == s.trial && t.restartPending == s.restartPending;
    assert t.ota.claimed == t.holder.Control? && (t.ota.claimed ==> t.configUncertain);
  }

  lemma StartTrialKeeps(s: State, id: string, config: ConfigFormat.Config, slot: nat, io: CommandIo)
    requires JustAdmitted(s, id, slot) && WriteError(s) == NoError
    ensures var t := StartTrial(s, id, config, slot, io);
            Inv(t) && Executed(s, t, id, slot)
  {
    var t := StartTrial(s, id, config, slot, io);
    StartTrialOutcome(s, id, config, slot, io);
    AnswerRecords(s, t, id, slot, TrialStarted);
    StartTrialGates(s, id, config, slot, io);
  }

  lemma StartTrialOutcome(s: State, id: string, config: ConfigFormat.Config, slot: nat, io: CommandIo)
    requires SlotOk(s, slot)
    ensures var t := StartTrial(s, id, config, slot, io);
            && t.entries == s.entries && t.log == s.log + [Effect(id, TrialStarted)]
            && OneAnswer(s, t, slot) && t.bootUncertain == s.bootUncertain && t.halted == s.halted
  {
  }

  lemma StartTrialGates(s: State, id: string, config: ConfigFormat.Config, slot: nat, io: CommandIo)
    requires JustAdmitted(s, id, slot) && WriteError(s) == NoError
    ensures var t := StartTrial(s, id, config, slot, io);
            TrialOk(t) && OtaOk(t) && Exclusive(t)
  {
  }

  lemma TakeRestartKeeps(s: State, id: string, viaMqtt: bool, slot: nat, io: CommandIo)
    requires JustAdmitted(s, id, slot) && WriteError(s) == NoError
    ensures var t := TakeRestart(s, id, viaMqtt, slot, io);
            Inv(t) && Executed(s, t, id, slot)
  {
    var t := TakeRestart(s, id, viaMqtt, slot, io);
    if t.log != s.log { LogExecutes(s, t, id, slot, RestartTaken); }
  }

  lemma RefusalKeeps(s: State, id: string, slot: nat, error: Error)
    requires JustAdmitted(s, id, slot)
    ensures var t := Save(s, slot, Failed, error);
            Inv(t) && Executed(s, t, id, slot)
  {
  }

  lemma BusinessKeeps(s: State, id: string, slot: nat, phase: Phase, error: Error)
    requires JustAdmitted(s, id, slot) && !phase.Blank?
    ensures var t := Save(Log(s, id, BusinessAction), slot, phase, error);
            Inv(t) && Executed(s, t, id, slot)
  {
    var t := Save(Log(s, id, BusinessAction), slot, phase, error);
    LogExecutes(s, t, id, slot, BusinessAction);
  }

  lemma ExecuteKeeps(s: State, c: Command, slot: nat, io: CommandIo)
    requires JustAdmitted(s, c.request.id, slot)
    ensures var t := Execute(s, c, slot, io);
            Inv(t) && Executed(s, t, c.request.id, slot)
  {
    var id := c.request.id;
    if c.kind.Pause? || c.kind.Resume? {
      BusinessKeeps(s, id, slot, if io.businessOk then Succeeded else Failed, if io.businessOk then NoError else BusinessFailed);
    } else if s.restartPending {
      RefusalKeeps(s, id, slot, OperationBusy);
    } else if c.viaMqtt && c.kind.ConfigSet? {
      RefusalKeeps(s, id, slot, PhysicalUsbRequired);
    } else if c.kind.ConfigSet? && s.pending {
      RefusalKeeps(s, id, slot, OtaVerificationPending);
    } else if c.kind.ConfigSet? && s.ota.download {
      RefusalKeeps(s, id, slot, OtaInProgress);
    } else if c.kind.OtaStart? {
      var refusal := OtaRefusal(s, c.kind.ota, io);
      if refusal != NoError { RefusalKeeps(s, id, slot, refusal); }
      else { StartOtaKeeps(s, id, c.kind.ota, slot, io); }
    } else {
      ExecuteWriteKeeps(s, c, slot, io);
    }
  }

  lemma ExecuteWriteKeeps(s: State, c: Command, slot: nat, io: CommandIo)
    requires JustAdmitted(s, c.request.id, slot)
    ensures var t := ExecuteWrite(s, c, slot, io);
            Inv(t) && Executed(s, t, c.request.id, slot)
  {
    var id := c.request.id;
    if WriteError(s) != NoError {
      RefusalKeeps(s, id, slot, WriteError(s));
    } else if c.kind.ConfigSet? {
      if c.kind.config.revision != s.config.revision { RefusalKeeps(s, id, slot, RevisionConflict); }
      else if c.kind.config.revision == UINT32_MAX { RefusalKeeps(s, id, slot, RevisionExhausted); }
      else { StartTrialKeeps(s, id, c.kind.config, slot, io); }
    } else {
      TakeRestartKeeps(s, id, c.viaMqtt, slot, io);
    }
  }

  lemma CommandKeeps(s: State, c: Command, device: string, boot: string, io: CommandIo)
    requires Inv(s)
    ensures var t := Handle(s, c, device, boot, io);
            Inv(t) && StepOk(s, t)
  {
    if Executes(s, c, device, boot, io) {
      AcceptedCommandKeeps(s, c, device, boot, io);
    } else {
      OtherwiseUnchanged(s, c, device, boot, io);
    }
  }

  predicate Executes(s: State, c: Command, device: string, boot: string, io: CommandIo) {
    && io.parsed && !c.kind.Query? && !c.kind.FirmwareStatus? && io.fingerprinted
    && Decide(s.entries, c.request, device, boot, io.now).Accept?
  }

  lemma OtherwiseUnchanged(s: State, c: Command, device: string, boot: string, io: CommandIo)
    requires Inv(s) && !Executes(s, c, device, boot, io)
    ensures Handle(s, c, device, boot, io) == s && StepOk(s, s)
  {
  }

  lemma AcceptedCommandKeeps(s: State, c: Command, device: string, boot: string, io: CommandIo)
    requires Inv(s) && Decide(s.entries, c.request, device, boot, io.now).Accept?
    ensures var t := Execute(Admitted(s, c, |s.entries|), c, |s.entries|, io);
            Inv(t) && StepOk(s, t)
  {
    AdmissionPrepares(s, c, device, boot, io.now);
    var a := Admitted(s, c, |s.entries|);
    ExecuteKeeps(a, c, |s.entries|, io);
    ExecutedIsStep(s, a, Execute(a, c, |s.entries|, io), c);
  }

  lemma ExecutedIsStep(s: State, a: State, t: State, c: Command)
    requires Inv(s) && |s.entries| < SLOTS && a == Admitted(s, c, |s.entries|)
    requires !Known(s.entries, c.request.id) && Executed(a, t, c.request.id, |s.entries|)
    ensures StepOk(s, t)
  {
    if t.log != s.log {
      var w :| t.log == s.log + [Effect(c.request.id, w)];
      assert t.log[|s.log|] == Effect(c.request.id, w);
    }
  }

  /** An open answer may be replaced; the rest of the history stays. */
  lemma ClosingRecords(s: State, t: State, slot: nat)
    requires Recorded(s) && slot < |s.entries| && Open(s.outcomes[slot]) && OneAnswer(s, t, slot)
    requires t.entries == s.entries && t.log == s.log
    ensures Recorded(t)
    ensures forall i :: 0 <= i < |s.entries| && Terminal(s.outcomes[i]) ==> t.outcomes[i] == s.outcomes[i]
  {
  }

  lemma PollTrialKeeps(s: State, io: TrialIo)
    requires Inv(s)
    ensures var t := PollTrial(s, io);
            Inv(t) && StepOk(s, t)
  {
    var t := PollTrial(s, io);
    if t != s {
      var slot := s.trial.slot;
      assert OneAnswer(s, t, slot);
      ClosingRecords(s, t, slot);
      PollTrialGates(s, io);
    }
  }

  /** What ending a trial leaves alone. */
  predicate TrialEnded(s: State, t: State) {
    && !t.trial.active && t.trial.candidate.None? && t.ota == s.ota && t.holder == s.holder
    && t.restartPending == s.restartPending && t.halted == s.halted && t.bootUncertain == s.bootUncertain
  }

  lemma EndTrialGates(s: State, io: TrialIo)
    requires |s.outcomes| == SLOTS && s.trial.slot < SLOTS && s.trial.candidate.Some?
    ensures TrialEnded(s, EndTrial(s, io))
  {
  }

  lemma PollTrialGates(s: State, io: TrialIo)
    requires Inv(s) && s.trial.active
    ensures var t := PollTrial(s, io);
            t != s ==> TrialEnded(s, t)
  {
    EndTrialGates(s, io);
  }

  lemma PollOtaKeeps(s: State, recorded: bool)
    requires Inv(s)
    ensures var t := PollOta(s, recorded);
            Inv(t) && StepOk(s, t)
  {
    var t := PollOta(s, recorded);
    if s.ota.active && s.ota.done {
      PollOtaRecords(s, recorded);
      ClosingRecords(s, t, s.ota.slot);
      PollOtaGates(s, recorded);
    }
  }

  lemma PollOtaRecords(s: State, recorded: bool)
    requires Inv(s) && s.ota.active && s.ota.done
    ensures var t := PollOta(s, recorded);
            && OneAnswer(s, t, s.ota.slot) && t.entries == s.entries && t.log == s.log
            && (s.configUncertain ==> t.configUncertain) && (s.bootUncertain ==> t.bootUncertain)
  {
  }

  lemma PollOtaGates(s: State, recorded: bool)
    requires Inv(s) && s.ota.active && s.ota.done
    ensures var t := PollOta(s, recorded);
            && TrialOk(t) && OtaOk(t) && Exclusive(t)
            && (t.halted != s.halted ==> t.ota == s.ota)
  {
  }

  lemma RestartKeeps(s: State, now: nat, acknowledged: bool)
    requires Inv(s)
    ensures var t := PollRestart(s, now, acknowledged);
            Inv(t) && StepOk(s, t)
  {
  }

  lemma OthersKeep(s: State, e: Event)
    requires Inv(s) && !s.halted && !e.HandleCommand? && !e.PollTrialStep? && !e.PollOtaStep?
    ensures var t := Next(s, e, "", "");
            Inv(t) && StepOk(s, t)
  {
    var t := Next(s, e, "", "");
    assert t.entries == s.entries && t.outcomes == s.outcomes && t.log == s.log;
    assert t.ota.slot == s.ota.slot && t.trial == s.trial;
  }

  lemma NextKeeps(s: State, e: Event, device: string, boot: string)
    requires Inv(s)
    ensures Sound(s)
    ensures var t := Next(s, e, device, boot);
            Inv(t) && StepOk(s, t)
  {
    if !s.halted {
      match e
      case HandleCommand(c, io) => CommandKeeps(s, c, device, boot, io);
      case PollTrialStep(io) => PollTrialKeeps(s, io);
      case PollOtaStep(recorded) => PollOtaKeeps(s, recorded);
      case _ => OthersKeep(s, e);
    }
  }

  // ---------------------------------------------------------------- whole runs

  ghost function Run(s: State, events: seq<Event>, device: string, boot: string): (t: State)
    requires Inv(s)
    ensures Inv(t)
    decreases |events|
  {
    if events == [] then s
    else
      NextKeeps(s, events[0], device, boot);
      Run(Next(s, events[0], device, boot), events[1..], device, boot)
  }

  /** Every boot starts in the invariant, so every run of it stays there: trial
      and OTA exclude each other, the active OTA owns request, gate and storage
      transaction, and every admitted request has its answer. */
  lemma BootIsSafe(s: State, events: seq<Event>, device: string, boot: string)
    requires Initial(s)
    ensures Inv(s) && Inv(Run(s, events, device, boot))
  {
  }

  /** What a whole run may do to what was there before it. */
  predicate RunOk(s: State, t: State) {
    && s.entries <= t.entries && s.log <= t.log && |s.outcomes| == |t.outcomes| == SLOTS
    && (forall i :: 0 <= i < |s.entries| && i < SLOTS && Terminal(s.outcomes[i]) ==> t.outcomes[i] == s.outcomes[i])
    && (s.configUncertain ==> t.configUncertain) && (s.bootUncertain ==> t.bootUncertain)
  }

  /** Over any run, history grows, final answers stay and doubt is never cleared. */
  lemma {:induction false} RunKeepsAnswers(s: State, events: seq<Event>, device: string, boot: string)
    requires Inv(s)
    ensures RunOk(s, Run(s, events, device, boot))
    decreases |events|
  {
    if events != [] {
      NextKeeps(s, events[0], device, boot);
      var t := Next(s, events[0], device, boot);
      StepIsRun(s, t);
      RunKeepsAnswers(t, events[1..], device, boot);
      RunTrans(s, t, Run(t, events[1..], device, boot));
    }
  }

  lemma StepIsRun(s: State, t: State)
    requires StepOk(s, t)
    ensures RunOk(s, t)
  {
    if t.log != s.log { assert t.log[..|s.log|] == s.log; }
  }

  lemma RunTrans(s: State, t: State, u: State)
    requires RunOk(s, t) && RunOk(t, u)
    ensures RunOk(s, u)
  {
    forall i | 0 <= i < |s.entries| && i < SLOTS && Terminal(s.outcomes[i]) ensures u.outcomes[i] == s.outcomes[i] {
      assert t.outcomes[i] == s.outcomes[i];
    }
  }

  /** Once storage or boot state is in doubt, no run executes an OTA, a
      configuration change or a restart, and the device does not restart itself. */
  lemma {:induction false} DoubtBlocks(s: State, events: seq<Event>, device: string, boot: string)
    requires Inv(s) && Uncertain(s)
    ensures var t := Run(s, events, device, boot);
            && Uncertain(t) && t.halted == s.halted && s.log <= t.log
            && !t.trial.active && !t.ota.active
            && forall i :: |s.log| <= i < |t.log| ==> t.log[i].what.BusinessAction?
    decreases |events|
  {
    if events != [] {
      NextKeeps(s, events[0], device, boot);
      var t := Next(s, events[0], device, boot);
      StepIsRun(s, t);
      DoubtfulStep(s, t, events[0], device, boot);
      DoubtBlocks(t, events[1..], device, boot);
      var u := Run(t, events[1..], device, boot);
      forall i | |s.log| <= i < |u.log| ensures u.log[i].what.BusinessAction? {
        if i < |t.log| { assert u.log[i] == t.log[i]; }
      }
    }
  }

  lemma DoubtfulStep(s: State, t: State, e: Event, device: string, boot: string)
    requires Inv(s) && Uncertain(s) && t == Next(s, e, device, boot) && Inv(t) && StepOk(s, t)
    ensures t.halted == s.halted
    ensures forall i :: |s.log| <= i < |t.log| ==> t.log[i].what.BusinessAction?
  {
  }

  /** A request that was executed or refused once is never executed again in this
      boot: whatever comes under its ID later leaves the control state alone. */
  lemma ReplayChangesNothing(s: State, events: seq<Event>, device: string, boot: string, k: nat, c: Command, io: CommandIo)
    requires Inv(s) && k < |s.entries| && c.request.id == s.entries[k].id
    ensures var t := Run(s, events, device, boot);
            Handle(t, c, device, boot, io) == t
    ensures var t := Run(s, events, device, boot);
            k < SLOTS && t.outcomes[k].phase != Blank
  {
    RunKeepsAnswers(s, events, device, boot);
    var t := Run(s, events, device, boot);
    assert t.entries[k] == s.entries[k];
    assert Known(t.entries, c.request.id);
  }

  /** The log never names a request ID twice, whatever arrives. */
  lemma NoRequestRunsTwice(s: State, events: seq<Event>, device: string, boot: string, i: nat, j: nat)
    requires Initial(s)
    requires i < j < |Run(s, events, device, boot).log|
    ensures var log := Run(s, events, device, boot).log;
            log[i].id != log[j].id
  {
  }

  // ------------------------------------------------- everything ends in time

  /** A poll that ends the wait for a deferred restart. */
  predicate Due(since: nat, e: Event) {
    e.PollRestartStep? && Elapsed(e.now, since) >= 100 && (e.acknowledged || Elapsed(e.now, since) >= 2000)
  }

  lemma WaitingStep(s: State, e: Event, device: string, boot: string)
    requires Inv(s) && s.restartPending && !s.halted
    ensures var t := Next(s, e, device, boot);
            && (t.halted <==> Due(s.restartSince, e))
            && (!t.halted ==> t.restartPending && t.restartSince == s.restartSince)
            && t.config == s.config && (t.log == s.log || exists id :: t.log == s.log + [Effect(id, BusinessAction)])
  {
  }

  /** Over any run with a restart pending: the device restarts if and only if some
      poll is due, and until then only business actions are executed and the
      configuration in use stays. */
  lemma {:induction false} RestartsExactlyWhenDue(s: State, events: seq<Event>, device: string, boot: string)
    requires Inv(s) && s.restartPending && !s.halted
    ensures var t := Run(s, events, device, boot);
            && (t.halted <==> exists i :: 0 <= i < |events| && Due(s.restartSince, events[i]))
            && t.config == s.config && s.log <= t.log
            && forall i :: |s.log| <= i < |t.log| ==> t.log[i].what.BusinessAction?
    decreases |events|
  {
    if events != [] {
      NextKeeps(s, events[0], device, boot);
      WaitingStep(s, events[0], device, boot);
      var t := Next(s, events[0], device, boot);
      if t.halted {
        HaltedStays(t, events[1..], device, boot);
      } else {
        RestartsExactlyWhenDue(t, events[1..], device, boot);
        var u := Run(t, events[1..], device, boot);
        forall i | |s.log| <= i < |u.log| ensures u.log[i].what.BusinessAction? {
          if i < |t.log| { assert u.log[i] == t.log[i]; }
        }
        DueSplits(s.restartSince, events);
      }
    }
  }

  lemma DueSplits(since: nat, events: seq<Event>)
    requires events != []
    ensures (exists i :: 0 <= i < |events| && Due(since, events[i]))
       <==> Due(since, events[0]) || exists i :: 0 <= i < |events[1..]| && Due(since, events[1..][i])
  {
    if i :| 0 <= i < |events| && Due(since, events[i]) {
      if i > 0 { assert Due(since, events[1..][i - 1]); }
    }
    if i :| 0 <= i < |events[1..]| && Due(since, events[1..][i]) {
      assert Due(since, events[i + 1]);
    }
  }

  lemma {:induction false} HaltedStays(s: State, events: seq<Event>, device: string, boot: string)
    requires Inv(s) && s.halted
    ensures Run(s, events, device, boot) == s
    decreases |events|
  {
    if events != [] { HaltedStays(s, events[1..], device, boot); }
  }

  /** No command disturbs an active trial or an active OTA. */
  lemma CommandWaits(s: State, c: Command, device: string, boot: string, io: CommandIo)
    requires Inv(s) && (s.trial.active || s.ota.active)
    ensures var t := Handle(s, c, device, boot, io);
            t.trial == s.trial && t.ota == s.ota && t.halted == s.halted
  {
  }

  lemma PolledTrialAnswers(s: State, io: TrialIo)
    requires Inv(s) && s.trial.active
    ensures var t := PollTrial(s, io);
            && (t == s || (t.entries == s.entries && |t.outcomes| == SLOTS && Terminal(t.outcomes[s.trial.slot])))
            && (io.now >= s.trial.deadline ==> t != s && t.config == s.config)
  {
  }

  lemma TrialStep(s: State, e: Event, device: string, boot: string)
    requires Inv(s) && s.trial.active && !s.halted
    ensures var t := Next(s, e, device, boot);
            && ((t.trial == s.trial && !t.halted)
                || (s.trial.slot < |t.entries| && s.trial.slot < |t.outcomes| && Terminal(t.outcomes[s.trial.slot])))
            && (e.PollTrialStep? && e.trialIo.now >= s.trial.deadline ==> s.trial.slot < |t.outcomes| && Terminal(t.outcomes[s.trial.slot]))
  {
    match e
    case HandleCommand(c, io) => CommandWaits(s, c, device, boot, io);
    case PollTrialStep(io) => PolledTrialAnswers(s, io);
    case _ =>
  }

  /** Whatever else happens, a trial polled at or after its deadline has a final
      answer from then on. */
  lemma {:induction false} TrialEndsByDeadline(s: State, events: seq<Event>, device: string, boot: string, i: nat)
    requires Inv(s) && s.trial.active && !s.halted
    requires i < |events| && events[i].PollTrialStep? && events[i].trialIo.now >= s.trial.deadline
    ensures Terminal(Run(s, events, device, boot).outcomes[s.trial.slot])
    decreases |events|
  {
    NextKeeps(s, events[0], device, boot);
    TrialStep(s, events[0], device, boot);
    var t := Next(s, events[0], device, boot);
    if t.trial == s.trial && !Terminal(t.outcomes[s.trial.slot]) {
      TrialEndsByDeadline(t, events[1..], device, boot, i - 1);
    } else {
      RunKeepsAnswers(t, events[1..], device, boot);
    }
  }

  /** The OTA is still waiting for its worker, or for a poll. */
  predicate OtaWaits(s: State, t: State, e: Event) {
    && t.ota.active && t.ota.slot == s.ota.slot && !t.halted && !(s.ota.done && e.PollOtaStep?)
    && t.ota.done == (s.ota.done || e.WorkerEnds?)
  }

  lemma PolledOtaAnswers(s: State, recorded: bool)
    requires Inv(s) && s.ota.active && s.ota.done
    ensures var t := PollOta(s, recorded);
            t.halted || (t.entries == s.entries && |t.outcomes| == SLOTS && Terminal(t.outcomes[s.ota.slot]))
  {
  }

  lemma OtaStep(s: State, e: Event, device: string, boot: string)
    requires Inv(s) && s.ota.active && !s.halted
    ensures var t := Next(s, e, device, boot);
            || OtaWaits(s, t, e) || t.halted
            || (s.ota.slot < |t.entries| && s.ota.slot < |t.outcomes| && Terminal(t.outcomes[s.ota.slot]))
  {
    match e
    case HandleCommand(c, io) => CommandWaits(s, c, device, boot, io);
    case PollOtaStep(recorded) => if s.ota.done { PolledOtaAnswers(s, recorded); }
    case _ =>
  }

  /** Once the worker has ended and the control task has polled it, the update has a
      final answer, or the device restarts into the selected candidate. */
  lemma {:induction false} UpdateEnds(s: State, events: seq<Event>, device: string, boot: string, i: nat)
    requires Inv(s) && s.ota.active && !s.halted && i < |events| && events[i].PollOtaStep?
    requires s.ota.done || exists k :: 0 <= k < i && events[k].WorkerEnds?
    ensures var t := Run(s, events, device, boot);
            t.halted || Terminal(t.outcomes[s.ota.slot])
    decreases |events|
  {
    NextKeeps(s, events[0], device, boot);
    OtaStep(s, events[0], device, boot);
    var t := Next(s, events[0], device, boot);
    if t.halted {
      HaltedStays(t, events[1..], device, boot);
    } else if Terminal(t.outcomes[s.ota.slot]) {
      RunKeepsAnswers(t, events[1..], device, boot);
    } else {
      if !t.ota.done {
        var k :| 0 <= k < i && events[k].WorkerEnds?;
        assert events[1..][k - 1].WorkerEnds?;
      }
      UpdateEnds(t, events[1..], device, boot, i - 1);
    }
  }
}
