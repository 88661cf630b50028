/** The control owner over the durable configuration store: trials commit through
    the verified compare-and-swap, uncertain commits are reloaded, and the device
    may restart at any time. Which configuration is in use, which one is stored,
    and what an answer tells about it. */
module ConfigControl {
  import opened Common
  import opened ConfigFormat
  import Store = ConfigStore
  import opened ControlSpec
  import Runs = ControlRuns

  /** `lost`: an uncertain commit could not be reloaded in this boot. */
  datatype World = World(control: State, store: Store.Stored, lost: bool)

  /** A poll of the trial: the control task's observations, the storage faults of
      the commit, and those of the reload that follows an uncertain one. */
  datatype PollIo = PollIo(
    now: nat, proof: bool, wifiFailed: bool, flash: bool, memory: bool, released: bool, restored: bool,
    commit: Store.CommitIo, reload: ReloadIo)

  /** The reload needs the Flash again, and its release may fail after the load. */
  datatype ReloadIo = ReloadIo(flash: bool, load: Store.LoadIo, released: bool)

  datatype Event =
    | Control(event: ControlSpec.Event)
    | Poll(io: PollIo)
    | Reboot(load: Store.LoadIo)

  predicate EventOk(e: Event) {
    match e
    case Control(c) => !c.PollTrialStep?
    case Poll(io) => Store.CommitIoOk(io.commit) && Store.LoadIoOk(io.reload.load)
    case Reboot(load) => Store.LoadIoOk(load)
  }

  // ------------------------------------------------------------- composition

  /** The poll reaches the commit. */
  predicate Commits(s: State, io: PollIo) {
    s.trial.active && s.trial.candidate.Some? && io.proof && io.now < s.trial.deadline && io.flash && io.memory
  }

  /** esp_base_remote_config_commit_verified() of the candidate at its own revision. */
  ghost function CommitOf(w: World, io: PollIo): Store.Outcome
    requires w.control.trial.candidate.Some?
  {
    var c := w.control.trial.candidate.value;
    Store.CommitNext(w.store, c, c.revision, w.control.config, io.commit)
  }

  function Verdict(r: Store.Result): Commit {
    match r
    case Ok => Committed
    case Uncertain => CommitUncertain
    case _ => CommitFailed
  }

  /** load_config_with_flash_io() after an uncertain commit. */
  function Reload(d: Store.Stored, io: ReloadIo): (r: (Store.Stored, Option<Config>)) {
    if !io.flash then (d, None)
    else
      var o := Store.LoadNext(d, DEFAULT, io.load);
      (o.durable, if o.result.Ok? && io.released then Some(o.value) else None)
  }

  ghost function TrialIoOf(w: World, io: PollIo): TrialIo {
    if !Commits(w.control, io) then
      TrialIo(io.now, io.proof, io.wifiFailed, io.flash, io.memory, io.released, CommitFailed, None, io.restored)
    else
      var o := CommitOf(w, io);
      TrialIo(io.now, io.proof, io.wifiFailed, io.flash, io.memory, io.released, Verdict(o.result),
              Reload(o.durable, io.reload).1, io.restored)
  }

  ghost function StoreAfter(w: World, io: PollIo): Store.Stored {
    if !Commits(w.control, io) then w.store
    else
      var o := CommitOf(w, io);
      if CommitResult(TrialIoOf(w, io)).CommitUncertain? then Reload(o.durable, io.reload).0 else o.durable
  }

  ghost function LostAfter(w: World, io: PollIo): bool {
    w.lost || (Commits(w.control, io) && CommitResult(TrialIoOf(w, io)).CommitUncertain? && TrialIoOf(w, io).reloaded.None?)
  }

  /** A fresh boot with a loaded configuration. */
  function Fresh(c: Config): (s: State)
    ensures Initial(s) && s.config == c
  {
    State([], seq(CommandGuard.SLOTS, _ => Outcome(Blank, NoError, false)), false, false, c, Trial(false, 0, 0, None),
          Ota(false, 0, None, false, false, WorkerBootUnknown, false, false), Nobody, false, false, 0, false, [])
  }

  /** A boot whose load fails does not start the control task. */
  function Booted(w: World, load: Store.LoadIo): World {
    var o := Store.LoadNext(w.store, DEFAULT, load);
    if o.result.Ok? then World(Fresh(o.value), o.durable, false)
    else World(Fresh(DEFAULT).(halted := true), o.durable, true)
  }

  ghost function Next(w: World, e: Event, device: string, boot: string): World
    requires Sound(w.control) && EventOk(e)
  {
    match e
    case Control(c) => w.(control := ControlSpec.Next(w.control, c, device, boot))
    case Poll(io) =>
      if w.control.halted then w
      else World(ControlSpec.Next(w.control, PollTrialStep(TrialIoOf(w, io)), device, boot), StoreAfter(w, io), LostAfter(w, io))
    case Reboot(load) => Booted(w, load)
  }

  // --------------------------------------------------------------- invariant

  /** The stored configuration is valid, and unless a reload failed in this boot,
      the configuration in use is what is stored. A failed reload is in doubt. */
  ghost predicate Inv(w: World) {
    && Runs.Inv(w.control) && Store.Good(w.store)
    && (!w.lost ==> w.control.config == Store.Meaning(w.store))
    && (w.lost ==> w.control.configUncertain || w.control.halted)
  }

  /** Commands, OTA and restarts never change the configuration in use. */
  lemma OthersKeepConfig(s: State, e: ControlSpec.Event, device: string, boot: string)
    requires Runs.Inv(s) && !e.PollTrialStep?
    ensures ControlSpec.Next(s, e, device, boot).config == s.config
  {
    if e.HandleCommand? && !s.halted { CommandKeepsConfig(s, e.command, device, boot, e.io); }
  }

  lemma CommandKeepsConfig(s: State, c: Command, device: string, boot: string, io: CommandIo)
    requires |s.outcomes| == CommandGuard.SLOTS
    ensures Handle(s, c, device, boot, io).config == s.config
  {
    var d := CommandGuard.Decide(s.entries, c.request, device, boot, io.now);
    if d.Accept? && c.kind.OtaStart? { OtaKeepsConfig(Log(Held(Admitted(s, c, d.slot)), c.request.id, OtaStarted), c.kind.ota, d.slot, io); }
  }

  lemma OtaKeepsConfig(s: State, ota: OtaRequest, slot: nat, io: CommandIo)
    ensures OtaEffect(s, ota, slot, io).config == s.config
  {
  }

  /** The commit and the reload after it, seen from the store. */
  lemma CommitEffects(w: World, io: PollIo)
    requires Inv(w) && EventOk(Poll(io)) && Commits(w.control, io)
    ensures var o := CommitOf(w, io);
            var c := w.control.trial.candidate.value;
            && Store.Good(o.durable) && Store.Good(StoreAfter(w, io))
            && Store.Meaning(StoreAfter(w, io)) == Store.Meaning(o.durable)
            && (o.result.Ok? ==> Store.Meaning(o.durable) == c.(revision := c.revision + 1) && c.revision == Store.Meaning(w.store).revision)
            && (Verdict(o.result).CommitFailed? ==> Store.Meaning(o.durable) == Store.Meaning(w.store))
            && (Reload(o.durable, io.reload).1.Some? ==> Reload(o.durable, io.reload).1.value == Store.Meaning(o.durable))
            && (Store.Meaning(o.durable) == Store.Meaning(w.store)
                || Store.Meaning(o.durable) == c.(revision := Store.Meaning(w.store).revision + 1))
  {
    var c := w.control.trial.candidate.value;
    Store.CommitKeeps(w.store, c, c.revision, w.control.config, io.commit);
    Store.LoadKeepsMeaning(CommitOf(w, io).durable, DEFAULT, io.reload.load);
  }

  lemma PollKeeps(w: World, io: PollIo, device: string, boot: string)
    requires Inv(w) && EventOk(Poll(io)) && !w.control.halted
    ensures Inv(Next(w, Poll(io), device, boot))
  {
    var s, t := w.control, PollTrial(w.control, TrialIoOf(w, io));
    Runs.PollTrialKeeps(s, TrialIoOf(w, io));
    if Commits(s, io) {
      CommitEffects(w, io);
      assert t == EndTrial(s, TrialIoOf(w, io));
    } else {
      assert t.config == s.config;
    }
  }

  lemma FreshIsSafe(c: Config)
    ensures Runs.Inv(Fresh(c))
  {
  }

  lemma RebootKeeps(w: World, load: Store.LoadIo)
    requires Inv(w) && Store.LoadIoOk(load)
    ensures Inv(Booted(w, load))
  {
    Store.LoadKeepsMeaning(w.store, DEFAULT, load);
    FreshIsSafe(Store.LoadNext(w.store, DEFAULT, load).value);
    FreshIsSafe(DEFAULT);
  }

  lemma NextKeeps(w: World, e: Event, device: string, boot: string)
    requires Inv(w) && EventOk(e)
    ensures Sound(w.control) && Inv(Next(w, e, device, boot))
  {
    match e
    case Control(c) =>
      Runs.NextKeeps(w.control, c, device, boot);
      OthersKeepConfig(w.control, c, device, boot);
      HaltedIsFinal(w.control, c, device, boot);
    case Poll(io) => if !w.control.halted { PollKeeps(w, io, device, boot); }
    case Reboot(load) => RebootKeeps(w, load);
  }

  lemma HaltedIsFinal(s: State, e: ControlSpec.Event, device: string, boot: string)
    requires Sound(s)
    ensures s.halted ==> ControlSpec.Next(s, e, device, boot) == s
  {
  }

  // ------------------------------------------------------------------ theorems

  predicate EventsOk(events: seq<Event>) {
    forall i :: 0 <= i < |events| ==> EventOk(events[i])
  }

  ghost function Run(w: World, events: seq<Event>, device: string, boot: string): (v: World)
    requires Inv(w) && EventsOk(events)
    ensures Inv(v)
    decreases |events|
  {
    if events == [] then w
    else
      NextKeeps(w, events[0], device, boot);
      Run(Next(w, events[0], device, boot), events[1..], device, boot)
  }

  /** A device whose boot loaded its configuration. */
  ghost predicate Started(w: World) {
    Initial(w.control) && Store.Good(w.store) && !w.lost && w.control.config == Store.Meaning(w.store)
  }

  /** Over every run of commands, trials, commits with faults, reloads, updates and
      restarts: while the device runs and its configuration is not in doubt, the
      configuration in use is exactly what a boot would load, and it is valid. */
  lemma ConfigInUseIsStored(w: World, events: seq<Event>, device: string, boot: string)
    requires Started(w) && EventsOk(events)
    ensures Inv(w)
    ensures var v := Run(w, events, device, boot);
            && Store.Good(v.store)
            && (!v.control.configUncertain && !v.control.halted ==>
                  v.control.config == Store.Meaning(v.store) && ConfigOk(v.control.config))
  {
    DefaultIsValid();
  }

  lemma DefaultIsValid()
    ensures ConfigOk(DEFAULT)
  {
    assert |NO_KEY| == KEY_BYTES;
  }

  /** The trial's answer is true of the store: a success means that it holds the
      candidate at the next revision, a failure that it means what it meant before,
      and anything else that it is one of the two. */
  ghost predicate Truthful(v: World, u: World) {
    && Store.Good(v.store) && Store.Good(u.store)
    && v.control.trial.candidate.Some? && v.control.trial.slot < |u.control.outcomes|
    && var next := v.control.trial.candidate.value.(revision := Store.Meaning(v.store).revision + 1);
    && var answer := u.control.outcomes[v.control.trial.slot].phase;
    && (answer.Succeeded? ==> Store.Meaning(u.store) == u.control.config == next)
    && (answer.Failed? ==> Store.Meaning(u.store) == Store.Meaning(v.store))
    && (Store.Meaning(u.store) == Store.Meaning(v.store) || Store.Meaning(u.store) == next)
  }

  /** In every reachable state, polling an active trial gives a truthful answer. */
  lemma AnswerTellsTheStore(w: World, events: seq<Event>, io: PollIo, device: string, boot: string)
    requires Started(w) && EventsOk(events) && EventOk(Poll(io))
    ensures Inv(w)
    ensures var v := Run(w, events, device, boot);
            v.control.trial.active && !v.control.halted ==> Truthful(v, Next(v, Poll(io), device, boot))
  {
    var v := Run(w, events, device, boot);
    if v.control.trial.active && !v.control.halted { AnswerIsTrue(v, io, device, boot); }
  }

  lemma AnswerIsTrue(v: World, io: PollIo, device: string, boot: string)
    requires Inv(v) && EventOk(Poll(io)) && v.control.trial.active && !v.control.halted
    ensures Sound(v.control) && Truthful(v, Next(v, Poll(io), device, boot))
  {
    var s, t := v.control, PollTrial(v.control, TrialIoOf(v, io));
    if Commits(s, io) {
      CommitEffects(v, io);
      assert t == EndTrial(s, TrialIoOf(v, io));
    } else {
      assert Runs.Open(s.outcomes[s.trial.slot]);
    }
  }
}
