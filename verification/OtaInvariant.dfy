/** What every step of the update protocol keeps, and what follows for every
    run: a bootable confirmed image, an untouched running slot, and a receipt
    that only moves forward on proof. */
module OtaInvariant {
  import opened Common
  import opened OtaSlots
  import opened OtaReceipt
  import opened OtaProtocol

  // ------------------------------------------------------------- the invariant

  predicate Quiet(state: OtaState) {
    !state.New? && !state.Pending?
  }

  /** The selected slot is confirmed and nothing is on trial. */
  predicate Settled(d: Durable) {
    && At(d, d.boot).state.Valid? && Verified(At(d, d.boot).image)
    && Quiet(At(d, Other(d.boot)).state)
  }

  predicate ConfirmedSource(d: Durable, r: Receipt) {
    && At(d, r.source).state.Valid? && Verified(At(d, r.source).image)
    && At(d, r.source).image.digest == r.sourceDigest
  }

  /** The source still boots. */
  predicate Home(d: Durable, r: Receipt) {
    Settled(d) && d.boot == r.source && ConfirmedSource(d, r)
  }

  predicate CandidateSelected(d: Durable, r: Receipt) {
    d.boot == r.target && At(d, r.target).image == Signed(r.digest, r.size) && ConfirmedSource(d, r)
  }

  predicate OnTrial(d: Durable, r: Receipt) {
    CandidateSelected(d, r) && !Quiet(At(d, r.target).state)
  }

  predicate Arrived(d: Durable, r: Receipt) {
    CandidateSelected(d, r) && At(d, r.target).state.Valid?
  }

  predicate WellFormed(r: Receipt) {
    && r.target == Other(r.source)
    && r.digest != 0 && r.size != 0 && r.digest != r.sourceDigest
  }

  /** A complete confirmed firmware set can be observed from `running`. */
  predicate Observable(d: Durable, running: Slot) {
    ObserveFirmwareSet(Confirmed, d, running).Some?
  }

  /** The target is untouched since registration, or erased and retired. */
  predicate TargetHarmless(s: System, r: Receipt) {
    || RetireDone(s.d, r.target)
    || (At(s.d, r.target).image == s.registered && Observable(s.d, r.source))
  }

  predicate ReceiptInv(s: System) {
    match s.d.receipt
    case None => Settled(s.d)
    case Some(r) =>
      && WellFormed(r)
      && match r.status
         case Prepared => Home(s.d, r) || OnTrial(s.d, r) || Arrived(s.d, r)
         case Failed(_) => Home(s.d, r) && TargetHarmless(s, r)
         case Succeeded => Arrived(s.d, r)
  }

  /** A worker or recovery is acting on a PREPARED receipt whose source runs. */
  predicate Acting(s: System, r: Receipt) {
    && s.d.receipt == Some(r) && r.status.Prepared?
    && Home(s.d, r) && s.running == r.source
  }

  /** The candidate was selected although the selection reported a failure. */
  predicate Selected(s: System, r: Receipt) {
    && s.d.receipt == Some(r) && r.status.Prepared?
    && OnTrial(s.d, r) && s.running == r.source
  }

  predicate Intent(s: System, req: Request, next: Receipt) {
    && next.status.Prepared? && WellFormed(next)
    && next.source == s.running && At(s.d, s.running).image.Signed?
    && next.sourceDigest == At(s.d, s.running).image.digest
    && next.operation == req.operation && next.size == req.size && next.digest == req.digest
    && (s.d.receipt.Some? ==> s.d.receipt.value.operation != next.operation)
  }

  predicate Idle(s: System) {
    && s.running == s.d.boot && Settled(s.d) && Observable(s.d, s.running)
    && (s.d.receipt.Some? ==> !s.d.receipt.value.status.Prepared?)
  }

  predicate BootPcInv(s: System) {
    match s.pc
    case BootStart => s.running == s.d.boot && !At(s.d, s.d.boot).state.New?
    case LocalChecks(pending) =>
      s.running == s.d.boot && !At(s.d, s.d.boot).state.New? && pending == At(s.d, s.d.boot).state.Pending?
    case Reconciling(pending) =>
      s.running == s.d.boot && !At(s.d, s.d.boot).state.New? && pending == At(s.d, s.d.boot).state.Pending?
    case RecoveryRetire(pending) => !pending && s.d.receipt.Some? && Acting(s, s.d.receipt.value)
    case Trial(needs) => needs && s.running == s.d.boot && At(s.d, s.d.boot).state.Pending?
    case ConfirmReadback(needs) => needs && s.running == s.d.boot && Prospective(s.d)
    case Rejecting => s.running == s.d.boot && (At(s.d, s.d.boot).state.Pending? || Prospective(s.d))
    case RecordingSuccess => s.running == s.d.boot && Prospective(s.d)
    case StoringSuccess(next) =>
      s.running == s.d.boot && Prospective(s.d) && next == s.d.receipt.value.(status := Succeeded)
    case _ => true
  }

  /** The candidate is confirmed and its success is not yet recorded. */
  predicate Prospective(d: Durable) {
    d.receipt.Some? && d.receipt.value.status.Prepared? && Arrived(d, d.receipt.value)
  }

  predicate UpdatePcInv(s: System) {
    match s.pc
    case Ready => Idle(s)
    case StoringIntent(req, next) => Idle(s) && Intent(s, req, next)
    case StartingWorker(req) =>
      && s.d.receipt.Some? && Acting(s, s.d.receipt.value) && s.d.receipt.value.operation == req.operation
      && At(s.d, s.d.receipt.value.target).image == s.registered && Observable(s.d, s.running)
    case WorkerLoad(req) => s.d.receipt.Some? && Acting(s, s.d.receipt.value)
    case WorkerRetire(r) => Acting(s, r)
    case WorkerBegin(r) => Acting(s, r) && RetireDone(s.d, r.target)
    case WorkerPrepare(r) => Acting(s, r)
    case WorkerBoundary(r) => Acting(s, r) && At(s.d, r.target).image == Signed(r.digest, r.size)
    case WorkerSelect(r) => Acting(s, r) && At(s.d, r.target).image == Signed(r.digest, r.size)
    case WorkerCleanup(r, _) => Acting(s, r) || Selected(s, r)
    case RecordingFailure(operation, _, origin) =>
      && s.d.receipt.Some? && Acting(s, s.d.receipt.value) && s.d.receipt.value.operation == operation
      && TargetHarmless(s, s.d.receipt.value) && (origin.AtBoot? ==> !origin.pending)
    case StoringFailure(next, origin) =>
      && s.d.receipt.Some? && Acting(s, s.d.receipt.value)
      && next.status.Failed? && next == s.d.receipt.value.(status := next.status)
      && TargetHarmless(s, s.d.receipt.value) && (origin.AtBoot? ==> !origin.pending)
    case _ => true
  }

  predicate Inv(s: System) {
    ReceiptInv(s) && BootPcInv(s) && UpdatePcInv(s)
  }

  // --------------------------------------------------------------- its proof

  lemma InitialInv(s: System)
    requires Initial(s)
    ensures Inv(s)
  {
  }

  lemma BootloaderKeeps(s: System, junk: bool)
    requires Inv(s) && s.pc.Off?
    ensures Inv(NextBoot(s, Bootloader(junk)))
    ensures BootChoice(s.d, junk) == Some(BootMarks(s.d).boot)
  {
  }

  lemma ReconcileKeeps(s: System, rd: BootReads)
    requires Inv(s) && s.pc.Reconciling?
    ensures Inv(NextBoot(s, ReconcileReads(rd)))
  {
    ResolutionIsSound(s, rd);
  }

  /** What startup knows once the receipt and the slots have been reconciled. */
  lemma ResolutionIsSound(s: System, rd: BootReads)
    requires Inv(s) && s.pc.Reconciling?
    ensures match Reconcile(s.d, s.running, rd)
            case Unresolved => true
            case RetireTarget => !s.pc.pending && s.d.receipt.Some? && Acting(s, s.d.receipt.value)
            case Resolved(needs) =>
              if s.pc.pending then needs else if needs then Prospective(s.d) else Idle(s)
  {
  }

  lemma RecoveryKeeps(s: System, e: Event)
    requires Inv(s) && s.pc.RecoveryRetire?
    ensures Inv(NextBoot(s, e))
  {
  }

  lemma ConfirmKeeps(s: System, e: Event)
    requires Inv(s) && (e.Confirm? || e.Readback?)
    ensures Inv(NextBoot(s, e))
  {
  }

  /** Rejecting is safe even if the confirmation had been written after all. */
  lemma RejectKeeps(s: System, e: Event)
    requires Inv(s) && e.Reject?
    ensures Inv(NextBoot(s, e))
  {
  }

  lemma TrialKeeps(s: System, e: Event)
    requires Inv(s) && !e.Bootloader? && !e.ReconcileReads? && !s.pc.RecoveryRetire?
    ensures Inv(NextBoot(s, e))
  {
    if e.Confirm? || e.Readback? { ConfirmKeeps(s, e); }
    if e.Reject? { RejectKeeps(s, e); }
  }

  lemma NextBootKeeps(s: System, e: Event)
    requires Inv(s)
    ensures Inv(NextBoot(s, e))
  {
    if s.pc.RecoveryRetire? {
      RecoveryKeeps(s, e);
    } else if e.Bootloader? {
      if s.pc.Off? { BootloaderKeeps(s, e.junkBoots); } else { assert NextBoot(s, e) == s; }
    } else if e.ReconcileReads? {
      if s.pc.Reconciling? { ReconcileKeeps(s, e.boot); } else { assert NextBoot(s, e) == s; }
    } else {
      TrialKeeps(s, e);
    }
  }

  lemma RegisterKeeps(s: System, req: Request, rd: RegisterReads)
    requires Inv(s) && s.pc.Ready?
    ensures Inv(NextStart(s, Start(req, rd)))
  {
  }

  lemma NextStartKeeps(s: System, e: Event)
    requires Inv(s)
    ensures Inv(NextStart(s, e))
  {
    if s.pc.Ready? && e.Start? { RegisterKeeps(s, e.req, e.rd); }
  }

  lemma WorkerRetireKeeps(s: System, e: Event)
    requires Inv(s) && e.Retire? && !s.pc.WorkerCleanup?
    ensures Inv(NextWorker(s, e))
  {
  }

  lemma WorkerCleanupKeeps(s: System, e: Event)
    requires Inv(s) && e.Retire? && s.pc.WorkerCleanup?
    ensures Inv(NextWorker(s, e))
  {
  }

  lemma WorkerWriteKeeps(s: System, e: Event)
    requires Inv(s) && e.WriteTarget?
    ensures Inv(NextWorker(s, e))
  {
  }

  /** A selection may have been written whatever it reports. */
  lemma WorkerSelectKeeps(s: System, e: Event)
    requires Inv(s) && e.Select?
    ensures Inv(NextWorker(s, e))
  {
  }

  lemma NextWorkerKeeps(s: System, e: Event)
    requires Inv(s)
    ensures Inv(NextWorker(s, e))
  {
    if e.Retire? && s.pc.WorkerCleanup? { WorkerCleanupKeeps(s, e); }
    else if e.Retire? { WorkerRetireKeeps(s, e); }
    else if e.WriteTarget? { WorkerWriteKeeps(s, e); }
    else if e.Select? { WorkerSelectKeeps(s, e); }
  }

  lemma NextRecordKeeps(s: System, e: Event)
    requires Inv(s)
    ensures Inv(NextRecord(s, e))
  {
  }

  lemma NextKeeps(s: System, e: Event)
    requires Inv(s)
    ensures Inv(Next(s, e))
  {
    if !e.PowerCut? {
      NextBootKeeps(s, e);
      NextStartKeeps(s, e);
      NextWorkerKeeps(s, e);
      NextRecordKeeps(s, e);
    }
  }

  lemma {:induction false} RunKeeps(s: System, events: seq<Event>)
    requires Initial(s)
    ensures Inv(Run(s, events))
    decreases |events|
  {
    if events == [] {
      InitialInv(s);
    } else {
      RunKeeps(s, events[..|events| - 1]);
      NextKeeps(Run(s, events[..|events| - 1]), events[|events| - 1]);
    }
  }

  // ------------------------------------------------------ safety of every run

  /** Some confirmed complete image either boots next or is what the bootloader
      falls back to once the pending trial is cut. */
  predicate BootSafe(d: Durable) {
    Refuge(d, Ota0) || Refuge(d, Ota1)
  }

  predicate Refuge(d: Durable, v: Slot) {
    && At(d, v).state.Valid? && Verified(At(d, v).image)
    && forall j: bool, k: bool :: BootsTo(d, v, j, k)
  }

  /** The next boot, or the one after it, runs slot v. */
  predicate BootsTo(d: Durable, v: Slot, j: bool, k: bool) {
    || BootChoice(d, j) == Some(v)
    || (BootChoice(d, j) == Some(Other(v)) && BootChoice(BootMarks(d), k) == Some(v))
  }

  lemma BootsToRefuge(s: System, v: Slot, j: bool, k: bool)
    requires Inv(s) && v == (if At(s.d, s.d.boot).state.Valid? then s.d.boot else Other(s.d.boot))
    ensures At(s.d, v).state.Valid? && Verified(At(s.d, v).image) && BootsTo(s.d, v, j, k)
  {
  }

  /** In every reachable state, whatever happened and wherever power was cut. */
  lemma AlwaysBootable(s: System, events: seq<Event>)
    requires Initial(s)
    ensures BootSafe(Run(s, events).d)
  {
    RunKeeps(s, events);
    var d := Run(s, events).d;
    var v := if At(d, d.boot).state.Valid? then d.boot else Other(d.boot);
    forall j: bool, k: bool ensures BootsTo(d, v, j, k) {
      BootsToRefuge(Run(s, events), v, j, k);
    }
    assert Refuge(d, v);
  }

  /** A durable PREPARED receipt names the slot as its target. */
  predicate Named(d: Durable, x: Slot) {
    d.receipt.Some? && d.receipt.value.status.Prepared? && d.receipt.value.target == x
  }

  /** A slot, its image and its otadata entry, changes only if a durable PREPARED
      receipt names it; while it runs, only by its own confirmation or rejection,
      which never touch the image; and the selector moves only with such a receipt. */
  predicate SlotStep(s: System, e: Event, t: System, x: Slot) {
    && (At(t.d, x) != At(s.d, x) ==> Named(s.d, x))
    && (At(t.d, x).image != At(s.d, x).image ==> x != s.running && !s.pc.Off?)
    && (At(t.d, x) != At(s.d, x) && x == s.running && !s.pc.Off? ==>
          (e.Confirm? && At(t.d, x).state.Valid?) || (e.Reject? && At(t.d, x).state.Invalid?))
    && (t.d.boot != s.d.boot ==> Named(s.d, Ota0) || Named(s.d, Ota1))
  }

  lemma SlotStepHolds(s: System, e: Event, x: Slot)
    requires Inv(s)
    ensures SlotStep(s, e, Next(s, e), x)
  {
    BootSlotStep(s, e, x);
    WorkerSlotStep(s, e, x);
    assert SlotStep(s, e, NextStart(s, e), x);
    assert SlotStep(s, e, NextRecord(s, e), x);
  }

  lemma BootSlotStep(s: System, e: Event, x: Slot)
    requires Inv(s)
    ensures SlotStep(s, e, NextBoot(s, e), x)
  {
  }

  lemma WorkerSlotStep(s: System, e: Event, x: Slot)
    requires Inv(s)
    ensures SlotStep(s, e, NextWorker(s, e), x)
  {
  }

  lemma OnlyTheNamedTargetChanges(s: System, events: seq<Event>, e: Event, x: Slot)
    requires Initial(s)
    ensures SlotStep(Run(s, events), e, Next(Run(s, events), e), x)
  {
    RunKeeps(s, events);
    SlotStepHolds(Run(s, events), e, x);
  }

  /** One legal change of the retained receipt, with its proof. */
  predicate ReceiptStep(s: System, t: System) {
    || s.d.receipt == t.d.receipt
    || (t.d.receipt.Some? && t.d == s.d.(receipt := t.d.receipt) &&
        var q := t.d.receipt.value;
        match q.status
        case Prepared =>
          // A new intent replaces nothing, or another operation's terminal that was proved again.
          && Home(s.d, q) && s.running == q.source && t.registered == At(s.d, q.target).image
          && (s.d.receipt.Some? ==>
                var p := s.d.receipt.value;
                && p.operation != q.operation
                && (p.status.Failed? || p.status.Succeeded?)
                && (p.status.Failed? ==> Home(s.d, p) && s.running == p.source)
                && (p.status.Succeeded? ==> Arrived(s.d, p) && s.running == p.target))
        case Failed(_) =>
          && s.d.receipt == Some(q.(status := Prepared))
          && Home(s.d, q) && s.running == q.source && TargetHarmless(s, q)
        case Succeeded =>
          && s.d.receipt == Some(q.(status := Prepared))
          && Arrived(s.d, q) && s.running == q.target)
  }

  lemma ReceiptStepHolds(s: System, e: Event)
    requires Inv(s)
    ensures ReceiptStep(s, Next(s, e))
  {
    if s.pc.StoringIntent? {
      StoreIntentStep(s, e);
    } else if s.pc.StoringFailure? {
      StoreFailureStep(s, e);
    } else {
      assert NextStart(s, e).d.receipt == s.d.receipt;
      assert NextWorker(s, e).d.receipt == s.d.receipt;
      assert NextRecord(s, e).d.receipt == s.d.receipt;
      BootReceiptStep(s, e);
    }
  }

  lemma BootReceiptStep(s: System, e: Event)
    requires Inv(s)
    ensures ReceiptStep(s, NextBoot(s, e))
  {
  }

  lemma StoreIntentStep(s: System, e: Event)
    requires Inv(s) && s.pc.StoringIntent?
    ensures ReceiptStep(s, Next(s, e))
  {
  }

  lemma StoreFailureStep(s: System, e: Event)
    requires Inv(s) && s.pc.StoringFailure?
    ensures ReceiptStep(s, Next(s, e))
  {
  }

  lemma ReceiptMovesOnProof(s: System, events: seq<Event>, e: Event)
    requires Initial(s)
    ensures ReceiptStep(Run(s, events), Next(Run(s, events), e))
  {
    RunKeeps(s, events);
    ReceiptStepHolds(Run(s, events), e);
  }

  /** While one operation stays retained nothing of its receipt changes but the
      status: it is stored once, its terminal never flips, and so neither it nor any
      other request under its ID starts again. */
  lemma {:induction false} TerminalIsFinal(s: System, events: seq<Event>, i: nat)
    requires Initial(s) && i <= |events|
    requires Run(s, events[..i]).d.receipt.Some?
    requires forall k :: i <= k <= |events| ==>
               Run(s, events[..k]).d.receipt.Some?
               && Run(s, events[..k]).d.receipt.value.operation == Run(s, events[..i]).d.receipt.value.operation
    ensures Run(s, events).d.receipt.Some?
    ensures var first := Run(s, events[..i]).d.receipt.value;
            var last := Run(s, events).d.receipt.value;
            && last == first.(status := last.status)
            && (!first.status.Prepared? ==> last == first)
    decreases |events|
  {
    assert events[..|events|] == events;
    if i < |events| {
      var prefix := events[..|events| - 1];
      forall k | i <= k <= |prefix| ensures prefix[..k] == events[..k] {}
      TerminalIsFinal(s, prefix, i);
      assert Run(s, events) == Next(Run(s, prefix), events[|events| - 1]);
      ReceiptMovesOnProof(s, prefix, events[|events| - 1]);
      assert events[..|events| - 1] == prefix;
    }
  }
}
