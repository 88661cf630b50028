/** Recovery: from every reachable state an uninterrupted start resolves a
    PREPARED operation, and a ready device can always take the next one. */
module OtaRecovery {
  import opened Common
  import opened OtaSlots
  import opened OtaReceipt
  import opened OtaProtocol
  import opened OtaInvariant

  const ALL_READS := BootReads(true, true, true, true, true, EvaluateReads(true, true))

  /** An uninterrupted, fault-free start after a power cut. Events that do not
      apply on the path taken are skipped. */
  function CleanBoot(healthy: bool, junk: bool): seq<Event> {
    [PowerCut, Bootloader(junk), Inspect(true), Check(true), ReconcileReads(ALL_READS),
     Retire(Some(Aborted), true, true),
     if healthy then Confirm(true, true, true) else TrialFailed,
     if healthy then Readback(true) else Reject(true, true),
     RecordReads(true, true), Store(true, true, true)]
  }

  lemma {:induction false} RunAppend(s: System, a: seq<Event>, b: seq<Event>)
    ensures Run(s, a + b) == Run(Run(s, a), b)
    decreases |b|
  {
    if b == [] {
      assert a + b == a;
    } else {
      var n := |b| - 1;
      assert (a + b)[..|a + b| - 1] == a + b[..n];
      RunAppend(s, a, b[..n]);
    }
  }

  lemma RunOne(s: System, a: Event)
    ensures Run(s, [a]) == Next(s, a)
  {
    assert [a][..0] == [];
    assert Run(s, [a][..0]) == s;
  }

  lemma RunTwo(s: System, a: Event, b: Event)
    ensures Run(s, [a, b]) == Next(Next(s, a), b)
  {
    RunOne(s, a);
    RunOne(Next(s, a), b);
    RunAppend(s, [a], [b]);
    assert [a] + [b] == [a, b];
  }

  lemma RunFour(s: System, a: Event, b: Event, c: Event, d: Event)
    ensures Run(s, [a, b, c, d]) == Next(Next(Next(Next(s, a), b), c), d)
  {
    RunTwo(s, a, b);
    RunTwo(Next(Next(s, a), b), c, d);
    RunAppend(s, [a, b], [c, d]);
    assert [a, b] + [c, d] == [a, b, c, d];
  }

  /** The same start as a chain of single steps. */
  function CleanStart(s: System, junk: bool): System {
    Next(Next(Next(Next(s, PowerCut), Bootloader(junk)), Inspect(true)), Check(true))
  }

  function CleanFinish(s: System, healthy: bool): System {
    var t := Next(Next(s, ReconcileReads(ALL_READS)), Retire(Some(Aborted), true, true));
    var u := if healthy then Next(Next(t, Confirm(true, true, true)), Readback(true))
             else Next(Next(t, TrialFailed), Reject(true, true));
    Next(Next(u, RecordReads(true, true)), Store(true, true, true))
  }

  lemma CleanBootSteps(s: System, healthy: bool, junk: bool)
    ensures Run(s, CleanBoot(healthy, junk)) == CleanFinish(CleanStart(s, junk), healthy)
  {
    var start := [PowerCut, Bootloader(junk), Inspect(true), Check(true)];
    var middle := [ReconcileReads(ALL_READS), Retire(Some(Aborted), true, true),
                   if healthy then Confirm(true, true, true) else TrialFailed,
                   if healthy then Readback(true) else Reject(true, true)];
    var finish := [RecordReads(true, true), Store(true, true, true)];
    assert CleanBoot(healthy, junk) == start + (middle + finish);
    RunAppend(s, start, middle + finish);
    RunFour(s, start[0], start[1], start[2], start[3]);
    var t := CleanStart(s, junk);
    RunAppend(t, middle, finish);
    RunFour(t, middle[0], middle[1], middle[2], middle[3]);
    RunTwo(Run(t, middle), finish[0], finish[1]);
  }

  lemma CleanStartReconciles(s: System, junk: bool)
    requires Inv(s)
    ensures var t := CleanStart(s, junk);
            && Inv(t) && t.d == BootMarks(s.d) && t.running == t.d.boot
            && t.pc == Reconciling(At(t.d, t.d.boot).state.Pending?)
  {
    var off := Next(s, PowerCut);
    NextKeeps(s, PowerCut);
    BootloaderKeeps(off, junk);
    NextKeeps(off, Bootloader(junk));
    var booted := Next(off, Bootloader(junk));
    NextKeeps(booted, Inspect(true));
    NextKeeps(Next(booted, Inspect(true)), Check(true));
  }

  /** The source boots: the target is retired and the failure recorded. */
  lemma FinishAtHome(s: System, healthy: bool, r: Receipt)
    requires Inv(s) && s.pc.Reconciling? && s.d.receipt == Some(r) && r.status.Prepared? && Home(s.d, r)
    ensures var t := CleanFinish(s, healthy);
            && t.pc.Ready? && t.d.receipt == Some(r.(status := Failed(ResourceFailure)))
            && t.running == r.source == t.d.boot && ConfirmedSource(t.d, r)
  {
    var t := Next(s, ReconcileReads(ALL_READS));
    assert t == s.(pc := RecoveryRetire(false));
    var u := Next(t, Retire(Some(Aborted), true, true));
    assert u == s.(d := RetireEffect(s.d, r.target, Some(Aborted), true),
                   pc := RecordingFailure(r.operation, ResourceFailure, AtBoot(false)));
    var w := if healthy then Next(Next(u, Confirm(true, true, true)), Readback(true))
             else Next(Next(u, TrialFailed), Reject(true, true));
    assert w == u;
    FailureIsRecorded(u, r);
  }

  lemma FailureIsRecorded(u: System, r: Receipt)
    requires u.pc == RecordingFailure(r.operation, ResourceFailure, AtBoot(false)) && u.d.receipt == Some(r)
    requires r.status.Prepared? && Home(u.d, r) && RetireDone(u.d, r.target) && u.running == r.source && WellFormed(r)
    ensures var t := Next(Next(u, RecordReads(true, true)), Store(true, true, true));
            && t.pc.Ready? && t.d == u.d.(receipt := Some(r.(status := Failed(ResourceFailure)))) && t.running == u.running
  {
    var v := Next(u, RecordReads(true, true));
    assert v == u.(pc := StoringFailure(r.(status := Failed(ResourceFailure)), AtBoot(false)));
  }

  /** The confirmed candidate boots: only its success receipt is missing. */
  lemma FinishArrived(s: System, healthy: bool, r: Receipt)
    requires Inv(s) && s.pc.Reconciling? && s.d.receipt == Some(r) && r.status.Prepared? && Arrived(s.d, r)
    ensures var t := CleanFinish(s, healthy);
            && t.pc.Ready? && t.d == s.d.(receipt := Some(r.(status := Succeeded))) && t.running == r.target
  {
    var t := Next(s, ReconcileReads(ALL_READS));
    assert t == s.(pc := RecordingSuccess);
    var v := Next(t, RecordReads(true, true));
    assert v == s.(pc := StoringSuccess(r.(status := Succeeded)));
  }

  /** The candidate is on trial: it is confirmed and recorded, or rejected. */
  lemma FinishTrial(s: System, healthy: bool, r: Receipt)
    requires Inv(s) && s.pc.Reconciling? && s.d.receipt == Some(r) && r.status.Prepared? && OnTrial(s.d, r)
    ensures var t := CleanFinish(s, healthy);
            if healthy then
              && t.pc.Ready? && t.running == r.target && t.d.receipt == Some(r.(status := Succeeded))
              && Arrived(t.d, r)
            else t.pc.Off? && t.d.receipt == s.d.receipt && Home(t.d, r)
  {
    var t := Next(s, ReconcileReads(ALL_READS));
    assert t == s.(pc := Trial(true));
    if healthy { ConfirmTrial(s, t, r); } else { RejectTrial(s, t); }
  }

  lemma ConfirmTrial(s: System, t: System, r: Receipt)
    requires Inv(s) && s.d.receipt == Some(r) && r.status.Prepared? && OnTrial(s.d, r) && s.running == r.target
    requires t == s.(pc := Trial(true)) == Next(s, ReconcileReads(ALL_READS))
    ensures var u := CleanFinish(s, true);
            u.pc.Ready? && u.running == r.target && u.d.receipt == Some(r.(status := Succeeded)) && Arrived(u.d, r)
  {
    var u := Next(Next(t, Confirm(true, true, true)), Readback(true));
    assert u == s.(d := ConfirmEffect(s.d, s.running), pc := RecordingSuccess);
    var v := Next(u, RecordReads(true, true));
    assert v == u.(pc := StoringSuccess(r.(status := Succeeded)));
  }

  lemma RejectTrial(s: System, t: System)
    requires t == s.(pc := Trial(true)) == Next(s, ReconcileReads(ALL_READS))
    ensures CleanFinish(s, false) == s.(d := RejectEffect(s.d, s.running), pc := Off)
  {
  }

  /** Whether the bootloader will start the candidate and see it confirmed. */
  predicate CandidateWins(d: Durable, r: Receipt, healthy: bool) {
    d.boot == r.target && (At(d, r.target).state.Valid? || (At(d, r.target).state.New? && healthy))
  }

  predicate TrialRejected(d: Durable, r: Receipt, healthy: bool) {
    d.boot == r.target && At(d, r.target).state.New? && !healthy
  }

  /** From every reachable state, wherever power is cut, one uninterrupted start
      (and one more exactly when the trial is rejected) turns a PREPARED receipt
      into one terminal: SUCCEEDED with the candidate running and confirmed if and
      only if the candidate wins, FAILED with the source running otherwise. */
  lemma EveryCrashResolves(s: System, events: seq<Event>, healthy: bool, junk: bool, again: bool, junkAgain: bool)
    requires Initial(s)
    requires Run(s, events).d.receipt.Some? && Run(s, events).d.receipt.value.status.Prepared?
    ensures var before := Run(s, events);
            var r := before.d.receipt.value;
            var first := Run(before, CleanBoot(healthy, junk));
            var last := if first.pc.Off? then Run(first, CleanBoot(again, junkAgain)) else first;
            && (first.pc.Off? <==> TrialRejected(before.d, r, healthy))
            && last.pc.Ready?
            && (if CandidateWins(before.d, r, healthy)
                then last.d.receipt == Some(r.(status := Succeeded)) && last.running == r.target && Arrived(last.d, r)
                else last.d.receipt == Some(r.(status := Failed(ResourceFailure)))
                     && last.running == r.source == last.d.boot && ConfirmedSource(last.d, r))
  {
    var before := Run(s, events);
    var r := before.d.receipt.value;
    RunKeeps(s, events);
    CleanBootSteps(before, healthy, junk);
    CleanStartReconciles(before, junk);
    var t := CleanStart(before, junk);
    if Home(t.d, r) {
      FinishAtHome(t, healthy, r);
    } else if Arrived(t.d, r) {
      FinishArrived(t, healthy, r);
    } else {
      FinishTrial(t, healthy, r);
      if !healthy {
        var off := CleanFinish(t, healthy);
        RejectedIsInv(off, r);
        CleanBootSteps(off, again, junkAgain);
        CleanStartReconciles(off, junkAgain);
        FinishAtHome(CleanStart(off, junkAgain), again, r);
      }
    }
  }

  /** No operation is under way: nothing is retained, or only a terminal. */
  predicate Quiescent(d: Durable) {
    d.receipt.None? || !d.receipt.value.status.Prepared?
  }

  /** A quiescent device starts without a durable effect; it gets ready if and only
      if an operation is retained or its whole firmware set can be observed. */
  lemma FinishQuiescent(s: System, healthy: bool)
    requires Inv(s) && s.pc.Reconciling? && Quiescent(s.d)
    ensures var t := CleanFinish(s, healthy);
            && t.d == s.d && t.running == s.running
            && t.pc == (if s.d.receipt.Some? || Observable(s.d, s.d.boot) then Ready else Halted)
  {
    var t := Next(s, ReconcileReads(ALL_READS));
    assert t == s.(pc := if s.d.receipt.Some? || Observable(s.d, s.d.boot) then Ready else Halted);
    RestIgnores(t);
  }

  /** A start that has ended ignores the events of the paths it did not take. */
  lemma RestIgnores(t: System)
    requires t.pc.Ready? || t.pc.Halted?
    ensures Next(t, Retire(Some(Aborted), true, true)) == t
    ensures Next(t, Confirm(true, true, true)) == Next(t, Readback(true)) == t
    ensures Next(t, TrialFailed) == Next(t, Reject(true, true)) == t
    ensures Next(t, RecordReads(true, true)) == Next(t, Store(true, true, true)) == t
  {
  }

  /** The rest of recovery: from every reachable state without a PREPARED receipt one
      fault-free start changes nothing durable, runs the selected image, and is ready
      exactly for a retained terminal or an observable firmware set. */
  lemma QuietBootChangesNothing(s: System, events: seq<Event>, healthy: bool, junk: bool)
    requires Initial(s) && Quiescent(Run(s, events).d)
    ensures var before := Run(s, events);
            var after := Run(before, CleanBoot(healthy, junk));
            && after.d == before.d && after.running == before.d.boot
            && (after.pc.Ready? <==> before.d.receipt.Some? || Observable(before.d, before.d.boot))
  {
    var before := Run(s, events);
    RunKeeps(s, events);
    CleanBootSteps(before, healthy, junk);
    CleanStartReconciles(before, junk);
    assert BootMarks(before.d) == before.d;
    FinishQuiescent(CleanStart(before, junk), healthy);
  }

  /** Startup of a device without a receipt and without a complete firmware set. */
  predicate Unready(s: System, d: Durable) {
    s.d == d && (s.pc.Off? || s.pc.BootStart? || s.pc.LocalChecks? || s.pc.Reconciling? || s.pc.Halted?)
  }

  lemma UnreadyStep(s: System, d: Durable, e: Event)
    requires Unready(s, d) && Inv(s) && d.receipt.None? && !Observable(d, d.boot)
    ensures Unready(Next(s, e), d)
  {
  }

  lemma {:induction false} UnreadyStays(s: System, events: seq<Event>)
    requires Initial(s) && !Observable(s.d, s.d.boot)
    ensures Unready(Run(s, events), s.d)
    decreases |events|
  {
    if events != [] {
      var before := events[..|events| - 1];
      UnreadyStays(s, before);
      RunKeeps(s, before);
      UnreadyStep(Run(s, before), s.d, events[|events| - 1]);
    }
  }

  ghost predicate EverReady(s: System) {
    exists events: seq<Event> :: Run(s, events).pc.Ready?
  }

  /** A newly assembled device can ever take an update if and only if its whole
      firmware set is observable: the other slot is VALID with a verified image, or
      retired and erased. Otherwise nothing durable ever changes in it. */
  lemma NewDeviceServesExactly(s: System)
    requires Initial(s)
    ensures EverReady(s) <==> Observable(s.d, s.d.boot)
    ensures Observable(s.d, s.d.boot) <==>
              var other := At(s.d, Other(s.d.boot));
              if other.state.Valid? then Verified(other.image) else Retired(other.state) && other.image.Erased?
    ensures !Observable(s.d, s.d.boot) ==> forall events: seq<Event> :: Run(s, events).d == s.d
  {
    if Observable(s.d, s.d.boot) {
      assert Run(s, []) == s;
      QuietBootChangesNothing(s, [], true, true);
      assert Run(s, CleanBoot(true, true)).pc.Ready?;
    } else {
      forall events: seq<Event> ensures Run(s, events).d == s.d && !Run(s, events).pc.Ready? { UnreadyStays(s, events); }
    }
  }

  lemma RejectedIsInv(s: System, r: Receipt)
    requires s.pc.Off? && s.d.receipt == Some(r) && r.status.Prepared? && WellFormed(r) && Home(s.d, r)
    ensures Inv(s)
  {
  }

  const GOOD_READS := RegisterReads(true, true, true, EvaluateReads(true, true), true, true)

  /** A ready device is never wedged: a fault-free registration of a fresh
      operation for a different image of legal size is admitted and, once
      stored, is the durable intent with the running image as its source. */
  lemma ReadyAdmitsTheNext(s: System, events: seq<Event>, req: Request)
    requires Initial(s) && Run(s, events).pc.Ready?
    requires req.wellFormed && req.digest != 0 && 0 < req.size <= SLOT_SIZE
    requires var now := Run(s, events);
             && (now.d.receipt.Some? ==> now.d.receipt.value.operation != req.operation)
             && At(now.d, now.running).image != Signed(req.digest, req.size)
             && (At(now.d, now.running).image.Signed? ==> At(now.d, now.running).image.digest != req.digest)
    ensures var now := Run(s, events);
            var after := Next(Next(now, Start(req, GOOD_READS)), Store(true, true, true));
            && after.pc == StartingWorker(req)
            && after.d.receipt.Some? && after.d.receipt.value.status.Prepared?
            && after.d.receipt.value.operation == req.operation
            && after.d.receipt.value.source == now.running
            && At(now.d, now.running).image.digest == after.d.receipt.value.sourceDigest
  {
    RunKeeps(s, events);
    var now := Run(s, events);
    assert Register(now.d, now.running, req, GOOD_READS).Admit?;
  }

  /** The whole update, with no fault: registered, downloaded, selected, tried
      and recorded. The candidate then runs confirmed beside its source. */
  function GoodUpdate(req: Request): seq<Event> {
    [Start(req, GOOD_READS), Store(true, true, true), TaskCreate(true), Load(true),
     Retire(Some(Untracked), true, true), Begin(true), WriteTarget(Junk, None),
     WriteTarget(Signed(req.digest, req.size), None), PrepareEnd(UpdateOk), Boundary(true),
     Select(true, UpdateOk)]
  }

  function GoodIntent(s: System, req: Request): System {
    Next(Next(Next(Next(s, Start(req, GOOD_READS)), Store(true, true, true)), TaskCreate(true)), Load(true))
  }

  function GoodDownload(s: System, image: Image): System {
    Next(Next(Next(Next(s, Retire(Some(Untracked), true, true)), Begin(true)),
              WriteTarget(Junk, None)), WriteTarget(image, None))
  }

  function GoodSelection(s: System): System {
    Next(Next(Next(s, PrepareEnd(UpdateOk)), Boundary(true)), Select(true, UpdateOk))
  }

  lemma GoodUpdateSteps(s: System, req: Request)
    ensures Run(s, GoodUpdate(req))
         == GoodSelection(GoodDownload(GoodIntent(s, req), Signed(req.digest, req.size)))
  {
    var image := Signed(req.digest, req.size);
    var intent := [Start(req, GOOD_READS), Store(true, true, true), TaskCreate(true), Load(true)];
    var download := [Retire(Some(Untracked), true, true), Begin(true), WriteTarget(Junk, None), WriteTarget(image, None)];
    var selection := [PrepareEnd(UpdateOk), Boundary(true)];
    var last := [Select(true, UpdateOk)];
    assert GoodUpdate(req) == intent + (download + (selection + last));
    RunAppend(s, intent, download + (selection + last));
    RunFour(s, intent[0], intent[1], intent[2], intent[3]);
    var t := GoodIntent(s, req);
    RunAppend(t, download, selection + last);
    RunFour(t, download[0], download[1], download[2], download[3]);
    var u := GoodDownload(t, image);
    RunAppend(u, selection, last);
    RunTwo(u, selection[0], selection[1]);
    RunOne(Run(u, selection), last[0]);
  }

  lemma GoodIntentBinds(s: System, req: Request)
    requires Inv(s) && s.pc.Ready?
    requires Register(s.d, s.running, req, GOOD_READS).Admit?
    ensures var r := Register(s.d, s.running, req, GOOD_READS).next;
            var t := GoodIntent(s, req);
            && t.pc == WorkerRetire(r) && t.running == s.running && t.d.receipt == Some(r) && MayRetire(t.d, r.target)
            && r.target == Other(s.running) && r.digest == req.digest && r.size == req.size
  {
    var r := Register(s.d, s.running, req, GOOD_READS).next;
    var t := Next(s, Start(req, GOOD_READS));
    assert t == s.(pc := StoringIntent(req, r));
    var u := Next(t, Store(true, true, true));
    assert u.pc == StartingWorker(req) && u.running == s.running && u.d == s.d.(receipt := Some(r));
    var v := Next(u, TaskCreate(true));
    assert v == u.(pc := WorkerLoad(req));
  }

  lemma GoodDownloadEnds(s: System, r: Receipt, image: Image)
    requires s.pc == WorkerRetire(r) && r.target == Other(s.running) && s.d.receipt == Some(r) && MayRetire(s.d, r.target)
    ensures var t := GoodDownload(s, image);
            && t.pc == WorkerPrepare(r) && t.running == s.running && t.d.receipt == Some(r)
            && At(t.d, r.target).image == image
  {
    var t := Next(s, Retire(Some(Untracked), true, true));
    assert t == s.(pc := WorkerBegin(r), d := RetireEffect(s.d, r.target, Some(Untracked), true));
    GoodWritesEnd(Next(t, Begin(true)), r, image);
  }

  lemma GoodWritesEnd(s: System, r: Receipt, image: Image)
    requires s.pc == WorkerPrepare(r) && r.target == Other(s.running) && s.d.receipt == Some(r)
    ensures var t := Next(Next(s, WriteTarget(Junk, None)), WriteTarget(image, None));
            && t.pc == WorkerPrepare(r) && t.running == s.running && t.d.receipt == Some(r)
            && At(t.d, r.target).image == image
  {
    var v := Next(s, WriteTarget(Junk, None));
    assert v == s.(d := WriteEffect(s.d, s.running, Junk, None));
  }

  lemma GoodSelectionEnds(s: System, r: Receipt)
    requires s.pc == WorkerPrepare(r) && r.target == Other(s.running) && s.d.receipt == Some(r)
    requires At(s.d, r.target).image == Signed(r.digest, r.size)
    ensures GoodSelection(s) == s.(pc := WorkerSelected, d := SelectEffect(s.d, s.running))
  {
    var t := Next(s, PrepareEnd(UpdateOk));
    assert t == s.(pc := WorkerBoundary(r));
    var u := Next(t, Boundary(true));
    assert u == s.(pc := WorkerSelect(r));
    SelectionStep(u, r);
  }

  lemma SelectionStep(s: System, r: Receipt)
    requires s.pc == WorkerSelect(r)
    ensures Next(s, Select(true, UpdateOk)) == s.(pc := WorkerSelected, d := SelectEffect(s.d, s.running))
  {
  }

  lemma GoodUpdateSelects(s: System, req: Request)
    requires Inv(s) && s.pc.Ready?
    requires Register(s.d, s.running, req, GOOD_READS).Admit?
    ensures var r := Register(s.d, s.running, req, GOOD_READS).next;
            var t := Run(s, GoodUpdate(req));
            && t.pc.WorkerSelected? && t.d.receipt == Some(r) && r.status.Prepared?
            && t.d.boot == r.target && At(t.d, r.target).state.New?
  {
    var r := Register(s.d, s.running, req, GOOD_READS).next;
    GoodIntentBinds(s, req);
    GoodRunSelects(s, req, r);
  }

  lemma GoodRunSelects(s: System, req: Request, r: Receipt)
    requires var t := GoodIntent(s, req);
             t.pc == WorkerRetire(r) && t.d.receipt == Some(r) && r.target == Other(t.running) && MayRetire(t.d, r.target)
    requires r.digest == req.digest && r.size == req.size
    ensures var t := Run(s, GoodUpdate(req));
            && t.pc.WorkerSelected? && t.d.receipt == Some(r)
            && t.d.boot == r.target && At(t.d, r.target).state.New?
  {
    GoodUpdateSteps(s, req);
    GoodTransferSelects(GoodIntent(s, req), r);
  }

  lemma GoodTransferSelects(s: System, r: Receipt)
    requires s.pc == WorkerRetire(r) && r.target == Other(s.running) && s.d.receipt == Some(r) && MayRetire(s.d, r.target)
    ensures var t := GoodSelection(GoodDownload(s, Signed(r.digest, r.size)));
            && t.pc.WorkerSelected? && t.d.receipt == Some(r)
            && t.d.boot == r.target && At(t.d, r.target).state.New?
  {
    var image := Signed(r.digest, r.size);
    GoodDownloadEnds(s, r, image);
    GoodSelectionEnds(GoodDownload(s, image), r);
  }

  lemma GoodUpdateSucceeds(s: System, events: seq<Event>, req: Request, junk: bool)
    requires Initial(s) && Run(s, events).pc.Ready?
    requires Register(Run(s, events).d, Run(s, events).running, req, GOOD_READS).Admit?
    ensures var r := Register(Run(s, events).d, Run(s, events).running, req, GOOD_READS).next;
            var last := Run(Run(Run(s, events), GoodUpdate(req)), CleanBoot(true, junk));
            && last.pc.Ready? && last.d.receipt == Some(r.(status := Succeeded))
            && last.running == r.target && Arrived(last.d, r)
  {
    RunKeeps(s, events);
    var now := Run(s, events);
    GoodUpdateSelects(now, req);
    RunAppend(s, events, GoodUpdate(req));
    EveryCrashResolves(s, events + GoodUpdate(req), true, junk, true, junk);
  }

  /** In a ready device every retained operation has a provable public result. */
  lemma ReadyIsTerminal(s: System, events: seq<Event>)
    requires Initial(s) && Run(s, events).pc.Ready? && Run(s, events).d.receipt.Some?
    ensures var now := Run(s, events);
            var view := Evaluate(now.d.receipt.value, false, now.d, now.running, EvaluateReads(true, true));
            && view == (if now.d.receipt.value.status.Failed? then ViewFailed(now.d.receipt.value.status.code)
                        else ViewSucceeded)
  {
    RunKeeps(s, events);
  }
}
