/** ota_flash_acquire and ota_flash_release: a claim on the Flash owner handed
    between calls through one shared static. Any number of OTA and configuration
    threads run these routines over the claims of `StorageOwner`; every load, store
    and compare-exchange is a step. */
module FlashHandoff {
  import SO = StorageOwner

  datatype Stage =
    | Outside
    // inside esp_base_storage_claim
    | Claiming
    // the local claim is returned; an OTA caller has not stored the handoff yet
    | Claimed
    | Holding
    // inside ota_flash_release: handoff read, handoff cleared, release refused
    | Fetched | Cleared | Refused

  /** Configuration threads keep their claim in a local and never see the handoff. */
  datatype Thread = Thread(ota: bool, stage: Stage)

  /** `owner` holds the atomics and every thread's local claim; `handoff` is the
      token of the shared static claim. */
  datatype System = System(owner: SO.System, handoff: nat, threads: map<nat, Thread>)

  function To(s: System, i: nat, stage: Stage): System
    requires i in s.threads
  {
    s.(threads := s.threads[i := s.threads[i].(stage := stage)])
  }

  /** The thread's local claim becomes another value. */
  function WithLocal(s: System, i: nat, token: nat): System {
    if i in s.owner.threads
    then s.(owner := s.owner.(threads := s.owner.threads[i := s.owner.threads[i].(claim := token)]))
    else s
  }

  function Acted(s: System, i: nat, action: SO.Action): System {
    s.(owner := SO.Next(s.owner, SO.Event(i, action)))
  }

  function Local(s: System, i: nat): SO.Thread
    requires i in s.owner.threads
  {
    s.owner.threads[i]
  }

  /** Where an attempt to claim stands. */
  function ClaimStage(t: SO.Thread): Stage {
    if !t.pc.Idle? then Claiming else if t.claim == 0 then Outside else Claimed
  }

  function NextAcquire(s: System, i: nat): System
    requires i in s.threads && i in s.owner.threads
  {
    match s.threads[i].stage
    case Outside =>
      var t := Acted(s, i, SO.StartClaim);
      if i in t.owner.threads then To(t, i, ClaimStage(Local(t, i))) else t
    case Claiming =>
      var t := Acted(s, i, SO.Advance);
      if i in t.owner.threads then To(t, i, ClaimStage(Local(t, i))) else t
    case Claimed =>
      if s.threads[i].ota then To(WithLocal(s, i, 0), i, Holding).(handoff := Local(s, i).claim) else To(s, i, Holding)
    case _ => s
  }

  function NextRelease(s: System, i: nat): System
    requires i in s.threads && i in s.owner.threads
  {
    match s.threads[i].stage
    case Holding => if s.threads[i].ota then To(WithLocal(s, i, s.handoff), i, Fetched) else To(s, i, Cleared)
    case Fetched => To(s, i, Cleared).(handoff := 0)
    case Cleared =>
      var t := Acted(s, i, SO.ReleaseOwn);
      To(t, i, if t.owner == s.owner then Refused else Outside)
    case Refused =>
      var t := To(WithLocal(s, i, 0), i, Outside);
      if s.threads[i].ota then t.(handoff := Local(s, i).claim) else t
    case _ => s
  }

  predicate Acquires(stage: Stage) {
    stage.Outside? || stage.Claiming? || stage.Claimed?
  }

  /** The next atomic step of thread `i`. */
  function Next(s: System, i: nat): System {
    if i !in s.threads || i !in s.owner.threads then s
    else if Acquires(s.threads[i].stage) then NextAcquire(s, i)
    else NextRelease(s, i)
  }

  function Run(s: System, schedule: seq<nat>): System
    decreases |schedule|
  {
    if schedule == [] then s else Next(Run(s, schedule[..|schedule| - 1]), schedule[|schedule| - 1])
  }

  predicate Initial(s: System) {
    && SO.Initial(s.owner) && s.handoff == 0 && s.threads.Keys == s.owner.threads.Keys
    && forall i :: i in s.threads ==> s.threads[i].stage.Outside?
  }

  /** The thread owns the Flash, or is about to. */
  predicate Owns(t: Thread) {
    !t.stage.Outside? && !t.stage.Refused?
  }

  predicate Live(s: System, token: nat) {
    token == s.owner.active && 0 < token < SO.RESERVED
  }

  predicate ThreadInv(s: System, t: Thread, l: SO.Thread) {
    match t.stage
    case Outside => l.pc.Idle? && l.claim == 0
    case Claiming => !l.pc.Idle? && l.claim == 0 && s.handoff == 0 && s.owner.active != 0
                     && (l.pc.Published? ==> Live(s, l.pc.token))
    case Claimed => l.pc.Idle? && Live(s, l.claim) && s.handoff == 0
    case Holding => l.pc.Idle? && (if t.ota then l.claim == 0 && Live(s, s.handoff) else Live(s, l.claim) && s.handoff == 0)
    case Fetched => l.pc.Idle? && t.ota && Live(s, l.claim) && s.handoff == l.claim
    case Cleared => l.pc.Idle? && Live(s, l.claim) && s.handoff == 0
    case Refused => false
  }

  predicate Inv(s: System) {
    && SO.Inv(s.owner) && s.threads.Keys == s.owner.threads.Keys
    && (forall i :: i in s.threads ==> ThreadInv(s, s.threads[i], s.owner.threads[i]))
    && (forall i, j :: i in s.threads && j in s.threads && Owns(s.threads[i]) && Owns(s.threads[j]) ==> i == j)
    && (s.owner.active == 0 ==> s.handoff == 0 && forall i :: i in s.threads ==> !Owns(s.threads[i]))
  }

  /** Only thread i is in the routines. */
  predicate Alone(s: System, i: nat) {
    i in s.threads && forall j :: j in s.threads && j != i ==> s.threads[j].stage.Outside?
  }

  lemma OwnerIsAlone(s: System, i: nat)
    requires Inv(s) && i in s.threads && (Owns(s.threads[i]) || s.owner.active == 0)
    ensures Alone(s, i)
  {
    forall j | j in s.threads && j != i ensures s.threads[j].stage.Outside? {
      assert ThreadInv(s, s.threads[j], s.owner.threads[j]);
    }
  }

  /** A step of the only thread in the routines concerns that thread alone. */
  lemma AloneKeeps(s: System, t: System, i: nat)
    requires Inv(s) && Alone(s, i) && SO.Inv(t.owner)
    requires i in t.threads && t.threads == s.threads[i := t.threads[i]]
    requires i in t.owner.threads && t.owner.threads == s.owner.threads[i := t.owner.threads[i]]
    requires ThreadInv(t, t.threads[i], t.owner.threads[i])
    requires t.owner.active == 0 ==> t.handoff == 0 && !Owns(t.threads[i])
    ensures Inv(t)
  {
    forall j | j in t.threads && j != i ensures ThreadInv(t, t.threads[j], t.owner.threads[j]) && !Owns(t.threads[j]) {
      assert ThreadInv(s, s.threads[j], s.owner.threads[j]);
    }
  }

  /** Moving a token that is not ahead of the counter, while no claim is numbered. */
  lemma LocalKeeps(s: System, i: nat, token: nat)
    requires Inv(s) && Alone(s, i) && Local(s, i).pc.Idle? && token <= s.owner.next
    ensures SO.Inv(WithLocal(s, i, token).owner)
  {
    forall j | j in s.threads ensures s.owner.threads[j].pc.Idle? {
      assert ThreadInv(s, s.threads[j], s.owner.threads[j]);
    }
  }

  lemma StartKeeps(s: System, i: nat)
    requires Inv(s) && i in s.threads && s.threads[i].stage.Outside?
    ensures Inv(NextAcquire(s, i))
  {
    var t := NextAcquire(s, i);
    assert ThreadInv(s, s.threads[i], s.owner.threads[i]);
    SO.NextKeeps(s.owner, SO.Event(i, SO.StartClaim));
    if s.owner.active == 0 {
      OwnerIsAlone(s, i);
      AloneKeeps(s, t, i);
    } else {
      assert t.owner == s.owner && t.threads == s.threads;
    }
  }

  lemma ClaimingKeeps(s: System, i: nat)
    requires Inv(s) && i in s.threads && s.threads[i].stage.Claiming?
    ensures Inv(NextAcquire(s, i))
  {
    var t := NextAcquire(s, i);
    assert ThreadInv(s, s.threads[i], s.owner.threads[i]);
    SO.NextKeeps(s.owner, SO.Event(i, SO.Advance));
    assert SO.ThreadInv(s.owner, s.owner.threads[i]);
    OwnerIsAlone(s, i);
    AloneKeeps(s, t, i);
  }

  lemma AcquireKeeps(s: System, i: nat)
    requires Inv(s) && i in s.threads && Acquires(s.threads[i].stage)
    ensures Inv(NextAcquire(s, i))
  {
    match s.threads[i].stage
    case Outside => StartKeeps(s, i);
    case Claiming => ClaimingKeeps(s, i);
    case Claimed =>
      assert ThreadInv(s, s.threads[i], s.owner.threads[i]);
      OwnerIsAlone(s, i);
      LocalKeeps(s, i, 0);
      AloneKeeps(s, NextAcquire(s, i), i);
  }

  lemma ReleaseKeeps(s: System, i: nat)
    requires Inv(s) && i in s.threads && !Acquires(s.threads[i].stage)
    ensures Inv(NextRelease(s, i))
  {
    assert ThreadInv(s, s.threads[i], s.owner.threads[i]);
    OwnerIsAlone(s, i);
    match s.threads[i].stage
    case Holding =>
      if s.threads[i].ota { LocalKeeps(s, i, s.handoff); }
      AloneKeeps(s, NextRelease(s, i), i);
    case Fetched => AloneKeeps(s, NextRelease(s, i), i);
    case Cleared =>
      SO.NextKeeps(s.owner, SO.Event(i, SO.ReleaseOwn));
      AloneKeeps(s, NextRelease(s, i), i);
  }

  lemma NextKeeps(s: System, i: nat)
    requires Inv(s)
    ensures Inv(Next(s, i))
  {
    if i in s.threads {
      if Acquires(s.threads[i].stage) { AcquireKeeps(s, i); } else { ReleaseKeeps(s, i); }
    }
  }

  lemma {:induction false} RunKeeps(s: System, schedule: seq<nat>)
    requires Initial(s)
    ensures Inv(Run(s, schedule))
    decreases |schedule|
  {
    if schedule != [] {
      RunKeeps(s, schedule[..|schedule| - 1]);
      NextKeeps(Run(s, schedule[..|schedule| - 1]), schedule[|schedule| - 1]);
    }
  }

  /** In every interleaving: one owner at a time, and while an OTA thread holds
      the Flash the shared handoff is exactly the live token. */
  lemma OneHolder(s: System, schedule: seq<nat>, i: nat, j: nat)
    requires Initial(s)
    requires i in Run(s, schedule).threads && j in Run(s, schedule).threads
    ensures var now := Run(s, schedule);
            && (Owns(now.threads[i]) && Owns(now.threads[j]) ==> i == j)
            && (now.threads[i].ota && now.threads[i].stage.Holding? ==> Live(now, now.handoff))
  {
    RunKeeps(s, schedule);
  }

  /** No release is ever refused, and the handoff is written only by the current
      owner: set once from empty after its claim, cleared once before its release. */
  lemma HandoffNeverOverwritten(s: System, schedule: seq<nat>, i: nat)
    requires Initial(s) && i in Run(s, schedule).threads
    ensures var now := Run(s, schedule);
            var after := Next(now, i);
            && i in after.threads && !after.threads[i].stage.Refused?
            && (now.threads[i].stage.Cleared? ==> after.owner.active == 0 && after.threads[i].stage.Outside?)
            && (after.handoff != now.handoff ==>
                  && now.threads[i].ota && Owns(now.threads[i])
                  && (now.handoff == 0 <==> now.threads[i].stage.Claimed?)
                  && (after.handoff == 0 <==> now.threads[i].stage.Fetched?)
                  && (after.handoff != 0 ==> after.handoff == now.owner.active))
  {
    RunKeeps(s, schedule);
    HandoffStep(Run(s, schedule), i);
  }

  lemma HandoffStep(now: System, i: nat)
    requires i in now.threads && i in now.owner.threads && ThreadInv(now, now.threads[i], now.owner.threads[i])
    ensures var after := Next(now, i);
            && i in after.threads && !after.threads[i].stage.Refused?
            && (now.threads[i].stage.Cleared? ==> after.owner.active == 0 && after.threads[i].stage.Outside?)
            && (after.handoff != now.handoff ==>
                  && now.threads[i].ota && Owns(now.threads[i])
                  && (now.handoff == 0 <==> now.threads[i].stage.Claimed?)
                  && (after.handoff == 0 <==> now.threads[i].stage.Fetched?)
                  && (after.handoff != 0 ==> after.handoff == now.owner.active))
  {
    if now.threads[i].stage.Cleared? {
      assert Acted(now, i, SO.ReleaseOwn).owner.active == 0 != now.owner.active;
    }
  }
}
