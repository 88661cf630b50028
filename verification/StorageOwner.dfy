/** esp_base_storage_owner.c: claims with checked tokens. The class gives the
    sequential meaning; the transition system runs any number of threads through
    the same loads, stores and compare-exchanges in every interleaving. */
module StorageOwner {
  import opened Common

  /** Reserved value of the active word while a claim is being numbered. */
  const RESERVED: nat := UINT32_MAX

  class Owner {
    var nextToken: u32
    var activeToken: u32

    constructor ()
      ensures nextToken == activeToken == 0
    {
      nextToken, activeToken := 0, 0;
    }
  }

  class Claim {
    var owner: Owner?
    var token: u32

    constructor ()
      ensures owner == null && token == 0
    {
      owner, token := null, 0;
    }
  }

  method TryClaim(owner: Owner?, claim: Claim?) returns (ok: bool)
    modifies owner, claim
    ensures ok <==> owner != null && claim != null && old(claim.owner) == null && old(claim.token) == 0
                    && old(owner.activeToken) == 0 && old(owner.nextToken) < RESERVED - 1
    ensures ok ==> claim.owner == owner && claim.token == owner.activeToken == owner.nextToken == old(owner.nextToken) + 1
    ensures !ok ==>
              && (owner != null ==>
                    owner.nextToken == old(owner.nextToken) && owner.activeToken == old(owner.activeToken))
              && (claim != null ==> claim.owner == old(claim.owner) && claim.token == old(claim.token))
  {
    if owner == null || claim == null || claim.owner != null || claim.token != 0 { return false; }
    if owner.activeToken != 0 { return false; }
    owner.activeToken := RESERVED;
    var previous := owner.nextToken;
    if previous >= RESERVED - 1 {
      owner.activeToken := 0;
      return false;
    }
    var token := previous + 1;
    owner.nextToken := token;
    owner.activeToken := token;
    claim.owner := owner;
    claim.token := token;
    return true;
  }

  predicate ClaimActive(claim: Claim?)
    reads claim, if claim != null then {claim.owner} else {}
  {
    claim != null && claim.owner != null && claim.token != 0 && claim.token != RESERVED
    && claim.owner.activeToken == claim.token
  }

  method Release(claim: Claim?) returns (ok: bool)
    modifies claim, if claim != null then {claim.owner} else {}
    ensures ok <==> old(ClaimActive(claim))
    ensures ok ==> old(claim.owner).activeToken == 0 && claim.owner == null && claim.token == 0
    ensures claim != null && !ok ==>
              && claim.owner == old(claim.owner) && claim.token == old(claim.token)
              && (claim.owner != null ==> claim.owner.activeToken == old(claim.owner.activeToken))
    ensures claim != null && old(claim.owner) != null ==> old(claim.owner).nextToken == old(claim.owner.nextToken)
  {
    if claim == null || claim.owner == null || claim.token == 0 || claim.token == RESERVED { return false; }
    if claim.owner.activeToken != claim.token { return false; }
    claim.owner.activeToken := 0;
    claim.owner := null;
    claim.token := 0;
    return true;
  }

  // ------------------------------------------------------------ interleavings

  /** Where a thread is inside a claim: after its compare-exchange, after loading
      the counter, after storing it, after publishing the token. */
  datatype Pc = Idle | Reserved | Loaded(previous: nat) | Numbered(token: nat) | Published(token: nat)

  /** `claim` is the thread's own claim value; 0 is the empty claim. */
  datatype Thread = Thread(pc: Pc, claim: nat)

  datatype System = System(next: nat, active: nat, threads: map<nat, Thread>)

  /** `Copy` duplicates any claim value another thread holds, stale or not. */
  datatype Action = StartClaim | Advance | ReleaseOwn | Copy(from: nat)

  datatype Event = Event(thread: nat, action: Action)

  function Next(s: System, e: Event): System {
    if e.thread !in s.threads then s
    else
      var t := s.threads[e.thread];
      match (t.pc, e.action)
      case (Idle, StartClaim) =>
        if t.claim == 0 && s.active == 0
        then s.(active := RESERVED, threads := s.threads[e.thread := t.(pc := Reserved)])
        else s
      case (Reserved, Advance) => s.(threads := s.threads[e.thread := t.(pc := Loaded(s.next))])
      case (Loaded(previous), Advance) =>
        if previous >= RESERVED - 1
        then s.(active := 0, threads := s.threads[e.thread := t.(pc := Idle)])
        else s.(next := previous + 1, threads := s.threads[e.thread := t.(pc := Numbered(previous + 1))])
      case (Numbered(token), Advance) =>
        s.(active := token, threads := s.threads[e.thread := t.(pc := Published(token))])
      case (Published(token), Advance) =>
        s.(threads := s.threads[e.thread := Thread(Idle, token)])
      case (Idle, ReleaseOwn) =>
        if t.claim != 0 && t.claim != RESERVED && s.active == t.claim
        then s.(active := 0, threads := s.threads[e.thread := t.(claim := 0)])
        else s
      case (Idle, Copy(from)) =>
        if from in s.threads then s.(threads := s.threads[e.thread := t.(claim := s.threads[from].claim)]) else s
      case _ => s
  }

  function Run(s: System, events: seq<Event>): System
    decreases |events|
  {
    if events == [] then s else Next(Run(s, events[..|events| - 1]), events[|events| - 1])
  }

  predicate Initial(s: System) {
    s.next == 0 && s.active == 0 && forall i :: i in s.threads ==> s.threads[i] == Thread(Idle, 0)
  }

  predicate Numbering(pc: Pc) {
    pc.Reserved? || pc.Loaded? || pc.Numbered?
  }

  predicate ThreadInv(s: System, t: Thread) {
    && t.claim <= s.next
    && (Numbering(t.pc) ==> s.active == RESERVED)
    && (t.pc.Loaded? ==> t.pc.previous == s.next)
    && (t.pc.Numbered? ==> t.pc.token == s.next > 0)
    && (t.pc.Published? ==> 0 < t.pc.token <= s.next)
  }

  predicate Inv(s: System) {
    && s.next < RESERVED
    && (s.active == RESERVED || s.active <= s.next)
    && (forall i :: i in s.threads ==> ThreadInv(s, s.threads[i]))
    && (forall i, j :: i in s.threads && j in s.threads && Numbering(s.threads[i].pc) && Numbering(s.threads[j].pc)
          ==> i == j)
    && (forall i, j :: i in s.threads && j in s.threads && s.threads[i].pc.Numbered? ==> Below(s.threads[j], s.next))
  }

  /** The thread holds no trace of token `t` or anything later. */
  predicate Below(t: Thread, token: nat) {
    t.claim < token && (t.pc.Published? ==> t.pc.token < token)
  }

  lemma AdvanceKeeps(s: System, e: Event)
    requires Inv(s) && e.action.Advance?
    ensures Inv(Next(s, e))
  {
  }

  lemma NextKeeps(s: System, e: Event)
    requires Inv(s)
    ensures Inv(Next(s, e))
  {
    if e.action.Advance? { AdvanceKeeps(s, e); }
  }

  lemma {:induction false} RunKeeps(s: System, events: seq<Event>)
    requires Initial(s)
    ensures Inv(Run(s, events))
    decreases |events|
  {
    if events != [] {
      RunKeeps(s, events[..|events| - 1]);
      NextKeeps(Run(s, events[..|events| - 1]), events[|events| - 1]);
    }
  }

  /** Token `t` has been published before and is no longer the active one. */
  predicate Spent(s: System, t: nat) {
    0 < t <= s.next && s.active != t
    && forall i :: i in s.threads && s.threads[i].pc.Numbered? ==> s.threads[i].pc.token != t
  }

  lemma SpentStep(s: System, e: Event, t: nat)
    requires Inv(s) && Spent(s, t)
    ensures Spent(Next(s, e), t)
  {
  }

  /** A token that is no longer active never becomes active again, so a stale
      claim, however it was copied, never releases any later claim. */
  lemma {:induction false} StaleNeverReleases(s: System, events: seq<Event>, more: seq<Event>, i: nat)
    requires Initial(s)
    requires i in Run(s, events + more).threads
    requires Spent(Run(s, events), Run(s, events + more).threads[i].claim)
    ensures Next(Run(s, events + more), Event(i, ReleaseOwn)) == Run(s, events + more)
  {
    SpentForever(s, events, more, Run(s, events + more).threads[i].claim);
  }

  lemma {:induction false} SpentForever(s: System, events: seq<Event>, more: seq<Event>, t: nat)
    requires Initial(s) && Spent(Run(s, events), t)
    ensures Spent(Run(s, events + more), t)
    decreases |more|
  {
    if more == [] {
      assert events + more == events;
    } else {
      var n := |more| - 1;
      SpentForever(s, events, more[..n], t);
      RunKeeps(s, events + more[..n]);
      assert (events + more)[..|events + more| - 1] == events + more[..n];
      SpentStep(Run(s, events + more[..n]), more[n], t);
    }
  }

  /** The token a step publishes, if it publishes one. */
  function Publishes(s: System, e: Event): Option<nat> {
    if e.thread in s.threads && s.threads[e.thread].pc.Numbered? && e.action.Advance?
    then Some(s.threads[e.thread].pc.token) else None
  }

  function Publications(s: System, events: seq<Event>): seq<nat>
    decreases |events|
  {
    if events == [] then []
    else
      var before := events[..|events| - 1];
      var p := Publishes(Run(s, before), events[|events| - 1]);
      if p.Some? then Publications(s, before) + [p.value] else Publications(s, before)
  }

  predicate StrictlyIncreasing(p: seq<nat>) {
    forall i, j :: 0 <= i < j < |p| ==> p[i] < p[j]
  }

  /** Every token so far is legal; a token being numbered is still larger. */
  predicate Behind(p: seq<nat>, s: System) {
    forall i :: 0 <= i < |p| ==> 0 < p[i] < RESERVED && p[i] <= s.next && (SomeNumbered(s) ==> p[i] < s.next)
  }

  /** The published tokens are strictly increasing, never 0 and never reserved,
      and the active token is always the last one published. */
  lemma {:induction false} TokensAreFresh(s: System, events: seq<Event>)
    requires Initial(s)
    ensures var p := Publications(s, events);
            var now := Run(s, events);
            && StrictlyIncreasing(p) && Behind(p, now)
            && (now.active != 0 && now.active != RESERVED ==> p != [] && p[|p| - 1] == now.active)
    decreases |events|
  {
    if events != [] {
      var before := events[..|events| - 1];
      TokensAreFresh(s, before);
      RunKeeps(s, before);
      FreshStep(Run(s, before), events[|events| - 1]);
      assert Behind(Publications(s, before), Run(s, before));
    }
  }

  predicate SomeNumbered(s: System) {
    exists i :: i in s.threads && s.threads[i].pc.Numbered?
  }

  lemma FreshStep(s: System, e: Event)
    requires Inv(s)
    ensures var after := Next(s, e);
            && s.next <= after.next
            && (Publishes(s, e).Some? ==> SomeNumbered(s) && Publishes(s, e).value == s.next == after.next == after.active > 0
                                          && !SomeNumbered(after))
            && (Publishes(s, e).None? ==>
                  && (after.active == s.active || after.active == 0 || after.active == RESERVED)
                  && (SomeNumbered(after) ==> SomeNumbered(s) || s.next < after.next))
  {
    if e.thread in s.threads && s.threads[e.thread].pc.Numbered? { assert SomeNumbered(s); }
  }

  /** Uninterrupted, the steps of one claim are the sequential TryClaim. */
  lemma UninterruptedClaim(s: System, i: nat)
    requires Inv(s) && s.active == 0 && i in s.threads && s.threads[i] == Thread(Idle, 0)
    ensures var a := Event(i, Advance);
            var t := Next(Next(Next(Next(Next(s, Event(i, StartClaim)), a), a), a), a);
            if s.next < RESERVED - 1
            then t == System(s.next + 1, s.next + 1, s.threads[i := Thread(Idle, s.next + 1)])
            else t == s
  {
    var a := Event(i, Advance);
    var t1 := Next(s, Event(i, StartClaim));
    assert t1 == System(s.next, RESERVED, s.threads[i := Thread(Reserved, 0)]);
    var t2 := Next(t1, a);
    assert t2 == System(s.next, RESERVED, s.threads[i := Thread(Loaded(s.next), 0)]);
    var t3 := Next(t2, a);
    if s.next >= RESERVED - 1 {
      assert t3 == s;
    }
  }
}
