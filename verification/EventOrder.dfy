/** mqtt_owner.c and handle_mqtt_event(): which business events are consumed. */
module EventOrder {
  import opened Common
  import opened Business

  /** A received message: whether it authenticates as a business event of this
      device, the boot it was signed for, its number and its body. */
  datatype Message = Message(authentic: bool, boot: string, sequence: u64, body: seq<byte>)

  datatype Consumed = Consumed(boot: string, sequence: nat, body: seq<byte>)

  class Owner {
    var boot: string
    var sequence: u64
    const counter: Counter
    var lastSequence: u64
    var lastResult: int
    ghost var log: seq<Consumed>

    constructor ()
      ensures Value() == START && fresh(counter) && counter.Valid() && counter.Value() == RESET
    {
      boot, sequence, lastSequence, lastResult, log := "", 0, 0, 0, [];
      counter := new Counter();
    }

    ghost function Value(): State
      reads this
    {
      State(boot, sequence, log)
    }

    /** The boot-scoped reset in the MQTT set-up. */
    method Configure(newBoot: string)
      modifies this
      ensures Value() == ConfigureBoot(old(Value()), newBoot)
      ensures lastSequence == old(lastSequence) && lastResult == old(lastResult)
    {
      if boot != newBoot { sequence := 0; }
      boot := newBoot;
    }

    /** One MESSAGE notice. `hashed` is whether the digest could be computed. */
    method OnMessage(m: Message, ready: bool, hashed: bool, now: u64)
      requires counter.Valid()
      modifies this, counter
      ensures counter.Valid() && Value() == Receive(old(Value()), m, ready, hashed)
      ensures if Value() == old(Value())
              then counter.Value() == old(counter.Value()) && lastSequence == old(lastSequence)
              else (counter.Value(), lastResult) == Event(old(counter.Value()), m.body, now) && lastSequence == m.sequence
    {
      if ready && sequence != UINT64_MAX {
        if m.authentic && m.boot == boot && m.sequence != 0 && m.sequence == sequence + 1 && hashed {
          lastResult := counter.HandleEvent(m.body, now);
          lastSequence := m.sequence;
          sequence := m.sequence;
          log := log + [Consumed(boot, sequence, m.body)];
          assert log != old(log);
        }
      }
    }
  }

  datatype State = State(boot: string, sequence: nat, log: seq<Consumed>)

  const START := State("", 0, [])

  function ConfigureBoot(s: State, boot: string): State {
    s.(boot := boot, sequence := if s.boot != boot then 0 else s.sequence)
  }

  function Receive(s: State, m: Message, ready: bool, hashed: bool): State {
    if ready && s.sequence != UINT64_MAX && m.authentic && m.boot == s.boot && m.sequence == s.sequence + 1 && hashed
    then s.(sequence := m.sequence, log := s.log + [Consumed(s.boot, m.sequence, m.body)])
    else s
  }

  datatype Step = Reconfigure(boot: string) | Arrive(message: Message, ready: bool, hashed: bool)

  function Next(s: State, e: Step): State {
    match e
    case Reconfigure(boot) => ConfigureBoot(s, boot)
    case Arrive(m, ready, hashed) => Receive(s, m, ready, hashed)
  }

  function Run(s: State, steps: seq<Step>): State
    decreases |steps|
  {
    if steps == [] then s else Run(Next(s, steps[0]), steps[1..])
  }

  /** The last n consumed events carry 1..n for the current boot, in order. */
  predicate InOrder(s: State) {
    && s.sequence <= |s.log| && s.sequence <= UINT64_MAX
    && forall k :: 0 <= k < s.sequence ==> Numbered(s, k)
  }

  predicate Numbered(s: State, k: nat)
    requires s.sequence <= |s.log| && k < s.sequence
  {
    var e := s.log[|s.log| - s.sequence + k];
    e.boot == s.boot && e.sequence == k + 1
  }

  lemma NextKeepsOrder(s: State, e: Step)
    requires InOrder(s)
    ensures InOrder(Next(s, e)) && s.log <= Next(s, e).log
  {
    var t := Next(s, e);
    if t.log != s.log {
      forall k | 0 <= k < t.sequence ensures Numbered(t, k) {
        if k < s.sequence { assert Numbered(s, k); }
      }
    } else {
      forall k | 0 <= k < t.sequence ensures Numbered(t, k) { assert Numbered(s, k); }
    }
  }

  /** Whatever is duplicated, reordered or foreign, the events consumed since the
      boot ID last changed are exactly 1..n, once each and in order. */
  lemma {:induction false} ConsumedInOrder(s: State, steps: seq<Step>)
    requires InOrder(s)
    ensures InOrder(Run(s, steps)) && s.log <= Run(s, steps).log
    decreases |steps|
  {
    if steps != [] {
      NextKeepsOrder(s, steps[0]);
      ConsumedInOrder(Next(s, steps[0]), steps[1..]);
    }
  }

  predicate OneBoot(steps: seq<Step>, boot: string) {
    forall i :: 0 <= i < |steps| && steps[i].Reconfigure? ==> steps[i].boot == boot
  }

  /** Within one boot reconfiguration never resets the numbering: the whole log is
      1..n, and every entry came from a message that was delivered. */
  lemma {:induction false} OneBootConsumesInOrder(s: State, steps: seq<Step>, boot: string)
    requires OneBoot(steps, boot) && InOrder(s) && |s.log| == s.sequence && s.boot == boot
    ensures var t := Run(s, steps);
            |t.log| == t.sequence && InOrder(t)
    ensures forall k :: |s.log| <= k < |Run(s, steps).log| ==> Delivered(Run(s, steps).log[k], steps)
    decreases |steps|
  {
    if steps != [] {
      NextKeepsOrder(s, steps[0]);
      var t := Next(s, steps[0]);
      OneBootConsumesInOrder(t, steps[1..], boot);
      ConsumedInOrder(t, steps[1..]);
      var u := Run(t, steps[1..]);
      forall k | |s.log| <= k < |u.log| ensures Delivered(u.log[k], steps) {
        if k < |t.log| {
          assert Carries(steps[0], t.log[k]) && u.log[k] == t.log[k];
        } else {
          var i :| 0 <= i < |steps[1..]| && Carries(steps[1..][i], u.log[k]);
          assert Carries(steps[i + 1], u.log[k]);
        }
      }
    }
  }

  predicate Carries(e: Step, c: Consumed) {
    e.Arrive? && e.message.authentic && e.message.boot == c.boot && e.message.sequence == c.sequence && e.message.body == c.body
  }

  predicate Delivered(c: Consumed, steps: seq<Step>) {
    exists i :: 0 <= i < |steps| && Carries(steps[i], c)
  }

  /** A message that was consumed is never consumed again in the same boot. */
  lemma NoDuplicate(s: State, m: Message, ready: bool, hashed: bool, steps: seq<Step>, ready2: bool, hashed2: bool)
    requires InOrder(s) && Receive(s, m, ready, hashed) != s && OneBoot(steps, s.boot)
    ensures var t := Run(Receive(s, m, ready, hashed), steps);
            Receive(t, m, ready2, hashed2) == t
  {
    NextKeepsOrder(s, Arrive(m, ready, hashed));
    SequenceOnlyGrows(Receive(s, m, ready, hashed), steps);
  }

  lemma {:induction false} SequenceOnlyGrows(s: State, steps: seq<Step>)
    requires OneBoot(steps, s.boot)
    ensures Run(s, steps).sequence >= s.sequence && Run(s, steps).boot == s.boot
    decreases |steps|
  {
    if steps != [] { SequenceOnlyGrows(Next(s, steps[0]), steps[1..]); }
  }
}
