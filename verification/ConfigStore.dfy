/** esp_base_remote_config.c: loading with retirement and the verified
    compare-and-swap commit, over a store whose calls may fail. */
module ConfigStore {
  import opened Common
  import opened ConfigFormat

  type Blob = Option<seq<byte>>

  datatype Result =
    | Ok | InvalidArg | InvalidState | NoMemory | Failed | Conflict | Exhausted | Uncertain
    | StoreError(code: nat)

  // ------------------------------------------------------- the faulty storage

  /** A successful read returns the stored bytes; only an absent key is
      reported as not found. */
  datatype ReadIo = ReadDone | ReadError(error: Result)

  /** A successful write stores the new bytes; a failed one leaves the old or
      the new bytes. */
  datatype WriteIo = Written | OpenError(error: Result) | WriteFailed(landed: bool)

  datatype LoadIo = LoadIo(read: ReadIo, hashed: bool, write: WriteIo, again: ReadIo, rehashed: bool)

  datatype CommitIo = CommitIo(memory: bool, first: LoadIo, write: WriteIo, second: LoadIo)

  predicate Faulty(e: Result) {
    e.StoreError? || e == InvalidState
  }

  predicate WriteIoOk(io: WriteIo) {
    io.OpenError? ==> Faulty(io.error)
  }

  predicate ReadIoOk(io: ReadIo) {
    io.ReadError? ==> Faulty(io.error)
  }

  predicate LoadIoOk(io: LoadIo) {
    ReadIoOk(io.read) && WriteIoOk(io.write) && ReadIoOk(io.again)
  }

  predicate CommitIoOk(io: CommitIo) {
    LoadIoOk(io.first) && WriteIoOk(io.write) && LoadIoOk(io.second)
  }

  // ------------------------------------------------------------ specification

  /** What the stored bytes are. A canonical blob is determined by its value;
      every other one keeps its bytes. */
  datatype Stored =
    | Absent
    | Canonical(value: Config)
    | Legacy(value: Config, raw: seq<byte>)
    | Damaged(raw: seq<byte>)

  ghost function View(d: Blob): Stored {
    if d.None? then Absent
    else if Accepts(d.value, false) then Canonical(Parse(d.value, false))
    else if Accepts(d.value, true) then Legacy(Parse(d.value, true), d.value)
    else Damaged(d.value)
  }

  /** Nothing about the stored bytes is lost in the view. */
  lemma ViewIsFaithful(a: Blob, b: Blob)
    requires View(a) == View(b)
    ensures a == b
  {
    if a.Some? && b.Some? && Accepts(a.value, false) && Accepts(b.value, false) {
      DecodeInjective(a.value, b.value);
    }
  }

  function AfterWrite<T>(before: T, next: T, io: WriteIo): T {
    if io.Written? || (io.WriteFailed? && io.landed) then next else before
  }

  datatype Outcome = Outcome(durable: Stored, result: Result, value: Config)

  /** load_config_with_bytes(): a historical record is rewritten once, as the
      canonical record of the same value. */
  function LoadNext(d: Stored, before: Config, io: LoadIo): Outcome {
    if io.read.ReadError? then Outcome(d, io.read.error, before)
    else match d
      case Absent => Outcome(d, Ok, DEFAULT)
      case Canonical(c) => Outcome(d, Ok, c)
      case Legacy(c, _) => RetireNext(d, before, io)
      case Damaged(_) => Outcome(d, InvalidState, before)
  }

  function RetireNext(d: Stored, before: Config, io: LoadIo): Outcome
    requires d.Legacy?
  {
    var after := AfterWrite(d, Canonical(d.value), io.write);
    if !io.hashed then Outcome(d, Failed, before)
    else if io.write.OpenError? then Outcome(d, io.write.error, before)
    else if io.write.WriteFailed? || io.again.ReadError? || !io.rehashed then Outcome(after, Uncertain, before)
    else Outcome(after, Ok, d.value)
  }

  ghost function CommitNext(d: Stored, candidate: Config, expected: nat, before: Config, io: CommitIo): Outcome {
    if !ConfigOk(candidate) || candidate.revision != expected then Outcome(d, InvalidArg, before)
    else if !io.memory then Outcome(d, NoMemory, before)
    else CommitValid(d, candidate, before, io)
  }

  function CommitValid(d: Stored, candidate: Config, before: Config, io: CommitIo): Outcome {
    var l := LoadNext(d, DEFAULT, io.first);
    if l.result != Ok then Outcome(l.durable, l.result, before)
    else SwapNext(l.durable, l.value.revision, candidate, before, io)
  }

  /** The compare-and-swap on the revision that was loaded. */
  function SwapNext(d: Stored, loaded: nat, candidate: Config, before: Config, io: CommitIo): Outcome {
    if loaded != candidate.revision then Outcome(d, Conflict, before)
    else if candidate.revision == UINT32_MAX then Outcome(d, Exhausted, before)
    else ApplyNext(d, candidate.(revision := candidate.revision + 1), before, io)
  }

  function ApplyNext(d: Stored, next: Config, before: Config, io: CommitIo): Outcome {
    var after := AfterWrite(d, Canonical(next), io.write);
    if io.write.OpenError? then Outcome(after, io.write.error, before)
    else if io.write.WriteFailed? then Outcome(after, Uncertain, before)
    else
      var l := LoadNext(after, next, io.second);
      if l.result == Ok && l.value == next then Outcome(l.durable, Ok, next) else Outcome(l.durable, Uncertain, before)
  }

  // ------------------------------------------------------------------ theorems

  /** What is stored is absent or the blob of a valid configuration. */
  ghost predicate Good(d: Stored) {
    match d
    case Absent => true
    case Canonical(c) => ConfigOk(c)
    case Legacy(c, _) => ConfigOk(c)
    case Damaged(_) => false
  }

  lemma AcceptedViewIsGood(d: Blob)
    requires d.Some? ==> Accepts(d.value, true)
    ensures Good(View(d))
  {
    if d.Some? {
      AcceptedIsValid(d.value, true);
      if Accepts(d.value, false) { AcceptedIsValid(d.value, false); }
    }
  }

  /** What is stored means this configuration. */
  function Meaning(d: Stored): Config
    requires !d.Damaged?
  {
    if d.Absent? then DEFAULT else d.value
  }

  /** A load keeps the meaning of the store whatever fails; success reports it,
      and any other result leaves the caller's value alone. */
  lemma LoadKeepsMeaning(d: Stored, before: Config, io: LoadIo)
    requires Good(d) && LoadIoOk(io)
    ensures var o := LoadNext(d, before, io);
            && Good(o.durable) && Meaning(o.durable) == Meaning(d)
            && o.value == (if o.result == Ok then Meaning(d) else before)
            && (o.result == Ok ==> o.durable == if d.Absent? then Absent else Canonical(Meaning(d)))
  {
  }

  /** Storage that is not valid is reported and never overwritten. */
  lemma DamagedStoreIsNotTouched(d: Stored, candidate: Config, expected: nat, before: Config, io: CommitIo)
    requires d.Damaged? && CommitIoOk(io)
    ensures LoadNext(d, before, io.first).durable == d && LoadNext(d, before, io.first).result != Ok
    ensures CommitNext(d, candidate, expected, before, io).durable == d
    ensures CommitNext(d, candidate, expected, before, io).result != Ok
  {
  }

  /** What one commit may do to the meaning of the store: nothing, or replace it
      by the candidate at the next revision. */
  ghost predicate CommitEffect(d: Stored, candidate: Config, expected: nat, before: Config, o: Outcome)
    requires Good(d)
  {
    && Good(o.durable)
    && (Meaning(o.durable) == Meaning(d)
        || (&& Meaning(d).revision == expected == candidate.revision < UINT32_MAX
            && Meaning(o.durable) == candidate.(revision := expected + 1)))
    && (o.result == Ok ==>
          && Meaning(d).revision == expected == candidate.revision < UINT32_MAX
          && Meaning(o.durable) == o.value == candidate.(revision := expected + 1))
    && (o.result != Ok ==> o.value == before)
    && (o.result != Ok && o.result != Uncertain ==> Meaning(o.durable) == Meaning(d))
  }

  lemma ApplyKeeps(d: Stored, next: Config, before: Config, io: CommitIo)
    requires Good(d) && ConfigOk(next) && CommitIoOk(io)
    ensures var o := ApplyNext(d, next, before, io);
            && Good(o.durable) && (Meaning(o.durable) == Meaning(d) || Meaning(o.durable) == next)
            && (o.result == Ok ==> Meaning(o.durable) == next == o.value)
            && (o.result != Ok ==> o.value == before)
            && (o.result != Ok && o.result != Uncertain ==> Meaning(o.durable) == Meaning(d))
  {
    LoadKeepsMeaning(AfterWrite(d, Canonical(next), io.write), next, io.second);
  }

  lemma CommitKeeps(d: Stored, candidate: Config, expected: nat, before: Config, io: CommitIo)
    requires Good(d) && CommitIoOk(io)
    ensures CommitEffect(d, candidate, expected, before, CommitNext(d, candidate, expected, before, io))
  {
    LoadKeepsMeaning(d, DEFAULT, io.first);
    if ConfigOk(candidate) && candidate.revision == expected < UINT32_MAX {
      ApplyKeeps(LoadNext(d, DEFAULT, io.first).durable, candidate.(revision := expected + 1), before, io);
    }
  }

  const NO_FAULTS := LoadIo(ReadDone, true, Written, ReadDone, true)

  /** Without storage faults a commit succeeds exactly when the candidate is
      valid and its revision is the stored one and not the last. */
  lemma FaultlessCommit(d: Stored, candidate: Config, expected: nat, before: Config)
    requires Good(d)
    ensures CommitNext(d, candidate, expected, before, CommitIo(true, NO_FAULTS, Written, NO_FAULTS)).result == Ok
       <==> ConfigOk(candidate) && candidate.revision == expected == Meaning(d).revision < UINT32_MAX
  {
    LoadKeepsMeaning(d, DEFAULT, NO_FAULTS);
  }

  // ---------------------------------------------------------------------- runs

  datatype Op =
    | Load(loadIo: LoadIo)
    | Commit(candidate: Config, expected: nat, commitIo: CommitIo)

  predicate OpOk(op: Op) {
    match op
    case Load(io) => LoadIoOk(io)
    case Commit(_, _, io) => CommitIoOk(io)
  }

  predicate OpsOk(ops: seq<Op>) {
    forall i :: 0 <= i < |ops| ==> OpOk(ops[i])
  }

  ghost function Step(d: Stored, op: Op): Outcome {
    match op
    case Load(io) => LoadNext(d, DEFAULT, io)
    case Commit(candidate, expected, io) => CommitNext(d, candidate, expected, DEFAULT, io)
  }

  ghost function Run(d: Stored, ops: seq<Op>): Stored
    decreases |ops|
  {
    if ops == [] then d else Run(Step(d, ops[0]).durable, ops[1..])
  }

  lemma StepKeepsGood(d: Stored, op: Op)
    requires Good(d) && OpOk(op)
    ensures Good(Step(d, op).durable)
  {
    match op
    case Load(io) => LoadKeepsMeaning(d, DEFAULT, io);
    case Commit(candidate, expected, io) => CommitKeeps(d, candidate, expected, DEFAULT, io);
  }

  /** The values that replaced one another in the store during a run. */
  ghost function Applied(d: Stored, ops: seq<Op>): seq<Config>
    requires Good(d) && OpsOk(ops)
    decreases |ops|
  {
    if ops == [] then []
    else
      StepKeepsGood(d, ops[0]);
      var after := Step(d, ops[0]).durable;
      (if Meaning(after) == Meaning(d) then [] else [Meaning(after)]) + Applied(after, ops[1..])
  }

  /** One step of a run: a replacement is the submitted candidate at the next
      revision, and an acknowledged commit is a replacement. */
  lemma StepIsALink(d: Stored, op: Op)
    requires Good(d) && OpOk(op)
    ensures var after := Step(d, op).durable;
            && Good(after)
            && (Meaning(after) != Meaning(d) ==>
                  && op.Commit? && op.expected == Meaning(d).revision
                  && Meaning(after) == op.candidate.(revision := Meaning(d).revision + 1))
            && (op.Commit? && Step(d, op).result == Ok ==> Meaning(after).revision == Meaning(d).revision + 1)
  {
    match op
    case Load(io) => LoadKeepsMeaning(d, DEFAULT, io);
    case Commit(candidate, expected, io) => CommitKeeps(d, candidate, expected, DEFAULT, io);
  }

  /** Revisions one apart, from r on. */
  predicate Chain(h: seq<Config>, r: nat) {
    forall i :: 0 <= i < |h| ==> h[i].revision == r + i
  }

  function Last(h: seq<Config>): Config
    requires h != []
  {
    h[|h| - 1]
  }

  /** One more link in front of a chain. */
  lemma ChainGrows(m: Config, after: Config, applied: seq<Config>, rest: seq<Config>)
    requires applied == (if after == m then [] else [after]) + rest
    requires after != m ==> after.revision == m.revision + 1
    requires Chain([after] + rest, after.revision)
    ensures Chain([m] + applied, m.revision) && Last([m] + applied) == Last([after] + rest)
  {
    if after == m {
      assert applied == rest;
    } else {
      assert [m] + applied == [m] + ([after] + rest);
    }
  }

  /** For every run: the store stays valid, its history is a chain of revisions
      one apart, and it means the last value of that chain. */
  lemma {:induction false} HistoryIsAChain(d: Stored, ops: seq<Op>)
    requires Good(d) && OpsOk(ops)
    ensures Good(Run(d, ops))
    ensures var h := [Meaning(d)] + Applied(d, ops);
            Meaning(Run(d, ops)) == Last(h) && Chain(h, Meaning(d).revision)
    decreases |ops|
  {
    if ops != [] {
      StepIsALink(d, ops[0]);
      var after := Step(d, ops[0]).durable;
      HistoryIsAChain(after, ops[1..]);
      ChainGrows(Meaning(d), Meaning(after), Applied(d, ops), Applied(after, ops[1..]));
    }
  }

  lemma RevisionNeverFalls(d: Stored, ops: seq<Op>)
    requires Good(d) && OpsOk(ops)
    ensures Good(Run(d, ops)) && Meaning(Run(d, ops)).revision >= Meaning(d).revision
  {
    HistoryIsAChain(d, ops);
  }

  /** No lost update: once a commit against a revision was acknowledged, no
      later commit against that revision is. */
  lemma NoLostUpdate(d: Stored, op: Op, between: seq<Op>, later: Op)
    requires Good(d) && OpOk(op) && OpsOk(between) && OpOk(later)
    requires op.Commit? && Step(d, op).result == Ok && later.Commit? && later.expected == op.expected
    ensures Step(Run(Step(d, op).durable, between), later).result != Ok
  {
    CommitKeeps(d, op.candidate, op.expected, DEFAULT, op.commitIo);
    var after := Step(d, op).durable;
    RevisionNeverFalls(after, between);
    CommitKeeps(Run(after, between), later.candidate, later.expected, DEFAULT, later.commitIo);
  }

  /** Stored bytes are absent or accepted by the historical decoder, which accepts
      every canonical blob too. */
  ghost predicate Admissible(d: Blob) {
    d.Some? ==> Accepts(d.value, true)
  }

  lemma GoodViewIsAdmissible(d: Blob)
    requires Good(View(d))
    ensures Admissible(d)
  {
    if d.Some? { CanonicalIsLegacy(d.value); }
  }

  /** Whatever fails, bytes that were admissible stay so over any run: from every
      store a device may have, no sequence of loads and commits leaves a blob that
      the next boot refuses. */
  lemma StoredBytesStayAdmissible(before: Blob, ops: seq<Op>, after: Blob)
    requires Admissible(before) && OpsOk(ops)
    ensures Good(View(before))
    ensures View(after) == Run(View(before), ops) ==> Admissible(after)
  {
    AcceptedViewIsGood(before);
    HistoryIsAChain(View(before), ops);
    if View(after) == Run(View(before), ops) { GoodViewIsAdmissible(after); }
  }
}
