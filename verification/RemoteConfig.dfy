/** The imperative half of esp_base_remote_config.c: one workspace buffer, the
    stored blob and the caller's structures, updated in the order of the source. */
module RemoteConfig {
  import opened Common
  import opened ConfigFormat
  import opened ConfigStore
  import Codec = ConfigCodec

  class Store {
    var durable: Blob
    /** SHA-256, of which nothing but determinism is used. */
    const digest: seq<byte> -> seq<byte>

    constructor (d: Blob, h: seq<byte> -> seq<byte>)
      ensures durable == d && digest == h
    {
      durable := d;
      digest := h;
    }

    /** read_config_bytes(): an absent key is told apart from other errors. */
    method ReadBytes(bytes: array<byte>, io: ReadIo) returns (result: Result, found: bool, size: nat)
      requires bytes.Length == STORAGE_MAX_BYTES
      modifies bytes
      ensures io.ReadError? ==> result == io.error && found
      ensures !io.ReadError? && durable.None? ==> !found
      ensures !io.ReadError? && durable.Some? ==>
                && found
                && result == (if HEADER_BYTES <= |durable.value| <= STORAGE_MAX_BYTES then Ok else InvalidState)
                && (result == Ok ==> size == |durable.value| && bytes[..size] == durable.value)
    {
      if io.ReadError? { return io.error, true, 0; }
      if durable.None? { return InvalidState, false, 0; }
      size := |durable.value|;
      if size < HEADER_BYTES || size > STORAGE_MAX_BYTES { return InvalidState, true, size; }
      for i := 0 to size
        invariant bytes[..i] == durable.value[..i]
      {
        bytes[i] := durable.value[i];
      }
      assert durable.value[..size] == durable.value;
      return Ok, true, size;
    }

    method WriteBytes(bytes: array<byte>, size: nat, io: WriteIo) returns (result: Result)
      requires size <= bytes.Length
      modifies this`durable
      ensures durable == AfterWrite(old(durable), Some(bytes[..size]), io)
      ensures result == match io { case Written => Ok case OpenError(e) => e case WriteFailed(_) => Uncertain }
    {
      match io
      case Written =>
        durable := Some(bytes[..size]);
        result := Ok;
      case OpenError(e) =>
        result := e;
      case WriteFailed(landed) =>
        if landed { durable := Some(bytes[..size]); }
        result := Uncertain;
    }

    /** retire_legacy_config(): nothing is written before the strict legacy
        decoder has accepted every field. */
    method Retire(bytes: array<byte>, size: nat, io: LoadIo) returns (result: Result, newSize: nat)
      requires bytes.Length == STORAGE_MAX_BYTES && HEADER_BYTES <= size <= STORAGE_MAX_BYTES
      requires durable == Some(bytes[..size]) && Flagged(bytes[..size]) && LoadIoOk(io)
      modifies this`durable, bytes
      ensures newSize <= STORAGE_MAX_BYTES
      ensures View(old(durable)).Damaged? ==> result == InvalidState && durable == old(durable)
      ensures !View(old(durable)).Damaged? ==>
                && View(old(durable)).Legacy?
                && var o := RetireNext(View(old(durable)), DEFAULT, io);
                && View(durable) == o.durable && result == o.result
                && (result == Ok ==> durable == Some(bytes[..newSize]))
    {
      ghost var was := bytes[..size];
      ViewFlagged(was);
      var ok, canonical := Codec.RetireLegacy(bytes, size);
      if !ok { return InvalidState, size; }
      newSize := canonical;
      if !io.hashed { return Failed, newSize; }
      RetiredDecodes(was, bytes[..newSize]);
      result := RewriteAndVerify(bytes, newSize, io);
    }

    /** Once writing was attempted, failure never means that the old blob won. */
    method RewriteAndVerify(bytes: array<byte>, size: nat, io: LoadIo) returns (result: Result)
      requires bytes.Length == STORAGE_MAX_BYTES && HEADER_BYTES <= size <= STORAGE_MAX_BYTES && LoadIoOk(io)
      modifies this`durable, bytes
      ensures durable == AfterWrite(old(durable), Some(old(bytes[..size])), io.write)
      ensures result ==
              if io.write.OpenError? then io.write.error
              else if io.write.WriteFailed? || io.again.ReadError? || !io.rehashed then Uncertain
              else Ok
      ensures result == Ok ==> durable == Some(bytes[..size])
    {
      ghost var expectedBytes := bytes[..size];
      var expectedDigest := digest(bytes[..size]);
      result := WriteBytes(bytes, size, io.write);
      if result == Ok {
        var again, found, readSize := ReadBytes(bytes, io.again);
        if !found || again != Ok || readSize != size || !io.rehashed || digest(bytes[..readSize]) != expectedDigest {
          result := Uncertain;
        }
      }
    }

    /** load_config_with_bytes(). */
    method Load(config: Codec.Cell, bytes: array<byte>, io: LoadIo) returns (result: Result)
      requires bytes.Length == STORAGE_MAX_BYTES && LoadIoOk(io)
      modifies this`durable, config, bytes
      ensures Outcome(View(durable), result, config.value) == LoadNext(View(old(durable)), old(config.value), io)
    {
      var found, size;
      result, found, size := ReadBytes(bytes, io.read);
      if !found {
        config.value := DEFAULT;
        return Ok;
      }
      if result != Ok {
        if io.read.ReadDone? { ViewOutside(durable.value); }
        return;
      }
      result := LoadFound(config, bytes, size, io);
    }

    method LoadFound(config: Codec.Cell, bytes: array<byte>, size0: nat, io: LoadIo) returns (result: Result)
      requires bytes.Length == STORAGE_MAX_BYTES && LoadIoOk(io) && io.read.ReadDone?
      requires HEADER_BYTES <= size0 <= STORAGE_MAX_BYTES && durable == Some(bytes[..size0])
      modifies this`durable, config, bytes
      ensures Outcome(View(durable), result, config.value) == LoadNext(View(old(durable)), old(config.value), io)
    {
      var size := size0;
      if bytes[4] == 3 && Bit(bytes[5], 4) {
        result, size := Retire(bytes, size, io);
        if result != Ok { return; }
      } else {
        ViewPlain(durable.value);
      }
      result := DecodeStored(bytes, size, config);
    }

    /** ebase_config_decode() of what the store now holds. */
    method DecodeStored(bytes: array<byte>, size: nat, config: Codec.Cell) returns (result: Result)
      requires size <= bytes.Length && durable == Some(bytes[..size])
      requires View(durable).Canonical? || View(durable).Damaged?
      modifies config
      ensures if View(durable).Canonical? then result == Ok && config.value == View(durable).value
              else result == InvalidState && config.value == old(config.value)
    {
      var ok := Codec.DecodeConfig(bytes[..size], config, false);
      return if ok then Ok else InvalidState;
    }

    /** esp_base_remote_config_commit_verified(). The caller's result structure
        changes only on success; the work structure never keeps credentials. */
    method CommitVerified(candidate: Codec.Cell?, expected: nat, committed: Codec.Cell?, work: Codec.Cell?, io: CommitIo)
      returns (result: Result)
      requires candidate != null ==> Codec.Typed(candidate.value)
      requires expected <= UINT32_MAX && CommitIoOk(io)
      modifies this`durable, committed, work
      ensures (candidate == null || committed == null || work == null || work == candidate || work == committed) ==>
                && result == InvalidArg && durable == old(durable)
                && (committed != null ==> committed.value == old(committed.value))
                && (work != null ==> work.value == old(work.value))
      ensures candidate != null && committed != null && work != null && work != candidate && work != committed ==>
                && Outcome(View(durable), result, committed.value)
                   == CommitNext(View(old(durable)), old(candidate.value), expected, old(committed.value), io)
                && (work.value == DEFAULT || (result == InvalidArg && work.value == old(work.value)))
    {
      if candidate == null || committed == null || work == null || work == candidate || work == committed {
        return InvalidArg;
      }
      var wanted := candidate.value;
      var valid := Codec.ConfigValid(wanted);
      if !valid || wanted.revision != expected { return InvalidArg; }
      if !io.memory {
        work.value := DEFAULT;
        return NoMemory;
      }
      result := LoadAndApply(wanted, committed, work, io);
    }

    method LoadAndApply(wanted: Config, committed: Codec.Cell, work: Codec.Cell, io: CommitIo) returns (result: Result)
      requires ConfigOk(wanted) && work != committed && CommitIoOk(io) && io.memory
      modifies this`durable, committed, work
      ensures work.value == DEFAULT
      ensures Outcome(View(durable), result, committed.value)
           == CommitValid(View(old(durable)), wanted, old(committed.value), io)
    {
      work.value := DEFAULT;
      var bytes := new byte[STORAGE_MAX_BYTES](_ => 0);
      result := Load(work, bytes, io.first);
      if result == Ok { result := CompareAndApply(wanted, committed, work, bytes, io); }
      work.value := DEFAULT;
    }

    /** Compare the loaded revision, then encode, write, read back and compare. */
    method CompareAndApply(wanted: Config, committed: Codec.Cell, work: Codec.Cell, bytes: array<byte>, io: CommitIo)
      returns (result: Result)
      requires ConfigOk(wanted) && work != committed && CommitIoOk(io) && bytes.Length == STORAGE_MAX_BYTES
      modifies this`durable, committed, work, bytes
      ensures Outcome(View(durable), result, committed.value)
           == SwapNext(View(old(durable)), old(work.value.revision), wanted, old(committed.value), io)
    {
      if work.value.revision != wanted.revision { return Conflict; }
      if wanted.revision == UINT32_MAX { return Exhausted; }
      result := Apply(NextRevision(wanted), committed, work, bytes, io);
    }

    method Apply(next: Config, committed: Codec.Cell, work: Codec.Cell, bytes: array<byte>, io: CommitIo)
      returns (result: Result)
      requires ConfigOk(next) && work != committed && CommitIoOk(io) && bytes.Length == STORAGE_MAX_BYTES
      modifies this`durable, committed, work, bytes
      ensures Outcome(View(durable), result, committed.value) == ApplyNext(View(old(durable)), next, old(committed.value), io)
    {
      work.value := next;
      result := WriteNext(next, bytes, io.write);
      if result != Ok { return; }
      var again := Load(work, bytes, io.second);
      if again != Ok || work.value != next { return Uncertain; }
      committed.value := work.value;
    }

    method WriteNext(next: Config, bytes: array<byte>, io: WriteIo) returns (result: Result)
      requires ConfigOk(next) && bytes.Length == STORAGE_MAX_BYTES
      modifies this`durable, bytes
      ensures View(durable) == AfterWrite(View(old(durable)), Canonical(next), io)
      ensures result == match io { case Written => Ok case OpenError(e) => e case WriteFailed(_) => Uncertain }
    {
      ViewEncoded(next);
      var encoded, size := Codec.Encode(next, bytes);
      result := WriteBytes(bytes, size, io);
    }

    /** Any sequence of loads and commits with any faults: the stored bytes go through
        the run of the store, and stay absent or acceptable to the next boot. */
    method Serve(ops: seq<Op>)
      requires Admissible(durable) && OpsOk(ops)
      requires forall i :: 0 <= i < |ops| && ops[i].Commit? ==> Codec.Typed(ops[i].candidate) && ops[i].expected <= UINT32_MAX
      modifies this`durable
      ensures Good(View(old(durable))) && View(durable) == Run(View(old(durable)), ops)
      ensures Admissible(durable)
    {
      ghost var d := View(durable);
      AcceptedViewIsGood(durable);
      assert ops[0..] == ops;
      for k := 0 to |ops|
        invariant Good(View(durable)) && Run(View(durable), ops[k..]) == Run(d, ops)
      {
        assert ops[k..][0] == ops[k] && ops[k..][1..] == ops[k + 1..];
        StepKeepsGood(View(durable), ops[k]);
        ServeOne(ops[k]);
      }
      GoodViewIsAdmissible(durable);
    }

    method ServeOne(op: Op)
      requires OpOk(op) && (op.Commit? ==> Codec.Typed(op.candidate) && op.expected <= UINT32_MAX)
      modifies this`durable
      ensures View(durable) == Step(View(old(durable)), op).durable
    {
      var work := new Codec.Cell(DEFAULT);
      match op
      case Load(io) =>
        var bytes := new byte[STORAGE_MAX_BYTES](_ => 0);
        var r := Load(work, bytes, io);
      case Commit(candidate, expected, io) =>
        var wanted := new Codec.Cell(candidate);
        var committed := new Codec.Cell(DEFAULT);
        var r := CommitVerified(wanted, expected, committed, work, io);
    }
  }

  /** The test that sends a record to retirement. */
  predicate Flagged(b: seq<byte>) {
    HEADER_BYTES <= |b| && b[4] == 3 && Bit(b[5], 4)
  }

  lemma ViewFlagged(b: seq<byte>)
    requires Flagged(b)
    ensures View(Some(b)) == if Accepts(b, true) then Legacy(Parse(b, true), b) else Damaged(b)
  {
    CanonicalIsLegacy(b);
  }

  lemma ViewPlain(b: seq<byte>)
    requires HEADER_BYTES <= |b| && !Flagged(b)
    ensures View(Some(b)).Canonical? || View(Some(b)).Damaged?
  {
    CanonicalIsLegacy(b);
    if Accepts(b, true) { assert b[4] == b[..5][4]; }
  }

  lemma ViewOutside(b: seq<byte>)
    requires !(HEADER_BYTES <= |b| <= STORAGE_MAX_BYTES)
    ensures View(Some(b)) == Damaged(b)
  {
  }

  lemma ViewEncoded(c: Config)
    requires ConfigOk(c)
    ensures Sized(c) && HEADER_BYTES <= |Encode(c)| <= STORAGE_MAX_BYTES
    ensures View(Some(Encode(c))) == Canonical(c)
  {
    ValidIsSized(c);
    DecodeEncode(c);
  }

  function NextRevision(c: Config): (next: Config)
    requires ConfigOk(c) && c.revision < UINT32_MAX
    ensures ConfigOk(next)
  {
    c.(revision := c.revision + 1)
  }

  lemma RetiredDecodes(was: seq<byte>, now: seq<byte>)
    requires Accepts(was, true) && Sized(Parse(was, true)) && now == Encode(Parse(was, true))
    ensures HEADER_BYTES <= |now| <= STORAGE_MAX_BYTES && View(Some(now)) == Canonical(Parse(was, true))
  {
    AcceptedIsValid(was, true);
    ViewEncoded(Parse(was, true));
  }
}
