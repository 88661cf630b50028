/** Decisions over the durable receipt (esp_base_ota_receipt.c and
    reconcile_interrupted_ota). Reads that can fail are parameters: `true` means
    that the read returned. */
module OtaReceipt {
  import opened Common
  import opened OtaSlots

  const SLOT_SIZE: nat := 0x1e0000

  /** An accepted ota.start. `wellFormed` is the static request validation. */
  datatype Request = Request(operation: nat, digest: nat, size: nat, wellFormed: bool)

  datatype View = ViewUnknown | ViewRunning | ViewSucceeded | ViewFailed(code: FailureCode)

  datatype EvaluateReads = EvaluateReads(slots: bool, digest: bool)

  /** evaluate(): the externally visible meaning of a retained receipt. */
  function Evaluate(r: Receipt, workerActive: bool, d: Durable, running: Slot, rd: EvaluateReads): View
  {
    var run := At(d, running);
    if workerActive then ViewRunning
    else if !rd.slots then ViewUnknown
    else if (r.status.Prepared? || r.status.Succeeded?) && running == r.target && d.boot == r.target then
      if r.status.Prepared? && run.state.Pending? then ViewRunning
      else if r.status.Succeeded? && run.state.Valid? && rd.digest && DigestOver(run.image, r.size) == Some(r.digest)
      then ViewSucceeded
      else ViewUnknown
    else if running != r.source || d.boot != r.source || !run.state.Valid? then ViewUnknown
    else if r.status.Failed? && rd.digest && Verified(At(d, r.source).image)
            && At(d, r.source).image.digest == r.sourceDigest
    then ViewFailed(r.status.code)
    else ViewUnknown
  }

  datatype Registration =
    | Exists | Conflict | Busy | SlotUnavailable | SelectorMismatch | SourceNotValid
    | TargetNotSafe | TargetStateUnknown | SameImage | StorageUncertain
    | Admit(next: Receipt)

  datatype RegisterReads = RegisterReads(
    slots: bool, preflight: bool, load: bool, evaluate: EvaluateReads, firmware: bool, slotsAfter: bool)

  /** esp_base_ota_receipt_register up to, and excluding, its store(). The
      caller holds the transaction claim, so repeated observations agree. */
  function Register(d: Durable, running: Slot, req: Request, rd: RegisterReads): Registration
  {
    var target := At(d, Other(running));
    if !req.wellFormed || req.digest == 0 then SlotUnavailable
    else if !rd.slots then TargetStateUnknown
    else if req.size == 0 || req.size > SLOT_SIZE then SlotUnavailable
    else if running != d.boot then SelectorMismatch
    else if !At(d, running).state.Valid? then SourceNotValid
    else if target.state.New? || target.state.Pending? then TargetNotSafe
    else if !rd.preflight then SlotUnavailable
    else if !rd.load then StorageUncertain
    else if d.receipt.Some? && d.receipt.value.operation == req.operation then
      if d.receipt.value.size == req.size && d.receipt.value.digest == req.digest then Exists else Conflict
    else if d.receipt.Some? && !d.receipt.value.status.Failed?
            && Evaluate(d.receipt.value, false, d, running, rd.evaluate) != ViewSucceeded then Busy
    else
      var firmware := ObserveFirmwareSet(Confirmed, d, running);
      if !rd.firmware || !rd.slotsAfter || firmware.None? then StorageUncertain
      else if d.receipt.Some? && d.receipt.value.status.Failed?
              && (running != d.receipt.value.source || d.boot != d.receipt.value.source
                  || firmware.value.running != d.receipt.value.sourceDigest) then Busy
      else if req.digest == firmware.value.running then SameImage
      else Admit(Receipt(Prepared, req.operation, running, Other(running), req.size, req.digest,
                         firmware.value.running, firmware.value.second))
  }

  datatype Recording = AlreadyRecorded | Refused | Write(next: Receipt)

  /** esp_base_ota_receipt_record_failure up to its store(). */
  function RecordFailure(d: Durable, running: Slot, operation: nat, code: FailureCode, load: bool, observe: bool): Recording
  {
    if !load || d.receipt.None? then Refused
    else
      var r := d.receipt.value;
      if r.operation != operation then Refused
      else if r.status.Failed? then (if r.status.code == code then AlreadyRecorded else Refused)
      else if r.status.Succeeded? then Refused
      else if !observe || running != r.source || d.boot != r.source || Other(running) != r.target
              || !At(d, running).state.Valid?
              || !Verified(At(d, r.source).image) || At(d, r.source).image.digest != r.sourceDigest then Refused
      else Write(r.(status := Failed(code)))
  }

  /** esp_base_ota_receipt_record_success up to its store(). */
  function RecordSuccess(d: Durable, running: Slot, load: bool, observe: bool): Recording
  {
    if !load || d.receipt.None? then Refused
    else
      var r := d.receipt.value;
      if r.status.Failed? then Refused
      else if !observe || running != r.target || d.boot != r.target || !At(d, running).state.Valid?
              || DigestOver(At(d, running).image, r.size) != Some(r.digest) then Refused
      else if r.status.Succeeded? then AlreadyRecorded
      else Write(r.(status := Succeeded))
  }

  datatype BootReads = BootReads(
    load: bool, slots: bool, control: bool, digest: bool, firmware: bool, evaluate: EvaluateReads)

  datatype Reconciliation = Unresolved | Resolved(needsSuccess: bool) | RetireTarget

  /** reconcile_interrupted_ota up to its first durable effect. */
  function Reconcile(d: Durable, running: Slot, rd: BootReads): Reconciliation
  {
    if !rd.load then Unresolved
    else if d.receipt.None? then
      (if rd.firmware && ObserveFirmwareSet(Confirmed, d, running).Some? then Resolved(false) else Unresolved)
    else
      var r := d.receipt.value;
      var run := At(d, running);
      if !rd.slots || running != d.boot then Unresolved
      else if r.status.Failed? then
        (if Evaluate(r, false, d, running, rd.evaluate).ViewFailed? then Resolved(false) else Unresolved)
      else if running == r.target then
        if run.state.Valid? && !rd.control then Unresolved
        else if (!run.state.Pending? && !run.state.Valid?)
                || (r.status.Succeeded? && !run.state.Valid?)
                || !rd.digest || DigestOver(run.image, r.size) != Some(r.digest) || !rd.firmware then Unresolved
        else
          var firmware := ObserveFirmwareSet(if run.state.Pending? then PendingTrial else Confirmed, d, running);
          if firmware.None? || firmware.value.count != 2 || firmware.value.running != r.digest
             || firmware.value.second != r.sourceDigest then Unresolved
          else Resolved(r.status.Prepared?)
      else if !r.status.Prepared? || running != r.source || !run.state.Valid? || Other(running) != r.target
      then Unresolved
      else RetireTarget
  }
}
