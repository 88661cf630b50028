/** The durable world of the A/B update: two application slots, their otadata
    state, the boot selector and the retained V4 receipt; and the read-only
    observations the firmware makes of it (esp_base_ota_firmware.c). */
module OtaSlots {
  import opened Common

  datatype Slot = Ota0 | Ota1

  function Other(s: Slot): Slot {
    if s == Ota0 then Ota1 else Ota0
  }

  datatype OtaState = New | Pending | Valid | Invalid | Aborted | Undefined | Untracked

  /** What a slot physically holds. `Signed` is a complete signed Base image for
      this chip; `Junk` is everything else whose header is not erased. Digest 0
      stands for the all-zero digest. */
  datatype Image = Erased | Junk | Signed(digest: nat, size: nat)

  datatype SlotRecord = SlotRecord(image: Image, state: OtaState)

  /** Recordable update errors; the library's numbering is not part of the model. */
  datatype FailureCode = DownloadFailed | ResourceFailure | OtherFailure(id: nat)

  datatype Status = Prepared | Failed(code: FailureCode) | Succeeded

  /** The decoded V4 receipt. `code` inside `Failed` is the recorded update error. */
  datatype Receipt = Receipt(
    status: Status,
    operation: nat,
    source: Slot,
    target: Slot,
    size: nat,
    digest: nat,
    sourceDigest: nat,
    inactiveDigest: nat)

  datatype Durable = Durable(ota0: SlotRecord, ota1: SlotRecord, boot: Slot, receipt: Option<Receipt>)

  function At(d: Durable, s: Slot): SlotRecord {
    if s == Ota0 then d.ota0 else d.ota1
  }

  function With(d: Durable, s: Slot, rec: SlotRecord): Durable {
    if s == Ota0 then d.(ota0 := rec) else d.(ota1 := rec)
  }

  /** eota_sha256_verified_image succeeds with a usable identity. */
  predicate Verified(image: Image) {
    image.Signed? && image.digest != 0 && image.size != 0
  }

  /** eota_sha256_running over exactly `size` bytes of a slot. */
  function DigestOver(image: Image, size: nat): Option<nat> {
    if image.Signed? && image.size == size then Some(image.digest) else None
  }

  predicate Retired(state: OtaState) {
    state.Untracked? || state.Invalid? || state.Aborted?
  }

  datatype Observation = Confirmed | PendingTrial

  /** The distinct bootable identities; `second` is 0 when there is only one. */
  datatype FirmwareSet = FirmwareSet(count: nat, running: nat, second: nat)

  /** esp_base_ota_observe_firmware_set with every SDK read succeeding. */
  function ObserveFirmwareSet(mode: Observation, d: Durable, running: Slot): (r: Option<FirmwareSet>)
  {
    var run := At(d, running);
    var target := At(d, Other(running));
    var hasRollback := target.state.Valid?;
    if running != d.boot || run.state != (if mode.PendingTrial? then Pending else Valid) then None
    else if mode.PendingTrial? && !hasRollback then None
    else if mode.Confirmed? && !hasRollback && !Retired(target.state) then None
    else if !Verified(run.image) then None
    else if hasRollback then
      if !Verified(target.image) then None
      else if target.image.digest == run.image.digest then Some(FirmwareSet(1, run.image.digest, 0))
      else Some(FirmwareSet(2, run.image.digest, target.image.digest))
    else if target.image.Erased? then Some(FirmwareSet(1, run.image.digest, 0))
    else None
  }

  // ---------------------------------------------------------------- bootloader

  predicate Bootable(image: Image, junkBoots: bool) {
    image.Signed? || (image.Junk? && junkBoots)
  }

  /** The bootloader's otadata writes: a trial that was already pending is
      aborted and the selector falls back; a newly selected image becomes a
      pending trial. */
  function BootMarks(d: Durable): Durable {
    var d1 := if At(d, d.boot).state.Pending?
              then With(d, d.boot, At(d, d.boot).(state := Aborted)).(boot := Other(d.boot))
              else d;
    if At(d1, d1.boot).state.New?
    then With(d1, d1.boot, At(d1, d1.boot).(state := Pending))
    else d1
  }

  /** The slot that runs next. Whether the bootloader starts an image that the
      application would reject is left open (`junkBoots`). */
  function BootChoice(d: Durable, junkBoots: bool): Option<Slot> {
    var m := BootMarks(d);
    if Bootable(At(m, m.boot).image, junkBoots) then Some(m.boot)
    else if Bootable(At(m, Other(m.boot)).image, junkBoots) then Some(Other(m.boot))
    else None
  }
}
