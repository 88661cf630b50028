/** command_guard.c: admission of each request at most once per boot, with no
    eviction. */
module CommandGuard {
  import opened Common

  const SLOTS: nat := 32
  const WINDOW_MS: nat := 30000

  datatype Request = Request(id: string, device: string, boot: string, expires: u64, fingerprint: seq<byte>)

  datatype Entry = Entry(id: string, expires: u64, fingerprint: seq<byte>)

  datatype Admission =
    | Accept(slot: nat)
    | Replay(slot: nat)
    | BadIdentity | WrongDevice | WrongBoot | Expired | BadWindow | RequestConflict | QueueFull

  // ---------------------------------------------------------------- identities

  predicate LowerHex(c: char) {
    '0' <= c <= '9' || 'a' <= c <= 'f'
  }

  predicate DashAt(i: int) {
    i == 8 || i == 13 || i == 18 || i == 23
  }

  predicate UuidChar(c: char, i: int) {
    if DashAt(i) then c == '-' else LowerHex(c)
  }

  /** A lower-case version 4 UUID. */
  predicate Uuid(s: string) {
    && |s| == 36 && (forall i :: 0 <= i < 36 ==> UuidChar(s[i], i))
    && s[14] == '4' && (s[19] == '8' || s[19] == '9' || s[19] == 'a' || s[19] == 'b')
  }

  /** ebase_is_uuid() on a C array of 37 characters. */
  method IsUuid(value: string) returns (ok: bool)
    requires |value| == 37
    ensures ok <==> value[36] == '\0' && Uuid(value[..36])
  {
    for i := 0 to 36
      invariant forall k :: 0 <= k < i ==> UuidChar(value[k], k)
    {
      if i == 8 || i == 13 || i == 18 || i == 23 {
        if value[i] != '-' {
          assert !UuidChar(value[..36][i], i);
          return false;
        }
      } else if !('0' <= value[i] <= '9' || 'a' <= value[i] <= 'f') {
        assert !UuidChar(value[..36][i], i);
        return false;
      }
    }
    return value[36] == '\0' && value[14] == '4' && value[19] in "89ab";
  }

  // ----------------------------------------------------------------- admission

  predicate Known(entries: seq<Entry>, id: string) {
    exists k :: 0 <= k < |entries| && entries[k].id == id
  }

  /** Where a request ID was first recorded. */
  function SlotOf(entries: seq<Entry>, id: string): (k: nat)
    requires Known(entries, id)
    ensures k < |entries| && entries[k].id == id && forall j :: 0 <= j < k ==> entries[j].id != id
  {
    if entries[0].id == id then 0
    else
      assert Known(entries[1..], id) by {
        var k :| 0 <= k < |entries| && entries[k].id == id;
        assert entries[1..][k - 1].id == id;
      }
      SlotOf(entries[1..], id) + 1
  }

  /** A first match is the slot. */
  lemma FirstIsSlot(entries: seq<Entry>, id: string, i: nat)
    requires i < |entries| && entries[i].id == id && forall k :: 0 <= k < i ==> entries[k].id != id
    ensures Known(entries, id) && SlotOf(entries, id) == i
  {
  }

  predicate Identified(r: Request) {
    Uuid(r.id) && Uuid(r.device) && Uuid(r.boot)
  }

  /** ebase_admit(): the order of the tests is the source's. */
  function Decide(entries: seq<Entry>, r: Request, device: string, boot: string, now: nat): Admission {
    if !Identified(r) then BadIdentity
    else if device != r.device then WrongDevice
    else if boot != r.boot then WrongBoot
    else if Known(entries, r.id) then
      var k := SlotOf(entries, r.id);
      if entries[k].expires != r.expires || entries[k].fingerprint != r.fingerprint then RequestConflict else Replay(k)
    else if r.expires <= now then Expired
    else if r.expires - now > WINDOW_MS then BadWindow
    else if |entries| >= SLOTS then QueueFull
    else Accept(|entries|)
  }

  function Remember(entries: seq<Entry>, r: Request): seq<Entry> {
    entries + [Entry(r.id, r.expires, r.fingerprint)]
  }

  class Guard {
    const entries: array<Entry>
    var count: nat

    constructor ()
      ensures fresh(entries) && entries.Length == SLOTS && count == 0
    {
      entries := new Entry[SLOTS](_ => Entry("", 0, []));
      count := 0;
    }

    ghost predicate Valid()
      reads this
    {
      entries.Length == SLOTS
    }

    ghost function Entries(): seq<Entry>
      requires Valid() && count <= SLOTS
      reads this, entries
    {
      entries[..count]
    }

    method Admit(r: Request, device: string, boot: string, now: u64) returns (d: Admission)
      requires Valid()
      modifies this`count, entries
      ensures Valid()
      ensures old(count) > SLOTS ==> d == BadIdentity && count == old(count) && entries[..] == old(entries[..])
      ensures old(count) <= SLOTS ==>
                && count <= SLOTS && d == Decide(old(Entries()), r, device, boot, now)
                && Entries() == if d.Accept? then Remember(old(Entries()), r) else old(Entries())
    {
      if count > SLOTS || !Identified(r) { return BadIdentity; }
      if device != r.device { return WrongDevice; }
      if boot != r.boot { return WrongBoot; }
      for i := 0 to count
        invariant count == old(count) && Entries() == old(Entries())
        invariant forall k :: 0 <= k < i ==> entries[k].id != r.id
      {
        if entries[i].id == r.id {
          FirstIsSlot(Entries(), r.id, i);
          if entries[i].expires != r.expires || entries[i].fingerprint != r.fingerprint { return RequestConflict; }
          return Replay(i);
        }
      }
      if r.expires <= now { return Expired; }
      if r.expires - now > WINDOW_MS { return BadWindow; }
      if count == SLOTS { return QueueFull; }
      entries[count] := Entry(r.id, r.expires, r.fingerprint);
      count := count + 1;
      return Accept(count - 1);
    }
  }

  // ------------------------------------------------------------------ theorems

  /** The history of one boot: no overflow and no request ID twice. */
  predicate Distinct(entries: seq<Entry>) {
    |entries| <= SLOTS && forall i, j :: 0 <= i < j < |entries| ==> entries[i].id != entries[j].id
  }

  function AfterAdmit(entries: seq<Entry>, r: Request, device: string, boot: string, now: nat): seq<Entry> {
    if Decide(entries, r, device, boot, now).Accept? then Remember(entries, r) else entries
  }

  lemma AdmitKeepsDistinct(entries: seq<Entry>, r: Request, device: string, boot: string, now: nat)
    requires Distinct(entries)
    ensures Distinct(AfterAdmit(entries, r, device, boot, now))
    ensures Decide(entries, r, device, boot, now).Accept? ==> !Known(entries, r.id) && now < r.expires <= now + WINDOW_MS
  {
  }

  datatype Attempt = Attempt(request: Request, device: string, boot: string, now: nat)

  function AdmitAll(entries: seq<Entry>, attempts: seq<Attempt>): seq<Entry>
    decreases |attempts|
  {
    if attempts == [] then entries
    else
      var a := attempts[0];
      AdmitAll(AfterAdmit(entries, a.request, a.device, a.boot, a.now), attempts[1..])
  }

  lemma {:induction false} HistoryOnlyGrows(entries: seq<Entry>, attempts: seq<Attempt>)
    requires Distinct(entries)
    ensures Distinct(AdmitAll(entries, attempts)) && entries <= AdmitAll(entries, attempts)
    decreases |attempts|
  {
    if attempts != [] {
      var a := attempts[0];
      AdmitKeepsDistinct(entries, a.request, a.device, a.boot, a.now);
      HistoryOnlyGrows(AfterAdmit(entries, a.request, a.device, a.boot, a.now), attempts[1..]);
    }
  }

  /** Once accepted, the same request is answered from its own slot for the rest
      of the boot, even after its deadline, and any other request under that ID
      is a conflict. */
  lemma AcceptedOnce(entries: seq<Entry>, r: Request, device: string, boot: string, now: nat,
                     later: seq<Attempt>, again: Request, then_: nat)
    requires Distinct(entries) && Decide(entries, r, device, boot, now).Accept?
    requires again.id == r.id && again.device == device && again.boot == boot
    ensures var d := Decide(AdmitAll(Remember(entries, r), later), again, device, boot, then_);
            d == if again.expires == r.expires && again.fingerprint == r.fingerprint then Replay(|entries|) else RequestConflict
  {
    AdmitKeepsDistinct(entries, r, device, boot, now);
    HistoryOnlyGrows(Remember(entries, r), later);
    var all := AdmitAll(Remember(entries, r), later);
    assert all[|entries|] == Remember(entries, r)[|entries|];
    FirstIsSlot(all, r.id, |entries|);
  }
}
