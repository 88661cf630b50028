/** Lower bounds on a heap domain: how the producer of esp_base_capacity.c sums
    them up and why they hold at every instant. */
module CapacityBounds {
  import opened Common

  /** Capability masks as sets of bit numbers. */
  type Caps = set<nat>

  const INTERNAL_8BIT: Caps := {11, 2}
  const DOMAIN_CAPS: seq<Caps> := [INTERNAL_8BIT, {11, 1}, {11, 3}, {12}, {11, 13}]

  /** A second address range of the same memory; both ends 0 if there is none. */
  datatype Alias = Alias(start: nat, end: nat, inverted: bool)

  /** `caps` unites the three priorities of the region. */
  datatype Region = Region(
    start: nat, end: nat, caps: seq<Caps>, alias: Alias, atHeapInit: bool,
    free: nat, minFree: nat, largest: nat, minLargest: nat, metadata: nat)

  function AllCaps(r: Region): Caps {
    set i, c | 0 <= i < |r.caps| && c in r.caps[i] :: c
  }

  /** The region belongs to the domain for the whole history. */
  predicate Counts(r: Region, mask: Caps) {
    r.atHeapInit && mask <= AllCaps(r)
  }

  function FreeBound(regions: seq<Region>, mask: Caps): nat {
    if regions == [] then 0
    else
      var r := regions[|regions| - 1];
      FreeBound(regions[..|regions| - 1], mask) + if Counts(r, mask) then r.minFree else 0
  }

  function LargestBound(regions: seq<Region>, mask: Caps): nat {
    if regions == [] then 0
    else
      var r := regions[|regions| - 1];
      var before := LargestBound(regions[..|regions| - 1], mask);
      if Counts(r, mask) && r.minLargest > before then r.minLargest else before
  }

  // --------------------------------------------------------------- the producer

  predicate Fits(regions: seq<Region>, domains: nat)
    requires domains <= |DOMAIN_CAPS|
  {
    forall d :: 0 <= d < domains ==> FreeBound(regions, DOMAIN_CAPS[d]) <= UINT32_MAX
  }

  /** esp_base_capacity_frame_t and emit_region(). The bounds are exact for every
      domain whose sum fits; a sum that does not fit makes the frame invalid for
      good. */
  class Frame {
    const sums: array<u32>
    const largest: array<u32>
    var regionCount: nat
    var valid: bool
    ghost var seen: seq<Region>

    constructor (countersFit: bool)
      ensures Valid() && seen == [] && regionCount == 0 && valid == countersFit
      ensures fresh(sums) && fresh(largest)
    {
      sums := new u32[|DOMAIN_CAPS|](_ => 0);
      largest := new u32[|DOMAIN_CAPS|](_ => 0);
      regionCount, valid, seen := 0, countersFit, [];
    }

    ghost predicate Valid()
      reads this, sums, largest
    {
      && sums != largest && sums.Length == largest.Length == |DOMAIN_CAPS|
      && regionCount == |seen|
      && forall d :: 0 <= d < |DOMAIN_CAPS| ==> Exact(sums[d], largest[d], seen, DOMAIN_CAPS[d])
    }

    /** One callback of the heap walk. */
    method EmitRegion(r: Region)
      requires Valid() && (valid ==> Fits(seen, |DOMAIN_CAPS|)) && r.minFree <= UINT32_MAX && r.minLargest <= UINT32_MAX
      modifies this, sums, largest
      ensures Valid() && seen == old(seen) + [r]
      ensures valid <==> old(valid) && Fits(seen, |DOMAIN_CAPS|)
    {
      ghost var before := seen;
      seen := seen + [r];
      regionCount := regionCount + 1;
      for d := 0 to |DOMAIN_CAPS|
        invariant seen == before + [r] && regionCount == |seen|
        invariant old(valid) ==> Fits(before, |DOMAIN_CAPS|)
        invariant forall e :: 0 <= e < d ==> Exact(sums[e], largest[e], seen, DOMAIN_CAPS[e])
        invariant forall e :: d <= e < |DOMAIN_CAPS| ==> Exact(sums[e], largest[e], before, DOMAIN_CAPS[e])
        invariant valid <==> old(valid) && Fits(seen, d)
      {
        var fits := EmitDomain(d, r, before);
        assert Fits(seen, d + 1) <==> Fits(seen, d) && FreeBound(seen, DOMAIN_CAPS[d]) <= UINT32_MAX;
        if !fits { valid := false; }
      }
    }

    /** The body of the loop over the domains. */
    method EmitDomain(d: nat, r: Region, ghost before: seq<Region>) returns (fits: bool)
      requires sums != largest && sums.Length == largest.Length == |DOMAIN_CAPS| && d < |DOMAIN_CAPS|
      requires r.minFree <= UINT32_MAX && r.minLargest <= UINT32_MAX
      requires Exact(sums[d], largest[d], before, DOMAIN_CAPS[d])
      modifies sums, largest
      ensures forall e :: 0 <= e < |DOMAIN_CAPS| && e != d ==> sums[e] == old(sums[e]) && largest[e] == old(largest[e])
      ensures Exact(sums[d], largest[d], before + [r], DOMAIN_CAPS[d])
      ensures FreeBound(before, DOMAIN_CAPS[d]) <= UINT32_MAX ==>
                (fits <==> FreeBound(before + [r], DOMAIN_CAPS[d]) <= UINT32_MAX)
    {
      Extend(before, r, DOMAIN_CAPS[d]);
      if !(DOMAIN_CAPS[d] <= AllCaps(r)) || !r.atHeapInit { return true; }
      if UINT32_MAX - sums[d] < r.minFree { return false; }
      sums[d] := sums[d] + r.minFree;
      if r.minLargest > largest[d] { largest[d] := r.minLargest; }
      return true;
    }
  }

  /** A sum that fits is the bound itself. */
  predicate Exact(sum: nat, largest: nat, regions: seq<Region>, mask: Caps) {
    FreeBound(regions, mask) <= UINT32_MAX ==>
      sum == FreeBound(regions, mask) && largest == LargestBound(regions, mask)
  }

  lemma Extend(before: seq<Region>, r: Region, mask: Caps)
    ensures FreeBound(before + [r], mask) == FreeBound(before, mask) + if Counts(r, mask) then r.minFree else 0
    ensures LargestBound(before + [r], mask) ==
            if Counts(r, mask) then Max(LargestBound(before, mask), r.minLargest) else LargestBound(before, mask)
  {
    assert (before + [r])[..|before|] == before;
  }

  // ----------------------------------------------------------- at every instant

  /** What one region really had at each instant since heap initialisation. */
  datatype History = History(free: seq<nat>, largest: seq<nat>)

  /** The region's running minima are minima of its history. */
  predicate Observes(r: Region, h: History, instants: nat) {
    && |h.free| == |h.largest| == instants
    && forall t :: 0 <= t < instants ==> r.minFree <= h.free[t] && r.minLargest <= h.largest[t]
  }

  /** Free bytes of the domain at one instant. Regions registered later than heap
      initialisation may add more and never less. */
  function FreeAt(regions: seq<Region>, hs: seq<History>, mask: Caps, t: nat): nat
    requires |hs| == |regions| && forall i :: 0 <= i < |hs| ==> t < |hs[i].free|
  {
    if regions == [] then 0
    else
      var n := |regions| - 1;
      FreeAt(regions[..n], hs[..n], mask, t) + if mask <= AllCaps(regions[n]) then hs[n].free[t] else 0
  }

  /** The largest block a request in the domain could get at one instant. */
  function LargestAt(regions: seq<Region>, hs: seq<History>, mask: Caps, t: nat): nat
    requires |hs| == |regions| && forall i :: 0 <= i < |hs| ==> t < |hs[i].largest|
  {
    if regions == [] then 0
    else
      var n := |regions| - 1;
      var before := LargestAt(regions[..n], hs[..n], mask, t);
      if mask <= AllCaps(regions[n]) && hs[n].largest[t] > before then hs[n].largest[t] else before
  }

  /** The sum of the minima and the largest of the minima bound what the domain
      had at every instant, although no instant need reach them. */
  lemma {:induction false} BoundsHoldAtEveryInstant(regions: seq<Region>, hs: seq<History>, mask: Caps, t: nat, instants: nat)
    requires |hs| == |regions| && t < instants
    requires forall i :: 0 <= i < |hs| ==> |hs[i].free| == |hs[i].largest| == instants
    requires forall i :: 0 <= i < |hs| && regions[i].atHeapInit ==> Observes(regions[i], hs[i], instants)
    ensures FreeBound(regions, mask) <= FreeAt(regions, hs, mask, t)
    ensures LargestBound(regions, mask) <= LargestAt(regions, hs, mask, t)
    decreases |regions|
  {
    if regions != [] {
      var n := |regions| - 1;
      BoundsHoldAtEveryInstant(regions[..n], hs[..n], mask, t, instants);
    }
  }
}
