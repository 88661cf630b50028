/** Consecutive variable-length sections: joining and cutting are inverse. */
module Sections {
  import opened Common

  function Join(parts: seq<seq<byte>>): seq<byte> {
    if parts == [] then [] else parts[0] + Join(parts[1..])
  }

  function Lengths(parts: seq<seq<byte>>): seq<nat> {
    seq(|parts|, i requires 0 <= i < |parts| => |parts[i]|)
  }

  function Sum(lens: seq<nat>): nat {
    if lens == [] then 0 else lens[0] + Sum(lens[1..])
  }

  function Cut(s: seq<byte>, lens: seq<nat>): (parts: seq<seq<byte>>)
    requires Sum(lens) == |s|
    ensures |parts| == |lens|
    decreases |lens|
  {
    if lens == [] then [] else [s[..lens[0]]] + Cut(s[lens[0]..], lens[1..])
  }

  lemma {:induction false} JoinLength(parts: seq<seq<byte>>)
    ensures |Join(parts)| == Sum(Lengths(parts))
    decreases |parts|
  {
    if parts != [] {
      assert Lengths(parts)[1..] == Lengths(parts[1..]);
      JoinLength(parts[1..]);
    }
  }

  lemma {:induction false} CutLengths(s: seq<byte>, lens: seq<nat>)
    requires Sum(lens) == |s|
    ensures Lengths(Cut(s, lens)) == lens
    decreases |lens|
  {
    if lens != [] {
      CutLengths(s[lens[0]..], lens[1..]);
      var rest := Cut(s[lens[0]..], lens[1..]);
      assert Lengths(Cut(s, lens)) == [lens[0]] + Lengths(rest);
    }
  }

  lemma {:induction false} JoinCut(s: seq<byte>, lens: seq<nat>)
    requires Sum(lens) == |s|
    ensures Join(Cut(s, lens)) == s
    decreases |lens|
  {
    if lens != [] {
      JoinCut(s[lens[0]..], lens[1..]);
      assert Cut(s, lens)[1..] == Cut(s[lens[0]..], lens[1..]);
      assert s == s[..lens[0]] + s[lens[0]..];
    }
  }

  lemma {:induction false} CutJoin(parts: seq<seq<byte>>)
    ensures Sum(Lengths(parts)) == |Join(parts)|
    ensures Cut(Join(parts), Lengths(parts)) == parts
    decreases |parts|
  {
    JoinLength(parts);
    if parts != [] {
      assert Lengths(parts)[1..] == Lengths(parts[1..]);
      CutJoin(parts[1..]);
      assert Join(parts)[|parts[0]|..] == Join(parts[1..]);
      assert Join(parts)[..|parts[0]|] == parts[0];
    }
  }

  lemma {:induction false} SumTake(lens: seq<nat>, n: nat)
    requires n <= |lens|
    ensures Sum(lens[..n]) <= Sum(lens)
    decreases n
  {
    if n > 0 {
      assert lens[..n][1..] == lens[1..][..n - 1];
      SumTake(lens[1..], n - 1);
    }
  }

  /** The first sections of a cut are a prefix of the bytes. */
  lemma {:induction false} JoinTake(s: seq<byte>, lens: seq<nat>, n: nat)
    requires Sum(lens) == |s| && n <= |lens|
    ensures Sum(lens[..n]) <= |s| && Join(Cut(s, lens)[..n]) == s[..Sum(lens[..n])]
    decreases n
  {
    SumTake(lens, n);
    if n > 0 {
      var at := lens[0];
      assert lens[..n][1..] == lens[1..][..n - 1];
      JoinTake(s[at..], lens[1..], n - 1);
      assert Cut(s, lens)[..n][1..] == Cut(s[at..], lens[1..])[..n - 1];
      var m := Sum(lens[1..][..n - 1]);
      assert Sum(lens[..n]) == at + m;
      assert s[..at] + s[at..][..m] == s[..at + m];
    }
  }

  lemma {:induction false} JoinEmpty(parts: seq<seq<byte>>)
    requires forall i :: 0 <= i < |parts| ==> parts[i] == []
    ensures Join(parts) == []
    decreases |parts|
  {
    if parts != [] { JoinEmpty(parts[1..]); }
  }

  lemma {:induction false} JoinAppend(a: seq<seq<byte>>, b: seq<seq<byte>>)
    ensures Join(a + b) == Join(a) + Join(b)
    decreases |a|
  {
    if a == [] {
      assert a + b == b;
    } else {
      assert (a + b)[1..] == a[1..] + b;
      JoinAppend(a[1..], b);
    }
  }
}
