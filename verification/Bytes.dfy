/** Byte buffers and little-endian words shared by the codecs. */
module Bytes {
  import opened Common

  /** Copy bytes behind the first `at` bytes of a buffer, as memcpy at a moving
      cursor does. */
  method Append(out: array<byte>, at: nat, bytes: seq<byte>) returns (next: nat)
    requires at + |bytes| <= out.Length
    modifies out
    ensures next == at + |bytes| && out[..next] == old(out[..at]) + bytes
  {
    for i := 0 to |bytes|
      invariant out[..at + i] == old(out[..at]) + bytes[..i]
    {
      out[at + i] := bytes[i];
    }
    next := at + |bytes|;
    assert bytes[..|bytes|] == bytes;
  }

  function Get32(b: seq<byte>, i: nat): nat
    requires i + 3 < |b|
  {
    b[i] as int + 256 * b[i + 1] as int + 65536 * b[i + 2] as int + 16777216 * b[i + 3] as int
  }

  function Put32(v: nat): (b: seq<byte>)
    requires v <= UINT32_MAX
    ensures |b| == 4
  {
    [v % 256, v / 256 % 256, v / 65536 % 256, v / 16777216]
  }

  lemma Digits32(r: nat)
    ensures r % 256 + 256 * (r / 256 % 256) + 65536 * (r / 65536 % 256) + 16777216 * (r / 16777216) == r
  {
    assert r / 65536 == r / 256 / 256 && r / 16777216 == r / 65536 / 256;
  }

  lemma Digits32Inverse(a: nat, b: nat, c: nat, d: nat)
    requires a < 256 && b < 256 && c < 256 && d < 256
    ensures var r := a + 256 * b + 65536 * c + 16777216 * d;
            r % 256 == a && r / 256 % 256 == b && r / 65536 % 256 == c && r / 16777216 == d
  {
    var r := a + 256 * b + 65536 * c + 16777216 * d;
    assert r / 256 == b + 256 * c + 65536 * d;
    assert r / 65536 == c + 256 * d;
  }
}
