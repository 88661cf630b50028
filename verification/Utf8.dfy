/** The UTF-8 checker of config_codec.c against section 4 of RFC 3629. */
module Utf8 {
  import opened Common

  // ------------------------------------------------------------ the standard

  predicate Scalar(cp: nat) {
    cp <= 0x10ffff && !(0xd800 <= cp <= 0xdfff)
  }

  /** The one legal byte sequence for a code point. */
  function EncodeOne(cp: nat): seq<byte>
    requires Scalar(cp)
  {
    if cp < 0x80 then [cp]
    else if cp < 0x800 then [0xc0 + cp / 64, 0x80 + cp % 64]
    else if cp < 0x10000 then [0xe0 + cp / 4096, 0x80 + cp / 64 % 64, 0x80 + cp % 64]
    else [0xf0 + cp / 262144, 0x80 + cp / 4096 % 64, 0x80 + cp / 64 % 64, 0x80 + cp % 64]
  }

  function EncodeAll(cps: seq<nat>): seq<byte>
    requires forall i :: 0 <= i < |cps| ==> Scalar(cps[i])
  {
    if cps == [] then [] else EncodeOne(cps[0]) + EncodeAll(cps[1..])
  }

  /** Which code points a field admits: an SSID excludes C0 controls and DEL, any
      other text also C1 controls and noncharacters. */
  predicate Allowed(cp: nat, ssid: bool) {
    && Scalar(cp) && cp >= 0x20 && !(0x7f <= cp <= (if ssid then 0x7f else 0x9f))
    && (!ssid ==> !(0xfdd0 <= cp <= 0xfdef) && cp % 0x10000 < 0xfffe)
  }

  predicate AllAllowed(cps: seq<nat>, ssid: bool) {
    forall i :: 0 <= i < |cps| ==> Allowed(cps[i], ssid)
  }

  /** The text is the encoding of admitted code points. */
  ghost predicate Text(s: seq<byte>, ssid: bool) {
    exists cps: seq<nat> :: AllAllowed(cps, ssid) && EncodeAll(cps) == s
  }

  // ------------------------------------------------------------- the checker

  datatype Lead = BadLead | Lead(bits: nat, more: nat, minimum: nat)

  function ReadLead(c: byte): Lead {
    if 0xc2 <= c <= 0xdf then Lead(c - 0xc0, 1, 0x80)
    else if 0xe0 <= c <= 0xef then Lead(c - 0xe0, 2, 0x800)
    else if 0xf0 <= c <= 0xf4 then Lead(c - 0xf0, 3, 0x10000)
    else if c >= 0x80 then BadLead
    else Lead(c, 0, 0)
  }

  predicate Continuation(c: byte) {
    0x80 <= c < 0xc0
  }

  /** The value after the continuation bytes, or None at a bad one. */
  function Continue(bits: nat, s: seq<byte>): Option<nat>
    decreases |s|
  {
    if s == [] then Some(bits)
    else if !Continuation(s[0]) then None
    else Continue(bits * 64 + (s[0] as int - 0x80), s[1..])
  }

  /** One iteration: the code point at the front and its length. */
  function ReadOne(s: seq<byte>): Option<(nat, nat)>
    requires s != []
  {
    var lead := ReadLead(s[0]);
    if lead.BadLead? || lead.more > |s| - 1 then None
    else
      var cp := Continue(lead.bits, s[1..1 + lead.more]);
      if cp.None? || cp.value < lead.minimum then None else Some((cp.value, 1 + lead.more))
  }

  lemma Continue1(bits: nat, a: byte)
    ensures Continue(bits, [a]) == if Continuation(a) then Some(bits * 64 + (a as int - 0x80)) else None
  {
    assert [a][1..] == [];
  }

  lemma Continue2(bits: nat, a: byte, b: byte)
    ensures Continue(bits, [a, b]) == if Continuation(a) && Continuation(b)
              then Some(bits * 4096 + (a as int - 0x80) * 64 + (b as int - 0x80)) else None
  {
    assert [a, b][1..] == [b];
    if Continuation(a) { Continue1(bits * 64 + (a as int - 0x80), b); }
  }

  lemma Continue3(bits: nat, a: byte, b: byte, c: byte)
    ensures Continue(bits, [a, b, c]) == if Continuation(a) && Continuation(b) && Continuation(c)
              then Some(bits * 262144 + (a as int - 0x80) * 4096 + (b as int - 0x80) * 64 + (c as int - 0x80)) else None
  {
    assert [a, b, c][1..] == [b, c];
    if Continuation(a) { Continue2(bits * 64 + (a as int - 0x80), b, c); }
  }

  /** Reading back any encoded scalar yields it, whatever follows. */
  lemma ReadEncoded(cp: nat, rest: seq<byte>)
    requires Scalar(cp)
    ensures ReadOne(EncodeOne(cp) + rest) == Some((cp, |EncodeOne(cp)|))
  {
    var e := EncodeOne(cp);
    var s := e + rest;
    if cp < 0x80 {
      assert s[1..1] == [];
    } else if cp < 0x800 {
      assert s[1..2] == [e[1]];
      Continue1(cp / 64, e[1]);
    } else if cp < 0x10000 {
      assert s[1..3] == [e[1], e[2]];
      Continue2(cp / 4096, e[1], e[2]);
      Digits3(cp);
    } else {
      assert s[1..4] == [e[1], e[2], e[3]];
      Continue3(cp / 262144, e[1], e[2], e[3]);
      Digits4(cp);
    }
  }

  lemma Digits3(cp: nat)
    ensures cp == cp / 4096 * 4096 + cp / 64 % 64 * 64 + cp % 64
  {
    assert cp / 4096 == cp / 64 / 64;
  }

  lemma Digits4(cp: nat)
    ensures cp == cp / 262144 * 262144 + cp / 4096 % 64 * 4096 + cp / 64 % 64 * 64 + cp % 64
  {
    assert cp / 4096 == cp / 64 / 64 && cp / 262144 == cp / 4096 / 64;
  }

  /** What the checker reads as a scalar is exactly its encoding. */
  lemma ReadIsEncoding(s: seq<byte>)
    requires s != [] && ReadOne(s).Some? && Scalar(ReadOne(s).value.0)
    ensures var (cp, n) := ReadOne(s).value;
            1 <= n <= |s| && EncodeOne(cp) == s[..n]
  {
    var lead := ReadLead(s[0]);
    var (cp, n) := ReadOne(s).value;
    var t := s[1..1 + lead.more];
    if lead.more == 0 {
      assert s[..1] == [s[0]] && t == [];
    } else if lead.more == 1 {
      assert s[..2] == [s[0], s[1]] && t == [s[1]];
      Continue1(lead.bits, s[1]);
    } else if lead.more == 2 {
      assert s[..3] == [s[0], s[1], s[2]] && t == [s[1], s[2]];
      Continue2(lead.bits, s[1], s[2]);
      Unique3(cp, lead.bits, s[1] as int - 0x80, s[2] as int - 0x80);
    } else {
      assert s[..4] == [s[0], s[1], s[2], s[3]] && t == [s[1], s[2], s[3]];
      Continue3(lead.bits, s[1], s[2], s[3]);
      Unique4(cp, lead.bits, s[1] as int - 0x80, s[2] as int - 0x80, s[3] as int - 0x80);
    }
  }

  lemma Unique3(cp: nat, x: nat, y: nat, z: nat)
    requires y < 64 && z < 64 && cp == x * 4096 + y * 64 + z
    ensures cp / 4096 == x && cp / 64 % 64 == y && cp % 64 == z
  {
    assert cp / 64 == x * 64 + y;
  }

  lemma Unique4(cp: nat, w: nat, x: nat, y: nat, z: nat)
    requires x < 64 && y < 64 && z < 64 && cp == w * 262144 + x * 4096 + y * 64 + z
    ensures cp / 262144 == w && cp / 4096 % 64 == x && cp / 64 % 64 == y && cp % 64 == z
  {
    assert cp / 64 == w * 4096 + x * 64 + y;
    assert cp / 4096 == w * 64 + x;
  }

  /** The remaining text is checked from the front. */
  predicate Check(s: seq<byte>, ssid: bool)
    decreases |s|
  {
    s == [] ||
    (var r := ReadOne(s);
     r.Some? && Allowed(r.value.0, ssid) && 0 < r.value.1 <= |s| && Check(s[r.value.1..], ssid))
  }

  lemma {:induction false} CheckComplete(cps: seq<nat>, ssid: bool)
    requires AllAllowed(cps, ssid)
    ensures Check(EncodeAll(cps), ssid)
    decreases |cps|
  {
    if cps != [] {
      var rest := EncodeAll(cps[1..]);
      ReadEncoded(cps[0], rest);
      CheckComplete(cps[1..], ssid);
      assert (EncodeOne(cps[0]) + rest)[|EncodeOne(cps[0])|..] == rest;
    }
  }

  lemma EncodeCons(cp: nat, rest: seq<nat>)
    requires Scalar(cp) && forall i :: 0 <= i < |rest| ==> Scalar(rest[i])
    ensures EncodeAll([cp] + rest) == EncodeOne(cp) + EncodeAll(rest)
  {
    assert ([cp] + rest)[1..] == rest;
  }

  lemma {:induction false} CheckSound(s: seq<byte>, ssid: bool) returns (cps: seq<nat>)
    requires Check(s, ssid)
    ensures AllAllowed(cps, ssid) && EncodeAll(cps) == s
    decreases |s|
  {
    if s == [] {
      cps := [];
    } else {
      var (cp, n) := ReadOne(s).value;
      ReadIsEncoding(s);
      var rest := CheckSound(s[n..], ssid);
      cps := [cp] + rest;
      EncodeCons(cp, rest);
      assert s == s[..n] + s[n..];
    }
  }

  /** The checker accepts exactly the RFC 3629 encodings of admitted text. */
  lemma CheckIsText(s: seq<byte>, ssid: bool)
    ensures Check(s, ssid) <==> Text(s, ssid)
  {
    if Check(s, ssid) {
      var cps := CheckSound(s, ssid);
    }
    if Text(s, ssid) {
      var cps: seq<nat> :| AllAllowed(cps, ssid) && EncodeAll(cps) == s;
      CheckComplete(cps, ssid);
    }
  }

  /** The inner loop over the continuation bytes. */
  method Continued(s: seq<byte>, bits: nat) returns (cp: Option<nat>)
    ensures cp == Continue(bits, s)
  {
    var value := bits;
    for j := 0 to |s|
      invariant 0 <= value && Continue(bits, s) == Continue(value, s[j..])
    {
      var c := s[j];
      if !(0x80 <= c < 0xc0) { return None; }
      value := value * 64 + (c as int - 0x80);
      assert s[j..][1..] == s[j + 1..];
    }
    return Some(value);
  }

  /** One code point at position i, and its length. */
  method ReadAt(s: seq<byte>, i: nat) returns (r: Option<(nat, nat)>)
    requires i < |s|
    ensures r == ReadOne(s[i..])
  {
    var c := s[i];
    var cp: nat, more, minimum := c, 0, 0;
    if 0xc2 <= c <= 0xdf { cp, more, minimum := c - 0xc0, 1, 0x80; }
    else if 0xe0 <= c <= 0xef { cp, more, minimum := c - 0xe0, 2, 0x800; }
    else if 0xf0 <= c <= 0xf4 { cp, more, minimum := c - 0xf0, 3, 0x10000; }
    else if c >= 0x80 { return None; }
    if more > |s| - i - 1 { return None; }
    assert s[i..][1..1 + more] == s[i + 1..i + 1 + more];
    var read := Continued(s[i + 1..i + 1 + more], cp);
    if read.None? || read.value < minimum { return None; }
    return Some((read.value, 1 + more));
  }

  /** utf8(): the loop of config_codec.c. */
  method Valid(s: seq<byte>, ssid: bool) returns (ok: bool)
    ensures ok <==> Text(s, ssid)
  {
    CheckIsText(s, ssid);
    var i := 0;
    while i < |s|
      invariant 0 <= i <= |s|
      invariant Check(s, ssid) <==> Check(s[i..], ssid)
    {
      var r := ReadAt(s, i);
      if r.None? { return false; }
      var (cp, n) := r.value;
      if cp > 0x10ffff || 0xd800 <= cp <= 0xdfff || cp < 0x20
         || 0x7f <= cp <= (if ssid then 0x7f else 0x9f)
         || (!ssid && (0xfdd0 <= cp <= 0xfdef || cp % 0x10000 >= 0xfffe)) {
        return false;
      }
      ReadLength(s[i..]);
      assert s[i..][n..] == s[i + n..];
      i := i + n;
    }
    assert s[i..] == [];
    return true;
  }

  lemma ReadLength(s: seq<byte>)
    requires s != [] && ReadOne(s).Some?
    ensures 0 < ReadOne(s).value.1 <= |s|
  {
  }
}
