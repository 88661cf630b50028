/** The canonical v3 configuration blob and its legacy variant, as values. */
module ConfigFormat {
  import opened Common
  import opened Bytes
  import opened ConfigText
  import opened Sections
  import Utf8

  const HEADER_BYTES: nat := 40
  const MAX_BYTES: nat := 4901
  const STORAGE_MAX_BYTES: nat := 7618
  const KEY_BYTES: nat := 32

  /** Text fields hold their bytes without the C array's zero padding. */
  datatype Wifi = Wifi(configured: bool, ssid: seq<byte>, password: seq<byte>)

  datatype Mqtt = Mqtt(configured: bool, host: seq<byte>, port: nat, user: seq<byte>,
                       password: seq<byte>, ca: seq<byte>, key: seq<byte>)

  datatype Config = Config(revision: nat, wifi: Wifi, mqtt: Mqtt)

  function ZeroBytes(n: nat): (z: seq<byte>)
    ensures |z| == n && AllZero(z)
  {
    seq(n, _ => 0)
  }

  const NO_KEY: seq<byte> := ZeroBytes(KEY_BYTES)

  /** The configuration of a device without a stored blob. */
  const DEFAULT := Config(0, Wifi(false, [], []), Mqtt(false, [], 0, [], [], [], NO_KEY))

  // ------------------------------------------------------------ value validity

  ghost predicate WifiOk(w: Wifi) {
    if !w.configured then w.ssid == [] && w.password == []
    else 1 <= |w.ssid| <= 32 && Utf8.Text(w.ssid, true) && SecretOk(w.password)
  }

  ghost predicate MqttOk(m: Mqtt) {
    && |m.key| == KEY_BYTES && m.port < 65536
    && if !m.configured then
         m.host == [] && m.port == 0 && m.user == [] && m.password == [] && m.ca == [] && AllZero(m.key)
       else
         && HostOk(m.host) && m.port != 0
         && 1 <= |m.user| <= 128 && 1 <= |m.password| <= 256 && 1 <= |m.ca| <= 4096
         && Utf8.Text(m.user, false) && Utf8.Text(m.password, false)
         && !AllZero(m.key) && PemOk(m.ca)
  }

  ghost predicate ConfigOk(c: Config) {
    c.revision <= UINT32_MAX && WifiOk(c.wifi) && MqttOk(c.mqtt)
  }

  /** The retired FRP fields of a historical v3 blob. */
  datatype Frp = Frp(configured: bool, host: seq<byte>, serverPort: nat, token: seq<byte>, ca: seq<byte>,
                     proxy: seq<byte>, remotePort: nat, localPort: nat, key: seq<byte>)

  predicate ProxyByte(c: byte) {
    0x20 < c < 0x7f && c != 47 && c != 92 && c != 42 && c != 64
  }

  predicate FrpOk(f: Frp) {
    if !f.configured then
      && f.host == [] && f.serverPort == 0 && f.token == [] && f.ca == [] && f.proxy == []
      && f.remotePort == 0 && f.localPort == 0 && AllZero(f.key)
    else
      && HostOk(f.host) && f.serverPort != 0 && 1 <= |f.token| <= 256 && 1 <= |f.ca| <= 2048 && PemOk(f.ca)
      && 1 <= |f.proxy| <= 128 && f.remotePort != 0 && f.localPort != 0 && !AllZero(f.key)
      && (forall k :: 0 <= k < |f.token| ==> 0x20 < f.token[k] < 0x7f)
      && (forall k :: 0 <= k < |f.proxy| ==> ProxyByte(f.proxy[k]))
  }

  // ------------------------------------------------------------------ encoding

  /** Lengths and numbers fit the header. */
  predicate Sized(c: Config) {
    && c.revision <= UINT32_MAX && c.mqtt.port < 65536
    && |c.wifi.ssid| <= 32 && |c.wifi.password| <= 64 && |c.mqtt.host| <= 253 && |c.mqtt.user| <= 128
    && |c.mqtt.password| <= 256 && |c.mqtt.ca| <= 4096 && |c.mqtt.key| == KEY_BYTES
  }

  function Flags(c: Config): nat {
    (if c.wifi.configured then 1 else 0) + (if c.mqtt.configured then 2 else 0)
  }

  function Numbers(c: Config): (h: seq<byte>)
    requires Sized(c)
    ensures |h| == 20
  {
    var r := c.revision;
    [69, 66, 67, 70, 3, Flags(c), |c.wifi.ssid|, |c.wifi.password|,
     r % 256, r / 256 % 256, r / 65536 % 256, r / 16777216,
     |c.mqtt.host|, |c.mqtt.user|, |c.mqtt.password| % 256, |c.mqtt.password| / 256,
     |c.mqtt.ca| % 256, |c.mqtt.ca| / 256, c.mqtt.port % 256, c.mqtt.port / 256]
  }

  function Header(c: Config): (h: seq<byte>)
    requires Sized(c)
    ensures |h| == HEADER_BYTES
  {
    Numbers(c) + ZeroBytes(20)
  }

  /** The live sections of a blob, in order. */
  function Parts(c: Config): (p: seq<seq<byte>>)
    ensures |p| == 7
  {
    [c.wifi.ssid, c.wifi.password, c.mqtt.host, c.mqtt.user, c.mqtt.password, c.mqtt.ca,
     if c.mqtt.configured then c.mqtt.key else []]
  }

  function Encode(c: Config): seq<byte>
    requires Sized(c)
  {
    Header(c) + Join(Parts(c))
  }

  // ------------------------------------------------------------------ decoding

  function Get16(b: seq<byte>, i: nat): nat
    requires i + 1 < |b|
  {
    b[i] as int + 256 * b[i + 1] as int
  }

  function Bit(flags: byte, mask: nat): bool
    requires mask == 1 || mask == 2 || mask == 4
  {
    flags as int / mask % 2 == 1
  }

  /** Section lengths announced by a header: seven live ones, five retired ones. */
  function Lens(b: seq<byte>): (l: seq<nat>)
    requires |b| >= HEADER_BYTES
    ensures |l| == 12
  {
    [b[6], b[7], b[12], b[13], Get16(b, 14), Get16(b, 16), if Bit(b[5], 2) then KEY_BYTES else 0,
     b[20], Get16(b, 22), Get16(b, 24), b[21], if Bit(b[5], 4) then KEY_BYTES else 0]
  }

  predicate HeaderOk(b: seq<byte>, legacy: bool) {
    && HEADER_BYTES <= |b| <= (if legacy then STORAGE_MAX_BYTES else MAX_BYTES)
    && b[..5] == [69, 66, 67, 70, 3] && b[5] <= (if legacy then 7 else 3)
    && (!legacy ==> AllZero(b[20..40]))
    && b[6] <= 32 && b[7] <= 64 && b[12] <= 253 && b[13] <= 128 && Get16(b, 14) <= 256 && Get16(b, 16) <= 4096
    && b[20] <= 253 && b[21] <= 128 && Get16(b, 22) <= 256 && Get16(b, 24) <= 2048 && AllZero(b[32..40])
    && Sum(Lens(b)) == |b| - HEADER_BYTES
  }

  function Body(b: seq<byte>, legacy: bool): (p: seq<seq<byte>>)
    requires HeaderOk(b, legacy)
    ensures |p| == 12
  {
    Cut(b[HEADER_BYTES..], Lens(b))
  }

  function Parse(b: seq<byte>, legacy: bool): Config
    requires HeaderOk(b, legacy)
  {
    var p := Body(b, legacy);
    Config(Get32(b, 8),
           Wifi(Bit(b[5], 1), p[0], p[1]),
           Mqtt(Bit(b[5], 2), p[2], Get16(b, 18), p[3], p[4], p[5], if Bit(b[5], 2) then p[6] else NO_KEY))
  }

  function ParseFrp(b: seq<byte>, legacy: bool): Frp
    requires HeaderOk(b, legacy)
  {
    var p := Body(b, legacy);
    Frp(Bit(b[5], 4), p[7], Get16(b, 26), p[8], p[9], p[10], Get16(b, 28), Get16(b, 30),
        if Bit(b[5], 4) then p[11] else NO_KEY)
  }

  /** decode_config(): the strict canonical decoder, or the historical one. */
  ghost predicate Accepts(b: seq<byte>, legacy: bool) {
    HeaderOk(b, legacy) && WifiOk(Parse(b, legacy).wifi) && MqttOk(Parse(b, legacy).mqtt) && FrpOk(ParseFrp(b, legacy))
  }

  // ------------------------------------------------------------------- theorems

  lemma Sum7(l: seq<nat>)
    requires |l| == 7
    ensures Sum(l) == l[0] + l[1] + l[2] + l[3] + l[4] + l[5] + l[6]
  {
    assert l[1..][1..] == l[2..] && l[2..][1..] == l[3..] && l[3..][1..] == l[4..] && l[4..][1..] == l[5..];
    assert l[5..][1..] == l[6..] && l[6..][1..] == [];
    assert Sum(l[6..]) == l[6];
    assert Sum(l[5..]) == l[5] + l[6];
    assert Sum(l[4..]) == l[4] + l[5] + l[6];
    assert Sum(l[3..]) == l[3] + l[4] + l[5] + l[6];
    assert Sum(l[2..]) == l[2] + l[3] + l[4] + l[5] + l[6];
  }

  const NOTHING: seq<seq<byte>> := [[], [], [], [], []]

  lemma ValidIsSized(c: Config)
    requires ConfigOk(c)
    ensures Sized(c)
    ensures |Encode(c)| <= MAX_BYTES
  {
    JoinLength(Parts(c));
    Sum7(Lengths(Parts(c)));
  }

  lemma EncodedSections(c: Config)
    requires Sized(c)
    ensures Join(Parts(c) + NOTHING) == Join(Parts(c))
    ensures |Encode(c)| >= HEADER_BYTES
    ensures Lens(Encode(c)) == Lengths(Parts(c) + NOTHING)
  {
    JoinAppend(Parts(c), NOTHING);
    JoinEmpty(NOTHING);
    var b := Encode(c);
    assert b[..20] == Numbers(c);
    assert forall i :: 20 <= i < 40 ==> b[i] == 0;
    EncodedNumbers(c, b);
  }

  /** The header of an encoding, field by field. */
  lemma EncodedNumbers(c: Config, b: seq<byte>)
    requires Sized(c) && |b| >= HEADER_BYTES && b[..20] == Numbers(c)
    ensures b[..5] == [69, 66, 67, 70, 3]
    ensures b[6] == |c.wifi.ssid| && b[7] == |c.wifi.password| && b[12] == |c.mqtt.host| && b[13] == |c.mqtt.user|
    ensures Get16(b, 14) == |c.mqtt.password| && Get16(b, 16) == |c.mqtt.ca| && Get16(b, 18) == c.mqtt.port
    ensures b[5] == Flags(c) && Bit(b[5], 1) == c.wifi.configured && Bit(b[5], 2) == c.mqtt.configured && !Bit(b[5], 4)
    ensures Get32(b, 8) == c.revision
  {
    var n := b[..20];
    assert b[..5] == n[..5];
    assert b[5] == n[5] && b[6] == n[6] && b[7] == n[7] && b[12] == n[12] && b[13] == n[13];
    assert b[14] == n[14] && b[15] == n[15] && b[16] == n[16] && b[17] == n[17] && b[18] == n[18] && b[19] == n[19];
    assert b[8] == n[8] && b[9] == n[9] && b[10] == n[10] && b[11] == n[11];
    Digits32(c.revision);
  }

  /** Encoding is accepted by the strict decoder and decodes to the same values. */
  lemma DecodeEncode(c: Config)
    requires ConfigOk(c)
    ensures Sized(c) && Accepts(Encode(c), false) && Parse(Encode(c), false) == c
  {
    ValidIsSized(c);
    EncodedHeaderOk(c);
    EncodedBody(c);
    EncodedValues(c);
    EmptyFrp(Encode(c), Parts(c) + NOTHING);
  }

  /** The decoder accepts the encoding of valid values and of no others. */
  lemma EncodingAcceptedIffValid(c: Config)
    requires Sized(c) && |Encode(c)| <= MAX_BYTES && (!c.mqtt.configured ==> c.mqtt.key == NO_KEY)
    ensures Accepts(Encode(c), false) <==> ConfigOk(c)
  {
    EncodedHeaderOk(c);
    EncodedBody(c);
    EncodedValues(c);
    EmptyFrp(Encode(c), Parts(c) + NOTHING);
  }

  lemma EncodedBody(c: Config)
    requires Sized(c) && HeaderOk(Encode(c), false)
    ensures Body(Encode(c), false) == Parts(c) + NOTHING
  {
    EncodedSections(c);
    CutJoin(Parts(c) + NOTHING);
    assert Encode(c)[HEADER_BYTES..] == Join(Parts(c) + NOTHING);
  }

  lemma EncodedValues(c: Config)
    requires Sized(c) && HeaderOk(Encode(c), false) && Body(Encode(c), false) == Parts(c) + NOTHING
    requires !c.mqtt.configured ==> c.mqtt.key == NO_KEY
    ensures Parse(Encode(c), false) == c
  {
    var b := Encode(c);
    assert b[..20] == Numbers(c);
    EncodedNumbers(c, b);
    var p := Parts(c) + NOTHING;
    assert p[0] == c.wifi.ssid && p[1] == c.wifi.password && p[2] == c.mqtt.host && p[3] == c.mqtt.user;
    assert p[4] == c.mqtt.password && p[5] == c.mqtt.ca && (c.mqtt.configured ==> p[6] == c.mqtt.key);
  }

  lemma EncodedHeaderOk(c: Config)
    requires Sized(c) && |Encode(c)| <= MAX_BYTES
    ensures HeaderOk(Encode(c), false)
  {
    var b := Encode(c);
    EncodedSections(c);
    assert b[..20] == Numbers(c);
    EncodedNumbers(c, b);
    CutJoin(Parts(c) + NOTHING);
    assert b[HEADER_BYTES..] == Join(Parts(c) + NOTHING);
    assert forall i :: 20 <= i < 40 ==> b[i] == 0;
  }

  lemma EmptyFrp(b: seq<byte>, parts: seq<seq<byte>>)
    requires HeaderOk(b, false) && Body(b, false) == parts && |parts| == 12
    requires parts[7] == parts[8] == parts[9] == parts[10] == []
    ensures FrpOk(ParseFrp(b, false))
  {
    assert forall i :: 20 <= i < 40 ==> b[i] == b[20..40][i - 20];
  }

  /** Where the live bytes of a blob end. */
  function LiveBytes(b: seq<byte>): nat
    requires |b| >= HEADER_BYTES
  {
    HEADER_BYTES + Sum(Lens(b)[..7])
  }

  /** retire_legacy()'s surgery: clear the FRP flag, the retired header and the
      retired tail. */
  function Surgery(b: seq<byte>): seq<byte>
    requires HEADER_BYTES <= |b| && LiveBytes(b) <= |b|
  {
    b[..5] + [b[5] as int % 4] + b[6..20] + ZeroBytes(20) + b[HEADER_BYTES..LiveBytes(b)]
  }

  lemma ParsedIsSized(b: seq<byte>, legacy: bool)
    requires HeaderOk(b, legacy)
    ensures Sized(Parse(b, legacy))
    ensures forall i :: 0 <= i < 12 ==> |Body(b, legacy)[i]| == Lens(b)[i]
  {
    CutLengths(b[HEADER_BYTES..], Lens(b));
    var p := Body(b, legacy);
    forall i | 0 <= i < 12 ensures |p[i]| == Lens(b)[i] {
      assert Lengths(p)[i] == |p[i]|;
    }
    assert |p[0]| == Lens(b)[0] && |p[1]| == Lens(b)[1] && |p[2]| == Lens(b)[2] && |p[3]| == Lens(b)[3];
    assert |p[4]| == Lens(b)[4] && |p[5]| == Lens(b)[5] && |p[6]| == Lens(b)[6];
  }

  /** The first twenty bytes, one by one. */
  lemma NumbersAre(c: Config, b: seq<byte>)
    requires Sized(c) && |b| >= 20 && c.revision == Get32(b, 8)
    requires b[6] == |c.wifi.ssid| && b[7] == |c.wifi.password| && b[12] == |c.mqtt.host| && b[13] == |c.mqtt.user|
    requires Get16(b, 14) == |c.mqtt.password| && Get16(b, 16) == |c.mqtt.ca| && Get16(b, 18) == c.mqtt.port
    ensures Numbers(c) ==
            [69, 66, 67, 70, 3, Flags(c), b[6], b[7], b[8], b[9], b[10], b[11], b[12], b[13], b[14], b[15], b[16],
             b[17], b[18], b[19]]
  {
    Digits32Inverse(b[8] as int, b[9] as int, b[10] as int, b[11] as int);
  }

  lemma ParsedNumbers(b: seq<byte>, legacy: bool)
    requires HeaderOk(b, legacy) && Sized(Parse(b, legacy))
    requires forall i :: 0 <= i < 12 ==> |Body(b, legacy)[i]| == Lens(b)[i]
    ensures Numbers(Parse(b, legacy)) == b[..5] + [b[5] as int % 4] + b[6..20]
  {
    var c := Parse(b, legacy);
    var p := Body(b, legacy);
    assert |p[0]| == Lens(b)[0] && |p[1]| == Lens(b)[1] && |p[2]| == Lens(b)[2] && |p[3]| == Lens(b)[3];
    assert |p[4]| == Lens(b)[4] && |p[5]| == Lens(b)[5];
    assert Flags(c) == b[5] as int % 4;
    NumbersAre(c, b);
    assert b[6..20] == [b[6], b[7], b[8], b[9], b[10], b[11], b[12], b[13], b[14], b[15], b[16], b[17], b[18], b[19]];
  }

  /** Re-encoding what any accepted blob means is exactly the retirement of it. */
  lemma EncodeParsed(b: seq<byte>, legacy: bool)
    requires HeaderOk(b, legacy)
    ensures Sized(Parse(b, legacy)) && LiveBytes(b) <= |b|
    ensures Encode(Parse(b, legacy)) == Surgery(b)
  {
    ParsedIsSized(b, legacy);
    ParsedNumbers(b, legacy);
    var c := Parse(b, legacy);
    JoinTake(b[HEADER_BYTES..], Lens(b), 7);
    var p := Body(b, legacy);
    assert |p[6]| == Lens(b)[6];
    assert Parts(c) == p[..7];
    assert b[HEADER_BYTES..][..Sum(Lens(b)[..7])] == b[HEADER_BYTES..LiveBytes(b)];
  }

  /** A canonical blob has nothing to retire. */
  lemma CanonicalHasNoTail(b: seq<byte>)
    requires HeaderOk(b, false)
    ensures LiveBytes(b) == |b| && Surgery(b) == b
  {
    var l := Lens(b);
    assert forall i :: 20 <= i < 40 ==> b[i] == b[20..40][i - 20];
    assert !Bit(b[5], 4);
    assert l[7] == 0 && l[8] == 0 && l[9] == 0 && l[10] == 0 && l[11] == 0;
    SumSplit7(l);
    assert b[5] as int % 4 == b[5];
    assert b == b[..5] + [b[5]] + b[6..20] + b[20..40] + b[40..];
    assert b[20..40] == ZeroBytes(20);
  }

  lemma SumSplit7(l: seq<nat>)
    requires |l| == 12 && l[7] == 0 && l[8] == 0 && l[9] == 0 && l[10] == 0 && l[11] == 0
    ensures Sum(l) == Sum(l[..7])
  {
    SumAppend(l[..7], l[7..]);
    assert l == l[..7] + l[7..];
    SumZero(l[7..]);
  }

  lemma {:induction false} SumAppend(a: seq<nat>, b: seq<nat>)
    ensures Sum(a + b) == Sum(a) + Sum(b)
    decreases |a|
  {
    if a == [] {
      assert a + b == b;
    } else {
      assert (a + b)[1..] == a[1..] + b;
      SumAppend(a[1..], b);
    }
  }

  lemma {:induction false} SumZero(l: seq<nat>)
    requires forall i :: 0 <= i < |l| ==> l[i] == 0
    ensures Sum(l) == 0
    decreases |l|
  {
    if l != [] { SumZero(l[1..]); }
  }

  /** Every accepted blob means a valid configuration. */
  lemma AcceptedIsValid(b: seq<byte>, legacy: bool)
    requires Accepts(b, legacy)
    ensures ConfigOk(Parse(b, legacy))
  {
    ParsedIsSized(b, legacy);
  }

  /** The canonical form is unique: an accepted blob re-encodes to itself. */
  lemma EncodeDecode(b: seq<byte>)
    requires Accepts(b, false)
    ensures Sized(Parse(b, false)) && Encode(Parse(b, false)) == b
  {
    EncodeParsed(b, false);
    CanonicalHasNoTail(b);
  }

  lemma DecodeInjective(a: seq<byte>, b: seq<byte>)
    requires Accepts(a, false) && Accepts(b, false) && Parse(a, false) == Parse(b, false)
    ensures a == b
  {
    EncodeDecode(a);
    EncodeDecode(b);
  }

  /** The strict format is the part of the historical one without FRP. */
  lemma CanonicalIsLegacy(b: seq<byte>)
    ensures Accepts(b, false) ==> Accepts(b, true) && Parse(b, true) == Parse(b, false) && !Bit(b[5], 4)
    ensures Accepts(b, true) && !Bit(b[5], 4) ==> Accepts(b, false)
  {
    if Accepts(b, true) && !Bit(b[5], 4) {
      LegacyWithoutFrp(b);
    }
  }

  lemma LegacyWithoutFrp(b: seq<byte>)
    requires Accepts(b, true) && !Bit(b[5], 4)
    ensures Accepts(b, false)
  {
    ParsedIsSized(b, true);
    var p := Body(b, true);
    assert |p[7]| == Lens(b)[7] && |p[8]| == Lens(b)[8] && |p[9]| == Lens(b)[9] && |p[10]| == Lens(b)[10];
    assert b[20] == 0 && b[21] == 0 && b[22] == 0 && b[23] == 0 && b[24] == 0 && b[25] == 0;
    assert b[26] == 0 && b[27] == 0 && b[28] == 0 && b[29] == 0 && b[30] == 0 && b[31] == 0;
    forall i | 0 <= i < 20 ensures b[20..40][i] == 0 {
      if i >= 12 { assert b[20..40][i] == b[32..40][i - 12]; }
    }
    SumSplit7(Lens(b));
    Sum7(Lens(b)[..7]);
    assert |b| <= MAX_BYTES;
  }

  /** Retirement: canonical, same meaning, the identity where nothing is retired. */
  lemma RetireKeepsMeaning(b: seq<byte>)
    requires Accepts(b, true)
    ensures LiveBytes(b) <= |b| && Accepts(Surgery(b), false)
    ensures Parse(Surgery(b), false) == Parse(b, true)
    ensures Accepts(b, false) ==> Surgery(b) == b
  {
    EncodeParsed(b, true);
    AcceptedIsValid(b, true);
    DecodeEncode(Parse(b, true));
    if Accepts(b, false) { CanonicalHasNoTail(b); }
  }
}
