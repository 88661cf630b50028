/** The offline converters from the v1 and v2 configuration blobs to v3. Their
    value rules are the host tool's own, stated over code points and label
    strings, and are proved to be the firmware's. */
module ConfigMigration {
  import opened Common
  import opened Bytes
  import opened ConfigText
  import opened ConfigFormat
  import opened Sections
  import Utf8

  // ------------------------------------------------------ the host tool's rules

  /** Python's s.decode("utf-8"). */
  ghost predicate Decodes(s: seq<byte>, cps: seq<nat>) {
    (forall i :: 0 <= i < |cps| ==> Utf8.Scalar(cps[i])) && Utf8.EncodeAll(cps) == s
  }

  predicate SsidChar(c: nat) {
    c >= 0x20 && c != 0x7f
  }

  predicate CredentialChar(c: nat) {
    !(c < 32 || 127 <= c <= 159 || 0xfdd0 <= c <= 0xfdef || c % 0x10000 >= 0xfffe)
  }

  ghost predicate ToolSsid(s: seq<byte>) {
    1 <= |s| <= 32 && exists cps: seq<nat> :: Decodes(s, cps) && forall i :: 0 <= i < |cps| ==> SsidChar(cps[i])
  }

  ghost predicate ToolCredential(s: seq<byte>, limit: nat) {
    1 <= |s| <= limit && exists cps: seq<nat> :: Decodes(s, cps) && forall i :: 0 <= i < |cps| ==> CredentialChar(cps[i])
  }

  predicate ToolSecret(p: seq<byte>) {
    || (8 <= |p| <= 63 && forall k :: 0 <= k < |p| ==> 32 <= p[k] <= 126)
    || (|p| == 64 && forall k :: 0 <= k < |p| ==> HexDigit(p[k]))
  }

  predicate ToolLabel(l: seq<byte>) {
    && 1 <= |l| <= 63 && Alnum(l[0]) && Alnum(l[|l| - 1])
    && forall k :: 0 <= k < |l| ==> Alnum(l[k]) || l[k] == DASH
  }

  predicate ToolHost(h: seq<byte>) {
    && 1 <= |h| <= 253 && (forall k :: 0 <= k < |h| ==> h[k] < 128)
    && forall k :: 0 <= k < |Split(h)| ==> ToolLabel(Split(h)[k])
  }

  predicate ToolCa(ca: seq<byte>) {
    1 <= |ca| <= 4096 && (forall k :: 0 <= k < |ca| ==> PemByte(ca[k])) && Occurs(PEM_BEGIN, ca) && Occurs(PEM_END, ca)
  }

  /** Some hexadecimal digit of the key is not '0'. */
  predicate ToolKey(key: seq<byte>) {
    |key| == KEY_BYTES && exists k :: 0 <= k < |key| && (key[k] as int / 16 != 0 || key[k] as int % 16 != 0)
  }

  ghost predicate ToolWifi(w: Wifi) {
    if w.configured then ToolSsid(w.ssid) && ToolSecret(w.password) else w.ssid == [] && w.password == []
  }

  ghost predicate ToolMqtt(m: Mqtt) {
    if m.configured then
      && ToolHost(m.host) && 1 <= m.port <= 65535 && ToolCredential(m.user, 128)
      && ToolCredential(m.password, 256) && ToolCa(m.ca) && ToolKey(m.key)
    else m.host == [] && m.user == [] && m.password == [] && m.ca == [] && m.port == 0 && m.key == NO_KEY
  }

  /** What validate_v2_config() and validate_configuration() demand of the values. */
  ghost predicate ToolConfig(c: Config) {
    ToolWifi(c.wifi) && ToolMqtt(c.mqtt)
  }

  lemma SsidRule(s: seq<byte>)
    ensures ToolSsid(s) <==> 1 <= |s| <= 32 && Utf8.Text(s, true)
  {
    if ToolSsid(s) {
      var cps: seq<nat> :| Decodes(s, cps) && forall i :: 0 <= i < |cps| ==> SsidChar(cps[i]);
      assert Utf8.AllAllowed(cps, true);
    }
    if 1 <= |s| <= 32 && Utf8.Text(s, true) {
      var cps: seq<nat> :| Utf8.AllAllowed(cps, true) && Utf8.EncodeAll(cps) == s;
      assert Decodes(s, cps);
    }
  }

  lemma CredentialRule(s: seq<byte>, limit: nat)
    ensures ToolCredential(s, limit) <==> 1 <= |s| <= limit && Utf8.Text(s, false)
  {
    if ToolCredential(s, limit) {
      var cps: seq<nat> :| Decodes(s, cps) && forall i :: 0 <= i < |cps| ==> CredentialChar(cps[i]);
      assert Utf8.AllAllowed(cps, false);
    }
    if 1 <= |s| <= limit && Utf8.Text(s, false) {
      var cps: seq<nat> :| Utf8.AllAllowed(cps, false) && Utf8.EncodeAll(cps) == s;
      assert Decodes(s, cps);
    }
  }

  lemma HostRule(h: seq<byte>)
    ensures ToolHost(h) <==> HostOk(h)
  {
    if HostOk(h) {
      forall i | 0 <= i < |h| ensures h[i] < 128 {
        OpenLabelMatters(h, i + 1);
        SplitStep(h, i);
        var q := Split(h[..i + 1]);
        var last := q[|q| - 1];
        assert h[i] != DOT ==> last[|last| - 1] == h[i];
      }
    }
  }

  lemma KeyRule(key: seq<byte>)
    requires |key| == KEY_BYTES
    ensures ToolKey(key) <==> !AllZero(key)
  {
  }

  lemma WifiRule(w: Wifi)
    ensures ToolWifi(w) <==> WifiOk(w)
  {
    SsidRule(w.ssid);
  }

  lemma MqttRule(m: Mqtt)
    requires m.port < 65536 && |m.key| == KEY_BYTES && (!m.configured ==> m.key == NO_KEY)
    ensures ToolMqtt(m) <==> MqttOk(m)
  {
    if m.configured {
      CredentialRule(m.user, 128);
      CredentialRule(m.password, 256);
      HostRule(m.host);
      KeyRule(m.key);
      assert ToolCa(m.ca) <==> |m.ca| <= 4096 && PemOk(m.ca);
    }
  }

  /** The tool and the firmware admit the same values. */
  lemma ToolRulesAreFirmwareRules(c: Config)
    requires c.revision <= UINT32_MAX && c.mqtt.port < 65536 && |c.mqtt.key| == KEY_BYTES
    requires !c.mqtt.configured ==> c.mqtt.key == NO_KEY
    ensures ToolConfig(c) <==> ConfigOk(c)
  {
    WifiRule(c.wifi);
    MqttRule(c.mqtt);
  }

  // ---------------------------------------------------------------- version one

  const NO_MQTT := Mqtt(false, [], 0, [], [], [], NO_KEY)

  predicate V1Framed(b: seq<byte>) {
    && |b| == 112 && b[..5] == [69, 66, 67, 70, 1] && b[5] <= 1 && b[6] <= 32 && b[7] <= 64
    && AllZero(b[12..16]) && AllZero(b[16 + b[6] as int..48]) && AllZero(b[48 + b[7] as int..112])
  }

  function V1Values(b: seq<byte>): Config
    requires V1Framed(b)
  {
    Config(Get32(b, 8), Wifi(b[5] == 1, b[16..16 + b[6] as int], b[48..48 + b[7] as int]), NO_MQTT)
  }

  /** validate_v1_config(). */
  ghost predicate V1Ok(b: seq<byte>) {
    V1Framed(b) && ToolConfig(V1Values(b))
  }

  function V1Head(b: seq<byte>): seq<byte>
    requires V1Framed(b)
  {
    [69, 66, 67, 70, 3, b[5]] + b[6..8] + b[8..12] + ZeroBytes(28)
  }

  function Rebuilt(b: seq<byte>): seq<byte>
    requires V1Framed(b)
  {
    V1Head(b) + b[16..16 + b[6] as int] + b[48..48 + b[7] as int]
  }

  /** convert_v1_wifi_only(): None is the raised error. */
  ghost function ConvertV1(b: seq<byte>): Option<seq<byte>> {
    if V1Ok(b) then Some(Rebuilt(b)) else None
  }

  lemma V1Header(b: seq<byte>)
    requires V1Framed(b)
    ensures Sized(V1Values(b))
    ensures Header(V1Values(b)) == V1Head(b)
  {
    var c := V1Values(b);
    assert |c.wifi.ssid| == b[6] && |c.wifi.password| == b[7] && Flags(c) == b[5] as int;
    V1Numbers(c, b[5], b[8], b[9], b[10], b[11]);
    assert b[6..8] == [b[6], b[7]];
    assert b[8..12] == [b[8], b[9], b[10], b[11]];
    assert ZeroBytes(8) + ZeroBytes(20) == ZeroBytes(28);
    assert [69, 66, 67, 70, 3, b[5]] + b[6..8] + b[8..12]
        == [69, 66, 67, 70, 3, b[5], b[6], b[7], b[8], b[9], b[10], b[11]];
  }

  lemma V1Numbers(c: Config, flags: byte, r0: byte, r1: byte, r2: byte, r3: byte)
    requires c.revision == r0 as int + 256 * r1 as int + 65536 * r2 as int + 16777216 * r3 as int
    requires c.mqtt == NO_MQTT && Sized(c) && Flags(c) == flags as int
    ensures Numbers(c) == [69, 66, 67, 70, 3, flags, |c.wifi.ssid|, |c.wifi.password|, r0, r1, r2, r3] + ZeroBytes(8)
  {
    Digits32Inverse(r0 as int, r1 as int, r2 as int, r3 as int);
  }

  /** The tool admits a framed v1 blob exactly when the firmware reads its
      conversion, and then with the same revision and Wi-Fi values and no MQTT. */
  lemma V1Preserved(b: seq<byte>)
    requires V1Framed(b)
    ensures V1Ok(b) <==> Accepts(Rebuilt(b), false)
    ensures V1Ok(b) ==>
              && ConvertV1(b) == Some(Rebuilt(b))
              && Parse(Rebuilt(b), false) == V1Values(b)
  {
    var c := V1Values(b);
    V1Encoding(b);
    ToolRulesAreFirmwareRules(c);
    EncodingAcceptedIffValid(c);
    if V1Ok(b) { DecodeEncode(c); }
  }

  lemma V1Encoding(b: seq<byte>)
    requires V1Framed(b)
    ensures Sized(V1Values(b)) && Rebuilt(b) == Encode(V1Values(b)) && |Rebuilt(b)| <= MAX_BYTES
  {
    V1Header(b);
    var c := V1Values(b);
    JoinV1(c);
    assert V1Head(b) + (c.wifi.ssid + c.wifi.password) == V1Head(b) + c.wifi.ssid + c.wifi.password;
  }

  lemma JoinV1(c: Config)
    requires c.mqtt == NO_MQTT
    ensures Join(Parts(c)) == c.wifi.ssid + c.wifi.password
  {
    var p := Parts(c);
    JoinEmpty(p[2..]);
    assert p[1..][1..] == p[2..];
    assert Join(p[1..]) == c.wifi.password;
  }

  /** A device without a stored blob migrates to the default configuration. */
  lemma MissingBlobMigratesToDefault()
    ensures var b: seq<byte> := [69, 66, 67, 70, 1] + ZeroBytes(107);
            ConvertV1(b).Some? && Accepts(ConvertV1(b).value, false) && Parse(ConvertV1(b).value, false) == DEFAULT
  {
    var b: seq<byte> := [69, 66, 67, 70, 1] + ZeroBytes(107);
    assert b[..5] == [69, 66, 67, 70, 1];
    assert forall i :: 5 <= i < 112 ==> b[i] == 0;
    V1Preserved(b);
  }

  // ---------------------------------------------------------------- version two

  function V2Lens(b: seq<byte>): (l: seq<nat>)
    requires |b| >= 24
    ensures |l| == 7
  {
    [b[6], b[7], b[12], b[13], Get16(b, 14), Get16(b, 16), if Bit(b[5], 2) then KEY_BYTES else 0]
  }

  predicate V2Magic(b: seq<byte>) {
    24 <= |b| && b[..5] == [69, 66, 67, 70, 2] && AllZero(b[20..24])
  }

  predicate V2Framed(b: seq<byte>) {
    && V2Magic(b) && |b| <= 4885 && b[5] <= 3
    && b[6] <= 32 && b[7] <= 64 && b[12] <= 253 && b[13] <= 128 && Get16(b, 14) <= 256 && Get16(b, 16) <= 4096
    && |b| == 24 + Sum(V2Lens(b))
  }

  /** The values the tool cuts out of the blob with its moving cursor. */
  function V2Values(b: seq<byte>): Config
    requires V2Framed(b)
  {
    var p := Cut(b[24..], V2Lens(b));
    Config(Get32(b, 8), Wifi(Bit(b[5], 1), p[0], p[1]),
           Mqtt(Bit(b[5], 2), p[2], Get16(b, 18), p[3], p[4], p[5], if Bit(b[5], 2) then p[6] else NO_KEY))
  }

  /** validate_v2_config(). */
  ghost predicate V2Ok(b: seq<byte>) {
    V2Framed(b) && ToolConfig(V2Values(b))
  }

  function Upgraded(b: seq<byte>): seq<byte>
    requires 24 <= |b|
  {
    b[..20][4 := 3] + ZeroBytes(20) + b[24..]
  }

  /** convert_v2_preserving_mqtt(): None is the raised error. */
  ghost function ConvertV2(b: seq<byte>): Option<seq<byte>> {
    if V2Ok(b) then Some(Upgraded(b)) else None
  }

  lemma UpgradedBytes(b: seq<byte>)
    requires 24 <= |b|
    ensures var u := Upgraded(b);
            && |u| == |b| + 16 && u[4] == 3 && u[40..] == b[24..]
            && (forall i :: 0 <= i < 20 && i != 4 ==> u[i] == b[i])
            && (forall i :: 20 <= i < 40 ==> u[i] == 0)
  {
  }

  lemma UpgradedLens(b: seq<byte>)
    requires 24 <= |b|
    ensures Lens(Upgraded(b)) == V2Lens(b) + [0, 0, 0, 0, if Bit(b[5], 4) then KEY_BYTES else 0]
    ensures !Bit(b[5], 4) ==> Sum(Lens(Upgraded(b))) == Sum(V2Lens(b))
  {
    UpgradedBytes(b);
    if !Bit(b[5], 4) {
      SumSplit7(Lens(Upgraded(b)));
      assert Lens(Upgraded(b))[..7] == V2Lens(b);
    }
  }

  /** Framing survives the conversion, both ways. */
  lemma FramingAgrees(b: seq<byte>)
    requires V2Magic(b)
    ensures V2Framed(b) <==> HeaderOk(Upgraded(b), false)
  {
    UpgradedBytes(b);
    UpgradedLens(b);
    var u := Upgraded(b);
    assert u[..5] == [69, 66, 67, 70, 3] by {
      assert forall i :: 0 <= i < 4 ==> u[i] == b[..5][i];
    }
    assert u[14] == b[14] && u[15] == b[15] && u[16] == b[16] && u[17] == b[17];
    assert Get16(u, 14) == Get16(b, 14) && Get16(u, 16) == Get16(b, 16) && Get16(u, 22) == 0 && Get16(u, 24) == 0;
  }

  /** Five empty sections after the last one change nothing. */
  lemma CutPadded(s: seq<byte>, lens: seq<nat>)
    requires Sum(lens) == |s|
    ensures Sum(lens + [0, 0, 0, 0, 0]) == |s|
    ensures Cut(s, lens + [0, 0, 0, 0, 0]) == Cut(s, lens) + NOTHING
  {
    var p := Cut(s, lens);
    JoinCut(s, lens);
    CutLengths(s, lens);
    JoinAppend(p, NOTHING);
    JoinEmpty(NOTHING);
    CutJoin(p + NOTHING);
    assert Lengths(p + NOTHING) == Lengths(p) + [0, 0, 0, 0, 0];
    assert Join(p + NOTHING) == s;
  }

  lemma ValuesAgree(b: seq<byte>)
    requires V2Framed(b) && HeaderOk(Upgraded(b), false)
    ensures Parse(Upgraded(b), false) == V2Values(b)
    ensures FrpOk(ParseFrp(Upgraded(b), false))
  {
    UpgradedBytes(b);
    UpgradedLens(b);
    var u := Upgraded(b);
    var p := Cut(b[24..], V2Lens(b));
    CutPadded(b[24..], V2Lens(b));
    assert Lens(u) == V2Lens(b) + [0, 0, 0, 0, 0];
    assert Body(u, false) == p + NOTHING;
    EmptyFrp(u, p + NOTHING);
    assert u[18] == b[18] && u[19] == b[19] && u[8] == b[8] && u[9] == b[9] && u[10] == b[10] && u[11] == b[11];
  }

  /** The tool admits a v2 blob exactly when the firmware reads its conversion,
      and then both see the same values. */
  lemma V2Preserved(b: seq<byte>)
    requires V2Magic(b)
    ensures V2Ok(b) <==> Accepts(Upgraded(b), false)
    ensures V2Ok(b) ==>
              && ConvertV2(b) == Some(Upgraded(b))
              && Parse(Upgraded(b), false) == V2Values(b)
  {
    FramingAgrees(b);
    if V2Framed(b) {
      ValuesAgree(b);
      ParsedIsSized(Upgraded(b), false);
      ToolRulesAreFirmwareRules(V2Values(b));
    }
  }
}
