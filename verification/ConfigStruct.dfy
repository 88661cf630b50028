/** esp_base_remote_config_t: fixed character arrays, each a NUL-terminated text
    whose unused bytes are zero. */
module ConfigStruct {
  import opened Common
  import opened ConfigText
  import opened ConfigFormat
  import Codec = ConfigCodec
  import Utf8

  datatype Struct = Struct(
    revision: u32, wifiConfigured: bool, ssid: seq<byte>, secret: seq<byte>,
    mqttConfigured: bool, host: seq<byte>, port: nat, user: seq<byte>, password: seq<byte>, ca: seq<byte>, key: seq<byte>)

  /** The sizes the C declaration fixes. */
  predicate Laid(s: Struct) {
    && |s.ssid| == 33 && |s.secret| == 65 && |s.host| == 254 && |s.user| == 129 && |s.password| == 257 && |s.ca| == 4097
    && |s.key| == KEY_BYTES && s.port < 65536
  }

  predicate NulFree(t: seq<byte>) {
    forall k :: 0 <= k < |t| ==> t[k] != 0
  }

  /** The array holds exactly this text. */
  predicate Contains(a: seq<byte>, t: seq<byte>) {
    |t| < |a| && NulFree(t) && a == Pad(t, |a|)
  }

  lemma ContainsOne(a: seq<byte>, t: seq<byte>, u: seq<byte>)
    requires Contains(a, t) && Contains(a, u)
    ensures t == u
  {
    assert a[|t|] == 0 && a[|u|] == 0;
    assert t == a[..|t|] && u == a[..|u|];
  }

  /** The structure holds exactly this configuration. */
  predicate Holds(s: Struct, c: Config) {
    && s.revision == c.revision && s.wifiConfigured == c.wifi.configured && s.mqttConfigured == c.mqtt.configured
    && s.port == c.mqtt.port && s.key == c.mqtt.key
    && Contains(s.ssid, c.wifi.ssid) && Contains(s.secret, c.wifi.password) && Contains(s.host, c.mqtt.host)
    && Contains(s.user, c.mqtt.user) && Contains(s.password, c.mqtt.password) && Contains(s.ca, c.mqtt.ca)
  }

  lemma HoldsOne(s: Struct, c: Config, d: Config)
    requires Holds(s, c) && Holds(s, d)
    ensures c == d
  {
    ContainsOne(s.ssid, c.wifi.ssid, d.wifi.ssid);
    ContainsOne(s.secret, c.wifi.password, d.wifi.password);
    ContainsOne(s.host, c.mqtt.host, d.mqtt.host);
    ContainsOne(s.user, c.mqtt.user, d.mqtt.user);
    ContainsOne(s.password, c.mqtt.password, d.mqtt.password);
    ContainsOne(s.ca, c.mqtt.ca, d.mqtt.ca);
  }

  // ------------------------------------------------- valid texts have no NUL

  lemma {:induction false} EncodedNulFree(cps: seq<nat>, ssid: bool)
    requires Utf8.AllAllowed(cps, ssid)
    ensures NulFree(Utf8.EncodeAll(cps))
    decreases |cps|
  {
    if cps != [] {
      assert Utf8.Allowed(cps[0], ssid);
      EncodedNulFree(cps[1..], ssid);
      assert NulFree(Utf8.EncodeOne(cps[0]));
    }
  }

  lemma TextNulFree(t: seq<byte>, ssid: bool)
    requires Utf8.Text(t, ssid)
    ensures NulFree(t)
  {
    var cps: seq<nat> :| Utf8.AllAllowed(cps, ssid) && Utf8.EncodeAll(cps) == t;
    EncodedNulFree(cps, ssid);
  }

  function Last(labels: seq<seq<byte>>): seq<byte>
    requires labels != []
  {
    labels[|labels| - 1]
  }

  lemma HostNulFree(h: seq<byte>)
    requires HostOk(h)
    ensures NulFree(h)
  {
    forall k | 0 <= k < |h| ensures h[k] != 0 {
      OpenLabelMatters(h, k + 1);
      SplitStep(h, k);
      var last := Last(Split(h[..k + 1]));
      if h[k] != DOT { assert last[|last| - 1] == h[k]; }
    }
  }

  lemma WifiNulFree(w: Wifi)
    requires WifiOk(w)
    ensures NulFree(w.ssid) && NulFree(w.password)
  {
    if w.configured { TextNulFree(w.ssid, true); }
  }

  lemma MqttNulFree(m: Mqtt)
    requires MqttOk(m)
    ensures NulFree(m.host) && NulFree(m.user) && NulFree(m.password) && NulFree(m.ca)
  {
    if m.configured {
      HostNulFree(m.host);
      TextNulFree(m.user, false);
      TextNulFree(m.password, false);
    }
  }

  // ------------------------------------------------------------- the structure

  /** The structure of a configuration whose texts fit. */
  function StructOf(c: Config): Struct
    requires Sized(c)
  {
    Struct(c.revision, c.wifi.configured, Pad(c.wifi.ssid, 33), Pad(c.wifi.password, 65),
           c.mqtt.configured, Pad(c.mqtt.host, 254), c.mqtt.port, Pad(c.mqtt.user, 129), Pad(c.mqtt.password, 257),
           Pad(c.mqtt.ca, 4097), c.mqtt.key)
  }

  /** Every valid configuration has its structure, and only one value is in it. */
  lemma ValidHasStruct(c: Config)
    requires ConfigOk(c)
    ensures Sized(c) && Laid(StructOf(c)) && Holds(StructOf(c), c)
    ensures forall d :: Holds(StructOf(c), d) ==> d == c
  {
    ValidIsSized(c);
    WifiNulFree(c.wifi);
    MqttNulFree(c.mqtt);
    forall d | Holds(StructOf(c), d) ensures d == c { HoldsOne(StructOf(c), d, c); }
  }

  /** text_length() as a text: the one the array holds, if it holds one. */
  method TextOf(a: seq<byte>) returns (t: Option<seq<byte>>)
    ensures t.Some? ==> Contains(a, t.value)
    ensures t.None? ==> forall u :: !Contains(a, u)
  {
    var length := TextLength(a);
    if length.None? { return None; }
    return Some(a[..length.value]);
  }

  /** ebase_config_valid(): accepts exactly the structures of valid configurations,
      so a text that is not terminated or not padded with zeros is refused. */
  method StructValid(s: Struct) returns (ok: bool, c: Config)
    requires Laid(s)
    ensures ok <==> exists v :: Holds(s, v) && ConfigOk(v)
    ensures ok ==> Holds(s, c) && ConfigOk(c)
  {
    c := DEFAULT;
    var ssid := TextOf(s.ssid);
    var secret := TextOf(s.secret);
    if ssid.None? || secret.None? { return false, c; }
    var host := TextOf(s.host);
    var user := TextOf(s.user);
    var password := TextOf(s.password);
    var ca := TextOf(s.ca);
    if host.None? || user.None? || password.None? || ca.None? { return false, c; }
    c := Config(s.revision, Wifi(s.wifiConfigured, ssid.value, secret.value),
                Mqtt(s.mqttConfigured, host.value, s.port, user.value, password.value, ca.value, s.key));
    assert Holds(s, c);
    ok := Codec.ConfigValid(c);
    if v :| Holds(s, v) && ConfigOk(v) { HoldsOne(s, v, c); }
  }
}
