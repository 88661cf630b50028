/** config_codec.c: the validators, the cursor-driven encoder, the decoder and
    the in-place retirement of historical blobs. */
module ConfigCodec {
  import opened Common
  import opened Bytes
  import opened ConfigText
  import opened ConfigFormat
  import opened Sections
  import Utf8

  /** Limits the C types already impose on a configuration structure. */
  predicate Typed(c: Config) {
    c.revision <= UINT32_MAX && c.mqtt.port < 65536 && |c.mqtt.key| == KEY_BYTES
  }

  method WifiValuesValid(w: Wifi) returns (ok: bool)
    ensures ok <==> WifiOk(w)
  {
    if !w.configured { return |w.ssid| == 0 && |w.password| == 0; }
    if |w.ssid| == 0 || |w.ssid| > 32 { return false; }
    var text := Utf8.Valid(w.ssid, true);
    if !text { return false; }
    ok := SecretValid(w.password);
  }

  method MqttValuesValid(m: Mqtt) returns (ok: bool)
    requires |m.key| == KEY_BYTES && m.port < 65536
    ensures ok <==> MqttOk(m)
  {
    var blank := Zeros(m.key);
    if !m.configured {
      return |m.host| == 0 && m.port == 0 && |m.user| == 0 && |m.password| == 0 && |m.ca| == 0 && blank;
    }
    var host := HostnameValid(m.host);
    if !host || m.port == 0 || |m.user| == 0 || |m.user| > 128 || |m.password| == 0 || |m.password| > 256
       || |m.ca| == 0 || |m.ca| > 4096 { return false; }
    var user := Utf8.Valid(m.user, false);
    var password := Utf8.Valid(m.password, false);
    if !user || !password || blank { return false; }
    ok := PemValid(m.ca);
  }

  method FrpValuesValid(f: Frp) returns (ok: bool)
    ensures ok <==> FrpOk(f)
  {
    var blank := Zeros(f.key);
    if !f.configured {
      return |f.host| == 0 && f.serverPort == 0 && |f.token| == 0 && |f.ca| == 0 && |f.proxy| == 0
             && f.remotePort == 0 && f.localPort == 0 && blank;
    }
    var host := HostnameValid(f.host);
    if !host || f.serverPort == 0 || |f.token| == 0 || |f.token| > 256 || |f.ca| == 0 || |f.ca| > 2048 { return false; }
    var pem := PemValid(f.ca);
    if !pem || |f.proxy| == 0 || |f.proxy| > 128 || f.remotePort == 0 || f.localPort == 0 || blank { return false; }
    for i := 0 to |f.token|
      invariant forall k :: 0 <= k < i ==> 0x20 < f.token[k] < 0x7f
    {
      if f.token[i] <= 0x20 || f.token[i] >= 0x7f { return false; }
    }
    for i := 0 to |f.proxy|
      invariant forall k :: 0 <= k < i ==> ProxyByte(f.proxy[k])
    {
      var c := f.proxy[i];
      if c <= 0x20 || c >= 0x7f || c == 47 || c == 92 || c == 42 || c == 64 { return false; }
    }
    return true;
  }

  method ConfigValid(c: Config) returns (ok: bool)
    requires Typed(c)
    ensures ok <==> ConfigOk(c)
  {
    ok := WifiValuesValid(c.wifi);
    if ok { ok := MqttValuesValid(c.mqtt); }
  }

  // ------------------------------------------------------------------- encoder

  method Encode(c: Config, out: array<byte>) returns (ok: bool, written: nat)
    requires Typed(c) && out.Length >= MAX_BYTES
    modifies out
    ensures ok <==> ConfigOk(c)
    ensures ok ==> Sized(c) && written <= MAX_BYTES && out[..written] == ConfigFormat.Encode(c)
    ensures !ok ==> out[..] == old(out[..])
  {
    ok := ConfigValid(c);
    if !ok { return false, 0; }
    ValidIsSized(c);
    WriteHeader(c, out);
    written := WriteSections(c, out);
  }

  method WriteHeader(c: Config, out: array<byte>)
    requires Sized(c) && out.Length >= MAX_BYTES
    modifies out
    ensures out[..HEADER_BYTES] == Header(c)
  {
    WriteFlags(c, out);
    WriteLengths(c, out);
    var at := Append(out, 20, ZeroBytes(20));
  }

  /** Magic, version, flags, Wi-Fi lengths and revision. */
  method WriteFlags(c: Config, out: array<byte>)
    requires Sized(c) && out.Length >= MAX_BYTES
    modifies out
    ensures out[..12] == Numbers(c)[..12]
  {
    var r := c.revision;
    var at := Append(out, 0, [69, 66, 67, 70, 3, Flags(c), |c.wifi.ssid|, |c.wifi.password|]);
    at := Append(out, at, [r % 256, r / 256 % 256, r / 65536 % 256, r / 16777216]);
  }

  /** MQTT lengths and port. */
  method WriteLengths(c: Config, out: array<byte>)
    requires Sized(c) && out.Length >= MAX_BYTES && out[..12] == Numbers(c)[..12]
    modifies out
    ensures out[..20] == Numbers(c)
  {
    var m := c.mqtt;
    var at := Append(out, 12, [|m.host|, |m.user|, |m.password| % 256, |m.password| / 256]);
    at := Append(out, at, [|m.ca| % 256, |m.ca| / 256, m.port % 256, m.port / 256]);
  }

  method WriteSections(c: Config, out: array<byte>) returns (written: nat)
    requires Sized(c) && |ConfigFormat.Encode(c)| <= MAX_BYTES <= out.Length && out[..HEADER_BYTES] == Header(c)
    modifies out
    ensures written <= MAX_BYTES && out[..written] == ConfigFormat.Encode(c)
  {
    var parts := Parts(c);
    written := HEADER_BYTES;
    assert parts[..0] == [];
    for i := 0 to 7
      invariant HEADER_BYTES <= written <= MAX_BYTES
      invariant out[..written] == Header(c) + Join(parts[..i])
    {
      assert parts[..i + 1] == parts[..i] + [parts[i]];
      JoinAppend(parts[..i], [parts[i]]);
      JoinOne(parts[i]);
      JoinPrefix(parts, i + 1);
      written := Append(out, written, parts[i]);
    }
    assert parts[..7] == parts;
  }

  lemma JoinOne(p: seq<byte>)
    ensures Join([p]) == p
  {
    var one: seq<seq<byte>> := [p];
    assert one[1..] == [];
  }

  lemma JoinPrefix(parts: seq<seq<byte>>, n: nat)
    requires n <= |parts|
    ensures |Join(parts[..n])| <= |Join(parts)|
  {
    JoinAppend(parts[..n], parts[n..]);
    assert parts == parts[..n] + parts[n..];
  }

  // ------------------------------------------------------------------- decoder

  /** The caller's output structure. */
  class Cell {
    var value: Config

    constructor (c: Config)
      ensures value == c
    {
      value := c;
    }
  }

  /** decode_config(); a failed decode leaves the output unchanged. */
  method DecodeConfig(b: seq<byte>, out: Cell?, legacy: bool) returns (ok: bool)
    modifies out
    ensures ok <==> Accepts(b, legacy)
    ensures out != null && ok ==> out.value == Parse(b, legacy)
    ensures out != null && !ok ==> out.value == old(out.value)
  {
    ok := CheckHeader(b, legacy);
    if !ok { return; }
    ParsedIsSized(b, legacy);
    var c := Parse(b, legacy);
    ok := WifiValuesValid(c.wifi);
    if ok { ok := MqttValuesValid(c.mqtt); }
    if ok { ok := FrpValuesValid(ParseFrp(b, legacy)); }
    if ok && out != null { out.value := c; }
  }

  method CheckHeader(b: seq<byte>, legacy: bool) returns (ok: bool)
    ensures ok <==> HeaderOk(b, legacy)
  {
    if |b| < HEADER_BYTES || |b| > (if legacy then STORAGE_MAX_BYTES else MAX_BYTES) { return false; }
    if b[..5] != [69, 66, 67, 70, 3] || b[5] > (if legacy then 7 else 3) { return false; }
    var retired := Zeros(b[20..40]);
    if !legacy && !retired { return false; }
    if b[6] > 32 || b[7] > 64 || b[12] > 253 || b[13] > 128 || Get16(b, 14) > 256 || Get16(b, 16) > 4096
       || b[20] > 253 || b[21] > 128 || Get16(b, 22) > 256 || Get16(b, 24) > 2048 { return false; }
    var tail := Zeros(b[32..40]);
    return tail && Sum(Lens(b)) == |b| - HEADER_BYTES;
  }

  /** retire_legacy(): in place; failure changes nothing. */
  method RetireLegacy(bytes: array<byte>, length: nat) returns (ok: bool, newLength: nat)
    requires length <= bytes.Length
    modifies bytes
    ensures ok <==> old(Accepts(bytes[..length], true))
    ensures ok ==>
              && newLength <= length && old(Sized(Parse(bytes[..length], true)))
              && bytes[..newLength] == ConfigFormat.Encode(old(Parse(bytes[..length], true)))
              && AllZero(bytes[newLength..length])
    ensures !ok ==> newLength == length && bytes[..] == old(bytes[..])
  {
    ghost var b := bytes[..length];
    ok := DecodeConfig(bytes[..length], null, true);
    if !ok { return false, length; }
    LiveFits(b);
    newLength := HEADER_BYTES + Sum(Lens(bytes[..length])[..7]);
    Strip(bytes, newLength, length);
    RetiredBytes(bytes[..length], b, newLength);
    assert bytes[..length][..newLength] == bytes[..newLength];
  }

  /** Clears the retired flag, the retired lengths and the retired fields. */
  method Strip(bytes: array<byte>, from: nat, to: nat)
    requires HEADER_BYTES <= from <= to <= bytes.Length
    modifies bytes
    ensures forall k :: 0 <= k < bytes.Length ==>
              bytes[k] == if k == 5 then old(bytes[5]) as int % 4
                          else if 20 <= k < 40 || from <= k < to then 0 else old(bytes[k])
  {
    bytes[5] := bytes[5] as int % 4;
    Wipe(bytes, 20, 40);
    Wipe(bytes, from, to);
  }

  method Wipe(bytes: array<byte>, from: nat, to: nat)
    requires from <= to <= bytes.Length
    modifies bytes
    ensures forall k :: 0 <= k < bytes.Length ==> bytes[k] == if from <= k < to then 0 else old(bytes[k])
  {
    for i := from to to
      invariant forall k :: 0 <= k < bytes.Length ==> bytes[k] == if from <= k < i then 0 else old(bytes[k])
    {
      bytes[i] := 0;
    }
  }

  lemma LiveFits(b: seq<byte>)
    requires HeaderOk(b, true)
    ensures HEADER_BYTES <= LiveBytes(b) <= |b|
  {
    EncodeParsed(b, true);
  }

  /** The byte-wise result of the two wipes re-encodes what the blob meant. */
  lemma RetiredBytes(now: seq<byte>, was: seq<byte>, n: nat)
    requires HeaderOk(was, true) && |was| == |now| && n == LiveBytes(was) <= |was|
    requires forall k :: 0 <= k < |now| ==>
               now[k] == if 20 <= k < 40 || n <= k then 0 else if k == 5 then was[5] as int % 4 else was[k]
    ensures Sized(Parse(was, true)) && now[..n] == ConfigFormat.Encode(Parse(was, true)) && AllZero(now[n..])
  {
    EncodeParsed(was, true);
    SurgeryBytes(now, was, n);
  }

  lemma SurgeryBytes(now: seq<byte>, was: seq<byte>, n: nat)
    requires HEADER_BYTES <= |was| == |now| && n == LiveBytes(was) <= |was|
    requires forall k :: 0 <= k < |now| ==>
               now[k] == if 20 <= k < 40 || n <= k then 0 else if k == 5 then was[5] as int % 4 else was[k]
    ensures now[..n] == Surgery(was)
  {
    var s := Surgery(was);
    assert |s| == n;
    assert s[..40] == was[..5] + [was[5] as int % 4] + was[6..20] + ZeroBytes(20);
    assert s[40..] == was[40..n];
    forall k | 0 <= k < n ensures now[k] == s[k] {
      if k < 40 { assert s[k] == s[..40][k]; } else { assert s[k] == s[40..][k - 40]; }
    }
  }
}
