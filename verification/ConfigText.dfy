/** The byte-string validators of config_codec.c: loops over local counters,
    each proved against what the accepted text is. */
module ConfigText {
  import opened Common

  const DOT: byte := 46
  const DASH: byte := 45

  // --------------------------------------------------------------- host names

  predicate Alnum(c: byte) {
    48 <= c <= 57 || 65 <= c <= 90 || 97 <= c <= 122
  }

  /** A DNS label: 1 to 63 letters, digits and inner hyphens. */
  predicate LabelOk(l: seq<byte>) {
    1 <= |l| <= 63 && l[|l| - 1] != DASH && LabelStart(l)
  }

  predicate LabelStart(l: seq<byte>) {
    (forall k :: 0 <= k < |l| ==> Alnum(l[k]) || l[k] == DASH) && (l != [] ==> l[0] != DASH)
  }

  function Split(h: seq<byte>): (labels: seq<seq<byte>>)
    ensures labels != []
  {
    if h == [] then [[]]
    else
      var before := Split(h[..|h| - 1]);
      var c := h[|h| - 1];
      if c == DOT then before + [[]]
      else before[..|before| - 1] + [before[|before| - 1] + [c]]
  }

  predicate HostOk(h: seq<byte>) {
    1 <= |h| <= 253 && forall k :: 0 <= k < |Split(h)| ==> LabelOk(Split(h)[k])
  }

  /** The finished parts agree and the open one only grew. */
  predicate Extends(p: seq<seq<byte>>, q: seq<seq<byte>>) {
    1 <= |p| <= |q| && p[..|p| - 1] == q[..|p| - 1] && p[|p| - 1] <= q[|p| - 1]
  }

  lemma GrowsTwice(p: seq<seq<byte>>, q: seq<seq<byte>>, r: seq<seq<byte>>, c: byte)
    requires p != [] && Extends(q, r)
    requires q == p + [[]] || q == p[..|p| - 1] + [p[|p| - 1] + [c]]
    ensures Extends(p, r)
  {
    var m := |p| - 1;
    assert q[..m] == p[..m] && p[m] <= q[m];
    assert q[..m] == q[..|q| - 1][..m];
    assert r[..m] == r[..|q| - 1][..m];
    if |q| > |p| { assert q[..|q| - 1][m] == r[..|q| - 1][m]; }
  }

  lemma SplitStep(h: seq<byte>, i: nat)
    requires i < |h|
    ensures var p := Split(h[..i]);
            var q := Split(h[..i + 1]);
            if h[i] == DOT then q == p + [[]] else q == p[..|p| - 1] + [p[|p| - 1] + [h[i]]]
  {
    assert h[..i + 1][..i] == h[..i];
  }

  /** Scanning on keeps the finished labels and only extends the open one. */
  lemma {:induction false} SplitGrows(h: seq<byte>, n: nat)
    requires n <= |h|
    ensures Extends(Split(h[..n]), Split(h))
    decreases |h| - n
  {
    if n == |h| {
      assert h[..n] == h;
    } else {
      SplitGrows(h, n + 1);
      SplitStep(h, n);
      GrowsTwice(Split(h[..n]), Split(h[..n + 1]), Split(h), h[n]);
    }
  }

  /** A broken open label stays broken, so the host is rejected for good. */
  lemma OpenLabelMatters(h: seq<byte>, n: nat)
    requires n <= |h| && HostOk(h)
    ensures var p := Split(h[..n]);
            var last := p[|p| - 1];
            LabelStart(last) && |last| <= 63 && forall k :: 0 <= k < |p| - 1 ==> LabelOk(p[k])
  {
    SplitGrows(h, n);
    var p := Split(h[..n]);
    var m := |p| - 1;
    assert LabelOk(Split(h)[m]);
    forall k | 0 <= k < m ensures LabelOk(p[k]) {
      assert p[..m][k] == Split(h)[..m][k];
    }
  }

  /** The open label is what follows the last dot. */
  predicate Scanned(h: seq<byte>, i: nat, run: nat)
    requires i <= |h|
  {
    var p := Split(h[..i]);
    && |p[|p| - 1]| == run && run <= i && run <= 63
    && p[|p| - 1] == h[i - run..i] && LabelStart(p[|p| - 1])
    && forall k :: 0 <= k < |p| - 1 ==> LabelOk(p[k])
  }

  lemma ScanStart(h: seq<byte>)
    ensures Scanned(h, 0, 0)
  {
    assert h[..0] == [];
    assert Split(h[..0]) == [[]];
  }

  lemma ScanDot(h: seq<byte>, i: nat, run: nat)
    requires i < |h| && Scanned(h, i, run) && h[i] == DOT
    ensures 0 < run && h[i - 1] != DASH ==> Scanned(h, i + 1, 0)
    ensures (run == 0 || h[i - 1] == DASH || i + 1 == |h|) ==> !HostOk(h)
  {
    SplitStep(h, i);
    var p := Split(h[..i]);
    var q := Split(h[..i + 1]);
    assert q == p + [[]];
    assert q[|p| - 1] == p[|p| - 1] && q[|q| - 1] == [];
    if i + 1 == |h| { assert h[..i + 1] == h; }
    if HostOk(h) {
      OpenLabelMatters(h, i + 1);
      assert LabelOk(q[|p| - 1]);
    } else {
      DotCloses(h, i, run);
    }
  }

  lemma DotCloses(h: seq<byte>, i: nat, run: nat)
    requires i < |h| && Scanned(h, i, run) && h[i] == DOT
    ensures 0 < run && h[i - 1] != DASH ==> Scanned(h, i + 1, 0)
  {
    SplitStep(h, i);
    var p := Split(h[..i]);
    var q := Split(h[..i + 1]);
    if 0 < run && h[i - 1] != DASH {
      assert p[|p| - 1][run - 1] == h[i - 1];
      forall k | 0 <= k < |q| - 1 ensures LabelOk(q[k]) { assert q[k] == p[k]; }
    }
  }

  lemma ScanChar(h: seq<byte>, i: nat, run: nat)
    requires i < |h| && Scanned(h, i, run) && h[i] != DOT
    ensures var good := (Alnum(h[i]) || (h[i] == DASH && run > 0)) && run < 63;
            (good ==> Scanned(h, i + 1, run + 1)) && (!good ==> !HostOk(h))
  {
    SplitStep(h, i);
    var p := Split(h[..i]);
    var q := Split(h[..i + 1]);
    var last := q[|q| - 1];
    assert last == p[|p| - 1] + [h[i]];
    assert last == h[i - run..i + 1];
    forall k | 0 <= k < |q| - 1 ensures LabelOk(q[k]) { assert q[k] == p[k]; }
    if HostOk(h) { OpenLabelMatters(h, i + 1); }
  }

  lemma ScanEnd(h: seq<byte>, run: nat)
    requires 1 <= |h| <= 253 && Scanned(h, |h|, run)
    ensures HostOk(h) <==> 0 < run && h[|h| - 1] != DASH
  {
    assert h[..|h|] == h;
    var p := Split(h);
    if 0 < run && h[|h| - 1] != DASH {
      assert p[|p| - 1][run - 1] == h[|h| - 1];
      assert LabelOk(p[|p| - 1]);
    }
  }

  /** hostname_valid(). */
  method HostnameValid(host: seq<byte>) returns (ok: bool)
    ensures ok <==> HostOk(host)
  {
    if |host| == 0 || |host| > 253 { return false; }
    var run := 0;
    ScanStart(host);
    for i := 0 to |host|
      invariant 0 <= run && Scanned(host, i, run)
      invariant i == |host| ==> 0 < run && host[|host| - 1] != DASH
    {
      var c := host[i];
      if c == DOT {
        ScanDot(host, i, run);
        if run == 0 || host[i - 1] == DASH || i + 1 == |host| { return false; }
        run := 0;
      } else {
        ScanChar(host, i, run);
        if !(Alnum(c) || (c == DASH && run > 0)) { return false; }
        run := run + 1;
        if run > 63 { return false; }
        if i + 1 == |host| && c == DASH {
          ScanEnd(host, run);
          return false;
        }
      }
    }
    ScanEnd(host, run);
    return true;
  }

  // ------------------------------------------------------- certificates, keys

  predicate MatchesAt(needle: seq<byte>, text: seq<byte>, i: int) {
    0 <= i && i + |needle| <= |text| && text[i..i + |needle|] == needle
  }

  predicate Occurs(needle: seq<byte>, text: seq<byte>) {
    exists i | 0 <= i <= |text| :: MatchesAt(needle, text, i)
  }

  /** contains(). */
  method Contains(text: seq<byte>, needle: seq<byte>) returns (found: bool)
    ensures found <==> Occurs(needle, text)
  {
    var i := 0;
    while i + |needle| <= |text|
      invariant 0 <= i
      invariant forall k :: 0 <= k < i ==> !MatchesAt(needle, text, k)
    {
      if text[i..i + |needle|] == needle {
        assert MatchesAt(needle, text, i);
        return true;
      }
      i := i + 1;
    }
    return false;
  }

  /** "-----BEGIN CERTIFICATE-----" and "-----END CERTIFICATE-----" in ASCII. */
  const CERTIFICATE: seq<byte> := [67, 69, 82, 84, 73, 70, 73, 67, 65, 84, 69]
  const DASHES: seq<byte> := [45, 45, 45, 45, 45]
  const PEM_BEGIN: seq<byte> := DASHES + [66, 69, 71, 73, 78, 32] + CERTIFICATE + DASHES
  const PEM_END: seq<byte> := DASHES + [69, 78, 68, 32] + CERTIFICATE + DASHES

  predicate PemByte(c: byte) {
    c == 10 || c == 13 || c == 9 || 0x20 <= c <= 0x7e
  }

  predicate PemOk(ca: seq<byte>) {
    ca != [] && Occurs(PEM_BEGIN, ca) && Occurs(PEM_END, ca) && forall k :: 0 <= k < |ca| ==> PemByte(ca[k])
  }

  /** pem_valid(). */
  method PemValid(ca: seq<byte>) returns (ok: bool)
    ensures ok <==> PemOk(ca)
  {
    if |ca| == 0 { return false; }
    var b := Contains(ca, PEM_BEGIN);
    var e := Contains(ca, PEM_END);
    if !b || !e { return false; }
    for i := 0 to |ca|
      invariant forall k :: 0 <= k < i ==> PemByte(ca[k])
    {
      var c := ca[i];
      if !(c == 10 || c == 13 || c == 9 || (c >= 0x20 && c <= 0x7e)) { return false; }
    }
    return true;
  }

  predicate AllZero(b: seq<byte>) {
    forall k :: 0 <= k < |b| ==> b[k] == 0
  }

  /** zeros(). */
  method Zeros(b: seq<byte>) returns (ok: bool)
    ensures ok <==> AllZero(b)
  {
    for i := 0 to |b|
      invariant forall k :: 0 <= k < i ==> b[k] == 0
    {
      if b[i] != 0 { return false; }
    }
    return true;
  }

  predicate HexDigit(c: byte) {
    48 <= c <= 57 || 97 <= c <= 102 || 65 <= c <= 70
  }

  /** A WPA secret: 8 to 63 printable ASCII characters or 64 hex digits. */
  predicate SecretOk(p: seq<byte>) {
    8 <= |p| <= 64 && forall k :: 0 <= k < |p| ==> if |p| == 64 then HexDigit(p[k]) else 0x20 <= p[k] <= 0x7e
  }

  method SecretValid(p: seq<byte>) returns (ok: bool)
    ensures ok <==> SecretOk(p)
  {
    if |p| < 8 || |p| > 64 { return false; }
    for i := 0 to |p|
      invariant forall k :: 0 <= k < i ==> if |p| == 64 then HexDigit(p[k]) else 0x20 <= p[k] <= 0x7e
    {
      var c := p[i];
      if |p| == 64 {
        if !((c >= 48 && c <= 57) || (c >= 97 && c <= 102) || (c >= 65 && c <= 70)) { return false; }
      } else if c < 0x20 || c > 0x7e { return false; }
    }
    return true;
  }

  // --------------------------------------------------- fixed C string arrays

  /** A NUL-terminated array whose unused bytes are zero. */
  function Pad(text: seq<byte>, capacity: nat): seq<byte>
    requires |text| < capacity
  {
    text + seq(capacity - |text|, _ => 0)
  }

  /** text_length(): the unique NUL-free text an array holds, if it is padded. */
  method TextLength(a: seq<byte>) returns (length: Option<nat>)
    ensures length.Some? ==>
              && length.value < |a| && a == Pad(a[..length.value], |a|)
              && forall k :: 0 <= k < length.value ==> a[k] != 0
    ensures length.None? ==>
              forall t: seq<byte> :: |t| < |a| && (forall k :: 0 <= k < |t| ==> t[k] != 0) ==> a != Pad(t, |a|)
  {
    var end := 0;
    while end < |a| && a[end] != 0
      invariant 0 <= end <= |a|
      invariant forall k :: 0 <= k < end ==> a[k] != 0
    {
      end := end + 1;
    }
    if end == |a| {
      forall t: seq<byte> | |t| < |a| ensures a != Pad(t, |a|) { assert Pad(t, |a|)[|t|] == 0; }
      return None;
    }
    var rest := Zeros(a[end..]);
    if rest {
      assert forall k :: end <= k < |a| ==> a[k] == a[end..][k - end];
      return Some(end);
    }
    var j :| 0 <= j < |a[end..]| && a[end..][j] != 0;
    forall t: seq<byte> | |t| < |a| && (forall k :: 0 <= k < |t| ==> t[k] != 0) ensures a != Pad(t, |a|) {
      var p := Pad(t, |a|);
      if |t| > end { assert p[end] == t[end]; } else { assert p[end + j] == 0; }
    }
    return None;
  }
}
