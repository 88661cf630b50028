/** What a line reader must deliver: the stream split at LF, each line judged on
    its own. */
module LineSpec {
  import opened Common

  const LF: byte := 10
  const LINE_LIMIT: nat := 9216

  datatype Delivery = Bad | Line(bytes: seq<byte>)

  /** Allocation outcomes by stream position. `buffer(i)`: the line buffer cannot
      grow at byte i. `reader(i)`: no reader can be allocated for a line that
      starts at byte i. */
  datatype Failures = Failures(buffer: nat -> bool, reader: nat -> bool)

  // ------------------------------------------------------------ buffer capacity

  /** The first of 64, 128, ... that exceeds n. */
  function Fit(c: nat, n: nat): (r: nat)
    requires c > 0
    ensures n < r && c <= r
    decreases if n < c then 0 else n - c + 1
  {
    if n < c then c else Fit(2 * c, n)
  }

  /** The capacity held for n line bytes and their terminator. */
  function Room(n: nat): nat {
    if n == 0 then 0 else Min(Fit(64, n), LINE_LIMIT + 1)
  }

  /** Storing the next byte after n others needs a larger buffer. */
  predicate Grows(n: nat) {
    n + 1 >= Room(n)
  }

  lemma {:induction false} FitStep(c: nat, n: nat)
    requires c > 0
    ensures Fit(c, n + 1) == if n + 1 < Fit(c, n) then Fit(c, n) else 2 * Fit(c, n)
    decreases if n < c then 0 else n - c + 1
  {
    if n >= c {
      FitStep(2 * c, n);
    } else if n + 1 == c {
      assert Fit(2 * c, n + 1) == 2 * c;
    }
  }

  /** The doubling policy of the source keeps exactly this capacity. */
  lemma RoomStep(n: nat)
    requires n < LINE_LIMIT
    ensures Room(n + 1) == if !Grows(n) then Room(n) else if n == 0 then 64 else Min(2 * Room(n), LINE_LIMIT + 1)
  {
    FitStep(64, n);
    assert Fit(64, 0) == 64;
  }

  // ------------------------------------------------------------- split at LF

  /** Why a line, whose first byte is at stream position p, is refused at its byte k. */
  predicate Breaks(line: seq<byte>, k: nat, p: nat, f: Failures)
    requires k < |line|
  {
    line[k] == 0 || k == LINE_LIMIT || (Grows(k) && f.buffer(p + k)) || (k == 0 && f.reader(p))
  }

  predicate Broken(line: seq<byte>, p: nat, f: Failures) {
    exists k: nat | k < |line| :: Breaks(line, k, p, f)
  }

  /** One line: refused once, delivered exactly, or empty and silent. */
  function Judge(line: seq<byte>, p: nat, f: Failures): seq<Delivery> {
    if Broken(line, p, f) then [Bad] else if line == [] then [] else [Line(line)]
  }

  /** Where the line that is unfinished after n bytes starts. */
  function Start(s: seq<byte>, n: nat): (p: nat)
    requires n <= |s|
    ensures p <= n
  {
    if n == 0 || s[n - 1] == LF then n else Start(s, n - 1)
  }

  function Open(s: seq<byte>, n: nat): seq<byte>
    requires n <= |s|
  {
    s[Start(s, n)..n]
  }

  /** Everything delivered for the first n bytes: each LF ends and judges its line. */
  function Deliveries(s: seq<byte>, n: nat, f: Failures): seq<Delivery>
    requires n <= |s|
  {
    if n == 0 then []
    else
      Deliveries(s, n - 1, f) + if s[n - 1] == LF then Judge(Open(s, n - 1), Start(s, n - 1), f) else []
  }

  /** A further complete line adds its own verdict, and nothing else. */
  lemma LineByLine(s: seq<byte>, a: nat, b: nat, f: Failures)
    requires a <= b < |s| && Start(s, a) == a && s[b] == LF && forall k :: a <= k < b ==> s[k] != LF
    ensures Deliveries(s, b + 1, f) == Deliveries(s, a, f) + Judge(s[a..b], a, f) && Start(s, b + 1) == b + 1
  {
    OpenGrows(s, a, b, f);
  }

  lemma {:induction false} OpenGrows(s: seq<byte>, a: nat, b: nat, f: Failures)
    requires a <= b <= |s| && Start(s, a) == a && forall k :: a <= k < b ==> s[k] != LF
    ensures Start(s, b) == a && Deliveries(s, b, f) == Deliveries(s, a, f)
    decreases b
  {
    if a < b { OpenGrows(s, a, b - 1, f); }
  }

  // --------------------------------------------------------- one byte at a time

  /** What a reader remembers of the unfinished line. */
  datatype Partial = Collected(line: seq<byte>) | Refused

  function StepPartial(l: Partial, c: byte, noBuffer: bool, noReader: bool): Partial {
    if c == LF then Collected([])
    else if l.Refused? || c == 0 || |l.line| == LINE_LIMIT || (Grows(|l.line|) && noBuffer) || (l.line == [] && noReader)
    then Refused
    else Collected(l.line + [c])
  }

  function StepDeliveries(l: Partial, c: byte): seq<Delivery> {
    if c != LF then [] else if l.Refused? then [Bad] else if l.line == [] then [] else [Line(l.line)]
  }

  /** What a reader remembers after n bytes of a stream. */
  function Remembered(s: seq<byte>, n: nat, f: Failures): Partial
    requires n <= |s|
  {
    if Broken(Open(s, n), Start(s, n), f) then Refused else Collected(Open(s, n))
  }

  /** Reading byte by byte is splitting at LF. */
  lemma StepIsSplit(s: seq<byte>, n: nat, f: Failures)
    requires n < |s|
    ensures var l := Remembered(s, n, f);
            && Remembered(s, n + 1, f) == StepPartial(l, s[n], f.buffer(n), f.reader(n))
            && Deliveries(s, n + 1, f) == Deliveries(s, n, f) + StepDeliveries(l, s[n])
  {
    if s[n] != LF {
      var p, line := Start(s, n), Open(s, n);
      assert Open(s, n + 1) == line + [s[n]];
      BrokenGrows(line, s[n], p, f);
    }
  }

  lemma BrokenGrows(line: seq<byte>, c: byte, p: nat, f: Failures)
    ensures Broken(line + [c], p, f) <==> Broken(line, p, f) || Breaks(line + [c], |line|, p, f)
  {
    var longer := line + [c];
    if Broken(line, p, f) {
      var k: nat :| k < |line| && Breaks(line, k, p, f);
      assert Breaks(longer, k, p, f);
    }
    if Broken(longer, p, f) {
      var k: nat :| k < |longer| && Breaks(longer, k, p, f);
      if k < |line| { assert Breaks(line, k, p, f); }
    }
  }

  /** What a reader remembers after the first n bytes of a chunk that starts at
      stream position p. */
  function FeedPartial(l: Partial, chunk: seq<byte>, n: nat, p: nat, f: Failures): Partial
    requires n <= |chunk|
  {
    if n == 0 then l
    else StepPartial(FeedPartial(l, chunk, n - 1, p, f), chunk[n - 1], f.buffer(p + n - 1), f.reader(p + n - 1))
  }

  /** What it delivers meanwhile. */
  function FeedDeliveries(l: Partial, chunk: seq<byte>, n: nat, p: nat, f: Failures): seq<Delivery>
    requires n <= |chunk|
  {
    if n == 0 then []
    else FeedDeliveries(l, chunk, n - 1, p, f) + StepDeliveries(FeedPartial(l, chunk, n - 1, p, f), chunk[n - 1])
  }

  /** Feeding a new reader is splitting at LF. */
  lemma {:induction false} FeedIsSplit(s: seq<byte>, n: nat, f: Failures)
    requires n <= |s|
    ensures FeedPartial(Collected([]), s, n, 0, f) == Remembered(s, n, f)
    ensures FeedDeliveries(Collected([]), s, n, 0, f) == Deliveries(s, n, f)
    decreases n
  {
    if n > 0 {
      FeedIsSplit(s, n - 1, f);
      StepIsSplit(s, n - 1, f);
    }
  }

  /** Chunk boundaries do not matter. */
  lemma {:induction false} FeedAppend(l: Partial, a: seq<byte>, b: seq<byte>, n: nat, p: nat, f: Failures)
    requires n <= |b|
    ensures var m := FeedPartial(l, a + b, |a|, p, f);
            && FeedPartial(l, a + b, |a| + n, p, f) == FeedPartial(m, b, n, p + |a|, f)
            && FeedDeliveries(l, a + b, |a| + n, p, f)
               == FeedDeliveries(l, a + b, |a|, p, f) + FeedDeliveries(m, b, n, p + |a|, f)
    decreases n
  {
    if n > 0 {
      FeedAppend(l, a, b, n - 1, p, f);
      assert (a + b)[|a| + n - 1] == b[n - 1];
    }
  }

  lemma {:induction false} FeedPrefix(l: Partial, a: seq<byte>, s: seq<byte>, n: nat, p: nat, f: Failures)
    requires n <= |a| && a <= s
    ensures FeedPartial(l, s, n, p, f) == FeedPartial(l, a, n, p, f)
    ensures FeedDeliveries(l, s, n, p, f) == FeedDeliveries(l, a, n, p, f)
    decreases n
  {
    if n > 0 { FeedPrefix(l, a, s, n - 1, p, f); }
  }

  // ------------------------------------------------------------ any chunking

  /** The stream that arrives as these chunks. */
  function Flat(chunks: seq<seq<byte>>): seq<byte> {
    if chunks == [] then [] else Flat(chunks[..|chunks| - 1]) + chunks[|chunks| - 1]
  }

  /** One more chunk for a reader that has read a whole stream so far. */
  lemma NextChunk(s: seq<byte>, chunk: seq<byte>, f: Failures)
    ensures var l := FeedPartial(Collected([]), s, |s|, 0, f);
            var t := s + chunk;
            && FeedPartial(Collected([]), t, |t|, 0, f) == FeedPartial(l, chunk, |chunk|, |s|, f)
            && FeedDeliveries(Collected([]), t, |t|, 0, f)
               == FeedDeliveries(Collected([]), s, |s|, 0, f) + FeedDeliveries(l, chunk, |chunk|, |s|, f)
  {
    FeedPrefix(Collected([]), s, s + chunk, |s|, 0, f);
    FeedAppend(Collected([]), s, chunk, |chunk|, 0, f);
  }

  // ------------------------------------------------------- what is delivered

  /** A line a command may be parsed from. */
  predicate Sane(line: seq<byte>) {
    1 <= |line| <= LINE_LIMIT && forall k :: 0 <= k < |line| ==> line[k] != 0 && line[k] != LF
  }

  lemma UnbrokenIsSane(s: seq<byte>, n: nat, f: Failures)
    requires n <= |s| && Remembered(s, n, f).Collected? && Open(s, n) != []
    ensures Sane(Open(s, n))
  {
    var line, p := Open(s, n), Start(s, n);
    if |line| > LINE_LIMIT { assert Breaks(line, LINE_LIMIT, p, f); }
    OpenHasNoLf(s, n);
    forall k | 0 <= k < |line| ensures line[k] != 0 && line[k] != LF {
      assert !Breaks(line, k, p, f);
      assert line[k] == s[p + k];
    }
  }

  lemma {:induction false} OpenHasNoLf(s: seq<byte>, n: nat)
    requires n <= |s|
    ensures forall k :: Start(s, n) <= k < n ==> s[k] != LF
    decreases n
  {
    if n > 0 && s[n - 1] != LF { OpenHasNoLf(s, n - 1); }
  }

  /** Whatever arrives, every delivered line has 1 to 9216 bytes and neither NUL
      nor LF among them. */
  lemma {:induction false} DeliveredLinesAreSane(s: seq<byte>, n: nat, f: Failures)
    requires n <= |s|
    ensures forall k :: 0 <= k < |Deliveries(s, n, f)| && Deliveries(s, n, f)[k].Line? ==> Sane(Deliveries(s, n, f)[k].bytes)
    decreases n
  {
    if n > 0 {
      DeliveredLinesAreSane(s, n - 1, f);
      if s[n - 1] == LF && Remembered(s, n - 1, f).Collected? && Open(s, n - 1) != [] {
        UnbrokenIsSane(s, n - 1, f);
      }
    }
  }
}
