/**
 * The client's reboot detector, `do_reset` in cwduino-client/src/imp.rs: a nine-state machine
 * that watches the serial byte stream for the announcement the board sends when it starts.
 */
module ResetDetector {
  import opened Wire

  /** The values `do_reset` keeps in `last`, in the order it reaches them from `'\0'`. */
  const ResetStates: seq<char> := ['\0', '\n', '\r', 'R', 'E', 'A', 'D', 'Y', '0']

  /**
   * The reboot announcement the detector recognises, `'\n', '\n', 'R', 'E', 'A', 'D', 'Y', '\n', '\n'`:
   * byte `ResetSequence[i]` is the one that advances state `ResetStates[i]`.
   */
  const ResetSequence: seq<Byte> :=
    [Ascii('\n'), Ascii('\n'), Ascii('R'), Ascii('E'), Ascii('A'), Ascii('D'), Ascii('Y'), Ascii('\n'), Ascii('\n')]

  /** The new value of `last` and the result `do_reset` returns. */
  datatype ResetOutcome = ResetOutcome(last: char, reset: bool)

  /**
   * `do_reset(read, &mut last)`. State `ResetStates[i]` moves on to the next state exactly on the
   * byte `ResetSequence[i]`; only the final step reports a reboot, and it goes back to `'\0'`.
   * Any other byte leaves the state as it was (it does not restart the match).
   */
  function DoReset(read: Byte, last: char): (r: ResetOutcome)
    ensures last !in ResetStates ==> r == ResetOutcome(last, false)
    ensures r.reset <==> last == '0' && read == Ascii('\n')
  {
    if last == '\0' && read == Ascii('\n') then ResetOutcome('\n', false)
    else if last == '\n' && read == Ascii('\n') then ResetOutcome('\r', false)
    else if last == '\r' && read == Ascii('R') then ResetOutcome('R', false)
    else if last == 'R' && read == Ascii('E') then ResetOutcome('E', false)
    else if last == 'E' && read == Ascii('A') then ResetOutcome('A', false)
    else if last == 'A' && read == Ascii('D') then ResetOutcome('D', false)
    else if last == 'D' && read == Ascii('Y') then ResetOutcome('Y', false)
    else if last == 'Y' && read == Ascii('\n') then ResetOutcome('0', false)
    else if last == '0' && read == Ascii('\n') then ResetOutcome('\0', true)
    else ResetOutcome(last, false)
  }

  lemma DoResetTable(i: nat, read: Byte)
    requires i < |ResetStates|
    ensures DoReset(read, ResetStates[i]) == if read == ResetSequence[i]
                   then ResetOutcome(if i + 1 < |ResetStates| then ResetStates[i + 1] else ResetStates[0], i + 1 == |ResetStates|)
                   else ResetOutcome(ResetStates[i], false)
  {
  }

  /** What `do_reset` returns on each of `bytes` in turn, and where it ends up, starting from `last`. */
  datatype Detection = Detection(flags: seq<bool>, last: char)

  function Detect(last: char, bytes: seq<Byte>): (r: Detection)
    ensures |r.flags| == |bytes|
    decreases |bytes|
  {
    if bytes == [] then Detection([], last)
    else
      var o := DoReset(bytes[0], last);
      var rest := Detect(o.last, bytes[1..]);
      Detection([o.reset] + rest.flags, rest.last)
  }

  /** The detector never leaves the nine states. */
  lemma {:induction false} StaysInResetStates(last: char, bytes: seq<Byte>)
    requires last in ResetStates
    ensures Detect(last, bytes).last in ResetStates
    decreases |bytes|
  {
    if bytes != [] {
      var i :| 0 <= i < |ResetStates| && ResetStates[i] == last;
      DoResetTable(i, bytes[0]);
      StaysInResetStates(DoReset(bytes[0], last).last, bytes[1..]);
    }
  }

  /** How many of `flags` are true. */
  function Count(flags: seq<bool>): nat
  {
    if flags == [] then 0 else (if flags[0] then 1 else 0) + Count(flags[1..])
  }

  /** `x` occurs in `y` as a (not necessarily contiguous) subsequence, matched greedily from the front. */
  predicate IsSubsequence(x: seq<Byte>, y: seq<Byte>)
  {
    if x == [] then true
    else if y == [] then false
    else if x[0] == y[0] then IsSubsequence(x[1..], y[1..])
    else IsSubsequence(x, y[1..])
  }

  /** `n` copies of the reboot announcement, one after the other. */
  function Repeat(n: nat): seq<Byte>
  {
    if n == 0 then [] else ResetSequence + Repeat(n - 1)
  }

  /** `m` times false. */
  function Falses(m: nat): seq<bool>
  {
    if m == 0 then [] else [false] + Falses(m - 1)
  }

  /** From state `ResetStates[i]`, the rest of the announcement reports a reboot on its last byte only, and ends at `'\0'`. */
  lemma {:induction false} RestOfAnnouncement(i: nat)
    requires i < |ResetStates|
    ensures Detect(ResetStates[i], ResetSequence[i..]) == Detection(Falses(|ResetStates| - 1 - i) + [true], '\0')
    decreases |ResetStates| - i
  {
    DoResetTable(i, ResetSequence[i]);
    assert ResetSequence[i..][1..] == ResetSequence[i + 1..];
    if i + 1 < |ResetStates| {
      RestOfAnnouncement(i + 1);
      assert Falses(|ResetStates| - 1 - i) + [true] == [false] + (Falses(|ResetStates| - 2 - i) + [true]);
    } else {
      assert ResetSequence[i + 1..] == [];
    }
  }

  /** From the initial state, the announcement reports nothing on its first eight bytes and a reboot on the ninth, and the detector is back at `'\0'`, ready for the next one. */
  lemma AnnouncementDetected()
    ensures Detect('\0', ResetSequence) == Detection([false, false, false, false, false, false, false, false, true], '\0')
  {
    assert Falses(8) + [true] == [false, false, false, false, false, false, false, false, true];
    RestOfAnnouncement(0);
    assert ResetSequence[0..] == ResetSequence;
  }

  /** Running the detector over `a + b` is running it over `a`, then over `b` from where `a` left it. */
  lemma {:induction false} DetectAppend(last: char, a: seq<Byte>, b: seq<Byte>)
    ensures Detect(last, a + b)
            == Detection(Detect(last, a).flags + Detect(Detect(last, a).last, b).flags, Detect(Detect(last, a).last, b).last)
    decreases |a|
  {
    if a == [] {
      assert a + b == b;
    } else {
      var o := DoReset(a[0], last);
      assert (a + b)[0] == a[0] && (a + b)[1..] == a[1..] + b;
      DetectAppend(o.last, a[1..], b);
      var x := Detect(o.last, a[1..]);
      var y := Detect(x.last, b);
      assert [o.reset] + (x.flags + y.flags) == ([o.reset] + x.flags) + y.flags;
    }
  }

  lemma {:induction false} CountAppend(x: seq<bool>, y: seq<bool>)
    ensures Count(x + y) == Count(x) + Count(y)
    decreases |x|
  {
    if x == [] {
      assert x + y == y;
    } else {
      assert (x + y)[1..] == x[1..] + y;
      CountAppend(x[1..], y);
    }
  }

  /** Bytes other than the one a state expects are ignored there: no reboot is reported and the state stays put. */
  lemma {:induction false} SkipUnexpected(p: nat, bytes: seq<Byte>)
    requires p < |ResetStates|
    requires forall k :: 0 <= k < |bytes| ==> bytes[k] != ResetSequence[p]
    ensures Detect(ResetStates[p], bytes) == Detection(Falses(|bytes|), ResetStates[p])
    decreases |bytes|
  {
    if bytes != [] {
      DoResetTable(p, bytes[0]);
      SkipUnexpected(p, bytes[1..]);
    }
  }

  /** A run of ignored bytes reports no reboot. */
  lemma {:induction false} CountNone(m: nat)
    ensures Count(Falses(m)) == 0
  {
    if m > 0 {
      CountNone(m - 1);
    }
  }

  /** Reboots reported over `a + b`, split at the end of `a`. */
  lemma Split(last: char, a: seq<Byte>, b: seq<Byte>)
    ensures Count(Detect(last, a + b).flags)
            == Count(Detect(last, a).flags) + Count(Detect(Detect(last, a).last, b).flags)
    ensures Detect(last, a + b).last == Detect(Detect(last, a).last, b).last
  {
    DetectAppend(last, a, b);
    CountAppend(Detect(last, a).flags, Detect(Detect(last, a).last, b).flags);
  }

  /** Ignored bytes, counted. */
  lemma Ignored(p: nat, bytes: seq<Byte>)
    requires p < |ResetStates|
    requires forall k :: 0 <= k < |bytes| ==> bytes[k] != ResetSequence[p]
    ensures Count(Detect(ResetStates[p], bytes).flags) == 0
    ensures Detect(ResetStates[p], bytes).last == ResetStates[p]
  {
    SkipUnexpected(p, bytes);
    CountNone(|bytes|);
  }

  /** The rest of the announcement, counted. */
  lemma Completed(p: nat)
    requires p < |ResetStates|
    ensures Count(Detect(ResetStates[p], ResetSequence[p..]).flags) == 1
    ensures Detect(ResetStates[p], ResetSequence[p..]).last == '\0'
  {
    RestOfAnnouncement(p);
    CountNone(|ResetStates| - 1 - p);
    CountAppend(Falses(|ResetStates| - 1 - p), [true]);
  }

  lemma DetectedFromStart()
    ensures Count(Detect('\0', ResetSequence).flags) == 1
  {
    Completed(0);
    assert ResetSequence[0..] == ResetSequence;
  }

  /** The first '\n' of the announcement takes `'\n'` on to `'\r'`. */
  lemma NewlineThenReturn()
    ensures Count(Detect(ResetStates[1], ResetSequence[..1]).flags) == 0
    ensures Detect(ResetStates[1], ResetSequence[..1]).last == ResetStates[2]
  {
    var s := ResetSequence[..1];
    DoResetTable(1, s[0]);
    CountStep(ResetStates[1], s);
    assert s[1..] == [];
  }

  /** From `'\r'`, the second '\n' is ignored and the rest completes the match. */
  lemma ReturnThenRest()
    ensures Count(Detect(ResetStates[2], ResetSequence[1..]).flags) == 1
  {
    var s := ResetSequence[1..];
    DoResetTable(2, s[0]);
    CountStep(ResetStates[2], s);
    assert s[1..] == ResetSequence[2..];
    Completed(2);
  }

  lemma DetectedFromNewline()
    ensures Count(Detect('\n', ResetSequence).flags) == 1
  {
    var s := ResetSequence;
    assert ResetStates[1] == '\n' && s == s[..1] + s[1..];
    Split(ResetStates[1], s[..1], s[1..]);
    NewlineThenReturn();
    ReturnThenRest();
  }

  /** Before position `p` in 2..6, the announcement never has the byte position `p` expects. */
  lemma DistinctBefore(p: nat)
    requires 2 <= p < 7
    ensures forall k :: 0 <= k < p ==> ResetSequence[..p][k] != ResetSequence[p]
  {
    var s := ResetSequence;
    assert s[0] == s[1] == 10 && s[2] == 82 && s[3] == 69 && s[4] == 65 && s[5] == 68 && s[6] == 89;
  }

  lemma DetectedMidSequence(p: nat)
    requires 2 <= p < 7
    ensures Count(Detect(ResetStates[p], ResetSequence).flags) == 1
  {
    // The bytes before position p are all ignored there.
    var s := ResetSequence;
    assert s[..p] + s[p..] == s;
    Split(ResetStates[p], s[..p], s[p..]);
    DistinctBefore(p);
    Ignored(p, s[..p]);
    Completed(p);
  }

  /** The announcement as "\n\n", "READY", "\n\n". */
  lemma AnnouncementParts()
    ensures ResetSequence == ResetSequence[..2] + (ResetSequence[2..7] + ResetSequence[7..])
    ensures forall k :: 0 <= k < 5 ==> ResetSequence[2..7][k] != ResetSequence[0]
  {
  }

  /** "READY", at `'\0'` or `'\n'`, is ignored. */
  lemma IgnoredWord(p: nat)
    requires p < 2
    ensures Count(Detect(ResetStates[p], ResetSequence[2..7]).flags) == 0
    ensures Detect(ResetStates[p], ResetSequence[2..7]).last == ResetStates[p]
  {
    AnnouncementParts();
    Ignored(p, ResetSequence[2..7]);
  }

  /** A leading "\n\n" from `'Y'` or `'0'` completes the match. */
  lemma LeadingNewlines(p: nat)
    requires 7 <= p < 9
    ensures Count(Detect(ResetStates[p], ResetSequence[..2]).flags) == 1
    ensures Detect(ResetStates[p], ResetSequence[..2]).last == ResetStates[p - 7]
  {
    var s := ResetSequence[..2];
    assert s[0] == ResetSequence[7] == ResetSequence[8] == ResetSequence[0] && s[1] == s[0];
    var q := if p == 7 then 8 else 0;
    DoResetTable(p, s[0]);
    DoResetTable(q, s[1]);
    CountStep(ResetStates[p], s);
    CountStep(ResetStates[q], s[1..]);
    assert s[1..][1..] == [];
  }

  /** A trailing "\n\n" from `'\0'` or `'\n'` only starts a new match. */
  lemma TrailingNewlines(p: nat)
    requires p < 2
    ensures Count(Detect(ResetStates[p], ResetSequence[7..]).flags) == 0
  {
    var s := ResetSequence[7..];
    assert s[0] == s[1] == ResetSequence[0] == ResetSequence[1];
    DoResetTable(p, s[0]);
    CountStep(ResetStates[p], s);
    if p == 0 {
      DoResetTable(1, s[1]);
      CountStep(ResetStates[1], s[1..]);
    } else {
      DoResetTable(2, s[1]);
      CountStep(ResetStates[2], s[1..]);
    }
    assert s[1..][1..] == [];
  }

  /** From `'Y'` "\n\n" completes the match at once, from `'0'` the first '\n' does; "READY" is then ignored, and the last "\n\n" only starts a new match. */
  lemma DetectedLate(p: nat)
    requires 7 <= p < 9
    ensures Count(Detect(ResetStates[p], ResetSequence).flags) == 1
  {
    var s := ResetSequence;
    AnnouncementParts();
    Split(ResetStates[p], s[..2], s[2..7] + s[7..]);
    LeadingNewlines(p);
    Split(ResetStates[p - 7], s[2..7], s[7..]);
    IgnoredWord(p - 7);
    TrailingNewlines(p - 7);
  }

  /**
   * Whatever partial match the detector is in, one whole announcement makes it report exactly one
   * reboot. (From `'Y'` and `'0'` the report comes early, on the first or second byte.)
   */
  lemma DetectedFromAnyState(p: nat)
    requires p < |ResetStates|
    ensures Count(Detect(ResetStates[p], ResetSequence).flags) == 1
  {
    if p == 0 {
      assert ResetStates[p] == '\0';
      DetectedFromStart();
    } else if p == 1 {
      assert ResetStates[p] == '\n';
      DetectedFromNewline();
    } else if p < 7 {
      DetectedMidSequence(p);
    } else {
      DetectedLate(p);
    }
  }

  /** The first `p` bytes of the announcement take the initial state to `ResetStates[p]` without reporting anything. */
  lemma {:induction false} PartialAnnouncement(i: nat, p: nat)
    requires i <= p < |ResetStates|
    ensures Count(Detect(ResetStates[i], ResetSequence[i..p]).flags) == 0
    ensures Detect(ResetStates[i], ResetSequence[i..p]).last == ResetStates[p]
    decreases p - i
  {
    if i < p {
      assert ResetSequence[i..p][1..] == ResetSequence[i + 1..p];
      DoResetTable(i, ResetSequence[i]);
      PartialAnnouncement(i + 1, p);
    }
  }

  /**
   * An announcement cut short by another byte does not count, and does not spoil the complete
   * announcement that follows: "\n\nREAD", then any byte but 'Y', then the announcement, reports
   * one reboot.
   */
  lemma InterruptedThenComplete(b: Byte)
    requires b != ResetSequence[6]
    ensures Count(Detect(ResetStates[0], ResetSequence[..6] + [b] + ResetSequence).flags) == 1
  {
    var s := ResetSequence;
    assert s[..6] + [b] + s == s[..6] + ([b] + s);
    Split(ResetStates[0], s[..6], [b] + s);
    PartialAnnouncement(0, 6);
    assert s[0..6] == s[..6];
    IgnoredThenComplete(b);
  }

  /** A byte a state does not expect is ignored, whatever follows it. */
  lemma IgnoredByte(p: nat, b: Byte, rest: seq<Byte>)
    requires p < |ResetStates| && b != ResetSequence[p]
    ensures Count(Detect(ResetStates[p], [b] + rest).flags) == Count(Detect(ResetStates[p], rest).flags)
    ensures Detect(ResetStates[p], [b] + rest).last == Detect(ResetStates[p], rest).last
  {
    DoResetTable(p, b);
    CountStep(ResetStates[p], [b] + rest);
    assert ([b] + rest)[1..] == rest;
  }

  /** At `'D'`, a byte other than 'Y' is ignored, and a whole announcement then reports one reboot. */
  lemma IgnoredThenComplete(b: Byte)
    requires b != ResetSequence[6]
    ensures Count(Detect(ResetStates[6], [b] + ResetSequence).flags) == 1
  {
    IgnoredByte(6, b, ResetSequence);
    DetectedFromAnyState(6);
  }

  /** The match need not be contiguous: a heartbeat inside the announcement does not stop it from being recognised. */
  lemma HeartbeatInsideAnnouncement()
    ensures Count(Detect('\0', ResetSequence[..1] + [Ascii('.')] + ResetSequence[1..]).flags) == 1
  {
    var s := ResetSequence;
    assert s[..1] + [Ascii('.')] + s[1..] == s[..1] + ([Ascii('.')] + s[1..]);
    Split('\0', s[..1], [Ascii('.')] + s[1..]);
    PartialAnnouncement(0, 1);
    assert s[0..1] == s[..1];
    Split('\n', [Ascii('.')], s[1..]);
    Ignored(1, [Ascii('.')]);
    Completed(1);
  }

  /** What remains to be seen of `k` announcements when the first one has reached position `p`. */
  function Awaited(p: nat, k: nat): seq<Byte>
    requires p < |ResetSequence|
  {
    if k == 0 then [] else ResetSequence[p..] + Repeat(k - 1)
  }

  /** The reboots reported over `bytes`: the first byte's, then the rest's. */
  lemma CountStep(last: char, bytes: seq<Byte>)
    requires bytes != []
    ensures Count(Detect(last, bytes).flags)
            == (if DoReset(bytes[0], last).reset then 1 else 0) + Count(Detect(DoReset(bytes[0], last).last, bytes[1..]).flags)
  {
  }

  lemma SubsequenceCons(c: Byte, x: seq<Byte>, y: seq<Byte>)
    requires IsSubsequence(x, y)
    ensures IsSubsequence([c] + x, [c] + y)
  {
    assert ([c] + x)[1..] == x && ([c] + y)[1..] == y;
  }

  lemma AwaitedAdvance(p: nat, k: nat, rest: seq<Byte>)
    requires p + 1 < |ResetSequence|
    requires IsSubsequence(Awaited(p + 1, k), rest)
    ensures IsSubsequence(Awaited(p, k), [ResetSequence[p]] + rest)
  {
    if k > 0 {
      AwaitedCons(p, k);
      SubsequenceCons(ResetSequence[p], Awaited(p + 1, k), rest);
    }
  }

  lemma AwaitedCons(p: nat, k: nat)
    requires p + 1 < |ResetSequence| && k > 0
    ensures Awaited(p, k) == [ResetSequence[p]] + Awaited(p + 1, k)
  {
    var a, b := ResetSequence[p..], Repeat(k - 1);
    assert a == [ResetSequence[p]] + ResetSequence[p + 1..];
    assert a + b == [ResetSequence[p]] + (ResetSequence[p + 1..] + b);
  }

  lemma AwaitedComplete(k: nat, rest: seq<Byte>)
    requires IsSubsequence(Awaited(0, k), rest)
    ensures IsSubsequence(Awaited(|ResetSequence| - 1, k + 1), [ResetSequence[|ResetSequence| - 1]] + rest)
  {
    var b := ResetSequence[|ResetSequence| - 1];
    assert ResetSequence[|ResetSequence| - 1..] == [b];
    assert ResetSequence[0..] == ResetSequence;
    assert Awaited(0, k) == Repeat(k);
    assert Awaited(|ResetSequence| - 1, k + 1) == [b] + Awaited(0, k);
  }

  lemma AwaitedSkip(p: nat, k: nat, b: Byte, rest: seq<Byte>)
    requires p < |ResetSequence| && b != ResetSequence[p]
    requires IsSubsequence(Awaited(p, k), rest)
    ensures IsSubsequence(Awaited(p, k), [b] + rest)
  {
    assert ([b] + rest)[1..] == rest;
  }

  /** Every reboot the detector reports, from state `ResetStates[p]`, is backed by a whole announcement in the input. */
  lemma {:induction false} ResetsAreAnnounced(p: nat, bytes: seq<Byte>)
    requires p < |ResetStates|
    ensures IsSubsequence(Awaited(p, Count(Detect(ResetStates[p], bytes).flags)), bytes)
    decreases |bytes|
  {
    if bytes != [] {
      var b, rest := bytes[0], bytes[1..];
      assert bytes == [b] + rest;
      DoResetTable(p, b);
      CountStep(ResetStates[p], bytes);
      if b == ResetSequence[p] && p + 1 < |ResetStates| {
        ResetsAreAnnounced(p + 1, rest);
        AwaitedAdvance(p, Count(Detect(ResetStates[p + 1], rest).flags), rest);
      } else if b == ResetSequence[p] {
        ResetsAreAnnounced(0, rest);
        AwaitedComplete(Count(Detect(ResetStates[0], rest).flags), rest);
      } else {
        ResetsAreAnnounced(p, rest);
        AwaitedSkip(p, Count(Detect(ResetStates[p], rest).flags), b, rest);
      }
    }
  }

  lemma {:induction false} SubsequencePrefix(x: seq<Byte>, y: seq<Byte>, z: seq<Byte>)
    requires IsSubsequence(x + y, z)
    ensures IsSubsequence(x, z)
    decreases |z|
  {
    if x != [] && z != [] {
      assert (x + y)[0] == x[0] && (x + y)[1..] == x[1..] + y;
      if x[0] == z[0] {
        SubsequencePrefix(x[1..], y, z[1..]);
      } else {
        SubsequencePrefix(x, y, z[1..]);
      }
    }
  }

  /** From the initial state, `k` reported reboots need `k` announcements in the input; with none, nothing is reported. */
  lemma NoResetWithoutAnnouncement(bytes: seq<Byte>)
    ensures IsSubsequence(Repeat(Count(Detect('\0', bytes).flags)), bytes)
    ensures !IsSubsequence(ResetSequence, bytes) ==> Count(Detect('\0', bytes).flags) == 0
  {
    var k := Count(Detect('\0', bytes).flags);
    ResetsAreAnnounced(0, bytes);
    assert ResetSequence[0..] == ResetSequence;
    assert Awaited(0, k) == Repeat(k);
    if k > 0 {
      SubsequencePrefix(ResetSequence, Repeat(k - 1), bytes);
    }
  }

  /** Before an announcement has begun, all of each of the `k` announcements is awaited. */
  lemma AwaitedFromStart(k: nat)
    ensures Awaited(0, k) == Repeat(k) && ResetStates[0] == '\0'
  {
    assert ResetSequence[0..] == ResetSequence;
  }

  lemma AwaitedHead(p: nat, k: nat)
    requires p < |ResetSequence| && k > 0
    ensures Awaited(p, k) != [] && Awaited(p, k)[0] == ResetSequence[p]
  {
  }

  lemma AwaitedLast(k: nat)
    requires k > 0
    ensures Awaited(|ResetSequence| - 1, k) == [ResetSequence[|ResetSequence| - 1]] + Awaited(0, k - 1)
  {
    assert ResetSequence[|ResetSequence| - 1..] == [ResetSequence[|ResetSequence| - 1]];
    assert ResetSequence[0..] == ResetSequence;
    assert Awaited(0, k - 1) == Repeat(k - 1);
  }

  /**
   * The detector misses no announcement: from state `ResetStates[p]`, input that holds the rest
   * of `k` announcements, the interleaved bytes allowed, makes it report at least `k` reboots.
   */
  lemma {:induction false} AnnouncedAreReported(p: nat, k: nat, bytes: seq<Byte>)
    requires p < |ResetStates| && IsSubsequence(Awaited(p, k), bytes)
    ensures Count(Detect(ResetStates[p], bytes).flags) >= k
    decreases |bytes|
  {
    if k > 0 {
      AwaitedHead(p, k);
      var b, rest := bytes[0], bytes[1..];
      DoResetTable(p, b);
      CountStep(ResetStates[p], bytes);
      if b == ResetSequence[p] && p + 1 < |ResetStates| {
        AwaitedCons(p, k);
        assert Awaited(p, k)[1..] == Awaited(p + 1, k);
        AnnouncedAreReported(p + 1, k, rest);
      } else if b == ResetSequence[p] {
        AwaitedLast(k);
        assert Awaited(p, k)[1..] == Awaited(0, k - 1);
        AnnouncedAreReported(0, k - 1, rest);
      } else {
        AnnouncedAreReported(p, k, rest);
      }
    }
  }

  lemma {:induction false} RepeatAdd(m: nat, n: nat)
    ensures Repeat(m + n) == Repeat(m) + Repeat(n)
  {
    if m > 0 {
      RepeatAdd(m - 1, n);
      assert Repeat(m + n) == ResetSequence + Repeat(m - 1 + n);
      assert ResetSequence + (Repeat(m - 1) + Repeat(n)) == (ResetSequence + Repeat(m - 1)) + Repeat(n);
    }
  }

  /**
   * From the initial state, the detector reports at least `k` reboots exactly when the input
   * holds `k` announcements one after the other, other bytes possibly in between.
   */
  lemma ReportsCountAnnouncements(bytes: seq<Byte>, k: nat)
    ensures Count(Detect('\0', bytes).flags) >= k <==> IsSubsequence(Repeat(k), bytes)
  {
    var n := Count(Detect('\0', bytes).flags);
    if IsSubsequence(Repeat(k), bytes) {
      AwaitedFromStart(k);
      AnnouncedAreReported(0, k, bytes);
    }
    if n >= k {
      NoResetWithoutAnnouncement(bytes);
      RepeatAdd(k, n - k);
      SubsequencePrefix(Repeat(k), Repeat(n - k), bytes);
    }
  }

  /** In particular, a reboot is reported exactly when the input holds an announcement. */
  lemma ReportedIffAnnounced(bytes: seq<Byte>)
    ensures Count(Detect('\0', bytes).flags) >= 1 <==> IsSubsequence(ResetSequence, bytes)
  {
    ReportsCountAnnouncements(bytes, 1);
    assert Repeat(1) == ResetSequence + [];
    assert ResetSequence + [] == ResetSequence;
  }
}
