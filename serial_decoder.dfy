/**
 * The body of the client's serial read loop, `run` in cwduino-client/src/imp.rs: check the
 * heartbeat timeout, read one byte, feed it to the reboot detector, and turn it into an event
 * for the application. Time is a nanosecond count supplied by the caller.
 */
module SerialDecoder {
  import opened Wire
  import opened ResetDetector
  import opened Application

  /** `serial.set_timeout(Duration::from_secs(5))`, read back as `serial.timeout().as_secs()`. */
  const TimeoutSecs: nat := 5

  /** The clock counts nanoseconds, the precision of a `Duration`. */
  const NanosPerSec: nat := 1_000_000_000

  /** What one `serial.read` of a one-byte buffer gives: no byte, one byte, or an I/O error. */
  datatype Read = NoData | Data(b: Byte) | Failed

  /** One pass of the loop: the clock at the liveness check, the read, and the clock when the read returned. */
  datatype Poll = Poll(checkedAt: nat, read: Read, readAt: nat)

  /** The loop's locals: `last` (for `do_reset`), `last_heartbeat`, and whether the loop has ended. */
  datatype DecoderState = DecoderState(last: char, lastHeartbeat: nat, stopped: bool)

  /** The locals before the first pass, started at time `now`. */
  function Start(now: nat): (r: DecoderState)
    ensures !r.stopped && r.lastHeartbeat == now
    ensures r.last == ResetStates[0] && DoReset(Ascii('\n'), r.last).last == ResetStates[1]
  {
    DecoderState('\0', now, false)
  }

  /**
   * `last_heartbeat.elapsed().as_secs()`: the whole seconds from `since` to `now`, the fraction
   * dropped; zero, never negative, when the clock reads earlier, as with `Instant::elapsed`.
   */
  function Elapsed(since: nat, now: nat): (r: nat)
    ensures now <= since ==> r == 0
    ensures now >= since ==> r * NanosPerSec <= now - since < (r + 1) * NanosPerSec
  {
    if now >= since then (now - since) / NanosPerSec else 0
  }

  /** The liveness check at the top of the loop: more than the port's timeout, in whole seconds, since the last heartbeat. */
  predicate TimedOut(d: DecoderState, p: Poll)
    ensures TimedOut(d, p) <==> p.checkedAt >= d.lastHeartbeat + (TimeoutSecs + 1) * NanosPerSec
  {
    Elapsed(d.lastHeartbeat, p.checkedAt) > TimeoutSecs
  }

  /** What a byte that does not complete an announcement means: the `match buf[0]` table. */
  datatype Meaning = Emit(event: Event) | Heartbeat | Ignored

  function Classify(b: Byte): (r: Meaning)
    ensures r == Emit(LeftPress) <==> b == LeftPressByte
    ensures r == Emit(RightPress) <==> b == RightPressByte
    ensures r == Emit(LeftRelease) <==> b == LeftReleaseByte
    ensures r == Emit(RightRelease) <==> b == RightReleaseByte
    ensures r == Heartbeat <==> b == HeartbeatByte
    ensures r.Emit? ==> r.event !in {Reset, Disconnected}
  {
    if b == LeftPressByte then Emit(LeftPress)
    else if b == RightPressByte then Emit(RightPress)
    else if b == LeftReleaseByte then Emit(LeftRelease)
    else if b == RightReleaseByte then Emit(RightRelease)
    else if b == HeartbeatByte then Heartbeat
    else Ignored
  }

  /** The new locals after one pass, and the events it sent on the channel. */
  datatype StepResult = StepResult(next: DecoderState, sent: seq<Event>)

  /** One pass of the loop. */
  function Step(d: DecoderState, p: Poll): (r: StepResult)
    requires !d.stopped
    ensures |r.sent| <= 1
    // the timeout path: Disconnected exactly when the heartbeat is too old, and the loop ends
    ensures Disconnected in r.sent <==> TimedOut(d, p)
    ensures TimedOut(d, p) ==> r == StepResult(d.(stopped := true), [Disconnected])
    // the loop ends on a timeout or a read error, and on nothing else
    ensures r.next.stopped <==> TimedOut(d, p) || p.read == Failed
    // a zero-length read changes nothing
    ensures !TimedOut(d, p) && p.read == NoData ==> r == StepResult(d, [])
    // a read error sends nothing and ends the loop, the locals otherwise as they were
    ensures !TimedOut(d, p) && p.read == Failed ==> r == StepResult(d.(stopped := true), [])
    // Reset exactly on the byte that completes an announcement
    ensures Reset in r.sent <==> !TimedOut(d, p) && p.read.Data? && DoReset(p.read.b, d.last).reset
    // only a heartbeat byte moves the heartbeat time, and it moves it to when the byte arrived
    ensures r.next.lastHeartbeat != d.lastHeartbeat ==> p.read == Data(HeartbeatByte) && r.next.lastHeartbeat == p.readAt
    ensures !TimedOut(d, p) && p.read == Data(HeartbeatByte) ==> r == StepResult(d.(lastHeartbeat := p.readAt), [])
    // the detector sees every byte that is read, and nothing else
    ensures r.next.last == if !TimedOut(d, p) && p.read.Data? then DoReset(p.read.b, d.last).last else d.last
  {
    if TimedOut(d, p) then StepResult(d.(stopped := true), [Disconnected])
    else
      match p.read
      case NoData => StepResult(d, [])
      case Failed => StepResult(d.(stopped := true), [])
      case Data(b) =>
        var o := DoReset(b, d.last);
        var d' := d.(last := o.last);
        if o.reset then StepResult(d', [Reset])
        else
          match Classify(b)
          case Emit(e) => StepResult(d', [e])
          case Heartbeat => StepResult(d'.(lastHeartbeat := p.readAt), [])
          case Ignored => StepResult(d', [])
  }

  /** The events sent and the final locals after the loop has met `polls` in turn (or ended early). */
  datatype RunResult = RunResult(sent: seq<Event>, final: DecoderState)

  function Run(d: DecoderState, polls: seq<Poll>): (r: RunResult)
    ensures d.stopped ==> r == RunResult([], d)
    // Disconnected is sent at most once, as the very last event, and the loop has then ended
    ensures forall i :: 0 <= i < |r.sent| - 1 ==> r.sent[i] != Disconnected
    ensures Disconnected in r.sent ==> r.final.stopped && r.sent[|r.sent| - 1] == Disconnected
    decreases |polls|
  {
    if polls == [] || d.stopped then RunResult([], d)
    else
      var s := Step(d, polls[0]);
      var rest := Run(s.next, polls[1..]);
      RunResult(s.sent + rest.sent, rest.final)
  }

  /** One pass, then the rest of the passes from `i`, after the events `earlier`. */
  lemma RunUnfold(d: DecoderState, polls: seq<Poll>, i: nat, earlier: seq<Event>)
    requires i < |polls| && !d.stopped
    ensures var s := Step(d, polls[i]);
            var rest := Run(s.next, polls[i + 1..]);
            && earlier + Run(d, polls[i..]).sent == (earlier + s.sent) + rest.sent
            && Run(d, polls[i..]).final == rest.final
  {
    assert polls[i..][0] == polls[i] && polls[i..][1..] == polls[i + 1..];
    var s := Step(d, polls[i]);
    var rest := Run(s.next, polls[i + 1..]);
    assert earlier + (s.sent + rest.sent) == (earlier + s.sent) + rest.sent;
  }

  /** The `run` loop over the passes `polls`, started at time `now`: the events it sends, and its locals at the end. */
  method RunLoop(now: nat, polls: seq<Poll>) returns (sent: seq<Event>, final: DecoderState)
    ensures RunResult(sent, final) == Run(Start(now), polls)
  {
    var lastHeartbeat := now;
    var last := '\0';
    var stopped := false;
    sent := [];
    var i := 0;
    assert polls[0..] == polls;
    while i < |polls| && !stopped
      invariant 0 <= i <= |polls|
      invariant Run(Start(now), polls).sent == sent + Run(DecoderState(last, lastHeartbeat, stopped), polls[i..]).sent
      invariant Run(Start(now), polls).final == Run(DecoderState(last, lastHeartbeat, stopped), polls[i..]).final
      decreases |polls| - i
    {
      ghost var before, sentBefore := DecoderState(last, lastHeartbeat, stopped), sent;
      RunUnfold(before, polls, i, sentBefore);
      var p := polls[i];
      i := i + 1;
      if Elapsed(lastHeartbeat, p.checkedAt) > TimeoutSecs {
        sent := sent + [Disconnected];
        stopped := true;
      } else {
        match p.read {
          case NoData =>
          case Failed =>
            stopped := true;
          case Data(b) =>
            var o := DoReset(b, last);
            last := o.last;
            if o.reset {
              sent := sent + [Reset];
            } else {
              match Classify(b) {
                case Emit(e) => sent := sent + [e];
                case Heartbeat => lastHeartbeat := p.readAt;
                case Ignored =>
              }
            }
        }
      }
      ghost var s := Step(before, p);
      assert DecoderState(last, lastHeartbeat, stopped) == s.next && sent == sentBefore + s.sent;
    }
    final := DecoderState(last, lastHeartbeat, stopped);
    assert i == |polls| ==> polls[i..] == [];
  }

  // ---------------------------------------------------------------------------
  // Properties of the loop
  // ---------------------------------------------------------------------------

  /** The byte table: each of `{ } [ ]` is decoded as its own paddle event, and no other byte is decoded as one. */
  lemma PaddleBytes(d: DecoderState, p: Poll)
    requires !d.stopped && !TimedOut(d, p) && p.read.Data? && !DoReset(p.read.b, d.last).reset
    ensures Step(d, p).sent == [LeftPress] <==> p.read.b == LeftPressByte
    ensures Step(d, p).sent == [RightPress] <==> p.read.b == RightPressByte
    ensures Step(d, p).sent == [LeftRelease] <==> p.read.b == LeftReleaseByte
    ensures Step(d, p).sent == [RightRelease] <==> p.read.b == RightReleaseByte
    ensures Step(d, p).sent == [] <==> p.read.b !in {LeftPressByte, RightPressByte, LeftReleaseByte, RightReleaseByte}
    ensures Step(d, p).next == d.(last := DoReset(p.read.b, d.last).last,
                                  lastHeartbeat := if p.read.b == HeartbeatByte then p.readAt else d.lastHeartbeat)
  {
  }

  /** A zero-length read goes straight back to the timeout check: the pass is as if it had not happened. */
  lemma ZeroLengthRead(d: DecoderState, polls: seq<Poll>)
    requires polls != [] && !d.stopped && polls[0].read == NoData && !TimedOut(d, polls[0])
    ensures Run(d, polls) == Run(d, polls[1..])
  {
  }

  /** Once the heartbeat is too old the loop sends Disconnected and ends, whatever the remaining passes would have read. */
  lemma TimeoutEndsRun(d: DecoderState, polls: seq<Poll>)
    requires polls != [] && !d.stopped && TimedOut(d, polls[0])
    ensures Run(d, polls) == RunResult([Disconnected], d.(stopped := true))
  {
    assert Run(d.(stopped := true), polls[1..]) == RunResult([], d.(stopped := true));
  }

  /** Running the loop over `a + b` is running it over `a`, then over `b` from where `a` left it. */
  lemma {:induction false} RunAppend(d: DecoderState, a: seq<Poll>, b: seq<Poll>)
    ensures Run(d, a + b) == RunResult(Run(d, a).sent + Run(Run(d, a).final, b).sent, Run(Run(d, a).final, b).final)
    decreases |a|
  {
    if a == [] {
      assert a + b == b;
    } else if !d.stopped {
      var s := Step(d, a[0]);
      assert (a + b)[0] == a[0] && (a + b)[1..] == a[1..] + b;
      RunAppend(s.next, a[1..], b);
      var x := Run(s.next, a[1..]);
      var y := Run(x.final, b);
      assert s.sent + (x.sent + y.sent) == (s.sent + x.sent) + y.sent;
    }
  }

  /** The bytes `bytes`, each read by its own pass, with the clock standing at `t` throughout. */
  function Polls(t: nat, bytes: seq<Byte>): (r: seq<Poll>)
    ensures |r| == |bytes|
    ensures forall k :: 0 <= k < |bytes| ==> r[k] == Poll(t, Data(bytes[k]), t)
  {
    if bytes == [] then [] else [Poll(t, Data(bytes[0]), t)] + Polls(t, bytes[1..])
  }

  /** The event the byte table makes of `b`, if any. */
  function EventOf(b: Byte): seq<Event>
  {
    match Classify(b)
    case Emit(e) => [e]
    case _ => []
  }

  /** The events the byte table makes of `bytes`, when none of them completes an announcement. */
  function Events(bytes: seq<Byte>): seq<Event>
  {
    if bytes == [] then [] else EventOf(bytes[0]) + Events(bytes[1..])
  }

  lemma {:induction false} EventsAppend(a: seq<Byte>, b: seq<Byte>)
    ensures Events(a + b) == Events(a) + Events(b)
    decreases |a|
  {
    if a == [] {
      assert a + b == b;
    } else {
      assert (a + b)[0] == a[0] && (a + b)[1..] == a[1..] + b;
      EventsAppend(a[1..], b);
      assert EventOf(a[0]) + (Events(a[1..]) + Events(b)) == (EventOf(a[0]) + Events(a[1..])) + Events(b);
    }
  }

  // ---------------------------------------------------------------------------
  // Passes over a moving clock
  // ---------------------------------------------------------------------------

  /** The bytes the passes `polls` read, in order; a pass that reads nothing contributes none. */
  function ReadBytes(polls: seq<Poll>): (r: seq<Byte>)
    ensures |r| <= |polls|
  {
    if polls == [] then [] else ReadByte(polls[0]) + ReadBytes(polls[1..])
  }

  /** The byte pass `q` reads, if any. */
  function ReadByte(q: Poll): seq<Byte>
  {
    if q.read.Data? then [q.read.b] else []
  }

  /** None of the passes ends in a read error. */
  predicate NoReadError(polls: seq<Poll>)
  {
    forall k :: 0 <= k < |polls| ==> polls[k].read != Failed
  }

  /** The heartbeat time after pass `p`: when its byte arrived if it read `.`, otherwise still `since`. */
  function NextBeat(since: nat, p: Poll): nat
  {
    if p.read == Data(HeartbeatByte) then p.readAt else since
  }

  /** The arrival time of the last heartbeat the passes read, or `since` if they read none. */
  function LastBeat(since: nat, polls: seq<Poll>): nat
    decreases |polls|
  {
    if polls == [] then since else LastBeat(NextBeat(since, polls[0]), polls[1..])
  }

  /**
   * The heartbeat never goes stale: every pass's liveness check comes less than six whole
   * seconds after the latest heartbeat read before it (or after `since`, if none was).
   */
  predicate Live(since: nat, polls: seq<Poll>)
    decreases |polls|
  {
    polls == [] ||
    (polls[0].checkedAt < since + (TimeoutSecs + 1) * NanosPerSec && Live(NextBeat(since, polls[0]), polls[1..]))
  }

  /** The passes `a + b` are live exactly when `a` is, and then `b` is from the last heartbeat of `a`. */
  lemma {:induction false} LiveAppend(since: nat, a: seq<Poll>, b: seq<Poll>)
    ensures Live(since, a + b) <==> Live(since, a) && Live(LastBeat(since, a), b)
    decreases |a|
  {
    if a == [] {
      assert a + b == b;
    } else {
      assert (a + b)[0] == a[0] && (a + b)[1..] == a[1..] + b;
      LiveAppend(NextBeat(since, a[0]), a[1..], b);
    }
  }

  lemma {:induction false} ReadBytesAppend(a: seq<Poll>, b: seq<Poll>)
    ensures ReadBytes(a + b) == ReadBytes(a) + ReadBytes(b)
    decreases |a|
  {
    if a == [] {
      assert a + b == b;
    } else {
      assert (a + b)[0] == a[0] && (a + b)[1..] == a[1..] + b;
      ReadBytesAppend(a[1..], b);
      var h := ReadByte(a[0]);
      assert h + (ReadBytes(a[1..]) + ReadBytes(b)) == (h + ReadBytes(a[1..])) + ReadBytes(b);
    }
  }

  /** The events of one more byte at the front. */
  lemma EventsCons(b: Byte, bytes: seq<Byte>)
    ensures Events([b] + bytes) == EventOf(b) + Events(bytes)
  {
    assert ([b] + bytes)[0] == b && ([b] + bytes)[1..] == bytes;
  }

  /**
   * One pass from a detector state that its byte, if any, does not advance, with the heartbeat
   * still fresh: the byte table's event for that byte, the heartbeat moved if it was `.`, the
   * detector where it was; then the rest of the passes.
   */
  lemma QuietCons(p: nat, since: nat, q: Poll, rest: seq<Poll>)
    requires p < |ResetStates| && q.read != Failed
    requires q.checkedAt < since + (TimeoutSecs + 1) * NanosPerSec
    requires ResetSequence[p] !in ReadByte(q)
    ensures var next := DecoderState(ResetStates[p], NextBeat(since, q), false);
            Run(DecoderState(ResetStates[p], since, false), [q] + rest)
            == RunResult(Events(ReadByte(q)) + Run(next, rest).sent, Run(next, rest).final)
  {
    var d := DecoderState(ResetStates[p], since, false);
    var next := DecoderState(ResetStates[p], NextBeat(since, q), false);
    assert Step(d, q) == StepResult(next, Events(ReadByte(q))) by {
      if q.read == Data(HeartbeatByte) {
        EventsCons(HeartbeatByte, []);
      } else if q.read.Data? {
        EventsCons(q.read.b, []);
        assert DoReset(q.read.b, d.last) == ResetOutcome(d.last, false) by {
          DoResetTable(p, q.read.b);
        }
      }
    }
    RunCons(d, q, rest);
  }

  /** The first pass and the rest: what the passes read, and that none of them fails. */
  lemma PollsCons(polls: seq<Poll>)
    requires polls != []
    ensures polls == [polls[0]] + polls[1..]
    ensures ReadBytes(polls) == ReadByte(polls[0]) + ReadBytes(polls[1..])
    ensures NoReadError(polls) <==> polls[0].read != Failed && NoReadError(polls[1..])
  {
    assert forall k :: 0 <= k < |polls| - 1 ==> polls[1..][k] == polls[k + 1];
  }

  /**
   * Passes that end in no read error, whose checks all find the heartbeat fresh, and whose bytes
   * never advance the detector from `ResetStates[p]`, are decoded by the byte table alone: their
   * paddle events are sent in order, nothing else is, the detector stays where it was, the
   * heartbeat time is that of the last `.` read, and the loop goes on.
   */
  lemma {:induction false} QuietRun(p: nat, since: nat, polls: seq<Poll>)
    requires p < |ResetStates| && NoReadError(polls) && Live(since, polls)
    requires ResetSequence[p] !in ReadBytes(polls)
    ensures Run(DecoderState(ResetStates[p], since, false), polls)
            == RunResult(Events(ReadBytes(polls)), DecoderState(ResetStates[p], LastBeat(since, polls), false))
    decreases |polls|
  {
    if polls != [] {
      var q, rest := polls[0], polls[1..];
      PollsCons(polls);
      QuietRun(p, NextBeat(since, q), rest);
      QuietCons(p, since, q, rest);
      EventsAppend(ReadByte(q), ReadBytes(rest));
    }
  }

  /** None of the announcement's bytes is in the byte table. */
  lemma AnnouncementUnclassified(i: nat)
    requires i < |ResetSequence|
    ensures Classify(ResetSequence[i]) == Ignored
  {
  }

  /** One byte of the announcement, read at the position that expects it while the heartbeat is fresh. */
  lemma AnnouncementStep(i: nat, since: nat, q: Poll)
    requires i < |ResetStates| && q.read == Data(ResetSequence[i])
    requires q.checkedAt < since + (TimeoutSecs + 1) * NanosPerSec
    ensures NextBeat(since, q) == since
    ensures Step(DecoderState(ResetStates[i], since, false), q)
            == if i + 1 < |ResetStates|
               then StepResult(DecoderState(ResetStates[i + 1], since, false), [])
               else StepResult(DecoderState(ResetStates[0], since, false), [Reset])
  {
    DoResetTable(i, ResetSequence[i]);
    AnnouncementUnclassified(i);
  }

  /**
   * Passes that read the rest of an announcement from position `i`, possibly with passes that
   * read nothing in between, and whose checks find the heartbeat fresh, send exactly one Reset and
   * leave the decoder running in its initial detector state, the heartbeat time unchanged.
   */
  lemma {:induction false} AnnouncementRun(i: nat, since: nat, polls: seq<Poll>)
    requires i < |ResetStates| && NoReadError(polls) && Live(since, polls)
    requires ReadBytes(polls) == ResetSequence[i..]
    ensures Run(DecoderState(ResetStates[i], since, false), polls)
            == RunResult([Reset], DecoderState(ResetStates[0], since, false))
    ensures LastBeat(since, polls) == since
    decreases |polls|, 1
  {
    PollsCons(polls);
    if polls[0].read == NoData {
      ZeroLengthRead(DecoderState(ResetStates[i], since, false), polls);
      AnnouncementRun(i, since, polls[1..]);
    } else {
      AnnouncementByte(i, since, polls);
    }
  }

  /** `AnnouncementRun` when the first pass reads the awaited byte. */
  lemma {:induction false} AnnouncementByte(i: nat, since: nat, polls: seq<Poll>)
    requires i < |ResetStates| && NoReadError(polls) && Live(since, polls)
    requires ReadBytes(polls) == ResetSequence[i..] && polls[0].read != NoData
    ensures Run(DecoderState(ResetStates[i], since, false), polls)
            == RunResult([Reset], DecoderState(ResetStates[0], since, false))
    ensures LastBeat(since, polls) == since
    decreases |polls|, 0
  {
    var q, rest := polls[0], polls[1..];
    PollsCons(polls);
    assert q.read == Data(ResetSequence[i]) && ReadBytes(rest) == ResetSequence[i + 1..] by {
      assert ResetSequence[i..] == [ResetSequence[i]] + ResetSequence[i + 1..];
    }
    if i + 1 < |ResetStates| {
      AnnouncementAdvance(i, since, q, rest);
      AnnouncementRun(i + 1, since, rest);
    } else {
      AnnouncementComplete(since, q, rest);
      QuietRun(0, since, rest);
      NoBytesNoBeat(since, rest);
    }
  }

  /** A byte that advances the detector short of the end of the announcement: the run goes on from the next state. */
  lemma AnnouncementAdvance(i: nat, since: nat, q: Poll, rest: seq<Poll>)
    requires i + 1 < |ResetStates| && q.read == Data(ResetSequence[i])
    requires q.checkedAt < since + (TimeoutSecs + 1) * NanosPerSec
    ensures NextBeat(since, q) == since
    ensures Run(DecoderState(ResetStates[i], since, false), [q] + rest) == Run(DecoderState(ResetStates[i + 1], since, false), rest)
  {
    var d := DecoderState(ResetStates[i], since, false);
    AnnouncementStep(i, since, q);
    RunCons(d, q, rest);
    assert [] + Run(Step(d, q).next, rest).sent == Run(Step(d, q).next, rest).sent;
  }

  /** The announcement's last byte: Reset, and the run goes on from the initial detector state. */
  lemma AnnouncementComplete(since: nat, q: Poll, rest: seq<Poll>)
    requires q.read == Data(ResetSequence[|ResetStates| - 1])
    requires q.checkedAt < since + (TimeoutSecs + 1) * NanosPerSec
    ensures NextBeat(since, q) == since
    ensures var next := DecoderState(ResetStates[0], since, false);
            Run(DecoderState(ResetStates[|ResetStates| - 1], since, false), [q] + rest)
            == RunResult([Reset] + Run(next, rest).sent, Run(next, rest).final)
  {
    AnnouncementStep(|ResetStates| - 1, since, q);
    RunCons(DecoderState(ResetStates[|ResetStates| - 1], since, false), q, rest);
  }

  lemma NoReadErrorAppend(a: seq<Poll>, b: seq<Poll>)
    ensures NoReadError(a + b) <==> NoReadError(a) && NoReadError(b)
  {
    assert forall k :: 0 <= k < |a| ==> a[k] == (a + b)[k];
    assert forall k :: 0 <= k < |b| ==> b[k] == (a + b)[|a| + k];
  }

  /**
   * From the initial detector state, passes `a` reading a whole announcement and then passes `b`
   * whose bytes hold no newline, with no read error and the heartbeat always fresh: one Reset,
   * then the byte table's events for `b`, and the loop is still running.
   */
  lemma AnnouncementThenQuiet(since: nat, a: seq<Poll>, b: seq<Poll>)
    requires ReadBytes(a) == ResetSequence && ResetSequence[0] !in ReadBytes(b)
    requires NoReadError(a + b) && Live(since, a + b)
    ensures Run(DecoderState(ResetStates[0], since, false), a + b)
            == RunResult([Reset] + Events(ReadBytes(b)), DecoderState(ResetStates[0], LastBeat(since, b), false))
  {
    var d := DecoderState(ResetStates[0], since, false);
    NoReadErrorAppend(a, b);
    LiveAppend(since, a, b);
    assert Run(d, a) == RunResult([Reset], d) && LastBeat(since, a) == since by {
      assert ResetSequence[0..] == ResetSequence;
      AnnouncementRun(0, since, a);
    }
    QuietRun(0, since, b);
    RunAppend(d, a, b);
  }

  /** Passes that read no byte leave the heartbeat time where it was. */
  lemma {:induction false} NoBytesNoBeat(since: nat, polls: seq<Poll>)
    requires ReadBytes(polls) == []
    ensures LastBeat(since, polls) == since
    decreases |polls|
  {
    if polls != [] {
      NoBytesNoBeat(since, polls[1..]);
    }
  }

  /** With the clock standing still, the passes `Polls(t, bytes)` read `bytes`, without error, and stay live. */
  lemma {:induction false} StandingClock(t: nat, bytes: seq<Byte>)
    ensures ReadBytes(Polls(t, bytes)) == bytes && NoReadError(Polls(t, bytes))
    ensures Live(t, Polls(t, bytes)) && LastBeat(t, Polls(t, bytes)) == t
    decreases |bytes|
  {
    if bytes != [] {
      var polls := Polls(t, bytes);
      assert polls[0] == Poll(t, Data(bytes[0]), t) && polls[1..] == Polls(t, bytes[1..]);
      StandingClock(t, bytes[1..]);
      PollsCons(polls);
      assert ReadByte(polls[0]) == [bytes[0]] && NextBeat(t, polls[0]) == t;
      assert bytes == [bytes[0]] + bytes[1..];
    }
  }

  lemma ScenarioEvents()
    ensures Events([LeftPressByte, HeartbeatByte, LeftReleaseByte, RightPressByte, RightReleaseByte]) == [LeftPress, LeftRelease, RightPress, RightRelease]
  {
    var bytes := [LeftPressByte, HeartbeatByte, LeftReleaseByte, RightPressByte, RightReleaseByte];
    assert Events(bytes[4..]) == [RightRelease] by { assert bytes[4..][1..] == []; }
    assert Events(bytes[3..]) == [RightPress, RightRelease] by { assert bytes[3..][1..] == bytes[4..]; }
    assert Events(bytes[2..]) == [LeftRelease, RightPress, RightRelease] by { assert bytes[2..][1..] == bytes[3..]; }
    assert Events(bytes[1..]) == [LeftRelease, RightPress, RightRelease] by { assert bytes[1..][1..] == bytes[2..]; }
  }

  /** With the clock standing still, a press and release on each paddle, with a heartbeat between, is decoded as those four events. */
  lemma PressesAndReleases(t: nat)
    ensures Run(Start(t), Polls(t, [LeftPressByte, HeartbeatByte, LeftReleaseByte, RightPressByte, RightReleaseByte])).sent
            == [LeftPress, LeftRelease, RightPress, RightRelease]
  {
    var bytes := [LeftPressByte, HeartbeatByte, LeftReleaseByte, RightPressByte, RightReleaseByte];
    StandingClock(t, bytes);
    QuietRun(0, t, Polls(t, bytes));
    ScenarioEvents();
  }

  /** The loop over one more pass at the front. */
  lemma RunCons(d: DecoderState, p: Poll, rest: seq<Poll>)
    requires !d.stopped
    ensures Run(d, [p] + rest) == RunResult(Step(d, p).sent + Run(Step(d, p).next, rest).sent, Run(Step(d, p).next, rest).final)
  {
    assert ([p] + rest)[0] == p && ([p] + rest)[1..] == rest;
  }
}
