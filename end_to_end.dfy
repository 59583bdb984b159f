/**
 * The board and the client together: the bytes the firmware writes, read by the client's serial
 * loop, and the events it sends, handled by the application.
 */
module EndToEnd {
  import opened Wire
  import opened ResetDetector
  import opened Application
  import opened SerialDecoder
  import opened Firmware

  /** What `setup` writes is exactly the sequence the client's reboot detector waits for. */
  lemma AnnouncementMatches()
    ensures Announcement == ResetSequence
  {
    AnnouncementBytes();
  }

  /** The board's announcement makes `do_reset` report a reboot on its last byte, and on no other, and leaves the detector ready for the next one. */
  lemma AnnouncementAccepted()
    ensures Detect(ResetStates[0], Announcement) == Detection([false, false, false, false, false, false, false, false, true], ResetStates[0])
  {
    AnnouncementMatches();
    AnnouncementDetected();
  }

  /** Nothing `loop` writes is a newline, so its bytes never start an announcement. */
  lemma SessionHasNoNewline(samples: seq<Sample>, leftLast: bool, rightLast: bool)
    ensures forall k :: 0 <= k < |Session(samples, leftLast, rightLast)| ==> Session(samples, leftLast, rightLast)[k] != ResetSequence[0]
  {
    SessionBytes(samples, leftLast, rightLast);
  }

  /**
   * Everything the board writes after power-on, read by the client: the passes `a` read the
   * announcement and the passes `b` what `loop` wrote, each pass one byte or none, at any clock
   * readings so long as no read fails and every check finds the heartbeat fresh. The client sends
   * one Reset for the announcement, then the byte table's events for the passes of `loop`, in
   * order; the loop is still running, its heartbeat time that of the last `.` it read.
   */
  lemma BoardToDecoder(samples: seq<Sample>, t: nat, a: seq<Poll>, b: seq<Poll>)
    requires ReadBytes(a) == Announcement && ReadBytes(b) == Session(samples, false, false)
    requires NoReadError(a + b) && Live(t, a + b)
    ensures Run(SerialDecoder.Start(t), a + b)
            == RunResult([Reset] + Events(Session(samples, false, false)), DecoderState(ResetStates[0], LastBeat(t, b), false))
  {
    AnnouncementMatches();
    SessionHasNoNewline(samples, false, false);
    assert ResetSequence[0] !in Session(samples, false, false);
    AnnouncementThenQuiet(t, a, b);
  }

  /** The events of one paddle's edge byte. */
  lemma EdgeEvents(low: bool, wasLow: bool, side: Side)
    ensures Events(EdgeBytes(low, wasLow, PressByte(side), ReleaseByte(side)))
            == if low && !wasLow then [if side == Left then LeftPress else RightPress]
               else if !low && wasLow then [if side == Left then LeftRelease else RightRelease]
               else []
  {
    var e := EdgeBytes(low, wasLow, PressByte(side), ReleaseByte(side));
    if e != [] {
      assert e[1..] == [];
    }
  }

  /** The events of one pass: the heartbeat gives none, then the left paddle's, then the right paddle's. */
  lemma TickEvents(s: Sample, leftLast: bool, rightLast: bool)
    ensures Events(TickBytes(s.leftLow, s.rightLow, leftLast, rightLast))
            == Events(EdgeBytes(s.leftLow, leftLast, PressByte(Left), ReleaseByte(Left)))
               + Events(EdgeBytes(s.rightLow, rightLast, PressByte(Right), ReleaseByte(Right)))
  {
    var l := EdgeBytes(s.leftLow, leftLast, PressByte(Left), ReleaseByte(Left));
    var r := EdgeBytes(s.rightLow, rightLast, PressByte(Right), ReleaseByte(Right));
    assert TickBytes(s.leftLow, s.rightLow, leftLast, rightLast) == [HeartbeatByte] + (l + r);
    EventsAppend([HeartbeatByte], l + r);
    EventsAppend(l, r);
    assert Events([HeartbeatByte]) == [];
  }

  /** Handling the events of one pass brings the application's paddle flags to the levels the pass read. */
  lemma TickFlags(s: Sample, leftLast: bool, rightLast: bool, connected: bool)
    ensures NextAll(Flags(leftLast, rightLast, connected), Events(TickBytes(s.leftLow, s.rightLow, leftLast, rightLast)))
            == Flags(s.leftLow, s.rightLow, connected)
  {
    var l := Events(EdgeBytes(s.leftLow, leftLast, PressByte(Left), ReleaseByte(Left)));
    var r := Events(EdgeBytes(s.rightLow, rightLast, PressByte(Right), ReleaseByte(Right)));
    var f := Flags(leftLast, rightLast, connected);
    TickEvents(s, leftLast, rightLast);
    EdgeEvents(s.leftLow, leftLast, Left);
    EdgeEvents(s.rightLow, rightLast, Right);
    NextAllAppend(f, l, r);
    assert NextAll(f, l) == Flags(s.leftLow, rightLast, connected);
  }

  /** Over any passes, the application's paddle flags end at the levels the board last read, and it stays connected. */
  lemma {:induction false} FlagsFollowPins(samples: seq<Sample>, leftLast: bool, rightLast: bool)
    ensures NextAll(Flags(leftLast, rightLast, true), Events(Session(samples, leftLast, rightLast)))
            == Flags(LastLevels(samples, leftLast, rightLast).0, LastLevels(samples, leftLast, rightLast).1, true)
    decreases |samples|
  {
    if samples != [] {
      var s := samples[0];
      var tick := TickBytes(s.leftLow, s.rightLow, leftLast, rightLast);
      var rest := Session(samples[1..], s.leftLow, s.rightLow);
      EventsAppend(tick, rest);
      NextAllAppend(Flags(leftLast, rightLast, true), Events(tick), Events(rest));
      TickFlags(s, leftLast, rightLast, true);
      FlagsFollowPins(samples[1..], s.leftLow, s.rightLow);
      if samples[1..] != [] {
        assert samples[1..][|samples[1..]| - 1] == samples[|samples| - 1];
      }
    }
  }

  /**
   * End to end: after the client has handled everything the board wrote since power-on, read
   * while the heartbeat stays fresh, the application shows each paddle held exactly when its
   * pin last read LOW, and it is connected.
   */
  lemma PaddlesTrackPins(samples: seq<Sample>, t: nat, a: seq<Poll>, b: seq<Poll>)
    requires ReadBytes(a) == Announcement && ReadBytes(b) == Session(samples, false, false)
    requires NoReadError(a + b) && Live(t, a + b)
    ensures NextAll(InitialFlags, Run(SerialDecoder.Start(t), a + b).sent)
            == Flags(LastLevels(samples, false, false).0, LastLevels(samples, false, false).1, true)
  {
    BoardToDecoder(samples, t, a, b);
    NextAllAppend(InitialFlags, [Reset], Events(Session(samples, false, false)));
    assert NextAll(InitialFlags, [Reset]) == Flags(false, false, true);
    FlagsFollowPins(samples, false, false);
  }

  /**
   * Whatever the link does (bytes, silence, errors, a stalled heartbeat), the application fed by
   * the serial loop is connected until the loop sends Disconnected, and once it is disconnected
   * both paddles are released and the loop has ended.
   */
  lemma ReleasedOnceDisconnected(d: DecoderState, polls: seq<Poll>)
    ensures var r := Run(d, polls);
            && ReleasedWhenDisconnected(NextAll(InitialFlags, r.sent))
            && (NextAll(InitialFlags, r.sent).connected <==> Disconnected !in r.sent)
            && (!NextAll(InitialFlags, r.sent).connected ==> r.final.stopped)
  {
    var r := Run(d, polls);
    DisconnectedLast(InitialFlags, r.sent);
    NeverReconnects(InitialFlags, r.sent);
  }
}
