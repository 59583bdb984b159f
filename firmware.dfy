/**
 * The paddle firmware (firmware/src/main.cpp): `setup` announces a (re)start on the serial link,
 * and every pass of `loop` sends a heartbeat, then an edge byte for each paddle whose pin level
 * changed since the previous pass. A pin reading LOW means the paddle is held.
 */
module Firmware {
  import opened Wire

  /** `Serial.write("\n\nREADY\n\n")` in `setup`. */
  const Announcement: seq<Byte> := AsciiString("\n\nREADY\n\n")

  /** The announcement, byte by byte. */
  lemma AnnouncementBytes()
    ensures Announcement == [Ascii('\n'), Ascii('\n'), Ascii('R'), Ascii('E'), Ascii('A'), Ascii('D'), Ascii('Y'), Ascii('\n'), Ascii('\n')]
  {
    assert Announcement == AsciiString("\n\nREADY\n\n");
  }

  /** The edge byte one paddle contributes to a pass: a press when it goes down, a release when it comes up. */
  function EdgeBytes(low: bool, wasLow: bool, press: Byte, release: Byte): (r: seq<Byte>)
    ensures r == [press] <==> low && !wasLow
    ensures r == [release] <==> !low && wasLow
    ensures r == [] <==> low == wasLow
    requires press != release
  {
    if low && !wasLow then [press] else if !low && wasLow then [release] else []
  }

  /** The bytes one pass of `loop` writes, given the pin levels and the levels remembered from the previous pass. */
  function TickBytes(leftLow: bool, rightLow: bool, leftLast: bool, rightLast: bool): (r: seq<Byte>)
    ensures 1 <= |r| <= 3 && r[0] == HeartbeatByte
  {
    [HeartbeatByte] + EdgeBytes(leftLow, leftLast, LeftPressByte, LeftReleaseByte)
                    + EdgeBytes(rightLow, rightLast, RightPressByte, RightReleaseByte)
  }

  /**
   * A pass writes the heartbeat first, then the left paddle's byte, then the right paddle's: a
   * press byte exactly when that pin has gone LOW, a release byte exactly when it has come back up.
   */
  lemma TickEdges(leftLow: bool, rightLow: bool, leftLast: bool, rightLast: bool)
    ensures var r := TickBytes(leftLow, rightLow, leftLast, rightLast);
            && (LeftPressByte in r <==> leftLow && !leftLast)
            && (LeftReleaseByte in r <==> !leftLow && leftLast)
            && (RightPressByte in r <==> rightLow && !rightLast)
            && (RightReleaseByte in r <==> !rightLow && rightLast)
            && (r == [HeartbeatByte] <==> leftLow == leftLast && rightLow == rightLast)
  {
  }

  /** The board: the globals `leftLast` and `rightLast`, and everything written to the serial link so far. */
  class Board {
    var leftLast: bool
    var rightLast: bool
    var serial: seq<Byte>

    /** Power-on: the globals' initialisers; nothing has been written yet. */
    constructor ()
      ensures !leftLast && !rightLast && serial == []
    {
      leftLast := false;
      rightLast := false;
      serial := [];
    }

    /** `setup`: the announcement goes out; the paddle memory is untouched. */
    method Setup()
      modifies this`serial
      ensures serial == old(serial) + Announcement
    {
      serial := serial + Announcement;
    }

    /** One pass of `loop`, with `leftLow`/`rightLow` the pin levels `digitalRead` returned. */
    method Loop(leftLow: bool, rightLow: bool)
      modifies this
      ensures serial == old(serial) + TickBytes(leftLow, rightLow, old(leftLast), old(rightLast))
      ensures leftLast == leftLow && rightLast == rightLow
    {
      serial := serial + [HeartbeatByte];
      ghost var left := EdgeBytes(leftLow, leftLast, LeftPressByte, LeftReleaseByte);
      ghost var right := EdgeBytes(rightLow, rightLast, RightPressByte, RightReleaseByte);
      if leftLow {
        if !leftLast {
          serial := serial + [LeftPressByte];
          leftLast := true;
        }
      } else {
        if leftLast {
          serial := serial + [LeftReleaseByte];
        }
        leftLast := false;
      }
      assert serial == old(serial) + [HeartbeatByte] + left;
      if rightLow {
        if !rightLast {
          serial := serial + [RightPressByte];
          rightLast := true;
        }
      } else {
        if rightLast {
          serial := serial + [RightReleaseByte];
        }
        rightLast := false;
      }
      assert serial == old(serial) + [HeartbeatByte] + left + right;
      assert [HeartbeatByte] + left + right == TickBytes(leftLow, rightLow, old(leftLast), old(rightLast));
    }

    /** `loop`, called once for each of `samples` in turn. */
    method Passes(samples: seq<Sample>)
      modifies this
      ensures serial == old(serial) + Session(samples, old(leftLast), old(rightLast))
      ensures (leftLast, rightLast) == LastLevels(samples, old(leftLast), old(rightLast))
    {
      var i := 0;
      while i < |samples|
        invariant 0 <= i <= |samples|
        invariant (leftLast, rightLast) == LastLevels(samples[..i], old(leftLast), old(rightLast))
        invariant serial + Session(samples[i..], leftLast, rightLast)
                  == old(serial) + Session(samples, old(leftLast), old(rightLast))
      {
        SessionUnfold(samples, i, leftLast, rightLast, serial);
        Loop(samples[i].leftLow, samples[i].rightLow);
        assert samples[..i + 1][i] == samples[i];
        i := i + 1;
      }
      assert samples[i..] == [];
      assert samples[..i] == samples;
    }
  }

  // ---------------------------------------------------------------------------
  // Many passes
  // ---------------------------------------------------------------------------

  /** The pin levels one pass of `loop` reads. */
  datatype Sample = Sample(leftLow: bool, rightLow: bool)

  /** The bytes `loop` writes over the passes `samples`, starting from the remembered levels `leftLast`, `rightLast`. */
  function Session(samples: seq<Sample>, leftLast: bool, rightLast: bool): seq<Byte>
    decreases |samples|
  {
    if samples == [] then []
    else
      var s := samples[0];
      TickBytes(s.leftLow, s.rightLow, leftLast, rightLast) + Session(samples[1..], s.leftLow, s.rightLow)
  }

  /** The levels remembered after the passes `samples`. */
  function LastLevels(samples: seq<Sample>, leftLast: bool, rightLast: bool): (bool, bool)
  {
    if samples == [] then (leftLast, rightLast) else (samples[|samples| - 1].leftLow, samples[|samples| - 1].rightLow)
  }

  /** What the Arduino runtime does with the sketch: power-on, `setup` once, then `loop` once for each of `samples`. */
  method RunBoard(samples: seq<Sample>) returns (board: Board)
    ensures board.serial == Announcement + Session(samples, false, false)
    ensures (board.leftLast, board.rightLast) == LastLevels(samples, false, false)
  {
    board := new Board();
    board.Setup();
    assert board.serial == Announcement;
    board.Passes(samples);
  }

  /** The passes from `i` on: pass `i`, then the rest from the levels it read; after the bytes `earlier`. */
  lemma SessionUnfold(samples: seq<Sample>, i: nat, leftLast: bool, rightLast: bool, earlier: seq<Byte>)
    requires i < |samples|
    ensures earlier + Session(samples[i..], leftLast, rightLast)
            == (earlier + TickBytes(samples[i].leftLow, samples[i].rightLow, leftLast, rightLast))
               + Session(samples[i + 1..], samples[i].leftLow, samples[i].rightLow)
  {
    assert samples[i..][0] == samples[i] && samples[i..][1..] == samples[i + 1..];
    var tick := TickBytes(samples[i].leftLow, samples[i].rightLow, leftLast, rightLast);
    var rest := Session(samples[i + 1..], samples[i].leftLow, samples[i].rightLow);
    assert earlier + (tick + rest) == (earlier + tick) + rest;
  }

  // ---------------------------------------------------------------------------
  // What the host sees of one paddle
  // ---------------------------------------------------------------------------

  function PressByte(side: Side): Byte
  {
    if side == Left then LeftPressByte else RightPressByte
  }

  function ReleaseByte(side: Side): Byte
  {
    if side == Left then LeftReleaseByte else RightReleaseByte
  }

  function Level(s: Sample, side: Side): bool
  {
    if side == Left then s.leftLow else s.rightLow
  }

  /** The bytes of `bytes` that are about paddle `side`, in order. */
  function EdgesOf(bytes: seq<Byte>, side: Side): (r: seq<Byte>)
    ensures forall k :: 0 <= k < |r| ==> r[k] == PressByte(side) || r[k] == ReleaseByte(side)
  {
    if bytes == [] then []
    else (if bytes[0] == PressByte(side) || bytes[0] == ReleaseByte(side) then [bytes[0]] else [])
         + EdgesOf(bytes[1..], side)
  }

  lemma {:induction false} EdgesOfAppend(a: seq<Byte>, b: seq<Byte>, side: Side)
    ensures EdgesOf(a + b, side) == EdgesOf(a, side) + EdgesOf(b, side)
    decreases |a|
  {
    if a == [] {
      assert a + b == b;
    } else {
      assert (a + b)[0] == a[0] && (a + b)[1..] == a[1..] + b;
      EdgesOfAppend(a[1..], b, side);
    }
  }

  lemma EdgesOfSingle(b: Byte, side: Side)
    ensures EdgesOf([b], side) == if b == PressByte(side) || b == ReleaseByte(side) then [b] else []
  {
    assert [b][1..] == [];
  }

  /** Paddle `side` sees the edge bytes of paddle `which` only when it is that paddle. */
  lemma EdgesOfEdge(low: bool, wasLow: bool, which: Side, side: Side)
    ensures EdgesOf(EdgeBytes(low, wasLow, PressByte(which), ReleaseByte(which)), side)
            == if which == side then EdgeBytes(low, wasLow, PressByte(which), ReleaseByte(which)) else []
  {
    var e := EdgeBytes(low, wasLow, PressByte(which), ReleaseByte(which));
    if e != [] {
      EdgesOfSingle(e[0], side);
      assert e == [e[0]];
    }
  }

  /** Of one pass's bytes, paddle `side` sees exactly its own edge byte. */
  lemma TickEdgesOf(s: Sample, leftLast: bool, rightLast: bool, side: Side)
    ensures EdgesOf(TickBytes(s.leftLow, s.rightLow, leftLast, rightLast), side)
            == EdgeBytes(Level(s, side), if side == Left then leftLast else rightLast, PressByte(side), ReleaseByte(side))
  {
    var l := EdgeBytes(s.leftLow, leftLast, PressByte(Left), ReleaseByte(Left));
    var r := EdgeBytes(s.rightLow, rightLast, PressByte(Right), ReleaseByte(Right));
    var el, er := EdgesOf(l, side), EdgesOf(r, side);
    assert EdgesOf(TickBytes(s.leftLow, s.rightLow, leftLast, rightLast), side) == el + er by {
      assert TickBytes(s.leftLow, s.rightLow, leftLast, rightLast) == ([HeartbeatByte] + l) + r;
      EdgesOfAppend([HeartbeatByte] + l, r, side);
      EdgesOfAppend([HeartbeatByte], l, side);
      EdgesOfSingle(HeartbeatByte, side);
      assert HeartbeatByte != PressByte(side) && HeartbeatByte != ReleaseByte(side);
      assert [] + el == el;
    }
    EdgesOfEdge(s.leftLow, leftLast, Left, side);
    EdgesOfEdge(s.rightLow, rightLast, Right, side);
    if side == Left {
      assert el + [] == l;
    } else {
      assert [] + er == r;
    }
  }

  /** `edges` alternate press, release, press, ..., beginning with a release if the paddle is `held` already. */
  predicate Alternating(edges: seq<Byte>, side: Side, held: bool)
  {
    if edges == [] then true
    else edges[0] == (if held then ReleaseByte(side) else PressByte(side)) && Alternating(edges[1..], side, !held)
  }

  /**
   * Over any passes, each paddle's bytes alternate press and release. The firmware remembers a
   * level only by sending its edge, so a paddle never reports two presses or two releases in a row.
   */
  lemma {:induction false} EdgesAlternate(samples: seq<Sample>, leftLast: bool, rightLast: bool, side: Side)
    ensures Alternating(EdgesOf(Session(samples, leftLast, rightLast), side), side,
                        if side == Left then leftLast else rightLast)
    decreases |samples|
  {
    if samples != [] {
      var s := samples[0];
      var tick := TickBytes(s.leftLow, s.rightLow, leftLast, rightLast);
      var rest := Session(samples[1..], s.leftLow, s.rightLow);
      EdgesOfAppend(tick, rest, side);
      TickEdgesOf(s, leftLast, rightLast, side);
      EdgesAlternate(samples[1..], s.leftLow, s.rightLow, side);
      var e := EdgesOf(tick, side);
      var held := if side == Left then leftLast else rightLast;
      if e == [] {
        assert Level(s, side) == held;
        assert e + EdgesOf(rest, side) == EdgesOf(rest, side);
      } else {
        assert Level(s, side) == !held;
        assert e == [if held then ReleaseByte(side) else PressByte(side)];
        assert (e + EdgesOf(rest, side))[1..] == EdgesOf(rest, side);
      }
    }
  }

  /** From power-on, with both paddles up, each paddle's first byte, if any, is a press. */
  lemma FirstEdgeIsPress(samples: seq<Sample>, side: Side)
    ensures var e := EdgesOf(Session(samples, false, false), side);
            e != [] ==> e[0] == PressByte(side)
  {
    EdgesAlternate(samples, false, false, side);
  }

  /** Every byte a pass of `loop` writes is the heartbeat or one of the four edge bytes. */
  lemma {:induction false} SessionBytes(samples: seq<Sample>, leftLast: bool, rightLast: bool)
    ensures forall k :: 0 <= k < |Session(samples, leftLast, rightLast)| ==>
              Session(samples, leftLast, rightLast)[k] in {HeartbeatByte, LeftPressByte, LeftReleaseByte, RightPressByte, RightReleaseByte}
    decreases |samples|
  {
    if samples != [] {
      var s := samples[0];
      TickEdges(s.leftLow, s.rightLow, leftLast, rightLast);
      SessionBytes(samples[1..], s.leftLow, s.rightLow);
    }
  }
}
