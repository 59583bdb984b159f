/**
 * The client's application state (cwduino-client/src/app.rs): the paddle flags, the connection
 * flag, which side plays the dit, and the two child processes playing the dit and dah sounds.
 */
module Application {
  import opened Wire

  /** The events the serial decoder sends to the application. */
  datatype Event = LeftPress | LeftRelease | RightPress | RightRelease | Reset | Disconnected

  datatype AppOptions = AppOptions(ditSide: Side)

  /** `AppOptions::default()`: the left paddle plays the dit. */
  function DefaultOptions(): (o: AppOptions)
    ensures o.ditSide == Left
  {
    AppOptions(Left)
  }

  // ---------------------------------------------------------------------------
  // The process launcher: `Profile`'s commands, `Command::spawn` and `Child::kill`
  // ---------------------------------------------------------------------------

  /** The two sounds, each played by its own script (`dit.sh`, `dah.sh`). */
  datatype Sound = Dit | Dah

  function OtherSound(s: Sound): Sound
  {
    if s == Dit then Dah else Dit
  }

  /** A running child process, known to the application only by identity. */
  datatype Handle = Handle(pid: nat)

  /** What the application asked of the operating system, in order. */
  datatype Request =
    | Start(sound: Sound, child: Option<Handle>)  // a spawn, with what it returned
    | Stop(killed: Handle)                       // a kill, whose result is ignored

  /** The requests that stopping `child` makes: one kill when a child is held, none otherwise. */
  function StopOf(child: Option<Handle>): seq<Request>
  {
    if child.Some? then [Stop(child.value)] else []
  }

  /**
   * Launches and kills the sound scripts. Callers see only the contracts, so whether a spawn
   * succeeds is not known to them: it behaves as an oracle.
   */
  class Launcher {
    var requests: seq<Request>
    var nextPid: nat

    constructor ()
      ensures requests == []
    {
      requests := [];
      nextPid := 0;
    }

    /** `Command::spawn().ok()`: a handle for the new process, or `None` when it could not be started. */
    method Spawn(sound: Sound) returns (child: Option<Handle>)
      modifies this
      ensures requests == old(requests) + [Start(sound, child)]
    {
      child := Some(Handle(nextPid));
      nextPid := nextPid + 1;
      requests := requests + [Start(sound, child)];
    }

    /** `_ = child.kill()`: best effort, nothing is reported back. */
    method Kill(child: Handle)
      modifies this
      ensures requests == old(requests) + [Stop(child)]
    {
      requests := requests + [Stop(child)];
    }
  }

  // ---------------------------------------------------------------------------
  // The event channel (the receiving end of the `mpsc` channel)
  // ---------------------------------------------------------------------------

  class Receiver {
    /** Events sent by the decoder and not yet received, oldest first. */
    var pending: seq<Event>

    constructor (sent: seq<Event>)
      ensures pending == sent
    {
      pending := sent;
    }

    /** `recv_timeout`: the oldest pending event, or `None` when nothing arrives in time. */
    method RecvTimeout() returns (e: Option<Event>)
      modifies this
      ensures old(pending) == [] ==> e == None && pending == []
      ensures old(pending) != [] ==> e == Some(old(pending)[0]) && pending == old(pending)[1..]
    {
      if pending == [] {
        e := None;
      } else {
        e := Some(pending[0]);
        pending := pending[1..];
      }
    }
  }

  // ---------------------------------------------------------------------------
  // The flags, as values
  // ---------------------------------------------------------------------------

  /** The paddle and connection flags of `App`. */
  datatype Flags = Flags(left: bool, right: bool, connected: bool)

  /** The flags `App::new` starts with. */
  const InitialFlags := Flags(false, false, true)

  /** What one event does to the flags. */
  function Next(f: Flags, e: Event): (r: Flags)
    ensures r.connected <==> f.connected && e != Disconnected
    ensures (e == Reset || e == Disconnected) ==> !r.left && !r.right
    ensures e == LeftPress || e == LeftRelease ==> r.left == (e == LeftPress) && r.right == f.right
    ensures e == RightPress || e == RightRelease ==> r.right == (e == RightPress) && r.left == f.left
  {
    match e
    case LeftPress => f.(left := true)
    case RightPress => f.(right := true)
    case LeftRelease => f.(left := false)
    case RightRelease => f.(right := false)
    case Reset => f.(left := false, right := false)
    case Disconnected => Flags(false, false, false)
  }

  /** The flags after each of `events` in turn. */
  function NextAll(f: Flags, events: seq<Event>): Flags
    decreases |events|
  {
    if events == [] then f else NextAll(Next(f, events[0]), events[1..])
  }

  /** The flags after `a + b`: those after `a`, then `b` applied to them. */
  lemma {:induction false} NextAllAppend(f: Flags, a: seq<Event>, b: seq<Event>)
    ensures NextAll(f, a + b) == NextAll(NextAll(f, a), b)
    decreases |a|
  {
    if a == [] {
      assert a + b == b;
    } else {
      assert (a + b)[0] == a[0] && (a + b)[1..] == a[1..] + b;
      NextAllAppend(Next(f, a[0]), a[1..], b);
    }
  }

  /** The flags after `a + [e]`: `e` applied to the flags after `a`. */
  lemma {:induction false} NextAllSnoc(f: Flags, a: seq<Event>, e: Event)
    ensures NextAll(f, a + [e]) == Next(NextAll(f, a), e)
    decreases |a|
  {
    if a == [] {
      assert a + [e] == [e];
    } else {
      assert (a + [e])[0] == a[0] && (a + [e])[1..] == a[1..] + [e];
      NextAllSnoc(Next(f, a[0]), a[1..], e);
    }
  }

  /** No event sets `connected` back to true: once Disconnected has been handled, it stays false. */
  lemma {:induction false} NeverReconnects(f: Flags, events: seq<Event>)
    ensures NextAll(f, events).connected <==> f.connected && Disconnected !in events
    decreases |events|
  {
    if events != [] {
      NeverReconnects(Next(f, events[0]), events[1..]);
      assert events == [events[0]] + events[1..];
    }
  }

  /** Once disconnected, both paddles are released. */
  predicate ReleasedWhenDisconnected(f: Flags)
  {
    !f.connected ==> !f.left && !f.right
  }

  /** The application on its own does not keep ReleasedWhenDisconnected: a press after Disconnected breaks it. */
  lemma PressAfterDisconnect()
    ensures ReleasedWhenDisconnected(Next(InitialFlags, Disconnected))
    ensures !ReleasedWhenDisconnected(Next(Next(InitialFlags, Disconnected), LeftPress))
  {
  }

  /** From a connected state, events in which Disconnected, if it comes at all, comes last, leave the paddles released once disconnected. */
  lemma {:induction false} DisconnectedLast(f: Flags, events: seq<Event>)
    requires f.connected
    requires forall i :: 0 <= i < |events| - 1 ==> events[i] != Disconnected
    ensures ReleasedWhenDisconnected(NextAll(f, events))
    decreases |events|
  {
    if events != [] {
      if events[0] == Disconnected {
        assert events[1..] == [];
      } else {
        var rest := events[1..];
        assert forall i :: 0 <= i < |rest| - 1 ==> rest[i] != Disconnected by {
          forall i | 0 <= i < |rest| - 1
            ensures rest[i] != Disconnected
          {
            assert rest[i] == events[i + 1];
          }
        }
        DisconnectedLast(Next(f, events[0]), rest);
      }
    }
  }

  /** Disconnected is a reset that also clears the connection flag. */
  lemma DisconnectedIsReset(f: Flags)
    ensures Next(f, Disconnected) == Next(f, Reset).(connected := false)
  {
  }

  // ---------------------------------------------------------------------------
  // App
  // ---------------------------------------------------------------------------

  class App {
    var leftPaddle: bool
    var rightPaddle: bool
    var connected: bool
    /** Never reassigned after construction. */
    const options: AppOptions
    /** Stands for the loaded `Profile` together with the operating system it spawns into. */
    const launcher: Launcher
    var ditChild: Option<Handle>
    var dahChild: Option<Handle>

    function Snapshot(): Flags
      reads this
    {
      Flags(leftPaddle, rightPaddle, connected)
    }

    function Paddle(side: Side): bool
      reads this
    {
      if side == Left then leftPaddle else rightPaddle
    }

    /** The sound a paddle side plays under `options.dit_side`. */
    function SoundOf(side: Side): (r: Sound)
      ensures r == Dit <==> side == options.ditSide
      ensures r == Dah <==> side != options.ditSide
    {
      if side == options.ditSide then Dit else Dah
    }

    function Child(s: Sound): Option<Handle>
      reads this
    {
      if s == Dit then ditChild else dahChild
    }

    /** A sound is playing only while the paddle side that plays it is held. */
    ghost predicate Valid()
      reads this
    {
      && (ditChild.Some? ==> Paddle(options.ditSide))
      && (dahChild.Some? ==> Paddle(if options.ditSide == Left then Right else Left))
    }

    /** "Ensure `s` is running": a held child is kept and nothing is spawned; otherwise one spawn, whose result is kept. The other child is untouched. */
    twostate predicate Started(s: Sound)
      reads this, launcher
    {
      && Child(OtherSound(s)) == old(Child(OtherSound(s)))
      && if old(Child(s)).Some?
         then Child(s) == old(Child(s)) && launcher.requests == old(launcher.requests)
         else launcher.requests == old(launcher.requests) + [Start(s, Child(s))]
    }

    /** "Ensure `s` is stopped": the child is killed if there is one, and cleared whatever the kill did. The other child is untouched. */
    twostate predicate Stopped(s: Sound)
      reads this, launcher
    {
      && Child(OtherSound(s)) == old(Child(OtherSound(s)))
      && Child(s) == None
      && launcher.requests == old(launcher.requests) + StopOf(old(Child(s)))
    }

    /** The whole effect of handling event `e`. */
    twostate predicate Applied(e: Event)
      reads this, launcher
    {
      && Snapshot() == Next(old(Snapshot()), e)
      && match e
         case LeftPress => Started(SoundOf(Left))
         case RightPress => Started(SoundOf(Right))
         case LeftRelease => Stopped(SoundOf(Left))
         case RightRelease => Stopped(SoundOf(Right))
         case _ =>
           && ditChild == None && dahChild == None
           && launcher.requests == old(launcher.requests) + StopOf(old(ditChild)) + StopOf(old(dahChild))
    }

    /** `App::new` with `AppOptions::default()`: both paddles up, connected, dit on the left, no sound playing. */
    constructor (launcher: Launcher)
      ensures Snapshot() == InitialFlags
      ensures options.ditSide == Left
      ensures ditChild == None && dahChild == None
      ensures this.launcher == launcher && Valid()
    {
      leftPaddle := false;
      rightPaddle := false;
      connected := true;
      options := DefaultOptions();
      this.launcher := launcher;
      ditChild := None;
      dahChild := None;
    }

    method StartDit()
      modifies this`ditChild, launcher
      ensures Started(Dit)
    {
      if ditChild.Some? {
        return;
      }
      ditChild := launcher.Spawn(Dit);
    }

    method StartDah()
      modifies this`dahChild, launcher
      ensures Started(Dah)
    {
      if dahChild.Some? {
        return;
      }
      dahChild := launcher.Spawn(Dah);
    }

    method KillDit()
      modifies this`ditChild, launcher
      ensures Stopped(Dit)
    {
      var child := ditChild;
      ditChild := None;
      match child {
        case Some(c) => launcher.Kill(c);
        case None =>
      }
    }

    method KillDah()
      modifies this`dahChild, launcher
      ensures Stopped(Dah)
    {
      var child := dahChild;
      dahChild := None;
      match child {
        case Some(c) => launcher.Kill(c);
        case None =>
      }
    }

    method PressLeft()
      requires Valid()
      modifies this`leftPaddle, this`ditChild, this`dahChild, launcher
      ensures Valid() && Applied(LeftPress)
    {
      leftPaddle := true;
      if options.ditSide == Left {
        StartDit();
      } else {
        StartDah();
      }
    }

    method PressRight()
      requires Valid()
      modifies this`rightPaddle, this`ditChild, this`dahChild, launcher
      ensures Valid() && Applied(RightPress)
    {
      rightPaddle := true;
      if options.ditSide == Right {
        StartDit();
      } else {
        StartDah();
      }
    }

    method ReleaseLeft()
      requires Valid()
      modifies this`leftPaddle, this`ditChild, this`dahChild, launcher
      ensures Valid() && Applied(LeftRelease)
    {
      leftPaddle := false;
      if options.ditSide == Left {
        KillDit();
      } else {
        KillDah();
      }
    }

    method ReleaseRight()
      requires Valid()
      modifies this`rightPaddle, this`ditChild, this`dahChild, launcher
      ensures Valid() && Applied(RightRelease)
    {
      rightPaddle := false;
      if options.ditSide == Right {
        KillDit();
      } else {
        KillDah();
      }
    }

    method Reset()
      modifies this`leftPaddle, this`rightPaddle, this`ditChild, this`dahChild, launcher
      ensures Valid() && Applied(Event.Reset)
    {
      leftPaddle := false;
      rightPaddle := false;
      KillDit();
      KillDah();
    }
  }

  /**
   * `update_app`: handle at most one event from the channel. When none arrives in time the
   * application and the launcher are left exactly as they were.
   */
  method UpdateApp(rx: Receiver, app: App)
    requires app.Valid()
    modifies rx, app, app.launcher
    ensures app.Valid()
    ensures old(rx.pending) == [] ==> rx.pending == [] && unchanged(app, app.launcher)
    ensures old(rx.pending) != [] ==> rx.pending == old(rx.pending)[1..] && app.Applied(old(rx.pending)[0])
  {
    var received := rx.RecvTimeout();
    match received {
      case Some(LeftPress) => app.PressLeft();
      case Some(RightPress) => app.PressRight();
      case Some(LeftRelease) => app.ReleaseLeft();
      case Some(RightRelease) => app.ReleaseRight();
      case Some(Reset) => app.Reset();
      case Some(Disconnected) =>
        app.Reset();
        app.connected := false;
      case None =>
    }
  }

  /**
   * The part of `start_tui`'s loop that touches the application: `update_app` once per pass, for
   * `passes` passes (the user ends the loop with Esc, so the number of passes is a parameter). The
   * flags follow the events received, in order, and a sound still plays only while its paddle is held.
   */
  method Serve(rx: Receiver, app: App, passes: nat)
    requires app.Valid()
    modifies rx, app, app.launcher
    ensures app.Valid()
    ensures var n := if passes < |old(rx.pending)| then passes else |old(rx.pending)|;
            && rx.pending == old(rx.pending)[n..]
            && app.Snapshot() == NextAll(old(app.Snapshot()), old(rx.pending)[..n])
  {
    ghost var sent, start := rx.pending, app.Snapshot();
    var i := 0;
    ghost var n := 0;
    while i < passes
      invariant app.Valid()
      invariant n <= |sent| && n <= i <= passes
      invariant n == if i < |sent| then i else |sent|
      invariant rx.pending == sent[n..]
      invariant app.Snapshot() == NextAll(start, sent[..n])
    {
      if rx.pending != [] {
        assert sent[..n + 1] == sent[..n] + [sent[n]];
        NextAllSnoc(start, sent[..n], sent[n]);
        assert sent[n..][1..] == sent[n + 1..];
        n := n + 1;
      }
      UpdateApp(rx, app);
      i := i + 1;
    }
  }
}
