# CWduino paddle link, modelled in Dafny

CWduino is a practice set for Morse-code paddles. An Arduino board reads two paddle pins. Over a
serial link it sends a one-byte protocol:

- `.` is a heartbeat, sent on every pass of the firmware's `loop`.
- `{` and `[` are press and release of the left paddle.
- `}` and `]` are press and release of the right paddle.
- At start-up the board sends the announcement `\n\nREADY\n\n`.

A desktop client reads the link on its own thread. It turns bytes into events, and a nine-state
machine (`do_reset`) recognises the start-up announcement. At the top of every pass the client
checks the last heartbeat: once more than five whole seconds have passed since it, the client
sends `Disconnected` and stops reading. A read error also stops the reading, without any event. The application turns the events into paddle
flags and starts or kills two child processes, which play the "dit" and "dah" sounds.

The project models three parts and what they do together:

| file | module | models |
|---|---|---|
| `wire.dfy` | `Wire` | bytes on the link and the five protocol bytes, the two paddle sides, `Option`, ASCII literals |
| `reset_detector.dfy` | `ResetDetector` | `do_reset` and the byte streams it recognises |
| `serial_decoder.dfy` | `SerialDecoder` | the body of the client's `run` loop: timeout check, read, reset dispatch, byte table |
| `application.dfy` | `Application` | `App` and its methods, the event channel, the process launcher, `update_app` |
| `firmware.dfy` | `Firmware` | the sketch's globals, `setup` and `loop` |
| `end_to_end.dfy` | `EndToEnd` | the board's output read by the client, and its events handled by the application |

How the source's pieces are represented:

- **`run` loop.** `SerialDecoder.Step` is one pass of the loop, as a function over the loop's locals. `SerialDecoder.Run` is the specification of many passes. `SerialDecoder.RunLoop` is the imperative loop, proved equal to `Run`.
- **Link and clock.** Each pass is a `Poll`. It records the clock reading at the liveness check, the result of the read (no byte, one byte, or an I/O error) and the clock reading when the read returned. The clock is a count of nanoseconds, the precision of a `Duration`. `SerialDecoder.Elapsed` truncates the difference of two readings to whole seconds, as `elapsed().as_secs()` does. `SerialDecoder.Live` says that every check of a run of passes finds the heartbeat fresh, whatever the readings are.
- **Application.** `App` is a class whose methods update its fields in place. Their contracts say exactly what changes. `Next` is the same effect on the paddle and connection flags, written as a value.
- **Sound processes.** They sit behind a `Launcher` object that records every spawn and kill. Its `Spawn` contract does not say whether the spawn succeeded, so every caller must handle both outcomes.
- **Event channel.** `Receiver` is the channel, a FIFO sequence of events.
- **Firmware.** `Board` holds the sketch's globals and everything written to the serial link. `Loop` is one pass of `loop`, given the two pin levels.

Consequences of the code as written:

- **No restart on a wrong byte.** In `do_reset`, a byte that does not continue the announcement leaves the state where it was (the `_ => {}` arm, cwduino-client/src/imp.rs:108); the detector never goes back to `'\0'` on a mismatch. So it waits for the rest of the announcement across any other bytes, and it accepts the announcement as a non-contiguous subsequence.
  - `ResetDetector.HeartbeatInsideAnnouncement` exhibits this: a heartbeat inside the announcement does not stop it from counting.
  - `ResetDetector.ReportsCountAnnouncements` gives the exact meaning: from `'\0'`, at least `k` reboots are reported exactly when `k` announcements occur one after another in the input as a subsequence. `ResetDetector.NoResetWithoutAnnouncement` and `ResetDetector.AnnouncedAreReported` are its two directions.
- **Early report mid-match.** From the states `'Y'` and `'0'`, a fresh announcement completes the pending match early, on its first or second newline. Even so, a whole announcement always produces exactly one report, from whatever state the detector was in (`ResetDetector.DetectedFromAnyState`).
- **Released when disconnected.** A reader might expect "disconnected ⇒ both paddles released" to be an invariant of `App`. It is not one of `App` alone: a press after `Disconnected` sets a paddle flag again (`Application.PressAfterDisconnect`). It holds for the client as a whole, because the serial loop sends nothing after `Disconnected` (`EndToEnd.ReleasedOnceDisconnected`).
- **Failed spawn.** A spawn that fails leaves the handle `None`. The next press of that paddle then spawns again, so "two presses spawn at most once" holds only when the first spawn succeeded (`Application.App.StartDit`).

## Model

| member | source | states |
|---|---|---|
| `Wire.AsciiString` | firmware/src/main.cpp:19 | the bytes of a C string literal are its characters' codes, one per character, in order |
| `ResetDetector.DoReset` | cwduino-client/src/imp.rs:90-111 | outside the nine states nothing changes; a reboot is reported exactly on `'\n'` in state `'0'` |
| `ResetDetector.DoResetTable` | cwduino-client/src/imp.rs:91-108 | state `i` advances to state `i+1` (wrapping to `'\0'`) exactly on announcement byte `i`; any other byte leaves the state unchanged and reports nothing |
| `ResetDetector.StaysInResetStates` | cwduino-client/src/imp.rs:40 | starting inside the nine states, any byte stream keeps the detector inside them |
| `ResetDetector.AnnouncementDetected` | cwduino-client/src/imp.rs:84-107 | from `'\0'`, the nine announcement bytes report false eight times, then true, and end back at `'\0'` |
| `ResetDetector.DetectedFromAnyState` | cwduino-client/src/imp.rs:91-109 | from any of the nine states, one whole announcement makes the detector report exactly one reboot |
| `ResetDetector.PartialAnnouncement` | cwduino-client/src/imp.rs:91-103 | the first `p` announcement bytes take `'\0'` to state `p` without any report |
| `ResetDetector.InterruptedThenComplete` | cwduino-client/src/imp.rs:108 | "\n\nREAD", then any byte but `Y`, then a full announcement, reports exactly one reboot |
| `ResetDetector.HeartbeatInsideAnnouncement` | cwduino-client/src/imp.rs:108 | a `.` inside the announcement does not stop it from being recognised, so the match is not contiguous |
| `ResetDetector.ResetsAreAnnounced` | cwduino-client/src/imp.rs:91-110 | from state `p`, the `k` reports on a stream require the rest of the announcement and then `k-1` further whole announcements to occur in the stream as a subsequence |
| `ResetDetector.NoResetWithoutAnnouncement` | cwduino-client/src/imp.rs:104-110 | from `'\0'`, `k` reports need `k` announcements in the input as a subsequence; without one, no reboot is ever reported |
| `ResetDetector.AnnouncedAreReported` | cwduino-client/src/imp.rs:91-110 | from state `p`, a stream holding the rest of the announcement and then `k-1` whole announcements as a subsequence makes the detector report at least `k` reboots |
| `ResetDetector.ReportsCountAnnouncements` | cwduino-client/src/imp.rs:91-110 | from `'\0'`, at least `k` reboots are reported iff `k` announcements occur one after another in the input as a subsequence |
| `ResetDetector.ReportedIffAnnounced` | cwduino-client/src/imp.rs:91-110 | from `'\0'`, a reboot is reported iff the announcement occurs in the input as a subsequence |
| `SerialDecoder.Start` | cwduino-client/src/imp.rs:36-40 | the loop starts running, with the heartbeat time at the start time and the detector in its initial state, the one the announcement's first byte advances |
| `SerialDecoder.Elapsed` | cwduino-client/src/imp.rs:46 | the whole seconds between two clock readings, the fraction dropped; zero when the later reading is not later |
| `SerialDecoder.TimedOut` | cwduino-client/src/imp.rs:46 | the liveness check fails exactly when at least six whole seconds (more than the five-second timeout) have passed since the last heartbeat |
| `SerialDecoder.Classify` | cwduino-client/src/imp.rs:63-72 | the byte table: each of `{ } [ ]` is its own paddle event and no other byte is, `.` alone is the heartbeat, and no byte yields Reset or Disconnected |
| `SerialDecoder.Step` | cwduino-client/src/imp.rs:43-73 | at most one event per pass; Disconnected, and then the loop ends, exactly when the heartbeat is older than the timeout; the loop also ends on a read error, which sends nothing, and on nothing else; a zero-length read changes nothing; Reset exactly when `do_reset` reports; only `.` moves the heartbeat time, to when it arrived; the detector sees exactly the bytes read |
| `SerialDecoder.Run` | cwduino-client/src/imp.rs:43-76 | over any passes, Disconnected is sent at most once and only as the last event, and the loop has then ended; a loop that has ended sends nothing more |
| `SerialDecoder.RunLoop` | cwduino-client/src/imp.rs:37-76 | the imperative loop sends exactly the events `Run` describes and ends in the locals `Run` describes |
| `SerialDecoder.PaddleBytes` | cwduino-client/src/imp.rs:63-72 | on a byte that does not complete an announcement, `{` `}` `[` `]` yield LeftPress, RightPress, LeftRelease, RightRelease, each iff that byte; every other byte yields nothing; `.` alone refreshes the heartbeat |
| `SerialDecoder.ZeroLengthRead` | cwduino-client/src/imp.rs:51-54 | a zero-length read returns to the timeout check: the loop goes on exactly as if the pass had not happened |
| `SerialDecoder.TimeoutEndsRun` | cwduino-client/src/imp.rs:46-49 | once the heartbeat is too old, the loop sends Disconnected alone and ends, whatever would have followed |
| `SerialDecoder.RunAppend` | cwduino-client/src/imp.rs:43-74 | the loop over `a + b` is the loop over `a`, then over `b` from where `a` left it |
| `SerialDecoder.Polls` | cwduino-client/src/imp.rs:51 | each byte read by its own pass, with the clock standing still |
| `SerialDecoder.LiveAppend` | cwduino-client/src/imp.rs:46-49 | the heartbeat stays fresh over `a + b` iff it does over `a`, and then over `b` from the last heartbeat `a` read |
| `SerialDecoder.ReadBytesAppend` | cwduino-client/src/imp.rs:51-54 | the bytes read by `a + b` are those read by `a`, then those read by `b` |
| `SerialDecoder.QuietRun` | cwduino-client/src/imp.rs:43-73 | at any clock readings that keep the heartbeat fresh, passes without read errors whose bytes never advance the detector are decoded by the byte table alone, in order; passes that read nothing change nothing; the detector stays put, the heartbeat time is that of the last `.` read, and the loop goes on |
| `SerialDecoder.StandingClock` | cwduino-client/src/imp.rs:46-51 | the passes of a clock standing still read their bytes without error and keep the heartbeat fresh |
| `SerialDecoder.PressesAndReleases` | cwduino-client/src/imp.rs:63-72 | with the clock standing still, the stream `{ . [ } ]` is decoded as LeftPress, LeftRelease, RightPress, RightRelease |
| `SerialDecoder.AnnouncementStep` | cwduino-client/src/imp.rs:46-61 | with the heartbeat fresh, an announcement byte at its position advances the detector and sends nothing, except the last, which sends exactly Reset and is not decoded as anything else; the heartbeat time stays |
| `SerialDecoder.AnnouncementRun` | cwduino-client/src/imp.rs:43-61 | at any clock readings that keep the heartbeat fresh, passes that read the rest of an announcement, with passes reading nothing in between, send exactly one Reset, leave the heartbeat time and return the detector to `'\0'` |
| `SerialDecoder.AnnouncementThenQuiet` | cwduino-client/src/imp.rs:43-73 | from `'\0'`, a whole announcement and then bytes without a newline, read while the heartbeat stays fresh, give one Reset, then the byte table's events, with the loop still running |
| `Application.Launcher.Spawn` | cwduino-client/src/app.rs:83 | a spawn is recorded with its outcome, which callers cannot predict |
| `Application.Launcher.Kill` | cwduino-client/src/app.rs:103 | a kill is recorded; nothing is reported back |
| `Application.Receiver.RecvTimeout` | cwduino-client/src/app.rs:197 | the oldest pending event is received and removed, or nothing when none is pending |
| `Application.Next` | cwduino-client/src/app.rs:196-208 | `connected` becomes false on Disconnected and never becomes true; Reset and Disconnected release both paddles; a press or release sets its own side's flag and leaves the other's |
| `Application.NeverReconnects` | cwduino-client/src/app.rs:203-206 | after any events the application is connected iff it was before and none of them was Disconnected |
| `Application.PressAfterDisconnect` | cwduino-client/src/app.rs:43-50 | the application alone does not keep "disconnected ⇒ released": a press after Disconnected breaks it |
| `Application.DisconnectedIsReset` | cwduino-client/src/app.rs:203-206 | Disconnected has the effect of Reset plus clearing `connected` |
| `Application.DisconnectedLast` | cwduino-client/src/app.rs:196-208 | from a connected state, events with Disconnected only at the end leave both paddles released once disconnected |
| `Application.DefaultOptions` | cwduino-client/src/app.rs:127-133 | by default the left paddle plays the dit |
| `Application.App.SoundOf` | cwduino-client/src/app.rs:43-76 | a side plays the dit iff it is `options.dit_side`, and the dah otherwise |
| `Application.App.constructor` | cwduino-client/src/app.rs:114-133 | both paddles up, connected, dit on the left, no sound process |
| `Application.App.StartDit` | cwduino-client/src/app.rs:78-84 | with a dit process already held nothing is spawned; otherwise one spawn, whose result (possibly none) becomes the handle; the dah handle is untouched |
| `Application.App.StartDah` | cwduino-client/src/app.rs:86-92 | as `StartDit`, for dah |
| `Application.App.KillDit` | cwduino-client/src/app.rs:101-106 | the dit handle is None afterwards whatever the kill did; one kill if there was a handle, none otherwise; the dah handle is untouched |
| `Application.App.KillDah` | cwduino-client/src/app.rs:107-112 | as `KillDit`, for dah |
| `Application.App.PressLeft` | cwduino-client/src/app.rs:43-50 | left flag set, right flag and `connected` unchanged; dit started if dit is on the left, dah otherwise; a sound plays only while its paddle is held |
| `Application.App.PressRight` | cwduino-client/src/app.rs:52-59 | as `PressLeft`, for the right side |
| `Application.App.ReleaseLeft` | cwduino-client/src/app.rs:61-68 | left flag cleared; the left side's sound stopped and its handle cleared; the other handle untouched |
| `Application.App.ReleaseRight` | cwduino-client/src/app.rs:69-76 | as `ReleaseLeft`, for the right side |
| `Application.App.Reset` | cwduino-client/src/app.rs:94-99 | both flags cleared, both handles cleared with one kill each for those held, `connected` unchanged |
| `Application.UpdateApp` | cwduino-client/src/app.rs:196-208 | with no event pending the application and the launcher are unchanged; otherwise the oldest event is consumed and has exactly its effect |
| `Application.Serve` | cwduino-client/src/app.rs:143-145 | after `n` passes of `update_app` the flags are those after the first `n` pending events (or all of them), in order |
| `Firmware.EdgeBytes` | firmware/src/main.cpp:34-45 | a press byte exactly when the pin went LOW, a release byte exactly when it came back up, nothing when it stayed |
| `Firmware.TickBytes` | firmware/src/main.cpp:32-58 | a pass writes one to three bytes, the heartbeat first |
| `Firmware.TickEdges` | firmware/src/main.cpp:32-58 | a pass writes `{` iff the left pin went LOW, `[` iff it came up, likewise `}` `]` for the right; only the heartbeat when nothing changed |
| `Firmware.Board.constructor` | firmware/src/main.cpp:24-25 | both remembered levels start released and nothing has been written |
| `Firmware.Board.Setup` | firmware/src/main.cpp:19 | `setup` writes the announcement and nothing else |
| `Firmware.Board.Loop` | firmware/src/main.cpp:27-58 | a pass writes exactly the pass's bytes and remembers the levels it read |
| `Firmware.Board.Passes` | firmware/src/main.cpp:27-58 | repeated passes write the session's bytes and remember the last levels read |
| `Firmware.RunBoard` | firmware/src/main.cpp:8-61 | after power-on, `setup` and any passes, the link carries the announcement followed by the session's bytes |
| `Firmware.EdgesAlternate` | firmware/src/main.cpp:34-58 | over any passes each paddle's bytes alternate press and release, never two of a kind in a row |
| `Firmware.FirstEdgeIsPress` | firmware/src/main.cpp:24-25 | from power-on each paddle's first byte is a press |
| `Firmware.SessionBytes` | firmware/src/main.cpp:32-58 | `loop` writes only the heartbeat and the four edge bytes |
| `EndToEnd.AnnouncementMatches` | firmware/src/main.cpp:19 | what `setup` writes is exactly the sequence `do_reset` waits for |
| `EndToEnd.AnnouncementAccepted` | firmware/src/main.cpp:19 | the board's announcement makes `do_reset` report on its ninth byte only and leaves it ready for the next |
| `EndToEnd.BoardToDecoder` | cwduino-client/src/imp.rs:43-73 | read one byte or none per pass, without read errors and at clock readings that keep the heartbeat fresh, the board's whole output is decoded as one Reset followed by the edge events, in order, and the loop keeps running |
| `EndToEnd.TickFlags` | cwduino-client/src/app.rs:196-208 | handling one pass's events brings the paddle flags to the levels that pass read |
| `EndToEnd.FlagsFollowPins` | cwduino-client/src/app.rs:196-208 | over any passes the application's paddle flags end at the levels the board last read |
| `EndToEnd.PaddlesTrackPins` | cwduino-client/src/app.rs:114-133 | from start-up on both sides, read as in `BoardToDecoder`, once the client has handled everything, each paddle shows held exactly when its pin last read LOW, and the link is connected |
| `EndToEnd.ReleasedOnceDisconnected` | cwduino-client/src/imp.rs:46-49 | for any link behaviour, the application is connected until Disconnected arrives; once disconnected both paddles are released and the serial loop has ended |

## Left out

- **Opening and configuring the port.** The serial settings and `set_timeout` are I/O. The timeout is the constant `TimeoutSecs = 5`, and the blocking `serial.read` is a `Read` value in each `Poll`.
- **The reader thread.** Spawning it and the `mpsc` channel are concurrency. The channel is the FIFO `Receiver`, and the events sent are the result of `Run`. A failed `tx.send` is ignored in the source and is not modelled.
- **The clock.** `Instant::now` and `elapsed` are replaced by the two readings stored in each `Poll`, in nanoseconds. Any clock reading is allowed, so a clock coarser than a nanosecond is covered too.
- **The user interface.** Terminal rendering, the widgets, crossterm key polling and the Esc exit are out. The number of `update_app` passes is a parameter of `Application.Serve`.
- **Loading the sound scripts.** `profile.rs` loads and checks the scripts. `Profile::load` failing in `App::new` is not modelled, and `App` is built from a `Launcher`. Spawning is modelled only as the `Launcher` contract.
- **Program entry.** `main.rs` is entry-point plumbing.
- **Board hardware.** Pin modes, the LED writes, `Serial.begin`, the `while(!Serial)` wait and `delay(20)` are hardware. The unused global `lastLED` is not modelled. The pin levels are parameters of `Board.Loop`.
- `EndToEnd.BoardToDecoder`, `EndToEnd.PaddlesTrackPins`, `SerialDecoder.QuietRun`, `SerialDecoder.AnnouncementRun`: they assume the heartbeat stays fresh (`SerialDecoder.Live`), rather than deriving it from the timing of the board's 20 ms passes and the client's reads, which is real-time behaviour outside this model. These lemmas also assume that no read fails. A stale heartbeat or a read error ends the loop, as `SerialDecoder.TimeoutEndsRun` and `SerialDecoder.Step` state and as `EndToEnd.ReleasedOnceDisconnected` covers for any passes.
- **Printing the read error.** An I/O error on `serial.read` ends the loop; the printing done by the thread is not modelled.
- `Application.Launcher.Spawn`: its body always succeeds. Its contract leaves the outcome open, and callers see only the contract, as the operating system's answer is not part of this model.
