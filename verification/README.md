# MiSTerPlex daemon: a Dafny model

MiSTerPlex plays Plex media on a MiSTer FPGA board. Its daemon, `misterplexd`, shares one hardware register with
MiSTer's Main process, races play, stop and seek requests from several controllers against each other, streams H.264
records to the FPGA through a ring in shared memory, and tells Plex clients and the Plex server what it is playing. This
project models the parts of that daemon, and of its tools, whose correctness is hardest to see, and proves what they
promise for every input, every interleaving or every run.

`dafny verify dfyconfig.toml` checks everything. There is one module a component:

- `GpoSharing`, `GpoProgress`: Main and any number of daemon processes and threads on the GPO register, one step at a time:
  what is kept safe, and that windows end.
- `PlaySupersession`, `PlayProgress`: detached `doPlay` threads, stops and seeks on the generation counters and their
  mutexes: what may start, and what does.
- `PlayerRestart`: the player's own play, stop and seek, which the FPGA remote reaches past `doPlay`.
- `BitstreamCodec`, `BitstreamRing`: the record format, and the ring producer as an object over a real array.
- `Companion`, `CompanionHolds`, `CompanionShows`: the companion's session as an object, what its two holds guarantee over
  runs, and what the timeline shows after each event.
- `TimelinePush`, `CommandIds`: the push loop, and command ids with their controller table.
- `TimelineReporter`: the reporter to the Plex server, its queue, its worker and its session rules.
- `Mailbox`: torn reads and liveness of the FPGA's status and input mailboxes.
- `LogRedact`, `LogRedactClean`, `LogRedactSecrets`, `LogRedactText`: redaction of secrets in the log, what it leaves behind,
  what it hides, and the same in plain characters.
- `AnnexB`, `Cadence`, `AvClock`, `I420`, `NalBurst`: exact kernels of the library and the tools.
- `Options`, `Division`: what several of them share.

The concurrent parts are state machines: a `State`, an `Action`, `Enabled`, `Apply` and an inductive invariant, with
theorems about `IsRun`. The parts that the program writes as objects or loops are classes and methods, each proved
against a specification function that the lemmas then reason about.

## Where the code falls short of what one would expect

Each of these is stated as a lemma, with the exact condition under which the code does what is wanted.

- `resumeStrandedMain` can resume Main inside an open window: run by a second process, or by the same process if the window
  opened between its load of the pause counter and its signal (`GpoSharing.WindowIsReached`). The signal keeps the invariant
  exactly when that Main process was not stopped for a window or the owner is already resuming it
  (`GpoSharing.ResumeKeepsInvIff`); with one process it finds nothing stopped if no window opened since the load
  (`GpoSharing.OneProcessStrandsNothing`).
- `MediaPlayer::seekMs` copies the session's URL and restarts with the copy later, past `doPlay`'s mutex. A stop is final,
  until a new session is played, exactly when no seek holds such a copy (`PlayerRestart.StopIsFinalIff`).
- The bitstream reader in the FPGA extends the 31-bit write count with zeros; its level is right exactly while bit 31
  of the true count is clear, and it stops with an overrun otherwise (`BitstreamRing.ReaderLevelExactIff`). A read count
  left over from before a flush passes the room test exactly when it is small or large enough
  (`BitstreamRing.StaleCountPassesIff`).
- A late report re-arms a stopped session once the last subscriber is gone (`CompanionHolds.LateReportAfterUnsubscribe`);
  `CompanionHolds.RearmsIff` and `CompanionHolds.HoldLostIff` say exactly when.
- A report that lengthens the known duration is still bounded by the old one, so the timeline shows the old end once
  (`CompanionShows.ShownWithinDurationIff`).
- A command id that is not a decimal lets a smaller decimal id in afterwards (`CommandIds.LowersIffNonDecimal`).
- Redaction does not hide every secret. In header form after `;` or `?`, exactly the values without blanks and other query
  terminators are hidden, and only if no blank follows the colon (`LogRedactSecrets.HeaderHiddenIff`): in
  `X-Plex-Token=x;token: s` the `s` stays. In query form exactly the values are hidden in which no earlier header pass finds
  a key (`LogRedactSecrets.QueryHiddenIff`).
- Both mailbox readers are sound for the core, which publishes the magic in every word (`Mailbox.InputWordWasPublished`,
  `Mailbox.OsdWordWasPublished`), but not for a publisher that also uses other low halves (`Mailbox.InputSoundIff`,
  `Mailbox.OsdSoundIff`).
- `nextPow2` returns 0 above 2^63 (`NalBurst.NextPow2`).

## Model

| member | source | states |
|---|---|---|
| `GpoSharing.DaemonStoresOnlyWhileParked` | arm/misterplexd/fpga_spi.cpp:119-342 | In every interleaving of Main with any daemon threads and processes, whenever a daemon step stores to GPO or changes it, every Main task is stopped, not inside a handshake, and Main's enable and strobe bits are clear |
| `GpoSharing.RunningMainOwnsGpo` | arm/misterplexd/fpga_spi.cpp:165-283 | In every reachable state in which some Main task runs, GPO equals Main's own shadow, which Main never re-reads |
| `GpoSharing.NestedFrameIsInert` | arm/misterplexd/fpga_spi.cpp:326-342 | Leaving a nested frame neither restores nor resumes nor unlocks; leaving the outermost one always goes on to restore |
| `GpoSharing.EveryExitResumesMain` | arm/misterplexd/fpga_spi.cpp:233-283 | In every run the step that ends a window and the step that gives up both leave no stop in effect, every Main task running and GPO Main's, whatever other threads and processes are doing |
| `GpoSharing.MainRunsWhileLockIsFree` | arm/misterplexd/fpga_spi.cpp:285-342 | In every reachable state in which nobody holds the file lock, Main runs and GPO is its shadow |
| `GpoSharing.UnsafeBodyLeavesMainAlone` | arm/misterplexd/fpga_spi.cpp:263-267 | The body after giving up cannot store, and Main runs meanwhile |
| `GpoSharing.RestoreHandsBack` | arm/misterplexd/fpga_spi.cpp:269-280 | The destructor's write of the saved word re-establishes GPO equal to shadow before any SIGCONT |
| `GpoSharing.StrandedResumeBreaksWindow` | arm/misterplexd/fpga_spi.cpp:362-370 | In every open window over a Main task, the signal of a resume breaks the invariant: the task runs and the owner may still store |
| `GpoSharing.ResumeKeepsInvIff` | arm/misterplexd/fpga_spi.cpp:366-369 | The signal keeps the invariant exactly when that Main process has no stop in effect or the lock's holder is already sending SIGCONT |
| `GpoSharing.OneProcessStrandsNothing` | arm/misterplexd/fpga_spi.cpp:362-370 | With one daemon process, a resume that loaded zero finds nothing stopped at its signal if no window of the process opened since the load |
| `GpoSharing.WindowIsReached` | arm/misterplexd/fpga_spi.cpp:362-370 | A run of nine steps of one process reaches an open window over a stopped Main task; a resume that loaded its counter before the run, or in a second process now, may signal the task, which then runs while the owner may still store |
| `GpoSharing.StepKeepsInv` | arm/misterplexd/fpga_spi.cpp:182-342 | Every step of Main, of the kernel and of every daemon thread keeps the invariant that ties locks, frames, stops, register and shadow together |
| `GpoSharing.RunKeepsInv` | arm/misterplexd/fpga_spi.cpp:182-342 | The invariant holds in every state of every run |
| `GpoSharing.StoresWithEnablesDown` | arm/misterplexd/fpga_spi.cpp:119-126 | In every run, whenever a daemon step stores to or changes GPO while a Main task exists, bits 17, 18, 19 and 20 of Main's shadow are all clear |
| `GpoSharing.JudgeOpensIff` | arm/misterplexd/fpga_spi.cpp:240-262 | A sampled word opens the window exactly when those four bits are clear; with any of them set the daemon backs off |
| `GpoSharing.AttemptsRunOut` | arm/misterplexd/fpga_spi.cpp:233-267 | Each new attempt uses one up, every Main process is stopped in an attempt, and without attempts left the daemon gives up |
| `GpoProgress.WindowEndsWithMainRunning` | arm/misterplexd/fpga_spi.cpp:269-342 | From every reachable state in which a thread is in its one frame's body, its own steps alone end with every Main task running, GPO Main's word, and mutex, depth and file lock given up |
| `GpoProgress.ConstructorEnds` | arm/misterplexd/fpga_spi.cpp:233-267 | Even if Main never stops, the thread's own steps lead through all its attempts to the body, which then knows that it is not safe; without Main it is safe at once |
| `GpoProgress.WindowCloses` | arm/misterplexd/fpga_spi.cpp:269-280 | From any state, the destructor writes the saved word, signals every Main process and gives up file lock and mutex |
| `GpoProgress.SignalsAll` | arm/misterplexd/fpga_spi.cpp:253-267 | A list of processes to resume is worked off: exactly those run afterwards and nothing else has changed |
| `GpoProgress.ContIsSent` | arm/misterplexd/fpga_spi.cpp:275-279 | A SIGCONT lifts the stop of its process, wakes exactly its tasks and crosses it off the list |
| `GpoProgress.StopIsSent` | arm/misterplexd/fpga_spi.cpp:244-247 | A SIGSTOP asks exactly its process to stop, and the poll waits for exactly the tasks of the stopped processes |
| `GpoProgress.PollSeesStopped` | arm/misterplexd/fpga_spi.cpp:195-231 | A task counts only when it is seen stopped or gone, and GPO is sampled exactly when all are |
| `PlaySupersession.StartsHoldNewestGeneration` | arm/misterplexd/main.cpp:957-1340 | In every run a demux that `doPlay` starts has the newest generation issued so far |
| `PlaySupersession.StartsStrictlyIncrease` | arm/misterplexd/main.cpp:957-1340 | The generations of successive starts strictly increase, and so do the tickets of the seeks among them |
| `PlaySupersession.StopIsFinal` | arm/misterplexd/main.cpp:1527-1542 | Once a stop's critical section has ended, `doPlay` starts nothing numbered before it, and no demux of its that is numbered before it plays, in any later state |
| `PlaySupersession.NothingStartsUntilArmed` | arm/misterplexd/main.cpp:1232-1300 | From the end of a stop's critical section until something arms the companion again, no demux of `doPlay` plays and it starts none, for no request, issued before the stop or after it |
| `PlaySupersession.CommitsExclude` | arm/misterplexd/main.cpp:1131-1340 | At most one thread is inside the hand-off section |
| `PlaySupersession.SeeksRunInIssueOrder` | arm/misterplexd/main.cpp:1550-1584 | Seeks that pass their check do so in strictly increasing issue order |
| `PlaySupersession.SeekDroppedIffSuperseded` | arm/misterplexd/main.cpp:1550-1584 | A seek is dropped at its check exactly when a newer one had been issued; otherwise exactly its ticket is run |
| `PlaySupersession.StepKeepsInv` | arm/misterplexd/main.cpp:957-1584 | Every step of every thread keeps the invariant |
| `PlaySupersession.RunKeepsInv` | arm/misterplexd/main.cpp:957-1584 | The invariant holds in every state of every run |
| `PlayProgress.CheckDropsIffSuperseded` | arm/misterplexd/main.cpp:963-1013 | In every run doPlay's two comparisons return exactly when a newer generation was issued; otherwise the request goes on under its own generation and nothing else changes |
| `PlayProgress.GateLeavesIff` | arm/misterplexd/main.cpp:1232-1300 | In every run each of the four gates from the one before binding on turns the request away exactly when a newer generation was issued or the companion no longer wants to play, and otherwise leads to the next stage |
| `PlayProgress.RequestLeavesIff` | arm/misterplexd/main.cpp:1131-1260 | The gate after taking the mutex leaves exactly when superseded or not accepted; the player is then stopped; the aspect call and the bind leave exactly when they fail |
| `PlayProgress.SectionStep` | arm/misterplexd/main.cpp:1131-1340 | A step of the section gives the mutex back exactly when it returns, adds a start exactly when player.play() worked, and touches no counter and no latch |
| `PlayProgress.NumberIsTaken` | arm/misterplexd/main.cpp:957-962 | A queued request keeps its number; any other takes the next one, which is then the newest |
| `PlayProgress.FinishLetsGo` | arm/misterplexd/main.cpp:1550-1584 | A thread that has returned lets go of seekMu exactly if it is the seek that holds it |
| `PlayProgress.UnhinderedPlayStarts` | arm/misterplexd/main.cpp:957-1340 | From every state in which a request is current and wanted and the mutex is free, its own steps alone lead to its demux playing, one start recorded and the mutex free |
| `PlayProgress.UnhinderedSeekStarts` | arm/misterplexd/main.cpp:1550-1584 | So do those of the newest seek of library media when both mutexes are free |
| `PlayProgress.UnhinderedStopEnds` | arm/misterplexd/main.cpp:1527-1542 | A stop that finds the mutex free takes a generation of its own, clears the latch and leaves nothing playing |
| `PlayProgress.PlayIsReached` | arm/misterplexd/main.cpp:957-1340 | A run from the start state: one cast, armed, and nothing but its own steps end with generation 1 playing and one start |
| `PlayProgress.StartedIff` | arm/misterplexd/main.cpp:1300-1340 | In every run a start is recorded exactly by the step that calls player.play() and sees it work |
| `PlayerRestart.StopIsFinalIff` | arm/misterplexd/media_player.cpp:1448-1475 | Over all runs of the player from a finished stop until a new session is played, nothing plays exactly when no seek holds a copy of the dropped URL |
| `PlayerRestart.OnlyCopiesComeBack` | arm/misterplexd/media_player.cpp:1562-1591 | What plays in such a run is a session whose URL some seek had copied before the stop dropped it |
| `PlayerRestart.RestartAfterStop` | arm/misterplexd/media_player.cpp:1562-1647 | Each such copy can bring its session back |
| `PlayerRestart.LateCopyIsEmpty` | arm/misterplexd/media_player.cpp:1567-1579 | A seek that reads the URL after the stop does nothing |
| `PlayerRestart.PlaysCurrentUrl` | arm/misterplexd/media_player.cpp:1593-1647 | In every run from the idle player a demux plays only while lifeMu_ is free, and only the session of the current URL |
| `PlayerRestart.StopStopsPlayPlays` | arm/misterplexd/media_player.cpp:1448-1475 | A stop leaves nothing playing and no URL; a play that presents leaves its session playing and its URL set |
| `PlayerRestart.StopIsUndone` | arm/misterplexd/media_player.cpp:1562-1647 | A run from the idle player in which a seek that copied the URL before a stop brings the session back after it |
| `PlayerRestart.SeekIsSpent` | arm/misterplexd/media_player.cpp:1562-1591 | A seek uses its copy once, for a restart or not at all, and leaves the other seeks theirs |
| `BitstreamCodec.DecodeStream` | arm/misterplexd/fpga_spi.cpp:552-631 | Decoding the bytes of any run of records gives exactly those records back, in order |
| `BitstreamCodec.HeaderFields` | arm/misterplexd/fpga_spi.cpp:598-614 | Every field of a written header reads back as the record's |
| `BitstreamCodec.FrameFields` | host/libmisterplex/ddr_bitstream_ring.hpp:145-153 | Any 32 bytes with a record's fields followed by its payload are framed as that record, whatever follows |
| `BitstreamCodec.Put32` | arm/misterplexd/fpga_spi.cpp:599-604 | The word reads back and no other byte changes |
| `BitstreamCodec.Put64` | arm/misterplexd/fpga_spi.cpp:605-608 | Both halves read back as the value and no other byte changes |
| `BitstreamCodec.HeaderBytes` | arm/misterplexd/fpga_spi.cpp:598-614 | The header byte by byte: the magic 0x504C584E, the event by its number, the NAL type, the low bytes of session, sequence number and length, and zeros in the reserved bytes |
| `BitstreamCodec.FramedIff` | host/libmisterplex/ddr_bitstream_ring.hpp:145-153 | Exactly which bytes are framed as a record: the magic, a known event, the zero word, the whole payload, and none but on a NAL record |
| `BitstreamRing.RoomIsExact` | arm/misterplexd/fpga_spi.cpp:581-596 | The wrapping guard decides true free space exactly, at any distance past 2^32 |
| `BitstreamRing.WaitTestIsExact` | arm/misterplexd/fpga_spi.cpp:539-551 | The signed-difference test equals comparing the true counts, within half the range |
| `BitstreamRing.OverwriteIffNoRoom` | arm/misterplexd/fpga_spi.cpp:581-628 | A record hits an unread byte exactly when the free space is too small |
| `BitstreamRing.SplicesPlace` | arm/misterplexd/fpga_spi.cpp:616-623 | The two split copies put every byte at its stream position modulo the ring size and touch no other slot |
| `BitstreamRing.MaskIsRemainder` | arm/misterplexd/fpga_spi.cpp:617 | Masking a 32-bit count with the ring size less one is the remainder the model uses |
| `BitstreamRing.HoldsGrows` | arm/misterplexd/fpga_spi.cpp:616-628 | Appending a record keeps every unread byte, old and new, at its slot |
| `BitstreamRing.RoomWasSeen` | arm/misterplexd/fpga_spi.cpp:581-596 | When the wait loop lets a record through, some truthful poll had shown real room for it |
| `BitstreamRing.RingIsRecordFifo` | arm/misterplexd/fpga_spi.cpp:539-640 | From any record boundary still in the ring, reading the ring and decoding gives exactly the records from there on, wherever ring and counters have wrapped |
| `BitstreamRing.Producer.FlushRing` | arm/misterplexd/fpga_spi.cpp:2026-2038 | The ring is empty and zeroed, the count 0, the epoch flipped and published |
| `BitstreamRing.Producer.WriteBytes` | arm/misterplexd/fpga_spi.cpp:616-623 | Bytes land at their stream positions modulo the ring size, split or not, and the wrapped count moves on by their number |
| `BitstreamRing.Producer.CopyAndPublish` | arm/misterplexd/fpga_spi.cpp:624-628 | Header and payload land as one encoded record, and the control word carries the count after both |
| `BitstreamRing.Producer.Append` | arm/misterplexd/fpga_spi.cpp:598-631 | The record joins the stream, and a ring with room still holds every byte from the read position on |
| `BitstreamRing.Producer.WriteRecord` | arm/misterplexd/fpga_spi.cpp:552-631 | A record is appended to the stream whole and published at a record boundary, with every byte from the last seen read position kept, or it is refused and nothing changes |
| `BitstreamRing.WaitForRoom` | arm/misterplexd/fpga_spi.cpp:581-596 | The loop ends with room exactly on the first poll that shows it |
| `BitstreamRing.WaitReadCount` | arm/misterplexd/fpga_spi.cpp:539-551 | It reports success exactly when a readable poll's true count had reached the target |
| `BitstreamRing.ReaderLevelExactIff` | fpga/Plex_MiSTer/rtl/ddr_bitstream_reader.sv:626-650 | The reader's level is the true level exactly while bit 31 of the count is clear; otherwise it exceeds the ring |
| `BitstreamRing.StaleCountPassesIff` | arm/misterplexd/fpga_spi.cpp:581-596 | After a flush, which left-over read counts let the first record through |
| `BitstreamRing.SettlesOnce` | arm/misterplexd/fpga_spi.cpp:581-596 | The polls leave the wait loop no choice: it ends once, in one way |
| `BitstreamRing.SettlesTruly` | arm/misterplexd/fpga_spi.cpp:573-596 | With a truthful reader every ending is true: room really seen, a full ring at every poll, or the first fatal poll |
| `Companion.CompanionState.SetState` | arm/misterplexd/companion.cpp:486-582 | The object's new session is the report function of the old one: the stop hold, the plant hold, the clamps and the latch, and when a push is asked for |
| `Companion.CompanionState.BindMedia` | arm/misterplexd/companion.cpp:584-629 | A bind is accepted only for the staged request of a live session, and otherwise changes nothing |
| `Companion.CompanionState.SeedPlaybackPosition` | arm/misterplexd/companion.cpp:631-649 | A seed plants its clamped position as time and scrub target and takes a known duration, in a live and in an idle session alike; it arms nothing |
| `Companion.CompanionState.StagePlay` | arm/misterplexd/companion.cpp:651-680 | Staging makes a fresh live session for the request |
| `Companion.CompanionState.ClearMedia` | arm/misterplexd/companion.cpp:682-702 | Clearing leaves an idle session under the stop hold |
| `Companion.CompanionState.TimelineXml` | arm/misterplexd/companion.cpp:405-484 | What the timeline shows is a function of the session, and reading it changes nothing |
| `Companion.CompanionState.PlayMediaRequest` | arm/misterplexd/companion.cpp:1292-1368 | The handler serves one playMedia event: a fresh live session for the request, with a stand-in for a missing key |
| `Companion.CompanionState.StopRequest` | arm/misterplexd/companion.cpp:1408-1420 | The handler serves one stop event: bound, idle, under the stop hold |
| `Companion.CompanionState.PauseOrResumeRequest` | arm/misterplexd/companion.cpp:1369-1407 | Pause and resume report the state at the current time to a live session and leave an idle one idle |
| `Companion.CompanionState.SeekRequest` | arm/misterplexd/companion.cpp:1421-1463 | A seek that moves a live session plants the clamped offset; any other only binds the cast |
| `Companion.CompanionState.StepRequest` | arm/misterplexd/companion.cpp:1464-1516 | A step that moves a live session plants the clamped target |
| `Companion.CompanionState.SkipPreviousRequest` | arm/misterplexd/companion.cpp:1531-1563 | skipPrevious plants a restart at 0 in a live session that is not there already |
| `Companion.CompanionState.MirrorRequest` | arm/misterplexd/companion.cpp:1220-1268 | A mirror stages its media in an idle session and leaves a live one alone |
| `Companion.CompanionState.PollRequest` | arm/misterplexd/companion.cpp:1200-1219 | A poll binds the cast and holds an idle session |
| `Companion.CompanionState.UnsubscribeRequest` | arm/misterplexd/companion.cpp:1183-1197 | The last unsubscribe unbinds the cast and gives up the hold of an idle session |
| `CompanionHolds.PlantsStartHold` | arm/misterplexd/companion.cpp:1292-1563 | A play, stage, seek, step, skip or seed that moves the time starts a hold at the clamped target and shows it |
| `CompanionHolds.EventAgainstHold` | arm/misterplexd/companion.cpp:486-582 | One event of calm traffic ends the hold exactly when it is a releasing report, and the timeline then shows its clamped time, or 0 for an end without a media key |
| `CompanionHolds.ScrubHold` | arm/misterplexd/companion.cpp:486-582 | Over any run of reports, polls, subscriptions, pauses, resumes, skipNext and requests that do not move, the hold lasts exactly until a report releases it, and while it lasts the timeline shows a time in [T - 2000, T + 400) |
| `CompanionHolds.HoldEndsOnRelease` | arm/misterplexd/companion.cpp:486-582 | A run that lost the hold lost it at one releasing report, whose time the timeline then showed |
| `CompanionHolds.UnknownReportAgainstHold` | arm/misterplexd/companion.cpp:486-582 | A report in an unknown state, which no caller sends, keeps the plant; the timeline stays near it exactly when the report's clamped time, or 0 without a key, is near it |
| `CompanionHolds.StopHold` | arm/misterplexd/companion.cpp:1408-1420 | After an HTTP stop, any run of reports, stale binds, seeds, polls, mirrors and playback requests keeps the session idle and every timeline at navigation, with no media and time 0, until playMedia, a staged play or the last unsubscribe |
| `CompanionHolds.RearmsIff` | arm/misterplexd/companion.cpp:486-702 | Exactly which events make an idle session live |
| `CompanionHolds.HoldLostIff` | arm/misterplexd/companion.cpp:1183-1197 | Exactly which events give up the stop hold |
| `CompanionHolds.LateReportAfterUnsubscribe` | arm/misterplexd/companion.cpp:1183-1197 | Stop, last unsubscribe and one late report leave a live session |
| `CompanionHolds.StaleBindIsRefused` | arm/misterplexd/companion.cpp:584-629 | After a play is staged, over any traffic without a play, stop, mirror or keyless bind, the staged key stays and a bind for another key changes nothing |
| `CompanionShows.LiveReportIsShown` | arm/misterplexd/companion.cpp:486-582 | To a live session without a plant, a playing, paused or buffering report is shown: its state, its media, its time within the report's and the session's durations, 0 for a negative one, and its duration |
| `CompanionShows.ShownWithinDurationIff` | arm/misterplexd/companion.cpp:505-515 | Such a time is shown bounded by the duration then in force, except exactly when the report itself lengthens a known duration past its time |
| `CompanionShows.LastReportIsShown` | arm/misterplexd/companion.cpp:486-582 | After any run that leaves a live session without a plant, the next report within its duration is what the timeline shows |
| `CompanionShows.OtherReportsShow` | arm/misterplexd/companion.cpp:486-582 | A stop report keeps the time of a live session, a held idle session ignores progress, and an unheld one is armed by it |
| `CompanionShows.ReleasedIff` | arm/misterplexd/companion.cpp:534-571 | In the report's own numbers: a plant is given up exactly by a playing or paused report 400 ms past it or by an end at most 2000 ms before it |
| `CompanionShows.HeldReportIsShown` | arm/misterplexd/companion.cpp:534-571 | Under a plant buffering shows the plant, a rewind of more than 2000 ms is not shown, and any other time is shown as it is, within the durations |
| `CompanionShows.HeldEndIsShown` | arm/misterplexd/companion.cpp:534-571 | An end is shown under a plant exactly when it is at most 2000 ms before it |
| `CompanionShows.PlayIsShown` | arm/misterplexd/companion.cpp:651-680 | A cast or staged play shows its own offset, key, queue, container and version at once, and plants the offset |
| `CompanionShows.SeekIsShown` | arm/misterplexd/companion.cpp:1421-1463 | A seek shows and plants its offset within the duration; one that does not move shows nothing new |
| `CompanionShows.StepIsShown` | arm/misterplexd/companion.cpp:1464-1516 | A step lands its own distance from the current time, within 0 and the duration |
| `CompanionShows.SkipIsShown` | arm/misterplexd/companion.cpp:1517-1563 | skipPrevious shows and plants 0; skipNext leaves the session alone |
| `CompanionShows.SeedIsShown` | arm/misterplexd/companion.cpp:631-649 | A seed of a live session shows and plants its position within the duration it leaves in force |
| `CompanionShows.SeedOfIdle` | arm/misterplexd/companion.cpp:631-649 | A seed of an idle session sets the same position and arms nothing |
| `CompanionShows.BindIsShown` | arm/misterplexd/companion.cpp:584-629 | An accepted bind shows the request's key, queue, container, version and duration, and the plant or time within that duration |
| `CompanionShows.BindTakenIff` | arm/misterplexd/companion.cpp:584-602 | Exactly which binds are taken: in a live session, when the keys agree or one is missing |
| `CompanionShows.PauseIsShown` | arm/misterplexd/companion.cpp:1369-1407 | Pause and resume change nothing but the state of a live session within its bounds |
| `CompanionShows.StopIsShown` | arm/misterplexd/companion.cpp:682-702 | A stop leaves the empty session under the hold, shown as buffering at navigation |
| `CompanionShows.MirrorIsStaged` | arm/misterplexd/companion.cpp:1220-1268 | A mirror leaves an active session alone; otherwise it stages the request's media, with its container exactly when that names a play queue, idle and held |
| `CompanionShows.IdleIgnoresRequests` | arm/misterplexd/companion.cpp:1369-1563 | Playback requests to an idle session only bind the cast |
| `CompanionShows.PollsAndUnsubscribes` | arm/misterplexd/companion.cpp:1183-1219 | Polls hold and the last unsubscribe releases an idle session; neither changes what a live one shows |
| `CompanionShows.LiveSessionShows` | arm/misterplexd/companion.cpp:405-484 | A live session with a key is on the full screen with its time, duration and media, and buffering when it is quiet |
| `CompanionShows.KeylessSessionShows` | arm/misterplexd/companion.cpp:405-484 | What a live session without a key shows, state by state |
| `CompanionShows.IdleSessionShows` | arm/misterplexd/companion.cpp:405-484 | An idle session is at navigation with time 0, and buffering while it is quiet and held or bound |
| `TimelinePush.NoUpdateIsLost` | arm/misterplexd/companion.cpp:704-711 | In every interleaving, a change whose push request completed is still pending, or every XML of the round that cleared the flag is built from a state at least that new |
| `TimelinePush.QuietMeansDelivered` | arm/misterplexd/companion.cpp:886-941 | When the loop waits with nothing pending, every subscriber whose subscribe completed was posted a state at least as new as every completed request |
| `TimelinePush.OnlyClearLowersPending` | arm/misterplexd/companion.cpp:886-912 | Only a due round lowers the pending flag |
| `TimelinePush.StepKeepsInv` | arm/misterplexd/companion.cpp:704-941 | Every step of requesters, subscribers and loop keeps the invariant |
| `TimelinePush.RunKeepsInv` | arm/misterplexd/companion.cpp:704-941 | The invariant holds in every state of every run |
| `TimelinePush.SubscribeKeepsOthers` | arm/misterplexd/companion.cpp:723-740 | A subscribe keeps every subscriber and adds the new one, unless eight others are there: then exactly the first is gone |
| `TimelinePush.SubscribeAppends` | arm/misterplexd/companion.cpp:723-740 | The order stays and the new subscriber comes last |
| `TimelinePush.AnnouncedLeavesOnly` | arm/misterplexd/companion.cpp:704-941 | In every run a subscriber whose subscribe completed leaves only by its own unsubscribe, after a third failed post in a row, or as the oldest of eight when another subscribes |
| `TimelinePush.FailuresAreStreak` | arm/misterplexd/companion.cpp:916-935 | In every run the failure count of a subscriber is the number of failed posts since its last good one or its subscribe |
| `TimelinePush.ThirdFailureDrops` | arm/misterplexd/companion.cpp:929-932 | A third failed post in a row drops the subscriber |
| `TimelinePush.RequestAsks` | arm/misterplexd/companion.cpp:704-711 | A request leaves the flag up, keeps an immediate one immediate, and completes the subscribe or change it belongs to |
| `TimelinePush.LoopServes` | arm/misterplexd/companion.cpp:886-941 | A waiting loop takes a pending push exactly when it is immediate or a second has passed since the last round, copies the whole table and posts the current state to each in turn |
| `TimelinePush.UnsubscribeRemoves` | arm/misterplexd/companion.cpp:785-803 | An unsubscribe takes exactly its subscriber out and leaves the others in their order |
| `TimelinePush.TallyOutcome` | arm/misterplexd/companion.cpp:916-935 | A good post clears a subscriber's failures, a failed one counts one more, and one for a subscriber that has left counts for nothing |
| `TimelinePush.OneIsServed` | arm/misterplexd/companion.cpp:886-941 | A run in which a subscriber is posted a change |
| `CommandIds.ComparesNumerically` | arm/misterplexd/companion.cpp:139-161 | For digit strings of any length and any leading zeros, newer-or-equal is the comparison of the numbers |
| `CommandIds.CommandTable.UpdateTimelineCommand` | arm/misterplexd/companion.cpp:744-771 | The table becomes its update, and exactly the addressed subscribers get the id the table now holds |
| `CommandIds.CommandTable.TimelineCommandFor` | arm/misterplexd/companion.cpp:773-783 | The answer is the id stored after the update, or "0" |
| `CommandIds.UpdateKeepsTable` | arm/misterplexd/companion.cpp:744-771 | At most sixteen entries, one a controller |
| `CommandIds.AnswerIsLargestSinceNonDecimal` | arm/misterplexd/companion.cpp:744-783 | After any run in which an entry stays, it holds the largest of its own controller's decimal ids since the last non-decimal one, whatever the other controllers sent |
| `CommandIds.StoredNeverDecreases` | arm/misterplexd/companion.cpp:744-783 | With decimal ids only, the stored id is the maximum of all of them, so it never goes down |
| `CommandIds.LowersIffNonDecimal` | arm/misterplexd/companion.cpp:151-161 | An id can let a smaller decimal in afterwards exactly when it is not a decimal |
| `CommandIds.UpdateDropsOnlyOldest` | arm/misterplexd/companion.cpp:744-771 | An update drops an entry exactly when the controller is new and sixteen are there, and then only the first; every other entry keeps its id |
| `CommandIds.SameControllerIff` | arm/misterplexd/companion.cpp:749-754 | Two requests are one controller's exactly when they name the same id, or neither has one and their host is the same |
| `CommandIds.UnknownIsZero` | arm/misterplexd/companion.cpp:773-783 | A controller without an entry is answered "0" |
| `CommandIds.ValueIsDecimal` | arm/misterplexd/companion.cpp:139-149 | Appending a digit multiplies the value of an id by ten and adds the digit |
| `CommandIds.DecimalIff` | arm/misterplexd/companion.cpp:139-144 | A decimal id is one or more of the ten digits |
| `CommandIds.TableStaysSmall` | arm/misterplexd/companion.cpp:744-771 | From the empty table on, after any requests: at most sixteen entries, no two of one controller |
| `CommandIds.KnownControllersStay` | arm/misterplexd/companion.cpp:744-771 | While only controllers of the table send, nobody is dropped from it |
| `TimelineReporter.UpdatesAreConserved` | arm/misterplexd/pms_timeline.cpp:172-255 | In every run each enqueued update is exactly one of sent, in flight, waiting or dropped; what goes out is in enqueue order; at most four wait |
| `TimelineReporter.StoppedDroppedOnlyUnderStopped` | arm/misterplexd/pms_timeline.cpp:172-192 | One update is dropped at a time, and a "stopped" only when all four waiting are "stopped" |
| `TimelineReporter.WorkerLeavesNothing` | arm/misterplexd/pms_timeline.cpp:224-255 | When the worker exits, everything enqueued so far was sent or dropped |
| `TimelineReporter.StepKeepsConserved` | arm/misterplexd/pms_timeline.cpp:172-255 | Every step of callers and worker keeps the books balanced |
| `TimelineReporter.Victim` | arm/misterplexd/pms_timeline.cpp:181-187 | The victim is the oldest update that is not "stopped", or the oldest when all are |
| `TimelineReporter.SessionIsSpaced` | arm/misterplexd/pms_timeline.cpp:92-154 | Over a whole session no state is sent twice in a row, except "stopped", and "playing" at least a second later |
| `TimelineReporter.NoIdleRepeats` | arm/misterplexd/pms_timeline.cpp:122-154 | The same from any point of a session, given its last emission |
| `TimelineReporter.SilentAfterEnd` | arm/misterplexd/pms_timeline.cpp:156-170 | After a session ended nothing is sent until the next begin |
| `TimelineReporter.PmsTimelineReporter.EnqueueUpdate` | arm/misterplexd/pms_timeline.cpp:172-192 | The object's queue takes the modelled enqueue step |
| `TimelineReporter.PmsTimelineReporter.TakeNext` | arm/misterplexd/pms_timeline.cpp:224-255 | The worker takes the front, or is told that there is nothing |
| `TimelineReporter.PmsTimelineReporter.ReportState` | arm/misterplexd/pms_timeline.cpp:135-154 | A report is decided and enqueued as the session rules say, and nothing else changes |
| `TimelineReporter.PmsTimelineReporter.DecideReport` | arm/misterplexd/pms_timeline.cpp:122-152 | The first lock section decides, and remembers, as the session rules say |
| `TimelineReporter.PmsTimelineReporter.BeginSession` | arm/misterplexd/pms_timeline.cpp:92-120 | A begin forgets the last session and enqueues "buffering", or leaves the reporter inactive |
| `TimelineReporter.PmsTimelineReporter.EndSessionNow` | arm/misterplexd/pms_timeline.cpp:156-170 | An end enqueues one "stopped" for an active session and makes it inactive |
| `TimelineReporter.PmsTimelineReporter.DropOne` | arm/misterplexd/pms_timeline.cpp:181-187 | The search removes exactly the victim |
| `TimelineReporter.ReportSentIff` | arm/misterplexd/pms_timeline.cpp:122-154 | A report is sent exactly when the session is active, a request can be built, its state is one of the four, and it is "stopped", or not the state sent last, or "playing" 1000 ms after the last "playing"; and what is remembered then |
| `TimelineReporter.BeginAndEnd` | arm/misterplexd/pms_timeline.cpp:92-170 | A begin sends one "buffering" and forgets the last session; an end sends one "stopped" for an active one |
| `TimelineReporter.DroppedIffFull` | arm/misterplexd/pms_timeline.cpp:172-192 | In every run at most four wait, and an update is dropped exactly when a fifth comes, which is then waiting last |
| `TimelineReporter.WorkerSendsInTurn` | arm/misterplexd/pms_timeline.cpp:224-255 | In every run the worker takes the oldest waiting update and sends what it took |
| `TimelineReporter.WorkerDrains` | arm/misterplexd/pms_timeline.cpp:224-255 | From every state after a stop request the worker alone sends everything that waits, in order, drops nothing and exits |
| `TimelineReporter.NothingAfterExit` | arm/misterplexd/pms_timeline.cpp:224-255 | In every run nothing is sent once the worker has exited |
| `TimelineReporter.FewAreAllSent` | arm/misterplexd/pms_timeline.cpp:172-255 | A run for any four updates or fewer before a stop: all go out, in order, and the worker exits |
| `Mailbox.InputWordWasPublished` | arm/misterplexd/fpga_spi.cpp:865-894 | Over all four attempts every word that passes the double read was published while it was being read: for the core, which puts the magic in every low half, whatever the high halves do; for any low halves, if no high half comes back |
| `Mailbox.ReadInput` | arm/misterplexd/fpga_spi.cpp:873-891 | The loop returns the first pair of equal reads, or none |
| `Mailbox.InputSoundIff` | arm/misterplexd/fpga_spi.cpp:873-891 | Over all runs with high halves free, for which sets of low halves the reader accepts only published words: those that are the magic alone, or lack it |
| `Mailbox.OsdWordWasPublished` | arm/misterplexd/fpga_spi.cpp:792-837 | Over all four attempts, with a publisher that puts the magic in every low half, every word taken was published while it was being read, whatever the high halves |
| `Mailbox.OsdSoundIff` | arm/misterplexd/fpga_spi.cpp:802-809 | For which sets of low halves the reader takes only published words: those that are the magic alone, or lack it |
| `Mailbox.OsdMailbox.ReadOsdMailbox` | arm/misterplexd/fpga_spi.cpp:792-837 | The object takes the first stable word with the magic as one observation, and is unchanged otherwise |
| `Mailbox.OsdMailbox.Accept` | arm/misterplexd/fpga_spi.cpp:810-834 | One stable word is one observation, and its status is handed out exactly when the observation leaves the publisher alive |
| `Mailbox.OsdMailbox.Release` | arm/misterplexd/fpga_spi.cpp:730-733 | After the map is released every observation is judged as at a first mapping, and the first is not shown |
| `Mailbox.ShownIffRecentChange` | arm/misterplexd/fpga_spi.cpp:810-834 | Over a whole mapping, a status is handed out exactly when the sequence number was seen to move, at most 2000 ms ago |
| `Mailbox.InputFirstAgreement` | arm/misterplexd/fpga_spi.cpp:873-891 | The first attempt whose loads agree decides, and its word is valid exactly with 0x504C5849 in the low half |
| `Mailbox.TornIff` | arm/misterplexd/fpga_spi.cpp:873-891 | The input reader makes four attempts of four loads, and is left without a word exactly when the loads of none agree |
| `Mailbox.OsdFirstStable` | arm/misterplexd/fpga_spi.cpp:792-809 | The status attempts decided in turn: the first stable one with 0x504C5853 is taken, the first without it ends the search, and none leaves nothing |
| `Mailbox.SteadyOsdWordIsTaken` | arm/misterplexd/fpga_spi.cpp:802-809 | A word that stands still is taken exactly with 0x504C5853 in the low half |
| `LogRedact.RedactSensitive` | arm/misterplexd/log_redact.hpp:18-84 | The nested find-and-replace loops end, and compute the eight passes one after the other |
| `LogRedact.RedactPass` | arm/misterplexd/log_redact.hpp:43-79 | One loop computes one pass over the whole text |
| `LogRedact.ReplaceAt` | arm/misterplexd/log_redact.hpp:48-59 | Each round leaves less text unread and keeps the pass's result |
| `LogRedact.Find` | arm/misterplexd/log_redact.hpp:48 | The first occurrence at or after a position, or none |
| `LogRedactClean.NothingLeaks` | arm/misterplexd/log_redact.hpp:18-84 | After all eight passes every key at a boundary, in either form, is followed by REDACTED and a terminator |
| `LogRedactClean.UnchangedIffRedacted` | arm/misterplexd/log_redact.hpp:18-84 | A text is left alone exactly when every key in it is redacted already |
| `LogRedactClean.RedactIsIdempotent` | arm/misterplexd/log_redact.hpp:18-84 | Redacting twice is redacting once |
| `LogRedactClean.NoKeyNoChange` | arm/misterplexd/log_redact.hpp:12-17 | Byte-identical when no key stands at a boundary |
| `LogRedactSecrets.SecretsDoNotShow` | arm/misterplexd/log_redact.hpp:18-84 | Two texts that differ only in one shielded secret redact to the same text, whatever stands around it: any header value up to the line end behind a query terminator or at the start, any header value without query terminators right behind its colon, any query value in which no earlier header pass finds a key |
| `LogRedactSecrets.HeaderHiddenIff` | arm/misterplexd/log_redact.hpp:43-79 | Exactly which header values are hidden after a boundary in every context: all of them if it ends a query value; else the empty one and, behind no blanks, those without a query terminator |
| `LogRedactSecrets.QueryHiddenIff` | arm/misterplexd/log_redact.hpp:43-79 | Exactly which query values are hidden in every context: those in which no header pass before the rule's own finds a key, as the passes before it leave them |
| `LogRedactSecrets.PlainIsQuiet` | arm/misterplexd/log_redact.hpp:33-39 | Every value without a boundary character meets that condition, for every rule |
| `LogRedactSecrets.FirstRuleIsQuiet` | arm/misterplexd/log_redact.hpp:25-30 | Every value of the first rule meets it, since no header pass runs before it |
| `LogRedactSecrets.PassThenEnd` | arm/misterplexd/log_redact.hpp:43-79 | A pass works on the two sides of a terminator independently |
| `LogRedactText.OutputLooksRedacted` | arm/misterplexd/log_redact.hpp:18-84 | In every redacted text each of the four key names, at the start or behind one of the nine characters, is followed by REDACTED and one of the characters that end its value, in a header after its blanks |
| `LogRedactText.UnchangedIffLooksRedacted` | arm/misterplexd/log_redact.hpp:18-84 | In the same characters: a text is left alone exactly when every such key in it has its value hidden |
| `LogRedactText.QueryIsReplaced` | arm/misterplexd/log_redact.hpp:43-59 | In a text that otherwise looks redacted a query value is replaced and nothing else changes |
| `LogRedactText.OneQuery` | arm/misterplexd/log_redact.hpp:43-59 | With one key in the text: Redact(a Key=v z) is a Key=REDACTED z |
| `LogRedactText.OneHeader` | arm/misterplexd/log_redact.hpp:61-79 | With one key in the text: a header value is replaced up to the end of its line, and its leading blanks stay |
| `LogRedactText.KeyElsewhereStays` | arm/misterplexd/log_redact.hpp:33-39 | A key behind any other character is left alone, and its value with it |
| `LogRedactText.NoColonIsQuiet` | arm/misterplexd/log_redact.hpp:61-79 | Every value without a colon meets the condition under which a query value is hidden |
| `LogRedactClean.PassClean` | arm/misterplexd/log_redact.hpp:43-79 | A pass leaves its own key redacted everywhere |
| `LogRedactClean.PassKeepsClean` | arm/misterplexd/log_redact.hpp:40-80 | A pass undoes no other pass |
| `AnnexB.AnalyzerSplit` | tools/analyze_h264_intra_mbs.cpp:35-55 | The two loops return a unit for each start code with a byte behind it, ending at the next start |
| `AnnexB.GoldenSplit` | tools/extract_h264_golden.cpp:168-204 | The scan returns the units of its specification |
| `AnnexB.StartsAreExact` | tools/analyze_h264_intra_mbs.cpp:29-45 | On arbitrary bytes the scan finds, in increasing order, exactly the start codes that are not the tail of a longer one |
| `AnnexB.SplittersAgree` | tools/extract_h264_golden.cpp:168-204 | On arbitrary bytes the extractor returns the analyzer's units without the empty ones |
| `AnnexB.SplitUndoesJoin` | tools/extract_h264_golden.cpp:168-204 | Valid units joined with any mix of 3- and 4-byte start codes split, in both tools, into the same ranges, headers and types |
| `AnnexB.SplitReturnsBytes` | tools/extract_h264_golden.cpp:168-204 | The k-th range holds the k-th unit's bytes |
| `AnnexB.UnitsTileTheData` | tools/analyze_h264_intra_mbs.cpp:35-60 | Appending the analyzer's units in turn gives back the data from the first start code on |
| `AnnexB.StopIsTheEnd` | tools/analyze_h264_intra_mbs.cpp:46-53 | Nothing is lost at the end but a bare four-byte start code |
| `Cadence.NoIndexIsSkipped` | host/libmisterplex/cadence.hpp:13-31 | Each tick shows the same content frame or the next one, and advances exactly in the second case |
| `Cadence.UniqueFramesIn` | host/libmisterplex/cadence.hpp:34-40 | N ticks give floor((N-1)f/h)+1 unique frames, or N when the content is not slower than the display |
| `Cadence.EverySecondIsFull` | host/libmisterplex/cadence.hpp:13-31 | Any h consecutive ticks show exactly f new frames |
| `Cadence.AnyWindow` | host/libmisterplex/cadence.hpp:13-31 | Any L consecutive ticks show floor or ceil of Lf/h |
| `Cadence.GapsAreEven` | host/libmisterplex/cadence.hpp:13-31 | Consecutive advances are floor or ceil of h/f ticks apart |
| `Cadence.FloorOrCeilIs` | host/libmisterplex/cadence.hpp:13-20 | The rounding predicate is the quotient, or one more when there is a remainder |
| `Cadence.FitsMachineWords` | host/libmisterplex/cadence.hpp:13-20 | The 64-bit product does not overflow and the index fits 32 bits |
| `Cadence.NotSlowerIsEveryTick` | host/libmisterplex/cadence.hpp:13-31 | Content that is not slower than the display advances on every tick |
| `AvClock.ContentTimeIsExact` | host/libmisterplex/av_clock.hpp:22-40 | Content time is monotone, and every frame's truncation is under one unit toward zero, in milliseconds and in microseconds, for negative indices too |
| `AvClock.MsIsUsOver1000` | host/libmisterplex/av_clock.hpp:22-64 | The millisecond form is the microsecond form divided by 1000, for frames and audio |
| `AvClock.DriftOfWrongRate` | host/libmisterplex/av_clock.hpp:4-8 | Timing 24000/1001 content as 24/1 is off at frame n by floor(n/24) or floor(n/24)+1 ms |
| `AvClock.NoOverflow` | host/libmisterplex/av_clock.hpp:19-40 | No int64 overflow for nine thousand million frames and denominators up to 1001 |
| `AvClock.AudioSeconds` | host/libmisterplex/av_clock.hpp:42-64 | n seconds of audio bytes are 1000 n milliseconds and 1000000 n microseconds |
| `AvClock.AudioTimeIsExact` | host/libmisterplex/av_clock.hpp:51-64 | The audio clock is the byte count over 192000 a second, cut off by less than one unit, and 0 without audio |
| `I420.ScorePlane` | tools/score_i420_candidate.py:101-127 | Exact count, absolute sum and maximum, and the first differing pixel; nothing bad, a full count and agreement are one |
| `I420.MbExact` | tools/score_i420_candidate.py:160-181 | True exactly when the macroblock agrees in all three planes |
| `I420.FirstBadMb` | tools/score_i420_candidate.py:408-452 | None exactly when all macroblocks agree; otherwise the first divergent one in raster order, with its first differing pixel by plane and row |
| `I420.NoBadMbIffFrameAgrees` | tools/score_i420_candidate.py:51-62 | For sides divisible by 16: no bad macroblock, three exact plane scores, and all bytes of the frame equal are equivalent |
| `I420.BlocksTile` | tools/score_i420_candidate.py:160-181 | Blocks tile any plane whose sides they divide |
| `I420.PlanesFill` | tools/score_i420_candidate.py:51-62 | The three planes follow one another and fill the frame |
| `I420.SumAbsAdds` | tools/score_i420_candidate.py:101-127 | The sum over a range is the sum over its parts, and over one pixel the distance of the two bytes |
| `I420.ReportInBytes` | tools/score_i420_candidate.py:408-452 | A reported macroblock in bytes: the named pixel of its plane differs by the named distance, and every macroblock before it in raster order agrees |
| `I420.FirstBadInBytes` | tools/score_i420_candidate.py:101-127 | A reported pixel in bytes: the first byte of the plane that differs, at its row and column |
| `NalBurst.MaxBurstBytes` | tools/pms_nal_stats.cpp:136-149 | For non-decreasing timestamps the scan returns the maximum byte sum over all contiguous ranges within the window |
| `NalBurst.NextPow2` | tools/pms_nal_stats.cpp:151-158 | The least power of two not below v up to 2^63, and 0 above |
| `NalBurst.SmearDoubles` | tools/pms_nal_stats.cpp:155-156 | Each shift-and-or round doubles the run of ones under the top bit |

## Left out

Assumptions of the models:

- GpoSharing assumes that the lock file opens, that no Main process starts while the lock is held or beside a live one, that
  the list of Main processes is taken at one instant, that Main writes its shadow and the register in one step, and that a process with
  a pending stop creates no new task.
- `GpoSharing` does not model crash signal handlers, SIGKILL recovery or `spiWordTxn`; the window's body is any run of stores.
- `PlaySupersession`: a stale seek may supersede a newer play and then be refused, so that the newest play always starts is
  not a theorem; `PlayProgress.UnhinderedPlayStarts` says what lets it start. The 64-bit wrap of the generation counters is not modelled, and answers of the network
  and of the companion other than its latch are free inputs.
- `PlaySupersession` speaks of the demuxes that `doPlay` starts. The player's `seekMs`, reached from seeks without a library key
  and from a skip on the FPGA remote, restarts a demux without `playHandoffMu`; it is modelled alone in `PlayerRestart`, where
  a new session is one free step.
- PlaySupersession.NothingStartsUntilArmed: what arms the companion is one free step; `CompanionHolds.RearmsIff` says which events
  do.
- `PlaySupersession` leaves out that `setPlay` and `tryQueueStep` write `lastPlay` without comparing the generation.
- BitstreamRing.Producer.WriteRecord: promises that unread bytes are kept only when the first poll can read the mailbox, because the code
  treats the ring as empty otherwise.
- BitstreamRing.WaitReadCount: the clock is replaced by the number of polls.
- BitstreamRing assumes that the consumer reports its true count modulo 2^32 and never runs past what was published.
- Companion.CompanionState.PauseOrResumeRequest: one atomic step, where the source reads and reports in two lock sections and a
  progress report may come between.
- Companion.CompanionState.SeekRequest: one atomic step, where the source reads and plants in two lock sections.
- Companion.CompanionState.SkipPreviousRequest: one atomic step, where the source runs its handler between two lock sections.
- The companion's other handlers are single lock sections of the one HTTP thread; the server's address, the normalisation of
  the container key, XML escaping and the sockets are not modelled.
- CompanionHolds.ScrubHold: speaks of reports in the five known states, which are all that callers send; what a report in
  another state would do is `UnknownReportAgainstHold`.
- `TimelinePush` counts failed posts and drops subscribers as the code does; the network's answers are free inputs. A subscriber
  is its id: an unsubscribe by host alone is a run of unsubscribes, and a tally does not compare host and port again.
- CommandIds.StoredNeverDecreases: speaks of decimal ids and of an entry that stays, because a non-decimal id resets the order and
  a seventeenth controller evicts the oldest entry.
- TimelineReporter.PmsTimelineReporter.ReportState: one call, without other callers between its two lock sections; `DecideReport`
  and `EnqueueUpdate` are the sections.
- `TimelineReporter` proves the order of enqueues, not of decisions, because a decision and its enqueue are separate lock
  sections; request building is a free verdict.
- Mailbox.OsdWordWasPublished: needs a publisher that uses no other low half than the magic, as the core does
  (fpga/Plex_MiSTer/rtl/ddr_frame_store.sv:1415, fpga/Plex_MiSTer/rtl/ddram_frame_rd.sv:417).
- Mailbox.InputWordWasPublished: needs a publisher that uses no other low half than the magic, as the core does
  (fpga/Plex_MiSTer/rtl/ddr_frame_store.sv:1406, fpga/Plex_MiSTer/rtl/ddram_frame_rd.sv:407), or high halves that do not come
  back; decoding the command and its edge detector are not modelled.
- LogRedactSecrets.SecretsDoNotShow: speaks of shielded values; `HeaderHiddenIff` and `QueryHiddenIff` say that the code hides
  no others in every context.
- NalBurst.MaxBurstBytes: asks for timestamps in order, because the unsigned difference wraps otherwise; 64-bit overflow of the sum is not modelled.
- AvClock.NoOverflow: bounds the frame index and the denominator; `avDecide` is left out as it is one expression.
- `I420`: the mean absolute error is left as its integer sum; a frame offset for odd sizes follows `mb_exact`, which differs
  there from `plane_views`.
- `Cadence`: the 32-bit counter of `unique_frames_in` is unbounded here.

Not modelled at all, because it is input and output, formatting or easy: GDM discovery, HTTP and XML text, curl and
ffmpeg processes, `/dev/mem` mapping, the frame banks of `sendDdrFrame`, framebuffer blits, status-bit setters, raster
tables, the H.264 reconstruction headers, fixture generators, benchmarks and image statistics.
