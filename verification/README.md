# Verified model of the nel3ab capture, save and black-box tools

nel3ab runs games in rooms for several players. Around the games it keeps a set of
small stateful programs: a black box that watches the machine and captures profiles
when a game slows down, the tools that create, back up, restore and import save slots,
the room script that starts and stops an emulator with its captures and controllers,
the programs that carry pictures, sound and controller input, and two formats: the save
export of a Wii and the lines the control plane and the worker exchange about seats.

This project models those programs in Dafny and proves what each of them keeps, over
every input, every run, every interleaving and every crash point. `dafny verify
dfyconfig.toml` checks all of it.

## How the model is built

Code that changes fields step by step is a class or a method with the same steps,
proved against a specification on values; the results about whole runs are lemmas about
that specification. Clocks, processes, files and the network are parameters or explicit
state, and every outside call may fail.

| files | what they model |
|---|---|
| `CapturePackets`, `CaptureAudio` | the incremental packet parser and the fixed-size sound chunker |
| `CaptureDemand`, `CaptureControl` | the worker on demand shared by two threads; the lock and pid file between processes, as step machines |
| `Pads` | four virtual controllers driven by snapshots, their events and their heartbeat |
| `FrameRing` | the ring of picture slots lent over two channels, and the receiver that tests it |
| `Journal`, `JournalRuns`, `Suiveur` | the day-rotated log over its buffered handle, all its runs, and the follower that reads it back |
| `Declencheur` | the sliding-window trigger with its pause |
| `Service`, `ServiceRuns`, `ServiceLife` | the black-box scheduler: one capture in flight, one waiting slot; its runs; its loop, with the trigger and the follower |
| `Releve`, `Roulant`, `Vidage` | the cache of process names; the life of the rolling profiler; its dump on another thread |
| `FileTree`, `TreeFrames` | a directory tree, its operations, and every state a crash could leave |
| `SaveSlots`, `SwitchSaves`, `SharedCache` | slot creation, backup, restore, the shared shader cache |
| `SaveArchive`, `PendingSave`, `BankSwap`, `SaveImport`, `ArchiveImport` | choosing archive entries and importing a save |
| `Room` | the restart limiter and the orderly end of a room |
| `Words`, `Utf8`, `SeatProtocol` | words on a line and its bytes; seat receipts and launch orders |
| `CbcCipher`, `WiiSave` | cipher block chaining over any block cipher; the Wii save walker |
| `Common` | optional values, outcomes, integer encodings |

## Where the code does less than its comments say

The model follows the code. The results in the table say exactly how far it goes.

- A write to the log that fails leaves its line in the handle, and a later write may put
  it in the file although it was counted as lost (`JournalRuns.ALateLine`,
  `JournalRuns.BalancedIff`, `JournalRuns.DayFileIsWrittenIff`). A close that fails at a
  change of day leaves a closed handle in place: the next event of the old day raises
  (`JournalRuns.AfterAFailedClose`).
- A second deferred drop silently replaces the first in the one waiting slot: no drop is
  lost from the account, but the log does not tell a replacement
  (`ServiceRuns.ReplacedIff`, `ServiceRuns.NewDropInOneTurn`,
  `ServiceRuns.ADropIsReplaced`).
- The day of a sweep of old captures is noted before the sweep, which may raise: it is
  then not tried again that day (`ServiceRuns.ADayIsSweptIff`).
- The follower abandons what was added to yesterday's file after its last poll
  (`Suiveur.YesterdayIsLostIff`), and a first poll that meets a line half written hands
  on its second half (`Suiveur.AFirstPollInsideALineIff`, `Suiveur.HalfALine`).
- A refused header discards the packets completed by the same arrival
  (`CapturePackets.RefusalLosesIff`, `CapturePackets.GroupedArrivalLosesAPacket`).
- Stopping the rolling profiler lets go of one that could not be told to stop, which is
  only logged, and of one that does not stop in time, which nothing catches: two can then
  run at once (`Roulant.NoStrayIff`, `Roulant.TwoAtOnceIff`, `Roulant.TwoWays`); as long
  as no stop fails there is only one (`Roulant.NeverAStrayIff`, `Roulant.AtMostOne`,
  `ServiceRuns.NoProfilerIsLeftIff`).
- A dump of the rolling profiler is to leave the capture going whatever happens; but it
  reads what is in hand three times, on another thread, and a game that stops in between
  ends the dump, and the capture with it, in an error nothing catches
  (`Vidage.TheDumpCrashesIff`, `Vidage.AGameStopsDuringADump`). It may also signal another
  recording than the one it saw (`Vidage.AnotherIsSignalledIff`).
- A stop of the capture returns at once when it finds no pid file, or one that names a
  process that is gone: the first includes the moments between taking the lock and writing
  the file and between removing it and letting go, the second the file a dead capture left
  (`CaptureControl.MissesIff`, `CaptureControl.AnEarlyReturn`,
  `CaptureControl.AStaleFileHidesACapture`). It signals only the number of a capture, but a
  number used again between its look and its signal is signalled all the same
  (`CaptureControl.AnotherIsHitOnlyIfReused`, `CaptureControl.AReusedNumberIsHit`).
- The receiver's test can pass although a slot was never given back, when a release fails
  while another slot is held, or the last one does (`FrameRing.AllGivenBackIff`,
  `FrameRing.PassWithASlotKept`).
- The worker reads at most 320 bytes of an order, a bound that predates the person at its
  end: a longer line is read as the same order for a shorter name, or not at all
  (`SeatProtocol.WhatTheWorkerReads`, `SeatProtocol.LaunchComesBackIff`). The control
  plane counts the characters of a name and refuses four kinds of white space; the worker
  counts its bytes and splits at every kind Unicode has. Orders of each
  kind are in `SeatProtocol.ALongOrderShortensAName`, `SeatProtocol.ALongNameIsNotRead`,
  `SeatProtocol.AnAccentedName`, `SeatProtocol.NameOfOneWord` and
  `SeatProtocol.ANameOfTwoWords`. The worker accepts device codes up to 4 where its
  comment says 3.
- An import stopped between the two renames of a bank leaves a container no import can
  be made to until a backup is restored (`SaveImport.ARerunIsPossibleIff`); the backup of
  the first such import is always there to restore
  (`SaveImport.RestoreAfterStoppedImports`).
- An export of a Wii save cut inside its last record is read without an error, as long as
  that record's name, for a folder, or its vector, for a file, is there
  (`WiiSave.CutStreamIff`, `WiiSave.ACutFileIsRead`).
- A controller command that is nested too deeply, or whose axes are not an object, is not
  caught and ends the helper (`Pads.Parse`, `Pads.Helper.Handle`).
- A backup is copied straight to its final name: a crash can leave a partial one in the
  list, unless the user tree is one bare directory (`SwitchSaves.APartIsListedIff`). Only
  a finished copy is reported (`SwitchSaves.Backup`), and the results about restore and
  import count no other.
- A capture worker that was refused its start, that dies of an exception that is not an
  `Exception`, or that finishes after its stop was given up on leaves nothing behind that
  tells the next wanted update to start another: it returns with nobody at work
  (`CaptureDemand.UnnoticedIff`, `CaptureDemand.ADeathGoesUnnoticed`,
  `CaptureDemand.ARefusedStartGoesUnnoticed`, `CaptureDemand.ALateEndGoesUnnoticed`).

## Model

| member | source | states |
|---|---|---|
| CapturePackets.ParseInvertsEncode | spikes/switch-room/capture_packets.py:16-34 | Reading a stream at once gives back every packet that was framed (little-endian 64-bit time, 32-bit size, 1 to 4 MiB, time not zero), whatever bytes follow |
| CapturePackets.ParseConserves | spikes/switch-room/capture_packets.py:16-34 | The packets found, framed again, followed by the tail, are the stream: nothing lost, nothing invented, every packet legal |
| CapturePackets.TailIsUnfinished | spikes/switch-room/capture_packets.py:19-30 | A tail that is not refused is less than a header or a legal header with less than its body; a refused one starts with a bad header |
| CapturePackets.ParseResumes | spikes/switch-room/capture_packets.py:16-34 | Reading a stream in two parts, resuming from the tail of the first, is reading it at once |
| CapturePackets.WholeStreamIff | spikes/switch-room/capture_packets.py:36-38 | A stream ends without error if and only if it is the framing of some legal packets |
| CapturePackets.RefusedAtTwelfthByte | spikes/switch-room/capture_packets.py:21-25 | A bad header is refused exactly when its twelfth byte has arrived, no byte earlier |
| CapturePackets.RefusedHeaderIff | spikes/switch-room/capture_packets.py:21-25 | Of a header in front of anything: it is refused at once if and only if it says zero as its time, no payload, or one of more than 4 MiB |
| CapturePackets.Packets.Feed | spikes/switch-room/capture_packets.py:16-34 | One arrival: the answer is what the one-shot reading of the whole stream so far adds; the retained bytes stay under 4 MiB; a refusal discards the packets of that call |
| CapturePackets.Packets.Finish | spikes/switch-room/capture_packets.py:36-38 | The end is refused unless nothing is pending |
| CapturePackets.AnyCuttingGivesTheSamePackets | spikes/switch-room/capture_packets.py:16-34 | For every cutting of a stream into arrivals, what was handed on in all is the one-shot reading, as long as no header is refused |
| CapturePackets.RefusalLosesIff | spikes/switch-room/capture_packets.py:18-25 | After a refusal the caller misses packets exactly when one was completed by the refused arrival itself |
| CapturePackets.ShortReadsLoseNothing | spikes/switch-room/capture_packets.py:18-25 | Arrivals of at most twelve bytes never lose a packet to a refusal |
| CapturePackets.GroupedArrivalLosesAPacket | spikes/switch-room/capture_packets.py:18-25 | A good packet and a bad header arriving together: the packet is lost |
| CapturePackets.Drain | spikes/switch-room/capture.py:121-146 | The read loop hands on exactly the packets of the reading of its arrivals up to the first captured more than 30 s before or 0.1 s after the clock, and ends as what stopped it: told to, a bad clock, a bad header, or the exit of the recorder, inside a packet or not |
| CapturePackets.ReadUpToTheExit | spikes/switch-room/capture.py:121-146 | The arrivals the loop reads are all the bytes found before the first look that finds the pipe empty and the recorder gone; an exit seen while it still holds bytes does not stop it |
| CaptureAudio.OneCutting | spikes/switch-room/capture_audio.py:9-27 | There is only one way to cut a stream into 1920-byte chunks and a shorter end |
| CaptureAudio.Chunks | spikes/switch-room/capture_audio.py:9-27 | For any sequence of reads the chunks given are the stream cut every 1920 bytes; the end is met if and only if some read finds it before a stop, a read that would block being neither; a stop before it has taken everything read so far; an end inside a chunk is an error, a stop is not |
| CaptureAudio.ReadsAreTaken | spikes/switch-room/capture_audio.py:9-27 | How much a run of reads takes: each that does not block takes what there is of what it asked for, never past a chunk, so long as any is left |
| CaptureDemand.EveryRunIsKept | spikes/switch-room/capture_demand.py:6-42 | Every interleaving of the asking thread and the workers keeps the invariant the four results below are read from |
| CaptureDemand.HowAWorkerEnds | spikes/switch-room/capture_demand.py:13-40 | In every run, of a worker that ended: it finished if and only if its work came back once it had been told to stop; it failed, and its failure is recorded, if and only if its work raised or came back untold; it died if and only if its work fell to what is not an Exception |
| CaptureDemand.VerdictIs | spikes/switch-room/capture_demand.py:13-40 | What told, untold, raised and fell mean, by the places of the events in the log |
| CaptureDemand.TheLogTellsTheMishaps | spikes/switch-room/capture_demand.py:13-20 | Over every run the log tells each work that raised, with its error, and each that fell, in order and nothing else |
| CaptureDemand.AJoinFollowsTheWord | spikes/switch-room/capture_demand.py:31-40 | A close that gets as far as its join has told the worker to stop |
| CaptureDemand.EveryRaiseHasACause | spikes/switch-room/capture_demand.py:21-42 | A call that raises does so after a recorded failure, a join that ran out or a start that was refused |
| CaptureDemand.WhatAReturnLeaves | spikes/switch-room/capture_demand.py:21-42 | A close, or an update that wants none, that returns leaves no worker; a wanted update that returns leaves a current one |
| CaptureDemand.EveryStepMoves | spikes/switch-room/capture_demand.py:6-42 | No step leaves things as they are: a line brings its call nearer to its end, a step of a worker that worker, alone, to its own |
| CaptureDemand.EveryCallEnds | spikes/switch-room/capture_demand.py:6-42 | Over every run, six lines are enough for each call and four steps for each worker, and a call that has not ended always has a line it can take |
| CaptureDemand.AtMostOneWorker | spikes/switch-room/capture_demand.py:21-42 | In every reachable state at most one worker thread is alive |
| CaptureDemand.StartsAreSafe | spikes/switch-room/capture_demand.py:21-40 | A worker starts only after the previous one was joined and seen to have ended, never after a join that ran out, and never once a failure is recorded |
| CaptureDemand.AFailureIsRaised | spikes/switch-room/capture_demand.py:13-23 | A call of update or close that began after a failure was recorded never returns normally |
| CaptureDemand.CloseLeavesNoWorker | spikes/switch-room/capture_demand.py:31-42 | A close that reaches its last look has no worker left, and returns if and only if no failure was ever recorded |
| CaptureDemand.UnnoticedIff | spikes/switch-room/capture_demand.py:13-42 | In every run, a wanted update past its look at the failure returns with nobody at work and no failure recorded if and only if the current worker was refused its start, died of what is not an Exception, or finished after its stop was given up on |
| CaptureDemand.ADeathGoesUnnoticed | spikes/switch-room/capture_demand.py:13-30 | A run of the first kind: a worker dies of something other than an Exception, and the next wanted update returns |
| CaptureDemand.ARefusedStartGoesUnnoticed | spikes/switch-room/capture_demand.py:25-30 | A run of the second: the thread cannot be started, that call raises, and the next wanted update returns |
| CaptureDemand.ALateEndGoesUnnoticed | spikes/switch-room/capture_demand.py:31-42 | A run of the third: a close gives up after eight seconds, the worker finishes as told, and the next wanted update returns |
| CaptureControl.EveryRunIsKept | spikes/switch-room/capture_control.py:14-55 | Any number of captures, stops and other programs, dying at any point: the lock has exactly one process inside and the file says what its owner wrote |
| CaptureControl.OnlyCapturesAreSignalled | spikes/switch-room/capture_control.py:34-41 | In every run only a number is signalled that the pid file named and that a capture had |
| CaptureControl.AnotherIsHitOnlyIfReused | spikes/switch-room/capture_control.py:36-41 | Between the look at the process and the signal, what has that number is still that capture, or gone, unless the number is given to another process in between |
| CaptureControl.AReusedNumberIsHit | spikes/switch-room/capture_control.py:36-41 | From any state in which a capture was just looked at: when it dies and another program gets its number at once, that program is signalled |
| CaptureControl.AStopFindsTheCapture | spikes/switch-room/capture_control.py:30-48 | Whatever others do, a stop that begins while a capture is at its work has signalled that one after four lines and then waits, ending only by giving up, as long as neither dies and the capture stays |
| CaptureControl.AStopRefusesIff | spikes/switch-room/capture_control.py:34-54 | In every run a stop refuses if and only if the file is gone or names nobody, the process it named is there and is no capture, or was one and has gone before the signal, or ten seconds went by with somebody inside |
| CaptureControl.OneCaptureInside | spikes/switch-room/capture_control.py:14-27 | At most one process is between taking the lock and giving it back |
| CaptureControl.TheFileNamesTheOwner | spikes/switch-room/capture_control.py:22-27 | Through the whole body the pid file names the capture that holds the lock |
| CaptureControl.OnlyTheOwnerWrites | spikes/switch-room/capture_control.py:22-27 | A step that changes the pid file is a step of the capture that holds the lock |
| CaptureControl.AStaleFileMeansADeath | spikes/switch-room/capture_control.py:22-27 | A file with no capture behind it was left by a process that died |
| CaptureControl.ThroughTheLock | spikes/switch-room/capture_control.py:43-48 | A waiting stop gets the lock exactly when no capture is inside, so a stop that returns through the lock did so at such an instant |
| CaptureControl.NoFileMeansNoBody | spikes/switch-room/capture_control.py:30-33 | A stop that returns because it finds no file can only miss a capture that has the lock and has not written its file yet, or has removed it |
| CaptureControl.NoFileIff | spikes/switch-room/capture_control.py:30-33 | A stop that finds no file finds no capture between its first write and the removal, deaths included; while nothing has died, the other way round too |
| CaptureControl.MissesIff | spikes/switch-room/capture_control.py:14-48 | In every run, deaths included, a stop that looks while a capture has the lock can come back normally, by any of its three ways, with that capture still in possession of it if and only if the capture has just taken the lock and there is no file or one naming another process, or has removed its file and not let go |
| CaptureControl.HuntGoesOn | spikes/switch-room/capture_control.py:30-48 | A capture that is not at risk when the stop looks is never missed, whatever anyone does next |
| CaptureControl.RiskIsReal | spikes/switch-room/capture_control.py:30-48 | From any state in which one is at risk, steps that lead the stop to return while the capture keeps the lock |
| CaptureControl.AStaleFileHidesACapture | spikes/switch-room/capture_control.py:30-38 | A run in which the file of a dead capture makes a stop return while the next one goes to work |
| CaptureControl.AnEarlyReturn | spikes/switch-room/capture_control.py:17-33 | A run without a death in which a stop returns early and the capture it missed then runs on |
| Pads.ChangesTell | spikes/switch-room/pads.py:130-137 | The events of a change take a reader of the pad from the old snapshot to the new one, repeat no value it has, and touch no other pad |
| Pads.Helper.Apply | spikes/switch-room/pads.py:130-137 | A pad becomes exactly the desired snapshot; the other three and their readers see nothing; replaying all events gives the current snapshots |
| Pads.Parse | spikes/switch-room/pads.py:149-182 | A command is applied if and only if its player is a whole number from 1 to 4 (or True), every button and axis is known and every axis value a whole number; one nested past what the JSON reader bears, or with axes that are not an object, is not caught and ends the helper; the snapshot is what the names mean, each axis brought into its device range |
| Pads.Pressed | spikes/switch-room/pads.py:155-157 | The buttons named are down, everything else is at rest; refused when a name is not a button |
| Pads.Tilted | spikes/switch-room/pads.py:158-177 | Each axis gets its value clamped to its declared range; refused when an axis is unknown or its value is not a whole number |
| Pads.Helper.Handle | spikes/switch-room/pads.py:149-182 | A rejected command changes nothing, not even an event; an accepted one changes its own pad, activity and time only; a fatal one leaves every pad at rest |
| Pads.Helper.Neutral | spikes/switch-room/pads.py:139-141 | A pad at rest, inactive, its reader told |
| Pads.Helper.Expire | spikes/switch-room/pads.py:224-229 | After a pass every active pad was commanded within the second before it was looked at; the others are at rest; nothing else changes |
| Pads.Helper.Close | spikes/switch-room/pads.py:230-234 | Every exit leaves the four pads at rest |
| Pads.Helper.Serve | spikes/switch-room/pads.py:143-234 | Over any run of datagrams and expiry passes: each datagram is answered and each pass made, in order, up to the first that ends the helper; the pads are then where those leave them, all at rest, and the readers see so |
| Pads.ControlsAreDistinct | spikes/switch-room/pads.py:26-48 | The nineteen controls of a pad have distinct codes |
| Pads.EveryControlHasAName | spikes/switch-room/pads.py:26-48 | Every control has the name of one of eleven buttons or eight axes |
| Pads.NamesAreDistinct | spikes/switch-room/pads.py:26-48 | Two names never mean one control |
| Pads.RangesOfAxes | spikes/switch-room/pads.py:158-177 | The value each of the eight axes gets: 0 to 255 for the triggers, -1 to 1 for the cross, 16 signed bits for the sticks |
| Pads.WhomACommandIsFor | spikes/switch-room/pads.py:151-180 | A command that is applied is for the pad of its whole number, or for the first when it says true; what it says nothing of is at rest |
| Pads.WhoIsThere | spikes/switch-room/pads.py:151-154 | A command without buttons or axes is applied if and only if its player is 1, 2, 3, 4 or true, and refused otherwise |
| Pads.ButtonsAsLetters | spikes/switch-room/pads.py:156-157 | A text in place of the list of buttons presses its letters, and is refused when one of them is no button |
| FrameRing.EverySlotIsInOnePlace | spikes/m2-vaapi-export/receive_frame.c:256-267 | With a producer that announces only free slots, over every run each slot is in exactly one of: free, announced, lent, on its way back |
| FrameRing.NeitherChannelLoses | spikes/m2-vaapi-export/receive_frame.c:256-267 | Over every run what the producer announced is what the receiver has read followed by what it has not, and of what the receiver gave back the producer has collected the beginning |
| FrameRing.TheRingIsFair | spikes/m2-vaapi-export/receive_frame.c:316-346 | On the receiver side of every such run no slot is announced again while it is lent, and what it owes is what the ring counts as lent |
| FrameRing.NothingVanishes | spikes/m2-vaapi-export/receive_frame.c:260-267 | Every announcement read was given back or is still owed |
| FrameRing.Consume | spikes/m2-vaapi-export/receive_frame.c:256-268 | The loop does exactly the reads and releases of the specification, and the held slot is that of the settle-th announcement, none if the channel ends, a release fails, or the count is not positive |
| FrameRing.ConsumeKeeps | spikes/m2-vaapi-export/receive_frame.c:256-268 | The frames before the one to hold were each given back at once, and that one alone is owed |
| FrameRing.Hold | spikes/m2-vaapi-export/receive_frame.c:332-347 | The hold does exactly the reads and releases of the specification, a failed release ending it, and counts the re-announcements of the held slot |
| FrameRing.HoldKeeps | spikes/m2-vaapi-export/receive_frame.c:332-347 | Every other slot was given back at once, the held one never touched; at most one slot more is owed, when its release failed |
| FrameRing.Receive | spikes/m2-vaapi-export/receive_frame.c:256-390 | The whole test does what the specification says of its inputs, pictures included, and concludes so; on any verdict past the hold the held slot was released last and not before, and the slots owed are those whose release failed |
| FrameRing.PassIff | spikes/m2-vaapi-export/receive_frame.c:256-390 | The test passes if and only if the picture settles on a slot, none of fifty looks finds that slot announced again, its picture is not of one colour, and it is unchanged at the end |
| FrameRing.OneColour | spikes/m2-vaapi-export/receive_frame.c:361-364 | The loop over the pixels says whether they are all the first |
| FrameRing.Differing | spikes/m2-vaapi-export/receive_frame.c:357-359 | The loop counts the pixels that changed |
| FrameRing.AllGivenBackIff | spikes/m2-vaapi-export/receive_frame.c:332-377 | For every input that reaches the pictures: exactly the slots read announced were given back if and only if the last release went through and no look of the hold before the end of the channel found another slot that could not be given back |
| FrameRing.PassWithASlotKept | spikes/m2-vaapi-export/receive_frame.c:345-377 | Inputs for which the test passes although one slot is never given back: a failed release during the hold only ends the hold |
| FrameRing.ARingIsNeverHandedOutAgain | spikes/m2-vaapi-export/receive_frame.c:316-346 | When what the test does is the receiver side of a run of a producer that announces only free slots, it never concludes that a lent slot was handed out again |
| CbcCipher.TwoVectors | tools/wii-save-decode.py:30-36 | Decrypting under two vectors agrees on every byte after the first sixteen and differs there by the exclusive or of the vectors |
| CbcCipher.AgainGivesTheSource | tools/wii-save-decode.py:57-61 | Encrypting again what was decrypted gives the source back whatever the vector, so the round trip says nothing about the vector |
| CbcCipher.DecryptInverts | tools/wii-save-decode.py:74-77 | Decryption inverts encryption on whole blocks, for any block cipher that can be undone |
| CbcCipher.DecryptBeginning | tools/wii-save-decode.py:74-77 | A beginning of the blocks decrypts as the same beginning of the text |
| WiiSave.FieldsTile | tools/wii-save-decode.py:64-71 | The fields of a record header follow one another and fill its 0x80 bytes; the vector is at 0x50 |
| WiiSave.RoundedIsLeast | tools/wii-save-decode.py:133 | The padded length is the least multiple of 64 not below the length |
| WiiSave.Walk | tools/wii-save-decode.py:118-139 | The loop reads the records one after the other, its cursor growing by a header at least each time |
| WiiSave.EveryRecordIsMarked | tools/wii-save-decode.py:118-139 | A file is read only when each of its records, wherever the one before says it is, bears the mark of a record; what is said to be no record does not bear it |
| WiiSave.DecodedIs | tools/wii-save-decode.py:124 | A name has one character for each byte, a replacement for one that is not ASCII |
| WiiSave.WalkReadsBack | tools/wii-save-decode.py:118-139 | The walk over records written by the inverse writer gives every name, folder and payload back, whatever surrounds them and whatever fills the unused bytes |
| WiiSave.PayloadIsWholeIff | tools/wii-save-decode.py:133-137 | A payload comes out at its full length exactly when the blocks that hold it are all there |
| WiiSave.CutStreamIff | tools/wii-save-decode.py:118-139 | A file that ends after any number of bytes of written records is read without an error if and only if the last record is there up to its name (a folder) or to the end of its vector (a file); the entries before come out as written, a folder name cut where the bytes end, a payload as its whole blocks that are there |
| WiiSave.OnlyTheLastIsCut | tools/wii-save-decode.py:118-139 | A payload followed by another record is whole |
| WiiSave.ACutFileIsRead | tools/wii-save-decode.py:133-137 | An export cut right after its last header is read without an error, the last payload empty |
| WiiSave.Find | tools/wii-save-decode.py:107-108 | The first place of the Bk header |
| WiiSave.Open | tools/wii-save-decode.py:80-139 | A save comes out exactly when the encrypted header is whole, the first Bk header is not at the start and names the same game, and the records can be read; every other case is the error the code raises |
| WiiSave.AnExportReadsBack | tools/wii-save-decode.py:80-139 | An export written with a title, a banner and records, wherever its Bk header stands, opens as exactly those; with another title in that header it is refused as of another game |
| Service.BoiteNoire.Tour | control/nel3ab_control/boite_noire/service.py:97-144 | One turn takes the scheduler and the rolling profiler to the state of the specification, with the lines the follower hands on and the drops the trigger finds; it raises where the reading, the profiler or the sweep does |
| Service.BoiteNoire.Occupe | control/nel3ab_control/boite_noire/service.py:146-147 | Whether a capture is in flight; asking is how its end is noticed |
| Service.BoiteNoire.Reprendre | control/nel3ab_control/boite_noire/service.py:149-160 | The waiting drop is given up when it waited too long, asked for again otherwise |
| Service.BoiteNoire.MoteurDe | control/nel3ab_control/boite_noire/service.py:162-167 | The first engine of a room, or of all, among those with threads |
| Service.BoiteNoire.Demander | control/nel3ab_control/boite_noire/service.py:169-194 | A request is refused, put off, skipped or submitted, and says whether it was submitted |
| Service.BoiteNoire.ProfilPeriodique | control/nel3ab_control/boite_noire/service.py:129-133 | The periodic capture is asked for only when its period has passed and nothing waits |
| ServiceRuns.EveryDropIsAccountedFor | control/nel3ab_control/boite_noire/service.py:97-194 | After any run every drop the trigger gave is in exactly one place: submitted, impossible, abandoned, replaced by a later one, or in the waiting slot |
| ServiceRuns.AtMostOneCapture | control/nel3ab_control/boite_noire/service.py:146-147 | After any run at most one capture is still running |
| ServiceRuns.HowDropsEnd | control/nel3ab_control/boite_noire/service.py:149-194 | A submitted drop waited at most the limit, an abandoned one longer; the executor got exactly the submitted drops in order, and the log tells every end but a replacement |
| ServiceRuns.TheEngineFits | control/nel3ab_control/boite_noire/service.py:128-133 | Over every run, a capture given for a drop of a room, or a drop of a room that waits, is of the first engine with threads of that room in a turn that gave that drop; one without a room, of the first of all; a drop ends without an engine only when none of its turn fits |
| ServiceRuns.TheLogTellsTheCaptures | control/nel3ab_control/boite_noire/service.py:169-194 | Over every run the log tells every capture given, in order: when, why, of which room and for which drop |
| ServiceRuns.WhenThingsHappen | control/nel3ab_control/boite_noire/service.py:97-194 | Each end in the ledger and each capture bears the clocks of a turn that got as far as its captures |
| ServiceRuns.AllocatorIff | control/nel3ab_control/boite_noire/service.py:100-112 | A turn asks for the counters of the allocator if and only if no game is on, or they may be read in a game, and a period has gone by since the last turn that asked |
| ServiceRuns.TheLogTellsTheReadings | control/nel3ab_control/boite_noire/service.py:97-114 | The log tells every reading that went through, in order, with whether those counters are in it |
| ServiceRuns.OnePeriodicCaptureAtMost | control/nel3ab_control/boite_noire/service.py:129-133 | A turn submits at most one periodic capture, only a period after the last, and only while no drop waits |
| ServiceRuns.PeriodicIsNotForgotten | control/nel3ab_control/boite_noire/service.py:129-133 | After a turn that got as far as its captures, with an engine that has threads, nothing waiting and a period gone by since the last one, a capture runs |
| ServiceRuns.PeriodicCapturesAreSpaced | control/nel3ab_control/boite_noire/service.py:87-133 | Over any run periodic captures are at least a period apart and a period after the start |
| ServiceRuns.AnyTwoPeriodicCaptures | control/nel3ab_control/boite_noire/service.py:87-133 | The same for any two of them |
| ServiceRuns.WaitingDropIsDecided | control/nel3ab_control/boite_noire/service.py:149-160 | A waiting drop that finds the previous capture done, as the first question of the turn answers, is submitted if it waited at most the limit and abandoned otherwise; until then it keeps its place |
| ServiceRuns.NewDropInOneTurn | control/nel3ab_control/boite_noire/service.py:169-194 | A new drop ends at once when no engine with threads is in its room, is submitted when there is one and nothing runs, and otherwise takes the one waiting slot, replacing what was there; the log tells which, but not the replacement |
| ServiceRuns.PeriodicInOneTurn | control/nel3ab_control/boite_noire/service.py:129-133 | A periodic capture that is due, with an engine and nothing waiting, is submitted and noted when nothing runs, and otherwise skipped, which the log tells, and stays due |
| ServiceRuns.ReplacedIff | control/nel3ab_control/boite_noire/service.py:115-194 | In any run a drop is replaced if and only if, in some turn that gets as far as its captures, a drop with an engine asks while a capture runs and another drop waits |
| ServiceRuns.ADropIsReplaced | control/nel3ab_control/boite_noire/service.py:169-194 | A run from the start in which a drop is replaced: it is in the ledger as such, no capture is made of it and no line of the log tells how it ended |
| ServiceRuns.NoProfilerIsLeftIff | control/nel3ab_control/boite_noire/service.py:117-125 | In every run of the service, whatever profilers die between two turns, none but the one in hand is ever left running if and only if no turn asks a running one to stop in vain |
| ServiceRuns.NoProfilerWhenOff | control/nel3ab_control/boite_noire/service.py:117-125 | A service that is not to record launches no profiler in any run |
| ServiceRuns.TheProfilerFollowsTheGame | control/nel3ab_control/boite_noire/service.py:117-125 | With every stop so far having worked, after a turn that got as far as its captures exactly one profiler runs, on the first engine that has threads, or none when none has |
| ServiceRuns.ATurnSweepsIff | control/nel3ab_control/boite_noire/service.py:135-142 | A turn sweeps if and only if it gets as far as its captures and the last one before it that did was of another day |
| ServiceRuns.ADayIsSweptIff | control/nel3ab_control/boite_noire/service.py:135-142 | The turns of a day, from the one that notes it on, hold a sweep that goes through if and only if the first one does: no later turn of that day sweeps |
| ServiceLife.Veiller | control/nel3ab_control/boite_noire/service.py:245-256 | The loop takes the box, the trigger and the follower through the life that its rounds determine, whatever raises, and waits after each turn as the machine asks, or as at rest when the turn raised |
| ServiceLife.EveryLineIsHeard | control/nel3ab_control/boite_noire/service.py:97-144 | Over any life the trigger hears what its follower hands on, over one poll in each round whose reading does not raise, whatever else raises, and is asked for its alerts at the instants of the turns that got as far as their captures |
| ServiceLife.HowLongItWaits | control/nel3ab_control/boite_noire/service.py:245-256 | After each turn the loop waits as in a game if that turn saw an engine, got as far as its captures and did not fail in its sweep, and as at rest otherwise |
| ServiceLife.AskedWhenAlerted | control/nel3ab_control/boite_noire/service.py:115-194 | Over any life of the service the drops of a room, ended or waiting, were asked for at exactly the instants at which the trigger gave that room an alert |
| ServiceLife.DropsOfARoomAreAPauseApart | control/nel3ab_control/boite_noire/service.py:115-194 | Over any life, whatever its clock does, any two drops of one room were asked for at least the pause apart |
| Declencheur.MedianFollowsTheMajority | control/nel3ab_control/boite_noire/declencheur.py:125 | Strictly more than half of the values under a threshold: the median is under it; strictly more than half at or above it: it is not |
| Declencheur.MedianIsTheMiddle | control/nel3ab_control/boite_noire/declencheur.py:125 | The median is half way between the values of the two middle ranks, one and the same for an odd number of values, whatever their order |
| Declencheur.MedianOfEqualParts | control/nel3ab_control/boite_noire/declencheur.py:125 | Exactly half under a threshold: the median is half way between the largest of those and the smallest of the others |
| Declencheur.MedianIsUnderIff | control/nel3ab_control/boite_noire/declencheur.py:125 | The median is under a threshold if and only if more than half of the values are, or exactly half and those lie further from it |
| Declencheur.PruningIsForgetful | control/nel3ab_control/boite_noire/declencheur.py:119-122 | Pruning now and again later, with measures arriving in between, is pruning the whole history once |
| Declencheur.WindowIff | control/nel3ab_control/boite_noire/declencheur.py:119-122 | The pruned deque is the filter of the history on the window if and only if no measure arrived after a younger one that outlives it |
| Declencheur.VerdictFollowsTheWindow | control/nel3ab_control/boite_noire/declencheur.py:125-134 | What a window alerts: cadence if and only if there are enough measures and more than half are under the threshold, or exactly half and the largest of those is further from it than the smallest of the others; otherwise a freeze if and only if the worst gap of all reaches its own threshold, which it then bears |
| Declencheur.WhatAReportSays | control/nel3ab_control/boite_noire/declencheur.py:139-149 | A report bears the median of its window, how many measures and pages it has, and the game of the last |
| Declencheur.AlertIff | control/nel3ab_control/boite_noire/declencheur.py:116-150 | Over any run a room is given an alert if and only if its window has one to give and the last one given is the pause ago |
| Declencheur.WhichMeasuresJoin | control/nel3ab_control/boite_noire/declencheur.py:90-114 | Which lines join which room with which measure: those of the page and not of the bench, with what was seen, a game, a dated instant with a zone and a rate above zero |
| Declencheur.Declencheur.Lire | control/nel3ab_control/boite_noire/declencheur.py:90-114 | A useful measure joins its room, everything else is ignored |
| Declencheur.Declencheur.Evaluer | control/nel3ab_control/boite_noire/declencheur.py:116-150 | All rooms pruned and judged, in the order they were first heard of |
| Declencheur.EvaluationByRoom | control/nel3ab_control/boite_noire/declencheur.py:116-150 | Every room is judged as if it were alone |
| Declencheur.EveryRoomAfter | control/nel3ab_control/boite_noire/declencheur.py:116-150 | What one evaluation leaves of each room, known or not |
| Declencheur.DequeIsTheHistoryPruned | control/nel3ab_control/boite_noire/declencheur.py:112-122 | Over any run the deque of a room and its whole history are the same once pruned |
| Declencheur.LastIsTheLastAlert | control/nel3ab_control/boite_noire/declencheur.py:135-138 | The pause is counted from the last alert of the room |
| Declencheur.AlertsAreAPauseApart | control/nel3ab_control/boite_noire/declencheur.py:135-138 | Any two alerts of one room are at least the pause apart, whatever the clock does |
| Declencheur.AlertIsDue | control/nel3ab_control/boite_noire/declencheur.py:116-150 | A due alert is never missed |
| Declencheur.TriggerAgreesWithTheRule | control/nel3ab_control/boite_noire/declencheur.py:116-150 | The trigger, which forgets, alerts exactly as the rule over everything ever heard |
| Suiveur.CutInvertsTerminated | control/nel3ab_control/boite_noire/declencheur.py:203 | Lines written one after the other, each with its newline, come back |
| Suiveur.CutConserves | control/nel3ab_control/boite_noire/declencheur.py:203 | The lines and the unfinished end are the bytes that were cut |
| Suiveur.CutResumes | control/nel3ab_control/boite_noire/declencheur.py:203 | Cutting can resume from the unfinished line |
| Suiveur.Suiveur.Nouvelles | control/nel3ab_control/boite_noire/declencheur.py:178-212 | One poll gives the lines it completes that decode, and keeps the unfinished end |
| Suiveur.OnlyItself | control/nel3ab_control/boite_noire/declencheur.py:204-211 | A line that does not decode costs only itself |
| Suiveur.EachLineOnce | control/nel3ab_control/boite_noire/declencheur.py:178-212 | For any polling schedule over one append-only file, the lines handed on are the complete lines after the starting place, each once, in order |
| Suiveur.AFirstPollInsideALineIff | control/nel3ab_control/boite_noire/declencheur.py:181-212 | The lines handed on are whole lines of the file if and only if the first poll met it at the beginning of a line, or no line has ended since; otherwise the first of them, and only that one, lacks what came before the starting place |
| Suiveur.HalfALine | control/nel3ab_control/boite_noire/declencheur.py:181-212 | A fresh follower that first meets a line half written hands on its second half |
| Suiveur.AnotherFileStartsAtZero | control/nel3ab_control/boite_noire/declencheur.py:190-191 | A replaced or shortened file is read from its beginning |
| Suiveur.FollowedInTwo | control/nel3ab_control/boite_noire/declencheur.py:178-212 | Following two schedules one after the other is following both |
| Suiveur.YesterdayIsLostIff | control/nel3ab_control/boite_noire/declencheur.py:181-212 | Over the polls of two days, what is handed on is the lines of the old file as far as its last reading, then those of the new one from its start; nothing of the old file is missed if and only if no newline was added after that reading |
| Suiveur.EveryEventArrivesOnce | control/nel3ab_control/boite_noire/declencheur.py:178-212 | With the log that writes the file: the lines handed on are those that entered the log that day, each once and in order, all of them exactly when none is waiting whole in the handle of the log |
| Journal.Journal.Write | control/nel3ab_control/journal.py:106-132 | An event goes through the handle of its own day, or is one more loss, or raises when a failed close left that handle closed |
| Journal.Journal.Open | control/nel3ab_control/journal.py:169-197 | The file of the day is kept open; a change of day closes, opens and sweeps, and stops short when one of these raises |
| Journal.Journal.Close | control/nel3ab_control/journal.py:162-167 | What the handle still holds goes out; a close that raises leaves the handle closed and its day in place |
| Journal.PutConserves | control/nel3ab_control/journal.py:127-193 | A line written through a buffered handle is in the file, still in the handle, or refused whole; a write that returned leaves nothing behind |
| Journal.RoomComesBack | control/nel3ab_control/journal.py:127-193 | What a line used of the buffer comes back only when all that waits has gone out, and the buffer is never over its room |
| Journal.Journal.Sweep | control/nel3ab_control/journal.py:134-160 | A sweep removes date-named files older than the kept range and nothing else |
| Journal.SweepSpares | control/nel3ab_control/journal.py:134-160 | No sweep takes a file whose name is not a date, nor one of the kept days, nor the day it sweeps for |
| Journal.SweepTakesIff | control/nel3ab_control/journal.py:134-160 | A sweep takes a file if and only if the files can be listed, that one can be removed, and its name is a date before the kept days |
| Journal.AChangeOfDaySweeps | control/nel3ab_control/journal.py:169-197 | Once the file of another day is open no removable file is older than the kept days; a call that opens none removes none |
| JournalRuns.EveryCallIsAccountedFor | control/nel3ab_control/journal.py:106-132 | For events in any date order: lines that reached the files, losses counted and errors raised are the calls and the lines that landed although counted as lost |
| JournalRuns.TheBufferHolds | control/nel3ab_control/journal.py:106-197 | Over every run the buffer of the kept handle stays within its room, whatever writes and closes fail |
| JournalRuns.BalancedIff | control/nel3ab_control/journal.py:106-132 | Lines plus losses are the calls at every moment of a run if and only if every call of it counts once: it does not raise, and no lost line goes through with it |
| JournalRuns.ALateLine | control/nel3ab_control/journal.py:106-132 | Two calls, the first counted as lost, the second returned: both lines are in the file |
| JournalRuns.AfterAFailedClose | control/nel3ab_control/journal.py:162-197 | After a change of day whose close raises, the next event raises and leaves all as it is if and only if it is of the old day |
| JournalRuns.OneCall | control/nel3ab_control/journal.py:106-132 | One call adds to the file of a day that no sweep reaches the bytes it gets through, and nothing else |
| JournalRuns.CallConserves | control/nel3ab_control/journal.py:106-132 | Unless it cuts a line, a call neither loses nor invents a byte: all of it is in the file or waits in the handle |
| JournalRuns.DayFileIsItsEvents | control/nel3ab_control/journal.py:106-197 | For a day within the kept range, as long as no line is cut, its file and what waits for it are the lines of that day that entered, each once, in the order of the calls |
| JournalRuns.StrayIff | control/nel3ab_control/journal.py:106-197 | A call puts in the file of a day nothing but its own line, when it returns, if and only if nothing waits that goes out while that file is closed, and its own line goes out whole by itself or none of it does |
| JournalRuns.DayFileIsWrittenIff | control/nel3ab_control/journal.py:106-197 | The file holds exactly the lines of the calls that returned if and only if what the system answers to each call is so |
| Releve.Releveur.Scan | control/nel3ab_control/boite_noire/releve.py:144-167 | A scan takes the cache to the state of the specification; when the processes cannot be listed the answer is empty and the cache stays |
| Releve.EveryRoleIsRecent | control/nel3ab_control/boite_noire/releve.py:155-166 | After every scan the cache has exactly the listed processes, and each role comes from a name read less than thirty seconds before |
| Releve.CacheIsARescan | control/nel3ab_control/boite_noire/releve.py:144-167 | While no listed process changes its name, every cached scan answers what a full rescan would |
| Releve.NamesAreKept | control/nel3ab_control/boite_noire/releve.py:155-166 | Within thirty seconds of the last full reading of the names no cached role is read again; from then on all are |
| Releve.OneNamePerRole | control/nel3ab_control/boite_noire/releve.py:41-48 | A role is the role of one name, of fifteen characters at most |
| Roulant.NoStrayIff | control/nel3ab_control/boite_noire/roulant.py:112-168 | A call leaves no perf running out of hand if and only if it does not ask a running one to stop in vain: one that cannot be told, or one whose wait runs out |
| Roulant.TwoAtOnceIff | control/nel3ab_control/boite_noire/roulant.py:112-168 | Where at most one runs, a call leaves two at once if and only if it is to follow another process than the one in hand does, the launch goes through, the one in hand does not fail to end in time, and one is left: that one, when it cannot be told, or one an earlier call let go of |
| Roulant.NeverAStrayIff | control/nel3ab_control/boite_noire/roulant.py:112-168 | In every run, every perf out of hand has been reaped at every moment if and only if no stop of the run fails |
| Roulant.AtMostOne | control/nel3ab_control/boite_noire/roulant.py:112-168 | In a run in which no stop fails, at most one perf is not reaped: the one in hand, the last launched, which follows what is said |
| Roulant.Roulant.Suivre | control/nel3ab_control/boite_noire/roulant.py:112-149 | Following the same live process changes nothing; anything else ends the old recording, and starts one in a cleared folder unless a wait ran out or the launch failed |
| Roulant.WhatFollowingDoes | control/nel3ab_control/boite_noire/roulant.py:112-149 | By what was in hand: nothing when that process is followed already; otherwise an error if and only if a wait ran out or a launch failed; a new one is added, in hand, only without one; none but the one in hand is touched |
| Roulant.Roulant.Arreter | control/nel3ab_control/boite_noire/roulant.py:151-168 | Nothing stays in hand; the old recording is reaped, or left running when it could not be told or did not end in time, the latter being an error |
| Roulant.Roulant.Vider | control/nel3ab_control/boite_noire/roulant.py:170-196 | A dump is handed over if and only if one runs, is signalled, and a new one is seen and can be moved; it was not there before the signal and is the latest of the first new ones |
| Roulant.LessIff | control/nel3ab_control/boite_noire/roulant.py:187 | The order by which the latest is chosen: one name is before another where they first differ, or when it stops first |
| Roulant.TwoWays | control/nel3ab_control/boite_noire/roulant.py:112-168 | From any recording that runs: one that cannot be told to stop is joined by the next at once; one whose wait runs out, by the perf of the call after |
| Vidage.TheLoopAlone | control/nel3ab_control/boite_noire/roulant.py:112-168 | The steps of a call of the loop, with nothing between, are the call of the sequential model |
| Vidage.TheDumpAlone | control/nel3ab_control/boite_noire/roulant.py:170-182 | The three reads of a dump, with nothing between, signal the recording that runs, or give nothing |
| Vidage.TheDumpCrashesIff | control/nel3ab_control/boite_noire/roulant.py:112-182 | Whatever the loop does between two reads of the dump, the second ends the dump in an error nothing catches if and only if the loop has let go of the recording since the first and put none in hand |
| Vidage.AnotherIsSignalledIff | control/nel3ab_control/boite_noire/roulant.py:112-182 | Otherwise the recording that is signalled is another than the one seen to run if and only if the loop has launched one in between |
| Vidage.AGameStopsDuringADump | control/nel3ab_control/boite_noire/roulant.py:151-182 | From any recording that runs: a game that stops during a dump ends it in an error |
| SeatProtocol.AcceptsExactly | control/nel3ab_control/worker.py:31-51 | A line is accepted exactly when it is ASCII and its words are those of four seats, each free or with a receipt no other has |
| SeatProtocol.SeatsComeBack | control/nel3ab_control/worker.py:31-59 | Four legal seats print to at most 216 bytes and come back from their line |
| SeatProtocol.ReadLine | control/nel3ab_control/worker.py:66-70 | The loop stops at the first receive that completes a line or the 256 bytes, or before the first that finds nothing, and gives what was read when that ends a line; a line of at most 256 bytes is put back together under any splitting |
| SeatProtocol.ReadSeats | control/nel3ab_control/worker.py:54-73 | Four legal seats are read as they are, however the answer is split |
| SeatProtocol.WordsReadBack | core/crates/transport/src/control.rs:110-185 | From the line of an accepted order whose person is one word the worker reads every field back, an empty person and a dash being the same nobody, or nothing when the name has more than 64 bytes |
| SeatProtocol.WhatTheWorkerReads | core/crates/transport/src/control.rs:110-285 | Through the 320 bytes the worker reads: the order, or nothing for a name of more than 64 bytes; for a longer line the same order for as much of the name as there is room for, or nothing when that is more than 64 bytes or ends inside a character |
| SeatProtocol.LaunchComesBackIff | control/nel3ab_control/worker.py:140-174 | Every field comes back if and only if the person is one word for the worker too (no Unicode white space), of at most 64 bytes, and the line is within 320 bytes |
| SeatProtocol.NameOfOneWord | core/crates/transport/src/control.rs:110-185 | Of a name with white space that only the worker knows: an order of at most 320 bytes is read for its one word, and not at all when it holds several or none, or one over 64 bytes |
| SeatProtocol.ALongOrderShortensAName | core/crates/transport/src/control.rs:110-285 | With every seat taken and receipts at their longest, any name of more than 29 letters is read as its first 29 |
| SeatProtocol.ALongNameIsNotRead | core/crates/transport/src/control.rs:110-185 | A name within 64 characters and over 64 bytes is accepted, and its order is not read |
| SeatProtocol.AnAccentedName | core/crates/transport/src/control.rs:110-185 | Thirty-three accented letters or more are such a name |
| SeatProtocol.ANameOfTwoWords | core/crates/transport/src/control.rs:110-185 | Two words with a no-break space between: accepted, and the order not read; with one at the end: read without it |
| Utf8.CutDecodes | core/crates/transport/src/control.rs:263-270 | A beginning of the bytes of a text is a text exactly when it ends between two characters, and then it is the beginning of that text |
| Utf8.PrefixOfBytes | core/crates/transport/src/control.rs:263-270 | A text whose bytes begin those of another begins it |
| Words.TokensOfJoin | control/nel3ab_control/worker.py:38-40 | Cutting at white space gives back the words that were joined |
| SaveSlots.Initialise | docker/switch-room.py:28-47 | At every step the data are as they were, or, where there were none, a full template with banks 0 and 1 emptied; existing data are never touched; it finishes unless an outside call fails or a file is in the way, and no step of it puts one there |
| SaveSlots.InitialiseAfterCrashes | docker/switch-room.py:28-47 | Any number of attempts, each leaving the tree of the step it is stopped at, then one that is let through: the slot has its data, those it had, or a full template with its banks emptied |
| SaveSlots.EmptyBanks | docker/switch-room.py:41-46 | Both banks of every container emptied, everything else of the copy kept |
| SaveSlots.WhatIsEmptied | docker/switch-room.py:41-46 | What is emptied of a template: what is inside directory 0 or 1 of a container of its saves, and nothing else |
| SwitchSaves.Backup | docker/switch-room.py:50-60 | A full copy of the user tree under a name no backup has; at every step earlier backups are untouched and a new entry is a part of the user tree; it is in the list half copied at some step if and only if it is there at all and the user tree is more than one bare directory; only a finished copy is reported |
| SwitchSaves.APartIsListedIff | docker/switch-room.py:50-60 | The same of the steps of a copy, the first of which makes the bare directory under the final name |
| SharedCache.Share | docker/switch-room.py:119-155 | The shared cache appears whole and at once from the fullest slot, is never touched when it is there, and is made unless an outside call fails or a file is where the pending copy goes |
| SharedCache.ShareAfterCrashes | docker/switch-room.py:119-155 | Any number of calls, each leaving the tree of the step it is stopped at, then one that is let through: the shared cache is there, the one there was, or the whole of what seeds it |
| SharedCache.Fullest | docker/switch-room.py:130-134 | The fullest candidate, of equals the last |
| Room.Watch | docker/switch-room.py:342-372 | The calls are laid out look by look: the emulator is asked in each; captures are stopped in exactly those looks up to the end in which the display is there and no start has gone through yet or the client has exited, and a start follows unless the stop fails or three starts fall in the last minute; no minute holds more than three |
| Room.WatchIsLaid | docker/switch-room.py:342-372 | The same of the watch that forgets no start, with where each look begins |
| Room.LimiterLooks | docker/switch-room.py:361-364 | The list the loop keeps refuses a start exactly when three starts of the whole run fall in the last minute |
| Room.AtMostThreeAMinute | docker/switch-room.py:361-364 | Any four starts do not fit in a span of sixty seconds |
| Room.StopTheEngine | docker/switch-room.py:403-437 | Captures first, the emulator whatever came of it, the rest only once it has stopped, its removal last and always then |
| Room.ShapeIsShutdown | docker/switch-room.py:374-437 | Whichever call fails: stopped exactly once if started, removed if stopped, the controllers after the emulator, no capture after the stop, the backup only after the emulator stopped |
| Room.Serve | docker/switch-room.py:244-400 | A whole room is its four parts as the outside answered them, keeps that order and the limit, and ends without an error exactly when it was closed and no call failed but a polite stop of captures |
| SaveArchive.Chosen | docker/switch-saves.py:89-112 | Which entry goes where: refused as a whole when one entry could leave its folder; each named file exactly once; or every file under the folder, the last of equals |
| SaveArchive.PicksIsUnique | docker/switch-saves.py:89-112 | An archive has at most one choice, and none when there is a reason to refuse it |
| SaveArchive.RulesAreGood | docker/switch-saves.py:41-56 | The rules of the five games name distinct plain files or a folder |
| SaveArchive.TheFiveGames | docker/switch-saves.py:41-56 | Which five titles have a rule, and which files or folder each names |
| SaveArchive.PlainStaysInside | docker/switch-saves.py:92-96 | A destination made of plain segments stays strictly inside the directory it is put in |
| SaveArchive.RestIsPlain | docker/switch-saves.py:107-109 | What is left of an accepted name under its folder is plain |
| SaveArchive.AccountContainer | docker/switch-saves.py:71-86 | The one container that is the user save of the game, none when there is not exactly one |
| SaveArchive.OwnedIff | docker/switch-saves.py:75-84 | The owner record of such a save: the program in eight bytes, twenty-four that do not matter, the mark of a user, and anything after |
| SwitchSaves.Restore | docker/switch-saves.py:166-184 | At every step the old user tree is whole, in place or moved aside, or is in a finished new backup; a restore that says so leaves the chosen backup in place and a new whole backup of what was there; any other outcome the old tree, unless the rename and the rename back both failed; it fails only for a reason |
| PendingSave.WriteBanks | docker/switch-saves.py:135-141 | Both banks of the new save written in full at the pending place, nothing beside it touched |
| BankSwap.SwapBank | docker/switch-saves.py:143-146 | Between and after the two renames a bank is the old one, gone, or the whole new one |
| SaveImport.ImportSave | docker/switch-saves.py:135-163 | At every step the user tree is at one of five stages, no bank ever mixing old and new files, and from the first change on the old tree is whole in a finished backup; earlier backups are never touched; an import that says so had both banks to replace, replaced both banks and cleared its pending place; it fails only for a reason |
| SaveImport.ARerunIsPossibleIff | docker/switch-saves.py:150-153 | Of the stages an import can be stopped at, the container has both banks, without which no import of it goes through, exactly at those that are not between the two renames of a bank |
| SaveImport.StoppedImport | docker/switch-saves.py:135-163 | One import stopped at any of its steps leaves the tree of that step, with the user tree of before in place, or whole in a backup whose name it gives; a backup that held it before still does |
| SaveImport.RestoreAfterStoppedImports | docker/switch-saves.py:115-184 | After any number of imports, each from the tree the one before left and stopped at any of its steps, a restore of that backup that says so gives the user tree of before all of them back; it fails only for a reason |
| ArchiveImport.Select | docker/switch-saves.py:115-134 | What is imported of an archive, or the first reason not to: no rule, size of the archive, choice, count, size of a file, size in all, no one container of the game |
| ArchiveImport.ImportArchive | docker/switch-saves.py:115-163 | Nothing is touched when there is a reason not to; otherwise at most 64 files of at most 12 MB, 24 MB in all, each strictly inside the banks of the one container of the game, go through the steps of an import of exactly those files |

## Left out

- Declencheur.Declencheur.Evaluer: the reported median is not rounded to one decimal, and rates are reals, so not-a-number and infinite rates are not modelled.
- Service.BoiteNoire.Tour: the contents of a reading, of a profile and of the log lines are abstract, and so is what a sweep removes; the follower's bytes, the trigger's lines and the rolling profiler are not. A turn in which the executor refuses a submission, or a log write after the first raises, is not modelled; a log write raises only through a handle that a failed close left closed, for an event of its day (`JournalRuns.AfterAFailedClose`).
- Suiveur.Suiveur.Nouvelles: the UTF-8 and JSON readers are one abstract function on a line; a file that shrinks between its size being taken and its being read is not modelled.
- Journal.Journal.Write: time zones and JSON are abstract (a local day and one line without a newline); errors other than those of the file system, and that of a closed handle, are not modelled.
- Releve.Releveur.Scan: a process number used again between two scans that both list it is excluded by the stability hypothesis of the rescan result, not modelled apart.
- Roulant.Roulant.Vider: the method is the dump with no call of the loop between its uses of the profiler, `Vidage` the interleavings; the pause of 50 ms between looks is not modelled, only what each look before the deadline finds.
- ArchiveImport.ImportArchive: the zip reader and the record of the import are abstract (what each entry expands to, and the bytes of the record).
- SaveSlots.Initialise: symbolic links and permissions are not part of the tree.
- SharedCache.Share: the sizes of the candidates are given, not computed from the tree.
- Room.Serve: the wait for the controllers, the reading of their list, the profile copy and the argument list of the emulator are one step that may fail.
- Pads.Helper.Handle: a write to a device that fails, and a player given as infinity or not-a-number, are not modelled; rumble is left out altogether.
- FrameRing.Receive: a picture is the pixels it is read as; importing and copying the images is left out, so the held slot is not checked against their number.
- WiiSave.Open: the output directory, the files written there and the unverified digest are left out; names decode as ASCII.
- CbcCipher.Decrypt: the block cipher is any pair of functions that undo one another, not AES.
- SeatProtocol.LaunchComesBackIff: the time-outs and the worker's answer to an order are left out.
- CapturePackets.Drain: the sending of a packet on, which may fail, and the report of ages are left out.
- CaptureControl.EveryRunIsKept: signals are recorded but not delivered, a capture leaving its body on its own whenever it likes; the ten-second bound of a stop is a step that may come at any time.
- CaptureDemand.EveryRunIsKept: the eight seconds of a join are a step that may come at any time.
- React components, generated clients, settings, previews and one-off test drivers: rendering and configuration, no state worth a proof.
- The other programs of `spikes/m2-vaapi-export`: calls into graphics libraries.
- `update_mount`, `pad_command`, `cpu_pinning`, `engine_environment`, the rows of `Releveur._ecarts` and its top threads, the texts of the control pages: they only build lists and text, and would add easy members.
