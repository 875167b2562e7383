# bevy_geppetto in Dafny

bevy_geppetto is a test harness for Bevy apps. In capture mode it writes every
tick's input events to a snapshot file, one RON line per tick. In replay mode it
reads the file back and feeds the same events into the app. It also records
screenshots at a fixed rate and encodes them into a GIF at shutdown.

This project models the core of the harness in Dafny and proves properties of
that model:

- the rate accumulator, the pending and resolved frame list, the canvas size
  rule and the GIF gate of `src/systems/screenshots.rs`;
- capture (tick counter and line append) and replay (line cursor, ten batches,
  end-of-stream teardown) in `src/systems/inputs.rs` and the older
  `src/playback.rs`, together with its Escape flush;
- label sanitisation, `make_path`, the `SnapshotEvent` constructors, the
  `handle_events` session machine and the `run_if` gating of `src/lib.rs`;
- the file naming and the create-or-open choice of `src/files.rs` and
  `src/snapshots.rs`;
- `Arguments::mode` of `src/cli.rs`.

The central result is `Inputs.ReplayReproducesCapture`. Take a codec that
decodes what it encodes and encodes every value as one line. Then the snapshot
text written by `n` capture calls splits into exactly `n` lines. The i-th line
replays as the i-th tick's batches, and the whole replay sends the captured
events category by category, tick after tick. `Lib.RecordThenPlayback` runs the
same story through the stateful model: a `Record` event, capture frames,
a `Playback` event, replay frames, and one more frame that closes every window.

Modules follow the source files. `Screenshots`, `Inputs`, `Playback`, `Lib`,
`Files`, `Snapshots` and `Cli` model one source file each. `Wrappers` (Option,
Result, the outcome of a call that may panic, `u16`), `Labels`
(`sanitize_label`), `FileSystem` (paths, `with_extension`, create and open),
`LineIo` (`BufRead::lines`), `Records` (the record and its ten categories) and
`Streams` (`SnapshotWriter` and `SnapshotReader`) hold what several files share.

Modelling choices:

- A Rust panic the model covers (a failed `File::create` or `File::open`, a
  line that does not decode, a missing line, a `u16` conversion or overflow
  in a debug build) is an `Outcome.Fail` or a `Result.Err` carrying the panic
  message. Failures of the I/O calls themselves (`write_all`, `flush`) are
  not modelled; "## Left out" names the members concerned.
- RON is a `Codec` value passed as a parameter. Its round trip
  (`Records.RoundTrips`) and its one-line output (`Records.EncodesOneLine`) are
  hypotheses of the lemmas that need them.
- The ten event types are one type parameter `E`. The ten record fields keep
  the categories apart.
- Each `send_batch` call is logged in `Inputs.World.sent`. The window entities
  are a set of ids there.
- Time is a `delta` in nanoseconds passed to each call. What each screenshot
  channel delivers this tick is an oracle argument of `receive_images`.
- The writer is its flushed text plus its buffer. The reader is the list of
  items its `Lines` iterator yields plus a cursor.

The canvas is not a running maximum per dimension. The size changes only to
a frame larger than the start-of-call size in both dimensions, and the last
such frame of the call wins. `Screenshots.SizeScenario` shows that frames of
100x50, 80x80 and 120x40 give 120x40 in one call and 100x50 over three calls.

## Model

| member | source | states |
|---|---|---|
| Wrappers.IncrementU16 | src/systems/inputs.rs:69 | the `u16` counter increments by exactly one below 65535 and panics at 65535 |
| Wrappers.ToU16 | src/systems/screenshots.rs:104-105 | a `u32` converts to `u16` unchanged exactly when it is at most 65535, and panics otherwise |
| Labels.AsciiLower | src/lib.rs:47 | an ASCII upper-case letter gains 32 code points, becoming its lower case; every other character is unchanged; the result is never upper case |
| Labels.SanitizeChar | src/lib.rs:47 | a space becomes `-` and every other character is ASCII-lowercased |
| Labels.ReplaceAt | src/lib.rs:47 | `replace(' ', "-")` keeps the length and replaces exactly the spaces |
| Labels.ToAsciiLowercaseAt | src/lib.rs:47 | `to_ascii_lowercase` keeps the length and lowercases each character on its own |
| Labels.SanitizeLabel | src/lib.rs:46-48 | the sanitised label has the label's length and each character is the sanitised character at the same position |
| Labels.SanitizeLabelChars | src/files.rs:3-5 | the sanitised label has no space and no ASCII upper case; spaces become `-`, upper case gains 32, every other character is unchanged |
| Labels.SanitizeLabelIdempotent | src/snapshots.rs:23-25 | sanitising twice equals sanitising once |
| Labels.SanitizeLabelFixedPoints | src/lib.rs:47 | a label is its own sanitisation exactly when it has no space and no ASCII upper case |
| FileSystem.LastDot | src/lib.rs:52 | finds the last `.` of a name, or reports that there is none |
| FileSystem.WithExtensionShape | src/lib.rs:50-52 | `with_extension` cuts the name at its last dot and appends `.ext`; a name without a dot, or whose only dot is its first character, is kept whole |
| FileSystem.LastDotAfter | src/lib.rs:52 | in a stem, a dot and a dotless extension, the last dot is the one after the stem |
| FileSystem.LastDotOfSameDots | src/lib.rs:52 | two names with dots at the same places have the same last dot |
| FileSystem.CreateOrOpen | src/files.rs:24-29 | creating succeeds exactly when the directory exists and truncates the file to nothing; opening succeeds exactly when the file exists, reads its text and changes nothing |
| FileSystem.CreateThenOpen | src/files.rs:24-29 | a file just created opens and reads back empty |
| Cli.Mode | src/cli.rs:16-24 | the mode is always one of `capture`, `replay` and `sandbox` |
| Cli.ModeCaptureWins | src/cli.rs:17-18 | a capture rate selects `capture`, whatever the replay flag says |
| Cli.ModeWithoutCapture | src/cli.rs:19-22 | without a capture rate, the replay flag selects `replay` and its absence `sandbox` |
| Cli.ModeOfParsed | src/cli.rs:3-24 | for arguments that clap accepts (never both flags), each mode holds exactly for its own flags |
| Files.SnapshotFileName | src/files.rs:10 | the snapshot file name is the sanitised label followed by `.snapshot` |
| Files.SnapshotFileNameCollides | src/files.rs:10 | two labels share a snapshot file exactly when they sanitise to the same text |
| Files.GetOrCreateInputSnapshotFile | src/files.rs:8-30 | capture truncates the file, replay opens the existing file unchanged, and either failure aborts with the "Missing snapshot file" message |
| Files.ReplayNeedsCapture | src/files.rs:24-29 | replaying a label never captured aborts with that message, and after a capture the label opens |
| Snapshots.InputFileName | src/snapshots.rs:29 | the input snapshot name is the sanitised label followed by `.ron` |
| Snapshots.InputFileNameIsPathSafe | src/snapshots.rs:23-29 | the input snapshot name has no space and no ASCII upper case |
| Snapshots.GetOrCreateInputSnapshotFile | src/snapshots.rs:27-50 | `snapshot` truncates the file, otherwise the existing file opens unchanged; either failure panics through `unwrap` |
| Snapshots.VideoFileName | src/snapshots.rs:65 | the inline replace-and-lowercase of the video name is the shared sanitisation |
| Snapshots.VideoAndInputShareStem | src/snapshots.rs:65 | the input snapshot name is the video name followed by `.ron` |
| LineIo.LineEnd | src/lib.rs:111-113 | finds the first line terminator, or the end of the text |
| LineIo.TerminatedAppend | src/systems/inputs.rs:71-73 | one more `text + "\n"` write appends one more line to the snapshot text |
| LineIo.LineEndOfTerminated | src/lib.rs:111-113 | a written line without terminator ends exactly where its `"\n"` was written |
| LineIo.LinesOfTerminated | src/lib.rs:111-113 | `lines()` on text written line by line gives back exactly the lines written, in order |
| Records.Emissions | src/systems/inputs.rs:100-109 | replaying one record sends ten batches, one per category, in field order, each the record's list for that category |
| Records.EmissionsInjective | src/systems/inputs.rs:100-109 | the ten batches sent for a record determine the record's events: nothing is lost or merged between categories |
| Records.EmissionsOf | src/systems/inputs.rs:98-109 | replaying `n` records sends `10 * n` batches |
| Records.EmissionsOfAppend | src/systems/inputs.rs:98-109 | one more replayed record appends its ten batches after the earlier ones |
| Records.EmissionsOfInjective | src/systems/inputs.rs:98-109 | the batches sent over several ticks determine the records, tick by tick |
| Streams.SnapshotWriter.constructor | src/lib.rs:88-97 | a new writer has written nothing |
| Streams.SnapshotWriter.WriteAll | src/systems/inputs.rs:72-73 | `write_all` appends the bytes to the buffer and leaves the file as it was |
| Streams.SnapshotWriter.Flush | src/lib.rs:130-134 | `flush` moves the buffer to the file and keeps everything written |
| Streams.LinesRead | src/lib.rs:111-113 | the reader over a file yields one `Ok` item per line of its text |
| Streams.SnapshotReader.constructor | src/lib.rs:106-116 | a new reader has read nothing |
| Streams.SnapshotReader.Next | src/systems/inputs.rs:98 | `next` yields the next item and advances by one, and at the end yields `None` on this and every later call |
| Inputs.TickRecords | src/systems/inputs.rs:56-69 | the i-th of the records of consecutive capture calls carries the counter value `start + i` and that tick's events |
| Inputs.EncodedLines | src/systems/inputs.rs:71 | each record is encoded on its own, in order |
| Inputs.CaptureText | src/systems/inputs.rs:71-73 | the text of `n` capture calls is each record's encoding followed by `"\n"`; when no encoding holds a line break, `lines()` gives back exactly those encodings in tick order |
| Inputs.CaptureTextAppend | src/systems/inputs.rs:56-73 | one more capture call appends one more line, stamped with the counter after the earlier calls |
| Inputs.ReplayItemCases | src/systems/inputs.rs:98-99 | a line that decodes replays as its record's events whatever its tick; an undecodable line panics with the `unwrap` message; a failed read panics with its own error |
| Inputs.ReplayReproducesCapture | src/systems/inputs.rs:56-109 | with a round-tripping one-line codec, `n` capture calls write exactly `n` lines, the i-th replays as the i-th tick's events, and the whole replay sends the captured events in order |
| Inputs.ReplayLogOfReplayable | src/systems/inputs.rs:98-109 | replaying lines that each decode to a tick's events sends those ticks' batches in order |
| Inputs.InputHistoryCapture.constructor | src/systems/inputs.rs:38 | the `Local<u16>` counter starts at zero |
| Inputs.InputHistoryCapture.CaptureInputHistorySnapshot | src/systems/inputs.rs:36-74 | the record carries the counter before the call and this tick's events; the counter grows by one; exactly the encoding and one `"\n"` are appended; at 65535 the call panics and writes nothing |
| Inputs.ReplayInputHistorySnapshot | src/systems/inputs.rs:77-115 | one line is consumed and its ten batches are sent in field order, ignoring the tick; a read or decode error is fatal; at the end nothing is sent and every window is despawned, on every later call too |
| Playback.InputHistoryCapture.constructor | src/playback.rs:36 | the older counter starts at zero |
| Playback.InputHistoryCapture.CaptureInputHistorySnapshot | src/playback.rs:34-72 | the same record, counter step and appended line as the newer capture, with `write` taken to be whole |
| Playback.CountFocused | src/playback.rs:80-88 | counts the focused windows, at most the number of windows |
| Playback.CountFocusedPositive | src/playback.rs:80-88 | the count is positive exactly when some window is focused |
| Playback.FlushFileWriter | src/playback.rs:75-89 | with Escape just pressed the writer is flushed once per focused window and otherwise not at all; what was written is unchanged |
| Playback.ReplayInputHistorySnapshot | src/playback.rs:91-123 | one line is consumed and its ten batches are sent in field order; at the end nothing is sent and nothing else changes |
| Screenshots.Poll | src/systems/screenshots.rs:37-44 | a resolved frame yields nothing; a pending frame yields what its channel delivered |
| Screenshots.Get | src/systems/screenshots.rs:46-51 | yields the image exactly for a resolved frame |
| Screenshots.RateStep | src/systems/screenshots.rs:70-76 | a call fires exactly when the accumulated time is strictly above the rate; firing takes exactly one rate off the sum, and a call that does not fire keeps at most one rate |
| Screenshots.RateRunConserves | src/systems/screenshots.rs:70-76 | every fired request accounts for exactly one rate and the rest is carried, and each call fires at most once |
| Screenshots.RateScenario | src/systems/screenshots.rs:70-76 | at the default rate of `RecordingRate::default()` (500 ms, `DEFAULT_RECORDING_RATE`, lines 25-29), ticks 600 ms and 500 ms apart fire twice, and a sum equal to the rate does not fire |
| Screenshots.Polled | src/systems/screenshots.rs:101-103 | one poll per frame, in list order |
| Screenshots.ResolveFrames | src/systems/screenshots.rs:101-122 | the frame list keeps its length |
| Screenshots.ResolveFramesSpec | src/systems/screenshots.rs:101-122 | length and order are kept; exactly the pending frames whose channel delivered become resolved with that image; resolved frames never change or revert |
| Screenshots.NewSizeRule | src/systems/screenshots.rs:98-126 | the new size is the start size or larger in both dimensions; it is the size of the last frame of the call larger than the start size in both dimensions, and stays when no frame is |
| Screenshots.UpdatedSizeGrows | src/systems/screenshots.rs:105-116 | `updated_size` only ever holds a size larger than the start size in both dimensions |
| Screenshots.NoBeaterKeepsSize | src/systems/screenshots.rs:105-116 | when no frame beats the start size, `updated_size` stays `None` |
| Screenshots.LastBeaterWins | src/systems/screenshots.rs:105-116 | `updated_size` ends as the size of the last frame that beats the start size, whatever came before |
| Screenshots.SizeScenario | src/systems/screenshots.rs:98-126 | frames of 100x50, 80x80 and 120x40 give 120x40 in one call and 100x50 over three calls |
| Screenshots.ScreenshotFileNameParts | src/systems/screenshots.rs:102 | frame `index` is saved as the label, `-`, the index in decimal and `.png` |
| Screenshots.DecimalShape | src/systems/screenshots.rs:102 | the decimal text of an index ends in its last digit and has one digit exactly below ten |
| Screenshots.DecimalInjective | src/systems/screenshots.rs:102 | different indices have different decimal texts |
| Screenshots.ScreenshotFileNamesDistinct | src/systems/screenshots.rs:102 | different frames are saved under different file names |
| Screenshots.SaveJobsSpec | src/systems/screenshots.rs:101-121 | one call spawns a save of every image delivered this call under its frame's index, and no other save |
| Screenshots.AllResolved | src/systems/screenshots.rs:143-145 | the `encode_gif` gate holds exactly when no frame is still pending |
| Screenshots.ToGifFrame | src/systems/screenshots.rs:156-161 | a GIF frame has its image's own width, height and pixels |
| Screenshots.GifFrames | src/systems/screenshots.rs:152-163 | one GIF frame per list entry, in list order |
| Screenshots.SubmissionOrderScenario | src/systems/screenshots.rs:101-165 | frames resolved out of order still reach the GIF in submission order: the GIF frames are A, B, C, and the gate opens only after the last one resolves |
| Screenshots.PolledPrefixStep | src/systems/screenshots.rs:101-123 | one more frame seen by the loop updates the candidate size and the save jobs as the loop body does |
| Screenshots.ResolvedUpTo | src/systems/screenshots.rs:101-122 | after the loop has handled `k` frames, exactly those are in their resolved form and the rest are unchanged |
| Screenshots.ResolvedUpToStep | src/systems/screenshots.rs:101-122 | handling one more frame changes that frame only |
| Screenshots.ResolvedUpToEnds | src/systems/screenshots.rs:101-122 | before the loop nothing is resolved, and after it the list is the fully resolved list |
| Screenshots.PlaybackFrames.constructor | src/systems/screenshots.rs:54-58 | the frame list starts empty on a 0x0 canvas |
| Screenshots.PlaybackFrames.ReceiveImages | src/systems/screenshots.rs:94-127 | the new frames resolve exactly the delivered ones, the new size follows the size rule, one save job per delivered image under `{label}-{index}.png`; an image above 65535 panics at the frame it reports, with earlier frames resolved and later ones and the size untouched |
| Screenshots.PlaybackFrames.EncodeGif | src/systems/screenshots.rs:138-166 | while a frame is pending nothing changes; otherwise the GIF has the stored canvas size and one frame per entry in order, the list is drained and the next state is `Shutdown`, also for an empty list |
| Screenshots.ScreenshotTimer.constructor | src/systems/screenshots.rs:65-68 | no time accumulated and no screenshot requested |
| Screenshots.ScreenshotTimer.TakeScreenshots | src/systems/screenshots.rs:61-92 | the accumulated time follows the rate step; a firing call appends exactly one pending frame at the end and counts it; a call that does not fire changes no frame |
| Screenshots.SaveRecordingRate | src/systems/screenshots.rs:129-136 | the encoded rate and one `"\n"` are appended |
| Screenshots.ReadRateItem | src/systems/screenshots.rs:172-173 | a missing line panics with the `Option::unwrap` message, a read error with its own, and the rate is read exactly when the line decodes, as what it decodes to |
| Screenshots.ReadRecordingRate | src/systems/screenshots.rs:168-175 | one line is consumed and decoded as the rate; a missing line panics |
| Screenshots.RecordingRateRoundTrip | src/systems/screenshots.rs:129-175 | a snapshot that starts with the saved rate reads that rate back first and then exactly the lines written after it |
| Lib.SanitizeKeepsDots | src/lib.rs:46-48 | sanitisation neither adds, removes nor moves a `.`: the last dot stays where it was |
| Lib.MakePath | src/lib.rs:45-53 | the path is in the snapshots directory; its name is the sanitised label cut at the label's last dot, or whole when there is no dot or the only one comes first, followed by `.snapshot` |
| Lib.SnapshotName | src/lib.rs:50-52 | `with_extension("snapshot")` of the sanitised label cuts it at the label's last non-leading dot and appends `.snapshot` |
| Lib.SanitizePrefix | src/lib.rs:46-48 | sanitising a label's prefix gives the prefix of the sanitised label |
| Lib.DottedSnapshotName | src/lib.rs:45-53 | a label `stem.suffix` with a dotless suffix is saved as the sanitised stem plus `.snapshot` |
| Lib.DottedLabelsCollide | src/lib.rs:45-53 | labels that differ only after their last dot, such as `v1.2` and `v1.3`, share one snapshot file |
| Lib.MakePathOfSanitized | src/lib.rs:45-53 | a label and its sanitised form name the same snapshot |
| Lib.RecordEvent | src/lib.rs:12-14 | `record` wraps the label unchanged in a `Record` event |
| Lib.PlaybackEvent | src/lib.rs:16-18 | `playback` wraps the label unchanged in a `Playback` event |
| Lib.StopEvent | src/lib.rs:20-22 | `stop` is the `Stop` event |
| Lib.Session.constructor | src/lib.rs:59-70 | the app starts with neither writer nor reader |
| Lib.Session.HandleEvent | src/lib.rs:119-155 | the reader is dropped and the writer flushed into its file and dropped; `Record` installs a writer on a truncated file at `make_path(label)`, `Playback` a reader over that file's lines, `Stop` nothing; a failed create or open panics with its message; writer and reader are never both present |
| Lib.Session.Update | src/lib.rs:59-71 | replay runs exactly while a reader exists and capture exactly while a writer exists, each with its own contract |
| Lib.CaptureAll | src/lib.rs:66-69 | capture frames while recording leave exactly the capture text of those ticks in the writer |
| Lib.ReplayAll | src/lib.rs:63-65 | replay frames over a replayable snapshot send the ticks' batches in order |
| Lib.RecordThenPlayback | src/lib.rs:59-155 | recording under a label and then playing it back sends exactly the captured events, and one frame after the last line every window is gone |

## Left out

- RON syntax: the codec is a parameter. `ron::ser::to_string` never fails in the model.
- Screenshot callbacks, `crossbeam_channel` and the PNG save threads: a channel's delivery is an argument, and a save thread is a `SaveJob` returned by `ReceiveImages`. Whether a save succeeds is not modelled.
- The `gif` encoder and `Image::try_into_dynamic`: only the canvas and the sequence of frames are modelled. `File::create` of the GIF and encoder errors are not.
- Bevy's `Commands`, `EventReader`/`EventWriter` and `Time`: commands take effect at once, events are lists, and time is a `delta` argument.
- Lib.Session.HandleEvent: handles one event per call. When `handle_events` reads several events in one run, its removals depend on the resources present when it started and take effect later, so the order of removals and insertions differs; that case is not modelled.
- Lib.Session.HandleEvent: a failing `flush().expect("BufWriter to flush contents successfully")` is not modelled; flushing always succeeds.
- Streams.SnapshotWriter.WriteAll: the file changes only on `Flush`. `BufWriter` passes its buffer through to the file once its 8 KiB fill, so the real file may already hold a prefix of the written text; only `Contents()` (file plus buffer) is the same in both. A failing `write_all(..).unwrap()` is not modelled either.
- Files.GetOrCreateInputSnapshotFile: the file name is taken as one path component in `dir`. A label with `/` makes `Path::join` nest the file in a sub-directory, which must exist for `File::create` to succeed; the model asks only for `dir`.
- Snapshots.GetOrCreateInputSnapshotFile: the same single-component reading of the file name as `Files.GetOrCreateInputSnapshotFile`.
- Lib.MakePath: requires the sanitised label to be one plain path component (not empty, no `/`, not `.` or `..`). `Path::join` with separators or an absolute label is not modelled.
- `src/directory.rs` is not part of this model: the snapshot directory is a plain argument, and the screenshot and GIF directories (`get_screenshots_dir()`, `get_gifs_dir()`) are dropped, so screenshots and the GIF are modelled by their file names only.
- `GeppettoConfig::default`, `is_snapshot`, `parse_args` and the `println!` calls: environment variables, file-system probing and `clap` parsing.
- `capture_video_snapshots`' calls into `bevy_capture_media`: only its file-name derivation is modelled (`Snapshots.VideoFileName`).
- Screenshots.ScreenshotTimer.TakeScreenshots: the `u32` frame counter and the `Duration` are unbounded, so their overflow is not modelled. The panics of `primary_window.single()` and `take_screenshot(..).unwrap()` are not modelled either.
- Streams.LinesRead: a file read never fails in the model, and text is characters rather than UTF-8 bytes; a read error can only appear as an `Err` item handed to a reader.
- Wrappers.IncrementU16: models a debug build, where `+= 1` at 65535 panics; a release build would wrap the tick to 0.
- Playback.FlushFileWriter: a failing `flush().unwrap()` is not modelled.
- Playback.InputHistoryCapture.CaptureInputHistorySnapshot: `write` is taken to write every byte; a short write is not modelled.
- The ten Bevy event types are one type parameter, and the records of `inputs.rs` and `playback.rs` share one datatype. The files come from different revisions (`SnapshotWriter.0` in the systems, named fields in `lib.rs`); each file's logic is modelled as written.
- `Inputs.World` and `Screenshots.NextTestState` are test scaffolding standing in for Bevy's app state (the events sent, the window entities, the queued `NextState<TestState>`); their constructors only start them empty and have no row.
- `TestState` transitions other than `encode_gif`'s move to `Shutdown`, because their code is not part of this model.
