/** `lib.rs`: the snapshot path of a label, the `SnapshotEvent`s that start and
    stop sessions, the `handle_events` system that swaps the writer and reader
    resources, and the schedule that runs capture and replay only while their
    resource exists. */
module Lib {
  import opened Wrappers
  import opened Labels
  import opened FileSystem
  import opened Records
  import opened Streams
  import Inputs

  /** `GeppettoConfig { snapshots_dir }`. */
  datatype GeppettoConfig = GeppettoConfig(snapshotsDir: string)

  /** Sanitisation neither creates nor removes a dot, nor moves one: the
      sanitised label has its last dot where the label has it. */
  lemma SanitizeKeepsDots(name: string)
    ensures '.' in SanitizeLabel(name) <==> '.' in name
    ensures LastDot(SanitizeLabel(name)) == LastDot(name)
  {
    var sanitized := SanitizeLabel(name);
    assert forall i :: 0 <= i < |name| ==> (sanitized[i] == '.' <==> name[i] == '.');
    LastDotOfSameDots(sanitized, name);
  }

  /** `GeppettoConfig::make_path`: the snapshots directory joined with the
      sanitised label, with extension `snapshot`. `with_extension` cuts the
      label at its last dot unless that dot comes first, so labels that differ
      only after their last dot share one snapshot (`DottedLabelsCollide`). */
  function MakePath(config: GeppettoConfig, name: string): (p: Path)
    requires IsPlainComponent(SanitizeLabel(name))
    ensures p.dir == config.snapshotsDir
    ensures LastDot(name).Some? && LastDot(name).value > 0 ==>
      p.name == SanitizeLabel(name)[..LastDot(name).value] + ".snapshot"
    ensures LastDot(name).None? || LastDot(name).value == 0 ==>
      p.name == SanitizeLabel(name) + ".snapshot"
  {
    SnapshotName(name);
    Path(config.snapshotsDir, WithExtension(SanitizeLabel(name), "snapshot"))
  }

  /** The file name `make_path` gives a label: the sanitised label up to its
      last non-leading dot, then `.snapshot`. */
  lemma SnapshotName(name: string)
    requires IsPlainComponent(SanitizeLabel(name))
    ensures LastDot(name).Some? && LastDot(name).value > 0 ==>
      WithExtension(SanitizeLabel(name), "snapshot") == SanitizeLabel(name)[..LastDot(name).value] + ".snapshot"
    ensures LastDot(name).None? || LastDot(name).value == 0 ==>
      WithExtension(SanitizeLabel(name), "snapshot") == SanitizeLabel(name) + ".snapshot"
  {
    var sanitized := SanitizeLabel(name);
    var dot := LastDot(name);
    SanitizeKeepsDots(name);
    assert LastDot(sanitized) == dot;
    WithExtensionShape(sanitized, "snapshot");
    if dot.Some? && dot.value > 0 {
      SnapshotSuffix(sanitized[..dot.value]);
    } else {
      SnapshotSuffix(sanitized);
    }
  }

  /** Literal-suffix step kept out of `SnapshotName`'s context, where the
      solver cannot afford it. */
  lemma SnapshotSuffix(stem: string)
    ensures stem + "." + "snapshot" == stem + ".snapshot"
  {
    assert "." + "snapshot" == ".snapshot";
  }

  /** A label made of a stem, a dot and a dotless suffix is saved under the
      sanitised stem: `v1.2` as `v1.snapshot`. */
  lemma DottedSnapshotName(config: GeppettoConfig, stem: string, suffix: string)
    requires stem != [] && '.' !in suffix
    requires IsPlainComponent(SanitizeLabel(stem + "." + suffix))
    ensures MakePath(config, stem + "." + suffix) == Path(config.snapshotsDir, SanitizeLabel(stem) + ".snapshot")
  {
    var name := stem + "." + suffix;
    LastDotAfter(stem, suffix);
    SanitizePrefix(stem, name);
  }

  /** Sanitising works character by character, so it commutes with taking a
      prefix. */
  lemma SanitizePrefix(stem: string, name: string)
    requires |stem| <= |name| && name[..|stem|] == stem
    ensures SanitizeLabel(name)[..|stem|] == SanitizeLabel(stem)
  {
    assert forall i :: 0 <= i < |stem| ==> name[i] == stem[i];
  }

  /** Two labels that differ only after their last dot share one snapshot
      file: `v1.2` and `v1.3` are both saved as `v1.snapshot`. */
  lemma DottedLabelsCollide(config: GeppettoConfig, stem: string, x: string, y: string)
    requires stem != [] && '.' !in x && '.' !in y
    requires IsPlainComponent(SanitizeLabel(stem + "." + x)) && IsPlainComponent(SanitizeLabel(stem + "." + y))
    ensures MakePath(config, stem + "." + x) == MakePath(config, stem + "." + y)
  {
    DottedSnapshotName(config, stem, x);
    DottedSnapshotName(config, stem, y);
  }

  /** A label and its sanitised form name the same snapshot. */
  lemma MakePathOfSanitized(config: GeppettoConfig, name: string)
    requires IsPlainComponent(SanitizeLabel(name))
    ensures IsPlainComponent(SanitizeLabel(SanitizeLabel(name)))
    ensures MakePath(config, SanitizeLabel(name)) == MakePath(config, name)
  {
    SanitizeLabelIdempotent(name);
  }

  /** `SnapshotEvent`; `name` is the event's `label`. */
  datatype SnapshotEvent = Record(name: string) | Playback(name: string) | Stop

  /** `SnapshotEvent::record`. */
  function RecordEvent(name: string): (e: SnapshotEvent)
    ensures e.Record? && e.name == name
  {
    Record(name)
  }

  /** `SnapshotEvent::playback`. */
  function PlaybackEvent(name: string): (e: SnapshotEvent)
    ensures e.Playback? && e.name == name
  {
    Playback(name)
  }

  /** `SnapshotEvent::stop`. */
  function StopEvent(): (e: SnapshotEvent)
    ensures e.Stop?
  {
    Stop
  }

  /** An event `handle_events` can resolve to a path. */
  predicate Handleable(event: SnapshotEvent) {
    event.Stop? || IsPlainComponent(SanitizeLabel(event.name))
  }

  /** The file system once `text` is what the file at `path` holds. */
  function FlushedTo(fs: Fs, path: Path, text: string): Fs {
    fs.(files := fs.files[path := text])
  }

  const WRITER_EXPECT: string := "writer to be a valid file path"
  const READER_EXPECT: string := "reader to be a valid file path"

  /** The resources of the app that the harness owns: the configuration, the
      file system, and the writer or the reader of the session in progress. */
  class Session {
    const config: GeppettoConfig
    var fs: Fs
    var writer: SnapshotWriter?
    var reader: SnapshotReader?

    /** Never recording and replaying at once; the writer's file holds what
        the writer has flushed; a reader is well formed. */
    ghost predicate Valid()
      reads this, writer, reader
    {
      && (writer == null || reader == null)
      && (writer != null ==> writer.path in fs.files && fs.files[writer.path] == writer.flushed)
      && (reader != null ==> reader.Valid())
    }

    constructor (config: GeppettoConfig, fs: Fs)
      ensures Valid() && this.config == config && this.fs == fs
      ensures writer == null && reader == null
    {
      this.config := config;
      this.fs := fs;
      writer, reader := null, null;
    }

    /** `handle_events` reading exactly one event: the reader is dropped; the
        writer is flushed into its file and dropped; then `Record` creates
        (truncates) the file at `make_path(label)` and installs a writer on it,
        `Playback` opens that file and installs a reader over its lines, and
        `Stop` installs nothing. A file that cannot be created or opened
        panics. */
    method HandleEvent(event: SnapshotEvent) returns (outcome: Outcome)
      requires Valid() && Handleable(event)
      modifies this, writer
      ensures Valid()
      ensures old(writer) != null ==>
        old(writer).buffered == [] && old(writer).flushed == old(writer.Contents())
      ensures event.Stop? ==>
        (outcome.Pass? && writer == null && reader == null
         && fs == (if old(writer) == null then old(fs) else FlushedTo(old(fs), old(writer).path, old(writer.Contents()))))
      ensures event.Record? ==>
        var before := if old(writer) == null then old(fs)
                      else FlushedTo(old(fs), old(writer).path, old(writer.Contents()));
        var path := MakePath(config, event.name);
        && reader == null
        && (outcome.Pass? <==> path.dir in before.dirs)
        && (outcome.Pass? ==>
              && writer != null && fresh(writer)
              && writer.path == path && writer.name == event.name
              && writer.flushed == [] && writer.buffered == []
              && fs == before.(files := before.files[path := ""]))
        && (outcome.Fail? ==> outcome.message == WRITER_EXPECT && writer == null && fs == before)
      ensures event.Playback? ==>
        var before := if old(writer) == null then old(fs)
                      else FlushedTo(old(fs), old(writer).path, old(writer.Contents()));
        var path := MakePath(config, event.name);
        && writer == null && fs == before
        && (outcome.Pass? <==> path in before.files)
        && (outcome.Pass? ==>
              && reader != null && fresh(reader)
              && reader.name == event.name
              && reader.items == LinesRead(before.files[path]) && reader.cursor == 0)
        && (outcome.Fail? ==> outcome.message == READER_EXPECT && reader == null)
    {
      if reader != null {
        reader := null;
      }
      if writer != null {
        writer.Flush();
        fs := FlushedTo(fs, writer.path, writer.flushed);
        writer := null;
      }
      match event {
        case Record(name) =>
          var path := MakePath(config, name);
          var created := Create(fs, path);
          if created.None? {
            return Fail(WRITER_EXPECT);
          }
          fs := created.value;
          writer := new SnapshotWriter(path, name);
        case Playback(name) =>
          var path := MakePath(config, name);
          var content := Open(fs, path);
          if content.None? {
            return Fail(READER_EXPECT);
          }
          reader := new SnapshotReader(name, LinesRead(content.value));
        case Stop =>
      }
      outcome := Pass;
    }

    /** One frame of the schedule `GeppettoPlugin::build` sets up: replay in
        `PreUpdate` only while a reader exists, capture in `PostUpdate` only
        while a writer exists (`handle_events` runs in `Last`). */
    method Update<E>(
      capture: Inputs.InputHistoryCapture<E>, world: Inputs.World<E>,
      incoming: Batches<E>, codec: Codec<InputEventsRecord<E>>)
      returns (replayed: Option<Inputs.ReplayStep<E>>, captured: Option<Outcome>)
      requires Valid()
      modifies capture, world, writer, reader
      ensures Valid()
      ensures replayed.Some? <==> reader != null
      ensures captured.Some? <==> writer != null
      ensures reader == null ==> world.sent == old(world.sent) && world.windows == old(world.windows)
      ensures reader != null && old(reader.cursor) == |reader.items| ==>
        && replayed == Some(Inputs.EndOfStream) && reader.cursor == old(reader.cursor)
        && world.sent == old(world.sent) && world.windows == {}
      ensures reader != null && old(reader.cursor) < |reader.items| ==>
        && reader.cursor == old(reader.cursor) + 1 && world.windows == old(world.windows)
        && match Inputs.ReplayItem(codec, reader.items[old(reader.cursor)])
           case Ok(b) => replayed == Some(Inputs.Replayed(b)) && world.sent == old(world.sent) + Emissions(b)
           case Err(m) => replayed == Some(Inputs.Fatal(m)) && world.sent == old(world.sent)
      ensures writer == null ==> capture.tickCount == old(capture.tickCount)
      ensures writer != null ==>
        && (captured.value.Pass? <==> old(capture.tickCount) as int < U16_MAX)
        && (captured.value.Pass? ==>
              && capture.tickCount as int == old(capture.tickCount) as int + 1
              && writer.Contents() == old(writer.Contents())
                   + WrittenLine(codec, InputEventsRecord(old(capture.tickCount), incoming)))
        && (captured.value.Fail? ==>
              capture.tickCount == old(capture.tickCount) && writer.Contents() == old(writer.Contents()))
    {
      replayed, captured := None, None;
      if reader != null {
        var step := Inputs.ReplayInputHistorySnapshot(reader, world, codec);
        replayed := Some(step);
      }
      if writer != null {
        var outcome := capture.CaptureInputHistorySnapshot(writer, incoming, codec);
        captured := Some(outcome);
      }
    }
  }

  /** `capture_input_history_snapshot` running for each of `ins` while a
      writer exists. */
  method CaptureAll<E>(
    session: Session, capture: Inputs.InputHistoryCapture<E>, world: Inputs.World<E>,
    ins: seq<Batches<E>>, codec: Codec<InputEventsRecord<E>>)
    requires session.Valid() && session.writer != null && session.reader == null
    requires session.writer.Contents() == [] && capture.tickCount == 0
    requires |ins| <= U16_MAX
    modifies session.writer, capture, world
    ensures session.Valid() && session.writer.Contents() == Inputs.CaptureText(codec, 0, ins)
    ensures world.sent == old(world.sent) && world.windows == old(world.windows)
  {
    var i := 0;
    while i < |ins|
      invariant 0 <= i <= |ins|
      invariant session.Valid()
      invariant capture.tickCount as int == i
      invariant session.writer.Contents() == Inputs.CaptureText(codec, 0, ins[..i])
      invariant world.sent == old(world.sent) && world.windows == old(world.windows)
    {
      var replayed, captured := session.Update(capture, world, ins[i], codec);
      Inputs.CaptureTextAppend(codec, 0, ins[..i], ins[i]);
      assert ins[..i + 1] == ins[..i] + [ins[i]];
      i := i + 1;
    }
    assert ins[..|ins|] == ins;
  }

  /** `replay_input_history_snapshot` running once per line while a reader
      exists. */
  method ReplayAll<E>(
    session: Session, capture: Inputs.InputHistoryCapture<E>, world: Inputs.World<E>,
    ins: seq<Batches<E>>, codec: Codec<InputEventsRecord<E>>, idle: Batches<E>)
    requires session.Valid() && session.reader != null && session.writer == null
    requires session.reader.cursor == 0 && |session.reader.items| == |ins|
    requires forall i :: 0 <= i < |ins| ==> Inputs.ReplayItem(codec, session.reader.items[i]) == Ok(ins[i])
    modifies session.reader, capture, world
    ensures session.Valid() && session.reader.cursor == |ins|
    ensures world.sent == old(world.sent) + EmissionsOf(ins)
  {
    var i := 0;
    while i < |ins|
      invariant 0 <= i <= |ins|
      invariant session.Valid() && session.reader.cursor == i
      invariant world.sent == old(world.sent) + EmissionsOf(ins[..i])
    {
      var replayed, captured := session.Update(capture, world, idle, codec);
      EmissionsOfAppend(ins[..i], ins[i]);
      assert ins[..i + 1] == ins[..i] + [ins[i]];
      i := i + 1;
    }
    assert ins[..|ins|] == ins;
  }

  /** Recording under a label, then playing it back: every tick's events are
      captured as one line of the snapshot, and replaying the snapshot sends
      exactly those events, category by category and tick after tick; one
      frame after the last line, every window is gone. */
  method RecordThenPlayback<E(!new)>(
    config: GeppettoConfig, fs: Fs, name: string, ins: seq<Batches<E>>,
    codec: Codec<InputEventsRecord<E>>, windows: set<nat>, idle: Batches<E>)
    returns (sent: seq<Emission<E>>, windowsLeft: set<nat>)
    requires Handleable(Record(name)) && config.snapshotsDir in fs.dirs
    requires RoundTrips(codec) && EncodesOneLine(codec)
    requires |ins| <= U16_MAX
    ensures sent == EmissionsOf(ins)
    ensures windowsLeft == {}
  {
    var session := new Session(config, fs);
    var outcome := session.HandleEvent(Record(name));
    var capture := new Inputs.InputHistoryCapture<E>();
    var world := new Inputs.World<E>(windows);
    CaptureAll(session, capture, world, ins, codec);
    var text := session.writer.Contents();
    outcome := session.HandleEvent(Playback(name));
    Inputs.ReplayReproducesCapture(codec, 0, ins);
    assert session.reader.items == LinesRead(text);
    ReplayAll(session, capture, world, ins, codec, idle);
    var replayed, captured := session.Update(capture, world, idle, codec);
    sent, windowsLeft := world.sent, world.windows;
  }
}
