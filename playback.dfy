/** `playback.rs`: the older capture and replay systems, and the flush of the
    snapshot on Escape. Replay here does nothing at the end of the file. */
module Playback {
  import opened Wrappers
  import opened Records
  import opened Streams
  import Inputs

  /** The older capture system with its own `Local<u16>` tick counter. */
  class InputHistoryCapture<E> {
    var tickCount: u16

    constructor ()
      ensures tickCount == 0
    {
      tickCount := 0;
    }

    /** `capture_input_history_snapshot` (older): the same record, stamped with
        the counter before the increment, written with `write` rather than
        `write_all`; the byte count `write` returns is ignored, and every write
        is taken to be whole. */
    method CaptureInputHistorySnapshot(
      writer: SnapshotWriter, incoming: Batches<E>, codec: Codec<InputEventsRecord<E>>)
      returns (outcome: Outcome)
      modifies this, writer
      ensures outcome.Pass? <==> old(tickCount) as int < U16_MAX
      ensures outcome.Pass? ==> tickCount as int == old(tickCount) as int + 1
      ensures outcome.Pass? ==>
        writer.Contents() == old(writer.Contents()) + WrittenLine(codec, InputEventsRecord(old(tickCount), incoming))
      ensures outcome.Fail? ==> tickCount == old(tickCount) && writer.Contents() == old(writer.Contents())
      ensures writer.flushed == old(writer.flushed)
    {
      var record := InputEventsRecord(tickCount, incoming);
      var next := IncrementU16(tickCount);
      if next.Err? {
        return Fail(next.message);
      }
      tickCount := next.value;
      var text := codec.encode(record);
      writer.WriteAll(text);
      writer.WriteAll("\n");
      outcome := Pass;
    }
  }

  /** A window entity as `flush_file_writer` sees it. */
  datatype Window = Window(focused: bool)

  function CountFocused(windows: seq<Window>): (n: nat)
    ensures n <= |windows|
  {
    if windows == [] then 0
    else (if windows[0].focused then 1 else 0) + CountFocused(windows[1..])
  }

  /** Some window is focused exactly when the count of focused windows is not zero. */
  lemma {:induction false} CountFocusedPositive(windows: seq<Window>)
    ensures CountFocused(windows) > 0 <==> exists i :: 0 <= i < |windows| && windows[i].focused
  {
    if windows != [] {
      CountFocusedPositive(windows[1..]);
      if exists i :: 0 <= i < |windows[1..]| && windows[1..][i].focused {
        var i :| 0 <= i < |windows[1..]| && windows[1..][i].focused;
        assert windows[i + 1].focused;
      }
      if exists i :: 0 <= i < |windows| && windows[i].focused {
        var i :| 0 <= i < |windows| && windows[i].focused;
        if i > 0 {
          assert windows[1..][i - 1].focused;
        }
      }
    }
  }

  /** `flush_file_writer`: for every focused window, flushes the writer when
      Escape was just pressed; unfocused windows are skipped. Returns how many
      flushes were made. */
  method FlushFileWriter(writer: SnapshotWriter, windows: seq<Window>, escapeJustPressed: bool)
    returns (flushes: nat)
    modifies writer
    ensures flushes == if escapeJustPressed then CountFocused(windows) else 0
    ensures writer.Contents() == old(writer.Contents())
    ensures flushes > 0 ==> writer.flushed == old(writer.Contents()) && writer.buffered == []
    ensures flushes == 0 ==> writer.flushed == old(writer.flushed) && writer.buffered == old(writer.buffered)
  {
    flushes := 0;
    var i := 0;
    while i < |windows|
      invariant 0 <= i <= |windows|
      invariant flushes + (if escapeJustPressed then CountFocused(windows[i..]) else 0) ==
        (if escapeJustPressed then CountFocused(windows) else 0)
      invariant writer.Contents() == old(writer.Contents())
      invariant flushes > 0 ==> writer.flushed == old(writer.Contents()) && writer.buffered == []
      invariant flushes == 0 ==> writer.flushed == old(writer.flushed) && writer.buffered == old(writer.buffered)
    {
      assert windows[i..][1..] == windows[i + 1..];
      if windows[i].focused && escapeJustPressed {
        writer.Flush();
        flushes := flushes + 1;
      }
      i := i + 1;
    }
  }

  /** `replay_input_history_snapshot` (older): reads one line, decodes it and
      sends its ten batches in field order; at the end of the file it sends
      nothing and changes nothing else — the windows stay. */
  method ReplayInputHistorySnapshot<E>(
    reader: SnapshotReader, world: Inputs.World<E>, codec: Codec<InputEventsRecord<E>>)
    returns (step: Inputs.ReplayStep<E>)
    requires reader.Valid()
    modifies reader, world
    ensures reader.Valid()
    ensures world.windows == old(world.windows)
    ensures old(reader.cursor) == |reader.items| ==>
      step == Inputs.EndOfStream && reader.cursor == old(reader.cursor) && world.sent == old(world.sent)
    ensures old(reader.cursor) < |reader.items| ==>
      reader.cursor == old(reader.cursor) + 1
      && match Inputs.ReplayItem(codec, reader.items[old(reader.cursor)])
         case Ok(b) => step == Inputs.Replayed(b) && world.sent == old(world.sent) + Emissions(b)
         case Err(m) => step == Inputs.Fatal(m) && world.sent == old(world.sent)
  {
    var history := reader.Next();
    step := Inputs.EndOfStream;
    if history.Some? {
      var replayed := Inputs.ReplayItem(codec, history.value);
      if replayed.Err? {
        return Inputs.Fatal(replayed.message);
      }
      var b := replayed.value;
      world.sent := world.sent + [Emission(Characters, b.characters)];
      world.sent := world.sent + [Emission(Keys, b.keys)];
      world.sent := world.sent + [Emission(MouseButtons, b.mouseButtons)];
      world.sent := world.sent + [Emission(MouseWheel, b.mouseWheel)];
      world.sent := world.sent + [Emission(MouseMotion, b.mouseMotion)];
      world.sent := world.sent + [Emission(CursorMotion, b.cursorMotion)];
      world.sent := world.sent + [Emission(GamepadConnection, b.gamepadConnection)];
      world.sent := world.sent + [Emission(GamepadAxis, b.gamepadAxis)];
      world.sent := world.sent + [Emission(GamepadButton, b.gamepadButton)];
      world.sent := world.sent + [Emission(Touch, b.touch)];
      step := Inputs.Replayed(b);
    }
  }
}
