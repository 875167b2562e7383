/** `systems/inputs.rs`: capturing every tick's input events as one line of the
    snapshot, and replaying a snapshot line by line. */
module Inputs {
  import opened Wrappers
  import opened LineIo
  import opened Records
  import opened Streams

  const DECODE_FAILED: string := "called `Result::unwrap()` on an `Err` value: SpannedError"

  /** The records `n` successful capture calls make, the first one with the
      counter at `start`. */
  function TickRecords<E>(start: u16, ins: seq<Batches<E>>): (rs: seq<InputEventsRecord<E>>)
    requires start as int + |ins| <= U16_MAX
    ensures |rs| == |ins|
    ensures forall i :: 0 <= i < |ins| ==>
      rs[i].tick as int == start as int + i && rs[i].events == ins[i]
  {
    seq(|ins|, i requires 0 <= i < |ins| => InputEventsRecord((start as int + i) as u16, ins[i]))
  }

  /** The encoded lines of those records. */
  function EncodedLines<E>(codec: Codec<InputEventsRecord<E>>, rs: seq<InputEventsRecord<E>>)
    : (ls: seq<string>)
    ensures |ls| == |rs|
    ensures forall i :: 0 <= i < |rs| ==> ls[i] == codec.encode(rs[i])
  {
    seq(|rs|, i requires 0 <= i < |rs| => codec.encode(rs[i]))
  }

  /** The text `n` successful capture calls append to the writer: each
      record's encoding followed by `"\n"`. When no encoding holds a line
      break or ends in `'\r'`, `lines()` splits it back into exactly those
      encodings, one per tick, in tick order. */
  ghost function CaptureText<E>(codec: Codec<InputEventsRecord<E>>, start: u16, ins: seq<Batches<E>>)
    : (text: string)
    requires start as int + |ins| <= U16_MAX
    ensures AllLines(EncodedLines(codec, TickRecords(start, ins))) ==>
      Lines(text) == EncodedLines(codec, TickRecords(start, ins))
  {
    var ls := EncodedLines(codec, TickRecords(start, ins));
    if AllLines(ls) then
      LinesOfTerminated(ls);
      Terminated(ls)
    else
      Terminated(ls)
  }

  /** One more capture call appends one more line: the record of the new tick,
      stamped with the counter value after the earlier calls. */
  lemma CaptureTextAppend<E>(codec: Codec<InputEventsRecord<E>>, start: u16, ins: seq<Batches<E>>, b: Batches<E>)
    requires start as int + |ins| + 1 <= U16_MAX
    ensures CaptureText(codec, start, ins + [b]) ==
      CaptureText(codec, start, ins) +
      WrittenLine(codec, InputEventsRecord((start as int + |ins|) as u16, b))
  {
    var ls := EncodedLines(codec, TickRecords(start, ins));
    var ls' := EncodedLines(codec, TickRecords(start, ins + [b]));
    assert ls' == ls + [codec.encode(InputEventsRecord((start as int + |ins|) as u16, b))];
    TerminatedAppend(ls, codec.encode(InputEventsRecord((start as int + |ins|) as u16, b)));
  }

  /** What replay makes of one item of the reader: the record's ten batches
      (its `tick` is not looked at), or a panic when the read failed or the
      line does not decode. */
  function ReplayItem<E>(codec: Codec<InputEventsRecord<E>>, item: Result<string>): (r: Result<Batches<E>>)
  {
    match item
    case Err(message) => Err(message)
    case Ok(line) =>
      match codec.decode(line)
      case Some(record) => Ok(record.events)
      case None => Err(DECODE_FAILED)
  }

  /** A line that decodes replays as its record's events whatever its tick; a
      line that does not decode, or a failed read, panics. */
  lemma ReplayItemCases<E>(codec: Codec<InputEventsRecord<E>>, record: InputEventsRecord<E>, line: string, message: string)
    ensures codec.decode(codec.encode(record)) == Some(record) ==>
      ReplayItem(codec, Ok(codec.encode(record))) == Ok(record.events)
    ensures codec.decode(line).None? ==> ReplayItem(codec, Ok(line)) == Err(DECODE_FAILED)
    ensures ReplayItem(codec, Err(message)) == Err(message)
  {
  }

  /** The `send_batch` calls of replaying `items` one per tick, up to the
      first item that panics. */
  function ReplayLog<E>(codec: Codec<InputEventsRecord<E>>, items: seq<Result<string>>): seq<Emission<E>>
  {
    if items == [] then []
    else
      match ReplayItem(codec, items[0])
      case Ok(b) => Emissions(b) + ReplayLog(codec, items[1..])
      case Err(_) => []
  }

  /** Replay reproduces capture: with a codec that decodes what it encodes into
      one line, the snapshot text of `n` capture calls holds exactly `n` lines,
      the i-th replays as the i-th tick's batches, and the whole replay sends
      the captured events category by category, tick after tick. */
  lemma ReplayReproducesCapture<E(!new)>(codec: Codec<InputEventsRecord<E>>, start: u16, ins: seq<Batches<E>>)
    requires RoundTrips(codec) && EncodesOneLine(codec)
    requires start as int + |ins| <= U16_MAX
    ensures |LinesRead(CaptureText(codec, start, ins))| == |ins|
    ensures forall i :: 0 <= i < |ins| ==>
      ReplayItem(codec, LinesRead(CaptureText(codec, start, ins))[i]) == Ok(ins[i])
    ensures ReplayLog(codec, LinesRead(CaptureText(codec, start, ins))) == EmissionsOf(ins)
  {
    var rs := TickRecords(start, ins);
    var ls := EncodedLines(codec, rs);
    LinesOfTerminated(ls);
    var items := LinesRead(CaptureText(codec, start, ins));
    forall i | 0 <= i < |ins| ensures ReplayItem(codec, items[i]) == Ok(ins[i]) {
      assert items[i] == Ok(codec.encode(rs[i]));
    }
    ReplayLogOfReplayable(codec, items, ins);
  }

  lemma {:induction false} ReplayLogOfReplayable<E>(
    codec: Codec<InputEventsRecord<E>>, items: seq<Result<string>>, ins: seq<Batches<E>>)
    requires |items| == |ins|
    requires forall i :: 0 <= i < |ins| ==> ReplayItem(codec, items[i]) == Ok(ins[i])
    ensures ReplayLog(codec, items) == EmissionsOf(ins)
  {
    if items != [] {
      ReplayLogOfReplayable(codec, items[1..], ins[1..]);
    }
  }

  /** The capture system together with its `Local<u16>` tick counter, which
      belongs to the system and is never reset. */
  class InputHistoryCapture<E> {
    var tickCount: u16

    constructor ()
      ensures tickCount == 0
    {
      tickCount := 0;
    }

    /** `capture_input_history_snapshot`: stamps the tick's events with the
        counter, increments it, and appends the encoded record and `"\n"` to
        the writer. `incoming` is what each category's `EventReader` yields this
        tick, in order; an empty category is an empty list. Incrementing past
        65535 panics before anything is written. */
    method CaptureInputHistorySnapshot(
      writer: SnapshotWriter, incoming: Batches<E>, codec: Codec<InputEventsRecord<E>>)
      returns (outcome: Outcome)
      modifies this, writer
      ensures outcome.Pass? <==> old(tickCount) as int < U16_MAX
      ensures outcome.Pass? ==> tickCount as int == old(tickCount) as int + 1
      ensures outcome.Pass? ==>
        writer.Contents() == old(writer.Contents()) + WrittenLine(codec, InputEventsRecord(old(tickCount), incoming))
      ensures outcome.Fail? ==> tickCount == old(tickCount) && writer.Contents() == old(writer.Contents())
      ensures writer.flushed == old(writer.flushed)
    {
      var record := InputEventsRecord(tickCount, incoming);
      var next := IncrementU16(tickCount);
      if next.Err? {
        return Fail(next.message);
      }
      tickCount := next.value;
      var text := codec.encode(record);
      writer.WriteAll(text);
      writer.WriteAll("\n");
      outcome := Pass;
    }
  }

  /** The part of the app that replay writes to: every `send_batch` call in
      order, and the window entities. */
  class World<E> {
    var sent: seq<Emission<E>>
    var windows: set<nat>

    constructor (windows: set<nat>)
      ensures sent == [] && this.windows == windows
    {
      sent := [];
      this.windows := windows;
    }
  }

  datatype ReplayStep<E> = Replayed(events: Batches<E>) | EndOfStream | Fatal(message: string)

  /** `replay_input_history_snapshot`: reads one line, decodes it and sends its
      ten batches in field order; at the end of the file it despawns every
      window instead, on this and every later call. */
  method ReplayInputHistorySnapshot<E>(
    reader: SnapshotReader, world: World<E>, codec: Codec<InputEventsRecord<E>>)
    returns (step: ReplayStep<E>)
    requires reader.Valid()
    modifies reader, world
    ensures reader.Valid()
    ensures old(reader.cursor) == |reader.items| ==>
      step == EndOfStream && reader.cursor == old(reader.cursor)
      && world.sent == old(world.sent) && world.windows == {}
    ensures old(reader.cursor) < |reader.items| ==>
      reader.cursor == old(reader.cursor) + 1 && world.windows == old(world.windows)
      && match ReplayItem(codec, reader.items[old(reader.cursor)])
         case Ok(b) => step == Replayed(b) && world.sent == old(world.sent) + Emissions(b)
         case Err(m) => step == Fatal(m) && world.sent == old(world.sent)
  {
    var history := reader.Next();
    if history.Some? {
      var replayed := ReplayItem(codec, history.value);
      if replayed.Err? {
        return Fatal(replayed.message);
      }
      var b := replayed.value;
      world.sent := world.sent + [Emission(Characters, b.characters)];
      world.sent := world.sent + [Emission(Keys, b.keys)];
      world.sent := world.sent + [Emission(MouseButtons, b.mouseButtons)];
      world.sent := world.sent + [Emission(MouseWheel, b.mouseWheel)];
      world.sent := world.sent + [Emission(MouseMotion, b.mouseMotion)];
      world.sent := world.sent + [Emission(CursorMotion, b.cursorMotion)];
      world.sent := world.sent + [Emission(GamepadConnection, b.gamepadConnection)];
      world.sent := world.sent + [Emission(GamepadAxis, b.gamepadAxis)];
      world.sent := world.sent + [Emission(GamepadButton, b.gamepadButton)];
      world.sent := world.sent + [Emission(Touch, b.touch)];
      step := Replayed(b);
    } else {
      while world.windows != {}
        invariant world.sent == old(world.sent)
        invariant reader.cursor == old(reader.cursor)
        decreases world.windows
      {
        var window :| window in world.windows;
        world.windows := world.windows - {window};
      }
      step := EndOfStream;
    }
  }
}
