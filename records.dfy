/** `InputEventsRecord`: what one tick of input looks like in a snapshot, the
    order in which replay sends it back, and the codec (RON in the source)
    that turns a record into one line of text. */
module Records {
  import opened Wrappers
  import opened LineIo

  /** The ten event categories, in the field order of `InputEventsRecord`. */
  datatype Category =
    | Characters | Keys | MouseButtons | MouseWheel | MouseMotion
    | CursorMotion | GamepadConnection | GamepadAxis | GamepadButton | Touch

  const FIELD_ORDER: seq<Category> := [
    Characters, Keys, MouseButtons, MouseWheel, MouseMotion,
    CursorMotion, GamepadConnection, GamepadAxis, GamepadButton, Touch
  ]

  /** The ten category lists of one tick. The source has one event type per
      category; here every category carries payloads of one type `E`. */
  datatype Batches<E> = Batches(
    characters: seq<E>, keys: seq<E>, mouseButtons: seq<E>, mouseWheel: seq<E>,
    mouseMotion: seq<E>, cursorMotion: seq<E>, gamepadConnection: seq<E>,
    gamepadAxis: seq<E>, gamepadButton: seq<E>, touch: seq<E>)

  function Field<E>(b: Batches<E>, c: Category): seq<E> {
    match c
    case Characters => b.characters
    case Keys => b.keys
    case MouseButtons => b.mouseButtons
    case MouseWheel => b.mouseWheel
    case MouseMotion => b.mouseMotion
    case CursorMotion => b.cursorMotion
    case GamepadConnection => b.gamepadConnection
    case GamepadAxis => b.gamepadAxis
    case GamepadButton => b.gamepadButton
    case Touch => b.touch
  }

  /** `InputEventsRecord { tick, characters, .., touch }`. */
  datatype InputEventsRecord<E> = InputEventsRecord(tick: u16, events: Batches<E>)

  /** One `EventWriter::send_batch` call. */
  datatype Emission<E> = Emission(category: Category, events: seq<E>)

  /** The ten `send_batch` calls replay makes for one record, in field order. */
  function Emissions<E>(b: Batches<E>): (r: seq<Emission<E>>)
    ensures |r| == |FIELD_ORDER|
    ensures forall i :: 0 <= i < |r| ==> r[i] == Emission(FIELD_ORDER[i], Field(b, FIELD_ORDER[i]))
  {
    [ Emission(Characters, b.characters), Emission(Keys, b.keys),
      Emission(MouseButtons, b.mouseButtons), Emission(MouseWheel, b.mouseWheel),
      Emission(MouseMotion, b.mouseMotion), Emission(CursorMotion, b.cursorMotion),
      Emission(GamepadConnection, b.gamepadConnection), Emission(GamepadAxis, b.gamepadAxis),
      Emission(GamepadButton, b.gamepadButton), Emission(Touch, b.touch) ]
  }

  /** The emissions of one tick determine its batches: nothing is lost or
      merged between categories. */
  lemma EmissionsInjective<E>(a: Batches<E>, b: Batches<E>)
    requires Emissions(a) == Emissions(b)
    ensures a == b
  {
    assert Emissions(a)[0] == Emissions(b)[0];
  }

  /** The `send_batch` calls of several ticks, tick after tick. */
  function EmissionsOf<E>(ys: seq<Batches<E>>): (r: seq<Emission<E>>)
    ensures |r| == |FIELD_ORDER| * |ys|
  {
    if ys == [] then [] else Emissions(ys[0]) + EmissionsOf(ys[1..])
  }

  /** One more tick appends that tick's emissions after the earlier ones. */
  lemma {:induction false} EmissionsOfAppend<E>(ys: seq<Batches<E>>, y: Batches<E>)
    ensures EmissionsOf(ys + [y]) == EmissionsOf(ys) + Emissions(y)
  {
    if ys != [] {
      assert (ys + [y])[1..] == ys[1..] + [y];
      EmissionsOfAppend(ys[1..], y);
    }
  }

  /** The emissions of many ticks determine, tick by tick, their batches. */
  lemma {:induction false} EmissionsOfInjective<E>(xs: seq<Batches<E>>, ys: seq<Batches<E>>)
    requires EmissionsOf(xs) == EmissionsOf(ys)
    ensures xs == ys
  {
    if xs != [] {
      var n := |FIELD_ORDER|;
      assert EmissionsOf(xs)[..n] == Emissions(xs[0]) && EmissionsOf(ys)[..n] == Emissions(ys[0]);
      assert EmissionsOf(xs)[n..] == EmissionsOf(xs[1..]) && EmissionsOf(ys)[n..] == EmissionsOf(ys[1..]);
      EmissionsInjective(xs[0], ys[0]);
      EmissionsOfInjective(xs[1..], ys[1..]);
      assert xs == [xs[0]] + xs[1..] && ys == [ys[0]] + ys[1..];
    }
  }

  /** The text format of a value: `ron::ser::to_string` and `ron::de::from_str`. */
  datatype Codec<!T> = Codec(encode: T -> string, decode: string -> Option<T>)

  /** The codec decodes what it encodes. */
  ghost predicate RoundTrips<T(!new)>(c: Codec<T>) {
    forall x :: c.decode(c.encode(x)) == Some(x)
  }

  /** Every encoding is one line of text. */
  ghost predicate EncodesOneLine<T(!new)>(c: Codec<T>) {
    forall x :: IsLine(c.encode(x))
  }

  /** The bytes one write of a value puts into the snapshot: its encoding and a
      line terminator. */
  function WrittenLine<T>(c: Codec<T>, x: T): string {
    c.encode(x) + "\n"
  }
}
