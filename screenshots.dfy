/** `systems/screenshots.rs`: rate-limited screenshot requests, the list of
    pending and resolved frames, the canvas size, the GIF encoded once every
    frame has arrived, and the recording rate stored at the head of a snapshot. */
module Screenshots {
  import opened Wrappers
  import opened LineIo
  import opened Records
  import opened Streams

  /** A delivered `Image`: its `u32` width and height and its RGBA bytes. */
  datatype Image = Image(width: nat, height: nat, data: seq<bv8>)

  /** `PlaybackFrames::size`, a `(u16, u16)`. */
  datatype Size = Size(width: u16, height: u16)

  /** `PlaybackFrame`: waiting on the receiving end of a channel (named here by
      the number of the request that made it), or holding its image. */
  datatype PlaybackFrame = Pending(channel: nat) | Resolved(image: Image)

  /** `RecordingRate(Duration)`, in nanoseconds. */
  datatype RecordingRate = RecordingRate(nanos: nat)

  /** `RecordingRate::default()`: 500 milliseconds. */
  const DEFAULT_RECORDING_RATE: RecordingRate := RecordingRate(500_000_000)

  /** `PlaybackFrame::poll`. `delivery` is what `try_recv` on the frame's
      channel returns this tick; a resolved frame has no channel left and
      yields nothing. */
  function Poll(frame: PlaybackFrame, delivery: Option<Image>): (r: Option<Image>)
    ensures frame.Resolved? ==> r.None?
    ensures frame.Pending? ==> r == delivery
  {
    if frame.Pending? then delivery else None
  }

  /** `PlaybackFrame::get`. */
  function Get(frame: PlaybackFrame): (r: Option<Image>)
    ensures r.Some? <==> frame.Resolved?
    ensures r.Some? ==> r.value == frame.image
  {
    match frame
    case Resolved(image) => Some(image)
    case Pending(_) => None
  }

  // ---------------------------------------------------------------------------
  // The rate accumulator of `take_screenshots`

  /** One call of the accumulator: add `delta`; fire only when the sum is
      strictly greater than the rate, and then keep what exceeds one rate. */
  function RateStep(elapsed: nat, delta: nat, rate: nat): (r: (bool, nat))
    ensures r.0 <==> elapsed + delta > rate
    ensures (if r.0 then rate else 0) + r.1 == elapsed + delta
    ensures !r.0 ==> r.1 <= rate
  {
    if elapsed + delta > rate then (true, elapsed + delta - rate) else (false, elapsed + delta)
  }

  function Sum(deltas: seq<nat>): nat {
    if deltas == [] then 0 else deltas[0] + Sum(deltas[1..])
  }

  /** How many of a run of calls fire, and the carry left after them. */
  function RateRun(elapsed: nat, deltas: seq<nat>, rate: nat): (r: (nat, nat))
    decreases |deltas|
  {
    if deltas == [] then (0, elapsed)
    else
      var step := RateStep(elapsed, deltas[0], rate);
      var rest := RateRun(step.1, deltas[1..], rate);
      ((if step.0 then 1 else 0) + rest.0, rest.1)
  }

  /** No time is lost or invented: every fired request accounts for exactly
      one rate, the remainder is carried, and a call fires at most once however
      far the accumulated time runs ahead of the rate. */
  lemma {:induction false} RateRunConserves(elapsed: nat, deltas: seq<nat>, rate: nat)
    ensures RateRun(elapsed, deltas, rate).0 * rate + RateRun(elapsed, deltas, rate).1
      == elapsed + Sum(deltas)
    ensures RateRun(elapsed, deltas, rate).0 <= |deltas|
    decreases |deltas|
  {
    if deltas != [] {
      var step := RateStep(elapsed, deltas[0], rate);
      var rest := RateRun(step.1, deltas[1..], rate);
      RateRunConserves(step.1, deltas[1..], rate);
      assert rest.0 * rate + rest.1 == step.1 + Sum(deltas[1..]);
      if step.0 {
        assert (1 + rest.0) * rate == rate + rest.0 * rate;
        assert step.1 == elapsed + deltas[0] - rate;
      } else {
        assert step.1 == elapsed + deltas[0];
      }
    }
  }

  /** Ticks 600 ms and 500 ms apart at a 500 ms rate fire twice, not three
      times; a sum that only equals the rate does not fire. */
  lemma RateScenario()
    ensures RateRun(0, [0, 600_000_000, 500_000_000], DEFAULT_RECORDING_RATE.nanos) == (2, 100_000_000)
    ensures RateRun(0, [250_000_000, 250_000_000], DEFAULT_RECORDING_RATE.nanos) == (0, 500_000_000)
  {
  }

  // ---------------------------------------------------------------------------
  // Resolving frames and reconciling the canvas size in `receive_images`

  predicate Fits(image: Image) {
    image.width <= U16_MAX && image.height <= U16_MAX
  }

  /** Every image delivered in `polled` survives the `u16` conversion. */
  predicate AllFit(polled: seq<Option<Image>>) {
    forall i :: 0 <= i < |polled| && polled[i].Some? ==> Fits(polled[i].value)
  }

  function SizeOf(image: Image): Size
    requires Fits(image)
  {
    Size(image.width as u16, image.height as u16)
  }

  /** A frame replaces the canvas size only if it is larger than the size at
      the start of the call in both width and height. */
  predicate Beats(image: Image, start: Size) {
    image.width > start.width as int && image.height > start.height as int
  }

  /** What each frame's `poll` yields in one call. */
  function Polled(frames: seq<PlaybackFrame>, delivered: seq<Option<Image>>): (p: seq<Option<Image>>)
    requires |delivered| == |frames|
    ensures |p| == |frames|
  {
    seq(|frames|, i requires 0 <= i < |frames| => Poll(frames[i], delivered[i]))
  }

  /** The frame after one call: resolved if its poll yielded an image. */
  function Resolve(frame: PlaybackFrame, delivery: Option<Image>): PlaybackFrame {
    match Poll(frame, delivery)
    case Some(image) => Resolved(image)
    case None => frame
  }

  function ResolveFrames(frames: seq<PlaybackFrame>, delivered: seq<Option<Image>>)
    : (r: seq<PlaybackFrame>)
    requires |delivered| == |frames|
    ensures |r| == |frames|
  {
    seq(|frames|, i requires 0 <= i < |frames| => Resolve(frames[i], delivered[i]))
  }

  /** `receive_images` keeps the list's length and order; exactly the pending
      frames whose channel delivered become resolved, with the delivered image;
      a resolved frame stays as it is and never becomes pending again. */
  lemma ResolveFramesSpec(frames: seq<PlaybackFrame>, delivered: seq<Option<Image>>)
    requires |delivered| == |frames|
    ensures |ResolveFrames(frames, delivered)| == |frames|
    ensures forall i :: 0 <= i < |frames| ==>
      (ResolveFrames(frames, delivered)[i].Resolved? <==> frames[i].Resolved? || delivered[i].Some?)
    ensures forall i :: 0 <= i < |frames| && frames[i].Resolved? ==>
      ResolveFrames(frames, delivered)[i] == frames[i]
    ensures forall i :: 0 <= i < |frames| && frames[i].Pending? && delivered[i].Some? ==>
      ResolveFrames(frames, delivered)[i] == Resolved(delivered[i].value)
    ensures forall i :: 0 <= i < |frames| && frames[i].Pending? && delivered[i].None? ==>
      ResolveFrames(frames, delivered)[i] == frames[i]
  {
  }

  /** `updated_size` after the loop has seen `polled`: the size of the last
      frame that beats `start`, if any (`x.zip(y).or(updated_size)`). */
  function UpdatedSize(start: Size, polled: seq<Option<Image>>): (r: Option<Size>)
    requires AllFit(polled)
  {
    if polled == [] then None
    else
      var last := polled[|polled| - 1];
      if last.Some? && Beats(last.value, start) then Some(SizeOf(last.value))
      else UpdatedSize(start, polled[..|polled| - 1])
  }

  /** The canvas size after the call. */
  function NewSize(start: Size, polled: seq<Option<Image>>): (r: Size)
    requires AllFit(polled)
  {
    match UpdatedSize(start, polled)
    case Some(s) => s
    case None => start
  }

  /** The size changes only to the size of a frame delivered in this call that
      beats the start size in both dimensions, and it is the last such frame;
      when no frame beats the start size, the size stays. Neither dimension
      ever shrinks. */
  lemma NewSizeRule(start: Size, polled: seq<Option<Image>>)
    requires AllFit(polled)
    ensures NewSize(start, polled) == start
      || (NewSize(start, polled).width > start.width && NewSize(start, polled).height > start.height)
    ensures (forall i :: 0 <= i < |polled| && polled[i].Some? ==> !Beats(polled[i].value, start))
      ==> NewSize(start, polled) == start
    ensures forall i ::
      (0 <= i < |polled| && polled[i].Some? && Beats(polled[i].value, start)
       && (forall j :: i < j < |polled| && polled[j].Some? ==> !Beats(polled[j].value, start)))
      ==> NewSize(start, polled) == SizeOf(polled[i].value)
  {
    UpdatedSizeGrows(start, polled);
    if forall i :: 0 <= i < |polled| && polled[i].Some? ==> !Beats(polled[i].value, start) {
      NoBeaterKeepsSize(start, polled);
    }
    forall i | 0 <= i < |polled| && polled[i].Some? && Beats(polled[i].value, start)
      && (forall j :: i < j < |polled| && polled[j].Some? ==> !Beats(polled[j].value, start))
      ensures NewSize(start, polled) == SizeOf(polled[i].value)
    {
      LastBeaterWins(start, polled, i);
    }
  }

  /** `updated_size` only ever holds a size larger than the start size in
      both dimensions. */
  lemma {:induction false} UpdatedSizeGrows(start: Size, polled: seq<Option<Image>>)
    requires AllFit(polled)
    ensures UpdatedSize(start, polled).Some? ==>
      UpdatedSize(start, polled).value.width > start.width
      && UpdatedSize(start, polled).value.height > start.height
  {
    if polled != [] {
      UpdatedSizeGrows(start, polled[..|polled| - 1]);
    }
  }

  /** With no frame beating the start size, `updated_size` stays `None`. */
  lemma {:induction false} NoBeaterKeepsSize(start: Size, polled: seq<Option<Image>>)
    requires AllFit(polled)
    requires forall i :: 0 <= i < |polled| && polled[i].Some? ==> !Beats(polled[i].value, start)
    ensures UpdatedSize(start, polled) == None
  {
    if polled != [] {
      var prefix := polled[..|polled| - 1];
      assert forall i :: 0 <= i < |prefix| ==> prefix[i] == polled[i];
      NoBeaterKeepsSize(start, prefix);
    }
  }

  /** `updated_size` ends as the size of the last frame that beats the start
      size. */
  lemma {:induction false} LastBeaterWins(start: Size, polled: seq<Option<Image>>, i: nat)
    requires AllFit(polled) && i < |polled| && polled[i].Some? && Beats(polled[i].value, start)
    requires forall j :: i < j < |polled| && polled[j].Some? ==> !Beats(polled[j].value, start)
    ensures UpdatedSize(start, polled) == Some(SizeOf(polled[i].value))
  {
    var n := |polled| - 1;
    if i < n {
      var prefix := polled[..n];
      assert forall j :: 0 <= j < n ==> prefix[j] == polled[j];
      LastBeaterWins(start, prefix, i);
    }
  }

  /** The code does not take the largest width and the largest height
      independently. Frames of 100x50, 80x80 and 120x40 arriving in one call,
      on a 0x0 canvas, leave a 120x40 canvas (the last frame that beats 0x0 in
      both dimensions); arriving in three separate calls they leave 100x50.
      Neither is 120x80. */
  lemma SizeScenario()
    ensures NewSize(Size(0, 0), [Some(Image(100, 50, [])), Some(Image(80, 80, [])), Some(Image(120, 40, []))])
      == Size(120, 40)
    ensures NewSize(NewSize(NewSize(Size(0, 0), [Some(Image(100, 50, []))]),
      [Some(Image(80, 80, []))]), [Some(Image(120, 40, []))]) == Size(100, 50)
  {
    var p := [Some(Image(100, 50, [])), Some(Image(80, 80, [])), Some(Image(120, 40, []))];
    assert p[..2][..1] == [Some(Image(100, 50, []))];
  }

  /** The name `receive_images` saves frame `index` under:
      `format!("{}-{}.png", sanitized_label, index)`. */
  function ScreenshotFileName(sanitizedLabel: string, index: nat): string {
    sanitizedLabel + "-" + Decimal(index) + ".png"
  }

  /** The label, a dash, the index in decimal and `.png`, each recoverable
      from the name by position. */
  lemma ScreenshotFileNameParts(sanitizedLabel: string, index: nat)
    ensures var name := ScreenshotFileName(sanitizedLabel, index);
      && |name| == |sanitizedLabel| + 1 + |Decimal(index)| + 4
      && name[..|sanitizedLabel| + 1] == sanitizedLabel + "-"
      && name[|sanitizedLabel| + 1..|name| - 4] == Decimal(index)
      && name[|name| - 4..] == ".png"
  {
  }

  /** `usize`'s `Display`: the decimal digits, without leading zeros. */
  function Decimal(n: nat): string {
    var digit := ['0' + (n % 10) as char];
    if n < 10 then digit else Decimal(n / 10) + digit
  }

  /** A number's decimal text ends in its last digit and has one digit exactly
      when the number is below ten. */
  lemma {:induction false} DecimalShape(n: nat)
    ensures 1 <= |Decimal(n)| && (n < 10 <==> |Decimal(n)| == 1)
    ensures Decimal(n)[|Decimal(n)| - 1] as int == '0' as int + n % 10
  {
    if 10 <= n {
      DecimalShape(n / 10);
    }
  }

  /** Different numbers have different decimal texts. */
  lemma {:induction false} DecimalInjective(m: nat, n: nat)
    requires Decimal(m) == Decimal(n)
    ensures m == n
  {
    DecimalShape(m);
    DecimalShape(n);
    if 10 <= m {
      var dm, dn := Decimal(m), Decimal(n);
      assert dm[..|dm| - 1] == Decimal(m / 10);
      assert dn[..|dn| - 1] == Decimal(n / 10);
      DecimalInjective(m / 10, n / 10);
    }
  }

  /** Distinct frames are saved under distinct names, so no save job
      overwrites another frame's file. */
  lemma ScreenshotFileNamesDistinct(sanitizedLabel: string, i: nat, j: nat)
    requires i != j
    ensures ScreenshotFileName(sanitizedLabel, i) != ScreenshotFileName(sanitizedLabel, j)
  {
    if ScreenshotFileName(sanitizedLabel, i) == ScreenshotFileName(sanitizedLabel, j) {
      ScreenshotFileNameParts(sanitizedLabel, i);
      ScreenshotFileNameParts(sanitizedLabel, j);
      DecimalInjective(i, j);
    }
  }

  /** One fire-and-forget save thread: which file and which image. */
  datatype SaveJob = SaveJob(fileName: string, image: Image)

  /** The save threads one call spawns, in list order. */
  function SaveJobs(sanitizedLabel: string, polled: seq<Option<Image>>): (jobs: seq<SaveJob>)
  {
    if polled == [] then []
    else
      var n := |polled| - 1;
      SaveJobs(sanitizedLabel, polled[..n])
        + (if polled[n].Some? then [SaveJob(ScreenshotFileName(sanitizedLabel, n), polled[n].value)] else [])
  }

  /** A call spawns one save job for every frame that yielded an image this
      call, saving that image under that frame's index, and no other job. */
  lemma {:induction false} SaveJobsSpec(sanitizedLabel: string, polled: seq<Option<Image>>)
    ensures |SaveJobs(sanitizedLabel, polled)| <= |polled|
    ensures forall i :: 0 <= i < |polled| && polled[i].Some? ==>
      SaveJob(ScreenshotFileName(sanitizedLabel, i), polled[i].value) in SaveJobs(sanitizedLabel, polled)
    ensures forall job :: job in SaveJobs(sanitizedLabel, polled) ==>
      exists i :: 0 <= i < |polled| && polled[i] == Some(job.image)
        && job.fileName == ScreenshotFileName(sanitizedLabel, i)
  {
    if polled != [] {
      var n := |polled| - 1;
      var prefix := polled[..n];
      assert forall i :: 0 <= i < n ==> prefix[i] == polled[i];
      SaveJobsSpec(sanitizedLabel, prefix);
    }
  }

  // ---------------------------------------------------------------------------
  // Encoding the GIF

  /** The `encode_gif` gate: every frame's `get` yields an image, which is to
      say no frame is still pending. */
  predicate AllResolved(frames: seq<PlaybackFrame>)
    ensures AllResolved(frames) <==> forall i :: 0 <= i < |frames| ==> !frames[i].Pending?
  {
    forall i :: 0 <= i < |frames| ==> Get(frames[i]).Some?
  }

  /** One `gif::Frame::from_rgba(width, height, data)`. */
  datatype GifFrame = GifFrame(width: u16, height: u16, data: seq<bv8>)

  /** The GIF file: its name, its canvas and its frames in order. */
  datatype Gif = Gif(fileName: string, width: u16, height: u16, frames: seq<GifFrame>)

  /** `gif::Frame::from_rgba` of one image, at the image's own size. */
  function ToGifFrame(image: Image): (f: GifFrame)
    requires Fits(image)
    ensures f.width as int == image.width && f.height as int == image.height && f.data == image.data
  {
    GifFrame(image.width as u16, image.height as u16, image.data)
  }

  /** The frames the encoder writes for a list of resolved frames that fit:
      one per frame, in list order, each at its own size. */
  function GifFrames(frames: seq<PlaybackFrame>): (r: seq<GifFrame>)
    requires forall i :: 0 <= i < |frames| ==> frames[i].Resolved? && Fits(frames[i].image)
    ensures |r| == |frames|
    ensures forall i :: 0 <= i < |frames| ==> r[i] == ToGifFrame(frames[i].image)
  {
    if frames == [] then [] else [ToGifFrame(frames[0].image)] + GifFrames(frames[1..])
  }

  /** `TestState`; `encode_gif` moves it to `Shutdown`. */
  datatype TestState = Active | PendingClose | Shutdown

  /** `NextState<TestState>`: the state change queued for the next frame. */
  class NextTestState {
    var next: Option<TestState>

    constructor ()
      ensures next.None?
    {
      next := None;
    }
  }

  /** The screenshots resubmitted, resolved out of order, still reach the GIF
      in submission order: frames A, B, C submitted in that order and delivered
      B first, then A, then C. */
  lemma SubmissionOrderScenario(a: Image, b: Image, c: Image)
    requires Fits(a) && Fits(b) && Fits(c)
    ensures var submitted := [Pending(0), Pending(1), Pending(2)];
      var afterB := ResolveFrames(submitted, [None, Some(b), None]);
      var afterA := ResolveFrames(afterB, [Some(a), None, None]);
      var afterC := ResolveFrames(afterA, [None, None, Some(c)]);
      !AllResolved(afterB) && !AllResolved(afterA) && AllResolved(afterC)
      && afterC == [Resolved(a), Resolved(b), Resolved(c)]
      && GifFrames(afterC) == [ToGifFrame(a), ToGifFrame(b), ToGifFrame(c)]
  {
    var submitted := [Pending(0), Pending(1), Pending(2)];
    var afterB := ResolveFrames(submitted, [None, Some(b), None]);
    assert afterB[0] == Pending(0);
    var afterA := ResolveFrames(afterB, [Some(a), None, None]);
    assert afterA[2] == Pending(2);
  }

  /** Every resolved frame in the list fits in `u16`: the conversion in
      `receive_images` panics before an oversized image is stored. */
  ghost predicate FramesFit(frames: seq<PlaybackFrame>) {
    forall i :: 0 <= i < |frames| && frames[i].Resolved? ==> Fits(frames[i].image)
  }

  /** One more frame seen by the loop of `receive_images`. */
  lemma PolledPrefixStep(start: Size, sanitizedLabel: string, polled: seq<Option<Image>>, i: nat)
    requires i < |polled| && AllFit(polled[..i])
    requires polled[i].Some? ==> Fits(polled[i].value)
    ensures AllFit(polled[..i + 1])
    ensures UpdatedSize(start, polled[..i + 1]) ==
      if polled[i].Some? && Beats(polled[i].value, start) then Some(SizeOf(polled[i].value))
      else UpdatedSize(start, polled[..i])
    ensures SaveJobs(sanitizedLabel, polled[..i + 1]) == SaveJobs(sanitizedLabel, polled[..i])
      + (if polled[i].Some? then [SaveJob(ScreenshotFileName(sanitizedLabel, i), polled[i].value)] else [])
  {
    assert polled[..i + 1][..i] == polled[..i];
  }

  /** The frame list once the loop of `receive_images` has handled its first
      `k` frames. */
  function ResolvedUpTo(frames: seq<PlaybackFrame>, delivered: seq<Option<Image>>, k: nat)
    : (r: seq<PlaybackFrame>)
    requires |delivered| == |frames| && k <= |frames|
    ensures |r| == |frames|
    ensures forall j :: 0 <= j < k ==> r[j] == Resolve(frames[j], delivered[j])
    ensures forall j :: k <= j < |frames| ==> r[j] == frames[j]
  {
    seq(|frames|, j requires 0 <= j < |frames| =>
      if j < k then Resolve(frames[j], delivered[j]) else frames[j])
  }

  /** The loop handles one more frame: only that frame changes, into its
      resolved form; after the last frame the list is fully resolved. */
  lemma ResolvedUpToStep(frames: seq<PlaybackFrame>, delivered: seq<Option<Image>>, k: nat)
    requires |delivered| == |frames| && k < |frames|
    ensures ResolvedUpTo(frames, delivered, k)[k] == frames[k]
    ensures Polled(frames, delivered)[k] == Poll(frames[k], delivered[k])
    ensures ResolvedUpTo(frames, delivered, k + 1)
      == ResolvedUpTo(frames, delivered, k)[k := Resolve(frames[k], delivered[k])]
  {
  }

  /** Before the loop nothing is resolved; after it, every frame is. */
  lemma ResolvedUpToEnds(frames: seq<PlaybackFrame>, delivered: seq<Option<Image>>)
    requires |delivered| == |frames|
    ensures ResolvedUpTo(frames, delivered, 0) == frames
    ensures ResolvedUpTo(frames, delivered, |frames|) == ResolveFrames(frames, delivered)
  {
  }

  /** `PlaybackFrames`: the frames in submission order and the canvas size. */
  class PlaybackFrames {
    var frames: seq<PlaybackFrame>
    var size: Size

    ghost predicate Valid()
      reads this
    {
      FramesFit(frames)
    }

    /** `PlaybackFrames::default()`. */
    constructor ()
      ensures Valid() && frames == [] && size == Size(0, 0)
    {
      frames := [];
      size := Size(0, 0);
    }

    /** `receive_images`: polls every frame in list order; each delivered
        image becomes a resolved frame, a save thread is spawned for it, and
        the canvas size is reconciled after the loop. `delivered[i]` is what the
        channel of frame `i` holds this tick. An image wider or taller than
        65535 panics at that frame, `failedAt`: earlier frames of the list are
        already resolved, later ones and the size are untouched. */
    method ReceiveImages(sanitizedLabel: string, delivered: seq<Option<Image>>)
      returns (outcome: Outcome, jobs: seq<SaveJob>, ghost failedAt: nat)
      requires Valid() && |delivered| == |frames|
      modifies this
      ensures Valid()
      ensures outcome.Pass? <==> AllFit(Polled(old(frames), delivered))
      ensures outcome.Pass? ==> frames == ResolveFrames(old(frames), delivered)
      ensures outcome.Pass? ==> size == NewSize(old(size), Polled(old(frames), delivered))
      ensures outcome.Pass? ==> jobs == SaveJobs(sanitizedLabel, Polled(old(frames), delivered))
      ensures outcome.Fail? ==>
        && size == old(size)
        && failedAt < |old(frames)|
        && AllFit(Polled(old(frames), delivered)[..failedAt])
        && Polled(old(frames), delivered)[failedAt].Some?
        && !Fits(Polled(old(frames), delivered)[failedAt].value)
        && frames == ResolvedUpTo(old(frames), delivered, failedAt)
    {
      ghost var original := frames;
      ghost var polled := Polled(original, delivered);
      failedAt := 0;
      ResolvedUpToEnds(original, delivered);
      var current := frames;
      var currentSize := size;
      var updatedSize: Option<Size> := None;
      jobs := [];
      var index := 0;
      while index < |current|
        invariant frames == original && size == old(size)
        invariant |current| == |original| && 0 <= index <= |current|
        invariant current == ResolvedUpTo(original, delivered, index)
        invariant AllFit(polled[..index]) && FramesFit(current)
        invariant updatedSize == UpdatedSize(currentSize, polled[..index])
        invariant jobs == SaveJobs(sanitizedLabel, polled[..index])
      {
        ResolvedUpToStep(original, delivered, index);
        var image := Poll(current[index], delivered[index]);
        if image.Some? {
          var width := ToU16(image.value.width);
          var height := ToU16(image.value.height);
          if width.Err? || height.Err? {
            assert polled[index].Some? && !Fits(polled[index].value);
            assert AllFit(polled[..index]) && current == ResolvedUpTo(original, delivered, index);
            frames := current;
            return Fail(if width.Err? then width.message else height.message), jobs, index;
          }
          var x := if width.value > currentSize.width then Some(width.value) else None;
          var y := if height.value > currentSize.height then Some(height.value) else None;
          if x.Some? && y.Some? {
            updatedSize := Some(Size(x.value, y.value));
          }
          jobs := jobs + [SaveJob(ScreenshotFileName(sanitizedLabel, index), image.value)];
          current := current[index := Resolved(image.value)];
        }
        PolledPrefixStep(currentSize, sanitizedLabel, polled, index);
        index := index + 1;
      }
      assert polled[..index] == polled;
      frames := current;
      if updatedSize.Some? {
        size := updatedSize.value;
      }
      outcome := Pass;
    }

    /** `encode_gif`: while any frame is still pending, nothing happens.
        Otherwise the GIF is written on a canvas of the stored size, one frame
        per list entry in submission order, the list is drained, and the next
        state is `Shutdown`; an empty list gives a GIF without frames. */
    method EncodeGif(sanitizedLabel: string, state: NextTestState) returns (gif: Option<Gif>)
      requires Valid()
      modifies this, state
      ensures Valid() && size == old(size)
      ensures !AllResolved(old(frames)) ==>
        gif.None? && frames == old(frames) && state.next == old(state.next)
      ensures AllResolved(old(frames)) ==>
        && gif == Some(Gif(sanitizedLabel + ".gif", old(size).width, old(size).height, GifFrames(old(frames))))
        && frames == [] && state.next == Some(Shutdown)
    {
      var index := 0;
      while index < |frames|
        invariant 0 <= index <= |frames|
        invariant forall j :: 0 <= j < index ==> Get(frames[j]).Some?
      {
        if Get(frames[index]).None? {
          return None;
        }
        index := index + 1;
      }
      var written: seq<GifFrame> := [];
      index := 0;
      while index < |frames|
        invariant 0 <= index <= |frames|
        invariant written == GifFrames(frames[..index])
      {
        if frames[index].Resolved? {
          var image := frames[index].image;
          written := written + [ToGifFrame(image)];
        }
        index := index + 1;
      }
      assert frames[..index] == frames;
      gif := Some(Gif(sanitizedLabel + ".gif", size.width, size.height, written));
      frames := [];
      state.next := Some(Shutdown);
    }
  }

  /** The `Local` state of `take_screenshots`: the accumulated time and the
      number of screenshots requested. */
  class ScreenshotTimer {
    var elapsed: nat
    var capturedFrame: nat

    constructor ()
      ensures elapsed == 0 && capturedFrame == 0
    {
      elapsed := 0;
      capturedFrame := 0;
    }

    /** `take_screenshots`: adds `delta`; only when the accumulated time is
        strictly above the rate does it subtract one rate, push one pending
        frame at the end of the list and request a screenshot. */
    method TakeScreenshots(gifFrames: PlaybackFrames, delta: nat, rate: RecordingRate)
      returns (fired: bool)
      requires gifFrames.Valid()
      modifies this, gifFrames
      ensures gifFrames.Valid() && gifFrames.size == old(gifFrames.size)
      ensures (fired, elapsed) == RateStep(old(elapsed), delta, rate.nanos)
      ensures fired ==>
        gifFrames.frames == old(gifFrames.frames) + [Pending(old(capturedFrame))]
        && capturedFrame == old(capturedFrame) + 1
      ensures !fired ==> gifFrames.frames == old(gifFrames.frames) && capturedFrame == old(capturedFrame)
    {
      elapsed := elapsed + delta;
      if elapsed > rate.nanos {
        elapsed := elapsed - rate.nanos;
      } else {
        return false;
      }
      gifFrames.frames := gifFrames.frames + [Pending(capturedFrame)];
      capturedFrame := capturedFrame + 1;
      fired := true;
    }
  }

  // ---------------------------------------------------------------------------
  // The recording rate at the head of a snapshot

  const NO_LINE: string := "called `Option::unwrap()` on a `None` value"

  /** `save_recording_rate`: the encoded rate and a line terminator. */
  method SaveRecordingRate(rate: RecordingRate, writer: SnapshotWriter, codec: Codec<RecordingRate>)
    modifies writer
    ensures writer.Contents() == old(writer.Contents()) + WrittenLine(codec, rate)
    ensures writer.flushed == old(writer.flushed)
  {
    var text := codec.encode(rate);
    writer.WriteAll(text);
    writer.WriteAll("\n");
  }

  /** What `read_recording_rate` makes of the next item of the reader. */
  function ReadRateItem(codec: Codec<RecordingRate>, item: Option<Result<string>>): (r: Result<RecordingRate>)
    ensures item.None? ==> r == Err(NO_LINE)
    ensures item.Some? && item.value.Err? ==> r == Err(item.value.message)
    ensures r.Ok? <==> item.Some? && item.value.Ok? && codec.decode(item.value.value).Some?
    ensures r.Ok? ==> codec.decode(item.value.value) == Some(r.value)
  {
    match item
    case None => Err(NO_LINE)
    case Some(Err(message)) => Err(message)
    case Some(Ok(line)) =>
      match codec.decode(line)
      case Some(rate) => Ok(rate)
      case None => Err("called `Result::unwrap()` on an `Err` value: SpannedError")
  }

  /** `read_recording_rate`: consumes one line and decodes it as the rate; a
      missing line, a read error or an undecodable line panics. */
  method ReadRecordingRate(reader: SnapshotReader, codec: Codec<RecordingRate>)
    returns (rate: Result<RecordingRate>)
    requires reader.Valid()
    modifies reader
    ensures reader.Valid()
    ensures old(reader.cursor) < |reader.items| ==>
      reader.cursor == old(reader.cursor) + 1
      && rate == ReadRateItem(codec, Some(reader.items[old(reader.cursor)]))
    ensures old(reader.cursor) == |reader.items| ==>
      reader.cursor == old(reader.cursor) && rate == Err(NO_LINE)
  {
    var line := reader.Next();
    rate := ReadRateItem(codec, line);
  }

  /** A snapshot that starts with the saved rate reads the same rate back
      first, and what follows it is exactly the text written after it. */
  lemma RecordingRateRoundTrip(
    rateCodec: Codec<RecordingRate>, rate: RecordingRate, lines: seq<string>)
    requires RoundTrips(rateCodec) && EncodesOneLine(rateCodec)
    requires forall i :: 0 <= i < |lines| ==> IsLine(lines[i])
    ensures var items := LinesRead(WrittenLine(rateCodec, rate) + Terminated(lines));
      |items| == |lines| + 1
      && ReadRateItem(rateCodec, Some(items[0])) == Ok(rate)
      && items[1..] == LinesRead(Terminated(lines))
  {
    var all := [rateCodec.encode(rate)] + lines;
    assert Terminated(all) == WrittenLine(rateCodec, rate) + Terminated(lines) by {
      assert all[1..] == lines;
    }
    LinesOfTerminated(all);
    LinesOfTerminated(lines);
  }
}
