/** From application to image file: stream, dispatcher and PPM sink together. */
module EndToEnd {
  import opened Abi
  import opened Bytes
  import opened Dispatcher
  import opened Timing
  import opened NewestWins
  import opened Stream
  import opened SlotSafety
  import opened P6
  import opened Ppm

  /** What a submit of the PPM sink leaves at the destination if it succeeds, given the bytes it read. */
  function ImageOf(f: Frame, px: seq<u8>): Option<seq<u8>> {
    if Drawable(f) && ReadEnd(f) <= |px| then Some(File(f, px)) else None
  }

  /** Byte `k` behind a frame in the mapping after the first `n` publishes that fall into the submit. */
  ghost predicate FoundAt(cfg: Config, w: Window, f: Frame, k: nat, byte: u8, n: nat) {
    && f.pixels.MappedPixels? && n <= |w.duringSubmit| && |w.submitting.memory| == MemorySize(cfg.info)
    && MayPublishAll(cfg.info, w.submitting, w.duringSubmit[..n])
    && (var memory := PublishAll(cfg.info, w.submitting, w.duringSubmit[..n]).memory;
        f.pixels.offset + k < |memory| && memory[f.pixels.offset + k] == byte)
  }

  /** A frame's bytes as the sink reads them while the producer goes on: each at an instant of its own. */
  ghost predicate ReadDuring(cfg: Config, w: Window, f: Frame, px: seq<u8>) {
    |px| == f.bytes && forall k: nat :: k < |px| ==> exists n: nat :: FoundAt(cfg, w, f, k, px[k], n)
  }

  ghost predicate ReadsDuring(cfg: Config, rs: seq<Round>, ws: seq<Window>, pxs: seq<seq<u8>>) {
    && |rs| == |ws| == |pxs|
    && forall i :: 0 <= i < |rs| && SubmitsFresh(rs[i].polled, rs[i].pass) ==>
         ReadDuring(cfg, ws[i], rs[i].submitted.frame, pxs[i])
  }

  /** Whenever the single bytes of a pinned frame are read, together they are the published snapshot. */
  lemma ReadIsSnapshot(cfg: Config, splash: seq<u8>, w: Window, f: Frame, px: seq<u8>)
    requires FramePinned(cfg.info, w.submitting, f) && MayPublishAll(cfg.info, w.submitting, w.duringSubmit)
    requires ReadDuring(cfg, w, f, px)
    ensures f.sequence in w.submitting.snapshots && f.bytes <= |w.submitting.snapshots[f.sequence]|
    ensures px == w.submitting.snapshots[f.sequence][..f.bytes]
  {
    var snapshot := w.submitting.snapshots[f.sequence];
    PinnedIsCoherent(cfg.info, splash, w.submitting, f);
    forall k: nat | k < |px|
      ensures px[k] == snapshot[k]
    {
      var n: nat :| FoundAt(cfg, w, f, k, px[k], n);
      CoherentThroughout(cfg, splash, w.submitting, w.duringSubmit, f, n);
      var memory := PublishAll(cfg.info, w.submitting, w.duringSubmit[..n]).memory;
      assert memory[f.pixels.offset..f.pixels.offset + f.bytes][k] == snapshot[..f.bytes][k];
    }
  }

  /** The dispatcher's backend is the PPM sink: diagnostic, tickless, and answering as the sink does. */
  ghost predicate DrivesPpm(cfg: Config, start: Startup, rs: seq<Round>, first: SinkEnv, envs: seq<SinkEnv>) {
    && !cfg.physical && !cfg.ticks
    && (start.prepare == 0 ==> start.submit == SubmitCode(SplashFrame(cfg, start.stampNs), first))
    && |envs| == |rs|
    && forall i :: 0 <= i < |rs| && SubmitsFresh(rs[i].polled, rs[i].pass) ==>
         rs[i].pass.submit == SubmitCode(rs[i].submitted.frame, envs[i])
  }

  /** Rows fit their stride: the check `validate_update` does not make. */
  predicate RowsFit(u: Update) {
    u.width * BytesPerPixel(u.format) <= u.stride
  }

  ghost predicate StridesCover(cfg: Config, rs: seq<Round>) {
    forall i: nat :: i < |rs| && ReadAt(cfg, rs, i).Some? ==> RowsFit(ReadAt(cfg, rs, i).value)
  }

  /** A full-size splash buffer. */
  predicate SplashFits(cfg: Config, splash: seq<u8>) {
    && 0 < cfg.info.width < 0x4000_0000 && 0 < cfg.info.height
    && |splash| == cfg.splashBytes == cfg.info.width * 4 * cfg.info.height
  }

  /** The destination after the startup submit and the first `n` rounds. */
  function Destination(shown: Option<seq<u8>>, rs: seq<Round>, pxs: seq<seq<u8>>, n: nat): Option<seq<u8>>
    requires n <= |rs| == |pxs|
  {
    if n == 0 then shown
    else if FreshDone(rs[n - 1]) then ImageOf(rs[n - 1].submitted.frame, pxs[n - 1])
    else Destination(shown, rs, pxs, n - 1)
  }

  /** The splash can be read in full. */
  lemma SplashReadable(cfg: Config, splash: seq<u8>, stampNs: u64)
    requires SplashFits(cfg, splash)
    ensures ReadEnd(SplashFrame(cfg, stampNs)) <= |splash| && Drawable(SplashFrame(cfg, stampNs))
  {
    var f := SplashFrame(cfg, stampNs);
    SmallModulo(cfg.info.width * 4, WORD32);
    ReadEndExact(f);
  }

  /** A validated update whose rows fit its stride can be read in full, within its own bytes. */
  lemma UpdateReadable(cfg: Config, u: Update, source: u32)
    requires ValidateUpdate(cfg.info, u, cfg.sizes) == 0 && RowsFit(u)
    ensures var f := FrameOf(cfg, u, source); f.bytes == u.stride * u.height && ReadEnd(f) <= f.bytes
  {
    ValidateUpdateExact(cfg.info, u, cfg.sizes);
    SmallModulo(u.stride * u.height, cfg.sizes);
    ReadEndExact(FrameOf(cfg, u, source));
  }

  /** The image a processed update must leave: its frame over the snapshot published under its sequence. */
  ghost predicate ShowsSnapshot(f: Frame, snapshots: map<u64, seq<u8>>, destination: Option<seq<u8>>) {
    && f.sequence in snapshots && f.bytes <= |snapshots[f.sequence]|
    && Drawable(f) && ReadEnd(f) <= f.bytes
    && destination == Some(File(f, snapshots[f.sequence][..f.bytes]))
  }

  /** One submit: a processed read leaves the image of its published snapshot. */
  lemma FreshShowsSnapshot(
      cfg: Config, start: Startup, passes: seq<Pass>, ws: seq<Window>, pxs: seq<seq<u8>>,
      first: SinkEnv, envs: seq<SinkEnv>, k: nat)
    requires var rs := RunOf(cfg, start, passes);
      && k < |rs| && NoWrap(cfg.info) && Interleaved(cfg.info, rs, ws) && ReadsDuring(cfg, rs, ws, pxs)
      && DrivesPpm(cfg, start, rs, first, envs) && StridesCover(cfg, rs)
    ensures var rs := RunOf(cfg, start, passes);
      && (FreshDone(rs[k]) <==> IsApplication(ReadAt(cfg, rs, k)) && rs[k].pass.submit == 0)
      && (FreshDone(rs[k]) ==>
            && rs[k].submitted.frame == FrameOf(cfg, ReadAt(cfg, rs, k).value, rs[k].polled.frame.source)
            && ShowsSnapshot(rs[k].submitted.frame, ws[k].submitting.snapshots, Destination(None, rs, pxs, k + 1)))
  {
    var rs := RunOf(cfg, start, passes);
    var r := rs[k];
    DiagnosticNeverWaits(cfg, start, passes, k);
    SaneThroughout(cfg, start, passes, k);
    if FreshDone(r) {
      var f := r.submitted.frame;
      RunInStep(cfg, start, passes, ws, k);
      assert WindowOk(cfg.info, r.pass, ws[k]);
      RoundInStep(cfg, SplashFrame(cfg, start.stampNs), r.before, r.pass, ws[k]);
      ReadIsSnapshot(cfg, [], ws[k], f, pxs[k]);
      UpdateReadable(cfg, ReadAt(cfg, rs, k).value, r.polled.frame.source);
      AcceptedFormat(f, envs[k]);
    }
  }

  lemma AcceptedFormat(f: Frame, env: SinkEnv)
    requires SubmitCode(f, env) == 0
    ensures Drawable(f)
  {
  }

  /** The destination depends on the most recent processed update only. */
  lemma {:induction false} DestinationIsLatest(
      shown: Option<seq<u8>>, rs: seq<Round>, pxs: seq<seq<u8>>, n: nat, k: nat)
    requires k <= n <= |rs| == |pxs| && forall j: nat :: k <= j < n ==> !FreshDone(rs[j])
    ensures Destination(shown, rs, pxs, n) == Destination(shown, rs, pxs, k)
    decreases n
  {
    if k < n {
      DestinationIsLatest(shown, rs, pxs, n - 1, k);
    }
  }

  /** Until the first application update is processed, the destination is the complete image of the splash. */
  lemma SplashUntilFirstUpdate(
      cfg: Config, start: Startup, rs: seq<Round>, pxs: seq<seq<u8>>, splash: seq<u8>, n: nat)
    requires n <= |rs| == |pxs| && SplashFits(cfg, splash)
    requires forall j: nat :: j < n ==> !FreshDone(rs[j])
    ensures var f := SplashFrame(cfg, start.stampNs);
      && Drawable(f) && ReadEnd(f) <= |splash|
      && Destination(ImageOf(f, splash), rs, pxs, n) == Some(File(f, splash))
  {
    SplashReadable(cfg, splash, start.stampNs);
    DestinationIsLatest(ImageOf(SplashFrame(cfg, start.stampNs), splash), rs, pxs, n, 0);
  }

  /**
   * End to end. Over every interleaving with a conforming producer, whatever the sink's submits run into, and at
   * whatever instant of a submit it reads each byte, the destination after `n` rounds is the complete image file
   * of the most recently processed application update (round `k`), pixel for pixel as the application published
   * it under that sequence number. A failed submit changes nothing. (`SplashUntilFirstUpdate` covers the time
   * before.)
   */
  lemma DestinationFollowsApplication(
      cfg: Config, start: Startup, passes: seq<Pass>, ws: seq<Window>, pxs: seq<seq<u8>>,
      first: SinkEnv, envs: seq<SinkEnv>, shown: Option<seq<u8>>, n: nat, k: nat)
    requires var rs := RunOf(cfg, start, passes);
      && k < n <= |rs| && NoWrap(cfg.info) && Interleaved(cfg.info, rs, ws) && ReadsDuring(cfg, rs, ws, pxs)
      && DrivesPpm(cfg, start, rs, first, envs) && StridesCover(cfg, rs)
      && FreshDone(rs[k]) && forall j: nat :: k < j < n ==> !FreshDone(rs[j])
    ensures var rs := RunOf(cfg, start, passes);
      && IsApplication(ReadAt(cfg, rs, k))
      && rs[k].submitted.frame == FrameOf(cfg, ReadAt(cfg, rs, k).value, rs[k].polled.frame.source)
      && ShowsSnapshot(rs[k].submitted.frame, ws[k].submitting.snapshots, Destination(shown, rs, pxs, n))
  {
    var rs := RunOf(cfg, start, passes);
    FreshShowsSnapshot(cfg, start, passes, ws, pxs, first, envs, k);
    DestinationIsLatest(shown, rs, pxs, n, k + 1);
    assert Destination(shown, rs, pxs, k + 1) == Destination(None, rs, pxs, k + 1);
  }

  /** Pixel (x, y) of an image has the colour that an update's format gives to its bytes in a snapshot. */
  predicate PixelShown(image: Image, u: Update, snapshot: seq<u8>, x: nat, y: nat) {
    var n := PixelBytes(u.format);
    var at, to := y * u.stride + n * x, 3 * (y * u.width + x);
    && at + n <= |snapshot| && to + 3 <= |image.body|
    && (var c := ColourOf(u.format, snapshot[at..at + n]); image.body[to..to + 3] == [c.r, c.g, c.b])
  }

  /** An image file shows an update, all of it and pixel for pixel, as it was published. */
  ghost predicate ShowsUpdate(file: seq<u8>, u: Update, snapshot: seq<u8>) {
    var image := ReadP6(file);
    && image.Some? && image.value.width == u.width && image.value.height == u.height
    && |image.value.body| == 3 * (u.width * u.height)
    && forall x: nat, y: nat :: x < u.width && y < u.height ==> PixelShown(image.value, u, snapshot, x, y)
  }

  lemma FrameShowsUpdate(f: Frame, u: Update, snapshot: seq<u8>)
    requires Carries(f, u) && Supported(f.format) && ReadEnd(f) <= f.bytes <= |snapshot|
    ensures ShowsUpdate(File(f, snapshot[..f.bytes]), u, snapshot)
  {
    var px := snapshot[..f.bytes];
    FileIsP6(f, px);
    forall x: nat, y: nat | x < u.width && y < u.height
      ensures PixelShown(Image(f.width, f.height, Body(f, px)), u, snapshot, x, y)
    {
      FrameShowsPixel(f, u, snapshot, x, y);
    }
  }

  lemma FrameShowsPixel(f: Frame, u: Update, snapshot: seq<u8>, x: nat, y: nat)
    requires Carries(f, u) && Supported(f.format) && ReadEnd(f) <= f.bytes <= |snapshot|
    requires x < u.width && y < u.height
    ensures PixelShown(Image(f.width, f.height, Body(f, snapshot[..f.bytes])), u, snapshot, x, y)
  {
    var px := snapshot[..f.bytes];
    var n, at := PixelBytes(f.format), PixelStart(f, x, y);
    PixelColour(f, px, x, y);
    BodyLayout(f, px, x, y);
    BodyDense(f, px, x, y);
    TimesIsProduct(y, f.stride);
    assert at == y * u.stride + n * x;
    assert px[at..at + n] == snapshot[at..at + n];
  }

  lemma SubmittedFormat(f: Frame, env: SinkEnv)
    requires SubmitCode(f, env) == 0 && f.width > 0 && f.height > 0
    ensures Supported(f.format)
  {
  }

  /**
   * End to end, told from the application's side: what an image reader finds at the destination is the most
   * recently processed application update, with its width and height, and every pixel in the colour that the
   * update's format gives to the bytes published under its sequence number.
   */
  lemma DestinationShowsUpdate(
      cfg: Config, start: Startup, passes: seq<Pass>, ws: seq<Window>, pxs: seq<seq<u8>>,
      first: SinkEnv, envs: seq<SinkEnv>, shown: Option<seq<u8>>, n: nat, k: nat)
    requires var rs := RunOf(cfg, start, passes);
      && k < n <= |rs| && NoWrap(cfg.info) && Interleaved(cfg.info, rs, ws) && ReadsDuring(cfg, rs, ws, pxs)
      && DrivesPpm(cfg, start, rs, first, envs) && StridesCover(cfg, rs)
      && FreshDone(rs[k]) && forall j: nat :: k < j < n ==> !FreshDone(rs[j])
    ensures var rs := RunOf(cfg, start, passes);
            var file := Destination(shown, rs, pxs, n);
      && IsApplication(ReadAt(cfg, rs, k))
      && (var u := ReadAt(cfg, rs, k).value;
          && u.sequence in ws[k].submitting.snapshots && file.Some?
          && ShowsUpdate(file.value, u, ws[k].submitting.snapshots[u.sequence]))
  {
    var rs := RunOf(cfg, start, passes);
    DestinationFollowsApplication(cfg, start, passes, ws, pxs, first, envs, shown, n, k);
    var u := ReadAt(cfg, rs, k).value;
    var f := rs[k].submitted.frame;
    ValidateUpdateExact(cfg.info, u, cfg.sizes);
    SubmittedFormat(f, envs[k]);
    FrameShowsUpdate(f, u, ws[k].submitting.snapshots[u.sequence]);
  }

  /** Before the first processed update an image reader finds the splash, whole and pixel for pixel. */
  lemma SplashIsShown(
      cfg: Config, start: Startup, rs: seq<Round>, pxs: seq<seq<u8>>, splash: seq<u8>, n: nat)
    requires n <= |rs| == |pxs| && SplashFits(cfg, splash)
    requires forall j: nat :: j < n ==> !FreshDone(rs[j])
    ensures var file := Destination(ImageOf(SplashFrame(cfg, start.stampNs), splash), rs, pxs, n);
      file.Some? && ShowsUpdate(file.value, SplashAsUpdate(cfg, start), splash)
  {
    var f := SplashFrame(cfg, start.stampNs);
    SplashUntilFirstUpdate(cfg, start, rs, pxs, splash, n);
    SmallModulo(cfg.info.width * 4, WORD32);
    assert splash[..f.bytes] == splash;
    FrameShowsUpdate(f, SplashAsUpdate(cfg, start), splash);
  }

  /** The splash buffer described like an update: a full screen of 32-bit pixels without gaps. */
  function SplashAsUpdate(cfg: Config, start: Startup): Update
    requires cfg.info.width < 0x4000_0000
  {
    Update(0, start.stampNs, 0, cfg.info.width, cfg.info.height, 4 * cfg.info.width, 2, 0,
           Rect(0, 0, cfg.info.width, cfg.info.height))
  }

  /** A round that leaves the loop running has processed the application update it read, if any. */
  lemma ProcessedUnlessFailed(cfg: Config, start: Startup, passes: seq<Pass>, i: nat)
    requires i < |RunOf(cfg, start, passes)| && !cfg.physical
    ensures var rs := RunOf(cfg, start, passes);
      !Halted(rs[i].after) ==> (FreshDone(rs[i]) <==> IsApplication(ReadAt(cfg, rs, i)))
  {
    DiagnosticNeverWaits(cfg, start, passes, i);
    SaneThroughout(cfg, start, passes, i);
  }

  /** Every frame the dispatcher hands over can be read in full. */
  ghost predicate ReadableThroughout(rs: seq<Round>, pxs: seq<seq<u8>>)
    requires |rs| == |pxs|
  {
    forall i :: 0 <= i < |rs| && SubmitsFresh(rs[i].polled, rs[i].pass) ==>
      ReadEnd(rs[i].submitted.frame) <= |pxs[i]|
  }

  /** The sink's reads stay within the slot, whichever updates get that far. */
  lemma SubmitsReadable(cfg: Config, start: Startup, passes: seq<Pass>, ws: seq<Window>, pxs: seq<seq<u8>>)
    requires var rs := RunOf(cfg, start, passes);
      NoWrap(cfg.info) && !cfg.physical && StridesCover(cfg, rs) && ReadsDuring(cfg, rs, ws, pxs)
    ensures ReadableThroughout(RunOf(cfg, start, passes), pxs)
  {
    var rs := RunOf(cfg, start, passes);
    forall i: nat | i < |rs| && SubmitsFresh(rs[i].polled, rs[i].pass)
      ensures ReadEnd(rs[i].submitted.frame) <= |pxs[i]|
    {
      DiagnosticNeverWaits(cfg, start, passes, i);
      SaneThroughout(cfg, start, passes, i);
      var u := ReadAt(cfg, rs, i).value;
      assert rs[i].polled.pending == u;
      UpdateReadable(cfg, u, rs[i].polled.frame.source);
    }
  }

  /** A complete image file. */
  ghost predicate IsImage(d: Option<seq<u8>>) {
    d.Some? && exists f: Frame, px: seq<u8> :: ImageOf(f, px) == d
  }

  /**
   * The sink at work: given the startup frame and then every new frame of a run, it leaves at its destination
   * what `Destination` says, and never shows anything there but complete images.
   */
  method DriveSink(
      sink: Sink, splash: seq<u8>, splashFrame: Frame, rs: seq<Round>, pxs: seq<seq<u8>>,
      first: SinkEnv, envs: seq<SinkEnv>)
    requires |envs| == |rs| == |pxs| && ReadableThroughout(rs, pxs) && ReadEnd(splashFrame) <= |splash|
    requires forall i :: 0 <= i < |rs| && SubmitsFresh(rs[i].polled, rs[i].pass) ==>
               rs[i].pass.submit == SubmitCode(rs[i].submitted.frame, envs[i])
    modifies sink
    ensures var shown :=
              if SubmitCode(splashFrame, first) == 0 then ImageOf(splashFrame, splash) else old(sink.destination);
      sink.destination == Destination(shown, rs, pxs, |rs|)
    ensures old(sink.seen) <= sink.seen
    ensures forall j :: |old(sink.seen)| <= j < |sink.seen| ==> IsImage(sink.seen[j])
  {
    var code := sink.Submit(splashFrame, splash, first);
    ghost var shown := sink.destination;
    assert code == 0 ==> ImageOf(splashFrame, splash) == shown;
    var i := 0;
    while i < |rs|
      invariant 0 <= i <= |rs|
      invariant sink.destination == Destination(shown, rs, pxs, i)
      invariant old(sink.seen) <= sink.seen
      invariant forall j :: |old(sink.seen)| <= j < |sink.seen| ==> IsImage(sink.seen[j])
    {
      if SubmitsFresh(rs[i].polled, rs[i].pass) {
        var f := rs[i].submitted.frame;
        code := sink.Submit(f, pxs[i], envs[i]);
        assert code == 0 ==> ImageOf(f, pxs[i]) == sink.destination;
      }
      i := i + 1;
    }
  }
}
