/** A conforming stream, a daemon that reads all it can, and a backend that trusts the damage: a stale pixel. */
module LossyDamage {
  import opened Abi
  import opened Bytes
  import opened Dispatcher
  import opened Timing
  import opened Damage
  import opened Stream
  import opened SlotSafety

  const LOSSY := Config(DeviceInfo(2, 1, 3, 8, 24), false, false, 8, WORD64)
  const WHOLE := Update(1, 0, 0, 2, 1, 8, FORMAT_XRGB8888, SOURCE_DRM, Rect(0, 0, 2, 1))
  const LEFT := Update(2, 0, 1, 2, 1, 8, FORMAT_XRGB8888, SOURCE_DRM, Rect(0, 0, 1, 1))
  const RIGHT := Update(3, 0, 2, 2, 1, 8, FORMAT_XRGB8888, SOURCE_DRM, Rect(1, 0, 1, 1))

  /** The bytes published under a sequence number: two pixels; 2 changes the left one, 3 the right one. */
  function PixelsOf(sequence: u64): (b: seq<u8>)
    ensures |b| == 8
  {
    [if sequence >= 2 then 11 else 10, 0, 0, 0, if sequence >= 3 then 21 else 20, 0, 0, 0]
  }

  /** Frames read as pictures by way of the bytes published under their sequence. */
  ghost function TwoPixels(f: Frame): Picture {
    map p: Position | p in {(0, 0), (1, 0)} && p.0 < f.width && p.1 < f.height :: PixelsOf(f.sequence)[4 * p.0]
  }

  function ReadPass(u: Update, nowNs: u64): Pass {
    Pass(false, Readable(ReadUpdate(u)), false, nowNs, 0, nowNs, 0, nowNs, nowNs, 0)
  }

  const START := Startup(0, 0, 0, 1)
  const READS := [ReadPass(WHOLE, 10), ReadPass(RIGHT, 20)]

  function PublishOf(u: Update): Publish {
    Publish(u, PixelsOf(u.sequence))
  }

  const EMPTY := Kernel(seq(24, _ => 0), None, None, -1, map[])

  /** One read after some publishes; the producer then rests until the next round. */
  function ReadWindow(entry: Kernel, ps: seq<Publish>, ready: Kernel): Window
    requires ready.latest.Some?
  {
    var held := ReadLatest(ready);
    Window(entry, ps, ready, held, [], held, [], held, [], held, [], held, [], held)
  }

  lemma ReadWindowOk(info: DeviceInfo, p: Pass, entry: Kernel, ps: seq<Publish>, ready: Kernel)
    requires Flow(info, entry, ps, ready) && KernelInv(info, entry) && ready.latest.Some?
    requires p.poll == Readable(ReadUpdate(ready.latest.value)) && ready.lastRead < ready.latest.value.sequence
    ensures WindowOk(info, p, ReadWindow(entry, ps, ready))
    ensures KernelInv(info, ReadLatest(ready))
  {
    PublishAllExtends(info, entry, ps);
  }

  lemma FlowOne(info: DeviceInfo, k: Kernel, p: Publish)
    requires KernelInv(info, k) && MayPublish(info, k, p)
    ensures KernelInv(info, Published(info, k, p)) && Flow(info, k, [p], Published(info, k, p))
  {
    PublishExtends(info, k, p);
    assert [p][1..] == [];
  }

  lemma FlowTwo(info: DeviceInfo, k: Kernel, p: Publish, q: Publish)
    requires KernelInv(info, k) && MayPublish(info, k, p)
    requires MayPublish(info, Published(info, k, p), q)
    ensures var k' := Published(info, k, p);
      |k'.memory| == |k.memory| && Flow(info, k, [p, q], Published(info, k', q))
  {
    FlowOne(info, k, p);
    FlowOne(info, Published(info, k, p), q);
    assert [p, q][1..] == [q];
  }

  /** The stream: WHOLE is published and read; then LEFT is published and, still unread, replaced by RIGHT. */
  lemma LossyStream() returns (ws: seq<Window>)
    ensures |ws| == 2 && KernelInv(LOSSY.info, ws[0].entry) && ws[1].entry == ws[0].exit
    ensures WindowOk(LOSSY.info, READS[0], ws[0]) && WindowOk(LOSSY.info, READS[1], ws[1])
    ensures ws[0].beforeRead == [PublishOf(WHOLE)] && ws[1].beforeRead == [PublishOf(LEFT), PublishOf(RIGHT)]
  {
    var info := LOSSY.info;
    TimesIsProduct(3, 8);
    var p, q, r := PublishOf(WHOLE), PublishOf(LEFT), PublishOf(RIGHT);
    FlowOne(info, EMPTY, p);
    var k1 := Published(info, EMPTY, p);
    ReadWindowOk(info, READS[0], EMPTY, [p], k1);
    var h1 := ReadLatest(k1);
    FlowOne(info, h1, q);
    FlowTwo(info, h1, q, r);
    var k3 := Published(info, Published(info, h1, q), r);
    ReadWindowOk(info, READS[1], h1, [q, r], k3);
    ws := [ReadWindow(EMPTY, [p], k1), ReadWindow(h1, [q, r], k3)];
  }

  lemma TwoRounds(cfg: Config, start: Startup, p: Pass, q: Pass)
    requires Started(start) && !Interrupted(p) && !Interrupted(q)
    requires !Halted(MakeRound(cfg, SplashFrame(cfg, start.stampNs), Begin(cfg, start), p).after)
    ensures var splash := SplashFrame(cfg, start.stampNs);
            var r := MakeRound(cfg, splash, Begin(cfg, start), p);
            RunOf(cfg, start, [p, q]) == [r, MakeRound(cfg, splash, r.after, q)]
  {
    var splash := SplashFrame(cfg, start.stampNs);
    var r := MakeRound(cfg, splash, Begin(cfg, start), p);
    assert [p, q][1..] == [q] && [q][1..] == [];
    assert Rounds(cfg, splash, r.after, [q]) == [MakeRound(cfg, splash, r.after, q)];
  }

  lemma LossyRun()
    ensures var rs := RunOf(LOSSY, START, READS);
      && |rs| == 2 && rs[0].pass == READS[0] && rs[1].pass == READS[1] && MonotoneClock(LOSSY, rs, 1)
      && rs[0].polled.frame.source == SOURCE_INITIAL
      && rs[0].submitted.frame == rs[1].before.frame == rs[1].polled.frame == FrameOf(LOSSY, WHOLE, SOURCE_INITIAL)
      && rs[1].submitted.frame == FrameOf(LOSSY, RIGHT, SOURCE_DRM) && FreshDone(rs[1])
  {
    assert ValidateUpdate(LOSSY.info, WHOLE, LOSSY.sizes) == 0 == ValidateUpdate(LOSSY.info, RIGHT, LOSSY.sizes);
    TwoRounds(LOSSY, START, READS[0], READS[1]);
  }

  lemma LossyPictures()
    ensures IsReading(TwoPixels)
    ensures DamageCovers(WHOLE, LEFT) && DamageCovers(LEFT, RIGHT) && !DamageCovers(WHOLE, RIGHT)
  {
    var stale: Position := (0, 0);
    assert stale in TwoPixels(FrameOf(LOSSY, WHOLE, SOURCE_DRM));
    assert stale in TwoPixels(FrameOf(LOSSY, RIGHT, SOURCE_DRM));
  }

  lemma LossyScreen()
    ensures var rs := RunOf(LOSSY, START, READS);
      |rs| == 2 && !Faithful(LOSSY, TwoPixels, SplashFrame(LOSSY, START.stampNs), rs, 1)
  {
    LossyRun();
    LossyPictures();
    ReadingIgnoresDamage(LOSSY, TwoPixels, WHOLE, SOURCE_DRM);
    ScreenFollowsFrame(LOSSY, START, READS, TwoPixels, 1);
    RoundFaithfulIff(LOSSY, START, READS, TwoPixels, 1);
  }

  /** The damage of the second update covers its difference from the first. */
  ghost predicate DamageCovers(u: Update, v: Update) {
    Covers(TwoPixels(FrameOf(LOSSY, u, SOURCE_DRM)), TwoPixels(FrameOf(LOSSY, v, SOURCE_DRM)), v.damage)
  }

  /**
   * The premise of `DamageRefinement` is about consecutive reads, not consecutive publishes, and does not follow
   * from the stream. Here a conforming producer damages every publish wherever it differs from the one before,
   * and replaces LEFT by RIGHT before it is read; the daemon reads WHOLE and then RIGHT, and a backend that trusts
   * the damage keeps a stale left pixel.
   */
  lemma ReplacedUpdateLosesDamage() returns (ws: seq<Window>)
    ensures var rs := RunOf(LOSSY, START, READS);
      && |rs| == |ws| == 2 && MonotoneClock(LOSSY, rs, START.doneNs) && Interleaved(LOSSY.info, rs, ws)
    ensures ws[0].beforeRead == [PublishOf(WHOLE)] && ws[1].beforeRead == [PublishOf(LEFT), PublishOf(RIGHT)]
    ensures IsReading(TwoPixels) && DamageCovers(WHOLE, LEFT) && DamageCovers(LEFT, RIGHT)
    ensures !Faithful(LOSSY, TwoPixels, SplashFrame(LOSSY, START.stampNs), RunOf(LOSSY, START, READS), 1)
  {
    LossyPictures();
    LossyScreen();
    ws := LossyInterleaved();
  }

  lemma LossyInterleaved() returns (ws: seq<Window>)
    ensures var rs := RunOf(LOSSY, START, READS);
      && |rs| == |ws| == 2 && MonotoneClock(LOSSY, rs, START.doneNs) && Interleaved(LOSSY.info, rs, ws)
    ensures ws[0].beforeRead == [PublishOf(WHOLE)] && ws[1].beforeRead == [PublishOf(LEFT), PublishOf(RIGHT)]
  {
    LossyRun();
    ws := LossyStream();
  }
}
