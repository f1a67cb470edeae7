/** The dispatcher against a producer that keeps publishing: every submit sees one coherent snapshot. */
module SlotSafety {
  import opened Abi
  import opened Dispatcher
  import opened Timing
  import opened NewestWins
  import opened Stream
  import opened Bytes

  /** The stream's states during one round, and the publishes that fall between (and during) its steps. */
  datatype Window = Window(
    entry: Kernel, beforeRead: seq<Publish>, ready: Kernel, held: Kernel,
    beforeSubmit: seq<Publish>, submitting: Kernel, duringSubmit: seq<Publish>, submitted: Kernel,
    beforeRefresh: seq<Publish>, refreshing: Kernel, duringRefresh: seq<Publish>, refreshed: Kernel,
    rest: seq<Publish>, exit: Kernel)

  ghost predicate Flow(info: DeviceInfo, k: Kernel, ps: seq<Publish>, k': Kernel) {
    && |k.memory| == MemorySize(info)
    && MayPublishAll(info, k, ps)
    && k' == PublishAll(info, k, ps)
  }

  /** A read that succeeds hands out the latest update, newer than the last one read, and takes the hold. */
  ghost predicate ReadStep(p: Pass, k: Kernel, k': Kernel) {
    match p.poll
    case Readable(ReadUpdate(u)) => k.latest == Some(u) && k.lastRead < u.sequence && k' == ReadLatest(k)
    case _ => k' == k
  }

  ghost predicate WindowOk(info: DeviceInfo, p: Pass, w: Window) {
    && Flow(info, w.entry, w.beforeRead, w.ready)
    && ReadStep(p, w.ready, w.held)
    && Flow(info, w.held, w.beforeSubmit, w.submitting)
    && Flow(info, w.submitting, w.duringSubmit, w.submitted)
    && Flow(info, w.submitted, w.beforeRefresh, w.refreshing)
    && Flow(info, w.refreshing, w.duringRefresh, w.refreshed)
    && Flow(info, w.refreshed, w.rest, w.exit)
  }

  /** Each round has its window, and the stream is in between as the producer left it. */
  ghost predicate Conforms(info: DeviceInfo, rs: seq<Round>, ws: seq<Window>) {
    && |ws| == |rs|
    && (forall i {:trigger WindowOk(info, rs[i].pass, ws[i])} ::
          0 <= i < |rs| ==> WindowOk(info, rs[i].pass, ws[i]))
    && (forall i, j :: 0 <= i && j == i + 1 && j < |rs| ==> ws[j].entry == ws[i].exit)
  }

  /** A run of the dispatcher interleaved with a conforming producer, from a sound state of the stream. */
  ghost predicate Interleaved(info: DeviceInfo, rs: seq<Round>, ws: seq<Window>) {
    Conforms(info, rs, ws) && (rs != [] ==> KernelInv(info, ws[0].entry))
  }

  /** The bytes a backend finds behind a frame, and the ones it is meant to find. */
  function Visible(splash: seq<u8>, memory: seq<u8>, f: Frame): seq<u8>
    requires f.pixels.MappedPixels? ==> f.pixels.offset + f.bytes <= |memory|
  {
    match f.pixels
    case SplashPixels => splash
    case MappedPixels(offset) => memory[offset..offset + f.bytes]
  }

  /** The frame lies in the held slot, which still holds what was published under the frame's sequence. */
  ghost predicate FramePinned(info: DeviceInfo, k: Kernel, f: Frame) {
    && KernelInv(info, k) && k.held.Some?
    && f.pixels == MappedPixels(SlotStart(info, k.held.value))
    && f.bytes <= info.slotBytes
    && Holds(info, k, k.held.value, f.sequence)
  }

  ghost predicate UpdatePinned(cfg: Config, k: Kernel, u: Update) {
    && KernelInv(cfg.info, k) && k.held == Some(u.slot)
    && ValidateUpdate(cfg.info, u, cfg.sizes) == 0
    && Holds(cfg.info, k, u.slot, u.sequence)
  }

  /** The backend sees the splash, or the leading bytes of what was published under the frame's sequence. */
  ghost predicate SeesSnapshot(splash: seq<u8>, snapshots: map<u64, seq<u8>>, memory: seq<u8>, f: Frame) {
    match f.pixels
    case SplashPixels => Visible(splash, memory, f) == splash
    case MappedPixels(offset) =>
      && offset + f.bytes <= |memory|
      && f.sequence in snapshots && f.bytes <= |snapshots[f.sequence]|
      && Visible(splash, memory, f) == snapshots[f.sequence][..f.bytes]
  }

  lemma PinnedIsCoherent(info: DeviceInfo, splash: seq<u8>, k: Kernel, f: Frame)
    requires FramePinned(info, k, f)
    ensures SeesSnapshot(splash, k.snapshots, k.memory, f)
  {
    var slot := k.held.value;
    SlotInMemory(info, slot);
    var at := SlotStart(info, slot);
    assert k.memory[at..at + f.bytes] == SlotOf(info, k.memory, slot)[..f.bytes];
  }

  lemma FlowKeepsPins(cfg: Config, k: Kernel, ps: seq<Publish>, k': Kernel, f: Frame, u: Update)
    requires Flow(cfg.info, k, ps, k') && KernelInv(cfg.info, k)
    ensures KernelInv(cfg.info, k')
    ensures FramePinned(cfg.info, k, f) ==> FramePinned(cfg.info, k', f)
    ensures UpdatePinned(cfg, k, u) ==> UpdatePinned(cfg, k', u)
    ensures forall n :: n in k.snapshots ==> n in k'.snapshots && k'.snapshots[n] == k.snapshots[n]
  {
    PublishAllExtends(cfg.info, k, ps);
  }

  /** What is pinned at some point of a window stays pinned until its end. */
  lemma WindowKeepsPins(cfg: Config, p: Pass, w: Window, f: Frame, u: Update)
    requires WindowOk(cfg.info, p, w) && KernelInv(cfg.info, w.held)
    ensures KernelInv(cfg.info, w.submitting) && KernelInv(cfg.info, w.refreshing) && KernelInv(cfg.info, w.exit)
    ensures UpdatePinned(cfg, w.held, u) ==> UpdatePinned(cfg, w.submitting, u) && UpdatePinned(cfg, w.exit, u)
    ensures FramePinned(cfg.info, w.held, f) ==> FramePinned(cfg.info, w.submitting, f)
    ensures FramePinned(cfg.info, w.submitting, f) ==>
              FramePinned(cfg.info, w.refreshing, f) && FramePinned(cfg.info, w.exit, f)
  {
    FlowKeepsPins(cfg, w.held, w.beforeSubmit, w.submitting, f, u);
    FlowKeepsPins(cfg, w.submitting, w.duringSubmit, w.submitted, f, u);
    FlowKeepsPins(cfg, w.submitted, w.beforeRefresh, w.refreshing, f, u);
    FlowKeepsPins(cfg, w.refreshing, w.duringRefresh, w.refreshed, f, u);
    FlowKeepsPins(cfg, w.refreshed, w.rest, w.exit, f, u);
  }

  lemma SmallModulo(x: nat, m: nat)
    requires x < m
    ensures x % m == x
  {
  }

  /** A validated update's frame starts at its slot and ends within it: nothing wraps. */
  lemma FrameInSlot(cfg: Config, u: Update, previousSource: u32)
    requires ValidateUpdate(cfg.info, u, cfg.sizes) == 0 && NoWrap(cfg.info)
    ensures var f := FrameOf(cfg, u, previousSource);
      && f.pixels == MappedPixels(SlotStart(cfg.info, u.slot))
      && f.bytes == u.stride * u.height <= cfg.info.slotBytes
  {
    ValidateUpdateExact(cfg.info, u, cfg.sizes);
    SlotsInOrder(u.slot, cfg.info.slotCount, cfg.info.slotBytes);
    TimesIsProduct(u.slot, cfg.info.slotBytes);
    SmallModulo(u.slot * cfg.info.slotBytes, cfg.sizes);
    SmallModulo(u.stride * u.height, cfg.sizes);
  }

  lemma UpdateFramePinned(cfg: Config, k: Kernel, u: Update, previousSource: u32)
    requires UpdatePinned(cfg, k, u)
    ensures NoWrap(cfg.info) ==> FramePinned(cfg.info, k, FrameOf(cfg, u, previousSource))
  {
    if NoWrap(cfg.info) {
      FrameInSlot(cfg, u, previousSource);
    }
  }

  /** At every instant of a burst of publishes (a prefix of it) the frame stays coherent. */
  lemma CoherentThroughout(cfg: Config, splash: seq<u8>, k: Kernel, ps: seq<Publish>, f: Frame, n: nat)
    requires KernelInv(cfg.info, k) && MayPublishAll(cfg.info, k, ps) && n <= |ps|
    requires f.pixels.SplashPixels? || FramePinned(cfg.info, k, f)
    ensures MayPublishAll(cfg.info, k, ps[..n])
    ensures SeesSnapshot(splash, k.snapshots, PublishAll(cfg.info, k, ps[..n]).memory, f)
  {
    PrefixAllowed(cfg.info, k, ps, n);
    var k' := PublishAll(cfg.info, k, ps[..n]);
    FlowKeepsPins(cfg, k, ps[..n], k', f, NO_UPDATE);
    if f.pixels.MappedPixels? {
      PinnedIsCoherent(cfg.info, splash, k', f);
    }
  }

  /** What holds between the loop and the stream at the start of a round. */
  ghost predicate InStep(cfg: Config, splash: Frame, s: State, k: Kernel) {
    && KernelInv(cfg.info, k)
    && Sane(splash, s)
    && (s.updatePending ==> UpdatePinned(cfg, k, s.pending))
    && (s.frame != splash && !s.updatePending ==> FramePinned(cfg.info, k, s.frame))
  }

  lemma ReadPins(cfg: Config, p: Pass, k: Kernel, k': Kernel)
    requires KernelInv(cfg.info, k) && ReadStep(p, k, k')
    ensures KernelInv(cfg.info, k')
    ensures Accepted(cfg, p).Some? ==> UpdatePinned(cfg, k', Accepted(cfg, p).value)
    ensures Accepted(cfg, p).None? && PollResult(cfg, p) == 0 ==> k' == k
    ensures k'.snapshots == k.snapshots
  {
  }

  /** The poll stage leaves the pending update, or else the frame on show, pinned to the slot now held. */
  lemma PollInStep(cfg: Config, splash: Frame, s: State, p: Pass, w: Window)
    requires !Halted(s) && InStep(cfg, splash, s, w.entry) && WindowOk(cfg.info, p, w)
    ensures var polled := Polled(cfg, splash, s, p);
      && KernelInv(cfg.info, w.held)
      && (polled.result == 0 && polled.updatePending ==> UpdatePinned(cfg, w.held, polled.pending))
      && (polled.result == 0 && polled.frame != splash && !polled.updatePending ==>
            FramePinned(cfg.info, w.held, polled.frame))
  {
    FlowKeepsPins(cfg, w.entry, w.beforeRead, w.ready, s.frame, s.pending);
    ReadPins(cfg, p, w.ready, w.held);
  }

  /** The submit stage: what it hands over is pinned, and so is whatever it leaves behind. */
  lemma SubmitInStep(cfg: Config, splash: Frame, s: State, p: Pass, w: Window)
    requires NoWrap(cfg.info) && WindowOk(cfg.info, p, w) && KernelInv(cfg.info, w.held)
    requires s.result == 0 && s.updatePending ==> UpdatePinned(cfg, w.held, s.pending)
    requires s.result == 0 && s.frame != splash && !s.updatePending ==> FramePinned(cfg.info, w.held, s.frame)
    ensures var submitted := AfterFresh(cfg, s, p);
      && KernelInv(cfg.info, w.submitting) && KernelInv(cfg.info, w.refreshing) && KernelInv(cfg.info, w.exit)
      && (SubmitsFresh(s, p) ==> FramePinned(cfg.info, w.submitting, FrameOf(cfg, s.pending, s.frame.source)))
      && (submitted.result == 0 && submitted.frame != splash && !submitted.updatePending ==>
            FramePinned(cfg.info, w.refreshing, submitted.frame) && FramePinned(cfg.info, w.exit, submitted.frame))
      && (submitted.result == 0 && submitted.updatePending ==> UpdatePinned(cfg, w.exit, submitted.pending))
  {
    var f := if SubmitsFresh(s, p) then FrameOf(cfg, s.pending, s.frame.source) else s.frame;
    WindowKeepsPins(cfg, p, w, f, s.pending);
    if SubmitsFresh(s, p) {
      UpdateFramePinned(cfg, w.submitting, s.pending, s.frame.source);
    }
  }

  /** The stages after the poll, on a state the poll left pinned. */
  lemma StagesInStep(cfg: Config, splash: Frame, polled: State, p: Pass, w: Window)
    requires NoWrap(cfg.info) && WindowOk(cfg.info, p, w) && KernelInv(cfg.info, w.held)
    requires polled.result == 0 && polled.updatePending ==> UpdatePinned(cfg, w.held, polled.pending)
    requires polled.result == 0 && polled.frame != splash && !polled.updatePending ==>
               FramePinned(cfg.info, w.held, polled.frame)
    ensures var submitted := AfterFresh(cfg, polled, p);
            var after := AfterTick(cfg, AfterRefresh(cfg, submitted, p), p);
      && KernelInv(cfg.info, w.submitting) && KernelInv(cfg.info, w.refreshing) && KernelInv(cfg.info, w.exit)
      && (SubmitsFresh(polled, p) ==>
            FramePinned(cfg.info, w.submitting, FrameOf(cfg, polled.pending, polled.frame.source)))
      && (submitted.result == 0 && submitted.frame != splash && !submitted.updatePending ==>
            FramePinned(cfg.info, w.refreshing, submitted.frame))
      && (after.result == 0 ==>
            && (after.updatePending ==> UpdatePinned(cfg, w.exit, after.pending))
            && (after.frame != splash && !after.updatePending ==> FramePinned(cfg.info, w.exit, after.frame)))
  {
    SubmitInStep(cfg, splash, polled, p, w);
    LaterStagesKeep(cfg, AfterFresh(cfg, polled, p), p);
  }

  /** Refresh and tick leave the frame and the pending update alone. */
  lemma LaterStagesKeep(cfg: Config, s: State, p: Pass)
    ensures var after := AfterTick(cfg, AfterRefresh(cfg, s, p), p);
      && after.frame == s.frame && after.pending == s.pending && after.updatePending == s.updatePending
      && (after.result == 0 ==> s.result == 0)
  {
  }

  /** One round in step with the stream: what it submits is pinned when submitted, and it ends in step. */
  lemma RoundInStep(cfg: Config, splash: Frame, s: State, p: Pass, w: Window)
    requires NoWrap(cfg.info) && !Halted(s) && splash.source == SOURCE_INITIAL
    requires InStep(cfg, splash, s, w.entry) && WindowOk(cfg.info, p, w)
    ensures var r := MakeRound(cfg, splash, s, p);
      && KernelInv(cfg.info, w.submitting) && KernelInv(cfg.info, w.refreshing) && KernelInv(cfg.info, w.exit)
      && (SubmitsFresh(r.polled, p) ==>
            FramePinned(cfg.info, w.submitting, FrameOf(cfg, r.polled.pending, r.polled.frame.source)))
      && (r.submitted.result == 0 && r.submitted.frame != splash && !r.submitted.updatePending ==>
            FramePinned(cfg.info, w.refreshing, r.submitted.frame))
      && (!Halted(r.after) ==> InStep(cfg, splash, r.after, w.exit))
  {
    SaneRound(cfg, splash, s, p);
    PollInStep(cfg, splash, s, p, w);
    StagesInStep(cfg, splash, Polled(cfg, splash, s, p), p, w);
  }

  lemma {:induction false} RunInStep(cfg: Config, start: Startup, passes: seq<Pass>, ws: seq<Window>, i: nat)
    requires var rs := RunOf(cfg, start, passes);
             i < |rs| && NoWrap(cfg.info) && Interleaved(cfg.info, rs, ws)
    ensures InStep(cfg, SplashFrame(cfg, start.stampNs), RunOf(cfg, start, passes)[i].before, ws[i].entry)
    decreases i
  {
    var rs := RunOf(cfg, start, passes);
    Linked(cfg, start, passes, i);
    if i > 0 {
      RunInStep(cfg, start, passes, ws, i - 1);
      SaneThroughout(cfg, start, passes, i - 1);
      assert WindowOk(cfg.info, rs[i - 1].pass, ws[i - 1]);
      RoundInStep(cfg, SplashFrame(cfg, start.stampNs), rs[i - 1].before, rs[i - 1].pass, ws[i - 1]);
      assert ws[i].entry == ws[i - 1].exit;
    }
  }

  /** The stream when a submit of a round starts, and what is published while the backend reads. */
  function SubmitStart(w: Window, kind: Kind): Kernel {
    if kind == Fresh then w.submitting else w.refreshing
  }

  function DuringSubmit(w: Window, kind: Kind): seq<Publish> {
    if kind == Fresh then w.duringSubmit else w.duringRefresh
  }

  /**
   * At every instant of the submit (after any prefix of the publishes that happen meanwhile) the backend
   * finds the splash, or exactly the bytes published under the frame's sequence number.
   */
  ghost predicate SafeSubmit(cfg: Config, splash: seq<u8>, splashFrame: Frame, w: Window, e: Event)
    requires e.Submitted?
  {
    var k, ps := SubmitStart(w, e.kind), DuringSubmit(w, e.kind);
    && |k.memory| == MemorySize(cfg.info)
    && (e.frame == splashFrame || e.frame.pixels.MappedPixels?)
    && forall n: nat :: n <= |ps| ==>
         MayPublishAll(cfg.info, k, ps[..n])
         && SeesSnapshot(splash, k.snapshots, PublishAll(cfg.info, k, ps[..n]).memory, e.frame)
  }

  lemma PinnedIsSafe(cfg: Config, splash: seq<u8>, splashFrame: Frame, w: Window, e: Event)
    requires e.Submitted? && splashFrame.pixels.SplashPixels?
    requires var k := SubmitStart(w, e.kind);
      && KernelInv(cfg.info, k) && MayPublishAll(cfg.info, k, DuringSubmit(w, e.kind))
      && (e.frame == splashFrame || (FramePinned(cfg.info, k, e.frame) && e.frame.pixels.MappedPixels?))
    ensures SafeSubmit(cfg, splash, splashFrame, w, e)
  {
    var k, ps := SubmitStart(w, e.kind), DuringSubmit(w, e.kind);
    forall n: nat | n <= |ps|
      ensures MayPublishAll(cfg.info, k, ps[..n])
      ensures SeesSnapshot(splash, k.snapshots, PublishAll(cfg.info, k, ps[..n]).memory, e.frame)
    {
      CoherentThroughout(cfg, splash, k, ps, e.frame, n);
    }
  }

  /**
   * Slot safety. Over every run, interleaved with any conforming producer, every submit (a new frame or a
   * refresh) is safe for its whole duration. Clock readings may fail.
   */
  lemma SlotSafety(cfg: Config, start: Startup, passes: seq<Pass>, ws: seq<Window>, splash: seq<u8>, i: nat)
    requires var rs := RunOf(cfg, start, passes);
             i < |rs| && NoWrap(cfg.info) && FlakyClock(rs) && Interleaved(cfg.info, rs, ws)
    ensures forall e :: e in RoundEvents(cfg, RunOf(cfg, start, passes)[i]) && e.Submitted? ==>
              SafeSubmit(cfg, splash, SplashFrame(cfg, start.stampNs), ws[i], e)
  {
    var rs := RunOf(cfg, start, passes);
    var r := rs[i];
    var splashFrame := SplashFrame(cfg, start.stampNs);
    RunInStep(cfg, start, passes, ws, i);
    SaneThroughout(cfg, start, passes, i);
    RefreshOnlyHeld(cfg, start, passes, i);
    assert WindowOk(cfg.info, r.pass, ws[i]);
    RoundInStep(cfg, splashFrame, r.before, r.pass, ws[i]);
    forall e | e in RoundEvents(cfg, r) && e.Submitted?
      ensures SafeSubmit(cfg, splash, splashFrame, ws[i], e)
    {
      SubmittedEvent(cfg, r, e);
      PinnedIsSafe(cfg, splash, splashFrame, ws[i], e);
    }
  }

  lemma FlowKeepsLastRead(info: DeviceInfo, k: Kernel, ps: seq<Publish>, k': Kernel)
    requires Flow(info, k, ps, k') && KernelInv(info, k)
    ensures KernelInv(info, k') && k'.lastRead == k.lastRead
  {
    PublishAllExtends(info, k, ps);
  }

  lemma WindowLastRead(cfg: Config, p: Pass, w: Window)
    requires KernelInv(cfg.info, w.entry) && WindowOk(cfg.info, p, w)
    ensures KernelInv(cfg.info, w.exit) && w.exit.lastRead == w.held.lastRead >= w.entry.lastRead
    ensures Accepted(cfg, p).Some? ==> w.entry.lastRead < Accepted(cfg, p).value.sequence == w.exit.lastRead
  {
    FlowKeepsLastRead(cfg.info, w.entry, w.beforeRead, w.ready);
    ReadPins(cfg, p, w.ready, w.held);
    FlowKeepsLastRead(cfg.info, w.held, w.beforeSubmit, w.submitting);
    FlowKeepsLastRead(cfg.info, w.submitting, w.duringSubmit, w.submitted);
    FlowKeepsLastRead(cfg.info, w.submitted, w.beforeRefresh, w.refreshing);
    FlowKeepsLastRead(cfg.info, w.refreshing, w.duringRefresh, w.refreshed);
    FlowKeepsLastRead(cfg.info, w.refreshed, w.rest, w.exit);
  }

  lemma {:induction false} LastReadRises(cfg: Config, rs: seq<Round>, ws: seq<Window>, i: nat, j: nat)
    requires Interleaved(cfg.info, rs, ws) && i <= j < |rs|
    ensures KernelInv(cfg.info, ws[j].entry) && ws[i].entry.lastRead <= ws[j].entry.lastRead
    ensures i < j ==> ws[i].exit.lastRead <= ws[j].entry.lastRead
    decreases j
  {
    if j > 0 {
      LastReadRises(cfg, rs, ws, if i < j then i else j - 1, j - 1);
      assert WindowOk(cfg.info, rs[j - 1].pass, ws[j - 1]);
      WindowLastRead(cfg, rs[j - 1].pass, ws[j - 1]);
      assert ws[j].entry == ws[j - 1].exit;
      if i < j {
        assert WindowOk(cfg.info, rs[i].pass, ws[i]);
      }
    }
  }

  /** Reads come with rising sequences. */
  lemma ReadsRise(cfg: Config, rs: seq<Round>, ws: seq<Window>, i: nat, j: nat)
    requires Interleaved(cfg.info, rs, ws) && i < j < |rs|
    requires ReadAt(cfg, rs, i).Some? && ReadAt(cfg, rs, j).Some?
    ensures ReadAt(cfg, rs, i).value.sequence < ReadAt(cfg, rs, j).value.sequence
  {
    LastReadRises(cfg, rs, ws, i, i);
    LastReadRises(cfg, rs, ws, i, j);
    assert WindowOk(cfg.info, rs[i].pass, ws[i]) && WindowOk(cfg.info, rs[j].pass, ws[j]);
    WindowLastRead(cfg, rs[i].pass, ws[i]);
    WindowLastRead(cfg, rs[j].pass, ws[j]);
  }
}
