/** Several generations in a row: each a run of the dispatcher, with the stream reopened in between. */
module Sessions {
  import opened Abi
  import opened Dispatcher
  import opened Timing
  import opened NewestWins
  import opened Stream
  import opened SlotSafety

  /**
   * With rising kernel sequences the submitted application sequences never go down; a new frame's sequence
   * is strictly above that of every new frame submitted before it, so only refreshes repeat one.
   */
  lemma SubmittedSequencesRise(
      cfg: Config, start: Startup, passes: seq<Pass>, ws: seq<Window>, i: nat, j: nat, e: Event, f: Event)
    requires var rs := RunOf(cfg, start, passes);
      && Started(start) && i < j < |rs| && MonotoneClock(cfg, rs, start.doneNs) && Interleaved(cfg.info, rs, ws)
      && e in RoundEvents(cfg, rs[i]) && e.Submitted? && e.frame.source != SOURCE_INITIAL
      && f in RoundEvents(cfg, rs[j]) && f.Submitted? && f.frame.source != SOURCE_INITIAL
    ensures e.frame.sequence <= f.frame.sequence
    ensures e.kind == f.kind == Fresh ==> e.frame.sequence < f.frame.sequence
  {
    var rs := RunOf(cfg, start, passes);
    var k := SubmittedIsLatestRead(cfg, start, passes, i, e);
    var l := SubmittedIsLatestRead(cfg, start, passes, j, f);
    LatestReadsRise(cfg, rs, ws, i + 1, j + 1, k, l);
    if e.kind == f.kind == Fresh {
      SubmittedAtMostOnce(cfg, start, passes, i, j, l);
    }
  }

  lemma LatestReadsRise(cfg: Config, rs: seq<Round>, ws: seq<Window>, m: nat, n: nat, k: nat, l: nat)
    requires Interleaved(cfg.info, rs, ws) && m <= n <= |rs| && LatestRead(cfg, rs, m, k) && LatestRead(cfg, rs, n, l)
    ensures k <= l && ReadAt(cfg, rs, k).value.sequence <= ReadAt(cfg, rs, l).value.sequence
    ensures k < l ==> ReadAt(cfg, rs, k).value.sequence < ReadAt(cfg, rs, l).value.sequence
  {
    assert ReadAt(cfg, rs, k).Some?;
    if k < l {
      ReadsRise(cfg, rs, ws, k, l);
    }
  }

  /**
   * One generation. `bursts`: what is published after each reopening of the stream before it; `tail`: what is
   * published after the last round until the stream is closed.
   */
  datatype Session = Session(
    start: Startup, passes: seq<Pass>, bursts: seq<seq<Publish>>, entry: Kernel, ws: seq<Window>,
    tail: seq<Publish>, exit: Kernel)

  function RoundsOf(cfg: Config, s: Session): seq<Round> {
    RunOf(cfg, s.start, s.passes)
  }

  /** The stream after the last round. */
  function AfterRounds(s: Session): Kernel {
    if s.ws == [] then s.entry else s.ws[|s.ws| - 1].exit
  }

  ghost predicate SessionOk(cfg: Config, s: Session) {
    && Conforms(cfg.info, RoundsOf(cfg, s), s.ws)
    && (s.ws != [] ==> s.ws[0].entry == s.entry)
    && Flow(cfg.info, AfterRounds(s), s.tail, s.exit)
  }

  /** The stream from one generation to the next: publishes after every reopening. */
  ghost predicate Between(info: DeviceInfo, k: Kernel, bursts: seq<seq<Publish>>, k': Kernel)
    decreases |bursts|
  {
    if bursts == [] then k' == k
    else
      && |k.memory| == MemorySize(info) && MayPublishAll(info, Reopened(k), bursts[0])
      && Between(info, PublishAll(info, Reopened(k), bursts[0]), bursts[1..], k')
  }

  /** A daemon's generations, all on one stream that is reopened at least once before each but the first. */
  ghost predicate Life(cfg: Config, ss: seq<Session>) {
    && (ss != [] ==> KernelInv(cfg.info, ss[0].entry))
    && (forall g {:trigger SessionOk(cfg, ss[g])} :: 0 <= g < |ss| ==> SessionOk(cfg, ss[g]))
    && (forall g, h {:trigger Between(cfg.info, ss[g].exit, ss[h].bursts, ss[h].entry)} ::
          0 <= g && h == g + 1 && h < |ss| ==>
          ss[h].bursts != [] && Between(cfg.info, ss[g].exit, ss[h].bursts, ss[h].entry))
  }

  /** Reopening and publishing keep the stream sound. */
  lemma {:induction false} BetweenInv(info: DeviceInfo, k: Kernel, bursts: seq<seq<Publish>>, k': Kernel)
    requires Between(info, k, bursts, k') && KernelInv(info, k)
    ensures KernelInv(info, k')
    decreases |bursts|
  {
    if bursts != [] {
      PublishAllExtends(info, Reopened(k), bursts[0]);
      BetweenInv(info, PublishAll(info, Reopened(k), bursts[0]), bursts[1..], k');
    }
  }

  lemma RunInv(cfg: Config, rs: seq<Round>, ws: seq<Window>, i: nat)
    requires Interleaved(cfg.info, rs, ws) && i < |rs|
    ensures KernelInv(cfg.info, ws[i].exit)
  {
    LastReadRises(cfg, rs, ws, i, i);
    assert WindowOk(cfg.info, rs[i].pass, ws[i]);
    WindowLastRead(cfg, rs[i].pass, ws[i]);
  }

  /** So does a generation. */
  lemma SessionInv(cfg: Config, s: Session)
    requires SessionOk(cfg, s) && KernelInv(cfg.info, s.entry)
    ensures Interleaved(cfg.info, RoundsOf(cfg, s), s.ws) && KernelInv(cfg.info, s.exit)
  {
    if s.ws != [] {
      RunInv(cfg, RoundsOf(cfg, s), s.ws, |s.ws| - 1);
    }
    FlowKeepsLastRead(cfg.info, AfterRounds(s), s.tail, s.exit);
  }

  lemma LifeLink(cfg: Config, ss: seq<Session>, h: nat)
    requires Life(cfg, ss) && 0 < h < |ss|
    ensures SessionOk(cfg, ss[h - 1]) && SessionOk(cfg, ss[h])
    ensures Between(cfg.info, ss[h - 1].exit, ss[h].bursts, ss[h].entry)
  {
  }

  /** From a sound start, the stream is sound at the start of every generation. */
  lemma {:induction false} LifeInv(cfg: Config, ss: seq<Session>, g: nat)
    requires Life(cfg, ss) && g < |ss|
    ensures SessionOk(cfg, ss[g]) && KernelInv(cfg.info, ss[g].entry)
    decreases g
  {
    if g > 0 {
      LifeInv(cfg, ss, g - 1);
      LifeLink(cfg, ss, g);
      SessionInv(cfg, ss[g - 1]);
      BetweenInv(cfg.info, ss[g - 1].exit, ss[g].bursts, ss[g].entry);
    }
  }

  /** Every submit of round `i` is safe for its whole duration. */
  ghost predicate RoundSafe(cfg: Config, splash: seq<u8>, s: Session, i: nat)
    requires i < |RoundsOf(cfg, s)|
  {
    && i < |s.ws|
    && forall e :: e in RoundEvents(cfg, RoundsOf(cfg, s)[i]) && e.Submitted? ==>
         SafeSubmit(cfg, splash, SplashFrame(cfg, s.start.stampNs), s.ws[i], e)
  }

  /**
   * Slot safety over a daemon's whole life: started on a sound stream, every submit of every generation is safe,
   * however often the stream is lost and reopened in between. Clock readings may fail.
   */
  lemma SafeThroughLife(cfg: Config, ss: seq<Session>, splash: seq<u8>, g: nat, i: nat)
    requires Life(cfg, ss) && g < |ss| && i < |RoundsOf(cfg, ss[g])|
    ensures NoWrap(cfg.info) && FlakyClock(RoundsOf(cfg, ss[g])) ==> RoundSafe(cfg, splash, ss[g], i)
  {
    var s := ss[g];
    LifeInv(cfg, ss, g);
    SessionInv(cfg, s);
    if NoWrap(cfg.info) && FlakyClock(RoundsOf(cfg, s)) {
      SlotSafety.SlotSafety(cfg, s.start, s.passes, s.ws, splash, i);
    }
  }

  /** The latest update is at least as new as `n`. */
  ghost predicate AtLeast(info: DeviceInfo, k: Kernel, n: u64) {
    KernelInv(info, k) && k.latest.Some? && n <= k.latest.value.sequence
  }

  lemma FlowAtLeast(info: DeviceInfo, k: Kernel, ps: seq<Publish>, k': Kernel, n: u64)
    requires Flow(info, k, ps, k') && AtLeast(info, k, n)
    ensures AtLeast(info, k', n)
  {
    PublishAllExtends(info, k, ps);
  }

  lemma HeldAtLeast(cfg: Config, p: Pass, w: Window, n: u64)
    requires WindowOk(cfg.info, p, w) && AtLeast(cfg.info, w.held, n)
    ensures AtLeast(cfg.info, w.exit, n)
  {
    FlowAtLeast(cfg.info, w.held, w.beforeSubmit, w.submitting, n);
    FlowAtLeast(cfg.info, w.submitting, w.duringSubmit, w.submitted, n);
    FlowAtLeast(cfg.info, w.submitted, w.beforeRefresh, w.refreshing, n);
    FlowAtLeast(cfg.info, w.refreshing, w.duringRefresh, w.refreshed, n);
    FlowAtLeast(cfg.info, w.refreshed, w.rest, w.exit, n);
  }

  lemma WindowAtLeast(cfg: Config, p: Pass, w: Window, n: u64)
    requires WindowOk(cfg.info, p, w) && AtLeast(cfg.info, w.entry, n)
    ensures AtLeast(cfg.info, w.exit, n)
    ensures Accepted(cfg, p).Some? ==> n <= Accepted(cfg, p).value.sequence
  {
    FlowAtLeast(cfg.info, w.entry, w.beforeRead, w.ready, n);
    HeldAtLeast(cfg, p, w, n);
  }

  lemma ReadBoundsWindow(cfg: Config, p: Pass, w: Window)
    requires WindowOk(cfg.info, p, w) && KernelInv(cfg.info, w.entry) && Accepted(cfg, p).Some?
    ensures AtLeast(cfg.info, w.exit, Accepted(cfg, p).value.sequence)
  {
    PublishAllExtends(cfg.info, w.entry, w.beforeRead);
    ReadPins(cfg, p, w.ready, w.held);
    HeldAtLeast(cfg, p, w, Accepted(cfg, p).value.sequence);
  }

  lemma {:induction false} RunAtLeast(cfg: Config, rs: seq<Round>, ws: seq<Window>, i: nat, j: nat, n: u64)
    requires Conforms(cfg.info, rs, ws) && i <= j < |rs| && AtLeast(cfg.info, ws[i].exit, n)
    ensures AtLeast(cfg.info, ws[j].exit, n)
    ensures i < j && ReadAt(cfg, rs, j).Some? ==> n <= ReadAt(cfg, rs, j).value.sequence
    decreases j
  {
    if i < j {
      RunAtLeast(cfg, rs, ws, i, j - 1, n);
      assert ws[j].entry == ws[j - 1].exit && WindowOk(cfg.info, rs[j].pass, ws[j]);
      WindowAtLeast(cfg, rs[j].pass, ws[j], n);
    }
  }

  lemma {:induction false} BetweenAtLeast(info: DeviceInfo, k: Kernel, bursts: seq<seq<Publish>>, k': Kernel, n: u64)
    requires Between(info, k, bursts, k') && AtLeast(info, k, n)
    ensures AtLeast(info, k', n)
    decreases |bursts|
  {
    if bursts != [] {
      var next := PublishAll(info, Reopened(k), bursts[0]);
      FlowAtLeast(info, Reopened(k), bursts[0], next, n);
      BetweenAtLeast(info, next, bursts[1..], k', n);
    }
  }

  /** What was read in a run is a lower bound for the stream when the run ends. */
  lemma ReadBoundsRun(cfg: Config, rs: seq<Round>, ws: seq<Window>, k: nat)
    requires Interleaved(cfg.info, rs, ws) && k < |rs| && ReadAt(cfg, rs, k).Some?
    ensures AtLeast(cfg.info, ws[|rs| - 1].exit, ReadAt(cfg, rs, k).value.sequence)
  {
    LastReadRises(cfg, rs, ws, k, k);
    assert WindowOk(cfg.info, rs[k].pass, ws[k]);
    ReadBoundsWindow(cfg, rs[k].pass, ws[k]);
    RunAtLeast(cfg, rs, ws, k, |rs| - 1, ReadAt(cfg, rs, k).value.sequence);
  }

  lemma ReadBoundsExit(cfg: Config, s: Session, k: nat, n: u64)
    requires SessionOk(cfg, s) && KernelInv(cfg.info, s.entry)
    ensures ReadsSequence(cfg, s, k, n) ==> AtLeast(cfg.info, s.exit, n)
  {
    SessionInv(cfg, s);
    if ReadsSequence(cfg, s, k, n) {
      ReadBoundsRun(cfg, RoundsOf(cfg, s), s.ws, k);
      TailAtLeast(cfg, s, n);
    }
  }

  lemma TailAtLeast(cfg: Config, s: Session, n: u64)
    requires SessionOk(cfg, s) && AtLeast(cfg.info, AfterRounds(s), n)
    ensures AtLeast(cfg.info, s.exit, n)
  {
    FlowAtLeast(cfg.info, AfterRounds(s), s.tail, s.exit, n);
  }

  /** A run that starts with a bound keeps it, and reads nothing below it. */
  lemma BoundedRun(cfg: Config, rs: seq<Round>, ws: seq<Window>, l: nat, n: u64)
    requires Conforms(cfg.info, rs, ws) && l < |rs| && AtLeast(cfg.info, ws[0].entry, n)
    ensures AtLeast(cfg.info, ws[l].exit, n)
    ensures ReadAt(cfg, rs, l).Some? ==> n <= ReadAt(cfg, rs, l).value.sequence
  {
    assert WindowOk(cfg.info, rs[0].pass, ws[0]);
    WindowAtLeast(cfg, rs[0].pass, ws[0], n);
    RunAtLeast(cfg, rs, ws, 0, l, n);
  }

  lemma BoundedSession(cfg: Config, s: Session, n: u64)
    requires SessionOk(cfg, s) && AtLeast(cfg.info, s.entry, n)
    ensures AtLeast(cfg.info, s.exit, n)
  {
    if s.ws != [] {
      BoundedRun(cfg, RoundsOf(cfg, s), s.ws, |s.ws| - 1, n);
    }
    TailAtLeast(cfg, s, n);
  }

  lemma LifeStep(cfg: Config, ss: seq<Session>, h: nat, n: u64)
    requires Life(cfg, ss) && 0 < h < |ss| && AtLeast(cfg.info, ss[h - 1].exit, n)
    ensures AtLeast(cfg.info, ss[h].entry, n) && AtLeast(cfg.info, ss[h].exit, n)
  {
    LifeLink(cfg, ss, h);
    BetweenAtLeast(cfg.info, ss[h - 1].exit, ss[h].bursts, ss[h].entry, n);
    BoundedSession(cfg, ss[h], n);
  }

  /** Whatever bounds the stream at the end of the one session does so throughout the other. */
  ghost predicate Carries(info: DeviceInfo, s: Session, t: Session) {
    forall n: u64 :: AtLeast(info, s.exit, n) ==> AtLeast(info, t.entry, n) && AtLeast(info, t.exit, n)
  }

  lemma LifeCarries(cfg: Config, ss: seq<Session>, h: nat)
    requires Life(cfg, ss) && 0 < h < |ss|
    ensures Carries(cfg.info, ss[h - 1], ss[h])
  {
    forall n: u64 | AtLeast(cfg.info, ss[h - 1].exit, n)
      ensures AtLeast(cfg.info, ss[h].entry, n) && AtLeast(cfg.info, ss[h].exit, n)
    {
      LifeStep(cfg, ss, h, n);
    }
  }

  lemma {:induction false} CarriedOn(info: DeviceInfo, ss: seq<Session>, g: nat, h: nat, n: u64)
    requires g < h < |ss| && AtLeast(info, ss[g].exit, n)
    requires forall j: nat :: 0 < j < |ss| ==> Carries(info, ss[j - 1], ss[j])
    ensures AtLeast(info, ss[h].entry, n) && AtLeast(info, ss[h].exit, n)
    decreases h
  {
    if g < h - 1 {
      CarriedOn(info, ss, g, h - 1, n);
    }
    assert Carries(info, ss[h - 1], ss[h]);
  }

  lemma LifeAtLeast(cfg: Config, ss: seq<Session>, g: nat, h: nat, n: u64)
    requires Life(cfg, ss) && g < h < |ss| && AtLeast(cfg.info, ss[g].exit, n)
    ensures AtLeast(cfg.info, ss[h].entry, n)
  {
    forall j: nat | 0 < j < |ss|
      ensures Carries(cfg.info, ss[j - 1], ss[j])
    {
      LifeCarries(cfg, ss, j);
    }
    CarriedOn(cfg.info, ss, g, h, n);
  }

  /** Round `k` of a session reads the update with this sequence. */
  predicate ReadsSequence(cfg: Config, s: Session, k: nat, sequence: u64) {
    var rs := RoundsOf(cfg, s);
    k < |rs| && ReadAt(cfg, rs, k).Some? && ReadAt(cfg, rs, k).value.sequence == sequence
  }

  lemma LaterRead(cfg: Config, ss: seq<Session>, g: nat, h: nat, k: nat, l: nat, m: u64, n: u64)
    requires Life(cfg, ss) && g < h < |ss|
    ensures ReadsSequence(cfg, ss[g], k, m) && ReadsSequence(cfg, ss[h], l, n) ==> m <= n
  {
    if ReadsSequence(cfg, ss[g], k, m) && ReadsSequence(cfg, ss[h], l, n) {
      LifeInv(cfg, ss, g);
      ReadBoundsExit(cfg, ss[g], k, m);
      LifeAtLeast(cfg, ss, g, h, m);
      LifeInv(cfg, ss, h);
      BoundedRun(cfg, RoundsOf(cfg, ss[h]), ss[h].ws, l, m);
    }
  }

  lemma EarlierInSession(cfg: Config, ss: seq<Session>, g: nat, k: nat, l: nat, m: u64, n: u64)
    requires Life(cfg, ss) && g < |ss| && k < l
    ensures ReadsSequence(cfg, ss[g], k, m) && ReadsSequence(cfg, ss[g], l, n) ==> m < n
  {
    if ReadsSequence(cfg, ss[g], k, m) && ReadsSequence(cfg, ss[g], l, n) {
      LifeInv(cfg, ss, g);
      SessionInv(cfg, ss[g]);
      ReadsRise(cfg, RoundsOf(cfg, ss[g]), ss[g].ws, k, l);
    }
  }

  /**
   * Across reopenings nothing older is read again, and an update is read a second time only if it was the last
   * one read before: it is then the last read of its generation and the first of the later one.
   */
  lemma RereadNeverOlder(cfg: Config, ss: seq<Session>, g: nat, h: nat)
    requires Life(cfg, ss) && g < h < |ss|
    ensures forall k: nat, l: nat, m: u64, n: u64 ::
              ReadsSequence(cfg, ss[g], k, m) && ReadsSequence(cfg, ss[h], l, n) ==>
                && m <= n
                && (m == n ==> forall i: nat, o: u64 :: ReadsSequence(cfg, ss[g], i, o) ==> i <= k)
                && (m == n ==> forall i: nat, o: u64 :: ReadsSequence(cfg, ss[h], i, o) ==> l <= i)
  {
    forall k: nat, l: nat, m: u64, n: u64 | ReadsSequence(cfg, ss[g], k, m) && ReadsSequence(cfg, ss[h], l, n)
      ensures m <= n
      ensures m == n ==> forall i: nat, o: u64 :: ReadsSequence(cfg, ss[g], i, o) ==> i <= k
      ensures m == n ==> forall i: nat, o: u64 :: ReadsSequence(cfg, ss[h], i, o) ==> l <= i
    {
      LaterRead(cfg, ss, g, h, k, l, m, n);
      forall i: nat, o: u64 | ReadsSequence(cfg, ss[g], i, o) && k < i
        ensures m < n
      {
        LaterRead(cfg, ss, g, h, i, l, o, n);
        EarlierInSession(cfg, ss, g, k, i, m, o);
      }
      forall i: nat, o: u64 | ReadsSequence(cfg, ss[h], i, o) && i < l
        ensures m < n
      {
        LaterRead(cfg, ss, g, h, k, i, m, o);
        EarlierInSession(cfg, ss, h, i, l, o, n);
      }
    }
  }

  /** Round `i` of a session hands this application frame to the backend, as a new frame or as a refresh. */
  predicate Shows(cfg: Config, s: Session, i: nat, e: Event) {
    var rs := RoundsOf(cfg, s);
    i < |rs| && e in RoundEvents(cfg, rs[i]) && e.Submitted? && e.frame.source != SOURCE_INITIAL
  }

  lemma RanStarted(cfg: Config, start: Startup, passes: seq<Pass>)
    ensures RunOf(cfg, start, passes) != [] ==> Started(start)
  {
  }

  lemma ShowsRead(cfg: Config, s: Session, i: nat, e: Event) returns (k: nat)
    requires MonotoneClock(cfg, RoundsOf(cfg, s), s.start.doneNs) && Shows(cfg, s, i, e)
    ensures ReadsSequence(cfg, s, k, e.frame.sequence)
  {
    RanStarted(cfg, s.start, s.passes);
    k := SubmittedIsLatestRead(cfg, s.start, s.passes, i, e);
  }

  /**
   * Newest wins over a daemon's whole life: from the first generation to the last, through any number of lost
   * transports, the sequence of the application frames submitted never goes down.
   */
  lemma LifeSequencesRise(cfg: Config, ss: seq<Session>, g: nat, h: nat)
    requires Life(cfg, ss) && g <= h < |ss|
    requires MonotoneClock(cfg, RoundsOf(cfg, ss[g]), ss[g].start.doneNs)
    requires MonotoneClock(cfg, RoundsOf(cfg, ss[h]), ss[h].start.doneNs)
    ensures forall i: nat, j: nat, e: Event, f: Event ::
              Shows(cfg, ss[g], i, e) && Shows(cfg, ss[h], j, f) && (g == h ==> i < j) ==>
                e.frame.sequence <= f.frame.sequence
  {
    var s, t := ss[g], ss[h];
    forall i: nat, j: nat, e: Event, f: Event | Shows(cfg, s, i, e) && Shows(cfg, t, j, f) && (g == h ==> i < j)
      ensures e.frame.sequence <= f.frame.sequence
    {
      if g == h {
        LifeInv(cfg, ss, g);
        SessionInv(cfg, s);
        RanStarted(cfg, s.start, s.passes);
        SubmittedSequencesRise(cfg, s.start, s.passes, s.ws, i, j, e, f);
      } else {
        var k := ShowsRead(cfg, s, i, e);
        var l := ShowsRead(cfg, t, j, f);
        LaterRead(cfg, ss, g, h, k, l, e.frame.sequence, f.frame.sequence);
      }
    }
  }
}
