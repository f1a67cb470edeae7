/** When the stream itself makes damage rectangles enough. */
module StreamDamage {
  import opened Abi
  import opened Dispatcher
  import opened Timing
  import opened NewestWins
  import opened Damage
  import opened Stream
  import opened SlotSafety

  /** The second update is damaged wherever it differs from the first, if both show an application. */
  ghost predicate Declares(cfg: Config, pic: Frame -> Picture, u: Update, v: Update) {
    u.source != SOURCE_INITIAL && v.source != SOURCE_INITIAL ==>
      Covers(pic(FrameOf(cfg, u, SOURCE_INITIAL)), pic(FrameOf(cfg, v, SOURCE_INITIAL)), v.damage)
  }

  /** The latest update has been read. */
  predicate CaughtUp(k: Kernel) {
    k.latest.Some? ==> k.lastRead == k.latest.value.sequence
  }

  /** Every publish is damaged relative to the one before, and none replaces an unread update. */
  ghost predicate Patient(cfg: Config, pic: Frame -> Picture, k: Kernel, ps: seq<Publish>)
    requires |k.memory| == MemorySize(cfg.info) && MayPublishAll(cfg.info, k, ps)
    decreases |ps|
  {
    ps != [] ==>
      && CaughtUp(k)
      && (k.latest.Some? ==> Declares(cfg, pic, k.latest.value, ps[0].update))
      && Patient(cfg, pic, Published(cfg.info, k, ps[0]), ps[1..])
  }

  ghost predicate PatientWindow(cfg: Config, pic: Frame -> Picture, p: Pass, w: Window)
    requires WindowOk(cfg.info, p, w)
  {
    && Patient(cfg, pic, w.entry, w.beforeRead)
    && Patient(cfg, pic, w.held, w.beforeSubmit)
    && Patient(cfg, pic, w.submitting, w.duringSubmit)
    && Patient(cfg, pic, w.submitted, w.beforeRefresh)
    && Patient(cfg, pic, w.refreshing, w.duringRefresh)
    && Patient(cfg, pic, w.refreshed, w.rest)
  }

  ghost predicate PatientStream(cfg: Config, pic: Frame -> Picture, rs: seq<Round>, ws: seq<Window>)
    requires Interleaved(cfg.info, rs, ws)
  {
    forall i :: 0 <= i < |rs| ==> WindowOk(cfg.info, rs[i].pass, ws[i]) && PatientWindow(cfg, pic, rs[i].pass, ws[i])
  }

  /** `u` was read last: it is still the latest update, or the latest declares its difference from it. */
  ghost predicate Follows(cfg: Config, pic: Frame -> Picture, k: Kernel, u: Update) {
    && KernelInv(cfg.info, k) && k.latest.Some? && k.lastRead == u.sequence
    && (k.latest.value == u
        || (u.sequence < k.latest.value.sequence && Declares(cfg, pic, u, k.latest.value)))
  }

  lemma BurstFollows(cfg: Config, pic: Frame -> Picture, k: Kernel, ps: seq<Publish>, k': Kernel, u: Update)
    requires Flow(cfg.info, k, ps, k') && Follows(cfg, pic, k, u) && Patient(cfg, pic, k, ps)
    ensures Follows(cfg, pic, k', u)
  {
    PublishAllExtends(cfg.info, k, ps);
    if ps != [] {
      var next := Published(cfg.info, k, ps[0]);
      PublishExtends(cfg.info, k, ps[0]);
      assert k.latest.value == u;
      assert !CaughtUp(next);
      assert ps[1..] == [];
      assert k' == next;
    }
  }

  /** From the read to the end of a window. */
  lemma HeldFollows(cfg: Config, pic: Frame -> Picture, p: Pass, w: Window, u: Update)
    requires WindowOk(cfg.info, p, w) && PatientWindow(cfg, pic, p, w) && Follows(cfg, pic, w.held, u)
    ensures Follows(cfg, pic, w.exit, u)
  {
    BurstFollows(cfg, pic, w.held, w.beforeSubmit, w.submitting, u);
    BurstFollows(cfg, pic, w.submitting, w.duringSubmit, w.submitted, u);
    BurstFollows(cfg, pic, w.submitted, w.beforeRefresh, w.refreshing, u);
    BurstFollows(cfg, pic, w.refreshing, w.duringRefresh, w.refreshed, u);
    BurstFollows(cfg, pic, w.refreshed, w.rest, w.exit, u);
  }

  /** A window after `u` was read: what it reads declares its difference from `u`. */
  lemma WindowFollows(cfg: Config, pic: Frame -> Picture, p: Pass, w: Window, u: Update)
    requires WindowOk(cfg.info, p, w) && PatientWindow(cfg, pic, p, w) && Follows(cfg, pic, w.entry, u)
    ensures Accepted(cfg, p).Some? ==> Declares(cfg, pic, u, Accepted(cfg, p).value)
    ensures Accepted(cfg, p).None? && PollResult(cfg, p) == 0 ==> Follows(cfg, pic, w.exit, u)
  {
    BurstFollows(cfg, pic, w.entry, w.beforeRead, w.ready, u);
    ReadPins(cfg, p, w.ready, w.held);
    if Accepted(cfg, p).None? && PollResult(cfg, p) == 0 {
      HeldFollows(cfg, pic, p, w, u);
    }
  }

  lemma ReadFollows(cfg: Config, pic: Frame -> Picture, p: Pass, w: Window)
    requires WindowOk(cfg.info, p, w) && PatientWindow(cfg, pic, p, w)
    requires KernelInv(cfg.info, w.entry) && Accepted(cfg, p).Some?
    ensures Follows(cfg, pic, w.exit, Accepted(cfg, p).value)
  {
    PublishAllExtends(cfg.info, w.entry, w.beforeRead);
    ReadPins(cfg, p, w.ready, w.held);
    HeldFollows(cfg, pic, p, w, Accepted(cfg, p).value);
  }

  lemma PollWentWell(cfg: Config, splash: Frame, s: State, p: Pass)
    requires !Halted(s) && !Halted(MakeRound(cfg, splash, s, p).after)
    ensures PollResult(cfg, p) == 0
  {
  }

  /** In every round but the last the poll stage went well. */
  lemma RoundWentOn(cfg: Config, start: Startup, passes: seq<Pass>, i: nat)
    requires i + 1 < |RunOf(cfg, start, passes)|
    ensures PollResult(cfg, RunOf(cfg, start, passes)[i].pass) == 0
  {
    var rs := RunOf(cfg, start, passes);
    Linked(cfg, start, passes, i);
    Linked(cfg, start, passes, i + 1);
    SaneThroughout(cfg, start, passes, i);
    SaneThroughout(cfg, start, passes, i + 1);
    PollWentWell(cfg, SplashFrame(cfg, start.stampNs), rs[i].before, rs[i].pass);
  }

  /** As long as nothing else is read, the stream follows the last read. */
  lemma {:induction false} RunFollows(
      cfg: Config, pic: Frame -> Picture, rs: seq<Round>, ws: seq<Window>, k: nat, l: nat)
    requires Interleaved(cfg.info, rs, ws) && PatientStream(cfg, pic, rs, ws)
    requires l < |rs| && LatestRead(cfg, rs, l, k) && forall i: nat :: i < l ==> PollResult(cfg, rs[i].pass) == 0
    ensures Follows(cfg, pic, ws[l].entry, ReadAt(cfg, rs, k).value)
    decreases l
  {
    var q := l - 1;
    assert WindowOk(cfg.info, rs[q].pass, ws[q]) && PatientWindow(cfg, pic, rs[q].pass, ws[q]);
    assert ws[l].entry == ws[q].exit;
    LastReadRises(cfg, rs, ws, q, q);
    if k == q {
      ReadFollows(cfg, pic, rs[q].pass, ws[q]);
    } else {
      RunFollows(cfg, pic, rs, ws, k, q);
      assert ReadAt(cfg, rs, q).None?;
      WindowFollows(cfg, pic, rs[q].pass, ws[q], ReadAt(cfg, rs, k).value);
    }
  }

  /** On a patient stream each read is damaged wherever it differs from the read before. */
  lemma PatientReadsCovered(
      cfg: Config, start: Startup, passes: seq<Pass>, pic: Frame -> Picture, ws: seq<Window>)
    requires var rs := RunOf(cfg, start, passes);
      Interleaved(cfg.info, rs, ws) && PatientStream(cfg, pic, rs, ws)
    ensures ReadsCovered(cfg, pic, RunOf(cfg, start, passes))
  {
    var rs := RunOf(cfg, start, passes);
    forall k: nat, l: nat | l < |rs| && LatestRead(cfg, rs, l, k)
                            && IsApplication(ReadAt(cfg, rs, k)) && IsApplication(ReadAt(cfg, rs, l))
      ensures Declares(cfg, pic, ReadAt(cfg, rs, k).value, ReadAt(cfg, rs, l).value)
    {
      forall i: nat | i < l
        ensures PollResult(cfg, rs[i].pass) == 0
      {
        RoundWentOn(cfg, start, passes, i);
      }
      RunFollows(cfg, pic, rs, ws, k, l);
      assert WindowOk(cfg.info, rs[l].pass, ws[l]) && PatientWindow(cfg, pic, rs[l].pass, ws[l]);
      WindowFollows(cfg, pic, rs[l].pass, ws[l], ReadAt(cfg, rs, k).value);
    }
  }

  /**
   * Damage refinement from the stream: if every publish is damaged wherever it differs from the publish before it,
   * and none replaces an unread update, a backend that repaints only the damage shows the full submitted frame
   * after every successful submit. (`ReplacedUpdateLosesDamage` breaks the second premise alone.)
   */
  lemma PatientStreamFaithful(
      cfg: Config, start: Startup, passes: seq<Pass>, pic: Frame -> Picture, ws: seq<Window>, i: nat)
    requires var rs := RunOf(cfg, start, passes);
      && Interleaved(cfg.info, rs, ws) && PatientStream(cfg, pic, rs, ws)
      && Started(start) && i < |rs| && MonotoneClock(cfg, rs, start.doneNs) && IsReading(pic)
    ensures Faithful(cfg, pic, SplashFrame(cfg, start.stampNs), RunOf(cfg, start, passes), i)
  {
    PatientReadsCovered(cfg, start, passes, pic, ws);
    DamageRefinement(cfg, start, passes, pic, i);
  }
}
