/** Which updates reach the backend: a declarative account of the coalescing in `run_loop`. */
module NewestWins {
  import opened Abi
  import opened Dispatcher
  import opened Timing

  function ReadAt(cfg: Config, rs: seq<Round>, i: nat): Option<Update>
    requires i < |rs|
  {
    Accepted(cfg, rs[i].pass)
  }

  predicate IsApplication(u: Option<Update>) {
    u.Some? && u.value.source != SOURCE_INITIAL
  }

  /** Round `k` made the most recent accepted read among the rounds before `n`. */
  ghost predicate LatestRead(cfg: Config, rs: seq<Round>, n: nat, k: nat)
    requires n <= |rs|
  {
    k < n && ReadAt(cfg, rs, k).Some? && forall j: nat :: j < n && ReadAt(cfg, rs, j).Some? ==> j <= k
  }

  /** Every round in `[k, n)` sampled the clock before the deadline. */
  ghost predicate HeldBack(rs: seq<Round>, k: nat, n: nat, holdNs: nat)
    requires n <= |rs|
  {
    forall j: nat :: k <= j < n ==> rs[j].pass.nowNs < holdNs
  }

  /** An application update read in round `k` is the newest one and has been held back ever since. */
  ghost predicate WaitsSince(cfg: Config, rs: seq<Round>, n: nat, k: nat, holdNs: nat)
    requires n <= |rs|
  {
    LatestRead(cfg, rs, n, k) && IsApplication(ReadAt(cfg, rs, k)) && HeldBack(rs, k, n, holdNs)
  }

  function HoldNs(cfg: Config, start: Startup): u64 {
    Begin(cfg, start).holdUntilNs
  }

  /** What one round that goes well does to `update_pending` and `pending_update`. */
  lemma PendingStep(cfg: Config, splash: Frame, s: State, p: Pass)
    requires !Halted(s) && Sane(splash, s)
    ensures var after := MakeRound(cfg, splash, s, p).after;
      !Halted(after) ==>
        && (after.updatePending <==>
              && p.nowNs < s.holdUntilNs
              && if Accepted(cfg, p).Some? then IsApplication(Accepted(cfg, p)) else s.updatePending)
        && (after.updatePending ==>
              after.pending == if Accepted(cfg, p).Some? then Accepted(cfg, p).value else s.pending)
  {
  }

  /** `update_pending` means exactly that some read waits, and then `pending_update` is that read. */
  lemma {:induction false} PendingMeansWaiting(cfg: Config, start: Startup, passes: seq<Pass>, n: nat) returns (k: nat)
    requires n < |RunOf(cfg, start, passes)|
    ensures var rs := RunOf(cfg, start, passes);
            var hold := HoldNs(cfg, start);
      && (rs[n].before.updatePending ==> WaitsSince(cfg, rs, n, k, hold))
      && (forall l: nat :: WaitsSince(cfg, rs, n, l, hold) ==>
            rs[n].before.updatePending && rs[n].before.pending == ReadAt(cfg, rs, l).value)
    decreases n
  {
    var rs := RunOf(cfg, start, passes);
    var hold := HoldNs(cfg, start);
    Linked(cfg, start, passes, n);
    k := 0;
    if n > 0 {
      var q := rs[n - 1];
      SaneThroughout(cfg, start, passes, n - 1);
      PendingStep(cfg, SplashFrame(cfg, start.stampNs), q.before, q.pass);
      var k' := PendingMeansWaiting(cfg, start, passes, n - 1);
      k := if Accepted(cfg, q.pass).Some? then n - 1 else k';
      forall l: nat | WaitsSince(cfg, rs, n, l, hold)
        ensures rs[n].before.updatePending && rs[n].before.pending == ReadAt(cfg, rs, l).value
      {
        if Accepted(cfg, q.pass).Some? {
          assert ReadAt(cfg, rs, n - 1).Some?;
        } else {
          assert WaitsSince(cfg, rs, n - 1, l, hold);
        }
      }
    }
  }

  /**
   * Newest wins. Round `i` hands a new application frame to the backend if and only if its poll stage
   * succeeds, the hold is over, the most recent accepted read (round `k`, possibly `i` itself) is an
   * application update, and every round from `k` up to `i` was still inside the hold; the frame then is
   * that read's. So reads during the hold are coalesced to the last one, a read after the hold is submitted
   * in the round that makes it, nothing is submitted twice, and INITIAL cancels what came before.
   */
  lemma FreshSubmitIff(cfg: Config, start: Startup, passes: seq<Pass>, i: nat)
    requires i < |RunOf(cfg, start, passes)|
    ensures var rs := RunOf(cfg, start, passes);
            var hold := HoldNs(cfg, start);
            var shown := FreshEvents(cfg, rs[i].polled, rs[i].pass);
      && (shown != [] <==>
            && PollResult(cfg, rs[i].pass) == 0
            && rs[i].pass.nowNs >= hold
            && exists k: nat ::
                 && LatestRead(cfg, rs, i + 1, k)
                 && IsApplication(ReadAt(cfg, rs, k))
                 && HeldBack(rs, k, i, hold))
      && (forall k: nat :: shown != [] && LatestRead(cfg, rs, i + 1, k) ==>
            && HeldBack(rs, k, i, hold) && IsApplication(ReadAt(cfg, rs, k))
            && shown == [Submitted(Fresh, FrameOf(cfg, ReadAt(cfg, rs, k).value, rs[i].polled.frame.source),
                                   rs[i].pass.submit)])
  {
    var rs := RunOf(cfg, start, passes);
    var hold := HoldNs(cfg, start);
    var r := rs[i];
    SaneThroughout(cfg, start, passes, i);
    var w := PendingMeansWaiting(cfg, start, passes, i);
    if Accepted(cfg, r.pass).Some? {
      assert LatestRead(cfg, rs, i + 1, i);
      assert HeldBack(rs, i, i, hold);
    } else {
      assert forall k: nat :: LatestRead(cfg, rs, i + 1, k) <==> LatestRead(cfg, rs, i, k);
      assert r.before.updatePending ==> WaitsSince(cfg, rs, i, w, hold);
    }
    forall k: nat | FreshEvents(cfg, r.polled, r.pass) != [] && LatestRead(cfg, rs, i + 1, k)
      ensures HeldBack(rs, k, i, hold) && IsApplication(ReadAt(cfg, rs, k))
      ensures r.polled.pending == ReadAt(cfg, rs, k).value
    {
      assert ReadAt(cfg, rs, if Accepted(cfg, r.pass).Some? then i else w).Some?;
    }
  }

  /** The read behind a new frame. */
  lemma FreshComesFrom(cfg: Config, start: Startup, passes: seq<Pass>, i: nat) returns (k: nat)
    requires i < |RunOf(cfg, start, passes)|
    ensures var rs := RunOf(cfg, start, passes);
      FreshEvents(cfg, rs[i].polled, rs[i].pass) != [] ==>
        && k <= i && LatestRead(cfg, rs, i + 1, k) && IsApplication(ReadAt(cfg, rs, k))
        && HeldBack(rs, k, i, HoldNs(cfg, start))
        && rs[i].pass.nowNs >= HoldNs(cfg, start)
        && FreshEvents(cfg, rs[i].polled, rs[i].pass)
           == [Submitted(Fresh, FrameOf(cfg, ReadAt(cfg, rs, k).value, rs[i].polled.frame.source), rs[i].pass.submit)]
  {
    FreshSubmitIff(cfg, start, passes, i);
    var rs := RunOf(cfg, start, passes);
    k := 0;
    if FreshEvents(cfg, rs[i].polled, rs[i].pass) != [] {
      var l: nat :| LatestRead(cfg, rs, i + 1, l) && HeldBack(rs, l, i, HoldNs(cfg, start));
      k := l;
    }
  }

  /** The frame a round that goes well leaves on show. */
  lemma FrameStep(cfg: Config, splash: Frame, s: State, p: Pass)
    requires !Halted(s)
    ensures var r := MakeRound(cfg, splash, s, p);
      !Halted(r.after) ==>
        && (FreshDone(r) <==> FreshEvents(cfg, r.polled, p) != [])
        && r.after.frame == (if FreshDone(r) then FreshEvents(cfg, r.polled, p)[0].frame else r.polled.frame)
        && r.polled.frame == (if Accepted(cfg, p).Some? && !IsApplication(Accepted(cfg, p)) then splash else s.frame)
  {
  }

  /** No read is submitted as a new frame in two different rounds. */
  lemma SubmittedAtMostOnce(cfg: Config, start: Startup, passes: seq<Pass>, i: nat, j: nat, k: nat)
    requires var rs := RunOf(cfg, start, passes);
      && i < j < |rs|
      && FreshEvents(cfg, rs[i].polled, rs[i].pass) != [] && FreshEvents(cfg, rs[j].polled, rs[j].pass) != []
      && LatestRead(cfg, rs, j + 1, k)
    ensures i < k
  {
    var m := FreshComesFrom(cfg, start, passes, i);
    var l := FreshComesFrom(cfg, start, passes, j);
    assert ReadAt(cfg, RunOf(cfg, start, passes), l).Some?;
  }

  /** On a diagnostic backend the hold is empty: nothing ever waits for a later round. */
  lemma DiagnosticNeverWaits(cfg: Config, start: Startup, passes: seq<Pass>, i: nat)
    requires i < |RunOf(cfg, start, passes)| && !cfg.physical
    ensures var r := RunOf(cfg, start, passes)[i];
      && !r.before.updatePending
      && (FreshEvents(cfg, r.polled, r.pass) != [] <==> IsApplication(Accepted(cfg, r.pass)))
  {
    SaneThroughout(cfg, start, passes, i);
    var k := PendingMeansWaiting(cfg, start, passes, i);
  }

  /** The application frame on show is the most recent accepted read, already submitted in some round `m`. */
  lemma {:induction false} OnShowIsLatestRead(cfg: Config, start: Startup, passes: seq<Pass>, n: nat)
    returns (k: nat, m: nat)
    requires var rs := RunOf(cfg, start, passes);
      && Started(start) && n < |rs| && MonotoneClock(cfg, rs, start.doneNs)
      && rs[n].before.frame.source != SOURCE_INITIAL
    ensures var rs := RunOf(cfg, start, passes);
      && k <= m < n && LatestRead(cfg, rs, n, k) && IsApplication(ReadAt(cfg, rs, k))
      && FreshDone(rs[m])
      && rs[n].before.frame == FrameOf(cfg, ReadAt(cfg, rs, k).value, rs[m].polled.frame.source)
    decreases n
  {
    var rs := RunOf(cfg, start, passes);
    var q := rs[n - 1];
    Linked(cfg, start, passes, n);
    SaneThroughout(cfg, start, passes, n - 1);
    FrameStep(cfg, SplashFrame(cfg, start.stampNs), q.before, q.pass);
    if FreshDone(q) {
      k := FreshComesFrom(cfg, start, passes, n - 1);
      m := n - 1;
    } else {
      ApplicationOnlyAfterHold(cfg, start, passes, n - 1);
      FreshSubmitIff(cfg, start, passes, n - 1);
      k, m := OnShowIsLatestRead(cfg, start, passes, n - 1);
      if Accepted(cfg, q.pass).Some? {
        assert false;
      }
      assert ReadAt(cfg, rs, n - 1).None?;
    }
  }

  /** Every application frame submitted in round `i`, new or refreshed, is the most recent accepted read. */
  lemma SubmittedIsLatestRead(cfg: Config, start: Startup, passes: seq<Pass>, i: nat, e: Event) returns (k: nat)
    requires var rs := RunOf(cfg, start, passes);
      && Started(start) && i < |rs| && MonotoneClock(cfg, rs, start.doneNs)
      && e in RoundEvents(cfg, rs[i]) && e.Submitted? && e.frame.source != SOURCE_INITIAL
    ensures var rs := RunOf(cfg, start, passes);
      && LatestRead(cfg, rs, i + 1, k) && e.frame.sequence == ReadAt(cfg, rs, k).value.sequence
  {
    var rs := RunOf(cfg, start, passes);
    var r := rs[i];
    SaneThroughout(cfg, start, passes, i);
    if e in FreshEvents(cfg, r.polled, r.pass) {
      k := FreshComesFrom(cfg, start, passes, i);
    } else {
      AtMostOneSubmit(cfg, start, passes, i);
      ApplicationOnlyAfterHold(cfg, start, passes, i);
      var m;
      k, m := OnShowIsLatestRead(cfg, start, passes, i);
      assert ReadAt(cfg, rs, i).None?;
    }
  }

  /** Every field of a frame that describes an update's pixels is the update's own. */
  predicate Carries(f: Frame, u: Update) {
    && f.width == u.width && f.height == u.height && f.stride == u.stride && f.format == u.format
    && f.source == u.source && f.timestampNs == u.timestampNs && f.sequence == u.sequence
  }

  /**
   * What a new frame says. Whatever the clock does, it carries the most recent accepted read; it is damaged in full
   * if the frame it replaces is INITIAL, and as that read says otherwise.
   */
  lemma NewFrameCarriesRead(cfg: Config, start: Startup, passes: seq<Pass>, i: nat, e: Event) returns (k: nat)
    requires i < |RunOf(cfg, start, passes)|
    ensures var rs := RunOf(cfg, start, passes);
      e in RoundEvents(cfg, rs[i]) && e.Submitted? && e.kind == Fresh ==>
        && LatestRead(cfg, rs, i + 1, k) && ReadAt(cfg, rs, k).value.source != SOURCE_INITIAL
        && (var u := ReadAt(cfg, rs, k).value;
            && Carries(e.frame, u)
            && e.frame.damage == if rs[i].polled.frame.source == SOURCE_INITIAL then Rect(0, 0, u.width, u.height)
                                 else u.damage)
  {
    var r := RunOf(cfg, start, passes)[i];
    k := 0;
    if e in RoundEvents(cfg, r) && e.Submitted? && e.kind == Fresh {
      assert e in FreshEvents(cfg, r.polled, r.pass);
      k := FreshComesFrom(cfg, start, passes, i);
    }
  }

  /** With a monotone clock every application frame submitted, refreshes included, carries the latest read. */
  lemma ShownFrameCarriesRead(cfg: Config, start: Startup, passes: seq<Pass>, i: nat, e: Event) returns (k: nat)
    requires var rs := RunOf(cfg, start, passes);
      && Started(start) && i < |rs| && MonotoneClock(cfg, rs, start.doneNs)
      && e in RoundEvents(cfg, rs[i]) && e.Submitted? && e.frame.source != SOURCE_INITIAL
    ensures var rs := RunOf(cfg, start, passes);
      LatestRead(cfg, rs, i + 1, k) && Carries(e.frame, ReadAt(cfg, rs, k).value)
  {
    var rs := RunOf(cfg, start, passes);
    var r := rs[i];
    if e.kind == Fresh {
      k := NewFrameCarriesRead(cfg, start, passes, i, e);
    } else {
      SaneThroughout(cfg, start, passes, i);
      SubmittedEvent(cfg, r, e);
      AtMostOneSubmit(cfg, start, passes, i);
      ApplicationOnlyAfterHold(cfg, start, passes, i);
      var m;
      k, m := OnShowIsLatestRead(cfg, start, passes, i);
      assert ReadAt(cfg, rs, i).None?;
    }
  }

  /**
   * The startup submit: the whole screen as an XRGB8888 picture over the splash buffer, INITIAL, undated by the
   * stream, and damaged in full. If it cannot be made or fails, there is no loop.
   */
  lemma StartupSubmit(cfg: Config, start: Startup, passes: seq<Pass>)
    ensures start.prepare != 0 ==> BeginEvents(cfg, start) == []
    ensures start.prepare != 0 || start.submit != 0 ==> RunOf(cfg, start, passes) == []
    ensures start.prepare == 0 ==>
              && |BeginEvents(cfg, start)| == 1 && BeginEvents(cfg, start)[0].Submitted?
              && BeginEvents(cfg, start)[0].code == start.submit
              && (var f := BeginEvents(cfg, start)[0].frame;
                  && f.pixels.SplashPixels? && f.bytes == cfg.splashBytes && f.sequence == 0
                  && f.timestampNs == start.stampNs && f.source == 0 && f.format == 2
                  && f.width == cfg.info.width && f.height == cfg.info.height
                  && (cfg.info.width < 0x4000_0000 ==> f.stride == 4 * cfg.info.width)
                  && f.damage == Rect(0, 0, cfg.info.width, cfg.info.height))
  {
    if cfg.info.width < 0x4000_0000 {
      assert cfg.info.width * 4 % WORD32 == cfg.info.width * 4;
    }
  }

  /** How the poll stage of a round fails, and with which negated errno. */
  lemma PollResultExact(cfg: Config, p: Pass)
    ensures p.poll.HungUp? ==> PollResult(cfg, p) == -5
    ensures p.poll.PollFailed? ==> PollResult(cfg, p) == -(p.poll.error as int)
    ensures p.poll.PollInterrupted? || p.poll.Quiet? ==> PollResult(cfg, p) == 0
    ensures p.poll.Readable? ==>
              match p.poll.read
              case ReadInterrupted => PollResult(cfg, p) == 0
              case ReadFailed(e) => PollResult(cfg, p) == -(e as int)
              case ReadShort => PollResult(cfg, p) == -71
              case ReadUpdate(u) => PollResult(cfg, p) == ValidateUpdate(cfg.info, u, cfg.sizes)
  {
  }

  /** A failing poll stage is the end of a generation: nothing more is called, and its error is the result. */
  lemma FailedPollEndsLoop(cfg: Config, start: Startup, passes: seq<Pass>, i: nat)
    requires i < |RunOf(cfg, start, passes)| && PollResult(cfg, RunOf(cfg, start, passes)[i].pass) != 0
    ensures var rs := RunOf(cfg, start, passes);
      && i == |rs| - 1 && rs[i].after.result == PollResult(cfg, rs[i].pass)
      && forall e :: e in RoundEvents(cfg, rs[i]) ==> e.Waited?
  {
    var rs := RunOf(cfg, start, passes);
    SaneThroughout(cfg, start, passes, i);
    FailedPollRound(cfg, SplashFrame(cfg, start.stampNs), rs[i].before, rs[i].pass);
    if i + 1 < |rs| {
      Linked(cfg, start, passes, i + 1);
    }
  }

  lemma FailedPollRound(cfg: Config, splash: Frame, s: State, p: Pass)
    requires !Halted(s) && PollResult(cfg, p) != 0
    ensures var r := MakeRound(cfg, splash, s, p);
      && r.after.result == PollResult(cfg, p) && RoundEvents(cfg, r) == [Waited(PollTimeoutMs(cfg, s))]
  {
  }
}
