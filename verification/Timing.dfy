/** Clocked behaviour of the dispatcher: startup hold, refresh cadence and ticks, over whole runs. */
module Timing {
  import opened Abi
  import opened Dispatcher

  /** The rounds of a run from its startup. */
  function RunOf(cfg: Config, start: Startup, passes: seq<Pass>): seq<Round> {
    Rounds(cfg, SplashFrame(cfg, start.stampNs), Begin(cfg, start), passes)
  }

  predicate Started(start: Startup) {
    start.prepare == 0 && start.submit == 0
  }

  /** The first hold deadline fits 64 bits (it does for the first 584 years of uptime). */
  predicate DeadlineFits(start: Startup) {
    start.doneNs + 2_000_000_000 < WORD64
  }

  predicate FreshDone(r: Round) {
    SubmitsFresh(r.polled, r.pass) && r.pass.submit == 0
  }

  predicate RefreshDone(cfg: Config, r: Round) {
    SubmitsRefresh(cfg, r.submitted, r.pass) && r.pass.refresh == 0
  }

  /** The latest clock sample of a round before its tick. */
  function BusyUntil(cfg: Config, r: Round): u64 {
    if RefreshDone(cfg, r) then r.pass.refreshDoneNs
    else if FreshDone(r) then r.pass.submitDoneNs
    else r.pass.nowNs
  }

  /** The clock samples that a round takes never go back. */
  predicate RoundClock(cfg: Config, r: Round) {
    && (FreshDone(r) ==> r.pass.nowNs <= r.pass.submitDoneNs)
    && (RefreshDone(cfg, r) ==>
          (if FreshDone(r) then r.pass.submitDoneNs else r.pass.nowNs) <= r.pass.refreshDoneNs)
    && (Ticks(cfg, r.refreshed) ==> BusyUntil(cfg, r) <= r.pass.tickNs)
  }

  /** A monotone clock: nothing sampled during a run goes back, from the end of the first submit on. */
  ghost predicate MonotoneClock(cfg: Config, rs: seq<Round>, startNs: nat) {
    && (forall i :: 0 <= i < |rs| ==> RoundClock(cfg, rs[i]))
    && (rs != [] ==> startNs <= rs[0].pass.nowNs)
    && (forall i, j :: 0 <= i && j == i + 1 && j < |rs| ==> BusyUntil(cfg, rs[i]) <= rs[j].pass.nowNs)
  }

  /** The last clock sample of a round. */
  function LastSample(cfg: Config, r: Round): u64 {
    if Ticks(cfg, r.refreshed) then r.pass.tickNs else BusyUntil(cfg, r)
  }

  /** A successful submit takes at most `b`, and the tick's sample comes within `d` of the one before it. */
  predicate RoundPace(cfg: Config, r: Round, b: nat, d: nat) {
    && (FreshDone(r) ==> r.pass.submitDoneNs <= r.pass.nowNs + b)
    && (RefreshDone(cfg, r) ==>
          r.pass.refreshDoneNs <= (if FreshDone(r) then r.pass.submitDoneNs else r.pass.nowNs) + b)
    && (Ticks(cfg, r.refreshed) ==> r.pass.tickNs <= BusyUntil(cfg, r) + d)
  }

  /**
   * The pace of the environment, in nanoseconds: besides `RoundPace`, the sample after `poll` comes within its
   * timeout plus `d` of the sample before it, the tick in between included.
   */
  ghost predicate Pace(cfg: Config, rs: seq<Round>, startNs: nat, b: nat, d: nat) {
    forall i :: 0 <= i < |rs| ==>
      && RoundPace(cfg, rs[i], b, d)
      && rs[i].pass.nowNs <= (if i == 0 then startNs else LastSample(cfg, rs[i - 1]))
                             + PollTimeoutMs(cfg, rs[i].before) * NS_PER_MS + d
  }

  /** When the most recent successful submit before round `i` completed, read off the rounds themselves. */
  function LastDone(cfg: Config, rs: seq<Round>, startNs: u64, i: nat): u64
    requires i <= |rs|
  {
    if i == 0 then startNs
    else if RefreshDone(cfg, rs[i - 1]) then rs[i - 1].pass.refreshDoneNs
    else if FreshDone(rs[i - 1]) then rs[i - 1].pass.submitDoneNs
    else LastDone(cfg, rs, startNs, i - 1)
  }

  /** What every loop state keeps, whatever the clock does. */
  predicate Sane(splash: Frame, s: State) {
    && (s.updatePending ==> s.pending.source != SOURCE_INITIAL)
    && (s.frame == splash || (s.frame.source != SOURCE_INITIAL && s.frame.pixels.MappedPixels?))
  }

  /** A round starts in the state its predecessor left, and the run starts in its startup state. */
  lemma Linked(cfg: Config, start: Startup, passes: seq<Pass>, n: nat)
    requires n < |RunOf(cfg, start, passes)|
    ensures var rs := RunOf(cfg, start, passes);
      && !Halted(rs[n].before)
      && rs[n].before == (if n == 0 then Begin(cfg, start) else rs[n - 1].after)
  {
    RoundsChain(cfg, SplashFrame(cfg, start.stampNs), Begin(cfg, start), passes);
  }

  lemma SaneRound(cfg: Config, splash: Frame, s: State, p: Pass)
    requires Sane(splash, s) && !Halted(s)
    ensures var r := MakeRound(cfg, splash, s, p);
            && Sane(splash, r.polled) && Sane(splash, r.submitted) && Sane(splash, r.after)
            && r.after.holdUntilNs == s.holdUntilNs
  {
  }

  lemma {:induction false} SaneThroughout(cfg: Config, start: Startup, passes: seq<Pass>, i: nat)
    requires i < |RunOf(cfg, start, passes)|
    ensures var splash := SplashFrame(cfg, start.stampNs);
            var r := RunOf(cfg, start, passes)[i];
            && !Halted(r.before) && r == MakeRound(cfg, splash, r.before, r.pass)
            && Sane(splash, r.before) && Sane(splash, r.polled) && Sane(splash, r.submitted) && Sane(splash, r.after)
            && r.before.holdUntilNs == r.after.holdUntilNs == Begin(cfg, start).holdUntilNs
    decreases i
  {
    var rs := RunOf(cfg, start, passes);
    RoundsChain(cfg, SplashFrame(cfg, start.stampNs), Begin(cfg, start), passes);
    if i > 0 {
      SaneThroughout(cfg, start, passes, i - 1);
    }
    SaneRound(cfg, SplashFrame(cfg, start.stampNs), rs[i].before, rs[i].pass);
  }

  lemma {:induction false} SubmitTimeKept(cfg: Config, start: Startup, passes: seq<Pass>, i: nat)
    requires Started(start) && i < |RunOf(cfg, start, passes)|
    ensures var rs := RunOf(cfg, start, passes);
            rs[i].before.lastSubmitNs == LastDone(cfg, rs, start.doneNs, i)
    decreases i
  {
    RoundsChain(cfg, SplashFrame(cfg, start.stampNs), Begin(cfg, start), passes);
    if i > 0 {
      SubmitTimeKept(cfg, start, passes, i - 1);
    }
  }

  lemma {:induction false} LastDoneInPast(cfg: Config, rs: seq<Round>, startNs: u64, i: nat)
    requires MonotoneClock(cfg, rs, startNs) && i < |rs|
    ensures LastDone(cfg, rs, startNs, i) <= rs[i].pass.nowNs
    decreases i
  {
    if i > 0 {
      LastDoneInPast(cfg, rs, startNs, i - 1);
    }
  }

  lemma {:induction false} NowIncreases(cfg: Config, rs: seq<Round>, startNs: u64, i: nat, j: nat)
    requires MonotoneClock(cfg, rs, startNs) && i <= j < |rs|
    ensures rs[i].pass.nowNs <= rs[j].pass.nowNs
    decreases j
  {
    if i < j {
      NowIncreases(cfg, rs, startNs, i, j - 1);
      assert BusyUntil(cfg, rs[j - 1]) <= rs[j].pass.nowNs;
    }
  }

  /**
   * A clock that may fail: a failed reading before a submit or refresh is 0, as `monotonic_nanoseconds` has it,
   * and the others never go back. Nothing is said about the readings after a submit.
   */
  ghost predicate FlakyClock(rs: seq<Round>) {
    forall i, j :: 0 <= i < j < |rs| ==> rs[j].pass.nowNs == 0 || rs[i].pass.nowNs <= rs[j].pass.nowNs
  }

  lemma MonotoneIsFlaky(cfg: Config, rs: seq<Round>, startNs: u64)
    requires MonotoneClock(cfg, rs, startNs)
    ensures FlakyClock(rs)
  {
    forall i: nat, j: nat | i < j < |rs|
      ensures rs[i].pass.nowNs <= rs[j].pass.nowNs
    {
      NowIncreases(cfg, rs, startNs, i, j);
    }
  }

  /** An application frame is on show only after some round that found the hold over. */
  lemma {:induction false} HoldWasOver(cfg: Config, start: Startup, passes: seq<Pass>, i: nat) returns (k: nat)
    requires i < |RunOf(cfg, start, passes)|
    requires RunOf(cfg, start, passes)[i].before.frame.source != SOURCE_INITIAL
    ensures k < i && RunOf(cfg, start, passes)[k].pass.nowNs >= Begin(cfg, start).holdUntilNs
    decreases i
  {
    Linked(cfg, start, passes, i);
    SaneThroughout(cfg, start, passes, i - 1);
    var q := RunOf(cfg, start, passes)[i - 1];
    if SubmitsFresh(q.polled, q.pass) {
      k := i - 1;
    } else {
      k := HoldWasOver(cfg, start, passes, i - 1);
    }
  }

  /**
   * Even with failing readings, an application frame is never refreshed while an update waits: the read of
   * that update has given up the frame's slot.
   */
  lemma RefreshOnlyHeld(cfg: Config, start: Startup, passes: seq<Pass>, i: nat)
    requires i < |RunOf(cfg, start, passes)| && FlakyClock(RunOf(cfg, start, passes))
    ensures var r := RunOf(cfg, start, passes)[i];
      SubmitsRefresh(cfg, r.submitted, r.pass) && r.submitted.updatePending ==>
        r.submitted.frame == SplashFrame(cfg, start.stampNs)
  {
    var r := RunOf(cfg, start, passes)[i];
    SaneThroughout(cfg, start, passes, i);
    if SubmitsRefresh(cfg, r.submitted, r.pass) && r.submitted.updatePending
       && r.before.frame.source != SOURCE_INITIAL {
      var k := HoldWasOver(cfg, start, passes, i);
      assert RunOf(cfg, start, passes)[k].pass.nowNs <= r.pass.nowNs || r.pass.nowNs == 0;
    }
  }

  lemma HoldStep(cfg: Config, splash: Frame, s: State, p: Pass)
    requires !Halted(s) && Sane(splash, s) && splash.source == SOURCE_INITIAL
    requires s.frame.source != SOURCE_INITIAL ==> p.nowNs >= s.holdUntilNs && !s.updatePending
    ensures var after := MakeRound(cfg, splash, s, p).after;
      !Halted(after) ==>
        && (after.frame.source != SOURCE_INITIAL ==> p.nowNs >= s.holdUntilNs && !after.updatePending)
        && (after.updatePending ==> p.nowNs < s.holdUntilNs)
  {
  }

  /** With a monotone clock, application pixels are on show only once the hold is over, and nothing then waits. */
  lemma {:induction false} ApplicationOnlyAfterHold(cfg: Config, start: Startup, passes: seq<Pass>, i: nat)
    requires var rs := RunOf(cfg, start, passes);
             Started(start) && i < |rs| && MonotoneClock(cfg, rs, start.doneNs)
    ensures var r := RunOf(cfg, start, passes)[i];
            && (r.before.frame.source != SOURCE_INITIAL ==>
                  r.pass.nowNs >= Begin(cfg, start).holdUntilNs && !r.before.updatePending)
            && (r.before.updatePending && i > 0 ==>
                  RunOf(cfg, start, passes)[i - 1].pass.nowNs < Begin(cfg, start).holdUntilNs)
    decreases i
  {
    Linked(cfg, start, passes, i);
    if i > 0 {
      var rs := RunOf(cfg, start, passes);
      ApplicationOnlyAfterHold(cfg, start, passes, i - 1);
      SaneThroughout(cfg, start, passes, i - 1);
      HoldStep(cfg, SplashFrame(cfg, start.stampNs), rs[i - 1].before, rs[i - 1].pass);
      NowIncreases(cfg, rs, start.doneNs, i - 1, i);
    }
  }

  /** What a submit of a round hands over. */
  lemma SubmittedEvent(cfg: Config, r: Round, e: Event)
    requires e in RoundEvents(cfg, r) && e.Submitted?
    ensures || (e.kind == Fresh && SubmitsFresh(r.polled, r.pass)
                && e.frame == FrameOf(cfg, r.polled.pending, r.polled.frame.source))
            || (e.kind == Refresh && SubmitsRefresh(cfg, r.submitted, r.pass) && e.frame == r.submitted.frame)
  {
  }

  /**
   * Startup hold. On a physical backend whatever is submitted before the first submit's completion plus
   * two seconds is the splash, however slow that first submit was. (The sample `nowNs` precedes the submit.)
   */
  lemma StartupHold(cfg: Config, start: Startup, passes: seq<Pass>, i: nat, e: Event)
    requires var rs := RunOf(cfg, start, passes);
      && Started(start) && DeadlineFits(start) && cfg.physical
      && i < |rs| && MonotoneClock(cfg, rs, start.doneNs)
      && e in RoundEvents(cfg, rs[i]) && e.Submitted?
      && rs[i].pass.nowNs < start.doneNs + 2_000_000_000
    ensures e.frame == SplashFrame(cfg, start.stampNs) && e.kind == Refresh
  {
    var r := RunOf(cfg, start, passes)[i];
    SaneThroughout(cfg, start, passes, i);
    ApplicationOnlyAfterHold(cfg, start, passes, i);
    assert r.before.frame.source == SOURCE_INITIAL;
    SubmittedEvent(cfg, r, e);
  }

  /**
   * The hold ends promptly: an update still waiting when the hold expires is submitted in the first round
   * that samples the clock after the deadline, at most 33 ms + b + 2d later (a refresh of the splash may be under
   * way when the hold ends), unless that very round fails or reads INITIAL.
   */
  lemma HoldEndsPromptly(cfg: Config, start: Startup, passes: seq<Pass>, i: nat, b: nat, d: nat)
    requires var rs := RunOf(cfg, start, passes);
      && Started(start) && DeadlineFits(start) && cfg.physical
      && i < |rs| && MonotoneClock(cfg, rs, start.doneNs) && Pace(cfg, rs, start.doneNs, b, d)
      && rs[i].before.updatePending && rs[i].pass.nowNs >= start.doneNs + 2_000_000_000
    ensures var r := RunOf(cfg, start, passes)[i];
      && r.pass.nowNs < start.doneNs + 2_000_000_000 + 33_000_000 + b + 2 * d
      && (PollResult(cfg, r.pass) != 0
          || (Accepted(cfg, r.pass).Some? && Accepted(cfg, r.pass).value.source == SOURCE_INITIAL)
          || Submitted(Fresh, FrameOf(cfg, r.polled.pending, SOURCE_INITIAL), r.pass.submit) in RoundEvents(cfg, r))
  {
    var rs := RunOf(cfg, start, passes);
    var r := rs[i];
    RoundsChain(cfg, SplashFrame(cfg, start.stampNs), Begin(cfg, start), passes);
    SaneThroughout(cfg, start, passes, i);
    ApplicationOnlyAfterHold(cfg, start, passes, i);
    assert i > 0;
    RoundTakes(cfg, start, passes, i - 1, b, d);
    if SubmitsFresh(r.polled, r.pass) {
      assert FreshEvents(cfg, r.polled, r.pass)[0] in RoundEvents(cfg, r);
    }
  }

  /** With at most one submit, a round's last sample comes within b + d of its first. */
  lemma RoundTakes(cfg: Config, start: Startup, passes: seq<Pass>, i: nat, b: nat, d: nat)
    requires var rs := RunOf(cfg, start, passes);
             i < |rs| && MonotoneClock(cfg, rs, start.doneNs) && Pace(cfg, rs, start.doneNs, b, d)
    ensures var r := RunOf(cfg, start, passes)[i]; LastSample(cfg, r) <= r.pass.nowNs + b + d
  {
    AtMostOneSubmit(cfg, start, passes, i);
  }

  /**
   * One submit per round. A round submits twice if and only if a fresh frame went through and the clock
   * sample taken before it is already a full idle interval later than the completion sample: on a monotone
   * clock that cannot be, but `monotonic_nanoseconds` answers 0 when `clock_gettime` fails.
   */
  lemma SecondSubmitIff(cfg: Config, splash: Frame, s: State, p: Pass)
    requires Sane(splash, s) && !Halted(s)
    ensures var r := MakeRound(cfg, splash, s, p);
      (FreshEvents(cfg, r.polled, p) != [] && RefreshEvents(cfg, r.submitted, p) != [])
      <==> FreshDone(r) && cfg.physical && p.submitDoneNs + 2_000_000_000 <= p.nowNs
  {
    SaneRound(cfg, splash, s, p);
  }

  /** One failed reading, of the time a submit completes: one round, two submits of the same application frame. */
  lemma FailedClockSubmitsTwice()
    ensures var cfg := Config(DeviceInfo(1, 1, 3, 4, 12), true, false, 4, WORD64);
            var update := Update(1, 0, 0, 1, 1, 4, FORMAT_XRGB8888, SOURCE_DRM, Rect(0, 0, 1, 1));
            var now := 5_000_000_000;
            var p := Pass(false, Readable(ReadUpdate(update)), false, now, 0, 0, 0, now, now, 0);
            var rs := RunOf(cfg, Startup(0, 1_000_000_000, 0, 1_000_000_000), [p]);
            && |rs| == 1
            && FreshEvents(cfg, rs[0].polled, p) != [] && RefreshEvents(cfg, rs[0].submitted, p) != []
  {
    var cfg := Config(DeviceInfo(1, 1, 3, 4, 12), true, false, 4, WORD64);
    var update := Update(1, 0, 0, 1, 1, 4, FORMAT_XRGB8888, SOURCE_DRM, Rect(0, 0, 1, 1));
    var now := 5_000_000_000;
    var p := Pass(false, Readable(ReadUpdate(update)), false, now, 0, 0, 0, now, now, 0);
    var s := Begin(cfg, Startup(0, 1_000_000_000, 0, 1_000_000_000));
    assert ValidateUpdate(cfg.info, update, cfg.sizes) == 0;
    assert Rounds(cfg, s.frame, s, [p]) == [MakeRound(cfg, s.frame, s, p)];
  }

  /** With a monotone clock a round submits at most once. */
  lemma AtMostOneSubmit(cfg: Config, start: Startup, passes: seq<Pass>, i: nat)
    requires var rs := RunOf(cfg, start, passes); i < |rs| && MonotoneClock(cfg, rs, start.doneNs)
    ensures var r := RunOf(cfg, start, passes)[i];
            |FreshEvents(cfg, r.polled, r.pass)| + |RefreshEvents(cfg, r.submitted, r.pass)| <= 1
  {
    var r := RunOf(cfg, start, passes)[i];
    SaneThroughout(cfg, start, passes, i);
    SecondSubmitIff(cfg, SplashFrame(cfg, start.stampNs), r.before, r.pass);
  }

  /** How long a physical backend may go without a submit: 33 ms on the splash, 2 s on an application frame. */
  function IntervalNs(frame: Frame): nat {
    if frame.source == 0 then 33_000_000 else 2_000_000_000
  }

  /**
   * Refresh cadence, lower bound: a refresh is never started less than its interval (33 ms for the splash,
   * 2 s for application frames) after the completion of the most recent successful submit.
   */
  lemma RefreshNeverEarly(cfg: Config, start: Startup, passes: seq<Pass>, i: nat, e: Event)
    requires var rs := RunOf(cfg, start, passes);
      && Started(start) && i < |rs| && MonotoneClock(cfg, rs, start.doneNs)
      && e in RoundEvents(cfg, rs[i]) && e.Submitted? && e.kind == Refresh
    ensures var rs := RunOf(cfg, start, passes);
      && cfg.physical
      && LastDone(cfg, rs, start.doneNs, i) + IntervalNs(e.frame) <= rs[i].pass.nowNs
  {
    SaneThroughout(cfg, start, passes, i);
    SubmitTimeKept(cfg, start, passes, i);
    AtMostOneSubmit(cfg, start, passes, i);
  }

  /** On a physical backend a round never starts with its refresh overdue. */
  lemma {:induction false} RefreshNeverOverdue(
      cfg: Config, start: Startup, passes: seq<Pass>, i: nat, b: nat, d: nat)
    requires var rs := RunOf(cfg, start, passes);
      && Started(start) && cfg.physical && i < |rs|
      && MonotoneClock(cfg, rs, start.doneNs) && Pace(cfg, rs, start.doneNs, b, d)
    ensures var rs := RunOf(cfg, start, passes);
      rs[i].pass.nowNs < LastDone(cfg, rs, start.doneNs, i) + IntervalNs(rs[i].before.frame)
                         + (if rs[i].before.frame.source == 0 then 33_000_000 else 100_000_000) + 2 * d
  {
    var rs := RunOf(cfg, start, passes);
    RoundsChain(cfg, SplashFrame(cfg, start.stampNs), Begin(cfg, start), passes);
    if i > 0 {
      var q := rs[i - 1];
      SubmitTimeKept(cfg, start, passes, i - 1);
      LastDoneInPast(cfg, rs, start.doneNs, i - 1);
      assert rs[i].before == q.after && q.after.frame == q.submitted.frame;
      assert BusyUntil(cfg, q) < LastDone(cfg, rs, start.doneNs, i) + RefreshNs(rs[i].before.frame) by {
        if !RefreshDone(cfg, q) && !FreshDone(q) {
          assert q.submitted.lastSubmitNs == LastDone(cfg, rs, start.doneNs, i - 1);
        }
      }
    }
  }

  /**
   * Refresh cadence, upper bound: in a round whose poll stage succeeds, either something is submitted or the
   * last submit completed less than one refresh interval ago. With `RefreshNeverOverdue` the gap between a
   * completion and the next submit stays below interval + poll timeout + 2d for as long as the run goes on.
   */
  lemma DueRefreshSubmitted(cfg: Config, start: Startup, passes: seq<Pass>, i: nat)
    requires var rs := RunOf(cfg, start, passes);
      && Started(start) && cfg.physical && i < |rs| && MonotoneClock(cfg, rs, start.doneNs)
      && PollResult(cfg, rs[i].pass) == 0
    ensures var rs := RunOf(cfg, start, passes);
      || (exists e :: e in RoundEvents(cfg, rs[i]) && e.Submitted?)
      || rs[i].pass.nowNs < LastDone(cfg, rs, start.doneNs, i) + IntervalNs(rs[i].polled.frame)
  {
    var r := RunOf(cfg, start, passes)[i];
    SaneThroughout(cfg, start, passes, i);
    SubmitTimeKept(cfg, start, passes, i);
    LastDoneInPast(cfg, RunOf(cfg, start, passes), start.doneNs, i);
    if SubmitsFresh(r.polled, r.pass) {
      assert FreshEvents(cfg, r.polled, r.pass)[0] in RoundEvents(cfg, r);
    } else if SubmitsRefresh(cfg, r.submitted, r.pass) {
      assert RefreshEvents(cfg, r.submitted, r.pass)[0] in RoundEvents(cfg, r);
    }
  }

  function Failed(e: Event): bool {
    match e
    case Waited(_) => false
    case Submitted(_, _, code) => code != 0
    case Ticked(_, code) => code != 0
  }

  function TickCount(events: seq<Event>): nat {
    if events == [] then 0 else (if events[0].Ticked? then 1 else 0) + TickCount(events[1..])
  }

  lemma {:induction false} TickCountSplit(a: seq<Event>, b: seq<Event>)
    ensures TickCount(a + b) == TickCount(a) + TickCount(b)
  {
    if a == [] {
      assert a + b == b;
    } else {
      assert (a + b)[1..] == a[1..] + b;
      TickCountSplit(a[1..], b);
    }
  }

  /**
   * A round ticks a capable backend once if everything before the tick went well, and the tick is then the
   * round's last event, after all frame processing; otherwise it does not tick at all.
   */
  lemma TickPerRound(cfg: Config, splash: Frame, s: State, p: Pass)
    requires !Halted(s)
    ensures var r := MakeRound(cfg, splash, s, p);
      var events := RoundEvents(cfg, r);
      && TickCount(events) == (if cfg.ticks && r.refreshed.result == 0 then 1 else 0)
      && (TickCount(events) == 1 ==> events[|events| - 1] == Ticked(p.tickNs, r.after.result))
      && (r.after.result == 0 && cfg.ticks ==> TickCount(events) == 1)
  {
    var r := MakeRound(cfg, splash, s, p);
    var frames := [Waited(PollTimeoutMs(cfg, s))] + FreshEvents(cfg, r.polled, p);
    TickCountSplit([Waited(PollTimeoutMs(cfg, s))], FreshEvents(cfg, r.polled, p));
    TickCountSplit(frames, RefreshEvents(cfg, r.submitted, p));
    TickCountSplit(frames + RefreshEvents(cfg, r.submitted, p), TickEvents(cfg, r.refreshed, p));
  }

  /**
   * Tick gap: every round of a capable backend that has a successor ticks, the successor ticks unless it fails
   * before, and the two samples are at most 100 ms + b + 2d apart: one poll and one submit lie between them.
   */
  lemma TickGap(cfg: Config, start: Startup, passes: seq<Pass>, i: nat, b: nat, d: nat)
    requires var rs := RunOf(cfg, start, passes);
      && i + 1 < |rs| && cfg.ticks && MonotoneClock(cfg, rs, start.doneNs) && Pace(cfg, rs, start.doneNs, b, d)
    ensures var rs := RunOf(cfg, start, passes);
      && Ticked(rs[i].pass.tickNs, 0) in RoundEvents(cfg, rs[i])
      && (rs[i + 1].after.result == 0 ==> Ticked(rs[i + 1].pass.tickNs, 0) in RoundEvents(cfg, rs[i + 1]))
      && (rs[i + 1].refreshed.result == 0 ==>
            rs[i + 1].pass.tickNs <= rs[i].pass.tickNs + 100_000_000 + b + 2 * d)
  {
    var rs := RunOf(cfg, start, passes);
    var splash := SplashFrame(cfg, start.stampNs);
    RoundsChain(cfg, splash, Begin(cfg, start), passes);
    var j := i + 1;
    assert rs[j].before == rs[i].after;
    TickPerRound(cfg, splash, rs[i].before, rs[i].pass);
    TickPerRound(cfg, splash, rs[j].before, rs[j].pass);
    RoundTakes(cfg, start, passes, j, b, d);
  }

  lemma RoundStopsAtFailure(cfg: Config, splash: Frame, s: State, p: Pass, k: nat)
    requires !Halted(s)
    requires k < |RoundEvents(cfg, MakeRound(cfg, splash, s, p))|
    ensures var r := MakeRound(cfg, splash, s, p);
      Failed(RoundEvents(cfg, r)[k]) ==> k == |RoundEvents(cfg, r)| - 1 && r.after.result != 0
  {
  }

  /** Over a whole generation no tick, submit or poll follows the first failing call. */
  lemma {:induction false} NothingAfterFailure(cfg: Config, splash: Frame, s: State, passes: seq<Pass>, k: nat)
    requires k < |Events(cfg, splash, s, passes)| && Failed(Events(cfg, splash, s, passes)[k])
    ensures k == |Events(cfg, splash, s, passes)| - 1
    ensures Final(cfg, splash, s, passes).result != 0
    decreases |passes|
  {
    var p := passes[0];
    var head := TurnEvents(cfg, splash, s, p);
    var next := Turned(cfg, splash, s, p);
    assert Events(cfg, splash, s, passes) == head + Events(cfg, splash, next, passes[1..]);
    if k < |head| {
      assert Failed(head[k]);
      RoundStopsAtFailure(cfg, splash, s, p, k);
    } else {
      NothingAfterFailure(cfg, splash, next, passes[1..], k - |head|);
    }
  }
}
