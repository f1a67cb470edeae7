/**
 * The frame dispatcher `run_loop`.
 *
 * Everything the loop cannot decide itself (poll and read outcomes, clock samples, backend results,
 * stop requests) is a script: one `Pass` per trip round the loop. A script may end anywhere; the run is
 * then simply observed up to that point.
 */
module Dispatcher {
  import opened Abi

  const BACKEND_TICK_INTERVAL_MS: nat := 100
  const STARTUP_FRAME_INTERVAL_MS: nat := 33
  const IDLE_FRAME_REFRESH_NS: nat := 2_000_000_000
  const STARTUP_SPLASH_HOLD_NS: nat := 2_000_000_000
  const NS_PER_MS: nat := 1_000_000

  /** `physical` and `ticks` are the two capability bits; `main` has already checked the tick entry. */
  datatype Config = Config(info: DeviceInfo, physical: bool, ticks: bool, splashBytes: nat, sizes: SizeModulus)

  datatype Read = ReadInterrupted | ReadFailed(error: Errno) | ReadShort | ReadUpdate(update: Update)

  /** `Quiet`: a timeout, or a wake-up with none of the awaited bits set. */
  datatype Poll = PollInterrupted | PollFailed(error: Errno) | Readable(read: Read) | HungUp | Quiet

  /** Preparing and submitting the splash: `prepare` is the result of sizing, allocating and rendering it. */
  datatype Startup = Startup(prepare: int, stampNs: u64, submit: int, doneNs: u64)

  /** The answers of the environment during one trip round the loop; unused ones are ignored. */
  datatype Pass = Pass(
    stopAtHead: bool, poll: Poll, stopAfterPoll: bool, nowNs: u64,
    submit: int, submitDoneNs: u64, refresh: int, refreshDoneNs: u64, tickNs: u64, tick: int)

  datatype Kind = First | Fresh | Refresh

  datatype Event =
    | Waited(timeoutMs: nat)
    | Submitted(kind: Kind, frame: Frame, code: int)
    | Ticked(nowNs: u64, code: int)

  /** The loop's variables. `stopped` records that a stop request ended the loop. */
  datatype State = State(
    frame: Frame, pending: Update, updatePending: bool, lastSubmitNs: u64, holdUntilNs: u64,
    result: int, stopped: bool)

  const NO_UPDATE := Update(0, 0, 0, 0, 0, 0, 0, 0, Rect(0, 0, 0, 0))

  function SplashFrame(cfg: Config, stampNs: u64): Frame {
    Frame(SplashPixels, cfg.splashBytes, 0, stampNs, cfg.info.width, cfg.info.height,
          (cfg.info.width * 4) % WORD32, FORMAT_XRGB8888, SOURCE_INITIAL,
          FullDamage(cfg.info.width, cfg.info.height))
  }

  /** The frame built from an update; after the splash the whole frame counts as damaged. */
  function FrameOf(cfg: Config, update: Update, previousSource: u32): Frame {
    Frame(MappedPixels((update.slot * cfg.info.slotBytes) % cfg.sizes),
          (update.stride * update.height) % cfg.sizes,
          update.sequence, update.timestampNs, update.width, update.height, update.stride,
          update.format, update.source,
          if previousSource == SOURCE_INITIAL then FullDamage(update.width, update.height) else update.damage)
  }

  function PollTimeoutMs(cfg: Config, s: State): nat {
    if cfg.physical && s.frame.source == SOURCE_INITIAL then STARTUP_FRAME_INTERVAL_MS
    else BACKEND_TICK_INTERVAL_MS
  }

  function RefreshNs(frame: Frame): nat {
    if frame.source == SOURCE_INITIAL then STARTUP_FRAME_INTERVAL_MS * NS_PER_MS else IDLE_FRAME_REFRESH_NS
  }

  predicate Halted(s: State) {
    s.result != 0 || s.stopped
  }

  /** The state in which the loop is first reached. */
  function Begin(cfg: Config, start: Startup): State {
    var splash := SplashFrame(cfg, start.stampNs);
    if start.prepare != 0 then State(splash, NO_UPDATE, false, 0, 0, start.prepare, false)
    else if start.submit != 0 then State(splash, NO_UPDATE, false, 0, 0, start.submit, false)
    else
      State(splash, NO_UPDATE, false, start.doneNs,
            if cfg.physical then (start.doneNs + STARTUP_SPLASH_HOLD_NS) % WORD64 else 0, 0, false)
  }

  function BeginEvents(cfg: Config, start: Startup): seq<Event> {
    if start.prepare != 0 then [] else [Submitted(First, SplashFrame(cfg, start.stampNs), start.submit)]
  }

  /** The update a pass reads and accepts, if any. */
  function Accepted(cfg: Config, p: Pass): Option<Update> {
    match p.poll
    case Readable(ReadUpdate(u)) => if ValidateUpdate(cfg.info, u, cfg.sizes) == 0 then Some(u) else None
    case _ => None
  }

  function PollResult(cfg: Config, p: Pass): int {
    match p.poll
    case PollFailed(e) => -(e as int)
    case HungUp => -EIO
    case Readable(ReadFailed(e)) => -(e as int)
    case Readable(ReadShort) => -EPROTO
    case Readable(ReadUpdate(u)) => ValidateUpdate(cfg.info, u, cfg.sizes)
    case _ => 0
  }

  /** Poll, read and coalesce. */
  function Polled(cfg: Config, splash: Frame, s: State, p: Pass): State {
    match Accepted(cfg, p)
    case Some(u) =>
      if u.source == SOURCE_INITIAL then s.(updatePending := false, frame := splash, result := 0)
      else s.(pending := u, updatePending := true, result := 0)
    case None => s.(result := PollResult(cfg, p))
  }

  predicate SubmitsFresh(s: State, p: Pass) {
    s.result == 0 && s.updatePending && p.nowNs >= s.holdUntilNs
  }

  function AfterFresh(cfg: Config, s: State, p: Pass): State {
    if SubmitsFresh(s, p) then
      var frame := FrameOf(cfg, s.pending, s.frame.source);
      if p.submit == 0 then s.(frame := frame, updatePending := false, lastSubmitNs := p.submitDoneNs)
      else s.(frame := frame, result := p.submit)
    else s
  }

  function FreshEvents(cfg: Config, s: State, p: Pass): seq<Event> {
    if SubmitsFresh(s, p) then [Submitted(Fresh, FrameOf(cfg, s.pending, s.frame.source), p.submit)] else []
  }

  predicate SubmitsRefresh(cfg: Config, s: State, p: Pass) {
    && s.result == 0 && cfg.physical
    && p.nowNs >= s.lastSubmitNs
    && (var idle: u64 := p.nowNs - s.lastSubmitNs; idle >= RefreshNs(s.frame))
  }

  function AfterRefresh(cfg: Config, s: State, p: Pass): State {
    if SubmitsRefresh(cfg, s, p) then
      if p.refresh == 0 then s.(lastSubmitNs := p.refreshDoneNs) else s.(result := p.refresh)
    else s
  }

  function RefreshEvents(cfg: Config, s: State, p: Pass): seq<Event> {
    if SubmitsRefresh(cfg, s, p) then [Submitted(Refresh, s.frame, p.refresh)] else []
  }

  predicate Ticks(cfg: Config, s: State) {
    s.result == 0 && cfg.ticks
  }

  function AfterTick(cfg: Config, s: State, p: Pass): State {
    if Ticks(cfg, s) then s.(result := p.tick) else s
  }

  function TickEvents(cfg: Config, s: State, p: Pass): seq<Event> {
    if Ticks(cfg, s) then [Ticked(p.tickNs, p.tick)] else []
  }

  /** One completed trip round the loop, with the states between its stages. */
  datatype Round = Round(pass: Pass, before: State, polled: State, submitted: State, refreshed: State, after: State)

  function MakeRound(cfg: Config, splash: Frame, s: State, p: Pass): Round {
    var polled := Polled(cfg, splash, s, p);
    var submitted := AfterFresh(cfg, polled, p);
    var refreshed := AfterRefresh(cfg, submitted, p);
    Round(p, s, polled, submitted, refreshed, AfterTick(cfg, refreshed, p))
  }

  function RoundEvents(cfg: Config, r: Round): seq<Event> {
    [Waited(PollTimeoutMs(cfg, r.before))] + FreshEvents(cfg, r.polled, r.pass)
    + RefreshEvents(cfg, r.submitted, r.pass) + TickEvents(cfg, r.refreshed, r.pass)
  }

  predicate Interrupted(p: Pass) {
    p.stopAtHead || p.stopAfterPoll
  }

  /** The rounds a run completes from state `s`. */
  function Rounds(cfg: Config, splash: Frame, s: State, passes: seq<Pass>): seq<Round>
    decreases |passes|
  {
    if passes == [] || Halted(s) || Interrupted(passes[0]) then []
    else
      var r := MakeRound(cfg, splash, s, passes[0]);
      [r] + Rounds(cfg, splash, r.after, passes[1..])
  }

  /** The state after one trip, whether it was completed or interrupted by a stop request. */
  function Turned(cfg: Config, splash: Frame, s: State, p: Pass): State {
    if Interrupted(p) then s.(stopped := true) else MakeRound(cfg, splash, s, p).after
  }

  function TurnEvents(cfg: Config, splash: Frame, s: State, p: Pass): seq<Event> {
    if p.stopAtHead then []
    else if p.stopAfterPoll then [Waited(PollTimeoutMs(cfg, s))]
    else RoundEvents(cfg, MakeRound(cfg, splash, s, p))
  }

  /** The state a run leaves behind. */
  function Final(cfg: Config, splash: Frame, s: State, passes: seq<Pass>): State
    decreases |passes|
  {
    if passes == [] || Halted(s) then s
    else Final(cfg, splash, Turned(cfg, splash, s, passes[0]), passes[1..])
  }

  /** Everything the backend and `poll` are asked for, in order. */
  function Events(cfg: Config, splash: Frame, s: State, passes: seq<Pass>): seq<Event>
    decreases |passes|
  {
    if passes == [] || Halted(s) then []
    else TurnEvents(cfg, splash, s, passes[0])
         + Events(cfg, splash, Turned(cfg, splash, s, passes[0]), passes[1..])
  }

  /** What `run_loop` comes to: still running when the script ends, or returned. */
  datatype Exit = Running | Returned(code: int, stopped: bool)

  function ExitOf(s: State): Exit {
    if Halted(s) then Returned(s.result, s.stopped) else Running
  }

  lemma Associative(a: seq<Event>, b: seq<Event>, c: seq<Event>)
    ensures (a + b) + c == a + (b + c)
  {
  }

  /** Unfolding a run by one trip. */
  lemma RunStep(cfg: Config, splash: Frame, s: State, passes: seq<Pass>, i: nat)
    requires i < |passes| && !Halted(s)
    ensures var next := Turned(cfg, splash, s, passes[i]);
      && Final(cfg, splash, s, passes[i..]) == Final(cfg, splash, next, passes[i + 1..])
      && Events(cfg, splash, s, passes[i..])
         == TurnEvents(cfg, splash, s, passes[i]) + Events(cfg, splash, next, passes[i + 1..])
  {
    assert passes[i..][0] == passes[i] && passes[i..][1..] == passes[i + 1..];
  }

  lemma NothingLeft(cfg: Config, splash: Frame, s: State, passes: seq<Pass>)
    requires passes == [] || Halted(s)
    ensures Final(cfg, splash, s, passes) == s && Events(cfg, splash, s, passes) == []
  {
  }

  /** The loop itself: its local variables are the fields, and each stage of a trip is a method. */
  class Loop {
    const cfg: Config
    const splashFrame: Frame
    var frame: Frame
    var frameValid: bool
    var pendingUpdate: Update
    var updatePending: bool
    var lastSubmitNs: u64
    var startupHoldUntilNs: u64
    var result: int
    var stopped: bool
    var events: seq<Event>

    ghost predicate Valid()
      reads this
    {
      !Halted(View()) ==> frameValid
    }

    /** The variables as a value. */
    ghost function View(): State
      reads this
    {
      State(frame, pendingUpdate, updatePending, lastSubmitNs, startupHoldUntilNs, result, stopped)
    }

    /** Everything before the `while`: prepare the splash and submit it once. */
    constructor (cfg: Config, start: Startup)
      ensures Valid() && this.cfg == cfg && splashFrame == SplashFrame(cfg, start.stampNs)
      ensures View() == Begin(cfg, start) && events == BeginEvents(cfg, start)
    {
      this.cfg := cfg;
      splashFrame := SplashFrame(cfg, start.stampNs);
      frame := SplashFrame(cfg, start.stampNs);
      frameValid, updatePending, stopped := false, false, false;
      pendingUpdate := NO_UPDATE;
      lastSubmitNs, startupHoldUntilNs := 0, 0;
      result := start.prepare;
      events := [];
      new;
      if result == 0 {
        result := start.submit;
        events := [Submitted(First, frame, result)];
        if result == 0 {
          frameValid := true;
          lastSubmitNs := start.doneNs;
          if cfg.physical {
            startupHoldUntilNs := (lastSubmitNs + STARTUP_SPLASH_HOLD_NS) % WORD64;
          }
        }
      }
    }

    method Wait()
      requires Valid() && !Halted(View())
      modifies this`events
      ensures events == old(events) + [Waited(PollTimeoutMs(cfg, View()))]
    {
      var pollIntervalMs :=
        if frameValid && cfg.physical && frame.source == SOURCE_INITIAL then STARTUP_FRAME_INTERVAL_MS
        else BACKEND_TICK_INTERVAL_MS;
      events := events + [Waited(pollIntervalMs)];
    }

    method ReadStream(p: Pass)
      requires Valid() && !Halted(View())
      modifies this`result, this`updatePending, this`pendingUpdate, this`frame
      ensures Valid() && View() == Polled(cfg, splashFrame, old(View()), p)
    {
      match p.poll {
        case PollFailed(e) => result := -(e as int);
        case HungUp => result := -EIO;
        case Readable(ReadFailed(e)) => result := -(e as int);
        case Readable(ReadShort) => result := -EPROTO;
        case Readable(ReadUpdate(update)) =>
          result := ValidateUpdate(cfg.info, update, cfg.sizes);
          if result == 0 && update.source == SOURCE_INITIAL {
            updatePending := false;
            frame := splashFrame;
          } else if result == 0 {
            pendingUpdate := update;
            updatePending := true;
          }
        case _ =>
      }
    }

    method SubmitPending(p: Pass)
      requires Valid() && !stopped
      modifies this`result, this`updatePending, this`frame, this`lastSubmitNs, this`events
      ensures Valid() && View() == AfterFresh(cfg, old(View()), p)
      ensures events == old(events) + FreshEvents(cfg, old(View()), p)
    {
      if result == 0 && updatePending && p.nowNs >= startupHoldUntilNs {
        var previousSource := frame.source;
        frame := FrameOf(cfg, pendingUpdate, previousSource);
        result := p.submit;
        events := events + [Submitted(Fresh, frame, result)];
        if result == 0 {
          updatePending := false;
          lastSubmitNs := p.submitDoneNs;
        }
      }
    }

    method RefreshIdle(p: Pass)
      requires Valid() && !stopped
      modifies this`result, this`lastSubmitNs, this`events
      ensures Valid() && View() == AfterRefresh(cfg, old(View()), p)
      ensures events == old(events) + RefreshEvents(cfg, old(View()), p)
    {
      var refreshIntervalNs :=
        if frameValid && frame.source == SOURCE_INITIAL then STARTUP_FRAME_INTERVAL_MS * NS_PER_MS
        else IDLE_FRAME_REFRESH_NS;
      if result == 0 && frameValid && cfg.physical && p.nowNs >= lastSubmitNs
         && p.nowNs - lastSubmitNs >= refreshIntervalNs {
        result := p.refresh;
        events := events + [Submitted(Refresh, frame, result)];
        if result == 0 {
          lastSubmitNs := p.refreshDoneNs;
        }
      }
    }

    method Tick(p: Pass)
      requires Valid() && !stopped
      modifies this`result, this`events
      ensures Valid() && View() == AfterTick(cfg, old(View()), p)
      ensures events == old(events) + TickEvents(cfg, old(View()), p)
    {
      if result == 0 && cfg.ticks {
        result := p.tick;
        events := events + [Ticked(p.tickNs, result)];
      }
    }

    /** One trip round the loop; a stop request may cut it short before or after `poll`. */
    method Trip(p: Pass)
      requires Valid() && !Halted(View())
      modifies this
      ensures Valid() && View() == Turned(cfg, splashFrame, old(View()), p)
      ensures events == old(events) + TurnEvents(cfg, splashFrame, old(View()), p)
    {
      if p.stopAtHead {
        stopped := true;
      } else {
        Wait();
        if p.stopAfterPoll {
          stopped := true;
        } else {
          ReadStream(p);
          SubmitPending(p);
          RefreshIdle(p);
          Tick(p);
        }
      }
    }

    /** The trip for `passes[i]`, told in terms of what is still to come. */
    method Advance(passes: seq<Pass>, i: nat)
      requires Valid() && !Halted(View()) && i < |passes|
      modifies this
      ensures Valid()
      ensures old(Final(cfg, splashFrame, View(), passes[i..])) == Final(cfg, splashFrame, View(), passes[i + 1..])
      ensures old(events + Events(cfg, splashFrame, View(), passes[i..]))
              == events + Events(cfg, splashFrame, View(), passes[i + 1..])
    {
      ghost var s, before := View(), events;
      RunStep(cfg, splashFrame, s, passes, i);
      Trip(passes[i]);
      Associative(before, TurnEvents(cfg, splashFrame, s, passes[i]),
                  Events(cfg, splashFrame, View(), passes[i + 1..]));
    }

    /** The `while` loop: it refines the stage functions, with the same backend calls in the same order. */
    method Run(passes: seq<Pass>) returns (exit: Exit)
      requires Valid()
      modifies this
      ensures View() == Final(cfg, splashFrame, old(View()), passes)
      ensures events == old(events) + Events(cfg, splashFrame, old(View()), passes)
      ensures exit == ExitOf(View())
    {
      ghost var end := Final(cfg, splashFrame, View(), passes);
      ghost var log := events + Events(cfg, splashFrame, View(), passes);
      var i := 0;
      assert passes[0..] == passes;
      while i < |passes| && result == 0 && !stopped
        invariant 0 <= i <= |passes| && Valid()
        invariant end == Final(cfg, splashFrame, View(), passes[i..])
        invariant log == events + Events(cfg, splashFrame, View(), passes[i..])
      {
        Advance(passes, i);
        i := i + 1;
      }
      NothingLeft(cfg, splashFrame, View(), passes[i..]);
      exit := if result != 0 || stopped then Returned(result, stopped) else Running;
    }
  }

  method RunLoop(cfg: Config, start: Startup, passes: seq<Pass>) returns (exit: Exit, events: seq<Event>)
    ensures exit == ExitOf(Final(cfg, SplashFrame(cfg, start.stampNs), Begin(cfg, start), passes))
    ensures events == BeginEvents(cfg, start)
                      + Events(cfg, SplashFrame(cfg, start.stampNs), Begin(cfg, start), passes)
  {
    var loop := new Loop(cfg, start);
    exit := loop.Run(passes);
    events := loop.events;
  }

  /** Consecutive rounds share a state, and every round but the last ends well. */
  lemma {:induction false} RoundsChain(cfg: Config, splash: Frame, s: State, passes: seq<Pass>)
    ensures var rs := Rounds(cfg, splash, s, passes);
      && (rs != [] ==> rs[0].before == s)
      && (forall i :: 0 <= i < |rs| ==>
            && !Halted(rs[i].before)
            && rs[i] == MakeRound(cfg, splash, rs[i].before, rs[i].pass))
      && (forall i, j :: 0 <= i && j == i + 1 && j < |rs| ==> rs[j].before == rs[i].after)
    decreases |passes|
  {
    if passes != [] && !Halted(s) && !Interrupted(passes[0]) {
      var r := MakeRound(cfg, splash, s, passes[0]);
      RoundsChain(cfg, splash, r.after, passes[1..]);
    }
  }
}
