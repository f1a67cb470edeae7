/**
 * The reconnect supervisor in `main`, with `reopen_frame_stream` and `sleep_milliseconds`.
 *
 * Argument parsing, library loading and the first opening of the stream precede this model: it starts with
 * the stream open and mapped, and ends after the cleanup at the bottom of `main`. As in the dispatcher, an
 * attempt script lists the environment's answers; every attempt contains the script of its own `run_loop`.
 */
module Supervisor {
  import opened Abi
  import opened Marker
  import D = Dispatcher

  datatype Config = Config(path: string, pid: nat, name: Option<string>, loop: D.Config, retryMs: nat)

  /** One `nanosleep` call: completed, cut short by a signal after some nanoseconds, or failed. */
  datatype SleepStep = SleepDone | SleepCut(slept: nat, stop: bool) | SleepFailed(error: Errno)

  datatype Nap = Nap(result: int, sleptNs: nat, stop: bool)

  /** `sleep_milliseconds` with `leftNs` to go; calls beyond the script sleep to the end. */
  function Sleep(leftNs: nat, sleptNs: nat, steps: seq<SleepStep>, stop: bool): Nap
    decreases |steps|
  {
    if stop then Nap(0, sleptNs, true)
    else if steps == [] then Nap(0, sleptNs + leftNs, false)
    else match steps[0]
      case SleepDone => Nap(0, sleptNs + leftNs, false)
      case SleepCut(t, s) =>
        var cut := if t < leftNs then t else leftNs;
        Sleep(leftNs - cut, sleptNs + cut, steps[1..], s)
      case SleepFailed(e) => Nap(-(e as int), sleptNs, false)
  }

  /** Interrupted sleeps resume where they stopped: unless stopped or failed, exactly the delay is slept. */
  lemma {:induction false} SleepConserves(leftNs: nat, sleptNs: nat, steps: seq<SleepStep>, stop: bool)
    ensures var nap := Sleep(leftNs, sleptNs, steps, stop);
      && sleptNs <= nap.sleptNs <= sleptNs + leftNs
      && (nap.result == 0 && !nap.stop ==> nap.sleptNs == sleptNs + leftNs)
      && (nap.result != 0 ==> !nap.stop)
    decreases |steps|
  {
    if !stop && steps != [] && steps[0].SleepCut? {
      var cut := if steps[0].slept < leftNs then steps[0].slept else leftNs;
      SleepConserves(leftNs - cut, sleptNs + cut, steps[1..], steps[0].stop);
    }
  }

  function DelayNs(ms: nat): nat {
    ms / 1000 * 1_000_000_000 + ms % 1000 * 1_000_000
  }

  method SleepMilliseconds(ms: nat, steps: seq<SleepStep>, stopRequested: bool) returns (nap: Nap)
    ensures nap == Sleep(ms * 1_000_000, 0, steps, stopRequested)
    ensures nap.result == 0 && !nap.stop ==> nap.sleptNs == ms * 1_000_000
  {
    var left: nat, slept: nat, i, result, stop, asleep := DelayNs(ms), 0, 0, 0, stopRequested, true;
    while !stop && result == 0 && asleep
      invariant 0 <= i <= |steps|
      invariant asleep && result == 0 ==>
                  Sleep(ms * 1_000_000, 0, steps, stopRequested) == Sleep(left, slept, steps[i..], stop)
      invariant !asleep || result != 0 ==>
                  Sleep(ms * 1_000_000, 0, steps, stopRequested) == Nap(result, slept, stop)
      decreases |steps| - i, asleep, result == 0
    {
      if i == |steps| {
        slept, left, asleep := slept + left, 0, false;
      } else {
        assert steps[i..][0] == steps[i] && steps[i..][1..] == steps[i + 1..];
        match steps[i] {
          case SleepDone =>
            slept, left, asleep := slept + left, 0, false;
          case SleepCut(t, s) =>
            var cut := if t < left then t else left;
            slept, left, stop := slept + cut, left - cut, s;
          case SleepFailed(e) =>
            result := -(e as int);
        }
        i := i + 1;
      }
    }
    nap := Nap(result, slept, stop);
    SleepConserves(ms * 1_000_000, 0, steps, stopRequested);
  }

  /** What an outside observer of resources, marker and backend sees. */
  datatype Event =
    | BackendOpened(code: int, context: bool)
    | BackendClosed(context: bool)
    | StreamUnmapped
    | StreamClosed
    | StreamOpened
    | StreamMapped
    | Published(claim: Claim, visible: bool)
    | Removed(ok: bool)
    | LoopEntered
    | LoopLeft
    | Paused(ns: nat)

  datatype ReopenEnv = ReopenEnv(unmap: nat, open: nat, remap: nat)

  datatype RunScript = RunScript(start: D.Startup, passes: seq<D.Pass>)

  /** The answers of the environment to one trip round the supervisor's loop. */
  datatype Attempt = Attempt(
    stopBefore: bool, open: int, context: bool, reopen: ReopenEnv, publish: PublishEnv, run: RunScript,
    stopAfterRun: bool, unlinkOk: bool, sleep: seq<SleepStep>)

  /**
   * The supervisor's variables; `seen` lists every content the marker file has had so far, `inLoop` says that
   * the script ended inside `run_loop`.
   */
  datatype State = State(
    fd: bool, mapped: bool, reopenCount: u64, reopenPending: bool, retryCount: u32, result: int, stop: bool,
    inLoop: bool, seen: seq<Option<string>>)

  const INITIAL := State(true, true, 0, false, 0, 0, false, false, [None])

  datatype Reopened = Reopened(code: int, fd: bool, mapped: bool, events: seq<Event>)

  /** `reopen_frame_stream`. */
  function Reopen(fd: bool, mapped: bool, env: ReopenEnv): Reopened {
    if mapped && env.unmap != 0 then Reopened(-(env.unmap as int), fd, mapped, [])
    else
      var released := (if mapped then [StreamUnmapped] else []) + (if fd then [StreamClosed] else []);
      if env.open != 0 then Reopened(-(env.open as int), false, false, released)
      else if env.remap != 0 then
        Reopened(-(env.remap as int), false, false, released + [StreamOpened, StreamClosed])
      else Reopened(0, true, true, released + [StreamOpened, StreamMapped])
  }

  /** `reopen_frame_stream`, on the two handles it is given. */
  method ReopenFrameStream(fd: bool, mapped: bool, env: ReopenEnv)
    returns (result: int, newFd: bool, newMapped: bool, events: seq<Event>)
    ensures Reopen(fd, mapped, env) == Reopened(result, newFd, newMapped, events)
    ensures result == 0 ==> newFd && newMapped
    ensures result != 0 ==> (newFd == fd && newMapped == mapped && events == []) || (!newFd && !newMapped)
  {
    result, newFd, newMapped, events := 0, fd, mapped, [];
    var descriptor := false;
    if newMapped {
      if env.unmap != 0 {
        result := -(env.unmap as int);
      } else {
        newMapped := false;
        events := events + [StreamUnmapped];
      }
    }
    if result == 0 && newFd {
      newFd := false;
      events := events + [StreamClosed];
    }
    if result == 0 {
      if env.open != 0 {
        result := -(env.open as int);
      } else {
        descriptor := true;
        events := events + [StreamOpened];
      }
    }
    var remapped := false;
    if result == 0 {
      if env.remap != 0 {
        result := -(env.remap as int);
      } else {
        remapped := true;
        events := events + [StreamMapped];
      }
    }
    if result == 0 {
      newFd, newMapped, descriptor := true, remapped, false;
    }
    if descriptor {
      events := events + [StreamClosed];
    }
  }

  function ClaimOf(cfg: Config, generation: u64): Claim {
    Claim(cfg.pid, generation, cfg.name, cfg.loop.physical)
  }

  function LoopExit(cfg: Config, run: RunScript): D.Exit {
    D.ExitOf(D.Final(cfg.loop, D.SplashFrame(cfg.loop, run.start.stampNs), D.Begin(cfg.loop, run.start), run.passes))
  }

  datatype Step = Step(state: State, events: seq<Event>)

  /** Backing off: close what the failed attempt left open, count the retry and sleep. */
  function BackOff(cfg: Config, s: State, a: Attempt): Step {
    var nap := Sleep(cfg.retryMs * 1_000_000, 0, a.sleep, s.stop);
    Step(s.(retryCount := (s.retryCount + 1) % WORD32, result := nap.result, stop := nap.stop),
         (if a.context then [BackendClosed(true)] else []) + [Paused(nap.sleptNs)])
  }

  /** After `run_loop` returned: remove the marker, close the backend, and decide how to go on. */
  function Leave(cfg: Config, s: State, a: Attempt, loopResult: int, stopped: bool): Step {
    var stop := stopped || a.stopAfterRun;
    var s1 := if cfg.path != "" && a.unlinkOk then s.(seen := Cleared(s.seen)) else s;
    var events := [LoopLeft, Removed(cfg.path != "" && a.unlinkOk), BackendClosed(a.context)];
    if loopResult != 0 && !stop then
      var nap := Sleep(cfg.retryMs * 1_000_000, 0, a.sleep, false);
      Step(s1.(reopenPending := true, result := nap.result, stop := nap.stop), events + [Paused(nap.sleptNs)])
    else Step(s1.(result := 0, stop := stop), events)
  }

  /** Number the generation. */
  function Numbered(s: State): State {
    s.(reopenCount := if s.reopenPending then (s.reopenCount + 1) % WORD64 else s.reopenCount,
       reopenPending := false, retryCount := 0)
  }

  function GenerationOf(s: State): u64 {
    (s.reopenCount + 1) % WORD64
  }

  /** Run the dispatcher and deal with its return. */
  function Serve(cfg: Config, s: State, a: Attempt): Step {
    match LoopExit(cfg, a.run)
    case Running => Step(s.(inLoop := true), [LoopEntered])
    case Returned(loopResult, stopped) =>
      var left := Leave(cfg, s, a, loopResult, stopped);
      Step(left.state, [LoopEntered] + left.events)
  }

  /** A successful publication shows its text, unless the marker is turned off. */
  function Shown(cfg: Config, s: State, claim: Claim): State {
    if cfg.path != "" then s.(seen := s.seen + [Some(MarkerText(claim))]) else s
  }

  /** Publish and run one generation, given an open backend and a live stream. */
  function Generation(cfg: Config, s: State, a: Attempt): Step {
    var s1 := Numbered(s);
    var claim := ClaimOf(cfg, GenerationOf(s1));
    var code := PublishCode(cfg.path, claim, a.publish);
    if code != 0 then Step(s1.(result := code), [BackendClosed(a.context)])
    else
      var served := Serve(cfg, Shown(cfg, s1, claim), a);
      Step(served.state, [Published(claim, cfg.path != "")] + served.events)
  }

  /** Open the backend and, after a lost transport, the stream. */
  datatype Acquired = Acquired(code: int, state: State, events: seq<Event>)

  function Acquire(s: State, a: Attempt): Acquired {
    var tried := [BackendOpened(a.open, a.context)];
    if a.open == 0 && s.reopenPending then
      var r := Reopen(s.fd, s.mapped, a.reopen);
      Acquired(r.code, s.(fd := r.fd, mapped := r.mapped), tried + r.events)
    else Acquired(a.open, s, tried)
  }

  function Proceed(cfg: Config, acquired: Acquired, a: Attempt): Step {
    if acquired.code != 0 then BackOff(cfg, acquired.state, a) else Generation(cfg, acquired.state, a)
  }

  /** One trip round the supervisor's loop. */
  function Turn(cfg: Config, s: State, a: Attempt): Step {
    var acquired := Acquire(s, a);
    var next := Proceed(cfg, acquired, a);
    Step(next.state, acquired.events + next.events)
  }

  predicate Done(s: State) {
    s.result != 0 || s.stop || s.inLoop
  }

  /** All trips of a script; a stop request before a trip ends the loop. */
  function Run(cfg: Config, s: State, attempts: seq<Attempt>): Step
    decreases |attempts|
  {
    if attempts == [] || Done(s) then Step(s, [])
    else if attempts[0].stopBefore then Step(s.(stop := true), [])
    else
      var t := Turn(cfg, s, attempts[0]);
      var rest := Run(cfg, t.state, attempts[1..]);
      Step(rest.state, t.events + rest.events)
  }

  type Turner = (State, Attempt) -> Step

  function TurnOf(cfg: Config): Turner {
    (s: State, a: Attempt) => Turn(cfg, s, a)
  }

  /** The same loop over trips of any kind. */
  function RunBy(turn: Turner, s: State, attempts: seq<Attempt>): Step
    decreases |attempts|
  {
    if attempts == [] || Done(s) then Step(s, [])
    else if attempts[0].stopBefore then Step(s.(stop := true), [])
    else
      var t := turn(s, attempts[0]);
      var rest := RunBy(turn, t.state, attempts[1..]);
      Step(rest.state, t.events + rest.events)
  }

  lemma {:induction false} RunIsRunBy(cfg: Config, s: State, attempts: seq<Attempt>)
    ensures Run(cfg, s, attempts) == RunBy(TurnOf(cfg), s, attempts)
    decreases |attempts|
  {
    if attempts != [] && !Done(s) && !attempts[0].stopBefore {
      RunIsRunBy(cfg, Turn(cfg, s, attempts[0]).state, attempts[1..]);
    }
  }

  lemma Associative(a: seq<Event>, b: seq<Event>, c: seq<Event>)
    ensures (a + b) + c == a + (b + c)
  {
  }

  /** Unfolding a run by one trip. */
  lemma RunStep(cfg: Config, s: State, attempts: seq<Attempt>, i: nat)
    requires i < |attempts| && !Done(s)
    ensures var run := Run(cfg, s, attempts[i..]);
      if attempts[i].stopBefore then
        run == Step(s.(stop := true), []) == Run(cfg, s.(stop := true), attempts[i + 1..])
      else
        var t := Turn(cfg, s, attempts[i]);
        && run.state == Run(cfg, t.state, attempts[i + 1..]).state
        && run.events == t.events + Run(cfg, t.state, attempts[i + 1..]).events
  {
    assert attempts[i..][0] == attempts[i] && attempts[i..][1..] == attempts[i + 1..];
  }

  /** After the loop: remove the marker once more, then release the stream. */
  function Cleanup(cfg: Config, s: State, unlinkOk: bool): seq<Event> {
    [Removed(cfg.path != "" && unlinkOk)]
    + (if s.mapped then [StreamUnmapped] else []) + (if s.fd then [StreamClosed] else [])
  }

  /** Everything the daemon does: its loop and, if the loop has ended, the cleanup of `main`. */
  function Lifetime(cfg: Config, attempts: seq<Attempt>, unlinkOk: bool): seq<Event> {
    var run := Run(cfg, INITIAL, attempts);
    run.events + if run.state.inLoop || !Done(run.state) then [] else Cleanup(cfg, run.state, unlinkOk)
  }

  /** Everything that was to be seen at the marker's path by then. */
  function LifetimeSeen(cfg: Config, attempts: seq<Attempt>, unlinkOk: bool): seq<Option<string>> {
    var run := Run(cfg, INITIAL, attempts);
    if !run.state.inLoop && Done(run.state) && cfg.path != "" && unlinkOk then Cleared(run.state.seen)
    else run.state.seen
  }

  /** The daemon, variable by variable, with the marker directory it works on. */
  class Daemon {
    const cfg: Config
    const directory: Directory
    var deviceFd: bool
    var mapping: bool
    var reopenCount: u64
    var generation: u64
    var reopenPending: bool
    var retryCount: u32
    var result: int
    var stopRequested: bool
    var inLoop: bool
    var events: seq<Event>

    ghost function View(): State
      reads this, directory
    {
      State(deviceFd, mapping, reopenCount, reopenPending, retryCount, result, stopRequested, inLoop, directory.seen)
    }

    constructor (cfg: Config, directory: Directory)
      ensures this.cfg == cfg && this.directory == directory
      ensures View() == INITIAL.(seen := directory.seen) && events == []
    {
      this.cfg, this.directory := cfg, directory;
      deviceFd, mapping, reopenCount, generation, reopenPending := true, true, 0, 1, false;
      retryCount, result, stopRequested, inLoop, events := 0, 0, false, false, [];
    }

    /** The branch for a failed open: close a left-over context, sleep, try again. */
    method RetryLater(a: Attempt)
      modifies this
      ensures View() == BackOff(cfg, old(View()), a).state
      ensures events == old(events) + BackOff(cfg, old(View()), a).events
    {
      if a.context {
        events := events + [BackendClosed(true)];
      }
      retryCount := (retryCount + 1) % WORD32;
      var nap := SleepMilliseconds(cfg.retryMs, a.sleep, stopRequested);
      result, stopRequested := nap.result, nap.stop;
      events := events + [Paused(nap.sleptNs)];
    }

    /** The tail of a generation, once `run_loop` has returned. */
    method LeaveLoop(a: Attempt, loopResult: int, stopped: bool)
      requires directory.Valid()
      modifies this, directory
      ensures directory.Valid() && View() == Leave(cfg, old(View()), a, loopResult, stopped).state
      ensures events == old(events) + Leave(cfg, old(View()), a, loopResult, stopped).events
    {
      stopRequested := stopped || a.stopAfterRun;
      directory.Remove(cfg.path, a.unlinkOk);
      events := events + [LoopLeft, Removed(cfg.path != "" && a.unlinkOk), BackendClosed(a.context)];
      if loopResult != 0 && !stopRequested {
        reopenPending := true;
        var nap := SleepMilliseconds(cfg.retryMs, a.sleep, stopRequested);
        result, stopRequested := nap.result, nap.stop;
        events := events + [Paused(nap.sleptNs)];
      } else {
        result := 0;
      }
    }

    method NumberGeneration()
      modifies this`retryCount, this`reopenCount, this`reopenPending, this`generation
      ensures View() == Numbered(old(View())) && generation == GenerationOf(View())
    {
      retryCount := 0;
      if reopenPending {
        reopenCount := (reopenCount + 1) % WORD64;
        reopenPending := false;
      }
      generation := (reopenCount + 1) % WORD64;
    }

    /** Between publication and the next trip: `run_loop` and its aftermath. */
    method ServeGeneration(a: Attempt)
      requires !Done(View())
      requires directory.Valid()
      modifies this, directory
      ensures directory.Valid() && View() == Serve(cfg, old(View()), a).state
      ensures events == old(events) + Serve(cfg, old(View()), a).events
    {
      events := events + [LoopEntered];
      var exit, calls := D.RunLoop(cfg.loop, a.run.start, a.run.passes);
      match exit {
        case Running => inLoop := true;
        case Returned(loopResult, stopped) => LeaveLoop(a, loopResult, stopped);
      }
    }

    /** Publish a claim. */
    method Announce(a: Attempt, claim: Claim)
      requires result == 0 && directory.Valid()
      modifies this`result, directory
      ensures directory.Valid() && events == old(events)
      ensures var code := PublishCode(cfg.path, claim, a.publish);
        View() == if code != 0 then old(View()).(result := code) else Shown(cfg, old(View()), claim)
    {
      result := directory.Publish(cfg.path, claim, a.publish);
    }

    /** The branch for an open backend: number the generation, publish, run, remove, close. */
    method RunGeneration(a: Attempt)
      requires !Done(View())
      requires directory.Valid()
      modifies this, directory
      ensures directory.Valid() && View() == Generation(cfg, old(View()), a).state
      ensures events == old(events) + Generation(cfg, old(View()), a).events
    {
      NumberGeneration();
      var claim := ClaimOf(cfg, generation);
      Announce(a, claim);
      if result != 0 {
        events := events + [BackendClosed(a.context)];
      } else {
        events := events + [Published(claim, cfg.path != "")];
        ServeGeneration(a);
      }
    }

    method AcquireTransport(a: Attempt) returns (openResult: int)
      requires !Done(View())
      modifies this`events, this`deviceFd, this`mapping
      ensures Acquire(old(View()), a).code == openResult && Acquire(old(View()), a).state == View()
      ensures events == old(events) + Acquire(old(View()), a).events
    {
      openResult := a.open;
      events := events + [BackendOpened(openResult, a.context)];
      if openResult == 0 && reopenPending {
        var made;
        openResult, deviceFd, mapping, made := ReopenFrameStream(deviceFd, mapping, a.reopen);
        events := events + made;
      }
    }

    /** One trip: open the backend, reopen the stream if a transport was lost, then run or back off. */
    method Trip(a: Attempt)
      requires !Done(View())
      requires directory.Valid()
      modifies this, directory
      ensures directory.Valid() && View() == Turn(cfg, old(View()), a).state
      ensures events == old(events) + Turn(cfg, old(View()), a).events
    {
      ghost var s, log := View(), events;
      var openResult := AcquireTransport(a);
      ghost var acquired := Acquire(s, a);
      if openResult != 0 {
        RetryLater(a);
      } else {
        RunGeneration(a);
      }
      Associative(log, acquired.events, Proceed(cfg, acquired, a).events);
    }

    /** The trip for `attempts[i]`, told in terms of what is still to come. */
    method Advance(attempts: seq<Attempt>, i: nat)
      requires !Done(View()) && i < |attempts|
      requires directory.Valid()
      modifies this, directory
      ensures directory.Valid()
      ensures old(Run(cfg, View(), attempts[i..]).state) == Run(cfg, View(), attempts[i + 1..]).state
      ensures old(events + Run(cfg, View(), attempts[i..]).events)
              == events + Run(cfg, View(), attempts[i + 1..]).events
    {
      ghost var s, log := View(), events;
      RunStep(cfg, s, attempts, i);
      if attempts[i].stopBefore {
        stopRequested := true;
      } else {
        Trip(attempts[i]);
        Associative(log, Turn(cfg, s, attempts[i]).events, Run(cfg, View(), attempts[i + 1..]).events);
      }
    }

    /** The supervisor's loop. */
    method Supervise(attempts: seq<Attempt>)
      requires directory.Valid()
      modifies this, directory
      ensures directory.Valid() && View() == Run(cfg, old(View()), attempts).state
      ensures events == old(events) + Run(cfg, old(View()), attempts).events
    {
      ghost var end, log := Run(cfg, View(), attempts).state, events + Run(cfg, View(), attempts).events;
      var i := 0;
      assert attempts[0..] == attempts;
      while i < |attempts| && result == 0 && !stopRequested && !inLoop
        invariant 0 <= i <= |attempts| && directory.Valid()
        invariant end == Run(cfg, View(), attempts[i..]).state
        invariant log == events + Run(cfg, View(), attempts[i..]).events
      {
        Advance(attempts, i);
        i := i + 1;
      }
    }

    /** The end of `main`: the marker goes, then mapping and descriptor; a stop request makes it a success. */
    method CleanUp(unlinkOk: bool) returns (exit: int)
      requires directory.Valid()
      modifies this, directory
      ensures directory.Valid() && !deviceFd && !mapping
      ensures cfg.path != "" && unlinkOk ==> directory.ready == None
      ensures directory.seen
              == if cfg.path != "" && unlinkOk then Cleared(old(directory.seen)) else old(directory.seen)
      ensures events == old(events) + Cleanup(cfg, old(View()), unlinkOk)
      ensures exit == 0 <==> old(stopRequested || result == 0)
    {
      directory.Remove(cfg.path, unlinkOk);
      events := events + [Removed(cfg.path != "" && unlinkOk)];
      if stopRequested {
        result := 0;
      }
      if mapping {
        mapping := false;
        events := events + [StreamUnmapped];
      }
      if deviceFd {
        deviceFd := false;
        events := events + [StreamClosed];
      }
      exit := result;
    }

    /** The daemon from its first backend open to its exit, as far as the script goes. */
    method Live(attempts: seq<Attempt>, unlinkOk: bool) returns (exit: int)
      requires directory.Valid() && View() == INITIAL && events == []
      modifies this, directory
      ensures events == Lifetime(cfg, attempts, unlinkOk)
      ensures directory.seen == LifetimeSeen(cfg, attempts, unlinkOk)
      ensures var end := Run(cfg, INITIAL, attempts).state;
        !end.inLoop && Done(end) ==> (exit == 0 <==> end.stop)
    {
      exit := 0;
      Supervise(attempts);
      ghost var run := Run(cfg, INITIAL, attempts);
      assert View() == run.state && events == run.events;
      if !inLoop && (result != 0 || stopRequested) {
        exit := CleanUp(unlinkOk);
      }
    }
  }
}
