/** The reconnect loop reconnects: what ends the daemon, and what it does as long as nothing does. */
module Reconnect {
  import opened Abi
  import opened Marker
  import opened Supervisor
  import D = Dispatcher

  /** The heartbeat of a log: openings of the backend, and pauses in nanoseconds. */
  datatype Beat = Opening(code: int, context: bool) | Pausing(ns: nat)

  function Beats(log: seq<Event>): seq<Beat>
    decreases |log|
  {
    if log == [] then []
    else
      (match log[0]
       case BackendOpened(code, context) => [Opening(code, context)]
       case Paused(ns) => [Pausing(ns)]
       case _ => [])
      + Beats(log[1..])
  }

  lemma {:induction false} BeatsSplit(a: seq<Event>, b: seq<Event>)
    ensures Beats(a + b) == Beats(a) + Beats(b)
    decreases |a|
  {
    if a == [] {
      assert a + b == b;
    } else {
      assert (a + b)[0] == a[0] && (a + b)[1..] == a[1..] + b;
      BeatsSplit(a[1..], b);
    }
  }

  predicate Silent(log: seq<Event>) {
    forall i :: 0 <= i < |log| ==> !log[i].BackendOpened? && !log[i].Paused?
  }

  lemma {:induction false} SilentBeats(log: seq<Event>)
    requires Silent(log)
    ensures Beats(log) == []
    decreases |log|
  {
    if log != [] {
      SilentBeats(log[1..]);
    }
  }

  /** No sleep of a script fails or meets a stop request, however often it is cut short. */
  predicate SleepsWell(steps: seq<SleepStep>) {
    forall i :: 0 <= i < |steps| ==> !steps[i].SleepFailed? && (steps[i].SleepCut? ==> !steps[i].stop)
  }

  /** No stop request comes while `run_loop` works. */
  predicate RunsOn(passes: seq<D.Pass>) {
    forall i :: 0 <= i < |passes| ==> !passes[i].stopAtHead && !passes[i].stopAfterPoll
  }

  /** The marker can be published, whatever the generation. */
  ghost predicate Publishable(cfg: Config, a: Attempt) {
    forall g: u64 :: PublishCode(cfg.path, Claim(cfg.pid, g, cfg.name, cfg.loop.physical), a.publish) == 0
  }

  /** An attempt without a stop request, a failing publication or a failing sleep. All else may fail. */
  ghost predicate Undisturbed(cfg: Config, a: Attempt) {
    && !a.stopBefore && !a.stopAfterRun && SleepsWell(a.sleep) && RunsOn(a.run.passes) && Publishable(cfg, a)
  }

  lemma {:induction false} SleepsThrough(leftNs: nat, sleptNs: nat, steps: seq<SleepStep>)
    requires SleepsWell(steps)
    ensures Sleep(leftNs, sleptNs, steps, false) == Nap(0, sleptNs + leftNs, false)
    decreases |steps|
  {
    if steps != [] && steps[0].SleepCut? {
      var cut := if steps[0].slept < leftNs then steps[0].slept else leftNs;
      assert !steps[0].stop;
      SleepsThrough(leftNs - cut, sleptNs + cut, steps[1..]);
    }
  }

  lemma {:induction false} NeverStopped(loop: D.Config, splash: Frame, s: D.State, passes: seq<D.Pass>)
    requires RunsOn(passes) && !s.stopped
    ensures !D.Final(loop, splash, s, passes).stopped
    decreases |passes|
  {
    if passes != [] && !D.Halted(s) {
      assert !passes[0].stopAtHead && !passes[0].stopAfterPoll;
      NeverStopped(loop, splash, D.Turned(loop, splash, s, passes[0]), passes[1..]);
    }
  }

  /** Without a stop request `run_loop` returns with an error if it returns. */
  lemma ReturnsWithError(cfg: Config, run: RunScript)
    requires RunsOn(run.passes)
    ensures LoopExit(cfg, run) == D.Running || (LoopExit(cfg, run).code != 0 && !LoopExit(cfg, run).stopped)
  {
    NeverStopped(cfg.loop, D.SplashFrame(cfg.loop, run.start.stampNs), D.Begin(cfg.loop, run.start), run.passes);
  }

  predicate GoesOn(s: State) {
    s.result == 0 && !s.stop && !s.inLoop
  }

  lemma AcquireBeats(s: State, a: Attempt)
    ensures Beats(Acquire(s, a).events) == [Opening(a.open, a.context)]
  {
    var tried := [BackendOpened(a.open, a.context)];
    assert tried[1..] == [];
    if a.open == 0 && s.reopenPending {
      var reopened := Reopen(s.fd, s.mapped, a.reopen).events;
      BeatsSplit(tried, reopened);
      SilentBeats(reopened);
    }
  }

  lemma BackOffBeats(cfg: Config, s: State, a: Attempt)
    requires GoesOn(s) && Undisturbed(cfg, a)
    ensures var b := BackOff(cfg, s, a);
      GoesOn(b.state) && Beats(b.events) == [Pausing(cfg.retryMs * 1_000_000)]
  {
    SleepsThrough(cfg.retryMs * 1_000_000, 0, a.sleep);
    LastPause(if a.context then [BackendClosed(true)] else [], cfg.retryMs * 1_000_000);
  }

  lemma LastPause(before: seq<Event>, ns: nat)
    requires Silent(before)
    ensures Beats(before + [Paused(ns)]) == [Pausing(ns)]
  {
    BeatsSplit(before, [Paused(ns)]);
    SilentBeats(before);
    assert [Paused(ns)][1..] == [];
  }

  /** A generation keeps running, or its transport is lost and the daemon pauses. */
  lemma GenerationBeats(cfg: Config, s: State, a: Attempt)
    requires GoesOn(s) && Undisturbed(cfg, a)
    ensures var g := Generation(cfg, s, a);
      if g.state.inLoop then
        LoopExit(cfg, a.run) == D.Running && Beats(g.events) == [] && g.events != []
        && g.events[|g.events| - 1] == LoopEntered
      else GoesOn(g.state) && Beats(g.events) == [Pausing(cfg.retryMs * 1_000_000)]
  {
    var claim := ClaimOf(cfg, GenerationOf(Numbered(s)));
    assert claim == Claim(cfg.pid, claim.generation, cfg.name, cfg.loop.physical);
    assert PublishCode(cfg.path, claim, a.publish) == 0;
    SleepsThrough(cfg.retryMs * 1_000_000, 0, a.sleep);
    ReturnsWithError(cfg, a.run);
    var before := [Published(claim, cfg.path != "")] + [LoopEntered];
    if LoopExit(cfg, a.run).Running? {
      SilentBeats(before);
    } else {
      var left := [LoopLeft, Removed(cfg.path != "" && a.unlinkOk), BackendClosed(a.context)];
      LastPause(before + left, cfg.retryMs * 1_000_000);
      assert Generation(cfg, s, a).events == before + left + [Paused(cfg.retryMs * 1_000_000)];
    }
  }

  /** One attempt: the backend is opened once, and either `run_loop` still works or the daemon pauses and goes on. */
  predicate OneAttempt(cfg: Config, a: Attempt, t: Step) {
    if t.state.inLoop then
      LoopExit(cfg, a.run) == D.Running && Beats(t.events) == [Opening(a.open, a.context)]
      && t.events != [] && t.events[|t.events| - 1] == LoopEntered
    else
      GoesOn(t.state) && Beats(t.events) == [Opening(a.open, a.context), Pausing(cfg.retryMs * 1_000_000)]
  }

  lemma TurnBeats(cfg: Config, s: State, a: Attempt)
    requires GoesOn(s) && Undisturbed(cfg, a)
    ensures OneAttempt(cfg, a, Turn(cfg, s, a))
  {
    var acquired := Acquire(s, a);
    AcquireBeats(s, a);
    BeatsSplit(acquired.events, Proceed(cfg, acquired, a).events);
    if acquired.code != 0 {
      BackOffBeats(cfg, acquired.state, a);
    } else {
      GenerationBeats(cfg, acquired.state, a);
    }
  }

  /** The heartbeat of the first `n` attempts, each followed by the retry pause. */
  function Pulse(cfg: Config, attempts: seq<Attempt>, n: nat): seq<Beat>
    requires n <= |attempts|
  {
    if n == 0 then []
    else [Opening(attempts[0].open, attempts[0].context), Pausing(cfg.retryMs * 1_000_000)]
         + Pulse(cfg, attempts[1..], n - 1)
  }

  /** What a run over undisturbed attempts comes to, after `n` of them. */
  ghost predicate WentOn(cfg: Config, attempts: seq<Attempt>, run: Step, n: nat) {
    && n <= |attempts|
    && if run.state.inLoop then
         && n < |attempts| && LoopExit(cfg, attempts[n].run) == D.Running
         && Beats(run.events) == Pulse(cfg, attempts, n) + [Opening(attempts[n].open, attempts[n].context)]
         && run.events != [] && run.events[|run.events| - 1] == LoopEntered
       else n == |attempts| && GoesOn(run.state) && Beats(run.events) == Pulse(cfg, attempts, n)
  }

  ghost predicate Steady(cfg: Config, turn: Turner) {
    forall s: State, a: Attempt {:trigger turn(s, a)} ::
      GoesOn(s) && Undisturbed(cfg, a) ==> OneAttempt(cfg, a, turn(s, a))
  }

  lemma {:induction false} RunBeats(cfg: Config, turn: Turner, s: State, attempts: seq<Attempt>) returns (n: nat)
    requires Steady(cfg, turn) && GoesOn(s) && forall i :: 0 <= i < |attempts| ==> Undisturbed(cfg, attempts[i])
    ensures WentOn(cfg, attempts, RunBy(turn, s, attempts), n)
    decreases |attempts|
  {
    n := 0;
    if attempts != [] {
      var t := turn(s, attempts[0]);
      assert OneAttempt(cfg, attempts[0], t) && !attempts[0].stopBefore;
      if t.state.inLoop {
        assert RunBy(turn, t.state, attempts[1..]) == Step(t.state, []);
        assert t.events + [] == t.events;
      } else {
        n := RunBeats(cfg, turn, t.state, attempts[1..]);
        WentFurther(cfg, attempts, t, RunBy(turn, t.state, attempts[1..]), n);
        n := n + 1;
      }
    }
  }

  lemma WentFurther(cfg: Config, attempts: seq<Attempt>, t: Step, rest: Step, n: nat)
    requires attempts != [] && !t.state.inLoop && OneAttempt(cfg, attempts[0], t) && WentOn(cfg, attempts[1..], rest, n)
    ensures WentOn(cfg, attempts, Step(rest.state, t.events + rest.events), n + 1)
  {
    BeatsSplit(t.events, rest.events);
  }

  /**
   * The reconnect loop reconnects. If no stop request comes and no publication and no sleep fails, the daemon makes
   * attempt after attempt, after failed opens and after lost transports alike: it opens the backend exactly once
   * for each and pauses for the retry delay in between, until the script is used up or a `run_loop` still works.
   */
  lemma KeepsTrying(cfg: Config, attempts: seq<Attempt>) returns (n: nat)
    requires forall i :: 0 <= i < |attempts| ==> Undisturbed(cfg, attempts[i])
    ensures WentOn(cfg, attempts, Run(cfg, INITIAL, attempts), n)
  {
    forall s: State, a: Attempt | GoesOn(s) && Undisturbed(cfg, a)
      ensures OneAttempt(cfg, a, TurnOf(cfg)(s, a))
    {
      TurnBeats(cfg, s, a);
    }
    RunIsRunBy(cfg, INITIAL, attempts);
    n := RunBeats(cfg, TurnOf(cfg), INITIAL, attempts);
  }

  /** How many attempts a log shows. */
  function Openings(log: seq<Event>): nat {
    if log == [] then 0 else (if log[0].BackendOpened? then 1 else 0) + Openings(log[1..])
  }

  lemma {:induction false} OpeningsSplit(a: seq<Event>, b: seq<Event>)
    ensures Openings(a + b) == Openings(a) + Openings(b)
  {
    if a == [] {
      assert a + b == b;
    } else {
      assert (a + b)[0] == a[0] && (a + b)[1..] == a[1..] + b;
      OpeningsSplit(a[1..], b);
    }
  }

  predicate NoOpening(log: seq<Event>) {
    forall i :: 0 <= i < |log| ==> !log[i].BackendOpened?
  }

  lemma {:induction false} NoOpenings(log: seq<Event>)
    requires NoOpening(log)
    ensures Openings(log) == 0
  {
    if log != [] {
      NoOpenings(log[1..]);
    }
  }

  lemma AcquireOpens(s: State, a: Attempt)
    ensures Openings(Acquire(s, a).events) == 1
  {
    var tried := [BackendOpened(a.open, a.context)];
    assert tried[1..] == [];
    if a.open == 0 && s.reopenPending {
      var reopened := Reopen(s.fd, s.mapped, a.reopen).events;
      OpeningsSplit(tried, reopened);
      NoOpenings(reopened);
    }
  }

  lemma ProceedOpensNot(cfg: Config, acquired: Acquired, a: Attempt)
    ensures NoOpening(Proceed(cfg, acquired, a).events)
  {
  }

  lemma TurnOpens(cfg: Config, s: State, a: Attempt)
    ensures Openings(Turn(cfg, s, a).events) == 1
  {
    var acquired := Acquire(s, a);
    AcquireOpens(s, a);
    ProceedOpensNot(cfg, acquired, a);
    OpeningsSplit(acquired.events, Proceed(cfg, acquired, a).events);
    NoOpenings(Proceed(cfg, acquired, a).events);
  }

  lemma {:induction false} RunEndsOnly(cfg: Config, s: State, attempts: seq<Attempt>) returns (n: nat)
    requires GoesOn(s) && Done(Run(cfg, s, attempts).state) && !Run(cfg, s, attempts).state.inLoop
    ensures n < |attempts| && !Undisturbed(cfg, attempts[n])
    ensures Openings(Run(cfg, s, attempts).events) == if attempts[n].stopBefore then n else n + 1
    decreases |attempts|
  {
    n := 0;
    var a := attempts[0];
    if !a.stopBefore {
      var t := Turn(cfg, s, a);
      var rest := Run(cfg, t.state, attempts[1..]);
      TurnOpens(cfg, s, a);
      OpeningsSplit(t.events, rest.events);
      if Done(t.state) {
        if Undisturbed(cfg, a) {
          TurnBeats(cfg, s, a);
        }
      } else {
        n := RunEndsOnly(cfg, t.state, attempts[1..]);
        n := n + 1;
      }
    }
  }

  /**
   * What ends the daemon. Over all scripts: a run that is over, and not because the script ended inside `run_loop`,
   * met a stop request, a failing publication or a failing sleep in the last attempt it made (or a stop request
   * just before the next). No failed open, failed reopening or lost transport ends it.
   */
  lemma EndsOnlyIfDisturbed(cfg: Config, attempts: seq<Attempt>) returns (n: nat)
    requires Done(Run(cfg, INITIAL, attempts).state) && !Run(cfg, INITIAL, attempts).state.inLoop
    ensures n < |attempts| && !Undisturbed(cfg, attempts[n])
    ensures Openings(Run(cfg, INITIAL, attempts).events) == if attempts[n].stopBefore then n else n + 1
  {
    n := RunEndsOnly(cfg, INITIAL, attempts);
  }

  /** The other way round, a stop request in a generation that returns ends the daemon, and as a success. */
  lemma StopRequestEnds(cfg: Config, s: State, a: Attempt)
    requires GoesOn(s) && Entered(Turn(cfg, s, a).events)
    ensures LoopExit(cfg, a.run).Returned? && (a.stopAfterRun || LoopExit(cfg, a.run).stopped) ==>
              StoppedWell(Turn(cfg, s, a).state)
  {
    var acquired := Acquire(s, a);
    AcquireEntersNot(s, a);
    if acquired.code == 0 && LoopExit(cfg, a.run).Returned? && (a.stopAfterRun || LoopExit(cfg, a.run).stopped) {
      StoppedGeneration(cfg, acquired.state, a);
    }
  }

  predicate Entered(log: seq<Event>) {
    exists i :: 0 <= i < |log| && log[i].LoopEntered?
  }

  predicate StoppedWell(s: State) {
    s.stop && s.result == 0 && !s.inLoop
  }

  lemma AcquireEntersNot(s: State, a: Attempt)
    ensures LoopEntered !in Acquire(s, a).events && (GoesOn(s) ==> GoesOn(Acquire(s, a).state))
  {
  }

  lemma StoppedGeneration(cfg: Config, s: State, a: Attempt)
    requires GoesOn(s) && LoopExit(cfg, a.run).Returned? && (a.stopAfterRun || LoopExit(cfg, a.run).stopped)
    ensures var g := Generation(cfg, s, a);
      LoopEntered in g.events ==> g.state.stop && g.state.result == 0 && !g.state.inLoop
  {
  }

  lemma {:induction false} RetriesFrom(cfg: Config, s: State, attempts: seq<Attempt>)
    requires GoesOn(s) && forall i :: 0 <= i < |attempts| ==> Undisturbed(cfg, attempts[i]) && attempts[i].open != 0
    ensures Run(cfg, s, attempts).state.retryCount == (s.retryCount + |attempts|) % WORD32
    decreases |attempts|
  {
    if attempts != [] {
      BackOffBeats(cfg, s, attempts[0]);
      var t := Turn(cfg, s, attempts[0]);
      assert t.state == BackOff(cfg, s, attempts[0]).state;
      RetriesFrom(cfg, t.state, attempts[1..]);
      NextCount(s.retryCount, |attempts|);
    }
  }

  lemma NextCount(count: u32, n: nat)
    requires n > 0
    ensures ((count + 1) % WORD32 + (n - 1)) % WORD32 == (count + n) % WORD32
  {
  }

  /** Every failed open in a row is counted as a retry. */
  lemma RetriesCounted(cfg: Config, attempts: seq<Attempt>)
    requires forall i :: 0 <= i < |attempts| ==> Undisturbed(cfg, attempts[i]) && attempts[i].open != 0
    ensures Run(cfg, INITIAL, attempts).state.retryCount == |attempts| % WORD32
  {
    RetriesFrom(cfg, INITIAL, attempts);
  }
}
