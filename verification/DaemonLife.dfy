/** The supervisor and the stream together: what a supervisor script serves is a life on one stream. */
module DaemonLife {
  import opened Abi
  import opened Stream
  import opened Sessions
  import S = Supervisor
  import D = Dispatcher
  import T = Timing
  import SlotSafety
  import Marker

  /** One entry into `run_loop`: its script, and how often the stream was opened since the entry before. */
  datatype Service = Service(run: S.RunScript, opens: nat)

  function Opens(log: seq<S.Event>): nat {
    if log == [] then 0 else (if log[0].StreamOpened? then 1 else 0) + Opens(log[1..])
  }

  /** The attempt gets as far as `run_loop`. */
  predicate Serves(cfg: S.Config, s: S.State, a: S.Attempt) {
    var acquired := S.Acquire(s, a);
    && acquired.code == 0
    && Marker.PublishCode(cfg.path, S.ClaimOf(cfg, S.GenerationOf(S.Numbered(acquired.state))), a.publish) == 0
  }

  /** An attempt in short: the state it leads to, its openings of the stream, and whether it is served. */
  datatype Outcome = Outcome(next: S.State, opens: nat, served: bool)

  type Stepper = (S.State, S.Attempt) -> Outcome

  function StepperOf(cfg: S.Config): Stepper {
    (s: S.State, a: S.Attempt) =>
      Outcome(S.Turn(cfg, s, a).state, Opens(S.Acquire(s, a).events), Serves(cfg, s, a))
  }

  /** The attempts that are served, in order; `opens`: openings of the stream so far. */
  function ServicesBy(step: Stepper, s: S.State, attempts: seq<S.Attempt>, opens: nat): seq<Service>
    decreases |attempts|
  {
    if attempts == [] || S.Done(s) || attempts[0].stopBefore then []
    else
      var o := step(s, attempts[0]);
      if o.served then
        [Service(attempts[0].run, opens + o.opens)] + ServicesBy(step, o.next, attempts[1..], 0)
      else ServicesBy(step, o.next, attempts[1..], opens + o.opens)
  }

  function Services(cfg: S.Config, attempts: seq<S.Attempt>): seq<Service> {
    ServicesBy(StepperOf(cfg), S.INITIAL, attempts, 0)
  }

  /** For each entry into `run_loop` in a log, the openings of the stream since the entry before. */
  function Gaps(log: seq<S.Event>, opens: nat): seq<nat>
    decreases |log|
  {
    if log == [] then []
    else if log[0].StreamOpened? then Gaps(log[1..], opens + 1)
    else if log[0].LoopEntered? then [opens] + Gaps(log[1..], 0)
    else Gaps(log[1..], opens)
  }

  predicate NoLoop(log: seq<S.Event>) {
    forall i :: 0 <= i < |log| ==> !log[i].LoopEntered?
  }

  predicate NoOpen(log: seq<S.Event>) {
    forall i :: 0 <= i < |log| ==> !log[i].StreamOpened?
  }

  lemma {:induction false} GapsBefore(a: seq<S.Event>, b: seq<S.Event>, opens: nat)
    requires NoLoop(a)
    ensures Gaps(a + b, opens) == Gaps(b, opens + Opens(a))
    decreases |a|
  {
    if a == [] {
      assert a + b == b;
    } else {
      assert (a + b)[0] == a[0] && (a + b)[1..] == a[1..] + b;
      GapsBefore(a[1..], b, if a[0].StreamOpened? then opens + 1 else opens);
    }
  }

  lemma {:induction false} NoOpens(log: seq<S.Event>)
    requires NoOpen(log)
    ensures Opens(log) == 0
  {
    if log != [] {
      NoOpens(log[1..]);
    }
  }

  /** Events that neither open the stream nor enter the loop change no gap. */
  lemma GapsSkip(a: seq<S.Event>, b: seq<S.Event>, opens: nat)
    requires NoLoop(a) && NoOpen(a)
    ensures Gaps(a + b, opens) == Gaps(b, opens)
  {
    GapsBefore(a, b, opens);
    NoOpens(a);
  }

  /** One entry into the loop, between events that are none. */
  lemma OneEntry(
      before: seq<S.Event>, published: S.Event, after: seq<S.Event>, rest: seq<S.Event>, opens: nat)
    requires NoLoop(before) && NoLoop(after) && NoOpen(after) && published.Published?
    ensures Gaps(before + ([published] + ([S.LoopEntered] + after)) + rest, opens)
            == [opens + Opens(before)] + Gaps(rest, 0)
  {
    var entered := [S.LoopEntered] + (after + rest);
    assert before + ([published] + ([S.LoopEntered] + after)) + rest == before + ([published] + entered);
    GapsBefore(before, [published] + entered, opens);
    GapsSkip([published], entered, opens + Opens(before));
    assert entered[1..] == after + rest;
    GapsSkip(after, rest, 0);
  }

  /** What follows the entry into the loop. */
  function LeaveEvents(cfg: S.Config, s: S.State, a: S.Attempt): (log: seq<S.Event>)
    ensures S.Serve(cfg, s, a).events == [S.LoopEntered] + log
    ensures NoLoop(log) && NoOpen(log)
  {
    match S.LoopExit(cfg, a.run)
    case Running => []
    case Returned(loopResult, stopped) => S.Leave(cfg, s, a, loopResult, stopped).events
  }

  lemma AcquireQuiet(s: S.State, a: S.Attempt)
    ensures NoLoop(S.Acquire(s, a).events)
  {
  }

  /** An attempt that is served enters the loop once, after its own openings. */
  lemma ServedGap(cfg: S.Config, s: S.State, a: S.Attempt, rest: seq<S.Event>, opens: nat)
    requires Serves(cfg, s, a)
    ensures Gaps(S.Turn(cfg, s, a).events + rest, opens)
            == [opens + Opens(S.Acquire(s, a).events)] + Gaps(rest, 0)
  {
    var acquired := S.Acquire(s, a);
    var s1 := S.Numbered(acquired.state);
    var claim := S.ClaimOf(cfg, S.GenerationOf(s1));
    AcquireQuiet(s, a);
    OneEntry(acquired.events, S.Published(claim, cfg.path != ""), LeaveEvents(cfg, S.Shown(cfg, s1, claim), a),
             rest, opens);
  }

  lemma ProceedQuiet(cfg: S.Config, acquired: S.Acquired, a: S.Attempt)
    requires acquired.code == 0 ==>
      Marker.PublishCode(cfg.path, S.ClaimOf(cfg, S.GenerationOf(S.Numbered(acquired.state))), a.publish) != 0
    ensures NoLoop(S.Proceed(cfg, acquired, a).events) && NoOpen(S.Proceed(cfg, acquired, a).events)
  {
  }

  lemma UnservedGap(cfg: S.Config, s: S.State, a: S.Attempt, rest: seq<S.Event>, opens: nat)
    requires !Serves(cfg, s, a)
    ensures Gaps(S.Turn(cfg, s, a).events + rest, opens) == Gaps(rest, opens + Opens(S.Acquire(s, a).events))
  {
    var acquired := S.Acquire(s, a);
    var more := S.Proceed(cfg, acquired, a).events;
    assert S.Turn(cfg, s, a).events + rest == acquired.events + (more + rest);
    AcquireQuiet(s, a);
    ProceedQuiet(cfg, acquired, a);
    GapsBefore(acquired.events, more + rest, opens);
    GapsSkip(more, rest, opens + Opens(acquired.events));
  }

  function OpensOf(services: seq<Service>): seq<nat> {
    if services == [] then [] else [services[0].opens] + OpensOf(services[1..])
  }

  lemma OpensOfCons(service: Service, services: seq<Service>)
    ensures OpensOf([service] + services) == [service.opens] + OpensOf(services)
  {
    assert ([service] + services)[1..] == services;
  }

  /** The short form of an attempt agrees with its events. */
  ghost predicate Fits(turn: S.Turner, step: Stepper) {
    forall s: S.State, a: S.Attempt {:trigger step(s, a)} ::
      && turn(s, a).state == step(s, a).next
      && forall rest: seq<S.Event>, opens: nat {:trigger Gaps(turn(s, a).events + rest, opens)} ::
           Gaps(turn(s, a).events + rest, opens)
           == if step(s, a).served then [opens + step(s, a).opens] + Gaps(rest, 0)
              else Gaps(rest, opens + step(s, a).opens)
  }

  lemma TurnFits(cfg: S.Config)
    ensures Fits(S.TurnOf(cfg), StepperOf(cfg))
  {
    forall s: S.State, a: S.Attempt, rest: seq<S.Event>, opens: nat
      ensures var o := StepperOf(cfg)(s, a);
        Gaps(S.TurnOf(cfg)(s, a).events + rest, opens)
        == if o.served then [opens + o.opens] + Gaps(rest, 0) else Gaps(rest, opens + o.opens)
    {
      if Serves(cfg, s, a) {
        ServedGap(cfg, s, a, rest, opens);
      } else {
        UnservedGap(cfg, s, a, rest, opens);
      }
    }
  }

  lemma {:induction false} LogGaps(
      turn: S.Turner, step: Stepper, s: S.State, attempts: seq<S.Attempt>, opens: nat)
    requires Fits(turn, step)
    ensures Gaps(S.RunBy(turn, s, attempts).events, opens) == OpensOf(ServicesBy(step, s, attempts, opens))
    decreases |attempts|
  {
    if attempts != [] && !S.Done(s) && !attempts[0].stopBefore {
      var o := step(s, attempts[0]);
      var since := if o.served then 0 else opens + o.opens;
      assert turn(s, attempts[0]).state == o.next;
      LogGaps(turn, step, o.next, attempts[1..], since);
      OpensOfCons(Service(attempts[0].run, opens + o.opens), ServicesBy(step, o.next, attempts[1..], since));
    }
  }

  /** The services are those of the log: as many entries into the loop, with the same openings before each. */
  lemma ServicesInLog(cfg: S.Config, attempts: seq<S.Attempt>)
    ensures Gaps(S.Run(cfg, S.INITIAL, attempts).events, 0) == OpensOf(Services(cfg, attempts))
  {
    S.RunIsRunBy(cfg, S.INITIAL, attempts);
    TurnFits(cfg);
    LogGaps(S.TurnOf(cfg), StepperOf(cfg), S.INITIAL, attempts, 0);
  }

  /** After a lost transport no attempt gets past an unopened stream. */
  lemma AcquireOpens(s: S.State, a: S.Attempt)
    requires s.reopenPending && S.Acquire(s, a).code == 0
    ensures Opens(S.Acquire(s, a).events) > 0
  {
    var log := S.Acquire(s, a).events;
    assert log[|log| - 2] == S.StreamOpened;
    OpenCounts(log, |log| - 2);
  }

  lemma {:induction false} OpenCounts(log: seq<S.Event>, i: nat)
    requires i < |log| && log[i].StreamOpened?
    ensures Opens(log) > 0
  {
    if i > 0 {
      OpenCounts(log[1..], i - 1);
    }
  }

  lemma TurnPending(cfg: S.Config, s: S.State, a: S.Attempt)
    requires !S.Done(s)
    ensures var t := S.Turn(cfg, s, a).state;
      !S.Done(t) ==> t.reopenPending == if Serves(cfg, s, a) then true else s.reopenPending
  {
  }

  /** A lost transport stays noted until an attempt is served, and none is without opening the stream. */
  ghost predicate Reopens(step: Stepper) {
    forall s: S.State, a: S.Attempt {:trigger step(s, a)} :: !S.Done(s) ==>
      && (step(s, a).served && s.reopenPending ==> step(s, a).opens > 0)
      && (!S.Done(step(s, a).next) ==> step(s, a).next.reopenPending == (step(s, a).served || s.reopenPending))
  }

  lemma SupervisorReopens(cfg: S.Config)
    ensures Reopens(StepperOf(cfg))
  {
    forall s: S.State, a: S.Attempt | !S.Done(s)
      ensures var o := StepperOf(cfg)(s, a);
        && (o.served && s.reopenPending ==> o.opens > 0)
        && (!S.Done(o.next) ==> o.next.reopenPending == (o.served || s.reopenPending))
    {
      TurnPending(cfg, s, a);
      if Serves(cfg, s, a) && s.reopenPending {
        AcquireOpens(s, a);
      }
    }
  }

  /** Between two services the stream is opened anew. */
  lemma {:induction false} ReopenedBetween(
      step: Stepper, s: S.State, attempts: seq<S.Attempt>, opens: nat, i: nat)
    requires Reopens(step)
    requires i < |ServicesBy(step, s, attempts, opens)| && (i > 0 || s.reopenPending)
    ensures ServicesBy(step, s, attempts, opens)[i].opens > 0
    decreases |attempts|
  {
    var o := step(s, attempts[0]);
    if !o.served {
      ReopenedBetween(step, o.next, attempts[1..], opens + o.opens, i);
    } else if i > 0 {
      ReopenedBetween(step, o.next, attempts[1..], 0, i - 1);
    }
  }

  /**
   * Sessions that answer a supervisor script: one for each service, with its dispatcher script, on one stream that
   * is sound at first, with a burst of publishes after each opening that the script makes in between.
   */
  ghost predicate Answers(loop: D.Config, services: seq<Service>, ss: seq<Session>) {
    && |ss| == |services|
    && (ss != [] ==> KernelInv(loop.info, ss[0].entry))
    && (forall g :: 0 <= g < |ss| ==> SessionOk(loop, ss[g]) && Answered(services[g], ss[g]))
    && (forall g, h :: 0 <= g && h == g + 1 && h < |ss| ==>
          Between(loop.info, ss[g].exit, ss[h].bursts, ss[h].entry))
  }

  predicate Answered(service: Service, s: Session) {
    s.start == service.run.start && s.passes == service.run.passes && |s.bursts| == service.opens
  }

  /** The two state machines fit: whatever a supervisor script serves is a life on one stream. */
  lemma DaemonIsLife(cfg: S.Config, attempts: seq<S.Attempt>, ss: seq<Session>)
    requires Answers(cfg.loop, Services(cfg, attempts), ss)
    ensures Life(cfg.loop, ss)
  {
    var services := Services(cfg, attempts);
    SupervisorReopens(cfg);
    forall h: nat | 0 < h < |ss|
      ensures services[h].opens > 0
    {
      ReopenedBetween(StepperOf(cfg), S.INITIAL, attempts, 0, h);
    }
    AnswersAreLife(cfg.loop, services, ss);
  }

  lemma AnswersAreLife(loop: D.Config, services: seq<Service>, ss: seq<Session>)
    requires Answers(loop, services, ss) && forall h: nat :: 0 < h < |ss| ==> services[h].opens > 0
    ensures Life(loop, ss)
  {
    forall h: nat | 0 < h < |ss|
      ensures ss[h].bursts != []
    {
      assert Answered(services[h], ss[h]);
    }
  }

  /**
   * Slot safety and newest-wins for the whole daemon: over every supervisor script, every dispatcher script inside
   * it and every conforming producer, each submit of each generation is safe for its whole duration, and the
   * sequence of the application frames submitted never goes down.
   */
  lemma DaemonOnStream(cfg: S.Config, attempts: seq<S.Attempt>, ss: seq<Session>, splash: seq<u8>)
    requires Answers(cfg.loop, Services(cfg, attempts), ss) && NoWrap(cfg.loop.info)
    requires forall g :: 0 <= g < |ss| ==> T.MonotoneClock(cfg.loop, RoundsOf(cfg.loop, ss[g]), ss[g].start.doneNs)
    ensures forall g: nat, i: nat :: g < |ss| && i < |RoundsOf(cfg.loop, ss[g])| ==>
              RoundSafe(cfg.loop, splash, ss[g], i)
    ensures forall g: nat, h: nat, i: nat, j: nat, e: D.Event, f: D.Event ::
              g <= h < |ss| && (g == h ==> i < j) && Shows(cfg.loop, ss[g], i, e) && Shows(cfg.loop, ss[h], j, f) ==>
                e.frame.sequence <= f.frame.sequence
  {
    DaemonIsLife(cfg, attempts, ss);
    forall g: nat, i: nat | g < |ss| && i < |RoundsOf(cfg.loop, ss[g])|
      ensures RoundSafe(cfg.loop, splash, ss[g], i)
    {
      T.MonotoneIsFlaky(cfg.loop, RoundsOf(cfg.loop, ss[g]), ss[g].start.doneNs);
      SafeThroughLife(cfg.loop, ss, splash, g, i);
    }
    forall g: nat, h: nat, i: nat, j: nat, e: D.Event, f: D.Event
      | g <= h < |ss| && (g == h ==> i < j) && Shows(cfg.loop, ss[g], i, e) && Shows(cfg.loop, ss[h], j, f)
      ensures e.frame.sequence <= f.frame.sequence
    {
      LifeSequencesRise(cfg.loop, ss, g, h);
    }
  }
}
