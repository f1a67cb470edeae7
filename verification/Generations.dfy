/** Whole runs of the supervisor: resource ownership, truthful readiness and gapless generations. */
module Generations {
  import opened Abi
  import opened Marker
  import opened Supervisor
  import D = Dispatcher

  /**
   * An independent watchman. `backend`: the last backend open succeeded and was not closed since; `live`: a
   * context is outstanding; `marker`: what is visible; `served`: how many generations were published.
   */
  datatype Watch = Watch(
    backend: bool, live: bool, fd: bool, mapped: bool, inLoop: bool, marker: Option<Claim>, served: nat)

  /** The rules for resources and numbers: the next observation, or nothing if the event breaks a rule. */
  function Observe(cfg: Config, w: Watch, e: Event): Option<Watch> {
    match e
    case BackendOpened(code, context) =>
      // No context is leaked.
      if w.live || w.inLoop then None else Some(w.(backend := code == 0, live := context))
    case BackendClosed(context) =>
      // Only an outstanding context is closed.
      if context != w.live || w.inLoop then None else Some(w.(backend := false, live := false))
    case StreamUnmapped =>
      if !w.mapped || w.inLoop then None else Some(w.(mapped := false))
    case StreamClosed =>
      if !w.fd || w.mapped || w.inLoop then None else Some(w.(fd := false))
    case StreamOpened =>
      // The stream has a single consumer: never open it while a descriptor or a mapping is left.
      if w.fd || w.mapped then None else Some(w.(fd := true))
    case StreamMapped =>
      if !w.fd || w.mapped then None else Some(w.(mapped := true))
    case Published(claim, visible) =>
      // The k-th generation carries number k and has everything it needs.
      if !w.backend || !w.fd || !w.mapped || w.inLoop
         || claim != ClaimOf(cfg, (w.served + 1) % WORD64) || visible != (cfg.path != "")
      then None
      else Some(w.(marker := if visible then Some(claim) else w.marker, served := w.served + 1))
    case Removed(ok) => Some(if ok then w.(marker := None) else w)
    case LoopEntered =>
      if !w.backend || !w.fd || !w.mapped || w.inLoop then None else Some(w.(inLoop := true))
    case LoopLeft => if !w.inLoop then None else Some(w.(inLoop := false))
    case Paused(_) => if w.inLoop then None else Some(w)
  }

  function Watching(cfg: Config, w: Watch, log: seq<Event>): Option<Watch>
    decreases |log|
  {
    if log == [] then Some(w)
    else match Observe(cfg, w, log[0])
      case None => None
      case Some(next) => Watching(cfg, next, log[1..])
  }

  lemma {:induction false} WatchingSplit(cfg: Config, w: Watch, a: seq<Event>, b: seq<Event>)
    ensures Watching(cfg, w, a + b)
            == match Watching(cfg, w, a) case None => None case Some(v) => Watching(cfg, v, b)
    decreases |a|
  {
    if a == [] {
      assert a + b == b;
    } else {
      assert (a + b)[0] == a[0] && (a + b)[1..] == a[1..] + b;
      match Observe(cfg, w, a[0]) {
        case None =>
        case Some(v) => WatchingSplit(cfg, v, a[1..], b);
      }
    }
  }

  /**
   * Truthful readiness: a visible marker implies an open backend and a live stream and names the current
   * generation, and while `run_loop` works it is up (unless the marker is turned off).
   */
  predicate Truthful(cfg: Config, w: Watch) {
    && (w.marker.Some? ==> w.backend && w.fd && w.mapped && w.marker.value == ClaimOf(cfg, w.served % WORD64))
    && (w.inLoop ==> (w.marker.Some? <==> cfg.path != ""))
  }

  /** Truthful now and after every event of a log. */
  predicate Truths(cfg: Config, w: Watch, log: seq<Event>)
    decreases |log|
  {
    && Truthful(cfg, w)
    && (log != [] ==> match Observe(cfg, w, log[0]) case None => false case Some(v) => Truths(cfg, v, log[1..]))
  }

  lemma {:induction false} TruthsSplit(cfg: Config, w: Watch, a: seq<Event>, b: seq<Event>)
    requires Watching(cfg, w, a).Some?
    ensures Truths(cfg, w, a + b) <==> Truths(cfg, w, a) && Truths(cfg, Watching(cfg, w, a).value, b)
    decreases |a|
  {
    if a == [] {
      assert a + b == b;
    } else {
      assert (a + b)[0] == a[0] && (a + b)[1..] == a[1..] + b;
      TruthsSplit(cfg, Observe(cfg, w, a[0]).value, a[1..], b);
    }
  }

  /** `Truths`, told moment by moment. */
  lemma {:induction false} TruthsThroughout(cfg: Config, w: Watch, log: seq<Event>)
    requires Watching(cfg, w, log).Some?
    ensures forall k :: 0 <= k <= |log| ==> Watching(cfg, w, log[..k]).Some?
    ensures Truths(cfg, w, log)
            <==> forall k :: 0 <= k <= |log| ==> Truthful(cfg, Watching(cfg, w, log[..k]).value)
    decreases |log|
  {
    if log == [] {
      assert log[..0] == [];
    } else {
      var next := Observe(cfg, w, log[0]).value;
      TruthsThroughout(cfg, next, log[1..]);
      assert log[..0] == [] && Watching(cfg, w, log[..0]) == Some(w);
      forall k | 0 < k <= |log|
        ensures Watching(cfg, w, log[..k]) == Watching(cfg, next, log[1..][..k - 1])
      {
        assert log[..k][0] == log[0] && log[..k][1..] == log[1..][..k - 1];
      }
      if forall k :: 0 <= k <= |log| ==> Truthful(cfg, Watching(cfg, w, log[..k]).value) {
        forall k | 0 <= k <= |log[1..]|
          ensures Truthful(cfg, Watching(cfg, next, log[1..][..k]).value)
        {
          assert Watching(cfg, w, log[..k + 1]) == Watching(cfg, next, log[1..][..k + 1 - 1]);
        }
      }
    }
  }

  /** `run_loop` has its backend, its descriptor and its mapping for as long as it works. */
  predicate Sound(w: Watch) {
    (w.inLoop ==> w.backend && w.fd && w.mapped) && (w.mapped ==> w.fd)
  }

  lemma {:induction false} WatchingSound(cfg: Config, w: Watch, log: seq<Event>)
    requires Sound(w) && Watching(cfg, w, log).Some?
    ensures Sound(Watching(cfg, w, log).value)
    decreases |log|
  {
    if log != [] {
      WatchingSound(cfg, Observe(cfg, w, log[0]).value, log[1..]);
    }
  }

  const ON_DUTY := Watch(false, false, true, true, false, None, 0)

  /** The generations of all publications in a log. */
  function Numbers(log: seq<Event>): seq<u64>
    decreases |log|
  {
    if log == [] then []
    else (if log[0].Published? then [log[0].claim.generation] else []) + Numbers(log[1..])
  }

  lemma {:induction false} NumbersGapless(cfg: Config, w: Watch, log: seq<Event>, i: nat)
    requires Watching(cfg, w, log).Some? && i < |Numbers(log)|
    ensures Numbers(log)[i] == (w.served + i + 1) % WORD64
    decreases |log|
  {
    var next := Observe(cfg, w, log[0]).value;
    if !log[0].Published? {
      NumbersGapless(cfg, next, log[1..], i);
    } else if i > 0 {
      NumbersGapless(cfg, next, log[1..], i - 1);
    }
  }

  /** The watch that fits the supervisor's variables between two trips. */
  ghost predicate Matches(cfg: Config, s: State, w: Watch) {
    && w.fd == s.fd && w.mapped == s.mapped && w.inLoop == s.inLoop
    && (!s.inLoop ==> !w.live)
    && (!s.reopenPending ==> s.fd && s.mapped)
    && (s.mapped ==> s.fd)
    && (!Done(s) ==> w.served % WORD64 == (if s.reopenPending then GenerationOf(s) else s.reopenCount))
  }

  /** With a backend and a stream in hand. */
  ghost predicate Equipped(cfg: Config, s: State, a: Attempt, w: Watch) {
    && w.backend && w.fd && w.mapped && s.fd && s.mapped && w.live == a.context
    && !w.inLoop && !s.inLoop
    && w.served % WORD64 == (if s.reopenPending then GenerationOf(s) else s.reopenCount)
  }

  /** Opening the backend and the stream keeps every rule, whichever step fails. */
  lemma AcquireWatched(cfg: Config, s: State, a: Attempt, w: Watch)
    requires Matches(cfg, s, w) && !Done(s)
    ensures var acquired := Acquire(s, a);
            var v := Watching(cfg, w, acquired.events);
      && v.Some?
      && (acquired.code == 0 ==> Equipped(cfg, acquired.state, a, v.value))
      && Matches(cfg, acquired.state, v.value.(live := false)) && v.value.live == a.context
      && !Done(acquired.state)
  {
    if a.open == 0 && s.reopenPending {
      AcquireReopened(cfg, s, a, w);
    } else {
      One(cfg, w, BackendOpened(a.open, a.context));
    }
  }

  lemma AcquireReopened(cfg: Config, s: State, a: Attempt, w: Watch)
    requires w.fd == s.fd && w.mapped == s.mapped && !w.live && !w.inLoop && (s.mapped ==> s.fd)
    requires a.open == 0 && s.reopenPending
    ensures var r := Reopen(s.fd, s.mapped, a.reopen);
      Watching(cfg, w, Acquire(s, a).events)
      == Some(w.(backend := true, live := a.context, fd := r.fd, mapped := r.mapped))
  {
    var tried := BackendOpened(a.open, a.context);
    var w1 := Observe(cfg, w, tried).value;
    One(cfg, w, tried);
    ReopenWatched(cfg, s, a.reopen, w1);
    WatchingSplit(cfg, w, [tried], Reopen(s.fd, s.mapped, a.reopen).events);
  }

  /** `reopen_frame_stream` releases the old mapping and descriptor, in this order, before it opens anew. */
  lemma ReopenWatched(cfg: Config, s: State, env: ReopenEnv, w: Watch)
    requires w.fd == s.fd && w.mapped == s.mapped && !w.inLoop && (s.mapped ==> s.fd)
    ensures var r := Reopen(s.fd, s.mapped, env);
      Watching(cfg, w, r.events) == Some(w.(fd := r.fd, mapped := r.mapped))
  {
    var r := Reopen(s.fd, s.mapped, env);
    if !(s.mapped && env.unmap != 0) {
      var w0 := w.(fd := false, mapped := false);
      var released := (if s.mapped then [StreamUnmapped] else []) + (if s.fd then [StreamClosed] else []);
      ReleaseWatched(cfg, w);
      if env.open != 0 {
        assert r.events == released;
      } else {
        WatchingSplit(cfg, w, released,
                      if env.remap != 0 then [StreamOpened, StreamClosed] else [StreamOpened, StreamMapped]);
        OpenWatched(cfg, w0);
      }
    }
  }

  lemma OpenWatched(cfg: Config, w: Watch)
    requires !w.fd && !w.mapped && !w.inLoop
    ensures Watching(cfg, w, [StreamOpened, StreamClosed]) == Some(w)
    ensures Watching(cfg, w, [StreamOpened, StreamMapped]) == Some(w.(fd := true, mapped := true))
  {
    var held := w.(fd := true);
    assert [StreamOpened, StreamClosed][1..] == [StreamClosed] && [StreamOpened, StreamMapped][1..] == [StreamMapped];
    assert Watching(cfg, w, []) == Some(w);
    assert Watching(cfg, held.(mapped := true), []) == Some(held.(mapped := true));
    assert Watching(cfg, held, [StreamClosed]) == Some(w);
    assert Watching(cfg, held, [StreamMapped]) == Some(held.(mapped := true));
  }

  lemma ReleaseWatched(cfg: Config, w: Watch)
    requires !w.inLoop && (w.mapped ==> w.fd)
    ensures Watching(cfg, w, (if w.mapped then [StreamUnmapped] else []) + (if w.fd then [StreamClosed] else []))
            == Some(w.(fd := false, mapped := false))
  {
    var w1 := w.(mapped := false);
    var w0 := w1.(fd := false);
    assert Watching(cfg, w0, []) == Some(w0) && Watching(cfg, w1, []) == Some(w1) && Watching(cfg, w, []) == Some(w);
    assert w.mapped ==> Watching(cfg, w, [StreamUnmapped]) == Some(w1);
    assert w.fd ==> Watching(cfg, w1, [StreamClosed]) == Some(w0);
    WatchingSplit(cfg, w, if w.mapped then [StreamUnmapped] else [], if w.fd then [StreamClosed] else []);
  }

  lemma One(cfg: Config, w: Watch, e: Event)
    requires Observe(cfg, w, e).Some?
    ensures Watching(cfg, w, [e]) == Observe(cfg, w, e)
  {
    assert Watching(cfg, Observe(cfg, w, e).value, []) == Observe(cfg, w, e);
  }

  lemma BackOffWatched(cfg: Config, s: State, a: Attempt, w: Watch)
    requires Matches(cfg, s, w.(live := false)) && w.live == a.context && !Done(s)
    ensures var b := BackOff(cfg, s, a);
      && Watching(cfg, w, b.events).Some? && Matches(cfg, b.state, Watching(cfg, w, b.events).value)
  {
    BackOffAccepted(cfg, s, a, w);
  }

  lemma BackOffAccepted(cfg: Config, s: State, a: Attempt, w: Watch)
    requires w.live == a.context && !w.inLoop
    ensures Watching(cfg, w, BackOff(cfg, s, a).events)
            == Some(if a.context then w.(backend := false, live := false) else w)
  {
    var nap := Sleep(cfg.retryMs * 1_000_000, 0, a.sleep, s.stop);
    var closed := if a.context then [BackendClosed(true)] else [];
    if a.context {
      One(cfg, w, BackendClosed(true));
    } else {
      assert Watching(cfg, w, []) == Some(w);
    }
    One(cfg, Watching(cfg, w, closed).value, Paused(nap.sleptNs));
    WatchingSplit(cfg, w, closed, [Paused(nap.sleptNs)]);
  }

  lemma NextNumber(served: nat, count: u64)
    requires served % WORD64 == count
    ensures (served + 1) % WORD64 == (count + 1) % WORD64
  {
  }

  /** From publication to the closing of the backend. */
  lemma GenerationWatched(cfg: Config, s: State, a: Attempt, w: Watch)
    requires Equipped(cfg, s, a, w) && !Done(s)
    ensures var g := Generation(cfg, s, a);
      && Watching(cfg, w, g.events).Some? && Matches(cfg, g.state, Watching(cfg, w, g.events).value)
  {
    var s1 := Numbered(s);
    var claim := ClaimOf(cfg, GenerationOf(s1));
    var code := PublishCode(cfg.path, claim, a.publish);
    if code != 0 {
      One(cfg, w, BackendClosed(a.context));
    } else {
      NextNumber(w.served, s1.reopenCount);
      var published := Published(claim, cfg.path != "");
      One(cfg, w, published);
      var w1 := Observe(cfg, w, published).value;
      var s2 := Shown(cfg, s1, claim);
      ServeWatched(cfg, s2, a, w1);
      WatchingSplit(cfg, w, [published], Serve(cfg, s2, a).events);
    }
  }

  lemma ServeWatched(cfg: Config, s: State, a: Attempt, w: Watch)
    requires w.backend && w.fd && w.mapped && s.fd && s.mapped && w.live == a.context
    requires !w.inLoop && !s.inLoop && !s.reopenPending && w.served % WORD64 == GenerationOf(s)
    ensures var g := Serve(cfg, s, a);
      && Watching(cfg, w, g.events).Some? && Matches(cfg, g.state, Watching(cfg, w, g.events).value)
  {
    One(cfg, w, LoopEntered);
    var w1 := Observe(cfg, w, LoopEntered).value;
    match LoopExit(cfg, a.run) {
      case Running =>
      case Returned(code, stopped) =>
        LeaveWatched(cfg, s, a, w1, code, stopped);
        WatchingSplit(cfg, w, [LoopEntered], Leave(cfg, s, a, code, stopped).events);
    }
  }

  lemma LeaveWatched(cfg: Config, s: State, a: Attempt, w: Watch, code: int, stopped: bool)
    requires w.backend && w.fd && w.mapped && s.fd && s.mapped && w.live == a.context && w.inLoop && !s.inLoop
    requires !s.reopenPending && w.served % WORD64 == GenerationOf(s)
    requires code == 0 ==> stopped
    ensures var l := Leave(cfg, s, a, code, stopped);
      && Watching(cfg, w, l.events).Some? && Matches(cfg, l.state, Watching(cfg, w, l.events).value)
  {
    var removed := Removed(cfg.path != "" && a.unlinkOk);
    var w1 := w.(inLoop := false);
    var w2 := Observe(cfg, w1, removed).value;
    One(cfg, w, LoopLeft);
    One(cfg, w1, removed);
    One(cfg, w2, BackendClosed(a.context));
    WatchingSplit(cfg, w, [LoopLeft], [removed]);
    WatchingSplit(cfg, w, [LoopLeft] + [removed], [BackendClosed(a.context)]);
    var w3 := Observe(cfg, w2, BackendClosed(a.context)).value;
    var log := [LoopLeft] + [removed] + [BackendClosed(a.context)];
    assert log == [LoopLeft, removed, BackendClosed(a.context)];
    if code != 0 && !(stopped || a.stopAfterRun) {
      var paused := Paused(Sleep(cfg.retryMs * 1_000_000, 0, a.sleep, false).sleptNs);
      One(cfg, w3, paused);
      WatchingSplit(cfg, w, log, [paused]);
    }
  }

  lemma TurnWatched(cfg: Config, s: State, a: Attempt, w: Watch)
    requires Matches(cfg, s, w) && !Done(s)
    ensures var t := Turn(cfg, s, a);
      && Watching(cfg, w, t.events).Some? && Matches(cfg, t.state, Watching(cfg, w, t.events).value)
  {
    AcquireWatched(cfg, s, a, w);
    var acquired := Acquire(s, a);
    var v := Watching(cfg, w, acquired.events).value;
    if acquired.code != 0 {
      BackOffWatched(cfg, acquired.state, a, v);
    } else {
      GenerationWatched(cfg, acquired.state, a, v);
    }
    WatchingSplit(cfg, w, acquired.events, Proceed(cfg, acquired, a).events);
  }

  lemma {:induction false} RunWatched(cfg: Config, s: State, attempts: seq<Attempt>, w: Watch)
    requires Matches(cfg, s, w)
    ensures var run := Run(cfg, s, attempts);
      && Watching(cfg, w, run.events).Some? && Matches(cfg, run.state, Watching(cfg, w, run.events).value)
    decreases |attempts|
  {
    if attempts != [] && !Done(s) && !attempts[0].stopBefore {
      TurnWatched(cfg, s, attempts[0], w);
      var t := Turn(cfg, s, attempts[0]);
      var v := Watching(cfg, w, t.events).value;
      RunWatched(cfg, t.state, attempts[1..], v);
      WatchingSplit(cfg, w, t.events, Run(cfg, t.state, attempts[1..]).events);
    }
  }

  /**
   * Resource ownership over whole runs. Whatever fails (opening, reopening, publishing, the transport, removing
   * the marker), in any order and any number of times, the watchman accepts everything the daemon does: no
   * context is leaked or closed twice, the stream is released before it is opened again, `run_loop` has backend,
   * descriptor and mapping for as long as it works, and once the daemon has ended nothing is held.
   */
  lemma Ownership(cfg: Config, attempts: seq<Attempt>, unlinkOk: bool, k: nat)
    requires k <= |Lifetime(cfg, attempts, unlinkOk)|
    ensures var log := Lifetime(cfg, attempts, unlinkOk);
            var run := Run(cfg, INITIAL, attempts);
      && Watching(cfg, ON_DUTY, log[..k]).Some?
      && Sound(Watching(cfg, ON_DUTY, log[..k]).value)
      && (k == |log| && !run.state.inLoop && Done(run.state) ==>
            var w := Watching(cfg, ON_DUTY, log[..k]).value; !w.live && !w.fd && !w.mapped)
  {
    var log := Lifetime(cfg, attempts, unlinkOk);
    LifetimeWatched(cfg, attempts, unlinkOk);
    WatchingSplit(cfg, ON_DUTY, log[..k], log[k..]);
    assert log[..k] + log[k..] == log;
    WatchingSound(cfg, ON_DUTY, log[..k]);
  }

  lemma LifetimeWatched(cfg: Config, attempts: seq<Attempt>, unlinkOk: bool)
    ensures var log := Lifetime(cfg, attempts, unlinkOk);
            var run := Run(cfg, INITIAL, attempts);
      && Watching(cfg, ON_DUTY, run.events).Some? && Watching(cfg, ON_DUTY, log).Some?
      && Matches(cfg, run.state, Watching(cfg, ON_DUTY, run.events).value)
      && (!run.state.inLoop && Done(run.state) ==>
            var w := Watching(cfg, ON_DUTY, log).value; !w.live && !w.fd && !w.mapped)
  {
    var run := Run(cfg, INITIAL, attempts);
    RunWatched(cfg, INITIAL, attempts, ON_DUTY);
    if !run.state.inLoop && Done(run.state) {
      CleanupWatched(cfg, run.state, Watching(cfg, ON_DUTY, run.events).value, unlinkOk);
      WatchingSplit(cfg, ON_DUTY, run.events, Cleanup(cfg, run.state, unlinkOk));
    } else {
      assert run.events + [] == run.events;
    }
  }

  lemma CleanupWatched(cfg: Config, s: State, w: Watch, unlinkOk: bool)
    requires Matches(cfg, s, w) && !s.inLoop
    ensures var removed := cfg.path != "" && unlinkOk;
      Watching(cfg, w, Cleanup(cfg, s, unlinkOk))
      == Some(w.(fd := false, mapped := false, marker := if removed then None else w.marker))
  {
    var removed := Removed(cfg.path != "" && unlinkOk);
    var w1 := Observe(cfg, w, removed).value;
    One(cfg, w, removed);
    ReleaseWatched(cfg, w1);
    var rest := (if s.mapped then [StreamUnmapped] else []) + (if s.fd then [StreamClosed] else []);
    assert Cleanup(cfg, s, unlinkOk) == [removed] + rest;
    WatchingSplit(cfg, w, [removed], rest);
  }

  /**
   * Gapless generations: the k-th successful publication of a daemon carries generation k, however many
   * backend opens, stream reopens, transports or removals of the marker failed in between.
   */
  lemma GaplessGenerations(cfg: Config, attempts: seq<Attempt>, i: nat)
    requires i < |Numbers(Run(cfg, INITIAL, attempts).events)|
    ensures Numbers(Run(cfg, INITIAL, attempts).events)[i] == (i + 1) % WORD64
  {
    RunWatched(cfg, INITIAL, attempts, ON_DUTY);
    NumbersGapless(cfg, ON_DUTY, Run(cfg, INITIAL, attempts).events, i);
  }

  /** An event that concerns neither the marker nor `run_loop`. */
  predicate Silent(e: Event) {
    !e.Published? && !e.Removed? && !e.LoopEntered? && !e.LoopLeft?
  }

  predicate AllSilent(log: seq<Event>) {
    forall i :: 0 <= i < |log| ==> Silent(log[i])
  }

  lemma {:induction false} SilentTruths(cfg: Config, w: Watch, log: seq<Event>)
    requires AllSilent(log) && Watching(cfg, w, log).Some?
    ensures var v := Watching(cfg, w, log).value;
      && v.marker == w.marker && v.served == w.served && v.inLoop == w.inLoop
      && (w.marker.None? && !w.inLoop ==> Truths(cfg, w, log))
    decreases |log|
  {
    if log != [] {
      SilentTruths(cfg, Observe(cfg, w, log[0]).value, log[1..]);
    }
  }

  lemma AcquireSilent(s: State, a: Attempt)
    ensures AllSilent(Acquire(s, a).events)
  {
    ReopenSilent(s.fd, s.mapped, a.reopen);
  }

  lemma ReopenSilent(fd: bool, mapped: bool, env: ReopenEnv)
    ensures AllSilent(Reopen(fd, mapped, env).events)
  {
  }

  /** From `run_loop` to the closing of the backend, with the marker up: the one step that may lie. */
  lemma LeaveTruthIff(cfg: Config, s: State, a: Attempt, w: Watch, code: int, stopped: bool)
    requires w.backend && w.fd && w.mapped && w.live == a.context && w.inLoop && Truthful(cfg, w)
    ensures var l := Leave(cfg, s, a, code, stopped);
      && Watching(cfg, w, l.events).Some?
      && (Truths(cfg, w, l.events) <==> cfg.path == "" || Removed(false) !in l.events)
      && (Truths(cfg, w, l.events) ==> Watching(cfg, w, l.events).value.marker.None?)
  {
    var removed := Removed(cfg.path != "" && a.unlinkOk);
    var closed := BackendClosed(a.context);
    var w1 := w.(inLoop := false);
    var w2 := Observe(cfg, w1, removed).value;
    var w3 := Observe(cfg, w2, closed).value;
    assert [LoopLeft, removed, closed][1..] == [removed, closed] && [removed, closed][1..] == [closed];
    assert [closed][1..] == [];
    assert Watching(cfg, w2, [closed]) == Some(w3) && (Truths(cfg, w2, [closed]) <==> w2.marker.None?);
    assert Watching(cfg, w1, [removed, closed]) == Some(w3);
    assert Truthful(cfg, w1);
    assert Watching(cfg, w, [LoopLeft, removed, closed]) == Some(w3);
    if code != 0 && !(stopped || a.stopAfterRun) {
      var paused := Paused(Sleep(cfg.retryMs * 1_000_000, 0, a.sleep, false).sleptNs);
      One(cfg, w3, paused);
      WatchingSplit(cfg, w, [LoopLeft, removed, closed], [paused]);
      TruthsSplit(cfg, w, [LoopLeft, removed, closed], [paused]);
      assert [paused][1..] == [];
      assert Leave(cfg, s, a, code, stopped).events == [LoopLeft, removed, closed] + [paused];
    }
  }

  lemma ServeTruthIff(cfg: Config, s: State, a: Attempt, w: Watch)
    requires w.backend && w.fd && w.mapped && w.live == a.context && !w.inLoop && !s.inLoop
    requires Truthful(cfg, w) && (w.marker.Some? <==> cfg.path != "")
    ensures var g := Serve(cfg, s, a);
      && Watching(cfg, w, g.events).Some?
      && (Truths(cfg, w, g.events) <==> cfg.path == "" || Removed(false) !in g.events)
      && (Truths(cfg, w, g.events) && !g.state.inLoop ==> Watching(cfg, w, g.events).value.marker.None?)
  {
    var w1 := w.(inLoop := true);
    One(cfg, w, LoopEntered);
    assert [LoopEntered][1..] == [] && Truths(cfg, w, [LoopEntered]);
    match LoopExit(cfg, a.run) {
      case Running =>
      case Returned(code, stopped) =>
        var left := Leave(cfg, s, a, code, stopped).events;
        LeaveTruthIff(cfg, s, a, w1, code, stopped);
        WatchingSplit(cfg, w, [LoopEntered], left);
        TruthsSplit(cfg, w, [LoopEntered], left);
    }
  }

  lemma GenerationTruthIff(cfg: Config, s: State, a: Attempt, w: Watch)
    requires Equipped(cfg, s, a, w) && !Done(s) && w.marker.None?
    ensures var g := Generation(cfg, s, a);
      && Watching(cfg, w, g.events).Some?
      && (Truths(cfg, w, g.events) <==> cfg.path == "" || Removed(false) !in g.events)
      && (Truths(cfg, w, g.events) && !g.state.inLoop ==> Watching(cfg, w, g.events).value.marker.None?)
  {
    var s1 := Numbered(s);
    var claim := ClaimOf(cfg, GenerationOf(s1));
    if PublishCode(cfg.path, claim, a.publish) != 0 {
      One(cfg, w, BackendClosed(a.context));
      SilentTruths(cfg, w, [BackendClosed(a.context)]);
    } else {
      NextNumber(w.served, s1.reopenCount);
      var published := Published(claim, cfg.path != "");
      One(cfg, w, published);
      var w1 := Observe(cfg, w, published).value;
      assert [published][1..] == [] && Truths(cfg, w, [published]);
      var s2 := Shown(cfg, s1, claim);
      ServeTruthIff(cfg, s2, a, w1);
      WatchingSplit(cfg, w, [published], Serve(cfg, s2, a).events);
      TruthsSplit(cfg, w, [published], Serve(cfg, s2, a).events);
    }
  }

  lemma ProceedTruthIff(cfg: Config, acquired: Acquired, a: Attempt, w: Watch)
    requires !Done(acquired.state) && w.marker.None? && !w.inLoop && w.live == a.context
    requires acquired.code == 0 ==> Equipped(cfg, acquired.state, a, w)
    ensures var p := Proceed(cfg, acquired, a);
      && Watching(cfg, w, p.events).Some?
      && (Truths(cfg, w, p.events) <==> cfg.path == "" || Removed(false) !in p.events)
      && (Truths(cfg, w, p.events) && !p.state.inLoop ==> Watching(cfg, w, p.events).value.marker.None?)
  {
    if acquired.code != 0 {
      BackOffAccepted(cfg, acquired.state, a, w);
      SilentTruths(cfg, w, Proceed(cfg, acquired, a).events);
    } else {
      GenerationTruthIff(cfg, acquired.state, a, w);
    }
  }

  lemma TurnTruthIff(cfg: Config, s: State, a: Attempt, w: Watch)
    requires Matches(cfg, s, w) && !Done(s) && w.marker.None?
    ensures var t := Turn(cfg, s, a);
      && Watching(cfg, w, t.events).Some?
      && (Truths(cfg, w, t.events) <==> cfg.path == "" || Removed(false) !in t.events)
      && (Truths(cfg, w, t.events) && !t.state.inLoop ==> Watching(cfg, w, t.events).value.marker.None?)
  {
    AcquireWatched(cfg, s, a, w);
    AcquireSilent(s, a);
    var acquired := Acquire(s, a);
    var v := Watching(cfg, w, acquired.events).value;
    SilentTruths(cfg, w, acquired.events);
    ProceedTruthIff(cfg, acquired, a, v);
    var rest := Proceed(cfg, acquired, a).events;
    WatchingSplit(cfg, w, acquired.events, rest);
    TruthsSplit(cfg, w, acquired.events, rest);
  }

  lemma {:induction false} RunTruthIff(cfg: Config, s: State, attempts: seq<Attempt>, w: Watch)
    requires Matches(cfg, s, w) && w.marker.None? && !s.inLoop
    ensures var run := Run(cfg, s, attempts);
      && Watching(cfg, w, run.events).Some?
      && (Truths(cfg, w, run.events) <==> cfg.path == "" || Removed(false) !in run.events)
      && (Truths(cfg, w, run.events) && !run.state.inLoop ==> Watching(cfg, w, run.events).value.marker.None?)
    decreases |attempts|
  {
    if attempts != [] && !Done(s) && !attempts[0].stopBefore {
      TurnWatched(cfg, s, attempts[0], w);
      TurnTruthIff(cfg, s, attempts[0], w);
      var t := Turn(cfg, s, attempts[0]);
      var v := Watching(cfg, w, t.events).value;
      var rest := Run(cfg, t.state, attempts[1..]);
      RunWatched(cfg, t.state, attempts[1..], v);
      WatchingSplit(cfg, w, t.events, rest.events);
      TruthsSplit(cfg, w, t.events, rest.events);
      if Truths(cfg, w, t.events) {
        if t.state.inLoop {
          assert rest == Step(t.state, []);
          WatchingTruths(cfg, w, t.events);
        } else {
          RunTruthIff(cfg, t.state, attempts[1..], v);
        }
      }
    }
  }

  lemma {:induction false} WatchingTruths(cfg: Config, w: Watch, log: seq<Event>)
    requires Truths(cfg, w, log)
    ensures Watching(cfg, w, log).Some? && Truthful(cfg, Watching(cfg, w, log).value)
    decreases |log|
  {
    if log != [] {
      WatchingTruths(cfg, Observe(cfg, w, log[0]).value, log[1..]);
    }
  }

  /**
   * Truthful readiness, exactly. At every moment of a daemon's life, its end included, a visible marker is true,
   * and the marker is up while `run_loop` works, if and only if the marker is turned off or no removal after a
   * `run_loop` failed. (A failing removal at the very end does no harm: the marker is already gone.)
   */
  lemma TruthfulIff(cfg: Config, attempts: seq<Attempt>, unlinkOk: bool)
    ensures var log := Lifetime(cfg, attempts, unlinkOk);
      && (forall k :: 0 <= k <= |log| ==> Watching(cfg, ON_DUTY, log[..k]).Some?)
      && ((forall k :: 0 <= k <= |log| ==> Truthful(cfg, Watching(cfg, ON_DUTY, log[..k]).value))
          <==> cfg.path == "" || Removed(false) !in Run(cfg, INITIAL, attempts).events)
  {
    var log := Lifetime(cfg, attempts, unlinkOk);
    LifetimeWatched(cfg, attempts, unlinkOk);
    TruthsThroughout(cfg, ON_DUTY, log);
    LifetimeTruthIff(cfg, attempts, unlinkOk);
  }

  lemma LifetimeTruthIff(cfg: Config, attempts: seq<Attempt>, unlinkOk: bool)
    ensures var log := Lifetime(cfg, attempts, unlinkOk);
            var run := Run(cfg, INITIAL, attempts);
      && (Truths(cfg, ON_DUTY, log) <==> cfg.path == "" || Removed(false) !in run.events)
      && (Truths(cfg, ON_DUTY, log) && !run.state.inLoop ==>
            Watching(cfg, ON_DUTY, log).Some? && Watching(cfg, ON_DUTY, log).value.marker.None?)
  {
    var run := Run(cfg, INITIAL, attempts);
    RunTruthIff(cfg, INITIAL, attempts, ON_DUTY);
    if !run.state.inLoop && Done(run.state) {
      RunWatched(cfg, INITIAL, attempts, ON_DUTY);
      var w := Watching(cfg, ON_DUTY, run.events).value;
      TruthsSplit(cfg, ON_DUTY, run.events, Cleanup(cfg, run.state, unlinkOk));
      WatchingSplit(cfg, ON_DUTY, run.events, Cleanup(cfg, run.state, unlinkOk));
      if Truths(cfg, ON_DUTY, run.events) {
        CleanupWatched(cfg, run.state, w, unlinkOk);
        CleanupTruths(cfg, run.state, w, unlinkOk);
      }
    } else {
      assert run.events + [] == run.events;
    }
  }

  lemma CleanupTruths(cfg: Config, s: State, w: Watch, unlinkOk: bool)
    requires Matches(cfg, s, w) && !s.inLoop && w.marker.None?
    ensures Truths(cfg, w, Cleanup(cfg, s, unlinkOk))
  {
    var removed := Removed(cfg.path != "" && unlinkOk);
    var rest := (if s.mapped then [StreamUnmapped] else []) + (if s.fd then [StreamClosed] else []);
    assert Cleanup(cfg, s, unlinkOk) == [removed] + rest;
    One(cfg, w, removed);
    assert [removed][1..] == [] && Truths(cfg, w, [removed]);
    ReleaseWatched(cfg, w);
    TruthsSplit(cfg, w, [removed], rest);
    SilentTruths(cfg, w, rest);
  }

  /** The daemon's whole life where removing the marker works: owned, truthful, and nothing left at the end. */
  lemma DaemonLifetime(cfg: Config, attempts: seq<Attempt>, unlinkOk: bool, k: nat)
    requires cfg.path == "" || Removed(false) !in Run(cfg, INITIAL, attempts).events
    requires k <= |Lifetime(cfg, attempts, unlinkOk)|
    ensures var log := Lifetime(cfg, attempts, unlinkOk);
            var run := Run(cfg, INITIAL, attempts);
      && Watching(cfg, ON_DUTY, log[..k]).Some?
      && Sound(Watching(cfg, ON_DUTY, log[..k]).value)
      && Truthful(cfg, Watching(cfg, ON_DUTY, log[..k]).value)
      && (k == |log| && !run.state.inLoop && Done(run.state) ==>
            var w := Watching(cfg, ON_DUTY, log[..k]).value;
            !w.live && !w.fd && !w.mapped && w.marker.None?)
  {
    Ownership(cfg, attempts, unlinkOk, k);
    TruthfulIff(cfg, attempts, unlinkOk);
    LifetimeTruthIff(cfg, attempts, unlinkOk);
    assert k == |Lifetime(cfg, attempts, unlinkOk)| ==>
             Lifetime(cfg, attempts, unlinkOk)[..k] == Lifetime(cfg, attempts, unlinkOk);
  }

  /** The complete marker of generation k. */
  function MarkOf(cfg: Config): nat -> string {
    (k: nat) => MarkerText(ClaimOf(cfg, k % WORD64))
  }

  /**
   * A possible history of the marker's path with `n` markers so far: at first nothing; whenever it vanishes a
   * marker was there; and the k-th marker is `mark(k)`.
   */
  ghost predicate History(mark: nat -> string, seen: seq<Option<string>>, n: nat) {
    && seen != []
    && (var end := |seen| - 1;
        match seen[end]
        case None => if end == 0 then n == 0 else seen[end - 1].Some? && History(mark, seen[..end], n)
        case Some(text) => n > 0 && text == mark(n) && History(mark, seen[..end], n - 1))
  }

  ghost predicate Gone(seen: seq<Option<string>>) {
    seen != [] && seen[|seen| - 1].None?
  }

  /** No marker took the place of another that was still up. */
  ghost predicate NeverReplaced(seen: seq<Option<string>>) {
    forall i :: 0 < i < |seen| ==> seen[i - 1].None? || seen[i].None?
  }

  lemma GenerationHistory(cfg: Config, s: State, a: Attempt, w: Watch)
    requires Equipped(cfg, s, a, w) && !Done(s)
    requires History(MarkOf(cfg), s.seen, if cfg.path == "" then 0 else w.served)
    ensures var g := Generation(cfg, s, a);
            var v := Watching(cfg, w, g.events);
      && v.Some? && History(MarkOf(cfg), g.state.seen, if cfg.path == "" then 0 else v.value.served)
      && (Removed(false) !in g.events && Gone(s.seen) && NeverReplaced(s.seen) ==>
            NeverReplaced(g.state.seen) && (!g.state.inLoop ==> Gone(g.state.seen)))
  {
    var g := Generation(cfg, s, a);
    var claim := ClaimOf(cfg, GenerationOf(Numbered(s)));
    var served := PublishCode(cfg.path, claim, a.publish) == 0;
    GenerationServed(cfg, s, a, w);
    GenerationSeen(cfg, s, a);
    if cfg.path != "" {
      NextMark(cfg, s, a, w);
      HistoryOn(MarkOf(cfg), s.seen, w.served, served, g.state.inLoop || Removed(false) in g.events, g.state.seen);
    }
  }

  lemma NextMark(cfg: Config, s: State, a: Attempt, w: Watch)
    requires Equipped(cfg, s, a, w)
    ensures MarkOf(cfg)(w.served + 1) == MarkerText(ClaimOf(cfg, GenerationOf(Numbered(s))))
  {
    NextNumber(w.served, Numbered(s).reopenCount);
  }

  /** The next marker, and its removal unless it stays up, continue a history. */
  lemma HistoryOn(
      mark: nat -> string, seen: seq<Option<string>>, n: nat, served: bool, stays: bool, seen': seq<Option<string>>)
    requires History(mark, seen, n)
    requires seen' == if !served then seen
                      else if stays then seen + [Some(mark(n + 1))]
                      else seen + [Some(mark(n + 1))] + [None]
    ensures History(mark, seen', if served then n + 1 else n)
    ensures Gone(seen) && NeverReplaced(seen) ==> NeverReplaced(seen') && (!served || !stays ==> Gone(seen'))
  {
    var shown := seen + [Some(mark(n + 1))];
    assert shown[..|seen|] == seen && (shown + [None])[..|shown|] == shown;
  }

  /** What an attempt shows at the marker's path. */
  lemma GenerationSeen(cfg: Config, s: State, a: Attempt)
    requires !s.inLoop
    ensures var g := Generation(cfg, s, a);
            var claim := ClaimOf(cfg, GenerationOf(Numbered(s)));
            var shown := s.seen + [Some(MarkerText(claim))];
      g.state.seen ==
        if cfg.path == "" || PublishCode(cfg.path, claim, a.publish) != 0 then s.seen
        else if g.state.inLoop || Removed(false) in g.events then shown
        else shown + [None]
  {
    var s1 := Numbered(s);
    var claim := ClaimOf(cfg, GenerationOf(s1));
    if PublishCode(cfg.path, claim, a.publish) == 0 {
      ServeSeen(cfg, Shown(cfg, s1, claim), a);
    }
  }

  lemma ServeSeen(cfg: Config, s: State, a: Attempt)
    requires !s.inLoop && (cfg.path != "" ==> s.seen != [] && s.seen[|s.seen| - 1].Some?)
    ensures var g := Serve(cfg, s, a);
      g.state.seen ==
        if cfg.path == "" || g.state.inLoop || Removed(false) in g.events then s.seen else s.seen + [None]
  {
    match LoopExit(cfg, a.run) {
      case Running =>
      case Returned(code, stopped) =>
        var left := Leave(cfg, s, a, code, stopped).events;
        assert left[1] == Removed(cfg.path != "" && a.unlinkOk);
    }
  }

  /** How many generations an attempt serves. */
  lemma GenerationServed(cfg: Config, s: State, a: Attempt, w: Watch)
    requires Equipped(cfg, s, a, w) && !Done(s)
    ensures var g := Generation(cfg, s, a);
            var v := Watching(cfg, w, g.events);
            var code := PublishCode(cfg.path, ClaimOf(cfg, GenerationOf(Numbered(s))), a.publish);
      v.Some? && v.value.served == if code == 0 then w.served + 1 else w.served
  {
    var s1 := Numbered(s);
    var claim := ClaimOf(cfg, GenerationOf(s1));
    GenerationWatched(cfg, s, a, w);
    if PublishCode(cfg.path, claim, a.publish) != 0 {
      One(cfg, w, BackendClosed(a.context));
    } else {
      NextNumber(w.served, s1.reopenCount);
      var published := Published(claim, cfg.path != "");
      One(cfg, w, published);
      WatchingSplit(cfg, w, [published], Serve(cfg, Shown(cfg, s1, claim), a).events);
      ServesOnce(cfg, Shown(cfg, s1, claim), a, Observe(cfg, w, published).value);
    }
  }

  lemma ServesOnce(cfg: Config, s: State, a: Attempt, w: Watch)
    requires Watching(cfg, w, Serve(cfg, s, a).events).Some?
    ensures Watching(cfg, w, Serve(cfg, s, a).events).value.served == w.served
  {
    NoneServed(cfg, w, Serve(cfg, s, a).events);
  }

  lemma {:induction false} NoneServed(cfg: Config, w: Watch, log: seq<Event>)
    requires Watching(cfg, w, log).Some? && forall i :: 0 <= i < |log| ==> !log[i].Published?
    ensures Watching(cfg, w, log).value.served == w.served
    decreases |log|
  {
    if log != [] {
      NoneServed(cfg, Observe(cfg, w, log[0]).value, log[1..]);
    }
  }

  lemma TurnHistory(cfg: Config, s: State, a: Attempt, w: Watch)
    requires Matches(cfg, s, w) && !Done(s)
    requires History(MarkOf(cfg), s.seen, if cfg.path == "" then 0 else w.served)
    ensures var t := Turn(cfg, s, a);
            var v := Watching(cfg, w, t.events);
      && v.Some? && History(MarkOf(cfg), t.state.seen, if cfg.path == "" then 0 else v.value.served)
      && (Removed(false) !in t.events && Gone(s.seen) && NeverReplaced(s.seen) ==>
            NeverReplaced(t.state.seen) && (!t.state.inLoop ==> Gone(t.state.seen)))
  {
    AcquireWatched(cfg, s, a, w);
    AcquireSilent(s, a);
    TurnWatched(cfg, s, a, w);
    var acquired := Acquire(s, a);
    var v := Watching(cfg, w, acquired.events).value;
    SilentTruths(cfg, w, acquired.events);
    WatchingSplit(cfg, w, acquired.events, Proceed(cfg, acquired, a).events);
    if acquired.code == 0 {
      GenerationHistory(cfg, acquired.state, a, v);
    } else {
      NoneServed(cfg, v, Proceed(cfg, acquired, a).events);
    }
  }

  lemma {:induction false} RunHistory(cfg: Config, s: State, attempts: seq<Attempt>, w: Watch)
    requires Matches(cfg, s, w) && History(MarkOf(cfg), s.seen, if cfg.path == "" then 0 else w.served)
    ensures var run := Run(cfg, s, attempts);
            var v := Watching(cfg, w, run.events);
      && v.Some? && History(MarkOf(cfg), run.state.seen, if cfg.path == "" then 0 else v.value.served)
      && (Removed(false) !in run.events && NeverReplaced(s.seen) && (!s.inLoop ==> Gone(s.seen)) ==>
            NeverReplaced(run.state.seen))
    decreases |attempts|
  {
    if attempts != [] && !Done(s) && !attempts[0].stopBefore {
      TurnWatched(cfg, s, attempts[0], w);
      TurnHistory(cfg, s, attempts[0], w);
      var t := Turn(cfg, s, attempts[0]);
      var v := Watching(cfg, w, t.events).value;
      RunHistory(cfg, t.state, attempts[1..], v);
      WatchingSplit(cfg, w, t.events, Run(cfg, t.state, attempts[1..]).events);
    }
  }

  lemma {:induction false} NumbersCount(cfg: Config, w: Watch, log: seq<Event>)
    requires Watching(cfg, w, log).Some?
    ensures Watching(cfg, w, log).value.served == w.served + |Numbers(log)|
    decreases |log|
  {
    if log != [] {
      NumbersCount(cfg, Observe(cfg, w, log[0]).value, log[1..]);
    }
  }

  lemma ClearedHistory(mark: nat -> string, seen: seq<Option<string>>, n: nat)
    requires History(mark, seen, n)
    ensures History(mark, Cleared(seen), n) && Gone(Cleared(seen))
    ensures NeverReplaced(seen) ==> NeverReplaced(Cleared(seen))
  {
    assert (seen + [None])[..|seen|] == seen;
  }

  /** How many markers a daemon shows: one for each publication, unless the marker is turned off. */
  function Markers(cfg: Config, attempts: seq<Attempt>): nat {
    if cfg.path == "" then 0 else |Numbers(Run(cfg, INITIAL, attempts).events)|
  }

  /**
   * Atomic readiness over a daemon's whole life. Whatever fails, everything that is ever visible at the marker's
   * path is, in order, nothing or a complete marker; there are as many markers as publications, and the k-th is
   * that of generation k. If the daemon ends and its last removal works, nothing is left.
   */
  lemma MarkerHistory(cfg: Config, attempts: seq<Attempt>, unlinkOk: bool)
    ensures var seen := LifetimeSeen(cfg, attempts, unlinkOk);
            var run := Run(cfg, INITIAL, attempts);
      && History(MarkOf(cfg), seen, Markers(cfg, attempts))
      && (!run.state.inLoop && Done(run.state) && cfg.path != "" && unlinkOk ==> Gone(seen))
  {
    RunHistory(cfg, INITIAL, attempts, ON_DUTY);
    NumbersCount(cfg, ON_DUTY, Run(cfg, INITIAL, attempts).events);
    ClearedHistory(MarkOf(cfg), Run(cfg, INITIAL, attempts).state.seen, Markers(cfg, attempts));
  }

  /** No marker, the marker of generation 1, no marker, the marker of generation 2, and so on. */
  ghost predicate Alternates(mark: nat -> string, seen: seq<Option<string>>) {
    forall i :: 0 <= i < |seen| ==>
      seen[i] == if i % 2 == 0 then None else Some(mark(i / 2 + 1))
  }

  lemma {:induction false} HistoryAlternates(mark: nat -> string, seen: seq<Option<string>>, n: nat)
    requires History(mark, seen, n) && NeverReplaced(seen)
    ensures Alternates(mark, seen) && |seen| == 2 * n + (if Gone(seen) then 1 else 0)
    decreases |seen|
  {
    var end := |seen| - 1;
    if end > 0 {
      var front := seen[..end];
      HistoryAlternates(mark, front, if seen[end].Some? then n - 1 else n);
      assert front[end - 1] == seen[end - 1];
      forall i | 0 <= i < |seen|
        ensures seen[i] == if i % 2 == 0 then None else Some(mark(i / 2 + 1))
      {
        if i < end {
          assert seen[i] == front[i];
        }
      }
    }
  }

  /**
   * The marker goes up and down once per generation if and only if none takes the place of another; it does so
   * in particular where every removal works.
   */
  lemma MarkerAlternates(cfg: Config, attempts: seq<Attempt>, unlinkOk: bool)
    ensures var seen := LifetimeSeen(cfg, attempts, unlinkOk);
      && (Alternates(MarkOf(cfg), seen) <==> NeverReplaced(seen))
      && (Removed(false) !in Run(cfg, INITIAL, attempts).events ==> Alternates(MarkOf(cfg), seen))
  {
    RunHistory(cfg, INITIAL, attempts, ON_DUTY);
    MarkerHistory(cfg, attempts, unlinkOk);
    NumbersCount(cfg, ON_DUTY, Run(cfg, INITIAL, attempts).events);
    ClearedHistory(MarkOf(cfg), Run(cfg, INITIAL, attempts).state.seen, Markers(cfg, attempts));
    HistoryAlternatesIff(MarkOf(cfg), LifetimeSeen(cfg, attempts, unlinkOk), Markers(cfg, attempts));
  }

  lemma HistoryAlternatesIff(mark: nat -> string, seen: seq<Option<string>>, n: nat)
    requires History(mark, seen, n)
    ensures Alternates(mark, seen) <==> NeverReplaced(seen)
  {
    if NeverReplaced(seen) {
      HistoryAlternates(mark, seen, n);
    } else {
      var i :| 0 < i < |seen| && seen[i - 1].Some? && seen[i].Some?;
      assert i % 2 == 0 || (i - 1) % 2 == 0;
    }
  }

  /** A generation whose transport is lost at once, and whose marker cannot be removed. */
  const STUCK := Attempt(
    false, 0, true, ReopenEnv(0, 0, 0), PublishEnv(0, [], 0, 0, true),
    RunScript(D.Startup(-5, 0, 0, 0), []), false, false, [])

  /**
   * The result of `unlink` is ignored: where publishing works but removing does not, the first lost transport
   * leaves the marker up while its backend is closed.
   */
  lemma FailedUnlinkLies(cfg: Config, unlinkOk: bool)
    requires cfg.path != "" && PublishCode(cfg.path, ClaimOf(cfg, 1), STUCK.publish) == 0
    ensures var log := Lifetime(cfg, [STUCK], unlinkOk);
      exists k :: 0 <= k <= |log| && Watching(cfg, ON_DUTY, log[..k]).Some?
                  && !Truthful(cfg, Watching(cfg, ON_DUTY, log[..k]).value)
  {
    assert LoopExit(cfg, STUCK.run) == D.Returned(-5, false);
    assert Run(cfg, INITIAL, [STUCK]).events == Turn(cfg, INITIAL, STUCK).events;
    assert Removed(false) in Serve(cfg, Shown(cfg, Numbered(INITIAL), ClaimOf(cfg, 1)), STUCK).events;
    assert Removed(false) in Turn(cfg, INITIAL, STUCK).events;
    TruthfulIff(cfg, [STUCK], unlinkOk);
  }
}
