/** Damage rectangles: a backend that repaints only the damaged part of each frame. */
module Damage {
  import opened Abi
  import opened Dispatcher
  import opened Timing
  import opened NewestWins

  type Position = (nat, nat)

  /** Visible pixels by position (column, row). */
  type Picture = map<Position, int>

  predicate InRect(r: Rect, p: Position) {
    r.x <= p.0 < r.x + r.width && r.y <= p.1 < r.y + r.height
  }

  /** Repaint the damage of a new picture over what the screen shows; positions never painted stay absent. */
  function Paint(screen: Picture, next: Picture, damage: Rect): Picture {
    map p | p in next.Keys && (InRect(damage, p) || p in screen) :: if InRect(damage, p) then next[p] else screen[p]
  }

  /** The damage covers every difference between the old and the new picture. */
  ghost predicate Covers(old_: Picture, next: Picture, damage: Rect) {
    forall p: Position :: p in next && !InRect(damage, p) ==> p in old_ && old_[p] == next[p]
  }

  lemma PaintExact(screen: Picture, next: Picture, damage: Rect)
    ensures Paint(screen, next, damage) == next <==> Covers(screen, next, damage)
  {
    var painted := Paint(screen, next, damage);
    if painted == next {
      forall p: Position | p in next && !InRect(damage, p)
        ensures p in screen && screen[p] == next[p]
      {
        assert p in painted;
      }
    } else if Covers(screen, next, damage) {
      assert painted.Keys == next.Keys;
      assert forall p :: p in next ==> painted[p] == next[p];
    }
  }

  /** A reading of frames as pictures: it ignores the damage and stays within the frame's size. */
  ghost predicate IsReading(pic: Frame -> Picture) {
    && (forall f: Frame, r: Rect :: pic(f.(damage := r)) == pic(f))
    && (forall f: Frame, p: Position :: p in pic(f) ==> p.0 < f.width && p.1 < f.height)
  }

  /** What the screen shows after the successful submits of the first `n` rounds. */
  ghost function Screen(cfg: Config, pic: Frame -> Picture, splash: Frame, rs: seq<Round>, n: nat): Picture
    requires n <= |rs|
    decreases n, 0
  {
    if n == 0 then pic(splash) else RefreshScreen(cfg, pic, splash, rs, n - 1)
  }

  ghost function FreshScreen(cfg: Config, pic: Frame -> Picture, splash: Frame, rs: seq<Round>, i: nat): Picture
    requires i < |rs|
    decreases i, 1
  {
    var screen := Screen(cfg, pic, splash, rs, i);
    if FreshDone(rs[i]) then Paint(screen, pic(rs[i].submitted.frame), rs[i].submitted.frame.damage) else screen
  }

  ghost function RefreshScreen(cfg: Config, pic: Frame -> Picture, splash: Frame, rs: seq<Round>, i: nat): Picture
    requires i < |rs|
    decreases i, 2
  {
    var screen := FreshScreen(cfg, pic, splash, rs, i);
    if RefreshDone(cfg, rs[i]) then Paint(screen, pic(rs[i].submitted.frame), rs[i].submitted.frame.damage) else screen
  }

  /** After each successful submit of round `i` the screen shows exactly the submitted frame. */
  ghost predicate Faithful(cfg: Config, pic: Frame -> Picture, splash: Frame, rs: seq<Round>, i: nat)
    requires i < |rs|
  {
    && (FreshDone(rs[i]) ==> FreshScreen(cfg, pic, splash, rs, i) == pic(rs[i].submitted.frame))
    && (RefreshDone(cfg, rs[i]) ==> RefreshScreen(cfg, pic, splash, rs, i) == pic(rs[i].submitted.frame))
  }

  /** A new frame that follows an application frame is damaged wherever the two differ. */
  ghost predicate Covered(pic: Frame -> Picture, rs: seq<Round>, i: nat)
    requires i < |rs|
  {
    FreshDone(rs[i]) && rs[i].polled.frame.source != SOURCE_INITIAL ==>
      Covers(pic(rs[i].polled.frame), pic(rs[i].submitted.frame), rs[i].submitted.frame.damage)
  }

  lemma FullDamageCovers(pic: Frame -> Picture, f: Frame, screen: Picture)
    requires IsReading(pic) && f.damage == FullDamage(f.width, f.height)
    ensures Paint(screen, pic(f), f.damage) == pic(f)
  {
    PaintExact(screen, pic(f), f.damage);
  }

  /** The first painting needs nothing of the old screen: the startup splash is fully damaged. */
  lemma StartupShowsSplash(cfg: Config, start: Startup, pic: Frame -> Picture, screen: Picture)
    requires IsReading(pic)
    ensures var splash := SplashFrame(cfg, start.stampNs); Paint(screen, pic(splash), splash.damage) == pic(splash)
  {
    FullDamageCovers(pic, SplashFrame(cfg, start.stampNs), screen);
  }

  /** What the stages of a round do to the frame. */
  lemma SubmittedFrame(cfg: Config, splash: Frame, s: State, p: Pass)
    requires !Halted(s) && Sane(splash, s) && splash.source == SOURCE_INITIAL
    ensures var r := MakeRound(cfg, splash, s, p);
      && r.after.frame == r.submitted.frame
      && (r.polled.frame == s.frame || r.polled.frame == splash)
      && (FreshDone(r) ==>
            r.submitted.frame.source != SOURCE_INITIAL
            && (r.polled.frame.source == SOURCE_INITIAL ==>
                  r.submitted.frame.damage == FullDamage(r.submitted.frame.width, r.submitted.frame.height)))
      && (!Halted(r.after) && !FreshDone(r) ==> r.submitted.frame == r.polled.frame)
      && (RefreshDone(cfg, r) && !FreshDone(r) ==> r.submitted.frame == r.polled.frame)
  {
  }

  /** If the screen shows the application frame on entry, the round stays faithful exactly when it is covered. */
  lemma RoundFaithfulIff(cfg: Config, start: Startup, passes: seq<Pass>, pic: Frame -> Picture, i: nat)
    requires var rs := RunOf(cfg, start, passes);
             var splash := SplashFrame(cfg, start.stampNs);
      && i < |rs| && IsReading(pic)
      && (rs[i].before.frame.source != SOURCE_INITIAL ==>
            Screen(cfg, pic, splash, rs, i) == pic(rs[i].before.frame))
    ensures var rs := RunOf(cfg, start, passes);
            var splash := SplashFrame(cfg, start.stampNs);
      && (Faithful(cfg, pic, splash, rs, i) <==> Covered(pic, rs, i))
      && (Covered(pic, rs, i) && !Halted(rs[i].after) && rs[i].after.frame.source != SOURCE_INITIAL ==>
            Screen(cfg, pic, splash, rs, i + 1) == pic(rs[i].after.frame))
  {
    var rs := RunOf(cfg, start, passes);
    var splash := SplashFrame(cfg, start.stampNs);
    var r := rs[i];
    SaneThroughout(cfg, start, passes, i);
    SubmittedFrame(cfg, splash, r.before, r.pass);
    var f := r.submitted.frame;
    PaintExact(Screen(cfg, pic, splash, rs, i), pic(f), f.damage);
    PaintExact(FreshScreen(cfg, pic, splash, rs, i), pic(f), f.damage);
    if f.damage == FullDamage(f.width, f.height) {
      FullDamageCovers(pic, f, Screen(cfg, pic, splash, rs, i));
      FullDamageCovers(pic, f, FreshScreen(cfg, pic, splash, rs, i));
    }
  }

  /** As long as every earlier round is covered, the screen shows the application frame on entry to round `n`. */
  lemma {:induction false} ScreenFollowsFrame(
      cfg: Config, start: Startup, passes: seq<Pass>, pic: Frame -> Picture, n: nat)
    requires var rs := RunOf(cfg, start, passes);
             n < |rs| && IsReading(pic) && forall i: nat :: i < n ==> Covered(pic, rs, i)
    ensures var rs := RunOf(cfg, start, passes);
      rs[n].before.frame.source != SOURCE_INITIAL ==>
        Screen(cfg, pic, SplashFrame(cfg, start.stampNs), rs, n) == pic(rs[n].before.frame)
    decreases n
  {
    Linked(cfg, start, passes, n);
    if n > 0 {
      ScreenFollowsFrame(cfg, start, passes, pic, n - 1);
      RoundFaithfulIff(cfg, start, passes, pic, n - 1);
    }
  }

  lemma {:induction false} FaithfulImpliesCovered(
      cfg: Config, start: Startup, passes: seq<Pass>, pic: Frame -> Picture, n: nat)
    requires var rs := RunOf(cfg, start, passes);
      && n <= |rs| && IsReading(pic)
      && forall i: nat :: i < n ==> Faithful(cfg, pic, SplashFrame(cfg, start.stampNs), rs, i)
    ensures forall i: nat :: i < n ==> Covered(pic, RunOf(cfg, start, passes), i)
    decreases n
  {
    if n > 0 {
      FaithfulImpliesCovered(cfg, start, passes, pic, n - 1);
      ScreenFollowsFrame(cfg, start, passes, pic, n - 1);
      RoundFaithfulIff(cfg, start, passes, pic, n - 1);
    }
  }

  /**
   * Damage refinement, exactly. For every run and every reading of frames as pictures, repainting only the
   * damage shows the full submitted frame after every successful submit if and only if each new frame that
   * directly follows an application frame is damaged wherever the two differ. Transitions from the splash
   * need nothing, whatever was skipped before them.
   */
  lemma DamageRefinementIff(cfg: Config, start: Startup, passes: seq<Pass>, pic: Frame -> Picture)
    requires IsReading(pic)
    ensures var rs := RunOf(cfg, start, passes);
      (forall i: nat :: i < |rs| ==> Faithful(cfg, pic, SplashFrame(cfg, start.stampNs), rs, i))
      <==> (forall i: nat :: i < |rs| ==> Covered(pic, rs, i))
  {
    var rs := RunOf(cfg, start, passes);
    if forall i: nat :: i < |rs| ==> Covered(pic, rs, i) {
      forall i: nat | i < |rs|
        ensures Faithful(cfg, pic, SplashFrame(cfg, start.stampNs), rs, i)
      {
        ScreenFollowsFrame(cfg, start, passes, pic, i);
        RoundFaithfulIff(cfg, start, passes, pic, i);
      }
    }
    if forall i: nat :: i < |rs| ==> Faithful(cfg, pic, SplashFrame(cfg, start.stampNs), rs, i) {
      FaithfulImpliesCovered(cfg, start, passes, pic, |rs|);
    }
  }

  /** Each application read is damaged wherever it differs from the read before it, if that was one too. */
  ghost predicate ReadsCovered(cfg: Config, pic: Frame -> Picture, rs: seq<Round>) {
    forall k: nat, l: nat :: l < |rs| && LatestRead(cfg, rs, l, k)
                             && IsApplication(ReadAt(cfg, rs, k)) && IsApplication(ReadAt(cfg, rs, l)) ==>
      Covers(pic(FrameOf(cfg, ReadAt(cfg, rs, k).value, SOURCE_INITIAL)),
             pic(FrameOf(cfg, ReadAt(cfg, rs, l).value, SOURCE_INITIAL)),
             ReadAt(cfg, rs, l).value.damage)
  }

  lemma ReadingIgnoresDamage(cfg: Config, pic: Frame -> Picture, u: Update, source: u32)
    requires IsReading(pic)
    ensures pic(FrameOf(cfg, u, source)) == pic(FrameOf(cfg, u, SOURCE_INITIAL))
  {
    assert FrameOf(cfg, u, source)
           == FrameOf(cfg, u, SOURCE_INITIAL).(damage := FrameOf(cfg, u, source).damage);
  }

  /**
   * With a monotone clock it is enough that each read's damage covers its difference from the previous read:
   * once the hold is over no read is skipped, and the first frame after INITIAL is damaged in full.
   */
  lemma DamageRefinement(cfg: Config, start: Startup, passes: seq<Pass>, pic: Frame -> Picture, i: nat)
    requires var rs := RunOf(cfg, start, passes);
      && Started(start) && i < |rs| && MonotoneClock(cfg, rs, start.doneNs)
      && IsReading(pic) && ReadsCovered(cfg, pic, rs)
    ensures Faithful(cfg, pic, SplashFrame(cfg, start.stampNs), RunOf(cfg, start, passes), i)
  {
    var rs := RunOf(cfg, start, passes);
    forall j: nat | j < |rs|
      ensures Covered(pic, rs, j)
    {
      ReadsCoveredImpliesCovered(cfg, start, passes, pic, j);
    }
    DamageRefinementIff(cfg, start, passes, pic);
  }

  lemma ReadsCoveredImpliesCovered(cfg: Config, start: Startup, passes: seq<Pass>, pic: Frame -> Picture, j: nat)
    requires var rs := RunOf(cfg, start, passes);
      && Started(start) && j < |rs| && MonotoneClock(cfg, rs, start.doneNs)
      && IsReading(pic) && ReadsCovered(cfg, pic, rs)
    ensures Covered(pic, RunOf(cfg, start, passes), j)
  {
    var rs := RunOf(cfg, start, passes);
    var r := rs[j];
    if FreshDone(r) && r.polled.frame.source != SOURCE_INITIAL {
      SaneThroughout(cfg, start, passes, j);
      SubmittedFrame(cfg, SplashFrame(cfg, start.stampNs), r.before, r.pass);
      ApplicationOnlyAfterHold(cfg, start, passes, j);
      var k, m := OnShowIsLatestRead(cfg, start, passes, j);
      assert IsApplication(ReadAt(cfg, rs, j));
      ReadingIgnoresDamage(cfg, pic, ReadAt(cfg, rs, k).value, rs[m].polled.frame.source);
      ReadingIgnoresDamage(cfg, pic, ReadAt(cfg, rs, j).value, r.polled.frame.source);
    }
  }
}
