/** What the daemon claims in its marker, and what `usbdisplay-check` may conclude from it. */
module Readiness {
  import opened Abi
  import opened Marker
  import opened Supervisor
  import opened Generations
  import C = Checker

  /** A claim about this daemon: its process, its backend's name, and whether the backend is physical. */
  predicate OwnClaim(cfg: Config, c: Claim) {
    c.pid == cfg.pid && c.name == cfg.name && c.physical == cfg.loop.physical
  }

  lemma {:induction false} WatchedClaims(cfg: Config, w: Watch, log: seq<Event>, i: nat)
    requires Watching(cfg, w, log).Some? && i < |log| && log[i].Published?
    ensures OwnClaim(cfg, log[i].claim) && log[i].visible == (cfg.path != "")
    decreases |log|
  {
    if i > 0 {
      WatchedClaims(cfg, Observe(cfg, w, log[0]).value, log[1..], i - 1);
    }
  }

  /** Everything the daemon ever publishes is about itself. */
  lemma PublishesOwnClaims(cfg: Config, attempts: seq<Attempt>, unlinkOk: bool, i: nat)
    requires i < |Lifetime(cfg, attempts, unlinkOk)| && Lifetime(cfg, attempts, unlinkOk)[i].Published?
    ensures OwnClaim(cfg, Lifetime(cfg, attempts, unlinkOk)[i].claim)
    ensures Lifetime(cfg, attempts, unlinkOk)[i].visible == (cfg.path != "")
  {
    LifetimeWatched(cfg, attempts, unlinkOk);
    WatchedClaims(cfg, ON_DUTY, Lifetime(cfg, attempts, unlinkOk), i);
  }

  lemma {:induction false} HistoryMarks(mark: nat -> string, seen: seq<Option<string>>, n: nat, i: nat) returns (k: nat)
    requires History(mark, seen, n) && i < |seen| && seen[i].Some?
    ensures 0 < k <= n && seen[i] == Some(mark(k))
    decreases |seen|
  {
    var end := |seen| - 1;
    if i == end {
      k := n;
    } else {
      assert seen[..end][i] == seen[i];
      k := HistoryMarks(mark, seen[..end], if seen[end].None? then n else n - 1, i);
    }
  }

  /** Every marker ever visible is the text of such a claim. */
  lemma ShownClaim(cfg: Config, attempts: seq<Attempt>, unlinkOk: bool, text: string) returns (c: Claim)
    requires Some(text) in LifetimeSeen(cfg, attempts, unlinkOk)
    ensures text == MarkerText(c) && OwnClaim(cfg, c)
  {
    var seen := LifetimeSeen(cfg, attempts, unlinkOk);
    var i: nat :| i < |seen| && seen[i] == Some(text);
    MarkerHistory(cfg, attempts, unlinkOk);
    var k := HistoryMarks(MarkOf(cfg), seen, Markers(cfg, attempts), i);
    c := ClaimOf(cfg, k % WORD64);
  }

  /**
   * Readiness across the two programs: whenever `usbdisplay-check` reports a physical display on a marker that the
   * daemon showed at any time, whatever its backend is called, that backend is physical, the module, both device
   * nodes and the adapter are there, and the process named in the marker is a daemon.
   */
  lemma PhysicalReadyIsTrue(cfg: Config, attempts: seq<Attempt>, unlinkOk: bool, text: string, s: C.Status)
    requires Some(text) in LifetimeSeen(cfg, attempts, unlinkOk) && s.marker == Some(text)
    requires C.Verdict(s, C.Parse(text, C.NO_FIELDS), false, C.Ready)
    ensures cfg.loop.physical
    ensures s.moduleLoaded && s.stream && s.framebuffer && s.comm && s.usb
  {
    var c := ShownClaim(cfg, attempts, unlinkOk, text);
    C.PhysicalReadyOnlyIf(s, c);
  }
}
