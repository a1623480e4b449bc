/** When exactly a scan becomes a keyframe, what that does to the queue, and what all captured scans have in common. */
module KeyframeLaws {
  import opened Angles
  import opened Options
  import opened Keyframes
  import opened KeyframeRuns

  function Size(x: real): real { if x >= 0.0 then x else -x }

  /** The rate is the shortest turn since the reference scan over the time since then. */
  ghost predicate MeasuredRate(yaw: real, stamp: real, reference: (real, real), rate: real) {
    exists turn :: ShortestTurn(reference.0, yaw, turn) && rate * (stamp - reference.1) == Size(turn)
  }

  lemma QuotientTimes(n: real, d: real)
    requires d > 0.0
    ensures n / d * d == n
  {
  }

  /**
   * The turn-rate gate: off, or without a reference, it lets everything pass; an interval of a millisecond or less is
   * turned away and leaves the reference alone; otherwise the measured rate decides, and the scan is the new reference.
   */
  lemma GateDecides(s: Uploader, cfg: Config, yaw: real, stamp: real)
    ensures var (r, tooFast) := TurningTooFast(s, cfg, yaw, stamp);
      if cfg.maxYawRate <= 0.0 || s.previous.None? then !tooFast && r == s.(previous := Some((yaw, stamp)))
      else if stamp - s.previous.value.1 <= 0.001 then
        tooFast && r == s.(unusableStamps := s.unusableStamps + 1)
      else
        && (tooFast <==> r.lastYawRate > cfg.maxYawRate)
        && MeasuredRate(yaw, stamp, s.previous.value, r.lastYawRate)
        && r == s.(previous := Some((yaw, stamp)), lastYawRate := r.lastYawRate)
  {
    if s.previous.Some? && stamp - s.previous.value.1 > 0.001 {
      var turn := WrapAngle(yaw - s.previous.value.0);
      WrapIsShortest(s.previous.value.0, yaw);
      QuotientTimes(Size(turn), stamp - s.previous.value.1);
    }
  }

  /** The gate lets the scan pass. */
  ghost predicate Steady(s: Uploader, cfg: Config, scan: Scan)
    requires scan.stamp.Some?
  {
    || cfg.maxYawRate <= 0.0
    || s.previous.None?
    || (scan.stamp.value - s.previous.value.1 > 0.001 && exists rate ::
          MeasuredRate(scan.yaw, scan.stamp.value, s.previous.value, rate) && rate <= cfg.maxYawRate)
  }

  lemma OneRate(yaw: real, stamp: real, reference: (real, real), a: real, b: real)
    requires stamp > reference.1 && MeasuredRate(yaw, stamp, reference, a) && MeasuredRate(yaw, stamp, reference, b)
    ensures a == b
  {
    var t :| ShortestTurn(reference.0, yaw, t) && a * (stamp - reference.1) == Size(t);
    var u :| ShortestTurn(reference.0, yaw, u) && b * (stamp - reference.1) == Size(u);
    OneShortestTurn(reference.0, yaw, t, u);
    EqualFactors(a, b, stamp - reference.1);
  }

  lemma EqualFactors(a: real, b: real, d: real)
    requires d > 0.0 && a * d == b * d
    ensures a == b
  {
    assert (a - b) * d == 0.0;
    if a > b {
      PositiveProduct(a - b, d);
    } else if b > a {
      PositiveProduct(b - a, d);
    }
  }

  lemma SteadyIsGate(s: Uploader, cfg: Config, scan: Scan)
    requires scan.stamp.Some?
    ensures Steady(s, cfg, scan) <==> !TurningTooFast(s, cfg, scan.yaw, scan.stamp.value).1
  {
    GateDecides(s, cfg, scan.yaw, scan.stamp.value);
    if cfg.maxYawRate > 0.0 && s.previous.Some? && scan.stamp.value - s.previous.value.1 > 0.001 {
      var r := TurningTooFast(s, cfg, scan.yaw, scan.stamp.value).0;
      if rate :| MeasuredRate(scan.yaw, scan.stamp.value, s.previous.value, rate) && rate <= cfg.maxYawRate {
        OneRate(scan.yaw, scan.stamp.value, s.previous.value, rate, r.lastYawRate);
      }
    }
  }

  /** At least the minimum period since the last capture, by the wall clock and by the capture stamps. */
  ghost predicate SpacedFrom(last: Scan, cfg: Config, scan: Scan)
    requires scan.stamp.Some?
  {
    && scan.now - last.now >= cfg.minPeriod
    && (last.stamp.Some? ==> scan.stamp.value - last.stamp.value >= cfg.minPeriod)
  }

  /** A scan becomes a keyframe exactly when it is usable, steady, spaced from the last one, dense and news. */
  lemma CapturedExactly(s: Uploader, cfg: Config, scan: Scan)
    requires s.last.Some? ==> s.last.value.stamp.Some?
    ensures Consider(s, cfg, scan).1 <==>
      && scan.poseValid && scan.stamp.Some? && Steady(s, cfg, scan)
      && (s.last.Some? ==> SpacedFrom(s.last.value, cfg, scan) && cfg.novel(s.last.value, scan))
      && scan.enoughPoints && scan.encodes
  {
    if scan.stamp.Some? {
      SteadyIsGate(s, cfg, scan);
    }
  }

  /** A captured scan takes the next number and the end of the queue, pushing the oldest out of a full one. */
  lemma CaptureQueues(s: Uploader, cfg: Config, scan: Scan)
    requires Consider(s, cfg, scan).1
    ensures var r := Consider(s, cfg, scan).0;
      && r.captured == s.captured + [scan] && r.last == Some(scan) && r.nextSeq == s.nextSeq + 1
      && r.enqueued == s.enqueued + [Blob(s.nextSeq, scan)]
      && (if |s.queue| < cfg.queueSize || s.queue == [] then
            r.queue == s.queue + [Blob(s.nextSeq, scan)] && r.dropped == s.dropped
          else r.queue == s.queue[1..] + [Blob(s.nextSeq, scan)] && r.dropped == s.dropped + 1)
      && r.maxAcceptedYawRate >= r.lastYawRate && r.maxAcceptedYawRate >= s.maxAcceptedYawRate
      && (r.maxAcceptedYawRate == r.lastYawRate || r.maxAcceptedYawRate == s.maxAcceptedYawRate)
  {
  }

  /** A scan that is not captured leaves queue, history and last capture alone; a failed encoding costs a number. */
  lemma RejectionOnlyCounts(s: Uploader, cfg: Config, scan: Scan)
    requires !Consider(s, cfg, scan).1
    ensures var r := Consider(s, cfg, scan).0;
      && r.queue == s.queue && r.captured == s.captured && r.enqueued == s.enqueued && r.last == s.last
      && r.dropped == s.dropped && r.maxAcceptedYawRate == s.maxAcceptedYawRate
      && (r.nextSeq == s.nextSeq || (r.nextSeq == s.nextSeq + 1 && !scan.encodes))
  {
  }

  // ---- all captured scans

  ghost predicate CapturesNovel(s: Uploader, cfg: Config) {
    && (forall k :: 0 <= k < |s.captured| ==>
          s.captured[k].poseValid && s.captured[k].stamp.Some? && s.captured[k].enoughPoints && s.captured[k].encodes)
    && (s.last == if s.captured == [] then None else Some(s.captured[|s.captured| - 1]))
    && (forall k :: 0 <= k < |s.captured| - 1 ==> cfg.novel(s.captured[k], s.captured[k + 1]))
  }

  lemma NovelStep(s: Uploader, cfg: Config, step: Step)
    requires CapturesNovel(s, cfg)
    ensures CapturesNovel(Next(s, cfg, step), cfg)
  {
    if step.ConsiderStep? {
      CapturedExactly(s, cfg, step.scan);
      if Consider(s, cfg, step.scan).1 {
        CaptureQueues(s, cfg, step.scan);
      } else {
        RejectionOnlyCounts(s, cfg, step.scan);
      }
    }
  }

  lemma {:induction false} RunKeepsNovel(s: Uploader, cfg: Config, steps: seq<Step>)
    requires CapturesNovel(s, cfg)
    ensures CapturesNovel(Run(s, cfg, steps), cfg)
    decreases steps
  {
    if steps != [] {
      NovelStep(s, cfg, steps[0]);
      RunKeepsNovel(Next(s, cfg, steps[0]), cfg, steps[1..]);
    }
  }

  /** In every run, each captured scan is usable, dense and encodable, and news against the one captured before it. */
  lemma CapturesAreNovel(cfg: Config, steps: seq<Step>, k: nat)
    requires k < |Run(INITIALLY, cfg, steps).captured|
    ensures var c := Run(INITIALLY, cfg, steps).captured;
      && c[k].poseValid && c[k].stamp.Some? && c[k].enoughPoints && c[k].encodes
      && (k + 1 < |c| ==> cfg.novel(c[k], c[k + 1]))
  {
    RunKeepsNovel(INITIALLY, cfg, steps);
  }

  /** An upload posts the oldest blob and takes it off the queue whether or not the post succeeds. */
  lemma UploadTakesOldest(s: Uploader, posts: bool)
    ensures var r := UploadOne(s, posts);
      if s.queue == [] then r == s
      else
        && r.queue == s.queue[1..] && r.posted == s.posted + [s.queue[0].seqNo]
        && r.sent == s.sent + (if posts then 1 else 0) && r.failed == s.failed + (if posts then 0 else 1)
  {
  }

  /** A scan that is not captured costs a sequence number exactly when only its encoding failed. */
  lemma FailedEncodingCostsNumber(s: Uploader, cfg: Config, scan: Scan)
    requires s.last.Some? ==> cfg.novel(s.last.value, scan) == cfg.novel(s.last.value, scan.(encodes := true))
    requires !Consider(s, cfg, scan).1
    ensures Consider(s, cfg, scan).0.nextSeq ==
      s.nextSeq + if Consider(s, cfg, scan.(encodes := true)).1 then 1 else 0
  {
  }

  /** What the rejection counters count: turning scans, and stamps that are missing or give no interval. */
  lemma RejectionsCounted(s: Uploader, cfg: Config, scan: Scan)
    ensures var r := Consider(s, cfg, scan).0;
      && (!scan.poseValid ==> r == s)
      && (scan.poseValid && scan.stamp.None? ==> r == s.(unusableStamps := s.unusableStamps + 1))
      && (scan.poseValid && scan.stamp.Some? ==>
            var unjudged := cfg.maxYawRate > 0.0 && s.previous.Some? && scan.stamp.value - s.previous.value.1 <= 0.001;
            && r.spun == s.spun + (if Steady(s, cfg, scan) then 0 else 1)
            && r.unusableStamps == s.unusableStamps + (if unjudged then 1 else 0)
            && r.previous == if unjudged then s.previous else Some((scan.yaw, scan.stamp.value)))
  {
    if scan.stamp.Some? {
      SteadyIsGate(s, cfg, scan);
    }
  }
}
