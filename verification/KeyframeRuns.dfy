/** Runs of the keyframe producer: scans considered and uploads attempted in any order. */
module KeyframeRuns {
  import opened Options
  import opened Keyframes

  datatype Step = ConsiderStep(scan: Scan) | UploadStep(posts: bool)

  function Next(s: Uploader, cfg: Config, step: Step): Uploader {
    match step
    case ConsiderStep(scan) => Consider(s, cfg, scan).0
    case UploadStep(posts) => UploadOne(s, posts)
  }

  function Run(s: Uploader, cfg: Config, steps: seq<Step>): Uploader
    decreases steps
  {
    if steps == [] then s else Run(Next(s, cfg, steps[0]), cfg, steps[1..])
  }

  // ---- conservation

  /** The queue is what is left of everything enqueued once the oldest were dropped, sent or lost. */
  ghost predicate Conserved(s: Uploader, cfg: Config) {
    && s.dropped + s.sent + s.failed <= |s.enqueued|
    && s.queue == s.enqueued[s.dropped + s.sent + s.failed..]
    && |s.queue| <= cfg.Capacity()
  }

  ghost predicate SequencesAscend(s: Uploader) {
    && (forall k :: 0 <= k < |s.enqueued| ==> s.enqueued[k].seqNo < s.nextSeq)
    && (forall j, k :: 0 <= j < k < |s.enqueued| ==> s.enqueued[j].seqNo < s.enqueued[k].seqNo)
  }

  ghost predicate PostedAscend(s: Uploader) {
    && (forall j, k :: 0 <= j < k < |s.posted| ==> s.posted[j] < s.posted[k])
    && (forall j, k :: 0 <= j < |s.posted| && 0 <= k < |s.queue| ==> s.posted[j] < s.queue[k].seqNo)
    && (forall j :: 0 <= j < |s.posted| ==> s.posted[j] < s.nextSeq)
  }

  ghost predicate QueueInv(s: Uploader, cfg: Config) {
    Conserved(s, cfg) && SequencesAscend(s) && PostedAscend(s)
  }

  lemma EnqueueConserves(s: Uploader, cfg: Config, scan: Scan)
    requires Conserved(s, cfg)
    ensures Conserved(Enqueue(s, cfg, scan), cfg)
  {
    var r := Enqueue(s, cfg, scan);
    var n, b := s.dropped + s.sent + s.failed, Blob(s.nextSeq, scan);
    if |s.queue| >= cfg.Capacity() {
      assert r.queue == (s.enqueued + [b])[n + 1..];
    } else {
      assert r.queue == (s.enqueued + [b])[n..];
    }
  }

  lemma EnqueueAscends(s: Uploader, cfg: Config, scan: Scan)
    requires SequencesAscend(s)
    ensures SequencesAscend(Enqueue(s, cfg, scan))
  {
  }

  lemma EnqueuePosts(s: Uploader, cfg: Config, scan: Scan)
    requires PostedAscend(s)
    ensures PostedAscend(Enqueue(s, cfg, scan))
  {
  }

  lemma UploadKeeps(s: Uploader, cfg: Config, posts: bool)
    requires QueueInv(s, cfg)
    ensures QueueInv(UploadOne(s, posts), cfg)
  {
    if s.queue != [] {
      var n := s.dropped + s.sent + s.failed;
      assert s.enqueued[n..][1..] == s.enqueued[n + 1..];
      assert s.queue[0] == s.enqueued[n];
      forall k | 0 <= k < |s.queue[1..]| ensures s.queue[0].seqNo < s.queue[1..][k].seqNo {
        assert s.queue[1..][k] == s.enqueued[n + 1 + k];
      }
    }
  }

  lemma GateKeepsQueue(s: Uploader, cfg: Config, yaw: real, stamp: real)
    requires QueueInv(s, cfg)
    ensures QueueInv(TurningTooFast(s, cfg, yaw, stamp).0, cfg)
  {
  }

  lemma NumberSkipped(s: Uploader, cfg: Config)
    requires QueueInv(s, cfg)
    ensures QueueInv(s.(nextSeq := s.nextSeq + 1), cfg)
  {
  }

  /** The rejection counters do not matter to the queue. */
  lemma RejectionKeeps(s: Uploader, cfg: Config, spun: nat, unusable: nat)
    requires QueueInv(s, cfg)
    ensures QueueInv(s.(spun := spun, unusableStamps := unusable), cfg)
  {
  }

  lemma AdmitKeeps(g: Uploader, cfg: Config, scan: Scan)
    requires QueueInv(g, cfg) && scan.stamp.Some?
    ensures QueueInv(Admit(g, cfg, scan).0, cfg)
  {
    NumberSkipped(g, cfg);
    EnqueueConserves(g, cfg, scan);
    EnqueueAscends(g, cfg, scan);
    EnqueuePosts(g, cfg, scan);
  }

  lemma ConsiderKeeps(s: Uploader, cfg: Config, scan: Scan)
    requires QueueInv(s, cfg)
    ensures QueueInv(Consider(s, cfg, scan).0, cfg)
  {
    if scan.poseValid && scan.stamp.Some? {
      var (g, tooFast) := TurningTooFast(s, cfg, scan.yaw, scan.stamp.value);
      GateKeepsQueue(s, cfg, scan.yaw, scan.stamp.value);
      if tooFast {
        RejectionKeeps(g, cfg, g.spun + 1, g.unusableStamps);
      } else {
        AdmitKeeps(g, cfg, scan);
      }
    } else {
      RejectionKeeps(s, cfg, s.spun, s.unusableStamps + 1);
    }
  }

  lemma {:induction false} RunKeepsQueue(s: Uploader, cfg: Config, steps: seq<Step>)
    requires QueueInv(s, cfg)
    ensures QueueInv(Run(s, cfg, steps), cfg)
    decreases steps
  {
    if steps != [] {
      match steps[0] {
        case ConsiderStep(scan) => ConsiderKeeps(s, cfg, scan);
        case UploadStep(posts) => UploadKeeps(s, cfg, posts);
      }
      RunKeepsQueue(Next(s, cfg, steps[0]), cfg, steps[1..]);
    }
  }

  /**
   * In every run nothing enqueued goes missing, the queue is the newest part of it, and posts go out in sequence order.
   */
  lemma UploadsConserved(cfg: Config, steps: seq<Step>)
    ensures var s := Run(INITIALLY, cfg, steps);
      && |s.enqueued| == s.dropped + s.sent + s.failed + |s.queue|
      && s.queue == s.enqueued[|s.enqueued| - |s.queue|..]
      && |s.queue| <= (if cfg.queueSize < 1 then 1 else cfg.queueSize)
      && (forall j, k :: 0 <= j < k < |s.posted| ==> s.posted[j] < s.posted[k])
  {
    RunKeepsQueue(INITIALLY, cfg, steps);
  }

  // ---- the turn-rate gate

  ghost predicate GateInv(s: Uploader, cfg: Config) {
    && (s.previous.None? ==> s.lastYawRate == 0.0)
    && 0.0 <= s.maxAcceptedYawRate <= cfg.maxYawRate
  }

  lemma GateStep(s: Uploader, cfg: Config, step: Step)
    requires cfg.maxYawRate > 0.0 && GateInv(s, cfg)
    ensures GateInv(Next(s, cfg, step), cfg)
  {
  }

  /** With the gate on, no keyframe is ever captured at more than the permitted turn rate. */
  lemma {:induction false} AcceptedRateBounded(s: Uploader, cfg: Config, steps: seq<Step>)
    requires cfg.maxYawRate > 0.0 && GateInv(s, cfg)
    ensures GateInv(Run(s, cfg, steps), cfg)
    decreases steps
  {
    if steps != [] {
      GateStep(s, cfg, steps[0]);
      AcceptedRateBounded(Next(s, cfg, steps[0]), cfg, steps[1..]);
    }
  }

  // ---- erasing unusable scans

  /** The gate gets no usable interval from this scan. */
  predicate Unusable(s: Uploader, scan: Scan) {
    scan.poseValid && scan.stamp.Some? && s.previous.Some? && scan.stamp.value - s.previous.value.1 <= MIN_INTERVAL
  }

  /** The steps without the scans that are unusable when their turn comes. */
  function Erase(s: Uploader, cfg: Config, steps: seq<Step>): seq<Step>
    decreases steps
  {
    if steps == [] then []
    else if steps[0].ConsiderStep? && Unusable(s, steps[0].scan) then Erase(s, cfg, steps[1..])
    else [steps[0]] + Erase(Next(s, cfg, steps[0]), cfg, steps[1..])
  }

  /** Equal but for the counters of rejected scans. */
  ghost predicate SameButCounters(s: Uploader, t: Uploader) {
    s.(spun := 0, unusableStamps := 0) == t.(spun := 0, unusableStamps := 0)
  }

  lemma UnusableOnlyCounts(s: Uploader, cfg: Config, scan: Scan)
    requires cfg.maxYawRate > 0.0 && Unusable(s, scan)
    ensures SameButCounters(s, Consider(s, cfg, scan).0) && !Consider(s, cfg, scan).1
  {
  }

  lemma GateIgnoresCounters(s: Uploader, t: Uploader, cfg: Config, yaw: real, stamp: real)
    requires SameButCounters(s, t)
    ensures var (g, fast), (h, alsoFast) := TurningTooFast(s, cfg, yaw, stamp), TurningTooFast(t, cfg, yaw, stamp);
      SameButCounters(g, h) && fast == alsoFast
  {
    assert t == s.(spun := t.spun, unusableStamps := t.unusableStamps);
  }

  lemma AdmitIgnoresCounters(s: Uploader, t: Uploader, cfg: Config, scan: Scan)
    requires SameButCounters(s, t) && scan.stamp.Some?
    ensures SameButCounters(Admit(s, cfg, scan).0, Admit(t, cfg, scan).0)
  {
    assert t == s.(spun := t.spun, unusableStamps := t.unusableStamps);
  }

  lemma ConsiderIgnoresCounters(s: Uploader, t: Uploader, cfg: Config, scan: Scan)
    requires SameButCounters(s, t)
    ensures SameButCounters(Consider(s, cfg, scan).0, Consider(t, cfg, scan).0)
  {
    if scan.poseValid && scan.stamp.Some? {
      GateIgnoresCounters(s, t, cfg, scan.yaw, scan.stamp.value);
      var g := TurningTooFast(s, cfg, scan.yaw, scan.stamp.value).0;
      var h := TurningTooFast(t, cfg, scan.yaw, scan.stamp.value).0;
      AdmitIgnoresCounters(g, h, cfg, scan);
    }
  }

  lemma CountersDoNotMatter(s: Uploader, t: Uploader, cfg: Config, step: Step)
    requires SameButCounters(s, t)
    ensures SameButCounters(Next(s, cfg, step), Next(t, cfg, step))
    ensures step.ConsiderStep? ==> (Unusable(s, step.scan) <==> Unusable(t, step.scan))
  {
    assert t == s.(spun := t.spun, unusableStamps := t.unusableStamps);
    if step.ConsiderStep? {
      ConsiderIgnoresCounters(s, t, cfg, step.scan);
    }
  }

  lemma {:induction false} CountersNeverMatter(s: Uploader, t: Uploader, cfg: Config, steps: seq<Step>)
    requires SameButCounters(s, t)
    ensures SameButCounters(Run(s, cfg, steps), Run(t, cfg, steps))
    decreases steps
  {
    if steps != [] {
      CountersDoNotMatter(s, t, cfg, steps[0]);
      CountersNeverMatter(Next(s, cfg, steps[0]), Next(t, cfg, steps[0]), cfg, steps[1..]);
    }
  }

  /**
   * With the gate on, duplicate and out-of-order stamps cannot influence what is captured: dropping every unusable scan
   * from a run leaves the captured scans, the queue and the posts as they were.
   */
  lemma {:induction false} UnusableScansErasable(s: Uploader, cfg: Config, steps: seq<Step>)
    requires cfg.maxYawRate > 0.0
    ensures SameButCounters(Run(s, cfg, steps), Run(s, cfg, Erase(s, cfg, steps)))
    decreases steps
  {
    if steps != [] {
      var rest := steps[1..];
      if steps[0].ConsiderStep? && Unusable(s, steps[0].scan) {
        UnusableOnlyCounts(s, cfg, steps[0].scan);
        CountersNeverMatter(Next(s, cfg, steps[0]), s, cfg, rest);
        UnusableScansErasable(s, cfg, rest);
      } else {
        var n := Next(s, cfg, steps[0]);
        UnusableScansErasable(n, cfg, rest);
        assert ([steps[0]] + Erase(n, cfg, rest))[1..] == Erase(n, cfg, rest);
      }
    }
  }

  // ---- capture spacing

  ghost predicate Spaced(s: Uploader, cfg: Config) {
    && (forall k :: 0 <= k < |s.captured| ==> s.captured[k].stamp.Some?)
    && (s.last == if s.captured == [] then None else Some(s.captured[|s.captured| - 1]))
    && (forall k :: 0 <= k < |s.captured| - 1 ==>
          && s.captured[k + 1].stamp.value - s.captured[k].stamp.value >= cfg.minPeriod
          && s.captured[k + 1].now - s.captured[k].now >= cfg.minPeriod)
  }

  lemma SpacedStep(s: Uploader, cfg: Config, step: Step)
    requires Spaced(s, cfg)
    ensures Spaced(Next(s, cfg, step), cfg)
  {
    if step.ConsiderStep? && step.scan.poseValid && step.scan.stamp.Some? {
      var g := TurningTooFast(s, cfg, step.scan.yaw, step.scan.stamp.value).0;
      assert g.captured == s.captured && g.last == s.last;
    }
  }

  lemma {:induction false} RunKeepsSpaced(s: Uploader, cfg: Config, steps: seq<Step>)
    requires Spaced(s, cfg)
    ensures Spaced(Run(s, cfg, steps), cfg)
    decreases steps
  {
    if steps != [] {
      SpacedStep(s, cfg, steps[0]);
      RunKeepsSpaced(Next(s, cfg, steps[0]), cfg, steps[1..]);
    }
  }

  lemma {:induction false} SpanBetween(s: Uploader, cfg: Config, i: nat, j: nat)
    requires Spaced(s, cfg) && i <= j < |s.captured|
    ensures s.captured[j].stamp.value - s.captured[i].stamp.value >= (j - i) as real * cfg.minPeriod
  {
    if i < j {
      SpanBetween(s, cfg, i, j - 1);
      assert (j - i) as real * cfg.minPeriod == (j - 1 - i) as real * cfg.minPeriod + cfg.minPeriod;
    }
  }

  /** In every run, captures `i` to `j` within a window of length `w` number at most `w / minPeriod + 1`. */
  lemma WindowBound(cfg: Config, steps: seq<Step>, i: nat, j: nat, w: real)
    requires cfg.minPeriod > 0.0
    requires var c := Run(INITIALLY, cfg, steps).captured;
      i <= j < |c| && c[i].stamp.Some? && c[j].stamp.Some? && c[j].stamp.value - c[i].stamp.value <= w
    ensures (j - i + 1) as real <= w / cfg.minPeriod + 1.0
  {
    RunKeepsSpaced(INITIALLY, cfg, steps);
    SpanBetween(Run(INITIALLY, cfg, steps), cfg, i, j);
    CountBound((j - i) as real, cfg.minPeriod, w);
  }

  lemma CountBound(n: real, p: real, w: real)
    requires p > 0.0 && n * p <= w
    ensures n <= w / p
  {
    var q := w / p;
    assert q * p == w;
    if n > q {
      StrictProduct(q, n, p);
    }
  }

  lemma StrictProduct(a: real, b: real, p: real)
    requires a < b && p > 0.0
    ensures a * p < b * p
  {
  }
}
