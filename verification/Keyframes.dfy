/** The keyframe producer: turn-rate gate, capture spacing, and the bounded drop-oldest upload queue. */
module Keyframes {
  import opened Angles
  import opened Options

  /** One scan offered for capture, with what the gate reads of it. */
  datatype Scan = Scan(
    id: nat,
    poseValid: bool,
    stamp: Option<real>,    // missing when not finite
    yaw: real,
    now: real,              // the clock when it is considered
    enoughPoints: bool,
    encodes: bool)

  datatype Config = Config(
    maxYawRate: real,
    minPeriod: real,
    queueSize: int,
    novel: (Scan, Scan) -> bool)   // whether a scan differs enough from the last captured one
  {
    function Capacity(): nat { if queueSize < 1 then 1 else queueSize }
  }

  datatype Blob = Blob(seqNo: nat, scan: Scan)

  datatype Uploader = Uploader(
    queue: seq<Blob>,
    nextSeq: nat,
    last: Option<Scan>,          // the last captured scan
    previous: Option<(real, real)>,  // yaw and stamp the turn rate is measured from
    dropped: nat,
    sent: nat,
    spun: nat,
    unusableStamps: nat,
    lastYawRate: real,
    maxAcceptedYawRate: real,
    // history
    captured: seq<Scan>,         // scans enqueued, in order
    enqueued: seq<Blob>,
    failed: nat,                 // uploads that raised
    posted: seq<nat>)            // sequence numbers posted, in order

  const INITIALLY := Uploader([], 0, None, None, 0, 0, 0, 0, 0.0, 0.0, [], [], 0, [])

  const MIN_INTERVAL := 0.001

  /** Gate verdict and new state. A stamp that gives no usable interval is rejected and keeps the old reference. */
  function TurningTooFast(s: Uploader, cfg: Config, yaw: real, stamp: real): (Uploader, bool) {
    var taken := s.(previous := Some((yaw, stamp)));
    if cfg.maxYawRate <= 0.0 || s.previous.None? then (taken, false)
    else
      var (previousYaw, previousStamp) := s.previous.value;
      var dt := stamp - previousStamp;
      if dt <= MIN_INTERVAL then (s.(unusableStamps := s.unusableStamps + 1), true)
      else
        var rate := Abs(WrapAngle(yaw - previousYaw)) / dt;
        (taken.(lastYawRate := rate), rate > cfg.maxYawRate)
  }

  predicate TooSoon(s: Uploader, cfg: Config, scan: Scan)
    requires scan.stamp.Some?
  {
    s.last.Some? && s.last.value.stamp.Some? &&
    (scan.now - s.last.value.now < cfg.minPeriod || scan.stamp.value - s.last.value.stamp.value < cfg.minPeriod)
  }

  function Enqueue(s: Uploader, cfg: Config, scan: Scan): Uploader {
    var blob := Blob(s.nextSeq, scan);
    var full := |s.queue| >= cfg.Capacity();
    s.(queue := (if full then s.queue[1..] else s.queue) + [blob],
       dropped := if full then s.dropped + 1 else s.dropped,
       nextSeq := s.nextSeq + 1,
       last := Some(scan),
       maxAcceptedYawRate := if s.lastYawRate > s.maxAcceptedYawRate then s.lastYawRate else s.maxAcceptedYawRate,
       captured := s.captured + [scan],
       enqueued := s.enqueued + [blob])
  }

  /** Past the gate: spacing, size, novelty, encoding, and the queue. */
  function Admit(g: Uploader, cfg: Config, scan: Scan): (Uploader, bool)
    requires scan.stamp.Some?
  {
    if TooSoon(g, cfg, scan) || !scan.enoughPoints then (g, false)
    else if g.last.Some? && !cfg.novel(g.last.value, scan) then (g, false)
    else if !scan.encodes then (g.(nextSeq := g.nextSeq + 1), false)
    else (Enqueue(g, cfg, scan), true)
  }

  function Consider(s: Uploader, cfg: Config, scan: Scan): (Uploader, bool) {
    if !scan.poseValid then (s, false)
    else if scan.stamp.None? then (s.(unusableStamps := s.unusableStamps + 1), false)
    else
      var (g, tooFast) := TurningTooFast(s, cfg, scan.yaw, scan.stamp.value);
      if tooFast then (g.(spun := g.spun + 1), false) else Admit(g, cfg, scan)
  }

  function UploadOne(s: Uploader, posts: bool): Uploader {
    if s.queue == [] then s else
      var p := s.(queue := s.queue[1..], posted := s.posted + [s.queue[0].seqNo]);
      if posts then p.(sent := p.sent + 1) else p.(failed := p.failed + 1)
  }

  class KeyframeUploader {
    const cfg: Config
    var queue: seq<Blob>
    var nextSeq: nat
    var last: Option<Scan>
    var previous: Option<(real, real)>
    var dropped: nat
    var sent: nat
    var spun: nat
    var unusableStamps: nat
    var lastYawRate: real
    var maxAcceptedYawRate: real
    ghost var past: Uploader  // its history fields: captured, enqueued, failed, posted

    ghost function View(): Uploader
      reads this
    {
      Uploader(queue, nextSeq, last, previous, dropped, sent, spun, unusableStamps, lastYawRate, maxAcceptedYawRate,
               past.captured, past.enqueued, past.failed, past.posted)
    }

    constructor (cfg: Config)
      ensures View() == INITIALLY && this.cfg == cfg
    {
      this.cfg := cfg;
      queue, nextSeq, last, previous, dropped, sent, spun := [], 0, None, None, 0, 0, 0;
      unusableStamps, lastYawRate, maxAcceptedYawRate, past := 0, 0.0, 0.0, INITIALLY;
    }

    method CheckTurnRate(yaw: real, stamp: real) returns (tooFast: bool)
      modifies this
      ensures (View(), tooFast) == TurningTooFast(old(View()), cfg, yaw, stamp)
    {
      if cfg.maxYawRate <= 0.0 || previous.None? {
        previous := Some((yaw, stamp));
        return false;
      }
      var (previousYaw, previousStamp) := previous.value;
      var dt := stamp - previousStamp;
      if dt <= MIN_INTERVAL {
        unusableStamps := unusableStamps + 1;
        return true;
      }
      previous := Some((yaw, stamp));
      lastYawRate := Abs(WrapAngle(yaw - previousYaw)) / dt;
      return lastYawRate > cfg.maxYawRate;
    }

    method ConsiderScan(scan: Scan) returns (captured: bool)
      modifies this
      ensures (View(), captured) == Consider(old(View()), cfg, scan)
    {
      if !scan.poseValid {
        return false;
      }
      if scan.stamp.None? {
        unusableStamps := unusableStamps + 1;
        return false;
      }
      var tooFast := CheckTurnRate(scan.yaw, scan.stamp.value);
      if tooFast {
        spun := spun + 1;
        return false;
      }
      captured := Capture(scan);
    }

    /** `consider` past the gate. */
    method Capture(scan: Scan) returns (captured: bool)
      requires scan.stamp.Some?
      modifies this
      ensures (View(), captured) == Admit(old(View()), cfg, scan)
    {
      if last.Some? && last.value.stamp.Some? &&
         (scan.now - last.value.now < cfg.minPeriod || scan.stamp.value - last.value.stamp.value < cfg.minPeriod) {
        return false;
      }
      if !scan.enoughPoints {
        return false;
      }
      if last.Some? && !cfg.novel(last.value, scan) {
        return false;
      }
      var seqNo := nextSeq;
      nextSeq := nextSeq + 1;
      if !scan.encodes {
        return false;
      }
      if |queue| >= cfg.Capacity() {
        dropped := dropped + 1;
        queue := queue[1..];
      }
      queue := queue + [Blob(seqNo, scan)];
      last := Some(scan);
      maxAcceptedYawRate := if lastYawRate > maxAcceptedYawRate then lastYawRate else maxAcceptedYawRate;
      past := past.(captured := past.captured + [scan], enqueued := past.enqueued + [Blob(seqNo, scan)]);
      return true;
    }

    /** Takes the oldest blob off the queue, then posts it; a post that raises loses the blob. */
    method Upload(posts: bool) returns (uploaded: bool)
      modifies this
      ensures View() == UploadOne(old(View()), posts)
      ensures uploaded <==> old(queue) != [] && posts
    {
      if queue == [] {
        return false;
      }
      var blob := queue[0];
      queue := queue[1..];
      past := past.(posted := past.posted + [blob.seqNo]);
      if !posts {
        past := past.(failed := past.failed + 1);
        return false;
      }
      sent := sent + 1;
      return true;
    }
  }
}
