/** Reading back what was written, exactly when the message is framed as the grammar documents. */
module BridgeRoundTrip {
  import opened Options
  import opened Bytes
  import opened BridgeWire

  lemma Assoc(a: seq<Byte>, b: seq<Byte>, c: seq<Byte>)
    ensures (a + b) + c == a + (b + c)
  {
  }

  lemma Cat5(a: seq<Byte>, b: seq<Byte>, c: seq<Byte>, d: seq<Byte>, e: seq<Byte>, rest: seq<Byte>)
    ensures (a + b + c + d + e) + rest == a + (b + (c + (d + (e + rest))))
  {
    Assoc(a + b + c + d, e, rest);
    Assoc(a + b + c, d, e + rest);
    Assoc(a + b, c, d + (e + rest));
  }

  lemma Cat7(a: seq<Byte>, b: seq<Byte>, c: seq<Byte>, d: seq<Byte>, e: seq<Byte>, f: seq<Byte>, g: seq<Byte>,
      rest: seq<Byte>)
    ensures (a + b + c + d + e + f + g) + rest == a + (b + (c + (d + (e + (f + (g + rest))))))
  {
    Assoc(a + b + c + d + e + f, g, rest);
    Assoc(a + b + c + d + e, f, g + rest);
    Cat5(a, b, c, d, e, f + (g + rest));
  }

  lemma TakeBack(a: seq<Byte>, rest: seq<Byte>)
    ensures Take(a + rest, |a|) == Some((a, rest))
  {
    assert (a + rest)[..|a|] == a && (a + rest)[|a|..] == rest;
  }

  lemma F64Back(w: F64, rest: seq<Byte>)
    ensures GetF64(w + rest) == Some((w, rest))
  {
    TakeBack(w, rest);
  }

  lemma F32Back(w: F32, rest: seq<Byte>)
    ensures GetF32(w + rest) == Some((w, rest))
  {
    TakeBack(w, rest);
  }

  lemma BoolBack(b: bool, rest: seq<Byte>)
    ensures GetBool(Flag(b) + rest) == Some((b, rest))
  {
    assert (Flag(b) + rest)[1..] == rest;
  }

  lemma U16Back(n: nat, rest: seq<Byte>)
    ensures GetU16(PutU16(n) + rest) == Some((n % 65536, rest))
  {
    assert (PutU16(n) + rest)[2..] == rest;
    assert n % 65536 == n % 256 + n / 256 % 256 * 256;
  }

  lemma U32Digits(n: U32)
    ensures U32Value(n as int % 256, n as int / 0x100 % 256, n as int / 0x1_0000 % 256, n as int / 0x100_0000 % 256) ==
        n
  {
    var a, b, c := n as int / 0x100, n as int / 0x1_0000, n as int / 0x100_0000;
    assert n as int == a * 256 + n as int % 256;
    assert a == b * 256 + a % 256 && b == a / 256;
    assert b == c * 256 + b % 256 && c == b / 256;
    assert c % 256 == c;
  }

  lemma U32Back(n: U32, rest: seq<Byte>)
    ensures GetU32(PutU32(n) + rest) == Some((n, rest))
  {
    var b := PutU32(n) + rest;
    assert b[4..] == rest;
    assert b[0] == PutU32(n)[0] && b[1] == PutU32(n)[1] && b[2] == PutU32(n)[2] && b[3] == PutU32(n)[3];
    U32Digits(n);
  }

  lemma Vec3Back(v: Vec3, rest: seq<Byte>)
    ensures GetVec3(PutVec3(v) + rest) == Some((v, rest))
  {
    var t := v.z + rest;
    assert PutVec3(v) + rest == v.x + (v.y + t);
    F64Back(v.x, v.y + t);
    F64Back(v.y, t);
    F64Back(v.z, rest);
  }

  lemma QuatBack(q: Quat, rest: seq<Byte>)
    ensures GetQuat(PutQuat(q) + rest) == Some((q, rest))
  {
    var t := q.y + (q.z + rest);
    assert PutQuat(q) + rest == q.w + (q.x + t);
    F64Back(q.w, q.x + t);
    F64Back(q.x, t);
    F64Back(q.y, q.z + rest);
    F64Back(q.z, rest);
  }

  lemma MotionBack(m: Motion, rest: seq<Byte>)
    ensures GetMotion(PutMotion(m) + rest) == Some((m, rest))
  {
    var p, q, l, a := PutVec3(m.pos), PutQuat(m.quat), PutVec3(m.lin), PutVec3(m.ang);
    Assoc(p + q + l, a, rest);
    Assoc(p + q, l, a + rest);
    Assoc(p, q, l + (a + rest));
    Vec3Back(m.pos, q + (l + (a + rest)));
    QuatBack(m.quat, l + (a + rest));
    Vec3Back(m.lin, a + rest);
    Vec3Back(m.ang, rest);
  }

  lemma OdometryBack(o: Odometry, rest: seq<Byte>)
    ensures GetOdometry(PutOdometry(o) + rest) == Some((o, rest))
  {
    var m, t := PutMotion(o.motion), PutU32(o.tick);
    Assoc(Flag(o.valid) + m, t, rest);
    Assoc(Flag(o.valid), m, t + rest);
    BoolBack(o.valid, m + (t + rest));
    MotionBack(o.motion, t + rest);
    U32Back(o.tick, rest);
  }

  lemma EncodersBack(e: Encoders, rest: seq<Byte>)
    ensures GetEncoders(PutEncoders(e) + rest) == Some((e, rest))
  {
    var t := e.distLeft + (e.distRight + rest);
    Assoc(e.velLeft + e.velRight + e.distLeft, e.distRight, rest);
    Assoc(e.velLeft + e.velRight, e.distLeft, e.distRight + rest);
    Assoc(e.velLeft, e.velRight, t);
    F64Back(e.velLeft, e.velRight + t);
    F64Back(e.velRight, t);
    F64Back(e.distLeft, e.distRight + rest);
    F64Back(e.distRight, rest);
  }

  lemma ImuBack(i: Imu, rest: seq<Byte>)
    ensures GetImu(PutImu(i) + rest) == Some((i, rest))
  {
    Assoc(PutVec3(i.gyro), PutVec3(i.accel), rest);
    Vec3Back(i.gyro, PutVec3(i.accel) + rest);
    Vec3Back(i.accel, rest);
  }

  // ---- what a reader gets: the fields as far as the wire can carry them

  function OnWireReading(r: Reading): Reading { r.(ring := r.ring % 65536) }

  function OnWireScan(s: Scan): Scan {
    s.(readings := seq(|s.readings|, i requires 0 <= i < |s.readings| => OnWireReading(s.readings[i])))
  }

  function OnWireCamera(c: Camera): Camera { c.(rgb := Pixels(c)) }

  function OnWireRobot(r: Robot): Robot {
    r.(id := r.id[..|r.id| % 256],
       lidar := if r.lidar.None? then None else Some(OnWireScan(r.lidar.value)),
       camera := if r.camera.None? then None else Some(OnWireCamera(r.camera.value)))
  }

  function OnWireRobots(rs: seq<Robot>): seq<Robot> {
    seq(|rs|, i requires 0 <= i < |rs| => OnWireRobot(rs[i]))
  }

  function OnWire(o: Observation): Observation { o.(robots := OnWireRobots(o.robots)) }

  /** The size rules of the grammar that the writer does not check itself. */
  predicate FramedRobot(r: Robot) {
    && (r.lidar.Some? ==> |r.lidar.value.readings| < U32_SIZE)
    && (r.camera.Some? ==> r.camera.value.depth == [] || |r.camera.value.depth| == r.camera.value.Area())
  }

  predicate Framed(o: Observation) {
    |o.robots| < U32_SIZE && forall i :: 0 <= i < |o.robots| ==> FramedRobot(o.robots[i])
  }

  lemma ReadingBack(r: Reading, rest: seq<Byte>)
    ensures GetReading(PutReading(r) + rest) == Some((OnWireReading(r), rest))
  {
    var ring, hit := PutU16(r.ring), Flag(r.hit);
    var t := ring + (hit + rest);
    Assoc(r.range + r.x + r.y + r.z + ring, hit, rest);
    Assoc(r.range + r.x + r.y + r.z, ring, hit + rest);
    Assoc(r.range + r.x + r.y, r.z, t);
    Assoc(r.range + r.x, r.y, r.z + t);
    Assoc(r.range, r.x, r.y + (r.z + t));
    F32Back(r.range, r.x + (r.y + (r.z + t)));
    F32Back(r.x, r.y + (r.z + t));
    F32Back(r.y, r.z + t);
    F32Back(r.z, t);
    U16Back(r.ring, hit + rest);
    BoolBack(r.hit, rest);
  }

  /** Reading what `put` wrote for `x` gives `y`, whatever follows. */
  ghost predicate ReadsBack<T>(x: T, y: T, put: T -> seq<Byte>, get: seq<Byte> -> Parse<T>) {
    forall t: seq<Byte> :: get(put(x) + t) == Some((y, t))
  }

  lemma {:induction false} ManyBack<T>(xs: seq<T>, ys: seq<T>, put: T -> seq<Byte>, get: seq<Byte> -> Parse<T>,
      rest: seq<Byte>)
    requires |xs| == |ys| && forall i :: 0 <= i < |xs| ==> ReadsBack(xs[i], ys[i], put, get)
    ensures GetMany(PutMany(xs, put) + rest, |xs|, get) == Some((ys, rest))
  {
    if xs == [] {
      assert PutMany(xs, put) + rest == rest;
    } else {
      var n := |xs| - 1;
      Assoc(PutMany(xs[..n], put), put(xs[n]), rest);
      ManyBack(xs[..n], ys[..n], put, get, put(xs[n]) + rest);
      assert ReadsBack(xs[n], ys[n], put, get);
      assert ys[..n] + [ys[n]] == ys;
    }
  }

  lemma ScanHeadBack(s: Scan, n: U32, rest: seq<Byte>)
    ensures GetScanHead(PutScanHead(s, n) + rest) == Some(((s.(readings := []), n), rest))
  {
    var t, r, a, c := PutU32(s.tick), PutU32(s.rings), PutU32(s.azimuths), PutU32(n);
    Cat5(t, r, a, s.maxRange, c, rest);
    U32Back(s.tick, r + (a + (s.maxRange + (c + rest))));
    U32Back(s.rings, a + (s.maxRange + (c + rest)));
    U32Back(s.azimuths, s.maxRange + (c + rest));
    F32Back(s.maxRange, c + rest);
    U32Back(n, rest);
  }

  lemma ScanBack(s: Scan, rest: seq<Byte>)
    requires |s.readings| < U32_SIZE
    ensures GetScan(PutScan(s) + rest) == Some((OnWireScan(s), rest))
  {
    var n := AsU32(|s.readings|);
    Assoc(PutScanHead(s, n), PutMany(s.readings, PutReading), rest);
    ScanHeadBack(s, n, PutMany(s.readings, PutReading) + rest);
    forall i | 0 <= i < |s.readings|
        ensures ReadsBack(s.readings[i], OnWireScan(s).readings[i], PutReading, GetReading) {
      forall t: seq<Byte> ensures GetReading(PutReading(s.readings[i]) + t) == Some((OnWireScan(s).readings[i], t)) {
        ReadingBack(s.readings[i], t);
      }
    }
    ManyBack(s.readings, OnWireScan(s).readings, PutReading, GetReading, rest);
  }

  lemma DepthBack(d: seq<F32>, rest: seq<Byte>)
    ensures GetMany(PutMany(d, PutF32) + rest, |d|, GetF32) == Some((d, rest))
  {
    forall i | 0 <= i < |d| ensures ReadsBack(d[i], d[i], PutF32, GetF32) {
      forall t: seq<Byte> ensures GetF32(PutF32(d[i]) + t) == Some((d[i], t)) {
        F32Back(d[i], t);
      }
    }
    ManyBack(d, d, PutF32, GetF32, rest);
  }

  lemma FrameHeadBack(c: Camera, rest: seq<Byte>)
    ensures GetFrameHead(PutFrameHead(c) + rest) == Some((c.(rgb := [], depth := []), rest))
  {
    var t, w, h := PutU32(c.tick), PutU32(c.width), PutU32(c.height);
    Assoc(t + w + h, c.fov, rest);
    Assoc(t + w, h, c.fov + rest);
    Assoc(t, w, h + (c.fov + rest));
    U32Back(c.tick, w + (h + (c.fov + rest)));
    U32Back(c.width, h + (c.fov + rest));
    U32Back(c.height, c.fov + rest);
    F32Back(c.fov, rest);
  }

  lemma DepthBlockBack(d: seq<F32>, area: nat, rest: seq<Byte>)
    requires d == [] || |d| == area
    ensures GetDepth(Flag(d != []) + (PutMany(d, PutF32) + rest), area) == Some((d, rest))
  {
    BoolBack(d != [], PutMany(d, PutF32) + rest);
    DepthBack(d, rest);
  }

  /** A frame without pixels of the right number reads back black; depth of the frame's size reads back as it was. */
  lemma CameraBack(c: Camera, rest: seq<Byte>)
    requires c.depth == [] || |c.depth| == c.Area()
    ensures GetCamera(PutCamera(c) + rest) == Some((OnWireCamera(c), rest))
  {
    var hd, p, f, d := PutFrameHead(c), Pixels(c), Flag(c.depth != []), PutMany(c.depth, PutF32);
    Assoc(hd + p + f, d, rest);
    Assoc(hd + p, f, d + rest);
    Assoc(hd, p, f + (d + rest));
    FrameHeadBack(c, p + (f + (d + rest)));
    TakeBack(p, f + (d + rest));
    DepthBlockBack(c.depth, c.Area(), rest);
  }

  lemma IdBack(id: seq<Byte>, rest: seq<Byte>)
    ensures GetId(PutId(id) + rest) == Some((id[..|id| % 256], rest))
  {
    var n := |id| % 256;
    assert (PutId(id) + rest)[1..] == id[..n] + rest;
    TakeBack(id[..n], rest);
  }

  lemma OptionalBack<T>(o: Option<T>, put: T -> seq<Byte>, get: seq<Byte> -> Parse<T>, back: Option<T>, rest: seq<Byte>)
    requires o.None? <==> back.None?
    requires o.Some? ==> get(put(o.value) + rest) == Some((back.value, rest))
    ensures GetOptional(PutOptional(o, put) + rest, get) == Some((back, rest))
  {
    if o.None? {
      BoolBack(false, rest);
    } else {
      Assoc(Flag(true), put(o.value), rest);
      BoolBack(true, put(o.value) + rest);
    }
  }

  lemma OdometryBlockBack(o: Option<Odometry>, rest: seq<Byte>)
    ensures GetOptional(PutOptional(o, PutOdometry) + rest, GetOdometry) == Some((o, rest))
  {
    if o.Some? {
      OdometryBack(o.value, rest);
    }
    OptionalBack(o, PutOdometry, GetOdometry, o, rest);
  }

  lemma EncodersBlockBack(o: Option<Encoders>, rest: seq<Byte>)
    ensures GetOptional(PutOptional(o, PutEncoders) + rest, GetEncoders) == Some((o, rest))
  {
    if o.Some? {
      EncodersBack(o.value, rest);
    }
    OptionalBack(o, PutEncoders, GetEncoders, o, rest);
  }

  lemma ImuBlockBack(o: Option<Imu>, rest: seq<Byte>)
    ensures GetOptional(PutOptional(o, PutImu) + rest, GetImu) == Some((o, rest))
  {
    if o.Some? {
      ImuBack(o.value, rest);
    }
    OptionalBack(o, PutImu, GetImu, o, rest);
  }

  lemma LidarBlockBack(r: Robot, rest: seq<Byte>)
    requires FramedRobot(r)
    ensures GetOptional(PutOptional(r.lidar, PutScan) + rest, GetScan) == Some((OnWireRobot(r).lidar, rest))
  {
    if r.lidar.Some? {
      ScanBack(r.lidar.value, rest);
    }
    OptionalBack(r.lidar, PutScan, GetScan, OnWireRobot(r).lidar, rest);
  }

  lemma CameraBlockBack(r: Robot, rest: seq<Byte>)
    requires FramedRobot(r)
    ensures GetOptional(PutOptional(r.camera, PutCamera) + rest, GetCamera) == Some((OnWireRobot(r).camera, rest))
  {
    if r.camera.Some? {
      CameraBack(r.camera.value, rest);
    }
    OptionalBack(r.camera, PutCamera, GetCamera, OnWireRobot(r).camera, rest);
  }

  lemma RobotBack(r: Robot, rest: seq<Byte>)
    requires FramedRobot(r)
    ensures GetRobot(PutRobot(r) + rest) == Some((OnWireRobot(r), rest))
  {
    var id, m := PutId(r.id), PutMotion(r.truth);
    var o, e, i, l, c := PutOptional(r.odometry, PutOdometry), PutOptional(r.encoders, PutEncoders),
      PutOptional(r.imu, PutImu), PutOptional(r.lidar, PutScan), PutOptional(r.camera, PutCamera);
    Cat7(id, m, o, e, i, l, c, rest);
    IdBack(r.id, m + (o + (e + (i + (l + (c + rest))))));
    MotionBack(r.truth, o + (e + (i + (l + (c + rest)))));
    OdometryBlockBack(r.odometry, e + (i + (l + (c + rest))));
    EncodersBlockBack(r.encoders, i + (l + (c + rest)));
    ImuBlockBack(r.imu, l + (c + rest));
    LidarBlockBack(r, c + rest);
    CameraBlockBack(r, rest);
  }

  lemma RobotsBack(rs: seq<Robot>, rest: seq<Byte>)
    requires forall i :: 0 <= i < |rs| ==> FramedRobot(rs[i])
    ensures GetMany(PutMany(rs, PutRobot) + rest, |rs|, GetRobot) == Some((OnWireRobots(rs), rest))
  {
    forall i | 0 <= i < |rs| ensures ReadsBack(rs[i], OnWireRobots(rs)[i], PutRobot, GetRobot) {
      forall t: seq<Byte> ensures GetRobot(PutRobot(rs[i]) + t) == Some((OnWireRobots(rs)[i], t)) {
        RobotBack(rs[i], t);
      }
    }
    ManyBack(rs, OnWireRobots(rs), PutRobot, GetRobot, rest);
  }

  lemma HeaderBack(o: Observation, rest: seq<Byte>)
    ensures GetHeader(PutHeader(o) + rest) == Some(((o.(robots := []), AsU32(|o.robots|)), rest))
  {
    var t, p, n := PutU32(o.tick), PutU32(o.ticksPerSecond), PutU32(AsU32(|o.robots|));
    Assoc(OBSERVATION_MAGIC + t + p, n, rest);
    Assoc(OBSERVATION_MAGIC + t, p, n + rest);
    Assoc(OBSERVATION_MAGIC, t, p + (n + rest));
    TakeBack(OBSERVATION_MAGIC, t + (p + (n + rest)));
    U32Back(o.tick, p + (n + rest));
    U32Back(o.ticksPerSecond, n + rest);
    U32Back(AsU32(|o.robots|), rest);
  }

  lemma ObservationBack(o: Observation, rest: seq<Byte>)
    requires Framed(o)
    ensures GetObservation(PutObservation(o) + rest) == Some((OnWire(o), rest))
  {
    Assoc(PutHeader(o), PutMany(o.robots, PutRobot), rest);
    HeaderBack(o, PutMany(o.robots, PutRobot) + rest);
    RobotsBack(o.robots, rest);
  }

  // ---- the reader only ever produces framed observations

  lemma {:induction false} ManyCount<T>(b: seq<Byte>, n: nat, get: seq<Byte> -> Parse<T>, p: T -> bool)
    requires forall t: seq<Byte> :: get(t).Some? ==> p(get(t).value.0)
    ensures GetMany(b, n, get).Some? ==>
      var xs := GetMany(b, n, get).value.0; |xs| == n && forall i :: 0 <= i < n ==> p(xs[i])
  {
    if n > 0 {
      ManyCount(b, n - 1, get, p);
    }
  }

  lemma ScanCount(b: seq<Byte>)
    ensures GetScan(b).Some? ==> |GetScan(b).value.0.readings| < U32_SIZE
  {
    if GetScan(b).Some? {
      var ((head, count), t) := GetScanHead(b).value;
      ManyCount(t, count, GetReading, _ => true);
    }
  }

  lemma DepthCount(b: seq<Byte>, area: nat)
    ensures GetDepth(b, area).Some? ==>
      var depth := GetDepth(b, area).value.0; depth == [] || |depth| == area
  {
    if GetDepth(b, area).Some? {
      ManyCount(GetBool(b).value.1, area, GetF32, _ => true);
    }
  }

  lemma CameraCount(b: seq<Byte>)
    ensures GetCamera(b).Some? ==>
      var c := GetCamera(b).value.0; c.depth == [] || |c.depth| == c.Area()
  {
    if GetCamera(b).Some? {
      var (head, b1) := GetFrameHead(b).value;
      var b2 := Take(b1, head.Area() * 3).value.1;
      DepthCount(b2, head.Area());
    }
  }

  lemma RobotFramed(b: seq<Byte>)
    ensures GetRobot(b).Some? ==> FramedRobot(GetRobot(b).value.0)
  {
    if GetRobot(b).Some? {
      var b1 := GetId(b).value.1;
      var b2 := GetMotion(b1).value.1;
      var b3 := GetOptional(b2, GetOdometry).value.1;
      var b4 := GetOptional(b3, GetEncoders).value.1;
      var b5 := GetOptional(b4, GetImu).value.1;
      ScanCount(b5[1..]);
      var b6 := GetOptional(b5, GetScan).value.1;
      CameraCount(b6[1..]);
    }
  }

  lemma ObservationFramed(b: seq<Byte>)
    ensures GetObservation(b).Some? ==> Framed(GetObservation(b).value.0)
  {
    if GetObservation(b).Some? {
      var ((head, count), t) := GetHeader(b).value;
      forall x: seq<Byte> | GetRobot(x).Some? ensures FramedRobot(GetRobot(x).value.0) {
        RobotFramed(x);
      }
      ManyCount(t, count, GetRobot, FramedRobot);
    }
  }

  /** The size rules look at nothing the wire changes. */
  lemma FramedOnWire(o: Observation)
    requires Framed(OnWire(o))
    ensures Framed(o)
  {
    forall i | 0 <= i < |o.robots| ensures FramedRobot(o.robots[i]) {
      assert FramedRobot(OnWireRobots(o.robots)[i]);
    }
  }

  /**
   * An observation followed by anything reads back, leaving the rest untouched, exactly when its sizes are as
   * documented.
   */
  lemma DecodesExactlyWhenFramed(o: Observation, rest: seq<Byte>)
    ensures GetObservation(PutObservation(o) + rest) == Some((OnWire(o), rest)) <==> Framed(o)
  {
    if Framed(o) {
      ObservationBack(o, rest);
    } else if GetObservation(PutObservation(o) + rest) == Some((OnWire(o), rest)) {
      ObservationFramed(PutObservation(o) + rest);
      FramedOnWire(o);
    }
  }

  /** Nothing of the robot is cut on the wire: ID length in one byte, rings in 16 bits, every pixel payload complete. */
  predicate Carriable(r: Robot) {
    && |r.id| < 256
    && (r.lidar.Some? ==> forall k :: 0 <= k < |r.lidar.value.readings| ==> r.lidar.value.readings[k].ring < 65536)
    && (r.camera.Some? ==> |r.camera.value.rgb| == r.camera.value.Area() * 3)
  }

  lemma ScanCarried(s: Scan)
    ensures OnWireScan(s) == s <==> forall k :: 0 <= k < |s.readings| ==> s.readings[k].ring < 65536
  {
    if OnWireScan(s) == s {
      forall k | 0 <= k < |s.readings| ensures s.readings[k].ring < 65536 {
        assert OnWireScan(s).readings[k] == OnWireReading(s.readings[k]);
      }
    }
    if forall k :: 0 <= k < |s.readings| ==> s.readings[k].ring < 65536 {
      assert OnWireScan(s).readings == s.readings;
    }
  }

  lemma RobotCarried(r: Robot)
    ensures OnWireRobot(r) == r <==> Carriable(r)
  {
    assert r.id[..|r.id| % 256] == r.id <==> |r.id| < 256 by {
      if r.id[..|r.id| % 256] == r.id {
        assert |r.id[..|r.id| % 256]| == |r.id|;
      }
    }
    if r.lidar.Some? {
      ScanCarried(r.lidar.value);
    }
  }

  lemma FleetCarried(rs: seq<Robot>)
    ensures OnWireRobots(rs) == rs <==> forall i :: 0 <= i < |rs| ==> Carriable(rs[i])
  {
    forall i | 0 <= i < |rs| ensures OnWireRobots(rs)[i] == rs[i] <==> Carriable(rs[i]) {
      RobotCarried(rs[i]);
    }
    if forall i :: 0 <= i < |rs| ==> Carriable(rs[i]) {
      assert OnWireRobots(rs) == rs;
    }
  }

  /** The very observation comes back, and the rest untouched, exactly when it is framed and nothing of it is cut. */
  lemma LosslessExactly(o: Observation, rest: seq<Byte>)
    ensures GetObservation(PutObservation(o) + rest) == Some((o, rest)) <==>
            Framed(o) && forall i :: 0 <= i < |o.robots| ==> Carriable(o.robots[i])
  {
    FleetCarried(o.robots);
    if GetObservation(PutObservation(o) + rest) == Some((o, rest)) {
      ObservationFramed(PutObservation(o) + rest);
    }
    if Framed(o) {
      ObservationBack(o, rest);
      assert OnWire(o) == o <==> OnWireRobots(o.robots) == o.robots;
    }
  }

  /** Two framed observations with the same bytes in front of any two rests carry the same fields and the same rest. */
  lemma DecodesUniquely(a: Observation, b: Observation, restA: seq<Byte>, restB: seq<Byte>)
    requires Framed(a) && Framed(b) && PutObservation(a) + restA == PutObservation(b) + restB
    ensures OnWire(a) == OnWire(b) && restA == restB
  {
    ObservationBack(a, restA);
    ObservationBack(b, restB);
  }
}
