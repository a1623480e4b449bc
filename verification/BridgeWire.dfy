/** The simulator's observation message, as one side writes it and the other reads it. */
module BridgeWire {
  import opened Options
  import opened Bytes

  const U32_SIZE := 0x1_0000_0000

  type U32 = n: int | 0 <= n < U32_SIZE

  // Floating-point values travel as opaque little-endian words.
  type F32 = w: seq<Byte> | |w| == 4 witness [0, 0, 0, 0]
  type F64 = w: seq<Byte> | |w| == 8 witness [0, 0, 0, 0, 0, 0, 0, 0]

  datatype Vec3 = Vec3(x: F64, y: F64, z: F64)
  datatype Quat = Quat(w: F64, x: F64, y: F64, z: F64)
  datatype Motion = Motion(pos: Vec3, quat: Quat, lin: Vec3, ang: Vec3)
  datatype Odometry = Odometry(valid: bool, motion: Motion, tick: U32)
  datatype Encoders = Encoders(velLeft: F64, velRight: F64, distLeft: F64, distRight: F64)
  datatype Imu = Imu(gyro: Vec3, accel: Vec3)
  datatype Reading = Reading(range: F32, x: F32, y: F32, z: F32, ring: nat, hit: bool)
  datatype Scan = Scan(tick: U32, rings: U32, azimuths: U32, maxRange: F32, readings: seq<Reading>)
  datatype Camera = Camera(tick: U32, width: U32, height: U32, fov: F32, rgb: seq<Byte>, depth: seq<F32>)
  {
    function Area(): nat { width * height }
  }

  datatype Robot = Robot(
    id: seq<Byte>,
    truth: Motion,
    odometry: Option<Odometry>,
    encoders: Option<Encoders>,
    imu: Option<Imu>,
    lidar: Option<Scan>,
    camera: Option<Camera>)

  datatype Observation = Observation(tick: U32, ticksPerSecond: U32, robots: seq<Robot>)

  const OBSERVATION_MAGIC: seq<Byte> := [0x53, 0x44, 0x42, 0x32]  // "SDB2"

  // ---- writing

  function Flag(b: bool): seq<Byte> { [if b then 1 else 0] }

  function PutU16(n: nat): (b: seq<Byte>)
    ensures |b| == 2
  {
    [n % 256, n / 256 % 256]
  }

  function PutU32(n: U32): (b: seq<Byte>)
    ensures |b| == 4
  {
    [n as int % 256, n as int / 0x100 % 256, n as int / 0x1_0000 % 256, n as int / 0x100_0000 % 256]
  }

  function PutVec3(v: Vec3): seq<Byte> { v.x + v.y + v.z }

  function PutQuat(q: Quat): seq<Byte> { q.w + q.x + q.y + q.z }

  function PutMotion(m: Motion): seq<Byte> { PutVec3(m.pos) + PutQuat(m.quat) + PutVec3(m.lin) + PutVec3(m.ang) }

  function PutOdometry(o: Odometry): seq<Byte> { Flag(o.valid) + PutMotion(o.motion) + PutU32(o.tick) }

  function PutEncoders(e: Encoders): seq<Byte> { e.velLeft + e.velRight + e.distLeft + e.distRight }

  function PutImu(i: Imu): seq<Byte> { PutVec3(i.gyro) + PutVec3(i.accel) }

  function PutReading(r: Reading): seq<Byte> { r.range + r.x + r.y + r.z + PutU16(r.ring) + Flag(r.hit) }

  /** One block after another. */
  function PutMany<T>(xs: seq<T>, put: T -> seq<Byte>): seq<Byte> {
    if xs == [] then [] else PutMany(xs[..|xs| - 1], put) + put(xs[|xs| - 1])
  }

  /** The cast to a 32-bit count. */
  function AsU32(n: nat): (r: U32)
    ensures n < U32_SIZE ==> r == n
  {
    n % U32_SIZE
  }

  function PutScanHead(s: Scan, count: U32): seq<Byte> {
    PutU32(s.tick) + PutU32(s.rings) + PutU32(s.azimuths) + s.maxRange + PutU32(count)
  }

  function PutScan(s: Scan): seq<Byte> {
    PutScanHead(s, AsU32(|s.readings|)) + PutMany(s.readings, PutReading)
  }

  function Zeros(n: nat): (b: seq<Byte>)
    ensures |b| == n
  {
    seq(n, _ => 0)
  }

  /** The frame's pixels, or black when their number is not the announced one. */
  function Pixels(c: Camera): (b: seq<Byte>)
    ensures |b| == c.Area() * 3
  {
    var size := c.Area() * 3;
    if |c.rgb| == size then c.rgb else Zeros(size)
  }

  function PutF32(w: F32): seq<Byte> { w }

  function PutFrameHead(c: Camera): seq<Byte> {
    PutU32(c.tick) + PutU32(c.width) + PutU32(c.height) + c.fov
  }

  function PutCamera(c: Camera): seq<Byte> {
    PutFrameHead(c) + Pixels(c) + Flag(c.depth != []) + PutMany(c.depth, PutF32)
  }

  function PutId(id: seq<Byte>): seq<Byte> {
    var n := |id| % 256;
    [n] + id[..n]
  }

  /** A presence flag, then the block if there is one. */
  function PutOptional<T>(o: Option<T>, put: T -> seq<Byte>): seq<Byte> {
    if o.None? then Flag(false) else Flag(true) + put(o.value)
  }

  function PutRobot(r: Robot): seq<Byte> {
    PutId(r.id) + PutMotion(r.truth) + PutOptional(r.odometry, PutOdometry) + PutOptional(r.encoders, PutEncoders)
    + PutOptional(r.imu, PutImu) + PutOptional(r.lidar, PutScan) + PutOptional(r.camera, PutCamera)
  }

  function PutHeader(o: Observation): seq<Byte> {
    OBSERVATION_MAGIC + PutU32(o.tick) + PutU32(o.ticksPerSecond) + PutU32(AsU32(|o.robots|))
  }

  function PutObservation(o: Observation): seq<Byte> {
    PutHeader(o) + PutMany(o.robots, PutRobot)
  }

  /** Appending to a buffer that already holds `start` extends the block after it. */
  lemma Grow(start: seq<Byte>, block: seq<Byte>, more: seq<Byte>) returns (grown: seq<Byte>)
    ensures grown == block + more && (start + block) + more == start + grown
  {
    grown := block + more;
  }

  /** The serialising half of the loop functions: fields are appended to the send buffer one at a time. */
  class BridgeLoop {
    var sendBuffer: seq<Byte>
    var sent: seq<seq<Byte>>  // messages handed to the socket

    constructor ()
      ensures sendBuffer == [] && sent == []
    {
      sendBuffer, sent := [], [];
    }

    method Append(b: seq<Byte>)
      modifies this`sendBuffer
      ensures sendBuffer == old(sendBuffer) + b
    {
      sendBuffer := sendBuffer + b;
    }

    /** Sends one observation on every exchange tick and nothing on the others. */
    method PostStep(o: Observation, exchangePeriod: nat)
      requires exchangePeriod >= 1
      modifies this
      ensures sent == if o.tick % exchangePeriod != 0 then old(sent) else old(sent) + [PutObservation(o)]
    {
      if o.tick % exchangePeriod != 0 {
        return;
      }
      sendBuffer := [];
      AppendHeader(o);
      AppendRobots(o.robots);
      sent := sent + [sendBuffer];
    }

    method AppendRobots(robots: seq<Robot>)
      modifies this`sendBuffer
      ensures sendBuffer == old(sendBuffer) + PutMany(robots, PutRobot)
    {
      for i := 0 to |robots|
        invariant sendBuffer == old(sendBuffer) + PutMany(robots[..i], PutRobot)
      {
        assert robots[..i + 1][..i] == robots[..i];
        ghost var grown := Grow(old(sendBuffer), PutMany(robots[..i], PutRobot), PutRobot(robots[i]));
        AppendRobot(robots[i]);
      }
      assert robots[..|robots|] == robots;
    }

    method AppendHeader(o: Observation)
      requires sendBuffer == []
      modifies this`sendBuffer
      ensures sendBuffer == PutHeader(o)
    {
      Append(OBSERVATION_MAGIC);
      Append(PutU32(o.tick));
      Append(PutU32(o.ticksPerSecond));
      Append(PutU32(AsU32(|o.robots|)));
    }

    method AppendRobot(r: Robot)
      modifies this`sendBuffer
      ensures sendBuffer == old(sendBuffer) + PutRobot(r)
    {
      ghost var start, block := sendBuffer, PutId(r.id);
      Append(PutId(r.id));
      block := Grow(start, block, PutMotion(r.truth));
      Append(PutMotion(r.truth));
      block := Grow(start, block, PutOptional(r.odometry, PutOdometry));
      AppendOdometry(r.odometry);
      block := Grow(start, block, PutOptional(r.encoders, PutEncoders));
      AppendEncoders(r.encoders);
      block := Grow(start, block, PutOptional(r.imu, PutImu));
      AppendImu(r.imu);
      block := Grow(start, block, PutOptional(r.lidar, PutScan));
      AppendLidar(r.lidar);
      block := Grow(start, block, PutOptional(r.camera, PutCamera));
      AppendCamera(r.camera);
    }

    method AppendOdometry(o: Option<Odometry>)
      modifies this`sendBuffer
      ensures sendBuffer == old(sendBuffer) + PutOptional(o, PutOdometry)
    {
      Append(Flag(o.Some?));
      if o.Some? {
        Append(PutOdometry(o.value));
      }
    }

    method AppendEncoders(o: Option<Encoders>)
      modifies this`sendBuffer
      ensures sendBuffer == old(sendBuffer) + PutOptional(o, PutEncoders)
    {
      Append(Flag(o.Some?));
      if o.Some? {
        Append(PutEncoders(o.value));
      }
    }

    method AppendImu(o: Option<Imu>)
      modifies this`sendBuffer
      ensures sendBuffer == old(sendBuffer) + PutOptional(o, PutImu)
    {
      Append(Flag(o.Some?));
      if o.Some? {
        Append(PutImu(o.value));
      }
    }

    method AppendLidar(o: Option<Scan>)
      modifies this`sendBuffer
      ensures sendBuffer == old(sendBuffer) + PutOptional(o, PutScan)
    {
      Append(Flag(o.Some?));
      if o.Some? {
        AppendScan(o.value);
      }
    }

    method AppendCamera(o: Option<Camera>)
      modifies this`sendBuffer
      ensures sendBuffer == old(sendBuffer) + PutOptional(o, PutCamera)
    {
      Append(Flag(o.Some?));
      if o.Some? {
        AppendFrame(o.value);
      }
    }

    method AppendScan(s: Scan)
      modifies this`sendBuffer
      ensures sendBuffer == old(sendBuffer) + PutScan(s)
    {
      AppendScanHead(s, AsU32(|s.readings|));
      ghost var grown := Grow(old(sendBuffer), PutScanHead(s, AsU32(|s.readings|)), PutMany(s.readings, PutReading));
      var block: seq<Byte> := [];
      for i := 0 to |s.readings|
        invariant block == PutMany(s.readings[..i], PutReading)
      {
        assert s.readings[..i + 1][..i] == s.readings[..i];
        block := block + PutReading(s.readings[i]);
      }
      assert s.readings[..|s.readings|] == s.readings;
      Append(block);
    }

    method AppendScanHead(s: Scan, count: U32)
      modifies this`sendBuffer
      ensures sendBuffer == old(sendBuffer) + PutScanHead(s, count)
    {
      Append(PutU32(s.tick));
      Append(PutU32(s.rings));
      Append(PutU32(s.azimuths));
      Append(s.maxRange);
      Append(PutU32(count));
    }

    method AppendFrame(c: Camera)
      modifies this`sendBuffer
      ensures sendBuffer == old(sendBuffer) + PutCamera(c)
    {
      ghost var start, block := sendBuffer, PutFrameHead(c);
      Append(PutU32(c.tick) + PutU32(c.width) + PutU32(c.height) + c.fov);
      block := Grow(start, block, Pixels(c));
      if |c.rgb| == c.Area() * 3 {
        Append(c.rgb);
      } else {
        // A missing payload would put every later field out of place: send black instead.
        Append(Zeros(c.Area() * 3));
      }
      block := Grow(start, block, Flag(c.depth != []));
      Append(Flag(c.depth != []));
      block := Grow(start, block, PutMany(c.depth, PutF32));
      AppendDepth(c.depth);
    }

    method AppendDepth(depth: seq<F32>)
      modifies this`sendBuffer
      ensures sendBuffer == old(sendBuffer) + PutMany(depth, PutF32)
    {
      var block: seq<Byte> := [];
      for i := 0 to |depth|
        invariant block == PutMany(depth[..i], PutF32)
      {
        assert depth[..i + 1][..i] == depth[..i];
        block := block + PutF32(depth[i]);
      }
      assert depth[..|depth|] == depth;
      Append(block);
    }
  }

  // ---- reading

  type Parse<T> = Option<(T, seq<Byte>)>

  function Take(b: seq<Byte>, n: nat): Parse<seq<Byte>> {
    if n <= |b| then Some((b[..n], b[n..])) else None
  }

  function GetF32(b: seq<Byte>): Parse<F32> {
    if |b| >= 4 then Some((b[..4], b[4..])) else None
  }

  function GetF64(b: seq<Byte>): Parse<F64> {
    if |b| >= 8 then Some((b[..8], b[8..])) else None
  }

  function GetByte(b: seq<Byte>): Parse<Byte> {
    if |b| >= 1 then Some((b[0], b[1..])) else None
  }

  function GetBool(b: seq<Byte>): Parse<bool> {
    var (x, t) :- GetByte(b);
    Some((x != 0, t))
  }

  function GetU16(b: seq<Byte>): Parse<nat> {
    if |b| >= 2 then Some((b[0] as int + (b[1] as int) * 256, b[2..])) else None
  }

  function U32Value(b0: Byte, b1: Byte, b2: Byte, b3: Byte): U32 {
    b0 as int + (b1 as int) * 0x100 + (b2 as int) * 0x1_0000 + (b3 as int) * 0x100_0000
  }

  function GetU32(b: seq<Byte>): Parse<U32> {
    if |b| >= 4 then Some((U32Value(b[0], b[1], b[2], b[3]), b[4..])) else None
  }

  function GetVec3(b: seq<Byte>): Parse<Vec3> {
    var (x, b) :- GetF64(b);
    var (y, b) :- GetF64(b);
    var (z, b) :- GetF64(b);
    Some((Vec3(x, y, z), b))
  }

  function GetQuat(b: seq<Byte>): Parse<Quat> {
    var (w, b) :- GetF64(b);
    var (x, b) :- GetF64(b);
    var (y, b) :- GetF64(b);
    var (z, b) :- GetF64(b);
    Some((Quat(w, x, y, z), b))
  }

  function GetMotion(b: seq<Byte>): Parse<Motion> {
    var (pos, b) :- GetVec3(b);
    var (quat, b) :- GetQuat(b);
    var (lin, b) :- GetVec3(b);
    var (ang, b) :- GetVec3(b);
    Some((Motion(pos, quat, lin, ang), b))
  }

  function GetOdometry(b: seq<Byte>): Parse<Odometry> {
    var (valid, b) :- GetBool(b);
    var (motion, b) :- GetMotion(b);
    var (tick, b) :- GetU32(b);
    Some((Odometry(valid, motion, tick), b))
  }

  function GetEncoders(b: seq<Byte>): Parse<Encoders> {
    var (vl, b) :- GetF64(b);
    var (vr, b) :- GetF64(b);
    var (dl, b) :- GetF64(b);
    var (dr, b) :- GetF64(b);
    Some((Encoders(vl, vr, dl, dr), b))
  }

  function GetImu(b: seq<Byte>): Parse<Imu> {
    var (gyro, b) :- GetVec3(b);
    var (accel, b) :- GetVec3(b);
    Some((Imu(gyro, accel), b))
  }

  function GetReading(b: seq<Byte>): Parse<Reading> {
    var (range, b) :- GetF32(b);
    var (x, b) :- GetF32(b);
    var (y, b) :- GetF32(b);
    var (z, b) :- GetF32(b);
    var (ring, b) :- GetU16(b);
    var (hit, b) :- GetBool(b);
    Some((Reading(range, x, y, z, ring, hit), b))
  }

  /** `n` blocks in a row. */
  function GetMany<T>(b: seq<Byte>, n: nat, get: seq<Byte> -> Parse<T>): Parse<seq<T>> {
    if n == 0 then Some(([], b)) else
      var (xs, b) :- GetMany(b, n - 1, get);
      var (x, b) :- get(b);
      Some((xs + [x], b))
  }

  /** A scan without its readings, and how many follow. */
  function GetScanHead(b: seq<Byte>): Parse<(Scan, U32)> {
    var (tick, b) :- GetU32(b);
    var (rings, b) :- GetU32(b);
    var (azimuths, b) :- GetU32(b);
    var (maxRange, b) :- GetF32(b);
    var (count, b) :- GetU32(b);
    Some(((Scan(tick, rings, azimuths, maxRange, []), count), b))
  }

  function GetScan(b: seq<Byte>): Parse<Scan> {
    var ((head, count), b) :- GetScanHead(b);
    var (readings, b) :- GetMany(b, count, GetReading);
    Some((head.(readings := readings), b))
  }

  /** A frame without its pixels and depth. */
  function GetFrameHead(b: seq<Byte>): Parse<Camera> {
    var (tick, b) :- GetU32(b);
    var (width, b) :- GetU32(b);
    var (height, b) :- GetU32(b);
    var (fov, b) :- GetF32(b);
    Some((Camera(tick, width, height, fov, [], []), b))
  }

  function GetDepth(b: seq<Byte>, area: nat): Parse<seq<F32>> {
    var (present, b) :- GetBool(b);
    if present then GetMany(b, area, GetF32) else Some(([], b))
  }

  function GetCamera(b: seq<Byte>): Parse<Camera> {
    var (head, b) :- GetFrameHead(b);
    var (rgb, b) :- Take(b, head.Area() * 3);
    var (depth, b) :- GetDepth(b, head.Area());
    Some((head.(rgb := rgb, depth := depth), b))
  }

  function GetId(b: seq<Byte>): Parse<seq<Byte>> {
    var (n, b) :- GetByte(b);
    Take(b, n)
  }

  /** A presence flag, then the block it announces. */
  function GetOptional<T>(b: seq<Byte>, get: seq<Byte> -> Parse<T>): Parse<Option<T>> {
    var (present, b) :- GetBool(b);
    if !present then Some((None, b)) else
      var (x, b) :- get(b);
      Some((Some(x), b))
  }

  function GetRobot(b: seq<Byte>): Parse<Robot> {
    var (id, b) :- GetId(b);
    var (truth, b) :- GetMotion(b);
    var (odometry, b) :- GetOptional(b, GetOdometry);
    var (encoders, b) :- GetOptional(b, GetEncoders);
    var (imu, b) :- GetOptional(b, GetImu);
    var (lidar, b) :- GetOptional(b, GetScan);
    var (camera, b) :- GetOptional(b, GetCamera);
    Some((Robot(id, truth, odometry, encoders, imu, lidar, camera), b))
  }

  /** The 16-byte header, and how many robots follow. */
  function GetHeader(b: seq<Byte>): Parse<(Observation, U32)> {
    var (magic, b) :- Take(b, 4);
    var (tick, b) :- GetU32(b);
    var (tps, b) :- GetU32(b);
    var (count, b) :- GetU32(b);
    if magic != OBSERVATION_MAGIC then None else Some(((Observation(tick, tps, []), count), b))
  }

  function GetObservation(b: seq<Byte>): Parse<Observation> {
    var ((head, count), b) :- GetHeader(b);
    var (robots, b) :- GetMany(b, count, GetRobot);
    Some((head.(robots := robots), b))
  }
}
