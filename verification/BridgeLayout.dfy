/** Where each field of the two messages stands, byte by byte, as the message grammars document it. */
module BridgeLayout {
  import opened Options
  import opened Bytes
  import opened BridgeWire
  import opened BridgeRoundTrip
  import opened BridgeCommands

  /** The four bytes at `i`, least significant first, spell `n`. */
  predicate Spells(b: seq<Byte>, i: nat, n: int) {
    i + 4 <= |b| && n == b[i] as int + 256 * b[i + 1] as int + 65536 * b[i + 2] as int + 16777216 * b[i + 3] as int
  }

  lemma WordSpells(n: U32, rest: seq<Byte>)
    ensures Spells(PutU32(n) + rest, 0, n)
  {
    var b, w := PutU32(n) + rest, PutU32(n);
    assert b[0] == w[0] && b[1] == w[1] && b[2] == w[2] && b[3] == w[3];
    U32Digits(n);
  }

  lemma SpellsAfter(a: seq<Byte>, b: seq<Byte>, i: nat, n: int)
    requires Spells(b, i, n)
    ensures Spells(a + b, |a| + i, n)
  {
  }

  /** Three words behind a front. */
  lemma WordsSpell(front: seq<Byte>, k: U32, m: U32, n: U32, rest: seq<Byte>)
    ensures var b := front + (PutU32(k) + (PutU32(m) + (PutU32(n) + rest)));
      Spells(b, |front|, k) && Spells(b, |front| + 4, m) && Spells(b, |front| + 8, n) && b[|front| + 12..] == rest
  {
    var z := PutU32(n) + rest;
    var y := PutU32(m) + z;
    var x := PutU32(k) + y;
    WordSpells(n, rest);
    WordSpells(m, z);
    WordSpells(k, y);
    SpellsAfter(PutU32(m), z, 0, n);
    SpellsAfter(PutU32(k), y, 0, m);
    SpellsAfter(PutU32(k), y, 4, n);
    SpellsAfter(front, x, 0, k);
    SpellsAfter(front, x, 4, m);
    SpellsAfter(front, x, 8, n);
    assert x[12..] == rest && (front + x)[|front| + 12..] == x[12..];
  }

  /** Ring numbers travel in two bytes, least significant first. */
  lemma RingSpells(n: nat)
    ensures var b := PutU16(n); |b| == 2 && b[0] as int + 256 * b[1] as int == n % 65536
  {
  }

  /** "SDB2", the tick, the tick rate, the number of robots, then the robots. */
  lemma ObservationLayout(o: Observation)
    ensures var b := PutObservation(o);
      && |b| >= 16 && b[..4] == [0x53, 0x44, 0x42, 0x32]
      && Spells(b, 4, o.tick) && Spells(b, 8, o.ticksPerSecond)
      && (|o.robots| < 0x1_0000_0000 ==> Spells(b, 12, |o.robots|))
      && b[16..] == PutMany(o.robots, PutRobot)
  {
    var t, p, n := PutU32(o.tick), PutU32(o.ticksPerSecond), PutU32(AsU32(|o.robots|));
    var robots := PutMany(o.robots, PutRobot);
    Assoc(OBSERVATION_MAGIC + t + p, n, robots);
    Assoc(OBSERVATION_MAGIC + t, p, n + robots);
    Assoc(OBSERVATION_MAGIC, t, p + (n + robots));
    WordsSpell(OBSERVATION_MAGIC, o.tick, o.ticksPerSecond, AsU32(|o.robots|), robots);
    Front(OBSERVATION_MAGIC, t + (p + (n + robots)));
  }

  lemma Front(a: seq<Byte>, b: seq<Byte>)
    ensures (a + b)[..|a|] == a
  {
  }

  lemma VecLayout(v: Vec3)
    ensures var b := PutVec3(v); |b| == 24 && b[0..8] == v.x && b[8..16] == v.y && b[16..24] == v.z
  {
  }

  lemma QuatLayout(q: Quat)
    ensures var b := PutQuat(q);
      |b| == 32 && b[0..8] == q.w && b[8..16] == q.x && b[16..24] == q.y && b[24..32] == q.z
  {
  }

  /** Position, orientation with the scalar first, linear velocity, angular velocity: thirteen 64-bit words. */
  lemma MotionLayout(m: Motion)
    ensures var b := PutMotion(m);
      && |b| == 104
      && b[0..8] == m.pos.x && b[8..16] == m.pos.y && b[16..24] == m.pos.z
      && b[24..32] == m.quat.w && b[32..40] == m.quat.x && b[40..48] == m.quat.y && b[48..56] == m.quat.z
      && b[56..64] == m.lin.x && b[64..72] == m.lin.y && b[72..80] == m.lin.z
      && b[80..88] == m.ang.x && b[88..96] == m.ang.y && b[96..104] == m.ang.z
  {
    var p, q, l, a := PutVec3(m.pos), PutQuat(m.quat), PutVec3(m.lin), PutVec3(m.ang);
    VecLayout(m.pos);
    QuatLayout(m.quat);
    VecLayout(m.lin);
    VecLayout(m.ang);
    MotionParts(p, q, l, a);
    PartsOf(PutMotion(m), p, q, l, a);
  }

  lemma MotionParts(p: seq<Byte>, q: seq<Byte>, l: seq<Byte>, a: seq<Byte>)
    requires |p| == 24 && |q| == 32 && |l| == 24 && |a| == 24
    ensures var b := p + q + l + a;
      |b| == 104 && b[0..24] == p && b[24..56] == q && b[56..80] == l && b[80..104] == a
  {
  }

  /** Slicing a slice is slicing the whole. */
  lemma PartsOf(b: seq<Byte>, p: seq<Byte>, q: seq<Byte>, l: seq<Byte>, a: seq<Byte>)
    requires |b| == 104 && b[0..24] == p && b[24..56] == q && b[56..80] == l && b[80..104] == a
    ensures b[0..8] == p[0..8] && b[8..16] == p[8..16] && b[16..24] == p[16..24]
    ensures b[24..32] == q[0..8] && b[32..40] == q[8..16] && b[40..48] == q[16..24] && b[48..56] == q[24..32]
    ensures b[56..64] == l[0..8] && b[64..72] == l[8..16] && b[72..80] == l[16..24]
    ensures b[80..88] == a[0..8] && b[88..96] == a[8..16] && b[96..104] == a[16..24]
  {
  }

  lemma OdometryLayout(o: Odometry)
    ensures var b := PutOdometry(o);
      && |b| == 109 && b[0] == (if o.valid then 1 else 0) && b[1..105] == PutMotion(o.motion) && Spells(b, 105, o.tick)
  {
    var m, t := PutMotion(o.motion), PutU32(o.tick);
    MotionLayout(o.motion);
    WordSpells(o.tick, []);
    assert t + [] == t;
    SpellsAfter(Flag(o.valid) + m, t, 0, o.tick);
  }

  lemma EncodersLayout(e: Encoders)
    ensures var b := PutEncoders(e);
      |b| == 32 && b[0..8] == e.velLeft && b[8..16] == e.velRight && b[16..24] == e.distLeft && b[24..32] == e.distRight
  {
  }

  lemma ImuLayout(i: Imu)
    ensures var b := PutImu(i);
      && |b| == 48 && b[0..8] == i.gyro.x && b[8..16] == i.gyro.y && b[16..24] == i.gyro.z
      && b[24..32] == i.accel.x && b[32..40] == i.accel.y && b[40..48] == i.accel.z
  {
    var g, a := PutVec3(i.gyro), PutVec3(i.accel);
    VecLayout(i.gyro);
    VecLayout(i.accel);
    var b := g + a;
    assert b[0..8] == g[0..8] && b[8..16] == g[8..16] && b[16..24] == g[16..24];
    assert b[24..32] == a[0..8] && b[32..40] == a[8..16] && b[40..48] == a[16..24];
  }

  lemma ReadingLayout(r: Reading)
    ensures var b := PutReading(r);
      && |b| == 19 && b[0..4] == r.range && b[4..8] == r.x && b[8..12] == r.y && b[12..16] == r.z
      && b[16] as int + 256 * b[17] as int == r.ring % 65536 && b[18] == if r.hit then 1 else 0
  {
    RingSpells(r.ring);
    var ring := PutU16(r.ring);
    assert PutReading(r)[16] == ring[0] && PutReading(r)[17] == ring[1];
  }

  /** Blocks of one size stand at multiples of it. */
  lemma {:induction false} ManyLayout<T>(xs: seq<T>, put: T -> seq<Byte>, size: nat, k: nat)
    requires forall x :: |put(x)| == size
    ensures |PutMany(xs, put)| == |xs| * size
    ensures k < |xs| ==> BlockAt(PutMany(xs, put), k * size, put(xs[k]))
  {
    if xs != [] {
      var n := |xs| - 1;
      var front, last := PutMany(xs[..n], put), put(xs[n]);
      ManyLayout(xs[..n], put, size, k);
      assert |xs| * size == n * size + size;
      if k < n {
        BlockStays(front, last, k * size, put(xs[k]));
      } else if k == n {
        BlockLast(front, last);
      }
    }
  }

  lemma BlockLast(front: seq<Byte>, block: seq<Byte>)
    ensures BlockAt(front + block, |front|, block)
  {
  }

  predicate BlockAt(b: seq<Byte>, i: nat, block: seq<Byte>) {
    i + |block| <= |b| && b[i..i + |block|] == block
  }

  lemma BlockStays(a: seq<Byte>, more: seq<Byte>, i: nat, block: seq<Byte>)
    requires BlockAt(a, i, block)
    ensures BlockAt(a + more, i, block)
  {
  }

  lemma BlockAfter(front: seq<Byte>, b: seq<Byte>, i: nat, block: seq<Byte>)
    requires BlockAt(b, i, block)
    ensures BlockAt(front + b, |front| + i, block)
  {
  }

  lemma ScanHeadLayout(s: Scan, count: U32, more: seq<Byte>)
    ensures var b := PutScanHead(s, count) + more;
      && |b| == 20 + |more| && Spells(b, 0, s.tick) && Spells(b, 4, s.rings) && Spells(b, 8, s.azimuths)
      && b[12..16] == s.maxRange && Spells(b, 16, count) && b[20..] == more
  {
    var t, r, a, c := PutU32(s.tick), PutU32(s.rings), PutU32(s.azimuths), PutU32(count);
    var tail := s.maxRange + (c + more);
    Cat5(t, r, a, s.maxRange, c, more);
    WordsSpell([], s.tick, s.rings, s.azimuths, tail);
    var b := t + (r + (a + tail));
    assert [] + b == b;
    TailLayout(b, s.maxRange, count, more);
  }

  /** A 32-bit word as it is and a number, from byte 12 on. */
  lemma TailLayout(b: seq<Byte>, w: F32, n: U32, more: seq<Byte>)
    requires |b| >= 12 && b[12..] == w + (PutU32(n) + more)
    ensures |b| == 20 + |more| && b[12..16] == w && Spells(b, 16, n) && b[20..] == more
  {
    var tail := w + (PutU32(n) + more);
    WordSpells(n, more);
    SpellsAfter(w, PutU32(n) + more, 0, n);
    assert b == b[..12] + tail;
    SpellsAfter(b[..12], tail, 4, n);
    assert b[12..16] == tail[..4] && b[20..] == tail[8..];
  }

  /** A scan: five words, then 19 bytes per reading. */
  lemma ScanLayout(s: Scan, k: nat)
    requires |s.readings| < 0x1_0000_0000
    ensures var b := PutScan(s);
      && |b| == 20 + 19 * |s.readings| && Spells(b, 0, s.tick) && Spells(b, 4, s.rings) && Spells(b, 8, s.azimuths)
      && b[12..16] == s.maxRange && Spells(b, 16, |s.readings|)
      && (k < |s.readings| ==> BlockAt(b, 20 + 19 * k, PutReading(s.readings[k])))
  {
    var head, readings := PutScanHead(s, AsU32(|s.readings|)), PutMany(s.readings, PutReading);
    ScanHeadLayout(s, AsU32(|s.readings|), readings);
    forall r ensures |PutReading(r)| == 19 {
      ReadingLayout(r);
    }
    ManyLayout(s.readings, PutReading, 19, k);
    if k < |s.readings| {
      BlockAfter(head, readings, k * 19, PutReading(s.readings[k]));
    }
  }

  lemma FrameHeadLayout(c: Camera, more: seq<Byte>)
    ensures var b := PutFrameHead(c) + more;
      && |b| == 16 + |more| && Spells(b, 0, c.tick) && Spells(b, 4, c.width) && Spells(b, 8, c.height)
      && b[12..16] == c.fov && b[16..] == more
  {
    var t, w, h := PutU32(c.tick), PutU32(c.width), PutU32(c.height);
    Assoc(t + w + h, c.fov, more);
    Assoc(t + w, h, c.fov + more);
    Assoc(t, w, h + (c.fov + more));
    WordsSpell([], c.tick, c.width, c.height, c.fov + more);
    var b := t + (w + (h + (c.fov + more)));
    assert [] + b == b;
    assert b[12..] == c.fov + more;
    assert b[12..16] == c.fov && b[16..] == more;
  }

  lemma FrameParts(head: seq<Byte>, p: seq<Byte>, f: seq<Byte>, d: seq<Byte>)
    requires |head| == 16 && |f| == 1
    ensures var b := head + p + f + d;
      b == head + (p + (f + d)) && b[16..16 + |p|] == p && b[16 + |p|] == f[0]
  {
  }

  /** A frame: its size, three bytes a pixel (black unless exactly that many were given), then depth if there is any. */
  lemma FrameLayout(c: Camera, k: nat)
    ensures var b, n := PutCamera(c), c.width * c.height;
      && |b| == 17 + 3 * n + 4 * |c.depth|
      && Spells(b, 0, c.tick) && Spells(b, 4, c.width) && Spells(b, 8, c.height) && b[12..16] == c.fov
      && (if |c.rgb| == 3 * n then b[16..16 + 3 * n] == c.rgb else k < 3 * n ==> b[16 + k] == 0)
      && b[16 + 3 * n] == (if c.depth == [] then 0 else 1)
      && (k < |c.depth| ==> BlockAt(b, 17 + 3 * n + 4 * k, c.depth[k]))
  {
    var n, p, f, d := c.width * c.height, Pixels(c), Flag(c.depth != []), PutMany(c.depth, PutF32);
    var head, b := PutFrameHead(c), PutCamera(c);
    FrameHeadLayout(c, p + (f + d));
    ManyLayout(c.depth, PutF32, 4, k);
    FrameParts(head, p, f, d);
    if k < |c.depth| {
      assert PutF32(c.depth[k]) == c.depth[k];
      BlockAfter(head + p + f, d, k * 4, c.depth[k]);
    }
  }

  /** A record for each robot: its ID behind a length byte, its true motion, then each sensor behind a presence byte. */
  lemma RobotLayout(r: Robot)
    requires |r.id| < 256
    ensures var b := PutRobot(r);
      && |b| >= |r.id| + 105 && b[0] == |r.id| && b[1..|r.id| + 1] == r.id
      && b[|r.id| + 1..|r.id| + 105] == PutMotion(r.truth)
      && b[|r.id| + 105..] == Present(r.odometry, PutOdometry) + Present(r.encoders, PutEncoders)
        + Present(r.imu, PutImu) + Present(r.lidar, PutScan) + Present(r.camera, PutCamera)
  {
    var id, m := PutId(r.id), PutMotion(r.truth);
    var o, e, i, l, c := PutOptional(r.odometry, PutOdometry), PutOptional(r.encoders, PutEncoders),
      PutOptional(r.imu, PutImu), PutOptional(r.lidar, PutScan), PutOptional(r.camera, PutCamera);
    MotionLayout(r.truth);
    Cat7(id, m, o, e, i, l, c, []);
    Cat5(o, e, i, l, c, []);
    var rest := o + e + i + l + c;
    assert PutRobot(r) + [] == PutRobot(r) && rest + [] == rest;
    assert PutRobot(r) == id + (m + rest);
    IdLayout(r.id, m, rest);
  }

  lemma IdLayout(id: seq<Byte>, m: seq<Byte>, rest: seq<Byte>)
    requires |id| < 256
    ensures var b, n := PutId(id) + (m + rest), |id|;
      b[0] == n && b[1..n + 1] == id && b[n + 1..n + 1 + |m|] == m && b[n + 1 + |m|..] == rest
  {
    assert id[..|id| % 256] == id;
    var head := PutId(id);
    assert |head| == |id| + 1 && head[1..] == id;
  }

  /** One byte, 1 in front of the block or 0 alone. */
  function Present<T>(o: Option<T>, put: T -> seq<Byte>): seq<Byte> {
    match o
    case None => [0]
    case Some(x) => [1] + put(x)
  }

  // ---- commands

  lemma CmdLayout(c: Cmd)
    requires |c.id| < 256
    ensures var b, n := PutCmd(c), |c.id|;
      && |b| == n + 10 + (if c.teleport.Some? then 56 else 0)
      && b[0] == n && b[1..n + 1] == c.id && b[n + 1..n + 5] == c.linear && b[n + 5..n + 9] == c.angular
      && b[n + 9] == (if c.teleport.Some? then 1 else 0)
      && (c.teleport.Some? ==> b[n + 10..] == PutPose(c.teleport.value))
  {
    var id, t := PutId(c.id), PutOptional(c.teleport, PutPose);
    var b := PutCmd(c);
    Assoc(id + c.linear, c.angular, t);
    Assoc(id, c.linear, c.angular + t);
    IdLayout(c.id, c.linear, c.angular + t);
    var tail := c.angular + t;
    assert b[|c.id| + 5..] == tail;
    assert tail[..4] == c.angular && tail[4..] == t;
    if c.teleport.Some? {
      PoseLayout(c.teleport.value);
      assert t[1..] == PutPose(c.teleport.value);
    }
  }

  lemma PoseLayout(p: Pose)
    ensures var b := PutPose(p);
      && |b| == 56 && b[0..8] == p.pos.x && b[8..16] == p.pos.y && b[16..24] == p.pos.z
      && b[24..32] == p.quat.w && b[32..40] == p.quat.x && b[40..48] == p.quat.y && b[48..56] == p.quat.z
  {
    var v, q := PutVec3(p.pos), PutQuat(p.quat);
    VecLayout(p.pos);
    QuatLayout(p.quat);
    var b := v + q;
    assert b[0..8] == v[0..8] && b[8..16] == v[8..16] && b[16..24] == v[16..24];
    assert b[24..32] == q[0..8] && b[32..40] == q[8..16] && b[40..48] == q[16..24] && b[48..56] == q[24..32];
  }

  /** "SDCMD", the tick, the number of commands, the commands, and whether to reset the world. */
  lemma CommandsLayout(c: Commands)
    ensures var b := PutCommands(c);
      && |b| >= 14 && b[..5] == [0x53, 0x44, 0x43, 0x4D, 0x44] && Spells(b, 5, c.tick)
      && (|c.cmds| < 0x1_0000_0000 ==> Spells(b, 9, |c.cmds|))
      && b[13..|b| - 1] == PutMany(c.cmds, PutCmd) && b[|b| - 1] == if c.worldReset then 1 else 0
  {
    var t, n, cmds, f := PutU32(c.tick), PutU32(AsU32(|c.cmds|)), PutMany(c.cmds, PutCmd), Flag(c.worldReset);
    var tail := cmds + f;
    Assoc(COMMAND_MAGIC + t + n, cmds, f);
    Assoc(COMMAND_MAGIC + t, n, tail);
    Assoc(COMMAND_MAGIC, t, n + tail);
    WordSpells(AsU32(|c.cmds|), tail);
    WordSpells(c.tick, n + tail);
    SpellsAfter(t, n + tail, 0, AsU32(|c.cmds|));
    SpellsAfter(COMMAND_MAGIC, t + (n + tail), 0, c.tick);
    SpellsAfter(COMMAND_MAGIC, t + (n + tail), 4, AsU32(|c.cmds|));
    Front(COMMAND_MAGIC, t + (n + tail));
    var b := COMMAND_MAGIC + (t + (n + tail));
    assert b[13..] == tail;
    assert tail[..|tail| - 1] == cmds && tail[|tail| - 1] == f[0];
  }

  /** A message that does not begin with its magic is refused, whatever it goes on with. */
  lemma ForeignRefused(b: seq<Byte>)
    ensures |b| < 5 || b[..5] != [0x53, 0x44, 0x43, 0x4D, 0x44] ==> GetCommands(b).None?
    ensures |b| < 4 || b[..4] != [0x53, 0x44, 0x42, 0x32] ==> GetObservation(b).None?
  {
  }

  // ---- no message is the beginning of another

  /** `p` read something and left a rest; with more bytes behind, `q` read the same and left them too. */
  ghost predicate SameWithMore<T>(p: Parse<T>, q: Parse<T>, more: seq<Byte>) {
    p.Some? ==> q == Some((p.value.0, p.value.1 + more))
  }

  lemma TakeMore(b: seq<Byte>, n: nat, more: seq<Byte>)
    ensures SameWithMore(Take(b, n), Take(b + more, n), more)
  {
    if n <= |b| {
      assert (b + more)[..n] == b[..n] && (b + more)[n..] == b[n..] + more;
    }
  }

  lemma WordMore(b: seq<Byte>, more: seq<Byte>)
    ensures SameWithMore(GetF32(b), GetF32(b + more), more)
    ensures SameWithMore(GetU32(b), GetU32(b + more), more)
    ensures SameWithMore(GetF64(b), GetF64(b + more), more)
    ensures SameWithMore(GetBool(b), GetBool(b + more), more)
  {
    TakeMore(b, 4, more);
    TakeMore(b, 8, more);
    TakeMore(b, 1, more);
  }

  lemma IdMore(b: seq<Byte>, more: seq<Byte>)
    ensures SameWithMore(GetId(b), GetId(b + more), more)
  {
    if b != [] {
      assert (b + more)[1..] == b[1..] + more;
      TakeMore(b[1..], b[0], more);
    }
  }

  lemma PoseMore(b: seq<Byte>, more: seq<Byte>)
    ensures SameWithMore(GetPose(b), GetPose(b + more), more)
  {
    PoseBlocks(b);
    PoseBlocks(b + more);
    if |b| >= 56 {
      var all := b + more;
      assert all[..24] == b[..24] && all[24..] == b[24..] + more;
      assert all[24..][..32] == b[24..][..32] && all[24..][32..] == b[24..][32..] + more;
    }
  }

  lemma OptionalPoseMore(b: seq<Byte>, more: seq<Byte>)
    ensures SameWithMore(GetOptional(b, GetPose), GetOptional(b + more, GetPose), more)
  {
    WordMore(b, more);
    if b != [] {
      PoseMore(b[1..], more);
    }
  }

  lemma CmdMore(b: seq<Byte>, more: seq<Byte>)
    ensures SameWithMore(GetCmd(b), GetCmd(b + more), more)
  {
    IdMore(b, more);
    if GetId(b).Some? {
      var b1 := GetId(b).value.1;
      WordMore(b1, more);
      if GetF32(b1).Some? {
        var b2 := GetF32(b1).value.1;
        WordMore(b2, more);
        if GetF32(b2).Some? {
          OptionalPoseMore(GetF32(b2).value.1, more);
        }
      }
    }
  }

  ghost predicate ReadsOn<T>(get: seq<Byte> -> Parse<T>, more: seq<Byte>) {
    forall b :: SameWithMore(get(b), get(b + more), more)
  }

  lemma {:induction false} ManyMore<T>(b: seq<Byte>, n: nat, get: seq<Byte> -> Parse<T>, more: seq<Byte>)
    requires ReadsOn(get, more)
    ensures SameWithMore(GetMany(b, n, get), GetMany(b + more, n, get), more)
  {
    if n > 0 {
      ManyMore(b, n - 1, get, more);
      var front := GetMany(b, n - 1, get);
      if front.Some? {
        var t := front.value.1;
        assert SameWithMore(get(t), get(t + more), more);
      }
    }
  }

  lemma CommandsMore(b: seq<Byte>, more: seq<Byte>)
    ensures SameWithMore(GetCommands(b), GetCommands(b + more), more)
  {
    TakeMore(b, 5, more);
    if |b| >= 5 && b[..5] == COMMAND_MAGIC {
      var b1 := b[5..];
      WordMore(b1, more);
      if GetU32(b1).Some? {
        var b2 := GetU32(b1).value.1;
        WordMore(b2, more);
        if GetU32(b2).Some? {
          var (count, b3) := GetU32(b2).value;
          forall x: seq<Byte> ensures SameWithMore(GetCmd(x), GetCmd(x + more), more) {
            CmdMore(x, more);
          }
          ManyMore(b3, count, GetCmd, more);
          if GetMany(b3, count, GetCmd).Some? {
            WordMore(GetMany(b3, count, GetCmd).value.1, more);
          }
        }
      }
    }
  }

  /** A command message cut off anywhere is refused: nothing is ever made of half a message. */
  lemma TruncatedRefused(c: Commands, k: nat)
    requires Packable(c) && k < |PutCommands(c)|
    ensures GetCommands(PutCommands(c)[..k]).None?
  {
    var b := PutCommands(c);
    assert b[..k] + b[k..] == b && b + [] == b;
    CommandsBack(c, []);
    CommandsMore(b[..k], b[k..]);
  }
}
