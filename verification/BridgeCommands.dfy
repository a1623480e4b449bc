/** The command message: packed by the ROS side, consumed and applied by the simulator. */
module BridgeCommands {
  import opened Options
  import opened Bytes
  import opened BridgeWire
  import opened BridgeRoundTrip

  datatype Pose = Pose(pos: Vec3, quat: Quat)

  datatype Cmd = Cmd(id: seq<Byte>, linear: F32, angular: F32, teleport: Option<Pose>)

  datatype Commands = Commands(tick: U32, cmds: seq<Cmd>, worldReset: bool)

  const COMMAND_MAGIC: seq<Byte> := [0x53, 0x44, 0x43, 0x4D, 0x44]  // "SDCMD"

  const ZERO_F32: F32 := [0, 0, 0, 0]

  function PutPose(p: Pose): seq<Byte> { PutVec3(p.pos) + PutQuat(p.quat) }

  function PutCmd(c: Cmd): seq<Byte> {
    PutId(c.id) + c.linear + c.angular + PutOptional(c.teleport, PutPose)
  }

  function PutCommands(c: Commands): seq<Byte> {
    COMMAND_MAGIC + PutU32(c.tick) + PutU32(AsU32(|c.cmds|)) + PutMany(c.cmds, PutCmd) + Flag(c.worldReset)
  }

  function GetPose(b: seq<Byte>): Parse<Pose> {
    var (pos, b) :- GetVec3(b);
    var (quat, b) :- GetQuat(b);
    Some((Pose(pos, quat), b))
  }

  function GetCmd(b: seq<Byte>): Parse<Cmd> {
    var (id, b) :- GetId(b);
    var (linear, b) :- GetF32(b);
    var (angular, b) :- GetF32(b);
    var (teleport, b) :- GetOptional(b, GetPose);
    Some((Cmd(id, linear, angular, teleport), b))
  }

  function GetCommands(b: seq<Byte>): Parse<Commands> {
    var (magic, b) :- Take(b, 5);
    if magic != COMMAND_MAGIC then None else
      var (tick, b) :- GetU32(b);
      var (count, b) :- GetU32(b);
      var (cmds, b) :- GetMany(b, count, GetCmd);
      var (reset, b) :- GetBool(b);
      Some((Commands(tick, cmds, reset), b))
  }

  // ---- effect on the simulation

  datatype Body = Body(id: seq<Byte>, linear: F32, angular: F32, pose: Pose, previous: Pose, start: Pose)

  /** Moving a robot also resets its controller and its pose history. */
  function Teleport(b: Body, pose: Pose): Body {
    b.(linear := ZERO_F32, angular := ZERO_F32, pose := pose, previous := pose)
  }

  function Obey(b: Body, c: Cmd): Body {
    var v := b.(linear := c.linear, angular := c.angular);
    if c.teleport.Some? then Teleport(v, c.teleport.value) else v
  }

  /** The first robot with this ID; the number of robots when there is none. */
  function FirstWithId(bodies: seq<Body>, id: seq<Byte>): (r: nat)
    ensures r <= |bodies|
    ensures r < |bodies| ==> bodies[r].id == id
    ensures forall j :: 0 <= j < r ==> bodies[j].id != id
  {
    if bodies == [] || bodies[0].id == id then 0 else 1 + FirstWithId(bodies[1..], id)
  }

  function ApplyCmd(bodies: seq<Body>, c: Cmd): seq<Body> {
    var r := FirstWithId(bodies, c.id);
    if r == |bodies| then bodies else bodies[r := Obey(bodies[r], c)]
  }

  function ApplyCmds(bodies: seq<Body>, cmds: seq<Cmd>): seq<Body> {
    if cmds == [] then bodies else ApplyCmd(ApplyCmds(bodies, cmds[..|cmds| - 1]), cmds[|cmds| - 1])
  }

  function ResetAll(bodies: seq<Body>): seq<Body> {
    seq(|bodies|, i requires 0 <= i < |bodies| => Teleport(bodies[i], bodies[i].start))
  }

  function Apply(bodies: seq<Body>, c: Commands): seq<Body> {
    var moved := ApplyCmds(bodies, c.cmds);
    if c.worldReset then ResetAll(moved) else moved
  }

  function VecOf(b: seq<Byte>): Vec3
    requires |b| == 24
  {
    Vec3(b[..8], b[8..16], b[16..24])
  }

  function QuatOf(b: seq<Byte>): Quat
    requires |b| == 32
  {
    Quat(b[..8], b[8..16], b[16..24], b[24..32])
  }

  class Simulator {
    var stream: seq<Byte>     // bytes the peer has sent or will send
    var segments: seq<nat>    // how many bytes each coming `recv` is given at most
    var bodies: seq<Body>

    constructor (stream: seq<Byte>, segments: seq<nat>, bodies: seq<Body>)
      ensures this.stream == stream && this.segments == segments && this.bodies == bodies
    {
      this.stream, this.segments, this.bodies := stream, segments, bodies;
    }

    /** Some of the requested bytes, at least one unless the peer has closed. */
    method Recv(max: nat) returns (got: seq<Byte>)
      requires max > 0
      modifies this`stream, this`segments
      ensures got + stream == old(stream) && |got| <= max
      ensures got == [] ==> stream == []
    {
      var n := if segments == [] || segments[0] == 0 || segments[0] > max then max else segments[0];
      segments := if segments == [] then [] else segments[1..];
      if n > |stream| {
        n := |stream|;
      }
      got := stream[..n];
      stream := stream[n..];
    }

    /** Exactly `n` bytes, however the peer's data is segmented; fails when the peer closes first. */
    method RecvAll(n: nat) returns (ok: bool, data: seq<Byte>)
      modifies this`stream, this`segments
      ensures match Take(old(stream), n)
        case Some((taken, rest)) => ok && data == taken && stream == rest
        case None => !ok
    {
      data := [];
      while |data| < n
        invariant |data| <= n && data + stream == old(stream)
        decreases n - |data|
      {
        var got := Recv(n - |data|);
        if got == [] {
          assert |old(stream)| < n;
          return false, [];
        }
        data := data + got;
      }
      assert old(stream)[..n] == data && old(stream)[n..] == stream;
      ok := true;
    }

    method RecvCmd() returns (ok: bool, c: Cmd)
      modifies this`stream, this`segments
      ensures match GetCmd(old(stream))
        case Some((cmd, rest)) => ok && c == cmd && stream == rest
        case None => !ok
    {
      c := Cmd([], ZERO_F32, ZERO_F32, None);
      var idLen, id, linear, angular, flag;
      ok, idLen := RecvAll(1);
      if !ok { return; }
      ok, id := RecvAll(idLen[0]);
      if !ok { return; }
      ok, linear := RecvAll(4);
      if !ok { return; }
      ok, angular := RecvAll(4);
      if !ok { return; }
      ok, flag := RecvAll(1);
      if !ok { return; }
      c := Cmd(id, linear, angular, None);
      if flag[0] != 0 {
        var pose;
        ok, pose := RecvPose();
        if !ok { return; }
        c := c.(teleport := Some(pose));
      }
    }

    method RecvPose() returns (ok: bool, p: Pose)
      modifies this`stream, this`segments
      ensures match GetPose(old(stream))
        case Some((pose, rest)) => ok && p == pose && stream == rest
        case None => !ok
    {
      var zero: F64 := [0, 0, 0, 0, 0, 0, 0, 0];
      p := Pose(Vec3(zero, zero, zero), Quat(zero, zero, zero, zero));
      ghost var b := stream;
      var pos, quat;
      ok, pos := RecvAll(24);
      PoseBlocks(b);
      if !ok { return; }
      ok, quat := RecvAll(32);
      if !ok { return; }
      p := Pose(VecOf(pos), QuatOf(quat));
    }

    method ObeyCommand(c: Cmd)
      modifies this`bodies
      ensures bodies == ApplyCmd(old(bodies), c)
    {
      var r := 0;
      while r < |bodies|
        invariant r <= |bodies| && bodies == old(bodies) && forall j :: 0 <= j < r ==> bodies[j].id != c.id
      {
        if bodies[r].id == c.id {
          bodies := bodies[r := bodies[r].(linear := c.linear, angular := c.angular)];
          if c.teleport.Some? {
            bodies := bodies[r := Teleport(bodies[r], c.teleport.value)];
          }
          break;
        }
        r := r + 1;
      }
    }

    /** Consumes one whole command message and applies it; on a short or foreign message it raises. */
    method HandleCommands() returns (ok: bool)
      modifies this
      ensures match GetCommands(old(stream))
        case Some((c, rest)) => ok && stream == rest && bodies == Apply(old(bodies), c)
        case None => !ok
    {
      var magic, tick, count, flag;
      ok, magic := RecvAll(5);
      if !ok || magic != COMMAND_MAGIC {
        return false;
      }
      ok, tick := RecvAll(4);
      if !ok { return; }
      ok, count := RecvAll(4);
      if !ok { return; }
      ghost var afterHead := stream;
      var robots := U32Value(count[0], count[1], count[2], count[3]);
      ghost var cmds: seq<Cmd> := [];
      for i := 0 to robots
        invariant GetMany(afterHead, i, GetCmd) == Some((cmds, stream))
        invariant bodies == ApplyCmds(old(bodies), cmds)
      {
        var c;
        ok, c := RecvCmd();
        if !ok {
          ManyShort(afterHead, i + 1, robots, GetCmd);
          return;
        }
        assert (cmds + [c])[..|cmds|] == cmds;
        cmds := cmds + [c];
        ObeyCommand(c);
      }
      ok, flag := RecvAll(1);
      if !ok { return; }
      if flag[0] != 0 {
        bodies := ResetAll(bodies);
      }
    }
  }

  lemma VecBlock(b: seq<Byte>)
    ensures GetVec3(b).Some? <==> |b| >= 24
    ensures |b| >= 24 ==> GetVec3(b) == Some((VecOf(b[..24]), b[24..]))
  {
    if |b| >= 24 {
      assert b[8..][8..] == b[16..] && b[16..][8..] == b[24..];
      assert b[..8] == b[..24][..8] && b[8..][..8] == b[..24][8..16] && b[16..][..8] == b[..24][16..24];
    }
  }

  lemma QuatBlock(b: seq<Byte>)
    ensures GetQuat(b).Some? <==> |b| >= 32
    ensures |b| >= 32 ==> GetQuat(b) == Some((QuatOf(b[..32]), b[32..]))
  {
    if |b| >= 32 {
      assert b[8..][8..] == b[16..] && b[16..][8..] == b[24..] && b[24..][8..] == b[32..];
      assert b[..8] == b[..32][..8] && b[8..][..8] == b[..32][8..16];
      assert b[16..][..8] == b[..32][16..24] && b[24..][..8] == b[..32][24..32];
    }
  }

  lemma PoseBlocks(b: seq<Byte>)
    ensures GetPose(b).Some? <==> |b| >= 56
    ensures |b| >= 56 ==> GetPose(b) == Some((Pose(VecOf(b[..24]), QuatOf(b[24..][..32])), b[24..][32..]))
  {
    VecBlock(b);
    if |b| >= 24 {
      QuatBlock(b[24..]);
    }
  }

  /** A list of blocks cannot be read when one of its prefixes cannot. */
  lemma {:induction false} ManyShort<T>(b: seq<Byte>, m: nat, n: nat, get: seq<Byte> -> Parse<T>)
    requires m <= n && GetMany(b, m, get).None?
    ensures GetMany(b, n, get).None?
  {
    if m < n {
      ManyShort(b, m, n - 1, get);
    }
  }

  // ---- both ends agree

  lemma PoseBack(p: Pose, rest: seq<Byte>)
    ensures GetPose(PutPose(p) + rest) == Some((p, rest))
  {
    Assoc(PutVec3(p.pos), PutQuat(p.quat), rest);
    Vec3Back(p.pos, PutQuat(p.quat) + rest);
    QuatBack(p.quat, rest);
  }

  lemma CmdBack(c: Cmd, rest: seq<Byte>)
    requires |c.id| < 256
    ensures GetCmd(PutCmd(c) + rest) == Some((c, rest))
  {
    var id, t := PutId(c.id), PutOptional(c.teleport, PutPose);
    Assoc(id + c.linear + c.angular, t, rest);
    Assoc(id + c.linear, c.angular, t + rest);
    Assoc(id, c.linear, c.angular + (t + rest));
    IdBack(c.id, c.linear + (c.angular + (t + rest)));
    assert c.id[..|c.id| % 256] == c.id;
    F32Back(c.linear, c.angular + (t + rest));
    F32Back(c.angular, t + rest);
    if c.teleport.Some? {
      PoseBack(c.teleport.value, rest);
    }
    OptionalBack(c.teleport, PutPose, GetPose, c.teleport, rest);
  }

  /** What the ROS side can pack at all: IDs of at most 255 bytes (they come from observations) and a 32-bit count. */
  predicate Packable(c: Commands) {
    |c.cmds| < U32_SIZE && forall i :: 0 <= i < |c.cmds| ==> |c.cmds[i].id| < 256
  }

  /** A packed command message is read back whole, and nothing after it is touched. */
  lemma CommandsBack(c: Commands, rest: seq<Byte>)
    requires Packable(c)
    ensures GetCommands(PutCommands(c) + rest) == Some((c, rest))
  {
    var t, n, body, f := PutU32(c.tick), PutU32(AsU32(|c.cmds|)), PutMany(c.cmds, PutCmd), Flag(c.worldReset);
    Cat5(COMMAND_MAGIC, t, n, body, f, rest);
    TakeBack(COMMAND_MAGIC, t + (n + (body + (f + rest))));
    U32Back(c.tick, n + (body + (f + rest)));
    U32Back(AsU32(|c.cmds|), body + (f + rest));
    forall i | 0 <= i < |c.cmds| ensures ReadsBack(c.cmds[i], c.cmds[i], PutCmd, GetCmd) {
      forall x: seq<Byte> ensures GetCmd(PutCmd(c.cmds[i]) + x) == Some((c.cmds[i], x)) {
        CmdBack(c.cmds[i], x);
      }
    }
    ManyBack(c.cmds, c.cmds, PutCmd, GetCmd, f + rest);
    BoolBack(c.worldReset, rest);
  }

  lemma {:induction false} ApplyKeepsIds(bodies: seq<Body>, cmds: seq<Cmd>)
    ensures |ApplyCmds(bodies, cmds)| == |bodies|
    ensures forall j :: 0 <= j < |bodies| ==> ApplyCmds(bodies, cmds)[j].id == bodies[j].id
  {
    if cmds != [] {
      ApplyKeepsIds(bodies, cmds[..|cmds| - 1]);
    }
  }

  /** A robot keeps its state unless some command names its ID. */
  lemma {:induction false} UnnamedUntouched(bodies: seq<Body>, cmds: seq<Cmd>, i: nat)
    requires i < |bodies| && forall k :: 0 <= k < |cmds| ==> cmds[k].id != bodies[i].id
    ensures |ApplyCmds(bodies, cmds)| == |bodies| && ApplyCmds(bodies, cmds)[i] == bodies[i]
  {
    ApplyKeepsIds(bodies, cmds);
    if cmds != [] {
      UnnamedUntouched(bodies, cmds[..|cmds| - 1], i);
    }
  }

  lemma {:induction false} ApplyAppend(bodies: seq<Body>, a: seq<Cmd>, b: seq<Cmd>)
    ensures ApplyCmds(bodies, a + b) == ApplyCmds(ApplyCmds(bodies, a), b)
  {
    if b == [] {
      assert a + b == a;
    } else {
      assert (a + b)[..|a + b| - 1] == a + b[..|b| - 1];
      ApplyAppend(bodies, a, b[..|b| - 1]);
    }
  }

  /** The robot a command reaches ends as the last command for its ID says; a teleported robot stands still. */
  lemma LastCommandWins(bodies: seq<Body>, before: seq<Cmd>, c: Cmd, after: seq<Cmd>, i: nat)
    requires i < |bodies| && bodies[i].id == c.id && forall j :: 0 <= j < i ==> bodies[j].id != c.id
    requires forall k :: 0 <= k < |after| ==> after[k].id != c.id
    ensures |ApplyCmds(bodies, before + [c] + after)| == |bodies|
    ensures var r := ApplyCmds(bodies, before + [c] + after)[i];
      match c.teleport
      case None => r.linear == c.linear && r.angular == c.angular
      case Some(pose) => r.linear == r.angular == [0, 0, 0, 0] && r.pose == pose && r.previous == pose
  {
    var mid := ApplyCmds(bodies, before);
    ApplyKeepsIds(bodies, before);
    SameIdsSameFirst(bodies, mid, c.id);
    ApplyAppend(bodies, before + [c], after);
    assert (before + [c])[..|before|] == before;
    var done := ApplyCmds(bodies, before + [c]);
    assert done == ApplyCmd(mid, c);
    UnnamedUntouched(done, after, i);
  }

  lemma {:induction false} SameIdsSameFirst(a: seq<Body>, b: seq<Body>, id: seq<Byte>)
    requires |a| == |b| && forall j :: 0 <= j < |a| ==> a[j].id == b[j].id
    ensures FirstWithId(a, id) == FirstWithId(b, id)
  {
    if a != [] {
      SameIdsSameFirst(a[1..], b[1..], id);
    }
  }

  /** No command changes who a robot is or where it starts. */
  lemma {:induction false} IdentityKept(bodies: seq<Body>, cmds: seq<Cmd>, i: nat)
    requires i < |bodies|
    ensures |ApplyCmds(bodies, cmds)| == |bodies|
    ensures var b := ApplyCmds(bodies, cmds)[i]; b.id == bodies[i].id && b.start == bodies[i].start
  {
    if cmds != [] {
      IdentityKept(bodies, cmds[..|cmds| - 1], i);
    }
  }

  /** Velocity commands alone leave a robot where it is, and its pose history with it. */
  lemma {:induction false} PoseKept(bodies: seq<Body>, cmds: seq<Cmd>, i: nat)
    requires i < |bodies|
    requires forall k :: 0 <= k < |cmds| && cmds[k].id == bodies[i].id ==> cmds[k].teleport.None?
    ensures |ApplyCmds(bodies, cmds)| == |bodies|
    ensures var b := ApplyCmds(bodies, cmds)[i]; b.pose == bodies[i].pose && b.previous == bodies[i].previous
  {
    if cmds != [] {
      PoseKept(bodies, cmds[..|cmds| - 1], i);
      IdentityKept(bodies, cmds[..|cmds| - 1], i);
    }
  }

  /** The pose and previous pose of a robot are those of the last teleport that reached it. */
  lemma LastTeleportWins(bodies: seq<Body>, before: seq<Cmd>, c: Cmd, after: seq<Cmd>, i: nat)
    requires i < |bodies| && bodies[i].id == c.id && forall j :: 0 <= j < i ==> bodies[j].id != c.id
    requires c.teleport.Some? && forall k :: 0 <= k < |after| && after[k].id == c.id ==> after[k].teleport.None?
    ensures |ApplyCmds(bodies, before + [c] + after)| == |bodies|
    ensures var b := ApplyCmds(bodies, before + [c] + after)[i];
      b.pose == c.teleport.value && b.previous == c.teleport.value
  {
    assert before + [c] + [] == before + [c];
    LastCommandWins(bodies, before, c, [], i);
    ApplyAppend(bodies, before + [c], after);
    IdentityKept(bodies, before + [c], i);
    PoseKept(ApplyCmds(bodies, before + [c]), after, i);
  }

  /** Of two robots with one ID only the first is ever reached. */
  lemma {:induction false} SecondNamesakeUntouched(bodies: seq<Body>, cmds: seq<Cmd>, j: nat, i: nat)
    requires j < i < |bodies| && bodies[j].id == bodies[i].id
    ensures |ApplyCmds(bodies, cmds)| == |bodies| && ApplyCmds(bodies, cmds)[i] == bodies[i]
  {
    if cmds != [] {
      SecondNamesakeUntouched(bodies, cmds[..|cmds| - 1], j, i);
      ApplyKeepsIds(bodies, cmds[..|cmds| - 1]);
    }
  }

  /** A message with neither teleports nor a reset moves nobody. */
  lemma PlainMessageMovesNobody(bodies: seq<Body>, c: Commands, i: nat)
    requires i < |bodies| && !c.worldReset && forall k :: 0 <= k < |c.cmds| ==> c.cmds[k].teleport.None?
    ensures |Apply(bodies, c)| == |bodies|
    ensures var b := Apply(bodies, c)[i];
      b.id == bodies[i].id && b.start == bodies[i].start && b.pose == bodies[i].pose && b.previous == bodies[i].previous
  {
    PoseKept(bodies, c.cmds, i);
    IdentityKept(bodies, c.cmds, i);
  }

  /** A world reset leaves every robot at its start pose, still, with no pose history to differentiate. */
  lemma ResetWins(bodies: seq<Body>, c: Commands, i: nat)
    requires c.worldReset && i < |bodies|
    ensures |Apply(bodies, c)| == |bodies|
    ensures var b, start := Apply(bodies, c)[i], bodies[i].start;
      && b.id == bodies[i].id && b.start == start && b.pose == start && b.previous == start
      && b.linear == [0, 0, 0, 0] && b.angular == [0, 0, 0, 0]
  {
    IdentityKept(bodies, c.cmds, i);
  }
}
