/** The framing seen from the writing side: interleaved packets put on the wire are the packets that are read. */
module RtpWriter {
  import opened Bytes
  import opened RtpFraming

  /** One interleaved packet: `$`, the channel, the length in network byte order, the payload. */
  function Written(f: Frame): seq<Byte>
    requires |f.payload| < 65536
  {
    [0x24, f.channel, |f.payload| / 256, |f.payload| % 256] + f.payload
  }

  /** A packet with what lies before it on the wire. */
  datatype Piece = Piece(garbage: seq<Byte>, frame: Frame)

  predicate Sendable(pieces: seq<Piece>) {
    forall k :: 0 <= k < |pieces| ==> 0x24 !in pieces[k].garbage && |pieces[k].frame.payload| < 65536
  }

  function WrittenAll(pieces: seq<Piece>): seq<Byte>
    requires Sendable(pieces)
  {
    if pieces == [] then [] else pieces[0].garbage + (Written(pieces[0].frame) + WrittenAll(pieces[1..]))
  }

  function Payloads(pieces: seq<Piece>): (fs: seq<Frame>)
    ensures |fs| == |pieces| && forall k :: 0 <= k < |fs| ==> fs[k] == pieces[k].frame
  {
    if pieces == [] then [] else [pieces[0].frame] + Payloads(pieces[1..])
  }

  /** Nothing, or the beginning of a packet that has not arrived whole. */
  predicate Unfinished(t: seq<Byte>) {
    t == [] || (t[0] == 0x24 && (|t| < 4 || |t| < 4 + 256 * t[2] as int + t[3] as int))
  }

  lemma {:induction false} GarbageSkipped(garbage: seq<Byte>, b: seq<Byte>)
    requires 0x24 !in garbage
    ensures Sync(garbage + b) == Sync(b)
  {
    if garbage == [] {
      assert garbage + b == b;
    } else {
      assert (garbage + b)[1..] == garbage[1..] + b;
      GarbageSkipped(garbage[1..], b);
    }
  }

  /** A packet written after any garbage without a `$` is read back, and reading goes on right behind it. */
  lemma FrameBack(garbage: seq<Byte>, channel: Byte, payload: seq<Byte>, more: seq<Byte>)
    requires 0x24 !in garbage && |payload| < 65536
    ensures var b := garbage + [0x24, channel, |payload| / 256, |payload| % 256] + payload + more;
      Frames(b) == [Frame(channel, payload)] + Frames(more) && Rest(b) == Rest(more)
  {
    var packet := [0x24, channel, |payload| / 256, |payload| % 256] + payload;
    var s := packet + more;
    assert garbage + [0x24, channel, |payload| / 256, |payload| % 256] + payload + more == garbage + s;
    GarbageSkipped(garbage, s);
    OnlySyncMatters(garbage + s, s);
    assert Sync(s) == s && FrameEnd(s) == |packet|;
    assert s[4..|packet|] == payload && s[|packet|..] == more;
  }

  lemma NoFrameIn(garbage: seq<Byte>, t: seq<Byte>)
    requires 0x24 !in garbage && Unfinished(t)
    ensures Frames(garbage + t) == [] && Rest(garbage + t) == t
  {
    GarbageSkipped(garbage, t);
    OnlySyncMatters(garbage + t, t);
    assert Sync(t) == t;
  }

  /** Any packets, with any garbage between them, are read back in order; an unfinished packet is kept for later. */
  lemma {:induction false} StreamBack(pieces: seq<Piece>, garbage: seq<Byte>, t: seq<Byte>)
    requires Sendable(pieces) && 0x24 !in garbage && Unfinished(t)
    ensures Frames(WrittenAll(pieces) + (garbage + t)) == Payloads(pieces)
    ensures Rest(WrittenAll(pieces) + (garbage + t)) == t
  {
    var tail := garbage + t;
    if pieces == [] {
      assert WrittenAll(pieces) + tail == tail;
      NoFrameIn(garbage, t);
    } else {
      var piece := pieces[0];
      StreamBack(pieces[1..], garbage, t);
      var n := |piece.frame.payload|;
      FrameBack(piece.garbage, piece.frame.channel, piece.frame.payload, WrittenAll(pieces[1..]) + tail);
      Regroup(piece.garbage, [0x24, piece.frame.channel, n / 256, n % 256], piece.frame.payload,
        WrittenAll(pieces[1..]), tail);
    }
  }

  lemma Regroup(g: seq<Byte>, head: seq<Byte>, payload: seq<Byte>, rest: seq<Byte>, tail: seq<Byte>)
    ensures g + ((head + payload) + rest) + tail == g + head + payload + (rest + tail)
  {
  }

  /** Conversely every byte stream is such a sequence of packets and garbage, so reading loses nothing but garbage. */
  lemma {:induction false} EveryStreamIsWritten(b: seq<Byte>)
      returns (pieces: seq<Piece>, garbage: seq<Byte>, t: seq<Byte>)
    ensures Sendable(pieces) && 0x24 !in garbage && Unfinished(t)
    ensures b == WrittenAll(pieces) + (garbage + t)
    decreases |b|
  {
    var s: seq<Byte>;
    garbage, s := BeforeMarker(b);
    if |s| >= 4 && 4 + 256 * s[2] as int + s[3] as int <= |s| {
      var n := 256 * s[2] as int + s[3] as int;
      var first := Piece(garbage, Frame(s[1], s[4..4 + n]));
      assert s[..4] == [0x24, s[1], n / 256, n % 256];
      assert s == Written(first.frame) + s[4 + n..];
      pieces, garbage, t := EveryStreamIsWritten(s[4 + n..]);
      var later := pieces;
      pieces := [first] + later;
      assert pieces[1..] == later;
      assert b == WrittenAll(pieces) + (garbage + t);
    } else {
      pieces, t := [], s;
    }
  }

  lemma {:induction false} BeforeMarker(b: seq<Byte>) returns (garbage: seq<Byte>, s: seq<Byte>)
    ensures b == garbage + s && 0x24 !in garbage && (s == [] || s[0] == 0x24)
  {
    if b == [] || b[0] == 0x24 {
      garbage, s := [], b;
    } else {
      garbage, s := BeforeMarker(b[1..]);
      garbage := [b[0]] + garbage;
    }
  }

  /** Sequence numbers are read as they are written: high byte first, in bytes 2 and 3. */
  lemma SequenceBack(channel: Byte, payload: seq<Byte>, n: nat)
    requires n < 65536 && |payload| >= 4 && payload[2] == n / 256 && payload[3] == n % 256
    ensures Sequence(Frame(channel, payload)) == n
  {
  }

  /** The packets that count: an even channel, room for the fixed header, and first bits 10. */
  lemma RtpExactly(f: Frame)
    ensures IsRtp(f) <==> f.channel % 2 == 0 && |f.payload| >= 12 && 0x80 <= f.payload[0] <= 0xBF
  {
  }

  lemma {:induction false} CountsAdd(a: seq<Frame>, b: seq<Frame>)
    ensures RtpCount(a + b) == RtpCount(a) + RtpCount(b) && RtpBytes(a + b) == RtpBytes(a) + RtpBytes(b)
  {
    if b == [] {
      assert a + b == a;
    } else {
      assert (a + b)[..|a + b| - 1] == a + b[..|b| - 1];
      CountsAdd(a, b[..|b| - 1]);
    }
  }

  /** What one more packet adds to the counts. */
  lemma CountedPacket(fs: seq<Frame>, f: Frame)
    ensures if f.channel % 2 == 0 && |f.payload| >= 12 && 0x80 <= f.payload[0] <= 0xBF
      then RtpCount(fs + [f]) == RtpCount(fs) + 1 && RtpBytes(fs + [f]) == RtpBytes(fs) + |f.payload|
      else RtpCount(fs + [f]) == RtpCount(fs) && RtpBytes(fs + [f]) == RtpBytes(fs)
  {
    CountsAdd(fs, [f]);
    assert [f][..0] == [];
  }

  /** Packets `i` and `j` both count and differ in the two bytes of their sequence number. */
  predicate TwoNumbers(pieces: seq<Piece>, i: nat, j: nat)
    requires i < |pieces| && j < |pieces|
  {
    var f, g := pieces[i].frame, pieces[j].frame;
    && f.channel % 2 == 0 && |f.payload| >= 12 && 0x80 <= f.payload[0] <= 0xBF
    && g.channel % 2 == 0 && |g.payload| >= 12 && 0x80 <= g.payload[0] <= 0xBF
    && f.payload[2..4] != g.payload[2..4]
  }

  /** Equal sequence numbers are equal bytes. */
  lemma NumberBytes(f: Frame, g: Frame)
    requires |f.payload| >= 4 && |g.payload| >= 4
    ensures Sequence(f) == Sequence(g) <==> f.payload[2..4] == g.payload[2..4]
  {
    var p, q := f.payload[2..4], g.payload[2..4];
    assert p == q <==> p[0] == q[0] && p[1] == q[1];
  }

  lemma TwoNumbersProgress(fs: seq<Frame>, f: Frame, g: Frame)
    requires f in fs && g in fs && IsRtp(f) && IsRtp(g) && Sequence(f) != Sequence(g)
    ensures |Sequences(fs)| >= 2
  {
    var a, b := Sequence(f), Sequence(g);
    assert a in Sequences(fs) && b in Sequences(fs);
    SubsetCard({a, b}, Sequences(fs));
  }

  lemma TwoElements(s: set<nat>) returns (a: nat, b: nat)
    requires |s| >= 2
    ensures a in s && b in s && a != b
  {
    a :| a in s;
    assert |s - {a}| == |s| - 1;
    b :| b in s - {a};
  }

  lemma PacketNumbered(fs: seq<Frame>, a: nat) returns (i: nat)
    requires a in Sequences(fs)
    ensures i < |fs| && IsRtp(fs[i]) && Sequence(fs[i]) == a
  {
    var f :| f in fs && IsRtp(f) && Sequence(f) == a;
    i :| 0 <= i < |fs| && fs[i] == f;
  }

  lemma ProgressHasTwoNumbers(fs: seq<Frame>) returns (i: nat, j: nat)
    requires |Sequences(fs)| >= 2
    ensures i < |fs| && j < |fs| && IsRtp(fs[i]) && IsRtp(fs[j]) && Sequence(fs[i]) != Sequence(fs[j])
  {
    var a, b := TwoElements(Sequences(fs));
    i := PacketNumbered(fs, a);
    j := PacketNumbered(fs, b);
  }

  lemma TwoNumbersMeans(pieces: seq<Piece>, i: nat, j: nat)
    requires i < |pieces| && j < |pieces|
    ensures TwoNumbers(pieces, i, j) <==> var f, g := pieces[i].frame, pieces[j].frame;
      IsRtp(f) && IsRtp(g) && Sequence(f) != Sequence(g)
  {
    var f, g := pieces[i].frame, pieces[j].frame;
    RtpExactly(f);
    RtpExactly(g);
    if |f.payload| >= 12 && |g.payload| >= 12 {
      NumberBytes(f, g);
    }
  }

  /** The verdict, for any packets and garbage on the wire: two RTP packets whose number bytes differ. */
  lemma VerdictOnPackets(pieces: seq<Piece>, garbage: seq<Byte>, t: seq<Byte>)
    requires Sendable(pieces) && 0x24 !in garbage && Unfinished(t)
    ensures Progressing(WrittenAll(pieces) + (garbage + t))
      <==> exists i: nat, j: nat :: i < |pieces| && j < |pieces| && TwoNumbers(pieces, i, j)
  {
    StreamBack(pieces, garbage, t);
    var fs := Payloads(pieces);
    if |Sequences(fs)| >= 2 {
      var i, j := ProgressHasTwoNumbers(fs);
      TwoNumbersMeans(pieces, i, j);
    }
    if i: nat, j: nat :| i < |pieces| && j < |pieces| && TwoNumbers(pieces, i, j) {
      TwoNumbersMeans(pieces, i, j);
      assert fs[i] in fs && fs[j] in fs;
      TwoNumbersProgress(fs, fs[i], fs[j]);
    }
  }
}
