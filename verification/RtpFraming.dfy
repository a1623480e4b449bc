/** Interleaved RTP over an RTSP connection (section 10.12 of RFC 2326), with resynchronisation on garbage. */
module RtpFraming {
  import opened Bytes

  const MARKER: Byte := 0x24

  datatype Frame = Frame(channel: Byte, payload: seq<Byte>)

  /** The buffer from its first `$` on; empty when there is none. */
  function Sync(b: seq<Byte>): (s: seq<Byte>)
    ensures |s| <= |b| && (s != [] ==> s[0] == MARKER)
  {
    if b == [] || b[0] == MARKER then b else Sync(b[1..])
  }

  function BigEndian(hi: Byte, lo: Byte): nat {
    (hi as int) * 256 + lo as int
  }

  function FrameEnd(s: seq<Byte>): nat
    requires |s| >= 4
  {
    4 + BigEndian(s[2], s[3])
  }

  /** A synchronised buffer that holds a whole frame. */
  predicate HasFrame(s: seq<Byte>) {
    |s| >= 4 && FrameEnd(s) <= |s|
  }

  /** The framing itself: the frames of a byte stream, whatever lies between them. */
  function Frames(b: seq<Byte>): seq<Frame>
    decreases |b|
  {
    var s := Sync(b);
    if !HasFrame(s) then [] else [Frame(s[1], s[4..FrameEnd(s)])] + Frames(s[FrameEnd(s)..])
  }

  /** What is left of a stream once its frames are taken: empty, or an incomplete frame. */
  function Rest(b: seq<Byte>): seq<Byte>
    decreases |b|
  {
    var s := Sync(b);
    if !HasFrame(s) then s else Rest(s[FrameEnd(s)..])
  }

  lemma {:induction false} SyncAppend(a: seq<Byte>, b: seq<Byte>)
    ensures Sync(a + b) == if Sync(a) == [] then Sync(b) else Sync(a) + b
  {
    if a == [] {
      assert a + b == b;
    } else if a[0] != MARKER {
      assert (a + b)[1..] == a[1..] + b;
      SyncAppend(a[1..], b);
    }
  }

  lemma SyncIdempotent(b: seq<Byte>)
    ensures Sync(Sync(b)) == Sync(b)
  {
  }

  /** A stream that continues after `a` continues after what `a` left over. */
  lemma {:induction false} FramesAppend(a: seq<Byte>, b: seq<Byte>)
    ensures Frames(a + b) == Frames(a) + Frames(Rest(a) + b)
    ensures Rest(a + b) == Rest(Rest(a) + b)
    decreases |a|
  {
    var s := Sync(a);
    SyncAppend(a, b);
    if HasFrame(s) {
      var t := Sync(a + b);
      assert t == s + b;
      assert t[4..FrameEnd(t)] == s[4..FrameEnd(s)] && t[FrameEnd(t)..] == s[FrameEnd(s)..] + b;
      FramesAppend(s[FrameEnd(s)..], b);
    } else {
      SyncIdempotent(a);
      SyncAppend(s, b);
      OnlySyncMatters(a + b, s + b);
    }
  }

  lemma OnlySyncMatters(x: seq<Byte>, y: seq<Byte>)
    requires Sync(x) == Sync(y)
    ensures Frames(x) == Frames(y) && Rest(x) == Rest(y)
  {
  }

  // ---- the packet loop

  /** An even channel, at least a fixed RTP header, version 2 (section 5.1 of RFC 3550). */
  predicate IsRtp(f: Frame) {
    f.channel % 2 == 0 && |f.payload| >= 12 && f.payload[0] as int / 64 == 2
  }

  function Sequence(f: Frame): nat
    requires |f.payload| >= 4
  {
    BigEndian(f.payload[2], f.payload[3])
  }

  function RtpCount(fs: seq<Frame>): nat {
    if fs == [] then 0 else RtpCount(fs[..|fs| - 1]) + if IsRtp(fs[|fs| - 1]) then 1 else 0
  }

  function RtpBytes(fs: seq<Frame>): nat {
    if fs == [] then 0 else RtpBytes(fs[..|fs| - 1]) + if IsRtp(fs[|fs| - 1]) then |fs[|fs| - 1].payload| else 0
  }

  function Sequences(fs: seq<Frame>): set<nat> {
    set f | f in fs && IsRtp(f) :: Sequence(f)
  }

  lemma SequencesExtend(fs: seq<Frame>, f: Frame)
    ensures Sequences(fs + [f]) == Sequences(fs) + if IsRtp(f) then {Sequence(f)} else {}
  {
  }

  /** The loop has taken `frames` beyond `before` out of `all` and still holds `buffered`. */
  ghost predicate Progress(before: seq<Frame>, all: seq<Byte>, frames: seq<Frame>, buffered: seq<Byte>) {
    before + Frames(all) == frames + Frames(buffered) && Rest(all) == Rest(buffered)
  }

  lemma SkipGarbage(before: seq<Frame>, all: seq<Byte>, frames: seq<Frame>, buffered: seq<Byte>)
    requires Progress(before, all, frames, buffered)
    ensures Progress(before, all, frames, Sync(buffered))
  {
    SyncIdempotent(buffered);
    OnlySyncMatters(buffered, Sync(buffered));
  }

  lemma TakeFrame(before: seq<Frame>, all: seq<Byte>, frames: seq<Frame>, b: seq<Byte>)
    requires Progress(before, all, frames, b) && HasFrame(b) && b[0] == MARKER
    ensures Progress(before, all, frames + [Frame(b[1], b[4..FrameEnd(b)])], b[FrameEnd(b)..])
  {
    assert Sync(b) == b;
  }

  class PacketCounter {
    var buffered: seq<Byte>
    var packetCount: nat
    var byteCount: nat
    var sequences: set<nat>
    ghost var frames: seq<Frame>  // all frames taken so far

    constructor (buffered: seq<Byte>)
      ensures this.buffered == buffered && frames == [] && Counted()
    {
      this.buffered, packetCount, byteCount, sequences, frames := buffered, 0, 0, {}, [];
    }

    ghost predicate Counted()
      reads this
    {
      packetCount == RtpCount(frames) && byteCount == RtpBytes(frames) && sequences == Sequences(frames)
    }

    method Count(f: Frame)
      requires Counted()
      modifies this
      ensures Counted() && frames == old(frames) + [f] && buffered == old(buffered)
    {
      SequencesExtend(frames, f);
      assert (frames + [f])[..|frames|] == frames;
      if IsRtp(f) {
        packetCount := packetCount + 1;
        byteCount := byteCount + |f.payload|;
        sequences := sequences + {Sequence(f)};
      }
      frames := frames + [f];
    }

    /**
     * Appends a received chunk and takes every complete frame. What stays buffered is the stream's rest, up to at most
     * three bytes of garbage in front that are too short to be searched.
     */
    method Receive(chunk: seq<Byte>)
      requires Counted()
      modifies this
      ensures Counted()
      ensures frames == old(frames) + Frames(old(buffered) + chunk)
      ensures Sync(buffered) == Rest(old(buffered) + chunk)
      ensures buffered == Sync(buffered) || |buffered| < 4
    {
      ghost var all := buffered + chunk;
      ghost var before := frames;
      buffered := buffered + chunk;
      while |buffered| >= 4
        invariant Counted() && Progress(before, all, frames, buffered)
        decreases |buffered|
      {
        if buffered[0] != MARKER {
          SkipGarbage(before, all, frames, buffered);
          buffered := Resync();
          if |buffered| < 4 {
            break;
          }
        }
        var channel := buffered[1];
        var packetLength := BigEndian(buffered[2], buffered[3]);
        if |buffered| < 4 + packetLength {
          break;
        }
        TakeFrame(before, all, frames, buffered);
        var packet := buffered[4..4 + packetLength];
        buffered := buffered[4 + packetLength..];
        Count(Frame(channel, packet));
      }
      NoFrameLeft(buffered);
    }

    /** Drops everything before the first `$`, all of it when there is none. */
    method Resync() returns (b: seq<Byte>)
      ensures b == Sync(buffered)
    {
      var i := 0;
      while i < |buffered| && buffered[i] != MARKER
        invariant i <= |buffered| && Sync(buffered[i..]) == Sync(buffered)
      {
        assert buffered[i..][1..] == buffered[i + 1..];
        i := i + 1;
      }
      b := buffered[i..];
    }
  }

  lemma NoFrameLeft(b: seq<Byte>)
    requires |b| < 4 || !HasFrame(Sync(b))
    ensures Frames(b) == [] && Rest(b) == Sync(b)
  {
  }

  /** One `recv`: data, a timeout, or the peer's close (an empty read). */
  datatype Read = Data(chunk: seq<Byte>) | Timeout

  /** The bytes received before the peer closed, or before the deadline ended the reads. */
  function Stream(recvs: seq<Read>): seq<Byte> {
    if recvs == [] then []
    else if recvs[0].Timeout? then Stream(recvs[1..])
    else if recvs[0].chunk == [] then []
    else recvs[0].chunk + Stream(recvs[1..])
  }

  /** A timeout adds nothing, data is appended, and the peer's close ends the stream whatever is listed after it. */
  lemma {:induction false} StreamReads(a: seq<Read>, chunk: seq<Byte>, b: seq<Read>)
    requires Data([]) !in a
    ensures Stream(a + [Timeout] + b) == Stream(a) + Stream(b)
    ensures chunk != [] ==> Stream(a + [Data(chunk)] + b) == Stream(a) + chunk + Stream(b)
    ensures Stream(a + [Data([])] + b) == Stream(a)
  {
    if a == [] {
      assert [] + [Timeout] + b == [Timeout] + b && [] + [Data(chunk)] + b == [Data(chunk)] + b;
      assert [] + [Data([])] + b == [Data([])] + b;
    } else {
      assert forall r: Read :: (a + [r] + b)[1..] == a[1..] + [r] + b;
      StreamReads(a[1..], chunk, b);
    }
  }

  lemma StreamPrefix(recvs: seq<Read>, n: nat)
    requires n < |recvs| && Data([]) !in recvs[..n]
    ensures Stream(recvs[..n + 1]) == Stream(recvs[..n]) + if recvs[n].Timeout? then [] else recvs[n].chunk
  {
    var a := recvs[..n];
    assert recvs[..n + 1] == a + [recvs[n]] + [];
    StreamReads(a, if recvs[n].Timeout? then [] else recvs[n].chunk, []);
  }

  /** Two different sequence numbers in a prefix of the stream stay two. */
  lemma VerdictMonotone(b: seq<Byte>, more: seq<Byte>)
    ensures Frames(b) <= Frames(b + more)
    ensures |Sequences(Frames(b))| <= |Sequences(Frames(b + more))|
  {
    FramesAppend(b, more);
    var small, large := Sequences(Frames(b)), Sequences(Frames(b + more));
    assert small <= large;
    SubsetCard(small, large);
  }

  lemma SubsetCard(a: set<nat>, b: set<nat>)
    requires a <= b
    ensures |a| <= |b|
  {
    if a != {} {
      var x :| x in a;
      SubsetCard(a - {x}, b - {x});
    }
  }

  lemma {:induction false} RestIsSynced(b: seq<Byte>)
    ensures Sync(Rest(b)) == Rest(b)
    decreases |b|
  {
    var s := Sync(b);
    if HasFrame(s) {
      RestIsSynced(s[FrameEnd(s)..]);
    }
  }

  /** Buffers that differ only in garbage before the first `$` go on alike. */
  lemma GarbageIsIrrelevant(a: seq<Byte>, b: seq<Byte>, more: seq<Byte>)
    requires Sync(a) == Sync(b)
    ensures Frames(a + more) == Frames(b + more) && Rest(a + more) == Rest(b + more)
  {
    SyncAppend(a, more);
    SyncAppend(b, more);
    OnlySyncMatters(a + more, b + more);
  }

  /** What the loop gets to see: bytes left by the last response are looked at only once more data arrives. */
  function Seen(buffered: seq<Byte>, recvs: seq<Read>): seq<Byte> {
    if Stream(recvs) == [] then [] else buffered + Stream(recvs)
  }

  /** Two different sequence numbers have been seen. */
  predicate Progressing(b: seq<Byte>) {
    |Sequences(Frames(b))| >= 2
  }

  /** Not looking at the leftover changes the verdict exactly when nothing follows it and it was enough by itself. */
  lemma LeftoverMatters(buffered: seq<Byte>, recvs: seq<Read>)
    ensures (Progressing(Seen(buffered, recvs)) <==> Progressing(buffered + Stream(recvs)))
      <==> Stream(recvs) != [] || !Progressing(buffered)
  {
    assert buffered + [] == buffered;
  }

  /** A smallest RTP packet: version 2, the given sequence number, no payload. */
  function SmallPacket(sequence: Byte): seq<Byte> {
    [0x80, 0, 0, sequence, 0, 0, 0, 0, 0, 0, 0, 0]
  }

  /** That packet on the wire, on channel 0. */
  function Framed(sequence: Byte): seq<Byte> {
    [MARKER, 0, 0, 12] + SmallPacket(sequence)
  }

  lemma FirstPacket(sequence: Byte, more: seq<Byte>)
    ensures Frames(Framed(sequence) + more) == [Frame(0, SmallPacket(sequence))] + Frames(more)
  {
    var b := Framed(sequence) + more;
    assert Sync(b) == b && FrameEnd(b) == 16;
    assert b[4..16] == SmallPacket(sequence) && b[16..] == more;
  }

  lemma TwoPackets()
    ensures Frames(Framed(1) + Framed(2)) == [Frame(0, SmallPacket(1)), Frame(0, SmallPacket(2))]
  {
    FirstPacket(1, Framed(2));
    FirstPacket(2, []);
    assert Framed(2) + [] == Framed(2);
  }

  lemma PacketCounts(fs: seq<Frame>, sequence: Byte)
    requires Frame(0, SmallPacket(sequence)) in fs
    ensures sequence as nat in Sequences(fs)
  {
    var f := Frame(0, SmallPacket(sequence));
    assert IsRtp(f) && Sequence(f) == sequence as nat;
  }

  /** Two packets that arrived together with the last response, and nothing after them: reported as no progress. */
  lemma LeftoverPacketsMissed()
    ensures Progressing(Framed(1) + Framed(2)) && !Progressing(Seen(Framed(1) + Framed(2), []))
  {
    TwoPackets();
    var fs := Frames(Framed(1) + Framed(2));
    PacketCounts(fs, 1);
    PacketCounts(fs, 2);
    SubsetCard({1, 2}, Sequences(fs));
  }

  /** The counter has processed exactly the bytes `got` on top of `first`. */
  ghost predicate Processed(first: seq<Byte>, got: seq<Byte>, frames: seq<Frame>, buffered: seq<Byte>) {
    if got == [] then frames == [] && buffered == first
    else frames == Frames(first + got) && Sync(buffered) == Rest(first + got)
  }

  lemma ProcessMore(first: seq<Byte>, got: seq<Byte>, frames: seq<Frame>, buffered: seq<Byte>, chunk: seq<Byte>,
      next: seq<Byte>)
    requires Processed(first, got, frames, buffered) && chunk != []
    requires Sync(next) == Rest(buffered + chunk)
    ensures Processed(first, got + chunk, frames + Frames(buffered + chunk), next)
  {
    if got == [] {
      assert got + chunk == chunk;
    } else {
      assert first + (got + chunk) == (first + got) + chunk;
      FramesAppend(first + got, chunk);
      RestIsSynced(first + got);
      GarbageIsIrrelevant(buffered, Rest(first + got), chunk);
    }
  }

  /** Stopping early on two sequence numbers, or at the end of the stream, gives the verdict of the whole stream. */
  lemma ProbeVerdict(first: seq<Byte>, recvs: seq<Read>, got: seq<Byte>, coming: seq<Byte>, frames: seq<Frame>,
      held: seq<Byte>)
    requires got + coming == Stream(recvs) && Processed(first, got, frames, held)
    requires |Sequences(frames)| >= 2 || coming == []
    ensures |Sequences(frames)| >= 2 <==> |Sequences(Frames(Seen(first, recvs)))| >= 2
    ensures |Sequences(frames)| < 2 ==> frames == Frames(Seen(first, recvs))
  {
    if got != [] {
      assert first + Stream(recvs) == (first + got) + coming;
      VerdictMonotone(first + got, coming);
    }
    if coming == [] {
      assert got == Stream(recvs);
    }
  }

  /** Nothing was decided before the last of the first `n` reads. */
  ghost predicate UndecidedBefore(buffered: seq<Byte>, recvs: seq<Read>, n: nat)
    requires n <= |recvs|
  {
    forall m: nat :: m < n ==> !Progressing(Seen(buffered, recvs[..m]))
  }

  ghost predicate Counts(fs: seq<Frame>, packetCount: nat, byteCount: nat, sequenceCount: nat) {
    packetCount == RtpCount(fs) && byteCount == RtpBytes(fs) && sequenceCount == |Sequences(fs)|
  }

  /** The three counts are those of everything seen in the first `n` reads, none of which but the last was decisive. */
  ghost predicate CountedAfter(buffered: seq<Byte>, recvs: seq<Read>, n: nat, packetCount: nat, byteCount: nat,
      sequenceCount: nat)
  {
    && n <= |recvs| && UndecidedBefore(buffered, recvs, n)
    && Counts(Frames(Seen(buffered, recvs[..n])), packetCount, byteCount, sequenceCount)
  }

  /** The packet loop after `n` reads, none of them the peer's close. */
  ghost predicate Probing(first: seq<Byte>, recvs: seq<Read>, n: nat, frames: seq<Frame>, held: seq<Byte>) {
    && n <= |recvs| && Data([]) !in recvs[..n]
    && Processed(first, Stream(recvs[..n]), frames, held)
    && UndecidedBefore(first, recvs, n)
  }

  lemma ProbingSeen(first: seq<Byte>, recvs: seq<Read>, n: nat, frames: seq<Frame>, held: seq<Byte>)
    requires Probing(first, recvs, n, frames, held)
    ensures frames == Frames(Seen(first, recvs[..n]))
  {
  }

  lemma StillUndecided(first: seq<Byte>, recvs: seq<Read>, n: nat, frames: seq<Frame>)
    requires n < |recvs| && UndecidedBefore(first, recvs, n)
    requires frames == Frames(Seen(first, recvs[..n])) && |Sequences(frames)| < 2
    ensures UndecidedBefore(first, recvs, n + 1)
  {
  }

  lemma NotClosedYet(recvs: seq<Read>, n: nat)
    requires n < |recvs| && Data([]) !in recvs[..n] && recvs[n] != Data([])
    ensures Data([]) !in recvs[..n + 1]
  {
    assert recvs[..n + 1] == recvs[..n] + [recvs[n]];
  }

  lemma ProbingNext(first: seq<Byte>, recvs: seq<Read>, n: nat, frames: seq<Frame>, held: seq<Byte>)
    requires Probing(first, recvs, n, frames, held) && n < |recvs| && |Sequences(frames)| < 2
    ensures UndecidedBefore(first, recvs, n + 1)
    ensures recvs[n] != Data([]) ==> Data([]) !in recvs[..n + 1]
    ensures Stream(recvs[..n + 1]) == Stream(recvs[..n]) + if recvs[n].Timeout? then [] else recvs[n].chunk
  {
    ProbingSeen(first, recvs, n, frames, held);
    StillUndecided(first, recvs, n, frames);
    StreamPrefix(recvs, n);
    if recvs[n] != Data([]) {
      NotClosedYet(recvs, n);
    }
  }

  lemma TimedOutRead(first: seq<Byte>, recvs: seq<Read>, n: nat, frames: seq<Frame>, held: seq<Byte>)
    requires Probing(first, recvs, n, frames, held) && n < |recvs| && |Sequences(frames)| < 2 && recvs[n].Timeout?
    ensures Probing(first, recvs, n + 1, frames, held)
  {
    ProbingNext(first, recvs, n, frames, held);
    assert Stream(recvs[..n]) + [] == Stream(recvs[..n]);
  }

  lemma DataRead(first: seq<Byte>, recvs: seq<Read>, n: nat, frames: seq<Frame>, held: seq<Byte>, next: seq<Byte>)
    requires Probing(first, recvs, n, frames, held) && n < |recvs| && |Sequences(frames)| < 2
    requires recvs[n].Data? && recvs[n].chunk != [] && Sync(next) == Rest(held + recvs[n].chunk)
    ensures Probing(first, recvs, n + 1, frames + Frames(held + recvs[n].chunk), next)
  {
    ProbingNext(first, recvs, n, frames, held);
    ProcessMore(first, Stream(recvs[..n]), frames, held, recvs[n].chunk, next);
  }

  lemma {:induction false} StreamSplit(a: seq<Read>, b: seq<Read>)
    requires Data([]) !in a
    ensures Stream(a + b) == Stream(a) + Stream(b)
  {
    if a == [] {
      assert a + b == b;
    } else {
      assert (a + b)[1..] == a[1..] + b;
      StreamSplit(a[1..], b);
    }
  }

  /** When the loop ends, decided, out of time or closed by the peer, its counts and verdict are final. */
  lemma ProbeDone(first: seq<Byte>, recvs: seq<Read>, n: nat, frames: seq<Frame>, held: seq<Byte>)
    requires Probing(first, recvs, n, frames, held)
    requires |Sequences(frames)| >= 2 || n == |recvs| || recvs[n] == Data([])
    ensures |Sequences(frames)| >= 2 <==> Progressing(Seen(first, recvs))
    ensures |Sequences(frames)| < 2 ==> frames == Frames(Seen(first, recvs))
    ensures CountedAfter(first, recvs, n, RtpCount(frames), RtpBytes(frames), |Sequences(frames)|)
  {
    ProbingSeen(first, recvs, n, frames, held);
    assert recvs[..n] + recvs[n..] == recvs;
    StreamSplit(recvs[..n], recvs[n..]);
    var coming := if |Sequences(frames)| >= 2 then Stream(recvs[n..]) else [];
    ProbeVerdict(first, recvs, Stream(recvs[..n]), coming, frames, held);
  }

  /**
   * The probe's verdict is a property of the bytes alone: it is positive exactly when they hold RTP packets with two
   * different sequence numbers, however the network cut them up. A negative probe has counted every packet, a positive
   * one every packet up to the end of the read that decided it.
   */
  method Probe(buffered: seq<Byte>, recvs: seq<Read>)
      returns (ok: bool, packetCount: nat, byteCount: nat, sequenceCount: nat)
    ensures ok <==> Progressing(Seen(buffered, recvs))
    ensures ok <==> sequenceCount >= 2
    ensures !ok ==> Counts(Frames(Seen(buffered, recvs)), packetCount, byteCount, sequenceCount)
    ensures exists n: nat :: CountedAfter(buffered, recvs, n, packetCount, byteCount, sequenceCount)
  {
    var counter := new PacketCounter(buffered);
    var n := 0;
    ghost var done := 0;
    assert recvs[..0] == [];
    while n < |recvs| && |counter.sequences| < 2
      invariant n == done <= |recvs| && counter.Counted() && fresh(counter)
      invariant Probing(buffered, recvs, n, counter.frames, counter.buffered)
    {
      var read := recvs[n];
      n := n + 1;
      if read.Timeout? {
        TimedOutRead(buffered, recvs, done, counter.frames, counter.buffered);
        done := n;
        continue;
      }
      if read.chunk == [] {
        break;
      }
      ghost var held, taken := counter.buffered, counter.frames;
      counter.Receive(read.chunk);
      DataRead(buffered, recvs, done, taken, held, counter.buffered);
      done := n;
    }
    ProbeDone(buffered, recvs, done, counter.frames, counter.buffered);
    ok := |counter.sequences| >= 2;
    return ok, counter.packetCount, counter.byteCount, |counter.sequences|;
  }

  /** Frames taken when the buffer is drained after every chunk, starting from `held`. */
  function TakenFrames(held: seq<Byte>, cut: seq<seq<Byte>>): seq<Frame>
    decreases cut
  {
    if cut == [] then [] else Frames(held + cut[0]) + TakenFrames(Rest(held + cut[0]), cut[1..])
  }

  /** What is then still buffered, without leading garbage. */
  function Held(held: seq<Byte>, cut: seq<seq<Byte>>): seq<Byte>
    decreases cut
  {
    if cut == [] then held else Held(Rest(held + cut[0]), cut[1..])
  }

  /**
   * However a byte stream is cut into chunks, draining after each one yields the frames and the rest of the whole
   * stream.
   */
  lemma {:induction false} ChunkingIsIrrelevant(held: seq<Byte>, cut: seq<seq<Byte>>)
    requires cut != []
    ensures TakenFrames(held, cut) == Frames(held + Flatten(cut))
    ensures Held(held, cut) == Rest(held + Flatten(cut))
    decreases cut
  {
    var x, rest := held + cut[0], cut[1..];
    assert held + Flatten(cut) == x + Flatten(rest);
    FramesAppend(x, Flatten(rest));
    if rest == [] {
      assert x + Flatten(rest) == x;
      assert TakenFrames(Rest(x), rest) == [];
    } else {
      ChunkingIsIrrelevant(Rest(x), rest);
    }
  }
}
