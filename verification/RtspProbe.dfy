/** The whole probe: responses read in turn off one connection, then the packet loop on what is left. */
module RtspProbe {
  import opened Options
  import opened Bytes
  import opened RtspResponse
  import F = RtpFraming

  /** Whether a response with status 200 lets the probe go on; `stage` counts the responses still to come. */
  type Check = (nat, seq<Byte>, seq<Byte>) -> bool

  datatype Outcome = Refused(stage: nat) | Probed(progressing: bool)

  predicate GoesOn(r: Reply, stage: nat, check: Check) {
    r.Response? && r.status == 200 && check(stage, r.header, r.body)
  }

  /** The remaining chunks as the packet loop receives them. */
  function Receives(chunks: seq<seq<Byte>>): seq<F.Read> {
    if chunks == [] then [] else [F.Data(chunks[0])] + Receives(chunks[1..])
  }

  /** `n` responses in turn, each given the leftover of the one before, then the probe of the packets. */
  function Session(buffered: seq<Byte>, incoming: seq<seq<Byte>>, n: nat, parse: Parser, check: Check): Outcome
    decreases n
  {
    if n == 0 then Probed(F.Progressing(F.Seen(buffered, Receives(incoming)))) else
      var (r, later) := Read(buffered, incoming, parse);
      if GoesOn(r, n, check) then Session(r.leftover, later, n - 1, parse, check) else Refused(n)
  }

  // ---- the same, said of the bytes

  datatype Chain = Ends(stage: nat) | Reaches(rest: seq<Byte>)

  predicate PassesOn(p: Parsed, stage: nat, check: Check) {
    p.Whole? && p.status == 200 && check(stage, p.header, p.body)
  }

  /** Where `n` responses at the head of a stream lead. */
  function ChainOf(stream: seq<Byte>, n: nat, parse: Parser, check: Check): Chain
    decreases n
  {
    if n == 0 then Reaches(stream) else
      var p := ParseStream(stream, parse);
      if PassesOn(p, n, check) then ChainOf(p.rest, n - 1, parse, check) else Ends(n)
  }

  /** Every response on the way announces a usable length. */
  predicate UsableAlong(stream: seq<Byte>, n: nat, parse: Parser, check: Check)
    decreases n
  {
    n == 0 ||
    (&& LengthUsable(stream, parse)
     && var p := ParseStream(stream, parse);
        PassesOn(p, n, check) ==> UsableAlong(p.rest, n - 1, parse, check))
  }

  // ---- what is left of the connection

  lemma {:induction false} HeaderLeavesChunks(b: seq<Byte>, incoming: seq<seq<Byte>>)
    requires NonEmpty(incoming)
    ensures NonEmpty(ReceiveHeader(b, incoming).1)
    decreases incoming
  {
    if !HasBlank(b) && incoming != [] {
      HeaderLeavesChunks(b + incoming[0], incoming[1..]);
    }
  }

  lemma {:induction false} BodyLeavesChunks(b: seq<Byte>, n: int, incoming: seq<seq<Byte>>)
    requires NonEmpty(incoming)
    ensures NonEmpty(ReceiveBody(b, n, incoming).1)
    decreases incoming
  {
    if |b| < n && incoming != [] {
      BodyLeavesChunks(b + incoming[0], n, incoming[1..]);
    }
  }

  lemma RespondLeavesChunks(header: seq<Byte>, after: seq<Byte>, incoming: seq<seq<Byte>>, parse: Parser)
    requires NonEmpty(incoming)
    ensures NonEmpty(Respond(header, after, incoming, parse).1)
  {
    if parse(header).Some? {
      BodyLeavesChunks(after, parse(header).value.contentLength, incoming);
    }
  }

  lemma ReadLeavesChunks(b: seq<Byte>, incoming: seq<seq<Byte>>, parse: Parser)
    requires NonEmpty(incoming)
    ensures NonEmpty(Read(b, incoming, parse).1)
  {
    HeaderLeavesChunks(b, incoming);
    var (h, later) := ReceiveHeader(b, incoming);
    var i := FindBlank(h);
    if i < |h| {
      RespondLeavesChunks(h[..i], h[i + 4..], later, parse);
    }
  }

  lemma {:induction false} ReceivesAll(chunks: seq<seq<Byte>>)
    requires NonEmpty(chunks)
    ensures F.Stream(Receives(chunks)) == Flatten(chunks)
  {
    if chunks != [] {
      ReceivesAll(chunks[1..]);
      assert ([F.Data(chunks[0])] + Receives(chunks[1..]))[1..] == Receives(chunks[1..]);
    }
  }

  lemma ReadFollowsParse(b: seq<Byte>, incoming: seq<seq<Byte>>, n: nat, parse: Parser, check: Check)
    requires LengthUsable(b + Flatten(incoming), parse)
    ensures var p, (r, later) := ParseStream(b + Flatten(incoming), parse), Read(b, incoming, parse);
      && (GoesOn(r, n, check) <==> PassesOn(p, n, check))
      && (GoesOn(r, n, check) ==> r.leftover + Flatten(later) == p.rest)
  {
    ReadIsParseStream(b, incoming, parse);
  }

  /** One response of the session. */
  method ReadStage(connection: Connection, buffered: seq<Byte>, stage: nat, parse: Parser, check: Check)
    returns (ok: bool, leftover: seq<Byte>)
    requires NonEmpty(connection.incoming) && stage > 0
    modifies connection
    ensures NonEmpty(connection.incoming)
    ensures Session(buffered, old(connection.incoming), stage, parse, check) ==
            if ok then Session(leftover, connection.incoming, stage - 1, parse, check) else Refused(stage)
  {
    ReadLeavesChunks(buffered, connection.incoming, parse);
    var r := connection.ReadResponse(buffered, parse);
    if !GoesOn(r, stage, check) {
      return false, [];
    }
    return true, r.leftover;
  }

  /** The probe with `n` responses still to read; the requests sent in between do not touch what is received. */
  method ProbeVideo(connection: Connection, buffered: seq<Byte>, n: nat, parse: Parser, check: Check)
    returns (outcome: Outcome)
    requires NonEmpty(connection.incoming)
    modifies connection
    ensures outcome == Session(buffered, old(connection.incoming), n, parse, check)
    decreases n
  {
    if n == 0 {
      outcome := ProbePackets(connection, buffered, parse, check);
      return;
    }
    var ok, leftover := ReadStage(connection, buffered, n, parse, check);
    if !ok {
      return Refused(n);
    }
    outcome := ProbeVideo(connection, leftover, n - 1, parse, check);
  }

  method ProbePackets(connection: Connection, buffered: seq<Byte>, parse: Parser, check: Check)
    returns (outcome: Outcome)
    ensures outcome == Session(buffered, connection.incoming, 0, parse, check)
  {
    var ok, _, _, _ := F.Probe(buffered, Receives(connection.incoming));
    return Probed(ok);
  }

  // ---- the verdict as a function of the bytes

  /** The last stage: nothing at all is seen when no chunk follows the leftover. */
  lemma ProbedMeans(b: seq<Byte>, incoming: seq<seq<Byte>>)
    requires NonEmpty(incoming)
    ensures F.Progressing(F.Seen(b, Receives(incoming))) <==> incoming != [] && F.Progressing(b + Flatten(incoming))
  {
    ReceivesAll(incoming);
    NothingNotProgressing();
    if incoming != [] {
      assert Flatten(incoming) == incoming[0] + Flatten(incoming[1..]);
    }
  }

  lemma NothingNotProgressing()
    ensures !F.Progressing([])
  {
    assert F.Frames([]) == [] && F.Sequences([]) == {};
  }

  /** For any cut the outcome is the chain's; a stream that reaches the packets progresses only if its bytes do. */
  lemma {:induction false} SessionMeans(b: seq<Byte>, incoming: seq<seq<Byte>>, n: nat, parse: Parser, check: Check)
    requires NonEmpty(incoming) && UsableAlong(b + Flatten(incoming), n, parse, check)
    ensures match ChainOf(b + Flatten(incoming), n, parse, check)
      case Ends(stage) => Session(b, incoming, n, parse, check) == Refused(stage)
      case Reaches(rest) =>
        && Session(b, incoming, n, parse, check).Probed?
        && (Session(b, incoming, n, parse, check).progressing ==> F.Progressing(rest))
    decreases n
  {
    if n == 0 {
      ProbedMeans(b, incoming);
    } else {
      var (r, later) := Read(b, incoming, parse);
      ReadFollowsParse(b, incoming, n, parse, check);
      ReadLeavesChunks(b, incoming, parse);
      if GoesOn(r, n, check) {
        SessionMeans(r.leftover, later, n - 1, parse, check);
      }
    }
  }

  /** Received at once, the packets are leftover of the last response: never examined. */
  lemma {:induction false} AllAtOnce(b: seq<Byte>, n: nat, parse: Parser, check: Check)
    requires UsableAlong(b, n, parse, check) && ChainOf(b, n, parse, check).Reaches?
    ensures Session(b, [], n, parse, check) == Probed(false)
    decreases n
  {
    assert b + Flatten([]) == b;
    if n == 0 {
      ProbedMeans(b, []);
    } else {
      ReadFollowsParse(b, [], n, parse, check);
      ReadConsumesNone(b, parse);
      var r := Read(b, [], parse).0;
      assert r.leftover + Flatten([]) == r.leftover;
      AllAtOnce(r.leftover, n - 1, parse, check);
    }
  }

  lemma ReadConsumesNone(b: seq<Byte>, parse: Parser)
    ensures Read(b, [], parse).1 == []
  {
  }

  // ---- cutting right in front of the packets

  /** A response that is complete in the buffer is read without receiving anything. */
  lemma ReadIgnoresMore(b: seq<Byte>, incoming: seq<seq<Byte>>, parse: Parser)
    requires Read(b, [], parse).0.Response?
    ensures Read(b, incoming, parse) == (Read(b, [], parse).0, incoming)
  {
  }

  lemma SlicePrefix(content: seq<Byte>, n: int, drop: nat)
    requires Sliceable(n, content) && |content| >= n && drop <= |SliceFrom(content, n)|
    ensures var c := content[..|content| - drop];
      && |c| >= n && SliceTo(c, n) == SliceTo(content, n)
      && SliceFrom(c, n) == SliceFrom(content, n)[..|SliceFrom(content, n)| - drop]
  {
  }

  lemma ReadBuffered(b: seq<Byte>, parse: Parser)
    requires HasBlank(b)
    ensures Read(b, [], parse) == Respond(b[..FindBlank(b)], b[FindBlank(b) + 4..], [], parse)
  {
  }

  lemma RespondBuffered(header: seq<Byte>, content: seq<Byte>, parse: Parser)
    requires parse(header).Some? && |content| >= parse(header).value.contentLength
    ensures var Head(status, n) := parse(header).value;
      Respond(header, content, [], parse) == (Response(status, header, SliceTo(content, n), SliceFrom(content, n)), [])
  {
  }

  /** Dropping bytes behind the blank line leaves the header alone and shortens the content. */
  lemma PrefixParts(stream: seq<Byte>, drop: nat)
    requires HasBlank(stream) && drop <= |stream| - FindBlank(stream) - 4
    ensures var i, t := FindBlank(stream), stream[..|stream| - drop];
      && HasBlank(t) && FindBlank(t) == i && t[..i] == stream[..i]
      && t[i + 4..] == stream[i + 4..][..|stream[i + 4..]| - drop]
  {
    BlankInPrefix(stream, |stream| - drop);
  }

  /** Without the last `drop` bytes behind it, a response reads the same, and its leftover is that much shorter. */
  lemma ReadPrefix(stream: seq<Byte>, drop: nat, parse: Parser)
    requires ParseStream(stream, parse).Whole? && LengthUsable(stream, parse)
    requires drop <= |ParseStream(stream, parse).rest| && drop <= |stream|
    ensures var p := ParseStream(stream, parse);
      Read(stream[..|stream| - drop], [], parse).0 == Response(p.status, p.header, p.body, p.rest[..|p.rest| - drop])
  {
    var i := FindBlank(stream);
    var header, content := stream[..i], stream[i + 4..];
    SlicePrefix(content, parse(header).value.contentLength, drop);
    PrefixParts(stream, drop);
    ReadBuffered(stream[..|stream| - drop], parse);
    RespondBuffered(header, content[..|content| - drop], parse);
  }

  /** Whatever comes next, `n` responses are read out of the buffer and nothing of it is left. */
  ghost predicate EndsInFront(prefix: seq<Byte>, n: nat, parse: Parser, check: Check) {
    forall incoming ::
      Session(prefix, incoming, n, parse, check) == Probed(F.Progressing(F.Seen([], Receives(incoming))))
  }

  lemma OneMoreInFront(prefix: seq<Byte>, r: Reply, n: nat, parse: Parser, check: Check)
    requires n > 0 && Read(prefix, [], parse).0 == r && GoesOn(r, n, check)
    requires EndsInFront(r.leftover, n - 1, parse, check)
    ensures EndsInFront(prefix, n, parse, check)
  {
    forall incoming ensures Session(prefix, incoming, n, parse, check) ==
                            Probed(F.Progressing(F.Seen([], Receives(incoming))))
    {
      ReadIgnoresMore(prefix, incoming, parse);
    }
  }

  /** The first response with the packets cut off. */
  lemma ReadInFront(stream: seq<Byte>, rest: seq<Byte>, inner: seq<Byte>, parse: Parser)
    requires LengthUsable(stream, parse) && ParseStream(stream, parse).Whole?
    requires ParseStream(stream, parse).rest == inner + rest
    ensures |rest| <= |stream| && stream == stream[..|stream| - |rest|] + rest
    ensures var p := ParseStream(stream, parse);
      Read(stream[..|stream| - |rest|], [], parse).0 == Response(p.status, p.header, p.body, inner)
  {
    var p := ParseStream(stream, parse);
    RestIsTail(stream, parse);
    TailOfTail(stream, p.rest, rest, inner);
    ReadPrefix(stream, |rest|, parse);
    Front(inner, rest);
  }

  lemma Front(a: seq<Byte>, b: seq<Byte>)
    ensures (a + b)[..|a + b| - |b|] == a
  {
  }

  /** One response further along the chain. */
  lemma ChainStep(stream: seq<Byte>, n: nat, parse: Parser, check: Check)
    requires n > 0 && UsableAlong(stream, n, parse, check) && ChainOf(stream, n, parse, check).Reaches?
    ensures LengthUsable(stream, parse)
    ensures var p := ParseStream(stream, parse);
      && PassesOn(p, n, check) && UsableAlong(p.rest, n - 1, parse, check)
      && ChainOf(p.rest, n - 1, parse, check) == ChainOf(stream, n, parse, check)
  {
  }

  /** The stream up to the packets. */
  lemma {:induction false} CutBehind(stream: seq<Byte>, n: nat, parse: Parser, check: Check) returns (prefix: seq<Byte>)
    requires UsableAlong(stream, n, parse, check) && ChainOf(stream, n, parse, check).Reaches?
    ensures stream == prefix + ChainOf(stream, n, parse, check).rest && EndsInFront(prefix, n, parse, check)
    decreases n
  {
    if n == 0 {
      prefix := [];
    } else {
      ChainStep(stream, n, parse, check);
      var p := ParseStream(stream, parse);
      var rest := ChainOf(stream, n, parse, check).rest;
      var inner := CutBehind(p.rest, n - 1, parse, check);
      ReadInFront(stream, rest, inner, parse);
      prefix := stream[..|stream| - |rest|];
      OneMoreInFront(prefix, Response(p.status, p.header, p.body, inner), n, parse, check);
    }
  }

  lemma TailOfTail(stream: seq<Byte>, tail: seq<Byte>, rest: seq<Byte>, inner: seq<Byte>)
    requires |tail| <= |stream| && stream[|stream| - |tail|..] == tail && tail == inner + rest
    ensures |rest| <= |stream| && stream == stream[..|stream| - |rest|] + rest
  {
    assert stream == stream[..|stream| - |tail|] + tail;
  }

  lemma RestIsTail(stream: seq<Byte>, parse: Parser)
    requires ParseStream(stream, parse).Whole? && LengthUsable(stream, parse)
    ensures var rest := ParseStream(stream, parse).rest;
      |rest| <= |stream| && stream[|stream| - |rest|..] == rest
  {
  }

  /** Received in two chunks, the packets by themselves, they are examined. */
  lemma CutInFront(stream: seq<Byte>, n: nat, parse: Parser, check: Check) returns (prefix: seq<Byte>, rest: seq<Byte>)
    requires UsableAlong(stream, n, parse, check) && ChainOf(stream, n, parse, check).Reaches?
    requires F.Progressing(ChainOf(stream, n, parse, check).rest)
    ensures IsCut(stream, prefix, [rest]) && Session(prefix, [rest], n, parse, check) == Probed(true)
  {
    rest := ChainOf(stream, n, parse, check).rest;
    prefix := CutBehind(stream, n, parse, check);
    NothingNotProgressing();
    assert Flatten([rest]) == rest;
    ProbedMeans([], [rest]);
    assert [] + rest == rest;
  }

  /** Every two cuts of the stream give the same outcome. */
  ghost predicate CutsDoNotMatter(stream: seq<Byte>, n: nat, parse: Parser, check: Check) {
    forall b1, in1, b2, in2 :: IsCut(stream, b1, in1) && IsCut(stream, b2, in2) ==>
      Session(b1, in1, n, parse, check) == Session(b2, in2, n, parse, check)
  }

  /**
   * With usable lengths, the outcome of the responses and the probe together is the same for every cut of the bytes if
   * and only if they stop at a refusal or the bytes behind the last response are not progressing by themselves.
   */
  lemma OutcomeOfBytesExactly(stream: seq<Byte>, n: nat, parse: Parser, check: Check)
    requires UsableAlong(stream, n, parse, check)
    ensures CutsDoNotMatter(stream, n, parse, check) <==>
            match ChainOf(stream, n, parse, check)
            case Ends(_) => true
            case Reaches(rest) => !F.Progressing(rest)
  {
    var chain := ChainOf(stream, n, parse, check);
    if chain.Reaches? && F.Progressing(chain.rest) {
      var prefix, rest := CutInFront(stream, n, parse, check);
      AllAtOnce(stream, n, parse, check);
      assert IsCut(stream, stream, []) by {
        assert stream + Flatten([]) == stream;
      }
      assert Session(stream, [], n, parse, check) != Session(prefix, [rest], n, parse, check);
    } else {
      forall b1, in1, b2, in2 | IsCut(stream, b1, in1) && IsCut(stream, b2, in2)
        ensures Session(b1, in1, n, parse, check) == Session(b2, in2, n, parse, check)
      {
        SessionMeans(b1, in1, n, parse, check);
        SessionMeans(b2, in2, n, parse, check);
      }
    }
  }
}
