/** Reading RTSP responses off a byte stream: header block, blank line, body of the announced length. */
module RtspResponse {
  import opened Options
  import opened Bytes

  const BLANK_LINE: seq<Byte> := [13, 10, 13, 10]

  /** Status and announced body length of a header block; a length the header does not give is 0. */
  datatype Head = Head(status: nat, contentLength: int)

  /** The header text parser; `None` when the status line is invalid. */
  type Parser = seq<Byte> -> Option<Head>

  predicate BlankAt(b: seq<Byte>, i: nat) {
    i + 4 <= |b| && b[i..i + 4] == BLANK_LINE
  }

  /** Position of the first blank line; the length of the buffer when there is none. */
  function FindBlank(b: seq<Byte>): (i: nat)
    ensures i <= |b|
    ensures i < |b| ==> BlankAt(b, i)
    ensures forall j: nat :: j < i ==> !BlankAt(b, j)
    ensures i == |b| ==> forall j: nat :: !BlankAt(b, j)
  {
    FindBlankFrom(b, 0)
  }

  function FindBlankFrom(b: seq<Byte>, from: nat): (i: nat)
    requires from <= |b|
    ensures from <= i <= |b|
    ensures i < |b| ==> BlankAt(b, i)
    ensures forall j: nat :: from <= j < i ==> !BlankAt(b, j)
    decreases |b| - from
  {
    if from == |b| || BlankAt(b, from) then from else FindBlankFrom(b, from + 1)
  }

  predicate HasBlank(b: seq<Byte>) {
    FindBlank(b) < |b|
  }

  /** More data never moves the first blank line. */
  lemma BlankStays(a: seq<Byte>, b: seq<Byte>)
    requires HasBlank(a)
    ensures HasBlank(a + b) && FindBlank(a + b) == FindBlank(a)
  {
    var i := FindBlank(a);
    assert (a + b)[i..i + 4] == a[i..i + 4];
    assert BlankAt(a + b, i);
    forall j: nat | j < i ensures !BlankAt(a + b, j) {
      assert (a + b)[j..j + 4] == a[j..j + 4];
      assert !BlankAt(a, j);
    }
    var k := FindBlank(a + b);
    assert !(k < i) && !(i < k);
  }

  /** Nor does less, as long as the blank line is still there. */
  lemma BlankInPrefix(b: seq<Byte>, k: nat)
    requires HasBlank(b) && FindBlank(b) + 4 <= k <= |b|
    ensures FindBlank(b[..k]) == FindBlank(b) && HasBlank(b[..k])
  {
    var h, i := b[..k], FindBlank(b);
    assert h[i..i + 4] == b[i..i + 4];
    assert BlankAt(h, i);
    forall j: nat | j < i ensures !BlankAt(h, j) {
      assert h[j..j + 4] == b[j..j + 4];
      assert !BlankAt(b, j);
    }
    assert !(FindBlank(h) < i) && !(i < FindBlank(h));
  }

  datatype Reply =
    | Response(status: nat, header: seq<Byte>, body: seq<Byte>, leftover: seq<Byte>)
    | Closed            // the peer closed before the blank line
    | InvalidStatus
    | BodyEndedEarly

  /** Python's slice `b[:n]`, for any `n`. */
  function SliceTo(b: seq<Byte>, n: int): seq<Byte> {
    if n >= 0 then (if n <= |b| then b[..n] else b) else if |b| + n >= 0 then b[..|b| + n] else []
  }

  /** Python's slice `b[n:]`. */
  function SliceFrom(b: seq<Byte>, n: int): seq<Byte> {
    if n >= 0 then (if n <= |b| then b[n..] else []) else if |b| + n >= 0 then b[|b| + n..] else b
  }

  // ---- the loops

  function ReceiveHeader(b: seq<Byte>, incoming: seq<seq<Byte>>): (seq<Byte>, seq<seq<Byte>>)
    decreases incoming
  {
    if HasBlank(b) || incoming == [] then (b, incoming) else ReceiveHeader(b + incoming[0], incoming[1..])
  }

  function ReceiveBody(b: seq<Byte>, n: int, incoming: seq<seq<Byte>>): (seq<Byte>, seq<seq<Byte>>)
    decreases incoming
  {
    if |b| >= n || incoming == [] then (b, incoming) else ReceiveBody(b + incoming[0], n, incoming[1..])
  }

  /** The second half of reading a response: the header block is known, `after` follows the blank line. */
  function Respond(header: seq<Byte>, after: seq<Byte>, incoming: seq<seq<Byte>>, parse: Parser)
    : (Reply, seq<seq<Byte>>)
  {
    match parse(header)
    case None => (InvalidStatus, incoming)
    case Some(Head(status, n)) =>
      var (content, last) := ReceiveBody(after, n, incoming);
      if |content| < n then (BodyEndedEarly, last)
      else (Response(status, header, SliceTo(content, n), SliceFrom(content, n)), last)
  }

  /** One response read from `buffered` and then the connection; also the chunks not read yet. */
  function Read(buffered: seq<Byte>, incoming: seq<seq<Byte>>, parse: Parser): (Reply, seq<seq<Byte>>) {
    var (b, later) := ReceiveHeader(buffered, incoming);
    var i := FindBlank(b);
    if i == |b| then (Closed, later) else Respond(b[..i], b[i + 4..], later, parse)
  }

  /** The peer never sends an empty chunk: an empty read means it has closed. */
  predicate NonEmpty(chunks: seq<seq<Byte>>) {
    forall k :: 0 <= k < |chunks| ==> chunks[k] != []
  }

  class Connection {
    var incoming: seq<seq<Byte>>  // the chunks the peer sends, none of them empty

    constructor (incoming: seq<seq<Byte>>)
      ensures this.incoming == incoming
    {
      this.incoming := incoming;
    }

    /** The next chunk; empty once the peer has closed. */
    method Recv() returns (chunk: seq<Byte>)
      modifies this
      ensures if old(incoming) == [] then chunk == [] && incoming == []
          else chunk == old(incoming)[0] && incoming == old(incoming)[1..]
    {
      if incoming == [] {
        return [];
      }
      chunk := incoming[0];
      incoming := incoming[1..];
    }

    method ReadResponse(buffered: seq<Byte>, parse: Parser) returns (r: Reply)
      requires NonEmpty(incoming)
      modifies this
      ensures (r, incoming) == Read(buffered, old(incoming), parse)
    {
      var b := buffered;
      while !HasBlank(b)
        invariant ReceiveHeader(b, incoming) == ReceiveHeader(buffered, old(incoming))
        invariant NonEmpty(incoming)
        decreases |incoming|
      {
        var chunk := Recv();
        if chunk == [] {
          return Closed;
        }
        b := b + chunk;
      }
      var i := FindBlank(b);
      var header := b[..i];
      var head := parse(header);
      if head.None? {
        return InvalidStatus;
      }
      b := b[i + 4..];
      ghost var first, later := b, incoming;
      var n := head.value.contentLength;
      while |b| < n
        invariant ReceiveBody(b, n, incoming) == ReceiveBody(first, n, later)
        invariant NonEmpty(incoming)
        decreases |incoming|
      {
        var chunk := Recv();
        if chunk == [] {
          return BodyEndedEarly;
        }
        b := b + chunk;
      }
      return Response(head.value.status, header, SliceTo(b, n), SliceFrom(b, n));
    }
  }

  // ---- what the loops mean for the stream

  lemma {:induction false} ReceiveHeaderMeans(b: seq<Byte>, incoming: seq<seq<Byte>>)
    ensures var (h, later) := ReceiveHeader(b, incoming);
      && h + Flatten(later) == b + Flatten(incoming)
      && (HasBlank(h) || later == [])
    decreases incoming
  {
    if !HasBlank(b) && incoming != [] {
      ReceiveHeaderMeans(b + incoming[0], incoming[1..]);
      assert (b + incoming[0]) + Flatten(incoming[1..]) == b + Flatten(incoming);
    }
  }

  lemma {:induction false} ReceiveBodyMeans(b: seq<Byte>, n: int, incoming: seq<seq<Byte>>)
    ensures var (h, later) := ReceiveBody(b, n, incoming);
      && h + Flatten(later) == b + Flatten(incoming)
      && (|h| >= n || later == [])
    decreases incoming
  {
    if |b| < n && incoming != [] {
      ReceiveBodyMeans(b + incoming[0], n, incoming[1..]);
      assert (b + incoming[0]) + Flatten(incoming[1..]) == b + Flatten(incoming);
    }
  }

  /** The two slices cut the bytes in two, `n` from the front or `-n` from the back. */
  lemma SlicesJoin(b: seq<Byte>, n: int)
    requires |b| >= n
    ensures SliceTo(b, n) + SliceFrom(b, n) == b
    ensures n >= 0 ==> |SliceTo(b, n)| == n
    ensures n < 0 ==> |SliceFrom(b, n)| == if -n <= |b| then -n else |b|
  {
  }

  lemma RespondConserves(header: seq<Byte>, after: seq<Byte>, incoming: seq<seq<Byte>>, parse: Parser)
    ensures var (r, later) := Respond(header, after, incoming, parse);
      r.Response? ==> r.header == header && (r.body + r.leftover) + Flatten(later) == after + Flatten(incoming)
  {
    var head := parse(header);
    if head.Some? {
      ReceiveBodyMeans(after, head.value.contentLength, incoming);
      var content := ReceiveBody(after, head.value.contentLength, incoming).0;
      if |content| >= head.value.contentLength {
        SlicesJoin(content, head.value.contentLength);
      }
    }
  }

  lemma SplitAtBlank(b: seq<Byte>)
    requires HasBlank(b)
    ensures b == b[..FindBlank(b)] + BLANK_LINE + b[FindBlank(b) + 4..]
  {
    var i := FindBlank(b);
    assert b[i..i + 4] == BLANK_LINE;
    assert b == b[..i] + b[i..i + 4] + b[i + 4..];
  }

  lemma Regroup(h: seq<Byte>, body: seq<Byte>, leftover: seq<Byte>, later: seq<Byte>, after: seq<Byte>, mid: seq<Byte>)
    requires (body + leftover) + later == after + mid
    ensures h + BLANK_LINE + body + leftover + later == (h + BLANK_LINE + after) + mid
  {
    assert h + BLANK_LINE + body + leftover + later == (h + BLANK_LINE) + ((body + leftover) + later);
  }

  /**
   * No byte is lost or duplicated: header, blank line, body, leftover and what is still to be received are the stream.
   */
  lemma ReadConserves(buffered: seq<Byte>, incoming: seq<seq<Byte>>, parse: Parser)
    ensures var (r, later) := Read(buffered, incoming, parse);
      r.Response? ==> r.header + BLANK_LINE + r.body + r.leftover + Flatten(later) == buffered + Flatten(incoming)
  {
    var (b, mid) := ReceiveHeader(buffered, incoming);
    ReceiveHeaderMeans(buffered, incoming);
    var i := FindBlank(b);
    if i < |b| {
      RespondConserves(b[..i], b[i + 4..], mid, parse);
      var (r, later) := Respond(b[..i], b[i + 4..], mid, parse);
      if r.Response? {
        Regroup(r.header, r.body, r.leftover, Flatten(later), b[i + 4..], Flatten(mid));
        SplitAtBlank(b);
      }
    }
  }

  /** The response at the head of a byte stream, without regard to how it arrives. */
  datatype Parsed =
    | Whole(status: nat, header: seq<Byte>, body: seq<Byte>, rest: seq<Byte>)
    | NoHeader
    | BadStatus
    | ShortBody

  function ParseBody(header: seq<Byte>, content: seq<Byte>, parse: Parser): Parsed {
    match parse(header)
    case None => BadStatus
    case Some(Head(status, n)) =>
      if |content| < n then ShortBody else Whole(status, header, SliceTo(content, n), SliceFrom(content, n))
  }

  function ParseStream(stream: seq<Byte>, parse: Parser): Parsed {
    var i := FindBlank(stream);
    if i == |stream| then NoHeader else ParseBody(stream[..i], stream[i + 4..], parse)
  }

  /** The reply says about the stream what `p` says; the leftover is a prefix of the parsed rest. */
  predicate Agrees(p: Parsed, r: Reply, later: seq<seq<Byte>>) {
    match p
    case NoHeader => r == Closed
    case BadStatus => r == InvalidStatus
    case ShortBody => r == BodyEndedEarly
    case Whole(status, header, body, rest) =>
      r.Response? && r.status == status && r.header == header && r.body == body && r.leftover + Flatten(later) == rest
  }

  /** Slicing off that many bytes gives the same two pieces for every prefix long enough to be returned. */
  predicate Sliceable(n: int, content: seq<Byte>) {
    n >= 0 || |content| + n <= 0
  }

  lemma RespondIsParseBody(header: seq<Byte>, after: seq<Byte>, incoming: seq<seq<Byte>>, parse: Parser)
    requires parse(header).Some? ==> Sliceable(parse(header).value.contentLength, after + Flatten(incoming))
    ensures var (r, later) := Respond(header, after, incoming, parse);
      Agrees(ParseBody(header, after + Flatten(incoming), parse), r, later)
  {
    var head := parse(header);
    if head.Some? {
      var n := head.value.contentLength;
      ReceiveBodyMeans(after, n, incoming);
      var (content, last) := ReceiveBody(after, n, incoming);
      if n < 0 {
        assert SliceTo(content, n) == [] && SliceFrom(content, n) == content;
      } else if |content| >= n {
        assert (content + Flatten(last))[..n] == content[..n];
        assert (content + Flatten(last))[n..] == content[n..] + Flatten(last);
      } else {
        assert content + Flatten(last) == content;
      }
    }
  }

  /** The stream's first header announces no negative length shorter than what follows it. */
  predicate LengthUsable(stream: seq<Byte>, parse: Parser) {
    var i := FindBlank(stream);
    i < |stream| && parse(stream[..i]).Some? ==> Sliceable(parse(stream[..i]).value.contentLength, stream[i + 4..])
  }

  /** For a usable length the outcome is that of the whole stream, however it is cut into chunks. */
  lemma ReadIsParseStream(buffered: seq<Byte>, incoming: seq<seq<Byte>>, parse: Parser)
    requires LengthUsable(buffered + Flatten(incoming), parse)
    ensures var (r, later) := Read(buffered, incoming, parse);
      Agrees(ParseStream(buffered + Flatten(incoming), parse), r, later)
  {
    var stream := buffered + Flatten(incoming);
    var (b, mid) := ReceiveHeader(buffered, incoming);
    ReceiveHeaderMeans(buffered, incoming);
    if HasBlank(b) {
      BlankStays(b, Flatten(mid));
      var i := FindBlank(b);
      assert stream[..i] == b[..i] && stream[i + 4..] == b[i + 4..] + Flatten(mid);
      RespondIsParseBody(b[..i], b[i + 4..], mid, parse);
    } else {
      assert Flatten(mid) == [] && stream == b;
    }
  }

  /** The bytes arrive as `buffered`, then as the chunks of `incoming`. */
  predicate IsCut(stream: seq<Byte>, buffered: seq<Byte>, incoming: seq<seq<Byte>>) {
    NonEmpty(incoming) && buffered + Flatten(incoming) == stream
  }

  /** Same reply, and the same bytes left after it, in the buffer or still to come. */
  predicate SameOutcome(a: (Reply, seq<seq<Byte>>), b: (Reply, seq<seq<Byte>>)) {
    if a.0.Response? && b.0.Response? then
      && a.0.status == b.0.status && a.0.header == b.0.header && a.0.body == b.0.body
      && a.0.leftover + Flatten(a.1) == b.0.leftover + Flatten(b.1)
    else a.0 == b.0
  }

  /** Every two cuts of the stream give the same outcome. */
  ghost predicate CutsAreIrrelevant(stream: seq<Byte>, parse: Parser) {
    forall b1, in1, b2, in2 :: IsCut(stream, b1, in1) && IsCut(stream, b2, in2) ==>
      SameOutcome(Read(b1, in1, parse), Read(b2, in2, parse))
  }

  lemma AgreeingIsSame(p: Parsed, a: (Reply, seq<seq<Byte>>), b: (Reply, seq<seq<Byte>>))
    requires Agrees(p, a.0, a.1) && Agrees(p, b.0, b.1)
    ensures SameOutcome(a, b)
  {
  }

  /** The outcome is a function of the bytes alone if and only if the announced length is usable. */
  lemma OutcomeOfBytesExactly(stream: seq<Byte>, parse: Parser)
    ensures CutsAreIrrelevant(stream, parse) <==> LengthUsable(stream, parse)
  {
    if LengthUsable(stream, parse) {
      forall b1, in1, b2, in2 | IsCut(stream, b1, in1) && IsCut(stream, b2, in2)
        ensures SameOutcome(Read(b1, in1, parse), Read(b2, in2, parse))
      {
        ReadIsParseStream(b1, in1, parse);
        ReadIsParseStream(b2, in2, parse);
        AgreeingIsSame(ParseStream(stream, parse), Read(b1, in1, parse), Read(b2, in2, parse));
      }
    } else {
      var i := FindBlank(stream);
      NegativeLengthDependsOnChunks(stream, parse);
      assert IsCut(stream, stream, []) && IsCut(stream, stream[..i + 4], [stream[i + 4..]]) by {
        assert Flatten([stream[i + 4..]]) == stream[i + 4..];
        assert stream[..i + 4] + stream[i + 4..] == stream;
      }
      assert !SameOutcome(Read(stream, [], parse), Read(stream[..i + 4], [stream[i + 4..]], parse));
    }
  }

  /** An unusable length: cut right behind the blank line, the body comes out empty; received at once, it does not. */
  lemma NegativeLengthDependsOnChunks(stream: seq<Byte>, parse: Parser)
    requires !LengthUsable(stream, parse)
    ensures var i := FindBlank(stream);
      var whole, cut := Read(stream, [], parse).0, Read(stream[..i + 4], [stream[i + 4..]], parse).0;
      whole.Response? && cut.Response? && whole.body != [] && cut.body == []
  {
    var i := FindBlank(stream);
    var h := stream[..i + 4];
    BlankInPrefix(stream, i + 4);
    assert h[..i] == stream[..i] && h[i + 4..] == [];
  }

  /**
   * Three responses in turn (DESCRIBE, SETUP, PLAY), each handed the leftover of the one before: the stream is
   * conserved.
   */
  lemma ChainConserves(incoming: seq<seq<Byte>>, parse: Parser)
    ensures var (d, afterD) := Read([], incoming, parse);
      d.Response? ==> var (s, afterS) := Read(d.leftover, afterD, parse);
      s.Response? ==> var (p, afterP) := Read(s.leftover, afterS, parse);
      p.Response? ==> OnWire(d) + (OnWire(s) + (OnWire(p) + (p.leftover + Flatten(afterP)))) == Flatten(incoming)
  {
    WireConserves([], incoming, parse);
    var (d, afterD) := Read([], incoming, parse);
    if d.Response? {
      WireConserves(d.leftover, afterD, parse);
      var (s, afterS) := Read(d.leftover, afterD, parse);
      if s.Response? {
        WireConserves(s.leftover, afterS, parse);
      }
    }
    assert [] + Flatten(incoming) == Flatten(incoming);
  }

  /** The bytes of a response as they stood on the wire. */
  function OnWire(r: Reply): seq<Byte>
    requires r.Response?
  {
    r.header + BLANK_LINE + r.body
  }

  lemma WireConserves(buffered: seq<Byte>, incoming: seq<seq<Byte>>, parse: Parser)
    ensures var (r, later) := Read(buffered, incoming, parse);
      r.Response? ==> OnWire(r) + (r.leftover + Flatten(later)) == buffered + Flatten(incoming)
  {
    ReadConserves(buffered, incoming, parse);
    var (r, later) := Read(buffered, incoming, parse);
    if r.Response? {
      assert OnWire(r) + (r.leftover + Flatten(later)) == OnWire(r) + r.leftover + Flatten(later);
    }
  }
}
