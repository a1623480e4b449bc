/** RTSP responses seen from the server's side: what is written in turn is what the probe reads. */
module RtspWriter {
  import opened Options
  import opened Bytes
  import opened RtspResponse
  import opened RtspProbe
  import F = RtpFraming

  /** CR LF CR LF. */
  predicate BlankLine(b: seq<Byte>, i: nat) {
    i + 4 <= |b| && b[i] == 13 && b[i + 1] == 10 && b[i + 2] == 13 && b[i + 3] == 10
  }

  lemma BlankLineAt(b: seq<Byte>, i: nat)
    ensures BlankLine(b, i) <==> BlankAt(b, i)
  {
    if i + 4 <= |b| {
      assert b[i..i + 4] == [b[i], b[i + 1], b[i + 2], b[i + 3]];
    }
  }

  /** A header block that ends where it is meant to: the blank line behind it is the first one. */
  predicate EndsAtBlank(header: seq<Byte>) {
    forall i: nat :: i < |header| ==> !BlankLine(header + [13, 10, 13, 10], i)
  }

  /** The header block, the blank line and what follows it. */
  function Answered(header: seq<Byte>, more: seq<Byte>): seq<Byte> {
    header + [13, 10, 13, 10] + more
  }

  lemma BlankBehind(header: seq<Byte>, more: seq<Byte>)
    requires EndsAtBlank(header)
    ensures var b := Answered(header, more);
      HasBlank(b) && FindBlank(b) == |header| && b[..|header|] == header && b[|header| + 4..] == more
  {
    var b, h := Answered(header, more), header + [13, 10, 13, 10];
    BlankLineAt(b, |header|);
    forall j: nat | j < |header| ensures !BlankAt(b, j) {
      BlankLineAt(b, j);
      assert !BlankLine(h, j);
    }
  }

  /** A response with a body of the announced length is read back whole, whatever comes behind it and in any cut. */
  lemma ResponseBack(header: seq<Byte>, status: nat, body: seq<Byte>, more: seq<Byte>, buffered: seq<Byte>,
      incoming: seq<seq<Byte>>, parse: Parser)
    requires EndsAtBlank(header) && parse(header) == Some(Head(status, |body|))
    requires buffered + Flatten(incoming) == Answered(header, body + more)
    ensures var (r, later) := Read(buffered, incoming, parse);
      r.Response? && r.status == status && r.header == header && r.body == body && r.leftover + Flatten(later) == more
  {
    BlankBehind(header, body + more);
    assert (body + more)[..|body|] == body && (body + more)[|body|..] == more;
    ReadIsParseStream(buffered, incoming, parse);
  }

  /** The three ways to fail, by the bytes: no blank line, an unreadable status line, a body that ends early. */
  lemma ResponseFails(header: seq<Byte>, body: seq<Byte>, buffered: seq<Byte>, incoming: seq<seq<Byte>>, parse: Parser)
    requires EndsAtBlank(header) && buffered + Flatten(incoming) == Answered(header, body)
    ensures parse(header).None? ==> Read(buffered, incoming, parse).0 == InvalidStatus
    ensures parse(header).Some? && |body| < parse(header).value.contentLength ==>
      Read(buffered, incoming, parse).0 == BodyEndedEarly
  {
    BlankBehind(header, body);
    if parse(header).None? || |body| < parse(header).value.contentLength {
      ReadIsParseStream(buffered, incoming, parse);
    }
  }

  lemma NoBlankCloses(stream: seq<Byte>, buffered: seq<Byte>, incoming: seq<seq<Byte>>, parse: Parser)
    requires buffered + Flatten(incoming) == stream
    requires forall i: nat :: !BlankLine(stream, i)
    ensures Read(buffered, incoming, parse).0 == Closed
  {
    BlankLineAt(stream, FindBlank(stream));
    assert !HasBlank(stream);
    ReadIsParseStream(buffered, incoming, parse);
  }

  // ---- the responses in turn

  datatype Answer = Answer(header: seq<Byte>, body: seq<Byte>)

  /** A 200 response that lets the probe go on; `stage` counts the responses still to come. */
  predicate Good(a: Answer, stage: nat, parse: Parser, check: Check) {
    EndsAtBlank(a.header) && parse(a.header) == Some(Head(200, |a.body|)) && check(stage, a.header, a.body)
  }

  function WrittenAnswers(answers: seq<Answer>, more: seq<Byte>): seq<Byte> {
    if answers == [] then more
    else Answered(answers[0].header, answers[0].body + WrittenAnswers(answers[1..], more))
  }

  lemma ParseWritten(header: seq<Byte>, status: nat, body: seq<Byte>, more: seq<Byte>, parse: Parser)
    requires EndsAtBlank(header) && parse(header) == Some(Head(status, |body|))
    ensures ParseStream(Answered(header, body + more), parse) == Whole(status, header, body, more)
    ensures LengthUsable(Answered(header, body + more), parse)
  {
    BlankBehind(header, body + more);
    assert (body + more)[..|body|] == body && (body + more)[|body|..] == more;
  }

  /** Good responses lead to whatever is written behind them. */
  lemma {:induction false} ChainBack(answers: seq<Answer>, more: seq<Byte>, parse: Parser, check: Check)
    requires forall k :: 0 <= k < |answers| ==> Good(answers[k], |answers| - k, parse, check)
    ensures ChainOf(WrittenAnswers(answers, more), |answers|, parse, check) == Reaches(more)
    ensures UsableAlong(WrittenAnswers(answers, more), |answers|, parse, check)
  {
    if answers != [] {
      var a, later := answers[0], answers[1..];
      assert Good(a, |answers|, parse, check);
      forall k | 0 <= k < |later| ensures Good(later[k], |later| - k, parse, check) {
        assert Good(answers[k + 1], |answers| - (k + 1), parse, check);
      }
      ChainBack(later, more, parse, check);
      ParseWritten(a.header, 200, a.body, WrittenAnswers(later, more), parse);
    }
  }

  /** Any other status, or a response without what the next request needs, ends the probe at that response. */
  lemma OtherResponseRefuses(header: seq<Byte>, status: nat, body: seq<Byte>, more: seq<Byte>, n: nat,
      buffered: seq<Byte>, incoming: seq<seq<Byte>>, parse: Parser, check: Check)
    requires n > 0 && (status != 200 || !check(n, header, body))
    requires EndsAtBlank(header) && parse(header) == Some(Head(status, |body|))
    requires buffered + Flatten(incoming) == Answered(header, body + more)
    ensures Session(buffered, incoming, n, parse, check) == Refused(n)
  {
    ResponseBack(header, status, body, more, buffered, incoming, parse);
  }

  /** Good responses, in any cut, take the probe to the packets; it reports progress only if those show it. */
  lemma SessionBack(answers: seq<Answer>, more: seq<Byte>, buffered: seq<Byte>, incoming: seq<seq<Byte>>, parse: Parser,
      check: Check)
    requires forall k :: 0 <= k < |answers| ==> Good(answers[k], |answers| - k, parse, check)
    requires IsCut(WrittenAnswers(answers, more), buffered, incoming)
    ensures var outcome := Session(buffered, incoming, |answers|, parse, check);
      outcome.Probed? && (outcome.progressing ==> F.Progressing(more))
  {
    ChainBack(answers, more, parse, check);
    SessionMeans(buffered, incoming, |answers|, parse, check);
  }
}
