/** Streaming one provider process: its output lines become events, and every normal end carries a verdict. */
module ProviderRuntime {
  import opened AgentEvents
  import opened Options
  import opened Bytes

  /** What became of one line of output; the stream may also break or be cancelled where a line was awaited. */
  datatype Line = Blank | Dropped | Parsed(event: Event) | Breaks(text: string) | Cancels

  datatype Stop = Reached | Broken(text: string) | Cut

  /** What the provider's closing hook answers, if it has one. */
  datatype Closing = NoHook | Silent | Says(event: Event) | Fails(text: string)

  datatype Process = Process(lines: seq<Line>, exit: Stop, status: string, stderr: string, closing: Closing)

  datatype Launch = NotStarted(text: string) | Started(process: Process)

  datatype Ending = Finished | Cancelled

  function Detail(p: Process): string {
    if p.stderr != "" then p.stderr else "provider exited with status " + p.status
  }

  // ---- specification

  /** The events read before the output ended, and how it ended. */
  function Output(lines: seq<Line>): (seq<Event>, Stop) {
    if lines == [] then ([], Reached) else
      var (events, stop) := Output(lines[..|lines| - 1]);
      if !stop.Reached? then (events, stop)
      else match lines[|lines| - 1]
           case Parsed(event) => (events + [event], Reached)
           case Breaks(text) => (events, Broken(text))
           case Cancels => (events, Cut)
           case _ => (events, Reached)
  }

  ghost predicate HasVerdict(events: seq<Event>) {
    exists e :: e in events && IsTerminal(e)
  }

  // ---- the runtime

  /**
   * Relays the parsed events in order; unless the run is cancelled, something terminal is among what it yields. When
   * the process ran through and gave its own verdict, nothing is added.
   */
  method Run(launch: Launch) returns (yielded: seq<Event>, ending: Ending)
    ensures ending.Finished? ==> exists e :: e in yielded && (e.kind == Some("done") || e.kind == Some("error"))
    ensures launch.NotStarted? ==> yielded == [Event(Some("error"), None, launch.text)] && ending.Finished?
    ensures launch.Started? ==>
              var p, (parsed, stop) := launch.process, Output(launch.process.lines);
              && parsed <= yielded
              && (ending.Cancelled? <==> stop.Cut? || (stop.Reached? && p.exit.Cut?))
              && (ending.Cancelled? ==> yielded == parsed)
              && (stop.Broken? ==> yielded == parsed + [ErrorEvent(stop.text)])
              && (stop.Reached? && p.exit.Broken? ==> yielded == parsed + [ErrorEvent(p.exit.text)])
              && (stop.Reached? && p.exit.Reached? ==> yielded == parsed + Verdict(p, HasVerdict(parsed)))
  {
    yielded := [];
    if launch.NotStarted? {
      VerdictAppended([], ErrorEvent(launch.text));
      yielded := [ErrorEvent(launch.text)];
      return yielded, Finished;
    }
    var p := launch.process;
    var sentTerminal := false;
    for i := 0 to |p.lines|
      invariant Output(p.lines[..i]) == (yielded, Reached)
      invariant sentTerminal <==> HasVerdict(yielded)
    {
      OutputOf(p.lines, i);
      match p.lines[i] {
        case Blank =>
        case Dropped =>
        case Parsed(event) =>
          if IsTerminal(event) {
            sentTerminal := true;
          }
          VerdictAppended(yielded, event);
          yielded := yielded + [event];
        case Breaks(text) =>
          VerdictAppended(yielded, ErrorEvent(text));
          yielded := yielded + [ErrorEvent(text)];
          return yielded, Finished;
        case Cancels =>
          return yielded, Cancelled;
      }
    }
    assert p.lines[..|p.lines|] == p.lines;
    ghost var parsed := yielded;
    match p.exit {
      case Cut =>
        return yielded, Cancelled;
      case Broken(text) =>
        VerdictAppended(yielded, ErrorEvent(text));
        return yielded + [ErrorEvent(text)], Finished;
      case Reached =>
    }
    if !sentTerminal {
      match p.closing {
        case Fails(text) =>
          VerdictAppended(yielded, ErrorEvent(text));
          return yielded + [ErrorEvent(text)], Finished;
        case Says(event) =>
          VerdictAppended(yielded, event);
          sentTerminal := IsTerminal(event);
          yielded := yielded + [event];
        case _ =>
      }
      if !sentTerminal {
        VerdictAppended(yielded, ErrorEvent(Detail(p)));
        yielded := yielded + [ErrorEvent(Detail(p))];
      }
    }
    return yielded, Finished;
  }

  /** What is added when the process ends by itself: nothing after a verdict, else the hook's word or an error. */
  function Verdict(p: Process, given: bool): seq<Event> {
    if given then []
    else match p.closing
         case Fails(text) => [ErrorEvent(text)]
         case Says(event) => if IsTerminal(event) then [event] else [event, ErrorEvent(Detail(p))]
         case _ => [ErrorEvent(Detail(p))]
  }

  lemma VerdictAppended(events: seq<Event>, e: Event)
    ensures HasVerdict(events + [e]) <==> HasVerdict(events) || IsTerminal(e)
  {
    assert e in events + [e] && forall x :: x in events ==> x in events + [e];
  }

  /** A line adds its event if it parsed, ends the output if the stream broke or was cancelled at it, or is skipped. */
  lemma OutputGrows(lines: seq<Line>, line: Line)
    ensures Output([]) == ([], Reached)
    ensures var (events, stop) := Output(lines);
      Output(lines + [line]) == (
        if stop != Reached then (events, stop)
        else match line
          case Blank => (events, Reached)
          case Dropped => (events, Reached)
          case Parsed(event) => (events + [event], Reached)
          case Breaks(text) => (events, Broken(text))
          case Cancels => (events, Cut))
  {
    assert (lines + [line])[..|lines|] == lines;
  }

  /** Whatever is listed behind the end of the output is never read. */
  lemma {:induction false} OutputStops(lines: seq<Line>, more: seq<Line>)
    requires Output(lines).1 != Reached
    ensures Output(lines + more) == Output(lines)
    decreases |more|
  {
    if more == [] {
      assert lines + more == lines;
    } else {
      OutputStops(lines, more[..|more| - 1]);
      OutputGrows(lines + more[..|more| - 1], more[|more| - 1]);
      assert lines + more == lines + more[..|more| - 1] + [more[|more| - 1]];
    }
  }

  /** The output ends early exactly when the stream broke or was cancelled at some line. */
  lemma {:induction false} OutputReachesExactly(lines: seq<Line>)
    ensures Output(lines).1 == Reached <==> forall k :: 0 <= k < |lines| ==> !lines[k].Breaks? && !lines[k].Cancels?
  {
    if lines != [] {
      OutputReachesExactly(lines[..|lines| - 1]);
      assert lines == lines[..|lines| - 1] + [lines[|lines| - 1]];
      OutputGrows(lines[..|lines| - 1], lines[|lines| - 1]);
    }
  }

  /** What a process that ends by itself has added for it, case by case. */
  lemma VerdictMeans(p: Process, given: bool)
    ensures var detail := Event(Some("error"), None,
        if p.stderr == "" then "provider exited with status " + p.status else p.stderr);
      Verdict(p, given) == (
        if given then []
        else match p.closing
          case NoHook => [detail]
          case Silent => [detail]
          case Fails(text) => [Event(Some("error"), None, text)]
          case Says(e) => if e.kind == Some("done") || e.kind == Some("error") then [e] else [e, detail])
  {
  }

  /** A process that gave its own verdict has nothing added. */
  lemma OwnVerdictStands(p: Process, parsed: seq<Event>, e: Event)
    requires e in parsed && (e.kind == Some("done") || e.kind == Some("error"))
    ensures Verdict(p, HasVerdict(parsed)) == []
  {
    assert IsTerminal(e);
  }

  /** What has been read by line `i` decides how the whole output starts, and its end once it has stopped. */
  lemma {:induction false} OutputOf(lines: seq<Line>, i: nat)
    requires i < |lines|
    ensures lines[..i + 1][..i] == lines[..i]
    ensures !Output(lines[..i + 1]).1.Reached? ==> Output(lines) == Output(lines[..i + 1])
    ensures Output(lines[..i + 1]).0 <= Output(lines).0
    decreases |lines|
  {
    if i + 1 < |lines| {
      var init := lines[..|lines| - 1];
      assert init[..i + 1] == lines[..i + 1];
      OutputOf(init, i);
    } else {
      assert lines[..i + 1] == lines;
    }
  }

  // ---- the tail of the error stream

  const TAIL := 65536
  const CHUNK := 4096

  function Total(chunks: seq<seq<Byte>>): nat {
    if chunks == [] then 0 else |chunks[0]| + Total(chunks[1..])
  }

  lemma {:induction false} TotalAppended(chunks: seq<seq<Byte>>, c: seq<Byte>)
    ensures Total(chunks + [c]) == Total(chunks) + |c|
  {
    if chunks != [] {
      assert (chunks + [c])[1..] == chunks[1..] + [c];
      TotalAppended(chunks[1..], c);
    }
  }

  /** The tail holds whole chunks, and one more would be too many. */
  ghost predicate Reaches(chunks: seq<seq<Byte>>, tail: seq<seq<Byte>>) {
    && |tail| <= |chunks| && tail == chunks[|chunks| - |tail|..]
    && (|tail| < |chunks| ==> Total(chunks[|chunks| - |tail| - 1..]) > 65536)
  }

  lemma ReachesAppended(chunks: seq<seq<Byte>>, tail: seq<seq<Byte>>, c: seq<Byte>)
    requires Reaches(chunks, tail)
    ensures Reaches(chunks + [c], tail + [c])
  {
    if |tail| < |chunks| {
      var k := |chunks| - |tail| - 1;
      TotalAppended(chunks[k..], c);
      assert (chunks + [c])[k..] == chunks[k..] + [c];
    }
  }

  lemma ReachesDropped(chunks: seq<seq<Byte>>, tail: seq<seq<Byte>>)
    requires Reaches(chunks, tail) && tail != [] && Total(tail) > TAIL
    ensures Reaches(chunks, tail[1..])
  {
    assert tail[1..] == chunks[|chunks| - |tail| + 1..];
  }

  /** With reads bounded by the chunk size, a tail that dropped anything is nearly full. */
  lemma TailNearlyFull(chunks: seq<seq<Byte>>, tail: seq<seq<Byte>>)
    requires Reaches(chunks, tail) && |tail| < |chunks|
    requires forall k :: 0 <= k < |chunks| ==> |chunks[k]| <= 4096
    ensures Total(tail) > 61440
  {
    var k := |chunks| - |tail| - 1;
    assert chunks[k..][1..] == tail;
  }

  /** The inner loop: drops the oldest chunks until the rest fits. */
  method Trim(ghost chunks: seq<seq<Byte>>, tail: seq<seq<Byte>>, total: nat) returns (rest: seq<seq<Byte>>, size: nat)
    requires Reaches(chunks, tail) && total == Total(tail)
    ensures Reaches(chunks, rest) && size == Total(rest) <= TAIL
  {
    rest, size := tail, total;
    while size > TAIL && rest != []
      invariant size == Total(rest)
      invariant Reaches(chunks, rest)
      decreases |rest|
    {
      ReachesDropped(chunks, rest);
      size := size - |rest[0]|;
      rest := rest[1..];
    }
  }

  /**
   * Keeps the last of what the process wrote to its error stream, read in chunks: the longest run of whole chunks that
   * fits the bound, and all of them unless they do not fit.
   */
  method ReadStderr(chunks: seq<seq<Byte>>) returns (tail: seq<seq<Byte>>)
    ensures Reaches(chunks, tail) && Total(tail) <= 65536
  {
    tail := [];
    var size := 0;
    ghost var seen: seq<seq<Byte>> := [];
    for i := 0 to |chunks|
      invariant seen == chunks[..i]
      invariant Reaches(seen, tail)
      invariant size == Total(tail) <= TAIL
    {
      tail, size := Keep(seen, tail, size, chunks[i]);
      seen := Seen(chunks, i);
    }
    assert seen == chunks;
  }

  /** Takes one more chunk into the tail. */
  method Keep(ghost chunks: seq<seq<Byte>>, tail: seq<seq<Byte>>, total: nat, c: seq<Byte>)
    returns (rest: seq<seq<Byte>>, size: nat)
    requires Reaches(chunks, tail) && total == Total(tail)
    ensures Reaches(chunks + [c], rest) && size == Total(rest) <= TAIL
  {
    ReachesAppended(chunks, tail, c);
    TotalAppended(tail, c);
    rest, size := Trim(chunks + [c], tail + [c], total + |c|);
  }

  ghost function Seen(chunks: seq<seq<Byte>>, i: nat): (seen: seq<seq<Byte>>)
    requires i < |chunks|
    ensures seen == chunks[..i] + [chunks[i]]
  {
    chunks[..i + 1]
  }
}
