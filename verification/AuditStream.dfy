/** The supervisor's audit of a provider stream: consecutive tokens are stored joined, everything else one by one. */
module AuditStream {
  import opened Options
  import opened AgentEvents
  import opened CortexStore

  /** What the supervised stream brings next: a provider event, or a record of the planner running beside it. */
  datatype Happening = Yields(event: Event, now: real) | Plans(name: string, payload: Event, now: real)

  /** How the provider stream ends for the supervisor. */
  datatype End = Finishes | IsCancelled | Raises(text: string)

  datatype Audit = Audit(pending: seq<string>, size: nat, terminal: Option<string>, db: Db)

  const FLUSH_AT := 4096
  const TOKEN := Provider("token")

  function Join(parts: seq<string>): string {
    if parts == [] then "" else Join(parts[..|parts| - 1]) + parts[|parts| - 1]
  }

  function TypeName(e: Event): string {
    if e.kind.Some? && e.kind.value != "" then e.kind.value else "unknown"
  }

  function Joined(text: string): Event {
    Event(Some("token"), Some(text), "")
  }

  function Flush(a: Audit, job: string, now: real): Audit {
    if a.pending == [] then a
    else a.(pending := [], size := 0, db := Appended(a.db, job, TOKEN, Joined(Join(a.pending)), now))
  }

  function Noted(terminal: Option<string>, e: Event): Option<string> {
    if e.kind == Some("error") then Some("error")
    else if e.kind == Some("done") && terminal.None? then Some("done")
    else terminal
  }

  function Observe(a: Audit, job: string, safe: Event -> Event, e: Event, now: real): Audit {
    var n := a.(terminal := Noted(a.terminal, e));
    if IsToken(e) then
      var p := n.(pending := n.pending + [e.delta.value], size := n.size + |e.delta.value|);
      if p.size >= FLUSH_AT then Flush(p, job, now) else p
    else
      var f := Flush(n, job, now);
      f.(db := Appended(f.db, job, Provider(TypeName(e)), safe(e), now))
  }

  function Follow(a: Audit, job: string, safe: Event -> Event, h: Happening): Audit {
    match h
    case Yields(e, now) => Observe(a, job, safe, e, now)
    case Plans(name, payload, now) => a.(db := Appended(a.db, job, EventType.Supervisor(name), payload, now))
  }

  function Audited(a: Audit, job: string, safe: Event -> Event, stream: seq<Happening>): Audit {
    if stream == [] then a
    else Follow(Audited(a, job, safe, stream[..|stream| - 1]), job, safe, stream[|stream| - 1])
  }

  /** A normal end flushes and decides the phase; the other ends leave what was pending unstored. */
  function Closed(a: Audit, job: string, end: End, now: real): Db {
    match end
    case IsCancelled => PhaseSet(a.db, job, "cancelled", None, now)
    case Raises(text) => PhaseSet(a.db, job, "failed", Some(text), now)
    case Finishes =>
      var f := Flush(a, job, now);
      if f.terminal == Some("done") then PhaseSet(f.db, job, "completed", None, now)
      else PhaseSet(f.db, job, "failed", Some("provider stream ended with an error"), now)
  }

  function Opened(db: Db): Audit {
    Audit([], 0, None, db)
  }

  function EventsIn(stream: seq<Happening>): seq<Event> {
    if stream == [] then [] else
      EventsIn(stream[..|stream| - 1]) +
      match stream[|stream| - 1] case Yields(e, _) => [e] case Plans(_, _, _) => []
  }

  /** One supervised run with the variables its token flushing shares. */
  class AuditRun {
    const store: CortexStore
    const job: string
    const safe: Event -> Event
    var pendingText: seq<string>
    var pendingSize: nat
    var terminalType: Option<string>

    function View(): Audit
      reads this, store
    {
      Audit(pendingText, pendingSize, terminalType, store.View())
    }

    constructor (store: CortexStore, job: string, safe: Event -> Event)
      ensures this.store == store && this.job == job && this.safe == safe && View() == Opened(store.View())
    {
      this.store, this.job, this.safe := store, job, safe;
      pendingText, pendingSize, terminalType := [], 0, None;
    }

    method FlushTokens(now: real)
      modifies this, store
      ensures View() == Flush(old(View()), job, now)
    {
      if pendingText == [] {
        return;
      }
      var text := "";
      for i := 0 to |pendingText|
        invariant text == Join(pendingText[..i])
        invariant View() == old(View())
      {
        assert pendingText[..i + 1][..i] == pendingText[..i];
        text := text + pendingText[i];
      }
      assert pendingText[..|pendingText|] == pendingText;
      var _ := store.AppendEvent(job, TOKEN, Joined(text), now);
      pendingText, pendingSize := [], 0;
    }

    method ObserveEvent(event: Event, now: real)
      modifies this, store
      ensures View() == Observe(old(View()), job, safe, event, now)
    {
      if event.kind == Some("error") {
        terminalType := Some("error");
      } else if event.kind == Some("done") && terminalType.None? {
        terminalType := Some("done");
      }
      if IsToken(event) {
        pendingText := pendingText + [event.delta.value];
        pendingSize := pendingSize + |event.delta.value|;
        if pendingSize >= FLUSH_AT {
          FlushTokens(now);
        }
      } else {
        FlushTokens(now);
        var _ := store.AppendEvent(job, Provider(TypeName(event)), safe(event), now);
      }
    }

    /** Forwards every provider event unchanged while the audit follows along. */
    method Run(stream: seq<Happening>, end: End, now: real) returns (forwarded: seq<Event>)
      modifies this, store
      ensures forwarded == EventsIn(stream)
      ensures store.View() == Closed(Audited(old(View()), job, safe, stream), job, end, now)
    {
      forwarded := [];
      for i := 0 to |stream|
        invariant forwarded == EventsIn(stream[..i])
        invariant View() == Audited(old(View()), job, safe, stream[..i])
      {
        assert stream[..i + 1][..i] == stream[..i];
        match stream[i] {
          case Yields(event, at) =>
            ObserveEvent(event, at);
            forwarded := forwarded + [event];
          case Plans(name, payload, at) =>
            var _ := store.AppendEvent(job, EventType.Supervisor(name), payload, at);
        }
      }
      assert stream[..|stream|] == stream;
      match end {
        case IsCancelled =>
          store.SetPhase(job, "cancelled", None, now);
        case Raises(text) =>
          store.SetPhase(job, "failed", Some(text), now);
        case Finishes =>
          FlushTokens(now);
          if terminalType == Some("done") {
            store.SetPhase(job, "completed", None, now);
          } else {
            store.SetPhase(job, "failed", Some("provider stream ended with an error"), now);
          }
      }
    }
  }
}
