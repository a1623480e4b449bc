/** The stored trail says exactly what the provider stream said, and the job's phase follows from it. */
module AuditFaithfulness {
  import opened Options
  import opened AgentEvents
  import opened CortexStore
  import opened AuditStream
  import StoreRuns
  import Runtime = ProviderRuntime

  // ---- what a trail says

  /** A trail read out: token text character by character, everything else whole. */
  datatype Item = Char(c: char) | Whole(name: string, payload: Event)

  function Chars(text: string): seq<Item> {
    seq(|text|, i requires 0 <= i < |text| => Char(text[i]))
  }

  function RowItems(row: Row): seq<Item> {
    match row.kind
    case Supervisor(_) => []
    case Provider(name) =>
      if name == "token" && row.payload.delta.Some? && row.payload == Event(Some("token"), row.payload.delta, "")
        then Chars(row.payload.delta.value)
      else [Whole(name, row.payload)]
  }

  function Expand(rows: seq<Row>): seq<Item> {
    if rows == [] then [] else Expand(rows[..|rows| - 1]) + RowItems(rows[|rows| - 1])
  }

  function EventItems(e: Event, safe: Event -> Event): seq<Item> {
    if e.kind == Some("token") && e.delta.Some? then Chars(e.delta.value)
    else [Whole(if e.kind.None? || e.kind.value == "" then "unknown" else e.kind.value, safe(e))]
  }

  function Said(events: seq<Event>, safe: Event -> Event): seq<Item> {
    if events == [] then [] else Said(events[..|events| - 1], safe) + EventItems(events[|events| - 1], safe)
  }

  function HappeningItems(h: Happening, safe: Event -> Event): seq<Item> {
    match h
    case Yields(e, _) => EventItems(e, safe)
    case Plans(_, _, _) => []
  }

  /** Redaction turns no other value into a string delta. */
  ghost predicate KeepsShape(safe: Event -> Event) {
    forall e :: safe(e).delta.Some? <==> e.delta.Some?
  }

  /** What has been stored for the job and what is still pending, read out. */
  function Told(a: Audit, job: string): seq<Item> {
    Expand(RowsOf(a.db.events, job)) + Chars(Join(a.pending))
  }

  // ---- each happening adds what it says

  lemma ExpandAppended(rows: seq<Row>, row: Row)
    ensures Expand(rows + [row]) == Expand(rows) + RowItems(row)
  {
    assert (rows + [row])[..|rows|] == rows;
  }

  lemma AppendedRows(db: Db, job: string, kind: EventType, payload: Event, now: real)
    requires job in db.jobs
    ensures RowsOf(Appended(db, job, kind, payload, now).events, job) ==
            RowsOf(db.events, job) + [NewRow(db, job, kind, payload, now)]
  {
    StoreRuns.AppendRow(db.events, NewRow(db, job, kind, payload, now), job);
  }

  lemma AppendedTells(db: Db, job: string, kind: EventType, payload: Event, now: real)
    requires job in db.jobs
    ensures Expand(RowsOf(Appended(db, job, kind, payload, now).events, job)) ==
            Expand(RowsOf(db.events, job)) + RowItems(NewRow(db, job, kind, payload, now))
  {
    AppendedRows(db, job, kind, payload, now);
    ExpandAppended(RowsOf(db.events, job), NewRow(db, job, kind, payload, now));
  }

  lemma CharsJoined(a: string, b: string)
    ensures Chars(a + b) == Chars(a) + Chars(b)
  {
  }

  lemma FlushTells(a: Audit, job: string, now: real)
    requires job in a.db.jobs
    ensures Told(Flush(a, job, now), job) == Told(a, job)
    ensures Flush(a, job, now).pending == [] && job in Flush(a, job, now).db.jobs
    ensures Expand(RowsOf(Flush(a, job, now).db.events, job)) == Told(a, job)
  {
    if a.pending != [] {
      AppendedTells(a.db, job, TOKEN, Joined(Join(a.pending)), now);
    }
    assert Chars("") == [];
  }

  lemma PendTells(a: Audit, job: string, text: string)
    ensures Told(a.(pending := a.pending + [text], size := a.size + |text|), job) == Told(a, job) + Chars(text)
  {
    assert (a.pending + [text])[..|a.pending|] == a.pending;
    CharsJoined(Join(a.pending), text);
  }

  /** What the audit stores for an event says the event. */
  lemma StoredItems(e: Event, safe: Event -> Event)
    ensures EventItems(e, safe) == if IsToken(e) then Chars(e.delta.value) else [Whole(TypeName(e), safe(e))]
  {
  }

  lemma WholeRowTells(db: Db, job: string, safe: Event -> Event, e: Event, now: real)
    requires job in db.jobs && KeepsShape(safe) && !IsToken(e)
    ensures RowItems(NewRow(db, job, Provider(TypeName(e)), safe(e), now)) == [Whole(TypeName(e), safe(e))]
  {
    assert TypeName(e) == "token" ==> safe(e).delta.None?;
  }

  lemma ObserveTells(a: Audit, job: string, safe: Event -> Event, e: Event, now: real)
    requires job in a.db.jobs && KeepsShape(safe)
    ensures Told(Observe(a, job, safe, e, now), job) == Told(a, job) + EventItems(e, safe)
    ensures job in Observe(a, job, safe, e, now).db.jobs
  {
    StoredItems(e, safe);
    if IsToken(e) {
      TokenTells(a, job, safe, e, now);
    } else {
      OtherTells(a, job, safe, e, now);
    }
  }

  lemma TokenTells(a: Audit, job: string, safe: Event -> Event, e: Event, now: real)
    requires job in a.db.jobs && IsToken(e)
    ensures Told(Observe(a, job, safe, e, now), job) == Told(a, job) + Chars(e.delta.value)
    ensures job in Observe(a, job, safe, e, now).db.jobs
  {
    var n := a.(terminal := Noted(a.terminal, e));
    PendTells(n, job, e.delta.value);
    FlushTells(n.(pending := n.pending + [e.delta.value], size := n.size + |e.delta.value|), job, now);
  }

  lemma OtherTells(a: Audit, job: string, safe: Event -> Event, e: Event, now: real)
    requires job in a.db.jobs && KeepsShape(safe) && !IsToken(e)
    ensures Told(Observe(a, job, safe, e, now), job) == Told(a, job) + [Whole(TypeName(e), safe(e))]
    ensures job in Observe(a, job, safe, e, now).db.jobs
  {
    var n := a.(terminal := Noted(a.terminal, e));
    FlushTells(n, job, now);
    var f := Flush(n, job, now);
    AppendedTells(f.db, job, Provider(TypeName(e)), safe(e), now);
    WholeRowTells(f.db, job, safe, e, now);
    assert Chars("") == [];
  }

  lemma PlanTells(a: Audit, job: string, safe: Event -> Event, name: string, payload: Event, now: real)
    requires job in a.db.jobs
    ensures Told(Follow(a, job, safe, Plans(name, payload, now)), job) == Told(a, job)
  {
    var kind := EventType.Supervisor(name);
    var r := a.(db := Appended(a.db, job, kind, payload, now));
    assert Follow(a, job, safe, Plans(name, payload, now)) == r;
    AppendedTells(a.db, job, kind, payload, now);
    assert RowItems(NewRow(a.db, job, kind, payload, now)) == [];
    assert Expand(RowsOf(r.db.events, job)) == Expand(RowsOf(a.db.events, job));
  }

  lemma AfterTells(a: Audit, job: string, safe: Event -> Event, h: Happening)
    requires job in a.db.jobs && KeepsShape(safe)
    ensures job in Follow(a, job, safe, h).db.jobs
    ensures Told(Follow(a, job, safe, h), job) == Told(a, job) + HappeningItems(h, safe)
  {
    match h {
      case Yields(e, now) => ObserveTells(a, job, safe, e, now);
      case Plans(name, payload, now) =>
        PlanTells(a, job, safe, name, payload, now);
        assert Told(a, job) + [] == Told(a, job);
    }
  }

  lemma SaidStep(stream: seq<Happening>, safe: Event -> Event)
    requires stream != []
    ensures Said(EventsIn(stream), safe) ==
            Said(EventsIn(stream[..|stream| - 1]), safe) + HappeningItems(stream[|stream| - 1], safe)
  {
    var init, last := stream[..|stream| - 1], stream[|stream| - 1];
    if last.Yields? {
      assert (EventsIn(init) + [last.event])[..|EventsIn(init)|] == EventsIn(init);
    } else {
      assert EventsIn(stream) == EventsIn(init);
    }
  }

  lemma Assoc(a: seq<Item>, b: seq<Item>, c: seq<Item>)
    ensures (a + b) + c == a + (b + c)
  {
  }

  lemma {:induction false} AuditedTells(db: Db, job: string, safe: Event -> Event, stream: seq<Happening>)
    requires job in db.jobs && KeepsShape(safe)
    ensures var a := Audited(Opened(db), job, safe, stream);
      job in a.db.jobs && Told(a, job) == Expand(RowsOf(db.events, job)) + Said(EventsIn(stream), safe)
  {
    if stream != [] {
      var init, last := stream[..|stream| - 1], stream[|stream| - 1];
      AuditedTells(db, job, safe, init);
      AfterTells(Audited(Opened(db), job, safe, init), job, safe, last);
      SaidStep(stream, safe);
      Assoc(Expand(RowsOf(db.events, job)), Said(EventsIn(init), safe), HappeningItems(last, safe));
    } else {
      assert Chars("") == [];
    }
  }

  // ---- the terminal type

  ghost predicate Has(events: seq<Event>, kind: string) {
    exists e :: e in events && e.kind == Some(kind)
  }

  lemma HasAppended(events: seq<Event>, e: Event, kind: string)
    ensures Has(events + [e], kind) <==> Has(events, kind) || e.kind == Some(kind)
  {
    assert e in events + [e] && forall x :: x in events ==> x in events + [e];
  }

  lemma {:induction false} TerminalOf(db: Db, job: string, safe: Event -> Event, stream: seq<Happening>)
    ensures Audited(Opened(db), job, safe, stream).terminal ==
            if Has(EventsIn(stream), "error") then Some("error")
            else if Has(EventsIn(stream), "done") then Some("done") else None
  {
    if stream != [] {
      var init, last := stream[..|stream| - 1], stream[|stream| - 1];
      TerminalOf(db, job, safe, init);
      if last.Yields? {
        HasAppended(EventsIn(init), last.event, "error");
        HasAppended(EventsIn(init), last.event, "done");
      }
    }
  }

  // ---- the main results

  /** Phases do not touch the trail. */
  lemma PhaseKeepsTrail(db: Db, job: string, phase: string, errorText: Option<string>, now: real)
    requires StoreRuns.Numbered(db)
    ensures Events(PhaseSet(db, job, phase, errorText, now), job) == RowsOf(db.events, job)
  {
    assert StoreRuns.Counted(RowsOf(db.events, job));
    StoreRuns.AscendingIsOrdered(RowsOf(db.events, job));
  }

  lemma FlushKeepsNumbered(a: Audit, job: string, now: real)
    requires StoreRuns.Numbered(a.db)
    ensures StoreRuns.Numbered(Flush(a, job, now).db)
  {
    StoreRuns.AppendKeepsNumbered(a.db, job, TOKEN, Joined(Join(a.pending)), now);
  }

  lemma AfterKeepsNumbered(a: Audit, job: string, safe: Event -> Event, h: Happening)
    requires StoreRuns.Numbered(a.db)
    ensures StoreRuns.Numbered(Follow(a, job, safe, h).db)
  {
    match h {
      case Plans(name, payload, now) =>
        StoreRuns.AppendKeepsNumbered(a.db, job, EventType.Supervisor(name), payload, now);
      case Yields(e, now) =>
        var n := a.(terminal := Noted(a.terminal, e));
        if IsToken(e) {
          FlushKeepsNumbered(n.(pending := n.pending + [e.delta.value], size := n.size + |e.delta.value|), job, now);
        } else {
          FlushKeepsNumbered(n, job, now);
          StoreRuns.AppendKeepsNumbered(Flush(n, job, now).db, job, Provider(TypeName(e)), safe(e), now);
        }
    }
  }

  lemma {:induction false} AuditedKeepsNumbered(db: Db, job: string, safe: Event -> Event, stream: seq<Happening>)
    requires StoreRuns.Numbered(db)
    ensures StoreRuns.Numbered(Audited(Opened(db), job, safe, stream).db)
  {
    if stream != [] {
      AuditedKeepsNumbered(db, job, safe, stream[..|stream| - 1]);
      AfterKeepsNumbered(Audited(Opened(db), job, safe, stream[..|stream| - 1]), job, safe, stream[|stream| - 1]);
    }
  }

  /**
   * When the stream ends normally, reading the job's trail gives what it said before, then every event yielded: the
   * same text at the same place between the same other events, whatever the planner recorded in between.
   */
  lemma TrailIsFaithful(db: Db, job: string, safe: Event -> Event, stream: seq<Happening>, now: real)
    requires job in db.jobs && KeepsShape(safe) && StoreRuns.Numbered(db)
    ensures var after := Closed(Audited(Opened(db), job, safe, stream), job, Finishes, now);
      Expand(Events(after, job)) == Expand(Events(db, job)) + Said(EventsIn(stream), safe)
  {
    var a := Audited(Opened(db), job, safe, stream);
    AuditedTells(db, job, safe, stream);
    AuditedKeepsNumbered(db, job, safe, stream);
    FlushTells(a, job, now);
    FlushKeepsNumbered(a, job, now);
    var f := Flush(a, job, now);
    PhaseKeepsTrail(f.db, job, "completed", None, now);
    PhaseKeepsTrail(f.db, job, "failed", Some("provider stream ended with an error"), now);
    assert StoreRuns.Counted(RowsOf(db.events, job));
    StoreRuns.AscendingIsOrdered(RowsOf(db.events, job));
  }

  /** The job completes exactly when a done and no error was yielded, and fails otherwise. */
  lemma PhaseFollowsStream(db: Db, job: string, safe: Event -> Event, stream: seq<Happening>, now: real)
    requires job in db.jobs && KeepsShape(safe)
    ensures var after := Closed(Audited(Opened(db), job, safe, stream), job, Finishes, now);
      && job in after.jobs
      && after.jobs[job] ==
         if Has(EventsIn(stream), "done") && !Has(EventsIn(stream), "error") then Job("completed", None, now)
         else Job("failed", Some("provider stream ended with an error"), now)
  {
    AuditedTells(db, job, safe, stream);
    TerminalOf(db, job, safe, stream);
    FlushTells(Audited(Opened(db), job, safe, stream), job, now);
  }

  /** A provider stream that ended by itself always brought a verdict, so its job fails only if an error was yielded. */
  lemma FailsOnlyOnError(db: Db, job: string, safe: Event -> Event, stream: seq<Happening>, now: real)
    requires job in db.jobs && KeepsShape(safe) && Runtime.HasVerdict(EventsIn(stream))
    ensures var after := Closed(Audited(Opened(db), job, safe, stream), job, Finishes, now);
      && job in after.jobs
      && (after.jobs[job].phase == "failed" <==> Has(EventsIn(stream), "error"))
      && (after.jobs[job].phase == "completed" <==> !Has(EventsIn(stream), "error"))
  {
    PhaseFollowsStream(db, job, safe, stream, now);
    var e :| e in EventsIn(stream) && IsTerminal(e);
    assert e.kind == Some("done") ==> Has(EventsIn(stream), "done");
    assert e.kind == Some("error") ==> Has(EventsIn(stream), "error");
  }

  // ---- streams cut short

  ghost predicate SizeKept(a: Audit) {
    a.size == |Join(a.pending)| < FLUSH_AT
  }

  lemma AfterKeepsSize(a: Audit, job: string, safe: Event -> Event, h: Happening)
    requires SizeKept(a)
    ensures SizeKept(Follow(a, job, safe, h))
  {
    if h.Yields? && IsToken(h.event) {
      assert (a.pending + [h.event.delta.value])[..|a.pending|] == a.pending;
    }
  }

  lemma {:induction false} AuditedKeepsSize(db: Db, job: string, safe: Event -> Event, stream: seq<Happening>)
    ensures SizeKept(Audited(Opened(db), job, safe, stream))
  {
    if stream != [] {
      AuditedKeepsSize(db, job, safe, stream[..|stream| - 1]);
      AfterKeepsSize(Audited(Opened(db), job, safe, stream[..|stream| - 1]), job, safe, stream[|stream| - 1]);
    }
  }

  /** The token text yielded since the last flush: since the flush size was reached or another kind of event came. */
  function Unflushed(stream: seq<Happening>): string {
    if stream == [] then "" else
      var before := Unflushed(stream[..|stream| - 1]);
      match stream[|stream| - 1]
      case Plans(_, _, _) => before
      case Yields(e, _) =>
        if e.kind != Some("token") || e.delta.None? then ""
        else if |before| + |e.delta.value| >= 4096 then "" else before + e.delta.value
  }

  lemma FollowPends(a: Audit, job: string, safe: Event -> Event, e: Event, now: real)
    requires SizeKept(a)
    ensures Join(Follow(a, job, safe, Yields(e, now)).pending) ==
            if !IsToken(e) || |Join(a.pending) + e.delta.value| >= FLUSH_AT then "" else Join(a.pending) + e.delta.value
  {
    if IsToken(e) {
      assert (a.pending + [e.delta.value])[..|a.pending|] == a.pending;
    }
  }

  lemma {:induction false} PendingIsUnflushed(db: Db, job: string, safe: Event -> Event, stream: seq<Happening>)
    ensures Join(Audited(Opened(db), job, safe, stream).pending) == Unflushed(stream)
  {
    if stream != [] {
      var init, last := stream[..|stream| - 1], stream[|stream| - 1];
      PendingIsUnflushed(db, job, safe, init);
      AuditedKeepsSize(db, job, safe, init);
      if last.Yields? {
        FollowPends(Audited(Opened(db), job, safe, init), job, safe, last.event, last.now);
      }
    }
  }

  lemma {:induction false} UnflushedIsShort(stream: seq<Happening>)
    ensures |Unflushed(stream)| < 4096
  {
    if stream != [] {
      UnflushedIsShort(stream[..|stream| - 1]);
    }
  }

  /** A cancelled or raising stream loses exactly the token text not flushed yet, always less than one flush of it. */
  lemma CutShortLosesTail(db: Db, job: string, safe: Event -> Event, stream: seq<Happening>, end: End, now: real)
    requires job in db.jobs && KeepsShape(safe) && StoreRuns.Numbered(db) && !end.Finishes?
    ensures var after := Closed(Audited(Opened(db), job, safe, stream), job, end, now);
      && Expand(Events(after, job)) + Chars(Unflushed(stream)) == Expand(Events(db, job)) + Said(EventsIn(stream), safe)
      && |Unflushed(stream)| < 4096
      && job in after.jobs && after.jobs[job] ==
        if end.IsCancelled? then Job("cancelled", None, now) else Job("failed", Some(end.text), now)
  {
    var a := Audited(Opened(db), job, safe, stream);
    AuditedTells(db, job, safe, stream);
    PendingIsUnflushed(db, job, safe, stream);
    UnflushedIsShort(stream);
    AuditedKeepsNumbered(db, job, safe, stream);
    match end {
      case IsCancelled => PhaseKeepsTrail(a.db, job, "cancelled", None, now);
      case Raises(text) => PhaseKeepsTrail(a.db, job, "failed", Some(text), now);
    }
    assert StoreRuns.Counted(RowsOf(db.events, job));
    StoreRuns.AscendingIsOrdered(RowsOf(db.events, job));
  }

  /** The trail of a stream cut short is complete exactly when no token text was waiting. */
  lemma CutShortIsCompleteExactly(db: Db, job: string, safe: Event -> Event, stream: seq<Happening>, end: End,
      now: real)
    requires job in db.jobs && KeepsShape(safe) && StoreRuns.Numbered(db) && !end.Finishes?
    ensures var after := Closed(Audited(Opened(db), job, safe, stream), job, end, now);
      Expand(Events(after, job)) == Expand(Events(db, job)) + Said(EventsIn(stream), safe) <==> Unflushed(stream) == ""
  {
    CutShortLosesTail(db, job, safe, stream, end, now);
  }

  lemma OneEventIn(e: Event, now: real)
    ensures EventsIn([Yields(e, now)]) == [e]
  {
    assert [Yields(e, now)][..0] == [];
  }

  lemma OneEventSaid(e: Event, safe: Event -> Event)
    ensures Said([e], safe) == EventItems(e, safe)
  {
    assert [e][..0] == [];
    assert Said([e], safe) == Said([], safe) + EventItems(e, safe);
  }

  lemma OneTokenWaits(text: string, now: real)
    requires |text| < 4096
    ensures Unflushed([Yields(Event(Some("token"), Some(text), ""), now)]) == text
  {
    var stream := [Yields(Event(Some("token"), Some(text), ""), now)];
    assert stream[..0] == [];
    assert "" + text == text;
  }

  lemma NothingBefore(a: seq<Item>, b: seq<Item>, c: seq<Item>)
    requires a + b == [] + c && |b| == |c|
    ensures a == []
  {
    assert |a + b| == |[] + c|;
  }

  /** One token shorter than a flush, then a cancel: the job's trail stays empty. */
  lemma CancelledTokenIsLost(db: Db, job: string, safe: Event -> Event, text: string, now: real)
    requires job in db.jobs && KeepsShape(safe) && StoreRuns.Numbered(db) && RowsOf(db.events, job) == []
    requires |text| < 4096
    ensures var stream := [Yields(Event(Some("token"), Some(text), ""), now)];
      var after := Closed(Audited(Opened(db), job, safe, stream), job, IsCancelled, now);
      Expand(Events(after, job)) == [] && Said(EventsIn(stream), safe) == Chars(text)
  {
    var token := Event(Some("token"), Some(text), "");
    var stream := [Yields(token, now)];
    OneEventIn(token, now);
    OneEventSaid(token, safe);
    OneTokenWaits(text, now);
    CutShortLosesTail(db, job, safe, stream, IsCancelled, now);
    assert Events(db, job) == [];
    var after := Closed(Audited(Opened(db), job, safe, stream), job, IsCancelled, now);
    NothingBefore(Expand(Events(after, job)), Chars(text), Chars(text));
  }

  // ---- how far tokens are joined

  predicate IsText(row: Row) {
    row.kind == Provider("token") && row.payload.delta.Some?
  }

  predicate IsShort(row: Row) {
    IsText(row) && |row.payload.delta.value| < 4096
  }

  /** Without the planner's records. */
  function FromProvider(rows: seq<Row>): seq<Row> {
    if rows == [] then [] else
      FromProvider(rows[..|rows| - 1]) + if rows[|rows| - 1].kind.Provider? then [rows[|rows| - 1]] else []
  }

  /** No two neighbouring token rows could have been one short of the flush size. */
  ghost predicate WellJoined(rows: seq<Row>) {
    forall k :: 0 <= k < |rows| - 1 ==> !(IsShort(rows[k]) && IsText(rows[k + 1]))
  }

  predicate EndsShort(rows: seq<Row>) {
    rows != [] && IsShort(rows[|rows| - 1])
  }

  function Trail(db: Db, job: string): seq<Row> {
    FromProvider(RowsOf(db.events, job))
  }

  lemma FromProviderAppended(rows: seq<Row>, row: Row)
    ensures FromProvider(rows + [row]) == FromProvider(rows) + if row.kind.Provider? then [row] else []
  {
    assert (rows + [row])[..|rows|] == rows;
  }

  lemma TrailAppended(db: Db, job: string, kind: EventType, payload: Event, now: real)
    requires job in db.jobs
    ensures job in Appended(db, job, kind, payload, now).jobs
    ensures Trail(Appended(db, job, kind, payload, now), job) ==
            Trail(db, job) + if kind.Provider? then [NewRow(db, job, kind, payload, now)] else []
  {
    AppendedRows(db, job, kind, payload, now);
    FromProviderAppended(RowsOf(db.events, job), NewRow(db, job, kind, payload, now));
  }

  /** The provider's rows past the first `n`. */
  function TrailFrom(db: Db, job: string, n: nat): seq<Row> {
    if n <= |Trail(db, job)| then Trail(db, job)[n..] else []
  }

  ghost predicate JoinInv(a: Audit, job: string, n: nat) {
    && job in a.db.jobs && n <= |Trail(a.db, job)| && SizeKept(a)
    && WellJoined(TrailFrom(a.db, job, n)) && !EndsShort(TrailFrom(a.db, job, n))
  }

  lemma TrailFromAppended(db: Db, job: string, n: nat, kind: EventType, payload: Event, now: real)
    requires job in db.jobs && n <= |Trail(db, job)|
    ensures var after := Appended(db, job, kind, payload, now);
      && job in after.jobs && n <= |Trail(after, job)|
      && TrailFrom(after, job, n) ==
         TrailFrom(db, job, n) + if kind.Provider? then [NewRow(db, job, kind, payload, now)] else []
  {
    TrailAppended(db, job, kind, payload, now);
  }

  /** Flushing keeps rows well joined; the row is short unless the flush size was reached. */
  lemma FlushJoins(a: Audit, job: string, n: nat, now: real)
    requires job in a.db.jobs && n <= |Trail(a.db, job)|
    requires WellJoined(TrailFrom(a.db, job, n)) && !EndsShort(TrailFrom(a.db, job, n))
    ensures var f := Flush(a, job, now);
      && job in f.db.jobs && n <= |Trail(f.db, job)| && WellJoined(TrailFrom(f.db, job, n))
      && (|Join(a.pending)| >= FLUSH_AT ==> !EndsShort(TrailFrom(f.db, job, n)))
  {
    if a.pending != [] {
      TrailFromAppended(a.db, job, n, TOKEN, Joined(Join(a.pending)), now);
    }
  }

  lemma TokenJoins(a: Audit, job: string, n: nat, safe: Event -> Event, e: Event, now: real)
    requires JoinInv(a, job, n) && IsToken(e)
    ensures JoinInv(Observe(a, job, safe, e, now), job, n)
  {
    AfterKeepsSize(a, job, safe, Yields(e, now));
    var p := a.(terminal := Noted(a.terminal, e), pending := a.pending + [e.delta.value],
        size := a.size + |e.delta.value|);
    assert p.pending[..|a.pending|] == a.pending;
    FlushJoins(p, job, n, now);
  }

  lemma OtherJoins(a: Audit, job: string, n: nat, safe: Event -> Event, e: Event, now: real)
    requires JoinInv(a, job, n) && KeepsShape(safe) && !IsToken(e)
    ensures JoinInv(Observe(a, job, safe, e, now), job, n)
  {
    AfterKeepsSize(a, job, safe, Yields(e, now));
    var noted := a.(terminal := Noted(a.terminal, e));
    FlushJoins(noted, job, n, now);
    var f := Flush(noted, job, now);
    assert TypeName(e) == "token" ==> safe(e).delta.None?;
    WholeRowJoins(f.db, job, n, Provider(TypeName(e)), safe(e), now);
  }

  lemma WholeRowJoins(db: Db, job: string, n: nat, kind: EventType, payload: Event, now: real)
    requires job in db.jobs && n <= |Trail(db, job)| && WellJoined(TrailFrom(db, job, n))
    requires kind == TOKEN ==> payload.delta.None?
    ensures var after := Appended(db, job, kind, payload, now);
      && job in after.jobs && n <= |Trail(after, job)| && WellJoined(TrailFrom(after, job, n))
      && (kind.Provider? ==> !EndsShort(TrailFrom(after, job, n)))
  {
    TrailFromAppended(db, job, n, kind, payload, now);
  }

  lemma {:induction false} AuditedJoins(db: Db, job: string, safe: Event -> Event, stream: seq<Happening>)
    requires job in db.jobs && KeepsShape(safe)
    ensures JoinInv(Audited(Opened(db), job, safe, stream), job, |Trail(db, job)|)
  {
    if stream != [] {
      var init, last := stream[..|stream| - 1], stream[|stream| - 1];
      AuditedJoins(db, job, safe, init);
      var a := Audited(Opened(db), job, safe, init);
      match last {
        case Yields(e, now) =>
          if IsToken(e) {
            TokenJoins(a, job, |Trail(db, job)|, safe, e, now);
          } else {
            OtherJoins(a, job, |Trail(db, job)|, safe, e, now);
          }
        case Plans(name, payload, now) =>
          TrailFromAppended(a.db, job, |Trail(db, job)|, EventType.Supervisor(name), payload, now);
      }
    }
  }

  /** Among the rows one run stores for its provider, no short token row is followed directly by another token row. */
  lemma TokensAreJoined(db: Db, job: string, safe: Event -> Event, stream: seq<Happening>, end: End, now: real)
    requires job in db.jobs && KeepsShape(safe)
    ensures WellJoined(TrailFrom(Closed(Audited(Opened(db), job, safe, stream), job, end, now), job, |Trail(db, job)|))
  {
    var a := Audited(Opened(db), job, safe, stream);
    AuditedJoins(db, job, safe, stream);
    FlushJoins(a, job, |Trail(db, job)|, now);
    match end {
      case Finishes => SameEventsSameTrail(Closed(a, job, end, now), Flush(a, job, now).db, job, |Trail(db, job)|);
      case _ => SameEventsSameTrail(Closed(a, job, end, now), a.db, job, |Trail(db, job)|);
    }
  }

  lemma SameEventsSameTrail(a: Db, b: Db, job: string, n: nat)
    requires a.events == b.events
    ensures TrailFrom(a, job, n) == TrailFrom(b, job, n)
  {
  }
}
