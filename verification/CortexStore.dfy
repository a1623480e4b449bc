/** The durable job store: jobs, append-only events numbered per job, and compactions. */
module CortexStore {
  import opened Options
  import opened AgentEvents

  datatype Job = Job(phase: string, errorText: Option<string>, updatedAt: real)

  datatype Row = Row(job: string, sequence: nat, kind: EventType, payload: Event, createdAt: real)

  datatype Compaction = Compaction(job: string, through: int, summary: string, createdAt: real)

  datatype Db = Db(jobs: map<string, Job>, events: seq<Row>, compactions: seq<Compaction>)

  const INTERRUPTED := Some("Cortex restarted before the provider stream completed")

  // ---- queries

  /** The rows of one job, in insertion order. */
  function RowsOf(rows: seq<Row>, job: string): seq<Row> {
    if rows == [] then [] else
      var init, last := rows[..|rows| - 1], rows[|rows| - 1];
      RowsOf(init, job) + (if last.job == job then [last] else [])
  }

  /** The rows numbered past `through`, or up to it. */
  function After(rows: seq<Row>, through: int): seq<Row> {
    if rows == [] then [] else
      var init, last := rows[..|rows| - 1], rows[|rows| - 1];
      After(init, through) + (if last.sequence > through then [last] else [])
  }

  function UpTo(rows: seq<Row>, through: int): seq<Row> {
    if rows == [] then [] else
      var init, last := rows[..|rows| - 1], rows[|rows| - 1];
      UpTo(init, through) + (if last.sequence <= through then [last] else [])
  }

  /** Where a row goes among ordered ones: behind every row not numbered higher. */
  function Place(ordered: seq<Row>, row: Row): seq<Row> {
    if ordered == [] || ordered[|ordered| - 1].sequence <= row.sequence then ordered + [row]
    else Place(ordered[..|ordered| - 1], row) + [ordered[|ordered| - 1]]
  }

  /** The rows ordered by sequence. */
  function OrderBySequence(rows: seq<Row>): seq<Row> {
    if rows == [] then [] else Place(OrderBySequence(rows[..|rows| - 1]), rows[|rows| - 1])
  }

  function MaxSequence(rows: seq<Row>, job: string): nat {
    if rows == [] then 0 else
      var best, last := MaxSequence(rows[..|rows| - 1], job), rows[|rows| - 1];
      if last.job == job && last.sequence > best then last.sequence else best
  }

  predicate Newer(a: Compaction, b: Compaction) {
    a.through > b.through || (a.through == b.through && a.createdAt > b.createdAt)
  }

  /** The first compaction of a job by descending through-sequence, then descending creation time. */
  function Latest(compactions: seq<Compaction>, job: string): Option<Compaction> {
    if compactions == [] then None else
      var best, c := Latest(compactions[..|compactions| - 1], job), compactions[|compactions| - 1];
      if c.job == job && (best.None? || Newer(c, best.value)) then Some(c) else best
  }

  function Through(db: Db, job: string): int {
    var c := Latest(db.compactions, job);
    if c.Some? then c.value.through else 0
  }

  function Events(db: Db, job: string): seq<Row> {
    OrderBySequence(RowsOf(db.events, job))
  }

  function Replay(db: Db, job: string): seq<Row> {
    OrderBySequence(After(RowsOf(db.events, job), Through(db, job)))
  }

  // ---- what the queries return

  lemma RowsOfStep(rows: seq<Row>, job: string)
    requires rows != []
    ensures var init, last := rows[..|rows| - 1], rows[|rows| - 1];
      && multiset(rows) == multiset(init) + multiset{last}
      && multiset(RowsOf(rows, job)) == multiset(RowsOf(init, job)) + if last.job == job then multiset{last}
          else multiset{}
  {
    assert rows == rows[..|rows| - 1] + [rows[|rows| - 1]];
  }

  /** Selecting a job's rows keeps each of them as often as it is stored. */
  lemma {:induction false} RowsOfCounts(rows: seq<Row>, job: string)
    ensures forall row :: multiset(RowsOf(rows, job))[row] == if row.job == job then multiset(rows)[row] else 0
  {
    if rows != [] {
      RowsOfCounts(rows[..|rows| - 1], job);
      RowsOfStep(rows, job);
    }
  }

  ghost predicate Ascending(rows: seq<Row>) {
    forall j, k :: 0 <= j < k < |rows| ==> rows[j].sequence <= rows[k].sequence
  }

  lemma {:induction false} PlaceAdds(ordered: seq<Row>, row: Row)
    ensures multiset(Place(ordered, row)) == multiset(ordered) + multiset{row}
    ensures forall x :: x in Place(ordered, row) ==> x in ordered || x == row
  {
    if ordered != [] && ordered[|ordered| - 1].sequence > row.sequence {
      var init, last := ordered[..|ordered| - 1], ordered[|ordered| - 1];
      PlaceAdds(init, row);
      assert ordered == init + [last];
    }
  }

  lemma {:induction false} PlaceAscends(ordered: seq<Row>, row: Row)
    requires Ascending(ordered)
    ensures Ascending(Place(ordered, row))
  {
    if ordered != [] && ordered[|ordered| - 1].sequence > row.sequence {
      var init, last := ordered[..|ordered| - 1], ordered[|ordered| - 1];
      PlaceAscends(init, row);
      PlaceAdds(init, row);
      assert forall x :: x in Place(init, row) ==> x.sequence <= last.sequence;
    }
  }

  lemma {:induction false} OrderAscends(rows: seq<Row>)
    ensures Ascending(OrderBySequence(rows))
  {
    if rows != [] {
      OrderAscends(rows[..|rows| - 1]);
      PlaceAscends(OrderBySequence(rows[..|rows| - 1]), rows[|rows| - 1]);
    }
  }

  lemma {:induction false} OrderPermutes(rows: seq<Row>)
    ensures multiset(OrderBySequence(rows)) == multiset(rows)
  {
    if rows != [] {
      var init, last := rows[..|rows| - 1], rows[|rows| - 1];
      OrderPermutes(init);
      PlaceAdds(OrderBySequence(init), last);
      OneMore(init, last, rows);
    }
  }

  lemma OneMore(init: seq<Row>, last: Row, rows: seq<Row>)
    requires rows != [] && init == rows[..|rows| - 1] && last == rows[|rows| - 1]
    ensures multiset(rows) == multiset(init) + multiset{last}
  {
    assert rows == init + [last];
  }

  /** Ordering permutes the rows into ascending sequence. */
  lemma OrderedRows(rows: seq<Row>)
    ensures Ascending(OrderBySequence(rows)) && multiset(OrderBySequence(rows)) == multiset(rows)
  {
    OrderAscends(rows);
    OrderPermutes(rows);
  }

  // ---- updates

  function Created(db: Db, id: string, now: real): Db {
    if id in db.jobs then db else db.(jobs := db.jobs[id := Job("running", None, now)])
  }

  function NewRow(db: Db, job: string, kind: EventType, payload: Event, now: real): Row {
    Row(job, MaxSequence(db.events, job) + 1, kind, payload, now)
  }

  /** A row for an unknown job violates the foreign key: nothing is stored. */
  function Appended(db: Db, job: string, kind: EventType, payload: Event, now: real): Db {
    if job !in db.jobs then db else
      db.(events := db.events + [NewRow(db, job, kind, payload, now)],
          jobs := db.jobs[job := db.jobs[job].(updatedAt := now)])
  }

  function PhaseSet(db: Db, job: string, phase: string, errorText: Option<string>, now: real): Db {
    if job !in db.jobs then db else db.(jobs := db.jobs[job := Job(phase, errorText, now)])
  }

  function Running(db: Db): set<string> {
    set id | id in db.jobs && db.jobs[id].phase == "running"
  }

  function Interrupted(db: Db, now: real): Db {
    db.(jobs := map id | id in db.jobs ::
                  if db.jobs[id].phase == "running" then Job("interrupted", INTERRUPTED, now) else db.jobs[id])
  }

  function Compacted(db: Db, job: string, through: int, summary: string, now: real): Db {
    if job !in db.jobs then db
    else db.(compactions := db.compactions + [Compaction(job, through, summary, now)])
  }

  class CortexStore {
    var jobs: map<string, Job>
    var events: seq<Row>
    var compactions: seq<Compaction>

    function View(): Db
      reads this
    {
      Db(jobs, events, compactions)
    }

    constructor ()
      ensures View() == Db(map[], [], [])
    {
      jobs, events, compactions := map[], [], [];
    }

    method CreateJob(id: string, now: real)
      modifies this
      ensures View() == Created(old(View()), id, now)
    {
      if id !in jobs {
        jobs := jobs[id := Job("running", None, now)];
      }
    }

    /** One more than the highest number the job has; the update of an unknown job is rolled back. */
    method AppendEvent(job: string, kind: EventType, payload: Event, now: real) returns (sequence: Option<nat>)
      modifies this
      ensures View() == Appended(old(View()), job, kind, payload, now)
      ensures sequence == if job in old(jobs) then Some(MaxSequence(old(events), job) + 1) else None
    {
      var highest: nat := 0;
      for i := 0 to |events|
        invariant highest == MaxSequence(events[..i], job)
      {
        assert events[..i + 1][..i] == events[..i];
        if events[i].job == job && events[i].sequence > highest {
          highest := events[i].sequence;
        }
      }
      assert events[..|events|] == events;
      if job !in jobs {
        return None;
      }
      events := events + [Row(job, highest + 1, kind, payload, now)];
      jobs := jobs[job := jobs[job].(updatedAt := now)];
      return Some(highest + 1);
    }

    method SetPhase(job: string, phase: string, errorText: Option<string>, now: real)
      modifies this
      ensures View() == PhaseSet(old(View()), job, phase, errorText, now)
    {
      if job in jobs {
        jobs := jobs[job := Job(phase, errorText, now)];
      }
    }

    method InterruptRunningJobs(now: real) returns (count: nat)
      modifies this
      ensures View() == Interrupted(old(View()), now)
      ensures count == |Running(old(View()))| && Running(View()) == {}
      ensures jobs.Keys == old(jobs).Keys && events == old(events) && compactions == old(compactions)
      ensures forall id :: id in jobs && old(jobs)[id].phase != "running" ==> jobs[id] == old(jobs)[id]
      ensures forall id :: id in jobs && old(jobs)[id].phase == "running" ==>
          jobs[id] == Job("interrupted", Some("Cortex restarted before the provider stream completed"), now)
    {
      count := |Running(View())|;
      jobs := Interrupted(View(), now).jobs;
    }

    method AddCompaction(job: string, through: int, summary: string, now: real)
      modifies this
      ensures View() == Compacted(old(View()), job, through, summary, now)
    {
      if job in jobs {
        compactions := compactions + [Compaction(job, through, summary, now)];
      }
    }

    /** Every stored row of the job, each as often as it is stored, and no other, by ascending sequence. */
    method GetEvents(job: string) returns (rows: seq<Row>)
      ensures Ascending(rows)
      ensures forall row :: multiset(rows)[row] == if row.job == job then multiset(events)[row] else 0
      ensures rows == Events(View(), job)
    {
      rows := OrderBySequence(RowsOf(events, job));
      OrderedRows(RowsOf(events, job));
      RowsOfCounts(events, job);
    }

    method GetReplayContext(job: string) returns (summary: Option<string>, through: int, rows: seq<Row>)
      ensures through == Through(View(), job) && rows == Replay(View(), job)
      ensures summary.Some? <==> exists c :: c in compactions && c.job == job
      ensures summary.None? ==> through == 0
      ensures summary.Some? ==> exists c ::
          IsLatest(c, compactions, job) && c.summary == summary.value && c.through == through
      ensures Ascending(rows)
      ensures forall row ::
          multiset(rows)[row] == if row.job == job && row.sequence > through then multiset(events)[row] else 0
    {
      LatestIsGreatest(compactions, job);
      var latest := Latest(compactions, job);
      summary := if latest.Some? then Some(latest.value.summary) else None;
      through := if latest.Some? then latest.value.through else 0;
      rows := OrderBySequence(After(RowsOf(events, job), through));
      OrderedRows(After(RowsOf(events, job), through));
      AfterCounts(RowsOf(events, job), through);
      RowsOfCounts(events, job);
    }
  }

  /** A compaction of the job covering the most, and the youngest of those. */
  ghost predicate IsLatest(c: Compaction, compactions: seq<Compaction>, job: string) {
    && c in compactions && c.job == job
    && forall d :: d in compactions && d.job == job ==>
      d.through < c.through || (d.through == c.through && d.createdAt <= c.createdAt)
  }

  /** The compaction chosen covers the most, and one is chosen whenever there is any. */
  lemma {:induction false} LatestIsGreatest(compactions: seq<Compaction>, job: string)
    ensures var latest := Latest(compactions, job);
      && (latest.None? <==> forall c :: c in compactions ==> c.job != job)
      && (latest.Some? ==> IsLatest(latest.value, compactions, job))
  {
    if compactions != [] {
      var n := |compactions| - 1;
      LatestIsGreatest(compactions[..n], job);
      assert forall c :: c in compactions <==> c in compactions[..n] || c == compactions[n] by {
        assert compactions == compactions[..n] + [compactions[n]];
      }
    }
  }

  lemma AfterStep(rows: seq<Row>, through: int)
    requires rows != []
    ensures var init, last := rows[..|rows| - 1], rows[|rows| - 1];
      && multiset(rows) == multiset(init) + multiset{last}
      && multiset(After(rows, through)) ==
        multiset(After(init, through)) + if last.sequence > through then multiset{last} else multiset{}
  {
    assert rows == rows[..|rows| - 1] + [rows[|rows| - 1]];
  }

  /** Selecting the rows past a mark keeps each of them as often as it is stored. */
  lemma {:induction false} AfterCounts(rows: seq<Row>, through: int)
    ensures forall row ::
        multiset(After(rows, through))[row] == if row.sequence > through then multiset(rows)[row] else 0
  {
    if rows != [] {
      AfterCounts(rows[..|rows| - 1], through);
      AfterStep(rows, through);
    }
  }

  /** Every update concerns one job: all others keep their record, and nothing stored is ever changed or removed. */
  lemma UpdatesOneJob(db: Db, id: string, kind: EventType, payload: Event, phase: string, errorText: Option<string>,
      through: int, summary: string, now: real)
    ensures forall r :: r in [Created(db, id, now), Appended(db, id, kind, payload, now),
        PhaseSet(db, id, phase, errorText, now), Compacted(db, id, through, summary, now)] ==>
      && db.events <= r.events && db.compactions <= r.compactions
      && (forall j :: j in db.jobs && j != id ==> j in r.jobs && r.jobs[j] == db.jobs[j])
      && (forall j :: j in r.jobs && j != id ==> j in db.jobs)
    ensures id in db.jobs ==>
      && Created(db, id, now) == db
      && PhaseSet(db, id, phase, errorText, now) == db.(jobs := db.jobs[id := Job(phase, errorText, now)])
      && Compacted(db, id, through, summary, now) ==
        db.(compactions := db.compactions + [Compaction(id, through, summary, now)])
      && Appended(db, id, kind, payload, now).jobs ==
        db.jobs[id := Job(db.jobs[id].phase, db.jobs[id].errorText, now)]
      && |Appended(db, id, kind, payload, now).events| == |db.events| + 1
      && var row := Appended(db, id, kind, payload, now).events[|db.events|];
        row.job == id && row.kind == kind && row.payload == payload && row.createdAt == now
    ensures id !in db.jobs ==>
      && Created(db, id, now) == db.(jobs := db.jobs[id := Job("running", None, now)])
      && Appended(db, id, kind, payload, now) == db
      && PhaseSet(db, id, phase, errorText, now) == db
      && Compacted(db, id, through, summary, now) == db
  {
  }
}
