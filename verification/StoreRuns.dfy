/** What the job store keeps over every run of its operations, and what a compacted replay omits. */
module StoreRuns {
  import opened Options
  import opened AgentEvents
  import opened CortexStore

  datatype Step =
    | Create(id: string, now: real)
    | Append(job: string, kind: EventType, payload: Event, now: real)
    | SetPhase(job: string, phase: string, errorText: Option<string>, now: real)
    | Interrupt(now: real)
    | Compact(job: string, through: int, summary: string, now: real)

  const EMPTY_DB := Db(map[], [], [])

  function Next(db: Db, step: Step): Db {
    match step
    case Create(id, now) => Created(db, id, now)
    case Append(job, kind, payload, now) => Appended(db, job, kind, payload, now)
    case SetPhase(job, phase, errorText, now) => PhaseSet(db, job, phase, errorText, now)
    case Interrupt(now) => Interrupted(db, now)
    case Compact(job, through, summary, now) => Compacted(db, job, through, summary, now)
  }

  function Run(db: Db, steps: seq<Step>): Db
    decreases steps
  {
    if steps == [] then db else Run(Next(db, steps[0]), steps[1..])
  }

  // ---- numbering

  ghost predicate Counted(rows: seq<Row>) {
    forall k :: 0 <= k < |rows| ==> rows[k].sequence == k + 1
  }

  /** The rows of each job are numbered 1, 2, 3, … in the order they were stored, and only known jobs have any. */
  ghost predicate Numbered(db: Db) {
    forall job :: Counted(RowsOf(db.events, job)) && (job !in db.jobs ==> RowsOf(db.events, job) == [])
  }

  lemma {:induction false} MaxIsCount(rows: seq<Row>, job: string)
    requires Counted(RowsOf(rows, job))
    ensures MaxSequence(rows, job) == |RowsOf(rows, job)|
  {
    if rows != [] {
      var init, of := rows[..|rows| - 1], RowsOf(rows, job);
      var before := RowsOf(init, job);
      assert forall k :: 0 <= k < |before| ==> before[k] == of[k];
      MaxIsCount(init, job);
      if rows[|rows| - 1].job == job {
        assert of[|before|] == rows[|rows| - 1];
      }
    }
  }

  lemma AppendRow(rows: seq<Row>, row: Row, job: string)
    ensures RowsOf(rows + [row], job) == RowsOf(rows, job) + if row.job == job then [row] else []
  {
    assert (rows + [row])[..|rows|] == rows;
  }

  lemma AppendKeepsNumbered(db: Db, job: string, kind: EventType, payload: Event, now: real)
    requires Numbered(db)
    ensures Numbered(Appended(db, job, kind, payload, now))
  {
    if job in db.jobs {
      var row := NewRow(db, job, kind, payload, now);
      MaxIsCount(db.events, job);
      forall j ensures Counted(RowsOf(db.events + [row], j)) &&
                       (j !in db.jobs ==> RowsOf(db.events + [row], j) == [])
      {
        AppendRow(db.events, row, j);
        assert Counted(RowsOf(db.events, j));
      }
    }
  }

  lemma NextKeepsNumbered(db: Db, step: Step)
    requires Numbered(db)
    ensures Numbered(Next(db, step))
  {
    if step.Append? {
      AppendKeepsNumbered(db, step.job, step.kind, step.payload, step.now);
    } else {
      assert Next(db, step).events == db.events && forall j :: j in db.jobs ==> j in Next(db, step).jobs;
    }
  }

  lemma {:induction false} RunKeepsNumbered(db: Db, steps: seq<Step>)
    requires Numbered(db)
    ensures Numbered(Run(db, steps))
    decreases steps
  {
    if steps != [] {
      NextKeepsNumbered(db, steps[0]);
      RunKeepsNumbered(Next(db, steps[0]), steps[1..]);
    }
  }

  // ---- ordering

  lemma {:induction false} AscendingIsOrdered(rows: seq<Row>)
    requires Ascending(rows)
    ensures OrderBySequence(rows) == rows
  {
    if rows != [] {
      AscendingIsOrdered(rows[..|rows| - 1]);
    }
  }

  /** Selecting after placing is placing among the selected, since ordered rows past the mark form a suffix. */
  lemma {:induction false} AfterPlace(ordered: seq<Row>, row: Row, t: int)
    requires Ascending(ordered)
    ensures After(Place(ordered, row), t) ==
            if row.sequence > t then Place(After(ordered, t), row) else After(ordered, t)
  {
    if ordered == [] || ordered[|ordered| - 1].sequence <= row.sequence {
      assert (ordered + [row])[..|ordered|] == ordered;
      AfterSplits(ordered, t);
    } else {
      var init, last := ordered[..|ordered| - 1], ordered[|ordered| - 1];
      AfterPlace(init, row, t);
      assert (Place(init, row) + [last])[..|Place(init, row)|] == Place(init, row);
      if row.sequence > t {
        assert (After(init, t) + [last])[..|After(init, t)|] == After(init, t);
      }
    }
  }

  /** Ascending rows up to a mark followed by those past it are all of them. */
  lemma {:induction false} AfterSplits(rows: seq<Row>, t: int)
    requires Ascending(rows)
    ensures UpTo(rows, t) + After(rows, t) == rows
  {
    if rows != [] {
      var init, last := rows[..|rows| - 1], rows[|rows| - 1];
      AfterSplits(init, t);
      if last.sequence <= t {
        NoneAfter(init, t);
      }
      assert rows == init + [last];
    }
  }

  ghost predicate AllUpTo(rows: seq<Row>, t: int) {
    forall k :: 0 <= k < |rows| ==> rows[k].sequence <= t
  }

  lemma {:induction false} NoneAfter(rows: seq<Row>, t: int)
    requires AllUpTo(rows, t)
    ensures After(rows, t) == [] && UpTo(rows, t) == rows
  {
    if rows != [] {
      var init, last := rows[..|rows| - 1], rows[|rows| - 1];
      assert AllUpTo(init, t);
      NoneAfter(init, t);
      assert After(rows, t) == [] + [];
      assert UpTo(rows, t) == init + [last];
    }
  }

  lemma OrderAppended(rows: seq<Row>, row: Row)
    ensures OrderBySequence(rows + [row]) == Place(OrderBySequence(rows), row)
  {
    assert (rows + [row])[..|rows|] == rows;
  }

  lemma {:induction false} AfterOrdered(rows: seq<Row>, t: int)
    ensures OrderBySequence(After(rows, t)) == After(OrderBySequence(rows), t)
  {
    if rows != [] {
      var init, last := rows[..|rows| - 1], rows[|rows| - 1];
      AfterOrdered(init, t);
      OrderAscends(init);
      AfterPlace(OrderBySequence(init), last, t);
      if last.sequence > t {
        OrderAppended(After(init, t), last);
        assert After(rows, t) == After(init, t) + [last];
      } else {
        assert After(rows, t) == After(init, t);
      }
    }
  }

  /** Compaction loses nothing: the events up to the latest compaction, then the replayed ones, are the whole trail. */
  lemma ReplayCompletes(db: Db, job: string)
    ensures UpTo(Events(db, job), Through(db, job)) + Replay(db, job) == Events(db, job)
  {
    AfterOrdered(RowsOf(db.events, job), Through(db, job));
    OrderAscends(RowsOf(db.events, job));
    AfterSplits(Events(db, job), Through(db, job));
  }

  // ---- over whole runs

  /** How many of the first `n` numbers a mark covers. */
  function Covered(through: int, n: nat): nat {
    if through < 0 then 0 else if through > n then n else through
  }

  lemma DropAppended(rows: seq<Row>, k: nat)
    requires k < |rows|
    ensures rows[k..] == rows[..|rows| - 1][k..] + [rows[|rows| - 1]]
  {
  }

  lemma {:induction false} AfterCounted(rows: seq<Row>, t: int)
    requires Counted(rows)
    ensures After(rows, t) == rows[Covered(t, |rows|)..]
  {
    if rows != [] {
      var n := |rows| - 1;
      AfterCounted(rows[..n], t);
      DropAppended(rows, Covered(t, n));
    }
  }

  /**
   * In every run each job's trail is numbered 1 to n in the order stored, and the replay is the trail without its first
   * `through` events, whatever number the latest compaction names.
   */
  lemma TrailIsGapFree(steps: seq<Step>, job: string)
    ensures var db := Run(EMPTY_DB, steps);
      && Counted(Events(db, job))
      && Events(db, job) == RowsOf(db.events, job)
      && Replay(db, job) == Events(db, job)[Covered(Through(db, job), |Events(db, job)|)..]
  {
    var db := Run(EMPTY_DB, steps);
    RunKeepsNumbered(EMPTY_DB, steps);
    var rows := RowsOf(db.events, job);
    assert Counted(rows);
    AscendingIsOrdered(rows);
    AfterOrdered(rows, Through(db, job));
    AfterCounted(rows, Through(db, job));
  }

  lemma NextKeepsTrail(db: Db, step: Step, job: string)
    ensures RowsOf(db.events, job) <= RowsOf(Next(db, step).events, job)
    ensures Latest(db.compactions, job).Some? ==>
              Latest(Next(db, step).compactions, job).Some? && Through(db, job) <= Through(Next(db, step), job)
  {
    match step {
      case Append(j, kind, payload, now) =>
        AppendRow(db.events, NewRow(db, j, kind, payload, now), job);
      case Compact(j, through, summary, now) =>
        var c := Compaction(j, through, summary, now);
        assert (db.compactions + [c])[..|db.compactions|] == db.compactions;
      case _ =>
    }
  }

  lemma {:induction false} RunKeepsTrail(db: Db, steps: seq<Step>, job: string)
    ensures RowsOf(db.events, job) <= RowsOf(Run(db, steps).events, job)
    ensures Latest(db.compactions, job).Some? ==>
              Latest(Run(db, steps).compactions, job).Some? && Through(db, job) <= Through(Run(db, steps), job)
    decreases steps
  {
    if steps != [] {
      NextKeepsTrail(db, steps[0], job);
      RunKeepsTrail(Next(db, steps[0]), steps[1..], job);
    }
  }

  /**
   * Evidence is append-only: whatever follows, the earlier trail stays its beginning, and the replay mark never moves
   * back.
   */
  lemma TrailOnlyGrows(earlier: seq<Step>, later: seq<Step>, job: string)
    ensures var db := Run(EMPTY_DB, earlier);
      && Events(db, job) <= Events(Run(db, later), job)
      && (Latest(db.compactions, job).Some? ==> Through(db, job) <= Through(Run(db, later), job))
  {
    var db := Run(EMPTY_DB, earlier);
    RunKeepsNumbered(EMPTY_DB, earlier);
    RunKeepsNumbered(db, later);
    RunKeepsTrail(db, later, job);
    assert Counted(RowsOf(db.events, job)) && Counted(RowsOf(Run(db, later).events, job));
    AscendingIsOrdered(RowsOf(db.events, job));
    AscendingIsOrdered(RowsOf(Run(db, later).events, job));
  }

  lemma {:induction false} StaysStopped(db: Db, steps: seq<Step>, job: string)
    requires job !in Running(db)
    requires forall s :: s in steps ==>
        s != Create(job, s.now) && !(s.SetPhase? && s.job == job && s.phase == "running")
    ensures job !in Running(Run(db, steps))
    decreases steps
  {
    if steps != [] {
      assert steps[0] in steps;
      assert job !in Running(Next(db, steps[0]));
      StaysStopped(Next(db, steps[0]), steps[1..], job);
    }
  }

  /** After a restart a job is running only if it was created, or set running, since. */
  lemma RunningSinceRestart(db: Db, now: real, steps: seq<Step>, job: string)
    requires forall s :: s in steps ==>
        s != Create(job, s.now) && !(s.SetPhase? && s.job == job && s.phase == "running")
    ensures job !in Running(Run(Interrupted(db, now), steps))
  {
    StaysStopped(Interrupted(db, now), steps, job);
  }
}
