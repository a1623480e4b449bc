/** Capture-time pose lookup: one reverse scan over an unordered transform log, against stable sort and bisection. */
module PoseLookup {
  import opened Angles
  import opened Options

  datatype Pose = Pose(x: real, y: real, yaw: real)

  datatype Sample = Sample(stamp: real, pose: Pose)

  const COINCIDENT := 0.000000001
  const HISTORY_BRACKET := 0.5
  const DISPLAY_BRACKET := 1.0
  const NEAREST_GAP := 0.5

  function Interpolate(lo: Sample, hi: Sample, at: real): Pose
    requires lo.stamp < hi.stamp
  {
    Blended(lo.pose, hi.pose, (at - lo.stamp) / (hi.stamp - lo.stamp))
  }

  function Blended(a: Pose, b: Pose, f: real): Pose {
    Pose(a.x + f * (b.x - a.x), a.y + f * (b.y - a.y), TurnBy(a.yaw, f, WrapAngle(b.yaw - a.yaw)))
  }

  function TurnBy(yaw: real, f: real, dyaw: real): real { WrapAngle(yaw + f * dyaw) }

  function Gap(s: Sample, at: real): real { if s.stamp < at then at - s.stamp else s.stamp - at }

  /** What is answered when no sample has the requested stamp; at least one neighbour exists. */
  function BetweenNeighbours(lo: Option<Sample>, hi: Option<Sample>, current: Option<Pose>, at: real,
      requireBracket: bool): Option<Pose>
    requires lo.Some? || hi.Some?
    requires (lo.Some? ==> lo.value.stamp < at) && (hi.Some? ==> hi.value.stamp > at)
  {
    var limit := if requireBracket then HISTORY_BRACKET else DISPLAY_BRACKET;
    if lo.Some? && hi.Some? && hi.value.stamp - lo.value.stamp <= COINCIDENT then Some(lo.value.pose)
    else if lo.Some? && hi.Some? && hi.value.stamp - lo.value.stamp <= limit
        then Some(Interpolate(lo.value, hi.value, at))
    else if requireBracket then None
    else
      var best := if lo.None? then hi.value
                  else if hi.None? || Gap(lo.value, at) <= Gap(hi.value, at) then lo.value else hi.value;
      if Gap(best, at) <= NEAREST_GAP then Some(best.pose) else current
  }

  // ---- specification: stable sort, then bisect

  /** Position `i` sorts before position `j`: by stamp, and by place in the log among equal stamps. */
  predicate Before(log: seq<Sample>, i: nat, j: nat)
    requires i < |log| && j < |log|
  {
    log[i].stamp < log[j].stamp || (log[i].stamp == log[j].stamp && i < j)
  }

  ghost predicate StablySorted(log: seq<Sample>, order: seq<nat>) {
    && (forall a :: 0 <= a < |order| ==> order[a] < |log|)
    && (forall a, b :: 0 <= a < b < |order| ==> Before(log, order[a], order[b]))
  }

  /** `order` lists every position of the log once, stably sorted by stamp. */
  ghost predicate IsStableOrder(log: seq<Sample>, order: seq<nat>) {
    StablySorted(log, order) && forall i: nat :: i < |log| ==> i in order
  }

  /** `bisect_left`: how many leading positions have an earlier stamp. */
  function BisectLeft(log: seq<Sample>, order: seq<nat>, at: real): (p: nat)
    requires forall a :: 0 <= a < |order| ==> order[a] < |log|
    ensures p <= |order|
    ensures forall a :: 0 <= a < p ==> log[order[a]].stamp < at
    ensures p < |order| ==> log[order[p]].stamp >= at
  {
    if order == [] || log[order[0]].stamp >= at then 0 else 1 + BisectLeft(log, order[1..], at)
  }

  /** `bisect_right`: how many leading positions have no later stamp. */
  function BisectRight(log: seq<Sample>, order: seq<nat>, at: real): (p: nat)
    requires forall a :: 0 <= a < |order| ==> order[a] < |log|
    ensures p <= |order|
    ensures forall a :: 0 <= a < p ==> log[order[a]].stamp <= at
    ensures p < |order| ==> log[order[p]].stamp > at
  {
    if order == [] || log[order[0]].stamp > at then 0 else 1 + BisectRight(log, order[1..], at)
  }

  lemma StampsAscend(log: seq<Sample>, order: seq<nat>, a: nat, b: nat)
    requires IsStableOrder(log, order) && a <= b < |order|
    ensures log[order[a]].stamp <= log[order[b]].stamp
  {
  }

  /** The answer read off a stably sorted log. */
  ghost function SortedLookup(log: seq<Sample>, order: seq<nat>, current: Option<Pose>, at: real,
      requireBracket: bool): Option<Pose>
    requires IsStableOrder(log, order)
  {
    if log == [] then (if requireBracket then None else current) else
      var p, q := BisectLeft(log, order, at), BisectRight(log, order, at);
      assert 0 in order;
      if p < q then Some(log[order[q - 1]].pose)
      else
        SortedNeighbours(log, order, at);
        BetweenNeighbours(if p > 0 then Some(log[order[p - 1]]) else None,
                          if q < |order| then Some(log[order[q]]) else None, current, at, requireBracket)
  }

  lemma SortedNeighbours(log: seq<Sample>, order: seq<nat>, at: real)
    requires IsStableOrder(log, order)
    ensures BisectLeft(log, order, at) <= BisectRight(log, order, at)
    ensures BisectLeft(log, order, at) < BisectRight(log, order, at) ==>
        log[order[BisectRight(log, order, at) - 1]].stamp == at
  {
    var p, q := BisectLeft(log, order, at), BisectRight(log, order, at);
    if p < q {
      StampsAscend(log, order, p, q - 1);
    }
  }

  // ---- the scan

  /** Among positions from `from` on, `k` holds the greatest stamp before `at`, the newest sample of that stamp. */
  ghost predicate IsLo(log: seq<Sample>, at: real, from: nat, k: Option<nat>) {
    match k
    case None => forall j :: from <= j < |log| ==> !(log[j].stamp < at)
    case Some(k) =>
      && from <= k < |log| && log[k].stamp < at
      && (forall j: nat :: from <= j < |log| && log[j].stamp < at ==> j == k || Before(log, j, k))
  }

  /** Among positions from `from` on, `k` holds the least stamp after `at`, the oldest sample of that stamp. */
  ghost predicate IsHi(log: seq<Sample>, at: real, from: nat, k: Option<nat>) {
    match k
    case None => forall j :: from <= j < |log| ==> !(log[j].stamp > at)
    case Some(k) =>
      && from <= k < |log| && log[k].stamp > at
      && (forall j: nat :: from <= j < |log| && log[j].stamp > at ==> j == k || Before(log, k, j))
  }

  function SampleAt(log: seq<Sample>, k: Option<nat>): Option<Sample>
    requires k.Some? ==> k.value < |log|
  {
    if k.None? then None else Some(log[k.value])
  }

  /** The single pass over the log, newest first, stopping at an exact hit. */
  method Lookup(log: seq<Sample>, current: Option<Pose>, at: real, requireBracket: bool) returns (r: Option<Pose>)
    ensures AgreesWithSorted(log, current, at, requireBracket, r)
    ensures Answers(log, current, at, requireBracket, r)
  {
    SortedAnswers(log, current, at, requireBracket);
    if log == [] {
      return if requireBracket then None else current;
    }
    var lo: Option<Sample>, hi: Option<Sample> := None, None;
    ghost var loAt: Option<nat>, hiAt: Option<nat> := None, None;
    var i := |log|;
    while i > 0
      invariant 0 <= i <= |log|
      invariant forall j :: i <= j < |log| ==> log[j].stamp != at
      invariant IsLo(log, at, i, loAt) && lo == SampleAt(log, loAt)
      invariant IsHi(log, at, i, hiAt) && hi == SampleAt(log, hiAt)
    {
      i := i - 1;
      var sample := log[i];
      if sample.stamp == at {
        ExactAgrees(log, current, at, requireBracket, i);
        return Some(sample.pose);
      }
      if sample.stamp < at {
        if lo.None? || sample.stamp > lo.value.stamp {
          lo, loAt := Some(sample), Some(i);
        }
      } else if hi.None? || sample.stamp <= hi.value.stamp {
        hi, hiAt := Some(sample), Some(i);
      }
    }
    ScanAgrees(log, current, at, requireBracket, loAt, hiAt);
    if lo.Some? && hi.Some? {
      var span := hi.value.stamp - lo.value.stamp;
      if span <= COINCIDENT {
        return Some(lo.value.pose);
      }
      if span <= (if requireBracket then HISTORY_BRACKET else DISPLAY_BRACKET) {
        return Some(Interpolate(lo.value, hi.value, at));
      }
    }
    var best;
    if lo.None? {
      best := hi.value;
    } else if hi.None? || Gap(lo.value, at) <= Gap(hi.value, at) {
      best := lo.value;
    } else {
      best := hi.value;
    }
    if requireBracket {
      return None;
    }
    if Gap(best, at) <= NEAREST_GAP {
      return Some(best.pose);
    }
    return current;
  }

  lemma ExactAgrees(log: seq<Sample>, current: Option<Pose>, at: real, requireBracket: bool, i: nat)
    requires i < |log| && log[i].stamp == at && forall j :: i < j < |log| ==> log[j].stamp != at
    ensures forall order :: IsStableOrder(log, order) ==>
      SortedLookup(log, order, current, at, requireBracket) == Some(log[i].pose)
  {
    forall order | IsStableOrder(log, order)
        ensures SortedLookup(log, order, current, at, requireBracket) == Some(log[i].pose) {
      LastHitIsBisected(log, order, at, i);
      SortedNeighbours(log, order, at);
    }
  }

  lemma LastHitIsBisected(log: seq<Sample>, order: seq<nat>, at: real, i: nat)
    requires IsStableOrder(log, order)
    requires i < |log| && log[i].stamp == at && forall j :: i < j < |log| ==> log[j].stamp != at
    ensures var q := BisectRight(log, order, at); BisectLeft(log, order, at) < q && order[q - 1] == i
  {
    var q := BisectRight(log, order, at);
    var a := PlaceOf(log, order, i);
    HitIsBisected(log, order, at, a);
    StampsAscend(log, order, a, q - 1);
  }

  lemma ScanAgrees(log: seq<Sample>, current: Option<Pose>, at: real, requireBracket: bool, lo: Option<nat>,
      hi: Option<nat>)
    requires log != [] && forall j :: 0 <= j < |log| ==> log[j].stamp != at
    requires IsLo(log, at, 0, lo) && IsHi(log, at, 0, hi)
    ensures lo.Some? || hi.Some?
    ensures forall order :: IsStableOrder(log, order) ==>
      SortedLookup(log, order, current, at, requireBracket)
      == BetweenNeighbours(SampleAt(log, lo), SampleAt(log, hi), current, at, requireBracket)
  {
    assert log[0].stamp < at || log[0].stamp > at;
    forall order | IsStableOrder(log, order)
      ensures SortedLookup(log, order, current, at, requireBracket)
        == BetweenNeighbours(SampleAt(log, lo), SampleAt(log, hi), current, at, requireBracket)
    {
      SortedNeighbours(log, order, at);
      LoAgrees(log, order, at, lo);
      HiAgrees(log, order, at, hi);
    }
  }

  lemma BeforeLeft(log: seq<Sample>, order: seq<nat>, at: real, a: nat)
    requires IsStableOrder(log, order) && a < |order|
    ensures a < BisectLeft(log, order, at) <==> log[order[a]].stamp < at
  {
    var p := BisectLeft(log, order, at);
    if p <= a {
      StampsAscend(log, order, p, a);
    }
  }

  lemma BeforeRight(log: seq<Sample>, order: seq<nat>, at: real, a: nat)
    requires IsStableOrder(log, order) && a < |order|
    ensures a < BisectRight(log, order, at) <==> log[order[a]].stamp <= at
  {
    var q := BisectRight(log, order, at);
    if q <= a {
      StampsAscend(log, order, q, a);
    }
  }

  lemma LastBefore(log: seq<Sample>, order: seq<nat>, a: nat, b: nat)
    requires IsStableOrder(log, order) && a <= b < |order|
    ensures a == b || Before(log, order[a], order[b])
  {
  }

  lemma LoAgrees(log: seq<Sample>, order: seq<nat>, at: real, lo: Option<nat>)
    requires IsStableOrder(log, order) && IsLo(log, at, 0, lo)
    ensures var p := BisectLeft(log, order, at); lo == if p > 0 then Some(order[p - 1]) else None
  {
    var p := BisectLeft(log, order, at);
    if lo.Some? {
      var a := PlaceOf(log, order, lo.value);
      BeforeLeft(log, order, at, a);
      LastBefore(log, order, a, p - 1);
    }
  }

  lemma HiAgrees(log: seq<Sample>, order: seq<nat>, at: real, hi: Option<nat>)
    requires IsStableOrder(log, order) && IsHi(log, at, 0, hi)
    ensures var q := BisectRight(log, order, at); hi == if q < |order| then Some(order[q]) else None
  {
    var q := BisectRight(log, order, at);
    if hi.Some? {
      var a := PlaceOf(log, order, hi.value);
      BeforeRight(log, order, at, a);
      LastBefore(log, order, q, a);
    }
  }

  // ---- a stable order always exists

  function InsertStable(log: seq<Sample>, order: seq<nat>, i: nat): (r: seq<nat>)
    requires i < |log| && forall a :: 0 <= a < |order| ==> order[a] < i
    ensures forall a :: 0 <= a < |r| ==> r[a] <= i
  {
    if order == [] || log[order[|order| - 1]].stamp <= log[i].stamp then order + [i]
    else InsertStable(log, order[..|order| - 1], i) + [order[|order| - 1]]
  }

  lemma {:induction false} InsertStableAdds(log: seq<Sample>, order: seq<nat>, i: nat)
    requires i < |log| && forall a :: 0 <= a < |order| ==> order[a] < i
    ensures forall j :: j in InsertStable(log, order, i) <==> j in order || j == i
  {
    if order != [] && log[order[|order| - 1]].stamp > log[i].stamp {
      InsertStableAdds(log, order[..|order| - 1], i);
      assert order == order[..|order| - 1] + [order[|order| - 1]];
    }
  }

  lemma {:induction false} InsertStableKeeps(log: seq<Sample>, order: seq<nat>, i: nat)
    requires i < |log| && (forall a :: 0 <= a < |order| ==> order[a] < i) && StablySorted(log, order)
    ensures StablySorted(log, InsertStable(log, order, i))
  {
    if order != [] {
      var n := |order| - 1;
      var last := order[n];
      if log[last].stamp > log[i].stamp {
        InsertStableKeeps(log, order[..n], i);
        InsertStableAdds(log, order[..n], i);
        AppendSorted(log, InsertStable(log, order[..n], i), order[..n], last, i);
      } else {
        forall a | 0 <= a < n ensures Before(log, order[a], last) {
        }
      }
    }
  }

  lemma AppendSorted(log: seq<Sample>, t: seq<nat>, rest: seq<nat>, last: nat, i: nat)
    requires StablySorted(log, t) && last < |log| && i < |log| && Before(log, i, last)
    requires forall j :: j in t <==> j in rest || j == i
    requires forall a :: 0 <= a < |rest| ==> rest[a] < |log| && Before(log, rest[a], last)
    ensures StablySorted(log, t + [last])
  {
    forall a | 0 <= a < |t| ensures Before(log, t[a], last) {
      assert t[a] in t;
    }
  }

  /** The log's positions in stable stamp order. */
  function StableOrder(log: seq<Sample>, n: nat): (r: seq<nat>)
    requires n <= |log|
    ensures forall a :: 0 <= a < |r| ==> r[a] < n
  {
    if n == 0 then [] else InsertStable(log, StableOrder(log, n - 1), n - 1)
  }

  lemma {:induction false} StableOrderSorted(log: seq<Sample>, n: nat)
    requires n <= |log|
    ensures StablySorted(log, StableOrder(log, n))
  {
    if n > 0 {
      var order := StableOrder(log, n - 1);
      StableOrderSorted(log, n - 1);
      InsertStableKeeps(log, order, n - 1);
      assert StableOrder(log, n) == InsertStable(log, order, n - 1);
    }
  }

  lemma {:induction false} StableOrderComplete(log: seq<Sample>, n: nat)
    requires n <= |log|
    ensures forall i: nat :: i < n ==> i in StableOrder(log, n)
  {
    if n > 0 {
      var order := StableOrder(log, n - 1);
      StableOrderComplete(log, n - 1);
      InsertStableAdds(log, order, n - 1);
      assert StableOrder(log, n) == InsertStable(log, order, n - 1);
    }
  }

  lemma StableOrderExists(log: seq<Sample>)
    ensures IsStableOrder(log, StableOrder(log, |log|))
  {
    StableOrderSorted(log, |log|);
    StableOrderComplete(log, |log|);
  }

  // ---- what an answer means

  ghost predicate ExactHit(log: seq<Sample>, at: real) {
    exists i :: 0 <= i < |log| && log[i].stamp == at
  }

  ghost predicate NarrowBracket(log: seq<Sample>, at: real) {
    exists i, j :: 0 <= i < |log| && 0 <= j < |log| && log[i].stamp < at < log[j].stamp
      && log[j].stamp - log[i].stamp <= HISTORY_BRACKET
  }

  /**
   * With `requireBracket`, an answer exists exactly on a stamp hit or between two samples at most half a second apart.
   */
  lemma BracketRequired(log: seq<Sample>, order: seq<nat>, current: Option<Pose>, at: real)
    requires IsStableOrder(log, order)
    ensures SortedLookup(log, order, current, at, true).Some? <==> ExactHit(log, at) || NarrowBracket(log, at)
  {
    SortedNeighbours(log, order, at);
    if SortedLookup(log, order, current, at, true).Some? {
      AnswerHasBracket(log, order, current, at);
    } else {
      NoAnswerNoBracket(log, order, current, at);
    }
  }

  lemma AnswerHasBracket(log: seq<Sample>, order: seq<nat>, current: Option<Pose>, at: real)
    requires IsStableOrder(log, order) && SortedLookup(log, order, current, at, true).Some?
    ensures ExactHit(log, at) || NarrowBracket(log, at)
  {
    SortedNeighbours(log, order, at);
    var p, q := BisectLeft(log, order, at), BisectRight(log, order, at);
    if p < q {
      assert log[order[q - 1]].stamp == at;
    } else {
      var i, j := order[p - 1], order[q];
      assert log[i].stamp < at < log[j].stamp;
    }
  }

  lemma NoAnswerNoBracket(log: seq<Sample>, order: seq<nat>, current: Option<Pose>, at: real)
    requires IsStableOrder(log, order) && SortedLookup(log, order, current, at, true).None?
    ensures !ExactHit(log, at) && !NarrowBracket(log, at)
  {
    SortedNeighbours(log, order, at);
    var p, q := BisectLeft(log, order, at), BisectRight(log, order, at);
    if log != [] && NarrowBracket(log, at) {
      NarrowNeighbours(log, order, at, p);
    }
    if i: nat :| i < |log| && log[i].stamp == at {
      var a := PlaceOf(log, order, i);
      HitIsBisected(log, order, at, a);
    }
  }

  lemma HitIsBisected(log: seq<Sample>, order: seq<nat>, at: real, a: nat)
    requires IsStableOrder(log, order) && a < |order| && log[order[a]].stamp == at
    ensures BisectLeft(log, order, at) <= a < BisectRight(log, order, at)
  {
    var q := BisectRight(log, order, at);
    if q <= a {
      StampsAscend(log, order, q, a);
    }
  }

  lemma PlaceOf(log: seq<Sample>, order: seq<nat>, i: nat) returns (a: nat)
    requires IsStableOrder(log, order) && i < |log|
    ensures a < |order| && order[a] == i
  {
    assert i in order;
    a :| 0 <= a < |order| && order[a] == i;
  }

  /** The sorted neighbours of `at` are at least as close together as any other bracket. */
  lemma NarrowNeighbours(log: seq<Sample>, order: seq<nat>, at: real, p: nat)
    requires IsStableOrder(log, order) && NarrowBracket(log, at)
    requires p == BisectLeft(log, order, at) == BisectRight(log, order, at)
    ensures 0 < p < |order| && log[order[p]].stamp - log[order[p - 1]].stamp <= HISTORY_BRACKET
  {
    var i: nat, j: nat :| i < |log| && j < |log| && log[i].stamp < at < log[j].stamp
      && log[j].stamp - log[i].stamp <= HISTORY_BRACKET;
    var a := PlaceOf(log, order, i);
    var b := PlaceOf(log, order, j);
    assert p <= b;
    if p <= a {
      StampsAscend(log, order, p, a);
      assert false;
    }
    StampsAscend(log, order, a, p - 1);
    StampsAscend(log, order, p, b);
  }

  predicate Between(v: real, a: real, b: real) {
    a <= v <= b || b <= v <= a
  }

  lemma Scale(f: real, d: real)
    requires 0.0 <= f <= 1.0 && d >= 0.0
    ensures 0.0 <= f * d <= d
  {
    Product(f, d);
    Product(1.0 - f, d);
    assert (1.0 - f) * d == d - f * d;
  }

  lemma Blend(a: real, b: real, f: real)
    requires 0.0 <= f <= 1.0
    ensures Between(a + f * (b - a), a, b)
  {
    var d := b - a;
    var v := f * d;
    assert a + f * (b - a) == a + v;
    if a <= b {
      Scale(f, d);
    } else {
      Scale(f, -d);
      assert f * -d == -v;
    }
  }

  /** An interpolated position lies between its endpoints, and its heading is normalised. */
  lemma InterpolationBetween(lo: Sample, hi: Sample, at: real)
    requires lo.stamp < at < hi.stamp
    ensures var p := Interpolate(lo, hi, at);
      Between(p.x, lo.pose.x, hi.pose.x) && Between(p.y, lo.pose.y, hi.pose.y) && -PI <= p.yaw < PI
  {
    var f := (at - lo.stamp) / (hi.stamp - lo.stamp);
    FractionBounds(at - lo.stamp, hi.stamp - lo.stamp);
    Blend(lo.pose.x, hi.pose.x, f);
    Blend(lo.pose.y, hi.pose.y, f);
    ModBounds(lo.pose.yaw + f * WrapAngle(hi.pose.yaw - lo.pose.yaw) + PI, 2.0 * PI);
  }

  lemma FractionBounds(n: real, d: real)
    requires 0.0 < n < d
    ensures 0.0 <= n / d <= 1.0
  {
    var q := n / d;
    assert q * d == n;
    if q > 1.0 {
      Product(q - 1.0, d);
    } else if q < 0.0 {
      Product(-q, d);
    }
  }

  // ---- what is answered between two samples

  /** `heading` has made that share of the turn from `lo` to `hi` which `at` has of the time between them. */
  ghost predicate TurnedPartway(lo: Sample, hi: Sample, at: real, heading: real, turn: real, turned: real) {
    && ShortestTurn(lo.pose.yaw, hi.pose.yaw, turn)
    && turned * (hi.stamp - lo.stamp) == (at - lo.stamp) * turn
    && SameHeading(heading, lo.pose.yaw + turned) && -PI <= heading < PI
  }

  /** Constant velocity and constant turn rate from `lo` to `hi`, read at `at`. */
  ghost predicate OnTheWay(lo: Sample, hi: Sample, at: real, p: Pose) {
    && (p.x - lo.pose.x) * (hi.stamp - lo.stamp) == (at - lo.stamp) * (hi.pose.x - lo.pose.x)
    && (p.y - lo.pose.y) * (hi.stamp - lo.stamp) == (at - lo.stamp) * (hi.pose.y - lo.pose.y)
    && exists turn, turned :: TurnedPartway(lo, hi, at, p.yaw, turn, turned)
  }

  lemma ShareOfSpan(n: real, span: real, d: real, f: real)
    requires span > 0.0 && f == n / span
    ensures (f * d) * span == n * d
  {
    assert f * span == n;
    assert (f * d) * span == (f * span) * d;
  }

  lemma TurnByKeepsHeading(yaw: real, f: real, dyaw: real)
    ensures var h := TurnBy(yaw, f, dyaw); SameHeading(h, yaw + f * dyaw) && -PI <= h < PI
  {
    WrapKeepsHeading(yaw + f * dyaw);
  }

  lemma HeadingOnTheWay(lo: Sample, hi: Sample, at: real, f: real, turn: real)
    requires lo.stamp < hi.stamp && f == (at - lo.stamp) / (hi.stamp - lo.stamp)
    requires ShortestTurn(lo.pose.yaw, hi.pose.yaw, turn)
    ensures TurnedPartway(lo, hi, at, TurnBy(lo.pose.yaw, f, turn), turn, f * turn)
  {
    ShareOfSpan(at - lo.stamp, hi.stamp - lo.stamp, turn, f);
    TurnByKeepsHeading(lo.pose.yaw, f, turn);
  }

  lemma InterpolationOnTheWay(lo: Sample, hi: Sample, at: real)
    requires lo.stamp < hi.stamp
    ensures OnTheWay(lo, hi, at, Interpolate(lo, hi, at))
  {
    var n, span := at - lo.stamp, hi.stamp - lo.stamp;
    var f := n / span;
    ShareOfSpan(n, span, hi.pose.x - lo.pose.x, f);
    ShareOfSpan(n, span, hi.pose.y - lo.pose.y, f);
    var turn := WrapAngle(hi.pose.yaw - lo.pose.yaw);
    WrapIsShortest(lo.pose.yaw, hi.pose.yaw);
    HeadingOnTheWay(lo, hi, at, f, turn);
    assert Interpolate(lo, hi, at) == Blended(lo.pose, hi.pose, f);
  }

  lemma Cancel(a: real, b: real, span: real)
    requires span > 0.0 && a * span == b * span
    ensures a == b
  {
    assert (a - b) * span == 0.0;
    if a > b {
      PositiveProduct(a - b, span);
    } else if a < b {
      PositiveProduct(b - a, span);
    }
  }

  lemma SameShare(turnedA: real, turnedB: real, n: real, a: real, b: real, span: real)
    requires span > 0.0 && a == b && turnedA * span == n * a && turnedB * span == n * b
    ensures turnedA == turnedB
  {
    Cancel(turnedA, turnedB, span);
  }

  lemma OneHeading(lo: Sample, hi: Sample, at: real, p: real, a: real, turnedA: real, q: real, b: real, turnedB: real)
    requires lo.stamp < hi.stamp
    requires TurnedPartway(lo, hi, at, p, a, turnedA) && TurnedPartway(lo, hi, at, q, b, turnedB)
    ensures p == q
  {
    OneShortestTurn(lo.pose.yaw, hi.pose.yaw, a, b);
    SameShare(turnedA, turnedB, at - lo.stamp, a, b, hi.stamp - lo.stamp);
    assert turnedA == turnedB;
    HeadingSymmetric(q, lo.pose.yaw + turnedA);
    HeadingTransitive(p, lo.pose.yaw + turnedA, q);
    HeadingIsUnique(p, q);
  }

  /** Only one pose is on the way at a given time. */
  lemma OnTheWayIsUnique(lo: Sample, hi: Sample, at: real, p: Pose, q: Pose)
    requires lo.stamp < hi.stamp && OnTheWay(lo, hi, at, p) && OnTheWay(lo, hi, at, q)
    ensures p == q
  {
    var span := hi.stamp - lo.stamp;
    Cancel(p.x - lo.pose.x, q.x - lo.pose.x, span);
    Cancel(p.y - lo.pose.y, q.y - lo.pose.y, span);
    var a, turnedA :| TurnedPartway(lo, hi, at, p.yaw, a, turnedA);
    var b, turnedB :| TurnedPartway(lo, hi, at, q.yaw, b, turnedB);
    OneHeading(lo, hi, at, p.yaw, a, turnedA, q.yaw, b, turnedB);
  }

  /** The sample nearer in time, the earlier one on a tie, if it is at most half a second away. */
  ghost predicate NearestOr(lo: Option<Sample>, hi: Option<Sample>, current: Option<Pose>, at: real,
      r: Option<Pose>)
  {
    && (lo.Some? && (hi.None? || at - lo.value.stamp <= hi.value.stamp - at) ==>
          r == if at - lo.value.stamp <= 0.5 then Some(lo.value.pose) else current)
    && (hi.Some? && (lo.None? || hi.value.stamp - at < at - lo.value.stamp) ==>
          r == if hi.value.stamp - at <= 0.5 then Some(hi.value.pose) else current)
  }

  /** What is answered from the last sample before and the first one after. */
  ghost predicate AnsweredBetween(lo: Option<Sample>, hi: Option<Sample>, current: Option<Pose>, at: real,
      requireBracket: bool, r: Option<Pose>)
  {
    if lo.Some? && hi.Some? && hi.value.stamp - lo.value.stamp <= 0.000000001 then r == Some(lo.value.pose)
    else if lo.Some? && hi.Some? && hi.value.stamp - lo.value.stamp <= (if requireBracket then 0.5 else 1.0) then
      r.Some? && OnTheWay(lo.value, hi.value, at, r.value)
    else if requireBracket then r == None
    else NearestOr(lo, hi, current, at, r)
  }

  lemma BetweenIsAnswered(lo: Option<Sample>, hi: Option<Sample>, current: Option<Pose>, at: real, requireBracket: bool)
    requires lo.Some? || hi.Some?
    requires (lo.Some? ==> lo.value.stamp < at) && (hi.Some? ==> hi.value.stamp > at)
    ensures AnsweredBetween(lo, hi, current, at, requireBracket, BetweenNeighbours(lo, hi, current, at, requireBracket))
  {
    if lo.Some? && hi.Some? {
      InterpolationOnTheWay(lo.value, hi.value, at);
    }
  }

  /** `r` answers the request: the newest sample of that very stamp, or an answer from its two neighbours. */
  ghost predicate Answers(log: seq<Sample>, current: Option<Pose>, at: real, requireBracket: bool, r: Option<Pose>) {
    && (log == [] ==> r == if requireBracket then None else current)
    && (forall i: nat :: IsLastHit(log, at, i) ==> r == Some(log[i].pose))
    && (forall lo, hi :: log != [] && IsLo(log, at, 0, lo) && IsHi(log, at, 0, hi) && !ExactHit(log, at) ==>
          AnsweredBetween(SampleAt(log, lo), SampleAt(log, hi), current, at, requireBracket, r))
  }

  ghost predicate IsLastHit(log: seq<Sample>, at: real, i: nat) {
    i < |log| && log[i].stamp == at && forall j :: i < j < |log| ==> log[j].stamp != at
  }

  /** Whatever agrees with the stably sorted log is an answer in that sense. */
  lemma SortedAnswers(log: seq<Sample>, current: Option<Pose>, at: real, requireBracket: bool)
    ensures forall r :: AgreesWithSorted(log, current, at, requireBracket, r) ==>
        Answers(log, current, at, requireBracket, r)
  {
    forall r | AgreesWithSorted(log, current, at, requireBracket, r)
      ensures Answers(log, current, at, requireBracket, r)
    {
      SortedAnswer(log, current, at, requireBracket, r);
    }
  }

  ghost predicate AgreesWithSorted(log: seq<Sample>, current: Option<Pose>, at: real, requireBracket: bool,
      r: Option<Pose>)
  {
    forall order :: IsStableOrder(log, order) ==> r == SortedLookup(log, order, current, at, requireBracket)
  }

  lemma SortedAnswer(log: seq<Sample>, current: Option<Pose>, at: real, requireBracket: bool, r: Option<Pose>)
    requires AgreesWithSorted(log, current, at, requireBracket, r)
    ensures Answers(log, current, at, requireBracket, r)
  {
    StableOrderExists(log);
    var order := StableOrder(log, |log|);
    assert r == SortedLookup(log, order, current, at, requireBracket);
    forall i: nat | IsLastHit(log, at, i) ensures r == Some(log[i].pose) {
      ExactAgrees(log, current, at, requireBracket, i);
    }
    forall lo, hi | log != [] && IsLo(log, at, 0, lo) && IsHi(log, at, 0, hi) && !ExactHit(log, at)
      ensures AnsweredBetween(SampleAt(log, lo), SampleAt(log, hi), current, at, requireBracket, r)
    {
      ScanAgrees(log, current, at, requireBracket, lo, hi);
      BetweenIsAnswered(SampleAt(log, lo), SampleAt(log, hi), current, at, requireBracket);
    }
  }
}
