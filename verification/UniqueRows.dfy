/** Deduplicating integer rows by packing each row into one 64-bit number. */
module UniqueRows {

  const INT64_SPAN := 0x1_0000_0000_0000_0000
  const INT64_MAX := 0x7FFF_FFFF_FFFF_FFFF

  type Row = seq<int>

  /** Two's-complement wrap-around. */
  function Wrap(x: int): (r: int)
    ensures -INT64_MAX - 1 <= r <= INT64_MAX
    ensures -INT64_MAX - 1 <= x <= INT64_MAX ==> r == x
  {
    (x + INT64_MAX + 1) % INT64_SPAN - INT64_MAX - 1
  }

  /** The wrapped number is the one 64-bit number that differs by whole turns of 2^64. */
  lemma WrapsAround(x: int) returns (k: int)
    ensures Wrap(x) == x - k * 0x1_0000_0000_0000_0000
    ensures -0x8000_0000_0000_0000 <= Wrap(x) < 0x8000_0000_0000_0000
  {
    k := (x + 0x8000_0000_0000_0000) / 0x1_0000_0000_0000_0000;
  }

  // ---- first occurrences in sorted order: what `np.unique(..., return_index=True)` returns

  predicate FirstOccurrence<T(==)>(xs: seq<T>, i: nat)
    requires i < |xs|
  {
    forall j :: 0 <= j < i ==> xs[j] != xs[i]
  }

  predicate Ascending(vs: seq<int>) {
    forall a, b :: 0 <= a < b < |vs| ==> vs[a] < vs[b]
  }

  /** The elements of `xs` that `idx` points at. */
  function Pick<T>(xs: seq<T>, idx: seq<nat>): (vs: seq<T>)
    requires forall a :: 0 <= a < |idx| ==> idx[a] < |xs|
    ensures |vs| == |idx| && forall a :: 0 <= a < |idx| ==> vs[a] == xs[idx[a]]
  {
    seq(|idx|, a requires 0 <= a < |idx| => xs[idx[a]])
  }

  /** `idx` lists the first occurrence of every distinct number, in ascending order of the numbers. */
  ghost predicate IsUniqueIndex(xs: seq<int>, idx: seq<nat>) {
    && (forall a :: 0 <= a < |idx| ==> idx[a] < |xs| && FirstOccurrence(xs, idx[a]))
    && Ascending(Pick(xs, idx))
    && (forall v :: v in xs <==> v in Pick(xs, idx))
  }

  function InsertValue(vs: seq<int>, v: int): seq<int> {
    if vs == [] || v < vs[0] then [v] + vs
    else if v == vs[0] then vs
    else [vs[0]] + InsertValue(vs[1..], v)
  }

  lemma {:induction false} InsertValueKeeps(vs: seq<int>, v: int)
    requires Ascending(vs)
    ensures Ascending(InsertValue(vs, v))
    ensures forall x :: x in InsertValue(vs, v) <==> x in vs || x == v
  {
    if vs != [] && v > vs[0] {
      var rest := vs[1..];
      InsertValueKeeps(rest, v);
      var t := InsertValue(rest, v);
      assert vs == [vs[0]] + rest;
      forall a | 0 <= a < |t| ensures vs[0] < t[a] {
        assert t[a] in t;
        if t[a] in rest {
          var b :| 0 <= b < |rest| && rest[b] == t[a];
          assert vs[b + 1] == t[a];
        }
      }
    }
  }

  /** The distinct numbers of `xs`, ascending. */
  function Distinct(xs: seq<int>): seq<int> {
    if xs == [] then [] else InsertValue(Distinct(xs[..|xs| - 1]), xs[|xs| - 1])
  }

  lemma {:induction false} DistinctIsSorted(xs: seq<int>)
    ensures Ascending(Distinct(xs)) && forall v :: v in Distinct(xs) <==> v in xs
  {
    if xs != [] {
      var n := |xs| - 1;
      DistinctIsSorted(xs[..n]);
      InsertValueKeeps(Distinct(xs[..n]), xs[n]);
      assert xs == xs[..n] + [xs[n]];
    }
  }

  function FirstIndex(xs: seq<int>, v: int): (i: nat)
    requires v in xs
    ensures i < |xs| && xs[i] == v && FirstOccurrence(xs, i)
  {
    if xs[0] == v then 0 else
      assert xs == [xs[0]] + xs[1..];
      var i := FirstIndex(xs[1..], v);
      assert forall j :: 0 < j < i + 1 ==> xs[1..][j - 1] == xs[j];
      i + 1
  }

  function Unique(xs: seq<int>): (idx: seq<nat>)
    ensures IsUniqueIndex(xs, idx)
  {
    DistinctIsSorted(xs);
    var vs := Distinct(xs);
    assert forall a :: 0 <= a < |vs| ==> vs[a] in vs;
    var idx := seq(|vs|, a requires 0 <= a < |vs| => FirstIndex(xs, vs[a]));
    assert Pick(xs, idx) == vs;
    idx
  }

  lemma {:induction false} AscendingSameMembers(v: seq<int>, w: seq<int>)
    requires Ascending(v) && Ascending(w) && forall x :: x in v <==> x in w
    ensures v == w
  {
    HeadIn(v);
    HeadIn(w);
    if v != [] && w != [] {
      assert v[0] == w[0];
      assert v == [v[0]] + v[1..] && w == [w[0]] + w[1..];
      forall x ensures x in v[1..] <==> x in w[1..] {
        assert x in v[1..] ==> x in v && x > v[0];
        assert x in w[1..] ==> x in w && x > w[0];
      }
      AscendingSameMembers(v[1..], w[1..]);
    }
  }

  lemma HeadIn(w: seq<int>)
    ensures w != [] ==> w[0] in w
  {
  }

  /** The answer is determined: two lists of ascending first occurrences are the same list. */
  lemma UniqueIndexIsDetermined(xs: seq<int>, p: seq<nat>, q: seq<nat>)
    requires IsUniqueIndex(xs, p) && IsUniqueIndex(xs, q)
    ensures p == q
  {
    AscendingSameMembers(Pick(xs, p), Pick(xs, q));
    forall a | 0 <= a < |p| ensures p[a] == q[a] {
      assert xs[p[a]] == Pick(xs, p)[a] == Pick(xs, q)[a] == xs[q[a]];
      assert FirstOccurrence(xs, p[a]) && FirstOccurrence(xs, q[a]);
    }
  }

  // ---- rows

  /** Lexicographic order on the first `n` columns. */
  predicate LexLess(a: Row, b: Row, n: nat)
    requires n <= |a| && n <= |b|
  {
    n > 0 && (LexLess(a, b, n - 1) || (a[..n - 1] == b[..n - 1] && a[n - 1] < b[n - 1]))
  }

  /** The first column in which two rows differ decides. */
  lemma {:induction false} FirstDifferenceDecides(a: Row, b: Row, n: nat)
    requires n <= |a| && n <= |b|
    ensures LexLess(a, b, n) <==> exists k: nat :: k < n && a[..k] == b[..k] && a[k] < b[k]
  {
    if n > 0 {
      FirstDifferenceDecides(a, b, n - 1);
      if a[..n - 1] == b[..n - 1] && a[n - 1] < b[n - 1] {
        assert n - 1 < n;
      }
    }
  }

  predicate RowLess(a: Row, b: Row) {
    if |a| == |b| then LexLess(a, b, |a|) else |a| < |b|
  }

  /** `idx` lists the first occurrence of every distinct row, in lexicographic order of the rows. */
  ghost predicate IsRowUnique(rows: seq<Row>, idx: seq<nat>) {
    && (forall a :: 0 <= a < |idx| ==> idx[a] < |rows| && FirstOccurrence(rows, idx[a]))
    && (forall a, b :: 0 <= a < b < |idx| ==> RowLess(Pick(rows, idx)[a], Pick(rows, idx)[b]))
    && (forall r :: r in rows <==> r in Pick(rows, idx))
  }

  ghost predicate Rectangular(rows: seq<Row>, m: nat) {
    forall i :: 0 <= i < |rows| ==> |rows[i]| == m
  }

  function ColumnMin(rows: seq<Row>, c: nat): int
    requires |rows| > 0 && forall i :: 0 <= i < |rows| ==> c < |rows[i]|
  {
    if |rows| == 1 then rows[0][c] else
      var m := ColumnMin(rows[..|rows| - 1], c);
      var x := rows[|rows| - 1][c];
      if x < m then x else m
  }

  function ColumnMax(rows: seq<Row>, c: nat): int
    requires |rows| > 0 && forall i :: 0 <= i < |rows| ==> c < |rows[i]|
  {
    if |rows| == 1 then rows[0][c] else
      var m := ColumnMax(rows[..|rows| - 1], c);
      var x := rows[|rows| - 1][c];
      if x > m then x else m
  }

  lemma {:induction false} ColumnBounds(rows: seq<Row>, c: nat)
    requires |rows| > 0 && forall i :: 0 <= i < |rows| ==> c < |rows[i]|
    ensures forall i :: 0 <= i < |rows| ==> ColumnMin(rows, c) <= rows[i][c] <= ColumnMax(rows, c)
    ensures exists i, j ::
        0 <= i < |rows| && 0 <= j < |rows| && rows[i][c] == ColumnMin(rows, c) && rows[j][c] == ColumnMax(rows, c)
  {
    var n := |rows| - 1;
    if n > 0 {
      ColumnBounds(rows[..n], c);
      var i, j :| 0 <= i < n && 0 <= j < n && rows[..n][i][c] == ColumnMin(rows[..n], c)
          && rows[..n][j][c] == ColumnMax(rows[..n], c);
      var i2 := if rows[n][c] < ColumnMin(rows[..n], c) then n else i;
      var j2 := if rows[n][c] > ColumnMax(rows[..n], c) then n else j;
      assert rows[i2][c] == ColumnMin(rows, c) && rows[j2][c] == ColumnMax(rows, c);
      forall k | 0 <= k < |rows| ensures ColumnMin(rows, c) <= rows[k][c] <= ColumnMax(rows, c) {
        if k < n {
          assert rows[..n][k] == rows[k];
        }
      }
    } else {
      assert rows[0][c] == ColumnMin(rows, c) && rows[0][c] == ColumnMax(rows, c);
    }
  }

  /** The value range of column `c`. */
  function Span(rows: seq<Row>, c: nat): int
    requires |rows| > 0 && forall i :: 0 <= i < |rows| ==> c < |rows[i]|
  {
    ColumnMax(rows, c) - ColumnMin(rows, c) + 1
  }

  /** No column is so wide that subtracting its minimum leaves the 64-bit range. */
  ghost predicate FitsInt64(rows: seq<Row>, m: nat)
    requires |rows| > 0 && Rectangular(rows, m)
  {
    forall c :: 0 <= c < m ==> Span(rows, c) <= INT64_MAX
  }

  function SpanProduct(rows: seq<Row>, n: nat): int
    requires |rows| > 0 && forall i :: 0 <= i < |rows| ==> n <= |rows[i]|
  {
    if n == 0 then 1 else SpanProduct(rows, n - 1) * Span(rows, n - 1)
  }

  /** Mixed-radix value of the first `n` columns of a row, without wrap-around. */
  function Pack(rows: seq<Row>, r: Row, n: nat): int
    requires |rows| > 0 && n <= |r| && forall i :: 0 <= i < |rows| ==> n <= |rows[i]|
  {
    if n == 0 then 0 else Pack(rows, r, n - 1) * Span(rows, n - 1) + (r[n - 1] - ColumnMin(rows, n - 1))
  }

  lemma MulMonotone(a: int, b: int, s: int)
    requires a <= b && s >= 0
    ensures a * s <= b * s
  {
  }

  lemma {:induction false} PackBound(rows: seq<Row>, r: Row, n: nat)
    requires r in rows && n <= |r| && forall i :: 0 <= i < |rows| ==> n <= |rows[i]|
    ensures 0 <= Pack(rows, r, n) < SpanProduct(rows, n)
  {
    if n > 0 {
      PackBound(rows, r, n - 1);
      ColumnBounds(rows, n - 1);
      DigitBound(Pack(rows, r, n - 1), SpanProduct(rows, n - 1), Span(rows, n - 1), r[n - 1] - ColumnMin(rows, n - 1));
    }
  }

  lemma DigitBound(p: int, q: int, s: int, x: int)
    requires 0 <= p < q && 0 <= x < s
    ensures 0 <= p * s + x < q * s
  {
    MulMonotone(p + 1, q, s);
    MulMonotone(0, p, s);
  }

  lemma DigitOrder(p: int, q: int, s: int, x: int, y: int)
    requires 0 <= x < s && 0 <= y < s
    ensures p < q ==> p * s + x < q * s + y
    ensures p * s + x == q * s + y <==> p == q && x == y
    ensures p * s + x < q * s + y <==> p < q || (p == q && x < y)
  {
    if p < q {
      MulMonotone(p + 1, q, s);
    } else if q < p {
      MulMonotone(q + 1, p, s);
    }
  }

  /** Packing is injective and preserves the lexicographic order. */
  lemma {:induction false} PackOrder(rows: seq<Row>, a: Row, b: Row, n: nat)
    requires a in rows && b in rows && n <= |a| && n <= |b| && forall i :: 0 <= i < |rows| ==> n <= |rows[i]|
    ensures Pack(rows, a, n) < Pack(rows, b, n) <==> LexLess(a, b, n)
    ensures Pack(rows, a, n) == Pack(rows, b, n) <==> a[..n] == b[..n]
  {
    if n > 0 {
      PackOrder(rows, a, b, n - 1);
      ColumnBounds(rows, n - 1);
      var lo := ColumnMin(rows, n - 1);
      DigitOrder(Pack(rows, a, n - 1), Pack(rows, b, n - 1), Span(rows, n - 1), a[n - 1] - lo, b[n - 1] - lo);
      assert a[..n] == a[..n - 1] + [a[n - 1]] && b[..n] == b[..n - 1] + [b[n - 1]];
    }
  }

  /** Whenever the span product passes the guard, every intermediate of the packing stays below 2^63. */
  lemma {:induction false} ProductGrows(rows: seq<Row>, n: nat, m: nat)
    requires |rows| > 0 && n <= m && forall i :: 0 <= i < |rows| ==> m <= |rows[i]|
    ensures 1 <= SpanProduct(rows, n) <= SpanProduct(rows, m)
  {
    if m > 0 {
      ColumnBounds(rows, m - 1);
      if n < m {
        ProductGrows(rows, n, m - 1);
        MulMonotone(1, Span(rows, m - 1), SpanProduct(rows, m - 1));
      } else {
        ProductGrows(rows, n - 1, m - 1);
        MulMonotone(1, Span(rows, m - 1), SpanProduct(rows, m - 1));
      }
    }
  }

  lemma NoOverflow(rows: seq<Row>, r: Row, c: nat, m: nat)
    requires r in rows && 1 <= c < m && forall i :: 0 <= i < |rows| ==> |rows[i]| == m
    requires SpanProduct(rows, m) <= INT64_MAX
    ensures 0 <= Pack(rows, r, c) * Span(rows, c) <= Pack(rows, r, c + 1) <= INT64_MAX
  {
    PackBound(rows, r, c);
    PackBound(rows, r, c + 1);
    ColumnBounds(rows, c);
    ProductGrows(rows, c + 1, m);
    MulMonotone(0, Pack(rows, r, c), Span(rows, c));
  }

  /** The guard of the packed path. `product` is the floating-point product of the spans, with its rounding error. */
  const GUARD := 9_000_000_000_000_000_000.0

  ghost predicate RoundedProduct(product: real, exact: int) {
    exact as real * 0.98 <= product <= exact as real * 1.02
  }

  // ---- the function, with 64-bit arithmetic

  /** A key less its column's minimum, in wrap-around arithmetic. */
  function Shifted(rows: seq<Row>, c: nat, i: nat): int
    requires i < |rows| && forall k :: 0 <= k < |rows| ==> c < |rows[k]|
  {
    Wrap(rows[i][c] - ColumnMin(rows, c))
  }

  /** The greatest of the first `n` of these. */
  function Greatest(rows: seq<Row>, c: nat, n: nat): (x: int)
    requires 1 <= n <= |rows| && forall k :: 0 <= k < |rows| ==> c < |rows[k]|
  {
    if n == 1 then Shifted(rows, c, 0) else
      var x, last := Greatest(rows, c, n - 1), Shifted(rows, c, n - 1);
      if last > x then last else x
  }

  function WrappedSpan(rows: seq<Row>, c: nat): int
    requires |rows| > 0 && forall k :: 0 <= k < |rows| ==> c < |rows[k]|
  {
    Wrap(Greatest(rows, c, |rows|) + 1)
  }

  function FoldKey(key: int, span: int, digit: int): int {
    Wrap(Wrap(key * span) + digit)
  }

  /** What the packed path makes of the first `n` columns of row `i`. */
  function WrappedKey(rows: seq<Row>, n: nat, i: nat): int
    requires i < |rows| && n >= 1 && forall k :: 0 <= k < |rows| ==> n <= |rows[k]|
  {
    if n == 1 then Shifted(rows, 0, i)
    else FoldKey(WrappedKey(rows, n - 1, i), WrappedSpan(rows, n - 1), Shifted(rows, n - 1, i))
  }

  ghost predicate IsPacked(rows: seq<Row>, n: nat, lin: seq<int>)
    requires n >= 1 && forall k :: 0 <= k < |rows| ==> n <= |rows[k]|
  {
    |lin| == |rows| && forall i :: 0 <= i < |rows| ==> lin[i] == WrappedKey(rows, n, i)
  }

  /** Packed path: column by column, in wrap-around arithmetic. */
  method PackRows(rows: seq<Row>, m: nat) returns (lin: seq<int>)
    requires |rows| > 0 && m >= 1 && Rectangular(rows, m)
    ensures IsPacked(rows, m, lin)
  {
    lin := seq(|rows|, i requires 0 <= i < |rows| => Shifted(rows, 0, i));
    for c := 1 to m
      invariant IsPacked(rows, c, lin)
    {
      lin := PackColumn(rows, c, lin);
    }
  }

  method PackColumn(rows: seq<Row>, c: nat, prev: seq<int>) returns (lin: seq<int>)
    requires |rows| > 0 && 1 <= c && (forall k :: 0 <= k < |rows| ==> c < |rows[k]|) && IsPacked(rows, c, prev)
    ensures IsPacked(rows, c + 1, lin)
  {
    var span := WrappedSpan(rows, c);
    lin := seq(|rows|, i requires 0 <= i < |rows| => FoldKey(prev[i], span, Shifted(rows, c, i)));
  }

  lemma WrapFits(x: int)
    requires -INT64_MAX - 1 <= x <= INT64_MAX
    ensures Wrap(x) == x
  {
  }

  lemma ShiftedFits(rows: seq<Row>, c: nat, m: nat, i: nat)
    requires i < |rows| && c < m && Rectangular(rows, m) && FitsInt64(rows, m)
    ensures Shifted(rows, c, i) == rows[i][c] - ColumnMin(rows, c)
  {
    ColumnBounds(rows, c);
    assert Span(rows, c) <= INT64_MAX;
    WrapFits(rows[i][c] - ColumnMin(rows, c));
  }

  lemma {:induction false} GreatestIs(rows: seq<Row>, c: nat, m: nat, n: nat)
    requires 1 <= n <= |rows| && c < m && Rectangular(rows, m) && FitsInt64(rows, m)
    ensures Greatest(rows, c, n) == ColumnMax(rows[..n], c) - ColumnMin(rows, c)
  {
    ShiftedFits(rows, c, m, n - 1);
    if n > 1 {
      GreatestIs(rows, c, m, n - 1);
      assert rows[..n][..n - 1] == rows[..n - 1];
    }
  }

  lemma SpanFits(rows: seq<Row>, c: nat, m: nat)
    requires |rows| > 0 && c < m && Rectangular(rows, m) && FitsInt64(rows, m)
    ensures WrappedSpan(rows, c) == Span(rows, c)
  {
    GreatestIs(rows, c, m, |rows|);
    assert rows[..|rows|] == rows;
    ColumnBounds(rows, c);
    assert ColumnMin(rows, c) <= rows[0][c] <= ColumnMax(rows, c);
    WrapFits(Span(rows, c));
  }

  lemma FoldKeyFits(key: int, span: int, digit: int)
    requires 0 <= key * span <= INT64_MAX && -INT64_MAX <= key * span + digit <= INT64_MAX
    ensures FoldKey(key, span, digit) == key * span + digit
  {
    WrapFits(key * span);
    WrapFits(key * span + digit);
  }

  lemma DigitFits(rows: seq<Row>, c: nat, m: nat, i: nat)
    requires i < |rows| && 1 <= c < m && Rectangular(rows, m) && FitsInt64(rows, m) && SpanProduct(rows, m) <= INT64_MAX
    ensures FoldKey(Pack(rows, rows[i], c), Span(rows, c), rows[i][c] - ColumnMin(rows, c)) ==
            Pack(rows, rows[i], c + 1)
  {
    assert rows[i] in rows;
    NoOverflow(rows, rows[i], c, m);
    ColumnBounds(rows, c);
    FoldKeyFits(Pack(rows, rows[i], c), Span(rows, c), rows[i][c] - ColumnMin(rows, c));
  }

  /** While everything fits, wrapping never happens: the packed number is the mixed-radix one. */
  lemma {:induction false} WrappedIsPacked(rows: seq<Row>, n: nat, m: nat, i: nat)
    requires i < |rows| && 1 <= n <= m && Rectangular(rows, m)
    requires FitsInt64(rows, m) && SpanProduct(rows, m) <= INT64_MAX
    ensures WrappedKey(rows, n, i) == Pack(rows, rows[i], n)
  {
    ShiftedFits(rows, n - 1, m, i);
    if n == 1 {
      assert Pack(rows, rows[i], 0) == 0;
    } else {
      WrappedIsPacked(rows, n - 1, m, i);
      SpanFits(rows, n - 1, m);
      DigitFits(rows, n - 1, m, i);
    }
  }

  lemma {:induction false} SameRowsSameKeys(rows: seq<Row>, n: nat, i: nat, j: nat)
    requires i < |rows| && j < |rows| && rows[i] == rows[j] && n >= 1
    requires forall k :: 0 <= k < |rows| ==> n <= |rows[k]|
    ensures WrappedKey(rows, n, i) == WrappedKey(rows, n, j)
  {
    if n > 1 {
      SameRowsSameKeys(rows, n - 1, i, j);
    }
  }

  /** The wrapped numbers are in the order of the rows. */
  ghost predicate PackingOrdered(rows: seq<Row>, m: nat)
    requires m >= 1 && Rectangular(rows, m)
  {
    forall i: nat, j: nat :: i < |rows| && j < |rows| && RowLess(rows[i], rows[j]) ==>
      WrappedKey(rows, m, i) < WrappedKey(rows, m, j)
  }

  /** A single column of 64-bit keys. */
  ghost predicate IsKeyColumn(rows: seq<Row>, m: nat) {
    |rows| > 0 && m == 1 && Rectangular(rows, 1) && forall i :: 0 <= i < |rows| ==>
        -INT64_MAX - 1 <= rows[i][0] <= INT64_MAX
  }

  /**
   * The first occurrence of each distinct row, in lexicographic order of the rows, as row-wise unique gives it, exactly
   * when the guard chooses the fallback or the wrapped packing keeps the order of the rows. That is so whenever no
   * column is wider than 64 bits, for any rounding of the guard product of up to two per cent; and for a single column
   * exactly when the keys span at most 2^63 - 1.
   */
  method UniqueRowIndex(rows: seq<Row>, m: nat, product: real) returns (idx: seq<nat>)
    requires m >= 1 && Rectangular(rows, m)
    requires |rows| > 0 && FitsInt64(rows, m) ==> RoundedProduct(product, SpanProduct(rows, m))
    ensures |rows| > 0 && FitsInt64(rows, m) ==> IsRowUnique(rows, idx)
    ensures |rows| > 0 ==>
              (IsRowUnique(rows, idx) <==> product >= 9_000_000_000_000_000_000.0 || PackingOrdered(rows, m))
    ensures IsKeyColumn(rows, m) ==>
              (IsRowUnique(rows, idx) <==>
                product >= 9_000_000_000_000_000_000.0 || ColumnMax(rows, 0) - ColumnMin(rows, 0) <= INT64_MAX)
    ensures rows == [] ==> idx == []
  {
    if |rows| == 0 {
      return [];
    }
    if product >= GUARD {
      return RowWiseUnique(rows, m);
    }
    var lin := PackRows(rows, m);
    idx := Unique(lin);
    PackingDecides(rows, m, lin);
    if FitsInt64(rows, m) {
      forall i | 0 <= i < |rows| ensures lin[i] == Pack(rows, rows[i], m) {
        WrappedIsPacked(rows, m, m, i);
      }
      PackedIsRowUnique(rows, m, lin, idx);
    }
    if IsKeyColumn(rows, m) {
      OneColumnExactly(rows, lin);
    }
  }

  /** The library's row-wise unique, here by ordering the rows' unbounded mixed-radix values. */
  function RowWiseUnique(rows: seq<Row>, m: nat): (idx: seq<nat>)
    requires |rows| > 0 && Rectangular(rows, m)
    ensures IsRowUnique(rows, idx)
  {
    var keys := seq(|rows|, i requires 0 <= i < |rows| => Pack(rows, rows[i], m));
    PackedIsRowUnique(rows, m, keys, Unique(keys));
    Unique(keys)
  }

  /** Equality and order of the packed numbers are those of the rows, so first occurrences in order are too. */
  lemma PackedIsRowUnique(rows: seq<Row>, m: nat, lin: seq<int>, idx: seq<nat>)
    requires |rows| == |lin| > 0 && Rectangular(rows, m)
    requires forall i :: 0 <= i < |rows| ==> lin[i] == Pack(rows, rows[i], m)
    requires forall a :: 0 <= a < |idx| ==> idx[a] < |rows|
    ensures IsUniqueIndex(lin, idx) <==> IsRowUnique(rows, idx)
  {
    forall i, j | 0 <= i < |rows| && 0 <= j < |rows| ensures SamePlace(rows, lin, i, j) {
      PackedPair(rows, m, i, j);
    }
    OrderedIsRowUnique(rows, lin, idx);
  }

  /** Two rows compare as their numbers do. */
  predicate SamePlace(rows: seq<Row>, lin: seq<int>, i: nat, j: nat)
    requires |rows| == |lin| && i < |rows| && j < |rows|
  {
    (lin[i] < lin[j] <==> RowLess(rows[i], rows[j])) && (lin[i] == lin[j] <==> rows[i] == rows[j])
  }

  lemma OrderedIsRowUnique(rows: seq<Row>, lin: seq<int>, idx: seq<nat>)
    requires |rows| == |lin| && forall i, j :: 0 <= i < |rows| && 0 <= j < |rows| ==> SamePlace(rows, lin, i, j)
    requires forall a :: 0 <= a < |idx| ==> idx[a] < |rows|
    ensures IsUniqueIndex(lin, idx) <==> IsRowUnique(rows, idx)
  {
    forall i: nat | i < |rows| ensures FirstOccurrence(rows, i) <==> FirstOccurrence(lin, i) {
      forall j: nat | j < i ensures lin[j] == lin[i] <==> rows[j] == rows[i] {
        assert SamePlace(rows, lin, j, i);
      }
    }
    var vs, rs := Pick(lin, idx), Pick(rows, idx);
    forall a, b | 0 <= a < |idx| && 0 <= b < |idx| ensures vs[a] < vs[b] <==> RowLess(rs[a], rs[b]) {
      assert SamePlace(rows, lin, idx[a], idx[b]);
    }
    forall i, j | 0 <= i < |rows| && 0 <= j < |rows| ensures lin[i] == lin[j] <==> rows[i] == rows[j] {
      assert SamePlace(rows, lin, i, j);
    }
    CoverageAgrees(rows, lin, idx);
  }

  /** Of two different rows one comes first. */
  lemma RowsCompare(rows: seq<Row>, m: nat, i: nat, j: nat)
    requires i < |rows| && j < |rows| && Rectangular(rows, m)
    ensures RowLess(rows[i], rows[j]) || rows[i] == rows[j] || RowLess(rows[j], rows[i])
    ensures !(RowLess(rows[i], rows[j]) && (rows[i] == rows[j] || RowLess(rows[j], rows[i])))
  {
    PackedPair(rows, m, i, j);
    PackedPair(rows, m, j, i);
  }

  lemma OrderedPlaces(rows: seq<Row>, m: nat, lin: seq<int>, i: nat, j: nat)
    requires m >= 1 && Rectangular(rows, m) && IsPacked(rows, m, lin) && PackingOrdered(rows, m)
    requires i < |rows| && j < |rows|
    ensures SamePlace(rows, lin, i, j)
  {
    RowsCompare(rows, m, i, j);
    if rows[i] == rows[j] {
      SameRowsSameKeys(rows, m, i, j);
    } else {
      assert RowLess(rows[i], rows[j]) ==> WrappedKey(rows, m, i) < WrappedKey(rows, m, j);
      assert RowLess(rows[j], rows[i]) ==> WrappedKey(rows, m, j) < WrappedKey(rows, m, i);
    }
  }

  /** The packed branch gives the row-wise answer if and only if the wrapped numbers keep the order of the rows. */
  lemma PackingDecides(rows: seq<Row>, m: nat, lin: seq<int>)
    requires |rows| > 0 && m >= 1 && Rectangular(rows, m) && IsPacked(rows, m, lin)
    ensures IsRowUnique(rows, Unique(lin)) <==> PackingOrdered(rows, m)
  {
    if PackingOrdered(rows, m) {
      forall i, j | 0 <= i < |rows| && 0 <= j < |rows| ensures SamePlace(rows, lin, i, j) {
        OrderedPlaces(rows, m, lin, i, j);
      }
      OrderedIsRowUnique(rows, lin, Unique(lin));
    }
    if IsRowUnique(rows, Unique(lin)) {
      forall i: nat, j: nat | i < |rows| && j < |rows| && RowLess(rows[i], rows[j])
        ensures WrappedKey(rows, m, i) < WrappedKey(rows, m, j)
      {
        OrderKept(rows, m, lin, Unique(lin), i, j);
      }
    }
  }

  lemma CoverageAgrees(rows: seq<Row>, lin: seq<int>, idx: seq<nat>)
    requires |rows| == |lin| && forall i, j :: 0 <= i < |rows| && 0 <= j < |rows| ==>
        (lin[i] == lin[j] <==> rows[i] == rows[j])
    requires forall a :: 0 <= a < |idx| ==> idx[a] < |rows|
    ensures (forall v :: v in lin <==> v in Pick(lin, idx)) <==> (forall r :: r in rows <==> r in Pick(rows, idx))
  {
    if forall v :: v in lin <==> v in Pick(lin, idx) {
      forall r | r in rows ensures r in Pick(rows, idx) {
        var i :| 0 <= i < |rows| && rows[i] == r;
        assert lin[i] in lin;
        var a :| 0 <= a < |idx| && Pick(lin, idx)[a] == lin[i];
        assert Pick(rows, idx)[a] == r;
      }
    }
    if forall r :: r in rows <==> r in Pick(rows, idx) {
      forall v | v in lin ensures v in Pick(lin, idx) {
        var i :| 0 <= i < |lin| && lin[i] == v;
        assert rows[i] in rows;
        var a :| 0 <= a < |idx| && Pick(rows, idx)[a] == rows[i];
        assert Pick(lin, idx)[a] == v;
      }
    }
  }

  lemma PackedPair(rows: seq<Row>, m: nat, i: nat, j: nat)
    requires i < |rows| && j < |rows| && Rectangular(rows, m)
    ensures Pack(rows, rows[i], m) < Pack(rows, rows[j], m) <==> RowLess(rows[i], rows[j])
    ensures Pack(rows, rows[i], m) == Pack(rows, rows[j], m) <==> rows[i] == rows[j]
  {
    assert rows[i] in rows && rows[j] in rows;
    PackOrder(rows, rows[i], rows[j], m);
    assert rows[i][..m] == rows[i] && rows[j][..m] == rows[j];
  }

  /** Row-wise unique has one answer. */
  lemma RowUniqueIsDetermined(rows: seq<Row>, m: nat, p: seq<nat>, q: seq<nat>)
    requires |rows| > 0 && Rectangular(rows, m) && IsRowUnique(rows, p) && IsRowUnique(rows, q)
    ensures p == q
  {
    var keys := seq(|rows|, i requires 0 <= i < |rows| => Pack(rows, rows[i], m));
    PackedIsRowUnique(rows, m, keys, p);
    PackedIsRowUnique(rows, m, keys, q);
    UniqueIndexIsDetermined(keys, p, q);
  }

  /** 32-bit keys, which is what every caller passes, always fit. */
  lemma Int32KeysFit(rows: seq<Row>, m: nat)
    requires |rows| > 0 && Rectangular(rows, m)
    requires forall i, c :: 0 <= i < |rows| && 0 <= c < m ==> -0x8000_0000 <= rows[i][c] < 0x8000_0000
    ensures FitsInt64(rows, m)
  {
    forall c | 0 <= c < m ensures Span(rows, c) <= INT64_MAX {
      ColumnBounds(rows, c);
      var i, j :| 0 <= i < |rows| && 0 <= j < |rows| && rows[i][c] == ColumnMin(rows, c)
          && rows[j][c] == ColumnMax(rows, c);
    }
  }

  /** Where the packed path goes wrong: for one column of 64-bit keys, exactly when the keys span more than 2^63 - 1. */
  lemma OneColumnExactly(rows: seq<Row>, lin: seq<int>)
    requires IsKeyColumn(rows, 1) && IsPacked(rows, 1, lin)
    ensures IsRowUnique(rows, Unique(lin)) <==> ColumnMax(rows, 0) - ColumnMin(rows, 0) <= INT64_MAX
  {
    if ColumnMax(rows, 0) - ColumnMin(rows, 0) <= INT64_MAX {
      NarrowColumn(rows, lin);
    } else {
      WideColumn(rows);
      PackingDecides(rows, 1, lin);
    }
  }

  lemma NarrowColumn(rows: seq<Row>, lin: seq<int>)
    requires IsKeyColumn(rows, 1) && ColumnMax(rows, 0) - ColumnMin(rows, 0) <= INT64_MAX && IsPacked(rows, 1, lin)
    ensures IsRowUnique(rows, Unique(lin))
  {
    ColumnBounds(rows, 0);
    forall i | 0 <= i < |rows| ensures lin[i] == Pack(rows, rows[i], 1) {
      WrapFits(rows[i][0] - ColumnMin(rows, 0));
      PackOne(rows, rows[i]);
    }
    PackedIsRowUnique(rows, 1, lin, Unique(lin));
  }

  /** The least and the greatest key change places. */
  lemma WideColumn(rows: seq<Row>)
    requires IsKeyColumn(rows, 1) && INT64_MAX < ColumnMax(rows, 0) - ColumnMin(rows, 0)
    ensures !PackingOrdered(rows, 1)
  {
    ColumnBounds(rows, 0);
    var i, j :| 0 <= i < |rows| && 0 <= j < |rows| && rows[i][0] == ColumnMin(rows, 0)
        && rows[j][0] == ColumnMax(rows, 0);
    WideKeysSwap(rows, i, j);
  }

  lemma WideKeysSwap(rows: seq<Row>, i: nat, j: nat)
    requires IsKeyColumn(rows, 1) && i < |rows| && j < |rows|
    requires rows[i][0] == ColumnMin(rows, 0) && INT64_MAX < rows[j][0] - ColumnMin(rows, 0)
    ensures RowLess(rows[i], rows[j]) && WrappedKey(rows, 1, j) < WrappedKey(rows, 1, i)
  {
    OneColumnLess(rows[i], rows[j]);
    WrapWide(rows[j][0] - ColumnMin(rows, 0));
    WrapFits(0);
  }

  lemma MinIs(rows: seq<Row>, c: nat, i: nat)
    requires i < |rows| && forall k :: 0 <= k < |rows| ==> c < |rows[k]|
    requires forall k :: 0 <= k < |rows| ==> rows[i][c] <= rows[k][c]
    ensures ColumnMin(rows, c) == rows[i][c]
  {
    ColumnBounds(rows, c);
  }

  lemma MaxIs(rows: seq<Row>, c: nat, i: nat)
    requires i < |rows| && forall k :: 0 <= k < |rows| ==> c < |rows[k]|
    requires forall k :: 0 <= k < |rows| ==> rows[k][c] <= rows[i][c]
    ensures ColumnMax(rows, c) == rows[i][c]
  {
    ColumnBounds(rows, c);
  }

  /** Three rows whose second column spans all of 64 bits. */
  ghost predicate IsLucky(rows: seq<Row>) {
    && |rows| == 3 && Rectangular(rows, 2)
    && rows[0][0] == 0 && rows[1][0] == 1 && rows[2][0] == 2
    && rows[0][1] == -INT64_MAX - 1 && rows[1][1] == INT64_MAX && rows[2][1] == -INT64_MAX
  }

  lemma LuckyColumns(rows: seq<Row>)
    requires IsLucky(rows)
    ensures Shifted(rows, 0, 0) == 0 && Shifted(rows, 0, 1) == 1 && Shifted(rows, 0, 2) == 2
    ensures Shifted(rows, 1, 0) == 0 && Shifted(rows, 1, 1) == -1 && Shifted(rows, 1, 2) == 1
  {
    MinIs(rows, 0, 0);
    MinIs(rows, 1, 0);
    WrapFits(0);
    WrapFits(1);
    WrapFits(2);
    WrapWide(rows[1][1] - ColumnMin(rows, 1));
  }

  lemma LuckySpan(rows: seq<Row>)
    requires IsLucky(rows)
    ensures WrappedSpan(rows, 1) == 2
  {
    LuckyColumns(rows);
    assert Greatest(rows, 1, 1) == 0;
    assert Greatest(rows, 1, 2) == 0;
    assert Greatest(rows, 1, 3) == 1;
    WrapFits(2);
  }

  lemma LuckyKey(rows: seq<Row>, i: nat, first: int, second: int)
    requires IsLucky(rows) && i < 3 && Shifted(rows, 0, i) == first && Shifted(rows, 1, i) == second
    requires 0 <= first <= 2 && -1 <= second <= 1
    ensures WrappedKey(rows, 2, i) == 2 * first + second
  {
    LuckySpan(rows);
    FoldKeyFits(first, 2, second);
    assert WrappedKey(rows, 1, i) == first;
    assert WrappedKey(rows, 2, i) == FoldKey(first, 2, second);
  }

  lemma LuckyPair(rows: seq<Row>, i: nat, j: nat)
    requires IsLucky(rows) && i < 3 && j < 3 && RowLess(rows[i], rows[j])
    ensures i < j
  {
    FirstColumnDecides(rows[i], rows[j]);
  }

  lemma LuckyOrder(rows: seq<Row>, i: nat, j: nat)
    requires IsLucky(rows) && i < j < 3
    ensures WrappedKey(rows, 2, i) < WrappedKey(rows, 2, j)
  {
    LuckyColumns(rows);
    LuckyKey(rows, i, i, if i == 1 then -1 else i / 2);
    LuckyKey(rows, j, j, if j == 1 then -1 else j / 2);
  }

  /** A column may be too wide and the order come out right all the same, so no bound on the spans alone decides it. */
  lemma WideColumnMayBeRight(rows: seq<Row>)
    requires IsLucky(rows)
    ensures !FitsInt64(rows, 2) && PackingOrdered(rows, 2)
  {
    MinIs(rows, 1, 0);
    MaxIs(rows, 1, 1);
    assert Span(rows, 1) > INT64_MAX;
    forall i: nat, j: nat | i < 3 && j < 3 && RowLess(rows[i], rows[j])
      ensures WrappedKey(rows, 2, i) < WrappedKey(rows, 2, j)
    {
      LuckyPair(rows, i, j);
      LuckyOrder(rows, i, j);
    }
  }

  lemma FirstColumnDecides(a: Row, b: Row)
    requires |a| == |b| == 2 && RowLess(a, b)
    ensures a[0] < b[0] || (a[0] == b[0] && a[1] < b[1])
  {
    assert !LexLess(a, b, 0);
    assert LexLess(a, b, 1) ==> a[0] < b[0];
    assert a[..1] == b[..1] ==> a[..1][0] == b[..1][0];
  }

  lemma PackOne(rows: seq<Row>, r: Row)
    requires |rows| > 0 && |r| == 1 && Rectangular(rows, 1)
    ensures Pack(rows, r, 1) == r[0] - ColumnMin(rows, 0)
  {
    assert Pack(rows, r, 0) == 0;
  }

  lemma WrapWide(x: int)
    requires INT64_MAX < x < INT64_SPAN
    ensures Wrap(x) == x - INT64_SPAN
  {
  }

  /** Where both numberings give the same first occurrences, they order the rows alike. */
  lemma OrderKept(rows: seq<Row>, m: nat, lin: seq<int>, idx: seq<nat>, i: nat, j: nat)
    requires m >= 1 && Rectangular(rows, m) && IsPacked(rows, m, lin)
    requires i < |rows| && j < |rows| && RowLess(rows[i], rows[j])
    requires IsUniqueIndex(lin, idx) && IsRowUnique(rows, idx)
    ensures WrappedKey(rows, m, i) < WrappedKey(rows, m, j)
  {
    var a := PlaceOf(rows, idx, i);
    var b := PlaceOf(rows, idx, j);
    SameRowsSameKeys(rows, m, idx[a], i);
    SameRowsSameKeys(rows, m, idx[b], j);
    RowsCompare(rows, m, i, j);
    LaterIsGreater(rows, lin, idx, a, b);
    LaterIsGreater(rows, lin, idx, b, a);
  }

  lemma LaterIsGreater(rows: seq<Row>, lin: seq<int>, idx: seq<nat>, a: nat, b: nat)
    requires |rows| == |lin| && a < |idx| && b < |idx| && IsUniqueIndex(lin, idx) && IsRowUnique(rows, idx)
    ensures a < b ==> lin[idx[a]] < lin[idx[b]] && RowLess(rows[idx[a]], rows[idx[b]])
  {
    assert a < b ==> Pick(lin, idx)[a] < Pick(lin, idx)[b] && RowLess(Pick(rows, idx)[a], Pick(rows, idx)[b]);
  }

  lemma PlaceOf(rows: seq<Row>, idx: seq<nat>, i: nat) returns (a: nat)
    requires IsRowUnique(rows, idx) && i < |rows|
    ensures a < |idx| && idx[a] < |rows| && rows[idx[a]] == rows[i]
  {
    assert rows[i] in rows;
    a :| a < |idx| && Pick(rows, idx)[a] == rows[i];
  }

  lemma OneColumnLess(a: Row, b: Row)
    requires |a| == |b| == 1
    ensures RowLess(a, b) <==> a[0] < b[0]
  {
    assert !LexLess(a, b, 0) && a[..0] == b[..0];
  }

  /** Exactly one point is kept in every occupied voxel: the first that fell into it. */
  lemma OnePointPerVoxel(rows: seq<Row>, m: nat, idx: seq<nat>, i: nat)
    requires i < |rows| && Rectangular(rows, m) && IsRowUnique(rows, idx)
    ensures exists a :: 0 <= a < |idx| && rows[idx[a]] == rows[i] && idx[a] <= i
    ensures forall a, b :: 0 <= a < b < |idx| ==> rows[idx[a]] != rows[idx[b]]
  {
    assert rows[i] in rows;
    var a :| 0 <= a < |idx| && Pick(rows, idx)[a] == rows[i];
    assert FirstOccurrence(rows, idx[a]) && rows[idx[a]] == rows[i];
    forall a, b | 0 <= a < b < |idx| ensures rows[idx[a]] != rows[idx[b]] {
      assert RowLess(Pick(rows, idx)[a], Pick(rows, idx)[b]);
      PackedPair(rows, m, idx[a], idx[b]);
    }
  }
}
