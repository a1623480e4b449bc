/** Voxel downsampling of a point cloud: the first point that fell into each occupied voxel. */
module Voxels {
  import opened UniqueRows

  type Point = (real, real, real)

  function Keys(points: seq<Point>, key: Point -> Row): (rows: seq<Row>)
    ensures |rows| == |points| && forall i :: 0 <= i < |points| ==> rows[i] == key(points[i])
  {
    seq(|points|, i requires 0 <= i < |points| => key(points[i]))
  }

  /** Rounding a coordinate to its voxel gives three 32-bit numbers. */
  ghost predicate IsVoxelKey(key: Point -> Row) {
    forall p :: |key(p)| == 3 && forall c :: 0 <= c < 3 ==> -0x8000_0000 <= key(p)[c] < 0x8000_0000
  }

  /** No earlier point falls into the voxel of point `i`. */
  predicate FirstInVoxel(points: seq<Point>, key: Point -> Row, i: nat)
    requires i < |points|
  {
    forall j :: 0 <= j < i ==> key(points[j]) != key(points[i])
  }

  predicate SameVoxel(key: Point -> Row, p: Point, q: Point) {
    key(p) == key(q)
  }

  predicate VoxelLess(key: Point -> Row, p: Point, q: Point) {
    RowLess(key(p), key(q)) && key(p) != key(q)
  }

  ghost predicate IsFirst(points: seq<Point>, key: Point -> Row, p: Point) {
    exists i: nat :: i < |points| && p == points[i] && FirstInVoxel(points, key, i)
  }

  ghost predicate Represented(key: Point -> Row, kept: seq<Point>, p: Point) {
    exists a :: 0 <= a < |kept| && SameVoxel(key, kept[a], p)
  }

  /** Every kept point is the first one of its voxel. */
  ghost predicate KeepsFirsts(points: seq<Point>, key: Point -> Row, kept: seq<Point>) {
    forall a :: 0 <= a < |kept| ==> IsFirst(points, key, kept[a])
  }

  ghost predicate CoversVoxels(points: seq<Point>, key: Point -> Row, kept: seq<Point>) {
    forall i :: 0 <= i < |points| ==> Represented(key, kept, points[i])
  }

  ghost predicate VoxelsAscend(key: Point -> Row, kept: seq<Point>) {
    forall a, b :: 0 <= a < b < |kept| ==> VoxelLess(key, kept[a], kept[b])
  }

  /** `kept` holds, for each occupied voxel, its first point and no other, in lexicographic order of the voxels. */
  ghost predicate IsDownsampled(points: seq<Point>, key: Point -> Row, kept: seq<Point>) {
    KeepsFirsts(points, key, kept) && CoversVoxels(points, key, kept) && VoxelsAscend(key, kept)
  }

  /** `product` is the floating-point product of the key spans that guards the packed path. */
  method VoxelDownsample(points: seq<Point>, key: Point -> Row, product: real) returns (kept: seq<Point>)
    requires IsVoxelKey(key)
    requires points != [] ==> RoundedProduct(product, SpanProduct(Keys(points, key), 3))
    ensures IsDownsampled(points, key, kept)
  {
    if |points| == 0 {
      return points;
    }
    var keys := Keys(points, key);
    Int32KeysFit(keys, 3);
    var keep := UniqueRowIndex(keys, 3, product);
    kept := Pick(points, keep);
    KeptPoints(points, key, keys, keep, kept);
  }

  lemma KeptPoints(points: seq<Point>, key: Point -> Row, keys: seq<Row>, keep: seq<nat>, kept: seq<Point>)
    requires keys == Keys(points, key) && Rectangular(keys, 3) && IsRowUnique(keys, keep) && kept == Pick(points, keep)
    ensures IsDownsampled(points, key, kept)
  {
    KeptFirsts(points, key, keys, keep, kept);
    KeptCover(points, key, keys, keep, kept);
    KeptAscend(points, key, keys, keep, kept);
  }

  lemma KeptFirsts(points: seq<Point>, key: Point -> Row, keys: seq<Row>, keep: seq<nat>, kept: seq<Point>)
    requires keys == Keys(points, key) && IsRowUnique(keys, keep) && kept == Pick(points, keep)
    ensures KeepsFirsts(points, key, kept)
  {
    forall a | 0 <= a < |kept| ensures IsFirst(points, key, kept[a]) {
      assert FirstOccurrence(keys, keep[a]);
      assert FirstInVoxel(points, key, keep[a]);
    }
  }

  lemma KeptCover(points: seq<Point>, key: Point -> Row, keys: seq<Row>, keep: seq<nat>, kept: seq<Point>)
    requires keys == Keys(points, key) && Rectangular(keys, 3) && IsRowUnique(keys, keep) && kept == Pick(points, keep)
    ensures CoversVoxels(points, key, kept)
  {
    forall i | 0 <= i < |points| ensures Represented(key, kept, points[i]) {
      OnePointPerVoxel(keys, 3, keep, i);
      var a :| 0 <= a < |keep| && keys[keep[a]] == keys[i];
      assert SameVoxel(key, kept[a], points[i]);
    }
  }

  lemma KeptAscend(points: seq<Point>, key: Point -> Row, keys: seq<Row>, keep: seq<nat>, kept: seq<Point>)
    requires keys == Keys(points, key) && Rectangular(keys, 3) && IsRowUnique(keys, keep) && kept == Pick(points, keep)
    ensures VoxelsAscend(key, kept)
  {
    if points != [] {
      OnePointPerVoxel(keys, 3, keep, 0);
    }
    forall a, b | 0 <= a < b < |kept| ensures VoxelLess(key, kept[a], kept[b]) {
      assert RowLess(Pick(keys, keep)[a], Pick(keys, keep)[b]);
      assert keys[keep[a]] == key(kept[a]) && keys[keep[b]] == key(kept[b]);
    }
  }
}
