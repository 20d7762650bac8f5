/**
 The bin numbers of the inflation wavefront (`InflationLayer::generateIntegerDistances`).

 The source sorts the offsets of a disc by squared distance and numbers the distinct
 distances in order of appearance. `Level` says what that number is without mentioning a
 disc, a sort or a running counter: the level of squared distance `n` is how many integers
 below `n` are sums of two squares.
 */
module DistanceLevels {
  import opened Grid

  datatype Offset = Offset(x: int, y: int) {
    function Norm(): int {
      x * x + y * y
    }
  }

  lemma Squares(a: int)
    ensures a * a >= 0 && Abs(a) <= a * a
  {
    if a < 0 {
      assert (-a) * (-a) >= -a;
    } else if a > 0 {
      assert a * a >= a;
    }
  }

  lemma NormNonNegative(p: Offset)
    ensures p.Norm() >= 0
  {
    Squares(p.x);
    Squares(p.y);
  }

  lemma SquareMonotone(a: int, b: int)
    requires Abs(a) <= Abs(b)
    ensures a * a <= b * b
  {
    var p, q := Abs(a), Abs(b);
    assert p * p <= p * q <= q * q;
    assert p * p == a * a && q * q == b * b;
  }

  lemma RootBound(a: int, r: nat)
    requires a * a <= r * r
    ensures Abs(a) <= r
  {
    assert (r + 1) * (r + 1) == r * r + 2 * r + 1;
    if r + 1 <= Abs(a) {
      SquareMonotone(r + 1, a);
    }
  }

  ghost predicate IsNorm(n: int) {
    exists p: Offset :: p.Norm() == n
  }

  ghost function Level(n: int): nat
    decreases n
  {
    if n <= 0 then 0 else Level(n - 1) + if IsNorm(n - 1) then 1 else 0
  }

  predicate InDisc(r: nat, p: Offset) {
    p.Norm() <= r * r
  }

  predicate InSquare(r: nat, p: Offset) {
    Abs(p.x) <= r && Abs(p.y) <= r
  }

  /** Offsets of the disc lie in the square the matrix is indexed with. */
  lemma DiscInSquare(r: nat, p: Offset)
    requires InDisc(r, p)
    ensures InSquare(r, p)
  {
    Squares(p.x);
    Squares(p.y);
    RootBound(p.x, r);
    RootBound(p.y, r);
  }

  /** Between two consecutive sums of two squares the level rises by exactly one. */
  lemma {:induction false} LevelStep(n: int, m: int)
    requires 0 <= n < m && IsNorm(n)
    requires forall k: int :: n < k < m ==> !IsNorm(k)
    ensures Level(m) == Level(n) + 1
    decreases m
  {
    if m > n + 1 {
      LevelStep(n, m - 1);
    }
  }

  lemma {:induction false} LevelMonotone(n: int, m: int)
    requires n <= m
    ensures Level(n) <= Level(m)
    decreases m - n
  {
    if n < m {
      LevelMonotone(n, m - 1);
    }
  }

  lemma LevelStrict(n: int, m: int)
    requires 0 <= n < m && IsNorm(n)
    ensures Level(n) < Level(m)
  {
  }

  /** Levels order offsets exactly as squared distances do, ties included. */
  lemma LevelOrderIsomorphism(p: Offset, q: Offset)
    ensures Level(p.Norm()) < Level(q.Norm()) <==> p.Norm() < q.Norm()
    ensures Level(p.Norm()) == Level(q.Norm()) <==> p.Norm() == q.Norm()
  {
    NormNonNegative(p);
    NormNonNegative(q);
    if p.Norm() < q.Norm() {
      LevelStrict(p.Norm(), q.Norm());
    } else if q.Norm() < p.Norm() {
      LevelStrict(q.Norm(), p.Norm());
    }
  }

  /** Every offset of the disc gets a level no larger than that of the rim: bin indices are in range. */
  lemma LevelInRange(r: nat, p: Offset)
    requires InDisc(r, p)
    ensures Level(p.Norm()) <= Level(r * r)
  {
    LevelMonotone(p.Norm(), r * r);
  }

  // ---------------------------------------------------------------- sorting

  ghost predicate SortedBy<T>(s: seq<T>, key: T -> int) {
    forall i, j :: 0 <= i <= j < |s| ==> key(s[i]) <= key(s[j])
  }

  /**
   Stands in for `std::sort` with a key comparison. Callers may use only what the standard
   promises of it: an ordered permutation, with ties in any order.
   */
  method Sort<T>(s: seq<T>, key: T -> int) returns (sorted: seq<T>)
    ensures SortedBy(sorted, key)
    ensures multiset(sorted) == multiset(s)
  {
    sorted := [];
    for n := 0 to |s|
      invariant SortedBy(sorted, key)
      invariant multiset(sorted) == multiset(s[..n])
    {
      sorted := Insert(sorted, key, s[n]);
      assert s[..n + 1] == s[..n] + [s[n]];
    }
    assert s[..|s|] == s;
  }

  method Insert<T>(s: seq<T>, key: T -> int, x: T) returns (s': seq<T>)
    requires SortedBy(s, key)
    ensures SortedBy(s', key)
    ensures multiset(s') == multiset(s) + multiset{x}
  {
    var k := |s|;
    while 0 < k && key(x) < key(s[k - 1])
      invariant 0 <= k <= |s|
      invariant forall j :: k <= j < |s| ==> key(x) <= key(s[j])
    {
      k := k - 1;
    }
    InsertedAt(s, key, x, k);
    s' := s[..k] + [x] + s[k..];
  }

  lemma InsertedAt<T>(s: seq<T>, key: T -> int, x: T, k: nat)
    requires SortedBy(s, key) && k <= |s|
    requires k > 0 ==> key(s[k - 1]) <= key(x)
    requires forall j :: k <= j < |s| ==> key(x) <= key(s[j])
    ensures SortedBy(s[..k] + [x] + s[k..], key)
    ensures multiset(s[..k] + [x] + s[k..]) == multiset(s) + multiset{x}
  {
    assert s == s[..k] + s[k..];
  }

  lemma SortedEnds<T>(s: seq<T>, key: T -> int, p: T)
    requires SortedBy(s, key) && p in s
    ensures |s| > 0 && key(s[0]) <= key(p) <= key(s[|s| - 1])
  {
  }

  lemma SortedNoGap<T>(s: seq<T>, key: T -> int, k: nat, p: T)
    requires SortedBy(s, key) && 0 < k < |s| && p in s
    ensures key(p) <= key(s[k - 1]) || key(s[k]) <= key(p)
  {
  }

  // ---------------------------------------------------------------- the disc

  ghost predicate Enumerates(points: seq<Offset>, r: nat) {
    forall p: Offset :: p in points <==> InDisc(r, p)
  }

  /** The disc offsets, gathered row by row. */
  method DiscPoints(r: nat) returns (points: seq<Offset>)
    ensures Enumerates(points, r)
  {
    points := [];
    for y := -(r as int) to r + 1
      invariant forall p :: p in points <==> InDisc(r, p) && InSquare(r, p) && p.y < y
    {
      for x := -(r as int) to r + 1
        invariant forall p :: p in points <==>
          InDisc(r, p) && InSquare(r, p) && (p.y < y || (p.y == y && p.x < x))
      {
        var p := Offset(x, y);
        if InDisc(r, p) {
          points := points + [p];
        }
      }
    }
    forall p | InDisc(r, p) ensures InSquare(r, p) {
      DiscInSquare(r, p);
    }
  }

  // ---------------------------------------------------------------- the level matrix

  type Matrix = seq<seq<int>>

  ghost predicate IsSquareMatrix(matrix: Matrix, r: nat) {
    |matrix| == 2 * r + 1 && forall k :: 0 <= k < |matrix| ==> |matrix[k]| == 2 * r + 1
  }

  function Entry(matrix: Matrix, r: nat, p: Offset): int
    requires IsSquareMatrix(matrix, r) && InSquare(r, p)
  {
    matrix[p.x + r][p.y + r]
  }

  function ZeroMatrix(r: nat): (m: Matrix)
    ensures IsSquareMatrix(m, r)
    ensures forall p: Offset :: InSquare(r, p) ==> Entry(m, r, p) == 0
  {
    seq(2 * r + 1, _ => seq(2 * r + 1, _ => 0))
  }

  function WithEntry(matrix: Matrix, r: nat, p: Offset, v: int): (m: Matrix)
    requires IsSquareMatrix(matrix, r) && InSquare(r, p)
    ensures IsSquareMatrix(m, r)
    ensures forall q: Offset :: InSquare(r, q) ==>
      Entry(m, r, q) == if q == p then v else Entry(matrix, r, q)
  {
    matrix[p.x + r := matrix[p.x + r][p.y + r := v]]
  }

  /** `distance_matrix_` for radius `r`: the level of every disc offset, shifted by `r`. */
  ghost predicate IsLevelMatrix(matrix: Matrix, r: nat) {
    && IsSquareMatrix(matrix, r)
    && forall p: Offset :: InSquare(r, p) ==>
         Entry(matrix, r, p) == if InDisc(r, p) then Level(p.Norm()) else 0
  }

  ghost predicate Numbered(matrix: Matrix, r: nat, points: seq<Offset>, rank: Offset -> int) {
    && IsSquareMatrix(matrix, r)
    && forall p: Offset :: InSquare(r, p) ==>
         Entry(matrix, r, p) == if p in points then rank(p) else 0
  }

  lemma NumberOneMore(matrix: Matrix, r: nat, points: seq<Offset>, rank: Offset -> int, k: nat)
    requires k < |points| && InSquare(r, points[k])
    requires Numbered(matrix, r, points[..k], rank)
    ensures Numbered(WithEntry(matrix, r, points[k], rank(points[k])), r, points[..k + 1], rank)
  {
  }

  /** `rank` starts at 0 in the centre and rises by one exactly where consecutive distances differ. */
  ghost predicate RisesWithNorm(points: seq<Offset>, rank: Offset -> int) {
    && (|points| > 0 ==> points[0].Norm() == 0 && rank(points[0]) == 0)
    && forall k :: 0 < k < |points| ==>
         rank(points[k]) == rank(points[k - 1]) + if points[k].Norm() != points[k - 1].Norm() then 1 else 0
  }

  lemma NextRank(points: seq<Offset>, rank: Offset -> int, k: nat, last: Offset, level: int)
    requires RisesWithNorm(points, rank) && k < |points|
    requires last == if k == 0 then Offset(0, 0) else points[k - 1]
    requires level == if k == 0 then 0 else rank(last)
    ensures rank(points[k]) == level + if points[k].Norm() != last.Norm() then 1 else 0
  {
  }

  /** The numbering loop writes the rank of every listed offset and leaves the rest at 0. */
  method AssignLevels(points: seq<Offset>, r: nat, ghost rank: Offset -> int)
    returns (matrix: Matrix, level: int)
    requires forall p :: p in points ==> InSquare(r, p)
    requires |points| > 0 && RisesWithNorm(points, rank)
    ensures Numbered(matrix, r, points, rank)
    ensures level == rank(points[|points| - 1])
  {
    matrix := ZeroMatrix(r);
    var last := Offset(0, 0);
    level := 0;
    for k := 0 to |points|
      invariant Numbered(matrix, r, points[..k], rank)
      invariant last == if k == 0 then Offset(0, 0) else points[k - 1]
      invariant level == if k == 0 then 0 else rank(last)
    {
      var p := points[k];
      NextRank(points, rank, k, last, level);
      if p.Norm() != last.Norm() {
        level := level + 1;
      }
      NumberOneMore(matrix, r, points, rank, k);
      matrix := WithEntry(matrix, r, p, level);
      last := p;
    }
    assert points[..|points|] == points;
  }

  ghost function NormOf(p: Offset): int {
    p.Norm()
  }

  /** Along any sorted enumeration of the disc the level rises exactly where the distance does. */
  lemma NextLevel(points: seq<Offset>, r: nat, k: nat)
    requires Enumerates(points, r) && SortedBy(points, NormOf)
    requires 0 < k < |points|
    ensures Level(points[k].Norm()) ==
            Level(points[k - 1].Norm()) + if points[k].Norm() != points[k - 1].Norm() then 1 else 0
  {
    var n, m := points[k - 1].Norm(), points[k].Norm();
    assert NormOf(points[k - 1]) <= NormOf(points[k]);
    if n < m {
      assert points[k] in points;
      NormNonNegative(points[k - 1]);
      forall j: int | IsNorm(j) ensures !(n < j < m) {
        var p: Offset :| p.Norm() == j;
        if j <= m {
          assert InDisc(r, p);
          SortedNoGap(points, NormOf, k, p);
        }
      }
      LevelStep(n, m);
    }
  }

  /** The centre comes first and the rim last. */
  lemma DiscEnds(points: seq<Offset>, r: nat)
    requires Enumerates(points, r) && SortedBy(points, NormOf)
    ensures |points| > 0 && points[0].Norm() == 0 && points[|points| - 1].Norm() == r * r
  {
    var centre := Centre(r);
    var rim := Rim(r);
    SortedEnds(points, NormOf, centre);
    SortedEnds(points, NormOf, rim);
    NormNonNegative(points[0]);
    assert points[|points| - 1] in points;
  }

  lemma Centre(r: nat) returns (p: Offset)
    ensures NormOf(p) == 0 && InDisc(r, p)
  {
    Squares(r);
    p := Offset(0, 0);
  }

  lemma Rim(r: nat) returns (p: Offset)
    ensures NormOf(p) == r * r && InDisc(r, p)
  {
    p := Offset(r, 0);
  }

  /** `generateIntegerDistances`: the matrix and the largest level, whatever order the sort gives ties. */
  method GenerateIntegerDistances(cellRadius: nat) returns (matrix: Matrix, level: int)
    ensures IsLevelMatrix(matrix, cellRadius + 2)
    ensures level == Level((cellRadius + 2) * (cellRadius + 2))
  {
    var r := cellRadius + 2;
    var points := DiscPoints(r);
    var sorted := Sort(points, (p: Offset) => p.Norm());
    assert SortedBy(sorted, NormOf);
    assert Enumerates(sorted, r) by {
      assert forall p: Offset :: p in sorted <==> p in multiset(sorted);
      assert forall p: Offset :: p in points <==> p in multiset(points);
    }
    ghost var rank := (p: Offset) => Level(p.Norm());
    DiscEnds(sorted, r);
    forall k | 0 < k < |sorted| {
      NextLevel(sorted, r, k);
    }
    forall p | p in sorted ensures InSquare(r, p) {
      DiscInSquare(r, p);
    }
    matrix, level := AssignLevels(sorted, r, rank);
  }
}
