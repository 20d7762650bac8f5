/**
 World and map coordinates (`mapToWorld`, `worldToMap`, `worldToMapEnforceBounds`), one axis at a
 time: the two axes are treated alike and independently.
 */
module Coordinates {
  import opened Grid
  import opened RollingWindow

  /** One axis of a grid. */
  datatype Axis = Axis(origin: real, resolution: real, size: nat) {
    ghost predicate Valid() {
      resolution > 0.0
    }

    /** The world coordinate where cell `m` begins. */
    function Edge(m: int): real {
      origin + m as real * resolution
    }

    /** `mapToWorld`: the centre of a cell. */
    function ToWorld(m: nat): real {
      origin + (m as real + 0.5) * resolution
    }

    /** `worldToMap`. */
    function ToMap(w: real): Option<nat>
      requires resolution > 0.0
    {
      if w < origin then None
      else
        Quotient(w - origin, resolution);
        var m := Truncate((w - origin) / resolution);
        if m < size then Some(m) else None
    }

    /** `worldToMapEnforceBounds`. */
    function EnforceBounds(w: real): int
      requires resolution > 0.0
    {
      if w < origin then 0
      else if w > resolution * size as real + origin then size - 1
      else Truncate((w - origin) / resolution)
    }
  }

  lemma Quotient(d: real, c: real)
    requires d >= 0.0 && c > 0.0
    ensures d / c >= 0.0
  {
  }

  /** `n` is the cell of `d`: the number of whole `c` in it. */
  lemma FloorOfQuotient(d: real, c: real, n: int)
    requires d >= 0.0 && c > 0.0
    ensures Truncate(d / c) == n <==> n as real * c <= d < (n + 1) as real * c
  {
    Quotient(d, c);
    var q := d / c;
    AtMostQuotient(n as real, d, c);
    AtMostQuotient((n + 1) as real, d, c);
    assert q.Floor == n <==> n as real <= q < (n + 1) as real;
  }

  lemma AtMostQuotient(n: real, d: real, c: real)
    requires c > 0.0
    ensures n <= d / c <==> n * c <= d
  {
    var q := d / c;
    assert q * c == d;
    Ordered(n, q, c);
  }

  lemma Ordered(a: real, b: real, c: real)
    requires c > 0.0
    ensures a <= b <==> a * c <= b * c
  {
    if a <= b {
      assert (b - a) * c >= 0.0;
      assert (b - a) * c == b * c - a * c;
    } else {
      assert (a - b) * c > 0.0;
      assert (a - b) * c == a * c - b * c;
    }
  }

  /** A world coordinate is in cell `m` exactly when it lies between the edges of that cell. */
  lemma ToMapIsTheCell(a: Axis, w: real, m: nat)
    requires a.Valid()
    ensures a.ToMap(w) == Some(m) <==> m < a.size && a.Edge(m) <= w < a.Edge(m + 1)
  {
    assert 0.0 <= m as real * a.resolution;
    if w >= a.origin {
      FloorOfQuotient(w - a.origin, a.resolution, m);
    }
  }

  /** Converting a cell to the world and back gives the cell; what it is converted to is midway between its edges. */
  lemma RoundTrip(a: Axis, m: nat)
    requires a.Valid() && m < a.size
    ensures a.ToMap(a.ToWorld(m)) == Some(m)
    ensures a.ToWorld(m) - a.Edge(m) == a.Edge(m + 1) - a.ToWorld(m) == a.resolution / 2.0
  {
    ToMapIsTheCell(a, a.ToWorld(m), m);
    HalfWay(m as real, a.resolution);
  }

  lemma HalfWay(m: real, c: real)
    requires c > 0.0
    ensures m * c <= (m + 0.5) * c < (m + 1.0) * c
  {
    assert (m + 0.5) * c == m * c + 0.5 * c;
    assert (m + 1.0) * c == m * c + c;
  }

  /** A world coordinate has a cell exactly when it lies in the half-open extent of the axis. */
  lemma ToMapDefined(a: Axis, w: real)
    requires a.Valid()
    ensures a.ToMap(w).Some? <==> a.origin <= w < a.Edge(a.size)
  {
    if w >= a.origin {
      Quotient(w - a.origin, a.resolution);
      AtMostQuotient(a.size as real, w - a.origin, a.resolution);
    } else {
      assert a.size as real * a.resolution >= 0.0;
    }
  }

  /** Inside the extent, enforcing bounds changes nothing. */
  lemma EnforceBoundsAgrees(a: Axis, w: real)
    requires a.Valid() && a.ToMap(w).Some?
    ensures a.EnforceBounds(w) == a.ToMap(w).value
  {
    ToMapDefined(a, w);
  }

  /**
   The header promises that the enforced cell always lies within the map. It does, except for a coordinate exactly on
   the upper edge of the map, or a map without cells.
   */
  lemma EnforceBoundsInMapExactly(a: Axis, w: real)
    requires a.Valid()
    ensures 0 <= a.EnforceBounds(w) < a.size <==> a.size > 0 && w != a.Edge(a.size)
  {
    var top := a.resolution * a.size as real;
    assert a.Edge(a.size) == a.origin + top;
    if a.origin <= w <= a.Edge(a.size) {
      Quotient(w - a.origin, a.resolution);
      AtMostQuotient(a.size as real, w - a.origin, a.resolution);
    }
  }

  /** A coordinate on the upper edge of a 10 cell map is given cell 10. */
  lemma EnforceBoundsLeavesMap()
    ensures Axis(0.0, 1.0, 10).EnforceBounds(10.0) == 10
  {
  }

  lemma EnforceBoundsMonotone(a: Axis, v: real, w: real)
    requires a.Valid() && v <= w && a.size > 0
    ensures a.EnforceBounds(v) <= a.EnforceBounds(w) || a.EnforceBounds(v) == a.size
  {
    if a.origin <= v && w <= a.resolution * a.size as real + a.origin {
      AtMostQuotient((v - a.origin) / a.resolution, w - a.origin, a.resolution);
      Quotient(v - a.origin, a.resolution);
    } else if v < a.origin {
      if a.origin <= w {
        Quotient(w - a.origin, a.resolution);
      }
    } else {
      assert w > a.resolution * a.size as real + a.origin;
      if v <= a.resolution * a.size as real + a.origin {
        Quotient(v - a.origin, a.resolution);
        AtMostQuotient(a.size as real + 1.0, v - a.origin, a.resolution);
        assert (a.size as real + 1.0) * a.resolution == a.resolution * a.size as real + a.resolution;
      }
    }
  }
}
