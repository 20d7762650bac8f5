/** Writing a cost over a polygon (`Costmap2D::setConvexPolygonCost`). */
module PolygonCost {
  import opened Grid
  import opened Raytrace
  import opened PolygonFill
  import opened Coordinates
  import opened Costmap

  /** `worldToMap` on both axes. */
  function ToCellOf(x: Axis, y: Axis, p: (real, real)): Option<MapLocation>
    requires x.resolution > 0.0 && y.resolution > 0.0
  {
    match (x.ToMap(p.0), y.ToMap(p.1))
    case (Some(mx), Some(my)) => Option.Some(MapLocation(mx, my))
    case _ => Option.None
  }

  function AxisX(m: Costmap2D): Axis
    reads m
  {
    Axis(m.originX, m.resolution, m.sizeX)
  }

  function AxisY(m: Costmap2D): Axis
    reads m
  {
    Axis(m.originY, m.resolution, m.sizeY)
  }

  /** The coordinate lies in the half-open extent of `size` cells. */
  ghost predicate InExtent(origin: real, resolution: real, size: nat, w: real) {
    origin <= w < origin + size as real * resolution
  }

  /** The coordinate lies between the edges of the `k`-th cell. */
  ghost predicate InInterval(origin: real, resolution: real, k: nat, w: real) {
    origin + k as real * resolution <= w < origin + (k + 1) as real * resolution
  }

  ghost predicate OnMap(m: Costmap2D, p: (real, real))
    reads m
  {
    InExtent(m.originX, m.resolution, m.sizeX, p.0) && InExtent(m.originY, m.resolution, m.sizeY, p.1)
  }

  /** The point lies in cell `c` of the map. */
  ghost predicate InCell(m: Costmap2D, p: (real, real), c: MapLocation)
    reads m
  {
    && c.x < m.sizeX && c.y < m.sizeY
    && InInterval(m.originX, m.resolution, c.x, p.0) && InInterval(m.originY, m.resolution, c.y, p.1)
  }

  lemma CellOnAxis(a: Axis, w: real)
    requires a.Valid()
    ensures a.ToMap(w).Some? <==> InExtent(a.origin, a.resolution, a.size, w)
    ensures a.ToMap(w).Some? ==>
      a.ToMap(w).value < a.size && InInterval(a.origin, a.resolution, a.ToMap(w).value, w)
  {
    ToMapDefined(a, w);
    if a.ToMap(w).Some? {
      ToMapIsTheCell(a, w, a.ToMap(w).value);
    }
  }

  lemma CellOfPoint(m: Costmap2D, p: (real, real))
    requires m.Valid()
    ensures var loc := ToCellOf(AxisX(m), AxisY(m), p);
      (loc.Some? <==> OnMap(m, p)) && (loc.Some? ==> InCell(m, p, loc.value))
  {
    CellOnAxis(AxisX(m), p.0);
    CellOnAxis(AxisY(m), p.1);
  }

  /** The cells the vertices lie in, or nothing if one of them lies outside the map. */
  method ToMapPolygon(m: Costmap2D, polygon: seq<(real, real)>) returns (r: Option<seq<MapLocation>>)
    requires m.Valid()
    ensures r.Some? <==> forall k :: 0 <= k < |polygon| ==> OnMap(m, polygon[k])
    ensures r.Some? ==> |r.value| == |polygon| && forall k :: 0 <= k < |polygon| ==> InCell(m, polygon[k], r.value[k])
  {
    var vertices: seq<MapLocation> := [];
    for i := 0 to |polygon|
      invariant |vertices| == i
      invariant forall k :: 0 <= k < i ==> OnMap(m, polygon[k]) && InCell(m, polygon[k], vertices[k])
    {
      var loc := ToCellOf(AxisX(m), AxisY(m), polygon[i]);
      CellOfPoint(m, polygon[i]);
      if loc.None? {
        return Option.None;
      }
      vertices := vertices + [loc.value];
    }
    r := Option.Some(vertices);
  }

  /** `after` is `before` with `value` on exactly the cells of `cells`. */
  ghost predicate Stamped(before: seq<Cost>, after: seq<Cost>, w: nat, h: nat, cells: seq<MapLocation>, value: Cost) {
    && |after| == |before|
    && forall x: nat, y: nat :: x < w && y < h ==>
         CellOf(after, w, h, x, y, 0) == if MapLocation(x, y) in cells then value else CellOf(before, w, h, x, y, 0)
  }

  lemma StampOne(before: seq<Cost>, after: seq<Cost>, w: nat, h: nat, cells: seq<MapLocation>, value: Cost, i: nat)
    requires |before| == w * h && i < |cells| && cells[i].x < w && cells[i].y < h
    requires Stamped(before, after, w, h, cells[..i], value)
    ensures Index(cells[i].x, cells[i].y, w) < |after|
    ensures Stamped(before, WithCell(after, w, h, cells[i].x, cells[i].y, value), w, h, cells[..i + 1], value)
  {
    SetCell(after, w, h, cells[i].x, cells[i].y, value, 0);
    assert cells[..i + 1] == cells[..i] + [cells[i]];
  }

  method StampCells(m: Costmap2D, cells: seq<MapLocation>, value: Cost)
    requires m.Valid() && forall c :: c in cells ==> c.x < m.sizeX && c.y < m.sizeY
    modifies m.costmap
    ensures Stamped(old(m.costmap[..]), m.costmap[..], m.sizeX, m.sizeY, cells, value)
  {
    ghost var before := m.costmap[..];
    for i := 0 to |cells|
      invariant Stamped(before, m.costmap[..], m.sizeX, m.sizeY, cells[..i], value)
    {
      ghost var g := m.costmap[..];
      assert cells[i] in cells;
      StampOne(before, g, m.sizeX, m.sizeY, cells, value, i);
      m.costmap[Index(cells[i].x, cells[i].y, m.sizeX)] := value;
      assert m.costmap[..] == WithCell(g, m.sizeX, m.sizeY, cells[i].x, cells[i].y, value);
    }
    assert cells[..|cells|] == cells;
  }

  /**
   `setConvexPolygonCost`: refused, with the map untouched, exactly when a vertex lies outside the map; otherwise the
   value is written to exactly the cells of the fill, all of them on the map.
   */
  method SetConvexPolygonCost(m: Costmap2D, polygon: seq<(real, real)>, value: Cost)
    returns (ok: bool, ghost vertices: seq<MapLocation>, ghost lines: seq<seq<MapLocation>>,
             ghost cells: seq<MapLocation>)
    requires m.Valid()
    modifies m.costmap
    ensures ok <==> forall k :: 0 <= k < |polygon| ==> OnMap(m, polygon[k])
    ensures !ok ==> m.costmap[..] == old(m.costmap[..])
    ensures ok ==> |vertices| == |polygon| && forall k :: 0 <= k < |polygon| ==> InCell(m, polygon[k], vertices[k])
    ensures ok && |polygon| < 3 ==> m.costmap[..] == old(m.costmap[..])
    ensures ok && |polygon| >= 3 ==>
      && TracesEdges(lines, vertices)
      && (forall c :: c in cells <==> Between(Concat(lines), c))
      && (forall c :: c in cells ==> c.x < m.sizeX && c.y < m.sizeY)
      && Stamped(old(m.costmap[..]), m.costmap[..], m.sizeX, m.sizeY, cells, value)
  {
    vertices, lines, cells := [], [], [];
    var r := ToMapPolygon(m, polygon);
    if r.None? {
      return false, vertices, lines, cells;
    }
    var mapPolygon := r.value;
    vertices := mapPolygon;
    forall v | v in mapPolygon ensures v.x < m.sizeX && v.y < m.sizeY {
      var k :| 0 <= k < |mapPolygon| && mapPolygon[k] == v;
      assert InCell(m, polygon[k], v);
    }
    var polygonCells;
    polygonCells, lines := ConvexFillCells(m.sizeX, mapPolygon);
    cells := polygonCells;
    forall c | c in polygonCells ensures c.x < m.sizeX && c.y < m.sizeY {
      FillStaysInside(Concat(lines), mapPolygon, m.sizeX, m.sizeY, c);
    }
    StampCells(m, polygonCells, value);
    if |polygon| < 3 {
      NothingStamped(old(m.costmap[..]), m.costmap[..], m.sizeX, m.sizeY, value);
    }
    ok := true;
  }

  lemma NothingStamped(before: seq<Cost>, after: seq<Cost>, w: nat, h: nat, value: Cost)
    requires |before| == w * h && Stamped(before, after, w, h, [], value)
    ensures before == after
  {
    forall x: int, y: int | 0 <= x < w && 0 <= y < h
      ensures CellOf(before, w, h, x, y, 0) == CellOf(after, w, h, x, y, 0)
    {
      var a: nat, b: nat := x, y;
      assert CellOf(after, w, h, a, b, 0) == CellOf(before, w, h, a, b, 0);
    }
    SameCellsSameGrid(before, after, w, h, 0);
  }
}
