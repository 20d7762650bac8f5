/**
 Filling a polygon (`polygonOutlineCells`, `convexFillCells`, `setConvexPolygonCost`): the outline is a closed
 walk, the walk is sorted by column with a back-stepping exchange sort, and one sweep fills every column.
 */
module PolygonFill {
  import opened Grid
  import opened Raytrace

  // ---------------------------------------------------------------- the outline

  ghost predicate Continuous(cells: seq<MapLocation>) {
    forall i, j :: 0 <= i < |cells| && j == i + 1 < |cells| ==> Touching(cells[i], cells[j])
  }

  /** A cell lies between vertices in both coordinates. */
  ghost predicate Enclosed(c: MapLocation, polygon: seq<MapLocation>) {
    && (exists u, v :: u in polygon && v in polygon && u.x <= c.x <= v.x)
    && (exists u, v :: u in polygon && v in polygon && u.y <= c.y <= v.y)
  }

  ghost predicate AllEnclosed(cells: seq<MapLocation>, polygon: seq<MapLocation>) {
    forall i {:trigger Enclosed(cells[i], polygon)} :: 0 <= i < |cells| ==> Enclosed(cells[i], polygon)
  }

  ghost predicate Twice(cells: seq<MapLocation>, v: MapLocation) {
    exists p, q :: 0 <= p < q < |cells| && cells[p] == v && cells[q] == v
  }

  /** A closed walk along the edges that passes through every vertex twice: leaving one edge, entering the next. */
  ghost predicate IsOutline(cells: seq<MapLocation>, polygon: seq<MapLocation>) {
    && |cells| > 0 && cells[0] == cells[|cells| - 1]
    && Continuous(cells) && AllEnclosed(cells, polygon)
    && forall v {:trigger Twice(cells, v)} :: v in polygon ==> Twice(cells, v)
  }

  ghost function Concat(lines: seq<seq<MapLocation>>): seq<MapLocation> {
    if lines == [] then [] else Concat(lines[..|lines| - 1]) + lines[|lines| - 1]
  }

  lemma ConcatMore(lines: seq<seq<MapLocation>>, line: seq<MapLocation>)
    ensures Concat(lines + [line]) == Concat(lines) + line
  {
  }

  /** One line per edge, the closing edge included. */
  ghost predicate TracesEdges(lines: seq<seq<MapLocation>>, polygon: seq<MapLocation>) {
    && |lines| == |polygon|
    && forall k :: 0 <= k < |lines| ==> IsLine(lines[k], polygon[k], polygon[if k + 1 < |polygon| then k + 1 else 0])
  }

  /** The walk from vertex 0 to vertex `n`. */
  ghost predicate Chain(cells: seq<MapLocation>, polygon: seq<MapLocation>, n: nat)
    requires n < |polygon|
  {
    && |cells| > 0 && cells[0] == polygon[0] && cells[|cells| - 1] == polygon[n]
    && Continuous(cells) && AllEnclosed(cells, polygon)
    && forall k :: 0 < k < n ==> Twice(cells, polygon[k])
  }

  lemma LineEnclosed(line: seq<MapLocation>, a: MapLocation, b: MapLocation, polygon: seq<MapLocation>)
    requires IsLine(line, a, b) && a in polygon && b in polygon
    ensures AllEnclosed(line, polygon)
  {
  }

  lemma TwiceKept(cells: seq<MapLocation>, more: seq<MapLocation>, v: MapLocation)
    requires Twice(cells, v)
    ensures Twice(cells + more, v)
  {
    var p, q :| 0 <= p < q < |cells| && cells[p] == v && cells[q] == v;
    assert (cells + more)[p] == v && (cells + more)[q] == v;
  }

  lemma TwiceAtJoint(cells: seq<MapLocation>, more: seq<MapLocation>, v: MapLocation)
    requires |cells| > 0 && |more| > 0 && cells[|cells| - 1] == v && more[0] == v
    ensures Twice(cells + more, v)
  {
    assert (cells + more)[|cells| - 1] == v && (cells + more)[|cells|] == v;
  }

  /** Walking one more edge. */
  lemma ExtendChain(cells: seq<MapLocation>, line: seq<MapLocation>, polygon: seq<MapLocation>, n: nat, b: MapLocation)
    requires n < |polygon| && Chain(cells, polygon, n) && IsLine(line, polygon[n], b) && b in polygon
    ensures var all := cells + line;
      && |all| > 0 && all[0] == polygon[0] && all[|all| - 1] == b
      && Continuous(all) && AllEnclosed(all, polygon)
      && forall k :: 0 < k <= n ==> Twice(all, polygon[k])
  {
    var all := cells + line;
    LineEnclosed(line, polygon[n], b, polygon);
    forall i, j | 0 <= i < |all| && j == i + 1 < |all| ensures Touching(all[i], all[j]) {
      if j < |cells| {
        assert all[i] == cells[i] && all[j] == cells[j];
      } else if j > |cells| {
        assert all[i] == line[i - |cells|] && all[j] == line[j - |cells|];
      }
    }
    forall i | 0 <= i < |all| ensures Enclosed(all[i], polygon) {
      if i >= |cells| {
        assert all[i] == line[i - |cells|];
      }
    }
    forall k | 0 < k <= n ensures Twice(all, polygon[k]) {
      if k < n {
        TwiceKept(cells, line, polygon[k]);
      } else {
        TwiceAtJoint(cells, line, polygon[n]);
      }
    }
  }

  /** The lines of the first `n` edges. */
  ghost predicate TracesFirst(lines: seq<seq<MapLocation>>, polygon: seq<MapLocation>, n: nat)
    requires n < |polygon|
  {
    |lines| == n && forall k :: 0 <= k < n ==> IsLine(lines[k], polygon[k], polygon[k + 1])
  }

  /** The walk over the first `n` edges. */
  ghost predicate Walked(cells: seq<MapLocation>, polygon: seq<MapLocation>, n: nat)
    requires n < |polygon|
  {
    if n == 0 then cells == [] else Chain(cells, polygon, n)
  }

  lemma WalkOn(cells: seq<MapLocation>, line: seq<MapLocation>, polygon: seq<MapLocation>, n: nat)
    requires n + 1 < |polygon| && Walked(cells, polygon, n) && IsLine(line, polygon[n], polygon[n + 1])
    ensures Walked(cells + line, polygon, n + 1)
  {
    if n > 0 {
      ExtendChain(cells, line, polygon, n, polygon[n + 1]);
    } else {
      LineEnclosed(line, polygon[0], polygon[1], polygon);
      assert [] + line == line;
    }
  }

  lemma WalkBack(cells: seq<MapLocation>, line: seq<MapLocation>, polygon: seq<MapLocation>)
    requires |polygon| > 1 && Walked(cells, polygon, |polygon| - 1) && IsLine(line, polygon[|polygon| - 1], polygon[0])
    ensures IsOutline(cells + line, polygon)
  {
    ExtendChain(cells, line, polygon, |polygon| - 1, polygon[0]);
    ClosedChain(cells + line, polygon);
  }

  /** `polygonOutlineCells`, on an empty list of cells. */
  method PolygonOutlineCells(w: nat, polygon: seq<MapLocation>)
    returns (cells: seq<MapLocation>, ghost lines: seq<seq<MapLocation>>)
    requires |polygon| > 0 && forall v :: v in polygon ==> v.x < w
    ensures cells == Concat(lines) && TracesEdges(lines, polygon)
    ensures |polygon| > 1 ==> IsOutline(cells, polygon)
  {
    cells, lines := [], [];
    for i := 0 to |polygon| - 1
      invariant Walked(cells, polygon, i) && TracesFirst(lines, polygon, i) && cells == Concat(lines)
    {
      var line := WholeLine(w, polygon[i], polygon[i + 1]);
      WalkOn(cells, line, polygon, i);
      ConcatMore(lines, line);
      cells, lines := cells + line, lines + [line];
    }
    var last := |polygon| - 1;
    var line := WholeLine(w, polygon[last], polygon[0]);
    if last > 0 {
      WalkBack(cells, line, polygon);
    }
    ConcatMore(lines, line);
    cells, lines := cells + line, lines + [line];
  }

  lemma ClosedChain(cells: seq<MapLocation>, polygon: seq<MapLocation>)
    requires |polygon| > 1 && |cells| > 1 && cells[0] == polygon[0] == cells[|cells| - 1]
    requires Continuous(cells) && AllEnclosed(cells, polygon)
    requires forall k :: 0 < k < |polygon| ==> Twice(cells, polygon[k])
    ensures IsOutline(cells, polygon)
  {
  }

  // ---------------------------------------------------------------- every column is met twice

  ghost predicate TwiceInColumn(cells: seq<MapLocation>, x: int) {
    exists p, q :: 0 <= p < q < |cells| && cells[p].x == x && cells[q].x == x
  }

  /** A continuous walk meets every column between two of its cells. */
  lemma {:induction false} Crosses(cells: seq<MapLocation>, p: nat, q: nat, x: int) returns (r: nat)
    requires Continuous(cells) && p <= q < |cells|
    requires cells[p].x <= x <= cells[q].x || cells[q].x <= x <= cells[p].x
    ensures p <= r <= q && cells[r].x == x
    decreases q - p
  {
    if cells[p].x == x {
      r := p;
    } else {
      assert Touching(cells[p], cells[p + 1]);
      r := Crosses(cells, p + 1, q, x);
    }
  }

  /** A closed walk that goes below and above a column meets it on the way there and on the way back. */
  lemma CrossesTwice(cells: seq<MapLocation>, i: nat, j: nat, x: int)
    requires |cells| > 0 && cells[0] == cells[|cells| - 1] && Continuous(cells)
    requires i < |cells| && j < |cells| && cells[i].x < x < cells[j].x
    ensures TwiceInColumn(cells, x)
  {
    var last := |cells| - 1;
    var lo, hi := if i < j then i else j, if i < j then j else i;
    var r := Crosses(cells, lo, hi, x);
    var beyond := if i < j then cells[0].x <= x else cells[0].x >= x;
    if beyond {
      var s := Crosses(cells, hi, last, x);
    } else {
      var s := Crosses(cells, 0, lo, x);
    }
  }

  /** A closed outline meets every column of its extent at least twice. */
  lemma OutlineColumns(cells: seq<MapLocation>, polygon: seq<MapLocation>, i: nat, j: nat, x: int)
    requires IsOutline(cells, polygon) && i < |cells| && j < |cells|
    requires cells[i].x <= x <= cells[j].x
    ensures TwiceInColumn(cells, x)
  {
    assert Enclosed(cells[i], polygon) && Enclosed(cells[j], polygon);
    var u :| u in polygon && u.x <= cells[i].x;
    var v :| v in polygon && cells[j].x <= v.x;
    assert Twice(cells, u) && Twice(cells, v);
    var a := VertexColumn(cells, u);
    var b := VertexColumn(cells, v);
    if u.x < x < v.x {
      CrossesTwice(cells, a, b, x);
    }
  }

  lemma VertexColumn(cells: seq<MapLocation>, v: MapLocation) returns (p: nat)
    requires Twice(cells, v)
    ensures TwiceInColumn(cells, v.x) && p < |cells| && cells[p] == v
  {
    var i, q :| 0 <= i < q < |cells| && cells[i] == v && cells[q] == v;
    assert cells[i].x == v.x && cells[q].x == v.x;
    p := i;
  }

  // ---------------------------------------------------------------- the sort

  ghost predicate SortedByX(cells: seq<MapLocation>) {
    forall i, j :: 0 <= i <= j < |cells| ==> cells[i].x <= cells[j].x
  }

  /** How many cells lie in a column to the right of `x`. */
  ghost function RightOf(cells: seq<MapLocation>, x: int): nat {
    if cells == [] then 0 else RightOf(cells[..|cells| - 1], x) + if cells[|cells| - 1].x > x then 1 else 0
  }

  /** The number of pairs in the wrong order. */
  ghost function Inversions(cells: seq<MapLocation>): nat {
    if cells == [] then 0
    else
      var init, last := cells[..|cells| - 1], cells[|cells| - 1];
      Inversions(init) + RightOf(init, last.x)
  }

  function Exchanged(cells: seq<MapLocation>, i: nat): (s: seq<MapLocation>)
    requires i + 1 < |cells|
    ensures |s| == |cells|
  {
    cells[i := cells[i + 1]][i + 1 := cells[i]]
  }

  lemma {:induction false} RightOfExchanged(cells: seq<MapLocation>, i: nat, x: int)
    requires i + 1 < |cells|
    ensures RightOf(Exchanged(cells, i), x) == RightOf(cells, x)
  {
    var n := |cells|;
    var s := Exchanged(cells, i);
    if i + 2 < n {
      assert s[..n - 1] == Exchanged(cells[..n - 1], i);
      RightOfExchanged(cells[..n - 1], i, x);
    } else {
      assert s[..n - 1][..n - 2] == cells[..n - 1][..n - 2];
    }
  }

  /** Exchanging an inverted neighbouring pair removes exactly one inversion. */
  lemma {:induction false} ExchangeRemovesInversion(cells: seq<MapLocation>, i: nat)
    requires i + 1 < |cells| && cells[i].x > cells[i + 1].x
    ensures Inversions(Exchanged(cells, i)) == Inversions(cells) - 1
  {
    var n := |cells|;
    var s := Exchanged(cells, i);
    if i + 2 < n {
      assert s[..n - 1] == Exchanged(cells[..n - 1], i);
      ExchangeRemovesInversion(cells[..n - 1], i);
      RightOfExchanged(cells[..n - 1], i, cells[n - 1].x);
    } else {
      assert s[..n - 1][..n - 2] == cells[..n - 1][..n - 2];
    }
  }

  lemma ExchangeKeeps(cells: seq<MapLocation>, i: nat)
    requires i + 1 < |cells|
    ensures multiset(Exchanged(cells, i)) == multiset(cells)
    ensures forall x :: TwiceInColumn(cells, x) ==> TwiceInColumn(Exchanged(cells, i), x)
  {
    var s := Exchanged(cells, i);
    forall x | TwiceInColumn(cells, x) ensures TwiceInColumn(s, x) {
      var p, q :| 0 <= p < q < |cells| && cells[p].x == x && cells[q].x == x;
      var p' := if p == i then i + 1 else if p == i + 1 then i else p;
      var q' := if q == i then i + 1 else if q == i + 1 then i else q;
      assert s[p'].x == x && s[q'].x == x;
      assert p' < q' || q' < p';
    }
  }

  /** The back-stepping exchange sort: it ends on every input, with the cells ordered by column. */
  method SortByX(outline: seq<MapLocation>) returns (cells: seq<MapLocation>)
    ensures SortedByX(cells) && multiset(cells) == multiset(outline)
    ensures forall x :: TwiceInColumn(outline, x) ==> TwiceInColumn(cells, x)
  {
    cells := outline;
    var i := 0;
    while i < |cells| - 1
      invariant 0 <= i && (cells == [] || i < |cells|)
      invariant SortedByX(cells[..if cells == [] then 0 else i + 1])
      invariant multiset(cells) == multiset(outline)
      invariant forall x :: TwiceInColumn(outline, x) ==> TwiceInColumn(cells, x)
      decreases Inversions(cells), |cells| - i
    {
      if cells[i].x > cells[i + 1].x {
        ExchangeRemovesInversion(cells, i);
        ExchangeKeeps(cells, i);
        PrefixStaysSorted(cells, i);
        cells := Exchanged(cells, i);
        if i > 0 {
          i := i - 1;
        }
      } else {
        LongerPrefixSorted(cells, i);
        i := i + 1;
      }
    }
    assert cells == cells[..if cells == [] then 0 else i + 1];
  }

  lemma PrefixStaysSorted(cells: seq<MapLocation>, i: nat)
    requires i + 1 < |cells| && SortedByX(cells[..i + 1])
    ensures SortedByX(Exchanged(cells, i)[..i]) && SortedByX(Exchanged(cells, i)[..1])
  {
  }

  lemma LongerPrefixSorted(cells: seq<MapLocation>, i: nat)
    requires i + 1 < |cells| && SortedByX(cells[..i + 1]) && cells[i].x <= cells[i + 1].x
    ensures SortedByX(cells[..i + 2])
  {
  }

  // ---------------------------------------------------------------- the sweep

  /** A cell is between two outline cells of its column, one not above it and one not below. */
  ghost predicate Between(outline: seq<MapLocation>, c: MapLocation) {
    exists p, q :: 0 <= p < |outline| && 0 <= q < |outline| && outline[p].x == c.x == outline[q].x
                   && outline[p].y <= c.y <= outline[q].y
  }

  /** Columns left to right, and each column from low to high: no cell is listed twice. */
  ghost predicate InScanOrder(cells: seq<MapLocation>) {
    forall i, j :: 0 <= i < j < |cells| ==>
      cells[i].x < cells[j].x || (cells[i].x == cells[j].x && cells[i].y < cells[j].y)
  }

  /** The outline when the sweep reaches column `x` at index `i`. */
  ghost predicate AtColumn(outline: seq<MapLocation>, i: nat, x: int) {
    && SortedByX(outline) && i <= |outline|
    && (forall k :: 0 <= k < i ==> outline[k].x < x)
    && (forall k :: i <= k < |outline| ==> outline[k].x >= x)
  }

  /** A column met twice gives the sweep the two cells it takes at once. */
  lemma TwoCellsHere(outline: seq<MapLocation>, i: nat, x: int)
    requires AtColumn(outline, i, x) && TwiceInColumn(outline, x)
    ensures i + 1 < |outline| && outline[i].x == x && outline[i + 1].x == x
  {
  }

  ghost predicate Picked(outline: seq<MapLocation>, i: nat, i': nat, pt: MapLocation) {
    exists k :: i <= k < i' && k < |outline| && outline[k] == pt
  }

  /** The lowest and the highest outline cell of a column, met from index `i` on. */
  ghost predicate Extremes(outline: seq<MapLocation>, i: nat, i': nat, x: int, minPt: MapLocation, maxPt: MapLocation) {
    && i < i' <= |outline|
    && Picked(outline, i, i', minPt) && Picked(outline, i, i', maxPt)
    && (forall k :: i <= k < i' ==> outline[k].x == x && minPt.y <= outline[k].y <= maxPt.y)
  }

  /**
   The scan of one column over a list that already holds appended cells: those lie in earlier columns, so the scan
   stops at the end of the outline.
   */
  method ScanColumn(cells: seq<MapLocation>, start: nat, x: nat, ghost outline: seq<MapLocation>)
    returns (i: nat, minPt: MapLocation, maxPt: MapLocation)
    requires outline <= cells && AtColumn(outline, start, x)
    requires start + 1 < |outline| && outline[start].x == x && outline[start + 1].x == x
    requires forall k :: |outline| <= k < |cells| ==> cells[k].x < x
    ensures Extremes(outline, start, i, x, minPt, maxPt)
    ensures AtColumn(outline, i, x + 1)
  {
    i := start;
    if cells[i].y < cells[i + 1].y {
      minPt, maxPt := cells[i], cells[i + 1];
    } else {
      minPt, maxPt := cells[i + 1], cells[i];
    }
    assert cells[start] == outline[start] && cells[start + 1] == outline[start + 1];
    i := i + 2;
    while i < |cells| && cells[i].x == x
      invariant start + 2 <= i <= |outline|
      invariant Extremes(outline, start, i, x, minPt, maxPt)
    {
      assert i < |outline|;
      assert cells[i] == outline[i];
      if cells[i].y < minPt.y {
        minPt := cells[i];
      } else if cells[i].y > maxPt.y {
        maxPt := cells[i];
      }
      i := i + 1;
    }
  }

  /** The cells of one column. */
  method FillColumn(x: nat, low: nat, high: nat) returns (column: seq<MapLocation>)
    ensures forall c :: c in column <==> c.x == x && low <= c.y <= high
    ensures InScanOrder(column)
  {
    column := [];
    var y := low;
    while y <= high
      invariant low <= y
      invariant forall c :: c in column <==> c.x == x && low <= c.y < y && c.y <= high
      invariant InScanOrder(column)
    {
      assert forall k :: 0 <= k < |column| ==> column[k] in column;
      column := column + [MapLocation(x, y)];
      y := y + 1;
    }
  }

  /** The filled cells when the columns before `x` are done. */
  ghost predicate FilledUpTo(outline: seq<MapLocation>, filled: seq<MapLocation>, x: int) {
    && InScanOrder(filled)
    && forall c :: c in filled <==> Between(outline, c) && c.x < x
  }

  lemma NextColumnFilled(outline: seq<MapLocation>, filled: seq<MapLocation>, column: seq<MapLocation>, i: nat,
                         i': nat, x: nat, minPt: MapLocation, maxPt: MapLocation)
    requires AtColumn(outline, i, x) && AtColumn(outline, i', x + 1) && Extremes(outline, i, i', x, minPt, maxPt)
    requires FilledUpTo(outline, filled, x) && InScanOrder(column)
    requires forall c :: c in column <==> c.x == x && minPt.y <= c.y <= maxPt.y
    ensures FilledUpTo(outline, filled + column, x + 1)
  {
  }

  lemma Associative(a: seq<MapLocation>, b: seq<MapLocation>, c: seq<MapLocation>)
    ensures (a + b) + c == a + (b + c)
  {
  }

  /** The sweep of one column: find its extremes, then append the cells between them. */
  method SweepColumn(cells: seq<MapLocation>, i: nat, x: nat, ghost outline: seq<MapLocation>,
                     ghost filled: seq<MapLocation>)
    returns (cells': seq<MapLocation>, i': nat, ghost filled': seq<MapLocation>)
    requires cells == outline + filled && AtColumn(outline, i, x) && FilledUpTo(outline, filled, x)
    requires i + 1 < |outline| && outline[i].x == x && outline[i + 1].x == x
    ensures cells' == outline + filled' && AtColumn(outline, i', x + 1) && FilledUpTo(outline, filled', x + 1)
  {
    assert forall k :: |outline| <= k < |cells| ==> cells[k] in filled;
    var minPt, maxPt;
    i', minPt, maxPt := ScanColumn(cells, i, x, outline);
    var column := FillColumn(x, minPt.y, maxPt.y);
    NextColumnFilled(outline, filled, column, i, i', x, minPt, maxPt);
    Associative(outline, filled, column);
    filled' := filled + column;
    cells' := cells + column;
  }

  /** The sweep: every column of the extent is filled between its lowest and highest outline cell. */
  method Sweep(outline: seq<MapLocation>) returns (cells: seq<MapLocation>)
    requires |outline| > 0 && SortedByX(outline)
    requires forall x :: outline[0].x <= x <= outline[|outline| - 1].x ==> TwiceInColumn(outline, x)
    ensures outline <= cells && InScanOrder(cells[|outline|..])
    ensures forall c :: c in cells[|outline|..] <==> Between(outline, c)
  {
    cells := outline;
    var i: nat := 0;
    var minX, maxX := outline[0].x, outline[|outline| - 1].x;
    ghost var filled: seq<MapLocation> := [];
    var x := minX;
    while x <= maxX
      invariant minX <= x <= maxX + 1
      invariant cells == outline + filled
      invariant AtColumn(outline, i, x) && FilledUpTo(outline, filled, x)
    {
      TwoCellsHere(outline, i, x);
      if i >= |cells| - 1 {
        break;
      }
      cells, i, filled := SweepColumn(cells, i, x, outline, filled);
      x := x + 1;
    }
    SweepDone(outline, filled, cells);
  }

  lemma SweepDone(outline: seq<MapLocation>, filled: seq<MapLocation>, cells: seq<MapLocation>)
    requires |outline| > 0 && SortedByX(outline) && cells == outline + filled
    requires FilledUpTo(outline, filled, outline[|outline| - 1].x + 1)
    ensures outline <= cells && InScanOrder(cells[|outline|..])
    ensures forall c :: c in cells[|outline|..] <==> Between(outline, c)
  {
    assert cells[|outline|..] == filled;
  }

  // ---------------------------------------------------------------- the whole fill

  lemma SameCells(a: seq<MapLocation>, b: seq<MapLocation>, c: MapLocation)
    requires multiset(a) == multiset(b)
    ensures c in a <==> c in b
    ensures Between(a, c) <==> Between(b, c)
  {
    MembersAgree(a, b);
    if Between(a, c) {
      BetweenMoves(a, b, c);
    }
    if Between(b, c) {
      BetweenMoves(b, a, c);
    }
  }

  lemma MembersAgree(a: seq<MapLocation>, b: seq<MapLocation>)
    requires multiset(a) == multiset(b)
    ensures forall c :: c in a <==> c in b
  {
    assert forall c :: c in a <==> c in multiset(a);
    assert forall c :: c in b <==> c in multiset(b);
  }

  lemma BetweenMoves(a: seq<MapLocation>, b: seq<MapLocation>, c: MapLocation)
    requires Between(a, c) && forall d :: d in a <==> d in b
    ensures Between(b, c)
  {
    var p, q :| 0 <= p < |a| && 0 <= q < |a| && a[p].x == c.x == a[q].x && a[p].y <= c.y <= a[q].y;
    assert a[p] in b && a[q] in b;
    var p' :| 0 <= p' < |b| && b[p'] == a[p];
    var q' :| 0 <= q' < |b| && b[q'] == a[q];
  }

  /** An outline cell counts as between itself and itself. */
  lemma OutlineIsBetween(outline: seq<MapLocation>, c: MapLocation)
    requires c in outline
    ensures Between(outline, c)
  {
  }

  /** The sorted outline still meets every column of its extent twice. */
  lemma SortedColumns(outline: seq<MapLocation>, sorted: seq<MapLocation>, polygon: seq<MapLocation>)
    requires IsOutline(outline, polygon) && |sorted| > 0 && multiset(sorted) == multiset(outline)
    requires forall x :: TwiceInColumn(outline, x) ==> TwiceInColumn(sorted, x)
    ensures forall x :: sorted[0].x <= x <= sorted[|sorted| - 1].x ==> TwiceInColumn(sorted, x)
  {
    MembersAgree(sorted, outline);
    assert sorted[0] in sorted && sorted[|sorted| - 1] in sorted;
    var i :| 0 <= i < |outline| && outline[i] == sorted[0];
    var j :| 0 <= j < |outline| && outline[j] == sorted[|sorted| - 1];
    forall x | sorted[0].x <= x <= sorted[|sorted| - 1].x ensures TwiceInColumn(sorted, x) {
      OutlineColumns(outline, polygon, i, j, x);
    }
  }

  /**
   `convexFillCells`: the cells of the polygon are exactly those between the lowest and the highest outline cell of
   their column; a polygon of fewer than three vertices has none.
   */
  method ConvexFillCells(w: nat, polygon: seq<MapLocation>)
    returns (cells: seq<MapLocation>, ghost lines: seq<seq<MapLocation>>)
    requires forall v :: v in polygon ==> v.x < w
    ensures |polygon| < 3 ==> cells == []
    ensures |polygon| >= 3 ==>
      && TracesEdges(lines, polygon) && IsOutline(Concat(lines), polygon)
      && forall c :: c in cells <==> Between(Concat(lines), c)
  {
    cells, lines := [], [];
    if |polygon| < 3 {
      return;
    }
    var outline;
    outline, lines := PolygonOutlineCells(w, polygon);
    var sorted := SortByX(outline);
    assert |sorted| > 0 by {
      MembersAgree(sorted, outline);
      assert outline[0] in sorted;
    }
    SortedColumns(outline, sorted, polygon);
    cells := Sweep(sorted);
    FillIsBetween(outline, sorted, cells);
  }

  lemma FillIsBetween(outline: seq<MapLocation>, sorted: seq<MapLocation>, cells: seq<MapLocation>)
    requires multiset(sorted) == multiset(outline) && sorted <= cells
    requires forall c :: c in cells[|sorted|..] <==> Between(sorted, c)
    ensures forall c :: c in cells <==> Between(outline, c)
  {
    assert cells == sorted + cells[|sorted|..];
    forall c ensures c in cells <==> Between(outline, c) {
      SameCells(sorted, outline, c);
      if c in sorted {
        OutlineIsBetween(sorted, c);
      }
    }
  }

  /** Every filled cell lies within the extent of the vertices. */
  lemma FillStaysInside(outline: seq<MapLocation>, polygon: seq<MapLocation>, w: nat, h: nat, c: MapLocation)
    requires IsOutline(outline, polygon) && Between(outline, c)
    requires forall v :: v in polygon ==> v.x < w && v.y < h
    ensures c.x < w && c.y < h
  {
    var p, q :| 0 <= p < |outline| && 0 <= q < |outline| && outline[p].x == c.x == outline[q].x
                && outline[p].y <= c.y <= outline[q].y;
    assert Enclosed(outline[q], polygon);
  }
}
