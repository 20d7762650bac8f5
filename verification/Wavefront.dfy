/**
 What every step of the inflation wavefront keeps (`InflationLayer::updateCosts`).

 The wavefront is a list of bins that grows while it is scanned. A position `(b, i)` says which
 entry is looked at next; `from` maps every cell processed so far to the seed it was processed
 from. Bin numbers and the radius test stay abstract here: `level` and `within` are whatever
 functions the caches implement, subject to `WellRanked`.
 */
module Wavefront {
  import opened Grid

  datatype Cell = Cell(x: nat, y: nat)

  /** An entry of the inflation list: a cell, its flat index, and the seed it inherits. */
  datatype CellData = CellData(index: nat, x: nat, y: nat, srcX: nat, srcY: nat) {
    function Here(): Cell {
      Cell(x, y)
    }

    function Source(): Cell {
      Cell(srcX, srcY)
    }
  }

  type Bins = seq<seq<CellData>>

  datatype Field = Field(
    width: nat,
    height: nat,
    index: Cell -> nat,
    seeds: set<Cell>,
    level: (Cell, Cell) -> nat,
    within: (Cell, Cell) -> bool
  ) {
    predicate InGrid(c: Cell) {
      c.x < width && c.y < height
    }

    function Data(c: Cell, s: Cell): CellData {
      CellData(index(c), c.x, c.y, s.x, s.y)
    }

    /** Flat indices name the cells of the grid, and a step to a neighbour is a step of the index. */
    ghost predicate WellIndexed() {
      && (forall c :: InGrid(c) ==> index(c) < width * height)
      && (forall c, n :: InGrid(c) && InGrid(n) && index(c) == index(n) ==> c == n)
      && (forall c: Cell, n: Cell {:trigger index(c), index(n)} :: n.x == c.x + 1 && n.y == c.y ==>
            index(n) == index(c) + 1)
      && (forall c: Cell, n: Cell {:trigger index(c), index(n)} :: n.x == c.x && n.y == c.y + 1 ==>
            index(n) == index(c) + width)
    }

    ghost predicate WellRanked(bins: nat) {
      && (forall s :: s in seeds ==> InGrid(s) && within(s, s) && level(s, s) == 0)
      && (forall c, s :: within(c, s) ==> level(c, s) < bins)
      && (forall c, s :: within(c, s) && level(c, s) == 0 ==> c == s)
      && (forall c, n, s :: Adjacent(c, n) && within(c, s) && within(n, s) ==> level(c, s) != level(n, s))
    }
  }

  predicate Adjacent(a: Cell, b: Cell) {
    Abs(a.x - b.x) + Abs(a.y - b.y) == 1
  }

  datatype Wave = Wave(bins: Bins, b: nat, i: nat, from: map<Cell, Cell>) {
    /** The first index of bin `k` that has not been passed. */
    function Start(k: nat): nat {
      if k == b then i else 0
    }
  }

  // ---------------------------------------------------------------- the invariant

  ghost predicate EntryOk(f: Field, d: CellData, k: nat) {
    && f.InGrid(d.Here())
    && d == f.Data(d.Here(), d.Source())
    && d.Source() in f.seeds
    && f.within(d.Here(), d.Source())
    && f.level(d.Here(), d.Source()) == k
  }

  ghost predicate BinsOk(f: Field, bins: Bins) {
    forall k, j :: 0 <= k < |bins| && 0 <= j < |bins[k]| ==> EntryOk(f, bins[k][j], k)
  }

  ghost predicate FromOk(f: Field, w: Wave) {
    forall c :: c in w.from ==>
      && f.InGrid(c)
      && w.from[c] in f.seeds
      && f.within(c, w.from[c])
      && f.level(c, w.from[c]) <= w.b
  }

  /** The entry `(n, s)` sits in its bin and has not been passed. */
  ghost predicate Pending(f: Field, w: Wave, n: Cell, s: Cell) {
    && w.b <= f.level(n, s) < |w.bins|
    && exists j :: w.Start(f.level(n, s)) <= j < |w.bins[f.level(n, s)]|
                   && w.bins[f.level(n, s)][j] == f.Data(n, s)
  }

  ghost predicate Processed(f: Field, w: Wave, n: Cell, s: Cell) {
    n in w.from && f.level(n, w.from[n]) <= f.level(n, s)
  }

  ghost predicate Handled(f: Field, w: Wave, n: Cell, s: Cell) {
    Processed(f, w, n, s) || Pending(f, w, n, s)
  }

  /** `n` is an in-grid neighbour of `c`, within the radius of `s` and farther from it than `c`. */
  ghost predicate Outward(f: Field, c: Cell, n: Cell, s: Cell) {
    f.InGrid(n) && Adjacent(c, n) && f.within(n, s) && f.level(c, s) < f.level(n, s)
  }

  ghost predicate Relaxed(f: Field, w: Wave) {
    forall c, n :: c in w.from && Outward(f, c, n, w.from[c]) ==> Handled(f, w, n, w.from[c])
  }

  ghost predicate SeedsHandled(f: Field, w: Wave) {
    forall s :: s in f.seeds ==> Handled(f, w, s, s)
  }

  /** `c` was reached from `s` itself or through a processed neighbour strictly closer to `s`. */
  ghost predicate Rooted(f: Field, from: map<Cell, Cell>, c: Cell, s: Cell) {
    c == s || exists q :: q in from && from[q] == s && Adjacent(q, c) && f.level(q, s) < f.level(c, s)
  }

  ghost predicate AllRooted(f: Field, w: Wave) {
    && (forall c :: c in w.from ==> Rooted(f, w.from, c, w.from[c]))
    && (forall k, j :: w.b <= k < |w.bins| && w.Start(k) <= j < |w.bins[k]| ==>
          Rooted(f, w.from, w.bins[k][j].Here(), w.bins[k][j].Source()))
  }

  ghost predicate Inv(f: Field, w: Wave) {
    && f.WellRanked(|w.bins|)
    && BinsOk(f, w.bins)
    && FromOk(f, w)
    && Relaxed(f, w)
    && SeedsHandled(f, w)
    && AllRooted(f, w)
  }

  // ---------------------------------------------------------------- passing an entry

  /** An entry whose cell was processed earlier can be passed. */
  lemma SkipKeepsInv(f: Field, w: Wave)
    requires Inv(f, w)
    requires w.b < |w.bins| && w.i < |w.bins[w.b]| && w.bins[w.b][w.i].Here() in w.from
    ensures Inv(f, w.(i := w.i + 1))
  {
    var w' := w.(i := w.i + 1);
    forall n, s | Handled(f, w, n, s) ensures Handled(f, w', n, s) {
      PassKeepsHandled(f, w, n, s);
    }
    assert forall k :: w.Start(k) <= w'.Start(k);
  }

  lemma PassKeepsHandled(f: Field, w: Wave, n: Cell, s: Cell)
    requires BinsOk(f, w.bins) && FromOk(f, w)
    requires w.b < |w.bins| && w.i < |w.bins[w.b]| && w.bins[w.b][w.i].Here() in w.from
    requires Handled(f, w, n, s)
    ensures Handled(f, w.(i := w.i + 1), n, s)
  {
  }

  /** A bin that has been scanned to its end can be left. */
  lemma NextBinKeepsInv(f: Field, w: Wave) returns (w': Wave)
    requires Inv(f, w)
    requires w.b < |w.bins| && w.i == |w.bins[w.b]|
    ensures w' == w.(b := w.b + 1, i := 0) && Inv(f, w')
  {
    w' := w.(b := w.b + 1, i := 0);
    forall n, s | Handled(f, w, n, s) ensures Handled(f, w', n, s) {
      if !Processed(f, w, n, s) {
        var k := f.level(n, s);
        var j :| w.Start(k) <= j < |w.bins[k]| && w.bins[k][j] == f.Data(n, s);
        assert k != w.b;
        assert w'.Start(k) <= j;
      }
    }
  }

  // ---------------------------------------------------------------- enqueuing neighbours

  /** `enqueue`: append the neighbour unless it is processed already or out of reach of its source. */
  function Enqueue(f: Field, bins: Bins, from: map<Cell, Cell>, n: Cell, s: Cell): (bins': Bins)
    requires f.within(n, s) ==> f.level(n, s) < |bins|
    ensures |bins'| == |bins|
  {
    if n in from || !f.within(n, s) then bins
    else bins[f.level(n, s) := bins[f.level(n, s)] + [f.Data(n, s)]]
  }

  /** The new entry `(n, s)` was appended behind everything `bins0` held. */
  ghost predicate Appended(f: Field, bins0: Bins, bins: Bins, n: Cell, s: Cell) {
    && f.level(n, s) < |bins0| == |bins|
    && exists j :: |bins0[f.level(n, s)]| <= j < |bins[f.level(n, s)]|
                   && bins[f.level(n, s)][j] == f.Data(n, s)
  }

  ghost predicate Fresh(f: Field, from: map<Cell, Cell>, c: Cell, s: Cell, d: CellData, k: nat) {
    && EntryOk(f, d, k)
    && d.Source() == s
    && Adjacent(c, d.Here())
    && d.Here() !in from
  }

  /**
   `bins` is `bins0` with entries appended for neighbours of `c` only, and for each neighbour in
   `done` that still needs one.
   */
  ghost predicate Grown(f: Field, bins0: Bins, bins: Bins, from: map<Cell, Cell>, c: Cell, s: Cell, done: set<Cell>) {
    && |bins| == |bins0|
    && (forall k :: 0 <= k < |bins| ==> bins0[k] <= bins[k])
    && (forall k, j :: 0 <= k < |bins| && |bins0[k]| <= j < |bins[k]| ==> Fresh(f, from, c, s, bins[k][j], k))
    && (forall n :: n in done && n !in from && f.within(n, s) ==> Appended(f, bins0, bins, n, s))
  }

  lemma EnqueueGrows(f: Field, bins0: Bins, bins: Bins, from: map<Cell, Cell>, c: Cell, s: Cell, done: set<Cell>,
                     n: Cell)
    requires Grown(f, bins0, bins, from, c, s, done)
    requires f.WellRanked(|bins|)
    requires s in f.seeds && f.InGrid(n) && Adjacent(c, n)
    ensures Grown(f, bins0, Enqueue(f, bins, from, n, s), from, c, s, done + {n})
  {
    var bins' := Enqueue(f, bins, from, n, s);
    if n !in from && f.within(n, s) {
      var k := f.level(n, s);
      assert bins'[k][|bins[k]|] == f.Data(n, s);
      assert Appended(f, bins0, bins', n, s);
      forall m | m in done && m !in from && f.within(m, s) ensures Appended(f, bins0, bins', m, s) {
        AppendKeepsAppended(f, bins0, bins, k, f.Data(n, s), m, s);
      }
      forall k', j | 0 <= k' < |bins'| && |bins0[k']| <= j < |bins'[k']|
        ensures Fresh(f, from, c, s, bins'[k'][j], k')
      {
        if k' == k && j == |bins[k]| {
          assert bins'[k'][j] == f.Data(n, s);
        } else {
          assert bins'[k'][j] == bins[k'][j];
        }
      }
    }
  }

  lemma AppendKeepsAppended(f: Field, bins0: Bins, bins: Bins, k: nat, d: CellData, m: Cell, s: Cell)
    requires k < |bins| && Appended(f, bins0, bins, m, s)
    ensures Appended(f, bins0, bins[k := bins[k] + [d]], m, s)
  {
    var l := f.level(m, s);
    var j :| |bins0[l]| <= j < |bins[l]| && bins[l][j] == f.Data(m, s);
    assert bins[k := bins[k] + [d]][l][j] == f.Data(m, s);
  }

  /** The number of entries ever queued. */
  ghost function Total(bins: Bins): nat {
    if bins == [] then 0 else |bins[0]| + Total(bins[1..])
  }

  lemma {:induction false} TotalOfFirst(bins: Bins)
    requires forall k :: 0 < k < |bins| ==> bins[k] == []
    ensures Total(bins) == if |bins| == 0 then 0 else |bins[0]|
  {
    if |bins| > 1 {
      assert forall k :: 0 <= k < |bins[1..]| ==> bins[1..][k] == bins[k + 1];
      TotalOfFirst(bins[1..]);
    }
  }

  lemma {:induction false} TotalAfterAppend(bins: Bins, k: nat, d: CellData)
    requires k < |bins|
    ensures Total(bins[k := bins[k] + [d]]) == Total(bins) + 1
  {
    var bins' := bins[k := bins[k] + [d]];
    if k == 0 {
      assert bins'[1..] == bins[1..];
    } else {
      TotalAfterAppend(bins[1..], k - 1, d);
      assert bins'[1..] == bins[1..][k - 1 := bins[1..][k - 1] + [d]];
    }
  }

  lemma EnqueueTotal(f: Field, bins: Bins, from: map<Cell, Cell>, n: Cell, s: Cell)
    requires f.within(n, s) ==> f.level(n, s) < |bins|
    ensures Total(Enqueue(f, bins, from, n, s)) <= Total(bins) + 1
  {
    if n !in from && f.within(n, s) {
      TotalAfterAppend(bins, f.level(n, s), f.Data(n, s));
    }
  }

  // ---------------------------------------------------------------- processing an entry

  /** The state after processing the entry at `(b, i)` and enqueuing its in-grid neighbours. */
  ghost predicate Visited(f: Field, w: Wave, w': Wave) {
    && w.b < |w.bins| && w.i < |w.bins[w.b]|
    && var d := w.bins[w.b][w.i];
       var c, s := d.Here(), d.Source();
       && c !in w.from
       && w' == Wave(w'.bins, w.b, w.i + 1, w.from[c := s])
       && Grown(f, w.bins, w'.bins, w'.from, c, s, Tried(Neighbours(f, c), 4))
  }

  /** The four guarded neighbours in the order the source tries them. */
  function Neighbours(f: Field, c: Cell): (ns: seq<Option<Cell>>)
    ensures |ns| == 4
  {
    [if c.x > 0 then Some(Cell(c.x - 1, c.y)) else None,
     if c.y > 0 then Some(Cell(c.x, c.y - 1)) else None,
     if c.x < f.width - 1 then Some(Cell(c.x + 1, c.y)) else None,
     if c.y < f.height - 1 then Some(Cell(c.x, c.y + 1)) else None]
  }

  /** The cells among the first `k` guarded neighbours. */
  ghost function Tried(ns: seq<Option<Cell>>, k: nat): set<Cell>
    requires k <= |ns|
  {
    set i | 0 <= i < k && ns[i].Some? :: ns[i].value
  }

  lemma NeighboursAreComplete(f: Field, c: Cell)
    requires f.InGrid(c)
    ensures forall n :: n in Tried(Neighbours(f, c), 4) <==> f.InGrid(n) && Adjacent(c, n)
  {
    var ns := Neighbours(f, c);
    forall n | f.InGrid(n) && Adjacent(c, n) ensures n in Tried(ns, 4) {
      var i := if n.x < c.x then 0 else if n.y < c.y then 1 else if c.x < n.x then 2 else 3;
      assert ns[i] == Some(n);
    }
  }

  /** The bins after the first `k` guarded calls of `enqueue`. */
  function EnqueueFirst(f: Field, bins: Bins, from: map<Cell, Cell>, ns: seq<Option<Cell>>, k: nat, s: Cell)
    : (bins': Bins)
    requires k <= |ns| && forall n :: f.within(n, s) ==> f.level(n, s) < |bins|
    ensures |bins'| == |bins|
  {
    if k == 0 then bins
    else
      var previous := EnqueueFirst(f, bins, from, ns, k - 1, s);
      if ns[k - 1].None? then previous else Enqueue(f, previous, from, ns[k - 1].value, s)
  }

  lemma {:induction false} EnqueueFirstGrows(f: Field, bins: Bins, from: map<Cell, Cell>, c: Cell,
                                             ns: seq<Option<Cell>>, k: nat, s: Cell)
    requires f.WellRanked(|bins|) && s in f.seeds && k <= |ns|
    requires forall n :: n in Tried(ns, k) ==> f.InGrid(n) && Adjacent(c, n)
    ensures Grown(f, bins, EnqueueFirst(f, bins, from, ns, k, s), from, c, s, Tried(ns, k))
    ensures Total(EnqueueFirst(f, bins, from, ns, k, s)) <= Total(bins) + k
  {
    if k > 0 {
      assert Tried(ns, k) == Tried(ns, k - 1) + if ns[k - 1].Some? then {ns[k - 1].value} else {};
      EnqueueFirstGrows(f, bins, from, c, ns, k - 1, s);
      if ns[k - 1].Some? {
        var previous := EnqueueFirst(f, bins, from, ns, k - 1, s);
        EnqueueGrows(f, bins, previous, from, c, s, Tried(ns, k - 1), ns[k - 1].value);
        EnqueueTotal(f, previous, from, ns[k - 1].value, s);
      }
    }
  }

  lemma VisitKeepsInv(f: Field, w: Wave, w': Wave)
    requires Inv(f, w) && Visited(f, w, w')
    ensures Inv(f, w')
  {
    VisitKeepsBins(f, w, w');
    VisitKeepsFrom(f, w, w');
    VisitKeepsRelaxed(f, w, w');
    VisitKeepsRooted(f, w, w');
  }

  /** Processing the entry at `(b, i)`: mark its cell, enqueue its neighbours, move on. */
  ghost function Visit(f: Field, w: Wave): Wave
    requires f.WellRanked(|w.bins|) && w.b < |w.bins| && w.i < |w.bins[w.b]|
  {
    var d := w.bins[w.b][w.i];
    var from := w.from[d.Here() := d.Source()];
    Wave(EnqueueFirst(f, w.bins, from, Neighbours(f, d.Here()), 4, d.Source()), w.b, w.i + 1, from)
  }

  lemma VisitStep(f: Field, w: Wave)
    requires Inv(f, w) && w.b < |w.bins| && w.i < |w.bins[w.b]| && w.bins[w.b][w.i].Here() !in w.from
    ensures Inv(f, Visit(f, w))
    ensures Total(Visit(f, w).bins) <= Total(w.bins) + 4
    ensures |w.bins[w.b]| <= |Visit(f, w).bins[w.b]|
  {
    var d, w' := w.bins[w.b][w.i], Visit(f, w);
    assert EntryOk(f, d, w.b);
    NeighboursAreComplete(f, d.Here());
    EnqueueFirstGrows(f, w.bins, w'.from, d.Here(), Neighbours(f, d.Here()), 4, d.Source());
    VisitKeepsInv(f, w, w');
  }

  lemma VisitKeepsBins(f: Field, w: Wave, w': Wave)
    requires BinsOk(f, w.bins) && Visited(f, w, w')
    ensures BinsOk(f, w'.bins)
  {
  }

  lemma VisitKeepsFrom(f: Field, w: Wave, w': Wave)
    requires BinsOk(f, w.bins) && FromOk(f, w) && Visited(f, w, w')
    ensures FromOk(f, w')
  {
  }

  lemma VisitKeepsHandled(f: Field, w: Wave, w': Wave, n: Cell, s: Cell)
    requires BinsOk(f, w.bins) && FromOk(f, w) && Visited(f, w, w') && Handled(f, w, n, s)
    ensures Handled(f, w', n, s)
  {
  }

  lemma VisitKeepsRelaxed(f: Field, w: Wave, w': Wave)
    requires Inv(f, w) && Visited(f, w, w')
    ensures Relaxed(f, w') && SeedsHandled(f, w')
  {
    var d := w.bins[w.b][w.i];
    assert EntryOk(f, d, w.b);
    forall c, n | c in w'.from && Outward(f, c, n, w'.from[c]) ensures Handled(f, w', n, w'.from[c]) {
      if c in w.from {
        VisitKeepsHandled(f, w, w', n, w.from[c]);
      } else {
        VisitHandlesNeighbour(f, w, w', n);
      }
    }
    forall s | s in f.seeds ensures Handled(f, w', s, s) {
      VisitKeepsHandled(f, w, w', s, s);
    }
  }

  /** An outward neighbour of the processed cell was processed before, or now waits in a later bin. */
  lemma VisitHandlesNeighbour(f: Field, w: Wave, w': Wave, n: Cell)
    requires Inv(f, w) && Visited(f, w, w')
    requires var d := w.bins[w.b][w.i]; Outward(f, d.Here(), n, d.Source())
    ensures Handled(f, w', n, w.bins[w.b][w.i].Source())
  {
    var d := w.bins[w.b][w.i];
    var c, s := d.Here(), d.Source();
    assert EntryOk(f, d, w.b);
    if n !in w.from {
      assert n != c;
      NeighboursAreComplete(f, c);
      assert Appended(f, w.bins, w'.bins, n, s);
      var k := f.level(n, s);
      var j :| |w.bins[k]| <= j < |w'.bins[k]| && w'.bins[k][j] == f.Data(n, s);
      assert w'.Start(k) <= j;
    }
  }

  lemma VisitKeepsRooted(f: Field, w: Wave, w': Wave)
    requires Inv(f, w) && Visited(f, w, w')
    ensures AllRooted(f, w')
  {
    var d := w.bins[w.b][w.i];
    var c, s := d.Here(), d.Source();
    assert EntryOk(f, d, w.b);
    forall a | a in w'.from ensures Rooted(f, w'.from, a, w'.from[a]) {
      RootedMonotone(f, w.from, c, s, a, w'.from[a]);
    }
    forall k, j | w'.b <= k < |w'.bins| && w'.Start(k) <= j < |w'.bins[k]|
      ensures Rooted(f, w'.from, w'.bins[k][j].Here(), w'.bins[k][j].Source())
    {
      var e := w'.bins[k][j];
      if j < |w.bins[k]| {
        assert e == w.bins[k][j];
        RootedMonotone(f, w.from, c, s, e.Here(), e.Source());
      } else {
        assert Fresh(f, w'.from, c, s, e, k);
        assert f.level(c, s) != f.level(e.Here(), s);
      }
    }
  }

  lemma RootedMonotone(f: Field, from: map<Cell, Cell>, c: Cell, s: Cell, a: Cell, t: Cell)
    requires c !in from && Rooted(f, from, a, t)
    ensures Rooted(f, from[c := s], a, t)
  {
  }

  // ---------------------------------------------------------------- how many cells there are

  ghost function Cells(w: nat, h: nat): (cells: set<Cell>)
    ensures forall c: Cell :: c in cells <==> c.x < w && c.y < h
    ensures |cells| == w * h
    decreases h
  {
    if h == 0 then {}
    else
      var below, row := Cells(w, h - 1), Row(w, h - 1);
      assert w * h == w * (h - 1) + w;
      below + row
  }

  ghost function Row(w: nat, y: nat): (cells: set<Cell>)
    ensures forall c: Cell :: c in cells <==> c.x < w && c.y == y
    ensures |cells| == w
  {
    if w == 0 then {} else Row(w - 1, y) + {Cell(w - 1, y)}
  }

  lemma SubsetSize(small: set<Cell>, large: set<Cell>)
    requires small <= large
    ensures |small| <= |large|
  {
    assert large == small + (large - small);
  }

  lemma ProcessedCount(f: Field, w: Wave)
    requires FromOk(f, w)
    ensures |w.from| <= f.width * f.height
  {
    SubsetSize(w.from.Keys, Cells(f.width, f.height));
  }

  // ---------------------------------------------------------------- the first and the last state

  /** The scan starts with one entry per seed in bin 0 and nothing processed. */
  lemma InitialInv(f: Field, bins: Bins)
    requires |bins| > 0 && f.WellRanked(|bins|)
    requires forall k :: 0 < k < |bins| ==> bins[k] == []
    requires forall j :: 0 <= j < |bins[0]| ==>
      bins[0][j].Here() in f.seeds && bins[0][j] == f.Data(bins[0][j].Here(), bins[0][j].Here())
    requires forall s :: s in f.seeds ==> f.Data(s, s) in bins[0]
    ensures Inv(f, Wave(bins, 0, 0, map[]))
  {
    var w := Wave(bins, 0, 0, map[]);
    forall s | s in f.seeds ensures Handled(f, w, s, s) {
      var j :| 0 <= j < |bins[0]| && bins[0][j] == f.Data(s, s);
      assert Pending(f, w, s, s);
    }
    forall k, j | 0 <= k < |bins| && 0 <= j < |bins[k]|
      ensures EntryOk(f, bins[k][j], k) && bins[k][j].Here() == bins[k][j].Source()
    {
      assert k == 0;
      assert bins[0][j] == f.Data(bins[0][j].Here(), bins[0][j].Here());
    }
  }

  /** What the finished wavefront is, without bins or positions. */
  ghost predicate Complete(f: Field, from: map<Cell, Cell>) {
    && (forall c :: c in from ==> f.InGrid(c) && from[c] in f.seeds && f.within(c, from[c]))
    && (forall s :: s in f.seeds ==> s in from && from[s] == s)
    && OutwardDone(f, from)
    && (forall c :: c in from ==> Rooted(f, from, c, from[c]))
  }

  ghost predicate OutwardDone(f: Field, from: map<Cell, Cell>) {
    forall c, n :: c in from && Outward(f, c, n, from[c]) ==>
      n in from && f.level(n, from[n]) <= f.level(n, from[c])
  }

  lemma FinalState(f: Field, w: Wave)
    requires Inv(f, w) && w.b == |w.bins|
    ensures Complete(f, w.from)
  {
    forall n, s | Handled(f, w, n, s) ensures Processed(f, w, n, s) {
    }
  }
}
