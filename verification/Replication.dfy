/**
 Costmap replication (`Costmap2DPublisher`, `CostmapSubscriber`, driven by `Costmap2DROS::mapUpdateLoop`): full maps
 and rectangular updates on one side, a lazily applied pending map on the other.
 */
module Replication {
  import opened Grid
  import opened RollingWindow

  /** A costmap as a value: its geometry and its cells, row by row. */
  datatype Map = Map(sizeX: nat, sizeY: nat, resolution: real, originX: real, originY: real, cells: seq<Cost>) {
    predicate Valid() {
      |cells| == sizeX * sizeY
    }

    ghost predicate SameGeometry(m: Map) {
      sizeX == m.sizeX && sizeY == m.sizeY && resolution == m.resolution && originX == m.originX && originY == m.originY
    }
  }

  /** The smallest window that holds two others. */
  function Join(a: Window, b: Window): Window {
    Window(Min(b.x0, a.x0), Min(b.y0, a.y0), Max(b.xn, a.xn), Max(b.yn, a.yn))
  }

  /** Nothing is dirty. */
  function Clean(m: Map): Window {
    Window(m.sizeX, m.sizeY, 0, 0)
  }

  /** The sides of `b` are no further in than those of `a`. */
  predicate Inside(a: Window, b: Window) {
    b.x0 <= a.x0 && a.xn <= b.xn && b.y0 <= a.y0 && a.yn <= b.yn
  }

  /** The join holds both and lies inside every window that does; with the clean box it is the other window. */
  lemma JoinIsSmallest(a: Window, b: Window, c: Window, m: Map)
    ensures Inside(a, c) && Inside(b, c) <==> Inside(Join(a, b), c)
    ensures a.Fits(m.sizeX, m.sizeY) ==> Join(Clean(m), a) == a
    ensures forall x: int, y: int :: !Clean(m).Contains(x, y)
  {
  }

  datatype Message =
    | Full(m: Map)
    | Update(x: nat, y: nat, sizeX: nat, sizeY: nat, data: seq<Cost>)
  {
    predicate Valid() {
      match this
      case Full(m) => m.Valid()
      case Update(_, _, sx, sy, data) => |data| == sx * sy
    }
  }

  // ---------------------------------------------------------------- what an update does to a map

  /** The cells of `m` with the rectangle of an update written over them. */
  ghost predicate Patched(m: Map, u: Message, cells: seq<Cost>)
    requires u.Update?
  {
    Copied(u.data, u.sizeX, u.sizeY, m.cells, cells, m.sizeX, m.sizeY, 0, 0, u.x, u.y, u.sizeX, u.sizeY, 0)
  }

  /** The update carries the cells of `m` in the box. */
  ghost predicate Carries(u: Message, m: Map, b: Window) {
    && u.Update? && u.Valid() && b.Fits(m.sizeX, m.sizeY)
    && u.x == b.x0 && u.y == b.y0 && u.sizeX == b.xn - b.x0 && u.sizeY == b.yn - b.y0
    && forall x: int, y: int :: 0 <= x < u.sizeX && 0 <= y < u.sizeY ==>
         CellOf(u.data, u.sizeX, u.sizeY, x, y, 0) == CellOf(m.cells, m.sizeX, m.sizeY, x + b.x0, y + b.y0, 0)
  }

  /** The maps are of one size and agree on every cell outside the box. */
  ghost predicate AgreeOutside(m: Map, m': Map, b: Window) {
    m.sizeX == m'.sizeX && m.sizeY == m'.sizeY && SameOutside(m.cells, m'.cells, m.sizeX, m.sizeY, b)
  }

  /**
   Patching a replica with the box of the current map gives the current map exactly when the two agreed outside the
   box.
   */
  lemma UpdateIsExact(replica: Map, m: Map, b: Window, u: Message, cells: seq<Cost>)
    requires replica.Valid() && m.Valid() && replica.sizeX == m.sizeX && replica.sizeY == m.sizeY
    requires Carries(u, m, b) && Patched(replica, u, cells)
    ensures cells == m.cells <==> AgreeOutside(replica, m, b)
  {
    var w, h := m.sizeX, m.sizeY;
    forall x: int, y: int | 0 <= x < w && 0 <= y < h
      ensures CellOf(cells, w, h, x, y, 0) ==
              if b.Contains(x, y) then CellOf(m.cells, w, h, x, y, 0) else CellOf(replica.cells, w, h, x, y, 0)
    {
      if b.Contains(x, y) {
        assert CellOf(u.data, u.sizeX, u.sizeY, x - b.x0, y - b.y0, 0) == CellOf(m.cells, w, h, x, y, 0);
      }
    }
    if AgreeOutside(replica, m, b) {
      SameCellsSameGrid(cells, m.cells, w, h, 0);
    }
  }

  // ---------------------------------------------------------------- what a message does to a subscriber's view

  predicate InArea(m: Map, u: Message)
    requires u.Update?
  {
    u.x + u.sizeX <= m.sizeX && u.y + u.sizeY <= m.sizeY
  }

  /** The value of the `k`-th cell of `m` once the update is written. */
  ghost function PatchedCell(m: Map, u: Message, k: nat): Cost
    requires u.Update? && m.sizeX > 0 && k < |m.cells|
  {
    var x, y := k % m.sizeX, k / m.sizeX;
    if u.x <= x < u.x + u.sizeX && u.y <= y < u.y + u.sizeY then CellOf(u.data, u.sizeX, u.sizeY, x - u.x, y - u.y, 0)
    else m.cells[k]
  }

  ghost function PatchedCells(m: Map, u: Message): (cells: seq<Cost>)
    requires u.Update? && m.Valid()
    ensures |cells| == |m.cells|
  {
    seq(|m.cells|, k requires 0 <= k < |m.cells| => PatchedCell(m, u, k))
  }

  /** There is exactly one way to write an update. */
  lemma PatchIsUnique(m: Map, u: Message, cells: seq<Cost>)
    requires m.Valid() && u.Update? && u.Valid() && InArea(m, u) && Patched(m, u, cells)
    ensures cells == PatchedCells(m, u)
  {
    var w, h := m.sizeX, m.sizeY;
    forall k | 0 <= k < w * h ensures cells[k] == PatchedCells(m, u)[k] {
      var x, y := CellAtIndex(k, w, h);
      IndexToCells(x, y, w);
      assert k % w == x;
      assert CellOf(cells, w, h, x, y, 0) == cells[k];
    }
  }

  /** What a subscriber that shows `view` shows after one more message. */
  ghost function Apply(view: Option<Map>, msg: Message): (view': Option<Map>)
    requires msg.Valid() && (view.Some? ==> view.value.Valid())
    ensures view'.Some? ==> view'.value.Valid()
  {
    match msg
    case Full(m) => Some(m)
    case Update(_, _, _, _, _) =>
      if view.None? || !InArea(view.value, msg) then view
      else Some(view.value.(cells := PatchedCells(view.value, msg)))
  }

  /** What it shows when every message still under way has arrived. */
  ghost function Final(view: Option<Map>, channel: seq<Message>): (view': Option<Map>)
    requires (forall m :: m in channel ==> m.Valid()) && (view.Some? ==> view.value.Valid())
    ensures view'.Some? ==> view'.value.Valid()
    decreases |channel|
  {
    if channel == [] then view else Final(Apply(view, channel[0]), channel[1..])
  }

  lemma {:induction false} FinalOfOneMore(view: Option<Map>, channel: seq<Message>, msg: Message)
    requires (forall m :: m in channel ==> m.Valid()) && msg.Valid() && (view.Some? ==> view.value.Valid())
    ensures Final(view, channel + [msg]) == Apply(Final(view, channel), msg)
    decreases |channel|
  {
    if channel == [] {
      assert Final(Apply(view, msg), []) == Apply(view, msg);
    } else {
      FinalOfOneMore(Apply(view, channel[0]), channel[1..], msg);
      assert (channel + [msg])[1..] == channel[1..] + [msg];
    }
  }

  // ---------------------------------------------------------------- copying rectangles into messages and maps

  /** Write a `rw` by `rh` rectangle of `source` into `dest`, cell by cell in row order. */
  method CopyRectangle(source: seq<Cost>, sw: nat, sh: nat, sx: nat, sy: nat, dest: seq<Cost>, w: nat, h: nat, dx: nat,
                       dy: nat, rw: nat, rh: nat) returns (after: seq<Cost>)
    requires |source| == sw * sh && |dest| == w * h
    requires sx + rw <= sw && sy + rh <= sh && dx + rw <= w && dy + rh <= h
    ensures Copied(source, sw, sh, dest, after, w, h, sx, sy, dx, dy, rw, rh, 0)
  {
    after := dest;
    for i := 0 to rh
      invariant CopiedRows(source, sw, sh, dest, after, w, h, sx, sy, dx, dy, rw, i, 0, 0)
    {
      for k := 0 to rw
        invariant CopiedRows(source, sw, sh, dest, after, w, h, sx, sy, dx, dy, rw, i, k, 0)
      {
        CopyOne(source, sw, sh, dest, after, w, h, sx, sy, dx, dy, rw, i, k, 0);
        after := after[Index(dx + k, dy + i, w) := source[Index(sx + k, sy + i, sw)]];
      }
    }
  }

  // ---------------------------------------------------------------- the publisher

  /** The geometry a publisher remembers; its resolution is a single-precision number. */
  datatype Saved = Saved(originX: real, originY: real, resolution: real, width: nat, height: nat)

  type Rounding = real -> real

  function SavedOf(m: Map, toFloat: Rounding): Saved {
    Saved(m.originX, m.originY, toFloat(m.resolution), m.sizeX, m.sizeY)
  }

  /** What a full message carries: the map with its resolution in single precision. */
  function Replica(m: Map, toFloat: Rounding): Map {
    m.(resolution := toFloat(m.resolution))
  }

  /** A subscriber's map shows `m`: the same size, place and cells, and the resolution in single precision. */
  ghost predicate Shows(view: Map, m: Map, toFloat: Rounding) {
    && view.sizeX == m.sizeX && view.sizeY == m.sizeY
    && view.originX == m.originX && view.originY == m.originY && view.resolution == toFloat(m.resolution)
    && view.cells == m.cells
  }

  lemma ReplicaShows(m: Map, view: Map, toFloat: Rounding)
    ensures view == Replica(m, toFloat) <==> Shows(view, m, toFloat)
  {
  }

  lemma CopyCarries(u: Message, m: Map, b: Window, blank: seq<Cost>)
    requires b.Fits(m.sizeX, m.sizeY) && u.Update?
    requires u == Update(b.x0, b.y0, b.xn - b.x0, b.yn - b.y0, u.data) && |blank| == u.sizeX * u.sizeY
    requires Copied(m.cells, m.sizeX, m.sizeY, blank, u.data, u.sizeX, u.sizeY, b.x0, b.y0, 0, 0, u.sizeX, u.sizeY, 0)
    ensures Carries(u, m, b)
  {
  }

  class Publisher {
    /** The map the publisher points to; the map update loop changes it. */
    var costmap: Map
    /** `x0_`, `y0_`, `xn_`, `yn_`: what may have changed since the last publication. */
    var box: Window
    /** None until the first publication, when the source compares with fields nobody has set. */
    var saved: Option<Saved>
    const alwaysSendFull: bool
    const toFloat: Rounding

    constructor (costmap: Map, alwaysSendFull: bool, toFloat: Rounding)
      ensures this.costmap == costmap && this.alwaysSendFull == alwaysSendFull && this.toFloat == toFloat
      ensures box == Clean(costmap) && saved == None
    {
      this.costmap, this.alwaysSendFull, this.toFloat := costmap, alwaysSendFull, toFloat;
      box, saved := Clean(costmap), None;
    }

    /** `updateBounds`. */
    method UpdateBounds(x0: nat, xn: nat, y0: nat, yn: nat)
      modifies this`box
      ensures box == Join(old(box), Window(x0, y0, xn, yn))
      ensures forall x: int, y: int :: old(box).Contains(x, y) || Window(x0, y0, xn, yn).Contains(x, y) ==>
        box.Contains(x, y)
    {
      box := Window(Min(x0, box.x0), Min(y0, box.y0), Max(xn, box.xn), Max(yn, box.yn));
    }

    /** `prepareCostmap`. */
    method PrepareCostmap() returns (msg: Message)
      requires costmap.Valid()
      ensures msg == Full(Replica(costmap, toFloat)) && Shows(msg.m, costmap, toFloat)
    {
      var resolution := costmap.resolution;
      var wx, wy := costmap.originX + 0.5 * resolution, costmap.originY + 0.5 * resolution;
      var data := seq(costmap.sizeX * costmap.sizeY, _ => 0);
      for i := 0 to |data|
        invariant |data| == |costmap.cells| && data[..i] == costmap.cells[..i]
      {
        data := data[i := costmap.cells[i]];
      }
      msg := Full(Map(costmap.sizeX, costmap.sizeY, toFloat(resolution), wx - resolution / 2.0, wy - resolution / 2.0,
                      data));
    }

    /** `createCostmapUpdateMsg`. */
    method CreateCostmapUpdateMsg() returns (msg: Message)
      requires costmap.Valid() && box.Fits(costmap.sizeX, costmap.sizeY)
      ensures Carries(msg, costmap, box)
    {
      var sizeX, sizeY := box.xn - box.x0, box.yn - box.y0;
      var blank: seq<Cost> := seq(sizeX * sizeY, _ => 0);
      var data := CopyRectangle(costmap.cells, costmap.sizeX, costmap.sizeY, box.x0, box.y0, blank, sizeX, sizeY, 0, 0,
                                sizeX, sizeY);
      msg := Update(box.x0, box.y0, sizeX, sizeY, data);
      CopyCarries(msg, costmap, box, blank);
    }

    /** The geometry of the map is the one last published. */
    ghost predicate GeometryPublished()
      reads this
    {
      && saved.Some? && saved.value.originX == costmap.originX && saved.value.originY == costmap.originY
      && saved.value.width == costmap.sizeX && saved.value.height == costmap.sizeY
      && saved.value.resolution == toFloat(costmap.resolution)
    }

    /** The condition under which `publishCostmap` sends the whole map. */
    predicate SendsFull()
      reads this
    {
      alwaysSendFull || saved != Some(SavedOf(costmap, toFloat))
    }

    /** `publishCostmap`, with a subscriber attached. */
    method PublishCostmap() returns (sent: Option<Message>)
      requires costmap.Valid() && (SendsFull() || box == Clean(costmap) || box.Fits(costmap.sizeX, costmap.sizeY))
      modifies this`box, this`saved
      ensures saved == Some(SavedOf(costmap, toFloat)) && box == Clean(costmap)
      ensures old(SendsFull()) ==>
        sent == Some(Full(Replica(costmap, toFloat))) && Shows(sent.value.m, costmap, toFloat)
      ensures sent.Some? && sent.value.Full? <==> alwaysSendFull || !old(GeometryPublished())
      ensures GeometryPublished()
      ensures !old(SendsFull()) && old(box.x0 < box.xn) ==> sent.Some? && Carries(sent.value, costmap, old(box))
      ensures !old(SendsFull()) && !old(box.x0 < box.xn) ==> sent.None?
    {
      sent := None;
      if SendsFull() {
        saved := Some(SavedOf(costmap, toFloat));
        var full := PrepareCostmap();
        sent := Some(full);
      } else if box.x0 < box.xn {
        var update := CreateCostmapUpdateMsg();
        sent := Some(update);
      }
      box := Clean(costmap);
    }
  }

  // ---------------------------------------------------------------- the subscriber

  class Subscriber {
    var costmap: Option<Map>
    /** A full map that has arrived and is not applied yet. */
    var costmapMsg: Option<Map>

    ghost predicate Valid()
      reads this
    {
      && (costmap.Some? ==> costmap.value.Valid())
      && (costmapMsg.Some? ==> costmapMsg.value.Valid() && costmap.Some?)
    }

    /** The map `getCostmap` would return. */
    ghost function View(): (v: Option<Map>)
      requires Valid()
      reads this
      ensures v.Some? ==> v.value.Valid()
    {
      if costmapMsg.Some? then costmapMsg else costmap
    }

    constructor ()
      ensures Valid() && View() == None
    {
      costmap, costmapMsg := None, None;
    }

    /** `processCurrentCostmapMsg`: resize if the geometry changed, then overwrite every cell. */
    method ProcessCurrentCostmapMsg()
      requires costmap.Some? && costmap.value.Valid() && costmapMsg.Some? && costmapMsg.value.Valid()
      modifies this
      ensures Valid() && costmap == old(costmapMsg) && costmapMsg == None
    {
      var m, msg := costmap.value, costmapMsg.value;
      if m.sizeX != msg.sizeX || m.sizeY != msg.sizeY || m.resolution != msg.resolution
         || m.originX != msg.originX || m.originY != msg.originY {
        m := Map(msg.sizeX, msg.sizeY, msg.resolution, msg.originX, msg.originY, seq(msg.sizeX * msg.sizeY, _ => 0));
      }
      var cells := m.cells;
      for i := 0 to |msg.cells|
        invariant |cells| == |msg.cells| && cells[..i] == msg.cells[..i]
      {
        cells := cells[i := msg.cells[i]];
      }
      assert cells == msg.cells;
      costmap, costmapMsg := Some(m.(cells := cells)), None;
    }

    /** `costmapCallback`: keep the message for later, except the first one. */
    method CostmapCallback(msg: Map)
      requires Valid() && msg.Valid()
      modifies this
      ensures Valid() && View() == Apply(old(View()), Full(msg))
    {
      var received := costmap.Some?;
      costmapMsg := Some(msg);
      if !received {
        costmap := Some(Map(msg.sizeX, msg.sizeY, msg.resolution, msg.originX, msg.originY,
                            seq(msg.sizeX * msg.sizeY, _ => 0)));
        ProcessCurrentCostmapMsg();
      }
    }

    /** `costmapUpdateCallback`: ignore it before the first map or outside the map, write it row by row otherwise. */
    method CostmapUpdateCallback(update: Message)
      requires Valid() && update.Update? && update.Valid()
      modifies this
      ensures Valid() && View() == Apply(old(View()), update)
    {
      if costmap.Some? {
        if costmapMsg.Some? {
          ProcessCurrentCostmapMsg();
        }
        var m := costmap.value;
        if m.sizeX < update.x + update.sizeX || m.sizeY < update.y + update.sizeY {
          return;
        }
        var cells := CopyRectangle(update.data, update.sizeX, update.sizeY, 0, 0, m.cells, m.sizeX, m.sizeY, update.x,
                                   update.y, update.sizeX, update.sizeY);
        PatchIsUnique(m, update, cells);
        costmap := Some(m.(cells := cells));
      }
    }

    method Receive(msg: Message)
      requires Valid() && msg.Valid()
      modifies this
      ensures Valid() && View() == Apply(old(View()), msg)
    {
      match msg
      case Full(m) => CostmapCallback(m);
      case Update(_, _, _, _, _) => CostmapUpdateCallback(msg);
    }

    /** `getCostmap`: an error before the first map. */
    method GetCostmap() returns (m: Option<Map>)
      requires Valid()
      modifies this
      ensures Valid() && View() == old(View()) && m == View()
    {
      if costmap.None? {
        return None;
      }
      if costmapMsg.Some? {
        ProcessCurrentCostmapMsg();
      }
      m := costmap;
    }
  }

  // ---------------------------------------------------------------- runs

  /**
   One step of the system: a cycle of the map update loop that changes the map and reports a window, a publication,
   the arrival of the oldest message under way, a read by the subscriber.
   */
  datatype Step = Cycle(next: Map, window: Window) | Publish | Deliver | Read

  /** The replica of what was last published. */
  function ReplicaOf(last: Option<Map>, toFloat: Rounding): Option<Map> {
    if last.None? then None else Some(Replica(last.value, toFloat))
  }

  /** The dirty box is empty or lies on the map. */
  ghost predicate BoxFits(box: Window, m: Map) {
    box == Clean(m) || box.Fits(m.sizeX, m.sizeY)
  }

  /** A publication sends the whole map, or nothing outside the box it sends has changed since the last one. */
  ghost predicate UpToDate(m: Map, last: Option<Map>, box: Window, always: bool, toFloat: Rounding) {
    || always || last.None? || SavedOf(m, toFloat) != SavedOf(last.value, toFloat)
    || (BoxFits(box, m) && AgreeOutside(last.value, m, box))
  }

  /** Every publication of the script can bring its subscribers up to date; `box` is what the cycles so far reported. */
  ghost predicate Legal(m: Map, last: Option<Map>, box: Window, always: bool, toFloat: Rounding, script: seq<Step>)
    decreases |script|
  {
    script == [] ||
    match script[0]
    case Cycle(next, window) =>
      && next.Valid() && window.Fits(next.sizeX, next.sizeY)
      && Legal(next, last, Join(box, window), always, toFloat, script[1..])
    case Publish =>
      && UpToDate(m, last, box, always, toFloat)
      && Legal(m, Some(m), Clean(m), always, toFloat, script[1..])
    case _ => Legal(m, last, box, always, toFloat, script[1..])
  }

  /**
   What the map update loop gives: a cycle that leaves the geometry alone changes cells of its window only, and a
   publication after a change of geometry still sees a geometry other than the one last published.
   */
  ghost predicate Disciplined(m: Map, last: Option<Map>, moved: bool, always: bool, toFloat: Rounding,
                              script: seq<Step>)
    decreases |script|
  {
    script == [] ||
    match script[0]
    case Cycle(next, window) =>
      && next.Valid() && window.Fits(next.sizeX, next.sizeY)
      && (m.SameGeometry(next) ==> AgreeOutside(m, next, window))
      && Disciplined(next, last, moved || !m.SameGeometry(next), always, toFloat, script[1..])
    case Publish =>
      && (moved ==> always || last.None? || SavedOf(m, toFloat) != SavedOf(last.value, toFloat))
      && Disciplined(m, Some(m), false, always, toFloat, script[1..])
    case _ => Disciplined(m, last, moved, always, toFloat, script[1..])
  }

  /** The box covers every change since the last publication. */
  ghost predicate Covered(last: Map, m: Map, box: Window) {
    last.SameGeometry(m) && AgreeOutside(last, m, box) && BoxFits(box, m)
  }

  lemma CoveredAfterCycle(last: Map, m: Map, next: Map, box: Window, window: Window)
    requires Covered(last, m, box) && m.SameGeometry(next) && AgreeOutside(m, next, window)
    requires window.Fits(next.sizeX, next.sizeY)
    ensures Covered(last, next, Join(box, window))
  {
    forall x: int, y: int | 0 <= x < next.sizeX && 0 <= y < next.sizeY && !Join(box, window).Contains(x, y)
      ensures CellOf(last.cells, next.sizeX, next.sizeY, x, y, 0) == CellOf(next.cells, next.sizeX, next.sizeY, x, y, 0)
    {
      assert !box.Contains(x, y) && !window.Contains(x, y);
      assert CellOf(m.cells, next.sizeX, next.sizeY, x, y, 0) == CellOf(next.cells, next.sizeX, next.sizeY, x, y, 0);
    }
  }

  /** The discipline of the loop makes every publication one that brings its subscribers up to date. */
  lemma {:induction false} LoopIsLegal(m: Map, last: Option<Map>, box: Window, moved: bool, always: bool,
                                       toFloat: Rounding, script: seq<Step>)
    requires Disciplined(m, last, moved, always, toFloat, script)
    requires last.Some? && !moved ==> Covered(last.value, m, box)
    ensures Legal(m, last, box, always, toFloat, script)
    decreases |script|
  {
    if script != [] {
      match script[0]
      case Cycle(next, window) =>
        if last.Some? && !moved && m.SameGeometry(next) {
          CoveredAfterCycle(last.value, m, next, box, window);
        }
        LoopIsLegal(next, last, Join(box, window), moved || !m.SameGeometry(next), always, toFloat, script[1..]);
      case Publish =>
        LoopIsLegal(m, Some(m), Clean(m), false, always, toFloat, script[1..]);
      case _ =>
        LoopIsLegal(m, last, box, moved, always, toFloat, script[1..]);
    }
  }

  /** The replicas a subscriber may ever see: none, and one per publication. */
  ghost function Published(m: Map, toFloat: Rounding, script: seq<Step>): set<Option<Map>>
    decreases |script|
  {
    if script == [] then {None}
    else match script[0]
      case Cycle(next, _) => Published(next, toFloat, script[1..])
      case Publish => {Some(Replica(m, toFloat))} + Published(m, toFloat, script[1..])
      case _ => Published(m, toFloat, script[1..])
  }

  ghost predicate AllValid(channel: seq<Message>) {
    forall m :: m in channel ==> m.Valid()
  }

  /** Once the channel drains the subscriber shows the last publication, and on the way only publications. */
  ghost predicate Synced(view: Option<Map>, channel: seq<Message>, goal: Option<Map>, history: set<Option<Map>>) {
    && AllValid(channel) && (view.Some? ==> view.value.Valid())
    && Final(view, channel) == goal
    && forall i :: 0 <= i <= |channel| ==> Final(view, channel[..i]) in history
  }

  lemma SyncedAfterSend(view: Option<Map>, channel: seq<Message>, goal: Option<Map>, history: set<Option<Map>>,
                        msg: Message, goal': Option<Map>, history': set<Option<Map>>)
    requires Synced(view, channel, goal, history) && msg.Valid() && Apply(goal, msg) == goal'
    requires history <= history' && goal' in history'
    ensures Synced(view, channel + [msg], goal', history')
  {
    FinalOfOneMore(view, channel, msg);
    forall i | 0 <= i <= |channel| + 1 ensures Final(view, (channel + [msg])[..i]) in history' {
      if i <= |channel| {
        assert (channel + [msg])[..i] == channel[..i];
      } else {
        assert (channel + [msg])[..i] == channel + [msg];
      }
    }
  }

  lemma SyncedAfterDelivery(view: Option<Map>, channel: seq<Message>, goal: Option<Map>, history: set<Option<Map>>)
    requires Synced(view, channel, goal, history) && channel != []
    ensures Synced(Apply(view, channel[0]), channel[1..], goal, history)
  {
    forall i | 0 <= i <= |channel[1..]| ensures Final(Apply(view, channel[0]), channel[1..][..i]) in history {
      assert channel[..i + 1][1..] == channel[1..][..i];
      assert Final(view, channel[..i + 1]) in history;
    }
  }

  /**
   A publication that does not send the whole map brings the replica of the last one up to date exactly when no cell
   outside the dirty box has changed since.
   */
  lemma IncrementIsExact(last: Map, m: Map, b: Window, toFloat: Rounding, sent: Option<Message>)
    requires last.Valid() && m.Valid() && SavedOf(last, toFloat) == SavedOf(m, toFloat)
    requires b == Clean(m) || b.Fits(m.sizeX, m.sizeY)
    requires if b.x0 < b.xn then sent.Some? && Carries(sent.value, m, b) else sent.None?
    ensures var view := Some(Replica(last, toFloat));
      (if sent.None? then view else Apply(view, sent.value)) == Some(Replica(m, toFloat)) <==> AgreeOutside(last, m, b)
  {
    var replica := Replica(last, toFloat);
    if sent.Some? {
      PatchIsWritten(replica, sent.value);
      UpdateIsExact(replica, m, b, sent.value, PatchedCells(replica, sent.value));
    } else if AgreeOutside(last, m, b) {
      SameCellsSameGrid(last.cells, m.cells, m.sizeX, m.sizeY, 0);
    }
  }

  lemma PatchIsWritten(m: Map, u: Message)
    requires m.Valid() && u.Update? && u.Valid() && InArea(m, u)
    ensures Patched(m, u, PatchedCells(m, u))
  {
    var w, h := m.sizeX, m.sizeY;
    forall x: int, y: int
      ensures CellOf(PatchedCells(m, u), w, h, x, y, 0) ==
              if u.x <= x < u.x + u.sizeX && u.y <= y < u.y + u.sizeY
              then CellOf(u.data, u.sizeX, u.sizeY, x - u.x + 0, y - u.y + 0, 0)
              else CellOf(m.cells, w, h, x, y, 0)
    {
      PatchedAt(m, u, x, y);
    }
  }

  lemma PatchedAt(m: Map, u: Message, x: int, y: int)
    requires m.Valid() && u.Update? && u.Valid() && InArea(m, u)
    ensures CellOf(PatchedCells(m, u), m.sizeX, m.sizeY, x, y, 0) ==
            if u.x <= x < u.x + u.sizeX && u.y <= y < u.y + u.sizeY
            then CellOf(u.data, u.sizeX, u.sizeY, x - u.x, y - u.y, 0)
            else CellOf(m.cells, m.sizeX, m.sizeY, x, y, 0)
  {
    if 0 <= x < m.sizeX && 0 <= y < m.sizeY {
      CellOfGrid(m.cells, m.sizeX, m.sizeY, x, y, 0);
      var k := Index(x, y, m.sizeX);
      Position(x, y, m.sizeX, k);
      assert PatchedCells(m, u)[k] == PatchedCell(m, u, k);
    }
  }

  lemma Position(x: nat, y: nat, w: nat, k: nat)
    requires x < w && k == Index(x, y, w)
    ensures k % w == x && k / w == y
  {
    IndexToCells(x, y, w);
  }

  /**
   Moving the window one cell away and back between two publications loses a cell that no reported window contains,
   while the geometry is again the one last published: the replica keeps the old value.
   */
  lemma MovingAwayAndBackIsMissed(toFloat: Rounding)
    returns (first: Map, away: Map, back: Map, b: Window, u: Message)
    ensures first.Valid() && away.Valid() && back.Valid()
    ensures b.Fits(away.sizeX, away.sizeY) && b.Fits(back.sizeX, back.sizeY)
    ensures Shifted(2, 1, first.cells, away.cells, 1, 0, FREE_SPACE)
    ensures Shifted(2, 1, away.cells, back.cells, -1, 0, FREE_SPACE)
    ensures !first.SameGeometry(away) && SavedOf(back, toFloat) == SavedOf(first, toFloat)
    ensures b == Join(Join(Clean(first), b), b) && Carries(u, back, b)
    ensures Apply(Some(Replica(first, toFloat)), u) != Some(Replica(back, toFloat))
  {
    first := Map(2, 1, 1.0, 0.0, 0.0, [LETHAL_OBSTACLE, FREE_SPACE]);
    away := Map(2, 1, 1.0, 1.0, 0.0, [FREE_SPACE, FREE_SPACE]);
    back := Map(2, 1, 1.0, 0.0, 0.0, [FREE_SPACE, FREE_SPACE]);
    b, u := Window(1, 0, 2, 1), Update(1, 0, 1, 1, [FREE_SPACE]);
    assert CellOf(first.cells, 2, 1, 0, 0, 0) == LETHAL_OBSTACLE && CellOf(back.cells, 2, 1, 0, 0, 0) == FREE_SPACE;
    IncrementIsExact(first, back, b, toFloat, Some(u));
  }

  /**
   What the publisher remembers of its last publication, and what its dirty box covers unless the map `moved` since.
   */
  ghost predicate Tracks(p: Publisher, last: Option<Map>, moved: bool)
    reads p
  {
    && p.costmap.Valid()
    && (last.None? <==> p.saved.None?)
    && (last.Some? ==> last.value.Valid() && p.saved == Some(SavedOf(last.value, p.toFloat)))
    && (last.Some? && !moved ==> Covered(last.value, p.costmap, p.box))
  }

  /** One cycle of `mapUpdateLoop` up to the publication: the map changes, the publisher is told the window. */
  method UpdateCycle(p: Publisher, next: Map, window: Window, ghost last: Option<Map>, ghost moved: bool)
    returns (ghost moved': bool)
    requires Tracks(p, last, moved) && next.Valid() && window.Fits(next.sizeX, next.sizeY)
    requires !moved && p.costmap.SameGeometry(next) ==> AgreeOutside(p.costmap, next, window)
    modifies p
    ensures p.costmap == next && p.box == Join(old(p.box), window)
    ensures Tracks(p, last, moved') && moved' == (moved || !old(p.costmap).SameGeometry(next))
  {
    ghost var before, box := p.costmap, p.box;
    moved' := moved || !p.costmap.SameGeometry(next);
    p.costmap := next;
    p.UpdateBounds(window.x0, window.xn, window.y0, window.yn);
    if last.Some? && !moved' {
      CoveredAfterCycle(last.value, before, next, box, window);
    }
  }

  /** A publication and what it puts on the channel. */
  method PublishStep(p: Publisher, channel: seq<Message>, ghost view: Option<Map>, ghost last: Option<Map>,
                     ghost moved: bool, ghost history: set<Option<Map>>) returns (channel': seq<Message>)
    requires Tracks(p, last, moved) && Synced(view, channel, ReplicaOf(last, p.toFloat), history)
    requires moved ==> UpToDate(p.costmap, last, p.box, p.alwaysSendFull, p.toFloat)
    requires Some(Replica(p.costmap, p.toFloat)) in history
    modifies p
    ensures p.costmap == old(p.costmap) && p.box == Clean(p.costmap) && Tracks(p, Some(p.costmap), false)
    ensures Synced(view, channel', Some(Replica(p.costmap, p.toFloat)), history)
  {
    ghost var full, box := p.SendsFull(), p.box;
    var sent := p.PublishCostmap();
    channel' := channel;
    if !full {
      IncrementIsExact(last.value, p.costmap, box, p.toFloat, sent);
    }
    if sent.Some? {
      SyncedAfterSend(view, channel, ReplicaOf(last, p.toFloat), history, sent.value,
                      Some(Replica(p.costmap, p.toFloat)), history);
      channel' := channel' + [sent.value];
    }
  }

  /**
   Any legal interleaving of map updates, publications, deliveries and reads: every read returns nothing or one whole
   published map, and when the channel is empty the subscriber shows the map as it was last published.
   */
  method Run(p: Publisher, s: Subscriber, script: seq<Step>)
    returns (answers: seq<Option<Map>>, channel: seq<Message>, ghost last: Option<Map>)
    requires p.costmap.Valid() && p.saved.None? && s.Valid() && s.View() == None
    requires Legal(p.costmap, None, p.box, p.alwaysSendFull, p.toFloat, script)
    modifies p, s
    ensures forall r :: r in answers ==> r in Published(old(p.costmap), p.toFloat, script)
    ensures s.Valid()
    ensures Synced(s.View(), channel, ReplicaOf(last, p.toFloat), Published(old(p.costmap), p.toFloat, script))
    ensures last == LastPublished(old(p.costmap), None, script)
    ensures channel == [] ==> s.View() == ReplicaOf(last, p.toFloat)
    ensures channel == [] && last.Some? ==> s.View().Some? && Shows(s.View().value, last.value, p.toFloat)
  {
    answers, channel, last := [], [], None;
    ghost var history := Published(p.costmap, p.toFloat, script);
    NothingIsAllowed(p.costmap, p.toFloat, script);
    var k := 0;
    while k < |script|
      invariant 0 <= k <= |script| && s.Valid() && Tracks(p, last, true)
      invariant Legal(p.costmap, last, p.box, p.alwaysSendFull, p.toFloat, script[k..])
      invariant Published(p.costmap, p.toFloat, script[k..]) <= history
      invariant LastPublished(p.costmap, last, script[k..]) == LastPublished(old(p.costmap), None, script)
      invariant Synced(s.View(), channel, ReplicaOf(last, p.toFloat), history)
      invariant forall r :: r in answers ==> r in history
    {
      assert script[k..][1..] == script[k + 1..];
      match script[k] {
        case Cycle(next, window) =>
          ghost var moved := UpdateCycle(p, next, window, last, true);
        case Publish =>
          channel := PublishStep(p, channel, s.View(), last, true, history);
          last := Some(p.costmap);
        case Deliver =>
          if channel != [] {
            SyncedAfterDelivery(s.View(), channel, ReplicaOf(last, p.toFloat), history);
            s.Receive(channel[0]);
            channel := channel[1..];
          }
        case Read =>
          assert Final(s.View(), channel[..0]) in history;
          var m := s.GetCostmap();
          answers := answers + [m];
      }
      k := k + 1;
    }
    assert LastPublished(p.costmap, last, script[k..]) == last;
  }

  /** The map as it was at the last publication of the script. */
  ghost function LastPublished(m: Map, last: Option<Map>, script: seq<Step>): Option<Map>
    decreases |script|
  {
    if script == [] then last
    else match script[0]
      case Cycle(next, _) => LastPublished(next, last, script[1..])
      case Publish => LastPublished(m, Some(m), script[1..])
      case _ => LastPublished(m, last, script[1..])
  }

  /** The map after the first steps of a script. */
  ghost function MapAfter(m: Map, script: seq<Step>): Map {
    if script == [] then m
    else
      var before, step := MapAfter(m, script[..|script| - 1]), script[|script| - 1];
      if step.Cycle? then step.next else before
  }

  lemma {:induction false} MapAfterFirst(m: Map, step: Step, rest: seq<Step>)
    ensures MapAfter(m, [step] + rest) == MapAfter(if step.Cycle? then step.next else m, rest)
    decreases |rest|
  {
    var all := [step] + rest;
    if rest == [] {
      assert all[..0] == [];
    } else {
      assert all[..|all| - 1] == [step] + rest[..|rest| - 1];
      MapAfterFirst(m, step, rest[..|rest| - 1]);
    }
  }

  /** The map last published is the one at the last publication, and is untouched by what comes after it. */
  lemma {:induction false} LastPublication(m: Map, last: Option<Map>, before: seq<Step>, after: seq<Step>)
    requires forall k :: 0 <= k < |after| ==> !after[k].Publish?
    ensures LastPublished(m, last, before + [Publish] + after) == Some(MapAfter(m, before))
    ensures LastPublished(m, last, after) == last
    decreases |before|, |after|
  {
    if before != [] {
      var step, rest := before[0], before[1..];
      assert before == [step] + rest;
      assert (before + [Publish] + after)[1..] == rest + [Publish] + after;
      MapAfterFirst(m, step, rest);
      LastPublication(if step.Cycle? then step.next else m, if step.Publish? then Some(m) else last, rest, after);
      NotPublished(m, last, after);
    } else {
      assert ([] + [Publish] + after)[1..] == after;
      NotPublished(m, Some(m), after);
      NotPublished(m, last, after);
    }
  }

  lemma {:induction false} NotPublished(m: Map, last: Option<Map>, script: seq<Step>)
    requires forall k :: 0 <= k < |script| ==> !script[k].Publish?
    ensures LastPublished(m, last, script) == last
    decreases |script|
  {
    if script != [] {
      NotPublished(if script[0].Cycle? then script[0].next else m, last, script[1..]);
    }
  }

  lemma {:induction false} NothingIsAllowed(m: Map, toFloat: Rounding, script: seq<Step>)
    ensures None in Published(m, toFloat, script)
    decreases |script|
  {
    if script != [] {
      NothingIsAllowed(if script[0].Cycle? then script[0].next else m, toFloat, script[1..]);
    }
  }
}
