/**
 The whole chain of `Costmap2DROS::mapUpdateLoop`: layers, incremental update, publication, subscriber. A subscriber
 that has received everything shows the full recomputation from the layers, cell by cell.
 */
module Mirror {
  import opened Grid
  import opened Costmap
  import opened Coordinates
  import opened CostmapLayers
  import opened Layered
  import opened Replication

  /** The master grid as a value. */
  ghost function ValueOf(c: Costmap2D): (m: Map)
    requires c.Valid()
    reads c, c.costmap
    ensures m.Valid()
  {
    Map(c.sizeX, c.sizeY, c.resolution, c.originX, c.originY, c.costmap[..])
  }

  /** A cell of the map holds the filters applied to the merge of all plugins. */
  ghost predicate Recomputed(m: Map, ps: seq<Layer>, fs: seq<Layer>, default: Cost) {
    Holds(m.cells, m.sizeX, m.sizeY, FullCells(ps, fs, m.sizeX, m.sizeY, default))
  }

  /** The updated grid, for a cycle of the publisher. */
  method ReadGrid(c: Costmap2D) returns (m: Map)
    requires c.Valid()
    ensures m == ValueOf(c)
  {
    m := Map(c.sizeX, c.sizeY, c.resolution, c.originX, c.originY, c.costmap[..]);
  }

  /** The subscriber takes in everything under way. */
  method Drain(s: Subscriber, channel: seq<Message>, ghost goal: Option<Map>, ghost history: set<Option<Map>>)
    requires s.Valid() && Synced(s.View(), channel, goal, history)
    modifies s
    ensures s.Valid() && s.View() == goal
  {
    var rest := channel;
    while rest != []
      invariant s.Valid() && Synced(s.View(), rest, goal, history)
      decreases |rest|
    {
      SyncedAfterDelivery(s.View(), rest, goal, history);
      s.Receive(rest[0]);
      rest := rest[1..];
    }
  }

  /** Publish the current map and let everything arrive. */
  method Broadcast(p: Publisher, s: Subscriber, ghost last: Option<Map>)
    requires Tracks(p, last, false) && s.Valid() && s.View() == ReplicaOf(last, p.toFloat)
    modifies p, s
    ensures p.costmap == old(p.costmap) && Tracks(p, Some(p.costmap), false)
    ensures s.Valid() && s.View() == Some(Replica(p.costmap, p.toFloat))
    ensures Shows(s.View().value, p.costmap, p.toFloat)
  {
    ghost var history := {s.View(), Some(Replica(p.costmap, p.toFloat))};
    var channel := PublishStep(p, [], s.View(), last, false, history);
    Drain(s, channel, Some(Replica(p.costmap, p.toFloat)), history);
  }

  /** The layers change, the master grid follows, and the publisher hears of the window. */
  method Advance(m: LayeredCostmap, p: Publisher, next: Snapshot, ghost last: Option<Map>)
    requires m.Valid() && m.InSync(m.plugins, m.filters) && Sized(next, m.combined.sizeX * m.combined.sizeY)
    requires ChangesTouched(m.plugins, next.plugins, m.filters, next.filters, m.AxisX(), m.AxisY())
    requires p.costmap == ValueOf(m.combined) && Tracks(p, last, false)
    modifies m`plugins, m`filters, m`bx0, m`by0, m`bxn, m`byn, m`initialized, m.primary.costmap, m.combined.costmap, p
    ensures m.Valid() && m.InSync(m.plugins, m.filters) && m.plugins == next.plugins && m.filters == next.filters
    ensures p.costmap == ValueOf(m.combined) && Tracks(p, last, false)
  {
    ghost var ps, fs := m.plugins, m.filters;
    m.plugins, m.filters := next.plugins, next.filters;
    ghost var bounds := m.UpdateMap(ps, fs);
    if m.initialized {
      var grid := ReadGrid(m.combined);
      ghost var moved := UpdateCycle(p, grid, m.Reported(), last, false);
    }
  }

  /** One turn of the loop: the map is updated, and published when that is due and there has been an update. */
  method Turn(m: LayeredCostmap, p: Publisher, s: Subscriber, next: Snapshot, due: bool, ghost last: Option<Map>)
    returns (ghost last': Option<Map>)
    requires m.Valid() && m.InSync(m.plugins, m.filters) && Sized(next, m.combined.sizeX * m.combined.sizeY)
    requires ChangesTouched(m.plugins, next.plugins, m.filters, next.filters, m.AxisX(), m.AxisY())
    requires p.costmap == ValueOf(m.combined) && Tracks(p, last, false)
    requires s.Valid() && s.View() == ReplicaOf(last, p.toFloat)
    modifies m`plugins, m`filters, m`bx0, m`by0, m`bxn, m`byn, m`initialized, m.primary.costmap, m.combined.costmap, p
    modifies s
    ensures m.Valid() && m.InSync(m.plugins, m.filters) && m.plugins == next.plugins && m.filters == next.filters
    ensures p.costmap == ValueOf(m.combined) && Tracks(p, last', false)
    ensures s.Valid() && s.View() == ReplicaOf(last', p.toFloat)
    ensures last' == if due && m.initialized then Some(p.costmap) else last
  {
    last' := last;
    Advance(m, p, next, last);
    if due && m.initialized {
      Broadcast(p, s, last);
      last' := Some(p.costmap);
    }
  }

  ghost predicate Sized(layers: Snapshot, n: nat) {
    && (forall i :: 0 <= i < |layers.plugins| ==> |layers.plugins[i].costmap| == n)
    && (forall i :: 0 <= i < |layers.filters| ==> |layers.filters[i].costmap| == n)
  }

  /**
   Every run of the loop, with the layers changing as they please so long as they touch what they change, and any
   pattern of publications: after a publication the subscriber shows, cell by cell, the filters applied to the merge
   of all plugins as they are now, although most cells were neither recomputed nor sent.
   */
  method MapUpdateLoop(m: LayeredCostmap, p: Publisher, s: Subscriber, script: seq<Snapshot>, due: seq<bool>)
    requires m.Valid() && m.InSync(m.plugins, m.filters) && s.Valid() && s.View() == None
    requires p.costmap == ValueOf(m.combined) && p.saved.None?
    requires |due| == |script|
    requires forall k :: 0 <= k < |script| ==> Sized(script[k], m.combined.sizeX * m.combined.sizeY)
    requires ScriptTouched([Snapshot(m.plugins, m.filters)] + script, m.AxisX(), m.AxisY())
    modifies m, m.primary.costmap, m.combined.costmap, p, s
    ensures m.combined == old(m.combined) && s.Valid()
    ensures script != [] && due[|script| - 1] && m.initialized ==>
      && s.View().Some? && Shows(s.View().value, ValueOf(m.combined), p.toFloat)
      && Recomputed(s.View().value, script[|script| - 1].plugins, script[|script| - 1].filters, m.combined.defaultValue)
  {
    ghost var states := [Snapshot(m.plugins, m.filters)] + script;
    ghost var ax, ay, last := m.AxisX(), m.AxisY(), None;
    for k := 0 to |script|
      invariant m.AxisX() == ax && m.AxisY() == ay
      invariant m.primary == old(m.primary) && m.combined == old(m.combined)
      invariant m.primary.costmap == old(m.primary.costmap) && m.combined.costmap == old(m.combined.costmap)
      invariant m.Valid() && m.InSync(m.plugins, m.filters) && s.Valid()
      invariant m.plugins == states[k].plugins && m.filters == states[k].filters
      invariant p.costmap == ValueOf(m.combined) && Tracks(p, last, false) && s.View() == ReplicaOf(last, p.toFloat)
      invariant k > 0 && due[k - 1] && m.initialized ==> last == Some(p.costmap)
    {
      assert states[k + 1] == script[k];
      last := Turn(m, p, s, script[k], due[k], last);
    }
  }
}
