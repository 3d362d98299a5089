/** displaySchedule end to end (static/app.js:590-826): place the blocks,
    lay out every weekday, then render the grid. */
module Display {
  import opened Wrappers
  import opened Records
  import opened Strings
  import opened TimeAxis
  import opened Placement
  import opened Grouping
  import opened Render

  /** The first-fit groups of weekday d of the matrix. */
  ghost function DayGroups(m: array2<seq<Item>>, d: nat): seq<seq<BlockInfo>>
    requires d < m.Length1
    reads m
  {
    GroupAll(DayBlocks(ColumnOf(m, d)))
  }

  /** A block id occurs in one weekday column only. */
  ghost predicate IdsOneDay(m: array2<seq<Item>>)
    reads m
  {
    forall t1, d1, t2, d2, x1, x2 ::
      0 <= t1 < m.Length0 && 0 <= d1 < m.Length1 && 0 <= t2 < m.Length0 && 0 <= d2 < m.Length1
      && x1 in m[t1, d1] && x2 in m[t2, d2] && Key(x1.block) == Key(x2.block)
      ==> d1 == d2
  }

  /** Every id in a day's groups is the id of an entry of that day's
      column. */
  lemma DayIdOrigin(m: array2<seq<Item>>, d: nat, id: BlockId)
    requires d < m.Length1 && InGroups(DayGroups(m, d), id)
    ensures exists t, x :: 0 <= t < m.Length0 && x in m[t, d] && Key(x.block) == id
  {
    var column := ColumnOf(m, d);
    var infos := DayBlocks(column);
    var groups: seq<seq<BlockInfo>> := GroupAll(infos);
    GroupAllDistinct(infos);
    var i: int, p: int :| 0 <= i < |groups| && 0 <= p < |groups[i]| && groups[i][p].id == id;
    assert groups[i] in groups && groups[i][p] in groups[i];
    var t, x :| 0 <= t < |column| && x in column[t] && groups[i][p] == InfoOf(x);
  }

  /** A block id in one day's groups is in no other day's groups. */
  lemma OtherDay(m: array2<seq<Item>>, d1: nat, d2: nat, id: BlockId)
    requires d1 < m.Length1 && d2 < m.Length1 && d1 != d2 && IdsOneDay(m)
    requires InGroups(DayGroups(m, d1), id)
    ensures !InGroups(DayGroups(m, d2), id)
  {
    DayIdOrigin(m, d1, id);
    if InGroups(DayGroups(m, d2), id) {
      DayIdOrigin(m, d2, id);
    }
  }

  /** The ids of the days before dayIndex are not in dayIndex's groups. */
  lemma EarlierDaysApart(m: array2<seq<Item>>, gs: seq<seq<seq<BlockInfo>>>, dayIndex: nat, groups: seq<seq<BlockInfo>>)
    requires m.Length1 == DayCount && dayIndex < DayCount && |gs| == dayIndex && IdsOneDay(m)
    requires forall d {:trigger DayGroups(m, d)} :: 0 <= d < dayIndex ==> gs[d] == DayGroups(m, d)
    requires groups == DayGroups(m, dayIndex)
    ensures forall d, i, p :: 0 <= d < dayIndex && 0 <= i < |gs[d]| && 0 <= p < |gs[d][i]| ==> !InGroups(groups, gs[d][i][p].id)
  {
    forall d, i, p | 0 <= d < dayIndex && 0 <= i < |gs[d]| && 0 <= p < |gs[d][i]|
      ensures !InGroups(groups, gs[d][i][p].id)
    {
      assert gs[d] == DayGroups(m, d);
      assert InGroups(gs[d], gs[d][i][p].id);
      OtherDay(m, d, dayIndex, gs[d][i][p].id);
    }
  }

  /** What the loop over the weekdays knows after the days of gs: their
      groups, their collision groups, the ids recorded and, when no id is on
      two days, every grouped block's column. */
  ghost predicate DaysDone(m: array2<seq<Item>>, gs: seq<seq<seq<BlockInfo>>>, collisionGroups: seq<seq<CollisionGroup>>,
                           info: map<BlockId, ColumnInfo>, oneDay: bool)
    requires m.Length1 == DayCount
    reads m
  {
    |gs| <= DayCount && |collisionGroups| == |gs|
    && (forall d {:trigger DayGroups(m, d)} :: 0 <= d < |gs| ==> gs[d] == DayGroups(m, d))
    && (forall d :: 0 <= d < |gs| ==> collisionGroups[d] == CollisionsOf(gs[d]))
    && (forall id :: id in info <==> exists d :: 0 <= d < |gs| && InGroups(gs[d], id))
    && (oneDay ==> forall d, i, p :: 0 <= d < |gs| && 0 <= i < |gs[d]| && 0 <= p < |gs[d][i]| ==>
          gs[d][i][p].id in info && info[gs[d][i][p].id] == ColumnInfo(p, |gs[d][i]|))
  }

  /** One more weekday laid out keeps DaysDone. */
  lemma DaysExtend(m: array2<seq<Item>>, gs: seq<seq<seq<BlockInfo>>>, collisionGroups: seq<seq<CollisionGroup>>,
                   info0: map<BlockId, ColumnInfo>, oneDay: bool,
                   groups: seq<seq<BlockInfo>>, dayCollisions: seq<CollisionGroup>, info: map<BlockId, ColumnInfo>)
    requires m.Length1 == DayCount && |gs| < DayCount && (oneDay ==> IdsOneDay(m))
    requires DaysDone(m, gs, collisionGroups, info0, oneDay)
    requires groups == DayGroups(m, |gs|) && dayCollisions == CollisionsOf(groups)
    requires forall i, p :: 0 <= i < |groups| && 0 <= p < |groups[i]| ==>
      groups[i][p].id in info && info[groups[i][p].id] == ColumnInfo(p, |groups[i]|)
    requires forall id :: id in info <==> id in info0 || InGroups(groups, id)
    requires forall id :: id in info0 && !InGroups(groups, id) ==> info[id] == info0[id]
    ensures DaysDone(m, gs + [groups], collisionGroups + [dayCollisions], info, oneDay)
  {
    var all := gs + [groups];
    forall d | 0 <= d < |all|
      ensures all[d] == DayGroups(m, d) && (collisionGroups + [dayCollisions])[d] == CollisionsOf(all[d])
    {
      if d < |gs| {
        assert all[d] == gs[d] && gs[d] == DayGroups(m, d);
      }
    }
    KeysExtend(gs, groups, info0, info);
    if oneDay {
      EarlierDaysApart(m, gs, |gs|, groups);
      ColumnsExtend(gs, groups, info0, info);
    }
  }

  /** The recorded ids after one more day are those of the days so far. */
  lemma KeysExtend(gs: seq<seq<seq<BlockInfo>>>, groups: seq<seq<BlockInfo>>, info0: map<BlockId, ColumnInfo>, info: map<BlockId, ColumnInfo>)
    requires forall id :: id in info0 <==> exists d :: 0 <= d < |gs| && InGroups(gs[d], id)
    requires forall id :: id in info <==> id in info0 || InGroups(groups, id)
    ensures forall id :: id in info <==> exists d :: 0 <= d < |gs| + 1 && InGroups((gs + [groups])[d], id)
  {
    var all := gs + [groups];
    forall id
      ensures id in info <==> exists d :: 0 <= d < |gs| + 1 && InGroups(all[d], id)
    {
      if id in info0 {
        var d :| 0 <= d < |gs| && InGroups(gs[d], id);
        assert all[d] == gs[d];
      } else if InGroups(groups, id) {
        assert all[|gs|] == groups;
      } else {
        assert forall d :: 0 <= d < |gs| ==> all[d] == gs[d];
      }
    }
  }

  /** One more day's columns are recorded and the earlier days' are kept. */
  lemma ColumnsExtend(gs: seq<seq<seq<BlockInfo>>>, groups: seq<seq<BlockInfo>>, info0: map<BlockId, ColumnInfo>, info: map<BlockId, ColumnInfo>)
    requires forall d, i, p :: 0 <= d < |gs| && 0 <= i < |gs[d]| && 0 <= p < |gs[d][i]| ==>
      gs[d][i][p].id in info0 && info0[gs[d][i][p].id] == ColumnInfo(p, |gs[d][i]|)
    requires forall d, i, p :: 0 <= d < |gs| && 0 <= i < |gs[d]| && 0 <= p < |gs[d][i]| ==> !InGroups(groups, gs[d][i][p].id)
    requires forall i, p :: 0 <= i < |groups| && 0 <= p < |groups[i]| ==>
      groups[i][p].id in info && info[groups[i][p].id] == ColumnInfo(p, |groups[i]|)
    requires forall id :: id in info0 && !InGroups(groups, id) ==> id in info && info[id] == info0[id]
    ensures forall d, i, p :: 0 <= d < |gs| + 1 && 0 <= i < |(gs + [groups])[d]| && 0 <= p < |(gs + [groups])[d][i]| ==>
      (gs + [groups])[d][i][p].id in info && info[(gs + [groups])[d][i][p].id] == ColumnInfo(p, |(gs + [groups])[d][i]|)
  {
    var all: seq<seq<seq<BlockInfo>>> := gs + [groups];
    forall d: int, i: int, p: int | 0 <= d < |gs| + 1 && 0 <= i < |all[d]| && 0 <= p < |all[d][i]|
      ensures all[d][i][p].id in info && info[all[d][i][p].id] == ColumnInfo(p, |all[d][i]|)
    {
      if d < |gs| {
        assert all[d] == gs[d];
      }
    }
  }

  /** The loop over the five weekdays. */
  method LayoutDays(m: array2<seq<Item>>)
    returns (collisionGroups: seq<seq<CollisionGroup>>, blockColumnInfo: map<BlockId, ColumnInfo>, ghost gs: seq<seq<seq<BlockInfo>>>)
    requires m.Length1 == DayCount
    ensures |collisionGroups| == DayCount && |gs| == DayCount
    ensures forall d {:trigger DayGroups(m, d)} :: 0 <= d < DayCount ==> gs[d] == DayGroups(m, d)
    ensures forall d :: 0 <= d < DayCount ==> collisionGroups[d] == CollisionsOf(gs[d])
    ensures forall id :: id in blockColumnInfo <==> exists d :: 0 <= d < DayCount && InGroups(gs[d], id)
    ensures IdsOneDay(m) ==> forall d, i, p :: 0 <= d < DayCount && 0 <= i < |gs[d]| && 0 <= p < |gs[d][i]| ==>
      gs[d][i][p].id in blockColumnInfo && blockColumnInfo[gs[d][i][p].id] == ColumnInfo(p, |gs[d][i]|)
  {
    gs := [];
    ghost var oneDay := IdsOneDay(m);
    collisionGroups, blockColumnInfo := [], map[];
    var dayIndex := 0;
    while dayIndex < DayCount
      invariant 0 <= dayIndex <= DayCount && |gs| == dayIndex
      invariant DaysDone(m, gs, collisionGroups, blockColumnInfo, oneDay)
    {
      var dayCollisions;
      ghost var groups;
      ghost var info0 := blockColumnInfo;
      dayCollisions, blockColumnInfo, groups := LayoutDay(m, dayIndex, blockColumnInfo);
      DaysExtend(m, gs, collisionGroups, info0, oneDay, groups, dayCollisions, blockColumnInfo);
      collisionGroups, gs := collisionGroups + [dayCollisions], gs + [groups];
      dayIndex := dayIndex + 1;
    }
  }

  /** One weekday: collects its blocks, groups them first-fit, keeps the
      groups of more than one block as collision groups and records every
      grouped block's column within its group. */
  method LayoutDay(m: array2<seq<Item>>, dayIndex: nat, info0: map<BlockId, ColumnInfo>)
    returns (dayCollisions: seq<CollisionGroup>, info: map<BlockId, ColumnInfo>, ghost groups: seq<seq<BlockInfo>>)
    requires dayIndex < m.Length1
    ensures groups == DayGroups(m, dayIndex)
    ensures dayCollisions == CollisionsOf(groups)
    ensures forall i, p :: 0 <= i < |groups| && 0 <= p < |groups[i]| ==>
      groups[i][p].id in info && info[groups[i][p].id] == ColumnInfo(p, |groups[i]|)
    ensures forall id :: id in info <==> id in info0 || InGroups(groups, id)
    ensures forall id :: id in info0 && !InGroups(groups, id) ==> info[id] == info0[id]
  {
    var dayBlocks := CollectDay(m, dayIndex);
    var dayGroups := GroupBlocks(dayBlocks);
    GroupAllDistinct(dayBlocks);
    dayCollisions := CollisionsOf(dayGroups);
    info := AssignColumns(info0, dayGroups);
    groups := dayGroups;
  }

  // ---------------------------------------------------------------------
  // The layout of a schedule satisfies what the walk relies on

  lemma PlacedIsConverted(blocks: seq<Block>, p: Placed)
    requires p in ConvertAll(blocks)
    ensures p == Convert(p.block)
  {
    var i :| 0 <= i < |blocks| && ConvertAll(blocks)[i] == p;
  }

  /** Entries with the same block id lie in the same weekday and carry the
      same start, because the id holds the day and the start time. */
  lemma SameKeySamePlace(blocks: seq<Block>, t1: nat, d1: int, x1: Item, t2: nat, d2: int, x2: Item)
    requires x1 in Cell(ConvertAll(blocks), t1, d1) && x2 in Cell(ConvertAll(blocks), t2, d2)
    requires Key(x1.block) == Key(x2.block)
    ensures d1 == d2 && x1.startMinutes == x2.startMinutes
  {
    var ps := ConvertAll(blocks);
    var p1 :| p1 in ps && Lands(p1, t1, d1) && x1 == PlaceItem(p1, t1);
    var p2 :| p2 in ps && Lands(p2, t2, d2) && x2 == PlaceItem(p2, t2);
    PlacedIsConverted(blocks, p1);
    PlacedIsConverted(blocks, p2);
    assert x1.block.dia == x2.block.dia && x1.block.horaIni == x2.block.horaIni;
  }

  /** y was collected from an entry of weekday d's column. */
  ghost predicate InColumn(m: array2<seq<Item>>, d: nat, y: BlockInfo)
    requires d < m.Length1
    reads m
  {
    exists t, x :: 0 <= t < m.Length0 && x in m[t, d] && y == InfoOf(x)
  }

  /** No id is in two of a day's collision groups, or twice in one. */
  lemma DayCollisionsDistinct(m: array2<seq<Item>>, d: nat)
    requires d < m.Length1
    ensures CollisionsDistinct(CollisionsOf(DayGroups(m, d)))
  {
    var infos := DayBlocks(ColumnOf(m, d));
    GroupAllDistinct(infos);
    CollisionsOfDistinct(GroupAll(infos));
  }

  /** A collision group's member comes from its day's column and starts no
      earlier than the group. */
  lemma CollisionMember(m: array2<seq<Item>>, d: nat, g: CollisionGroup, y: BlockInfo)
    requires d < m.Length1 && g in CollisionsOf(DayGroups(m, d)) && y in g.blocks
    ensures g.start <= y.start && InColumn(m, d, y)
  {
    var column := ColumnOf(m, d);
    var infos := DayBlocks(column);
    var groups := GroupAll(infos);
    CollisionsOfSound(groups);
    assert g.blocks in groups;
    GroupAllDistinct(infos);
    assert y in infos;
    var t, x :| 0 <= t < |column| && x in column[t] && y == InfoOf(x);
    assert x in m[t, d];
  }

  /** Entries sit at or below their block's first row, and one block id
      has one weekday and one start. */
  lemma CellsWellPlaced(blocks: seq<Block>, layout: Layout)
    requires Shaped(layout)
    requires forall t, d :: 0 <= t < SlotCount && 0 <= d < DayCount ==> layout.cells[t][d] == Cell(ConvertAll(blocks), t, d)
    ensures forall t, d, x :: 0 <= t < SlotCount && 0 <= d < DayCount && x in layout.cells[t][d] ==> x.startMinutes <= SlotMinutes(t)
    ensures KeysConsistent(layout)
  {
    forall t: int, d: int, x: Item | 0 <= t < SlotCount && 0 <= d < DayCount && x in layout.cells[t][d]
      ensures x.startMinutes <= SlotMinutes(t)
    {
      assert x in Cell(ConvertAll(blocks), t, d);
    }
    forall t1: int, d1: int, t2: int, d2: int, x1: Item, x2: Item |
      0 <= t1 < SlotCount && 0 <= d1 < DayCount && 0 <= t2 < SlotCount && 0 <= d2 < DayCount
      && x1 in layout.cells[t1][d1] && x2 in layout.cells[t2][d2] && Key(x1.block) == Key(x2.block)
      ensures d1 == d2 && x1.startMinutes == x2.startMinutes
    {
      SameKeySamePlace(blocks, t1, d1, x1, t2, d2, x2);
    }
  }

  /** The collision groups' requirements, day by day. */
  lemma CollisionsWellFormed(m: array2<seq<Item>>, layout: Layout)
    requires m.Length0 == SlotCount && m.Length1 == DayCount
    requires layout.cells == Snapshot(m) && |layout.collisions| == DayCount
    requires forall d :: 0 <= d < DayCount ==> layout.collisions[d] == CollisionsOf(DayGroups(m, d))
    ensures Shaped(layout)
    ensures forall d :: 0 <= d < DayCount ==> CollisionsDistinct(layout.collisions[d])
    ensures GroupsFromColumns(layout)
  {
    assert Shaped(layout);
    forall d | 0 <= d < DayCount
      ensures CollisionsDistinct(layout.collisions[d])
    {
      DayCollisionsDistinct(m, d);
    }
    forall d | 0 <= d < DayCount
      ensures GroupsFromColumn(layout, d)
    {
      DayFromColumn(m, layout, d);
    }
  }

  lemma DayFromColumn(m: array2<seq<Item>>, layout: Layout, d: nat)
    requires m.Length0 == SlotCount && m.Length1 == DayCount && d < DayCount
    requires layout.cells == Snapshot(m) && Shaped(layout)
    requires layout.collisions[d] == CollisionsOf(DayGroups(m, d))
    ensures GroupsFromColumn(layout, d)
  {
    forall g, y | g in layout.collisions[d] && y in g.blocks
      ensures g.start <= y.start && FromColumn(layout, d, y)
    {
      MemberFromColumn(m, layout, d, g, y);
    }
  }

  lemma MemberFromColumn(m: array2<seq<Item>>, layout: Layout, d: nat, g: CollisionGroup, y: BlockInfo)
    requires m.Length0 == SlotCount && m.Length1 == DayCount && d < DayCount
    requires layout.cells == Snapshot(m) && Shaped(layout)
    requires g in CollisionsOf(DayGroups(m, d)) && y in g.blocks
    ensures g.start <= y.start && FromColumn(layout, d, y)
  {
    CollisionMember(m, d, g, y);
    var t, x :| 0 <= t < SlotCount && x in m[t, d] && y == InfoOf(x);
    EntryInColumn(m, layout, t, d, x);
  }

  /** An entry of the matrix is an entry of its snapshot. */
  lemma EntryInColumn(m: array2<seq<Item>>, layout: Layout, t: nat, d: nat, x: Item)
    requires m.Length0 == SlotCount && m.Length1 == DayCount && |layout.collisions| == DayCount
    requires layout.cells == Snapshot(m) && t < SlotCount && d < DayCount && x in m[t, d]
    ensures Shaped(layout) && FromColumn(layout, d, InfoOf(x))
  {
    var i :| 0 <= i < |m[t, d]| && m[t, d][i] == x;
    assert layout.cells[t][d][i] == x;
  }

  /** The matrix displaySchedule fills and the collision groups it derives
      meet the walk's requirements. */
  lemma LayoutWellFormed(blocks: seq<Block>, m: array2<seq<Item>>, collisionGroups: seq<seq<CollisionGroup>>)
    requires m.Length0 == SlotCount && m.Length1 == DayCount
    requires forall t, d :: 0 <= t < SlotCount && 0 <= d < DayCount ==> m[t, d] == Cell(ConvertAll(blocks), t, d)
    requires |collisionGroups| == DayCount && forall d :: 0 <= d < DayCount ==> collisionGroups[d] == CollisionsOf(DayGroups(m, d))
    ensures WellFormed(Layout(Snapshot(m), collisionGroups))
  {
    var layout := Layout(Snapshot(m), collisionGroups);
    CollisionsWellFormed(m, layout);
    CellsWellPlaced(blocks, layout);
    Assemble(layout);
  }

  lemma Assemble(layout: Layout)
    requires Shaped(layout)
    requires forall t, d, x :: 0 <= t < SlotCount && 0 <= d < DayCount && x in layout.cells[t][d] ==> x.startMinutes <= SlotMinutes(t)
    requires KeysConsistent(layout)
    requires forall d :: 0 <= d < DayCount ==> CollisionsDistinct(layout.collisions[d])
    requires GroupsFromColumns(layout)
    ensures WellFormed(layout)
  {
  }

  /** A block id lies in one weekday column. */
  lemma OneDayPerId(blocks: seq<Block>, m: array2<seq<Item>>)
    requires m.Length0 == SlotCount && m.Length1 == DayCount
    requires forall t, d :: 0 <= t < SlotCount && 0 <= d < DayCount ==> m[t, d] == Cell(ConvertAll(blocks), t, d)
    ensures IdsOneDay(m)
  {
    forall t1, d1, t2, d2, x1, x2 |
      0 <= t1 < SlotCount && 0 <= d1 < DayCount && 0 <= t2 < SlotCount && 0 <= d2 < DayCount
      && x1 in m[t1, d1] && x2 in m[t2, d2] && Key(x1.block) == Key(x2.block)
      ensures d1 == d2
    {
      SameKeySamePlace(blocks, t1, d1, x1, t2, d2, x2);
    }
  }

  /** What weekday d's column holds once the blocks are placed. */
  ghost function Column(blocks: seq<Block>, d: nat): seq<seq<Item>> {
    seq(SlotCount, t requires 0 <= t < SlotCount => Cell(ConvertAll(blocks), t, d))
  }

  /** The matrix and the collision groups displaySchedule derives from a
      schedule's blocks. */
  ghost function LayoutOf(blocks: seq<Block>): (layout: Layout)
    ensures Shaped(layout)
  {
    Layout(seq(SlotCount, t requires 0 <= t < SlotCount => seq(DayCount, d requires 0 <= d < DayCount => Cell(ConvertAll(blocks), t, d))),
           seq(DayCount, d requires 0 <= d < DayCount => CollisionsOf(GroupAll(DayBlocks(Column(blocks, d))))))
  }

  /** The filled matrix and the derived collision groups are LayoutOf. */
  lemma SnapshotIsLayout(blocks: seq<Block>, m: array2<seq<Item>>, collisionGroups: seq<seq<CollisionGroup>>)
    requires m.Length0 == SlotCount && m.Length1 == DayCount
    requires forall t, d :: 0 <= t < SlotCount && 0 <= d < DayCount ==> m[t, d] == Cell(ConvertAll(blocks), t, d)
    requires |collisionGroups| == DayCount
    requires forall d :: 0 <= d < DayCount ==> collisionGroups[d] == CollisionsOf(GroupAll(DayBlocks(Column(blocks, d))))
    ensures Layout(Snapshot(m), collisionGroups) == LayoutOf(blocks)
  {
    var layout := LayoutOf(blocks);
    forall t | 0 <= t < SlotCount
      ensures Snapshot(m)[t] == layout.cells[t]
    {
      assert forall d :: 0 <= d < DayCount ==> Snapshot(m)[t][d] == layout.cells[t][d];
    }
  }

  /** displaySchedule: the table body for a schedule's blocks. Every cell is
      the one the walk emits at its position (Render.CellAt), hence one its
      position allows given the placed blocks and the day's collision
      groups; no block id is shown at two positions and no collision group
      twice; the time column labels every third row. */
  method DisplaySchedule(blocks: seq<Block>) returns (times: seq<string>, grid: seq<seq<GridCell>>)
    ensures |times| == SlotCount && forall t :: 0 <= t < SlotCount ==> times[t] == (if t % 3 == 0 then SlotLabel(t) else "")
    ensures |grid| == SlotCount && forall t :: 0 <= t < SlotCount ==> |grid[t]| == DayCount
    ensures forall t, d :: 0 <= t < SlotCount && 0 <= d < DayCount ==>
      CellFacts(Cell(ConvertAll(blocks), t, d), CollisionsOf(GroupAll(DayBlocks(Column(blocks, d)))), SlotMinutes(t), grid[t][d])
    ensures forall t1, d1, t2, d2 :: InGrid(grid, t1, d1) && InGrid(grid, t2, d2) && (t1 != t2 || d1 != d2) ==>
      Shown(grid[t1][d1]) !! Shown(grid[t2][d2])
      && (grid[t1][d1].Collision? && grid[t2][d2].Collision? ==> KeyAt(d1, grid[t1][d1]) != KeyAt(d2, grid[t2][d2]))
    ensures forall t, d :: 0 <= t < SlotCount && 0 <= d < DayCount ==> grid[t][d] == CellAt(LayoutOf(blocks), t, d)
  {
    var m := PlaceBlocks(blocks);
    var collisionGroups, blockColumnInfo, groupsPerDay := LayoutDays(m);
    LayoutWellFormed(blocks, m, collisionGroups);
    times, grid := RenderGrid(m, collisionGroups);
    forall d | 0 <= d < DayCount
      ensures collisionGroups[d] == CollisionsOf(GroupAll(DayBlocks(Column(blocks, d))))
    {
      assert ColumnOf(m, d) == Column(blocks, d);
    }
    SnapshotIsLayout(blocks, m, collisionGroups);
  }

  // ---------------------------------------------------------------------
  // Blocks the walk never shows
  //
  // A collision group starts at its earliest member's start. When that start
  // is not a row of the axis, the group is never emitted; if two of its
  // members then start in the same cell, both are marked rendered without a
  // cell of their own, and every later row sees them as continuing.

  /** What LayoutOf holds at one position. */
  lemma LayoutOfAt(blocks: seq<Block>, t: nat, d: nat)
    requires t < SlotCount && d < DayCount
    ensures LayoutOf(blocks).cells[t][d] == Cell(ConvertAll(blocks), t, d)
    ensures LayoutOf(blocks).collisions[d] == CollisionsOf(GroupAll(DayBlocks(Column(blocks, d))))
  {
  }

  /** A collision group of distinct blocks has at least two members with
      distinct ids, each one of the blocks, and starts at the earliest. */
  lemma CollisionFromInfos(infos: seq<BlockInfo>, g: CollisionGroup)
    requires DistinctIds(infos) && g in CollisionsOf(GroupAll(infos))
    ensures |g.blocks| > 1 && g.blocks[0].id != g.blocks[1].id && g.start == MinStart(g.blocks)
    ensures forall y :: y in g.blocks ==> y in infos
  {
    var groups := GroupAll(infos);
    CollisionsOfSound(groups);
    GroupAllDistinct(infos);
    var i :| 0 <= i < |groups| && groups[i] == g.blocks;
    assert groups[i][0].id != groups[i][1].id;
  }

  /** Two Monday blocks with distinct ids, at 08:05-08:40 and 08:10-08:50. */
  ghost predicate OffGridPair(a: Block, b: Block) {
    Convert(a) == Placed(a, Some(485), Some(520), 0)
    && Convert(b) == Placed(b, Some(490), Some(530), 0)
    && Key(a) != Key(b)
  }

  /** Every entry of their matrix is one of the two, on Monday, below the
      first row. */
  lemma OffGridEntry(a: Block, b: Block, t: nat, d: nat, x: Item)
    requires OffGridPair(a, b) && x in Cell(ConvertAll([a, b]), t, d)
    ensures d == 0 && t > 0
    ensures InfoOf(x) == BlockInfo(Key(a), a, 485, 520) || InfoOf(x) == BlockInfo(Key(b), b, 490, 530)
  {
    var p :| p in ConvertAll([a, b]) && Lands(p, t, d) && x == PlaceItem(p, t);
    assert p == Convert(a) || p == Convert(b);
  }

  /** The first row of their matrix is empty. */
  lemma OffGridFirstRow(a: Block, b: Block, d: nat)
    requires OffGridPair(a, b) && d < DayCount
    ensures LayoutOf([a, b]).cells[0][d] == []
  {
    var items := LayoutOf([a, b]).cells[0][d];
    if items != [] {
      OffGridEntry(a, b, 0, d, items[0]);
      assert false;
    }
  }

  /** A block collected for a day of their matrix is one of the two. */
  lemma OffGridInfo(a: Block, b: Block, d: nat, y: BlockInfo)
    requires OffGridPair(a, b) && d < DayCount && y in DayBlocks(Column([a, b], d))
    ensures y == BlockInfo(Key(a), a, 485, 520) || y == BlockInfo(Key(b), b, 490, 530)
  {
    var column := Column([a, b], d);
    var t, x :| 0 <= t < |column| && x in column[t] && y == InfoOf(x);
    OffGridEntry(a, b, t, d, x);
  }

  /** Every collision group of their layout starts at 08:05. */
  lemma OffGridCollision(a: Block, b: Block, d: nat, g: CollisionGroup)
    requires OffGridPair(a, b) && d < DayCount && g in LayoutOf([a, b]).collisions[d]
    ensures g.start == 485
  {
    var infos := DayBlocks(Column([a, b], d));
    LayoutOfAt([a, b], 0, d);
    CollisionFromInfos(infos, g);
    var y0, y1 := g.blocks[0], g.blocks[1];
    OffGridInfo(a, b, d, y0);
    OffGridInfo(a, b, d, y1);
    var ya := if y0.id == Key(a) then y0 else y1;
    assert ya in g.blocks && ya.start == 485;
    var z :| z in g.blocks && z.start == g.start;
    OffGridInfo(a, b, d, z);
  }

  /** A block starting after 08:00 and covering 08:10 starts in the second
      row. */
  lemma SecondRowStart(p: Placed)
    requires p.start.Some? && p.end.Some? && 480 < p.start.value <= 490 < p.end.value
    ensures Covers(p, 1) && PlaceItem(p, 1) == Item(p.block, true, p.start.value, p.end.value)
  {
    assert !Covers(p, 0) && !CoveredBefore(p, 0);
  }

  /** Two distinct blocks starting in one cell with nothing rendered: the
      cell gets none of its own and both become rendered. */
  lemma BothStarting(xa: Item, xb: Item)
    requires xa.isStart && xb.isStart && Key(xa.block) != Key(xb.block)
    ensures var starting := Starting([xa, xb], {});
      |starting| >= 2 && KeysOf(starting) == {Key(xa.block), Key(xb.block)}
  {
    var starting := Starting([xa, xb], {});
    assert xa in starting && xb in starting;
    var i :| 0 <= i < |starting| && starting[i] == xa;
    var j :| 0 <= j < |starting| && starting[j] == xb;
    assert i != j;
    assert forall x :: x in starting ==> x == xa || x == xb;
  }

  /** Without a collision group, a cell shows no block of ids when it has no
      entries or ids are all rendered. */
  lemma NothingNewShown(items: seq<Item>, cs: seq<CollisionGroup>, d: int, minutes: int, r: Rendered, ids: set<BlockId>)
    requires FindCollision(cs, d, minutes, r.groups).None?
    requires items == [] || ids <= r.blocks
    ensures Shown(CellOf(items, cs, d, minutes, r)) !! ids
  {
    CellOfShows(items, cs, d, minutes, r);
  }

  /** 08:05 is no row of the axis. */
  lemma OffAxis(t: int)
    ensures SlotMinutes(t) != 485
  {
    if t <= 0 {
    } else {
      assert SlotMinutes(t) >= 490;
    }
  }

  /** What the walk over their layout depends on: an empty first row, both
      blocks starting at once in the second row on Monday, and collision
      groups that all start at 08:05. */
  ghost predicate OffGridLayout(layout: Layout, a: Block, b: Block) {
    && Shaped(layout) && Key(a) != Key(b)
    && (forall d :: 0 <= d < DayCount ==> layout.cells[0][d] == [])
    && layout.cells[1][0] == [Item(a, true, 485, 520), Item(b, true, 490, 530)]
    && (forall d, g :: 0 <= d < DayCount && g in layout.collisions[d] ==> g.start == 485)
  }

  /** The pair's layout is such a layout. */
  lemma OffGridLayoutOf(a: Block, b: Block)
    requires OffGridPair(a, b)
    ensures OffGridLayout(LayoutOf([a, b]), a, b)
  {
    var layout := LayoutOf([a, b]);
    forall d | 0 <= d < DayCount
      ensures layout.cells[0][d] == []
    {
      OffGridFirstRow(a, b, d);
    }
    var ps := ConvertAll([a, b]);
    assert ps[..0] == [] && ps[..2] == ps;
    CellStep(ps, 0, 1, 0);
    CellStep(ps, 1, 1, 0);
    assert ps[0] == Convert(a) && ps[1] == Convert(b);
    SecondRowStart(ps[0]);
    SecondRowStart(ps[1]);
    LayoutOfAt([a, b], 1, 0);
    forall d, g | 0 <= d < DayCount && g in layout.collisions[d]
      ensures g.start == 485
    {
      OffGridCollision(a, b, d, g);
    }
  }

  /** No collision group starts at a row. */
  lemma OffGridNoCollision(layout: Layout, a: Block, b: Block, t: nat, d: nat, r: Rendered)
    requires OffGridLayout(layout, a, b) && t < SlotCount && d < DayCount
    ensures FindCollision(layout.collisions[d], d, SlotMinutes(t), r.groups).None?
  {
    var found := FindCollision(layout.collisions[d], d, SlotMinutes(t), r.groups);
    if found.Some? {
      OffAxis(t);
      assert false;
    }
  }

  /** Nothing is rendered through the first row. */
  lemma {:induction false} OffGridQuiet(layout: Layout, a: Block, b: Block, d: nat)
    requires OffGridLayout(layout, a, b) && d <= DayCount
    ensures StateAt(layout, 0, d) == Rendered({}, {})
  {
    if d > 0 {
      OffGridQuiet(layout, a, b, d - 1);
      OffGridNoCollision(layout, a, b, 0, d - 1, Rendered({}, {}));
      assert KeysOf(Starting([], {})) == {};
    }
  }

  /** At 08:10 on Monday both blocks start at once: the walk emits no cell
      there and marks both rendered. */
  lemma OffGridBoth(layout: Layout, a: Block, b: Block)
    requires OffGridLayout(layout, a, b)
    ensures CellAt(layout, 1, 0) == Covered
    ensures StateAt(layout, 1, 1).blocks == {Key(a), Key(b)}
  {
    var xa, xb := Item(a, true, 485, 520), Item(b, true, 490, 530);
    OffGridQuiet(layout, a, b, DayCount);
    assert StateAt(layout, 1, 0) == Rendered({}, {});
    OffGridNoCollision(layout, a, b, 1, 0, Rendered({}, {}));
    BothStarting(xa, xb);
  }

  /** Neither block is shown at position (t, d). */
  lemma OffGridHidden(layout: Layout, a: Block, b: Block, t: nat, d: nat)
    requires OffGridLayout(layout, a, b) && t < SlotCount && d < DayCount
    ensures Key(a) !in Shown(CellAt(layout, t, d)) && Key(b) !in Shown(CellAt(layout, t, d))
  {
    var r := StateAt(layout, t, d);
    OffGridNoCollision(layout, a, b, t, d, r);
    if t == 1 && d == 0 {
      OffGridBoth(layout, a, b);
    } else {
      if t > 0 {
        OffGridBoth(layout, a, b);
        StateGrows(layout, 1, 1, t, d);
      }
      NothingNewShown(layout.cells[t][d], layout.collisions[d], d, SlotMinutes(t), r, {Key(a), Key(b)});
    }
  }

  /** Two overlapping Monday blocks at 08:05-08:40 and 08:10-08:50 are never
      shown: no cell of the walk holds either. */
  lemma OffGridLost(a: Block, b: Block, t: nat, d: nat)
    requires OffGridPair(a, b) && t < SlotCount && d < DayCount
    ensures Key(a) !in Shown(CellAt(LayoutOf([a, b]), t, d)) && Key(b) !in Shown(CellAt(LayoutOf([a, b]), t, d))
  {
    OffGridLayoutOf(a, b);
    OffGridHidden(LayoutOf([a, b]), a, b, t, d);
  }

  /** A block with no day label and zero-padded times is placed on Monday
      at those minutes. */
  lemma ConvertPadded(b: Block, h0: nat, m0: nat, h1: nat, m1: nat)
    requires h0 < 100 && m0 < 100 && h1 < 100 && m1 < 100
    requires b.dia == "" && b.horaIni == Pad2(h0) + ":" + Pad2(m0) && b.horaFin == Pad2(h1) + ":" + Pad2(m1)
    ensures Convert(b) == Placed(b, Some(h0 * 60 + m0), Some(h1 * 60 + m1), 0)
  {
    DayIndexSpec("");
    PaddedTime(h0, m0);
    PaddedTime(h1, m1);
  }

  /** Such a pair: two groups of one course meeting on Monday, at 08:05 and
      08:10. */
  lemma OffGridExample()
    ensures OffGridPair(Block("MAT1610", "Calculo", 1, 1, "", "08:05", "08:40", "San Joaquin"),
                        Block("MAT1610", "Calculo", 1, 2, "", "08:10", "08:50", "San Joaquin"))
  {
    assert Pad2(8) + ":" + Pad2(5) == "08:05";
    assert Pad2(8) + ":" + Pad2(40) == "08:40";
    assert Pad2(8) + ":" + Pad2(10) == "08:10";
    assert Pad2(8) + ":" + Pad2(50) == "08:50";
    ConvertPadded(Block("MAT1610", "Calculo", 1, 1, "", "08:05", "08:40", "San Joaquin"), 8, 5, 8, 40);
    ConvertPadded(Block("MAT1610", "Calculo", 1, 2, "", "08:10", "08:50", "San Joaquin"), 8, 10, 8, 50);
  }
}
