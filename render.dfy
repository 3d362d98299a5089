/** Walking the axis row by row and weekday by weekday to emit the table's
    cells (static/app.js:702-826). */
module Render {
  import opened Wrappers
  import opened Strings
  import opened Records
  import opened TimeAxis
  import opened Placement
  import opened Grouping

  /** What one (row, weekday) position emits: an empty cell, a cell for one
      block spanning `span` rows, a merged cell for a collision group, or no
      cell at all (an earlier rowspan covers the position, or several new
      blocks start there at once). */
  datatype GridCell = Empty | Single(block: Block, span: int) | Collision(group: CollisionGroup, span: int) | Covered

  /** The identity of a rendered collision group: day, start and end. */
  datatype GroupKey = GroupKey(day: int, start: int, end: int)

  /** The matrix (row, then weekday) and the collision groups of each day. */
  datatype Layout = Layout(cells: seq<seq<seq<Item>>>, collisions: seq<seq<CollisionGroup>>)

  predicate Shaped(layout: Layout) {
    |layout.cells| == SlotCount && |layout.collisions| == DayCount
    && forall t :: 0 <= t < SlotCount ==> |layout.cells[t]| == DayCount
  }

  /** Math.ceil(n / 10). */
  function Ceil10(n: int): (r: int)
    ensures 10 * (r - 1) < n <= 10 * r
  {
    n / 10 + (if n % 10 == 0 then 0 else 1)
  }

  // ---------------------------------------------------------------------
  // The time column

  /** The text of a row's time cell: the label on the hour and the half
      hour, nothing otherwise. */
  function TimeText(time: string): string {
    if EndsWith(time, ":00") || EndsWith(time, ":30") then time else ""
  }

  /** Every third row (08:00, 08:30, 09:00, ...) shows its time. */
  lemma SlotTimeText(t: nat)
    requires t < SlotCount
    ensures TimeText(SlotLabel(t)) == (if t % 3 == 0 then SlotLabel(t) else "")
  {
    var k := t % 6;
    var tail := Pad2(k * 10);
    assert SlotLabel(t) == Pad2(8 + t / 6) + ":" + tail;
    assert tail == [DigitChar(k), '0'];
    EndsWithTime(Pad2(8 + t / 6), tail);
    assert tail == "00" <==> k == 0;
    assert tail == "30" <==> k == 3;
  }

  /** A "hh:mm" text ends with ":00" or ":30" exactly when its minutes are
      "00" or "30". */
  lemma EndsWithTime(head: string, tail: string)
    requires |tail| == 2
    ensures EndsWith(head + ":" + tail, ":00") <==> tail == "00"
    ensures EndsWith(head + ":" + tail, ":30") <==> tail == "30"
  {
    var text := head + ":" + tail;
    assert text[|text| - 3..] == ":" + tail;
    assert (":" + tail)[1..] == tail;
    assert ":00"[1..] == "00" && ":30"[1..] == "30";
  }

  // ---------------------------------------------------------------------
  // One cell

  /** The ids of a collision group's members. */
  function MemberIds(bs: seq<BlockInfo>): set<BlockId> {
    set y | y in bs :: y.id
  }

  function KeysOf(items: seq<Item>): set<BlockId> {
    set x | x in items :: Key(x.block)
  }

  /** The entries that start here and are not rendered yet. */
  function Starting(items: seq<Item>, rendered: set<BlockId>): (r: seq<Item>)
    ensures forall x :: x in r <==> x in items && x.isStart && Key(x.block) !in rendered
  {
    if items == [] then []
    else
      var rest := Starting(items[1..], rendered);
      assert forall x :: x in items <==> x == items[0] || x in items[1..];
      if items[0].isStart && Key(items[0].block) !in rendered then [items[0]] + rest else rest
  }

  /** The entries whose block is already rendered. */
  function Continuing(items: seq<Item>, rendered: set<BlockId>): (r: seq<Item>)
    ensures forall x :: x in r <==> x in items && Key(x.block) in rendered
  {
    if items == [] then []
    else
      var rest := Continuing(items[1..], rendered);
      assert forall x :: x in items <==> x == items[0] || x in items[1..];
      if Key(items[0].block) in rendered then [items[0]] + rest else rest
  }

  /** The first collision group of the day that starts at this row and has
      not been rendered. */
  function FindCollision(cs: seq<CollisionGroup>, day: int, minutes: int, groups: set<GroupKey>): (r: Option<CollisionGroup>)
    ensures r.Some? ==> r.value in cs && r.value.start == minutes && GroupKey(day, r.value.start, r.value.end) !in groups
    ensures r.None? ==> forall g :: g in cs ==> g.start != minutes || GroupKey(day, g.start, g.end) in groups
  {
    if cs == [] then None
    else if cs[0].start == minutes && GroupKey(day, cs[0].start, cs[0].end) !in groups then Some(cs[0])
    else
      var r := FindCollision(cs[1..], day, minutes, groups);
      assert forall g :: g in cs ==> g == cs[0] || g in cs[1..];
      r
  }

  /** What a cell emitted at minute `minutes` can be, whatever was rendered
      before it: a collision group of the day starting at that row, spanning
      its whole extent; a block that starts here, spanning its duration; an
      empty cell where no entry starts; no cell only where there are
      entries. */
  ghost predicate CellFacts(items: seq<Item>, cs: seq<CollisionGroup>, minutes: int, c: GridCell) {
    && (c.Collision? ==> c.group in cs && c.group.start == minutes && c.span == Ceil10(c.group.end - c.group.start))
    && (c.Single? ==> exists x :: x in items && x.isStart && x.block == c.block && c.span == Ceil10(x.endMinutes - x.startMinutes))
    && (c.Empty? ==> forall x :: x in items ==> !x.isStart)
    && (c.Covered? ==> items != [])
  }

  /** The block ids a cell shows. */
  function Shown(c: GridCell): set<BlockId> {
    match c
    case Single(b, _) => {Key(b)}
    case Collision(g, _) => MemberIds(g.blocks)
    case _ => {}
  }

  /** The block ids and the collision groups rendered so far. */
  datatype Rendered = Rendered(blocks: set<BlockId>, groups: set<GroupKey>)

  /** The cell a position emits, given what was rendered before it: a
      collision group of the day that starts at this row and is not rendered
      yet comes first. Otherwise:
      - no entries give an empty cell;
      - no new starting block but some rendered entry gives no cell;
      - no new starting block and nothing rendered give an empty cell;
      - one new starting block gives its cell, spanning its duration;
      - several new starting blocks give no cell. */
  function CellOf(items: seq<Item>, cs: seq<CollisionGroup>, d: int, minutes: int, r: Rendered): GridCell {
    match FindCollision(cs, d, minutes, r.groups)
    case Some(g) => Collision(g, Ceil10(g.end - g.start))
    case None =>
      var starting := Starting(items, r.blocks);
      if items == [] then Empty
      else if starting == [] then (if Continuing(items, r.blocks) != [] then Covered else Empty)
      else if |starting| == 1 then Single(starting[0].block, Ceil10(starting[0].endMinutes - starting[0].startMinutes))
      else Covered
  }

  /** What is rendered after the position: the collision group emitted there
      with all its members, or else every block that starts there. */
  function After(items: seq<Item>, cs: seq<CollisionGroup>, d: int, minutes: int, r: Rendered): Rendered {
    match FindCollision(cs, d, minutes, r.groups)
    case Some(g) => Rendered(r.blocks + MemberIds(g.blocks), r.groups + {GroupKey(d, g.start, g.end)})
    case None => Rendered(r.blocks + KeysOf(Starting(items, r.blocks)), r.groups)
  }

  /** One (row, weekday) position, given the rendered blocks and groups: a
      collision group starting at this row comes first; otherwise a block
      that starts here and is not rendered gets a cell with its rowspan, a
      cell whose entries are all rendered gets none, and several new blocks
      at once are marked rendered without a cell. */
  method RenderCell(cellBlocks: seq<Item>, dayCollisions: seq<CollisionGroup>, d: nat, currentMinutes: int,
                    blocks0: set<BlockId>, groups0: set<GroupKey>)
    returns (c: GridCell, blocks: set<BlockId>, groups: set<GroupKey>)
    ensures CellFacts(cellBlocks, dayCollisions, currentMinutes, c)
    ensures c.Collision? <==> FindCollision(dayCollisions, d, currentMinutes, groups0).Some?
    ensures c.Collision? ==>
      GroupKey(d, c.group.start, c.group.end) !in groups0
      && blocks == blocks0 + MemberIds(c.group.blocks) && groups == groups0 + {GroupKey(d, c.group.start, c.group.end)}
    ensures !c.Collision? ==> groups == groups0 && blocks == blocks0 + KeysOf(Starting(cellBlocks, blocks0))
    ensures c.Single? ==> Key(c.block) !in blocks0 && Key(c.block) in blocks
    ensures c.Covered? && blocks == blocks0 ==> exists x :: x in cellBlocks && Key(x.block) in blocks0
    ensures c == CellOf(cellBlocks, dayCollisions, d, currentMinutes, Rendered(blocks0, groups0))
    ensures Rendered(blocks, groups) == After(cellBlocks, dayCollisions, d, currentMinutes, Rendered(blocks0, groups0))
  {
    var collisionGroup := FindCollision(dayCollisions, d, currentMinutes, groups0);
    if collisionGroup.Some? {
      var g := collisionGroup.value;
      groups := groups0 + {GroupKey(d, g.start, g.end)};
      blocks := blocks0 + MemberIds(g.blocks);
      c := Collision(g, Ceil10(g.end - g.start));
      return;
    }
    groups := groups0;
    var startingBlocks := Starting(cellBlocks, blocks0);
    var continuingBlocks := Continuing(cellBlocks, blocks0);
    if cellBlocks == [] {
      c, blocks := Empty, blocks0;
    } else if startingBlocks == [] && continuingBlocks != [] {
      c, blocks := Covered, blocks0;
      assert continuingBlocks[0] in continuingBlocks;
    } else if startingBlocks == [] {
      c, blocks := Empty, blocks0;
    } else {
      var x := startingBlocks[0];
      assert x in startingBlocks;
      blocks := blocks0 + KeysOf(startingBlocks);
      assert Key(x.block) in blocks;
      if |startingBlocks| == 1 {
        c := Single(x.block, Ceil10(x.endMinutes - x.startMinutes));
      } else {
        c := Covered;
      }
    }
  }

  // ---------------------------------------------------------------------
  // The walk

  /** What the layout must satisfy, as displaySchedule's own matrix and
      collision groups do (Display.LayoutWellFormed): entries sit at or
      after their block's start; a block id determines its weekday and its
      start; collision group members come from their day's column and start
      no earlier than the group; no id is in two collision groups of a day. */
  ghost predicate WellFormed(layout: Layout) {
    Shaped(layout)
    && (forall t, d, x :: 0 <= t < SlotCount && 0 <= d < DayCount && x in layout.cells[t][d] ==> x.startMinutes <= SlotMinutes(t))
    && KeysConsistent(layout)
    && GroupsFromColumns(layout)
    && (forall d :: 0 <= d < DayCount ==> CollisionsDistinct(layout.collisions[d]))
  }

  /** A collision group's members start no earlier than the group and were
      collected from the group's own column. */
  ghost predicate GroupsFromColumns(layout: Layout)
    requires Shaped(layout)
  {
    forall d :: 0 <= d < DayCount ==> GroupsFromColumn(layout, d)
  }

  ghost predicate GroupsFromColumn(layout: Layout, d: nat)
    requires Shaped(layout) && d < DayCount
  {
    forall g, y :: g in layout.collisions[d] && y in g.blocks ==> g.start <= y.start && FromColumn(layout, d, y)
  }

  ghost predicate KeysConsistent(layout: Layout)
    requires Shaped(layout)
  {
    forall t1, d1, t2, d2, x1, x2 ::
      0 <= t1 < SlotCount && 0 <= d1 < DayCount && 0 <= t2 < SlotCount && 0 <= d2 < DayCount
      && x1 in layout.cells[t1][d1] && x2 in layout.cells[t2][d2] && Key(x1.block) == Key(x2.block)
      ==> d1 == d2 && x1.startMinutes == x2.startMinutes
  }

  /** y was collected from an entry of column d. */
  ghost predicate FromColumn(layout: Layout, d: nat, y: BlockInfo)
    requires Shaped(layout) && d < DayCount
  {
    exists t, i :: 0 <= t < SlotCount && 0 <= i < |layout.cells[t][d]| && y == InfoOf(layout.cells[t][d][i])
  }

  /** (t, d) is a position of the rows emitted so far. */
  ghost predicate InGrid(grid: seq<seq<GridCell>>, t: int, d: int) {
    0 <= t < |grid| && 0 <= d < |grid[t]|
  }

  ghost predicate GridFacts(layout: Layout, grid: seq<seq<GridCell>>)
    requires Shaped(layout)
  {
    |grid| <= SlotCount && (forall t :: 0 <= t < |grid| ==> |grid[t]| <= DayCount)
    && forall t, d :: InGrid(grid, t, d) ==>
      CellFacts(layout.cells[t][d], layout.collisions[d], SlotMinutes(t), grid[t][d])
  }

  function KeyAt(d: int, c: GridCell): GroupKey
    requires c.Collision?
  {
    GroupKey(d, c.group.start, c.group.end)
  }

  /** Everything shown so far is marked rendered. */
  ghost predicate Tracked(grid: seq<seq<GridCell>>, blocks: set<BlockId>, groups: set<GroupKey>) {
    forall t, d :: InGrid(grid, t, d) ==>
      Shown(grid[t][d]) <= blocks && (grid[t][d].Collision? ==> KeyAt(d, grid[t][d]) in groups)
  }

  /** No two positions show the same block id or the same collision group. */
  ghost predicate Apart(grid: seq<seq<GridCell>>) {
    forall t1, d1, t2, d2 :: InGrid(grid, t1, d1) && InGrid(grid, t2, d2) && (t1 != t2 || d1 != d2) ==>
      Shown(grid[t1][d1]) !! Shown(grid[t2][d2])
      && (grid[t1][d1].Collision? && grid[t2][d2].Collision? ==> KeyAt(d1, grid[t1][d1]) != KeyAt(d2, grid[t2][d2]))
  }

  /** A block shown in a single cell is not a member of a collision group
      emitted later: that group starts no later than the block, on the
      block's own weekday, hence at or above the block's row. */
  lemma SingleThenCollision(layout: Layout, t1: nat, d1: nat, x: Item, t2: nat, d2: nat, g: CollisionGroup)
    requires WellFormed(layout) && t1 < SlotCount && t2 < SlotCount && d1 < DayCount && d2 < DayCount
    requires x in layout.cells[t1][d1]
    requires g in layout.collisions[d2] && g.start == SlotMinutes(t2)
    requires Key(x.block) in MemberIds(g.blocks)
    ensures d1 == d2 && t2 <= t1
  {
    var y :| y in g.blocks && y.id == Key(x.block);
    assert GroupsFromColumn(layout, d2);
    assert FromColumn(layout, d2, y);
    var t', i :| 0 <= t' < SlotCount && 0 <= i < |layout.cells[t'][d2]| && y == InfoOf(layout.cells[t'][d2][i]);
    var x' := layout.cells[t'][d2][i];
    assert x' in layout.cells[t'][d2];
    assert d1 == d2 && x.startMinutes == x'.startMinutes;
    assert SlotMinutes(t2) <= SlotMinutes(t1);
  }

  /** Two collision members with the same id belong to the same day. */
  lemma MembersSameDay(layout: Layout, d1: nat, y1: BlockInfo, d2: nat, y2: BlockInfo)
    requires Shaped(layout) && KeysConsistent(layout) && d1 < DayCount && d2 < DayCount
    requires FromColumn(layout, d1, y1) && FromColumn(layout, d2, y2) && y1.id == y2.id
    ensures d1 == d2
  {
    var t1, i1 := ColumnWitness(layout, d1, y1);
    var t2, i2 := ColumnWitness(layout, d2, y2);
    SameKeySameDay(layout, t1, d1, i1, t2, d2, i2);
  }

  /** The entry a collected block comes from. */
  lemma ColumnWitness(layout: Layout, d: nat, y: BlockInfo) returns (t: nat, i: nat)
    requires Shaped(layout) && d < DayCount && FromColumn(layout, d, y)
    ensures t < SlotCount && i < |layout.cells[t][d]| && y == InfoOf(layout.cells[t][d][i])
  {
    t, i :| 0 <= t < SlotCount && 0 <= i < |layout.cells[t][d]| && y == InfoOf(layout.cells[t][d][i]);
  }

  lemma SameKeySameDay(layout: Layout, t1: nat, d1: nat, i1: nat, t2: nat, d2: nat, i2: nat)
    requires Shaped(layout) && KeysConsistent(layout) && d1 < DayCount && d2 < DayCount && t1 < SlotCount && t2 < SlotCount
    requires i1 < |layout.cells[t1][d1]| && i2 < |layout.cells[t2][d2]|
    requires Key(layout.cells[t1][d1][i1].block) == Key(layout.cells[t2][d2][i2].block)
    ensures d1 == d2
  {
    assert layout.cells[t1][d1][i1] in layout.cells[t1][d1];
    assert layout.cells[t2][d2][i2] in layout.cells[t2][d2];
  }

  /** Collision groups that share a member are the same group of the same
      day. */
  lemma CollisionsShare(layout: Layout, d1: nat, g1: CollisionGroup, d2: nat, g2: CollisionGroup, id: BlockId)
    requires WellFormed(layout) && d1 < DayCount && d2 < DayCount
    requires g1 in layout.collisions[d1] && g2 in layout.collisions[d2]
    requires id in MemberIds(g1.blocks) && id in MemberIds(g2.blocks)
    ensures d1 == d2 && g1 == g2
  {
    var p :| 0 <= p < |g1.blocks| && g1.blocks[p].id == id;
    var q :| 0 <= q < |g2.blocks| && g2.blocks[q].id == id;
    assert g1.blocks[p] in g1.blocks && g2.blocks[q] in g2.blocks;
    assert GroupsFromColumn(layout, d1) && GroupsFromColumn(layout, d2);
    MembersSameDay(layout, d1, g1.blocks[p], d2, g2.blocks[q]);
    SameCollision(layout.collisions[d1], g1, g2, p, q);
  }

  /** Within one day, two collision groups sharing a member are the same. */
  lemma SameCollision(cs: seq<CollisionGroup>, g1: CollisionGroup, g2: CollisionGroup, p: nat, q: nat)
    requires CollisionsDistinct(cs) && g1 in cs && g2 in cs
    requires p < |g1.blocks| && q < |g2.blocks| && g1.blocks[p].id == g2.blocks[q].id
    ensures g1 == g2
  {
    var k1 :| 0 <= k1 < |cs| && cs[k1] == g1;
    var k2 :| 0 <= k2 < |cs| && cs[k2] == g2;
  }

  /** A new cell at the next position (t, d) shows nothing shown before and
      is not a collision group shown before. */
  lemma NewCellApart(layout: Layout, grid: seq<seq<GridCell>>, blocks: set<BlockId>, groups: set<GroupKey>,
                     t: nat, d: nat, c: GridCell, t1: nat, d1: nat)
    requires WellFormed(layout) && GridFacts(layout, grid) && Tracked(grid, blocks, groups)
    requires t < SlotCount && d < DayCount
    requires CellFacts(layout.cells[t][d], layout.collisions[d], SlotMinutes(t), c)
    requires c.Collision? ==> KeyAt(d, c) !in groups
    requires c.Single? ==> Key(c.block) !in blocks
    requires InGrid(grid, t1, d1) && (t1 < t || (t1 == t && d1 < d))
    ensures Shown(grid[t1][d1]) !! Shown(c)
    ensures grid[t1][d1].Collision? && c.Collision? ==> KeyAt(d1, grid[t1][d1]) != KeyAt(d, c)
  {
    var c1 := grid[t1][d1];
    assert CellFacts(layout.cells[t1][d1], layout.collisions[d1], SlotMinutes(t1), c1);
    if c.Collision? {
      forall id | id in Shown(c1) && id in Shown(c) ensures false {
        if c1.Single? {
          var x :| x in layout.cells[t1][d1] && x.isStart && x.block == c1.block;
          SingleThenCollision(layout, t1, d1, x, t, d, c.group);
        } else {
          CollisionsShare(layout, d1, c1.group, d, c.group, id);
        }
      }
    }
  }

  /** Appending a cell at the next position keeps the walk's invariants. */
  lemma AddCell(layout: Layout, done: seq<seq<GridCell>>, row: seq<GridCell>, blocks0: set<BlockId>, groups0: set<GroupKey>,
                c: GridCell, blocks: set<BlockId>, groups: set<GroupKey>)
    requires WellFormed(layout) && |done| < SlotCount && |row| < DayCount
    requires forall t :: 0 <= t < |done| ==> |done[t]| == DayCount
    requires RowWalked(layout, done, row, blocks0, groups0)
    requires CellFacts(layout.cells[|done|][|row|], layout.collisions[|row|], SlotMinutes(|done|), c)
    requires c.Collision? ==> KeyAt(|row|, c) !in groups0 && KeyAt(|row|, c) in groups
    requires c.Single? ==> Key(c.block) !in blocks0
    requires Shown(c) <= blocks && blocks >= blocks0 && groups >= groups0
    ensures RowWalked(layout, done, row + [c], blocks, groups)
  {
    var grid, grid' := done + [row], done + [row + [c]];
    var t, d := |done|, |row|;
    NextPosition(done, row, c);
    AddCellFacts(layout, grid, grid', t, d, c);
    AddCellTracked(grid, grid', t, d, c, blocks0, groups0, blocks, groups);
    forall t1, d1 | InGrid(grid, t1, d1)
      ensures Shown(grid[t1][d1]) !! Shown(c)
      ensures grid[t1][d1].Collision? && c.Collision? ==> KeyAt(d1, grid[t1][d1]) != KeyAt(d, c)
    {
      NewCellApart(layout, grid, blocks0, groups0, t, d, c, t1, d1);
    }
    AddCellApart(grid, grid', t, d, c);
  }

  /** The positions after appending c at (|done|, |row|): the old ones,
      unchanged, and the new one. */
  ghost predicate Extends(grid: seq<seq<GridCell>>, grid': seq<seq<GridCell>>, t: int, d: int, c: GridCell) {
    InGrid(grid', t, d) && grid'[t][d] == c && !InGrid(grid, t, d)
    && (forall t1, d1 :: InGrid(grid, t1, d1) ==> InGrid(grid', t1, d1) && grid'[t1][d1] == grid[t1][d1])
    && (forall t1, d1 :: InGrid(grid', t1, d1) ==> (t1 == t && d1 == d) || InGrid(grid, t1, d1))
  }

  lemma NextPosition(done: seq<seq<GridCell>>, row: seq<GridCell>, c: GridCell)
    ensures Extends(done + [row], done + [row + [c]], |done|, |row|, c)
  {
    var grid, grid' := done + [row], done + [row + [c]];
    forall t1, d1 | InGrid(grid, t1, d1)
      ensures InGrid(grid', t1, d1) && grid'[t1][d1] == grid[t1][d1]
    {
      if t1 == |done| {
        assert grid'[t1] == row + [c] && grid[t1] == row;
      }
    }
  }

  lemma AddCellFacts(layout: Layout, grid: seq<seq<GridCell>>, grid': seq<seq<GridCell>>, t: nat, d: nat, c: GridCell)
    requires Shaped(layout) && t < SlotCount && d < DayCount
    requires |grid'| <= SlotCount && (forall t1 :: 0 <= t1 < |grid'| ==> |grid'[t1]| <= DayCount)
    requires GridFacts(layout, grid) && Extends(grid, grid', t, d, c)
    requires CellFacts(layout.cells[t][d], layout.collisions[d], SlotMinutes(t), c)
    ensures GridFacts(layout, grid')
  {
  }

  lemma AddCellTracked(grid: seq<seq<GridCell>>, grid': seq<seq<GridCell>>, t: int, d: int, c: GridCell,
                       blocks0: set<BlockId>, groups0: set<GroupKey>, blocks: set<BlockId>, groups: set<GroupKey>)
    requires Tracked(grid, blocks0, groups0) && Extends(grid, grid', t, d, c)
    requires c.Collision? ==> KeyAt(d, c) in groups
    requires Shown(c) <= blocks && blocks >= blocks0 && groups >= groups0
    ensures Tracked(grid', blocks, groups)
  {
  }

  lemma AddCellApart(grid: seq<seq<GridCell>>, grid': seq<seq<GridCell>>, t: int, d: int, c: GridCell)
    requires Apart(grid) && Extends(grid, grid', t, d, c)
    requires forall t1, d1 :: InGrid(grid, t1, d1) ==>
      (Shown(grid[t1][d1]) !! Shown(c)
       && (grid[t1][d1].Collision? && c.Collision? ==> KeyAt(d1, grid[t1][d1]) != KeyAt(d, c)))
    ensures Apart(grid')
  {
  }

  /** Walked, part-way through the next row. */
  ghost predicate RowWalked(layout: Layout, done: seq<seq<GridCell>>, row: seq<GridCell>, blocks: set<BlockId>, groups: set<GroupKey>)
    requires Shaped(layout)
  {
    GridFacts(layout, done + [row]) && Tracked(done + [row], blocks, groups) && Apart(done + [row])
  }

  /** An empty row adds no position. */
  lemma StartRow(layout: Layout, done: seq<seq<GridCell>>, blocks: set<BlockId>, groups: set<GroupKey>)
    requires Shaped(layout) && |done| < SlotCount && Walked(layout, done, blocks, groups)
    ensures RowWalked(layout, done, [], blocks, groups)
  {
    assert forall t1, d1 :: InGrid(done + [[]], t1, d1) <==> InGrid(done, t1, d1);
    assert forall t1, d1 :: InGrid(done, t1, d1) ==> (done + [[]])[t1][d1] == done[t1][d1];
  }

  /** A full row completes the walk over it. */
  lemma FinishRow(layout: Layout, done: seq<seq<GridCell>>, row: seq<GridCell>, blocks0: set<BlockId>, groups0: set<GroupKey>,
                  blocks: set<BlockId>, groups: set<GroupKey>)
    requires Shaped(layout) && Walked(layout, done, blocks0, groups0)
    requires |row| == DayCount && RowWalked(layout, done, row, blocks, groups)
    ensures Walked(layout, done + [row], blocks, groups)
  {
  }

  /** What the walk knows after the rows of grid: every emitted cell is one
      its position allows, everything shown is marked rendered, and nothing
      is shown twice. */
  ghost predicate Walked(layout: Layout, grid: seq<seq<GridCell>>, blocks: set<BlockId>, groups: set<GroupKey>)
    requires Shaped(layout)
  {
    (forall t :: 0 <= t < |grid| ==> |grid[t]| == DayCount)
    && GridFacts(layout, grid) && Tracked(grid, blocks, groups) && Apart(grid)
  }

  /** What is rendered before row t, weekday d of the walk: the positions
      are taken row by row and, within a row, weekday by weekday, and the
      end of a row (d == DayCount) is the start of the next. */
  ghost function StateAt(layout: Layout, t: nat, d: nat): Rendered
    requires Shaped(layout) && t < SlotCount && d <= DayCount
    decreases t, d
  {
    if d > 0 then After(layout.cells[t][d - 1], layout.collisions[d - 1], d - 1, SlotMinutes(t), StateAt(layout, t, d - 1))
    else if t == 0 then Rendered({}, {})
    else StateAt(layout, t - 1, DayCount)
  }

  /** The cell the walk emits at row t and weekday d. */
  ghost function CellAt(layout: Layout, t: nat, d: nat): GridCell
    requires Shaped(layout) && t < SlotCount && d < DayCount
  {
    CellOf(layout.cells[t][d], layout.collisions[d], d, SlotMinutes(t), StateAt(layout, t, d))
  }

  /** The first |row| cells of row t are the walk's, and r is what is
      rendered after them. */
  ghost predicate RowSoFar(layout: Layout, t: nat, row: seq<GridCell>, r: Rendered)
    requires Shaped(layout) && t < SlotCount
  {
    |row| <= DayCount && r == StateAt(layout, t, |row|)
    && forall d :: 0 <= d < |row| ==> row[d] == CellAt(layout, t, d)
  }

  /** A row starts from what the rows above it rendered. */
  lemma RowSoFarStart(layout: Layout, t: nat, r: Rendered)
    requires Shaped(layout) && t < SlotCount && r == StateAt(layout, t, 0)
    ensures RowSoFar(layout, t, [], r)
  {
  }

  /** The cell emitted at the next position extends the row. */
  lemma RowSoFarStep(layout: Layout, t: nat, row: seq<GridCell>, r: Rendered, c: GridCell, r': Rendered)
    requires Shaped(layout) && t < SlotCount && |row| < DayCount && RowSoFar(layout, t, row, r)
    requires c == CellOf(layout.cells[t][|row|], layout.collisions[|row|], |row|, SlotMinutes(t), r)
    requires r' == After(layout.cells[t][|row|], layout.collisions[|row|], |row|, SlotMinutes(t), r)
    ensures RowSoFar(layout, t, row + [c], r')
  {
    assert c == CellAt(layout, t, |row|);
    forall d | 0 <= d < |row| + 1
      ensures (row + [c])[d] == CellAt(layout, t, d)
    {
      if d < |row| {
        assert (row + [c])[d] == row[d];
      }
    }
  }

  /** Row t of the grid is the walk's. */
  ghost predicate RowIs(layout: Layout, t: nat, row: seq<GridCell>)
    requires Shaped(layout) && t < SlotCount
  {
    |row| == DayCount && forall d :: 0 <= d < DayCount ==> row[d] == CellAt(layout, t, d)
  }

  /** The rows of grid are the walk's, and r is what is rendered after
      them. */
  ghost predicate GridSoFar(layout: Layout, grid: seq<seq<GridCell>>, r: Rendered)
    requires Shaped(layout)
  {
    |grid| <= SlotCount && (|grid| < SlotCount ==> r == StateAt(layout, |grid|, 0))
    && forall t :: 0 <= t < |grid| ==> RowIs(layout, t, grid[t])
  }

  lemma GridSoFarStart(layout: Layout)
    requires Shaped(layout)
    ensures GridSoFar(layout, [], Rendered({}, {}))
  {
  }

  /** A completed row extends the grid. */
  lemma GridSoFarStep(layout: Layout, grid: seq<seq<GridCell>>, r: Rendered, row: seq<GridCell>, r': Rendered)
    requires Shaped(layout) && |grid| < SlotCount && GridSoFar(layout, grid, r)
    requires |row| == DayCount && RowSoFar(layout, |grid|, row, r')
    ensures GridSoFar(layout, grid + [row], r')
  {
    var grid' := grid + [row];
    assert RowIs(layout, |grid|, row);
    forall t | 0 <= t < |grid'|
      ensures RowIs(layout, t, grid'[t])
    {
      if t < |grid| {
        assert grid'[t] == grid[t] && RowIs(layout, t, grid[t]);
      } else {
        assert t == |grid| && grid'[t] == row;
      }
    }
  }

  /** A finished grid holds the walk's cell at every position. */
  lemma GridSoFarAll(layout: Layout, grid: seq<seq<GridCell>>, r: Rendered)
    requires Shaped(layout) && |grid| == SlotCount && GridSoFar(layout, grid, r)
    ensures forall t, d :: 0 <= t < SlotCount && 0 <= d < DayCount ==> grid[t][d] == CellAt(layout, t, d)
  {
    forall t, d | 0 <= t < SlotCount && 0 <= d < DayCount
      ensures grid[t][d] == CellAt(layout, t, d)
    {
      assert RowIs(layout, t, grid[t]);
    }
  }

  /** The time column grows by one row's text. */
  lemma TimesStep(times: seq<string>, timeDisplay: string)
    requires |times| < SlotCount
    requires forall t :: 0 <= t < |times| ==> times[t] == (if t % 3 == 0 then SlotLabel(t) else "")
    requires timeDisplay == (if |times| % 3 == 0 then SlotLabel(|times|) else "")
    ensures forall t :: 0 <= t < |times| + 1 ==> (times + [timeDisplay])[t] == (if t % 3 == 0 then SlotLabel(t) else "")
  {
  }

  /** The rendered blocks only grow along the walk. */
  lemma {:induction false} StateGrows(layout: Layout, t1: nat, d1: nat, t2: nat, d2: nat)
    requires Shaped(layout) && t1 < SlotCount && t2 < SlotCount && d1 <= DayCount && d2 <= DayCount
    requires t1 < t2 || (t1 == t2 && d1 <= d2)
    ensures StateAt(layout, t1, d1).blocks <= StateAt(layout, t2, d2).blocks
    decreases t2, d2
  {
    if t1 == t2 && d1 == d2 {
    } else if d2 > 0 {
      StateGrows(layout, t1, d1, t2, d2 - 1);
    } else {
      StateGrows(layout, t1, d1, t2 - 1, DayCount);
    }
  }

  /** A cell shows a single block only when that block starts there and is
      not rendered yet, and a collision group only when the group starts at
      that row. */
  lemma CellOfShows(items: seq<Item>, cs: seq<CollisionGroup>, d: int, minutes: int, r: Rendered)
    ensures var c := CellOf(items, cs, d, minutes, r);
      && (c.Single? ==> Key(c.block) !in r.blocks && exists x :: x in items && x.isStart && x.block == c.block)
      && (c.Collision? ==> c.group in cs && c.group.start == minutes)
  {
    var starting := Starting(items, r.blocks);
    if FindCollision(cs, d, minutes, r.groups).None? && items != [] && |starting| == 1 {
      assert starting[0] in starting;
    }
  }

  /** One row: its time text, then the weekdays in order; the cells are the
      walk's (Render.CellAt) from the state the rows above left. */
  method RenderRow(m: array2<seq<Item>>, collisionGroups: seq<seq<CollisionGroup>>, slots: seq<string>, t: nat,
                   ghost layout: Layout, ghost done: seq<seq<GridCell>>, blocks0: set<BlockId>, groups0: set<GroupKey>)
    returns (timeDisplay: string, row: seq<GridCell>, blocks: set<BlockId>, groups: set<GroupKey>)
    requires m.Length0 == SlotCount && m.Length1 == DayCount
    requires IsAxis(slots)
    requires layout == Layout(Snapshot(m), collisionGroups) && WellFormed(layout)
    requires t == |done| < SlotCount && Walked(layout, done, blocks0, groups0)
    requires Rendered(blocks0, groups0) == StateAt(layout, t, 0)
    ensures timeDisplay == (if t % 3 == 0 then SlotLabel(t) else "")
    ensures |row| == DayCount && Walked(layout, done + [row], blocks, groups)
    ensures RowSoFar(layout, t, row, Rendered(blocks, groups))
  {
    var time := slots[t];
    SlotTimeText(t);
    timeDisplay := if EndsWith(time, ":00") || EndsWith(time, ":30") then time else "";
    var currentMinutes := 480 + 10 * t;
    StartRow(layout, done, blocks0, groups0);
    RowSoFarStart(layout, t, Rendered(blocks0, groups0));
    row, blocks, groups := [], blocks0, groups0;
    var d := 0;
    while d < DayCount
      invariant 0 <= d <= DayCount && |row| == d
      invariant RowWalked(layout, done, row, blocks, groups)
      invariant RowSoFar(layout, t, row, Rendered(blocks, groups))
    {
      var c, blocks', groups' := RenderCell(m[t, d], collisionGroups[d], d, currentMinutes, blocks, groups);
      AddCell(layout, done, row, blocks, groups, c, blocks', groups');
      RowSoFarStep(layout, t, row, Rendered(blocks, groups), c, Rendered(blocks', groups'));
      row, blocks, groups := row + [c], blocks', groups';
      d := d + 1;
    }
    FinishRow(layout, done, row, blocks0, groups0, blocks, groups);
  }

  /** The matrix as a value: row, then weekday. */
  function Snapshot(m: array2<seq<Item>>): (cells: seq<seq<seq<Item>>>)
    requires m.Length0 == SlotCount && m.Length1 == DayCount
    reads m
    ensures |cells| == SlotCount && forall t :: 0 <= t < SlotCount ==> |cells[t]| == DayCount && forall d :: 0 <= d < DayCount ==> cells[t][d] == m[t, d]
  {
    seq(SlotCount, t requires 0 <= t < SlotCount reads m => seq(DayCount, d requires 0 <= d < DayCount reads m => m[t, d]))
  }

  /** The table body: for every row its time text and its emitted cells.
      Every cell is the one the walk emits at its position (Render.CellAt),
      hence one the position allows (Render.CellFacts); no block id is shown
      at two positions and no collision group is emitted twice. */
  method RenderGrid(m: array2<seq<Item>>, collisionGroups: seq<seq<CollisionGroup>>)
    returns (times: seq<string>, grid: seq<seq<GridCell>>)
    requires m.Length0 == SlotCount && m.Length1 == DayCount
    requires WellFormed(Layout(Snapshot(m), collisionGroups))
    ensures |times| == SlotCount && forall t :: 0 <= t < SlotCount ==> times[t] == (if t % 3 == 0 then SlotLabel(t) else "")
    ensures |grid| == SlotCount && forall t :: 0 <= t < SlotCount ==> |grid[t]| == DayCount
    ensures forall t, d :: 0 <= t < SlotCount && 0 <= d < DayCount ==> CellFacts(m[t, d], collisionGroups[d], SlotMinutes(t), grid[t][d])
    ensures Apart(grid)
    ensures forall t, d :: 0 <= t < SlotCount && 0 <= d < DayCount ==> grid[t][d] == CellAt(Layout(Snapshot(m), collisionGroups), t, d)
  {
    ghost var layout := Layout(Snapshot(m), collisionGroups);
    var slots := BuildTimeSlots();
    var renderedBlocks: set<BlockId> := {};
    var renderedCollisionGroups: set<GroupKey> := {};
    times, grid := [], [];
    GridSoFarStart(layout);
    var t := 0;
    while t < SlotCount
      invariant 0 <= t <= SlotCount && |times| == t && |grid| == t
      invariant forall t' :: 0 <= t' < t ==> times[t'] == (if t' % 3 == 0 then SlotLabel(t') else "")
      invariant Walked(layout, grid, renderedBlocks, renderedCollisionGroups)
      invariant GridSoFar(layout, grid, Rendered(renderedBlocks, renderedCollisionGroups))
    {
      var timeDisplay, row;
      ghost var before := Rendered(renderedBlocks, renderedCollisionGroups);
      timeDisplay, row, renderedBlocks, renderedCollisionGroups := RenderRow(m, collisionGroups, slots, t, layout, grid, renderedBlocks, renderedCollisionGroups);
      GridSoFarStep(layout, grid, before, row, Rendered(renderedBlocks, renderedCollisionGroups));
      TimesStep(times, timeDisplay);
      times, grid := times + [timeDisplay], grid + [row];
      t := t + 1;
    }
    WalkedAll(m, collisionGroups, layout, grid, renderedBlocks, renderedCollisionGroups);
    GridSoFarAll(layout, grid, Rendered(renderedBlocks, renderedCollisionGroups));
  }

  /** Once every row is emitted, the walk's facts hold at every position. */
  lemma WalkedAll(m: array2<seq<Item>>, collisionGroups: seq<seq<CollisionGroup>>, layout: Layout, grid: seq<seq<GridCell>>,
                  blocks: set<BlockId>, groups: set<GroupKey>)
    requires m.Length0 == SlotCount && m.Length1 == DayCount
    requires layout == Layout(Snapshot(m), collisionGroups) && Shaped(layout)
    requires |grid| == SlotCount && Walked(layout, grid, blocks, groups)
    ensures forall t :: 0 <= t < SlotCount ==> |grid[t]| == DayCount
    ensures forall t, d :: 0 <= t < SlotCount && 0 <= d < DayCount ==> CellFacts(m[t, d], collisionGroups[d], SlotMinutes(t), grid[t][d])
    ensures Apart(grid)
  {
    forall t, d | 0 <= t < SlotCount && 0 <= d < DayCount
      ensures CellFacts(m[t, d], collisionGroups[d], SlotMinutes(t), grid[t][d])
    {
      assert InGrid(grid, t, d);
    }
  }

  /** A collision cell lists each member once. */
  lemma CollisionMembersDistinct(layout: Layout, d: nat, g: CollisionGroup)
    requires WellFormed(layout) && d < DayCount && g in layout.collisions[d]
    ensures DistinctIds(g.blocks)
  {
    var k :| 0 <= k < |layout.collisions[d]| && layout.collisions[d][k] == g;
    assert CollisionsDistinct(layout.collisions[d]);
  }
}
