/** Placing a schedule's blocks into the slot x weekday matrix
    (static/app.js:606-635). */
module Placement {
  import opened Wrappers
  import opened Records
  import opened TimeAxis

  /** The number of weekday columns. */
  const DayCount: nat := 5

  /** One entry of the matrix: a block touching that slot, whether this is
      the first slot it touches, and its extent in minutes. */
  datatype Item = Item(block: Block, isStart: bool, startMinutes: int, endMinutes: int)

  /** A block with what displaySchedule reads from it before placing it:
      its start and end in minutes (None for NaN) and its column (-1 when its
      day is not a weekday). */
  datatype Placed = Placed(block: Block, start: Option<int>, end: Option<int>, day: int)

  function Convert(b: Block): (p: Placed)
    ensures p.block == b && -1 <= p.day < DayCount
  {
    Placed(b, TimeToMinutes(b.horaIni), TimeToMinutes(b.horaFin), DayIndex(b.dia))
  }

  function ConvertAll(blocks: seq<Block>): (ps: seq<Placed>)
    ensures |ps| == |blocks| && forall i :: 0 <= i < |blocks| ==> ps[i] == Convert(blocks[i])
  {
    seq(|blocks|, i requires 0 <= i < |blocks| => Convert(blocks[i]))
  }

  /** Axis row t lies in the block's half-open interval [start, end); a NaN
      time makes both comparisons false. */
  predicate Covers(p: Placed, t: int) {
    p.start.Some? && p.end.Some? && p.start.value <= SlotMinutes(t) < p.end.value
  }

  /** Some row before t lies in the block's interval. */
  predicate CoveredBefore(p: Placed, t: nat) {
    t > 0 && (Covers(p, t - 1) || CoveredBefore(p, t - 1))
  }

  /** The entry a block contributes to row t. */
  function PlaceItem(p: Placed, t: nat): (x: Item)
    requires Covers(p, t)
    ensures x.block == p.block && x.isStart == !CoveredBefore(p, t)
    ensures Some(x.startMinutes) == p.start && Some(x.endMinutes) == p.end
    ensures x.startMinutes <= SlotMinutes(t) < x.endMinutes
  {
    Item(p.block, !CoveredBefore(p, t), p.start.value, p.end.value)
  }

  /** The block lands in column d at row t. */
  predicate Lands(p: Placed, t: nat, d: int) {
    p.day == d && Covers(p, t)
  }

  /** What matrix cell (t, d) holds once the blocks are placed in order: one
      entry per block that lands there, in the blocks' order. */
  function Cell(ps: seq<Placed>, t: nat, d: int): (r: seq<Item>)
    ensures forall x :: x in r ==> exists p :: p in ps && Lands(p, t, d) && x == PlaceItem(p, t)
  {
    if ps == [] then []
    else
      var p := ps[|ps| - 1];
      Cell(ps[..|ps| - 1], t, d) + (if Lands(p, t, d) then [PlaceItem(p, t)] else [])
  }

  lemma CellStep(ps: seq<Placed>, k: nat, t: nat, d: int)
    requires k < |ps|
    ensures Cell(ps[..k + 1], t, d)
      == Cell(ps[..k], t, d) + (if Lands(ps[k], t, d) then [PlaceItem(ps[k], t)] else [])
  {
    assert ps[..k + 1][..k] == ps[..k];
  }

  /** Every block that lands in (t, d) has its entry there. */
  lemma {:induction false} CellComplete(ps: seq<Placed>, t: nat, d: int, p: Placed)
    requires p in ps && Lands(p, t, d)
    ensures PlaceItem(p, t) in Cell(ps, t, d)
  {
    var last := ps[|ps| - 1];
    if p != last {
      assert ps == ps[..|ps| - 1] + [last];
      CellComplete(ps[..|ps| - 1], t, d, p);
    }
  }

  /** A block has an entry at (t, d) exactly when it lands there: it
      occupies exactly the rows with start <= row < end of its own weekday,
      and nowhere when its day is not one of the five columns. */
  lemma CellExactly(ps: seq<Placed>, t: nat, d: int, p: Placed)
    requires p in ps
    ensures (exists x :: x in Cell(ps, t, d) && x == PlaceItem(p, t)) <== Lands(p, t, d)
    ensures (exists x :: x in Cell(ps, t, d) && x.block == p.block) ==> exists q :: q in ps && q.block == p.block && Lands(q, t, d)
  {
    if Lands(p, t, d) {
      CellComplete(ps, t, d, p);
    }
  }

  /** Fills the matrix as displaySchedule does, block by block and, for each
      block on a weekday, row by row, with an isFirst flag that clears at
      the block's first row. */
  method PlaceBlocks(blocks: seq<Block>) returns (m: array2<seq<Item>>)
    ensures fresh(m) && m.Length0 == SlotCount && m.Length1 == DayCount
    ensures forall t, d :: 0 <= t < SlotCount && 0 <= d < DayCount ==> m[t, d] == Cell(ConvertAll(blocks), t, d)
  {
    ghost var ps := ConvertAll(blocks);
    var slots := BuildTimeSlots();
    m := new seq<Item>[SlotCount, DayCount]((_, _) => []);
    var k := 0;
    while k < |blocks|
      invariant 0 <= k <= |blocks|
      invariant forall t, d :: 0 <= t < SlotCount && 0 <= d < DayCount ==> m[t, d] == Cell(ps[..k], t, d)
    {
      PlaceBlock(m, slots, blocks, ps, k);
      k := k + 1;
    }
    assert ps[..|blocks|] == ps;
  }

  /** One turn of the outer loop: reads the block's times and day, then
      places it if its day is a weekday. */
  method PlaceBlock(m: array2<seq<Item>>, slots: seq<string>, blocks: seq<Block>, ghost ps: seq<Placed>, k: nat)
    requires m.Length0 == SlotCount && m.Length1 == DayCount
    requires IsAxis(slots)
    requires ps == ConvertAll(blocks) && k < |blocks|
    requires forall t, d :: 0 <= t < SlotCount && 0 <= d < DayCount ==> m[t, d] == Cell(ps[..k], t, d)
    modifies m
    ensures forall t, d :: 0 <= t < SlotCount && 0 <= d < DayCount ==> m[t, d] == Cell(ps[..k + 1], t, d)
  {
    var block := blocks[k];
    var startMinutes := TimeToMinutes(block.horaIni);
    var endMinutes := TimeToMinutes(block.horaFin);
    var dayIndex := DayIndex(block.dia);
    var p := Placed(block, startMinutes, endMinutes, dayIndex);
    assert p == ps[k];
    if dayIndex != -1 {
      PlaceRow(m, slots, ps, k, p, dayIndex);
    }
    forall t, d | 0 <= t < SlotCount && 0 <= d < DayCount
      ensures m[t, d] == Cell(ps[..k + 1], t, d)
    {
      CellStep(ps, k, t, d);
    }
  }

  /** The matrix while block k is placed in column dayIndex: the rows above
      t of that column already hold its entry, every other cell is as it was
      before block k. */
  ghost predicate PlacedAbove(m: array2<seq<Item>>, ps: seq<Placed>, k: nat, dayIndex: int, t: nat)
    reads m
  {
    k < |ps| && m.Length0 == SlotCount && m.Length1 == DayCount
    && forall t', d :: 0 <= t' < SlotCount && 0 <= d < DayCount ==>
      m[t', d] == (if d == dayIndex && t' < t then Cell(ps[..k + 1], t', d) else Cell(ps[..k], t', d))
  }

  /** The inner loop: walks the axis and appends the block's entry to every
      row of its column it covers. */
  method PlaceRow(m: array2<seq<Item>>, slots: seq<string>, ghost ps: seq<Placed>, ghost k: nat, p: Placed, dayIndex: int)
    requires m.Length0 == SlotCount && m.Length1 == DayCount
    requires IsAxis(slots)
    requires k < |ps| && p == ps[k] && p.day == dayIndex && 0 <= dayIndex < DayCount
    requires forall t, d :: 0 <= t < SlotCount && 0 <= d < DayCount ==> m[t, d] == Cell(ps[..k], t, d)
    modifies m
    ensures forall t, d :: 0 <= t < SlotCount && 0 <= d < DayCount ==>
      m[t, d] == (if d == dayIndex then Cell(ps[..k + 1], t, d) else Cell(ps[..k], t, d))
  {
    var isFirst := true;
    var t := 0;
    while t < SlotCount
      invariant 0 <= t <= SlotCount
      invariant isFirst == !CoveredBefore(p, t)
      invariant PlacedAbove(m, ps, k, dayIndex, t)
    {
      isFirst := PlaceSlot(m, slots, ps, k, p, dayIndex, t, isFirst);
      t := t + 1;
    }
  }

  /** One turn of the inner loop: row t of the block's column. */
  method PlaceSlot(m: array2<seq<Item>>, slots: seq<string>, ghost ps: seq<Placed>, ghost k: nat, p: Placed, dayIndex: int, t: nat, isFirst: bool)
    returns (isFirstAfter: bool)
    requires IsAxis(slots) && t < SlotCount
    requires k < |ps| && p == ps[k] && p.day == dayIndex && 0 <= dayIndex < DayCount
    requires PlacedAbove(m, ps, k, dayIndex, t) && isFirst == !CoveredBefore(p, t)
    modifies m
    ensures PlacedAbove(m, ps, k, dayIndex, t + 1) && isFirstAfter == !CoveredBefore(p, t + 1)
  {
    var slotMinutes := ReadSlot(slots, t);
    CellStep(ps, k, t, dayIndex);
    isFirstAfter := isFirst;
    if p.start.Some? && p.end.Some? && p.start.value <= slotMinutes < p.end.value {
      m[t, dayIndex] := m[t, dayIndex] + [Item(p.block, isFirst, p.start.value, p.end.value)];
      isFirstAfter := false;
    }
  }

  /** timeToMinutes(time) of an axis label, which is never NaN. */
  method ReadSlot(slots: seq<string>, t: nat) returns (minutes: int)
    requires IsAxis(slots)
    requires t < SlotCount
    ensures minutes == SlotMinutes(t)
  {
    SlotLabelMinutes(t);
    minutes := TimeToMinutes(slots[t]).value;
  }

  // ---------------------------------------------------------------------
  // The start flag

  lemma {:induction false} CoveredBeforeExists(p: Placed, t: nat)
    ensures CoveredBefore(p, t) <==> exists u :: 0 <= u < t && Covers(p, u)
  {
    if t > 0 {
      CoveredBeforeExists(p, t - 1);
      if Covers(p, t - 1) {
        assert 0 <= t - 1 < t && Covers(p, t - 1);
      }
    }
  }

  /** The flag is set on a row exactly when the row above is outside the
      block: it marks the top of the block's run of rows. */
  lemma StartIsTop(p: Placed, t: nat)
    requires Covers(p, t)
    ensures !CoveredBefore(p, t) <==> (t == 0 || !Covers(p, t - 1))
  {
    CoveredBeforeExists(p, t);
    if t > 0 && !Covers(p, t - 1) {
      forall u | 0 <= u < t
        ensures !Covers(p, u)
      {
        assert SlotMinutes(u) <= SlotMinutes(t - 1);
      }
    }
  }

  /** Only one row of a block carries the start flag. */
  lemma OneStartRow(p: Placed, t1: nat, t2: nat)
    requires Covers(p, t1) && Covers(p, t2)
    requires !CoveredBefore(p, t1) && !CoveredBefore(p, t2)
    ensures t1 == t2
  {
    CoveredBeforeExists(p, t1);
    CoveredBeforeExists(p, t2);
  }
}
