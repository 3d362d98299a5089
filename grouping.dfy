/** Per weekday: the distinct blocks of the column, their first-fit grouping
    by overlap, the collision groups and the column assignment
    (static/app.js:637-700). */
module Grouping {
  import opened Records
  import opened TimeAxis
  import opened Placement

  // ---------------------------------------------------------------------
  // Distinct blocks of a day (static/app.js:644-657)

  /** A distinct block of one day with its extent in minutes. */
  datatype BlockInfo = BlockInfo(id: BlockId, block: Block, start: int, end: int)

  function InfoOf(x: Item): BlockInfo {
    BlockInfo(Key(x.block), x.block, x.startMinutes, x.endMinutes)
  }

  predicate HasId(infos: seq<BlockInfo>, id: BlockId) {
    exists i :: 0 <= i < |infos| && infos[i].id == id
  }

  predicate DistinctIds(infos: seq<BlockInfo>) {
    forall i, j :: 0 <= i < j < |infos| ==> infos[i].id != infos[j].id
  }

  /** The list after visiting some matrix entries in order: an entry whose id
      is already listed is skipped, any other is appended. */
  function AddItems(acc: seq<BlockInfo>, items: seq<Item>): (r: seq<BlockInfo>)
    ensures |acc| <= |r| && r[..|acc|] == acc
    ensures DistinctIds(acc) ==> DistinctIds(r)
    ensures forall b :: b in r ==> b in acc || exists x :: x in items && b == InfoOf(x)
    ensures forall x :: x in items ==> HasId(r, Key(x.block))
  {
    if items == [] then acc
    else
      var prev := AddItems(acc, items[..|items| - 1]);
      var x := items[|items| - 1];
      assert forall y :: y in items[..|items| - 1] ==> y in items;
      if HasId(prev, Key(x.block)) then prev
      else
        var r := prev + [InfoOf(x)];
        assert forall y :: y in items ==> y in items[..|items| - 1] || y == x;
        assert forall id :: HasId(prev, id) ==> HasId(r, id) by {
          forall id | HasId(prev, id) ensures HasId(r, id) {
            var i :| 0 <= i < |prev| && prev[i].id == id;
            assert r[i] == prev[i];
          }
        }
        assert r[|prev|].id == Key(x.block);
        r
  }

  /** The day's list after scanning rows 0 .. n-1 of the column. */
  function CollectRows(column: seq<seq<Item>>, n: nat): (r: seq<BlockInfo>)
    requires n <= |column|
    ensures DistinctIds(r)
    ensures forall b :: b in r ==> exists t, x :: 0 <= t < n && x in column[t] && b == InfoOf(x)
    ensures forall t, x :: 0 <= t < n && x in column[t] ==> HasId(r, Key(x.block))
  {
    if n == 0 then []
    else
      var prev := CollectRows(column, n - 1);
      var r := AddItems(prev, column[n - 1]);
      assert forall id :: HasId(prev, id) ==> HasId(r, id) by {
        forall id | HasId(prev, id) ensures HasId(r, id) {
          var i :| 0 <= i < |prev| && prev[i].id == id;
          assert r[i] == prev[i];
        }
      }
      r
  }

  /** dayBlocks: every block id met in the day's column, once, with the
      extent of its first entry, in the order the rows are scanned. */
  function DayBlocks(column: seq<seq<Item>>): seq<BlockInfo> {
    CollectRows(column, |column|)
  }

  /** Column d of the matrix as a sequence of rows. */
  function ColumnOf(m: array2<seq<Item>>, d: nat): (c: seq<seq<Item>>)
    requires d < m.Length1
    reads m
    ensures |c| == m.Length0 && forall t :: 0 <= t < m.Length0 ==> c[t] == m[t, d]
  {
    seq(m.Length0, t requires 0 <= t < m.Length0 reads m => m[t, d])
  }

  /** dayBlocks.find(b => b.id === id) !== undefined, as a loop. */
  method FindId(infos: seq<BlockInfo>, id: BlockId) returns (found: bool)
    ensures found == HasId(infos, id)
  {
    found := false;
    var i := 0;
    while i < |infos|
      invariant 0 <= i <= |infos|
      invariant !found ==> forall j :: 0 <= j < i ==> infos[j].id != id
      invariant found ==> HasId(infos, id)
    {
      if infos[i].id == id {
        found := true;
        return;
      }
      i := i + 1;
    }
  }

  /** Scans column d row by row, keeping the first entry of every block id. */
  method CollectDay(m: array2<seq<Item>>, d: nat) returns (dayBlocks: seq<BlockInfo>)
    requires d < m.Length1
    ensures dayBlocks == DayBlocks(ColumnOf(m, d))
  {
    ghost var column := ColumnOf(m, d);
    dayBlocks := [];
    var t := 0;
    while t < m.Length0
      invariant 0 <= t <= m.Length0
      invariant dayBlocks == CollectRows(column, t)
    {
      dayBlocks := AddRow(dayBlocks, m[t, d]);
      t := t + 1;
    }
  }

  /** The entries of one cell in order, each appended unless its id is
      already listed. */
  method AddRow(dayBlocks0: seq<BlockInfo>, items: seq<Item>) returns (dayBlocks: seq<BlockInfo>)
    ensures dayBlocks == AddItems(dayBlocks0, items)
  {
    dayBlocks := dayBlocks0;
    var j := 0;
    while j < |items|
      invariant 0 <= j <= |items|
      invariant dayBlocks == AddItems(dayBlocks0, items[..j])
    {
      var item := items[j];
      var found := FindId(dayBlocks, Key(item.block));
      assert items[..j + 1][..j] == items[..j];
      if !found {
        dayBlocks := dayBlocks + [InfoOf(item)];
      }
      j := j + 1;
    }
    assert items[..|items|] == items;
  }

  // ---------------------------------------------------------------------
  // First-fit grouping (static/app.js:660-680)

  /** The half-open intervals [start, end) share a minute. */
  predicate Overlaps(a: BlockInfo, b: BlockInfo) {
    a.start < b.end && a.end > b.start
  }

  predicate Meets(g: seq<BlockInfo>, x: BlockInfo) {
    exists y :: y in g && Overlaps(x, y)
  }

  /** The index of the first group holding a member x overlaps; |groups|
      when there is none. */
  function FirstFit(groups: seq<seq<BlockInfo>>, x: BlockInfo): (i: nat)
    ensures i <= |groups|
    ensures i < |groups| ==> Meets(groups[i], x)
    ensures forall j :: 0 <= j < i ==> !Meets(groups[j], x)
  {
    if groups == [] then 0
    else if Meets(groups[0], x) then 0
    else 1 + FirstFit(groups[1..], x)
  }

  /** x joins the first group it overlaps, or starts a new group at the end. */
  function Insert(groups: seq<seq<BlockInfo>>, x: BlockInfo): seq<seq<BlockInfo>> {
    var i := FirstFit(groups, x);
    if i < |groups| then groups[i := groups[i] + [x]] else groups + [[x]]
  }

  /** The groups after the day's blocks have arrived in order. */
  function GroupAll(infos: seq<BlockInfo>): seq<seq<BlockInfo>> {
    if infos == [] then [] else Insert(GroupAll(infos[..|infos| - 1]), infos[|infos| - 1])
  }

  /** The search of the grouping loop: groups in order, members in order,
      stopping at the first overlap. */
  method FindGroup(groups: seq<seq<BlockInfo>>, x: BlockInfo) returns (i: nat)
    ensures i == FirstFit(groups, x)
  {
    i := 0;
    while i < |groups|
      invariant 0 <= i <= |groups|
      invariant forall j :: 0 <= j < i ==> !Meets(groups[j], x)
    {
      var group := groups[i];
      var k := 0;
      while k < |group|
        invariant 0 <= k <= |group|
        invariant forall l :: 0 <= l < k ==> !Overlaps(x, group[l])
      {
        if x.start < group[k].end && x.end > group[k].start {
          assert group[k] in group;
          return;
        }
        k := k + 1;
      }
      i := i + 1;
    }
  }

  /** Groups the day's blocks one by one, first fit. */
  method GroupBlocks(dayBlocks: seq<BlockInfo>) returns (groups: seq<seq<BlockInfo>>)
    ensures groups == GroupAll(dayBlocks)
  {
    groups := [];
    var n := 0;
    while n < |dayBlocks|
      invariant 0 <= n <= |dayBlocks|
      invariant groups == GroupAll(dayBlocks[..n])
    {
      var blockInfo := dayBlocks[n];
      assert dayBlocks[..n + 1][..n] == dayBlocks[..n];
      var found := FindGroup(groups, blockInfo);
      if found < |groups| {
        groups := groups[found := groups[found] + [blockInfo]];
      } else {
        groups := groups + [[blockInfo]];
      }
      n := n + 1;
    }
    assert dayBlocks[..|dayBlocks|] == dayBlocks;
  }

  /** The groups laid end to end. */
  function Flatten(groups: seq<seq<BlockInfo>>): seq<BlockInfo> {
    if groups == [] then [] else groups[0] + Flatten(groups[1..])
  }

  lemma {:induction false} FlattenAppend(groups: seq<seq<BlockInfo>>, i: nat, x: BlockInfo)
    requires i < |groups|
    ensures multiset(Flatten(groups[i := groups[i] + [x]])) == multiset(Flatten(groups)) + multiset{x}
  {
    var gs := groups[i := groups[i] + [x]];
    if i > 0 {
      assert gs[1..] == groups[1..][i - 1 := groups[i] + [x]];
      FlattenAppend(groups[1..], i - 1, x);
    } else {
      assert gs[1..] == groups[1..];
    }
  }

  lemma {:induction false} FlattenSnoc(groups: seq<seq<BlockInfo>>, g: seq<BlockInfo>)
    ensures Flatten(groups + [g]) == Flatten(groups) + g
  {
    if groups != [] {
      assert (groups + [g])[1..] == groups[1..] + [g];
      FlattenSnoc(groups[1..], g);
    } else {
      assert Flatten([g]) == g + Flatten([]);
    }
  }

  /** Grouping is a partition of the day's blocks: every group is non-empty
      and, taken together, the groups hold each block exactly as often as
      the day's list does. */
  lemma {:induction false} GroupAllPartition(infos: seq<BlockInfo>)
    ensures forall g :: g in GroupAll(infos) ==> |g| > 0
    ensures multiset(Flatten(GroupAll(infos))) == multiset(infos)
  {
    if infos != [] {
      var prefix: seq<BlockInfo>, x: BlockInfo := infos[..|infos| - 1], infos[|infos| - 1];
      GroupAllPartition(prefix);
      var gs := GroupAll(prefix);
      assert infos == prefix + [x];
      var i := FirstFit(gs, x);
      if i < |gs| {
        FlattenAppend(gs, i, x);
      } else {
        FlattenSnoc(gs, [x]);
      }
    }
  }

  /** Every member after the first of its group overlaps an earlier member
      of that group. */
  predicate JoinsEarlier(gs: seq<seq<BlockInfo>>) {
    forall i, p :: 0 <= i < |gs| && 0 < p < |gs[i]| ==> JoinsAt(gs, i, p)
  }

  /** Member p of group i overlaps a member before it. */
  predicate JoinsAt(gs: seq<seq<BlockInfo>>, i: nat, p: nat)
    requires i < |gs| && p < |gs[i]|
  {
    exists q :: 0 <= q < p && Overlaps(gs[i][p], gs[i][q])
  }

  /** A block that is not the first of its group overlaps a member placed
      before it in that group. */
  lemma {:induction false} GroupAllJoins(infos: seq<BlockInfo>)
    ensures JoinsEarlier(GroupAll(infos))
  {
    if infos != [] {
      var prefix: seq<BlockInfo>, x: BlockInfo := infos[..|infos| - 1], infos[|infos| - 1];
      GroupAllJoins(prefix);
      var gs := GroupAll(prefix);
      InsertJoins(gs, x);
    }
  }

  lemma InsertJoins(gs: seq<seq<BlockInfo>>, x: BlockInfo)
    requires JoinsEarlier(gs)
    ensures JoinsEarlier(Insert(gs, x))
  {
    var j := FirstFit(gs, x);
    var r := Insert(gs, x);
    if j < |gs| {
      var y :| y in gs[j] && Overlaps(x, y);
      var q :| 0 <= q < |gs[j]| && gs[j][q] == y;
      forall i, p | 0 <= i < |r| && 0 < p < |r[i]|
        ensures JoinsAt(r, i, p)
      {
        if i == j && p == |gs[j]| {
          assert r[j][q] == y;
        } else {
          assert r[i] == (if i == j then gs[j] + [x] else gs[i]);
          assert p < |gs[i]| && r[i][p] == gs[i][p];
          assert JoinsAt(gs, i, p);
          var q' :| 0 <= q' < p && Overlaps(gs[i][p], gs[i][q']);
          assert r[i][q'] == gs[i][q'];
        }
      }
    } else {
      forall i, p | 0 <= i < |r| && 0 < p < |r[i]|
        ensures JoinsAt(r, i, p)
      {
        assert r[i] == (if i < |gs| then gs[i] else [x]);
        if i < |gs| {
          assert JoinsAt(gs, i, p);
          var q' :| 0 <= q' < p && Overlaps(gs[i][p], gs[i][q']);
          assert r[i][q'] == gs[i][q'];
        }
      }
    }
  }

  /** The ids of the groups' members are pairwise distinct. */
  predicate GroupsDistinct(groups: seq<seq<BlockInfo>>) {
    forall i, j, p, q ::
      (0 <= i < |groups| && 0 <= j < |groups| && 0 <= p < |groups[i]| && 0 <= q < |groups[j]|
       && groups[i][p].id == groups[j][q].id) ==> i == j && p == q
  }

  /** Distinct ids stay distinct, and each id lands in exactly one group at
      exactly one position. */
  lemma {:induction false} GroupAllDistinct(infos: seq<BlockInfo>)
    requires DistinctIds(infos)
    ensures GroupsDistinct(GroupAll(infos))
    ensures forall g, y :: g in GroupAll(infos) && y in g ==> y in infos
  {
    if infos != [] {
      var prefix: seq<BlockInfo>, x: BlockInfo := infos[..|infos| - 1], infos[|infos| - 1];
      GroupAllDistinct(prefix);
      var gs: seq<seq<BlockInfo>> := GroupAll(prefix);
      forall i: int, p: int | 0 <= i < |gs| && 0 <= p < |gs[i]|
        ensures gs[i][p].id != x.id
      {
        assert gs[i] in gs && gs[i][p] in gs[i];
        var k :| 0 <= k < |prefix| && prefix[k] == gs[i][p];
      }
      assert forall y :: y in prefix ==> y in infos;
      InsertDistinct(gs, x);
    }
  }

  /** Adding a block whose id is new keeps the ids distinct. */
  lemma InsertDistinct(gs: seq<seq<BlockInfo>>, x: BlockInfo)
    requires GroupsDistinct(gs)
    requires forall i, p :: 0 <= i < |gs| && 0 <= p < |gs[i]| ==> gs[i][p].id != x.id
    ensures GroupsDistinct(Insert(gs, x))
    ensures forall g, y :: g in Insert(gs, x) && y in g ==> y == x || exists h :: h in gs && y in h
  {
    var j := FirstFit(gs, x);
    var r := Insert(gs, x);
    // position (j, |r[j]| - 1) holds x; every other position holds what gs held there
    assert |r[j]| >= 1 && r[j][|r[j]| - 1] == x;
    forall i, p | 0 <= i < |r| && 0 <= p < |r[i]| && !(i == j && p == |r[i]| - 1)
      ensures i < |gs| && p < |gs[i]| && r[i][p] == gs[i][p]
    {
      assert r[i] == (if i == j then gs[j] + [x] else gs[i]);
    }
    forall g, y | g in r && y in g
      ensures y == x || exists h :: h in gs && y in h
    {
      var i :| 0 <= i < |r| && r[i] == g;
      var p :| 0 <= p < |g| && g[p] == y;
      if !(i == j && p == |r[i]| - 1) {
        assert gs[i] in gs && gs[i][p] == y;
      }
    }
    forall i, i', p, p' | 0 <= i < |r| && 0 <= i' < |r| && 0 <= p < |r[i]| && 0 <= p' < |r[i']| && r[i][p].id == r[i'][p'].id
      ensures i == i' && p == p'
    {
      var fresh1 := i == j && p == |r[i]| - 1;
      var fresh2 := i' == j && p' == |r[i']| - 1;
      if !fresh1 && !fresh2 {
        assert gs[i][p].id == gs[i'][p'].id;
      }
    }
  }

  /** When no two of the day's blocks overlap, every block is a group of
      its own, in arrival order. */
  lemma {:induction false} GroupAllApart(infos: seq<BlockInfo>)
    requires forall i, j :: 0 <= i < |infos| && 0 <= j < |infos| && i != j ==> !Overlaps(infos[i], infos[j])
    ensures GroupAll(infos) == seq(|infos|, i requires 0 <= i < |infos| => [infos[i]])
  {
    if infos != [] {
      var prefix: seq<BlockInfo>, x: BlockInfo := infos[..|infos| - 1], infos[|infos| - 1];
      GroupAllApart(prefix);
      var gs := GroupAll(prefix);
      assert forall j :: 0 <= j < |gs| ==> !Meets(gs[j], x) by {
        forall j | 0 <= j < |gs| ensures !Meets(gs[j], x) {
          assert gs[j] == [infos[j]];
        }
      }
    }
  }

  /** Blocks that only touch (one ends when the other starts) stay apart. */
  lemma TouchingApart(a: BlockInfo, b: BlockInfo)
    requires a.start < a.end && a.end == b.start && b.start < b.end
    ensures GroupAll([a, b]) == [[a], [b]]
  {
    assert [a, b][..1] == [a];
    assert [a][..0] == [];
    assert GroupAll([a]) == [[a]];
    assert !Meets([a], b) by {
      forall y | y in [a] ensures !Overlaps(b, y) { assert y == a; }
    }
  }

  /** Groups are never merged: with blocks [0, 10), [20, 30) and [5, 25)
      arriving in that order, the third joins the first group although it
      also overlaps the second, which stays a group of its own. */
  lemma NotMerged(a: BlockInfo, b: BlockInfo, c: BlockInfo)
    requires a.start == 0 && a.end == 10 && b.start == 20 && b.end == 30 && c.start == 5 && c.end == 25
    ensures GroupAll([a, b, c]) == [[a, c], [b]]
    ensures Overlaps(c, b)
  {
    assert [a, b, c][..2] == [a, b];
    assert [a, b][..1] == [a];
    assert [a][..0] == [];
    assert GroupAll([a]) == [[a]];
    assert !Meets([a], b) by {
      forall y | y in [a] ensures !Overlaps(b, y) { assert y == a; }
    }
    assert GroupAll([a, b]) == [[a], [b]];
    assert Meets([a], c) by { assert a in [a] && Overlaps(c, a); }
    assert FirstFit([[a], [b]], c) == 0;
    assert [a] + [c] == [a, c];
    assert [[a], [b]][0 := [a] + [c]] == [[a, c], [b]];
  }

  // ---------------------------------------------------------------------
  // Collision groups (static/app.js:683-688)

  /** A group of more than one block with its overall extent. */
  datatype CollisionGroup = CollisionGroup(blocks: seq<BlockInfo>, start: int, end: int)

  /** Math.min over the members' starts. */
  function MinStart(g: seq<BlockInfo>): (r: int)
    requires |g| > 0
    ensures forall y :: y in g ==> r <= y.start
    ensures exists y :: y in g && y.start == r
  {
    if |g| == 1 then g[0].start
    else
      var m := MinStart(g[1..]);
      assert forall y :: y in g ==> y == g[0] || y in g[1..];
      if g[0].start <= m then g[0].start else m
  }

  /** Math.max over the members' ends. */
  function MaxEnd(g: seq<BlockInfo>): (r: int)
    requires |g| > 0
    ensures forall y :: y in g ==> y.end <= r
    ensures exists y :: y in g && y.end == r
  {
    if |g| == 1 then g[0].end
    else
      var m := MaxEnd(g[1..]);
      assert forall y :: y in g ==> y == g[0] || y in g[1..];
      if g[0].end >= m then g[0].end else m
  }

  /** The day's collision groups: exactly the groups with more than one
      member, in order, each spanning from its earliest start to its latest
      end. */
  function CollisionsOf(groups: seq<seq<BlockInfo>>): seq<CollisionGroup> {
    if groups == [] then []
    else
      var g := groups[0];
      (if |g| > 1 then [CollisionGroup(g, MinStart(g), MaxEnd(g))] else []) + CollisionsOf(groups[1..])
  }

  /** Every collision group is one of the groups, has more than one member,
      and spans from its members' earliest start to their latest end. */
  lemma {:induction false} CollisionsOfSound(groups: seq<seq<BlockInfo>>)
    ensures forall c :: c in CollisionsOf(groups) ==>
      (c.blocks in groups && |c.blocks| > 1 && c.start == MinStart(c.blocks) && c.end == MaxEnd(c.blocks))
  {
    if groups != [] {
      CollisionsOfSound(groups[1..]);
      assert forall g :: g in groups[1..] ==> g in groups;
    }
  }

  /** Every group with more than one member has its collision group. */
  lemma {:induction false} CollisionsOfComplete(groups: seq<seq<BlockInfo>>)
    ensures forall g :: g in groups && |g| > 1 ==> exists c :: c in CollisionsOf(groups) && c.blocks == g
  {
    if groups != [] {
      CollisionsOfComplete(groups[1..]);
      var g0 := groups[0];
      var cs := CollisionsOf(groups);
      var head := if |g0| > 1 then [CollisionGroup(g0, MinStart(g0), MaxEnd(g0))] else [];
      assert cs == head + CollisionsOf(groups[1..]);
      forall g | g in groups && |g| > 1
        ensures exists c :: c in cs && c.blocks == g
      {
        if g == g0 {
          assert cs[0].blocks == g;
        } else {
          assert g in groups[1..];
          var c :| c in CollisionsOf(groups[1..]) && c.blocks == g;
          assert c in cs;
        }
      }
    }
  }

  /** The ids of the collision groups' members are pairwise distinct. */
  predicate CollisionsDistinct(cs: seq<CollisionGroup>) {
    forall i, j, p, q ::
      (0 <= i < |cs| && 0 <= j < |cs| && 0 <= p < |cs[i].blocks| && 0 <= q < |cs[j].blocks|
       && cs[i].blocks[p].id == cs[j].blocks[q].id) ==> i == j && p == q
  }

  lemma GroupsDistinctTail(groups: seq<seq<BlockInfo>>)
    requires GroupsDistinct(groups) && groups != []
    ensures GroupsDistinct(groups[1..])
  {
    var rest: seq<seq<BlockInfo>> := groups[1..];
    forall i: int, j: int, p: int, q: int | 0 <= i < |rest| && 0 <= j < |rest| && 0 <= p < |rest[i]| && 0 <= q < |rest[j]|
      && rest[i][p].id == rest[j][q].id
      ensures i == j && p == q
    {
      assert groups[i + 1][p].id == groups[j + 1][q].id;
    }
  }

  /** The first group shares no id with any later group. */
  lemma HeadApart(groups: seq<seq<BlockInfo>>, g: seq<BlockInfo>, p: nat, y: BlockInfo)
    requires GroupsDistinct(groups) && groups != []
    requires g in groups[1..] && y in g && p < |groups[0]|
    ensures groups[0][p].id != y.id
  {
    var k :| 0 <= k < |groups[1..]| && groups[1..][k] == g;
    var q :| 0 <= q < |g| && g[q] == y;
    assert groups[k + 1][q] == y;
  }

  lemma ConsDistinct(g: seq<BlockInfo>, start: int, end: int, tail: seq<CollisionGroup>, cs: seq<CollisionGroup>)
    requires CollisionsDistinct(tail) && cs == [CollisionGroup(g, start, end)] + tail
    requires DistinctIds(g)
    requires forall d, p, y :: d in tail && 0 <= p < |g| && y in d.blocks ==> g[p].id != y.id
    ensures CollisionsDistinct(cs)
  {
    forall i, j, p, q | 0 <= i < |cs| && 0 <= j < |cs| && 0 <= p < |cs[i].blocks| && 0 <= q < |cs[j].blocks|
      && cs[i].blocks[p].id == cs[j].blocks[q].id
      ensures i == j && p == q
    {
      if i > 0 && j > 0 {
        assert tail[i - 1].blocks[p].id == tail[j - 1].blocks[q].id;
      }
    }
  }

  /** Keeping some of the groups keeps their ids apart. */
  lemma {:induction false} CollisionsOfDistinct(groups: seq<seq<BlockInfo>>)
    requires GroupsDistinct(groups)
    ensures CollisionsDistinct(CollisionsOf(groups))
  {
    if groups != [] {
      GroupsDistinctTail(groups);
      CollisionsOfDistinct(groups[1..]);
      if |groups[0]| > 1 {
        HeadApartAll(groups);
        HeadDistinct(groups);
        HeadCollision(groups);
      }
    }
  }

  lemma HeadCollision(groups: seq<seq<BlockInfo>>)
    requires groups != [] && |groups[0]| > 1
    requires CollisionsDistinct(CollisionsOf(groups[1..]))
    requires forall d, p, y :: d in CollisionsOf(groups[1..]) && 0 <= p < |groups[0]| && y in d.blocks ==> groups[0][p].id != y.id
    requires DistinctIds(groups[0])
    ensures CollisionsDistinct(CollisionsOf(groups))
  {
    CollisionsOfHead(groups);
    ConsDistinct(groups[0], MinStart(groups[0]), MaxEnd(groups[0]), CollisionsOf(groups[1..]), CollisionsOf(groups));
  }

  lemma HeadApartAll(groups: seq<seq<BlockInfo>>)
    requires GroupsDistinct(groups) && groups != []
    ensures forall d, p, y :: d in CollisionsOf(groups[1..]) && 0 <= p < |groups[0]| && y in d.blocks ==> groups[0][p].id != y.id
  {
    CollisionsOfSound(groups[1..]);
    forall d, p, y | d in CollisionsOf(groups[1..]) && 0 <= p < |groups[0]| && y in d.blocks
      ensures groups[0][p].id != y.id
    {
      HeadApart(groups, d.blocks, p, y);
    }
  }

  lemma HeadDistinct(groups: seq<seq<BlockInfo>>)
    requires GroupsDistinct(groups) && groups != []
    ensures DistinctIds(groups[0])
  {
  }

  lemma CollisionsOfHead(groups: seq<seq<BlockInfo>>)
    requires groups != [] && |groups[0]| > 1
    ensures CollisionsOf(groups) == [CollisionGroup(groups[0], MinStart(groups[0]), MaxEnd(groups[0]))] + CollisionsOf(groups[1..])
  {
  }

  // ---------------------------------------------------------------------
  // Column assignment (static/app.js:690-699)

  /** A block's column inside its group and the group's width. */
  datatype ColumnInfo = ColumnInfo(columnIndex: nat, totalColumns: nat)

  /** The member ids of groups i' < i. */
  predicate InGroupsBelow(groups: seq<seq<BlockInfo>>, i: int, id: BlockId) {
    exists i', p :: 0 <= i' < i && 0 <= i' < |groups| && 0 <= p < |groups[i']| && groups[i'][p].id == id
  }

  predicate InGroups(groups: seq<seq<BlockInfo>>, id: BlockId) {
    InGroupsBelow(groups, |groups|, id)
  }

  /** Records, for every member of every group, its position in the group
      and the group's size; ids outside the groups keep what they had. So
      the column indices of a group are 0 .. size-1, each used once. */
  method AssignColumns(info0: map<BlockId, ColumnInfo>, groups: seq<seq<BlockInfo>>) returns (info: map<BlockId, ColumnInfo>)
    requires GroupsDistinct(groups)
    ensures forall i, p :: 0 <= i < |groups| && 0 <= p < |groups[i]| ==>
      groups[i][p].id in info && info[groups[i][p].id] == ColumnInfo(p, |groups[i]|)
    ensures forall id :: id in info <==> id in info0 || InGroups(groups, id)
    ensures forall id :: id in info0 && !InGroups(groups, id) ==> info[id] == info0[id]
  {
    info := info0;
    var i := 0;
    while i < |groups|
      invariant 0 <= i <= |groups|
      invariant forall i', p :: 0 <= i' < i && 0 <= p < |groups[i']| ==>
        groups[i'][p].id in info && info[groups[i'][p].id] == ColumnInfo(p, |groups[i']|)
      invariant forall id :: id in info <==> id in info0 || InGroupsBelow(groups, i, id)
      invariant forall id :: id in info0 && !InGroupsBelow(groups, i, id) ==> info[id] == info0[id]
    {
      ghost var before := info;
      info := AssignGroup(info, groups[i]);
      forall i', p | 0 <= i' < i && 0 <= p < |groups[i']|
        ensures info[groups[i'][p].id] == before[groups[i'][p].id]
      {
        forall q | 0 <= q < |groups[i]| ensures groups[i][q].id != groups[i'][p].id { }
      }
      forall id | id in info
        ensures id in info0 || InGroupsBelow(groups, i + 1, id)
      {
        if id !in before {
          var q :| 0 <= q < |groups[i]| && groups[i][q].id == id;
        }
      }
      i := i + 1;
    }
  }

  /** The inner loop: the group's members take columns 0, 1, ... in order. */
  method AssignGroup(info0: map<BlockId, ColumnInfo>, group: seq<BlockInfo>) returns (info: map<BlockId, ColumnInfo>)
    requires forall p, q :: 0 <= p < q < |group| ==> group[p].id != group[q].id
    ensures forall p :: 0 <= p < |group| ==> group[p].id in info && info[group[p].id] == ColumnInfo(p, |group|)
    ensures forall id :: id in info <==> id in info0 || exists p :: 0 <= p < |group| && group[p].id == id
    ensures forall id :: (forall p :: 0 <= p < |group| ==> group[p].id != id) ==> id in info0 ==> info[id] == info0[id]
  {
    info := info0;
    var totalColumns := |group|;
    var colIndex := 0;
    while colIndex < |group|
      invariant 0 <= colIndex <= |group|
      invariant forall p :: 0 <= p < colIndex ==> group[p].id in info && info[group[p].id] == ColumnInfo(p, totalColumns)
      invariant forall id :: id in info <==> id in info0 || exists p :: 0 <= p < colIndex && group[p].id == id
      invariant forall id :: (forall p :: 0 <= p < colIndex ==> group[p].id != id) ==> id in info0 ==> info[id] == info0[id]
    {
      info := info[group[colIndex].id := ColumnInfo(colIndex, totalColumns)];
      colIndex := colIndex + 1;
    }
  }
}
