/** is_valid_combination (app.py:202-249): every unordered pair of the
    combination's blocks is examined once, and each finding goes to the
    conflicts or to the accepted BACH1121 overlaps. */
module Combination {
  import opened Wrappers
  import opened Records
  import opened Conflicts
  import opened Pairs

  /** A conflict entry: the pair in examination order and, for a
      travel-time conflict, the shortfall check_travel_time reported. */
  datatype Conflict =
    | OverlapConflict(first: Block, second: Block)
    | TravelConflict(first: Block, second: Block, shortfall: Shortfall)
  {
    function Kind(): ConflictKind {
      if OverlapConflict? then Overlap else TravelTime
    }
  }

  /** The text shown for a conflict. */
  function ConflictMessage(c: Conflict): string {
    match c
    case OverlapConflict(b1, b2) => "Topón horario: " + b1.curso + " y " + b2.curso + " el " + b1.dia
    case TravelConflict(_, _, s) => TravelMessage(s)
  }

  /** An accepted overlap with BACH1121: its type and the pair. */
  datatype FoundTopon = FoundTopon(toponType: ToponType, first: Block, second: Block)

  /** The text shown for an accepted overlap. */
  function FoundMessage(f: FoundTopon): string {
    "Topón válido (" + ToponTypeName(f.toponType) + "): " + f.first.curso + " y " + f.second.curso + " el " + f.first.dia
  }

  /** What examining one pair adds: nothing, an accepted overlap, or a
      conflict. */
  datatype PairOutcome = Clear | Accepted(found: FoundTopon) | Clash(conflict: Conflict)

  function ToponTypeName(t: ToponType): string {
    match t
    case Completo => "completo"
    case Parcial => "parcial"
  }

  /** The body of the inner loop for blocks b1, b2: an overlap is accepted
      when is_valid_topon allows it and is a conflict otherwise; blocks that
      do not overlap are checked for travel time. */
  function Judge(b1: Block, b2: Block, cfgs: seq<ToponConfig>): PairOutcome {
    if BlocksOverlap(b1, b2) then
      match IsValidTopon(b1, b2, cfgs)
      case Some(t) =>
        Accepted(FoundTopon(t, b1, b2))
      case None =>
        Clash(OverlapConflict(b1, b2))
    else
      match CheckTravelTime(b1, b2)
      case TravelOk => Clear
      case TravelShort(s) => Clash(TravelConflict(b1, b2, s))
  }

  /** An overlapping pair lands in exactly one of the two lists: accepted
      when a configuration allows it, an overlap conflict otherwise. A pair
      that does not overlap adds at most one travel-time conflict, exactly
      when the travel rule objects. */
  lemma JudgeRules(b1: Block, b2: Block, cfgs: seq<ToponConfig>)
    ensures BlocksOverlap(b1, b2) ==>
      (Judge(b1, b2, cfgs).Accepted? <==> IsValidTopon(b1, b2, cfgs).Some?)
      && (Judge(b1, b2, cfgs).Clash? <==> IsValidTopon(b1, b2, cfgs).None?)
    ensures Judge(b1, b2, cfgs).Accepted? ==>
      BlocksOverlap(b1, b2) && IsValidTopon(b1, b2, cfgs) == Some(Judge(b1, b2, cfgs).found.toponType)
    ensures Judge(b1, b2, cfgs).Clash? && Judge(b1, b2, cfgs).conflict.Kind() == Overlap <==>
      BlocksOverlap(b1, b2) && IsValidTopon(b1, b2, cfgs).None?
    ensures Judge(b1, b2, cfgs).Clash? && Judge(b1, b2, cfgs).conflict.Kind() == TravelTime <==>
      !BlocksOverlap(b1, b2) && CheckTravelTime(b1, b2).TravelShort?
    ensures Judge(b1, b2, cfgs).Clear? <==> !BlocksOverlap(b1, b2) && CheckTravelTime(b1, b2) == TravelOk
  {
  }

  // ---------------------------------------------------------------------
  // The lists as functions of the blocks, in the order of the double loop

  /** What a verdict adds to the conflicts. */
  function ClashOf(o: PairOutcome): (r: seq<Conflict>)
    ensures forall c :: c in r <==> o == Clash(c)
  {
    if o.Clash? then [o.conflict] else []
  }

  /** What a verdict adds to the accepted overlaps. */
  function FoundOf(o: PairOutcome): (r: seq<FoundTopon>)
    ensures forall f :: f in r <==> o == Accepted(f)
  {
    if o.Accepted? then [o.found] else []
  }

  function ClashPick(cfgs: seq<ToponConfig>): (Block, Block) -> seq<Conflict> {
    (b1: Block, b2: Block) => ClashOf(Judge(b1, b2, cfgs))
  }

  function FoundPick(cfgs: seq<ToponConfig>): (Block, Block) -> seq<FoundTopon> {
    (b1: Block, b2: Block) => FoundOf(Judge(b1, b2, cfgs))
  }

  /** The conflicts is_valid_combination reports for the sections. */
  function CombinationConflicts(sections: seq<seq<Block>>, cfgs: seq<ToponConfig>): seq<Conflict> {
    AllPairs(Flatten(sections), ClashPick(cfgs))
  }

  /** The accepted overlaps it reports. */
  function CombinationFound(sections: seq<seq<Block>>, cfgs: seq<ToponConfig>): seq<FoundTopon> {
    AllPairs(Flatten(sections), FoundPick(cfgs))
  }

  // ---------------------------------------------------------------------
  // Properties of the result

  /** clashes and accepts say, for every pair on which Judge is consulted,
      what examining it adds to each list. The loops below are proved
      against such functions, so that their proofs only look at the pairs
      they examine. */
  ghost predicate Picks(cfgs: seq<ToponConfig>, clashes: (Block, Block) -> seq<Conflict>, accepts: (Block, Block) -> seq<FoundTopon>) {
    forall b1, b2 {:trigger Judge(b1, b2, cfgs)} ::
      clashes(b1, b2) == ClashOf(Judge(b1, b2, cfgs)) && accepts(b1, b2) == FoundOf(Judge(b1, b2, cfgs))
  }

  /** ClashPick and FoundPick are what Judge adds to each list. */
  lemma PicksOfJudge(cfgs: seq<ToponConfig>)
    ensures Picks(cfgs, ClashPick(cfgs), FoundPick(cfgs))
  {
  }

  /** Some pair a < b of the blocks, in order, clashes with conflict c. */
  ghost predicate ClashedPair(all: seq<Block>, cfgs: seq<ToponConfig>, c: Conflict) {
    exists a, b :: 0 <= a < b < |all| && Judge(all[a], all[b], cfgs) == Clash(c)
  }

  /** Some pair a < b of the blocks, in order, is the accepted overlap f. */
  ghost predicate AcceptedPair(all: seq<Block>, cfgs: seq<ToponConfig>, f: FoundTopon) {
    exists a, b :: 0 <= a < b < |all| && Judge(all[a], all[b], cfgs) == Accepted(f)
  }

  /** A conflict is reported exactly when some pair a < b of the blocks, in
      section order, clashes with that conflict. */
  lemma ConflictsArePairClashes(sections: seq<seq<Block>>, cfgs: seq<ToponConfig>, c: Conflict)
    ensures c in CombinationConflicts(sections, cfgs) <==> ClashedPair(Flatten(sections), cfgs, c)
  {
    PicksOfJudge(cfgs);
    if c in CombinationConflicts(sections, cfgs) {
      ReportedClashIsPair(Flatten(sections), cfgs, ClashPick(cfgs), FoundPick(cfgs), c);
    }
    if ClashedPair(Flatten(sections), cfgs, c) {
      PairClashIsReported(Flatten(sections), cfgs, ClashPick(cfgs), FoundPick(cfgs), c);
    }
  }

  /** An accepted overlap is reported exactly when some pair a < b of the
      blocks overlaps under a configured exception. */
  lemma FoundArePairAccepts(sections: seq<seq<Block>>, cfgs: seq<ToponConfig>, f: FoundTopon)
    ensures f in CombinationFound(sections, cfgs) <==> AcceptedPair(Flatten(sections), cfgs, f)
  {
    PicksOfJudge(cfgs);
    if f in CombinationFound(sections, cfgs) {
      ReportedAcceptIsPair(Flatten(sections), cfgs, ClashPick(cfgs), FoundPick(cfgs), f);
    }
    if AcceptedPair(Flatten(sections), cfgs, f) {
      PairAcceptIsReported(Flatten(sections), cfgs, ClashPick(cfgs), FoundPick(cfgs), f);
    }
  }

  /** The combination is valid exactly when no pair a < b of its blocks
      clashes. */
  lemma ValidMeansNoClash(sections: seq<seq<Block>>, cfgs: seq<ToponConfig>)
    ensures CombinationConflicts(sections, cfgs) == [] <==> NoPairClashes(Flatten(sections), cfgs)
  {
    PicksOfJudge(cfgs);
    NoClashFromPairs(Flatten(sections), cfgs, ClashPick(cfgs), FoundPick(cfgs));
    assert CombinationConflicts(sections, cfgs) == AllPairs(Flatten(sections), ClashPick(cfgs));
  }

  /** No pair a < b of the blocks, in order, clashes. */
  ghost predicate NoPairClashes(all: seq<Block>, cfgs: seq<ToponConfig>) {
    forall a, b :: 0 <= a < b < |all| ==> !Judge(all[a], all[b], cfgs).Clash?
  }

  lemma ReportedClashIsPair(all: seq<Block>, cfgs: seq<ToponConfig>,
                            clashes: (Block, Block) -> seq<Conflict>, accepts: (Block, Block) -> seq<FoundTopon>, c: Conflict)
    requires Picks(cfgs, clashes, accepts) && c in AllPairs(all, clashes)
    ensures ClashedPair(all, cfgs, c)
  {
    var a, b := BeforeSound(all, clashes, |all|, c);
    assert Judge(all[a], all[b], cfgs) == Clash(c);
  }

  lemma PairClashIsReported(all: seq<Block>, cfgs: seq<ToponConfig>,
                            clashes: (Block, Block) -> seq<Conflict>, accepts: (Block, Block) -> seq<FoundTopon>, c: Conflict)
    requires Picks(cfgs, clashes, accepts) && ClashedPair(all, cfgs, c)
    ensures c in AllPairs(all, clashes)
  {
    var a, b :| 0 <= a < b < |all| && Judge(all[a], all[b], cfgs) == Clash(c);
    assert c in clashes(all[a], all[b]);
    BeforeComplete(all, clashes, |all|, a, b, c);
  }

  lemma ReportedAcceptIsPair(all: seq<Block>, cfgs: seq<ToponConfig>,
                             clashes: (Block, Block) -> seq<Conflict>, accepts: (Block, Block) -> seq<FoundTopon>, f: FoundTopon)
    requires Picks(cfgs, clashes, accepts) && f in AllPairs(all, accepts)
    ensures AcceptedPair(all, cfgs, f)
  {
    var a, b := BeforeSound(all, accepts, |all|, f);
    assert Judge(all[a], all[b], cfgs) == Accepted(f);
  }

  lemma PairAcceptIsReported(all: seq<Block>, cfgs: seq<ToponConfig>,
                             clashes: (Block, Block) -> seq<Conflict>, accepts: (Block, Block) -> seq<FoundTopon>, f: FoundTopon)
    requires Picks(cfgs, clashes, accepts) && AcceptedPair(all, cfgs, f)
    ensures f in AllPairs(all, accepts)
  {
    var a, b :| 0 <= a < b < |all| && Judge(all[a], all[b], cfgs) == Accepted(f);
    assert f in accepts(all[a], all[b]);
    BeforeComplete(all, accepts, |all|, a, b, f);
  }

  lemma NoClashFromPairs(all: seq<Block>, cfgs: seq<ToponConfig>,
                         clashes: (Block, Block) -> seq<Conflict>, accepts: (Block, Block) -> seq<FoundTopon>)
    requires Picks(cfgs, clashes, accepts)
    ensures AllPairs(all, clashes) == [] <==> NoPairClashes(all, cfgs)
  {
    var out := AllPairs(all, clashes);
    if out == [] {
      forall a, b | 0 <= a < b < |all| ensures !Judge(all[a], all[b], cfgs).Clash? {
        if Judge(all[a], all[b], cfgs).Clash? {
          var c := Judge(all[a], all[b], cfgs).conflict;
          assert c in clashes(all[a], all[b]);
          BeforeComplete(all, clashes, |all|, a, b, c);
          assert false;
        }
      }
    } else {
      var a, b := BeforeSound(all, clashes, |all|, out[0]);
      assert Judge(all[a], all[b], cfgs).Clash?;
    }
  }

  // ---------------------------------------------------------------------
  // The loops

  /** is_valid_combination: concatenates the sections' blocks, examines
      every pair i < j in order, and reports validity, the conflicts and the
      accepted overlaps. */
  method IsValidCombination(sections: seq<seq<Block>>, cfgs: seq<ToponConfig>)
    returns (valid: bool, conflicts: seq<Conflict>, found: seq<FoundTopon>)
    ensures conflicts == CombinationConflicts(sections, cfgs)
    ensures found == CombinationFound(sections, cfgs)
    ensures valid <==> conflicts == []
  {
    var all := ConcatBlocks(sections);
    conflicts, found := ExamineAll(all, cfgs, ClashPick(cfgs), FoundPick(cfgs));
    valid := |conflicts| == 0;
  }

  /** The outer loop: row i for i = 0, 1, ... in order. */
  method ExamineAll(all: seq<Block>, cfgs: seq<ToponConfig>,
                    ghost clashes: (Block, Block) -> seq<Conflict>, ghost accepts: (Block, Block) -> seq<FoundTopon>)
    returns (conflicts: seq<Conflict>, found: seq<FoundTopon>)
    requires Picks(cfgs, clashes, accepts)
    ensures conflicts == AllPairs(all, clashes)
    ensures found == AllPairs(all, accepts)
  {
    conflicts, found := [], [];
    var i := 0;
    while i < |all|
      invariant 0 <= i <= |all|
      invariant conflicts == Before(all, clashes, i)
      invariant found == Before(all, accepts, i)
    {
      conflicts, found := ExamineRow(all, i, cfgs, clashes, accepts, conflicts, found);
      i := i + 1;
    }
    assert i == |all|;
  }

  /** The inner loop for block i: pairs (i, j) for j = i+1, ... in order. */
  method ExamineRow(all: seq<Block>, i: nat, cfgs: seq<ToponConfig>,
                    ghost clashes: (Block, Block) -> seq<Conflict>, ghost accepts: (Block, Block) -> seq<FoundTopon>,
                    conflicts0: seq<Conflict>, found0: seq<FoundTopon>)
    returns (conflicts: seq<Conflict>, found: seq<FoundTopon>)
    requires i < |all| && Picks(cfgs, clashes, accepts)
    ensures conflicts == conflicts0 + Row(all, clashes, i, |all|)
    ensures found == found0 + Row(all, accepts, i, |all|)
  {
    conflicts, found := conflicts0, found0;
    var j := i + 1;
    while j < |all|
      invariant i + 1 <= j <= |all|
      invariant conflicts == conflicts0 + Row(all, clashes, i, j)
      invariant found == found0 + Row(all, accepts, i, j)
    {
      conflicts, found := ExaminePair(all[i], all[j], cfgs, conflicts, found);
      AppendAssoc(conflicts0, Row(all, clashes, i, j), clashes(all[i], all[j]));
      AppendAssoc(found0, Row(all, accepts, i, j), accepts(all[i], all[j]));
      j := j + 1;
    }
    assert j == |all|;
  }

  /** all_blocks.extend(blocks) for each section in turn. */
  method ConcatBlocks(sections: seq<seq<Block>>) returns (all: seq<Block>)
    ensures all == Flatten(sections)
  {
    all := [];
    var k := 0;
    while k < |sections|
      invariant 0 <= k <= |sections|
      invariant all == Flatten(sections[..k])
    {
      assert sections[..k + 1][..k] == sections[..k];
      all := all + sections[k];
      k := k + 1;
    }
    assert sections[..|sections|] == sections;
  }

  /** One pair: the overlap test, then the exception or the travel rule. */
  method ExaminePair(b1: Block, b2: Block, cfgs: seq<ToponConfig>, conflicts0: seq<Conflict>, found0: seq<FoundTopon>)
    returns (conflicts: seq<Conflict>, found: seq<FoundTopon>)
    ensures conflicts == conflicts0 + ClashOf(Judge(b1, b2, cfgs))
    ensures found == found0 + FoundOf(Judge(b1, b2, cfgs))
  {
    conflicts, found := conflicts0, found0;
    if BlocksOverlap(b1, b2) {
      var topon := IsValidTopon(b1, b2, cfgs);
      if topon.Some? {
        found := found + [FoundTopon(topon.value, b1, b2)];
      } else {
        conflicts := conflicts + [OverlapConflict(b1, b2)];
      }
    } else {
      var travel := CheckTravelTime(b1, b2);
      if travel.TravelShort? {
        conflicts := conflicts + [TravelConflict(b1, b2, travel.shortfall)];
      }
    }
  }
}
