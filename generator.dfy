/** generate_schedules (app.py:323-499): the options of every selected
    course, every combination of one option per course in itertools order,
    the verdict of is_valid_combination on each, and the returned list:
    the clean schedules by score, then those with accepted BACH1121
    overlaps by score, then, when asked for, those with conflicts by
    number of conflicts and score. The data frame is the Catalog of the
    Options module; calculate_schedule_score is an opaque parameter. */
module Generator {
  import opened Records
  import opened Conflicts
  import opened Pairs
  import opened Combination
  import opened Options
  import opened Products
  import opened Ranking

  // ---------------------------------------------------------------------
  // The verdict on one combination

  /** What is_valid_combination returns for one combination. */
  datatype Evaluation = Evaluation(valid: bool, conflicts: seq<Conflict>, found: seq<FoundTopon>)

  function EvaluationOf(sections: seq<seq<Block>>, cfgs: seq<ToponConfig>): Evaluation {
    var cs := CombinationConflicts(sections, cfgs);
    Evaluation(cs == [], cs, CombinationFound(sections, cfgs))
  }

  /** is_valid_combination with the configured overlaps fixed. */
  function EvaluatorOf(cfgs: seq<ToponConfig>): seq<seq<Block>> -> Evaluation {
    sections => EvaluationOf(sections, cfgs)
  }

  /** ev gives the verdict is_valid_combination gives under cfgs. */
  ghost predicate EvaluatesAs(cfgs: seq<ToponConfig>, ev: seq<seq<Block>> -> Evaluation) {
    forall sections {:trigger EvaluationOf(sections, cfgs)} :: ev(sections) == EvaluationOf(sections, cfgs)
  }

  lemma EvaluatorEvaluates(cfgs: seq<ToponConfig>)
    ensures EvaluatesAs(cfgs, EvaluatorOf(cfgs))
  {
  }

  /** Runs is_valid_combination on one combination. */
  method Evaluate(sections: seq<seq<Block>>, cfgs: seq<ToponConfig>, ghost ev: seq<seq<Block>> -> Evaluation)
    returns (e: Evaluation)
    requires EvaluatesAs(cfgs, ev)
    ensures e == ev(sections)
  {
    var valid, conflicts, found := IsValidCombination(sections, cfgs);
    e := Evaluation(valid, conflicts, found);
    assert e == EvaluationOf(sections, cfgs);
  }

  // ---------------------------------------------------------------------
  // One schedule

  /** The sections entry of every option, in combination order. */
  function SectionsOf(combo: seq<Choice>): seq<SectionInfo>
  {
    if combo == [] then []
    else SectionsOf(combo[..|combo| - 1]) + [SectionInfo(combo[|combo| - 1].course, combo[|combo| - 1].section, combo[|combo| - 1].group)]
  }

  /** The block lists of the options, in combination order. */
  function BlockLists(combo: seq<Choice>): seq<seq<Block>>
  {
    if combo == [] then [] else BlockLists(combo[..|combo| - 1]) + [combo[|combo| - 1].blocks]
  }

  /** The message of every entry, in order. */
  function Texts<T>(xs: seq<T>, message: T -> string): seq<string> {
    if xs == [] then [] else Texts(xs[..|xs| - 1], message) + [message(xs[|xs| - 1])]
  }

  /** The set of conflict kinds. */
  function KindsOf(cs: seq<Conflict>): set<ConflictKind>
  {
    if cs == [] then {} else KindsOf(cs[..|cs| - 1]) + {cs[|cs| - 1].Kind()}
  }

  /** The set of accepted overlap types. */
  function TypesOf(fs: seq<FoundTopon>): set<ToponType>
  {
    if fs == [] then {} else TypesOf(fs[..|fs| - 1]) + {fs[|fs| - 1].toponType}
  }

  /** The schedule record of a combination with its verdict and score. */
  function ScheduleOf(combo: seq<Choice>, e: Evaluation, score: real): Schedule {
    Schedule(SectionsOf(combo), Flatten(BlockLists(combo)), score, !e.valid, |e.found| > 0,
             Texts(e.conflicts, ConflictMessage), KindsOf(e.conflicts), Texts(e.found, FoundMessage), TypesOf(e.found))
  }

  /** The three lists a schedule can go to. */
  datatype Bucket = Clean | WithTopones | Conflicted

  function BucketOf(s: Schedule): Bucket {
    if !s.hasConflicts && s.hasValidTopones then WithTopones
    else if !s.hasConflicts then Clean
    else Conflicted
  }

  /** What a schedule record holds: one sections entry per option in
      order, the options' blocks in order, the verdict's flags, one message
      per conflict and per accepted overlap in order, and the sets of their
      kinds. */
  lemma {:induction false} ScheduleFields(combo: seq<Choice>, e: Evaluation, score: real)
    ensures var s := ScheduleOf(combo, e, score);
      && |s.sections| == |combo|
      && (forall i :: 0 <= i < |combo| ==> s.sections[i] == SectionInfo(combo[i].course, combo[i].section, combo[i].group))
      && (forall b :: b in s.blocks <==> exists i :: 0 <= i < |combo| && b in combo[i].blocks)
      && s.score == score && (s.hasConflicts <==> !e.valid) && (s.hasValidTopones <==> e.found != [])
      && |s.conflicts| == |e.conflicts|
      && (forall i :: 0 <= i < |e.conflicts| ==> s.conflicts[i] == ConflictMessage(e.conflicts[i]))
      && (forall k :: k in s.conflictTypes <==> exists i :: 0 <= i < |e.conflicts| && e.conflicts[i].Kind() == k)
      && |s.validTopones| == |e.found|
      && (forall i :: 0 <= i < |e.found| ==> s.validTopones[i] == FoundMessage(e.found[i]))
      && (forall t :: t in s.validToponTypes <==> exists i :: 0 <= i < |e.found| && e.found[i].toponType == t)
  {
    SectionsOfEntries(combo);
    BlockListsEntries(combo);
    TextsEntries(e.conflicts, ConflictMessage);
    TextsEntries(e.found, FoundMessage);
    KindsOfMembers(e.conflicts);
    TypesOfMembers(e.found);
    var lists := BlockLists(combo);
    forall b
      ensures b in Flatten(lists) <==> exists i :: 0 <= i < |combo| && b in combo[i].blocks
    {
      FlattenMembers(lists, b);
    }
  }

  lemma {:induction false} SectionsOfEntries(combo: seq<Choice>)
    ensures |SectionsOf(combo)| == |combo|
    ensures forall i :: 0 <= i < |combo| ==> SectionsOf(combo)[i] == SectionInfo(combo[i].course, combo[i].section, combo[i].group)
  {
    if combo != [] {
      SectionsOfEntries(combo[..|combo| - 1]);
    }
  }

  lemma {:induction false} BlockListsEntries(combo: seq<Choice>)
    ensures |BlockLists(combo)| == |combo|
    ensures forall i :: 0 <= i < |combo| ==> BlockLists(combo)[i] == combo[i].blocks
  {
    if combo != [] {
      BlockListsEntries(combo[..|combo| - 1]);
    }
  }

  lemma {:induction false} TextsEntries<T>(xs: seq<T>, message: T -> string)
    ensures |Texts(xs, message)| == |xs|
    ensures forall i :: 0 <= i < |xs| ==> Texts(xs, message)[i] == message(xs[i])
  {
    if xs != [] {
      TextsEntries(xs[..|xs| - 1], message);
    }
  }

  lemma {:induction false} KindsOfMembers(cs: seq<Conflict>)
    ensures forall k :: k in KindsOf(cs) <==> exists i :: 0 <= i < |cs| && cs[i].Kind() == k
  {
    if cs != [] {
      var init := cs[..|cs| - 1];
      KindsOfMembers(init);
      forall k | k in KindsOf(init)
        ensures exists i :: 0 <= i < |cs| && cs[i].Kind() == k
      {
        var i :| 0 <= i < |init| && init[i].Kind() == k;
        assert cs[i].Kind() == k;
      }
      forall k | exists i :: 0 <= i < |cs| && cs[i].Kind() == k
        ensures k in KindsOf(cs)
      {
        var i :| 0 <= i < |cs| && cs[i].Kind() == k;
        if i < |cs| - 1 {
          assert init[i] == cs[i];
        }
      }
    }
  }

  lemma {:induction false} TypesOfMembers(fs: seq<FoundTopon>)
    ensures forall t :: t in TypesOf(fs) <==> exists i :: 0 <= i < |fs| && fs[i].toponType == t
  {
    if fs != [] {
      var init := fs[..|fs| - 1];
      TypesOfMembers(init);
      forall t | t in TypesOf(init)
        ensures exists i :: 0 <= i < |fs| && fs[i].toponType == t
      {
        var i :| 0 <= i < |init| && init[i].toponType == t;
        assert fs[i].toponType == t;
      }
      forall t | exists i :: 0 <= i < |fs| && fs[i].toponType == t
        ensures t in TypesOf(fs)
      {
        var i :| 0 <= i < |fs| && fs[i].toponType == t;
        if i < |fs| - 1 {
          assert init[i] == fs[i];
        }
      }
    }
  }

  /** The list the source's branches pick from a verdict. */
  function Verdict(e: Evaluation): Bucket {
    if e.valid && |e.found| > 0 then WithTopones
    else if e.valid then Clean
    else Conflicted
  }

  /** The schedules of one bucket, in order. */
  function InBucket(ss: seq<Schedule>, b: Bucket): seq<Schedule> {
    if ss == [] then []
    else InBucket(ss[..|ss| - 1], b) + (if BucketOf(ss[|ss| - 1]) == b then [ss[|ss| - 1]] else [])
  }

  // ---------------------------------------------------------------------
  // The whole generation

  /** The non-empty option lists of the selected courses, in order. */
  function CourseSections(cat: Catalog, configs: CourseConfigs, selected: seq<string>): seq<seq<Choice>> {
    if selected == [] then []
    else
      var opts := CourseOptions(cat, configs, selected[|selected| - 1]);
      CourseSections(cat, configs, selected[..|selected| - 1]) + (if opts == [] then [] else [opts])
  }

  /** The schedule of every combination, in order. */
  function Built(combos: seq<seq<Choice>>, ev: seq<seq<Block>> -> Evaluation, score: seq<seq<Block>> -> real): seq<Schedule> {
    if combos == [] then []
    else
      var c := combos[|combos| - 1];
      Built(combos[..|combos| - 1], ev, score) + [ScheduleOf(c, ev(BlockLists(c)), score(BlockLists(c)))]
  }

  /** The schedules generate_schedules returns. */
  function Generated(selected: seq<string>, cat: Catalog, gcfgs: seq<GroupConfig>,
                     ev: seq<seq<Block>> -> Evaluation, score: seq<seq<Block>> -> real, withConflicts: bool): seq<Schedule> {
    if selected == [] then []
    else
      var sections := CourseSections(cat, ConfigsOf(gcfgs), selected);
      if |sections| != |selected| then []
      else
        Result(Built(Product(sections), ev, score), withConflicts)
  }

  /** The three sorted lists, the last one only when conflicts are wanted. */
  function Result(built: seq<Schedule>, withConflicts: bool): seq<Schedule> {
    Sorted(built, Clean) + Sorted(built, WithTopones) + (if withConflicts then Sorted(built, Conflicted) else [])
  }

  /** One list, sorted: by score, or for the conflict list by number of
      conflicts and score. */
  function Sorted(built: seq<Schedule>, b: Bucket): seq<Schedule> {
    SortSchedules(InBucket(built, b), b == Conflicted)
  }

  /** generate_schedules. */
  method GenerateSchedules(selected: seq<string>, cat: Catalog, gcfgs: seq<GroupConfig>, cfgs: seq<ToponConfig>,
                           score: seq<seq<Block>> -> real, withConflicts: bool)
    returns (result: seq<Schedule>)
    ensures result == Generated(selected, cat, gcfgs, EvaluatorOf(cfgs), score, withConflicts)
  {
    if |selected| == 0 {
      return [];
    }
    var configs := NormalizeGroupConfigs(gcfgs);
    var sections := CollectSections(cat, configs, selected);
    if |sections| != |selected| {
      return [];
    }
    EvaluatorEvaluates(cfgs);
    var clean, topon, conflicted := Classify(Product(sections), cfgs, score, withConflicts, EvaluatorOf(cfgs));
    result := SortSchedules(clean, false) + SortSchedules(topon, false);
    if withConflicts {
      result := result + SortSchedules(conflicted, true);
    }
  }

  /** The loop over the selected courses that keeps the non-empty option
      lists. */
  method CollectSections(cat: Catalog, configs: CourseConfigs, selected: seq<string>) returns (sections: seq<seq<Choice>>)
    ensures sections == CourseSections(cat, configs, selected)
  {
    sections := [];
    var k := 0;
    while k < |selected|
      invariant 0 <= k <= |selected|
      invariant sections == CourseSections(cat, configs, selected[..k])
    {
      var opts := BuildCourseOptions(cat, configs, selected[k]);
      assert selected[..k + 1][..k] == selected[..k];
      if opts != [] {
        sections := sections + [opts];
      }
      k := k + 1;
    }
    assert selected[..k] == selected;
  }

  /** The loop over the combinations: each one is judged, scored and put
      on its list; a conflicting one is dropped unless conflicts are
      wanted. */
  method Classify(combos: seq<seq<Choice>>, cfgs: seq<ToponConfig>, score: seq<seq<Block>> -> real, withConflicts: bool,
                  ghost ev: seq<seq<Block>> -> Evaluation)
    returns (clean: seq<Schedule>, topon: seq<Schedule>, conflicted: seq<Schedule>)
    requires EvaluatesAs(cfgs, ev)
    ensures clean == InBucket(Built(combos, ev, score), Clean)
    ensures topon == InBucket(Built(combos, ev, score), WithTopones)
    ensures conflicted == if withConflicts then InBucket(Built(combos, ev, score), Conflicted) else []
  {
    clean, topon, conflicted := [], [], [];
    var k := 0;
    while k < |combos|
      invariant 0 <= k <= |combos|
      invariant clean == InBucket(Built(combos[..k], ev, score), Clean)
      invariant topon == InBucket(Built(combos[..k], ev, score), WithTopones)
      invariant conflicted == if withConflicts then InBucket(Built(combos[..k], ev, score), Conflicted) else []
    {
      var combo := combos[k];
      var lists := BlockLists(combo);
      var e := Evaluate(lists, cfgs, ev);
      var s := ScheduleOf(combo, e, score(lists));
      BuiltStep(combos, k, ev, score);
      clean, topon, conflicted := Route(s, e, withConflicts, clean, topon, conflicted);
      k := k + 1;
    }
    assert combos[..k] == combos;
  }

  /** The branches that put a schedule on its list. */
  method Route(s: Schedule, e: Evaluation, withConflicts: bool,
               clean0: seq<Schedule>, topon0: seq<Schedule>, conflicted0: seq<Schedule>)
    returns (clean: seq<Schedule>, topon: seq<Schedule>, conflicted: seq<Schedule>)
    ensures clean == clean0 + (if Verdict(e) == Clean then [s] else [])
    ensures topon == topon0 + (if Verdict(e) == WithTopones then [s] else [])
    ensures conflicted == conflicted0 + (if withConflicts && Verdict(e) == Conflicted then [s] else [])
  {
    clean, topon, conflicted := clean0, topon0, conflicted0;
    if e.valid && |e.found| > 0 {
      topon := topon + [s];
    } else if e.valid {
      clean := clean + [s];
    } else if withConflicts {
      conflicted := conflicted + [s];
    }
  }

  /** One more combination adds its schedule to the list of its verdict
      and to no other. */
  lemma BuiltStep(combos: seq<seq<Choice>>, k: nat, ev: seq<seq<Block>> -> Evaluation, score: seq<seq<Block>> -> real)
    requires k < |combos|
    ensures var e := ev(BlockLists(combos[k]));
      var s := ScheduleOf(combos[k], e, score(BlockLists(combos[k])));
      && InBucket(Built(combos[..k + 1], ev, score), Clean) == InBucket(Built(combos[..k], ev, score), Clean) + (if Verdict(e) == Clean then [s] else [])
      && InBucket(Built(combos[..k + 1], ev, score), WithTopones) == InBucket(Built(combos[..k], ev, score), WithTopones) + (if Verdict(e) == WithTopones then [s] else [])
      && InBucket(Built(combos[..k + 1], ev, score), Conflicted) == InBucket(Built(combos[..k], ev, score), Conflicted) + (if Verdict(e) == Conflicted then [s] else [])
  {
    assert combos[..k + 1][..k] == combos[..k];
    var e := ev(BlockLists(combos[k]));
    var s := ScheduleOf(combos[k], e, score(BlockLists(combos[k])));
    assert Built(combos[..k + 1], ev, score) == Built(combos[..k], ev, score) + [s];
    assert BucketOf(s) == Verdict(e);
  }

  // ---------------------------------------------------------------------
  // What the verdict flags mean

  /** With is_valid_combination's verdict, a schedule has conflicts exactly
      when two of its blocks, in order, clash, and has accepted overlaps
      exactly when two of them overlap under a configured exception. */
  lemma ScheduleFlags(combo: seq<Choice>, cfgs: seq<ToponConfig>, score: real)
    ensures var s := ScheduleOf(combo, EvaluationOf(BlockLists(combo), cfgs), score);
      && (s.hasConflicts <==> exists a, b :: 0 <= a < b < |s.blocks| && Judge(s.blocks[a], s.blocks[b], cfgs).Clash?)
      && (s.hasValidTopones <==> exists f :: AcceptedPair(s.blocks, cfgs, f))
  {
    var lists := BlockLists(combo);
    var found := CombinationFound(lists, cfgs);
    ValidMeansNoClash(lists, cfgs);
    if found != [] {
      FoundArePairAccepts(lists, cfgs, found[0]);
    }
    if f :| AcceptedPair(Flatten(lists), cfgs, f) {
      FoundArePairAccepts(lists, cfgs, f);
    }
  }

  // ---------------------------------------------------------------------
  // What generate_schedules returns

  /** The position of each list in the result. */
  function Rank(b: Bucket): nat {
    match b
    case Clean => 0
    case WithTopones => 1
    case Conflicted => 2
  }

  /** s may come before t in the result: an earlier list, or the same list
      and a key not above t's. */
  predicate Precedes(s: Schedule, t: Schedule) {
    Rank(BucketOf(s)) < Rank(BucketOf(t))
    || (BucketOf(s) == BucketOf(t) && KeyLe(KeyOf(s, BucketOf(s) == Conflicted), KeyOf(t, BucketOf(t) == Conflicted)))
  }

  predicate Listed(ss: seq<Schedule>) {
    forall i, j :: 0 <= i < j < |ss| ==> Precedes(ss[i], ss[j])
  }

  /** Nothing is generated for an empty selection, nor when some selected
      course has no option at all. */
  lemma GeneratedNothing(selected: seq<string>, cat: Catalog, gcfgs: seq<GroupConfig>,
                         ev: seq<seq<Block>> -> Evaluation, score: seq<seq<Block>> -> real, withConflicts: bool, k: nat)
    requires k < |selected|
    requires CourseOptions(cat, ConfigsOf(gcfgs), selected[k]) == []
    ensures Generated(selected, cat, gcfgs, ev, score, withConflicts) == []
  {
    CourseSectionsFull(cat, ConfigsOf(gcfgs), selected);
  }

  /** The option lists of the selected courses, one per course. */
  function OptionLists(cat: Catalog, configs: CourseConfigs, selected: seq<string>): (r: seq<seq<Choice>>)
    ensures |r| == |selected|
    ensures forall k :: 0 <= k < |selected| ==> r[k] == CourseOptions(cat, configs, selected[k])
  {
    seq(|selected|, k requires 0 <= k < |selected| => CourseOptions(cat, configs, selected[k]))
  }

  /** The non-empty lists, in order. */
  function NonEmpty(lists: seq<seq<Choice>>): seq<seq<Choice>> {
    if lists == [] then []
    else NonEmpty(lists[..|lists| - 1]) + (if lists[|lists| - 1] == [] then [] else [lists[|lists| - 1]])
  }

  /** The `if opts` test keeps the non-empty option lists. */
  lemma {:induction false} CourseSectionsKept(cat: Catalog, configs: CourseConfigs, selected: seq<string>)
    ensures CourseSections(cat, configs, selected) == NonEmpty(OptionLists(cat, configs, selected))
  {
    if selected != [] {
      var init := selected[..|selected| - 1];
      CourseSectionsKept(cat, configs, init);
      assert OptionLists(cat, configs, selected)[..|selected| - 1] == OptionLists(cat, configs, init);
    }
  }

  /** Keeping the non-empty lists keeps all of them exactly when none is
      empty, and then keeps them in place. */
  lemma {:induction false} NonEmptyFull(lists: seq<seq<Choice>>)
    ensures |NonEmpty(lists)| <= |lists|
    ensures |NonEmpty(lists)| == |lists| <==> forall k :: 0 <= k < |lists| ==> lists[k] != []
    ensures |NonEmpty(lists)| == |lists| ==> NonEmpty(lists) == lists
  {
    if lists != [] {
      var init := lists[..|lists| - 1];
      NonEmptyFull(init);
      forall k | 0 <= k < |init|
        ensures init[k] == lists[k]
      {
      }
      if |NonEmpty(lists)| == |lists| {
        assert NonEmpty(lists) == init + [lists[|lists| - 1]];
        assert init + [lists[|lists| - 1]] == lists;
      }
    }
  }

  /** The kept option lists are the selected courses' own, in order, and
      all of them are kept exactly when none is empty. */
  lemma {:induction false} CourseSectionsFull(cat: Catalog, configs: CourseConfigs, selected: seq<string>)
    ensures |CourseSections(cat, configs, selected)| <= |selected|
    ensures |CourseSections(cat, configs, selected)| == |selected| <==>
      forall k :: 0 <= k < |selected| ==> CourseOptions(cat, configs, selected[k]) != []
    ensures |CourseSections(cat, configs, selected)| == |selected| ==>
      forall k :: 0 <= k < |selected| ==> CourseSections(cat, configs, selected)[k] == CourseOptions(cat, configs, selected[k])
  {
    var lists := OptionLists(cat, configs, selected);
    CourseSectionsKept(cat, configs, selected);
    NonEmptyFull(lists);
  }

  /** A schedule is returned exactly when the selection is non-empty, every
      course has options, the schedule is that of a combination of the
      product, and it has no conflicts or conflicts are wanted. */
  lemma GeneratedMembers(selected: seq<string>, cat: Catalog, gcfgs: seq<GroupConfig>,
                         ev: seq<seq<Block>> -> Evaluation, score: seq<seq<Block>> -> real, withConflicts: bool, s: Schedule)
    ensures var sections := CourseSections(cat, ConfigsOf(gcfgs), selected);
      s in Generated(selected, cat, gcfgs, ev, score, withConflicts) <==>
        selected != [] && |sections| == |selected| && s in Built(Product(sections), ev, score)
        && (withConflicts || !s.hasConflicts)
  {
    var sections := CourseSections(cat, ConfigsOf(gcfgs), selected);
    if selected != [] && |sections| == |selected| {
      var built := Built(Product(sections), ev, score);
      SortedMembers(built, Clean, s);
      SortedMembers(built, WithTopones, s);
      SortedMembers(built, Conflicted, s);
      ResultMembers(built, withConflicts, s);
    }
  }

  /** The sorted list of a bucket holds the schedules of that bucket. */
  lemma SortedMembers(built: seq<Schedule>, b: Bucket, s: Schedule)
    ensures s in Sorted(built, b) <==> s in built && BucketOf(s) == b
  {
    SortPermutes(InBucket(built, b), b == Conflicted);
    InBucketMembers(built, b, s);
    assert s in Sorted(built, b) <==> s in multiset(InBucket(built, b));
  }

  /** Membership in the concatenated result. */
  lemma ResultMembers(built: seq<Schedule>, withConflicts: bool, s: Schedule)
    requires forall b :: s in Sorted(built, b) <==> s in built && BucketOf(s) == b
    ensures s in Result(built, withConflicts) <==> s in built && (withConflicts || !s.hasConflicts)
  {
    var a := Sorted(built, Clean);
    var t := Sorted(built, WithTopones);
    var c := if withConflicts then Sorted(built, Conflicted) else [];
    assert Result(built, withConflicts) == a + t + c;
    assert s in a + t + c <==> s in a || s in t || s in c;
    assert s in a <==> s in built && BucketOf(s) == Clean;
    assert s in t <==> s in built && BucketOf(s) == WithTopones;
    assert withConflicts ==> (s in c <==> s in built && BucketOf(s) == Conflicted);
  }

  /** With conflicts wanted and every course offering options, every
      combination of the product is returned exactly once. */
  lemma GeneratedCount(selected: seq<string>, cat: Catalog, gcfgs: seq<GroupConfig>,
                       ev: seq<seq<Block>> -> Evaluation, score: seq<seq<Block>> -> real)
    requires selected != []
    requires forall k :: 0 <= k < |selected| ==> CourseOptions(cat, ConfigsOf(gcfgs), selected[k]) != []
    ensures var sections := CourseSections(cat, ConfigsOf(gcfgs), selected);
      && multiset(Generated(selected, cat, gcfgs, ev, score, true)) == multiset(Built(Product(sections), ev, score))
      && |Generated(selected, cat, gcfgs, ev, score, true)| == Count(sections)
  {
    var sections := CourseSections(cat, ConfigsOf(gcfgs), selected);
    CourseSectionsFull(cat, ConfigsOf(gcfgs), selected);
    var built := Built(Product(sections), ev, score);
    SortPermutes(InBucket(built, Clean), false);
    SortPermutes(InBucket(built, WithTopones), false);
    SortPermutes(InBucket(built, Conflicted), true);
    InBucketPartition(built);
    BuiltSize(Product(sections), ev, score);
    ProductSize(sections);
    assert |Generated(selected, cat, gcfgs, ev, score, true)| == |multiset(built)|;
  }

  /** The result lists the clean schedules, then those with accepted
      overlaps, then those with conflicts; each list by score descending,
      the last by number of conflicts first. */
  lemma GeneratedOrder(selected: seq<string>, cat: Catalog, gcfgs: seq<GroupConfig>,
                       ev: seq<seq<Block>> -> Evaluation, score: seq<seq<Block>> -> real, withConflicts: bool)
    ensures Listed(Generated(selected, cat, gcfgs, ev, score, withConflicts))
  {
    var sections := CourseSections(cat, ConfigsOf(gcfgs), selected);
    if selected != [] && |sections| == |selected| {
      ResultListed(Built(Product(sections), ev, score), withConflicts);
    }
  }

  /** The three sorted lists in a row are listed in order. */
  lemma ResultListed(built: seq<Schedule>, withConflicts: bool)
    ensures Listed(Result(built, withConflicts))
  {
    var a := Sorted(built, Clean);
    var t := Sorted(built, WithTopones);
    var c := if withConflicts then Sorted(built, Conflicted) else [];
    SegmentListed(built, Clean);
    SegmentListed(built, WithTopones);
    SegmentListed(built, Conflicted);
    ConcatListed(a, t);
    ConcatListed(a + t, c);
  }

  /** Schedules of one list with equal keys keep the order of their
      combinations in the product. */
  lemma GeneratedStable(selected: seq<string>, cat: Catalog, gcfgs: seq<GroupConfig>,
                        ev: seq<seq<Block>> -> Evaluation, score: seq<seq<Block>> -> real, withConflicts: bool,
                        b: Bucket, k: SortKey)
    requires b != Conflicted || withConflicts
    requires selected != []
    requires |CourseSections(cat, ConfigsOf(gcfgs), selected)| == |selected|
    ensures var built := Built(Product(CourseSections(cat, ConfigsOf(gcfgs), selected)), ev, score);
      WithKey(InBucket(Generated(selected, cat, gcfgs, ev, score, withConflicts), b), b == Conflicted, k)
      == WithKey(InBucket(built, b), b == Conflicted, k)
  {
    var built := Built(Product(CourseSections(cat, ConfigsOf(gcfgs), selected)), ev, score);
    ResultBucket(built, withConflicts, b);
    SortStable(InBucket(built, b), b == Conflicted, k);
  }

  /** Each list of the result is its bucket's list, sorted. */
  lemma ResultBucket(built: seq<Schedule>, withConflicts: bool, b: Bucket)
    requires b != Conflicted || withConflicts
    ensures InBucket(Result(built, withConflicts), b) == Sorted(built, b)
  {
    var a := Sorted(built, Clean);
    var t := Sorted(built, WithTopones);
    var c := if withConflicts then Sorted(built, Conflicted) else [];
    InBucketAppend(a + t, c, b);
    InBucketAppend(a, t, b);
    SortedInBucket(built, Clean, b);
    SortedInBucket(built, WithTopones, b);
    if withConflicts {
      SortedInBucket(built, Conflicted, b);
    } else {
      assert InBucket(c, b) == [];
    }
  }

  /** Selecting a bucket from a sorted list keeps all of it or nothing. */
  lemma SortedInBucket(built: seq<Schedule>, own: Bucket, b: Bucket)
    ensures InBucket(Sorted(built, own), b) == if b == own then Sorted(built, own) else []
  {
    SegmentBucket(built, own);
    InBucketAll(Sorted(built, own), b, own);
  }

  // ---------------------------------------------------------------------
  // Helpers about the lists

  lemma {:induction false} InBucketMembers(ss: seq<Schedule>, b: Bucket, s: Schedule)
    ensures s in InBucket(ss, b) <==> s in ss && BucketOf(s) == b
  {
    if ss != [] {
      InBucketMembers(ss[..|ss| - 1], b, s);
      assert ss == ss[..|ss| - 1] + [ss[|ss| - 1]];
    }
  }

  /** Every schedule is in exactly one list. */
  lemma InBucketPartition(ss: seq<Schedule>)
    ensures multiset(InBucket(ss, Clean)) + multiset(InBucket(ss, WithTopones)) + multiset(InBucket(ss, Conflicted)) == multiset(ss)
  {
    var m := multiset(InBucket(ss, Clean)) + multiset(InBucket(ss, WithTopones)) + multiset(InBucket(ss, Conflicted));
    forall x
      ensures m[x] == multiset(ss)[x]
    {
      InBucketCount(ss, Clean, x);
      InBucketCount(ss, WithTopones, x);
      InBucketCount(ss, Conflicted, x);
    }
  }

  /** A list holds every copy of the schedules that belong to it, and no
      other. */
  lemma {:induction false} InBucketCount(ss: seq<Schedule>, b: Bucket, x: Schedule)
    ensures multiset(InBucket(ss, b))[x] == if BucketOf(x) == b then multiset(ss)[x] else 0
  {
    if ss != [] {
      var init := ss[..|ss| - 1];
      var y := ss[|ss| - 1];
      InBucketCount(init, b, x);
      assert ss == init + [y];
      assert multiset(ss) == multiset(init) + multiset{y};
      var tail: seq<Schedule> := if BucketOf(y) == b then [y] else [];
      assert multiset(InBucket(ss, b)) == multiset(InBucket(init, b)) + multiset(tail);
    }
  }

  lemma {:induction false} InBucketAppend(a: seq<Schedule>, c: seq<Schedule>, b: Bucket)
    ensures InBucket(a + c, b) == InBucket(a, b) + InBucket(c, b)
  {
    if c == [] {
      assert a + c == a;
    } else {
      InBucketAppend(a, c[..|c| - 1], b);
      assert (a + c)[..|a + c| - 1] == a + c[..|c| - 1];
      assert (a + c)[|a + c| - 1] == c[|c| - 1];
    }
  }

  lemma {:induction false} InBucketAll(xs: seq<Schedule>, b: Bucket, b': Bucket)
    requires forall i :: 0 <= i < |xs| ==> BucketOf(xs[i]) == b'
    ensures InBucket(xs, b) == if b == b' then xs else []
  {
    if xs != [] {
      var init := xs[..|xs| - 1];
      InBucketAll(init, b, b');
      if b == b' {
        assert xs == init + [xs[|xs| - 1]];
      }
    }
  }

  /** One list sorted: in order, and all of it in that list. */
  lemma SegmentListed(built: seq<Schedule>, b: Bucket)
    ensures var r := Sorted(built, b);
      Listed(r) && forall i :: 0 <= i < |r| ==> BucketOf(r[i]) == b
  {
    SortOrdered(InBucket(built, b), b == Conflicted);
    SegmentBucket(built, b);
  }

  /** Everything in one sorted list belongs to that list. */
  lemma SegmentBucket(built: seq<Schedule>, b: Bucket)
    ensures var r := Sorted(built, b);
      forall i :: 0 <= i < |r| ==> BucketOf(r[i]) == b
  {
    var xs := InBucket(built, b);
    var r := SortSchedules(xs, b == Conflicted);
    SortPermutes(xs, b == Conflicted);
    forall i | 0 <= i < |r|
      ensures BucketOf(r[i]) == b
    {
      assert r[i] in multiset(xs);
      InBucketMembers(built, b, r[i]);
    }
  }

  /** Two listed runs, the first in earlier lists than the second. */
  lemma ConcatListed(a: seq<Schedule>, c: seq<Schedule>)
    requires Listed(a) && Listed(c)
    requires forall i, j :: 0 <= i < |a| && 0 <= j < |c| ==> Rank(BucketOf(a[i])) < Rank(BucketOf(c[j]))
    ensures Listed(a + c)
  {
    var r := a + c;
    forall i, j | 0 <= i < j < |r|
      ensures Precedes(r[i], r[j])
    {
      if j < |a| {
        assert r[i] == a[i] && r[j] == a[j];
      } else if i >= |a| {
        assert r[i] == c[i - |a|] && r[j] == c[j - |a|];
      } else {
        assert r[i] == a[i] && r[j] == c[j - |a|];
      }
    }
  }

  lemma {:induction false} BuiltSize(combos: seq<seq<Choice>>, ev: seq<seq<Block>> -> Evaluation, score: seq<seq<Block>> -> real)
    ensures |Built(combos, ev, score)| == |combos|
  {
    if combos != [] {
      BuiltSize(combos[..|combos| - 1], ev, score);
    }
  }
}
