/** The options generate_schedules offers for each selected course
    (app.py:344-437): the group configuration rearranged per course, and per
    course either one option per section and group or, for a configured
    section, one option that takes all of its required groups together. */
module Options {
  import opened Wrappers
  import opened Records
  import opened Strings

  // ---------------------------------------------------------------------
  // The group configuration, per course and section (app.py:344-357)

  /** One entry of the stored group configuration: its course, its section
      when one is given, and the groups to be taken together. */
  datatype GroupConfig = GroupConfig(course: string, section: Option<int>, groups: seq<int>)

  /** Only an entry with a course, a section and at least two groups is
      used. */
  predicate Qualifies(g: GroupConfig) {
    g.course != "" && g.section.Some? && |g.groups| >= 2
  }

  /** course -> section -> required groups. */
  type CourseConfigs = map<string, map<int, seq<int>>>

  /** One iteration of the loop over the entries: a qualifying entry sets
      its course's section, creating the course's map when needed. */
  function Store(m: CourseConfigs, g: GroupConfig): CourseConfigs {
    if Qualifies(g) then
      var inner := if g.course in m then m[g.course] else map[];
      m[g.course := inner[g.section.value := g.groups]]
    else m
  }

  /** The loop over the entries, in the configuration's order. */
  function ConfigsOf(gs: seq<GroupConfig>): CourseConfigs {
    if gs == [] then map[] else Store(ConfigsOf(gs[..|gs| - 1]), gs[|gs| - 1])
  }

  method NormalizeGroupConfigs(gs: seq<GroupConfig>) returns (m: CourseConfigs)
    ensures m == ConfigsOf(gs)
  {
    m := map[];
    var k := 0;
    while k < |gs|
      invariant 0 <= k <= |gs|
      invariant m == ConfigsOf(gs[..k])
    {
      var g := gs[k];
      assert gs[..k + 1][..k] == gs[..k];
      if g.course != "" && g.section.Some? && |g.groups| >= 2 {
        var inner := if g.course in m then m[g.course] else map[];
        m := m[g.course := inner[g.section.value := g.groups]];
      }
      k := k + 1;
    }
    assert gs[..|gs|] == gs;
  }

  /** The groups stored for a course and section, if any. */
  function Lookup(m: CourseConfigs, course: string, section: int): Option<seq<int>> {
    if course in m && section in m[course] then Some(m[course][section]) else None
  }

  /** The groups of the last qualifying entry for the course and section. */
  function LastGroups(gs: seq<GroupConfig>, course: string, section: int): (r: Option<seq<int>>)
    ensures r.Some? ==> |r.value| >= 2
  {
    if gs == [] then None
    else
      var g := gs[|gs| - 1];
      if Qualifies(g) && g.course == course && g.section == Some(section) then Some(g.groups)
      else LastGroups(gs[..|gs| - 1], course, section)
  }

  /** A later entry for the same course and section replaces an earlier
      one, and every course that is present has a section. */
  lemma {:induction false} ConfigsOfLookup(gs: seq<GroupConfig>, course: string, section: int)
    ensures Lookup(ConfigsOf(gs), course, section) == LastGroups(gs, course, section)
    ensures course in ConfigsOf(gs) ==> |ConfigsOf(gs)[course]| > 0
  {
    if gs != [] {
      ConfigsOfLookup(gs[..|gs| - 1], course, section);
    }
  }

  // ---------------------------------------------------------------------
  // The catalogue and the options

  /** A section and group of a course, as the spreadsheet lists them. */
  datatype SectionRow = SectionRow(psec: int, pgru: int)

  /** What the spreadsheet provides: a course's sections and groups in
      order, and the blocks of a course, section and group. */
  datatype Catalog = Catalog(sectionsOf: string -> seq<SectionRow>, blocksOf: (string, int, int) -> seq<Block>)

  /** One option of a course: a single group, or the '+'-joined required
      groups of a configured section with all their blocks. */
  datatype Choice = Choice(course: string, section: int, group: GroupLabel, blocks: seq<Block>)

  /** The decimal texts of the groups. */
  function GroupTexts(gs: seq<int>): (r: seq<string>)
    ensures |r| == |gs| && forall k :: 0 <= k < |gs| ==> r[k] == IntToString(gs[k])
  {
    if gs == [] then [] else GroupTexts(gs[..|gs| - 1]) + [IntToString(gs[|gs| - 1])]
  }

  /** '+'.join(map(str, groups)). */
  function JoinGroups(gs: seq<int>): string {
    if gs == [] then "" else Join(GroupTexts(gs), '+')
  }

  /** The combined label splits back into the groups' texts. */
  lemma JoinGroupsSplits(gs: seq<int>)
    requires gs != []
    ensures Split(JoinGroups(gs), '+') == GroupTexts(gs)
  {
    var texts := GroupTexts(gs);
    forall k | 0 <= k < |texts| ensures '+' !in texts[k] {
      NoPlusInInt(gs[k]);
    }
    SplitJoin(texts, '+');
  }

  lemma NoPlusInInt(n: int)
    ensures '+' !in IntToString(n)
  {
    var d := NatToString(if n < 0 then -n else n);
    NatToStringRoundTrip(if n < 0 then -n else n);
    assert IntToString(n) == (if n < 0 then "-" else "") + d;
  }

  /** The blocks of one group of one section of the course. */
  function GroupBlocks(cat: Catalog, course: string, psec: int, g: int): seq<Block> {
    cat.blocksOf(course, psec, g)
  }

  /** The blocks of the required groups, group after group. */
  function CombinedBlocks(cat: Catalog, course: string, psec: int, gs: seq<int>): seq<Block> {
    if gs == [] then [] else CombinedBlocks(cat, course, psec, gs[..|gs| - 1]) + GroupBlocks(cat, course, psec, gs[|gs| - 1])
  }

  /** One option per listed group that has blocks, in the listed order. */
  function Individual(cat: Catalog, course: string, rows: seq<SectionRow>): seq<Choice> {
    if rows == [] then []
    else
      var r := rows[|rows| - 1];
      var bs := GroupBlocks(cat, course, r.psec, r.pgru);
      Individual(cat, course, rows[..|rows| - 1]) + (if bs != [] then [Choice(course, r.psec, GroupNo(r.pgru), bs)] else [])
  }

  /** The groups listed for a section. */
  function Pgrus(rows: seq<SectionRow>): (r: seq<int>)
    ensures |r| == |rows| && forall k :: 0 <= k < |rows| ==> r[k] == rows[k].pgru
  {
    if rows == [] then [] else Pgrus(rows[..|rows| - 1]) + [rows[|rows| - 1].pgru]
  }

  /** Every required group is among the available ones. */
  predicate AllAvailable(required: seq<int>, available: seq<int>) {
    forall k :: 0 <= k < |required| ==> required[k] in available
  }

  /** The options of one section of a configured course: for a configured
      section, the combined option when its groups are all listed and have
      blocks, otherwise nothing; an unconfigured section gives one option
      per group that has blocks. */
  function SectionOptions(cat: Catalog, course: string, psec: int, rows: seq<SectionRow>, sectionConfigs: map<int, seq<int>>): seq<Choice> {
    if psec in sectionConfigs then
      var required := sectionConfigs[psec];
      if AllAvailable(required, Pgrus(rows)) then
        var bs := CombinedBlocks(cat, course, psec, required);
        if bs != [] then [Choice(course, psec, Joined(JoinGroups(required)), bs)] else []
      else []
    else Individual(cat, course, rows)
  }

  // ---------------------------------------------------------------------
  // Sections grouped by psec, in order of first appearance (sections_by_psec)

  /** The distinct sections, in order of first appearance. */
  function Psecs(rows: seq<SectionRow>): seq<int> {
    if rows == [] then []
    else
      var p := Psecs(rows[..|rows| - 1]);
      if rows[|rows| - 1].psec in p then p else p + [rows[|rows| - 1].psec]
  }

  /** The rows of one section, in order. */
  function RowsOf(rows: seq<SectionRow>, psec: int): seq<SectionRow> {
    if rows == [] then []
    else RowsOf(rows[..|rows| - 1], psec) + (if rows[|rows| - 1].psec == psec then [rows[|rows| - 1]] else [])
  }

  /** The section order lists exactly the sections that have rows... */
  lemma {:induction false} PsecsMembers(rows: seq<SectionRow>, psec: int)
    ensures psec in Psecs(rows) <==> exists k :: 0 <= k < |rows| && rows[k].psec == psec
  {
    if rows != [] {
      var init := rows[..|rows| - 1];
      PsecsMembers(init, psec);
      if exists k :: 0 <= k < |init| && init[k].psec == psec {
        var k :| 0 <= k < |init| && init[k].psec == psec;
        assert rows[k] == init[k];
      }
      if exists k :: 0 <= k < |rows| && rows[k].psec == psec {
        var k :| 0 <= k < |rows| && rows[k].psec == psec;
        if k < |init| { assert init[k] == rows[k]; }
      }
    }
  }

  /** ... each of them once ... */
  lemma {:induction false} PsecsDistinct(rows: seq<SectionRow>)
    ensures forall a, b :: 0 <= a < b < |Psecs(rows)| ==> Psecs(rows)[a] != Psecs(rows)[b]
  {
    if rows != [] {
      PsecsDistinct(rows[..|rows| - 1]);
    }
  }

  /** ... and a section's rows are exactly the rows of that section. */
  lemma {:induction false} RowsOfMembers(rows: seq<SectionRow>, psec: int, r: SectionRow)
    ensures r in RowsOf(rows, psec) <==> r in rows && r.psec == psec
  {
    if rows != [] {
      RowsOfMembers(rows[..|rows| - 1], psec, r);
      assert rows == rows[..|rows| - 1] + [rows[|rows| - 1]];
    }
  }

  /** One more row extends its own section's rows and no other's. */
  lemma RowsOfStep(rows: seq<SectionRow>, k: nat)
    requires k < |rows|
    ensures Psecs(rows[..k + 1]) == if rows[k].psec in Psecs(rows[..k]) then Psecs(rows[..k]) else Psecs(rows[..k]) + [rows[k].psec]
    ensures forall p :: RowsOf(rows[..k + 1], p) == RowsOf(rows[..k], p) + (if rows[k].psec == p then [rows[k]] else [])
  {
    assert rows[..k + 1][..k] == rows[..k];
  }

  /** The loop that fills sections_by_psec. */
  method GroupByPsec(rows: seq<SectionRow>) returns (order: seq<int>, byPsec: map<int, seq<SectionRow>>)
    ensures order == Psecs(rows)
    ensures forall p :: p in byPsec <==> p in order
    ensures forall p :: p in byPsec ==> byPsec[p] == RowsOf(rows, p)
  {
    order, byPsec := [], map[];
    var k := 0;
    while k < |rows|
      invariant 0 <= k <= |rows|
      invariant order == Psecs(rows[..k])
      invariant forall p :: p in byPsec <==> p in order
      invariant forall p :: p in byPsec ==> byPsec[p] == RowsOf(rows[..k], p)
      invariant forall p :: p !in byPsec ==> RowsOf(rows[..k], p) == []
    {
      var r := rows[k];
      if r.psec !in byPsec {
        order := order + [r.psec];
        byPsec := byPsec[r.psec := []];
      }
      byPsec := byPsec[r.psec := byPsec[r.psec] + [r]];
      RowsOfStep(rows, k);
      k := k + 1;
    }
    assert rows[..|rows|] == rows;
  }

  // ---------------------------------------------------------------------
  // The options of a course

  /** The options of the sections in the given order. */
  function OptionsInOrder(cat: Catalog, course: string, order: seq<int>, rows: seq<SectionRow>, sectionConfigs: map<int, seq<int>>): seq<Choice> {
    if order == [] then []
    else
      var p := order[|order| - 1];
      OptionsInOrder(cat, course, order[..|order| - 1], rows, sectionConfigs) + SectionOptions(cat, course, p, RowsOf(rows, p), sectionConfigs)
  }

  /** A course's options: per section for a configured course, one per
      listed group otherwise. */
  function CourseOptions(cat: Catalog, configs: CourseConfigs, course: string): seq<Choice> {
    var rows := cat.sectionsOf(course);
    if course in configs then OptionsInOrder(cat, course, Psecs(rows), rows, configs[course])
    else Individual(cat, course, rows)
  }

  /** The options of a course built in the order of the source's loops. */
  method BuildCourseOptions(cat: Catalog, configs: CourseConfigs, course: string) returns (options: seq<Choice>)
    ensures options == CourseOptions(cat, configs, course)
  {
    var rows := cat.sectionsOf(course);
    if course in configs {
      var sectionConfigs := configs[course];
      var order, byPsec := GroupByPsec(rows);
      options := [];
      var k := 0;
      while k < |order|
        invariant 0 <= k <= |order|
        invariant options == OptionsInOrder(cat, course, order[..k], rows, sectionConfigs)
      {
        var psec := order[k];
        assert order[..k + 1][..k] == order[..k];
        var more := BuildSectionOptions(cat, course, psec, byPsec[psec], sectionConfigs);
        options := options + more;
        k := k + 1;
      }
      assert order[..|order|] == order;
    } else {
      options := BuildIndividual(cat, course, rows, []);
    }
  }

  /** One section of a configured course. */
  method BuildSectionOptions(cat: Catalog, course: string, psec: int, rows: seq<SectionRow>, sectionConfigs: map<int, seq<int>>)
    returns (options: seq<Choice>)
    ensures options == SectionOptions(cat, course, psec, rows, sectionConfigs)
  {
    options := [];
    if psec in sectionConfigs {
      var required := sectionConfigs[psec];
      var available := Pgrus(rows);
      if AllAvailable(required, available) {
        var combined := [];
        var k := 0;
        while k < |required|
          invariant 0 <= k <= |required|
          invariant combined == CombinedBlocks(cat, course, psec, required[..k])
        {
          assert required[..k + 1][..k] == required[..k];
          combined := combined + cat.blocksOf(course, psec, required[k]);
          k := k + 1;
        }
        assert required[..|required|] == required;
        if combined != [] {
          options := [Choice(course, psec, Joined(JoinGroups(required)), combined)];
        }
      }
    } else {
      options := BuildIndividual(cat, course, rows, []);
    }
  }

  /** One option per group with blocks, appended to options0. */
  method BuildIndividual(cat: Catalog, course: string, rows: seq<SectionRow>, options0: seq<Choice>)
    returns (options: seq<Choice>)
    ensures options == options0 + Individual(cat, course, rows)
  {
    options := options0;
    var k := 0;
    while k < |rows|
      invariant 0 <= k <= |rows|
      invariant options == options0 + Individual(cat, course, rows[..k])
    {
      var r := rows[k];
      assert rows[..k + 1][..k] == rows[..k];
      var bs := cat.blocksOf(course, r.psec, r.pgru);
      if bs != [] {
        options := options + [Choice(course, r.psec, GroupNo(r.pgru), bs)];
      }
      k := k + 1;
    }
    assert rows[..|rows|] == rows;
  }

  // ---------------------------------------------------------------------
  // What the options are

  /** The reference description of a course's options: an option of the
      course with blocks, which for a section without configured groups is a
      listed group with its own blocks, and for a configured section is the
      '+'-joined required groups, all of them listed, with their blocks in
      the required order. */
  ghost predicate Offered(cat: Catalog, configs: CourseConfigs, course: string, c: Choice) {
    var rows := cat.sectionsOf(course);
    c.course == course && c.blocks != [] &&
    match Lookup(configs, course, c.section)
    case None =>
      c.group.GroupNo? && SectionRow(c.section, c.group.n) in rows
      && c.blocks == GroupBlocks(cat, course, c.section, c.group.n)
    case Some(required) =>
      c.group == Joined(JoinGroups(required))
      && (forall k :: 0 <= k < |required| ==> SectionRow(c.section, required[k]) in rows)
      && c.blocks == CombinedBlocks(cat, course, c.section, required)
  }

  /** A course's options are exactly the offered ones. */
  lemma CourseOptionsSpec(cat: Catalog, configs: CourseConfigs, course: string, c: Choice)
    ensures c in CourseOptions(cat, configs, course) <==> Offered(cat, configs, course, c)
  {
    var rows := cat.sectionsOf(course);
    if course in configs {
      var sc := configs[course];
      var sub := RowsOf(rows, c.section);
      OptionsInOrderMembers(cat, course, Psecs(rows), rows, sc, c);
      PsecsMembers(rows, c.section);
      IndividualMembers(cat, course, sub, c);
      AvailableInRows(rows, c.section, if c.section in sc then sc[c.section] else []);
      if c.group.GroupNo? {
        RowsOfMembers(rows, c.section, SectionRow(c.section, c.group.n));
      }
      if c in CourseOptions(cat, configs, course) && c.section in sc {
        var k :| 0 <= k < |rows| && rows[k].psec == c.section;
        RowsOfMembers(rows, c.section, rows[k]);
      }
      if Offered(cat, configs, course, c) && c.section !in sc {
        assert SectionRow(c.section, c.group.n) in rows;
      }
    } else {
      IndividualMembers(cat, course, rows, c);
    }
  }

  /** One option per listed group with blocks, and nothing else. */
  lemma {:induction false} IndividualMembers(cat: Catalog, course: string, rows: seq<SectionRow>, c: Choice)
    ensures c in Individual(cat, course, rows) <==>
      c.course == course && c.group.GroupNo? && SectionRow(c.section, c.group.n) in rows
      && c.blocks == GroupBlocks(cat, course, c.section, c.group.n) && c.blocks != []
  {
    if rows != [] {
      IndividualMembers(cat, course, rows[..|rows| - 1], c);
      assert rows == rows[..|rows| - 1] + [rows[|rows| - 1]];
    }
  }

  /** The options of a section all name that section. */
  lemma SectionOptionsSection(cat: Catalog, course: string, rows: seq<SectionRow>, psec: int, sc: map<int, seq<int>>, c: Choice)
    requires c in SectionOptions(cat, course, psec, RowsOf(rows, psec), sc)
    ensures c.section == psec
  {
    if psec !in sc {
      IndividualMembers(cat, course, RowsOf(rows, psec), c);
      RowsOfMembers(rows, psec, SectionRow(c.section, c.group.n));
    }
  }

  /** The options of the sections in order are those of the listed
      sections. */
  lemma {:induction false} OptionsInOrderMembers(cat: Catalog, course: string, order: seq<int>, rows: seq<SectionRow>, sc: map<int, seq<int>>, c: Choice)
    ensures c in OptionsInOrder(cat, course, order, rows, sc) <==>
      c.section in order && c in SectionOptions(cat, course, c.section, RowsOf(rows, c.section), sc)
  {
    if order != [] {
      var init := order[..|order| - 1];
      var p := order[|order| - 1];
      OptionsInOrderMembers(cat, course, init, rows, sc, c);
      if c in SectionOptions(cat, course, p, RowsOf(rows, p), sc) {
        SectionOptionsSection(cat, course, rows, p, sc, c);
      }
      assert order == init + [p];
    }
  }

  /** The required groups are all among the section's listed groups exactly
      when each of them is listed with that section. */
  lemma AvailableInRows(rows: seq<SectionRow>, psec: int, required: seq<int>)
    ensures AllAvailable(required, Pgrus(RowsOf(rows, psec))) <==>
      forall k :: 0 <= k < |required| ==> SectionRow(psec, required[k]) in rows
  {
    var sub := RowsOf(rows, psec);
    forall k | 0 <= k < |required|
      ensures required[k] in Pgrus(sub) <==> SectionRow(psec, required[k]) in rows
    {
      RowsOfMembers(rows, psec, SectionRow(psec, required[k]));
      if required[k] in Pgrus(sub) {
        var j :| 0 <= j < |sub| && Pgrus(sub)[j] == required[k];
        RowsOfMembers(rows, psec, sub[j]);
      }
      if SectionRow(psec, required[k]) in rows {
        var j :| 0 <= j < |sub| && sub[j] == SectionRow(psec, required[k]);
        assert Pgrus(sub)[j] == required[k];
      }
    }
  }
}
