/** The section and group structure of a course offered to the group
    configuration screen (api_course_structure, app.py:578-597): every
    section once, in ascending order, with its groups once each, in
    ascending order. The rows come from the course's listed sections, as in
    the Options module. */
module Structure {
  import opened Options

  /** One entry of the answer. */
  datatype SectionGroups = SectionGroups(section: int, groups: seq<int>)

  // ---------------------------------------------------------------------
  // Sorting integers (Python's sorted on a list of ints)

  function InsertInt(ys: seq<int>, x: int): seq<int> {
    if ys == [] || ys[|ys| - 1] <= x then ys + [x]
    else InsertInt(ys[..|ys| - 1], x) + [ys[|ys| - 1]]
  }

  function SortInts(xs: seq<int>): seq<int> {
    if xs == [] then [] else InsertInt(SortInts(xs[..|xs| - 1]), xs[|xs| - 1])
  }

  predicate Ascending(xs: seq<int>) {
    forall i, j :: 0 <= i < j < |xs| ==> xs[i] <= xs[j]
  }

  predicate StrictlyAscending(xs: seq<int>) {
    forall i, j :: 0 <= i < j < |xs| ==> xs[i] < xs[j]
  }

  predicate Distinct(xs: seq<int>) {
    forall i, j :: 0 <= i < j < |xs| ==> xs[i] != xs[j]
  }

  lemma {:induction false} InsertIntPermutes(ys: seq<int>, x: int)
    ensures multiset(InsertInt(ys, x)) == multiset(ys) + multiset{x}
  {
    if ys != [] && ys[|ys| - 1] > x {
      InsertIntPermutes(ys[..|ys| - 1], x);
      assert ys == ys[..|ys| - 1] + [ys[|ys| - 1]];
    }
  }

  /** sorted keeps every element, as often as it occurs. */
  lemma {:induction false} SortIntsPermutes(xs: seq<int>)
    ensures multiset(SortInts(xs)) == multiset(xs)
  {
    if xs != [] {
      SortIntsPermutes(xs[..|xs| - 1]);
      InsertIntPermutes(SortInts(xs[..|xs| - 1]), xs[|xs| - 1]);
      assert xs == xs[..|xs| - 1] + [xs[|xs| - 1]];
    }
  }

  lemma {:induction false} InsertIntAscending(ys: seq<int>, x: int)
    requires Ascending(ys)
    ensures Ascending(InsertInt(ys, x))
  {
    if ys != [] && ys[|ys| - 1] > x {
      var init := ys[..|ys| - 1];
      var y := ys[|ys| - 1];
      InsertIntAscending(init, x);
      InsertIntPermutes(init, x);
      var r := InsertInt(init, x);
      forall i | 0 <= i < |r|
        ensures r[i] <= y
      {
        assert r[i] in multiset(init) + multiset{x};
      }
    }
  }

  /** sorted's result is ascending. */
  lemma {:induction false} SortIntsAscending(xs: seq<int>)
    ensures Ascending(SortInts(xs))
  {
    if xs != [] {
      SortIntsAscending(xs[..|xs| - 1]);
      InsertIntAscending(SortInts(xs[..|xs| - 1]), xs[|xs| - 1]);
    }
  }

  /** A list without repeats holds each value at most once. */
  lemma {:induction false} DistinctCount(xs: seq<int>, v: int)
    requires Distinct(xs)
    ensures multiset(xs)[v] <= 1
  {
    if xs != [] {
      var init := xs[..|xs| - 1];
      DistinctCount(init, v);
      assert xs == init + [xs[|xs| - 1]];
      if xs[|xs| - 1] == v {
        assert v !in init;
      }
    }
  }

  /** Sorting a list without repeats gives a strictly ascending list. */
  lemma SortIntsStrict(xs: seq<int>)
    requires Distinct(xs)
    ensures StrictlyAscending(SortInts(xs))
  {
    var r := SortInts(xs);
    SortIntsAscending(xs);
    SortIntsPermutes(xs);
    forall i, j | 0 <= i < j < |r|
      ensures r[i] < r[j]
    {
      if r[i] == r[j] {
        DistinctCount(xs, r[i]);
        TwiceCounted(r, i, j);
      }
    }
  }

  lemma TwiceCounted(r: seq<int>, i: nat, j: nat)
    requires i < j < |r| && r[i] == r[j]
    ensures multiset(r)[r[i]] >= 2
  {
    assert r == r[..j] + [r[j]] + r[j + 1..];
    assert r[..j] == r[..i] + [r[i]] + r[i + 1..j];
  }

  // ---------------------------------------------------------------------
  // The structure dict

  /** The distinct groups listed for a section, in order of first
      appearance: structure[sec_code] after the loop. */
  function GroupsOf(rows: seq<SectionRow>, sec: int): seq<int> {
    if rows == [] then []
    else
      var gs := GroupsOf(rows[..|rows| - 1], sec);
      var r := rows[|rows| - 1];
      if r.psec != sec || r.pgru in gs then gs else gs + [r.pgru]
  }

  /** A section's groups are exactly those listed with it ... */
  lemma {:induction false} GroupsOfMembers(rows: seq<SectionRow>, sec: int, g: int)
    ensures g in GroupsOf(rows, sec) <==> SectionRow(sec, g) in rows
  {
    if rows != [] {
      GroupsOfMembers(rows[..|rows| - 1], sec, g);
      assert rows == rows[..|rows| - 1] + [rows[|rows| - 1]];
    }
  }

  /** ... each of them once. */
  lemma {:induction false} GroupsOfDistinct(rows: seq<SectionRow>, sec: int)
    ensures Distinct(GroupsOf(rows, sec))
  {
    if rows != [] {
      GroupsOfDistinct(rows[..|rows| - 1], sec);
    }
  }

  lemma GroupsOfStep(rows: seq<SectionRow>, k: nat)
    requires k < |rows|
    ensures forall p :: GroupsOf(rows[..k + 1], p) == (if rows[k].psec != p || rows[k].pgru in GroupsOf(rows[..k], p) then GroupsOf(rows[..k], p) else GroupsOf(rows[..k], p) + [rows[k].pgru])
  {
    assert rows[..k + 1][..k] == rows[..k];
  }

  /** The loop that fills the structure dict; order is its key order. */
  method BuildStructure(rows: seq<SectionRow>) returns (order: seq<int>, structure: map<int, seq<int>>)
    ensures order == Psecs(rows)
    ensures forall p :: p in structure <==> p in order
    ensures forall p :: p in structure ==> structure[p] == GroupsOf(rows, p)
  {
    order, structure := [], map[];
    var k := 0;
    while k < |rows|
      invariant 0 <= k <= |rows|
      invariant order == Psecs(rows[..k])
      invariant forall p :: p in structure <==> p in order
      invariant forall p :: p in structure ==> structure[p] == GroupsOf(rows[..k], p)
      invariant forall p :: p !in structure ==> GroupsOf(rows[..k], p) == []
    {
      var secCode := rows[k].psec;
      var groupCode := rows[k].pgru;
      if secCode !in structure {
        order := order + [secCode];
        structure := structure[secCode := []];
      }
      if groupCode !in structure[secCode] {
        structure := structure[secCode := structure[secCode] + [groupCode]];
      }
      RowsOfStep(rows, k);
      GroupsOfStep(rows, k);
      k := k + 1;
    }
    assert rows[..|rows|] == rows;
  }

  // ---------------------------------------------------------------------
  // The answer

  /** One entry per section of secs, with its groups sorted. */
  function Entries(rows: seq<SectionRow>, secs: seq<int>): seq<SectionGroups> {
    if secs == [] then []
    else Entries(rows, secs[..|secs| - 1]) + [SectionGroups(secs[|secs| - 1], SortInts(GroupsOf(rows, secs[|secs| - 1])))]
  }

  /** What api_course_structure answers. */
  function CourseStructure(rows: seq<SectionRow>): seq<SectionGroups> {
    Entries(rows, SortInts(Psecs(rows)))
  }

  /** api_course_structure on a course's listed rows. */
  method ApiCourseStructure(rows: seq<SectionRow>) returns (result: seq<SectionGroups>)
    ensures result == CourseStructure(rows)
  {
    var order, structure := BuildStructure(rows);
    var keys := SortInts(order);
    SortIntsPermutes(order);
    result := [];
    var i := 0;
    while i < |keys|
      invariant 0 <= i <= |keys|
      invariant result == Entries(rows, keys[..i])
    {
      var secCode := keys[i];
      assert secCode in multiset(order);
      result := result + [SectionGroups(secCode, SortInts(structure[secCode]))];
      assert keys[..i + 1][..i] == keys[..i];
      i := i + 1;
    }
    assert keys[..|keys|] == keys;
  }

  lemma {:induction false} EntriesShape(rows: seq<SectionRow>, secs: seq<int>)
    ensures |Entries(rows, secs)| == |secs|
    ensures forall i :: 0 <= i < |secs| ==>
      Entries(rows, secs)[i] == SectionGroups(secs[i], SortInts(GroupsOf(rows, secs[i])))
  {
    if secs != [] {
      EntriesShape(rows, secs[..|secs| - 1]);
    }
  }

  /** The sections come once each, ascending, and are exactly the listed
      ones. */
  lemma StructureSections(rows: seq<SectionRow>, sec: int)
    ensures var r := CourseStructure(rows);
      && (forall i, j :: 0 <= i < j < |r| ==> r[i].section < r[j].section)
      && ((exists i :: 0 <= i < |r| && r[i].section == sec) <==> exists k :: 0 <= k < |rows| && rows[k].psec == sec)
  {
    var secs := SortInts(Psecs(rows));
    var r := CourseStructure(rows);
    EntriesShape(rows, secs);
    PsecsDistinct(rows);
    SortIntsStrict(Psecs(rows));
    SortIntsPermutes(Psecs(rows));
    PsecsMembers(rows, sec);
    assert sec in secs <==> sec in multiset(Psecs(rows));
    if sec in secs {
      var i :| 0 <= i < |secs| && secs[i] == sec;
      assert r[i].section == sec;
    }
  }

  /** Each section's groups come once each, ascending, and are exactly the
      groups listed with it. */
  lemma StructureGroups(rows: seq<SectionRow>, i: nat, g: int)
    requires i < |CourseStructure(rows)|
    ensures var e := CourseStructure(rows)[i];
      && StrictlyAscending(e.groups)
      && (g in e.groups <==> SectionRow(e.section, g) in rows)
  {
    var secs := SortInts(Psecs(rows));
    EntriesShape(rows, secs);
    var sec := secs[i];
    GroupsOfDistinct(rows, sec);
    SortIntsStrict(GroupsOf(rows, sec));
    SortIntsPermutes(GroupsOf(rows, sec));
    GroupsOfMembers(rows, sec, g);
    assert g in SortInts(GroupsOf(rows, sec)) <==> g in multiset(GroupsOf(rows, sec));
  }
}
