/** The browser's session state around the grid: the selected courses, the
    loaded schedule candidates and the index of the one on display
    (static/app.js:2-4), with the course picker (static/app.js:398-421), the
    schedule navigation (static/app.js:833-845) and the result banner
    (static/app.js:494-518). */
module Session {
  import opened Records
  import opened Strings

  /** A picked course: code and display name. */
  datatype Course = Course(code: string, name: string)

  /** At most this many courses may be picked. */
  const MaxCourses: nat := 6

  // ---------------------------------------------------------------------
  // Course selection

  predicate HasCode(cs: seq<Course>, code: string) {
    exists i :: 0 <= i < |cs| && cs[i].code == code
  }

  /** What a selection may look like: at most six courses, no code twice. */
  predicate WellFormedSelection(cs: seq<Course>) {
    |cs| <= MaxCourses && forall i, j :: 0 <= i < j < |cs| ==> cs[i].code != cs[j].code
  }

  /** What addCourse does with a request: the limit is checked first, then
      the duplicate code. */
  datatype AddOutcome = TooMany | Duplicate | Added

  function AddOutcomeOf(cs: seq<Course>, code: string): AddOutcome {
    if |cs| >= MaxCourses then TooMany
    else if HasCode(cs, code) then Duplicate
    else Added
  }

  function AfterAdd(cs: seq<Course>, c: Course): seq<Course> {
    if AddOutcomeOf(cs, c.code) == Added then cs + [c] else cs
  }

  /** Adding keeps the selection well formed, and afterwards the code is
      picked exactly when it was picked before or there was room. A full
      selection is left as it is even for a code it does not hold. */
  lemma AddKeepsSelection(cs: seq<Course>, c: Course)
    requires WellFormedSelection(cs)
    ensures WellFormedSelection(AfterAdd(cs, c))
    ensures HasCode(AfterAdd(cs, c), c.code) <==> HasCode(cs, c.code) || |cs| < MaxCourses
    ensures AddOutcomeOf(cs, c.code) == TooMany <==> |cs| == MaxCourses
    ensures AddOutcomeOf(cs, c.code) != Added ==> AfterAdd(cs, c) == cs
  {
    var r := AfterAdd(cs, c);
    if AddOutcomeOf(cs, c.code) == Added {
      assert r[|cs|] == c;
    }
  }

  /** selectedCourses.filter(c => c.code !== code). */
  function Removed(cs: seq<Course>, code: string): seq<Course> {
    if cs == [] then []
    else (if cs[0].code == code then [] else [cs[0]]) + Removed(cs[1..], code)
  }

  /** Removing a code drops exactly the courses with that code: none is left
      and every other course stays. */
  lemma {:induction false} RemovedSpec(cs: seq<Course>, code: string)
    ensures |Removed(cs, code)| <= |cs|
    ensures forall c :: c in Removed(cs, code) <==> c in cs && c.code != code
  {
    if cs != [] {
      RemovedSpec(cs[1..], code);
      assert cs == [cs[0]] + cs[1..];
    }
  }

  /** The filter works piece by piece, so the courses that stay keep their
      order: removing from a concatenation concatenates the two results. */
  lemma {:induction false} RemovedAppend(a: seq<Course>, b: seq<Course>, code: string)
    ensures Removed(a + b, code) == Removed(a, code) + Removed(b, code)
  {
    if a == [] {
      assert a + b == b;
    } else {
      var x := if a[0].code == code then [] else [a[0]];
      calc {
        Removed(a + b, code);
        { assert (a + b)[1..] == a[1..] + b && (a + b)[0] == a[0]; }
        x + Removed(a[1..] + b, code);
        { RemovedAppend(a[1..], b, code); }
        x + (Removed(a[1..], code) + Removed(b, code));
        (x + Removed(a[1..], code)) + Removed(b, code);
      }
    }
  }

  /** Removing keeps the selection well formed. */
  lemma {:induction false} RemoveKeepsSelection(cs: seq<Course>, code: string)
    requires WellFormedSelection(cs)
    ensures WellFormedSelection(Removed(cs, code))
  {
    if cs != [] {
      var head, tail := cs[0], cs[1..];
      assert WellFormedSelection(tail) by {
        forall i, j | 0 <= i < j < |tail| ensures tail[i].code != tail[j].code {
          assert tail[i] == cs[i + 1] && tail[j] == cs[j + 1];
        }
      }
      RemoveKeepsSelection(tail, code);
      RemovedSpec(tail, code);
      if head.code != code {
        var rt := Removed(tail, code);
        forall i | 0 <= i < |rt| ensures rt[i].code != head.code {
          assert rt[i] in tail;
          var k :| 0 <= k < |tail| && tail[k] == rt[i];
          assert cs[k + 1] == tail[k];
        }
        FirstApart(head, rt);
      }
    }
  }

  lemma FirstApart(head: Course, rest: seq<Course>)
    requires WellFormedSelection(rest) && |rest| < MaxCourses
    requires forall i :: 0 <= i < |rest| ==> rest[i].code != head.code
    ensures WellFormedSelection([head] + rest)
  {
    var r := [head] + rest;
    forall i, j | 0 <= i < j < |r| ensures r[i].code != r[j].code {
      assert r[j] == rest[j - 1];
      if i > 0 { assert r[i] == rest[i - 1]; }
    }
  }

  /** Removing a code that is not picked leaves the selection unchanged. */
  lemma {:induction false} RemoveAbsent(cs: seq<Course>, code: string)
    requires !HasCode(cs, code)
    ensures Removed(cs, code) == cs
  {
    if cs != [] {
      var head, tail := cs[0], cs[1..];
      assert head.code != code by { assert cs[0] == head; }
      assert !HasCode(tail, code) by {
        forall i | 0 <= i < |tail| ensures tail[i].code != code {
          assert tail[i] == cs[i + 1];
        }
      }
      RemoveAbsent(tail, code);
      assert cs == [head] + tail;
    }
  }

  // ---------------------------------------------------------------------
  // Navigation

  function PrevIndex(i: int): int {
    if i > 0 then i - 1 else i
  }

  function NextIndex(i: int, n: nat): int {
    if i < n - 1 then i + 1 else i
  }

  /** The index is a valid position, or 0 when there are no schedules. */
  predicate IndexInRange(i: int, n: nat) {
    0 <= i && (i < n || i == 0)
  }

  /** Both moves keep the index in range; each stops at its end of the list
      and otherwise moves by exactly one. */
  lemma NavigationClamps(i: int, n: nat)
    requires IndexInRange(i, n)
    ensures IndexInRange(PrevIndex(i), n) && IndexInRange(NextIndex(i, n), n)
    ensures PrevIndex(i) == i <==> i == 0
    ensures i > 0 ==> PrevIndex(i) == i - 1
    ensures NextIndex(i, n) == i <==> n == 0 || i == n - 1
    ensures i < n - 1 ==> NextIndex(i, n) == i + 1
  {
  }

  /** Stepping forward and back, away from the ends, returns to the same
      schedule. */
  lemma NavigationRoundTrip(i: int, n: nat)
    requires IndexInRange(i, n)
    ensures i < n - 1 ==> PrevIndex(NextIndex(i, n)) == i
    ensures i > 0 ==> NextIndex(PrevIndex(i), n) == i
  {
  }

  // ---------------------------------------------------------------------
  // The result banner

  /** schedules.filter(s => !s.has_conflicts && !s.has_valid_topones).length */
  function CleanCount(ss: seq<Schedule>): nat {
    if ss == [] then 0
    else CleanCount(ss[..|ss| - 1]) + (if !ss[|ss| - 1].hasConflicts && !ss[|ss| - 1].hasValidTopones then 1 else 0)
  }

  /** schedules.filter(s => !s.has_conflicts && s.has_valid_topones).length */
  function ToponCount(ss: seq<Schedule>): nat {
    if ss == [] then 0
    else ToponCount(ss[..|ss| - 1]) + (if !ss[|ss| - 1].hasConflicts && ss[|ss| - 1].hasValidTopones then 1 else 0)
  }

  /** schedules.filter(s => s.has_conflicts).length */
  function ConflictCount(ss: seq<Schedule>): nat {
    if ss == [] then 0
    else ConflictCount(ss[..|ss| - 1]) + (if ss[|ss| - 1].hasConflicts then 1 else 0)
  }

  /** The three counts split the list: every schedule is counted once. */
  lemma {:induction false} CountsPartition(ss: seq<Schedule>)
    ensures CleanCount(ss) + ToponCount(ss) + ConflictCount(ss) == |ss|
  {
    if ss != [] {
      CountsPartition(ss[..|ss| - 1]);
    }
  }

  /** A schedule with conflicts is counted as conflicted only, even when it
      also carries accepted overlaps. */
  lemma ConflictedCountedOnce(ss: seq<Schedule>, s: Schedule)
    requires s.hasConflicts
    ensures CleanCount(ss + [s]) == CleanCount(ss)
    ensures ToponCount(ss + [s]) == ToponCount(ss)
    ensures ConflictCount(ss + [s]) == ConflictCount(ss) + 1
  {
    assert (ss + [s])[..|ss|] == ss;
  }

  const NoCombinationsText: string :=
    "No se encontraron combinaciones de horarios. Verifica que los cursos tengan secciones disponibles."

  const NoSchedulesText: string := "No se encontraron horarios"

  /** The banner text built from the three counts. */
  function CountsMessage(clean: nat, topon: nat, conflict: nat): string {
    var m1 := if clean > 0 then IntToString(clean) + " horarios sin topones" else "";
    var m2 := if topon > 0 then
        (if m1 != "" then m1 + ", " + IntToString(topon) + " con topones válidos"
         else IntToString(topon) + " horarios con topones válidos")
      else m1;
    if conflict > 0 then
      (if m2 != "" then m2 + " y " + IntToString(conflict) + " con topones inválidos"
       else IntToString(conflict) + " horarios con topones")
    else m2
  }

  /** The alert shown once the server's list arrives: the no-combinations
      text for an empty list, otherwise the counts, falling back to the
      no-schedules text for an empty message. */
  function LoadAlert(ss: seq<Schedule>): string {
    if |ss| == 0 then NoCombinationsText
    else
      var m := CountsMessage(CleanCount(ss), ToponCount(ss), ConflictCount(ss));
      if m != "" then m else NoSchedulesText
  }

  /** The message is empty exactly when all three counts are zero. */
  lemma CountsMessageEmpty(clean: nat, topon: nat, conflict: nat)
    ensures CountsMessage(clean, topon, conflict) == "" <==> clean == 0 && topon == 0 && conflict == 0
  {
    NatToStringRoundTrip(clean);
    NatToStringRoundTrip(topon);
    NatToStringRoundTrip(conflict);
  }

  /** A non-empty list never shows the fallback text: its counts add up to
      its length, so one of them is positive and the message says so. */
  lemma LoadAlertOfResults(ss: seq<Schedule>)
    requires ss != []
    ensures LoadAlert(ss) == CountsMessage(CleanCount(ss), ToponCount(ss), ConflictCount(ss))
    ensures LoadAlert(ss) != NoSchedulesText
  {
    CountsPartition(ss);
    CountsMessageEmpty(CleanCount(ss), ToponCount(ss), ConflictCount(ss));
    var clean, topon, conflict := CleanCount(ss), ToponCount(ss), ConflictCount(ss);
    var m := CountsMessage(clean, topon, conflict);
    NatToStringRoundTrip(clean);
    NatToStringRoundTrip(topon);
    NatToStringRoundTrip(conflict);
    assert IsDigit(m[0]) by {
      if clean > 0 {
        assert m[0] == NatToString(clean)[0];
      } else if topon > 0 {
        assert m[0] == NatToString(topon)[0];
      } else {
        assert m[0] == NatToString(conflict)[0];
      }
    }
    assert NoSchedulesText[0] == 'N';
  }

  // ---------------------------------------------------------------------
  // The state

  class State {
    var selectedCourses: seq<Course>
    var schedules: seq<Schedule>
    var currentScheduleIndex: int

    ghost predicate Valid()
      reads this
    {
      WellFormedSelection(selectedCourses) && IndexInRange(currentScheduleIndex, |schedules|)
    }

    constructor()
      ensures Valid()
      ensures selectedCourses == [] && schedules == [] && currentScheduleIndex == 0
    {
      selectedCourses := [];
      schedules := [];
      currentScheduleIndex := 0;
    }

    /** addCourse: refuses a seventh course, then a code already picked,
        otherwise appends. */
    method AddCourse(code: string, name: string) returns (outcome: AddOutcome)
      requires Valid()
      modifies this
      ensures Valid()
      ensures outcome == AddOutcomeOf(old(selectedCourses), code)
      ensures selectedCourses == AfterAdd(old(selectedCourses), Course(code, name))
      ensures schedules == old(schedules) && currentScheduleIndex == old(currentScheduleIndex)
    {
      AddKeepsSelection(selectedCourses, Course(code, name));
      if |selectedCourses| >= MaxCourses {
        return TooMany;
      }
      var picked := FindCode(selectedCourses, code);
      if picked {
        return Duplicate;
      }
      selectedCourses := selectedCourses + [Course(code, name)];
      outcome := Added;
    }

    /** removeCourse: keeps the courses whose code differs. */
    method RemoveCourse(code: string)
      requires Valid()
      modifies this
      ensures Valid()
      ensures selectedCourses == Removed(old(selectedCourses), code)
      ensures schedules == old(schedules) && currentScheduleIndex == old(currentScheduleIndex)
    {
      RemoveKeepsSelection(selectedCourses, code);
      selectedCourses := Removed(selectedCourses, code);
    }

    /** A new list from the server: the index goes back to the first
        schedule, and the banner text is returned. */
    method LoadSchedules(data: seq<Schedule>) returns (alert: string)
      requires Valid()
      modifies this
      ensures Valid()
      ensures schedules == data && currentScheduleIndex == 0
      ensures selectedCourses == old(selectedCourses)
      ensures alert == LoadAlert(data)
    {
      schedules := data;
      currentScheduleIndex := 0;
      alert := LoadAlert(data);
    }

    method PrevSchedule()
      requires Valid()
      modifies this
      ensures Valid()
      ensures currentScheduleIndex == PrevIndex(old(currentScheduleIndex))
      ensures schedules == old(schedules) && selectedCourses == old(selectedCourses)
    {
      NavigationClamps(currentScheduleIndex, |schedules|);
      if currentScheduleIndex > 0 {
        currentScheduleIndex := currentScheduleIndex - 1;
      }
    }

    method NextSchedule()
      requires Valid()
      modifies this
      ensures Valid()
      ensures currentScheduleIndex == NextIndex(old(currentScheduleIndex), |schedules|)
      ensures schedules == old(schedules) && selectedCourses == old(selectedCourses)
    {
      NavigationClamps(currentScheduleIndex, |schedules|);
      if currentScheduleIndex < |schedules| - 1 {
        currentScheduleIndex := currentScheduleIndex + 1;
      }
    }
  }

  /** selectedCourses.find(c => c.code === code) is not undefined. */
  method FindCode(cs: seq<Course>, code: string) returns (found: bool)
    ensures found <==> HasCode(cs, code)
  {
    var i := 0;
    while i < |cs|
      invariant 0 <= i <= |cs|
      invariant forall k :: 0 <= k < i ==> cs[k].code != code
    {
      if cs[i].code == code {
        return true;
      }
      i := i + 1;
    }
    return false;
  }
}
