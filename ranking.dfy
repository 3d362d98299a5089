/** The orders generate_schedules puts its lists in (app.py:488-490):
    Python's stable list.sort, by score descending for the lists without
    conflicts, and by (number of conflict messages, -score) ascending for the
    list with conflicts. A descending sort with reverse=True keeps equal
    scores in their original order, so both are ascending stable sorts on
    the key below. */
module Ranking {
  import opened Records

  /** The sort key: a major integer and a minor real, compared
      lexicographically. */
  datatype SortKey = SortKey(major: int, minor: real)

  predicate KeyLe(a: SortKey, b: SortKey) {
    a.major < b.major || (a.major == b.major && a.minor <= b.minor)
  }

  /** The key of a schedule: (0, -score) for the lists sorted by score,
      (number of conflicts, -score) for the conflict list. */
  function KeyOf(s: Schedule, byConflicts: bool): SortKey {
    SortKey(if byConflicts then |s.conflicts| else 0, -s.score)
  }

  /** Inserts x after every trailing element whose key is not above x's. */
  function Insert(ys: seq<Schedule>, x: Schedule, byConflicts: bool): seq<Schedule> {
    if ys == [] then [x]
    else if KeyLe(KeyOf(ys[|ys| - 1], byConflicts), KeyOf(x, byConflicts)) then ys + [x]
    else Insert(ys[..|ys| - 1], x, byConflicts) + [ys[|ys| - 1]]
  }

  /** The stable sort. */
  function SortSchedules(xs: seq<Schedule>, byConflicts: bool): seq<Schedule> {
    if xs == [] then [] else Insert(SortSchedules(xs[..|xs| - 1], byConflicts), xs[|xs| - 1], byConflicts)
  }

  /** Keys never decrease along the list. */
  predicate Ordered(ss: seq<Schedule>, byConflicts: bool) {
    forall i, j :: 0 <= i < j < |ss| ==> KeyLe(KeyOf(ss[i], byConflicts), KeyOf(ss[j], byConflicts))
  }

  /** The schedules with key k, in list order. */
  function WithKey(ss: seq<Schedule>, byConflicts: bool, k: SortKey): seq<Schedule> {
    if ss == [] then []
    else WithKey(ss[..|ss| - 1], byConflicts, k) + (if KeyOf(ss[|ss| - 1], byConflicts) == k then [ss[|ss| - 1]] else [])
  }

  /** The sort keeps every schedule, as often as it occurs. */
  lemma {:induction false} SortPermutes(xs: seq<Schedule>, byConflicts: bool)
    ensures multiset(SortSchedules(xs, byConflicts)) == multiset(xs)
  {
    if xs != [] {
      var init := xs[..|xs| - 1];
      SortPermutes(init, byConflicts);
      InsertPermutes(SortSchedules(init, byConflicts), xs[|xs| - 1], byConflicts);
      assert xs == init + [xs[|xs| - 1]];
    }
  }

  /** Insertion adds exactly x. */
  lemma {:induction false} InsertPermutes(ys: seq<Schedule>, x: Schedule, byConflicts: bool)
    ensures multiset(Insert(ys, x, byConflicts)) == multiset(ys) + multiset{x}
  {
    if ys != [] && !KeyLe(KeyOf(ys[|ys| - 1], byConflicts), KeyOf(x, byConflicts)) {
      InsertPermutes(ys[..|ys| - 1], x, byConflicts);
      assert ys == ys[..|ys| - 1] + [ys[|ys| - 1]];
    }
  }

  /** The sort's result is in key order. */
  lemma {:induction false} SortOrdered(xs: seq<Schedule>, byConflicts: bool)
    ensures Ordered(SortSchedules(xs, byConflicts), byConflicts)
  {
    if xs != [] {
      var init := xs[..|xs| - 1];
      SortOrdered(init, byConflicts);
      InsertOrdered(SortSchedules(init, byConflicts), xs[|xs| - 1], byConflicts);
    }
  }

  /** Insertion into an ordered list keeps it ordered. */
  lemma {:induction false} InsertOrdered(ys: seq<Schedule>, x: Schedule, byConflicts: bool)
    requires Ordered(ys, byConflicts)
    ensures Ordered(Insert(ys, x, byConflicts), byConflicts)
  {
    if ys != [] && !KeyLe(KeyOf(ys[|ys| - 1], byConflicts), KeyOf(x, byConflicts)) {
      var init := ys[..|ys| - 1];
      var y := ys[|ys| - 1];
      InsertOrdered(init, x, byConflicts);
      InsertBelow(init, x, y, byConflicts);
      AppendOrdered(Insert(init, x, byConflicts), y, byConflicts);
    }
  }

  /** If x and everything in ys is at most y, so is everything in the
      insertion of x into ys. */
  lemma InsertBelow(ys: seq<Schedule>, x: Schedule, y: Schedule, byConflicts: bool)
    requires forall i :: 0 <= i < |ys| ==> KeyLe(KeyOf(ys[i], byConflicts), KeyOf(y, byConflicts))
    requires KeyLe(KeyOf(x, byConflicts), KeyOf(y, byConflicts))
    ensures forall i :: 0 <= i < |Insert(ys, x, byConflicts)| ==>
      KeyLe(KeyOf(Insert(ys, x, byConflicts)[i], byConflicts), KeyOf(y, byConflicts))
  {
    var r := Insert(ys, x, byConflicts);
    InsertPermutes(ys, x, byConflicts);
    forall i | 0 <= i < |r|
      ensures KeyLe(KeyOf(r[i], byConflicts), KeyOf(y, byConflicts))
    {
      assert r[i] in multiset(ys) + multiset{x};
    }
  }

  /** An ordered list followed by an element at least as large as all of
      it is ordered. */
  lemma AppendOrdered(r: seq<Schedule>, y: Schedule, byConflicts: bool)
    requires Ordered(r, byConflicts)
    requires forall i :: 0 <= i < |r| ==> KeyLe(KeyOf(r[i], byConflicts), KeyOf(y, byConflicts))
    ensures Ordered(r + [y], byConflicts)
  {
    var t := r + [y];
    forall i, j | 0 <= i < j < |t|
      ensures KeyLe(KeyOf(t[i], byConflicts), KeyOf(t[j], byConflicts))
    {
      assert t[i] == r[i];
    }
  }

  /** Selecting by key distributes over concatenation. */
  lemma {:induction false} WithKeyAppend(a: seq<Schedule>, b: seq<Schedule>, byConflicts: bool, k: SortKey)
    ensures WithKey(a + b, byConflicts, k) == WithKey(a, byConflicts, k) + WithKey(b, byConflicts, k)
  {
    if b == [] {
      assert a + b == a;
    } else {
      WithKeyAppend(a, b[..|b| - 1], byConflicts, k);
      assert (a + b)[..|a + b| - 1] == a + b[..|b| - 1];
      assert (a + b)[|a + b| - 1] == b[|b| - 1];
    }
  }

  /** The sort is stable: the schedules with any one key keep their
      original relative order. */
  lemma {:induction false} SortStable(xs: seq<Schedule>, byConflicts: bool, k: SortKey)
    ensures WithKey(SortSchedules(xs, byConflicts), byConflicts, k) == WithKey(xs, byConflicts, k)
  {
    if xs != [] {
      var init := xs[..|xs| - 1];
      SortStable(init, byConflicts, k);
      InsertStable(SortSchedules(init, byConflicts), xs[|xs| - 1], byConflicts, k);
    }
  }

  /** Inserting x puts it behind the schedules of its own key. */
  lemma {:induction false} InsertStable(ys: seq<Schedule>, x: Schedule, byConflicts: bool, k: SortKey)
    ensures WithKey(Insert(ys, x, byConflicts), byConflicts, k)
         == WithKey(ys, byConflicts, k) + (if KeyOf(x, byConflicts) == k then [x] else [])
  {
    if ys == [] {
      assert WithKey([x], byConflicts, k) == WithKey([], byConflicts, k) + (if KeyOf(x, byConflicts) == k then [x] else []);
    } else if KeyLe(KeyOf(ys[|ys| - 1], byConflicts), KeyOf(x, byConflicts)) {
      assert (ys + [x])[..|ys|] == ys;
    } else {
      var init := ys[..|ys| - 1];
      var y := ys[|ys| - 1];
      InsertStable(init, x, byConflicts, k);
      var r := Insert(init, x, byConflicts);
      assert (r + [y])[..|r|] == r;
    }
  }
}
