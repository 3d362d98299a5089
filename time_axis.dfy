/** The browser's time axis and its two converters: timeToMinutes and
    normalizeDayName (static/app.js:355-373, 848-876). */
module TimeAxis {
  import opened Wrappers
  import opened Strings

  // ---------------------------------------------------------------------
  // Times

  /** The digits parseInt reads after the sign: base 16 after a "0x" or "0X"
      prefix, base 10 otherwise; None when there is no digit. */
  function ParseMagnitude(u: string): Option<nat> {
    if |u| >= 2 && u[0] == '0' && (u[1] == 'x' || u[1] == 'X') then
      var z := LongestPrefix(u[2..], HexDigit);
      if z == [] then None else Some(HexDigitsValue(z))
    else
      var z := LongestPrefix(u, Digit);
      if z == [] then None else Some(DigitsValue(z))
  }

  /** parseInt(s) with no radix: leading white space, an optional sign, then
      the magnitude. None stands for NaN. */
  function ParseInt(s: string): Option<int> {
    var t := TrimLeft(s, JsSpace);
    var neg := |t| > 0 && t[0] == '-';
    var u := if |t| > 0 && (t[0] == '-' || t[0] == '+') then t[1..] else t;
    match ParseMagnitude(u)
    case None => None
    case Some(v) => Some(if neg then -(v as int) else v as int)
  }

  /** parseInt skips no character of a digit string. */
  lemma TrimLeftDigits(d: string)
    requires |d| > 0 && AllDigits(d)
    ensures TrimLeft(d, JsSpace) == d
  {
    assert !IsJsSpace(d[0]) by { assert IsDigit(d[0]); }
  }

  /** A digit string is read whole, in base 10. */
  lemma ParseMagnitudeDigits(d: string)
    requires |d| > 0 && AllDigits(d)
    ensures ParseMagnitude(d) == Some(DigitsValue(d))
  {
    assert |d| >= 2 ==> d[1] != 'x' && d[1] != 'X' by { assert |d| >= 2 ==> IsDigit(d[1]); }
    assert forall i :: 0 <= i < |d| ==> InClass(d[i], Digit);
    LongestPrefixWhole(d, Digit);
  }

  /** A plain digit string parses to its value. */
  lemma ParseIntDigits(d: string)
    requires |d| > 0 && AllDigits(d)
    ensures ParseInt(d) == Some(DigitsValue(d))
  {
    TrimLeftDigits(d);
    ParseMagnitudeDigits(d);
  }

  /** timeToMinutes: 0 for an empty string; otherwise hours * 60 + minutes
      read from the ':'-separated parts. None stands for NaN. */
  function TimeToMinutes(s: string): Option<int> {
    if s == "" then Some(0) else MinutesOfParts(Split(s, ':'))
  }

  /** hours * 60 + minutes, the minutes read as 0 when absent or empty. */
  function MinutesOfParts(parts: seq<string>): Option<int>
    requires |parts| >= 1
  {
    var h := ParseInt(parts[0]);
    var m := if |parts| > 1 && parts[1] != "" then ParseInt(parts[1]) else Some(0);
    if h.Some? && m.Some? then Some(h.value * 60 + m.value) else None
  }

  lemma NoColonInDigits(s: string)
    requires AllDigits(s)
    ensures ':' !in s
  {
  }

  /** "H" is split into the single part "H". */
  lemma SplitHour(h: string)
    requires AllDigits(h)
    ensures Split(h, ':') == [h]
  {
    NoColonInDigits(h);
  }

  /** "H:M" is split into the two parts "H" and "M". */
  lemma SplitHourMinute(h: string, m: string)
    requires AllDigits(h) && AllDigits(m)
    ensures Split(h + ":" + m, ':') == [h, m]
  {
    NoColonInDigits(h);
    NoColonInDigits(m);
    SplitJoin([h, m], ':');
    assert Join([h, m], ':') == h + ":" + m by {
      assert Join([h, m][1..], ':') == m;
    }
  }

  /** "H" with decimal digits is H whole hours. */
  lemma TimeToMinutesOfHour(h: string)
    requires |h| > 0 && AllDigits(h)
    ensures TimeToMinutes(h) == Some(DigitsValue(h) * 60)
  {
    SplitHour(h);
    ParseIntDigits(h);
  }

  /** "H:" with decimal digits is H whole hours: empty minutes read as 0. */
  lemma TimeToMinutesOfHourColon(h: string, a: nat)
    requires |h| > 0 && AllDigits(h) && DigitsValue(h) == a
    ensures TimeToMinutes(h + ":") == Some(a * 60)
  {
    var s := h + ":";
    assert s == h + ":" + "";
    SplitHourMinute(h, "");
    assert s != "" by { assert s[0] == h[0]; }
    assert Split(s, ':') == [h, ""];
    MinutesOfDigitParts(h, "", a, 0);
  }

  /** "H:M" with decimal digits reading a and b is a hours and b minutes, an
      empty M read as 0. */
  lemma TimeToMinutesOfDigits(h: string, m: string, a: nat, b: nat)
    requires |h| > 0 && AllDigits(h) && AllDigits(m) && DigitsValue(h) == a && DigitsValue(m) == b
    ensures TimeToMinutes(h + ":" + m) == Some(a * 60 + b)
  {
    var s := h + ":" + m;
    assert s != "" by { assert s[0] == h[0]; }
    SplitHourMinute(h, m);
    MinutesOfDigitParts(h, m, a, b);
  }

  lemma MinutesOfDigitParts(h: string, m: string, a: nat, b: nat)
    requires |h| > 0 && AllDigits(h) && AllDigits(m) && DigitsValue(h) == a && DigitsValue(m) == b
    ensures MinutesOfParts([h, m]) == Some(a * 60 + b)
  {
    ParseIntDigits(h);
    if m == "" {
      MinutesOfOnePart(h, m, a);
    } else {
      ParseIntDigits(m);
      MinutesOfTwoParts(h, m, a, b);
    }
  }

  lemma MinutesOfOnePart(h: string, m: string, a: int)
    requires m == "" && ParseInt(h) == Some(a)
    ensures MinutesOfParts([h, m]) == Some(a * 60)
  {
    var parts := [h, m];
    assert parts[0] == h && parts[1] == m;
  }

  lemma MinutesOfTwoParts(h: string, m: string, a: int, b: int)
    requires m != "" && ParseInt(h) == Some(a) && ParseInt(m) == Some(b)
    ensures MinutesOfParts([h, m]) == Some(a * 60 + b)
  {
    var parts := [h, m];
    assert parts[0] == h && parts[1] == m;
  }

  // ---------------------------------------------------------------------
  // The axis: 10-minute steps from 08:00 to 21:00 inclusive

  const SlotCount: nat := 79

  /** Minutes since midnight of axis row i. */
  function SlotMinutes(i: int): int {
    480 + 10 * i
  }

  /** The label of axis row i, "HH:MM". */
  function SlotLabel(i: nat): string
    requires i < SlotCount
  {
    Pad2(8 + i / 6) + ":" + Pad2(i % 6 * 10)
  }

  /** Each label reads back as its row's minutes: the rows are 10 minutes
      apart and row i starts at 08:00 plus 10 * i minutes. */
  lemma SlotLabelMinutes(i: nat)
    requires i < SlotCount
    ensures TimeToMinutes(SlotLabel(i)) == Some(SlotMinutes(i))
  {
    PaddedTime(8 + i / 6, i % 6 * 10);
    SlotArithmetic(i);
  }

  /** Two zero-padded numbers joined by ':' read back as a time. */
  lemma PaddedTime(a: nat, b: nat)
    requires a < 100 && b < 100
    ensures TimeToMinutes(Pad2(a) + ":" + Pad2(b)) == Some(a * 60 + b)
  {
    Pad2Digits(a);
    Pad2Digits(b);
    TimeToMinutesOfDigits(Pad2(a), Pad2(b), a, b);
  }

  lemma SlotArithmetic(i: nat)
    ensures (8 + i / 6) * 60 + i % 6 * 10 == SlotMinutes(i)
  {
    var a, b := i / 6, i % 6;
    assert i == 6 * a + b;
  }

  /** The axis is labelled from "08:00" to "21:00". */
  lemma SlotLabelEnds()
    ensures SlotLabel(0) == "08:00" && SlotLabel(SlotCount - 1) == "21:00"
  {
    assert Pad2(0) == "00" && Pad2(8) == "08" && Pad2(21) == "21";
    assert (SlotCount - 1) / 6 == 13 && (SlotCount - 1) % 6 == 0;
  }

  /** The axis so far holds the labels of its first rows, in order. */
  predicate LabelsSoFar(slots: seq<string>) {
    |slots| <= SlotCount && forall i :: 0 <= i < |slots| ==> slots[i] == SlotLabel(i)
  }

  /** The whole axis: its 79 labels, in order. */
  predicate IsAxis(slots: seq<string>) {
    |slots| == SlotCount && LabelsSoFar(slots)
  }

  lemma LabelsExtend(slots: seq<string>, text: string)
    requires LabelsSoFar(slots) && |slots| < SlotCount && text == SlotLabel(|slots|)
    ensures LabelsSoFar(slots + [text])
  {
  }

  /** Row (h - 8) * 6 + k is labelled with hour h and minute 10 * k. */
  lemma SlotOfHourMinute(h: int, k: int)
    requires 8 <= h <= 21 && 0 <= k < 6 && (h == 21 ==> k == 0)
    ensures SlotLabel((h - 8) * 6 + k) == Pad2(h) + ":" + Pad2(10 * k)
  {
    var i := (h - 8) * 6 + k;
    assert i / 6 == h - 8 && i % 6 == k;
  }

  /** The loops that fill timeSlots (static/app.js:367-373): every hour from
      8 to 21, every tenth minute, stopping after 21:00. */
  method BuildTimeSlots() returns (slots: seq<string>)
    ensures IsAxis(slots)
  {
    slots := [];
    var h := 8;
    while h <= 21
      invariant 8 <= h <= 22
      invariant |slots| == if h <= 21 then (h - 8) * 6 else SlotCount
      invariant LabelsSoFar(slots)
    {
      slots := AddHourSlots(h, slots);
      h := h + 1;
    }
  }

  /** One pass of the outer loop: the rows of hour h. */
  method AddHourSlots(h: int, slots0: seq<string>) returns (slots: seq<string>)
    requires 8 <= h <= 21 && |slots0| == (h - 8) * 6 && LabelsSoFar(slots0)
    ensures |slots| == if h < 21 then (h - 7) * 6 else SlotCount
    ensures LabelsSoFar(slots)
  {
    slots := slots0;
    var m := 0;
    ghost var k := 0;
    while m < 60
      invariant 0 <= k <= 6 && m == 10 * k
      invariant h == 21 ==> k <= 1
      invariant |slots| == (h - 8) * 6 + k
      invariant LabelsSoFar(slots)
    {
      if h == 21 && m > 0 {
        break;
      }
      SlotOfHourMinute(h, k);
      LabelsExtend(slots, Pad2(h) + ":" + Pad2(m));
      slots := slots + [Pad2(h) + ":" + Pad2(m)];
      m, k := m + 10, k + 1;
    }
  }

  // ---------------------------------------------------------------------
  // Days

  /** The grid's five columns. */
  const Days: seq<string> := ["Lunes", "Martes", "Miercoles", "Jueves", "Viernes"]

  /** The keys normalizeDayName tries, in its own order, and what each maps to. */
  const DayKeys: seq<string> := ["Lunes", "Martes", "Miercoles", "Mi\U{E9}rcoles", "Jueves", "Viernes", "Sabado", "S\U{E1}bado"]
  const DayValues: seq<string> := ["Lunes", "Martes", "Miercoles", "Miercoles", "Jueves", "Viernes", "Sabado", "Sabado"]

  /** The first key from k on that the lower-cased label contains. */
  function MatchDay(lowered: string, k: nat, fallback: string): string
    requires k <= |DayKeys|
    decreases |DayKeys| - k
  {
    if k == |DayKeys| then fallback
    else if Contains(lowered, Lower(DayKeys[k])) then DayValues[k]
    else MatchDay(lowered, k + 1, fallback)
  }

  /** normalizeDayName: "Lunes" for an empty label; otherwise the value of the
      first key the trimmed, lower-cased label contains; otherwise the trimmed
      label itself. */
  function NormalizeDayName(day: string): string {
    if day == "" then "Lunes"
    else
      var d := Trim(day, JsSpace);
      MatchDay(Lower(d), 0, d)
  }

  /** days.indexOf(name): the column a normalised name heads, -1 for none. */
  function DayIndexOf(n: string): (r: int)
    ensures -1 <= r < |Days|
    ensures r >= 0 ==> Days[r] == n
  {
    if n == Days[0] then 0
    else if n == Days[1] then 1
    else if n == Days[2] then 2
    else if n == Days[3] then 3
    else if n == Days[4] then 4
    else -1
  }

  /** days.indexOf(normalizeDayName(day)). */
  function DayIndex(day: string): (r: int)
    ensures -1 <= r < |Days|
    ensures r >= 0 ==> Days[r] == NormalizeDayName(day)
  {
    DayIndexOf(NormalizeDayName(day))
  }

  /** Mentions a weekday: the lower-cased label contains one of the first six
      keys. */
  ghost predicate NamesWeekday(lowered: string) {
    exists k :: 0 <= k < 6 && Contains(lowered, Lower(DayKeys[k]))
  }

  lemma {:induction false} MatchDayResult(lowered: string, k: nat, fallback: string)
    requires k <= |DayKeys|
    ensures var r := MatchDay(lowered, k, fallback);
      (exists j :: k <= j < 6 && Contains(lowered, Lower(DayKeys[j]))) ==> r in Days
    ensures var r := MatchDay(lowered, k, fallback);
      !(exists j :: k <= j < 6 && Contains(lowered, Lower(DayKeys[j]))) ==> r == "Sabado" || r == fallback
    decreases |DayKeys| - k
  {
    if k < |DayKeys| {
      MatchDayResult(lowered, k + 1, fallback);
      if k < 6 && !Contains(lowered, Lower(DayKeys[k])) {
        assert forall j :: k <= j < 6 && Contains(lowered, Lower(DayKeys[j])) ==> k + 1 <= j;
      }
    }
  }

  /** indexOf finds a name exactly when it is one of the columns. */
  lemma DayIndexFound(n: string)
    ensures DayIndexOf(n) >= 0 <==> n in Days
  {
    if n in Days {
      var j :| 0 <= j < |Days| && Days[j] == n;
      assert j == 0 || j == 1 || j == 2 || j == 3 || j == 4;
    }
  }

  /** A label equal to a column name mentions that weekday. */
  lemma ColumnNameIsWeekday(d: string)
    requires d in Days
    ensures NamesWeekday(Lower(d))
  {
    var j :| 0 <= j < |Days| && Days[j] == d;
    var k := if j < 3 then j else j + 1;
    assert DayKeys[k] == d;
    assert StartsWith(Lower(d), Lower(DayKeys[k]));
  }

  /** A block lands in a grid column exactly when its day label is empty or
      mentions a weekday; a label naming only Saturday, or nothing known, is
      dropped. */
  lemma DayIndexSpec(day: string)
    ensures day == "" ==> DayIndex(day) == 0
    ensures day != "" ==> (DayIndex(day) >= 0 <==> NamesWeekday(Lower(Trim(day, JsSpace))))
  {
    if day != "" {
      var d := Trim(day, JsSpace);
      assert NormalizeDayName(day) == MatchDay(Lower(d), 0, d);
      MatchedColumn(d);
    }
  }

  /** The name matched for a trimmed label is a column exactly when the label
      mentions a weekday. */
  lemma MatchedColumn(d: string)
    ensures DayIndexOf(MatchDay(Lower(d), 0, d)) >= 0 <==> NamesWeekday(Lower(d))
  {
    var l := Lower(d);
    var r := MatchDay(l, 0, d);
    MatchDayResult(l, 0, d);
    DayIndexFound(r);
    if d in Days {
      ColumnNameIsWeekday(d);
    }
    assert "Sabado" !in Days;
  }
}
