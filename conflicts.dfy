/** The server's pairwise tests on blocks (app.py:60-199): its own time
    reading, the campus classification, the overlap test, the travel-time
    rule between campuses and the BACH1121 exception. */
module Conflicts {
  import opened Wrappers
  import opened Strings
  import opened Records
  import TimeAxis

  // ---------------------------------------------------------------------
  // Python's int() on text

  /** The value of the digits int() accepts after the sign: decimal digits
      with single underscores allowed between two of them; None for any
      other text. */
  function PyDigitsValue(u: string): Option<nat> {
    if u == [] || !IsDigit(u[|u| - 1]) then None
    else if |u| == 1 then Some(DigitValue(u[0]))
    else
      var rest := if u[|u| - 2] == '_' then u[..|u| - 2] else u[..|u| - 1];
      match PyDigitsValue(rest)
      case None => None
      case Some(v) => Some(v * 10 + DigitValue(u[|u| - 1]))
  }

  /** int(s): surrounding white space, an optional sign, then the digits;
      None where int() raises ValueError. */
  function PyInt(s: string): Option<int> {
    PyIntOfStripped(Trim(s, PySpace))
  }

  function PyIntOfStripped(t: string): Option<int> {
    var neg := |t| > 0 && t[0] == '-';
    var u := if |t| > 0 && (t[0] == '-' || t[0] == '+') then t[1..] else t;
    match PyDigitsValue(u)
    case None => None
    case Some(v) => Some(if neg then -(v as int) else v as int)
  }

  /** A plain digit string has the value of its digits. */
  lemma {:induction false} PyDigitsOfDigits(d: string)
    requires |d| > 0 && AllDigits(d)
    ensures PyDigitsValue(d) == Some(DigitsValue(d))
  {
    if |d| > 1 {
      var init := d[..|d| - 1];
      assert d[|d| - 2] == init[|init| - 1];
      assert IsDigit(d[|d| - 2]);
      PyDigitsOfDigits(init);
    } else {
      assert d[..0] == [];
    }
  }

  /** White space around a string that starts and ends with a digit: none. */
  lemma TrimAroundDigits(s: string)
    requires |s| > 0 && IsDigit(s[0]) && IsDigit(s[|s| - 1])
    ensures Trim(s, PySpace) == s
  {
    assert TrimLeft(s, PySpace) == s;
  }

  lemma StrippedDigits(d: string)
    requires |d| > 0 && AllDigits(d)
    ensures PyIntOfStripped(d) == Some(DigitsValue(d))
  {
    PyDigitsOfDigits(d);
    assert d[0] != '-' && d[0] != '+' by { assert IsDigit(d[0]); }
  }

  /** A plain digit string is read whole. */
  lemma PyIntDigits(d: string)
    requires |d| > 0 && AllDigits(d)
    ensures PyInt(d) == Some(DigitsValue(d))
  {
    TrimAroundDigits(d);
    StrippedDigits(d);
  }

  // ---------------------------------------------------------------------
  // time_to_minutes

  /** time_to_minutes: int(hours) * 60 + int(minutes) from the ':'-separated
      parts of the stripped text, and 0 whenever either part is missing or
      not an integer. */
  function PyTimeToMinutes(s: string): int {
    PyMinutesOfParts(Split(Trim(s, PySpace), ':'))
  }

  function PyMinutesOfParts(parts: seq<string>): int {
    if |parts| < 2 then 0
    else
      match (PyInt(parts[0]), PyInt(parts[1]))
      case (Some(h), Some(m)) => h * 60 + m
      case _ => 0
  }

  lemma PyMinutesOfDigitParts(parts: seq<string>, a: nat, b: nat)
    requires |parts| >= 2
    requires |parts[0]| > 0 && AllDigits(parts[0]) && DigitsValue(parts[0]) == a
    requires |parts[1]| > 0 && AllDigits(parts[1]) && DigitsValue(parts[1]) == b
    ensures PyMinutesOfParts(parts) == a * 60 + b
  {
    PyIntDigits(parts[0]);
    PyIntDigits(parts[1]);
  }

  /** "H:M" with decimal digits reading a and b is a hours and b minutes. */
  lemma {:induction false} PyTimeOfDigits(h: string, m: string, a: nat, b: nat)
    requires |h| > 0 && AllDigits(h) && DigitsValue(h) == a
    requires |m| > 0 && AllDigits(m) && DigitsValue(m) == b
    ensures PyTimeToMinutes(h + ":" + m) == a * 60 + b
  {
    var s := h + ":" + m;
    assert s[0] == h[0] && s[|s| - 1] == m[|m| - 1];
    TrimAroundDigits(s);
    TimeAxis.SplitHourMinute(h, m);
    PyMinutesOfDigitParts([h, m], a, b);
  }

  /** "H:M:S", the text of a spreadsheet time, is read as "H:M": the seconds
      are ignored. */
  lemma {:induction false} PyTimeWithSeconds(h: string, m: string, sec: string, a: nat, b: nat)
    requires |h| > 0 && AllDigits(h) && DigitsValue(h) == a
    requires |m| > 0 && AllDigits(m) && DigitsValue(m) == b
    requires |sec| > 0 && AllDigits(sec)
    ensures PyTimeToMinutes(h + ":" + m + ":" + sec) == a * 60 + b
  {
    var s := h + ":" + m + ":" + sec;
    assert s[0] == h[0] && s[|s| - 1] == sec[|sec| - 1];
    TrimAroundDigits(s);
    TimeAxis.NoColonInDigits(h);
    TimeAxis.NoColonInDigits(m);
    TimeAxis.NoColonInDigits(sec);
    var parts := [h, m, sec];
    assert Join(parts, ':') == s by {
      assert parts[1..] == [m, sec];
      assert Join([m, sec][1..], ':') == sec;
    }
    SplitJoin(parts, ':');
    PyMinutesOfDigitParts(parts, a, b);
  }

  /** Text without a ':' reads as 0: there is no minutes part. */
  lemma PyTimeWithoutColon(s: string)
    requires ':' !in s
    ensures PyTimeToMinutes(s) == 0
  {
    var l := TrimLeft(s, PySpace);
    TrimLeftSpec(s, PySpace);
    TrimRightSpec(l, PySpace);
    var t := Trim(s, PySpace);
    assert ':' !in t by {
      assert t == l[..|t|] && l == s[|s| - |l|..];
    }
  }

  /** "H:" has an empty minutes part, which int() refuses: 0. */
  lemma PyTimeOfHourColon(h: string)
    requires |h| > 0 && AllDigits(h)
    ensures PyTimeToMinutes(h + ":") == 0
  {
    var s := h + ":";
    assert s[0] == h[0] && s[|s| - 1] == ':';
    assert TrimLeft(s, PySpace) == s;
    assert TrimRight(s, PySpace) == s;
    TimeAxis.SplitHourMinute(h, "");
    assert h + ":" + "" == s;
    var parts := [h, ""];
    assert parts[1] == "" && PyInt("") == None;
  }

  /** Where the two readers differ: the browser reads "H" and "H:" as H whole
      hours, the server reads both as 0. */
  lemma ServerAndBrowserOnHour(h: string)
    requires |h| > 0 && AllDigits(h)
    ensures PyTimeToMinutes(h) == 0 && PyTimeToMinutes(h + ":") == 0
    ensures TimeAxis.TimeToMinutes(h) == Some(DigitsValue(h) * 60)
    ensures TimeAxis.TimeToMinutes(h + ":") == Some(DigitsValue(h) * 60)
  {
    TimeAxis.NoColonInDigits(h);
    PyTimeWithoutColon(h);
    PyTimeOfHourColon(h);
    TimeAxis.TimeToMinutesOfHour(h);
    TimeAxis.TimeToMinutesOfHourColon(h, DigitsValue(h));
  }

  // ---------------------------------------------------------------------
  // normalize_campus

  datatype Campus = Alemania | SanJuanPablo | Virtual | Otro

  predicate NamesAlemania(u: string) {
    Contains(u, "ALEMANIA") || Contains(u, "RIVAS")
  }

  predicate NamesSanJuanPablo(u: string) {
    Contains(u, "SAN JUAN PABLO") || Contains(u, "JUAN PABLO") || Contains(u, "SJPII") || Contains(u, "CJP")
  }

  predicate NamesVirtual(u: string) {
    Contains(u, "VIRTUAL") || Contains(u, "ONLINE")
  }

  /** normalize_campus: the keys are looked for in the upper-cased text, in
      this order; the first family found wins. */
  function NormalizeCampus(campus: string): Campus {
    var u := Upper(campus);
    if NamesAlemania(u) then Alemania
    else if NamesSanJuanPablo(u) then SanJuanPablo
    else if NamesVirtual(u) then Virtual
    else Otro
  }

  lemma {:induction false} UpperAppend(a: string, b: string)
    ensures Upper(a + b) == Upper(a) + Upper(b)
  {
    if b == [] {
      assert a + b == a;
    } else {
      var init, last := b[..|b| - 1], b[|b| - 1];
      UpperAppend(a, init);
      var ab := a + b;
      assert ab[..|ab| - 1] == a + init && ab[|ab| - 1] == last;
      assert Upper(ab) == Upper(a + init) + UpperChar(last);
      assert Upper(b) == Upper(init) + UpperChar(last);
      var x, y, z := Upper(a), Upper(init), UpperChar(last);
      assert (x + y) + z == x + (y + z);
    }
  }

  lemma {:induction false} ContainsMiddle(x: string, k: string, y: string)
    ensures Contains(x + k + y, k)
  {
    if x == [] {
      assert (x + k + y)[..|k|] == k;
    } else {
      ContainsMiddle(x[1..], k, y);
      assert (x + k + y)[1..] == x[1..] + k + y;
    }
  }

  /** Whatever surrounds it and whatever its case, a word that upper-cases
      to one of the keys classifies the campus, unless a key of an earlier
      family occurs too. */
  lemma CampusOfMention(p: string, w: string, q: string)
    ensures Upper(w) == "ALEMANIA" || Upper(w) == "RIVAS" ==> NormalizeCampus(p + w + q) == Alemania
    ensures ((Upper(w) == "SAN JUAN PABLO" || Upper(w) == "JUAN PABLO" || Upper(w) == "SJPII" || Upper(w) == "CJP")
        && !NamesAlemania(Upper(p + w + q)))
      ==> NormalizeCampus(p + w + q) == SanJuanPablo
    ensures ((Upper(w) == "VIRTUAL" || Upper(w) == "ONLINE")
        && !NamesAlemania(Upper(p + w + q)) && !NamesSanJuanPablo(Upper(p + w + q)))
      ==> NormalizeCampus(p + w + q) == Virtual
  {
    UpperAppend(p, w);
    UpperAppend(p + w, q);
    ContainsMiddle(Upper(p), Upper(w), Upper(q));
  }

  // ---------------------------------------------------------------------
  // blocks_overlap

  function StartOf(b: Block): int { PyTimeToMinutes(b.horaIni) }

  function EndOf(b: Block): int { PyTimeToMinutes(b.horaFin) }

  /** Neither interval ends before or when the other starts. */
  predicate IntervalsOverlap(s1: int, e1: int, s2: int, e2: int) {
    !(e1 <= s2 || e2 <= s1)
  }

  /** blocks_overlap: same day label, and overlapping minutes. */
  predicate BlocksOverlap(b1: Block, b2: Block) {
    b1.dia == b2.dia && IntervalsOverlap(StartOf(b1), EndOf(b1), StartOf(b2), EndOf(b2))
  }

  /** Minute t lies in the half-open interval [s, e). */
  predicate Within(t: int, s: int, e: int) {
    s <= t < e
  }

  /** The test is symmetric; a shared minute means overlap, and for
      non-empty intervals overlap means a shared minute. */
  lemma IntervalsShareMinute(s1: int, e1: int, s2: int, e2: int)
    ensures IntervalsOverlap(s1, e1, s2, e2) <==> IntervalsOverlap(s2, e2, s1, e1)
    ensures (exists t :: Within(t, s1, e1) && Within(t, s2, e2)) ==> IntervalsOverlap(s1, e1, s2, e2)
    ensures s1 < e1 && s2 < e2 && IntervalsOverlap(s1, e1, s2, e2) ==> exists t :: Within(t, s1, e1) && Within(t, s2, e2)
  {
    if s1 < e1 && s2 < e2 && IntervalsOverlap(s1, e1, s2, e2) {
      var t := if s1 < s2 then s2 else s1;
      assert Within(t, s1, e1) && Within(t, s2, e2);
    }
  }

  /** Whichever is named first, two blocks of one day label that share a
      minute overlap, and two non-empty blocks overlap only when they share
      one. */
  lemma OverlapMeansSharedMinute(b1: Block, b2: Block)
    ensures BlocksOverlap(b1, b2) <==> BlocksOverlap(b2, b1)
    ensures b1.dia != b2.dia ==> !BlocksOverlap(b1, b2)
    ensures (b1.dia == b2.dia && exists t :: Within(t, StartOf(b1), EndOf(b1)) && Within(t, StartOf(b2), EndOf(b2)))
      ==> BlocksOverlap(b1, b2)
    ensures (StartOf(b1) < EndOf(b1) && StartOf(b2) < EndOf(b2) && BlocksOverlap(b1, b2))
      ==> exists t :: Within(t, StartOf(b1), EndOf(b1)) && Within(t, StartOf(b2), EndOf(b2))
  {
    IntervalsShareMinute(StartOf(b1), EndOf(b1), StartOf(b2), EndOf(b2));
  }

  /** Back-to-back blocks, one ending when the other starts, do not
      overlap. */
  lemma BackToBack(b1: Block, b2: Block)
    requires EndOf(b1) == StartOf(b2)
    ensures !BlocksOverlap(b1, b2) && !BlocksOverlap(b2, b1)
  {
  }

  // ---------------------------------------------------------------------
  // check_travel_time

  /** A pause too short to change campus: the block the message names
      first, the other one, and the minutes needed. */
  datatype Shortfall = Shortfall(first: Block, second: Block, required: int)

  /** The verdict: fine, or a travel-time conflict; its message is
      TravelMessage of the shortfall. */
  datatype TravelCheck = TravelOk | TravelShort(shortfall: Shortfall)

  /** The minutes needed between two different campuses: 30 when one is San
      Juan Pablo II, 10 otherwise. */
  function RequiredGap(c1: Campus, c2: Campus): (g: int)
    ensures g == 10 || g == 30
  {
    if c1 == SanJuanPablo || c2 == SanJuanPablo then 30 else 10
  }

  /** Which pause is too short: none, the one after the first interval, or
      the one after the second. The first interval's end is tried first. */
  datatype Pause = PauseOk | ShortAfterFirst | ShortAfterSecond

  function PauseCheck(s1: int, e1: int, s2: int, e2: int, required: int): Pause {
    if e1 <= s2 then (if s2 - e1 >= required then PauseOk else ShortAfterFirst)
    else if e2 <= s1 then (if s1 - e2 >= required then PauseOk else ShortAfterSecond)
    else PauseOk
  }

  function Max(a: int, b: int): int { if a < b then b else a }

  function Min(a: int, b: int): int { if a < b then a else b }

  /** Overlapping intervals never fail; for proper intervals (end not
      before start) that do not overlap, the check fails exactly when the
      later start minus the earlier end is below the requirement, and
      swapping the intervals swaps which one is blamed, except when both
      are empty at the same minute. */
  lemma PauseRule(s1: int, e1: int, s2: int, e2: int, required: int)
    ensures IntervalsOverlap(s1, e1, s2, e2) ==> PauseCheck(s1, e1, s2, e2, required) == PauseOk
    ensures (s1 <= e1 && s2 <= e2 && !IntervalsOverlap(s1, e1, s2, e2))
      ==> (PauseCheck(s1, e1, s2, e2, required) != PauseOk <==> Max(s1, s2) - Min(e1, e2) < required)
    ensures (s1 <= e1 && s2 <= e2 && (s1 < e1 || s2 < e2))
      ==> PauseCheck(s2, e2, s1, e1, required) == Swapped(PauseCheck(s1, e1, s2, e2, required))
  {
  }

  function Swapped(p: Pause): Pause {
    match p
    case PauseOk => PauseOk
    case ShortAfterFirst => ShortAfterSecond
    case ShortAfterSecond => ShortAfterFirst
  }

  /** The text check_travel_time returns with a failing verdict. */
  function TravelMessage(s: Shortfall): string {
    var kind := if s.required == 30 then "Topón de campus (San Juan Pablo II)" else "Topón de campus";
    kind + ": " + s.first.curso + " (" + s.first.campus + ") y " + s.second.curso + " (" + s.second.campus
      + ") - necesitan " + IntToString(s.required) + " min"
  }

  /** check_travel_time: only two blocks on the same day, at two different
      physical campuses, can be too close. */
  function CheckTravelTime(b1: Block, b2: Block): TravelCheck {
    if b1.dia != b2.dia then TravelOk
    else
      var c1 := NormalizeCampus(b1.campus);
      var c2 := NormalizeCampus(b2.campus);
      if c1 == Virtual || c2 == Virtual then TravelOk
      else if c1 == c2 then TravelOk
      else
        var required := RequiredGap(c1, c2);
        match PauseCheck(StartOf(b1), EndOf(b1), StartOf(b2), EndOf(b2), required)
        case PauseOk => TravelOk
        case ShortAfterFirst => TravelShort(Shortfall(b1, b2, required))
        case ShortAfterSecond => TravelShort(Shortfall(b2, b1, required))
  }

  /** A block whose end is not before its start. */
  predicate Proper(b: Block) {
    StartOf(b) <= EndOf(b)
  }

  /** The rule never objects to different days, a virtual campus, one
      campus, or overlapping blocks. Otherwise, for proper blocks, it
      objects exactly when the pause between them, the later start minus the
      earlier end, is shorter than the required gap. */
  lemma TravelRule(b1: Block, b2: Block)
    ensures b1.dia != b2.dia ==> CheckTravelTime(b1, b2) == TravelOk
    ensures NormalizeCampus(b1.campus) == Virtual || NormalizeCampus(b2.campus) == Virtual ==> CheckTravelTime(b1, b2) == TravelOk
    ensures NormalizeCampus(b1.campus) == NormalizeCampus(b2.campus) ==> CheckTravelTime(b1, b2) == TravelOk
    ensures BlocksOverlap(b1, b2) ==> CheckTravelTime(b1, b2) == TravelOk
    ensures (Proper(b1) && Proper(b2) && b1.dia == b2.dia && !BlocksOverlap(b1, b2)
        && NormalizeCampus(b1.campus) != Virtual && NormalizeCampus(b2.campus) != Virtual
        && NormalizeCampus(b1.campus) != NormalizeCampus(b2.campus))
      ==> (CheckTravelTime(b1, b2).TravelShort? <==>
          Max(StartOf(b1), StartOf(b2)) - Min(EndOf(b1), EndOf(b2))
            < RequiredGap(NormalizeCampus(b1.campus), NormalizeCampus(b2.campus)))
  {
    var c1, c2 := NormalizeCampus(b1.campus), NormalizeCampus(b2.campus);
    PauseRule(StartOf(b1), EndOf(b1), StartOf(b2), EndOf(b2), RequiredGap(c1, c2));
  }

  /** For proper blocks, not both empty, the order of the two does not
      matter: the same verdict and the same message, which names the
      earlier block first. */
  lemma TravelSymmetric(b1: Block, b2: Block)
    requires Proper(b1) && Proper(b2)
    requires StartOf(b1) < EndOf(b1) || StartOf(b2) < EndOf(b2)
    ensures CheckTravelTime(b1, b2) == CheckTravelTime(b2, b1)
  {
    var c1, c2 := NormalizeCampus(b1.campus), NormalizeCampus(b2.campus);
    assert RequiredGap(c1, c2) == RequiredGap(c2, c1);
    PauseRule(StartOf(b1), EndOf(b1), StartOf(b2), EndOf(b2), RequiredGap(c1, c2));
  }

  /** For a block that is not proper the order matters. A block read as
      10:00 to 0 (an end that is not a time) at RIVAS and one from 09:00 to
      09:55 at San Juan Pablo II pass one way round and fail the other. */
  lemma TravelDependsOnOrder(b1: Block, b2: Block)
    requires b1.dia == b2.dia
    requires NormalizeCampus(b1.campus) == Alemania && NormalizeCampus(b2.campus) == SanJuanPablo
    requires StartOf(b1) == 600 && EndOf(b1) == 0 && StartOf(b2) == 540 && EndOf(b2) == 595
    ensures CheckTravelTime(b1, b2) == TravelOk
    ensures CheckTravelTime(b2, b1) == TravelShort(Shortfall(b2, b1, 30))
  {
    assert RequiredGap(Alemania, SanJuanPablo) == 30 == RequiredGap(SanJuanPablo, Alemania);
    assert PauseCheck(600, 0, 540, 595, 30) == PauseOk;
    assert PauseCheck(540, 595, 600, 0, 30) == ShortAfterFirst;
  }

  // ---------------------------------------------------------------------
  // is_valid_topon

  /** One configured accepted overlap of BACH1121: its section, day label,
      start and end text, and its type when one was stored. */
  datatype ToponConfig = ToponConfig(section: int, dia: string, horaIni: string, horaFin: string, taponType: Option<string>)

  const Bach: string := "BACH1121"

  predicate ConfigMatches(cfg: ToponConfig, bach: Block) {
    cfg.section == bach.seccion && cfg.dia == bach.dia && cfg.horaIni == bach.horaIni && cfg.horaFin == bach.horaFin
  }

  /** The other block spans the whole BACH1121 meeting. */
  predicate CoversBach(other: Block, bach: Block) {
    StartOf(other) <= StartOf(bach) && EndOf(other) >= EndOf(bach)
  }

  /** A matched configuration's verdict: a 'completo' one (the default)
      stays complete only when the other block spans the whole meeting. */
  function ToponKind(cfg: ToponConfig, bach: Block, other: Block): ToponType {
    var t := if cfg.taponType.Some? then cfg.taponType.value else "completo";
    if t == "completo" then (if CoversBach(other, bach) then Completo else Parcial)
    else Parcial
  }

  /** The configurations in stored order; the first match decides. */
  function FirstMatch(bach: Block, other: Block, cfgs: seq<ToponConfig>): Option<ToponType> {
    if cfgs == [] then None
    else if ConfigMatches(cfgs[0], bach) then Some(ToponKind(cfgs[0], bach, other))
    else FirstMatch(bach, other, cfgs[1..])
  }

  /** The BACH1121 block of the pair, the first one when both are. */
  function BachOf(b1: Block, b2: Block): Option<(Block, Block)> {
    if b1.curso == Bach then Some((b1, b2))
    else if b2.curso == Bach then Some((b2, b1))
    else None
  }

  function IsValidTopon(b1: Block, b2: Block, cfgs: seq<ToponConfig>): Option<ToponType> {
    if cfgs == [] then None
    else
      match BachOf(b1, b2)
      case None => None
      case Some((bach, other)) => FirstMatch(bach, other, cfgs)
  }

  /** The search returns the verdict of the first configuration that
      matches the meeting, and nothing when none does. */
  lemma {:induction false} FirstMatchSpec(bach: Block, other: Block, cfgs: seq<ToponConfig>)
    ensures FirstMatch(bach, other, cfgs).None? <==> forall k :: 0 <= k < |cfgs| ==> !ConfigMatches(cfgs[k], bach)
    ensures FirstMatch(bach, other, cfgs).Some? ==>
      exists k :: 0 <= k < |cfgs| && ConfigMatches(cfgs[k], bach)
        && (forall j :: 0 <= j < k ==> !ConfigMatches(cfgs[j], bach))
        && FirstMatch(bach, other, cfgs) == Some(ToponKind(cfgs[k], bach, other))
  {
    if cfgs != [] && !ConfigMatches(cfgs[0], bach) {
      FirstMatchSpec(bach, other, cfgs[1..]);
      if FirstMatch(bach, other, cfgs).Some? {
        var k :| 0 <= k < |cfgs[1..]| && ConfigMatches(cfgs[1..][k], bach)
          && (forall j :: 0 <= j < k ==> !ConfigMatches(cfgs[1..][j], bach))
          && FirstMatch(bach, other, cfgs[1..]) == Some(ToponKind(cfgs[1..][k], bach, other));
        assert ConfigMatches(cfgs[k + 1], bach);
        assert forall j :: 0 <= j < k + 1 ==> !ConfigMatches(cfgs[j], bach) by {
          forall j | 0 <= j < k + 1 ensures !ConfigMatches(cfgs[j], bach) {
            if j > 0 { assert cfgs[j] == cfgs[1..][j - 1]; }
          }
        }
      }
    } else if cfgs != [] {
      assert ConfigMatches(cfgs[0], bach);
    } else {
    }
    if FirstMatch(bach, other, cfgs).None? && cfgs != [] {
      forall k | 0 <= k < |cfgs| ensures !ConfigMatches(cfgs[k], bach) {
        if k > 0 { assert cfgs[k] == cfgs[1..][k - 1]; }
      }
    }
  }

  /** No configuration, no BACH1121 block, or no matching configuration: no
      exception. A complete exception is only granted when the other block
      spans the BACH1121 meeting; any other type found is partial. */
  lemma ToponRules(b1: Block, b2: Block, cfgs: seq<ToponConfig>)
    ensures cfgs == [] ==> IsValidTopon(b1, b2, cfgs) == None
    ensures b1.curso != Bach && b2.curso != Bach ==> IsValidTopon(b1, b2, cfgs) == None
    ensures b1.curso == Bach ==> IsValidTopon(b1, b2, cfgs) == FirstMatch(b1, b2, cfgs)
    ensures b1.curso != Bach && b2.curso == Bach ==> IsValidTopon(b1, b2, cfgs) == FirstMatch(b2, b1, cfgs)
    ensures IsValidTopon(b1, b2, cfgs) == Some(Completo) ==>
      (b1.curso == Bach && CoversBach(b2, b1)) || (b1.curso != Bach && b2.curso == Bach && CoversBach(b1, b2))
  {
    if IsValidTopon(b1, b2, cfgs) == Some(Completo) {
      var (bach, other) := BachOf(b1, b2).value;
      FirstMatchSpec(bach, other, cfgs);
    }
  }
}
