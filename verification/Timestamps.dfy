/**
 The timestamps action_ref.py accepts: RFC 3339 in UTC with three fractional digits, denoting a
 real calendar instant of the years 1 to 9999.
 */
module Timestamps {
  import opened Python
  import opened Order
  import opened Decimal

  // ------------------------------------------------------------------ grammar

  /** Groups of digits of fixed widths, each followed by its separator, and nothing else. */
  function Read(s: string, widths: seq<nat>, separators: string): Option<seq<nat>>
    requires |widths| == |separators|
  {
    if widths == [] then (if s == "" then Some([]) else None)
    else
      var w := widths[0];
      if |s| <= w || !IsDigits(s[..w]) || s[w] != separators[0] then None
      else
        match Read(s[w + 1..], widths[1..], separators[1..])
        case None => None
        case Some(rest) => Some([NatOf(s[..w])] + rest)
  }

  function Render(values: seq<nat>, widths: seq<nat>, separators: string): string
    requires |values| == |widths| == |separators|
  {
    if widths == [] then ""
    else Pad(values[0], widths[0]) + [separators[0]] + Render(values[1..], widths[1..], separators[1..])
  }

  const WIDTHS: seq<nat> := [4, 2, 2, 2, 2, 2, 3]
  const SEPARATORS: string := "--T::.Z"

  // ------------------------------------------------------------------ the calendar

  predicate LeapYear(y: int) {
    y % 4 == 0 && (y % 100 != 0 || y % 400 == 0)
  }

  function DaysInMonth(y: int, m: int): int
    requires 1 <= m <= 12
  {
    if m == 2 then (if LeapYear(y) then 29 else 28)
    else if m == 4 || m == 6 || m == 9 || m == 11 then 30
    else 31
  }

  /** Days from 0001-01-01 to the start of a year. */
  function DaysBeforeYear(y: int): int {
    (y - 1) * 365 + (y - 1) / 4 - (y - 1) / 100 + (y - 1) / 400
  }

  function DaysBeforeMonth(y: int, m: int): int
    requires 1 <= m <= 12
  {
    if m == 1 then 0 else DaysBeforeMonth(y, m - 1) + DaysInMonth(y, m - 1)
  }

  /** Year, month, day, hour, minute, second, millisecond. */
  type Fields = v: seq<nat> | |v| == 7 witness [1, 1, 1, 0, 0, 0, 0]

  predicate IsDate(y: int, m: int, d: int) {
    1 <= y <= 9999 && 1 <= m <= 12 && 1 <= d <= DaysInMonth(y, m)
  }

  /** What strptime accepts of fields of the grammar's widths. */
  predicate IsInstant(v: Fields) {
    IsDate(v[0], v[1], v[2]) && v[3] < 24 && v[4] < 60 && v[5] < 60 && v[6] < 1000
  }

  function DayOf(y: int, m: int, d: int): int
    requires 1 <= m <= 12
  {
    DaysBeforeYear(y) + DaysBeforeMonth(y, m) + d - 1
  }

  const DAY: int := 86_400_000

  function ClockOf(h: int, mi: int, s: int, ms: int): int {
    ((h * 60 + mi) * 60 + s) * 1000 + ms
  }

  /** Milliseconds since 0001-01-01T00:00:00.000Z. */
  function InstantOf(v: Fields): int
    requires IsInstant(v)
  {
    DayOf(v[0], v[1], v[2]) * DAY + ClockOf(v[3], v[4], v[5], v[6])
  }

  /** The fields of a text of the grammar. */
  function FieldsOf(s: string): Option<seq<nat>> {
    Read(s, WIDTHS, SEPARATORS)
  }

  predicate Accepted(s: string) {
    var v := FieldsOf(s);
    v.Some? && |v.value| == 7 && IsInstant(v.value)
  }

  function Instant(s: string): int
    requires Accepted(s)
  {
    InstantOf(FieldsOf(s).value)
  }

  /** A Python datetime in UTC. */
  datatype DateTime = DateTime(year: nat, month: nat, day: nat, hour: nat, minute: nat, second: nat, microsecond: nat)

  predicate IsDateTime(t: DateTime) {
    IsDate(t.year, t.month, t.day) && t.hour < 24 && t.minute < 60 && t.second < 60 && t.microsecond < 1_000_000
  }

  /** %Y is written without padding, the milliseconds with three digits. */
  function FormatTimestamp(t: DateTime): string {
    NatText(t.year) + "-" + (Pad(t.month, 2) + "-" + (Pad(t.day, 2) + "T" + (
      Pad(t.hour, 2) + ":" + (Pad(t.minute, 2) + ":" + (Pad(t.second, 2) + "." + (
        Pad(t.microsecond / 1000, 3) + "Z"))))))
  }

  /** Microseconds since the start of the year 1. */
  function MicrosOf(t: DateTime): int
    requires IsDateTime(t)
  {
    (DayOf(t.year, t.month, t.day) * DAY + ClockOf(t.hour, t.minute, t.second, 0)) * 1000 + t.microsecond
  }

  // ------------------------------------------------------------------ reading and rendering

  predicate Fits(values: seq<nat>, widths: seq<nat>) {
    |values| == |widths| && forall i | 0 <= i < |values| :: widths[i] > 0 && values[i] < Ten(widths[i])
  }

  lemma {:induction false} ReadRender(values: seq<nat>, widths: seq<nat>, separators: string)
    requires Fits(values, widths) && |widths| == |separators|
    ensures Read(Render(values, widths, separators), widths, separators) == Some(values)
    decreases |widths|
  {
    if widths != [] {
      var w := widths[0];
      var rest := Render(values[1..], widths[1..], separators[1..]);
      var s := Render(values, widths, separators);
      PadDigits(values[0], w);
      ReadRender(values[1..], widths[1..], separators[1..]);
      assert s[..w] == Pad(values[0], w) && s[w] == separators[0] && s[w + 1..] == rest;
      assert [values[0]] + values[1..] == values;
    }
  }

  lemma FitsMore(x: nat, w: nat, values: seq<nat>, widths: seq<nat>)
    requires Fits(values, widths) && w > 0 && x < Ten(w)
    ensures Fits([x] + values, [w] + widths)
  {}

  lemma {:induction false} RenderRead(s: string, widths: seq<nat>, separators: string)
    requires |widths| == |separators| && Read(s, widths, separators).Some?
    requires forall i | 0 <= i < |widths| :: widths[i] > 0
    ensures var values := Read(s, widths, separators).value;
            Fits(values, widths) && s == Render(values, widths, separators)
    decreases |widths|
  {
    hide Fits, Pad, NatOf;
    if widths == [] {
      NoFields();
    } else {
      var w := widths[0];
      PadOfDigits(s[..w]);
      RenderRead(s[w + 1..], widths[1..], separators[1..]);
      var rest := Read(s[w + 1..], widths[1..], separators[1..]).value;
      FitsMore(NatOf(s[..w]), w, rest, widths[1..]);
      assert widths == [w] + widths[1..];
      FieldAndRest(s, w, separators[0]);
      assert ([NatOf(s[..w])] + rest)[1..] == rest;
    }
  }

  lemma NoFields()
    ensures Fits([], [])
  {}

  lemma FieldAndRest(s: string, w: nat, c: char)
    requires w < |s| && s[w] == c
    ensures s == s[..w] + [c] + s[w + 1..]
  {}

  // ------------------------------------------------------------------ string order

  lemma CodesConcat(s: string, t: string)
    ensures CodePoints(s + t) == CodePoints(s) + CodePoints(t)
  {
    hide CodePoints;
  }

  /** Texts whose first parts have one length compare by the first parts, then by the rest. */
  lemma {:induction false} LexSplit(a: seq<int>, b: seq<int>, c: seq<int>, d: seq<int>)
    requires |a| == |b|
    ensures LexLeq(a + c, b + d) <==> LexLess(a, b) || (a == b && LexLeq(c, d))
    decreases |a|
  {
    if a == [] {
      assert a + c == c && b + d == d;
    } else {
      LexSplit(a[1..], b[1..], c, d);
      assert (a + c)[1..] == a[1..] + c && (b + d)[1..] == b[1..] + d;
      assert a == [a[0]] + a[1..] && b == [b[0]] + b[1..];
    }
  }

  lemma {:induction false} CodesInjective(s: string, t: string)
    requires CodePoints(s) == CodePoints(t)
    ensures s == t
    decreases |s|
  {
    if s != "" {
      assert CodePoints(s)[1..] == CodePoints(s[1..]) && CodePoints(t)[1..] == CodePoints(t[1..]);
      CodesInjective(s[1..], t[1..]);
      assert s == [s[0]] + s[1..] && t == [t[0]] + t[1..];
    }
  }

  lemma LexOne(a: seq<int>, b: seq<int>)
    requires |a| == |b| == 1
    ensures LexLeq(a, b) <==> a[0] <= b[0]
  {}

  /** Digit strings of one length are ordered as their numbers. */
  lemma {:induction false} LexDigits(s: string, t: string)
    requires |s| == |t| && IsDigits(s) && IsDigits(t)
    ensures LexLeq(CodePoints(s), CodePoints(t)) <==> NatOf(s) <= NatOf(t)
    decreases |s|
  {
    hide LexLeq;
    if s == "" {
      LexTotal([], []);
    } else {
      var n := |s| - 1;
      LexDigits(s[..n], t[..n]);
      LexLast(s, t);
      if CodePoints(s[..n]) == CodePoints(t[..n]) {
        CodesInjective(s[..n], t[..n]);
      }
      if NatOf(s[..n]) == NatOf(t[..n]) {
        NatInjective(s[..n], t[..n]);
      }
    }
  }

  lemma CodesOne(c: char)
    ensures CodePoints([c]) == [c as int]
  {}

  lemma LexLast(s: string, t: string)
    requires |s| == |t| > 0
    ensures var n := |s| - 1;
            LexLeq(CodePoints(s), CodePoints(t)) <==>
              || LexLess(CodePoints(s[..n]), CodePoints(t[..n]))
              || (CodePoints(s[..n]) == CodePoints(t[..n]) && s[n] <= t[n])
  {
    hide LexLeq, CodePoints;
    var n := |s| - 1;
    CodesOne(s[n]);
    CodesOne(t[n]);
    assert s == s[..n] + [s[n]] && t == t[..n] + [t[n]];
    CodesConcat(s[..n], [s[n]]);
    CodesConcat(t[..n], [t[n]]);
    LexSplit(CodePoints(s[..n]), CodePoints(t[..n]), CodePoints([s[n]]), CodePoints([t[n]]));
    LexOne(CodePoints([s[n]]), CodePoints([t[n]]));
  }

  lemma LexPads(x: nat, y: nat, w: nat)
    requires 0 < w && x < Ten(w) && y < Ten(w)
    ensures |CodePoints(Pad(x, w))| == |CodePoints(Pad(y, w))| == w
    ensures LexLeq(CodePoints(Pad(x, w)), CodePoints(Pad(y, w))) <==> x <= y
    ensures CodePoints(Pad(x, w)) == CodePoints(Pad(y, w)) <==> x == y
  {
    hide LexLeq, Pad, NatOf;
    PadDigits(x, w);
    PadDigits(y, w);
    LexDigits(Pad(x, w), Pad(y, w));
    if CodePoints(Pad(x, w)) == CodePoints(Pad(y, w)) {
      CodesInjective(Pad(x, w), Pad(y, w));
    }
  }

  lemma LexField(a: seq<int>, b: seq<int>, c: char, rest: seq<int>, more: seq<int>)
    requires |a| == |b|
    ensures LexLeq(a + CodePoints([c]) + rest, b + CodePoints([c]) + more) <==> LexLess(a, b) || (a == b && LexLeq(rest, more))
  {
    hide LexLeq;
    LexSplit(a + CodePoints([c]), b + CodePoints([c]), rest, more);
    LexSplit(a, b, CodePoints([c]), CodePoints([c]));
    LexTotal(CodePoints([c]), CodePoints([c]));
    assert (a + CodePoints([c]))[..|a|] == a && (b + CodePoints([c]))[..|b|] == b;
  }

  /** The order of rendered texts is the order of their fields. */
  lemma {:induction false} RenderLex(v: seq<nat>, u: seq<nat>, widths: seq<nat>, separators: string)
    requires Fits(v, widths) && Fits(u, widths) && |widths| == |separators|
    ensures LexLeq(CodePoints(Render(v, widths, separators)), CodePoints(Render(u, widths, separators))) <==> LexLeq(v, u)
    decreases |widths|
  {
    hide Pad, Ten;
    if widths != [] {
      var w, c := widths[0], separators[0];
      var rest := Render(v[1..], widths[1..], separators[1..]);
      var more := Render(u[1..], widths[1..], separators[1..]);
      RenderLex(v[1..], u[1..], widths[1..], separators[1..]);
      LexPads(v[0], u[0], w);
      CodesField(Pad(v[0], w), c, rest);
      CodesField(Pad(u[0], w), c, more);
      LexField(CodePoints(Pad(v[0], w)), CodePoints(Pad(u[0], w)), c, CodePoints(rest), CodePoints(more));
    }
  }

  lemma CodesField(s: string, c: char, t: string)
    ensures CodePoints(s + [c] + t) == CodePoints(s) + CodePoints([c]) + CodePoints(t)
  {
    hide CodePoints;
    CodesConcat(s + [c], t);
    CodesConcat(s, [c]);
  }

  // ------------------------------------------------------------------ chronological order

  lemma Quarters(y: int)
    ensures y / 4 == (y - 1) / 4 + if y % 4 == 0 then 1 else 0
  {}

  lemma Centuries(y: int)
    ensures y / 100 == (y - 1) / 100 + if y % 100 == 0 then 1 else 0
    ensures y % 100 == 0 ==> y % 4 == 0
  {}

  lemma Cycles(y: int)
    ensures y / 400 == (y - 1) / 400 + if y % 400 == 0 then 1 else 0
    ensures y % 400 == 0 ==> y % 100 == 0
  {}

  lemma YearLengths(y: int)
    ensures DaysBeforeYear(y + 1) == DaysBeforeYear(y) + if LeapYear(y) then 366 else 365
  {
    Quarters(y);
    Centuries(y);
    Cycles(y);
  }

  lemma {:induction false} YearsAscend(y: int, z: int)
    requires y <= z
    ensures DaysBeforeYear(y) <= DaysBeforeYear(z)
    decreases z - y
  {
    if y < z {
      YearLengths(z - 1);
      YearsAscend(y, z - 1);
    }
  }

  lemma {:induction false} MonthsAscend(y: int, m: int, n: int)
    requires 1 <= m < n <= 12
    ensures DaysBeforeMonth(y, m) + DaysInMonth(y, m) <= DaysBeforeMonth(y, n)
    decreases n
  {
    if m < n - 1 {
      MonthsAscend(y, m, n - 1);
    }
  }

  lemma WholeYear(y: int)
    ensures DaysBeforeMonth(y, 12) + 31 == if LeapYear(y) then 366 else 365
  {
    hide LeapYear;
    var march := DaysBeforeMonth(y, 3);
    assert DaysBeforeMonth(y, 2) == 31;
    assert march == 59 + if LeapYear(y) then 1 else 0;
    assert DaysBeforeMonth(y, 4) == march + 31;
    assert DaysBeforeMonth(y, 6) == DaysBeforeMonth(y, 5) + 31 == march + 92;
    assert DaysBeforeMonth(y, 8) == DaysBeforeMonth(y, 7) + 31 == march + 153;
    assert DaysBeforeMonth(y, 10) == DaysBeforeMonth(y, 9) + 30 == march + 214;
    assert DaysBeforeMonth(y, 12) == DaysBeforeMonth(y, 11) + 30 == march + 275;
  }

  lemma DayInYear(y: int, m: int, d: int)
    requires IsDate(y, m, d)
    ensures DaysBeforeYear(y) <= DayOf(y, m, d) < DaysBeforeYear(y + 1)
  {
    hide DaysBeforeYear, LeapYear;
    YearLengths(y);
    WholeYear(y);
    if m < 12 {
      MonthsAscend(y, m, 12);
    }
    MonthStart(y, m);
  }

  lemma {:induction false} MonthStart(y: int, m: int)
    requires 1 <= m <= 12
    ensures DaysBeforeMonth(y, m) >= 0
    decreases m
  {
    if m > 1 {
      MonthStart(y, m - 1);
    }
  }

  predicate DateLess(y: int, m: int, d: int, y': int, m': int, d': int) {
    y < y' || (y == y' && (m < m' || (m == m' && d < d')))
  }

  lemma EarlierDate(y: int, m: int, d: int, y': int, m': int, d': int)
    requires IsDate(y, m, d) && IsDate(y', m', d') && DateLess(y, m, d, y', m', d')
    ensures DayOf(y, m, d) < DayOf(y', m', d')
  {
    hide DaysBeforeYear, DaysBeforeMonth, DaysInMonth;
    if y < y' {
      DayInYear(y, m, d);
      DayInYear(y', m', d');
      YearsAscend(y + 1, y');
    } else if m < m' {
      MonthsAscend(y, m, m');
    }
  }

  predicate ClockLess(v: Fields, u: Fields) {
    v[3] < u[3] || (v[3] == u[3] && (v[4] < u[4] || (v[4] == u[4] && (v[5] < u[5] || (v[5] == u[5] && v[6] < u[6])))))
  }

  lemma ClockOrder(v: Fields, u: Fields)
    requires IsInstant(v) && IsInstant(u)
    ensures 0 <= ClockOf(v[3], v[4], v[5], v[6]) < DAY && 0 <= ClockOf(u[3], u[4], u[5], u[6]) < DAY
    ensures ClockLess(v, u) <==> ClockOf(v[3], v[4], v[5], v[6]) < ClockOf(u[3], u[4], u[5], u[6])
  {}

  lemma LexStep(v: seq<int>, u: seq<int>, i: nat)
    requires |v| == |u| && i < |v|
    ensures LexLess(v[i..], u[i..]) <==> v[i] < u[i] || (v[i] == u[i] && LexLess(v[i + 1..], u[i + 1..]))
  {
    assert v[i..][1..] == v[i + 1..] && u[i..][1..] == u[i + 1..];
    assert v[i..] == [v[i]] + v[i + 1..] && u[i..] == [u[i]] + u[i + 1..];
  }

  lemma LexFields(v: Fields, u: Fields)
    ensures LexLess(v, u) <==> DateLess(v[0], v[1], v[2], u[0], u[1], u[2])
                               || (v[0] == u[0] && v[1] == u[1] && v[2] == u[2] && ClockLess(v, u))
  {
    var a: seq<int>, b: seq<int> := v, u;
    assert a[0..] == a && b[0..] == b && a[7..] == [] && b[7..] == [];
    hide LexLess;
    LexStep(a, b, 0);
    LexStep(a, b, 1);
    LexStep(a, b, 2);
    LexStep(a, b, 3);
    LexStep(a, b, 4);
    LexStep(a, b, 5);
    LexStep(a, b, 6);
    NothingLess();
  }

  lemma NothingLess()
    ensures !LexLess([], [])
  {}

  /** Fields in order are instants in order. */
  lemma FieldsOrder(v: Fields, u: Fields)
    requires IsInstant(v) && IsInstant(u)
    ensures LexLess(v, u) <==> InstantOf(v) < InstantOf(u)
  {
    hide LexLess, DayOf, ClockOf;
    LexFields(v, u);
    LexFields(u, v);
    ClockOrder(v, u);
    if DateLess(v[0], v[1], v[2], u[0], u[1], u[2]) {
      EarlierDate(v[0], v[1], v[2], u[0], u[1], u[2]);
    } else if DateLess(u[0], u[1], u[2], v[0], v[1], v[2]) {
      EarlierDate(u[0], u[1], u[2], v[0], v[1], v[2]);
    }
  }

  lemma AcceptedText(s: string)
    requires Accepted(s)
    ensures var v := FieldsOf(s).value; Fits(v, WIDTHS) && s == Render(v, WIDTHS, SEPARATORS)
  {
    hide Render;
    RenderRead(s, WIDTHS, SEPARATORS);
  }

  /** Accepted texts sort as strings in the order of time, and one instant has one text. */
  lemma StringOrderIsTimeOrder(s: string, t: string)
    requires Accepted(s) && Accepted(t)
    ensures LexLess(CodePoints(s), CodePoints(t)) <==> Instant(s) < Instant(t)
    ensures Instant(s) == Instant(t) <==> s == t
  {
    hide Read, Render, InstantOf, LexLeq, Fits, IsInstant;
    var v, u := FieldsOf(s).value, FieldsOf(t).value;
    AcceptedText(s);
    AcceptedText(t);
    RenderLex(v, u, WIDTHS, SEPARATORS);
    RenderLex(u, v, WIDTHS, SEPARATORS);
    FieldsOrder(v, u);
    FieldsOrder(u, v);
    LexTotal(v, u);
    LexTotal(CodePoints(s), CodePoints(t));
    if CodePoints(s) == CodePoints(t) {
      CodesInjective(s, t);
    }
  }

  // ------------------------------------------------------------------ every instant has its text

  function DateFrom(days: nat, y: int, m: int): (int, int, int)
    requires 1 <= m <= 12
    decreases days
  {
    if days < DaysInMonth(y, m) then (y, m, days + 1)
    else if m < 12 then DateFrom(days - DaysInMonth(y, m), y, m + 1)
    else DateFrom(days - DaysInMonth(y, m), y + 1, 1)
  }

  lemma {:induction false} DateFromDay(days: nat, y: int, m: int)
    requires 1 <= m <= 12
    ensures var (y', m', d) := DateFrom(days, y, m);
            && y <= y' && 1 <= m' <= 12 && 1 <= d <= DaysInMonth(y', m')
            && DayOf(y', m', d) == DayOf(y, m, 1) + days
    decreases days
  {
    hide DaysBeforeYear, LeapYear;
    if days >= DaysInMonth(y, m) {
      if m < 12 {
        DateFromDay(days - DaysInMonth(y, m), y, m + 1);
      } else {
        YearLengths(y);
        WholeYear(y);
        DateFromDay(days - 31, y + 1, 1);
      }
    }
  }

  lemma DateOfDay(n: nat) returns (y: nat, m: nat, d: nat)
    requires n < DaysBeforeYear(10_000)
    ensures IsDate(y, m, d) && DayOf(y, m, d) == n
  {
    hide DaysBeforeYear, LeapYear, DaysInMonth;
    DateFromDay(n, 1, 1);
    var (y', m', d') := DateFrom(n, 1, 1);
    FirstDay();
    MonthStart(y', m');
    if y' >= 10_000 {
      YearsAscend(10_000, y');
    }
    y, m, d := y', m', d';
  }

  lemma FirstDay()
    ensures DayOf(1, 1, 1) == 0
  {}

  lemma InstantFits(v: Fields)
    requires IsInstant(v)
    ensures Fits(v, WIDTHS)
  {
    hide LeapYear;
    assert Ten(2) == 10 * Ten(1) == 100;
    assert Ten(3) == 1000 && Ten(4) == 10 * Ten(3);
  }

  /** The text of valid fields is accepted and denotes them. */
  lemma RenderedAccepted(v: Fields)
    requires IsInstant(v)
    ensures Accepted(Render(v, WIDTHS, SEPARATORS)) && Instant(Render(v, WIDTHS, SEPARATORS)) == InstantOf(v)
  {
    hide Render, Read, Fits, IsInstant, InstantOf;
    InstantFits(v);
    ReadRender(v, WIDTHS, SEPARATORS);
  }

  lemma ClockOfMillis(r: nat) returns (h: nat, mi: nat, s: nat, ms: nat)
    requires r < DAY
    ensures h < 24 && mi < 60 && s < 60 && ms < 1000 && ClockOf(h, mi, s, ms) == r
  {
    ms := r % 1000;
    s := r / 1000 % 60;
    mi := r / 60_000 % 60;
    h := r / 3_600_000;
    assert r / 60_000 == r / 1000 / 60 && r / 3_600_000 == r / 60_000 / 60;
  }

  /** Every millisecond of the years 1 to 9999 has an accepted text (and, by the order, only one). */
  lemma EveryInstantHasText(n: nat)
    requires n < DaysBeforeYear(10_000) * DAY
    ensures exists s :: Accepted(s) && Instant(s) == n
  {
    hide Render, DayOf, ClockOf, IsDate, Accepted, Instant, DaysBeforeYear;
    assert n == n / DAY * DAY + n % DAY && n / DAY < DaysBeforeYear(10_000);
    var y, m, d := DateOfDay(n / DAY);
    var h, mi, s, ms := ClockOfMillis(n % DAY);
    var v: Fields := [y, m, d, h, mi, s, ms];
    RenderedAccepted(v);
  }

  // ------------------------------------------------------------------ format_timestamp

  lemma YearText(y: nat)
    requires 1 <= y <= 9999
    ensures 1 <= |NatText(y)| <= 4 && (|NatText(y)| == 4 <==> y >= 1000)
  {
    NatOfText(y);
    NatBounds(NatText(y));
    assert Ten(2) == 10 * Ten(1) == 100;
    assert Ten(3) == 1000 && Ten(4) == 10 * Ten(3);
    if |NatText(y)| > 4 {
      TenGrows(4, |NatText(y)| - 1);
    } else if |NatText(y)| < 4 {
      TenGrows(|NatText(y)|, 3);
    }
  }

  function FieldsOfDateTime(t: DateTime): Fields {
    [t.year, t.month, t.day, t.hour, t.minute, t.second, t.microsecond / 1000]
  }

  lemma RenderMore(x: nat, w: nat, c: char, v: seq<nat>, widths: seq<nat>, separators: string)
    requires |v| == |widths| == |separators|
    ensures Render([x] + v, [w] + widths, [c] + separators) == Pad(x, w) + [c] + Render(v, widths, separators)
  {
    assert ([x] + v)[1..] == v && ([w] + widths)[1..] == widths && ([c] + separators)[1..] == separators;
  }

  lemma RenderClock(h: nat, mi: nat, s: nat, ms: nat)
    ensures Render([h, mi, s, ms], [2, 2, 2, 3], "::.Z")
            == Pad(h, 2) + ":" + (Pad(mi, 2) + ":" + (Pad(s, 2) + "." + (Pad(ms, 3) + "Z")))
  {
    hide Pad, Render;
    RenderMore(h, 2, ':', [mi, s, ms], [2, 2, 3], ":.Z");
    assert [h] + [mi, s, ms] == [h, mi, s, ms] && [2] + [2, 2, 3] == [2, 2, 2, 3] && ":" + ":.Z" == "::.Z";
    RenderMore(mi, 2, ':', [s, ms], [2, 3], ".Z");
    assert [mi] + [s, ms] == [mi, s, ms] && [2] + [2, 3] == [2, 2, 3] && ":" + ".Z" == ":.Z";
    RenderMore(s, 2, '.', [ms], [3], "Z");
    assert [s] + [ms] == [s, ms] && [2] + [3] == [2, 3] && "." + "Z" == ".Z";
    RenderMore(ms, 3, 'Z', [], [], "");
    RenderNone();
    assert [ms] + [] == [ms] && [3] + [] == [3] && "Z" + "" == "Z" && Pad(ms, 3) + "Z" + "" == Pad(ms, 3) + "Z";
  }

  lemma RenderNone()
    ensures Render([], [], "") == ""
  {}

  lemma RenderDate(y: nat, m: nat, d: nat, v: seq<nat>, widths: seq<nat>, separators: string)
    requires |v| == |widths| == |separators|
    ensures Render([y] + ([m] + ([d] + v)), [4] + ([2] + ([2] + widths)), "-" + ("-" + ("T" + separators)))
            == Pad(y, 4) + "-" + (Pad(m, 2) + "-" + (Pad(d, 2) + "T" + Render(v, widths, separators)))
  {
    hide Pad, Render;
    RenderMore(d, 2, 'T', v, widths, separators);
    RenderMore(m, 2, '-', [d] + v, [2] + widths, "T" + separators);
    RenderMore(y, 4, '-', [m] + ([d] + v), [2] + ([2] + widths), "-" + ("T" + separators));
  }

  lemma FormatRenders(t: DateTime)
    requires IsDateTime(t) && t.year >= 1000
    ensures FormatTimestamp(t) == Render(FieldsOfDateTime(t), WIDTHS, SEPARATORS)
  {
    hide Render, Pad, NatText;
    var ms := t.microsecond / 1000;
    var clock := [t.hour, t.minute, t.second, ms];
    FourDigits(t.year);
    RenderClock(t.hour, t.minute, t.second, ms);
    RenderDate(t.year, t.month, t.day, clock, [2, 2, 2, 3], "::.Z");
    assert [t.year] + ([t.month] + ([t.day] + clock)) == FieldsOfDateTime(t);
    assert [4] + ([2] + ([2] + [2, 2, 2, 3])) == WIDTHS;
    assert "-" + ("-" + ("T" + "::.Z")) == SEPARATORS;
  }

  lemma FourDigits(y: nat)
    requires 1000 <= y <= 9999
    ensures Pad(y, 4) == NatText(y)
  {
    YearText(y);
  }

  /**
   What format_timestamp writes is accepted exactly from the year 1000 on, where %Y has four
   digits, and then denotes the datetime cut to the millisecond.
   */
  lemma FormatAccepted(t: DateTime)
    requires IsDateTime(t)
    ensures Accepted(FormatTimestamp(t)) <==> t.year >= 1000
    ensures Accepted(FormatTimestamp(t)) ==> Instant(FormatTimestamp(t)) == MicrosOf(t) / 1000
  {
    hide Render, Read, Fits, Pad, NatText, IsDate;
    if t.year >= 1000 {
      FormatRenders(t);
      RenderedAccepted(FieldsOfDateTime(t));
    } else {
      ShortYearRefused(t);
    }
  }

  lemma ShortYearRefused(t: DateTime)
    requires IsDateTime(t) && t.year < 1000
    ensures FieldsOf(FormatTimestamp(t)).None?
  {
    YearText(t.year);
    hide NatText, Pad, NatOf;
    var s := FormatTimestamp(t);
    var k := |NatText(t.year)|;
    assert s[k] == '-';
    assert |s| > 4 ==> s[..4][k] == '-';
  }

  // ------------------------------------------------------------------ the accepted texts

  /** A date and a time of day as YYYY-MM-DDTHH:MM:SS.mmmZ. */
  function WireText(y: nat, m: nat, d: nat, h: nat, mi: nat, s: nat, ms: nat): string {
    Pad(y, 4) + "-" + (Pad(m, 2) + "-" + (Pad(d, 2) + "T" + (
      Pad(h, 2) + ":" + (Pad(mi, 2) + ":" + (Pad(s, 2) + "." + (Pad(ms, 3) + "Z"))))))
  }

  lemma WireRenders(v: Fields)
    ensures Render(v, WIDTHS, SEPARATORS) == WireText(v[0], v[1], v[2], v[3], v[4], v[5], v[6])
  {
    hide Render, Pad;
    RenderClock(v[3], v[4], v[5], v[6]);
    RenderDate(v[0], v[1], v[2], v[3..], [2, 2, 2, 3], "::.Z");
    assert v[3..] == [v[3], v[4], v[5], v[6]];
    assert [v[0]] + ([v[1]] + ([v[2]] + v[3..])) == v;
    assert [4] + ([2] + ([2] + [2, 2, 2, 3])) == WIDTHS;
    assert "-" + ("-" + ("T" + "::.Z")) == SEPARATORS;
  }

  predicate Denotes(s: string, v: Fields) {
    && 1 <= v[0] <= 9999 && 1 <= v[1] <= 12 && 1 <= v[2] <= DaysInMonth(v[0], v[1])
    && v[3] <= 23 && v[4] <= 59 && v[5] <= 59 && v[6] <= 999
    && s == WireText(v[0], v[1], v[2], v[3], v[4], v[5], v[6])
  }

  /** Exactly the texts of that form which name a day of the calendar and a time of day are accepted. */
  lemma AcceptedExactly(s: string)
    ensures Accepted(s) <==> exists v: Fields :: Denotes(s, v)
  {
    hide Render, Read, WireText, Fits;
    if Accepted(s) {
      AcceptedText(s);
      WireRenders(FieldsOf(s).value);
      assert Denotes(s, FieldsOf(s).value);
    }
    forall v: Fields | Denotes(s, v)
      ensures Accepted(s)
    {
      WireRenders(v);
      RenderedAccepted(v);
    }
  }
}
