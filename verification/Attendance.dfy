/**
 Attendance classification (app/api/consolidated_attendance.py) with the window arithmetic of
 app/services/shift_service.py: one day of one employee seen by the by-date page and by the monthly
 report, and the monthly totals. Instants are microseconds; punches are stored in UTC, and Bangkok
 time is seven hours ahead.
*/
module Attendance {
  import opened Wrappers

  const MINUTE: int := 60_000_000
  const HOUR: int := 60 * MINUTE
  const DAY: int := 24 * HOUR

  // Times of day in seconds. Only hour and minute enter the arithmetic, but all of both the comparison.
  datatype Shift = Shift(start: nat, end: nat)

  datatype Punch = Punch(ts: int, kind: int)

  datatype Effective = Effective(shift: Option<Shift>, isOff: bool, role: string)

  function ToBangkok(utc: int): int {
    utc + 7 * HOUR
  }

  predicate ValidShift(s: Shift) {
    s.start < 86_400 && s.end < 86_400
  }

  function MinuteOf(time: nat): nat {
    time / 60
  }

  predicate CrossesMidnight(s: Shift) {
    s.end <= s.start
  }

  datatype Window = Window(startUtc: int, endUtc: int, shiftStart: int)

  function ShiftWindow(s: Shift, day: int): Window {
    var shiftStart := day * DAY + MinuteOf(s.start) * MINUTE;
    var shiftEnd := day * DAY + (if CrossesMidnight(s) then DAY else 0) + MinuteOf(s.end) * MINUTE;
    Window(shiftStart - 2 * HOUR - 7 * HOUR, shiftEnd + 2 * HOUR - 7 * HOUR, shiftStart)
  }

  // The monthly report computes the end again, from hours and minutes alone.
  function Length(s: Shift): int {
    var minutes := MinuteOf(s.end) - MinuteOf(s.start);
    (if minutes <= 0 then minutes + 24 * 60 else minutes) * MINUTE
  }

  function ShiftEnd(s: Shift, shiftStart: int): int {
    shiftStart + Length(s)
  }

  /** The two computations of the end agree unless the shift starts and ends within one minute. */
  lemma EndsAgree(s: Shift, day: int)
    requires ValidShift(s)
    ensures ToBangkok(ShiftWindow(s, day).endUtc) == ShiftEnd(s, ShiftWindow(s, day).shiftStart) + 2 * HOUR <==>
            !(s.start < s.end && MinuteOf(s.start) == MinuteOf(s.end))
  {
  }

  // ---------- Punches ----------

  predicate InWindow(w: Window, p: Punch) {
    w.startUtc <= p.ts < w.endUtc
  }

  function Within(w: Window, punches: seq<Punch>): seq<Punch> {
    if punches == [] then []
    else
      var rest, p := Within(w, punches[..|punches| - 1]), punches[|punches| - 1];
      if InWindow(w, p) then rest + [p] else rest
  }

  predicate IsIn(mid: int, p: Punch) {
    var bkk := ToBangkok(p.ts);
    var nearMid := -HOUR <= bkk - mid <= HOUR;
    if nearMid && p.kind == 0 then true
    else if nearMid && p.kind == 1 then false
    else bkk <= mid
  }

  // The Bangkok times of the punches on one side.
  function Side(mid: int, punches: seq<Punch>, ins: bool): seq<int> {
    if punches == [] then []
    else
      var rest, p := Side(mid, punches[..|punches| - 1], ins), punches[|punches| - 1];
      if IsIn(mid, p) == ins then rest + [ToBangkok(p.ts)] else rest
  }

  function Least(times: seq<int>): Option<int> {
    if times == [] then None
    else
      var rest, t := Least(times[..|times| - 1]), times[|times| - 1];
      if rest.None? || t < rest.value then Some(t) else rest
  }

  function Greatest(times: seq<int>): Option<int> {
    if times == [] then None
    else
      var rest, t := Greatest(times[..|times| - 1]), times[|times| - 1];
      if rest.None? || t > rest.value then Some(t) else rest
  }

  // ---------- The by-date row ----------

  datatype ByDateStatus = Off | Absent | Late | OnTime

  datatype ByDateRow = ByDateRow(status: ByDateStatus, firstIn: Option<int>, lastOut: Option<int>, worked: Option<int>)

  // Exact microseconds; the code rounds to hundredths of hours.
  function Worked(firstIn: Option<int>, lastOut: Option<int>): Option<int> {
    if firstIn.None? || lastOut.None? || lastOut.value <= firstIn.value then None
    else Some(lastOut.value - firstIn.value)
  }

  function StatusShiftAware(firstIn: Option<int>, shiftStart: int, isOff: bool): ByDateStatus {
    if isOff then ByDateStatus.Off
    else if firstIn.None? then ByDateStatus.Absent
    else if firstIn.value > shiftStart then Late
    else OnTime
  }

  function Times(punches: seq<Punch>): seq<int> {
    seq(|punches|, i requires 0 <= i < |punches| => ToBangkok(punches[i].ts))
  }

  // The callers drop untracked employees before this.
  predicate Tracked(eff: Effective) {
    eff.shift.Some? || eff.isOff
  }

  function BuildShiftRow(day: int, eff: Effective, table: seq<Punch>, holiday: bool, leave: bool): ByDateRow
    requires Tracked(eff)
  {
    if (holiday && eff.role != "reception") || leave || eff.isOff then ByDateRow(ByDateStatus.Off, None, None, None)
    else
      var w := ShiftWindow(eff.shift.value, day);
      var times := Times(Within(w, table));
      var first, last := Least(times), Greatest(times);
      ByDateRow(StatusShiftAware(first, w.shiftStart, eff.isOff), first, last, Worked(first, last))
  }

  // ---------- The monthly day ----------

  datatype MonthStatus = Off | Leave | Absent | Present | Untracked | Future | Pending

  datatype Label = NoLabel | PublicHoliday | Personal

  datatype DayRow = DayRow(status: MonthStatus, hasShift: bool, firstIn: Option<int>, lastOut: Option<int>,
                           worked: Option<int>, lateMinutes: nat, lateTier: nat, inAssumed: bool, outAssumed: bool,
                           note: Label)

  const BLANK: DayRow := DayRow(MonthStatus.Off, false, None, None, None, 0, 0, false, false, NoLabel)

  function LateMinutes(firstIn: int, shiftStart: int): nat {
    if firstIn <= shiftStart then 0 else (firstIn - shiftStart) / MINUTE
  }

  function LateTier(minutes: nat): nat {
    if minutes < 5 then 0 else if minutes < 15 then 1 else if minutes < 30 then 2 else 3
  }

  function Midpoint(s: Shift, shiftStart: int): int {
    shiftStart + Length(s) / 2
  }

  // A day with punches in the window, from the earliest in and the latest out.
  function PresentRow(s: Shift, shiftStart: int, now: int, firstIn: Option<int>, lastOut: Option<int>): DayRow {
    var checkIn := firstIn.GetOr(shiftStart);
    var late := if firstIn.Some? then LateMinutes(checkIn, shiftStart) else 0;
    var end := ShiftEnd(s, shiftStart);
    var checkOut := if lastOut.Some? then lastOut else if now >= end then Some(end) else None;
    DayRow(Present, true, Some(checkIn), checkOut, Worked(Some(checkIn), checkOut), late, LateTier(late),
           firstIn.None?, lastOut.None? && now >= end, NoLabel)
  }

  function MonthDay(day: int, eff: Effective, punches: seq<Punch>, today: int, now: int, holiday: bool,
                    leave: bool): DayRow {
    if day > today then BLANK.(status := Future)
    else if holiday && eff.role != "reception" then BLANK.(note := PublicHoliday)
    else if leave then BLANK.(status := MonthStatus.Leave, note := Personal)
    else if eff.isOff then BLANK
    else if eff.shift.None? then BLANK.(status := Untracked)
    else
      var s, w := eff.shift.value, ShiftWindow(eff.shift.value, day);
      var inWindow := Within(w, punches);
      if inWindow == [] then
        BLANK.(hasShift := true, status := if day == today && now < w.shiftStart then Pending else MonthStatus.Absent)
      else
        var mid := Midpoint(s, w.shiftStart);
        PresentRow(s, w.shiftStart, now, Least(Side(mid, inWindow, true)), Greatest(Side(mid, inWindow, false)))
  }

  method BuildMonthDay(day: int, eff: Effective, punches: seq<Punch>, today: int, now: int, holiday: bool, leave: bool)
    returns (row: DayRow)
    ensures row == MonthDay(day, eff, punches, today, now, holiday, leave)
  {
    row := BLANK;
    if day > today {
      return row.(status := Future);
    }
    if holiday && eff.role != "reception" {
      return row.(note := PublicHoliday);
    }
    if leave {
      return row.(status := MonthStatus.Leave, note := Personal);
    }
    if eff.isOff {
      return row;
    }
    if eff.shift.None? {
      return row.(status := Untracked);
    }
    var shift := eff.shift.value;
    var window := ShiftWindow(shift, day);
    hide ShiftWindow, Within, PresentRow;
    var inWindow := Within(window, punches);
    if inWindow == [] {
      return row.(hasShift := true,
                  status := if day == today && now < window.shiftStart then Pending else MonthStatus.Absent);
    }
    row := PresentDay(shift, window.shiftStart, inWindow, now);
  }

  // The check-in is the earliest in, else assumed; the check-out the latest out, else assumed once the shift is over.
  method PresentDay(shift: Shift, shiftStart: int, inWindow: seq<Punch>, now: int) returns (row: DayRow)
    ensures var mid := Midpoint(shift, shiftStart);
            row == PresentRow(shift, shiftStart, now, Least(Side(mid, inWindow, true)),
              Greatest(Side(mid, inWindow, false)))
  {
    hide LateTier, Side, Least, Greatest, LateMinutes, Midpoint;
    var shiftEnd := ShiftEnd(shift, shiftStart);
    var ins, outs := SplitPunches(Midpoint(shift, shiftStart), inWindow);
    LeastMeaning(ins);
    GreatestMeaning(outs);
    var checkIn := Least(ins).GetOr(shiftStart);
    var late := if ins != [] then LateMinutes(checkIn, shiftStart) else 0;
    var checkOut, outAssumed := None, false;
    if outs != [] {
      checkOut := Greatest(outs);
    } else if now >= shiftEnd {
      checkOut, outAssumed := Some(shiftEnd), true;
    }
    var worked := if checkOut.Some? && checkOut.value > checkIn then Some(checkOut.value - checkIn) else None;
    return DayRow(Present, true, Some(checkIn), checkOut, worked, late, LateTier(late), ins == [], outAssumed, NoLabel);
  }

  // Position within the shift decides; near its middle an explicit punch type does.
  method SplitPunches(mid: int, inWindow: seq<Punch>) returns (ins: seq<int>, outs: seq<int>)
    ensures ins == Side(mid, inWindow, true) && outs == Side(mid, inWindow, false)
  {
    ins, outs := [], [];
    for i := 0 to |inWindow|
      invariant ins == Side(mid, inWindow[..i], true) && outs == Side(mid, inWindow[..i], false)
    {
      assert inWindow[..i + 1][..i] == inWindow[..i];
      var bkk := ToBangkok(inWindow[i].ts);
      var nearMid := -HOUR <= bkk - mid <= HOUR;
      if nearMid && inWindow[i].kind == 0 {
        ins := ins + [bkk];
      } else if nearMid && inWindow[i].kind == 1 {
        outs := outs + [bkk];
      } else if bkk <= mid {
        ins := ins + [bkk];
      } else {
        outs := outs + [bkk];
      }
    }
    assert inWindow[..|inWindow|] == inWindow;
  }

  // ---------- Earliest and latest ----------

  lemma {:induction false} LeastMeaning(times: seq<int>)
    ensures Least(times).None? <==> times == []
    ensures Least(times).Some? ==> Least(times).value in times && forall t | t in times :: Least(times).value <= t
  {
    if times != [] {
      LeastMeaning(times[..|times| - 1]);
      assert times == times[..|times| - 1] + [times[|times| - 1]];
    }
  }

  lemma {:induction false} GreatestMeaning(times: seq<int>)
    ensures Greatest(times).None? <==> times == []
    ensures Greatest(times).Some? ==>
            Greatest(times).value in times && forall t | t in times :: t <= Greatest(times).value
  {
    if times != [] {
      GreatestMeaning(times[..|times| - 1]);
      assert times == times[..|times| - 1] + [times[|times| - 1]];
    }
  }

  lemma {:induction false} WithinMembers(w: Window, punches: seq<Punch>)
    ensures forall p :: p in Within(w, punches) <==> p in punches && InWindow(w, p)
  {
    if punches != [] {
      WithinMembers(w, punches[..|punches| - 1]);
      assert punches == punches[..|punches| - 1] + [punches[|punches| - 1]];
    }
  }

  lemma {:induction false} SideMembers(mid: int, punches: seq<Punch>, ins: bool)
    ensures forall t :: t in Side(mid, punches, ins) <==>
            exists p :: p in punches && IsIn(mid, p) == ins && ToBangkok(p.ts) == t
  {
    if punches != [] {
      SideMembers(mid, punches[..|punches| - 1], ins);
      assert punches == punches[..|punches| - 1] + [punches[|punches| - 1]];
      hide IsIn, ToBangkok;
    }
  }

  // ---------- Each punch on one side, and their order does not matter ----------

  /** Every punch in the window lands in exactly one of the two lists. */
  lemma {:induction false} PunchesPartition(mid: int, punches: seq<Punch>)
    ensures multiset(Side(mid, punches, true)) + multiset(Side(mid, punches, false)) == multiset(Times(punches))
  {
    if punches != [] {
      var n := |punches| - 1;
      PunchesPartition(mid, punches[..n]);
      assert Times(punches) == Times(punches[..n]) + [ToBangkok(punches[n].ts)];
      hide IsIn;
    }
  }

  ghost predicate SameMembers<T(!new)>(a: seq<T>, b: seq<T>) {
    forall x :: x in a <==> x in b
  }

  lemma SameExtremes(a: seq<int>, b: seq<int>)
    requires SameMembers(a, b)
    ensures Least(a) == Least(b) && Greatest(a) == Greatest(b)
  {
    LeastMeaning(a);
    LeastMeaning(b);
    GreatestMeaning(a);
    GreatestMeaning(b);
    assert a == [] <==> b == [] by {
      if a != [] {
        assert a[0] in b;
      }
      if b != [] {
        assert b[0] in a;
      }
    }
  }

  lemma SameSides(mid: int, a: seq<Punch>, b: seq<Punch>, ins: bool)
    requires SameMembers(a, b)
    ensures SameMembers(Side(mid, a, ins), Side(mid, b, ins)) && SameMembers(Times(a), Times(b))
  {
    hide Side, Times;
    forall t ensures t in Side(mid, a, ins) <==> t in Side(mid, b, ins) {
      SidesInclude(mid, a, b, ins, t);
      SidesInclude(mid, b, a, ins, t);
    }
    forall t ensures t in Times(a) <==> t in Times(b) {
      SidesInclude(mid, a, b, ins, t);
      SidesInclude(mid, b, a, ins, t);
    }
  }

  lemma SidesInclude(mid: int, a: seq<Punch>, b: seq<Punch>, ins: bool, t: int)
    requires SameMembers(a, b)
    ensures t in Side(mid, a, ins) ==> t in Side(mid, b, ins)
    ensures t in Times(a) ==> t in Times(b)
  {
    SideMembers(mid, a, ins);
    SideMembers(mid, b, ins);
    TimesMembers(a);
    TimesMembers(b);
    hide Side, Times, IsIn, ToBangkok;
    if t in Side(mid, a, ins) {
      var p :| p in a && IsIn(mid, p) == ins && ToBangkok(p.ts) == t;
      assert p in b;
    }
    if t in Times(a) {
      var p :| p in a && ToBangkok(p.ts) == t;
      assert p in b;
    }
  }

  lemma TimesMembers(punches: seq<Punch>)
    ensures forall t :: t in Times(punches) <==> exists p :: p in punches && ToBangkok(p.ts) == t
  {
    hide ToBangkok;
    forall p | p in punches ensures ToBangkok(p.ts) in Times(punches) {
      var i :| 0 <= i < |punches| && punches[i] == p;
      assert Times(punches)[i] == ToBangkok(p.ts);
    }
    forall t | t in Times(punches) ensures exists p :: p in punches && ToBangkok(p.ts) == t {
      var i :| 0 <= i < |punches| && Times(punches)[i] == t;
      assert punches[i] in punches && ToBangkok(punches[i].ts) == t;
    }
  }

  /** Neither the order of the punches nor their duplicates show, in either view. */
  lemma OrderFree(day: int, eff: Effective, a: seq<Punch>, b: seq<Punch>, today: int, now: int, holiday: bool,
                  leave: bool)
    requires SameMembers(a, b)
    ensures MonthDay(day, eff, a, today, now, holiday, leave) == MonthDay(day, eff, b, today, now, holiday, leave)
    ensures Tracked(eff) ==> BuildShiftRow(day, eff, a, holiday, leave) == BuildShiftRow(day, eff, b, holiday, leave)
  {
    if eff.shift.Some? {
      var w := ShiftWindow(eff.shift.value, day);
      var mid := Midpoint(eff.shift.value, w.shiftStart);
      WithinMembers(w, a);
      WithinMembers(w, b);
      var wa, wb := Within(w, a), Within(w, b);
      hide ShiftWindow, Within, Midpoint, Side, PresentRow, StatusShiftAware, Worked, Least, Greatest, Times;
      SameEmpty(wa, wb);
      SameSides(mid, wa, wb, true);
      SameSides(mid, wa, wb, false);
      SameExtremes(Side(mid, wa, true), Side(mid, wb, true));
      SameExtremes(Side(mid, wa, false), Side(mid, wb, false));
      SameExtremes(Times(wa), Times(wb));
    }
  }

  lemma SameEmpty<T(!new)>(a: seq<T>, b: seq<T>)
    requires SameMembers(a, b)
    ensures a == [] <==> b == []
  {
    assert a == [] || a[0] in b;
    assert b == [] || b[0] in a;
  }

  // ---------- The day in numbers ----------

  // The shift's start and end on the Bangkok clock, by whole minutes; an end that is no later is the next day's.
  function StartOf(s: Shift, day: int): int {
    day * 86_400_000_000 + s.start / 60 * 60_000_000
  }

  function EndOf(s: Shift, day: int): int {
    StartOf(s, day) + (s.end / 60 - s.start / 60 + if s.end / 60 > s.start / 60 then 0 else 1_440) * 60_000_000
  }

  function Clock(p: Punch): int {
    p.ts + 25_200_000_000
  }

  // From two hours before the shift up to two hours after it the punch counts for the day.
  predicate Counts(s: Shift, day: int, p: Punch) {
    var end := (if s.end <= s.start then day + 1 else day) * 86_400_000_000 + s.end / 60 * 60_000_000;
    StartOf(s, day) - 7_200_000_000 <= Clock(p) < end + 7_200_000_000
  }

  // Within an hour of the middle the punch's type tells, if it is one of the two; else the time does.
  predicate ChecksIn(s: Shift, day: int, p: Punch) {
    var middle := StartOf(s, day) + (EndOf(s, day) - StartOf(s, day)) / 2;
    if p.kind in {0, 1} && middle - 3_600_000_000 <= Clock(p) <= middle + 3_600_000_000 then p.kind == 0
    else Clock(p) <= middle
  }

  lemma InNumbers(s: Shift, day: int, p: Punch)
    ensures var w := ShiftWindow(s, day);
            && w.shiftStart == StartOf(s, day) && ShiftEnd(s, w.shiftStart) == EndOf(s, day)
            && (InWindow(w, p) <==> Counts(s, day, p)) && ToBangkok(p.ts) == Clock(p)
            && (IsIn(Midpoint(s, w.shiftStart), p) <==> ChecksIn(s, day, p))
  {
  }

  lemma AllInNumbers(s: Shift, day: int)
    ensures var w := ShiftWindow(s, day);
            && w.shiftStart == StartOf(s, day) && ShiftEnd(s, w.shiftStart) == EndOf(s, day)
            && (forall p :: InWindow(w, p) <==> Counts(s, day, p)) && (forall p: Punch :: ToBangkok(p.ts) == Clock(p))
            && (forall p :: IsIn(Midpoint(s, w.shiftStart), p) <==> ChecksIn(s, day, p))
  {
    InNumbers(s, day, Punch(0, 0));
    forall p
      ensures InWindow(ShiftWindow(s, day), p) <==> Counts(s, day, p)
      ensures ToBangkok(p.ts) == Clock(p)
      ensures IsIn(Midpoint(s, ShiftWindow(s, day).shiftStart), p) <==> ChecksIn(s, day, p)
    {
      InNumbers(s, day, p);
    }
  }

  /** The by-date row of a working day shows the first and the last punch that counts, late exactly when even
      the first came after the start of the shift. */
  lemma ByDateMeaning(day: int, eff: Effective, table: seq<Punch>)
    requires !eff.isOff && eff.shift.Some?
    ensures var s := eff.shift.value;
            var row := BuildShiftRow(day, eff, table, false, false);
            && (row.status == ByDateStatus.Absent <==> forall p | p in table :: !Counts(s, day, p))
            && (row.status == Late <==>
                  row.firstIn.Some? && forall p | p in table && Counts(s, day, p) :: Clock(p) > StartOf(s, day))
            && (row.firstIn.Some? <==> row.status != ByDateStatus.Absent) && (row.lastOut.Some? <==> row.firstIn.Some?)
            && (row.firstIn.Some? ==>
                  && (forall p | p in table && Counts(s, day, p) :: row.firstIn.value <= Clock(p) <= row.lastOut.value)
                  && (exists p :: p in table && Counts(s, day, p) && Clock(p) == row.firstIn.value)
                  && (exists p :: p in table && Counts(s, day, p) && Clock(p) == row.lastOut.value)
                  && row.worked == (if row.lastOut.value > row.firstIn.value
                                    then Some(row.lastOut.value - row.firstIn.value) else None))
  {
    var w := ShiftWindow(eff.shift.value, day);
    AllInNumbers(eff.shift.value, day);
    var times := Times(Within(w, table));
    WithinMembers(w, table);
    TimesMembers(Within(w, table));
    LeastMeaning(times);
    GreatestMeaning(times);
    hide ShiftWindow, Within, Times, Least, Greatest, InWindow, ToBangkok, IsIn, Counts, ChecksIn, Clock, StartOf,
         EndOf;
    if times != [] {
      assert times[0] in times;
    }
    forall p | p in table && InWindow(w, p) ensures ToBangkok(p.ts) in times {
      assert p in Within(w, table);
    }
  }

  // Minutes late are whole minutes, and the tier their grade.
  lemma LateInNumbers(firstIn: int, start: int)
    ensures var minutes := LateMinutes(firstIn, start);
            && (if firstIn > start then minutes * 60_000_000 <= firstIn - start < (minutes + 1) * 60_000_000
                else minutes == 0)
            && GradedInNumbers(minutes, LateTier(minutes))
  {
  }

  predicate GradedInNumbers(minutes: nat, tier: nat) {
    tier == if minutes < 5 then 0 else if minutes < 15 then 1 else if minutes < 30 then 2 else 3
  }

  // What a day with punches that count shows.
  ghost predicate PresentInNumbers(s: Shift, day: int, punches: seq<Punch>, now: int, row: DayRow) {
    var start, end := StartOf(s, day), EndOf(s, day);
    && row.hasShift && row.firstIn.Some?
    && (row.inAssumed <==> forall p | p in punches && Counts(s, day, p) :: !ChecksIn(s, day, p))
    && (if row.inAssumed then row.firstIn.value == start && row.lateMinutes == 0
        else && (exists p :: p in punches && Counts(s, day, p) && ChecksIn(s, day, p) && Clock(p) == row.firstIn.value)
             && (forall p | p in punches && Counts(s, day, p) && ChecksIn(s, day, p) :: row.firstIn.value <= Clock(p))
             && (if row.firstIn.value > start
                 then row.lateMinutes * 60_000_000 <= row.firstIn.value - start < (row.lateMinutes + 1) * 60_000_000
                 else row.lateMinutes == 0))
    && GradedInNumbers(row.lateMinutes, row.lateTier)
    && (if exists p :: p in punches && Counts(s, day, p) && !ChecksIn(s, day, p) then
          && !row.outAssumed && row.lastOut.Some?
          && (exists p :: p in punches && Counts(s, day, p) && !ChecksIn(s, day, p) && Clock(p) == row.lastOut.value)
          && (forall p | p in punches && Counts(s, day, p) && !ChecksIn(s, day, p) :: Clock(p) <= row.lastOut.value)
        else (row.outAssumed <==> now >= end) && row.lastOut == if now >= end then Some(end) else None)
    && row.worked == (if row.lastOut.Some? && row.lastOut.value > row.firstIn.value
                      then Some(row.lastOut.value - row.firstIn.value) else None)
  }

  /** The monthly report's day of a working employee, in numbers: absent without a punch that counts, or pending
      today before the shift; otherwise the earliest check-in, the latest check-out, the whole minutes late
      with their grade, and the hours between. */
  lemma DayInNumbers(day: int, s: Shift, role: string, punches: seq<Punch>, today: int, now: int)
    requires day <= today
    ensures var row := MonthDay(day, Effective(Some(s), false, role), punches, today, now, false, false);
            if exists p :: p in punches && Counts(s, day, p)
            then row.status == Present && PresentInNumbers(s, day, punches, now, row)
            else row == BLANK.(hasShift := true, status := if day == today && now < StartOf(s, day) then Pending
                                                           else MonthStatus.Absent)
  {
    var w := ShiftWindow(s, day);
    AllInNumbers(s, day);
    WithinMembers(w, punches);
    var inWindow := Within(w, punches);
    hide ShiftWindow, Within, InWindow, ToBangkok, IsIn, Counts, ChecksIn, Clock, StartOf, EndOf, Midpoint, ShiftEnd,
         PresentRow, PresentInNumbers, Side, Least, Greatest;
    if inWindow != [] {
      assert inWindow[0] in inWindow;
      PresentRowInNumbers(s, day, punches, inWindow, now);
    }
  }

  lemma PresentRowInNumbers(s: Shift, day: int, punches: seq<Punch>, inWindow: seq<Punch>, now: int)
    requires forall p :: p in inWindow <==> p in punches && Counts(s, day, p)
    ensures var start := ShiftWindow(s, day).shiftStart;
            var mid := Midpoint(s, start);
            var firstIn, lastOut := Least(Side(mid, inWindow, true)), Greatest(Side(mid, inWindow, false));
            var row := PresentRow(s, start, now, firstIn, lastOut);
            row.status == Present && PresentInNumbers(s, day, punches, now, row)
  {
    AllInNumbers(s, day);
    var start := ShiftWindow(s, day).shiftStart;
    var mid := Midpoint(s, start);
    var ins, outs := Side(mid, inWindow, true), Side(mid, inWindow, false);
    SideMembers(mid, inWindow, true);
    SideMembers(mid, inWindow, false);
    LeastMeaning(ins);
    GreatestMeaning(outs);
    hide ShiftWindow, InWindow, ToBangkok, IsIn, Counts, ChecksIn, Clock, StartOf, EndOf, Midpoint, ShiftEnd, Side,
         Least, Greatest, LateMinutes, LateTier, GradedInNumbers;
    LateInNumbers(Least(ins).GetOr(start), start);
    LateInNumbers(start, start);
    SideOf(s, day, punches, ins, true);
    SideOf(s, day, punches, outs, false);
    var row := PresentRow(s, start, now, Least(ins), Greatest(outs));
    assert forall p | p in punches && Counts(s, day, p) && ChecksIn(s, day, p) :: Clock(p) in ins;
    assert forall p | p in punches && Counts(s, day, p) && !ChecksIn(s, day, p) :: Clock(p) in outs;
  }

  ghost predicate OnSide(s: Shift, day: int, punches: seq<Punch>, t: int, ins: bool) {
    exists p :: p in punches && Counts(s, day, p) && ChecksIn(s, day, p) == ins && Clock(p) == t
  }

  // The times on one side are those of the punches that count and belong there.
  lemma SideOf(s: Shift, day: int, punches: seq<Punch>, times: seq<int>, ins: bool)
    requires forall t :: t in times <==> OnSide(s, day, punches, t, ins)
    ensures times == [] <==> forall p | p in punches && Counts(s, day, p) :: ChecksIn(s, day, p) != ins
  {
    hide Counts, ChecksIn, Clock;
    if times != [] {
      assert times[0] in times && OnSide(s, day, punches, times[0], ins);
    }
    if p :| p in punches && Counts(s, day, p) && ChecksIn(s, day, p) == ins {
      assert OnSide(s, day, punches, Clock(p), ins);
    }
  }

  /** When the shift does not matter: future days, public holidays except for reception, leave, days off, and
      employees without a shift. */
  lemma StatusExactly(day: int, eff: Effective, punches: seq<Punch>, today: int, now: int, holiday: bool, leave: bool)
    ensures var row := MonthDay(day, eff, punches, today, now, holiday, leave);
            var closed := holiday && eff.role != "reception";
            && (row.status == Future <==> day > today)
            && (row.status == MonthStatus.Leave <==> day <= today && !closed && leave)
            && (row.status == MonthStatus.Off <==> day <= today && (closed || (!leave && eff.isOff)))
            && (row.status == Untracked <==> day <= today && !closed && !leave && !eff.isOff && eff.shift.None?)
            && row.note == (if day <= today && closed then PublicHoliday
                            else if day <= today && leave then Personal else NoLabel)
    ensures eff.shift.Some? || eff.isOff ==>
              (BuildShiftRow(day, eff, punches, holiday, leave).status == ByDateStatus.Off <==>
               (holiday && eff.role != "reception") || leave || eff.isOff)
  {
    hide ShiftWindow, Within, Midpoint, Side, Least, Greatest, LateMinutes, LateTier, Times;
  }

  // ---------- What a present day can show ----------

  // What the two sides give.
  ghost predicate SoundDay(s: Shift, start: int, now: int, row: DayRow) {
    var half, end := Length(s) / 2, ShiftEnd(s, start);
    && row.firstIn.Some?
    && (if row.inAssumed then row.firstIn.value == start && row.lateMinutes == 0 && !row.outAssumed
        else start - 2 * HOUR <= row.firstIn.value <= start + half + HOUR)
    && (row.lastOut.Some? && !row.outAssumed ==> start + half - HOUR <= row.lastOut.value)
    && (row.outAssumed ==> row.lastOut == Some(end) && end <= now)
    && row.lateMinutes * MINUTE <= half + HOUR
    && (row.worked.Some? ==> row.worked.value > 0)
  }

  lemma PresentRowSound(s: Shift, start: int, now: int, firstIn: Option<int>, lastOut: Option<int>)
    requires ValidShift(s) && (firstIn.Some? || lastOut.Some?)
    requires firstIn.Some? ==> start - 2 * HOUR <= firstIn.value <= Midpoint(s, start) + HOUR
    requires lastOut.Some? ==> Midpoint(s, start) - HOUR <= lastOut.value
    ensures SoundDay(s, start, now, PresentRow(s, start, now, firstIn, lastOut))
  {
    assert Length(s) >= 0;
  }

  /** A real check-in is no later than an hour past the middle of the shift and a real check-out no
      earlier than an hour before it; so nobody is more than half a shift and an hour late; and hours,
      when there are any, are a positive span. Overnight shifts and assumed sides included. */
  lemma PresentBounds(day: int, eff: Effective, punches: seq<Punch>, today: int, now: int, holiday: bool, leave: bool)
    requires eff.shift.Some? ==> ValidShift(eff.shift.value)
    ensures var row := MonthDay(day, eff, punches, today, now, holiday, leave);
            && (row.status == Present ==>
                  eff.shift.Some? && SoundDay(eff.shift.value, ShiftWindow(eff.shift.value, day).shiftStart, now, row))
            && (row.worked.Some? ==> row.worked.value > 0)
            && (row.status != Present ==> row.worked.None? && row.firstIn.None? && row.lateMinutes == 0)
            && row.lateTier == LateTier(row.lateMinutes)
            && (row.status == Pending ==> day == today) && (row.status == Future <==> day > today)
  {
    if eff.shift.Some? {
      var s, w := eff.shift.value, ShiftWindow(eff.shift.value, day);
      var mid := Midpoint(s, w.shiftStart);
      var inWindow := Within(w, punches);
      WithinMembers(w, punches);
      SidesOf(w, mid, inWindow);
      hide Within, Side, Least, Greatest, LateTier, SoundDay, Midpoint;
      if inWindow != [] {
        PresentRowSound(s, w.shiftStart, now, Least(Side(mid, inWindow, true)), Greatest(Side(mid, inWindow, false)));
      }
    }
  }

  /** A working day that has come is present exactly when a punch lies in the window, and then the
      check-in is the earliest punch of the in side and the check-out the latest of the out side. */
  lemma PresentMeaning(day: int, eff: Effective, punches: seq<Punch>, today: int, now: int)
    requires day <= today && !eff.isOff && eff.shift.Some?
    ensures var s := eff.shift.value;
            var w := ShiftWindow(s, day);
            var row, mid := MonthDay(day, eff, punches, today, now, false, false), Midpoint(s, w.shiftStart);
            && (row.status == Present <==> exists p :: p in punches && InWindow(w, p))
            && (forall p | p in punches && InWindow(w, p) ::
                  if IsIn(mid, p) then !row.inAssumed && row.firstIn.value <= ToBangkok(p.ts)
                  else !row.outAssumed && row.lastOut.Some? && ToBangkok(p.ts) <= row.lastOut.value)
            && (row.status == Present && !row.inAssumed ==>
                  exists p :: p in punches && InWindow(w, p) && IsIn(mid, p) && ToBangkok(p.ts) == row.firstIn.value)
            && (row.status == Present && row.lastOut.Some? && !row.outAssumed ==>
                  exists p :: p in punches && InWindow(w, p) && !IsIn(mid, p) && ToBangkok(p.ts) == row.lastOut.value)
  {
    var w := ShiftWindow(eff.shift.value, day);
    var mid := Midpoint(eff.shift.value, w.shiftStart);
    var inWindow := Within(w, punches);
    WithinMembers(w, punches);
    SideMembers(mid, inWindow, true);
    SideMembers(mid, inWindow, false);
    LeastMeaning(Side(mid, inWindow, true));
    GreatestMeaning(Side(mid, inWindow, false));
    hide ShiftWindow, Within, Side, Least, Greatest, Midpoint, IsIn, InWindow, ToBangkok, LateTier, LateMinutes;
    if inWindow != [] {
      assert inWindow[0] in inWindow;
      forall p | p in punches && InWindow(w, p)
        ensures ToBangkok(p.ts) in Side(mid, inWindow, true) || !IsIn(mid, p)
        ensures ToBangkok(p.ts) in Side(mid, inWindow, false) || IsIn(mid, p)
      {
        assert p in inWindow;
      }
    }
  }

  // The two sides of the punches in a window.
  lemma SidesOf(w: Window, mid: int, inWindow: seq<Punch>)
    requires forall p | p in inWindow :: InWindow(w, p)
    ensures var firstIn, lastOut := Least(Side(mid, inWindow, true)), Greatest(Side(mid, inWindow, false));
            && (firstIn.Some? ==> w.startUtc + 7 * HOUR <= firstIn.value <= mid + HOUR)
            && (lastOut.Some? ==> mid - HOUR <= lastOut.value < w.endUtc + 7 * HOUR)
            && (inWindow != [] ==> firstIn.Some? || lastOut.Some?)
  {
    var ins, outs := Side(mid, inWindow, true), Side(mid, inWindow, false);
    SideMembers(mid, inWindow, true);
    SideMembers(mid, inWindow, false);
    LeastMeaning(ins);
    GreatestMeaning(outs);
    hide Side, Least, Greatest;
    if inWindow != [] {
      var p := inWindow[0];
      assert ToBangkok(p.ts) in if IsIn(mid, p) then ins else outs;
    }
  }

  // ---------- The two views of one day ----------

  // The punches the monthly report fetches for a month: from three hours before its first day to the
  // end of the day after its last.
  function Range(first: int, last: int): Window {
    Window(first * DAY - 3 * HOUR - 7 * HOUR, last * DAY + 2 * DAY - 7 * HOUR, 0)
  }

  predicate Covered(s: Shift, day: int, last: int) {
    !(day == last && CrossesMidnight(s) && MinuteOf(s.end) > 22 * 60)
  }

  /** The range covers every shift's window, except on the last day that of an overnight shift ending after 22:00. */
  lemma RangeCovers(s: Shift, day: int, first: int, last: int)
    requires ValidShift(s) && first <= day <= last
    ensures Covered(s, day, last) <==> forall p | InWindow(ShiftWindow(s, day), p) :: InWindow(Range(first, last), p)
  {
    var w, range := ShiftWindow(s, day), Range(first, last);
    assert range.startUtc <= w.startUtc;
    if !Covered(s, day, last) {
      assert InWindow(w, Punch(range.endUtc, 0)) && !InWindow(range, Punch(range.endUtc, 0));
    } else {
      assert w.endUtc <= range.endUtc;
    }
  }

  lemma SameWithin(w: Window, range: Window, table: seq<Punch>)
    requires forall p | InWindow(w, p) :: InWindow(range, p)
    ensures SameMembers(Within(w, Within(range, table)), Within(w, table))
  {
    WithinMembers(range, table);
    WithinMembers(w, Within(range, table));
    WithinMembers(w, table);
    hide InWindow;
  }

  // The two pages tell one story: off is off or leave, absent is absent (or, today before the shift,
  // pending), and late or on time is present.
  ghost predicate OneStory(day: int, eff: Effective, table: seq<Punch>, first: int, last: int,
                           today: int, now: int, holiday: bool, leave: bool)
    requires Tracked(eff)
  {
    var byDate := BuildShiftRow(day, eff, table, holiday, leave).status;
    var month := MonthDay(day, eff, Within(Range(first, last), table), today, now, holiday, leave).status;
    && (byDate == ByDateStatus.Off <==> month == MonthStatus.Off || month == MonthStatus.Leave)
    && (byDate == ByDateStatus.Absent <==> month == MonthStatus.Absent || month == Pending)
    && (byDate == Late || byDate == OnTime <==> month == Present)
    && (month == Pending ==> day == today) && month != Untracked && month != Future
  }

  /** On every day that has come and that the month's fetch covers, both pages tell one story about a tracked
      employee. */
  lemma ViewsAgree(day: int, eff: Effective, table: seq<Punch>, first: int, last: int,
                   today: int, now: int, holiday: bool, leave: bool)
    requires (eff.shift.Some? || eff.isOff) && first <= day <= last && day <= today
    requires eff.shift.Some? ==> ValidShift(eff.shift.value) && Covered(eff.shift.value, day, last)
    ensures OneStory(day, eff, table, first, last, today, now, holiday, leave)
  {
    if eff.shift.Some? {
      var w, range := ShiftWindow(eff.shift.value, day), Range(first, last);
      RangeCovers(eff.shift.value, day, first, last);
      hide ShiftWindow, InWindow, Within, Side, Least, Greatest, Midpoint;
      SameWithin(w, range, table);
      SameEmpty(Within(w, Within(range, table)), Within(w, table));
      LeastMeaning(Times(Within(w, table)));
    }
  }

  // A single punch at the end of the fetched range, inside the window of an uncovered day.
  function Unfetched(first: int, last: int): seq<Punch> {
    [Punch(Range(first, last).endUtc, 0)]
  }

  lemma UncoveredDisagree(day: int, s: Shift, role: string, first: int, last: int, today: int, now: int)
    requires ValidShift(s) && first <= day <= last && day <= today && !Covered(s, day, last)
    ensures !OneStory(day, Effective(Some(s), false, role), Unfetched(first, last), first, last, today, now,
                      false, false)
  {
    var w, range, table := ShiftWindow(s, day), Range(first, last), Unfetched(first, last);
    assert InWindow(w, table[0]) && !InWindow(range, table[0]);
    WithinMembers(range, table);
    WithinMembers(w, Within(range, table));
    WithinMembers(w, table);
    assert table[0] in Within(w, table);
    hide ShiftWindow, InWindow, Within, Side, Least, Greatest, Midpoint;
    SameEmpty(Within(w, Within(range, table)), []);
    LeastMeaning(Times(Within(w, table)));
  }

  /** For a working day that has come, they do so for all punches exactly when the fetch covers the day. */
  lemma ViewsAgreeExactly(day: int, s: Shift, role: string, first: int, last: int, today: int, now: int)
    requires ValidShift(s) && first <= day <= last && day <= today
    ensures (forall table ::
            OneStory(day, Effective(Some(s), false, role), table, first, last, today, now, false, false))
            <==> Covered(s, day, last)
  {
    hide OneStory, Covered;
    if Covered(s, day, last) {
      var eff := Effective(Some(s), false, role);
      forall table ensures OneStory(day, eff, table, first, last, today, now, false, false) {
        ViewsAgree(day, eff, table, first, last, today, now, false, false);
      }
    } else {
      UncoveredDisagree(day, s, role, first, last, today, now);
    }
  }

  // Whoever is late in the monthly report is late on the by-date page.
  predicate LateAgrees(day: int, s: Shift, table: seq<Punch>, first: int, last: int, now: int) {
    var eff := Effective(Some(s), false, "");
    MonthDay(day, eff, Within(Range(first, last), table), day, now, false, false).lateMinutes > 0 ==>
      BuildShiftRow(day, eff, table, false, false).status == Late
  }

  // On a long shift a punch of the window up to its start is fetched, and is a check-in.
  lemma EarlyIsIn(day: int, s: Shift, first: int, last: int, p: Punch)
    requires ValidShift(s) && Length(s) > 2 * HOUR && first <= day <= last
    requires InWindow(ShiftWindow(s, day), p) && ToBangkok(p.ts) <= ShiftWindow(s, day).shiftStart
    ensures InWindow(Range(first, last), p) && IsIn(Midpoint(s, ShiftWindow(s, day).shiftStart), p)
  {
  }

  // So a late check-in leaves no punch up to the start.
  lemma LateLeavesNone(w: Window, range: Window, mid: int, table: seq<Punch>)
    requires forall p | InWindow(w, p) && ToBangkok(p.ts) <= w.shiftStart :: InWindow(range, p) && IsIn(mid, p)
    requires var checkIn := Least(Side(mid, Within(w, Within(range, table)), true));
             checkIn.Some? && checkIn.value > w.shiftStart
    ensures var earliest := Least(Times(Within(w, table)));
            earliest.Some? && earliest.value > w.shiftStart
  {
    var fetched := Within(w, Within(range, table));
    var ins, times := Side(mid, fetched, true), Times(Within(w, table));
    WithinMembers(range, table);
    WithinMembers(w, Within(range, table));
    WithinMembers(w, table);
    SideMembers(mid, fetched, true);
    TimesMembers(Within(w, table));
    LeastMeaning(ins);
    LeastMeaning(times);
    hide Within, Side, Least, Times, InWindow, IsIn, ToBangkok;
    var q :| q in fetched && ToBangkok(q.ts) == Least(ins).value;
    assert ToBangkok(q.ts) in times;
    var p :| p in Within(w, table) && ToBangkok(p.ts) == Least(times).value;
    assert p in fetched && IsIn(mid, p) ==> ToBangkok(p.ts) in ins;
  }

  lemma LongShiftsAgree(day: int, s: Shift, table: seq<Punch>, first: int, last: int, now: int)
    requires ValidShift(s) && Length(s) > 2 * HOUR && first <= day <= last
    ensures LateAgrees(day, s, table, first, last, now)
  {
    hide ShiftWindow, Within, Side, Least, Greatest, Times, InWindow, IsIn, ToBangkok, Midpoint, Range, Length,
      ValidShift;
    var w, range := ShiftWindow(s, day), Range(first, last);
    var mid := Midpoint(s, w.shiftStart);
    forall p | InWindow(w, p) && ToBangkok(p.ts) <= w.shiftStart ensures InWindow(range, p) && IsIn(mid, p) {
      EarlyIsIn(day, s, first, last, p);
    }
    if MonthDay(day, Effective(Some(s), false, ""), Within(range, table), day, now, false, false).lateMinutes > 0 {
      LateLeavesNone(w, range, mid, table);
    }
  }

  // Checked out at the start of a short shift, checked in a minute later.
  function Confusing(s: Shift, day: int): seq<Punch> {
    var start := ShiftWindow(s, day).shiftStart - 7 * HOUR;
    [Punch(start, 1), Punch(start + MINUTE, 0)]
  }

  lemma ShortShiftsDisagree(day: int, s: Shift, first: int, last: int, now: int)
    requires ValidShift(s) && Length(s) <= 2 * HOUR && first <= day <= last
    ensures !LateAgrees(day, s, Confusing(s, day), first, last, now)
  {
    var w, range, punches := ShiftWindow(s, day), Range(first, last), Confusing(s, day);
    var mid := Midpoint(s, w.shiftStart);
    EndsAgree(s, day);
    assert InWindow(w, punches[0]) && InWindow(w, punches[1]);
    assert InWindow(range, punches[0]) && InWindow(range, punches[1]);
    assert !IsIn(mid, punches[0]) && IsIn(mid, punches[1]);
    TwoPunches(w, mid, punches[0], punches[1]);
    TwoPunches(range, mid, punches[0], punches[1]);
    assert punches == [punches[0], punches[1]];
    hide Within, Side, Least, Times, ShiftWindow, IsIn, InWindow;
  }

  lemma TwoPunches(w: Window, mid: int, a: Punch, b: Punch)
    requires InWindow(w, a) && InWindow(w, b) && a.ts < b.ts && !IsIn(mid, a) && IsIn(mid, b)
    ensures Within(w, [a, b]) == [a, b]
    ensures Least(Times([a, b])) == Some(ToBangkok(a.ts))
    ensures Least(Side(mid, [a, b], true)) == Some(ToBangkok(b.ts))
  {
    hide InWindow, IsIn;
    assert [] + [a] == [a] && [a] + [b] == [a, b];
    PunchNext(w, mid, [], a);
    PunchNext(w, mid, [a], b);
    hide Within, Side;
    assert Times([a, b]) == [ToBangkok(a.ts), ToBangkok(b.ts)];
    LeastTwo(ToBangkok(a.ts), ToBangkok(b.ts));
  }

  lemma LeastTwo(t: int, u: int)
    requires t < u
    ensures Least([t, u]) == Some(t) && Least([u]) == Some(u)
  {
    assert [t, u][..1] == [t] && [t][..0] == [] && [u][..0] == [];
    assert Least([t]) == Some(t);
  }

  lemma PunchNext(w: Window, mid: int, punches: seq<Punch>, p: Punch)
    ensures Within(w, []) == [] && Side(mid, [], true) == []
    ensures Within(w, punches + [p]) == Within(w, punches) + if InWindow(w, p) then [p] else []
    ensures Side(mid, punches + [p], true) == Side(mid, punches, true) + if IsIn(mid, p) then [ToBangkok(p.ts)] else []
  {
    assert (punches + [p])[..|punches|] == punches;
    hide InWindow, IsIn, ToBangkok;
  }

  /** The two pages never disagree about lateness exactly when the shift is longer than two hours: on
      a shorter one the hour around the middle, where the punch type decides, reaches its start. */
  lemma LatenessAgreesExactly(day: int, s: Shift, first: int, last: int, now: int)
    requires ValidShift(s) && first <= day <= last
    ensures (forall table :: LateAgrees(day, s, table, first, last, now)) <==> Length(s) > 2 * HOUR
  {
    hide LateAgrees, Length;
    if Length(s) > 2 * HOUR {
      forall table ensures LateAgrees(day, s, table, first, last, now) {
        LongShiftsAgree(day, s, table, first, last, now);
      }
    } else {
      ShortShiftsDisagree(day, s, first, last, now);
    }
  }

  // ---------- The monthly totals ----------

  datatype Totals = Totals(worked: nat, absent: nat, off: nat, leave: nat, lateCount: nat, lateMinutes: nat,
                           severe: nat, time: int)

  function AddDay(t: Totals, row: DayRow): Totals {
    match row.status
    case Present =>
      var late, severe := row.lateTier >= 1, row.lateTier >= 3;
      t.(worked := t.worked + 1, time := t.time + row.worked.GetOr(0),
         lateCount := t.lateCount + if late then 1 else 0,
         lateMinutes := t.lateMinutes + if late then row.lateMinutes else 0,
         severe := t.severe + if severe then 1 else 0)
    case Absent => t.(absent := t.absent + 1)
    case Off => t.(off := t.off + 1)
    case Leave => t.(leave := t.leave + 1)
    case _ => t
  }

  function TotalsOf(rows: seq<DayRow>): Totals {
    if rows == [] then Totals(0, 0, 0, 0, 0, 0, 0, 0)
    else AddDay(TotalsOf(rows[..|rows| - 1]), rows[|rows| - 1])
  }

  function CountOf(rows: seq<DayRow>, status: MonthStatus): nat {
    if rows == [] then 0
    else CountOf(rows[..|rows| - 1], status) + if rows[|rows| - 1].status == status then 1 else 0
  }

  ghost predicate Graded(rows: seq<DayRow>) {
    forall i | 0 <= i < |rows| ::
      rows[i].lateTier == LateTier(rows[i].lateMinutes) && (rows[i].worked.Some? ==> rows[i].worked.value > 0)
  }

  /** The totals account for every day of the month. */
  lemma {:induction false} TotalsConserve(rows: seq<DayRow>)
    ensures var t := TotalsOf(rows);
            && t.worked + t.absent + t.off + t.leave
               + CountOf(rows, Future) + CountOf(rows, Pending) + CountOf(rows, Untracked) == |rows|
            && t.worked == CountOf(rows, Present) && t.absent == CountOf(rows, MonthStatus.Absent)
            && t.off == CountOf(rows, MonthStatus.Off) && t.leave == CountOf(rows, MonthStatus.Leave)
  {
    if rows != [] {
      TotalsConserve(rows[..|rows| - 1]);
    }
  }

  // What a day adds to the totals of a month.
  function LateDay(row: DayRow): nat {
    if row.status == Present && row.lateMinutes >= 5 then 1 else 0
  }

  function SevereDay(row: DayRow): nat {
    if row.status == Present && row.lateMinutes >= 30 then 1 else 0
  }

  function MinutesLate(row: DayRow): nat {
    if row.status == Present && row.lateMinutes >= 5 then row.lateMinutes else 0
  }

  function TimeWorked(row: DayRow): nat {
    if row.status == Present && row.worked.Some? && row.worked.value > 0 then row.worked.value else 0
  }

  function SumOf(rows: seq<DayRow>, f: DayRow -> nat): nat {
    if rows == [] then 0 else SumOf(rows[..|rows| - 1], f) + f(rows[|rows| - 1])
  }

  ghost predicate SumsOf(t: Totals, rows: seq<DayRow>) {
    && t.lateCount == SumOf(rows, LateDay) && t.severe == SumOf(rows, SevereDay)
    && t.lateMinutes == SumOf(rows, MinutesLate) && t.time == SumOf(rows, TimeWorked)
  }

  /** The totals count the days at least 5 and at least 30 minutes late, and add up the former's minutes and
      the time of all days. */
  lemma {:induction false} TotalsSum(rows: seq<DayRow>)
    requires Graded(rows)
    ensures SumsOf(TotalsOf(rows), rows)
  {
    if rows != [] {
      var n := |rows| - 1;
      assert rows[n].lateTier == LateTier(rows[n].lateMinutes);
      TotalsSum(rows[..n]);
    }
  }

  /** Lateness is graded consistently: every late day weighs at least the grace, every severe one half an hour. */
  lemma {:induction false} TotalsGrade(rows: seq<DayRow>)
    requires Graded(rows)
    ensures var t := TotalsOf(rows);
            t.severe <= t.lateCount <= t.worked && t.lateMinutes >= 5 * t.lateCount + 25 * t.severe && t.time >= 0
  {
    if rows != [] {
      var n := |rows| - 1;
      TotalsGrade(rows[..n]);
      assert rows[n].lateTier == LateTier(rows[n].lateMinutes);
      assert rows[n].worked.GetOr(0) >= 0;
    }
  }

  // ---------- A month of one employee ----------

  // What the report looks up for a day.
  datatype Facts = Facts(eff: Effective, holiday: bool, leave: bool)

  function MonthRow(first: int, facts: seq<Facts>, punches: seq<Punch>, today: int, now: int, i: nat): DayRow
    requires i < |facts|
  {
    MonthDay(first + i, facts[i].eff, punches, today, now, facts[i].holiday, facts[i].leave)
  }

  // The rows of the first days of the month, none pending but today's.
  ghost predicate RowsSoFar(rows: seq<DayRow>, first: int, facts: seq<Facts>, punches: seq<Punch>, today: int,
                            now: int) {
    && |rows| <= |facts|
    && (forall i | 0 <= i < |rows| :: rows[i] == MonthRow(first, facts, punches, today, now, i))
    && (forall i | 0 <= i < |rows| :: rows[i].status == Pending ==> first + i == today)
  }

  predicate SomeTracked(rows: seq<DayRow>) {
    exists i | 0 <= i < |rows| :: rows[i].status != Untracked && rows[i].status != Future
  }

  lemma RowsNext(rows: seq<DayRow>, row: DayRow, first: int, facts: seq<Facts>, punches: seq<Punch>, today: int,
                 now: int)
    requires RowsSoFar(rows, first, facts, punches, today, now) && |rows| < |facts| && Graded(rows)
    requires forall i | 0 <= i < |facts| && facts[i].eff.shift.Some? :: ValidShift(facts[i].eff.shift.value)
    requires row == MonthRow(first, facts, punches, today, now, |rows|)
    ensures RowsSoFar(rows + [row], first, facts, punches, today, now) && Graded(rows + [row])
    ensures TotalsOf(rows + [row]) == AddDay(TotalsOf(rows), row)
    ensures SomeTracked(rows + [row]) <==> SomeTracked(rows) || (row.status != Untracked && row.status != Future)
  {
    hide MonthRow, LateTier, TotalsOf, AddDay, ValidShift, Graded, SomeTracked;
    MonthRowSound(first, facts, punches, today, now, |rows|);
    TotalsNext(rows, row);
    TrackedNext(rows, row);
  }

  lemma MonthRowSound(first: int, facts: seq<Facts>, punches: seq<Punch>, today: int, now: int, i: nat)
    requires i < |facts| && (facts[i].eff.shift.Some? ==> ValidShift(facts[i].eff.shift.value))
    ensures var row := MonthRow(first, facts, punches, today, now, i);
            && row.lateTier == LateTier(row.lateMinutes) && (row.worked.Some? ==> row.worked.value > 0)
            && (row.status == Pending ==> first + i == today)
  {
    hide MonthDay, LateTier, SoundDay;
    PresentBounds(first + i, facts[i].eff, punches, today, now, facts[i].holiday, facts[i].leave);
  }

  lemma TrackedNext(rows: seq<DayRow>, row: DayRow)
    ensures SomeTracked(rows + [row]) <==> SomeTracked(rows) || (row.status != Untracked && row.status != Future)
  {
    assert (rows + [row])[|rows|] == row;
    if j :| 0 <= j < |rows| && rows[j].status != Untracked && rows[j].status != Future {
      assert (rows + [row])[j] == rows[j];
    }
  }

  /** One employee's month: a row for every day in order, totals that conserve the days, at most one of
      them pending, and no report exactly when no day that has come is tracked. */
  method Month(first: int, facts: seq<Facts>, punches: seq<Punch>, today: int, now: int)
    returns (rows: seq<DayRow>, totals: Totals, tracked: bool)
    requires forall i | 0 <= i < |facts| && facts[i].eff.shift.Some? :: ValidShift(facts[i].eff.shift.value)
    ensures |rows| == |facts| && RowsSoFar(rows, first, facts, punches, today, now)
    ensures totals == TotalsOf(rows)
    ensures totals.worked + totals.absent + totals.off + totals.leave
            + CountOf(rows, Future) + CountOf(rows, Pending) + CountOf(rows, Untracked) == |facts|
    ensures SumsOf(totals, rows)
    ensures totals.severe <= totals.lateCount <= totals.worked
    ensures totals.lateMinutes >= 5 * totals.lateCount + 25 * totals.severe && totals.time >= 0
    ensures tracked <==> SomeTracked(rows)
  {
    rows, totals, tracked := [], Totals(0, 0, 0, 0, 0, 0, 0, 0), false;
    NoTotals();
    hide MonthDay, LateTier, SoundDay, CountOf, TotalsOf, AddDay, Graded, RowsSoFar, SomeTracked, ValidShift;
    assert RowsSoFar([], first, facts, punches, today, now) && !SomeTracked([]) by {
      NoRows(first, facts, punches, today, now);
    }
    for i := 0 to |facts|
      invariant |rows| == i && RowsSoFar(rows, first, facts, punches, today, now)
      invariant totals == TotalsOf(rows) && Graded(rows)
      invariant tracked <==> SomeTracked(rows)
    {
      var row := BuildMonthDay(first + i, facts[i].eff, punches, today, now, facts[i].holiday, facts[i].leave);
      RowsNext(rows, row, first, facts, punches, today, now);
      rows := rows + [row];
      if row.status != Untracked && row.status != Future {
        tracked := true;
      }
      totals := AddTo(totals, row);
    }
    TotalsConserve(rows);
    TotalsGrade(rows);
    hide SumsOf;
    TotalsSum(rows);
  }

  lemma NoRows(first: int, facts: seq<Facts>, punches: seq<Punch>, today: int, now: int)
    ensures RowsSoFar([], first, facts, punches, today, now) && !SomeTracked([])
  {
  }

  method AddTo(before: Totals, row: DayRow) returns (totals: Totals)
    ensures totals == AddDay(before, row)
  {
    totals := before;
    if row.status == Present {
      totals := totals.(worked := totals.worked + 1);
      if row.worked.Some? {
        totals := totals.(time := totals.time + row.worked.value);
      }
      if row.lateTier >= 1 {
        totals := totals.(lateCount := totals.lateCount + 1, lateMinutes := totals.lateMinutes + row.lateMinutes);
      }
      if row.lateTier >= 3 {
        totals := totals.(severe := totals.severe + 1);
      }
    } else if row.status == MonthStatus.Absent {
      totals := totals.(absent := totals.absent + 1);
    } else if row.status == MonthStatus.Off {
      totals := totals.(off := totals.off + 1);
    } else if row.status == MonthStatus.Leave {
      totals := totals.(leave := totals.leave + 1);
    }
  }

  lemma NoTotals()
    ensures TotalsOf([]) == Totals(0, 0, 0, 0, 0, 0, 0, 0) && Graded([])
  {
  }

  lemma TotalsNext(rows: seq<DayRow>, row: DayRow)
    ensures TotalsOf(rows + [row]) == AddDay(TotalsOf(rows), row)
    ensures Graded(rows) && row.lateTier == LateTier(row.lateMinutes) && (row.worked.Some? ==> row.worked.value > 0) ==>
              Graded(rows + [row])
  {
    assert (rows + [row])[..|rows|] == rows;
    hide AddDay, LateTier;
  }
}
