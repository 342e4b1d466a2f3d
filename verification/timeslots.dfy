/** The date-and-time picker: the list of times it offers (every quarter
    of an hour, as `HH:MM`), the reading of a chosen time back into hours
    and minutes, and what choosing a date, choosing a time and clearing do
    to its state.  Dates are points on the clock; turning a date string
    into one and combining a date with hours and minutes into the emitted
    ISO string are parameters. */
module TimeSlots {
  import opened Wrappers
  import opened Text

  /** `${h.padStart(2, '0')}:${m.padStart(2, '0')}`. */
  function Slot(h: nat, m: nat): (r: string)
    requires h < 100 && m < 100
    ensures |r| == 5 && r[2] == ':'
  {
    Pad2(h) + ":" + Pad2(m)
  }

  /** The option for position `i` of the list: hour `i / 4`, minute
      `15 * (i % 4)`. */
  function SlotAt(i: nat): string
    requires i < 96
  {
    Slot(i / 4, 15 * (i % 4))
  }

  /** The `timeOptions` values: for every hour, the minutes 0, 15, 30, 45. */
  method TimeOptions() returns (opts: seq<string>)
    ensures |opts| == 96
    ensures forall i :: 0 <= i < 96 ==> opts[i] == SlotAt(i)
  {
    opts := [];
    var hour := 0;
    while hour < 24
      invariant 0 <= hour <= 24
      invariant |opts| == 4 * hour
      invariant forall i :: 0 <= i < |opts| ==> opts[i] == SlotAt(i)
    {
      var minute := 0;
      while minute < 60
        invariant 0 <= minute <= 60 && minute % 15 == 0
        invariant |opts| == 4 * hour + minute / 15
        invariant forall i :: 0 <= i < |opts| ==> opts[i] == SlotAt(i)
      {
        assert (4 * hour + minute / 15) / 4 == hour && (4 * hour + minute / 15) % 4 == minute / 15;
        opts := opts + [Slot(hour, minute)];
        minute := minute + 15;
      }
      hour := hour + 1;
    }
  }

  /** `const [hours, minutes] = time.split(':')` and `parseInt` of each:
      `None` where `parseInt` gives `NaN`, a missing part included. */
  function ParseTime(s: string): (Option<nat>, Option<nat>) {
    var parts := Split(s, ':');
    (ParseInt(parts[0]), if |parts| > 1 then ParseInt(parts[1]) else None)
  }

  lemma Pad2Value(n: nat)
    requires n < 100
    ensures DigitsValue(Pad2(n)) == n
  {
    var r := Pad2(n);
    assert r[..1][..0] == [];
    assert r[..|r| - 1] == r[..1];
    assert DigitsValue(r[..1]) == n / 10;
  }

  lemma Pad2ReadsBack(n: nat)
    requires n < 100
    ensures ParseInt(Pad2(n)) == Some(n)
    ensures ':' !in Pad2(n)
  {
    var r := Pad2(n);
    ParseIntOfDigits(r);
    Pad2Value(n);
    assert r == [r[0], r[1]];
  }

  /** Reading an option back gives the hour and the minute it was made of. */
  lemma ParseSlot(h: nat, m: nat)
    requires h < 100 && m < 100
    ensures ParseTime(Slot(h, m)) == (Some(h), Some(m))
  {
    Pad2ReadsBack(h);
    Pad2ReadsBack(m);
    SplitAtFirstSeparator(Pad2(h), Pad2(m), ':');
    SplitWithoutSeparator(Pad2(m), ':');
    assert Slot(h, m) == Pad2(h) + [':'] + Pad2(m);
  }

  /** The minute of the day a read-back hour and minute denote. */
  function MinuteOfDay(t: (Option<nat>, Option<nat>)): Option<nat> {
    if t.0.Some? && t.1.Some? then Some(60 * t.0.value + t.1.value) else None
  }

  lemma ParseSlotAt(i: nat)
    requires i < 96
    ensures ParseTime(SlotAt(i)) == (Some(i / 4), Some(15 * (i % 4)))
  {
    var h, m := i / 4, 15 * (i % 4);
    assert h < 100 && m < 100;
    ParseSlot(h, m);
  }

  /** Every option is a valid time of day on the quarter hour, and the
      options rise by a quarter hour each: option `i` is `15 i` minutes
      after midnight. */
  lemma SlotAtFacts(i: nat)
    requires i < 96
    ensures ParseTime(SlotAt(i)) == (Some(i / 4), Some(15 * (i % 4)))
    ensures i / 4 < 24 && 15 * (i % 4) in {0, 15, 30, 45}
    ensures MinuteOfDay(ParseTime(SlotAt(i))) == Some(15 * i)
  {
    QuarterFacts(i);
    QuarterMinute(i);
    ParseSlotAt(i);
  }

  lemma QuarterMinute(i: nat)
    requires i < 96
    ensures MinuteOfDay((Some(i / 4), Some(15 * (i % 4)))) == Some(15 * i)
  {
    QuarterFacts(i);
  }

  lemma QuarterFacts(i: nat)
    requires i < 96
    ensures i / 4 < 24
    ensures 15 * (i % 4) in {0, 15, 30, 45}
    ensures 60 * (i / 4) + 15 * (i % 4) == 15 * i
  {
    var h, q := i / 4, i % 4;
    assert i == 4 * h + q && 0 <= q < 4;
  }

  /** The options are strictly increasing in time, so no time appears twice. */
  lemma SlotsIncrease(i: nat, j: nat)
    requires i < j < 96
    ensures MinuteOfDay(ParseTime(SlotAt(i))).Some? && MinuteOfDay(ParseTime(SlotAt(j))).Some?
    ensures MinuteOfDay(ParseTime(SlotAt(i))).value < MinuteOfDay(ParseTime(SlotAt(j))).value
    ensures SlotAt(i) != SlotAt(j)
  {
    SlotAtFacts(i);
    SlotAtFacts(j);
  }

  /** The picker's state: the chosen date, if any, and the time field. */
  datatype Picker = Picker(selected: Option<int>, time: string)

  /** What the picker tells its owner: nothing, or a value (`None` for
      `undefined`). */
  datatype Emit = Silent | Emitted(value: Option<string>)

  lemma NineOClock()
    ensures ParseTime("09:00") == (Some(9), Some(0))
  {
    ParseSlot(9, 0);
    NineOClockSlot();
  }

  lemma NineOClockSlot()
    ensures Slot(9, 0) == "09:00"
  {
    assert Pad2(9) == "09" by {
      assert DigitChar(0) == '0' && DigitChar(9) == '9';
    }
    assert Pad2(0) == "00" by {
      assert DigitChar(0) == '0';
    }
  }

  /** `clearDateTime`: no date, the time back to nine o'clock, and the
      owner told the value is gone. */
  function Clear(p: Picker): (r: (Picker, Emit))
    ensures r.0.selected.None? && ParseTime(r.0.time) == (Some(9), Some(0))
    ensures r.1 == Emitted(None)
  {
    NineOClock();
    (Picker(None, "09:00"), Emitted(None))
  }

  /** `handleTimeChange`: the time field takes the chosen time; with a
      date chosen the owner receives that date at the chosen time. */
  function ChangeTime(p: Picker, time: string, combine: (int, Option<nat>, Option<nat>) -> string): (r: (Picker, Emit))
    ensures r.0 == p.(time := time)
    ensures r.1.Emitted? <==> p.selected.Some?
    ensures r.1.Emitted? ==> r.1.value == Some(combine(p.selected.value, ParseTime(time).0, ParseTime(time).1))
  {
    if p.selected.Some? then
      var t := ParseTime(time);
      (p.(time := time), Emitted(Some(combine(p.selected.value, t.0, t.1))))
    else (p.(time := time), Silent)
  }

  /** `handleDateChange`: an empty date string does nothing; otherwise the
      date is chosen and the owner receives it at the time in the field. */
  function ChangeDate(p: Picker, dateString: string, toDate: string -> int, combine: (int, Option<nat>, Option<nat>) -> string): (r: (Picker, Emit))
    ensures dateString == [] ==> r == (p, Silent)
    ensures dateString != [] ==> r.0 == p.(selected := Some(toDate(dateString))) && r.1.Emitted? && r.1.value.Some?
    ensures dateString != [] ==>
      r.1.value == Some(combine(toDate(dateString), ParseTime(p.time).0, ParseTime(p.time).1))
  {
    if dateString == [] then (p, Silent)
    else
      var d := toDate(dateString);
      var t := ParseTime(p.time);
      (p.(selected := Some(d)), Emitted(Some(combine(d, t.0, t.1))))
  }

  /** Choosing a date while the field shows one of the offered times
      emits that date at exactly the option's hour and minute, and a time
      chosen afterwards moves the emitted value to that date at the new
      time. */
  lemma ChosenDateKeepsFieldTime(p: Picker, dateString: string, i: nat, j: nat, toDate: string -> int, combine: (int, Option<nat>, Option<nat>) -> string)
    requires i < 96 && j < 96 && dateString != [] && p.time == SlotAt(i)
    ensures ChangeDate(p, dateString, toDate, combine).1 == Emitted(Some(combine(toDate(dateString), Some(i / 4), Some(15 * (i % 4)))))
    ensures var q := ChangeDate(p, dateString, toDate, combine).0;
      ChangeTime(q, SlotAt(j), combine).1 == Emitted(Some(combine(toDate(dateString), Some(j / 4), Some(15 * (j % 4)))))
  {
    SlotAtFacts(i);
    SlotAtFacts(j);
  }

  /** Choosing one of the offered times with a date chosen emits that date
      at exactly the option's hour and minute. */
  lemma ChosenOptionReachesOwner(p: Picker, i: nat, combine: (int, Option<nat>, Option<nat>) -> string)
    requires i < 96 && p.selected.Some?
    ensures ChangeTime(p, SlotAt(i), combine).1 == Emitted(Some(combine(p.selected.value, Some(i / 4), Some(15 * (i % 4)))))
  {
    SlotAtFacts(i);
  }

  /** `Math.round(minute / 15) * 15`: the nearest quarter, 60 for the
      last minutes of an hour (there is never a tie). */
  function NearestQuarter(minute: nat): (q: nat)
    requires minute < 60
    ensures q % 15 == 0 && q <= 60
    ensures 2 * (q - minute) <= 15 && 2 * (minute - q) <= 15
  {
    ((2 * minute + 15) / 30) * 15
  }

  /** The time the picker starts with when it has no value: the clock's
      hour and minute with the minute rounded to the nearest quarter, which
      `setMinutes` carries into the next hour (and past midnight into the
      next day), then shown as `HH:MM`. */
  function InitialTime(hour: nat, minute: nat): (t: string)
    requires hour < 24 && minute < 60
    ensures |t| == 5 && t[2] == ':'
    ensures ParseTime(t) == (Some(StartMinute(hour, minute) / 60), Some(StartMinute(hour, minute) % 60))
  {
    var q := StartMinute(hour, minute);
    ParseSlot(q / 60, q % 60);
    Slot(q / 60, q % 60)
  }

  /** The minute of the day the picker starts at. */
  function StartMinute(hour: nat, minute: nat): (q: nat)
    requires hour < 24 && minute < 60
    ensures q < 1440
  {
    (60 * hour + NearestQuarter(minute)) % 1440
  }

  /** The starting time is always one of the offered options: the one
      whose quarter is nearest the clock, counted round the day. */
  lemma InitialTimeIsOffered(hour: nat, minute: nat)
    requires hour < 24 && minute < 60
    ensures var i := StartMinute(hour, minute) / 15;
      i < 96 && InitialTime(hour, minute) == SlotAt(i)
  {
    var k := (2 * minute + 15) / 30;
    var n := 4 * hour + k;
    assert StartMinute(hour, minute) == 15 * (n % 96) by {
      assert NearestQuarter(minute) == 15 * k;
      assert 60 * hour + 15 * k == 15 * n;
      QuarterOfDay(n);
    }
    QuarterSlot(n % 96);
  }

  /** The quarter hour `n` of the day falls at hour `n / 4`, minute `15 (n % 4)`. */
  lemma QuarterSlot(n: nat)
    requires n < 96
    ensures (15 * n) / 15 == n && (15 * n) / 60 == n / 4 && (15 * n) % 60 == 15 * (n % 4)
  {
    var h, q := n / 4, n % 4;
    assert n == 4 * h + q && 0 <= q < 4;
    assert 15 * n == 60 * h + 15 * q;
  }

  /** A multiple of 15 taken modulo a day stays a multiple of 15. */
  lemma QuarterOfDay(n: nat)
    ensures (15 * n) % 1440 == 15 * (n % 96)
  {
    var a := n / 96;
    var b := n % 96;
    assert 15 * n == 1440 * a + 15 * b;
  }
}
