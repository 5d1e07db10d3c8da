/** The availability engine of the booking page (Booking.js): the fixed slot template,
    the overlap test `isBooked`, and the window generation of `generateTimeSlots`,
    without the buttons it draws. */
module Availability {
  import opened Wrappers
  import opened Numerals
  import opened Clock
  import opened Reservations

  datatype Slot = Slot(start: string, end: string)

  /** The template of bookable slots in a day, in order. */
  const Slots: seq<Slot> := [
    Slot("08:15", "09:00"),
    Slot("09:00", "09:45"),
    Slot("10:00", "10:45"),
    Slot("10:45", "11:30"),
    Slot("12:15", "13:00"),
    Slot("13:00", "13:45"),
    Slot("14:00", "14:45"),
    Slot("14:45", "15:30")
  ]

  /** The template's times as numbers: (start hour, start minute, end hour, end minute). */
  const SlotClock: seq<(nat, nat, nat, nat)> := [
    (8, 15, 9, 0), (9, 0, 9, 45), (10, 0, 10, 45), (10, 45, 11, 30),
    (12, 15, 13, 0), (13, 0, 13, 45), (14, 0, 14, 45), (14, 45, 15, 30)
  ]

  predicate Spells(s: Slot, c: (nat, nat, nat, nat))
  {
    c.0 < 100 && c.1 < 100 && c.2 < 100 && c.3 < 100 &&
    s == Slot(ClockText(c.0, c.1), ClockText(c.2, c.3))
  }

  lemma MorningSlotsSpelled()
    ensures |Slots| == |SlotClock| == 8
    ensures forall i :: 0 <= i < 4 ==> Spells(Slots[i], SlotClock[i])
  {
    assert Spells(Slots[0], SlotClock[0]);
    assert Spells(Slots[1], SlotClock[1]);
    assert Spells(Slots[2], SlotClock[2]);
    assert Spells(Slots[3], SlotClock[3]);
  }

  lemma AfternoonSlotsSpelled()
    ensures |Slots| == |SlotClock| == 8
    ensures forall i :: 4 <= i < 8 ==> Spells(Slots[i], SlotClock[i])
  {
    assert Spells(Slots[4], SlotClock[4]);
    assert Spells(Slots[5], SlotClock[5]);
    assert Spells(Slots[6], SlotClock[6]);
    assert Spells(Slots[7], SlotClock[7]);
  }

  /** Every template time reads as its hour and minute. */
  lemma SlotReading(i: nat)
    requires i < |Slots|
    ensures ToMinutes(Slots[i].start) == Some(SlotClock[i].0 * 60 + SlotClock[i].1)
    ensures ToMinutes(Slots[i].end) == Some(SlotClock[i].2 * 60 + SlotClock[i].3)
  {
    if i < 4 {
      MorningSlotsSpelled();
    } else {
      AfternoonSlotsSpelled();
    }
    SpelledReading(Slots[i], SlotClock[i]);
  }

  /** A slot spelled from a table entry reads as that entry's minutes. */
  lemma SpelledReading(s: Slot, c: (nat, nat, nat, nat))
    requires Spells(s, c)
    ensures ToMinutes(s.start) == Some(c.0 * 60 + c.1)
    ensures ToMinutes(s.end) == Some(c.2 * 60 + c.3)
  {
    ClockTextReading(c.0, c.1);
    ClockTextReading(c.2, c.3);
  }

  /** The table is ordered: each slot ends after it starts, and the next slot starts no
      earlier than this one ends. */
  lemma ClockTableOrdered(i: nat)
    requires i < |SlotClock|
    ensures SlotClock[i].0 * 60 + SlotClock[i].1 < SlotClock[i].2 * 60 + SlotClock[i].3
    ensures i + 1 < |SlotClock| ==> SlotClock[i].2 * 60 + SlotClock[i].3 <= SlotClock[i + 1].0 * 60 + SlotClock[i + 1].1
  {
  }

  /** Each slot is a non-empty interval, and no slot starts before its predecessor ends. */
  lemma TemplateIsOrdered(i: nat)
    requires i < |Slots|
    ensures ToMinutes(Slots[i].start).Some? && ToMinutes(Slots[i].end).Some?
    ensures ToMinutes(Slots[i].start).value < ToMinutes(Slots[i].end).value
    ensures i + 1 < |Slots| ==>
              ToMinutes(Slots[i + 1].start).Some? &&
              ToMinutes(Slots[i].end).value <= ToMinutes(Slots[i + 1].start).value
  {
    SlotReading(i);
    ClockTableOrdered(i);
    if i + 1 < |Slots| {
      SlotReading(i + 1);
    }
  }

  /** A slot whose two times read and whose start comes before its end. */
  predicate Readable(s: Slot)
  {
    ToMinutes(s.start).Some? && ToMinutes(s.end).Some? &&
    ToMinutes(s.start).value < ToMinutes(s.end).value
  }

  /** Slot `i` of a template is readable, and so is the next one, which starts no
      earlier than slot `i` ends. */
  predicate StepInOrder(template: seq<Slot>, i: nat)
    requires i < |template|
  {
    Readable(template[i]) &&
    (i + 1 < |template| ==>
       Readable(template[i + 1]) &&
       ToMinutes(template[i].end).value <= ToMinutes(template[i + 1].start).value)
  }

  /** A template of readable slots, each starting no earlier than its predecessor ends. */
  predicate InOrder(template: seq<Slot>)
  {
    forall i: nat :: i < |template| ==> StepInOrder(template, i)
  }

  lemma SlotsInOrder()
    ensures InOrder(Slots)
  {
    forall i: nat | i < |Slots|
      ensures StepInOrder(Slots, i)
    {
      TemplateIsOrdered(i);
      if i + 1 < |Slots| {
        TemplateIsOrdered(i + 1);
      }
    }
  }

  /** Strict half-open overlap `s < be && e > bs`. Any NaN reading makes a comparison
      false, so an unreadable time never overlaps anything. */
  predicate Overlaps(s: Option<int>, e: Option<int>, bs: Option<int>, be: Option<int>)
    ensures s.None? || e.None? || bs.None? || be.None? ==> !Overlaps(s, e, bs, be)
    ensures Overlaps(s, e, bs, be) ==> bs.value < e.value && s.value < be.value
  {
    s.Some? && e.Some? && bs.Some? && be.Some? && s.value < be.value && e.value > bs.value
  }

  /** The test inside `isBooked`'s `some` for one stored booking. */
  predicate Conflicts(b: Booking, room: string, date: string, start: string, end: string)
    ensures Conflicts(b, room, date, start, end) ==>
              b.room == room && b.date == date &&
              WellFormedTime(start) && WellFormedTime(end) &&
              WellFormedTime(b.startTime) && WellFormedTime(b.endTime)
  {
    b.room == room && b.date == date &&
    Overlaps(ToMinutes(start), ToMinutes(end), ToMinutes(b.startTime), ToMinutes(b.endTime))
  }

  /** `isBooked(room, date, start, end)` over the page's current booking list. */
  function IsBooked(bookings: seq<Booking>, room: string, date: string, start: string, end: string): (booked: bool)
    ensures booked <==> exists k :: 0 <= k < |bookings| && Conflicts(bookings[k], room, date, start, end)
  {
    if bookings == [] then false
    else
      var rest := IsBooked(bookings[1..], room, date, start, end);
      assert rest <==> exists k :: 1 <= k < |bookings| && Conflicts(bookings[k], room, date, start, end) by {
        forall k | 1 <= k < |bookings| ensures bookings[k] == bookings[1..][k - 1] { }
        if rest {
          var j :| 0 <= j < |bookings[1..]| && Conflicts(bookings[1..][j], room, date, start, end);
          assert Conflicts(bookings[j + 1], room, date, start, end);
        }
      }
      Conflicts(bookings[0], room, date, start, end) || rest
  }

  /** The overlap relation is symmetric. */
  lemma OverlapIsSymmetric(s: Option<int>, e: Option<int>, bs: Option<int>, be: Option<int>)
    ensures Overlaps(s, e, bs, be) == Overlaps(bs, be, s, e)
  {
  }

  /** Touching end points are not an overlap. */
  lemma TouchingIsNotOverlap(s: int, e: int, bs: int, be: int)
    requires e == bs || s == be
    ensures !Overlaps(Some(s), Some(e), Some(bs), Some(be))
  {
  }

  /** The bookings of one room on one date, in order. */
  function ForRoomAndDate(bookings: seq<Booking>, room: string, date: string): (r: seq<Booking>)
    ensures forall k :: 0 <= k < |r| ==> r[k].room == room && r[k].date == date
    ensures |r| <= |bookings|
  {
    if bookings == [] then []
    else
      var rest := ForRoomAndDate(bookings[1..], room, date);
      if bookings[0].room == room && bookings[0].date == date then [bookings[0]] + rest else rest
  }

  /** Bookings for another room or another date never change the answer. */
  lemma {:induction false} OnlySameRoomAndDateMatter(bookings: seq<Booking>, room: string, date: string, start: string, end: string)
    ensures IsBooked(bookings, room, date, start, end) == IsBooked(ForRoomAndDate(bookings, room, date), room, date, start, end)
  {
    if bookings != [] {
      OnlySameRoomAndDateMatter(bookings[1..], room, date, start, end);
    }
  }

  /** `slotRange.some(s => isBooked(room, date, s.start, s.end))`. */
  function SomeSlotBooked(range: seq<Slot>, bookings: seq<Booking>, room: string, date: string): (booked: bool)
    ensures booked <==> exists k :: 0 <= k < |range| && IsBooked(bookings, room, date, range[k].start, range[k].end)
  {
    if range == [] then false
    else
      var rest := SomeSlotBooked(range[1..], bookings, room, date);
      assert rest <==> exists k :: 1 <= k < |range| && IsBooked(bookings, room, date, range[k].start, range[k].end) by {
        forall k | 1 <= k < |range| ensures range[k] == range[1..][k - 1] { }
        if rest {
          var j :| 0 <= j < |range[1..]| && IsBooked(bookings, room, date, range[1..][j].start, range[1..][j].end);
          assert range[1..][j] == range[j + 1];
        }
      }
      IsBooked(bookings, room, date, range[0].start, range[0].end) || rest
  }

  /** One button of the page: its time span and whether it is disabled as booked. */
  datatype Window = Window(start: string, end: string, booked: bool)

  /** What `generateTimeSlots` shows: a prompt to pick a date, or the row of windows. */
  datatype SlotView = DatePrompt | Buttons(windows: seq<Window>)

  /** The candidate window made of `duration` consecutive template slots from slot `i`:
      it runs from the first slot's start to the last slot's end, and it is booked when
      any of those slots is booked. */
  function CandidateWindow(room: string, date: string, duration: int, bookings: seq<Booking>, i: int): (w: Window)
    requires duration == 1 || duration == 2
    requires 0 <= i && i + duration <= |Slots|
    ensures w.start == Slots[i].start && w.end == Slots[i + duration - 1].end
    ensures w.booked ==> exists k :: 0 <= k < |bookings| && bookings[k].room == room && bookings[k].date == date
  {
    Window(Slots[i].start, Slots[i + duration - 1].end,
           exists j :: i <= j < i + duration && IsBooked(bookings, room, date, Slots[j].start, Slots[j].end))
  }

  /** The specification of `generateTimeSlots`. */
  function TimeSlots(room: string, date: string, duration: int, bookings: seq<Booking>): (view: SlotView)
    requires duration == 1 || duration == 2
    ensures view.DatePrompt? <==> date == ""
    ensures view.Buttons? && duration == 1 ==> |view.windows| == |Slots| == 8
    ensures view.Buttons? && duration == 2 ==> |view.windows| == |Slots| - 1 == 7
    ensures view.Buttons? ==> forall i :: 0 <= i < |view.windows| ==>
              view.windows[i].start == Slots[i].start &&
              view.windows[i].end == (if duration == 1 then Slots[i].end else Slots[i + 1].end)
  {
    if date == "" then DatePrompt
    else Buttons(seq(|Slots| - duration + 1, i requires 0 <= i < |Slots| - duration + 1 =>
                   CandidateWindow(room, date, duration, bookings, i)))
  }

  /** The button the loop of `generateTimeSlots` builds from `slotRange` is the
      candidate window. */
  lemma SlotRangeIsCandidate(room: string, date: string, duration: int, bookings: seq<Booking>, i: nat)
    requires duration == 1 || duration == 2
    requires i + duration <= |Slots|
    ensures var range := if duration == 1 then [Slots[i]] else [Slots[i], Slots[i + 1]];
            Window(range[0].start, if duration == 1 then range[0].end else range[1].end,
                   SomeSlotBooked(range, bookings, room, date))
            == CandidateWindow(room, date, duration, bookings, i)
  {
    var range := if duration == 1 then [Slots[i]] else [Slots[i], Slots[i + 1]];
    forall k | 0 <= k < |range| ensures range[k] == Slots[i + k] { }
    var viaRange := SomeSlotBooked(range, bookings, room, date);
    var viaTemplate := exists j :: i <= j < i + duration && IsBooked(bookings, room, date, Slots[j].start, Slots[j].end);
    if viaRange {
      var k :| 0 <= k < |range| && IsBooked(bookings, room, date, range[k].start, range[k].end);
      assert IsBooked(bookings, room, date, Slots[i + k].start, Slots[i + k].end);
    }
    if viaTemplate {
      var j :| i <= j < i + duration && IsBooked(bookings, room, date, Slots[j].start, Slots[j].end);
      assert range[j - i] == Slots[j];
    }
  }

  /** `generateTimeSlots`: no windows until a date is chosen; otherwise one window per
      slot for duration 1, or per pair of neighbouring slots for duration 2. */
  method GenerateTimeSlots(room: string, date: string, duration: int, bookings: seq<Booking>) returns (view: SlotView)
    requires duration == 1 || duration == 2
    ensures view == TimeSlots(room, date, duration, bookings)
  {
    if date == "" {
      return DatePrompt;
    }
    var windows: seq<Window> := [];
    var i := 0;
    while i < |Slots|
      invariant 0 <= i <= |Slots|
      invariant duration == 2 ==> i <= |Slots| - 1
      invariant |windows| == i
      invariant forall k :: 0 <= k < i ==> windows[k] == CandidateWindow(room, date, duration, bookings, k)
    {
      if duration == 2 && i >= |Slots| - 1 {
        break;
      }
      var slotRange := if duration == 1 then [Slots[i]] else [Slots[i], Slots[i + 1]];
      var startTime := slotRange[0].start;
      var endTime := if duration == 1 then slotRange[0].end else slotRange[1].end;
      var booked := SomeSlotBooked(slotRange, bookings, room, date);
      SlotRangeIsCandidate(room, date, duration, bookings, i);
      windows := windows + [Window(startTime, endTime, booked)];
      i := i + 1;
    }
    view := Buttons(windows);
    ghost var spec := TimeSlots(room, date, duration, bookings);
    assert |windows| == |spec.windows|;
    forall k | 0 <= k < |windows| ensures windows[k] == spec.windows[k] {
      WindowIsCandidate(room, date, duration, bookings, k);
    }
  }

  lemma WindowIsCandidate(room: string, date: string, duration: int, bookings: seq<Booking>, i: nat)
    requires duration == 1 || duration == 2
    requires date != "" && i + duration <= |Slots|
    ensures TimeSlots(room, date, duration, bookings).windows[i] == CandidateWindow(room, date, duration, bookings, i)
  {
  }

  /** A window is booked exactly when a stored booking for the same room and date
      overlaps one of the template slots it is made of. */
  lemma WindowBookedIff(room: string, date: string, duration: int, bookings: seq<Booking>, i: nat)
    requires duration == 1 || duration == 2
    requires date != "" && i + duration <= |Slots|
    ensures TimeSlots(room, date, duration, bookings).windows[i].booked <==>
              exists k, j :: 0 <= k < |bookings| && i <= j < i + duration &&
                Conflicts(bookings[k], room, date, Slots[j].start, Slots[j].end)
  {
  }

  /** With no bookings loaded, every window is available. */
  lemma NoBookingsAllAvailable(room: string, date: string, duration: int, i: nat)
    requires duration == 1 || duration == 2
    requires date != "" && i + duration <= |Slots|
    ensures !TimeSlots(room, date, duration, []).windows[i].booked
  {
  }

  /** Widening the tested interval keeps a conflict. */
  lemma ConflictWidens(b: Booking, room: string, date: string, s: string, e: string, s': string, e': string)
    requires Conflicts(b, room, date, s, e)
    requires ToMinutes(s').Some? && ToMinutes(e').Some?
    requires ToMinutes(s').value <= ToMinutes(s).value && ToMinutes(e).value <= ToMinutes(e').value
    ensures Conflicts(b, room, date, s', e')
  {
  }

  /** Widening the tested interval keeps the slot booked. */
  lemma SpanCovers(bookings: seq<Booking>, room: string, date: string, s: string, e: string, s': string, e': string)
    requires IsBooked(bookings, room, date, s, e)
    requires ToMinutes(s').Some? && ToMinutes(e').Some?
    requires ToMinutes(s').value <= ToMinutes(s).value && ToMinutes(e).value <= ToMinutes(e').value
    ensures IsBooked(bookings, room, date, s', e')
  {
    var k :| 0 <= k < |bookings| && Conflicts(bookings[k], room, date, s, e);
    ConflictWidens(bookings[k], room, date, s, e, s', e');
  }

  /** In an ordered template, a booking that conflicts with slot `j` of a window
      conflicts with the window's whole span. */
  lemma SlotInsideSpan(template: seq<Slot>, bookings: seq<Booking>, room: string, date: string, duration: int, i: nat, j: nat)
    requires InOrder(template)
    requires duration == 1 || duration == 2
    requires i <= j < i + duration <= |template|
    requires IsBooked(bookings, room, date, template[j].start, template[j].end)
    ensures IsBooked(bookings, room, date, template[i].start, template[i + duration - 1].end)
  {
    if duration == 2 {
      var first, second := template[i], template[i + 1];
      assert StepInOrder(template, i);
      if j == i {
        SpanCovers(bookings, room, date, first.start, first.end, first.start, second.end);
      } else {
        SpanCovers(bookings, room, date, second.start, second.end, first.start, second.end);
      }
    }
  }

  lemma CandidateOverlapsSpan(room: string, date: string, duration: int, bookings: seq<Booking>, i: nat)
    requires duration == 1 || duration == 2
    requires i + duration <= |Slots|
    requires CandidateWindow(room, date, duration, bookings, i).booked
    ensures IsBooked(bookings, room, date, Slots[i].start, Slots[i + duration - 1].end)
  {
    var j :| i <= j < i + duration && IsBooked(bookings, room, date, Slots[j].start, Slots[j].end);
    SlotsInOrder();
    SlotInsideSpan(Slots, bookings, room, date, duration, i, j);
  }

  /** A booked window always overlaps some booking over its whole span: what the
      slot-by-slot test finds, the span test would find too. */
  lemma BookedWindowOverlapsSpan(room: string, date: string, duration: int, bookings: seq<Booking>, i: nat)
    requires duration == 1 || duration == 2
    requires date != "" && i + duration <= |Slots|
    requires TimeSlots(room, date, duration, bookings).windows[i].booked
    ensures IsBooked(bookings, room, date, Slots[i].start, Slots[i + duration - 1].end)
  {
    WindowIsCandidate(room, date, duration, bookings, i);
    CandidateOverlapsSpan(room, date, duration, bookings, i);
  }

  /** A booking whose readable interval is non-empty. */
  predicate NonEmpty(b: Booking)
  {
    ToMinutes(b.startTime).Some? && ToMinutes(b.endTime).Some? &&
    ToMinutes(b.startTime).value < ToMinutes(b.endTime).value
  }

  /** A conflict with a whole span is a conflict with one of its two parts, split at
      any readable time, when the booking's own interval is non-empty. */
  lemma SpanConflictSplits(b: Booking, room: string, date: string, s: string, m: string, e: string)
    requires Conflicts(b, room, date, s, e) && NonEmpty(b)
    requires ToMinutes(m).Some?
    ensures Conflicts(b, room, date, s, m) || Conflicts(b, room, date, m, e)
  {
  }

  /** When the two slots of a duration-2 window meet (one ends where the next starts),
      testing the slots is the same as testing the whole span, for non-empty bookings. */
  lemma AdjacentPairMatchesSpan(room: string, date: string, bookings: seq<Booking>, i: nat)
    requires date != "" && i + 2 <= |Slots|
    requires Slots[i].end == Slots[i + 1].start
    requires forall k :: 0 <= k < |bookings| ==> NonEmpty(bookings[k])
    ensures TimeSlots(room, date, 2, bookings).windows[i].booked <==>
              IsBooked(bookings, room, date, Slots[i].start, Slots[i + 1].end)
  {
    WindowIsCandidate(room, date, 2, bookings, i);
    if IsBooked(bookings, room, date, Slots[i].start, Slots[i + 1].end) {
      var k :| 0 <= k < |bookings| && Conflicts(bookings[k], room, date, Slots[i].start, Slots[i + 1].end);
      TemplateIsOrdered(i);
      SpanConflictSplits(bookings[k], room, date, Slots[i].start, Slots[i].end, Slots[i + 1].end);
      if Conflicts(bookings[k], room, date, Slots[i].start, Slots[i].end) {
        assert IsBooked(bookings, room, date, Slots[i].start, Slots[i].end);
      } else {
        assert IsBooked(bookings, room, date, Slots[i + 1].start, Slots[i + 1].end);
      }
    } else if TimeSlots(room, date, 2, bookings).windows[i].booked {
      BookedWindowOverlapsSpan(room, date, 2, bookings, i);
    }
  }

  /** Where the two slots of a window leave a gap (09:45 to 10:00), a booking that lies
      in the gap overlaps the window's span, yet the window stays available. */
  lemma GapBookingIsNotSeen(b: Booking)
    requires b.date != "" && b.startTime == "09:45" && b.endTime == "10:00"
    ensures var w := TimeSlots(b.room, b.date, 2, [b]).windows[1];
            w == Window(Slots[1].start, Slots[2].end, false) && IsBooked([b], b.room, b.date, w.start, w.end)
  {
    GapBookingTimes(b.startTime, b.endTime);
    GapBookingMinutes(b);
  }

  lemma GapBookingTimes(start: string, end: string)
    requires start == "09:45" && end == "10:00"
    ensures ToMinutes(start) == Some(9 * 60 + 45) && ToMinutes(end) == Some(10 * 60)
  {
    assert start == ClockText(9, 45) && end == ClockText(10, 0);
    ClockTextReading(9, 45);
    ClockTextReading(10, 0);
  }

  lemma GapBookingMinutes(b: Booking)
    requires b.date != ""
    requires ToMinutes(b.startTime) == Some(9 * 60 + 45) && ToMinutes(b.endTime) == Some(10 * 60)
    ensures var w := TimeSlots(b.room, b.date, 2, [b]).windows[1];
            w == Window(Slots[1].start, Slots[2].end, false) && IsBooked([b], b.room, b.date, w.start, w.end)
  {
    WindowIsCandidate(b.room, b.date, 2, [b], 1);
    SlotReading(1);
    SlotReading(2);
    assert !Conflicts(b, b.room, b.date, Slots[1].start, Slots[1].end);
    assert !Conflicts(b, b.room, b.date, Slots[2].start, Slots[2].end);
    assert Conflicts(b, b.room, b.date, Slots[1].start, Slots[2].end);
  }

  /** The two-slot window from 09:00 (`Slots[1].start`) to 10:45 (`Slots[2].end`) is booked by an existing 09:30 to 10:15
      booking of the same room and date. */
  lemma MorningPairIsBooked(b: Booking)
    requires b.date != "" && b.startTime == "09:30" && b.endTime == "10:15"
    ensures TimeSlots(b.room, b.date, 2, [b]).windows[1] == Window(Slots[1].start, Slots[2].end, true)
  {
    MorningPairTimes(b.startTime, b.endTime);
    MorningPairMinutes(b);
  }

  lemma MorningPairTimes(start: string, end: string)
    requires start == "09:30" && end == "10:15"
    ensures ToMinutes(start) == Some(9 * 60 + 30) && ToMinutes(end) == Some(10 * 60 + 15)
  {
    assert start == ClockText(9, 30) && end == ClockText(10, 15);
    ClockTextReading(9, 30);
    ClockTextReading(10, 15);
  }

  lemma MorningPairMinutes(b: Booking)
    requires b.date != ""
    requires ToMinutes(b.startTime) == Some(9 * 60 + 30) && ToMinutes(b.endTime) == Some(10 * 60 + 15)
    ensures TimeSlots(b.room, b.date, 2, [b]).windows[1] == Window(Slots[1].start, Slots[2].end, true)
  {
    WindowIsCandidate(b.room, b.date, 2, [b], 1);
    SlotReading(1);
    assert Conflicts(b, b.room, b.date, Slots[1].start, Slots[1].end);
    assert IsBooked([b], b.room, b.date, Slots[1].start, Slots[1].end);
  }
}
