# Room booking: availability engine and reservation store

A Dafny model of the two pieces of decision logic in a small room-booking web
application.

- **Availability engine** (Booking.js). The page holds a fixed template of eight
  time slots. For a chosen room, date and duration (one slot, or two neighbouring
  slots), `generateTimeSlots` builds one candidate window per slot or per pair of
  neighbouring slots. It marks a window booked when any slot in it overlaps a stored
  booking of the same room and date. `isBooked` is the overlap test. It reads "HH:MM"
  text with `toDecimal` and uses the strict half-open rule `s < be && e > bs`. No
  windows are shown until a date is picked.
- **Reservation store** (Server.js). The server keeps all bookings as one JSON array
  in a file. `readBookings` falls back to an empty list when the file cannot be read
  or parsed. GET returns the list. POST checks four required fields, appends the
  booking and rewrites the file. DELETE reads the position with `parseInt`,
  range-checks it, splices that element out and rewrites the file.

Modules, one file each:

- `Wrappers`: `Option`.
- `Numerals`: JavaScript `Number` and `parseInt(…, 10)` on decimal text, and the
  decimal rendering of an index.
- `Clock`: `split(':')` and `toDecimal`. A reading is kept both as an exact `real`
  number of hours and as whole minutes.
- `Reservations`: the stored booking record.
- `Availability`: the slot template, `isBooked` and `generateTimeSlots`.
  `GenerateTimeSlots` is a method with the source's loop. It is proved equal to the
  specification function `TimeSlots`, and the lemmas are about `TimeSlots`.
- `Store`: the data file as a field of the class `BookingStore`. Its methods
  `Get`, `Post` and `Delete` are the handlers. They return the HTTP status and
  rewrite the field the way the handler rewrites the file.

NaN is modelled as `None`. Every comparison with NaN is false, so a stored booking
whose times cannot be read never conflicts with anything. The clock, the network and
the file system are not modelled. The page's `bookings` array is a parameter of the
engine, and whether a file write fails is a parameter of the handlers.

POST does not check `duration`: a body without one is stored without one
(`Store.Validate`). `readBookings` tells the caller nothing about a failed read: GET
answers 200 with the empty list (`Store.ReadBookings`, `Store.BookingStore.Get`).

## Model

| member | source | states |
|---|---|---|
| `Availability.Slots` | Booking.js:15-24 | the template of eight bookable slots, from 08:15 to 15:30, as "HH:MM" text |
| `Availability.TemplateIsOrdered` | Booking.js:15-24 | every template slot reads as a non-empty interval, and no slot starts before the previous one ends |
| `Availability.SlotReading` | Booking.js:15-24 | each template start and end time reads as its hour and minute in minutes |
| `Availability.MorningSlotsSpelled` | Booking.js:16-19 | the first four template slots are the "HH:MM" texts of their table entries' hours and minutes |
| `Availability.AfternoonSlotsSpelled` | Booking.js:20-23 | the last four template slots are the "HH:MM" texts of their table entries' hours and minutes; the template has eight slots |
| `Availability.SpelledReading` | Booking.js:15-24 | a slot spelled from a table entry reads as that entry's start and end minutes |
| `Availability.ClockTableOrdered` | Booking.js:15-24 | in the template's table of hours and minutes, each slot ends after it starts and the next slot starts no earlier than it ends |
| `Availability.SlotsInOrder` | Booking.js:15-24 | the whole template is in order: every slot is a readable non-empty interval, and each starts no earlier than its predecessor ends |
| `Clock.Split` | Booking.js:27 | `split(':')` always yields at least one piece |
| `Clock.SplitWithoutSeparator` | Booking.js:27 | text without a colon splits into itself alone |
| `Clock.SplitAtSeparator` | Booking.js:27 | "x:y", with no colon in x or y, splits into exactly x and y |
| `Numerals.NumberValue` | Booking.js:27 | `Number` of a part is defined exactly when the part is all digits; the empty part reads as 0 |
| `Clock.Reading` | Booking.js:27 | the split-then-`Number` parse gives an hour and a minute exactly when the text is well-formed: at least two pieces, the first two empty or all digits |
| `Clock.ToDecimal` | Booking.js:26-29 | `toDecimal` is NaN exactly when the text is not well-formed, and never negative otherwise |
| `Clock.ToMinutes` | Booking.js:26-29 | the minute reading is NaN exactly when the text is not well-formed, and never negative otherwise |
| `Clock.ClockReading` | Booking.js:26-29 | well-formed "HH:MM" reads as h*60 + m minutes |
| `Clock.ClockDecimal` | Booking.js:26-29 | well-formed "HH:MM" reads as h + m/60 hours, as `toDecimal` computes |
| `Clock.ClockText` | Booking.js:26-29 | the rendered "HH:MM" text of an hour and a minute is well-formed |
| `Clock.ClockTextReading` | Booking.js:26-29 | reading a rendered time gives back its hour and minute, both in minutes and in decimal hours |
| `Clock.MinutesAreScaledDecimal` | Booking.js:26-29 | the minute reading is NaN exactly when the decimal reading is, and otherwise equals 60 times it |
| `Clock.MinutesOrderMatchesDecimal` | Booking.js:26-29 | comparing minute readings with `<` or `==` gives the same answer as comparing `toDecimal` readings, in both directions |
| `Availability.Overlaps` | Booking.js:105 | a NaN reading on either side means no overlap; an overlap puts each interval's start before the other's end |
| `Availability.Conflicts` | Booking.js:102-105 | a booking conflicts only when it has the same room and date and all four times are well-formed |
| `Availability.IsBooked` | Booking.js:98-106 | `isBooked` is true iff some booking has the same room and date and strictly overlaps the interval |
| `Availability.OverlapIsSymmetric` | Booking.js:105 | the overlap relation between two intervals is symmetric |
| `Availability.TouchingIsNotOverlap` | Booking.js:105 | intervals that only touch at an end point do not overlap |
| `Availability.ForRoomAndDate` | Booking.js:102 | the filtered list holds only bookings of the given room and date and is no longer than the input |
| `Availability.OnlySameRoomAndDateMatter` | Booking.js:102 | bookings for another room or another date never change `isBooked` |
| `Availability.SomeSlotBooked` | Booking.js:72 | `slotRange.some(isBooked)` is true iff some slot of the range is booked |
| `Availability.CandidateWindow` | Booking.js:62-72 | the window from slot i runs from slot i's start to the last slot's end, and it is booked only if some booking has the same room and date |
| `Availability.TimeSlots` | Booking.js:53-64 | no date gives the date prompt; otherwise 8 windows for duration 1 and 7 for duration 2; window i starts at slot i and ends at slot i's end (duration 1) or slot i+1's end (duration 2) |
| `Availability.GenerateTimeSlots` | Booking.js:47-95 | the loop, with its early break for duration 2, produces exactly the windows of `TimeSlots` |
| `Availability.SlotRangeIsCandidate` | Booking.js:62-72 | the button built from `slotRange` has the candidate window's start, end and booked flag |
| `Availability.WindowBookedIff` | Booking.js:72 | a window is booked iff some booking of the same room and date conflicts with one of its constituent slots |
| `Availability.NoBookingsAllAvailable` | Booking.js:72 | with an empty booking list, every window is available |
| `Availability.ConflictWidens` | Booking.js:105 | a conflict with an interval remains a conflict with any wider interval |
| `Availability.SpanCovers` | Booking.js:98-106 | `isBooked` stays true when the tested interval is widened |
| `Availability.SlotInsideSpan` | Booking.js:62-72 | in any ordered template, a booking hitting one slot of a window hits the window's span |
| `Availability.CandidateOverlapsSpan` | Booking.js:62-72 | a booked candidate window overlaps some booking over its full span |
| `Availability.BookedWindowOverlapsSpan` | Booking.js:62-72 | a booked window overlaps some booking over its full span |
| `Availability.SpanConflictSplits` | Booking.js:105 | a non-empty booking that conflicts with a span conflicts with one of the span's two parts, split at any readable time |
| `Availability.AdjacentPairMatchesSpan` | Booking.js:62-72 | for two slots that meet, the slot-by-slot test equals the full-span test for non-empty bookings |
| `Availability.GapBookingIsNotSeen` | Booking.js:62-72 | a booking from 09:45 to 10:00 overlaps the 09:00-10:45 window's span, yet that window stays available |
| `Availability.GapBookingTimes` | Booking.js:26-29 | "09:45" and "10:00" read as 585 and 600 minutes |
| `Availability.GapBookingMinutes` | Booking.js:62-72 | the same as the lemma above, for any booking whose times read as 09:45 and 10:00 |
| `Availability.MorningPairIsBooked` | Booking.js:62-72 | a 09:30-10:15 booking marks the two-slot window 09:00-10:45 of that room and date as booked |
| `Availability.MorningPairTimes` | Booking.js:26-29 | "09:30" and "10:15" read as 570 and 615 minutes |
| `Availability.MorningPairMinutes` | Booking.js:62-72 | the same as the lemma above, for any booking whose times read as 09:30 and 10:15 |
| `Store.ReadBookings` | Server.js:23-31 | the stored list for a parsable file; the empty list for a missing, unreadable, blank or malformed file; never fails |
| `Store.BookingStore.constructor` | Server.js:17-21 | a missing data file starts out holding an empty list; any other file is kept |
| `Store.BookingStore.Get` | Server.js:42-50 | GET answers 200 with what `readBookings` gives and changes nothing |
| `Store.GetTwice` | Server.js:43-46 | two GETs with no write between them return equal lists |
| `Store.Truthy` | Server.js:57 | an absent or empty text property is falsy; a truthy one is non-empty |
| `Store.Validate` | Server.js:57-59 | a body is accepted iff it exists and has a non-empty room, date, start time and end time; duration is not required; the accepted record is the body as sent |
| `Store.BookingStore.Post` | Server.js:53-70 | 400 and no change for an invalid body; 201 with the new list equal to the old one with the booking appended; 500 and no change on a write failure |
| `Store.PostThenGet` | Server.js:61-65 | after a valid POST, a GET lists the old bookings in order, then the new one last |
| `Store.DoubleBookingIsStored` | Server.js:61-63 | a booking that overlaps a stored one for the same room and date is still accepted and stored |
| `Numerals.LeadingDigits` | Server.js:75 | the longest run of leading digits: all digits, and the next character is not a digit |
| `Numerals.ParseInt` | Server.js:75 | `parseInt` gives a number iff a digit follows an optional sign |
| `Numerals.ShowNat` | Booking.js:135 | the rendering of an index is a non-empty run of decimal digits |
| `Numerals.ShowNatValue` | Booking.js:135 | the digits of a rendered number read back as that number |
| `Numerals.LeadingDigitsOfRun` | Server.js:75 | the digit prefix of digits followed by a non-digit is exactly those digits |
| `Numerals.ParseIntShowNat` | Server.js:75 | `parseInt` of a rendered index, followed by any non-digit text, is that index |
| `Numerals.ParseIntNegative` | Server.js:75 | `parseInt` of "-n" is -n |
| `Store.RemoveAt` | Server.js:80 | splice leaves one fewer element: earlier ones keep their positions, later ones move down by one, and only the removed element is lost |
| `Store.InRange` | Server.js:77 | an index is rejected exactly when it is NaN, negative, or not below the length |
| `Store.BookingStore.Delete` | Server.js:73-88 | 400 and no change for NaN, negative or too-large indexes; otherwise 200 with `old[index]` and the list without it; 500 and no change on a write failure |
| `Store.CancelRow` | Server.js:75-83 | deleting by the rendered index of row i removes exactly booking i and keeps the others in order |
| `Store.DeleteBoundaries` | Server.js:77-80 | on a one-element list, indexes -1 and 1 are rejected with 400 and index 0 empties the list |

## Left out

- The DOM work of the page is not modelled: buttons, CSS classes, click handlers, alert and confirm dialogs, and the bookings table (`displayBookings`). The view is only the list of windows with their booked flags, or the date prompt.
- `fetchBookings`, `bookSlot` and `cancelBooking` are not modelled, because they are asynchronous network calls. The page's `bookings` array, which `fetchBookings` reassigns, is a parameter of the engine instead.
- The Express set-up (JSON body parsing, CORS, static files, `listen`) and Start.js are not modelled. They are framework wiring and process start-up.
- File I/O and JSON text are not modelled. The file is one of five states. A file whose JSON parses to something other than an array is not modelled. A failed write is a boolean parameter, and the model assumes it leaves the file as it was (partial writes are not modelled).
- Concurrency is not modelled. Two requests interleaving their read-modify-write can lose an update in the server; here each handler runs atomically.
- `Clock.ToDecimal`: uses exact real arithmetic, not IEEE-754 doubles. The availability checks compare whole minutes, which gives the same order for readable times.
- `Numerals.NumberValue`: reads only the empty text and plain digit runs. Text that JavaScript's `Number` also accepts is read as NaN here: surrounding whitespace, a sign, a decimal point, an exponent, hexadecimal, `Infinity`.
- `Numerals.ParseInt`: does not skip leading whitespace, which JavaScript's `parseInt` does.
- `Store.Validate`: request properties are modelled as text or absent. Truthiness of other JSON values (numbers, booleans, null) is not modelled, and neither are extra properties of a body.
- `Availability.GenerateTimeSlots`: requires a duration of 1 or 2, the only values the page's duration select offers. For other values the source reads past the end of the template.
- The 500 branch of GET is not modelled. `readBookings` never throws, and a failure while sending the response is outside the model.
