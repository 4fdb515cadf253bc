# Golf tee-time booking: a verified model of its domain logic

The application is a single-page booking UI for golf tee times, backed by a
hosted document store. A tee time has a course, a date, a time, a number of
spots and a list of players. Its creator is the first player, and other users
claim the open spots. Courses form a registry that is deduplicated by name
when a course is added. This project models that logic in Dafny and proves
what the code promises about it:

- `Formatting`: `formatTime` (24-hour `HH:MM` to `h:mm AM/PM`) and the "N/A"
  case of `formatDate`.
- `Calendar`: dates and times as integer tuples and their order. It also has
  the proleptic Gregorian day count and the millisecond time values that
  `Date` comparisons use: the card's `isPast` and the as-written past-date
  check (see Findings).
- `Ordering`: lexicographic order on integer sequences, and the in-place
  array sort that both snapshot handlers run.
- `TeeTimes`: the `TeeTime` record. It covers creation, the data-layer claim
  (`arrayUnion`), the claim that the card's button lets through, and what
  each card derives (`availableSpots`, `isFull`, `hasJoined`, `isPast`).
- `Courses`: course records, `String.prototype.trim`, and check-then-insert
  registration.
- `Booking`: the form's validation and a `Store` class whose two sequence
  fields are the `courses` and `tee_times` collections. Its methods are
  `handleSubmit`, `handleAddTeeTime`, `handleClaimSpot`, the card's claim
  button and the two snapshot sorts.

Modelling conventions:

- A user id is a string, and the empty string stands for "no signed-in user".
  The code tests `userId` for truthiness, so a null id and an empty one
  behave alike (`!userId`, `userId && …`).
- The "database not ready" condition is folded into that same empty id.
- A document without a `players` field behaves exactly like one whose
  `players` is empty. This holds for every derivation (`?.length || 0`,
  `?.includes`), so `players` is always a sequence.
- Form fields are modelled as follows. An empty date or time field is `None`.
  `spots` is an integer, and 0 stands for the falsy case. Dates are
  `(year, month, day)` and times `(hour 0..23, minute 0..59)`.
- The current date is a parameter, and so is the current instant (a `Moment`
  with the milliseconds past the minute). Whether a store operation succeeds
  is a boolean parameter.
- A tee-time document's id is its position in the append-only collection.

## Model

| member | source | states |
|---|---|---|
| Formatting.FormatDate | src/App.js:8-13 | an empty date shows "N/A"; any other date shows whatever the locale renders |
| Formatting.DecimalText | src/App.js:23 | a number is shown as decimal digits: one digit below 10, two below 100 |
| Formatting.DecimalTextRoundTrip | src/App.js:23 | the shown digits read back to the number |
| Formatting.DisplayHour | src/App.js:21 | the displayed hour is in 1..12 and agrees with the 24-hour hour modulo 12 (so 0 and 12 show as 12) |
| Formatting.Meridiem | src/App.js:20 | the suffix is "AM" or "PM", and "PM" exactly when the hour is 12 or more |
| Formatting.MinuteText | src/App.js:22 | minutes take exactly two digits that read back to the minute, with a leading zero below 10 |
| Formatting.FormatTime | src/App.js:15-24 | an empty time gives "N/A"; any other time gives `h:mm XM`: the hour digits read as the 12-hour hour and carry no leading zero (one digit exactly below 10), the two minute digits read as the minute, and the suffix is PM exactly from noon |
| Formatting.FormatTimeRoundTrip | src/App.js:15-24 | reading the display back, with a reader that refuses a zero-padded hour, recovers the time (and "N/A" reads back as no time) |
| Formatting.FormatTimeInjective | src/App.js:15-24 | two different times never display the same |
| Formatting.FormatTimeMidnightExample | src/App.js:15-24 | 00:05 shows as "12:05 AM" |
| Formatting.FormatTimeAfternoonExample | src/App.js:15-24 | 14:30 shows as "2:30 PM" |
| Calendar.DateBeforeIsStrictOrder | src/App.js:50 | "before" on dates is irreflexive, asymmetric, transitive and total |
| Calendar.StartBeforeIsStrictOrder | src/App.js:205 | "before" on (date, time) starts is a strict total order |
| Calendar.DayNumberEpoch | src/App.js:50 | the day count starts at 1970-01-01, and 2000-03-01 (after a leap day) is day 11017 |
| Calendar.DaysBeforeYearStep | src/App.js:50 | January 1 of the next year is 366 days later in a leap year and 365 days later otherwise |
| Calendar.DayNumberOrder | src/App.js:50 | on valid dates a day is earlier exactly when its day number is smaller, and two days are equal exactly when their numbers are |
| Calendar.BeforeMomentAsMillis | src/App.js:280 | a start lies before the current instant exactly when its time value in milliseconds is smaller than the instant's |
| Ordering.LexLeReflexive | src/App.js:205 | every key is at most itself |
| Ordering.LexLeTotal | src/App.js:205 | any two keys are comparable |
| Ordering.LexLeTransitive | src/App.js:205 | key order is transitive |
| Ordering.LexLeAntisymmetric | src/App.js:214 | keys that are each at most the other are equal |
| Ordering.LexLeCons | src/App.js:205 | comparing keys compares heads first and then tails |
| Ordering.LexLeIsTotalOrder | src/App.js:205 | the key order is reflexive, total, transitive and antisymmetric on all sequences, so it is a total order |
| Ordering.SortByKey | src/App.js:205 | after the in-place sort the array is ascending by key and is a permutation of what it held before |
| TeeTimes.Create | src/App.js:231-235 | the new tee time keeps the submitted fields; its players are exactly [creator] and its creatorId is the creator; it is well formed; it is within capacity iff totalSpots >= 1 |
| TeeTimes.Claim | src/App.js:246-247 | a union append: other fields unchanged; the players become the old ones plus the claimer; earlier players keep their order; one is added only if absent; no duplicate is introduced; well-formedness is kept; there is no capacity check |
| TeeTimes.CardState | src/App.js:277-279 | availableSpots + players = totalSpots; isFull iff players >= totalSpots; hasJoined iff a signed-in user is a player |
| TeeTimes.PastState | src/App.js:280 | a card is past exactly when its `date`T`time` start, in milliseconds, is before the current instant |
| TeeTimes.IsPastMonotone | src/App.js:280 | a card that is past at some instant is past at every later instant |
| TeeTimes.ClaimTakesOneSpot | src/App.js:247 | a claim lowers availableSpots by one exactly when the claimer was new; afterwards the claimer hasJoined |
| TeeTimes.ClaimIdempotent | src/App.js:246-247 | claiming twice equals claiming once, and an existing player's claim changes nothing |
| TeeTimes.GuardedClaim | src/App.js:306-310 | the button-gated claim keeps the capacity bound and well-formedness; it appends the user exactly when the slot is not past, not full and not joined and a user is signed in; otherwise nothing changes |
| TeeTimes.GuardedClaimsKeepCapacity | src/App.js:306-310 | after any sequence of button-gated claims the tee time is still within capacity and well formed |
| TeeTimes.ClaimsKeepPlayers | src/App.js:246-247 | after any sequence of data-layer claims there are no duplicates, earlier players are still in place, and the players are exactly the old ones plus the claimers |
| TeeTimes.UnguardedClaimCanOverbook | src/App.js:247 | a full tee time still takes a new player through the data-layer write |
| TeeTimes.PineValleyScenario | src/App.js:231-247 | posting for four leaves 3 spots; a second user's claim leaves 2; the creator claiming again changes nothing |
| TeeTimes.StartKey | src/App.js:205 | a slot's sort key has five parts, date (year, month, day) before time (hour, minute) |
| TeeTimes.StartKeyMatchesComparator | src/App.js:205 | on valid dates a slot's key is at most another's exactly when the comparator's difference of start time values is not positive |
| TeeTimes.StartKeyOrder | src/App.js:205 | ascending key order is exactly "does not start later" |
| TeeTimes.NineBeforeTen | src/App.js:205 | on the same date, 09:00 sorts before 10:00 |
| Courses.LeadingSpace | src/App.js:43 | counts the leading white space, which is followed by a non-space or by the end of the string |
| Courses.TrailingSpace | src/App.js:43 | counts the trailing white space, which is preceded by a non-space or by the start of the string |
| Courses.Trim | src/App.js:43 | the result is a contiguous part of the name with only white space around it, and it neither starts nor ends with white space |
| Courses.TrimEmpty | src/App.js:43-46 | a name trims to empty iff it is all white space |
| Courses.TrimIdempotent | src/App.js:43 | trimming twice is trimming once |
| Courses.TrimFixesTrimmed | src/App.js:43 | a name without white space at its ends is left unchanged |
| Courses.Register | src/App.js:60-69 | afterwards the name is stored; the old records are kept; one record (name, user) is appended exactly when no course had that exact name; distinct names are preserved |
| Courses.NamedCountZero | src/App.js:60-63 | no record has the name iff the query for it comes back empty |
| Courses.RegisterTwice | src/App.js:60-69 | registering a new name twice, by any users, stores exactly one record for it, added by the first user |
| Courses.RegisterIdempotent | src/App.js:60-69 | registering again changes nothing |
| Courses.NameKey | src/App.js:214 | a course's sort key is the character codes of its name |
| Courses.NameKeyInjective | src/App.js:214 | courses with equal keys have equal names |
| Booking.Validate | src/App.js:43-53 | it rejects with "missing fields" iff the course name, date, time or spots is empty, then with "past date" iff the date is before today; otherwise it yields the trimmed or selected course with the form's date, time and spots |
| Booking.BlankNewCourseRejected | src/App.js:43-48 | a new course name made only of white space counts as a missing field |
| Booking.TodayAccepted | src/App.js:50-53 | today's date passes the past-date check and every earlier date fails it |
| Booking.PastDateAsWritten | src/App.js:50 | the as-written check on valid dates: at UTC or east of it (offset 0..1439 minutes) it refuses exactly the dates before today; west of UTC (offset -1439..-1) it refuses those and today as well |
| Booking.TodayRejectedAsWritten | src/App.js:50 | as written, today's date is rejected exactly when local time is behind UTC |
| Booking.TodayRejectedAsWrittenExample | src/App.js:50 | at UTC-4 the as-written check rejects 2026-10-14 on 2026-10-14 |
| Booking.Listings | src/App.js:204 | the snapshot lists every document with its id, in store order |
| Booking.Store.AddTeeTime | src/App.js:227-240 | without a signed-in user it reports not-ready and writes nothing; otherwise it appends the created tee time (unless the write fails) and nothing else changes; it keeps the invariants, and the capacity bound when totalSpots >= 1 |
| Booking.Store.ClaimSpot | src/App.js:242-251 | with a signed-in user and an existing id, exactly that document becomes its data-layer claim; otherwise nothing changes; it keeps the invariants but not the capacity bound |
| Booking.Store.ClaimFromCard | src/App.js:306-310 | the document becomes its button-gated claim, nothing else changes, and the capacity bound is preserved |
| Booking.Store.RegisterCourse | src/App.js:57-75 | the course step succeeds iff the store answers and either the name exists or a user can be recorded; on success the registry becomes Register(old, name, user), otherwise nothing changes |
| Booking.Store.Submit | src/App.js:41-80 | a rejected form writes nothing; a failed course save writes nothing and aborts the post; otherwise the registry gets the new course (when one is added) and the tee-time collection gets the created record |
| Booking.Store.TeeTimeView | src/App.js:203-206 | the view is a permutation of the snapshot, ascending by (date, time); every entry's id points at its document |
| Booking.Store.CourseView | src/App.js:212-215 | the view is a permutation of the courses, ascending by name |
| Booking.RegisterSameNameTwice | src/App.js:60-69 | two registrations of one new name in a fresh store leave exactly one record, added by the first user |

## Left out

- Firebase initialisation, config parsing and authentication (src/App.js:157-192) are left out. They are calls into a foreign SDK. The signed-in user is a parameter.
- The live `onSnapshot` subscriptions, their teardown and the loading flag (src/App.js:196-223) are left out. The snapshot handlers' mapping and sorting are modelled, as `TeeTimeView` and `CourseView`, over the current store.
- Concurrency is left out: two users claiming the last spot at once, and the race in course dedup. Every operation runs alone. The relevant fact is kept: the data-layer claim has no capacity check (`UnguardedClaimCanOverbook`).
- Booking.Store.ClaimFromCard evaluates the button's guard on the current store. The view evaluates it on the last snapshot it received, which may be stale.
- `formatDate` beyond "N/A" is not modelled. It depends on the browser locale's `toLocaleDateString`, which is a function parameter here.
- `localeCompare` is replaced by character-code lexicographic order.
- JavaScript `Date` parsing is replaced by integer (date, time) tuples and an explicit current instant. The day-count lemmas assume valid dates, which is all an `<input type="date">` yields. The past-date check of src/App.js:50 is also modelled as written, because it misbehaves (see Findings).
- Booking.Validate and Booking.Store.Submit use the intended past-date check, not the as-written one. At a negative UTC offset they therefore accept today's date, which the program refuses. The as-written behaviour is stated by Booking.PastDateAsWritten and Booking.TodayRejectedAsWritten.
- Daylight-saving changes are not modelled: the as-written check takes one fixed UTC offset.
- Booking.Store.TeeTimeView: the contract does not state that slots with the same start keep their snapshot order. `Array.prototype.sort` is stable, but the model proves only ascending order and permutation.
- Booking.Store.CourseView: the contract does not state that courses with the same name keep their snapshot order, for the same reason.
- `formatTime` is modelled only on well-formed times. Its input is a parsed `(hour, minute)`, or absent. What `parseInt` does to malformed strings is not modelled, because the time input always supplies `HH:MM`.
- `Number(spots)` yielding `NaN` is not modelled. The spots selector only offers 2, 3 and 4, so `spots` is an integer where 0 is the falsy value.
- Failures are modelled as follows:
  - A failed course query and a failed course write are one boolean, since either aborts the post the same way.
  - A failed tee-time write is a boolean.
  - A failed claim write behaves like an unknown id: nothing changes.
- The code reads two user ids: `addedBy` comes from `auth.currentUser.uid`, while `handleAddTeeTime` uses the `userId` state. The model uses one user for both.
- Server timestamps (`createdAt`) and store-assigned document ids are not modelled. Ids are positions in the append-only collection.
- JSX rendering, modal open and close state, error-message strings and `console.error` logging are left out.
- src/index.js only mounts the React root. It has no logic, so it is not part of this model.

## Findings

| source | as written | input that shows it | evidently intended | confidence | as-written member | corrected member |
|---|---|---|---|---|---|---|
| src/App.js:50 | `new Date(date)` reads the `YYYY-MM-DD` string as midnight UTC. `new Date(new Date().toDateString())` is local midnight of today. So the past-date check compares two different clocks. | date = today = 2026-10-14 with local time at UTC-4: UTC midnight of the 14th is 20:00 on the 13th locally, which is before local midnight of the 14th, so the submission is refused as "in the past" | reject only dates strictly before today's calendar date; today's own date is accepted in every time zone | high; not executed | Booking.TodayRejectedAsWritten | Booking.Validate |
