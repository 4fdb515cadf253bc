/** The booking form's submission, the two collections of the document store,
    the handlers that write to them, and the sorted lists the view shows.

    The store's collections are sequences; a tee-time document's id is its
    position in the append-only `teeTimes` collection. The current date, the
    current instant and whether a store operation succeeds are parameters.
 */
module Booking {
  import opened Wrappers
  import opened Calendar
  import opened Ordering
  import opened TeeTimes
  import opened Courses

  /** The course selector's value for "-- Add a New Course --". */
  const AddNew: string := "add_new"

  /** The form's inputs; `None` stands for an empty date or time field. */
  datatype Form = Form(
    selectedCourse: string,
    newCourse: string,
    date: Option<Date>,
    time: Option<Clock>,
    spots: int)

  datatype Rejection = MissingFields | PastDate

  datatype SubmitOutcome = Rejected(reason: Rejection) | CourseNotSaved | Posted

  /** The course the form names: the trimmed new name, or the selected one. */
  function CourseName(f: Form): string
  {
    if f.selectedCourse == AddNew then Trim(f.newCourse) else f.selectedCourse
  }

  /** Every field filled in (`spots` of 0 counts as empty, as a falsy number). */
  predicate Filled(f: Form)
  {
    CourseName(f) != "" && f.date.Some? && f.time.Some? && f.spots != 0
  }

  /** The form's checks, in order: every field filled, then a date not before
      today; what passes is the tee time to post. */
  function Validate(f: Form, today: Date): (r: Result<TeeTimeData, Rejection>)
    ensures r.Success? <==> Filled(f) && !DateBefore(f.date.value, today)
    ensures r == Failure(MissingFields) <==> !Filled(f)
    ensures r == Failure(PastDate) <==> Filled(f) && DateBefore(f.date.value, today)
    ensures r.Success? ==> r.value == TeeTimeData(CourseName(f), f.date.value, f.time.value, f.spots)
  {
    if !Filled(f) then Failure(MissingFields)
    else if DateBefore(f.date.value, today) then Failure(PastDate)
    else Success(TeeTimeData(CourseName(f), f.date.value, f.time.value, f.spots))
  }

  /** A new course name of white space alone is a missing field. */
  lemma BlankNewCourseRejected(f: Form, today: Date)
    requires f.selectedCourse == AddNew && AllSpace(f.newCourse)
    ensures Validate(f, today) == Failure(MissingFields)
  {
    TrimEmpty(f.newCourse);
  }

  /** Today's date is accepted, every earlier one rejected. */
  lemma TodayAccepted(f: Form, today: Date)
    requires Filled(f)
    ensures f.date.value == today ==> Validate(f, today).Success?
    ensures DateBefore(f.date.value, today) ==> Validate(f, today) == Failure(PastDate)
  {
    DateBeforeIsStrictOrder(today, today, today);
  }

  /** The past-date check as the code writes it: a date-only string is read as
      midnight UTC, `new Date().toDateString()` as local midnight of today.
      `utcOffset` is local time minus UTC, in minutes. East of UTC (and at
      UTC) this is the intended check; west of UTC it also refuses today. */
  predicate PastDateAsWritten(date: Date, today: Date, utcOffset: int)
    ensures ValidDate(date) && ValidDate(today) && 0 <= utcOffset < 1440 ==>
              (PastDateAsWritten(date, today, utcOffset) <==> DateBefore(date, today))
    ensures ValidDate(date) && ValidDate(today) && -1440 < utcOffset < 0 ==>
              (PastDateAsWritten(date, today, utcOffset) <==> DateBefore(date, today) || date == today)
  {
    var past := DayNumber(date) * 1440 < DayNumber(today) * 1440 - utcOffset;
    if ValidDate(date) && ValidDate(today) then
      DayNumberOrder(date, today);
      past
    else past
  }

  /** As written, today's own date is refused wherever local time is behind
      UTC, although it is not a past date. */
  lemma TodayRejectedAsWritten(today: Date, utcOffset: int)
    ensures PastDateAsWritten(today, today, utcOffset) <==> utcOffset < 0
    ensures !DateBefore(today, today)
  {
  }

  lemma TodayRejectedAsWrittenExample()
    ensures var today := Date(2026, 10, 14);
            PastDateAsWritten(today, today, -240) && !DateBefore(today, today)
  {
    TodayRejectedAsWritten(Date(2026, 10, 14), -240);
  }

  /** Whether the course step lets the submission go on: the store answers,
      and either the name is already stored or a signed-in user can be
      recorded as `addedBy`. */
  predicate CourseSaved(courses: seq<Course>, name: string, user: UserId, storeUp: bool)
  {
    storeUp && (HasCourse(courses, name) || user != "")
  }

  /** A tee time shown in the list, with the id its claim button refers to. */
  datatype Listing = Listing(id: nat, slot: TeeTime)

  /** The snapshot of the tee-time collection, each document with its id. */
  function Listings(ts: seq<TeeTime>): (ls: seq<Listing>)
    ensures |ls| == |ts|
    ensures forall i :: 0 <= i < |ts| ==> ls[i] == Listing(i, ts[i])
  {
    seq(|ts|, i requires 0 <= i < |ts| => Listing(i, ts[i]))
  }

  function ListingKey(l: Listing): seq<int>
  {
    StartKey(l.slot)
  }

  /** The document store's two collections. */
  class Store {
    var courses: seq<Course>
    var teeTimes: seq<TeeTime>

    /** What the application's own writes keep: course names are distinct
        (without concurrent registrations), and every tee time has its
        creator first and no duplicate player. */
    ghost predicate Valid()
      reads this
    {
      UniqueNames(courses) && forall t :: t in teeTimes ==> WellFormed(t)
    }

    /** No tee time has more players than spots. */
    ghost predicate NoneOverbooked()
      reads this
    {
      forall t :: t in teeTimes ==> WithinCapacity(t)
    }

    constructor ()
      ensures Valid() && NoneOverbooked()
      ensures courses == [] && teeTimes == []
    {
      courses := [];
      teeTimes := [];
    }

    /** `handleAddTeeTime`: without a signed-in user nothing is written and
        "not ready" is reported; a failed write is only logged. */
    method AddTeeTime(data: TeeTimeData, user: UserId, storeUp: bool) returns (ready: bool)
      requires Valid()
      modifies this
      ensures Valid()
      ensures ready <==> user != ""
      ensures courses == old(courses)
      ensures teeTimes == if ready && storeUp then old(teeTimes) + [Create(data, user)] else old(teeTimes)
      ensures old(NoneOverbooked()) && data.totalSpots >= 1 ==> NoneOverbooked()
    {
      ready := user != "";
      if ready && storeUp {
        teeTimes := teeTimes + [Create(data, user)];
      }
    }

    /** `handleClaimSpot`: `arrayUnion` of the user into the document's
        players; nothing happens without a user or for an unknown id. */
    method ClaimSpot(id: nat, user: UserId)
      requires Valid()
      modifies this
      ensures Valid()
      ensures courses == old(courses)
      ensures teeTimes == if user != "" && id < |old(teeTimes)|
                          then old(teeTimes)[id := Claim(old(teeTimes)[id], user)]
                          else old(teeTimes)
    {
      if user != "" && id < |teeTimes| {
        teeTimes := teeTimes[id := Claim(teeTimes[id], user)];
      }
    }

    /** The card's claim button: shown and enabled only when the slot is not
        past, not full and not joined; pressing it runs `handleClaimSpot`. */
    method ClaimFromCard(id: nat, user: UserId, now: Moment)
      requires Valid()
      modifies this
      ensures Valid()
      ensures courses == old(courses)
      ensures teeTimes == if id < |old(teeTimes)|
                          then old(teeTimes)[id := GuardedClaim(old(teeTimes)[id], user, now)]
                          else old(teeTimes)
      ensures old(NoneOverbooked()) ==> NoneOverbooked()
    {
      if id < |teeTimes| && ClaimEnabled(teeTimes[id], user, now) {
        ClaimSpot(id, user);
      }
    }

    /** The course step of the submission: query by exact name, add the
        course only when the query is empty. */
    method RegisterCourse(name: string, user: UserId, storeUp: bool) returns (saved: bool)
      requires Valid()
      modifies this
      ensures Valid()
      ensures saved == CourseSaved(old(courses), name, user, storeUp)
      ensures courses == if saved then Register(old(courses), name, user) else old(courses)
      ensures teeTimes == old(teeTimes)
    {
      if !storeUp {
        return false;
      }
      var known := HasCourse(courses, name);
      if !known {
        if user == "" {
          return false;
        }
        courses := courses + [Course(name, user)];
      }
      saved := true;
    }

    /** `handleSubmit`: validate, register a new course, then post. */
    method Submit(f: Form, user: UserId, today: Date, courseStoreUp: bool, teeTimeStoreUp: bool)
      returns (outcome: SubmitOutcome)
      requires Valid()
      modifies this
      ensures Valid()
      ensures Validate(f, today).Failure? ==>
                outcome == Rejected(Validate(f, today).error)
                && courses == old(courses) && teeTimes == old(teeTimes)
      ensures Validate(f, today).Success? && f.selectedCourse == AddNew
              && !CourseSaved(old(courses), CourseName(f), user, courseStoreUp) ==>
                outcome == CourseNotSaved && courses == old(courses) && teeTimes == old(teeTimes)
      ensures outcome == Posted <==>
                Validate(f, today).Success?
                && (f.selectedCourse == AddNew ==> CourseSaved(old(courses), CourseName(f), user, courseStoreUp))
      ensures outcome == Posted ==>
                courses == (if f.selectedCourse == AddNew then Register(old(courses), CourseName(f), user) else old(courses))
                && teeTimes == (if user != "" && teeTimeStoreUp
                                then old(teeTimes) + [Create(Validate(f, today).value, user)]
                                else old(teeTimes))
      ensures old(NoneOverbooked()) && f.spots >= 1 ==> NoneOverbooked()
    {
      var checked := Validate(f, today);
      if checked.Failure? {
        return Rejected(checked.error);
      }
      var data := checked.value;
      if f.selectedCourse == AddNew {
        var saved := RegisterCourse(data.course, user, courseStoreUp);
        if !saved {
          return CourseNotSaved;
        }
      }
      var _ := AddTeeTime(data, user, teeTimeStoreUp);
      outcome := Posted;
    }

    /** The tee-time snapshot handler: every document with its id, ascending
        by date and time. */
    method TeeTimeView() returns (view: seq<Listing>)
      ensures multiset(view) == multiset(Listings(teeTimes))
      ensures forall i, j :: 0 <= i < j < |view| ==>
                !StartBefore(view[j].slot.date, view[j].slot.time, view[i].slot.date, view[i].slot.time)
      ensures forall l :: l in view ==> l.id < |teeTimes| && teeTimes[l.id] == l.slot
    {
      var snapshot := Listings(teeTimes);
      var a := new Listing[|snapshot|](i requires 0 <= i < |snapshot| => snapshot[i]);
      assert a[..] == snapshot;
      SortByKey(a, ListingKey);
      view := a[..];
      forall i, j | 0 <= i < j < |view|
        ensures !StartBefore(view[j].slot.date, view[j].slot.time, view[i].slot.date, view[i].slot.time)
      {
        StartKeyOrder(view[i].slot, view[j].slot);
      }
      forall l | l in view ensures l.id < |teeTimes| && teeTimes[l.id] == l.slot {
        assert l in multiset(snapshot);
      }
    }

    /** The course snapshot handler: every course, ascending by name. */
    method CourseView() returns (view: seq<Course>)
      ensures multiset(view) == multiset(courses)
      ensures SortedBy(view, NameKey)
    {
      var a := new Course[|courses|](i requires 0 <= i < |courses| reads this => courses[i]);
      assert a[..] == courses;
      SortByKey(a, NameKey);
      view := a[..];
    }
  }

  /** Two users register the same new name, one after the other, in a fresh
      store: one record is stored, added by the first. */
  method RegisterSameNameTwice(name: string, first: UserId, second: UserId)
    returns (stored: seq<Course>)
    requires first != ""
    ensures stored == [Course(name, first)]
  {
    var store := new Store();
    var saved := store.RegisterCourse(name, first, true);
    saved := store.RegisterCourse(name, second, true);
    RegisterTwice([], name, first, second);
    stored := store.courses;
  }
}
