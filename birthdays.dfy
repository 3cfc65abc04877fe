/** What `display_upcoming_birthdays` computes, as a specification: which
    contacts are due, the list the loop builds, and the exception it raises
    on a birthday it cannot place in the current year. */
module Birthdays {
  import opened Wrappers
  import opened Calendar
  import opened Seqs
  import opened Records

  /** The two ValueErrors of the loop: strptime refusing the stored text, and
      `replace(year=...)` refusing 29 February in a common year. */
  datatype BirthdayError = MalformedBirthday(birthday: string) | NoLeapDay(birthday: string)

  /** `datetime.strptime(birthday, "%Y-%m-%d").replace(year=year)`. */
  function BirthdayIn(birthday: string, year: int): (r: Result<Date, BirthdayError>)
    requires MinYear <= year <= MaxYear
    ensures r.Success? ==> ValidDate(r.value) && r.value.year == year
  {
    match ParseIsoDate(birthday)
    case None => Failure(MalformedBirthday(birthday))
    case Some(b) =>
      if b.month == 2 && b.day == 29 && !IsLeapYear(year) then Failure(NoLeapDay(birthday))
      else Success(Date(year, b.month, b.day))
  }

  /** `replace(year=year)` keeps the parsed month and day, and fails exactly
      when that day does not exist in `year`; only 29 February can fail. */
  lemma BirthdayInMovesYear(birthday: string, year: int)
    requires MinYear <= year <= MaxYear
    ensures BirthdayIn(birthday, year).Success? <==>
            ParseIsoDate(birthday).Some? && ValidDate(ParseIsoDate(birthday).value.(year := year))
    ensures BirthdayIn(birthday, year).Success? ==>
            BirthdayIn(birthday, year).value == ParseIsoDate(birthday).value.(year := year)
    ensures BirthdayIn(birthday, year) == Failure(NoLeapDay(birthday)) ==>
            ParseIsoDate(birthday).value.month == 2 && ParseIsoDate(birthday).value.day == 29
  {
  }

  /** The loop's test `0 <= (this_year_birthday - today).days < days`. */
  predicate Due(c: Contact, now: Instant, days: int)
    requires ValidInstant(now)
  {
    match BirthdayIn(c.birthday, now.date.year)
    case Success(b) => 0 <= DaysFrom(now, b) < days
    case Failure(_) => false
  }

  /** The loop's test as a function value, for filtering. */
  function DueTest(now: Instant, days: int): Contact -> bool
    requires ValidInstant(now)
  {
    c => Due(c, now, days)
  }

  /** What the loop returns or raises after the first `|cs|` contacts. */
  function Upcoming(cs: seq<Contact>, now: Instant, days: int): (r: Result<seq<Contact>, BirthdayError>)
    requires ValidInstant(now)
  {
    if cs == [] then Success([])
    else
      match Upcoming(cs[..|cs| - 1], now, days)
      case Failure(e) => Failure(e)
      case Success(found) =>
        var c := cs[|cs| - 1];
        if BirthdayIn(c.birthday, now.date.year).Failure? then Failure(BirthdayIn(c.birthday, now.date.year).error)
        else Success(if Due(c, now, days) then found + [c] else found)
  }

  /** Once the loop has raised, the later contacts do not matter. */
  lemma {:induction false} UpcomingFailurePersists(cs: seq<Contact>, now: Instant, days: int, k: nat)
    requires ValidInstant(now) && k <= |cs|
    requires Upcoming(cs[..k], now, days).Failure?
    ensures Upcoming(cs, now, days) == Upcoming(cs[..k], now, days)
  {
    if k < |cs| {
      var init := cs[..|cs| - 1];
      assert init[..k] == cs[..k];
      UpcomingFailurePersists(init, now, days, k);
    } else {
      assert cs[..k] == cs;
    }
  }

  /** Every birthday among `cs` can be placed in `year`. */
  predicate AllPlaceable(cs: seq<Contact>, year: int)
    requires MinYear <= year <= MaxYear
  {
    forall i :: 0 <= i < |cs| ==> BirthdayIn(cs[i].birthday, year).Success?
  }

  lemma AllPlaceableSnoc(cs: seq<Contact>, year: int)
    requires MinYear <= year <= MaxYear && cs != []
    ensures AllPlaceable(cs, year) <==>
            AllPlaceable(cs[..|cs| - 1], year) && BirthdayIn(cs[|cs| - 1].birthday, year).Success?
  {
    var init := cs[..|cs| - 1];
    assert forall i :: 0 <= i < |init| ==> init[i] == cs[i];
  }

  /** The loop completes exactly when every stored birthday can be placed in
      the current year. */
  lemma {:induction false} UpcomingSucceedsIff(cs: seq<Contact>, now: Instant, days: int)
    requires ValidInstant(now)
    ensures Upcoming(cs, now, days).Success? <==> AllPlaceable(cs, now.date.year)
  {
    if cs != [] {
      UpcomingSucceedsIff(cs[..|cs| - 1], now, days);
      AllPlaceableSnoc(cs, now.date.year);
    }
  }

  /** When the loop raises, it raises the error of the first contact whose
      birthday cannot be placed. */
  lemma {:induction false} UpcomingRaisesFirstError(cs: seq<Contact>, now: Instant, days: int)
    requires ValidInstant(now)
    requires Upcoming(cs, now, days).Failure?
    ensures exists i :: 0 <= i < |cs| && BirthdayIn(cs[i].birthday, now.date.year) == Failure(Upcoming(cs, now, days).error)
                        && forall j :: 0 <= j < i ==> BirthdayIn(cs[j].birthday, now.date.year).Success?
  {
    var init := cs[..|cs| - 1];
    assert forall i :: 0 <= i < |init| ==> init[i] == cs[i];
    if Upcoming(init, now, days).Failure? {
      UpcomingRaisesFirstError(init, now, days);
    } else {
      UpcomingSucceedsIff(init, now, days);
      assert BirthdayIn(cs[|cs| - 1].birthday, now.date.year) == Failure(Upcoming(cs, now, days).error);
    }
  }

  /** One more iteration of a loop that completes appends the contact when
      it is due. */
  lemma UpcomingSnoc(cs: seq<Contact>, now: Instant, days: int)
    requires ValidInstant(now) && cs != []
    requires Upcoming(cs, now, days).Success?
    ensures Upcoming(cs[..|cs| - 1], now, days).Success?
    ensures var c := cs[|cs| - 1];
            Upcoming(cs, now, days).value ==
              Upcoming(cs[..|cs| - 1], now, days).value + if DueTest(now, days)(c) then [c] else []
  {
    assert DueTest(now, days)(cs[|cs| - 1]) == Due(cs[|cs| - 1], now, days);
  }

  /** When the loop completes, it returns exactly the due contacts, in
      contact order. */
  lemma {:induction false} UpcomingIsFilter(cs: seq<Contact>, now: Instant, days: int)
    requires ValidInstant(now)
    requires Upcoming(cs, now, days).Success?
    ensures Upcoming(cs, now, days).value == Filter(cs, DueTest(now, days))
  {
    if cs != [] {
      var init, c := cs[..|cs| - 1], cs[|cs| - 1];
      UpcomingSnoc(cs, now, days);
      UpcomingIsFilter(init, now, days);
      FilterSnoc(init, c, DueTest(now, days));
      assert init + [c] == cs;
    }
  }

  /** The window the loop's test really opens. `datetime.now()` is past
      midnight except at the stroke of it, and then `.days` is one less than
      the number of calendar days to the birthday: a contact is due when its
      birthday falls 1 to `days` days after today, or 0 to `days - 1` days
      after today at exactly midnight. */
  lemma DueWindow(c: Contact, now: Instant, days: int)
    requires ValidInstant(now)
    requires BirthdayIn(c.birthday, now.date.year).Success?
    ensures var ahead := Ordinal(BirthdayIn(c.birthday, now.date.year).value) - Ordinal(now.date);
            Due(c, now, days) <==>
              if now.sinceMidnight == 0 then 0 <= ahead < days else 1 <= ahead <= days
  {
    DaysFromFloors(now, BirthdayIn(c.birthday, now.date.year).value);
  }

  /** A birthday earlier this year is never due, and neither is one today
      unless the clock reads exactly midnight. */
  lemma PastBirthdayNotDue(c: Contact, now: Instant, days: int)
    requires ValidInstant(now)
    requires ParseIsoDate(c.birthday).Some?
    requires var b := ParseIsoDate(c.birthday).value; var t := now.date;
             b.month < t.month || (b.month == t.month && b.day < t.day) ||
             (b.month == t.month && b.day == t.day && now.sinceMidnight > 0)
    ensures !Due(c, now, days)
  {
    var t := now.date;
    match BirthdayIn(c.birthday, t.year)
    case Failure(_) =>
    case Success(b) =>
      DaysFromFloors(now, b);
      if b.month < t.month || (b.month == t.month && b.day < t.day) {
        OrdinalFollowsCalendarOrder(b, t);
      }
  }

  /** With a non-positive number of days nothing is ever listed. */
  lemma NothingDueWithoutDays(cs: seq<Contact>, now: Instant, days: int)
    requires ValidInstant(now) && days <= 0
    requires Upcoming(cs, now, days).Success?
    ensures Upcoming(cs, now, days).value == []
  {
    UpcomingIsFilter(cs, now, days);
  }
}
