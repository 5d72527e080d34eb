/**
 The `get_schedule` callback: the lessons of today or tomorrow for the
 user who pressed the button.

 On a cohort's university day (weekday 0 for classes whose letter starts
 with `10`, weekday 2 for `11`) the reply starts with the lessons of the
 user's university-day group and the class lessons are looked up for
 sub-group 0; on other days only the class lessons of the user's
 sub-group are looked up. Each table contributes a part only when it has
 any row for the date, even if none of them is the user's, so a reply can
 be empty. With no part at all the bot edits the prompt to say the
 schedule is not there yet, unless the prompt already says so for that date.
 */
module Query {
  import opened Outcomes
  import opened Text
  import opened Dates
  import opened Seqs
  import opened Records

  datatype QueryError =
    | MalformedCallback // the callback data has no `=`
    | DateOverflow      // tomorrow is past 31 December 9999
    | NoProfile         // `users.objects.get` raised `DoesNotExist`
    | BadPrompt         // the prompt has no `расписание на ` to slice the date from

  datatype Reply =
    | Schedule(text: string)    // the schedule is sent as a new message
    | NotYetAdded(text: string) // the prompt is edited to this text
    | NoReply                   // the prompt already says the date has no schedule
    | Failed(error: QueryError)

  /** The separator between lessons and between the two parts of a reply. */
  const Gap: string := "\n\n"

  /** The button text the first prompt carries. */
  const ChooseAction: string := "выберите действие"

  /** The phrase after which a prompt carries the date it was about. */
  const SchedulePhrase: string := "расписание на "

  /** The text the prompt is edited to when the date has no schedule. */
  function NotYetAddedText(date: ValidDate): string {
    SchedulePhrase + FormatDayMonth(date) + " ещё не добавлено\n" + ChooseAction
  }

  /** `today` for the `today` button, the next day for any other. */
  function RequestedDate(day: string, today: ValidDate): Option<ValidDate> {
    if day == "today" then Some(today)
    else
      var next := NextDay(today);
      if Valid(next) then Some(next) else None
  }

  /** `uday_flag`: the date is the university day of the user's cohort. */
  predicate UniversityDay(classLetter: string, date: ValidDate) {
    (StartsWith(classLetter, "11") && Weekday(date) == 2) || (StartsWith(classLetter, "10") && Weekday(date) == 0)
  }

  /** `gr_num`: the sub-group the class lessons are looked up for. */
  function LookupGroup(user: UserProfile, date: ValidDate): int {
    if UniversityDay(user.classLetter, date) then 0 else user.groupNumber
  }

  /** The university-day rows of university-day group `group` on `date`, in table order. */
  function UdayLessons(store: Store, group: int, date: ValidDate): (rs: seq<UdayRecord>)
    ensures forall x :: x in rs <==> x in store.uday && x.groupNumber == group && x.date == date
  {
    Filter(store.uday, (x: UdayRecord) => x.groupNumber == group && x.date == date)
  }

  /** The regular rows of class `classLetter` and sub-group `group` on `date`, in table order. */
  function ClassLessons(store: Store, classLetter: string, group: int, date: ValidDate): (rs: seq<RegularRecord>)
    ensures forall x :: x in rs <==> x in store.regular && x.classLetter == classLetter && x.groupNumber == group && x.date == date
  {
    Filter(store.regular, (x: RegularRecord) => x.classLetter == classLetter && x.groupNumber == group && x.date == date)
  }

  function UdayTexts(rows: seq<UdayRecord>): (ts: seq<string>)
    ensures |ts| == |rows| && forall k :: 0 <= k < |rows| ==> ts[k] == rows[k].lessonInfo
  {
    seq(|rows|, k requires 0 <= k < |rows| => rows[k].lessonInfo)
  }

  function RegularTexts(rows: seq<RegularRecord>): (ts: seq<string>)
    ensures |ts| == |rows| && forall k :: 0 <= k < |rows| ==> ts[k] == rows[k].lessonInfo
  {
    seq(|rows|, k requires 0 <= k < |rows| => rows[k].lessonInfo)
  }

  /** The university-day part, present on the cohort's university day when that table has any row for the date. */
  function UdayPart(store: Store, user: UserProfile, date: ValidDate): Option<string> {
    if HasUdayOn(store, date) && UniversityDay(user.classLetter, date) then Some(Join(UdayTexts(UdayLessons(store, user.uGroupNumber, date)), Gap))
    else None
  }

  /** The class part, present when the regular table has any row for the date. */
  function ClassPart(store: Store, user: UserProfile, date: ValidDate): Option<string> {
    if HasRegularOn(store, date) then Some(Join(RegularTexts(ClassLessons(store, user.classLetter, LookupGroup(user, date), date)), Gap))
    else None
  }

  /** `schedule_list`, the university-day part first. */
  function Parts(store: Store, user: UserProfile, date: ValidDate): seq<string> {
    (if UdayPart(store, user, date).Some? then [UdayPart(store, user, date).value] else [])
      + (if ClassPart(store, user, date).Some? then [ClassPart(store, user, date).value] else [])
  }

  /**
   The bot's answer to `user` for `date`, `prompt` being the text of the
   message whose button was pressed.
   */
  function Answer(store: Store, user: UserProfile, date: ValidDate, prompt: string): Reply {
    var parts := Parts(store, user, date);
    if |parts| > 0 then Schedule(Join(parts, Gap))
    else if prompt == ChooseAction then NotYetAdded(NotYetAddedText(date))
    else
      var pieces := Split(prompt, SchedulePhrase);
      if |pieces| < 2 then Failed(BadPrompt)
      else
        var shown := if |pieces[1]| <= 5 then pieces[1] else pieces[1][..5];
        if FormatDayMonth(date) != shown then NotYetAdded(NotYetAddedText(date)) else NoReply
  }

  /** The whole callback: `data` is the callback data, `today` the clock's date. */
  function GetSchedule(store: Store, userId: int, data: string, today: ValidDate, prompt: string): Reply {
    var fields := Split(data, "=");
    if |fields| < 2 then Failed(MalformedCallback)
    else match RequestedDate(fields[1], today)
      case None => Failed(DateOverflow)
      case Some(date) =>
        match FindUser(store.users, userId)
        case None => Failed(NoProfile)
        case Some(user) => Answer(store, user, date, prompt)
  }

  // ---------------------------------------------------------------------------
  // Properties

  lemma JoinTwo(a: string, b: string, sep: string)
    ensures Join([a, b], sep) == a + sep + b
  {
    assert [a, b][1..] == [b];
  }

  /**
   A schedule is sent exactly when one of the tables has a row for the
   date (the university-day table counting only on the cohort's university
   day). With both parts the university-day lessons come first, separated
   from the class lessons by a blank line; with one part the reply is that
   part alone.
   */
  lemma AnswerSchedule(store: Store, user: UserProfile, date: ValidDate, prompt: string)
    ensures Answer(store, user, date, prompt).Schedule? <==>
            (HasUdayOn(store, date) && UniversityDay(user.classLetter, date)) || HasRegularOn(store, date)
    ensures HasUdayOn(store, date) && UniversityDay(user.classLetter, date) && HasRegularOn(store, date) ==>
            Answer(store, user, date, prompt).text ==
              Join(UdayTexts(UdayLessons(store, user.uGroupNumber, date)), Gap) + Gap + Join(RegularTexts(ClassLessons(store, user.classLetter, LookupGroup(user, date), date)), Gap)
    ensures !(HasUdayOn(store, date) && UniversityDay(user.classLetter, date)) && HasRegularOn(store, date) ==>
            Answer(store, user, date, prompt).text == Join(RegularTexts(ClassLessons(store, user.classLetter, LookupGroup(user, date), date)), Gap)
    ensures HasUdayOn(store, date) && UniversityDay(user.classLetter, date) && !HasRegularOn(store, date) ==>
            Answer(store, user, date, prompt).text == Join(UdayTexts(UdayLessons(store, user.uGroupNumber, date)), Gap)
  {
    JoinTwo(Join(UdayTexts(UdayLessons(store, user.uGroupNumber, date)), Gap), Join(RegularTexts(ClassLessons(store, user.classLetter, LookupGroup(user, date), date)), Gap), Gap);
  }

  /**
   The regular table having rows for the date, none of them the user's,
   makes the reply the empty text when no university-day part precedes it:
   the empty join still counts as a part.
   */
  lemma EmptyScheduleQuirk(store: Store, user: UserProfile, date: ValidDate, prompt: string)
    requires HasRegularOn(store, date) && !UniversityDay(user.classLetter, date)
    requires forall x :: x in store.regular && x.date == date ==> x.classLetter != user.classLetter || x.groupNumber != user.groupNumber
    ensures Answer(store, user, date, prompt) == Schedule("")
  {
    var cl, g := user.classLetter, LookupGroup(user, date);
    FilterNone(store.regular, (x: RegularRecord) => x.classLetter == cl && x.groupNumber == g && x.date == date);
  }

  /** On the cohort's university day the user's sub-group does not matter: the class lessons are sub-group 0's. */
  lemma UniversityDayIgnoresSubGroup(store: Store, user: UserProfile, date: ValidDate, prompt: string, g: int)
    requires UniversityDay(user.classLetter, date)
    ensures Answer(store, user, date, prompt) == Answer(store, user.(groupNumber := g), date, prompt)
    ensures forall x :: x in ClassLessons(store, user.classLetter, LookupGroup(user, date), date) ==> x.groupNumber == 0
  {
  }

  /** On any other day the university-day group does not matter: only the class lessons of the user's sub-group are read. */
  lemma OtherDayIgnoresUniversityGroup(store: Store, user: UserProfile, date: ValidDate, prompt: string, u: int)
    requires !UniversityDay(user.classLetter, date)
    ensures Answer(store, user, date, prompt) == Answer(store, user.(uGroupNumber := u), date, prompt)
    ensures forall x :: x in ClassLessons(store, user.classLetter, LookupGroup(user, date), date) ==> x.groupNumber == user.groupNumber
  {
  }

  /** Without a schedule the answer is about a date none of the relevant tables has rows for. */
  lemma NoScheduleMeansNoRows(store: Store, user: UserProfile, date: ValidDate, prompt: string)
    requires !Answer(store, user, date, prompt).Schedule?
    ensures forall x :: x in store.regular ==> x.date != date
    ensures UniversityDay(user.classLetter, date) ==> forall x :: x in store.uday ==> x.date != date
  {
  }

  /** The date a not-yet-added prompt carries reads back from it. */
  lemma NotYetAddedShowsDate(date: ValidDate)
    ensures var pieces := Split(NotYetAddedText(date), SchedulePhrase);
      |pieces| >= 2 && |pieces[1]| >= 5 && pieces[1][..5] == FormatDayMonth(date)
  {
    var f := FormatDayMonth(date);
    var rest := f + " ещё не добавлено\n" + ChooseAction;
    assert NotYetAddedText(date) == SchedulePhrase + rest;
    SplitLeadingSeparator(SchedulePhrase, rest);
    forall j | 0 <= j < 5
      ensures !OccursAt(rest, SchedulePhrase, j)
    {
      assert rest[j] == f[j] && rest[j] != SchedulePhrase[0];
      if j + |SchedulePhrase| <= |rest| {
        assert rest[j..j + |SchedulePhrase|][0] == rest[j];
      }
    }
    SplitHeadPrefix(rest, SchedulePhrase, 5);
    assert rest[..5] == f;
  }

  /**
   Pressing the button again on a not-yet-added prompt while the date still
   has no schedule changes nothing: the prompt already names the date, so
   it is not edited a second time.
   */
  lemma NotYetAddedIsStable(store: Store, user: UserProfile, date: ValidDate, prompt: string)
    requires Answer(store, user, date, prompt).NotYetAdded?
    ensures Answer(store, user, date, Answer(store, user, date, prompt).text) == NoReply
  {
    NotYetAddedShowsDate(date);
    assert NotYetAddedText(date) != ChooseAction by {
      assert |NotYetAddedText(date)| > |ChooseAction|;
    }
  }

  /**
   The first prompt, or one about another date of the same year, is edited
   to say the requested date has no schedule yet.
   */
  lemma AnswerNotYetAdded(store: Store, user: UserProfile, date: ValidDate, other: ValidDate)
    requires Parts(store, user, date) == [] && other != date && other.year == date.year
    ensures Answer(store, user, date, ChooseAction) == NotYetAdded(NotYetAddedText(date))
    ensures Answer(store, user, date, NotYetAddedText(other)) == NotYetAdded(NotYetAddedText(date))
  {
    NotYetAddedShowsDate(other);
    assert NotYetAddedText(other) != ChooseAction by {
      assert |NotYetAddedText(other)| > |ChooseAction|;
    }
    FormatDayMonthInjective(date, other);
  }

  /** The day and the month read back from their `%d.%m` form. */
  lemma FormatDayMonthReadsBack(d: ValidDate)
    ensures DayField(FormatDayMonth(d)[..2]) == Some(d.day)
    ensures MonthField(FormatDayMonth(d)[3..]) == Some(d.month)
  {
    Pad2Fields(d.day);
    Pad2Fields(d.month);
    assert FormatDayMonth(d)[..2] == Pad2(d.day);
    assert FormatDayMonth(d)[3..] == Pad2(d.month);
  }

  /** Different dates of one year are shown differently. */
  lemma FormatDayMonthInjective(a: ValidDate, b: ValidDate)
    requires a != b && a.year == b.year
    ensures FormatDayMonth(a) != FormatDayMonth(b)
  {
    FormatDayMonthReadsBack(a);
    FormatDayMonthReadsBack(b);
  }

  /**
   Each failure of the callback, characterised: data without `=`, the day
   after 31 December 9999, a user without a profile, and a prompt without
   the phrase to read the date from when there is nothing to send.
   */
  lemma GetScheduleFailures(store: Store, userId: int, data: string, today: ValidDate, prompt: string)
    ensures var r := GetSchedule(store, userId, data, today, prompt);
      var fields := Split(data, "=");
      && (r == Failed(MalformedCallback) <==> |fields| < 2)
      && (r == Failed(DateOverflow) <==> |fields| >= 2 && fields[1] != "today" && today == Date(9999, 12, 31))
      && (r == Failed(NoProfile) <==> |fields| >= 2 && RequestedDate(fields[1], today).Some? &&
                                        forall u :: u in store.users ==> u.userId != userId)
      && (r == Failed(BadPrompt) <==> |fields| >= 2 && RequestedDate(fields[1], today).Some? && FindUser(store.users, userId).Some? &&
                                        Parts(store, FindUser(store.users, userId).value, RequestedDate(fields[1], today).value) == [] &&
                                        prompt != ChooseAction && |Split(prompt, SchedulePhrase)| < 2)
  {
    var fields := Split(data, "=");
    if |fields| >= 2 {
      RequestedDateSpec(fields[1], today);
    }
  }

  /** The date asked for: today, or the day after for any other button. */
  lemma RequestedDateSpec(day: string, today: ValidDate)
    ensures day == "today" ==> RequestedDate(day, today) == Some(today)
    ensures day != "today" && RequestedDate(day, today).Some? ==> Ordinal(RequestedDate(day, today).value) == Ordinal(today) + 1
    ensures RequestedDate(day, today).None? <==> day != "today" && today == Date(9999, 12, 31)
  {
  }
}
