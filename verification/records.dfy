/**
 The three tables of the record store (`regular_schedule`, `uday_schedule`,
 `users`) as sequences of rows in insertion order, and the deletions the
 schedule import performs on them.
 */
module Records {
  import opened Outcomes
  import opened Dates
  import opened Seqs

  /** A row of `regular_schedule`: one lesson of a class (or of a sub-group of it) on a date. */
  datatype RegularRecord = RegularRecord(lessonNumber: int, lessonInfo: string, classLetter: string, groupNumber: int, date: ValidDate)

  /** A row of `uday_schedule`: one lesson of a university-day group on a date. */
  datatype UdayRecord = UdayRecord(lessonNumber: int, lessonInfo: string, groupNumber: int, date: ValidDate)

  /** A row of `users`: the subscriber, their class, class sub-group and university-day group. */
  datatype UserProfile = UserProfile(userId: int, classLetter: string, groupNumber: int, uGroupNumber: int)

  datatype Store = Store(regular: seq<RegularRecord>, uday: seq<UdayRecord>, users: seq<UserProfile>)

  /** `regular_schedule.objects.filter(date=date)`. */
  function RegularOn(rows: seq<RegularRecord>, date: ValidDate): (r: seq<RegularRecord>)
    ensures forall x :: x in r <==> x in rows && x.date == date
  {
    Filter(rows, (x: RegularRecord) => x.date == date)
  }

  /** `uday_schedule.objects.filter(date=date)`. */
  function UdayOn(rows: seq<UdayRecord>, date: ValidDate): (r: seq<UdayRecord>)
    ensures forall x :: x in r <==> x in rows && x.date == date
  {
    Filter(rows, (x: UdayRecord) => x.date == date)
  }

  lemma RegularOnAppend(a: seq<RegularRecord>, b: seq<RegularRecord>, date: ValidDate)
    ensures RegularOn(a + b, date) == RegularOn(a, date) + RegularOn(b, date)
  {
    FilterAppend(a, b, (x: RegularRecord) => x.date == date);
  }

  lemma UdayOnAppend(a: seq<UdayRecord>, b: seq<UdayRecord>, date: ValidDate)
    ensures UdayOn(a + b, date) == UdayOn(a, date) + UdayOn(b, date)
  {
    FilterAppend(a, b, (x: UdayRecord) => x.date == date);
  }

  lemma RegularOnDated(rows: seq<RegularRecord>, date: ValidDate)
    requires forall x :: x in rows ==> x.date == date
    ensures RegularOn(rows, date) == rows
  {
    FilterAll(rows, (x: RegularRecord) => x.date == date);
  }

  lemma UdayOnDated(rows: seq<UdayRecord>, date: ValidDate)
    requires forall x :: x in rows ==> x.date == date
    ensures UdayOn(rows, date) == rows
  {
    FilterAll(rows, (x: UdayRecord) => x.date == date);
  }

  lemma RegularOnNone(rows: seq<RegularRecord>, date: ValidDate)
    requires forall x :: x in rows ==> x.date != date
    ensures RegularOn(rows, date) == []
  {
    FilterNone(rows, (x: RegularRecord) => x.date == date);
  }

  /** `regular_schedule.objects.filter(date=date).exists()`. */
  predicate HasRegularOn(s: Store, date: ValidDate) {
    exists x :: x in s.regular && x.date == date
  }

  /** `uday_schedule.objects.filter(date=date).exists()`. */
  predicate HasUdayOn(s: Store, date: ValidDate) {
    exists x :: x in s.uday && x.date == date
  }

  /** Both `filter(date=date).delete()` calls: every lesson row of the date goes, nothing else changes. */
  function DeleteDate(s: Store, date: ValidDate): (r: Store)
    ensures forall x :: x in r.regular <==> x in s.regular && x.date != date
    ensures forall x :: x in r.uday <==> x in s.uday && x.date != date
    ensures r.users == s.users
  {
    s.(regular := Filter(s.regular, (x: RegularRecord) => x.date != date),
       uday := Filter(s.uday, (x: UdayRecord) => x.date != date))
  }

  /**
   Both `filter(date__lt=old_date).delete()` calls, with `cutoff` the
   ordinal of `old_date`: the lesson rows dated before it go, the rest stay.
   */
  function PurgeBefore(s: Store, cutoff: int): (r: Store)
    ensures forall x :: x in r.regular <==> x in s.regular && Ordinal(x.date) >= cutoff
    ensures forall x :: x in r.uday <==> x in s.uday && Ordinal(x.date) >= cutoff
    ensures r.users == s.users
  {
    s.(regular := Filter(s.regular, (x: RegularRecord) => Ordinal(x.date) >= cutoff),
       uday := Filter(s.uday, (x: UdayRecord) => Ordinal(x.date) >= cutoff))
  }

  /** `users.objects.get(user_id=id)`: `None` is the `DoesNotExist` the lookup raises. */
  function FindUser(users: seq<UserProfile>, id: int): (r: Option<UserProfile>)
    ensures r.Some? ==> r.value in users && r.value.userId == id
    ensures r.None? <==> forall u :: u in users ==> u.userId != id
  {
    if |users| == 0 then None
    else if users[0].userId == id then Some(users[0])
    else FindUser(users[1..], id)
  }

  /** `user.delete()`: the profile with that id leaves the table. */
  function DeleteUser(users: seq<UserProfile>, id: int): (r: seq<UserProfile>)
    ensures forall u :: u in r <==> u in users && u.userId != id
  {
    Filter(users, (u: UserProfile) => u.userId != id)
  }

  /** `user_id` is the primary key of `users`. */
  predicate UniqueIds(users: seq<UserProfile>) {
    forall i, j :: 0 <= i < j < |users| ==> users[i].userId != users[j].userId
  }
}
