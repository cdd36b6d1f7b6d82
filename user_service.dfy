/** UserService: the user's own profile, nickname, account deletion and
    activity statistics. Every operation first looks the user up among the
    active users (findByIdAndIsActiveTrue). */
module UserService {
  import opened Wrappers
  import opened Domain
  import opened Calendar
  import opened UserEntity
  import opened Store
  import opened S3Util

  /** The user columns the info DTOs return (the timestamps are left out). */
  datatype UserInfo = UserInfo(userId: int, email: string, name: string)

  /** getUserInfo. */
  method GetUserInfo(db: Database, userId: int) returns (r: Result<UserInfo, ErrorCode>)
    ensures r.Success? <==> db.IsActiveUser(userId)
    ensures r.Failure? ==> r.error == UserNotFound
    ensures r.Success? ==> r.value.userId == userId && r.value.name == db.users[userId].name
                           && r.value.email == db.users[userId].email
  {
    if !db.IsActiveUser(userId) {
      return Failure(UserNotFound);
    }
    var user := db.users[userId];
    return Success(UserInfo(userId, user.email, user.name));
  }

  /** updateUserInfo. CONFLICT_NICKNAME whenever any user, the caller
      included, already has the name, before the user is even looked up;
      then USER_NOT_FOUND; otherwise only the name changes. */
  method UpdateUserInfo(db: Database, userId: int, name: string) returns (r: Result<UserInfo, ErrorCode>)
    modifies if userId in db.users then {db.users[userId]} else {}
    ensures old(db.NameTaken(name)) ==> r == Failure(ConflictNickname)
    ensures !old(db.NameTaken(name)) && !old(db.IsActiveUser(userId)) ==> r == Failure(UserNotFound)
    ensures r.Success? <==> !old(db.NameTaken(name)) && old(db.IsActiveUser(userId))
    ensures r.Failure? && userId in db.users ==> unchanged(db.users[userId])
    ensures r.Success? ==>
              var user := db.users[userId];
              && user.name == name && db.NameTaken(name)
              && user.email == old(user.email) && user.profileImageUrl == old(user.profileImageUrl)
              && user.isActive && user.role == old(user.role)
              && r.value == UserInfo(userId, user.email, name)
  {
    if db.NameTaken(name) {
      return Failure(ConflictNickname);
    }
    if !db.IsActiveUser(userId) {
      return Failure(UserNotFound);
    }
    var user := db.users[userId];
    user.UpdateName(name);
    return Success(UserInfo(userId, user.email, user.name));
  }

  /** updateProfileImage. USER_NOT_FOUND before anything happens. Otherwise
      deleteFile is called on the old URL first, which issues a delete only
      when its marker search finds a key (never for a URL uploadFile wrote,
      see S3Util.GeneratedUrlNotDeleted); then the upload, whose FILE_EMPTY or
      FILE_UPLOAD_FAILED leaves the user's URL as it was; otherwise the URL
      becomes the new one. */
  method UpdateProfileImage(db: Database, userId: int, file: Option<MultipartFile>, uuid: string,
                            bucket: string, ioFails: bool)
    returns (r: Result<string, ErrorCode>)
    requires db.Valid()
    modifies db, if userId in db.users then {db.users[userId]} else {}
    ensures db.Valid()
    ensures !old(db.IsActiveUser(userId)) ==> r == Failure(UserNotFound) && Untouched(db)
    ensures !old(db.IsActiveUser(userId)) && userId in db.users ==> unchanged(db.users[userId])
    ensures old(db.IsActiveUser(userId)) ==>
              && db.users == old(db.users) && db.records == old(db.records)
              && db.prescriptions == old(db.prescriptions) && db.weatherLogs == old(db.weatherLogs)
              && var user := db.users[userId];
              && var deletes := DeleteEvents(bucket, old(user.profileImageUrl));
              && (r.Success? <==> file.Some? && !file.value.isEmpty && !ioFails)
              && (file.None? || file.value.isEmpty ==> r == Failure(FileEmpty))
              && (file.Some? && !file.value.isEmpty && ioFails ==> r == Failure(FileUploadFailed))
              && (r.Failure? ==> user.profileImageUrl == old(user.profileImageUrl)
                                 && db.history == old(db.history) + deletes)
              && (r.Success? ==>
                    var key := ObjectKey("profile", uuid, file.value.originalFilename);
                    && r.value == FileUrl(bucket, key) && user.profileImageUrl == Some(r.value)
                    && db.history == old(db.history) + deletes + [FileUploaded(key)])
              && user.name == old(user.name) && user.email == old(user.email) && user.isActive
  {
    if !db.IsActiveUser(userId) {
      return Failure(UserNotFound);
    }
    var user := db.users[userId];
    ghost var before := db.history;
    var oldImageUrl := user.profileImageUrl;
    if oldImageUrl.Some? && oldImageUrl.value != [] {
      DeleteFile(db, bucket, oldImageUrl);
    }
    ghost var afterDelete := db.history;
    assert afterDelete == before + DeleteEvents(bucket, oldImageUrl);
    r := UploadFile(db, file, "profile", uuid, bucket, ioFails);
    if r.Failure? {
      return r;
    }
    user.UpdateProfileImage(Some(r.value));
  }

  /** deleteProfileImage. USER_NOT_FOUND before anything happens; otherwise
      deleteFile is called on the old URL and the URL is cleared. */
  method DeleteProfileImage(db: Database, userId: int, bucket: string) returns (e: Option<ErrorCode>)
    requires db.Valid()
    modifies db, if userId in db.users then {db.users[userId]} else {}
    ensures db.Valid()
    ensures !old(db.IsActiveUser(userId)) ==> e == Some(UserNotFound) && Untouched(db)
    ensures !old(db.IsActiveUser(userId)) && userId in db.users ==> unchanged(db.users[userId])
    ensures old(db.IsActiveUser(userId)) ==>
              && e.None?
              && db.users == old(db.users) && db.records == old(db.records)
              && db.prescriptions == old(db.prescriptions) && db.weatherLogs == old(db.weatherLogs)
              && var user := db.users[userId];
              && user.profileImageUrl.None?
              && db.history == old(db.history) + DeleteEvents(bucket, old(user.profileImageUrl))
              && user.name == old(user.name) && user.email == old(user.email) && user.isActive
  {
    if !db.IsActiveUser(userId) {
      return Some(UserNotFound);
    }
    var user := db.users[userId];
    var oldImageUrl := user.profileImageUrl;
    if oldImageUrl.Some? && oldImageUrl.value != [] {
      DeleteFile(db, bucket, oldImageUrl);
    }
    user.UpdateProfileImage(None);
    return None;
  }

  // ------------------------------------------------------------ deleteUser

  /** The repository writes of deleteUser, in order: the prescriptions of the
      user's records (skipped when there are no records), the records, the
      user. The order is the one the foreign keys allow. */
  function CascadeEvents(userId: int, recordIds: set<int>, prescriptionIds: set<int>): (events: seq<Event>)
    ensures |events| >= 2 && events[|events| - 2..] == [RecordsDeleted(recordIds), UserDeleted(userId)]
    ensures recordIds == {} <==> |events| == 2
  {
    (if recordIds == {} then [] else [PrescriptionsDeleted(prescriptionIds)])
    + [RecordsDeleted(recordIds), UserDeleted(userId)]
  }

  /** The database half of deleteUser, once the user is found. */
  method DeleteUserRows(db: Database, userId: int)
    requires db.Valid() && userId in db.users
    modifies db
    ensures db.Valid()
    ensures db.users == old(db.users) - {userId}
    ensures db.records == old(db.records) - old(db.RecordsOf(userId))
    ensures db.prescriptions == old(db.prescriptions) - old(db.PrescriptionsOf(db.RecordsOf(userId)))
    ensures !db.HasRecordOf(userId)
    ensures db.weatherLogs == old(db.weatherLogs)
    ensures db.history == old(db.history)
                          + CascadeEvents(userId, old(db.RecordsOf(userId)), old(db.PrescriptionsOf(db.RecordsOf(userId))))
  {
    ghost var before := db.history;
    ghost var recordIds := db.RecordsOf(userId);
    ghost var prescriptionIds := db.PrescriptionsOf(recordIds);
    var userRecords := db.RecordsOf(userId);
    if userRecords != {} {
      db.DeletePrescriptionsOf(userRecords);
    } else {
      assert prescriptionIds == {} by {
        forall p | p in db.prescriptions
          ensures p !in prescriptionIds
        {
        }
      }
    }
    ghost var middle := db.history;
    db.DeleteRecordsOf(userId);
    db.DeleteUser(userId);
    assert db.history == middle + [RecordsDeleted(recordIds)] + [UserDeleted(userId)];
    AppendTwice(middle, RecordsDeleted(recordIds), UserDeleted(userId));
  }

  /** deleteUser. USER_NOT_FOUND before anything happens. Otherwise
      deleteFile is called on the profile image URL, then the user's
      prescriptions, records and the user row are deleted. */
  method DeleteUser(db: Database, userId: int, bucket: string) returns (e: Option<ErrorCode>)
    requires db.Valid()
    modifies db
    ensures db.Valid()
    ensures e.Some? <==> !old(db.IsActiveUser(userId))
    ensures e.Some? ==> e.value == UserNotFound && Untouched(db)
    ensures e.None? ==>
              && db.users == old(db.users) - {userId}
              && db.records == old(db.records) - old(db.RecordsOf(userId))
              && !db.HasRecordOf(userId)
              && db.prescriptions == old(db.prescriptions) - old(db.PrescriptionsOf(db.RecordsOf(userId)))
              && db.weatherLogs == old(db.weatherLogs)
              && db.history == old(db.history) + DeleteEvents(bucket, old(db.users[userId].profileImageUrl))
                               + CascadeEvents(userId, old(db.RecordsOf(userId)),
                                               old(db.PrescriptionsOf(db.RecordsOf(userId))))
  {
    if !db.IsActiveUser(userId) {
      return Some(UserNotFound);
    }
    var user := db.users[userId];
    var profileImageUrl := user.profileImageUrl;
    if profileImageUrl.Some? && profileImageUrl.value != [] {
      DeleteFile(db, bucket, profileImageUrl);
    }
    DeleteUserRows(db, userId);
    return None;
  }

  // ----------------------------------------------------------- getUserStats

  /** One point of the energy trend. */
  datatype TrendPoint = TrendPoint(recordId: int, recordDate: string, energyScore: real)

  /** UserStatsGetResDto, with the window as epoch days. */
  datatype Stats = Stats(userId: int, period: string, startDay: int, endDay: int,
                         averageEnergyScore: real, recordCount: int, energyTrend: seq<TrendPoint>)

  /** The date the statistics are about: today for a null or empty string,
      otherwise the date LocalDate.parse reads, which fails on anything else. */
  function StatsDate(dateStr: Option<string>, today: Date): (r: Result<Date, ErrorCode>)
    requires ValidDate(today)
    ensures r.Success? ==> ValidDate(r.value)
    ensures dateStr.None? || dateStr.value == [] ==> r == Success(today)
    ensures dateStr.Some? && dateStr.value != [] ==>
              (r.Success? <==> ParseIsoDate(dateStr.value).Some?)
    ensures r.Failure? ==> r.error == UnparsableDate
  {
    if dateStr.None? || dateStr.value == [] then Success(today)
    else
      match ParseIsoDate(dateStr.value)
      case None => Failure(UnparsableDate)
      case Some(d) => Success(d)
  }

  /** The window of a period around a date, as epoch days: "week" gives the
      Monday-to-Sunday week holding the date, "month" the whole calendar
      month; anything else, null included, is INVALID_PERIOD_REQUEST. */
  function StatsWindow(period: Option<string>, date: Date): (r: Result<(int, int), ErrorCode>)
    requires ValidDate(date)
    ensures r.Success? <==> period == Some("week") || period == Some("month")
    ensures r.Failure? ==> r.error == InvalidPeriodRequest
    ensures r.Success? ==> r.value.0 <= ToEpochDay(date) <= r.value.1
    ensures period == Some("week") ==> DayOfWeek(r.value.0) == 0 && r.value.1 == r.value.0 + 6
    ensures period == Some("month") ==>
              forall other :: ValidDate(other) ==>
                (r.value.0 <= ToEpochDay(other) <= r.value.1 <==> other.year == date.year && other.month == date.month)
  {
    if period == Some("week") then Success(WeekWindow(date))
    else if period == Some("month") then
      MonthWindowHolds(date);
      Success(MonthWindow(date))
    else Failure(InvalidPeriodRequest)
  }

  /** The month window holds exactly the dates of its month. */
  lemma MonthWindowHolds(date: Date)
    requires ValidDate(date)
    ensures forall other :: ValidDate(other) ==>
              (MonthWindow(date).0 <= ToEpochDay(other) <= MonthWindow(date).1
               <==> other.year == date.year && other.month == date.month)
  {
    forall other | ValidDate(other)
      ensures MonthWindow(date).0 <= ToEpochDay(other) <= MonthWindow(date).1
              <==> other.year == date.year && other.month == date.month
    {
      MonthWindowExact(date, other);
    }
  }

  /** findAllByUserAndRecordDateBetween: `found` lists, without repeats,
      exactly the user's records dated inside the window. Its order is the
      database's and is not modelled. */
  ghost predicate ListsWindow(db: Database, userId: int, window: (int, int), found: seq<int>)
    requires db.Valid()
    reads db
  {
    && (forall i, j :: 0 <= i < j < |found| ==> found[i] != found[j])
    && (forall i :: 0 <= i < |found| ==> found[i] in db.records)
    && (forall id :: id in db.records ==>
          (id in found <==> db.records[id].userId == userId
                            && window.0 <= ToEpochDay(db.records[id].recordDate) <= window.1))
  }

  /** The scores of the listed records, in order. */
  function Scores(db: Database, found: seq<int>): (scores: seq<real>)
    requires forall i :: 0 <= i < |found| ==> found[i] in db.records
    reads db, db.records.Values
    ensures |scores| == |found|
    ensures forall i :: 0 <= i < |found| ==> scores[i] == db.records[found[i]].energyScore
  {
    if found == [] then [] else [db.records[found[0]].energyScore] + Scores(db, found[1..])
  }

  /** The energy trend: one point per listed record, in the same order. */
  function Trend(db: Database, found: seq<int>): (trend: seq<TrendPoint>)
    requires forall i :: 0 <= i < |found| ==> found[i] in db.records && ValidDate(db.records[found[i]].recordDate)
    reads db, db.records.Values
    ensures |trend| == |found|
    ensures forall i :: 0 <= i < |found| ==>
              trend[i] == TrendPoint(found[i], IsoText(db.records[found[i]].recordDate),
                                     db.records[found[i]].energyScore)
  {
    if found == [] then []
    else
      var record := db.records[found[0]];
      [TrendPoint(found[0], IsoText(record.recordDate), record.energyScore)] + Trend(db, found[1..])
  }

  function Sum(scores: seq<real>): real {
    if scores == [] then 0.0 else scores[0] + Sum(scores[1..])
  }

  /** BigDecimal.divide(..., 2, HALF_UP) on an exact quotient: a whole
      number of hundredths, the nearest one, ties away from zero. */
  function HalfUp2(x: real): (r: real)
    ensures x - 0.005 <= r <= x + 0.005
    ensures x >= 0.0 ==> r >= 0.0
  {
    Cents(x) as real / 100.0
  }

  /** The hundredths HALF_UP rounding gives: within half a hundredth of x,
      rounding halves away from zero. */
  function Cents(x: real): (k: int)
    ensures x * 100.0 - 0.5 <= k as real <= x * 100.0 + 0.5
    ensures x >= 0.0 ==> k >= 0 && k as real > x * 100.0 - 0.5
    ensures x < 0.0 ==> k <= 0 && (k as real) < x * 100.0 + 0.5
  {
    if x >= 0.0 then (x * 100.0 + 0.5).Floor else -((-x * 100.0 + 0.5).Floor)
  }

  /** The average score, rounded to two decimals, or 0 without records. */
  function Average(scores: seq<real>): real {
    if |scores| == 0 then 0.0 else HalfUp2(Sum(scores) / |scores| as real)
  }

  /** Scores between 0 and 100 sum to at most 100 per score. */
  lemma {:induction false} SumBounds(scores: seq<real>)
    requires forall i :: 0 <= i < |scores| ==> 0.0 <= scores[i] <= 100.0
    ensures 0.0 <= Sum(scores) <= 100.0 * |scores| as real
  {
    if scores != [] {
      SumBounds(scores[1..]);
    }
  }

  /** Rounding a value between 0 and 100 stays between 0 and 100. */
  lemma HalfUp2Bounds(x: real)
    requires 0.0 <= x <= 100.0
    ensures 0.0 <= HalfUp2(x) <= 100.0
  {
    assert Cents(x) <= 10000;
  }

  /** The average of scores in [0, 100] is in [0, 100]. */
  lemma AverageBounds(scores: seq<real>)
    requires forall i :: 0 <= i < |scores| ==> 0.0 <= scores[i] <= 100.0
    ensures 0.0 <= Average(scores) <= 100.0
  {
    if |scores| > 0 {
      SumBounds(scores);
      var n := |scores| as real;
      assert Sum(scores) / n <= 100.0 by {
        assert Sum(scores) <= 100.0 * n;
      }
      HalfUp2Bounds(Sum(scores) / n);
    }
  }

  /** getUserStats. USER_NOT_FOUND, then a date that does not parse, then
      INVALID_PERIOD_REQUEST; otherwise the count, the rounded average and the
      trend of the records `found` in the window. */
  method GetUserStats(db: Database, userId: int, period: Option<string>, dateStr: Option<string>,
                      today: Date, found: seq<int>)
    returns (r: Result<Stats, ErrorCode>)
    requires db.Valid() && ValidDate(today)
    requires StatsDate(dateStr, today).Success? && StatsWindow(period, StatsDate(dateStr, today).value).Success? ==>
               ListsWindow(db, userId, StatsWindow(period, StatsDate(dateStr, today).value).value, found)
    ensures !db.IsActiveUser(userId) ==> r == Failure(UserNotFound)
    ensures db.IsActiveUser(userId) && StatsDate(dateStr, today).Failure? ==> r == Failure(UnparsableDate)
    ensures r.Success? <==> (db.IsActiveUser(userId) && StatsDate(dateStr, today).Success?
                             && StatsWindow(period, StatsDate(dateStr, today).value).Success?)
    ensures r.Failure? && db.IsActiveUser(userId) && StatsDate(dateStr, today).Success? ==>
              r.error == InvalidPeriodRequest
    ensures r.Success? ==>
              var s := r.value;
              && (s.startDay, s.endDay) == StatsWindow(period, StatsDate(dateStr, today).value).value
              && s.userId == userId && Some(s.period) == period
              && s.recordCount == |found|
              && s.energyTrend == Trend(db, found)
              && s.averageEnergyScore == Average(Scores(db, found))
              && ((forall i :: 0 <= i < |found| ==> 0.0 <= db.records[found[i]].energyScore <= 100.0) ==>
                    0.0 <= s.averageEnergyScore <= 100.0)
  {
    if !db.IsActiveUser(userId) {
      return Failure(UserNotFound);
    }
    var date := StatsDate(dateStr, today);
    if date.Failure? {
      return Failure(date.error);
    }
    var window := StatsWindow(period, date.value);
    if window.Failure? {
      return Failure(window.error);
    }
    var scores := Scores(db, found);
    if forall i :: 0 <= i < |found| ==> 0.0 <= db.records[found[i]].energyScore <= 100.0 {
      AverageBounds(scores);
    }
    var energyTrend := Trend(db, found);
    return Success(Stats(userId, period.value, window.value.0, window.value.1,
                         Average(scores), |found|, energyTrend));
  }
}
