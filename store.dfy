/**
 * The repositories behind the services (UserRepository,
 * DailyRecordRepository, AiPrescriptionsRepository, WeatherLogRepository),
 * held in memory. Every write is appended to `history`, so the order in which
 * a service saves and deletes can be stated. The foreign keys of the schema
 * (a prescription names its record, a record names its user) are
 * preconditions of the deletes: a row cannot be deleted while a child row
 * still refers to it.
 */
module Store {
  import opened Wrappers
  import opened Domain
  import opened Calendar
  import opened UserEntity

  /** DailyRecord. The owner, the date and the time period are fixed when the
      record is built; updateRecord replaces the other columns. */
  class DailyRecord {
    const userId: int
    const recordDate: Date
    const timePeriod: TimePeriod
    var emotionLevel: Option<int>
    var conversationLevel: Option<int>
    var meetingCount: Option<int>
    var transportMode: TransportMode
    var congestionLevel: Option<int>
    var location: Option<string>
    var journal: Option<string>
    var energyScore: real
    var energyLevel: EnergyLevel

    /** The builder used by createDailyRecord. */
    constructor (userId: int, recordDate: Date, timePeriod: TimePeriod,
                 emotionLevel: Option<int>, conversationLevel: Option<int>, meetingCount: Option<int>,
                 transportMode: TransportMode, congestionLevel: Option<int>,
                 location: Option<string>, journal: Option<string>,
                 energyScore: real, energyLevel: EnergyLevel)
      ensures this.userId == userId && this.recordDate == recordDate && this.timePeriod == timePeriod
      ensures this.emotionLevel == emotionLevel && this.conversationLevel == conversationLevel
      ensures this.meetingCount == meetingCount && this.transportMode == transportMode
      ensures this.congestionLevel == congestionLevel && this.location == location && this.journal == journal
      ensures this.energyScore == energyScore && this.energyLevel == energyLevel
    {
      this.userId := userId;
      this.recordDate := recordDate;
      this.timePeriod := timePeriod;
      this.emotionLevel := emotionLevel;
      this.conversationLevel := conversationLevel;
      this.meetingCount := meetingCount;
      this.transportMode := transportMode;
      this.congestionLevel := congestionLevel;
      this.location := location;
      this.journal := journal;
      this.energyScore := energyScore;
      this.energyLevel := energyLevel;
    }

    /** updateRecord: the answers, the score and the level are replaced; the
        owner, the date and the time period stay. */
    method UpdateRecord(emotionLevel: Option<int>, conversationLevel: Option<int>, meetingCount: Option<int>,
                        transportMode: TransportMode, congestionLevel: Option<int>,
                        location: Option<string>, journal: Option<string>,
                        energyScore: real, energyLevel: EnergyLevel)
      modifies this
      ensures this.emotionLevel == emotionLevel && this.conversationLevel == conversationLevel
      ensures this.meetingCount == meetingCount && this.transportMode == transportMode
      ensures this.congestionLevel == congestionLevel && this.location == location && this.journal == journal
      ensures this.energyScore == energyScore && this.energyLevel == energyLevel
    {
      this.emotionLevel := emotionLevel;
      this.conversationLevel := conversationLevel;
      this.meetingCount := meetingCount;
      this.transportMode := transportMode;
      this.congestionLevel := congestionLevel;
      this.location := location;
      this.journal := journal;
      this.energyScore := energyScore;
      this.energyLevel := energyLevel;
    }
  }

  /** AiPrescriptions. The record it belongs to is fixed; update replaces the
      category and both texts. */
  class AiPrescription {
    const recordId: int
    var category: Category
    var recommendationText: string
    var journalExplain: string

    constructor (recordId: int, category: Category, recommendationText: string, journalExplain: string)
      ensures this.recordId == recordId && this.category == category
      ensures this.recommendationText == recommendationText && this.journalExplain == journalExplain
    {
      this.recordId := recordId;
      this.category := category;
      this.recommendationText := recommendationText;
      this.journalExplain := journalExplain;
    }

    method Update(category: Category, recommendationText: string, journalExplain: string)
      modifies this
      ensures this.category == category
      ensures this.recommendationText == recommendationText && this.journalExplain == journalExplain
    {
      this.category := category;
      this.recommendationText := recommendationText;
      this.journalExplain := journalExplain;
    }
  }

  /** One write made through a repository (or, for files, through S3). */
  datatype Event =
    | WeatherLogSaved
    | RecordSaved(recordId: int)
    | PrescriptionSaved(prescriptionId: int)
    | PrescriptionsDeleted(prescriptionIds: set<int>)
    | RecordsDeleted(recordIds: set<int>)
    | UserDeleted(userId: int)
    | FileUploaded(key: string)
    | FileDeleted(key: string)

  class Database {
    var users: map<int, User>
    var records: map<int, DailyRecord>
    var prescriptions: map<int, AiPrescription>
    var weatherLogs: seq<WeatherLog>
    /** The next identity value the database hands out. */
    var nextId: int
    var history: seq<Event>

    /** Identity values are never reused. */
    ghost predicate FreshIds()
      reads this
    {
      && (forall id :: id in users ==> id < nextId)
      && (forall id :: id in records ==> id < nextId)
      && (forall id :: id in prescriptions ==> id < nextId)
    }

    /** Each row is a different entity object. */
    ghost predicate Distinct()
      reads this
    {
      && (forall a, b :: a in users && b in users && users[a] == users[b] ==> a == b)
      && (forall a, b :: a in records && b in records && records[a] == records[b] ==> a == b)
      && (forall a, b :: a in prescriptions && b in prescriptions && prescriptions[a] == prescriptions[b] ==> a == b)
    }

    /** The foreign keys hold. */
    ghost predicate Referential()
      reads this
    {
      && (forall r :: r in records ==> records[r].userId in users)
      && (forall p :: p in prescriptions ==> prescriptions[p].recordId in records)
    }

    /** At most one record per user and day, and at most one prescription per
        record (what findByRecord's Optional presumes). */
    ghost predicate Unique()
      reads this
    {
      && (forall a, b ::
            (a in records && b in records && records[a].userId == records[b].userId &&
             records[a].recordDate == records[b].recordDate) ==> a == b)
      && (forall a, b ::
            (a in prescriptions && b in prescriptions &&
             prescriptions[a].recordId == prescriptions[b].recordId) ==> a == b)
    }

    ghost predicate Valid()
      reads this
    {
      FreshIds() && Distinct() && Referential() && Unique()
      && (forall r :: r in records ==> ValidDate(records[r].recordDate))
    }

    /** An empty database. */
    constructor ()
      ensures Valid()
      ensures users == map[] && records == map[] && prescriptions == map[]
      ensures weatherLogs == [] && history == []
    {
      users := map[];
      records := map[];
      prescriptions := map[];
      weatherLogs := [];
      nextId := 1;
      history := [];
    }

    // ------------------------------------------------------------- queries

    /** existsByUserAndRecordDate. */
    predicate HasRecordOn(userId: int, date: Date)
      reads this
    {
      exists r :: r in records && records[r].userId == userId && records[r].recordDate == date
    }

    /** Some prescription refers to the record. */
    predicate HasPrescription(recordId: int)
      reads this
    {
      exists p :: p in prescriptions && prescriptions[p].recordId == recordId
    }

    /** Some record belongs to the user. */
    predicate HasRecordOf(userId: int)
      reads this
    {
      exists r :: r in records && records[r].userId == userId
    }

    /** existsByName. */
    predicate NameTaken(name: string)
      reads this, users.Values
    {
      exists id :: id in users && users[id].name == name
    }

    /** findByIdAndIsActiveTrue, as a test. */
    predicate IsActiveUser(userId: int)
      reads this, users.Values
    {
      userId in users && users[userId].isActive
    }

    /** findAllByUser: the ids of the user's records. */
    function RecordsOf(userId: int): (ids: set<int>)
      reads this
      ensures forall r :: r in ids <==> r in records && records[r].userId == userId
    {
      set r | r in records && records[r].userId == userId
    }

    /** The ids of the prescriptions of the given records. */
    function PrescriptionsOf(recordIds: set<int>): (ids: set<int>)
      reads this
      ensures forall p :: p in ids <==> p in prescriptions && prescriptions[p].recordId in recordIds
    {
      set p | p in prescriptions && prescriptions[p].recordId in recordIds
    }

    /** findByRecord: the prescription of a record, if it has one. */
    method FindPrescriptionByRecord(recordId: int) returns (p: Option<int>)
      requires Valid()
      ensures p.Some? <==> HasPrescription(recordId)
      ensures p.Some? ==> p.value in prescriptions && prescriptions[p.value].recordId == recordId
    {
      if HasPrescription(recordId) {
        var q :| q in prescriptions && prescriptions[q].recordId == recordId;
        return Some(q);
      }
      return None;
    }

    // -------------------------------------------------------------- writes

    /** weatherLogRepository.save of a new log. */
    method SaveWeatherLog(w: WeatherLog)
      requires Valid()
      modifies this
      ensures Valid()
      ensures weatherLogs == old(weatherLogs) + [w] && history == old(history) + [WeatherLogSaved]
      ensures users == old(users) && records == old(records) && prescriptions == old(prescriptions)
      ensures nextId == old(nextId)
    {
      weatherLogs := weatherLogs + [w];
      history := history + [WeatherLogSaved];
    }

    /** dailyRecordRepository.save of a new record: it gets the next id. */
    method InsertRecord(r: DailyRecord) returns (id: int)
      requires Valid()
      requires r !in records.Values && r.userId in users && ValidDate(r.recordDate)
      requires !HasRecordOn(r.userId, r.recordDate)
      modifies this
      ensures Valid()
      ensures id == old(nextId) && id !in old(records) && records == old(records)[id := r]
      ensures history == old(history) + [RecordSaved(id)]
      ensures users == old(users) && prescriptions == old(prescriptions) && weatherLogs == old(weatherLogs)
    {
      id := nextId;
      records := records[id := r];
      nextId := nextId + 1;
      history := history + [RecordSaved(id)];
    }

    /** dailyRecordRepository.save of a record already stored: the row takes
        the object's current fields, which the map already shares. */
    method SaveRecord(id: int)
      requires Valid() && id in records
      modifies this
      ensures Valid()
      ensures history == old(history) + [RecordSaved(id)]
      ensures users == old(users) && records == old(records) && prescriptions == old(prescriptions)
      ensures weatherLogs == old(weatherLogs) && nextId == old(nextId)
    {
      history := history + [RecordSaved(id)];
    }

    /** aiPrescriptionsRepository.save of a new prescription. */
    method InsertPrescription(p: AiPrescription) returns (id: int)
      requires Valid()
      requires p !in prescriptions.Values && p.recordId in records && !HasPrescription(p.recordId)
      modifies this
      ensures Valid()
      ensures id == old(nextId) && id !in old(prescriptions) && prescriptions == old(prescriptions)[id := p]
      ensures history == old(history) + [PrescriptionSaved(id)]
      ensures users == old(users) && records == old(records) && weatherLogs == old(weatherLogs)
    {
      id := nextId;
      prescriptions := prescriptions[id := p];
      nextId := nextId + 1;
      history := history + [PrescriptionSaved(id)];
    }

    /** aiPrescriptionsRepository.save of a prescription already stored. */
    method SavePrescription(id: int)
      requires Valid() && id in prescriptions
      modifies this
      ensures Valid()
      ensures history == old(history) + [PrescriptionSaved(id)]
      ensures users == old(users) && records == old(records) && prescriptions == old(prescriptions)
      ensures weatherLogs == old(weatherLogs) && nextId == old(nextId)
    {
      history := history + [PrescriptionSaved(id)];
    }

    /** aiPrescriptionsRepository.delete. */
    method DeletePrescription(id: int)
      requires Valid() && id in prescriptions
      modifies this
      ensures Valid()
      ensures prescriptions == old(prescriptions) - {id}
      ensures history == old(history) + [PrescriptionsDeleted({id})]
      ensures users == old(users) && records == old(records)
      ensures weatherLogs == old(weatherLogs) && nextId == old(nextId)
    {
      prescriptions := prescriptions - {id};
      history := history + [PrescriptionsDeleted({id})];
    }

    /** deleteAllByRecordIn: the prescriptions of the given records. */
    method DeletePrescriptionsOf(recordIds: set<int>)
      requires Valid()
      modifies this
      ensures Valid()
      ensures prescriptions == old(prescriptions) - old(PrescriptionsOf(recordIds))
      ensures forall r :: r in recordIds ==> !HasPrescription(r)
      ensures history == old(history) + [PrescriptionsDeleted(old(PrescriptionsOf(recordIds)))]
      ensures users == old(users) && records == old(records)
      ensures weatherLogs == old(weatherLogs) && nextId == old(nextId)
    {
      var gone := PrescriptionsOf(recordIds);
      prescriptions := prescriptions - gone;
      history := history + [PrescriptionsDeleted(gone)];
    }

    /** dailyRecordRepository.delete; the record must have no prescription. */
    method DeleteRecord(id: int)
      requires Valid() && id in records && !HasPrescription(id)
      modifies this
      ensures Valid()
      ensures records == old(records) - {id}
      ensures history == old(history) + [RecordsDeleted({id})]
      ensures users == old(users) && prescriptions == old(prescriptions)
      ensures weatherLogs == old(weatherLogs) && nextId == old(nextId)
    {
      records := records - {id};
      history := history + [RecordsDeleted({id})];
    }

    /** deleteAllByUser; none of the user's records may have a prescription. */
    method DeleteRecordsOf(userId: int)
      requires Valid()
      requires forall r :: r in RecordsOf(userId) ==> !HasPrescription(r)
      modifies this
      ensures Valid()
      ensures records == old(records) - old(RecordsOf(userId))
      ensures !HasRecordOf(userId)
      ensures history == old(history) + [RecordsDeleted(old(RecordsOf(userId)))]
      ensures users == old(users) && prescriptions == old(prescriptions)
      ensures weatherLogs == old(weatherLogs) && nextId == old(nextId)
    {
      var gone := RecordsOf(userId);
      records := records - gone;
      history := history + [RecordsDeleted(gone)];
    }

    /** userRepository.delete; the user must have no records. */
    method DeleteUser(userId: int)
      requires Valid() && userId in users && !HasRecordOf(userId)
      modifies this
      ensures Valid()
      ensures users == old(users) - {userId}
      ensures history == old(history) + [UserDeleted(userId)]
      ensures records == old(records) && prescriptions == old(prescriptions)
      ensures weatherLogs == old(weatherLogs) && nextId == old(nextId)
    {
      users := users - {userId};
      history := history + [UserDeleted(userId)];
    }

    /** An object put into or removed from S3. */
    method LogFileEvent(e: Event)
      requires Valid() && (e.FileUploaded? || e.FileDeleted?)
      modifies this
      ensures Valid()
      ensures history == old(history) + [e]
      ensures users == old(users) && records == old(records) && prescriptions == old(prescriptions)
      ensures weatherLogs == old(weatherLogs) && nextId == old(nextId)
    {
      history := history + [e];
    }
  }

  /** Nothing in the database changed. */
  twostate predicate Untouched(db: Database)
    reads db
  {
    && db.users == old(db.users) && db.records == old(db.records)
    && db.prescriptions == old(db.prescriptions) && db.weatherLogs == old(db.weatherLogs)
    && db.nextId == old(db.nextId) && db.history == old(db.history)
  }

  /** Two appends in a row are one append of two. */
  lemma AppendTwice<T>(h: seq<T>, a: T, b: T)
    ensures h + [a] + [b] == h + [a, b]
  {
  }

  /** Appending to a two-event suffix gives the three-event suffix. */
  lemma AppendToPair<T>(h: seq<T>, a: T, b: T, c: T)
    ensures h + [a, b] + [c] == h + [a, b, c]
  {
  }
}
