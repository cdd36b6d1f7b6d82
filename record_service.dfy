/**
 * RecordService's state-changing operations: createRecord, updateRecord and
 * deleteRecord, and the prescription upsert they end with. The clock
 * (today's date and the hour), the weather providers and the chat model's
 * reply with the field extraction are parameters.
 */
module RecordService {
  import opened Wrappers
  import opened Domain
  import opened Calendar
  import opened CreateRecordRequest
  import opened EnergyScore
  import opened Prescription
  import opened KmaWeatherClient
  import opened AirQualityClient
  import opened Store
  import opened WeatherService

  /** What a successful create or update hands to buildResponseDto. */
  datatype Saved = Saved(recordId: int, prescriptionId: int, weatherLog: WeatherLog)

  /** The checks update and delete make, in order: the user, the record, the
      owner. */
  function AccessError(userKnown: bool, recordKnown: bool, owned: bool): (e: Option<ErrorCode>)
    ensures !userKnown ==> e == Some(UserNotFound)
    ensures userKnown && !recordKnown ==> e == Some(RecordNotFound)
    ensures userKnown && recordKnown && !owned ==> e == Some(RecordForbidden)
    ensures e.None? <==> userKnown && recordKnown && owned
  {
    if !userKnown then Some(UserNotFound)
    else if !recordKnown then Some(RecordNotFound)
    else if !owned then Some(RecordForbidden)
    else None
  }

  /** Both checks pass only for the owner: another user's existing record is
      forbidden to them, and is not reported as missing. */
  lemma OnlyOwnerPasses(userKnown: bool, recordKnown: bool, owner: int, userId: int)
    requires userKnown && recordKnown
    ensures AccessError(userKnown, recordKnown, owner == userId).None? <==> owner == userId
    ensures owner != userId ==> AccessError(userKnown, recordKnown, owner == userId) == Some(RecordForbidden)
  {
  }

  /** The prescription row holds the given category and texts. */
  ghost predicate Holds(p: AiPrescription, recordId: int, category: Category, texts: Texts)
    reads p
  {
    p.recordId == recordId && p.category == category
    && p.recommendationText == texts.recommendationText && p.journalExplain == texts.journalExplain
  }

  /** persistAiPrescription: an existing prescription is updated in place and
      saved again under its own id, and no other is built; otherwise exactly
      one new prescription of the record is saved. */
  method PersistAiPrescription(db: Database, recordId: int, category: Category, texts: Texts,
                               existing: Option<int>)
    returns (pid: int)
    requires db.Valid() && recordId in db.records
    requires existing.Some? ==> existing.value in db.prescriptions && db.prescriptions[existing.value].recordId == recordId
    requires existing.None? ==> !db.HasPrescription(recordId)
    modifies db, if existing.Some? then {db.prescriptions[existing.value]} else {}
    ensures db.Valid()
    ensures pid in db.prescriptions && Holds(db.prescriptions[pid], recordId, category, texts)
    ensures existing.Some? ==> pid == existing.value && db.prescriptions == old(db.prescriptions)
    ensures existing.None? ==>
              && pid !in old(db.prescriptions) && fresh(db.prescriptions[pid])
              && db.prescriptions == old(db.prescriptions)[pid := db.prescriptions[pid]]
    ensures db.history == old(db.history) + [PrescriptionSaved(pid)]
    ensures db.users == old(db.users) && db.records == old(db.records) && db.weatherLogs == old(db.weatherLogs)
    ensures unchanged(db.records[recordId])
  {
    if existing.Some? {
      var prescription := db.prescriptions[existing.value];
      prescription.Update(category, texts.recommendationText, texts.journalExplain);
      db.SavePrescription(existing.value);
      pid := existing.value;
    } else {
      var prescription := new AiPrescription(recordId, category, texts.recommendationText, texts.journalExplain);
      pid := db.InsertPrescription(prescription);
    }
  }

  /** generateAiPrescription: the category from the level, the texts from the
      reply with their fallbacks, then the upsert. */
  method GenerateAiPrescription(db: Database, recordId: int, level: EnergyLevel, weatherLog: WeatherLog,
                                existing: Option<int>, reply: Option<string>,
                                lookup: (string, string) -> JsonLookup,
                                capture: (string, string) -> Option<string>)
    returns (pid: int)
    requires db.Valid() && recordId in db.records
    requires existing.Some? ==> existing.value in db.prescriptions && db.prescriptions[existing.value].recordId == recordId
    requires existing.None? ==> !db.HasPrescription(recordId)
    modifies db, if existing.Some? then {db.prescriptions[existing.value]} else {}
    ensures db.Valid()
    ensures pid in db.prescriptions
    ensures Holds(db.prescriptions[pid], recordId, CategoryOf(level),
                  PrescriptionTexts(reply, old(db.records[recordId].journal), Some(weatherLog), level, lookup, capture))
    ensures existing.Some? ==> pid == existing.value && db.prescriptions == old(db.prescriptions)
    ensures existing.None? ==>
              && pid !in old(db.prescriptions) && fresh(db.prescriptions[pid])
              && db.prescriptions == old(db.prescriptions)[pid := db.prescriptions[pid]]
    ensures db.history == old(db.history) + [PrescriptionSaved(pid)]
    ensures db.users == old(db.users) && db.records == old(db.records) && db.weatherLogs == old(db.weatherLogs)
    ensures unchanged(db.records[recordId])
  {
    var category := CategoryOf(level);
    var texts := PrescriptionTexts(reply, db.records[recordId].journal, Some(weatherLog), level, lookup, capture);
    pid := PersistAiPrescription(db, recordId, category, texts, existing);
  }

  /** The new record built by createDailyRecord. */
  ghost predicate IsCreated(rec: DailyRecord, userId: int, today: Date, hour: int, req: RecordRequest, log: WeatherLog)
    requires 0 <= hour < 24
    reads rec
  {
    var mode := ConvertTransportMode(req.transportMode);
    var score := EnergyScore.EnergyScore(req, mode, Some(log));
    && rec.userId == userId && rec.recordDate == today && rec.timePeriod == TimePeriodOf(hour)
    && rec.emotionLevel == req.emotionLevel && rec.conversationLevel == req.conversationLevel
    && rec.meetingCount == Some(req.meetingCount.GetOr(0))
    && rec.transportMode == mode && rec.congestionLevel == req.congestionLevel
    && rec.location == req.location && rec.journal == req.journal
    && rec.energyScore == score && rec.energyLevel == Level(score)
  }

  /** The level a new record gets. */
  ghost function LevelOf(req: RecordRequest, log: WeatherLog): EnergyLevel {
    Level(EnergyScore.EnergyScore(req, ConvertTransportMode(req.transportMode), Some(log)))
  }

  /** Steps 3 and 5 to 7 of createRecord: the transport mode, the score, the
      level, and the new record saved. */
  method SaveNewRecord(db: Database, userId: int, today: Date, hour: int, req: RecordRequest, log: WeatherLog)
    returns (recordId: int)
    requires db.Valid() && ValidDate(today) && 0 <= hour < 24
    requires userId in db.users && !db.HasRecordOn(userId, today)
    modifies db
    ensures db.Valid()
    ensures recordId !in old(db.records) && recordId in db.records && !db.HasPrescription(recordId)
    ensures db.records == old(db.records)[recordId := db.records[recordId]]
    ensures IsCreated(db.records[recordId], userId, today, hour, req, log)
    ensures db.records[recordId].energyLevel == LevelOf(req, log)
    ensures db.history == old(db.history) + [RecordSaved(recordId)]
    ensures db.users == old(db.users) && db.prescriptions == old(db.prescriptions)
    ensures db.weatherLogs == old(db.weatherLogs)
  {
    var transportMode := ConvertTransportMode(req.transportMode);
    var energyScore := EnergyScore.EnergyScore(req, transportMode, Some(log));
    var energyLevel := Level(energyScore);
    var meetingCount := if req.meetingCount.Some? then req.meetingCount.value else 0;
    var record := new DailyRecord(userId, today, TimePeriodOf(hour), req.emotionLevel, req.conversationLevel,
                                  Some(meetingCount), transportMode, req.congestionLevel, req.location,
                                  req.journal, energyScore, energyLevel);
    recordId := db.InsertRecord(record);
  }

  /** Steps 4 to 7 of createRecord, once the checks have passed: the weather
      log, then the record. */
  method SaveWithWeather(db: Database, userId: int, today: Date, hour: int, req: RecordRequest,
                         air: string -> Option<AirQuality>,
                         weather: (int, int) -> Result<Reading, WeatherFailure>)
    returns (log: WeatherLog, recordId: int)
    requires db.Valid() && ValidDate(today) && 0 <= hour < 24
    requires userId in db.users && !db.HasRecordOn(userId, today)
    modifies db
    ensures db.Valid()
    ensures log == WeatherLogOf(req.location, air, weather)
    ensures db.weatherLogs == old(db.weatherLogs) + [log]
    ensures recordId !in old(db.records) && recordId in db.records && !db.HasPrescription(recordId)
    ensures db.records == old(db.records)[recordId := db.records[recordId]]
    ensures IsCreated(db.records[recordId], userId, today, hour, req, log)
    ensures db.records[recordId].energyLevel == LevelOf(req, log)
    ensures db.history == old(db.history) + [WeatherLogSaved, RecordSaved(recordId)]
    ensures db.users == old(db.users) && db.prescriptions == old(db.prescriptions)
  {
    ghost var before := db.history;
    log := FetchWeatherData(db, req.location, air, weather);
    recordId := SaveNewRecord(db, userId, today, hour, req, log);
    AppendTwice(before, WeatherLogSaved, RecordSaved(recordId));
  }

  /** createRecord. USER_NOT_FOUND, then RECORD_ALREADY_EXISTS for a second
      record on the same day; either leaves the database as it was (in
      particular no weather log is saved). Otherwise one weather log, one
      record and one prescription are saved, in that order. */
  method CreateRecord(db: Database, userId: int, req: RecordRequest, today: Date, hour: int,
                      air: string -> Option<AirQuality>,
                      weather: (int, int) -> Result<Reading, WeatherFailure>,
                      reply: Option<string>, lookup: (string, string) -> JsonLookup,
                      capture: (string, string) -> Option<string>)
    returns (r: Result<Saved, ErrorCode>)
    requires db.Valid() && ValidDate(today) && 0 <= hour < 24
    modifies db
    ensures db.Valid()
    ensures userId !in old(db.users) ==> r == Failure(UserNotFound)
    ensures userId in old(db.users) && old(db.HasRecordOn(userId, today)) ==> r == Failure(RecordAlreadyExists)
    ensures r.Failure? ==> Untouched(db)
    ensures r.Success? <==> userId in old(db.users) && !old(db.HasRecordOn(userId, today))
    ensures r.Success? ==>
              var s := r.value;
              && s.weatherLog == WeatherLogOf(req.location, air, weather)
              && db.weatherLogs == old(db.weatherLogs) + [s.weatherLog]
              && s.recordId !in old(db.records) && s.recordId in db.records
              && db.records == old(db.records)[s.recordId := db.records[s.recordId]]
              && IsCreated(db.records[s.recordId], userId, today, hour, req, s.weatherLog)
              && s.prescriptionId !in old(db.prescriptions) && s.prescriptionId in db.prescriptions
              && db.prescriptions == old(db.prescriptions)[s.prescriptionId := db.prescriptions[s.prescriptionId]]
              && Holds(db.prescriptions[s.prescriptionId], s.recordId, CategoryOf(LevelOf(req, s.weatherLog)),
                       PrescriptionTexts(reply, req.journal, Some(s.weatherLog), LevelOf(req, s.weatherLog),
                                         lookup, capture))
              && db.history == old(db.history) + [WeatherLogSaved, RecordSaved(s.recordId), PrescriptionSaved(s.prescriptionId)]
              && db.users == old(db.users)
  {
    if userId !in db.users {
      return Failure(UserNotFound);
    }
    if db.HasRecordOn(userId, today) {
      return Failure(RecordAlreadyExists);
    }
    ghost var before := db.history;
    var weatherLog, recordId := SaveWithWeather(db, userId, today, hour, req, air, weather);
    var energyLevel := db.records[recordId].energyLevel;
    var prescriptionId := GenerateAiPrescription(db, recordId, energyLevel, weatherLog, None, reply, lookup, capture);
    AppendToPair(before, WeatherLogSaved, RecordSaved(recordId), PrescriptionSaved(prescriptionId));
    return Success(Saved(recordId, prescriptionId, weatherLog));
  }

  /** The record after updateRecord: the request's answers as given, with
      the new score and level. */
  ghost predicate IsUpdated(rec: DailyRecord, req: RecordRequest, log: WeatherLog)
    reads rec
  {
    var mode := ConvertTransportMode(req.transportMode);
    var score := EnergyScore.EnergyScore(req, mode, Some(log));
    && rec.emotionLevel == req.emotionLevel && rec.conversationLevel == req.conversationLevel
    && rec.meetingCount == req.meetingCount
    && rec.transportMode == mode && rec.congestionLevel == req.congestionLevel
    && rec.location == req.location && rec.journal == req.journal
    && rec.energyScore == score && rec.energyLevel == Level(score)
  }

  /** The middle of updateRecord, once the checks have passed: the weather
      log, the score, and the record updated in place and saved. */
  method UpdateWithWeather(db: Database, recordId: int, req: RecordRequest,
                           air: string -> Option<AirQuality>,
                           weather: (int, int) -> Result<Reading, WeatherFailure>)
    returns (log: WeatherLog)
    requires db.Valid() && recordId in db.records
    modifies db, db.records[recordId]
    ensures db.Valid()
    ensures log == WeatherLogOf(req.location, air, weather)
    ensures db.weatherLogs == old(db.weatherLogs) + [log]
    ensures db.users == old(db.users) && db.records == old(db.records) && db.prescriptions == old(db.prescriptions)
    ensures IsUpdated(db.records[recordId], req, log)
    ensures db.records[recordId].energyLevel == LevelOf(req, log)
    ensures db.history == old(db.history) + [WeatherLogSaved, RecordSaved(recordId)]
  {
    ghost var before := db.history;
    var transportMode := ConvertTransportMode(req.transportMode);
    log := FetchWeatherData(db, req.location, air, weather);
    var energyScore := EnergyScore.EnergyScore(req, transportMode, Some(log));
    var energyLevel := Level(energyScore);
    var record := db.records[recordId];
    record.UpdateRecord(req.emotionLevel, req.conversationLevel, req.meetingCount, transportMode,
                        req.congestionLevel, req.location, req.journal, energyScore, energyLevel);
    db.SaveRecord(recordId);
    AppendTwice(before, WeatherLogSaved, RecordSaved(recordId));
  }

  /** Steps 4 to 8 of updateRecord, once the checks have passed: the weather
      log, the record updated and saved, then its prescription. */
  method RefreshRecord(db: Database, recordId: int, req: RecordRequest,
                       air: string -> Option<AirQuality>,
                       weather: (int, int) -> Result<Reading, WeatherFailure>,
                       reply: Option<string>, lookup: (string, string) -> JsonLookup,
                       capture: (string, string) -> Option<string>)
    returns (log: WeatherLog, prescriptionId: int)
    requires db.Valid() && recordId in db.records
    modifies db, db.records[recordId]
    modifies set p | p in db.prescriptions.Values && p.recordId == recordId
    ensures db.Valid()
    ensures log == WeatherLogOf(req.location, air, weather)
    ensures db.weatherLogs == old(db.weatherLogs) + [log]
    ensures db.records == old(db.records) && db.users == old(db.users)
    ensures IsUpdated(db.records[recordId], req, log)
    ensures prescriptionId in db.prescriptions
    ensures Holds(db.prescriptions[prescriptionId], recordId, CategoryOf(LevelOf(req, log)),
                  PrescriptionTexts(reply, req.journal, Some(log), LevelOf(req, log), lookup, capture))
    ensures old(db.HasPrescription(recordId)) ==>
              prescriptionId in old(db.prescriptions) && db.prescriptions == old(db.prescriptions)
    ensures !old(db.HasPrescription(recordId)) ==>
              && prescriptionId !in old(db.prescriptions)
              && db.prescriptions == old(db.prescriptions)[prescriptionId := db.prescriptions[prescriptionId]]
    ensures db.history == old(db.history) + [WeatherLogSaved, RecordSaved(recordId), PrescriptionSaved(prescriptionId)]
  {
    ghost var before := db.history;
    log := UpdateWithWeather(db, recordId, req, air, weather);
    var record := db.records[recordId];
    var existing := db.FindPrescriptionByRecord(recordId);
    var energyLevel := record.energyLevel;
    prescriptionId := GenerateAiPrescription(db, recordId, energyLevel, log, existing, reply, lookup, capture);
    AppendToPair(before, WeatherLogSaved, RecordSaved(recordId), PrescriptionSaved(prescriptionId));
  }

  /** updateRecord. USER_NOT_FOUND, RECORD_NOT_FOUND, RECORD_FORBIDDEN, in that
      order, each before anything changes. Otherwise the record is updated in
      place, and its prescription is updated in place when it has one and
      created otherwise. */
  method UpdateRecord(db: Database, userId: int, recordId: int, req: RecordRequest,
                      air: string -> Option<AirQuality>,
                      weather: (int, int) -> Result<Reading, WeatherFailure>,
                      reply: Option<string>, lookup: (string, string) -> JsonLookup,
                      capture: (string, string) -> Option<string>)
    returns (r: Result<Saved, ErrorCode>)
    requires db.Valid()
    modifies db, if recordId in db.records then {db.records[recordId]} else {}
    modifies set p | p in db.prescriptions.Values && p.recordId == recordId
    ensures db.Valid()
    ensures var e := AccessError(userId in old(db.users), recordId in old(db.records),
                                 recordId in old(db.records) && old(db.records)[recordId].userId == userId);
            && (r.Failure? <==> e.Some?)
            && (r.Failure? ==> r.error == e.value && Untouched(db))
    ensures r.Failure? && recordId in old(db.records) ==> unchanged(old(db.records)[recordId])
    ensures r.Success? ==>
              var s := r.value;
              && s.recordId == recordId
              && s.weatherLog == WeatherLogOf(req.location, air, weather)
              && db.weatherLogs == old(db.weatherLogs) + [s.weatherLog]
              && db.records == old(db.records) && db.users == old(db.users)
              && IsUpdated(db.records[recordId], req, s.weatherLog)
              && s.prescriptionId in db.prescriptions
              && Holds(db.prescriptions[s.prescriptionId], recordId, CategoryOf(LevelOf(req, s.weatherLog)),
                       PrescriptionTexts(reply, req.journal, Some(s.weatherLog), LevelOf(req, s.weatherLog),
                                         lookup, capture))
              && (old(db.HasPrescription(recordId)) ==>
                    s.prescriptionId in old(db.prescriptions) && db.prescriptions == old(db.prescriptions))
              && (!old(db.HasPrescription(recordId)) ==>
                    && s.prescriptionId !in old(db.prescriptions)
                    && db.prescriptions == old(db.prescriptions)[s.prescriptionId := db.prescriptions[s.prescriptionId]])
              && db.history == old(db.history) + [WeatherLogSaved, RecordSaved(recordId), PrescriptionSaved(s.prescriptionId)]
  {
    if userId !in db.users {
      return Failure(UserNotFound);
    }
    if recordId !in db.records {
      return Failure(RecordNotFound);
    }
    if db.records[recordId].userId != userId {
      return Failure(RecordForbidden);
    }
    var weatherLog, prescriptionId := RefreshRecord(db, recordId, req, air, weather, reply, lookup, capture);
    return Success(Saved(recordId, prescriptionId, weatherLog));
  }

  /** deleteRecord. The same checks as updateRecord, each before anything
      changes; then the record's prescription, if any, is deleted before the
      record. `deleted` names the prescription removed. */
  method DeleteRecord(db: Database, userId: int, recordId: int) returns (e: Option<ErrorCode>, ghost deleted: Option<int>)
    requires db.Valid()
    modifies db
    ensures db.Valid()
    ensures e == AccessError(userId in old(db.users), recordId in old(db.records),
                             recordId in old(db.records) && old(db.records)[recordId].userId == userId)
    ensures e.Some? ==> Untouched(db)
    ensures e.None? ==>
              && db.records == old(db.records) - {recordId} && !db.HasPrescription(recordId)
              && db.users == old(db.users) && db.weatherLogs == old(db.weatherLogs)
              && (deleted.Some? <==> old(db.HasPrescription(recordId)))
    ensures e.None? && deleted.Some? ==>
              && deleted.value in old(db.prescriptions) && old(db.prescriptions)[deleted.value].recordId == recordId
              && db.prescriptions == old(db.prescriptions) - {deleted.value}
              && db.history == old(db.history) + [PrescriptionsDeleted({deleted.value}), RecordsDeleted({recordId})]
    ensures e.None? && deleted.None? ==>
              db.prescriptions == old(db.prescriptions) && db.history == old(db.history) + [RecordsDeleted({recordId})]
  {
    deleted := None;
    if userId !in db.users {
      return Some(UserNotFound), deleted;
    }
    if recordId !in db.records {
      return Some(RecordNotFound), deleted;
    }
    if db.records[recordId].userId != userId {
      return Some(RecordForbidden), deleted;
    }
    ghost var before := db.history;
    var existing := db.FindPrescriptionByRecord(recordId);
    if existing.Some? {
      db.DeletePrescription(existing.value);
      deleted := existing;
    }
    db.DeleteRecord(recordId);
    if existing.Some? {
      AppendTwice(before, PrescriptionsDeleted({existing.value}), RecordsDeleted({recordId}));
    }
    return None, deleted;
  }
}
