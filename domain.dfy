/** The enumerations, error codes and the weather observation shared by the services. */
module Domain {
  import opened Wrappers

  /** TransportMode: the three modes the score engine distinguishes. */
  datatype TransportMode = Walk | Subway | Bus

  /** WeatherCondition (clear, clouds, rain, snow, other). */
  datatype WeatherCondition = Clear | Clouds | Rain | Snow | Other

  /** EnergyLevel, the band of an energy score. */
  datatype EnergyLevel = Low | Medium | High

  /** TimePeriod; `Hoon` is the source's name for the afternoon bucket. */
  datatype TimePeriod = Morning | Hoon | Evening | Night

  /** AiPrescriptionCategory. */
  datatype Category = Recovery | Social

  /** Role: only ROLE_USER is named by the core; other roles are carried by name. */
  datatype Role = RoleUser | OtherRole(name: string)

  /** The ErrorCode constants the core throws. `UnparsableDate` stands for the
      DateTimeParseException that LocalDate.parse throws. */
  datatype ErrorCode =
    | UserNotFound
    | RecordNotFound
    | RecordForbidden
    | RecordAlreadyExists
    | ConflictNickname
    | InvalidPeriodRequest
    | FileEmpty
    | FileUploadFailed
    | UnparsableDate

  /** WeatherLog, the persisted observation. Every column is a nullable
      reference in the entity; the enrichment pipeline fills all of them. */
  datatype WeatherLog = WeatherLog(
    location: string,
    temperature: Option<real>,
    condition: Option<WeatherCondition>,
    pm10: Option<int>,
    pm25: Option<int>,
    airQualityIndex: Option<int>)
}
