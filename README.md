# ISFX shim: a Dafny model of the energy-record core

The ISFX "shim" back end lets a user record their day: mood, conversations,
meetings, transport and how crowded it was, where they were, and an optional
journal. From that record and the weather at that place it computes an
energy score, an energy level and an AI "prescription" (a category, a
recommendation and an explanation of the journal). Users can edit or delete
their records, see weekly or monthly statistics, manage a profile image
stored in S3, and delete their account.

This project models that core in Dafny 4.11 and proves properties of the model:

- **The energy score engine** (`energy_score.dfy`):
  - the social, movement and weather sub-scores;
  - the 40/30/30 weighted sum with its clamp and 2-decimal rounding;
  - the LOW/MEDIUM/HIGH bands, transport-mode conversion and the time-of-day bucket.
- **The prescription texts** (`prescription.dfy`):
  - the category and the templates;
  - the code-fence slice and the JSON field fallback;
  - the unescaping of a regex capture.
- **The record service** (`record_service.dfy`):
  - create, update and delete of a daily record over an in-memory database (`store.dfy`), with error order and frame conditions;
  - the prescription upsert.
- **The weather enrichment** (`weather_service.dfy`, `kma_weather_client.dfy`, `air_quality_client.dfy`, `coordinate_mapper.dfy`, `district_table.dfy`):
  - location normalisation and the mock label;
  - provider fallbacks and defaults;
  - the condition map;
  - the KMA response checks and item scan;
  - the Seoul air-quality row selection;
  - the 25-district grid table.
- **The user service** (`user_service.dfy`, `user.dfy`):
  - profile and nickname updates;
  - profile-image replacement through S3;
  - the account-deletion cascade;
  - weekly and monthly statistics with HALF_UP averaging.
- **Small helpers**:
  - the `Bearer ` prefix of `JwtUtil` (`jwt_util.dfy`);
  - S3 object keys, object URLs and key extraction (`s3_util.dfy`), with Java's `URLEncoder` in `url_encoding.dfy`;
  - `UpstageChatResponseDto.getContent` (`upstage_chat_response.dfy`);
  - the bean-validation constraints of `CreateRecordRequest` (`create_record_request.dfy`).
- **Supporting modules**:
  - `wrappers.dfy`: `Option` and `Result`.
  - `java_strings.dfy`: Java's `trim`, `isBlank`, `toLowerCase`, `indexOf` and `replace`.
  - `json_node.dfy`: Jackson's `JsonNode` `path`/`asText`/`asInt`/`asDouble`.
  - `calendar.dfy`: `LocalDate` arithmetic, ISO parsing and the proleptic Gregorian leap rule.
  - `domain.dfy`: the enums and error codes.

The repositories and JPA entities become classes:
- `DailyRecord`, `AiPrescription` and `User` objects are updated in place.
- A `Database` object holds the users, records and prescriptions as maps from id to object, plus the saved weather logs.
- The database also keeps a `history` of every repository write and S3 request, in call order. The order properties are stated on that history:
  - prescription before record, before user;
  - weather log before record, before prescription;
  - S3 delete before upload.

The external services are parameters:
- the air-quality and weather providers are functions from a location or grid point to a reading or a failure;
- the language model's reply is an `Option<string>`, with `None` for a thrown call;
- Jackson's `readTree`/`get` and the fallback regular expression are function parameters;
- the clock is a `today` date and an `hour`;
- `UUID.randomUUID()` is a `uuid` string;
- an S3 I/O failure is a boolean.

Java `double` values are exact `real`s. `Math.round(x*100)/100` is `Floor(x*100 + 0.5)/100`. `BigDecimal`'s HALF_UP is rounding of hundredths with ties away from zero.

Two behaviours worth knowing, each proved:
- **Real readings of 30/15/50 are labelled mock.** `AirQualityClient.getAirQuality` falls back to the triple 30/15/50 when it finds no station row or throws. `WeatherService.fetchWeatherData` treats that same triple as the "mock" sentinel. So a station that really measures PM10 30, PM2.5 15 and CAI 50 is stored with the mock label (`WeatherService.RealReadingLabelledMock`). A reading whose three values are all null is stored as 30/15/50 without the label (`WeatherService.NullReadingDefaulted`).
- **Renaming to your own name conflicts.** `updateUserInfo` checks `existsByName` before it looks the user up, so a user who renames themself to their current nickname gets CONFLICT_NICKNAME (`UserService.UpdateUserInfo`).

## Model

| member | source | states |
|---|---|---|
| `JavaStrings.TrimStart` | src/main/java/com/isfx/shim/service/WeatherService.java:26 | the result is a suffix of the input whose first character is not trimmable |
| `JavaStrings.TrimEnd` | src/main/java/com/isfx/shim/service/WeatherService.java:26 | the result is a prefix of the input whose last character is not trimmable |
| `JavaStrings.TrimStartDropsTrimmable` | src/main/java/com/isfx/shim/service/WeatherService.java:26 | everything `trim` drops at the front is a character <= U+0020 |
| `JavaStrings.TrimEndDropsTrimmable` | src/main/java/com/isfx/shim/service/WeatherService.java:26 | everything `trim` drops at the end is a character <= U+0020 |
| `JavaStrings.TrimIdempotent` | src/main/java/com/isfx/shim/service/CoordinateMapper.java:45 | trimming twice is trimming once |
| `JavaStrings.TrimIgnoresPadding` | src/main/java/com/isfx/shim/service/CoordinateMapper.java:45 | surrounding control/space characters do not change `trim`'s result |
| `JavaStrings.BlankTrimsToBlank` | src/main/java/com/isfx/shim/service/CoordinateMapper.java:42-45 | a blank string trims to a blank string |
| `JavaStrings.VisibleCharNotTrimmedAway` | src/main/java/com/isfx/shim/service/RecordService.java:511-515 | a string with a character above U+0020 does not trim to empty |
| `JavaStrings.ToLower` | src/main/java/com/isfx/shim/service/CoordinateMapper.java:45 | ASCII 'A'-'Z' become 'a'-'z' and every other character is kept, so the length is kept |
| `JavaStrings.TrimCommutesWithLower` | src/main/java/com/isfx/shim/service/CoordinateMapper.java:45 | trimming then lower-casing equals lower-casing then trimming |
| `JavaStrings.ToLowerIdempotent` | src/main/java/com/isfx/shim/service/CoordinateMapper.java:47 | lower-casing twice is lower-casing once |
| `JavaStrings.BlankUnderLower` | src/main/java/com/isfx/shim/service/CoordinateMapper.java:42-45 | lower-casing neither creates nor removes blankness |
| `JavaStrings.IndexOf` | src/main/java/com/isfx/shim/global/util/S3Util.java:76 | -1 exactly when the pattern occurs nowhere; otherwise its first occurrence |
| `JavaStrings.IndexOfChar` | src/main/java/com/isfx/shim/service/RecordService.java:559 | -1 exactly when the character is absent; otherwise its first position |
| `JavaStrings.Replace` | src/main/java/com/isfx/shim/service/RecordService.java:586 | a replacement no longer than its target never lengthens the text |
| `JavaStrings.ReplaceNoOccurrence` | src/main/java/com/isfx/shim/service/RecordService.java:586 | a text in which the target never occurs is returned unchanged |
| `JavaStrings.ReplaceFirstOccurrence` | src/main/java/com/isfx/shim/service/RecordService.java:586 | the first occurrence is replaced, the text before it kept, and the scan resumes after it, so occurrences do not overlap |
| `JavaStrings.ReplaceSkip` | src/main/java/com/isfx/shim/service/RecordService.java:586 | a character that cannot start the target is copied and the scan goes on after it |
| `JavaStrings.ReplaceHit` | src/main/java/com/isfx/shim/service/RecordService.java:586 | an occurrence at the front becomes the replacement and the scan goes on after it |
| `JavaStrings.OccursAtShift` | src/main/java/com/isfx/shim/service/RecordService.java:586 | dropping the first character moves every occurrence one place left |
| `JavaStrings.ReplaceAbsent` | src/main/java/com/isfx/shim/service/RecordService.java:586 | a text without the target's first character is returned unchanged |
| `JavaStrings.LastIndexOfChar` | src/main/java/com/isfx/shim/service/RecordService.java:560 | -1 exactly when the character is absent; otherwise its last position |
| `JsonNode.Lookup` | src/main/java/com/isfx/shim/service/KmaWeatherClient.java:57 | a found member is one of the object's (key, value) pairs; an absent key gives the missing node |
| `JsonNode.DigitsOfNaturalText` | src/main/java/com/isfx/shim/service/KmaWeatherClient.java:110 | the decimal text of a natural reads back as that natural |
| `JsonNode.ParseIntText` | src/main/java/com/isfx/shim/service/KmaWeatherClient.java:109 | the decimal text of any integer parses back to it |
| `JsonNode.AsText` | src/main/java/com/isfx/shim/service/KmaWeatherClient.java:64 | a textual node gives its text; a missing or null node gives the default |
| `JsonNode.AsInt` | src/main/java/com/isfx/shim/service/KmaWeatherClient.java:79 | of the node kinds modelled (no boolean, no fractional number), a number gives its value and a node that is neither number nor text gives the default |
| `JsonNode.AsDouble` | src/main/java/com/isfx/shim/service/KmaWeatherClient.java:109 | of the node kinds modelled (no boolean, no fractional number), a number gives its value and a node that is neither number nor text gives NaN (None) |
| `JsonNode.TextualNumberAsInt` | src/main/java/com/isfx/shim/service/AirQualityClient.java:47 | a numeric text node reads as its integer |
| `JsonNode.TextualNumberAsDouble` | src/main/java/com/isfx/shim/service/KmaWeatherClient.java:109 | a numeric text node reads as its number |
| `Calendar.LengthOfMonth` | src/main/java/com/isfx/shim/service/UserService.java:170 | 28 to 31 days, and February has 29 exactly in leap years |
| `Calendar.EpochAnchors` | src/main/java/com/isfx/shim/service/UserService.java:162 | 1970-01-01 is day 0 and 2024-01-01 is a Monday |
| `Calendar.MonthsContiguous` | src/main/java/com/isfx/shim/service/UserService.java:168-170 | the day after a month's last day is the next month's first |
| `Calendar.YearsContiguous` | src/main/java/com/isfx/shim/service/UserService.java:168-170 | the day after 31 December is 1 January of the next year |
| `Calendar.YearBaseStep` | src/main/java/com/isfx/shim/service/UserService.java:170 | a year has 366 days when leap, 365 otherwise |
| `Calendar.EarlierMonthEndsBefore` | src/main/java/com/isfx/shim/service/UserService.java:168-170 | every day of an earlier month precedes every day of a later month |
| `Calendar.WeekWindow` | src/main/java/com/isfx/shim/service/UserService.java:165-167 | the window starts on a Monday, ends six days later and holds the date |
| `Calendar.WeekWindowUnique` | src/main/java/com/isfx/shim/service/UserService.java:165-167 | the window's Monday is the only Monday at most six days before the date |
| `Calendar.MonthWindow` | src/main/java/com/isfx/shim/service/UserService.java:168-170 | the window holds the date and is as long as its month |
| `Calendar.MonthWindowExact` | src/main/java/com/isfx/shim/service/UserService.java:168-170 | a valid date lies in the window exactly when it is in the same year and month |
| `Calendar.ParseIsoDate` | src/main/java/com/isfx/shim/service/UserService.java:162 | only valid dates are parsed |
| `Calendar.ParseIsoText` | src/main/java/com/isfx/shim/service/UserService.java:162 | the ISO text of any date in years 0-9999 parses back to that date |
| `Calendar.ParsedTextIsCanonical` | src/main/java/com/isfx/shim/service/UserService.java:162 | a text that parses is the ISO text of the date it parses to |
| `EnergyScore.Clamp` | src/main/java/com/isfx/shim/service/RecordService.java:204 | the result lies in the bounds and is the input when the input does |
| `EnergyScore.TimePeriodOf` | src/main/java/com/isfx/shim/service/RecordService.java:151-164 | morning 6-11, afternoon 12-17, evening 18-21, night otherwise, each an iff |
| `EnergyScore.ConvertTransportMode` | src/main/java/com/isfx/shim/service/RecordService.java:169-179 | null gives SUBWAY; SUBWAY iff the lower-cased text is "subway", BUS iff "bus", WALK otherwise |
| `EnergyScore.UnlistedModesWalk` | src/main/java/com/isfx/shim/service/RecordService.java:173-178 | "car", "bike" and "none" give WALK; case is ignored |
| `EnergyScore.SocialScore` | src/main/java/com/isfx/shim/service/RecordService.java:233-250 | the social sub-score lies in [0,100] |
| `EnergyScore.SocialScoreOfValid` | src/main/java/com/isfx/shim/service/RecordService.java:233-250 | for a valid request it is 8·emotion + 6·conversation + min(30, 10·meetings), at least 14 |
| `EnergyScore.SocialScoreInRange` | src/main/java/com/isfx/shim/service/RecordService.java:233-250 | the same closed form whenever the three inputs are present and in range |
| `EnergyScore.SocialScoreMaximum` | src/main/java/com/isfx/shim/service/RecordService.java:233-250 | emotion 5, conversation 5 and three meetings give 100 |
| `EnergyScore.EffectiveCongestion` | src/main/java/com/isfx/shim/service/RecordService.java:279-281 | null reads as 3; the value is clamped to [1,5] and kept when inside |
| `EnergyScore.MovementScore` | src/main/java/com/isfx/shim/service/RecordService.java:277-295 | the movement sub-score lies in [60,100] and is 100 only walking at congestion 1 |
| `EnergyScore.MovementScoreAntitone` | src/main/java/com/isfx/shim/service/RecordService.java:291-294 | more congestion never raises the movement score |
| `EnergyScore.MovementScoreExtremes` | src/main/java/com/isfx/shim/service/RecordService.java:284-294 | walk at 1 gives 100, bus at 5 gives 60, subway with null congestion gives 75 |
| `EnergyScore.ConditionScore` | src/main/java/com/isfx/shim/service/RecordService.java:380-391 | condition points lie in [15,33]; 33 iff clear, 15 iff snow |
| `EnergyScore.AirQualityScore` | src/main/java/com/isfx/shim/service/RecordService.java:349-354 | the air term lies in [0,33] and is 33 iff pm10 <= 30 and pm25 <= 15 |
| `EnergyScore.TemperatureScore` | src/main/java/com/isfx/shim/service/RecordService.java:342 | the temperature term lies in (0,33] and is 33 exactly at 21 °C |
| `EnergyScore.TemperatureScoreSymmetric` | src/main/java/com/isfx/shim/service/RecordService.java:342 | the temperature term is symmetric around 21 °C |
| `EnergyScore.TemperatureScoreFallsOff` | src/main/java/com/isfx/shim/service/RecordService.java:342 | farther from 21 °C never scores higher |
| `EnergyScore.WeatherScore` | src/main/java/com/isfx/shim/service/RecordService.java:328-361 | a null log gives 70; any log gives a score in (15,99] |
| `EnergyScore.WeatherScoreIdeal` | src/main/java/com/isfx/shim/service/RecordService.java:328-361 | 21 °C, clear, pm10 30 and pm25 15 give 99 |
| `EnergyScore.WeatherScoreMaximumOnlyWhenIdeal` | src/main/java/com/isfx/shim/service/RecordService.java:328-361 | a weather score of 99 needs 21 °C (or none), clear sky, PM10 at most 30 and PM2.5 at most 15 (or none) |
| `EnergyScore.Round2` | src/main/java/com/isfx/shim/service/RecordService.java:207 | the result is a whole number of hundredths within half a hundredth above or below |
| `EnergyScore.Round2Bounded` | src/main/java/com/isfx/shim/service/RecordService.java:204-207 | rounding a value in [0,100] stays in [0,100] |
| `EnergyScore.Round2Hundredths` | src/main/java/com/isfx/shim/service/RecordService.java:207 | a whole number of hundredths is left as it is |
| `EnergyScore.EnergyScore` | src/main/java/com/isfx/shim/service/RecordService.java:194-210 | the final score lies in [0,100], has at most 2 decimals and is within 0.005 of the weighted sum |
| `EnergyScore.Level` | src/main/java/com/isfx/shim/service/RecordService.java:406-414 | LOW iff below 33, MEDIUM iff in [33,67), HIGH iff 67 or more |
| `EnergyScore.LevelMonotone` | src/main/java/com/isfx/shim/service/RecordService.java:406-414 | a higher score never gets a lower level |
| `EnergyScore.EndToEndExample` | src/main/java/com/isfx/shim/service/RecordService.java:194-210 | 21 °C, clear, 30/15, emotion 5, conversation 5, 3 meetings, walking at congestion 1 give 99.7 and HIGH |
| `Prescription.CategoryOf` | src/main/java/com/isfx/shim/service/RecordService.java:451-453 | the category is social iff the level is HIGH, recovery otherwise |
| `Prescription.RecommendationTemplate` | src/main/java/com/isfx/shim/service/RecordService.java:633-643 | social gives the social text; recovery gives the rest text at LOW and the stretch text at MEDIUM |
| `Prescription.RecommendationTemplateNotBlank` | src/main/java/com/isfx/shim/service/RecordService.java:633-643 | no recommendation template is blank |
| `Prescription.RecommendationByLevel` | src/main/java/com/isfx/shim/service/RecordService.java:634-641 | with the derived category the text is fixed by the level, one text per level, and the recovery default arm is never taken |
| `Prescription.JournalExplain` | src/main/java/com/isfx/shim/service/RecordService.java:599-628 | the explanation ends with the level phrase and starts with the acknowledgement iff the journal has text |
| `Prescription.JournalExplainNotBlank` | src/main/java/com/isfx/shim/service/RecordService.java:599-628 | the explanation template is never blank |
| `Prescription.JournalExplainMentionsWeather` | src/main/java/com/isfx/shim/service/RecordService.java:606-616 | the weather sentence follows the acknowledgement when the log names a condition, and is absent otherwise |
| `Prescription.BuildJournalExplain` | src/main/java/com/isfx/shim/service/RecordService.java:599-628 | the StringBuilder version builds exactly the explanation |
| `Prescription.SliceFenced` | src/main/java/com/isfx/shim/service/RecordService.java:558-564 | an unfenced reply is kept; a fenced one with a '{' before its last '}' is cut from the first '{' to the last '}', and any other fenced reply is kept |
| `Prescription.CleanResponseIdempotent` | src/main/java/com/isfx/shim/service/RecordService.java:557-564 | cleaning a cleaned reply changes nothing |
| `Prescription.FencedObjectExtracted` | src/main/java/com/isfx/shim/service/RecordService.java:557-564 | a fenced reply around one JSON object cleans to exactly that object |
| `Prescription.ChainUnescapeMisreadsEscapedBackslash` | src/main/java/com/isfx/shim/service/RecordService.java:586 | the replace chain turns the escaped text of backslash-n into backslash-newline |
| `Prescription.UnescapeEscape` | src/main/java/com/isfx/shim/service/RecordService.java:581-586 | one-pass unescaping inverts JSON escaping of quotes, newlines and backslashes |
| `Prescription.ChainUnescape` | src/main/java/com/isfx/shim/service/RecordService.java:586 | the three `replace` calls in the source's order; the result is never longer than the capture |
| `Prescription.ChainUnescapeEscapePlain` | src/main/java/com/isfx/shim/service/RecordService.java:586 | the chain undoes the escaping of any text without backslashes, quotes and newlines included |
| `Prescription.QuoteStepOfEscape` | src/main/java/com/isfx/shim/service/RecordService.java:586 | on escaped text without backslashes, the first `replace` restores exactly the quotes |
| `Prescription.QuoteStepSkipsNewline` | src/main/java/com/isfx/shim/service/RecordService.java:586 | the first `replace` copies an escaped newline, since it is not an escaped quote |
| `Prescription.NewlineStepOfEscaped` | src/main/java/com/isfx/shim/service/RecordService.java:586 | the second `replace` then restores the newlines |
| `Prescription.ChainUnescapeKeepsPlainText` | src/main/java/com/isfx/shim/service/RecordService.java:586 | a capture without a backslash comes through the chain unchanged |
| `Prescription.ParseJsonField` | src/main/java/com/isfx/shim/service/RecordService.java:554-594 | a textual field is returned, a missing or non-text one is null, and an unparsable reply falls back to the regex capture passed through the replace chain |
| `Prescription.OrTemplate` | src/main/java/com/isfx/shim/service/RecordService.java:511-516 | the result is never blank; parsed text that is present and not blank is kept, otherwise the template is used |
| `Prescription.PrescriptionTexts` | src/main/java/com/isfx/shim/service/RecordService.java:455-528 | neither text is blank; a thrown call gives both templates; each text is its template or the parsed field |
| `Prescription.ChooseTexts` | src/main/java/com/isfx/shim/service/RecordService.java:507-516 | neither text is blank; with no reply both are the templates; each text is its template or its parsed field |
| `Prescription.ModelTextKept` | src/main/java/com/isfx/shim/service/RecordService.java:507-513 | a non-blank parsed explanation is kept as the model wrote it |
| `Prescription.RecommendationTextKept` | src/main/java/com/isfx/shim/service/RecordService.java:508-516 | a non-blank parsed recommendation is kept as the model wrote it |
| `Prescription.BlankFieldFallsBack` | src/main/java/com/isfx/shim/service/RecordService.java:507-516 | a missing or blank explanation or recommendation is replaced by its template |
| `WeatherService.MapCondition` | src/main/java/com/isfx/shim/service/WeatherService.java:110-122 | rain iff precipitation 1 or 2, snow iff 3; otherwise clear iff sky 1, clouds iff sky 3 or 4 |
| `WeatherService.NormalizedLocation` | src/main/java/com/isfx/shim/service/WeatherService.java:26 | null becomes the Seoul default; anything else is trimmed |
| `WeatherService.BlankLocationKept` | src/main/java/com/isfx/shim/service/WeatherService.java:26 | a blank location stays blank and maps to the default grid point |
| `WeatherService.MockTripleIsFallback` | src/main/java/com/isfx/shim/service/WeatherService.java:38-40 | a reading is the mock sentinel iff it equals the fallback 30/15/50 |
| `WeatherService.AirReading` | src/main/java/com/isfx/shim/service/WeatherService.java:31-55 | the mock flag is set iff the provider threw or answered 30/15/50; a throw gives 30/15/50 |
| `WeatherService.WeatherReading` | src/main/java/com/isfx/shim/service/WeatherService.java:59-72 | a failed call leaves temperature and condition null; a reading is kept with its condition mapped |
| `WeatherService.WeatherLogOf` | src/main/java/com/isfx/shim/service/WeatherService.java:78-92 | no stored field of the log is null |
| `WeatherService.AirColumnsStored` | src/main/java/com/isfx/shim/service/WeatherService.java:80-82 | when the provider answers, a present PM10, PM2.5 or index is stored as read, and a null one gets its own default 30, 15 or 50 |
| `WeatherService.MockLabel` | src/main/java/com/isfx/shim/service/WeatherService.java:75 | the stored location is the prefixed label iff the mock flag is set, the bare location otherwise |
| `WeatherService.ThrowingAirProvider` | src/main/java/com/isfx/shim/service/WeatherService.java:47-55 | a throwing provider gives 30/15/50 and the mock label |
| `WeatherService.NullReadingDefaulted` | src/main/java/com/isfx/shim/service/WeatherService.java:80-82 | an all-null reading is stored as 30/15/50 without the mock label |
| `WeatherService.WeatherFailureDefaults` | src/main/java/com/isfx/shim/service/WeatherService.java:66-79 | a failed weather call is stored as 21.0 and other |
| `WeatherService.WeatherReadingStored` | src/main/java/com/isfx/shim/service/WeatherService.java:58-64 | the call is made for the location's grid point and its reading is stored with the mapped condition |
| `WeatherService.LabelIndependentOfWeather` | src/main/java/com/isfx/shim/service/WeatherService.java:57-75 | the weather provider has no effect on the label or the air columns |
| `WeatherService.ClientAnswersFallbackTriple` | src/main/java/com/isfx/shim/service/AirQualityClient.java:44-55 | a first matching row of 30/15/50 makes the real client answer its own fallback triple |
| `WeatherService.RealReadingLabelledMock` | src/main/java/com/isfx/shim/service/WeatherService.java:38-42 | a real 30/15/50 measurement is stored with the mock label |
| `WeatherService.BuildWeatherLog` | src/main/java/com/isfx/shim/service/WeatherService.java:25-92 | the imperative body builds exactly the specified log |
| `WeatherService.FetchWeatherData` | src/main/java/com/isfx/shim/service/WeatherService.java:25-95 | exactly one weather log is saved, the specified one, and nothing else changes |
| `CoordinateMapper.GridIn` | src/main/java/com/isfx/shim/service/CoordinateMapper.java:41-51 | null or blank gives the default; otherwise a table entry whose key equals the normalised name, or the default when none does |
| `CoordinateMapper.EntryFound` | src/main/java/com/isfx/shim/service/CoordinateMapper.java:45-50 | a listed district gives its listed coordinate |
| `CoordinateMapper.GangnamAndGangdong` | src/main/java/com/isfx/shim/service/CoordinateMapper.java:31-33 | 강남구 gives (61,125) and 강동구 gives (63,126) |
| `CoordinateMapper.PaddingIgnored` | src/main/java/com/isfx/shim/service/CoordinateMapper.java:45 | surrounding whitespace does not change the grid point |
| `CoordinateMapper.CaseInsensitive` | src/main/java/com/isfx/shim/service/CoordinateMapper.java:45-47 | lower-casing the name does not change the grid point |
| `CoordinateMapper.IdeographicSpaceNotTrimmed` | src/main/java/com/isfx/shim/service/CoordinateMapper.java:45 | an ideographic space is not trimmed, so the padded name gets the default |
| `DistrictTable.TableKeysAreHangul` | src/main/java/com/isfx/shim/service/CoordinateMapper.java:8-34 | every key of the 25-entry table is a word of Hangul syllables |
| `KmaWeatherClient.BaseHour` | src/main/java/com/isfx/shim/service/KmaWeatherClient.java:148-156 | the base hour lies in [0,24) and is one hour before the current hour, modulo 24 |
| `KmaWeatherClient.BaseTime` | src/main/java/com/isfx/shim/service/KmaWeatherClient.java:155 | four characters: the base hour in two digits, then "00" |
| `KmaWeatherClient.BaseTimeExamples` | src/main/java/com/isfx/shim/service/KmaWeatherClient.java:153-155 | hour 0 gives "2300", 1 gives "0000", 10 gives "0900"; at hour 0 the source pairs "2300" with today's date (line 30), a time that day has not reached |
| `KmaWeatherClient.Validate` | src/main/java/com/isfx/shim/service/KmaWeatherClient.java:51-95 | a response passes only with a body, a response node, result code "00", a non-zero count and an item node |
| `KmaWeatherClient.Step` | src/main/java/com/isfx/shim/service/KmaWeatherClient.java:107-115 | an item of another category changes nothing |
| `KmaWeatherClient.LastWithCategory` | src/main/java/com/isfx/shim/service/KmaWeatherClient.java:104-116 | the index of the last item of a category, or -1 when there is none |
| `KmaWeatherClient.ScanIsLastWrite` | src/main/java/com/isfx/shim/service/KmaWeatherClient.java:100-128 | each variable holds the last item of its category, or its initial value 1 / 0 / NaN |
| `KmaWeatherClient.ScanItems` | src/main/java/com/isfx/shim/service/KmaWeatherClient.java:100-128 | the loop over the items computes the specified scan |
| `KmaWeatherClient.WeatherOf` | src/main/java/com/isfx/shim/service/KmaWeatherClient.java:47-137 | success iff the response passes the checks and has a temperature item; the reading is the scan's |
| `KmaWeatherClient.NoTemperatureItemFails` | src/main/java/com/isfx/shim/service/KmaWeatherClient.java:130-134 | a response without a T1H item is an error |
| `KmaWeatherClient.ErrorResultReported` | src/main/java/com/isfx/shim/service/KmaWeatherClient.java:64-70 | a result code other than "00" is reported as that error |
| `KmaWeatherClient.GetWeather` | src/main/java/com/isfx/shim/service/KmaWeatherClient.java:47-142 | the imperative call returns exactly the specified result |
| `AirQualityClient.TargetName` | src/main/java/com/isfx/shim/service/AirQualityClient.java:28 | null becomes 종로구; anything else is trimmed |
| `AirQualityClient.ToShort` | src/main/java/com/isfx/shim/service/AirQualityClient.java:47-49 | the cast to short wraps modulo 65536 into [-32768,32768) and keeps values already in range |
| `AirQualityClient.StationNameColumns` | src/main/java/com/isfx/shim/service/AirQualityClient.java:45 | the name comes from MSRSTENAME, else MSRSTN_NM, else "" |
| `AirQualityClient.FirstStation` | src/main/java/com/isfx/shim/service/AirQualityClient.java:44-46 | the first row whose trimmed name equals the target, or -1 when none does |
| `AirQualityClient.LaterRowsIgnored` | src/main/java/com/isfx/shim/service/AirQualityClient.java:44-56 | rows after a match do not change the choice |
| `AirQualityClient.Measure` | src/main/java/com/isfx/shim/service/AirQualityClient.java:47-54 | the value is `asInt(-1)` narrowed to `short`; it is absent exactly when that short is negative, so a present value lies in [0,32768) |
| `AirQualityClient.MissingMeasureAbsent` | src/main/java/com/isfx/shim/service/AirQualityClient.java:47-54 | a missing value reads as -1 and is absent |
| `AirQualityClient.NumberMeasure` | src/main/java/com/isfx/shim/service/AirQualityClient.java:47-54 | a small non-negative number is kept and a negative one is absent |
| `AirQualityClient.OverflowingMeasureAbsent` | src/main/java/com/isfx/shim/service/AirQualityClient.java:47-54 | a value that wraps to a negative short is absent |
| `AirQualityClient.NoMatchMock` | src/main/java/com/isfx/shim/service/AirQualityClient.java:59-69 | no matching row gives 30/15/50 |
| `AirQualityClient.FirstMatchRead` | src/main/java/com/isfx/shim/service/AirQualityClient.java:44-56 | the first matching row is the one read |
| `AirQualityClient.MatchedRowRead` | src/main/java/com/isfx/shim/service/AirQualityClient.java:47-55 | a first matching row of small non-negative numbers is returned as read |
| `AirQualityClient.AirQualityOf` | src/main/java/com/isfx/shim/service/AirQualityClient.java:27-70 | a thrown call or a null body gives 30/15/50 |
| `AirQualityClient.FindStation` | src/main/java/com/isfx/shim/service/AirQualityClient.java:44-46 | the loop finds the specified first station |
| `AirQualityClient.GetAirQuality` | src/main/java/com/isfx/shim/service/AirQualityClient.java:27-70 | the imperative call returns exactly the specified reading and never throws |
| `Store.DailyRecord.constructor` | src/main/java/com/isfx/shim/service/RecordService.java:419-441 | a new record holds exactly the given fields |
| `Store.DailyRecord.UpdateRecord` | src/main/java/com/isfx/shim/service/RecordService.java:102-112 | the answers, score and level are replaced; owner and date stay |
| `Store.AiPrescription.Update` | src/main/java/com/isfx/shim/service/RecordService.java:538 | category and both texts are replaced; the record link stays |
| `Store.Database.RecordsOf` | src/main/java/com/isfx/shim/service/UserService.java:137 | exactly the ids of the user's records |
| `Store.Database.PrescriptionsOf` | src/main/java/com/isfx/shim/service/UserService.java:142 | exactly the ids of the prescriptions of the given records |
| `Store.Database.FindPrescriptionByRecord` | src/main/java/com/isfx/shim/service/RecordService.java:115 | a prescription is found iff the record has one, and it belongs to that record |
| `Store.Database.DeletePrescriptionsOf` | src/main/java/com/isfx/shim/service/UserService.java:142 | removes exactly the records' prescriptions |
| `Store.Database.SaveWeatherLog` | src/main/java/com/isfx/shim/service/WeatherService.java:94 | the log is appended and one save event recorded; no other table changes |
| `Store.Database.InsertRecord` | src/main/java/com/isfx/shim/service/RecordService.java:73 | a new record gets a fresh id and is added under it, with one save event; no other table changes |
| `Store.Database.SaveRecord` | src/main/java/com/isfx/shim/service/RecordService.java:113 | saving an existing record records one save event and changes no table |
| `Store.Database.SavePrescription` | src/main/java/com/isfx/shim/service/RecordService.java:539 | saving an existing prescription records one save event and changes no table |
| `Store.Database.InsertPrescription` | src/main/java/com/isfx/shim/service/RecordService.java:548 | a new prescription gets a fresh id and is added under it, with one save event; no other table changes |
| `Store.Database.DeletePrescription` | src/main/java/com/isfx/shim/service/RecordService.java:143-144 | exactly that prescription is removed, with one delete event; no other table changes |
| `Store.Database.DeleteRecordsOf` | src/main/java/com/isfx/shim/service/UserService.java:147 | removes exactly the user's records; needs their prescriptions gone |
| `Store.Database.DeleteUser` | src/main/java/com/isfx/shim/service/UserService.java:150 | removes the user; needs the user's records gone |
| `UserEntity.User.constructor` | src/main/java/com/isfx/shim/entity/User.java:51-58 | name, email and image as given, role defaulting to ROLE_USER, active |
| `UserEntity.User.UpdateName` | src/main/java/com/isfx/shim/entity/User.java:61-63 | only the name changes |
| `UserEntity.User.SoftDelete` | src/main/java/com/isfx/shim/entity/User.java:66-68 | only the active flag changes, to false |
| `UserEntity.User.UpdateProfileImage` | src/main/java/com/isfx/shim/entity/User.java:71-73 | only the image URL changes |
| `RecordService.AccessError` | src/main/java/com/isfx/shim/service/RecordService.java:87-95 | USER_NOT_FOUND, then RECORD_NOT_FOUND, then RECORD_FORBIDDEN; none iff all three checks pass |
| `RecordService.OnlyOwnerPasses` | src/main/java/com/isfx/shim/service/RecordService.java:93-95 | another user's record is always forbidden; only the owner passes |
| `RecordService.PersistAiPrescription` | src/main/java/com/isfx/shim/service/RecordService.java:531-549 | an existing prescription is updated in place with no new row; otherwise exactly one new prescription for the record is inserted |
| `RecordService.GenerateAiPrescription` | src/main/java/com/isfx/shim/service/RecordService.java:446-529 | the saved prescription holds the level's category and the specified texts, upserted as above |
| `RecordService.SaveNewRecord` | src/main/java/com/isfx/shim/service/RecordService.java:64-73 | exactly one new record is inserted, holding the request's answers with meetings defaulted to 0 |
| `RecordService.SaveWithWeather` | src/main/java/com/isfx/shim/service/RecordService.java:58-73 | the weather log is saved before the record |
| `RecordService.CreateRecord` | src/main/java/com/isfx/shim/service/RecordService.java:43-80 | USER_NOT_FOUND, then RECORD_ALREADY_EXISTS, each before any write; otherwise weather log, record and prescription are saved in that order |
| `RecordService.UpdateWithWeather` | src/main/java/com/isfx/shim/service/RecordService.java:97-113 | the record is updated in place after the weather log is saved |
| `RecordService.RefreshRecord` | src/main/java/com/isfx/shim/service/RecordService.java:97-123 | update, then the prescription upsert: the same prescription when one exists, exactly one new one otherwise |
| `RecordService.UpdateRecord` | src/main/java/com/isfx/shim/service/RecordService.java:86-126 | the access errors in order, each before anything changes; otherwise the record and its prescription are updated |
| `RecordService.DeleteRecord` | src/main/java/com/isfx/shim/service/RecordService.java:132-146 | the access errors in order, each before anything changes; otherwise the prescription, if any, is deleted before the record |
| `UrlEncoding.HexValueOfDigit` | src/main/java/com/isfx/shim/global/util/S3Util.java:97 | an upper-case hex digit reads back as its value |
| `UrlEncoding.Utf8` | src/main/java/com/isfx/shim/global/util/S3Util.java:97 | a character is one to four bytes |
| `UrlEncoding.Encode` | src/main/java/com/isfx/shim/global/util/S3Util.java:97 | the encoding is at least as long as the text |
| `UrlEncoding.DecodePercentOfUtf8` | src/main/java/com/isfx/shim/global/util/S3Util.java:97 | the percent-escaped UTF-8 of a character decodes to that character |
| `UrlEncoding.DecodeEncode` | src/main/java/com/isfx/shim/global/util/S3Util.java:97 | decoding the URL encoding of any text gives the text back |
| `UrlEncoding.EncodeHasNoSlash` | src/main/java/com/isfx/shim/global/util/S3Util.java:97 | the encoding never contains '/' |
| `S3Util.ObjectKey` | src/main/java/com/isfx/shim/global/util/S3Util.java:40-41 | the key starts with the directory and '/', ends with '_' and the file name ("null" for none) |
| `S3Util.FileUrl` | src/main/java/com/isfx/shim/global/util/S3Util.java:96-99 | the URL starts with the bucket's virtual-host prefix |
| `S3Util.DeleteTargetAsWritten` | src/main/java/com/isfx/shim/global/util/S3Util.java:68-82 | a key is found iff the URL is present, not empty and holds the marker "amazonaws.com/" + bucket + "/"; the key is everything after the marker's first occurrence |
| `S3Util.GeneratedUrlNeverMatched` | src/main/java/com/isfx/shim/global/util/S3Util.java:75-82 | no URL the service generates contains that marker, so nothing is deleted |
| `S3Util.DeleteTarget` | src/main/java/com/isfx/shim/global/util/S3Util.java:68-82 | a key is only found in a URL with the bucket's prefix |
| `S3Util.DeleteTargetOfFileUrl` | src/main/java/com/isfx/shim/global/util/S3Util.java:96-99 | the key of every generated URL is recovered |
| `S3Util.UploadFile` | src/main/java/com/isfx/shim/global/util/S3Util.java:35-63 | FILE_EMPTY, then FILE_UPLOAD_FAILED with nothing uploaded; otherwise one upload under the key and its URL returned |
| `S3Util.DeleteEvents` | src/main/java/com/isfx/shim/global/util/S3Util.java:68-94 | no delete request when the marker search finds no key, else exactly one, for that key |
| `S3Util.GeneratedUrlNotDeleted` | src/main/java/com/isfx/shim/global/util/S3Util.java:68-99 | deleteFile issues no delete request for a URL generateFileUrl wrote |
| `S3Util.DeleteFile` | src/main/java/com/isfx/shim/global/util/S3Util.java:68-94 | a delete request is issued exactly when the marker search finds a key; the database is not touched |
| `JwtUtil.CreateToken` | src/main/java/com/isfx/shim/global/security/JwtUtil.java:43-53 | every token starts with "Bearer " |
| `JwtUtil.GetTokenFromHeader` | src/main/java/com/isfx/shim/global/security/JwtUtil.java:57-64 | a token iff the header starts with "Bearer ", and the header is the prefix plus the token |
| `JwtUtil.HeaderRoundTrip` | src/main/java/com/isfx/shim/global/security/JwtUtil.java:24-53 | a created token read from a header gives back the signed claims, expiring 3 600 000 ms after issue |
| `UpstageChatResponse.GetContent` | src/main/java/com/isfx/shim/dto/UpstageChatResponseDto.java:26-31 | null for a null or empty list or a first choice without a message; otherwise the first choice's content |
| `UpstageChatResponse.FirstChoiceOnly` | src/main/java/com/isfx/shim/dto/UpstageChatResponseDto.java:27-28 | choices after the first are ignored |
| `UserService.GetUserInfo` | src/main/java/com/isfx/shim/service/UserService.java:94-103 | success iff the user exists and is active, else USER_NOT_FOUND |
| `UserService.UpdateUserInfo` | src/main/java/com/isfx/shim/service/UserService.java:107-121 | CONFLICT_NICKNAME before USER_NOT_FOUND, each leaving the user unchanged; otherwise only the name changes |
| `UserService.UpdateProfileImage` | src/main/java/com/isfx/shim/service/UserService.java:49-68 | USER_NOT_FOUND first; else deleteFile's requests for the old URL come before the upload, a failed upload keeps the URL, and a success stores the new URL |
| `UserService.DeleteProfileImage` | src/main/java/com/isfx/shim/service/UserService.java:75-90 | USER_NOT_FOUND first; else deleteFile's requests for the old URL are issued and the URL cleared |
| `UserService.CascadeEvents` | src/main/java/com/isfx/shim/service/UserService.java:137-150 | the cascade ends with the records' and the user's deletes, and has only those two when there are no records |
| `UserService.DeleteUserRows` | src/main/java/com/isfx/shim/service/UserService.java:137-150 | prescriptions, then records, then the user are removed |
| `UserService.DeleteUser` | src/main/java/com/isfx/shim/service/UserService.java:127-153 | USER_NOT_FOUND first; else deleteFile's requests for the image URL, then the deletes of the prescriptions, the records and the user, in that order |
| `UserService.StatsDate` | src/main/java/com/isfx/shim/service/UserService.java:162 | null or empty means today; otherwise the text must parse as a date |
| `UserService.StatsWindow` | src/main/java/com/isfx/shim/service/UserService.java:165-174 | "week" is Monday to Sunday around the date, "month" exactly the date's month, anything else INVALID_PERIOD_REQUEST |
| `UserService.MonthWindowHolds` | src/main/java/com/isfx/shim/service/UserService.java:168-170 | the month window holds exactly the dates of the month |
| `UserService.Scores` | src/main/java/com/isfx/shim/service/UserService.java:182-184 | one score per found record, in order |
| `UserService.Trend` | src/main/java/com/isfx/shim/service/UserService.java:197-203 | one trend point per found record, in order, with its id, ISO date and score |
| `UserService.HalfUp2` | src/main/java/com/isfx/shim/service/UserService.java:191 | the rounded value is within half a hundredth and keeps non-negativity |
| `UserService.Cents` | src/main/java/com/isfx/shim/service/UserService.java:191 | the nearest hundredth, ties away from zero |
| `UserService.SumBounds` | src/main/java/com/isfx/shim/service/UserService.java:182-184 | a sum of scores in [0,100] lies in [0, 100·count] |
| `UserService.HalfUp2Bounds` | src/main/java/com/isfx/shim/service/UserService.java:191 | rounding a value in [0,100] stays in [0,100] |
| `UserService.AverageBounds` | src/main/java/com/isfx/shim/service/UserService.java:186-194 | the average of scores in [0,100] lies in [0,100], and 0 when there are none |
| `UserService.GetUserStats` | src/main/java/com/isfx/shim/service/UserService.java:157-215 | USER_NOT_FOUND, then an unparsable date, then INVALID_PERIOD_REQUEST; else the window, count, rounded average and trend |

## Left out

- HTTP, the network and the external services are not modelled: the air-quality and KMA endpoints, the Upstage chat call and S3. Their answers are parameters of the model. URL building and query parameters are left out with them.
- Clocks are parameters: `LocalDate.now()`, `LocalTime.now()` and `new Date()`. The `observed_at`, `createdAt` and `updatedAt` timestamps are not modelled.
- Randomness is a parameter: `UUID.randomUUID()`.
- Logging is not modelled.
- `@Transactional` rollback is not modelled: nothing in the modelled paths throws after a database write, and S3 requests are not transactional. Whatever delete request `updateProfileImage` issued for the old URL stands when the upload then fails.
- Spring Security, the JWT filter, `validateToken`, `getUserInfoFromToken`, `AuthService` (Kakao login and user creation), the controllers and `GlobalExceptionHandler` are outside this core.
- `buildResponseDto` and the DTO mapping (`UserMyInfoGetResDto`, `UserUpdateResDto`) are left out. They copy fields without logic; the model returns the saved ids, log and user fields instead.
- `WeatherService.getLatestWeather` is left out. It is `fetchWeatherData` followed by a field copy.
- The prompt text sent to the language model is left out. It does not affect what is stored: the reply is a parameter.
- Jackson's `readTree` and the fallback regular expression are function parameters (`lookup`, `capture`). Their parsing of JSON is not modelled.
- Floating point: `double` arithmetic is exact `real` arithmetic. Rounding errors of the source are not modelled, and neither are NaN or infinity inputs (a NaN temperature from KMA is the "no temperature" case).
- `JavaStrings.ToLower`: lower-cases ASCII letters only. Java's `toLowerCase` also lower-cases other letters (U+212A to 'k') and can change the length (U+0130 becomes two characters). The district names and transport modes it is applied to are Hangul and ASCII, where the two agree.
- `JsonNode.AsInt`: the node kinds are missing, null, text, integer number, object and array. A boolean node (1 or 0) and a fractional number node are not modelled. A digit text beyond the `int` range reads as its unbounded value; Jackson's bounded reading of such text is not modelled. Exponent text such as "1e3" is read as unparsable.
- `JsonNode.AsDouble`: the same node kinds as `AsInt`, so a boolean node (1.0 or 0.0) is not modelled. Only plain signed decimals are read from text. The exponent form, "Infinity", "NaN" and the 'd'/'f' suffixes that `Double.parseDouble` accepts give None here.
- `long` ids and `int` counters are unbounded integers. Overflow is not modelled except where the source casts to `short`, in `AirQualityClient.ToShort`.
- `Calendar.ParseIsoDate`: reads only `yyyy-MM-dd` with a four-digit year from 0 to 9999. The signed and longer years that `LocalDate` accepts are not modelled.
- The stats response's `startDate`/`endDate` strings are epoch days in the model.
- `UrlEncoding.Utf8`: a lone surrogate (which `URLEncoder` replaces by '?') is not a Dafny `char`, so it cannot occur in the model.
- `UpstageChatResponse.GetContent`: a null element inside the `choices` list is not modelled (the list holds `Choice` values).
- `EnergyScore.TemperatureScore`: `Math.exp` has no definition in Dafny and bodiless functions are not used. The term is 33/E(x) with x = 0.03·(T−21)² and E the third-order Taylor polynomial of e^x. The stand-in keeps the properties proved: it is in (0,33], equals 33 exactly at 21 °C, is symmetric and falls off with distance. Exact values of the Gaussian other than at 21 °C are not modelled.
- `UserService.GetUserStats`: the records of the window are a parameter `found`, required to be exactly the user's records whose date lies in the window, each once. The repository's result order is not modelled.
- `UserService.HalfUp2`: rounds the exact average. `BigDecimal.valueOf(double)` of a summed `double` is not modelled.
- `S3Util.DeleteFile`: exceptions from the S3 client are not modelled. The key is found by the marker search as written, so the model, like the source, never deletes an image the service uploaded (see Findings).
- `RecordService.CreateRecord`: the time-of-day bucket is taken from an `hour` parameter.
- The code of `DailyRecord.builder()`, `DailyRecord.updateRecord`, `AiPrescriptions.update` and the `ErrorCode` constants is not part of this model. They are modelled from their call sites in `RecordService.java` and `UserService.java`. `UpdateRecordRequest` is given the fields of `CreateRecordRequest`, which it is passed as.

## Findings

The service operations follow both pieces of code as written. The corrected definitions, with their round trips proved, sit beside them.

| source | as written | input that shows it | evidently intended | confidence | as-written member | corrected member |
|---|---|---|---|---|---|---|
| src/main/java/com/isfx/shim/global/util/S3Util.java:75-82 | `deleteFile` looks for `amazonaws.com/<bucket>/`, but `generateFileUrl` (lines 96-99) writes `https://<bucket>.s3.ap-northeast-2.amazonaws.com/<URL-encoded key>`. Past the host a generated URL has no '/' left, since `URLEncoder` turns '/' into `%2F`, so the marker never occurs. | bucket `b`, key `profile/u_a.png`: URL `https://b.s3.ap-northeast-2.amazonaws.com/profile%2Fu_a.png`; `indexOf("amazonaws.com/b/")` is -1 and the old profile image is never deleted | strip the URL's own prefix and URL-decode the rest, so the uploaded object's key is deleted | not executed | `S3Util.GeneratedUrlNeverMatched` | `S3Util.DeleteTargetOfFileUrl` |
| src/main/java/com/isfx/shim/service/RecordService.java:586 | the regex capture is unescaped with `replace("\\\"","\"")`, then `replace("\\n","\n")`, then `replace("\\\\","\\")`. The newline step runs before the backslash step, so the escaped backslash of `\\n` is split. | JSON string text `\\n` (an escaped backslash, then `n`, which stands for backslash-n) becomes backslash-newline | undo JSON escaping in one left-to-right pass, so that escaping then unescaping gives the text back | not executed | `Prescription.ChainUnescapeMisreadsEscapedBackslash` | `Prescription.UnescapeEscape` |
