/** CreateRecordRequest (and UpdateRecordRequest, which carries the same fields)
    and the bean-validation constraints on its fields. */
module CreateRecordRequest {
  import opened Wrappers
  import opened JavaStrings

  /** Every field is a nullable reference in the request body. */
  datatype RecordRequest = RecordRequest(
    emotionLevel: Option<int>,
    conversationLevel: Option<int>,
    meetingCount: Option<int>,
    transportMode: Option<string>,
    congestionLevel: Option<int>,
    location: Option<string>,
    journal: Option<string>)

  /** The values @Pattern admits for transport_mode (a whole-string match). */
  predicate IsListedTransport(t: string) {
    t in ["subway", "bus", "car", "walk", "bike", "none"]
  }

  /** @NotNull with @Min/@Max on an integer field. */
  predicate InRange(v: Option<int>, lo: int, hi: int) {
    v.Some? && lo <= v.value <= hi
  }

  /** @NotBlank: non-null with a non-empty trim. */
  predicate NotBlank(v: Option<string>) {
    v.Some? && !TrimsToEmpty(v.value)
  }

  /** The request passes @Valid. */
  predicate Valid(r: RecordRequest) {
    && InRange(r.emotionLevel, 1, 5)
    && InRange(r.conversationLevel, 1, 5)
    && r.meetingCount.Some? && r.meetingCount.value >= 0
    && NotBlank(r.transportMode) && IsListedTransport(r.transportMode.value)
    && InRange(r.congestionLevel, 1, 5)
    && NotBlank(r.location)
  }
}
