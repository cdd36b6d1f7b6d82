/**
 * The AI-prescription texts of RecordService: the category chosen from the
 * energy level, the template texts used when the language model gives no
 * usable answer, and the string handling around the JSON field extraction
 * (code-fence slicing and unescaping). The model call, the JSON parser and the
 * regular-expression matcher are parameters.
 */
module Prescription {
  import opened Wrappers
  import opened JavaStrings
  import opened Domain

  /** LOW and MEDIUM ask for recovery, HIGH for social activity. */
  function CategoryOf(level: EnergyLevel): (c: Category)
    ensures c == Social <==> level == High
    ensures c == Recovery <==> level != High
  {
    if level == High then Social else Recovery
  }

  // --------------------------------------------------------- recommendation

  const RestRecommendation := "오늘은 충분한 휴식을 취하시고, 따뜻한 차 한 잔과 함께 편안한 시간을 보내세요."
  const StretchRecommendation := "가벼운 스트레칭이나 산책을 통해 몸과 마음을 이완시켜보세요."
  const PrepareRecommendation := "적당한 휴식과 함께 내일을 위한 준비를 해보세요."
  const SocialRecommendation := "에너지가 충만하시네요! 친구들과 만나거나 새로운 활동을 시도해보세요."

  /** generateDefaultRecommendationText: the recovery switch over the level
      (whose `default` arm serves HIGH) and the single social text. */
  function RecommendationTemplate(level: EnergyLevel, category: Category): (r: string)
    ensures category == Social ==> r == SocialRecommendation
    ensures category == Recovery && level == Low ==> r == RestRecommendation
    ensures category == Recovery && level == Medium ==> r == StretchRecommendation
  {
    if category == Recovery then
      match level
      case Low => RestRecommendation
      case Medium => StretchRecommendation
      case High => PrepareRecommendation
    else SocialRecommendation
  }

  /** Every recommendation template has text. */
  lemma RecommendationTemplateNotBlank(level: EnergyLevel, category: Category)
    ensures !TrimsToEmpty(RecommendationTemplate(level, category))
  {
    var r := RecommendationTemplate(level, category);
    VisibleCharNotTrimmedAway(r, |r| - 1);
  }

  /** With the category the service derives from the level, the text is fixed
      by the level alone, and the recovery switch's default arm is never taken. */
  lemma RecommendationByLevel(level: EnergyLevel)
    ensures var r := RecommendationTemplate(level, CategoryOf(level));
            && r != PrepareRecommendation
            && (level == Low <==> r == RestRecommendation)
            && (level == Medium <==> r == StretchRecommendation)
            && (level == High <==> r == SocialRecommendation)
  {
    assert |RestRecommendation| == 45 && |StretchRecommendation| == 33;
    assert |PrepareRecommendation| == 27 && |SocialRecommendation| == 38;
  }

  // ---------------------------------------------------- journal explanation

  const JournalAcknowledgement := "일기를 작성해주셨네요. "

  /** The adjective the explanation uses for each condition. */
  function ConditionAdjective(c: WeatherCondition): string {
    match c
    case Clear => "맑은"
    case Clouds => "흐린"
    case Rain => "비 오는"
    case Snow => "눈 오는"
    case Other => "변화무쌍한"
  }

  /** String.format("오늘 날씨가 %s 날씨였네요. ", adjective). */
  function WeatherSentence(c: WeatherCondition): (r: string)
    ensures |r| > 0 && r[0] == '오'
  {
    "오늘 날씨가 " + ConditionAdjective(c) + " 날씨였네요. "
  }

  /** The closing sentence for each level. */
  function LevelPhrase(level: EnergyLevel): (r: string)
    ensures |r| > 0 && r[0] != '일' && r[0] != '오' && !IsTrimmable(r[|r| - 1])
  {
    match level
    case Low => "에너지가 많이 소모된 하루였을 것 같아요."
    case Medium => "보통의 하루를 보내셨네요."
    case High => "활기찬 하루를 보내셨네요!"
  }

  /** The journal counts when it is non-null and does not trim to empty. */
  predicate HasJournal(journal: Option<string>) {
    journal.Some? && !TrimsToEmpty(journal.value)
  }

  /** The condition the explanation mentions, if the log has one. */
  function MentionedCondition(weather: Option<WeatherLog>): Option<WeatherCondition> {
    if weather.Some? then weather.value.condition else None
  }

  /** The acknowledgement, present exactly when there is a journal. */
  function AcknowledgementPart(journal: Option<string>): string {
    if HasJournal(journal) then JournalAcknowledgement else ""
  }

  /** The weather sentence, present exactly when the log names a condition. */
  function WeatherPart(weather: Option<WeatherLog>): string {
    if MentionedCondition(weather).Some? then WeatherSentence(MentionedCondition(weather).value) else ""
  }

  /** The text generateDefaultJournalExplain assembles: an acknowledgement when
      there is a journal, a weather sentence when the log has a condition, and
      the level phrase, in that order. */
  function JournalExplain(journal: Option<string>, weather: Option<WeatherLog>, level: EnergyLevel): (r: string)
    ensures EndsWith(r, LevelPhrase(level))
    ensures StartsWith(r, JournalAcknowledgement) <==> HasJournal(journal)
  {
    ExplainParts(AcknowledgementPart(journal), WeatherPart(weather), LevelPhrase(level));
    AcknowledgementPart(journal) + WeatherPart(weather) + LevelPhrase(level)
  }

  /** The facts JournalExplain draws from the shape of its three parts. */
  lemma ExplainParts(ack: string, sky: string, phrase: string)
    requires ack == "" || ack == JournalAcknowledgement
    requires sky == [] || sky[0] == '오'
    requires |phrase| > 0 && phrase[0] != '일' && phrase[0] != '오' && !IsTrimmable(phrase[|phrase| - 1])
    ensures var r := ack + sky + phrase;
            && EndsWith(r, phrase)
            && (StartsWith(r, JournalAcknowledgement) <==> ack != "")
  {
    var r := ack + sky + phrase;
    assert r[|r| - |phrase|..] == phrase;
    if ack == "" {
      assert r[0] != JournalAcknowledgement[0];
    } else {
      assert r[..|JournalAcknowledgement|] == JournalAcknowledgement;
    }
  }

  /** The explanation always has text: it ends with the level phrase. */
  lemma JournalExplainNotBlank(journal: Option<string>, weather: Option<WeatherLog>, level: EnergyLevel)
    ensures !TrimsToEmpty(JournalExplain(journal, weather, level))
  {
    var r := JournalExplain(journal, weather, level);
    var phrase := LevelPhrase(level);
    assert r[|r| - 1] == phrase[|phrase| - 1];
    VisibleCharNotTrimmedAway(r, |r| - 1);
  }

  /** The weather sentence follows the acknowledgement (if any) whenever the log
      names a condition, and no sentence mentions the weather otherwise. */
  lemma JournalExplainMentionsWeather(journal: Option<string>, weather: Option<WeatherLog>, level: EnergyLevel)
    ensures var r := JournalExplain(journal, weather, level);
            var at := if HasJournal(journal) then |JournalAcknowledgement| else 0;
            && (MentionedCondition(weather).Some? ==> OccursAt(r, WeatherSentence(MentionedCondition(weather).value), at))
            && (MentionedCondition(weather).None? ==> r == JournalExplain(journal, None, level))
  {
    var r := JournalExplain(journal, weather, level);
    var ack := if HasJournal(journal) then JournalAcknowledgement else "";
    if MentionedCondition(weather).Some? {
      var sky := WeatherSentence(MentionedCondition(weather).value);
      assert r == ack + sky + LevelPhrase(level);
      assert r[|ack|..|ack| + |sky|] == sky;
    }
  }

  /** generateDefaultJournalExplain, appending to a builder step by step. */
  method BuildJournalExplain(journal: Option<string>, weather: Option<WeatherLog>, level: EnergyLevel)
    returns (explain: string)
    ensures explain == JournalExplain(journal, weather, level)
  {
    explain := [];
    if HasJournal(journal) {
      explain := explain + JournalAcknowledgement;
    }
    assert explain == AcknowledgementPart(journal);
    if weather.Some? && weather.value.condition.Some? {
      explain := explain + WeatherSentence(weather.value.condition.value);
    } else {
      assert explain == explain + WeatherPart(weather);
    }
    assert explain == AcknowledgementPart(journal) + WeatherPart(weather);
    explain := explain + LevelPhrase(level);
  }

  // ----------------------------------------------------- reply clean-up

  const Fence := "```"

  /** The first step of parseJsonField: trim the reply, then cut out the JSON
      object when the reply is fenced. */
  function CleanResponse(reply: string): string {
    SliceFenced(Trim(reply))
  }

  /** On a trimmed reply: when it starts with a code fence, keep the slice from
      the first '{' to the last '}' if both exist in that order; otherwise keep
      the reply. */
  function SliceFenced(cleaned: string): (r: string)
    ensures !StartsWith(cleaned, Fence) ==> r == cleaned
    ensures StartsWith(cleaned, Fence) && IndexOfChar(cleaned, '{') != -1
            && LastIndexOfChar(cleaned, '}') > IndexOfChar(cleaned, '{')
            ==> r == cleaned[IndexOfChar(cleaned, '{')..LastIndexOfChar(cleaned, '}') + 1]
    ensures StartsWith(cleaned, Fence) && !(IndexOfChar(cleaned, '{') != -1
            && LastIndexOfChar(cleaned, '}') > IndexOfChar(cleaned, '{'))
            ==> r == cleaned
    ensures r == cleaned || (|r| >= 2 && r[0] == '{' && r[|r| - 1] == '}'
                             && OccursAt(cleaned, r, IndexOfChar(cleaned, '{')))
  {
    if StartsWith(cleaned, Fence) then
      var start := IndexOfChar(cleaned, '{');
      var end := LastIndexOfChar(cleaned, '}');
      if start != -1 && end != -1 && end > start then cleaned[start..end + 1]
      else cleaned
    else cleaned
  }

  /** Cleaning a cleaned reply changes nothing. */
  lemma CleanResponseIdempotent(reply: string)
    ensures CleanResponse(CleanResponse(reply)) == CleanResponse(reply)
  {
    var r := CleanResponse(reply);
    if r == Trim(reply) {
      TrimIdempotent(reply);
      if StartsWith(r, Fence) {
        assert StartsWith(Trim(reply), Fence);
      }
    } else {
      TrimStartOfTrimmed(r);
      TrimEndOfTrimmed(r);
      assert Trim(r) == r;
      assert r[0] != Fence[0];
    }
  }

  /** A fenced reply whose fence lines hold no braces yields exactly the
      object between them. */
  lemma FencedObjectExtracted(opening: string, body: string, closing: string)
    requires StartsWith(opening, Fence) && '{' !in opening && '}' !in opening
    requires |body| >= 2 && body[0] == '{' && body[|body| - 1] == '}'
    requires '}' !in closing && (closing == [] || !IsTrimmable(closing[|closing| - 1]))
    ensures CleanResponse(opening + body + closing) == body
  {
    FencedReplyIsTrimmed(opening, body, closing);
    FencedReplySliced(opening, body, closing);
  }

  lemma FencedReplyIsTrimmed(opening: string, body: string, closing: string)
    requires StartsWith(opening, Fence) && |body| >= 2 && body[|body| - 1] == '}'
    requires closing == [] || !IsTrimmable(closing[|closing| - 1])
    ensures Trim(opening + body + closing) == opening + body + closing
  {
    var s := opening + body + closing;
    assert s[0] == opening[0];
    assert s[|s| - 1] == (if closing == [] then body[|body| - 1] else closing[|closing| - 1]);
    TrimStartOfTrimmed(s);
    TrimEndOfTrimmed(s);
  }

  lemma FencedReplySliced(opening: string, body: string, closing: string)
    requires StartsWith(opening, Fence) && '{' !in opening && '}' !in opening
    requires |body| >= 2 && body[0] == '{' && body[|body| - 1] == '}'
    requires '}' !in closing
    ensures SliceFenced(opening + body + closing) == body
  {
    var s := opening + body + closing;
    assert s[..|Fence|] == opening[..|Fence|];
    var first := |opening|;
    var last := |opening| + |body| - 1;
    assert s[..first] == opening;
    IndexOfCharAt(s, '{', first);
    assert s[last + 1..] == closing;
    LastIndexOfCharAt(s, '}', last);
    assert s[first..last + 1] == body;
  }

  // ------------------------------------------------------------- unescaping

  /** The replace chain applied to a regex capture, as written:
      `\"` to `"`, then `\n` to a newline, then `\\` to `\`. */
  function ChainUnescape(s: string): (r: string)
    ensures |r| <= |s|
  {
    Replace(Replace(Replace(s, "\\\"", "\""), "\\n", "\n"), "\\\\", "\\")
  }

  /** A capture without a backslash comes out of the chain as it went in. */
  lemma ChainUnescapeKeepsPlainText(s: string)
    requires '\\' !in s
    ensures ChainUnescape(s) == s
  {
    ReplaceAbsent(s, "\\\"", "\"");
    ReplaceAbsent(s, "\\n", "\n");
    ReplaceAbsent(s, "\\\\", "\\");
  }

  /** The escaping a JSON writer applies to the three characters the chain
      handles. */
  function Escape(s: string): (r: string)
    ensures |r| >= |s|
  {
    if s == [] then []
    else
      var c := s[0];
      var e := if c == '"' then "\\\"" else if c == '\n' then "\\n" else if c == '\\' then "\\\\" else [c];
      e + Escape(s[1..])
  }

  /** The JSON text `\\n` (an escaped backslash followed by the letter n) comes
      out of the chain as a backslash and a newline: the chain is not the
      inverse of Escape. */
  lemma ChainUnescapeMisreadsEscapedBackslash()
    ensures Escape("\\n") == "\\\\n"
    ensures ChainUnescape(Escape("\\n")) == "\\\n"
    ensures ChainUnescape(Escape("\\n")) != "\\n"
  {
    assert Escape("\\n") == "\\\\" + Escape("n");
    assert Escape("n") == "n" + Escape("");
    var s := "\\\\n";
    assert Replace(s, "\\\"", "\"") == s by {
      assert Replace("n", "\\\"", "\"") == "n";
      assert Replace("\\n", "\\\"", "\"") == "\\n";
    }
    assert Replace(s, "\\n", "\n") == "\\\n" by {
      assert Replace("\\n", "\\n", "\n") == "\n" + Replace("", "\\n", "\n");
    }
    assert Replace("\\\n", "\\\\", "\\") == "\\\n" by {
      assert Replace("\n", "\\\\", "\\") == "\n";
    }
  }

  /** What is left after the chain's first step on escaped text without
      backslashes: quotes are restored, newlines are still escaped. */
  function EscapeNewlines(s: string): string {
    if s == [] then []
    else (if s[0] == '\n' then "\\n" else [s[0]]) + EscapeNewlines(s[1..])
  }

  /** The chain's first step restores the escaped quotes of a text without
      backslashes and touches nothing else. */
  lemma {:induction false} QuoteStepOfEscape(s: string)
    requires '\\' !in s
    ensures Replace(Escape(s), "\\\"", "\"") == EscapeNewlines(s)
  {
    if s != [] {
      var c, rest := s[0], s[1..];
      assert forall x :: x in rest ==> x in s;
      QuoteStepOfEscape(rest);
      var tail := Escape(rest);
      if c == '"' {
        assert Escape(s) == "\\\"" + tail;
        ReplaceHit(tail, "\\\"", "\"");
      } else if c == '\n' {
        assert Escape(s) == "\\n" + tail;
        QuoteStepSkipsNewline(tail);
      } else {
        assert c in s;
        assert Escape(s) == [c] + tail;
        ReplaceSkip(c, tail, "\\\"", "\"");
      }
    }
  }

  /** An escaped newline is not an escaped quote: the first step copies it. */
  lemma QuoteStepSkipsNewline(tail: string)
    ensures Replace("\\n" + tail, "\\\"", "\"") == "\\n" + Replace(tail, "\\\"", "\"")
  {
    var e := "\\n" + tail;
    assert e[..2] == "\\n";
    assert e[1..] == ['n'] + tail;
    ReplaceSkip('n', tail, "\\\"", "\"");
  }

  /** The chain's second step then restores the newlines. */
  lemma {:induction false} NewlineStepOfEscaped(s: string)
    requires '\\' !in s
    ensures Replace(EscapeNewlines(s), "\\n", "\n") == s
  {
    if s != [] {
      var c, rest := s[0], s[1..];
      assert forall x :: x in rest ==> x in s;
      NewlineStepOfEscaped(rest);
      var tail := EscapeNewlines(rest);
      if c == '\n' {
        ReplaceHit(tail, "\\n", "\n");
      } else {
        assert c in s;
        ReplaceSkip(c, tail, "\\n", "\n");
      }
      assert s == [c] + rest;
    }
  }

  /** What the chain gets right: a text without backslashes comes back from
      its escaped form, quotes and newlines included. */
  lemma ChainUnescapeEscapePlain(s: string)
    requires '\\' !in s
    ensures ChainUnescape(Escape(s)) == s
  {
    QuoteStepOfEscape(s);
    NewlineStepOfEscaped(s);
    ReplaceAbsent(s, "\\\\", "\\");
  }

  /** One left-to-right pass that undoes Escape: `\"`, `\n` and `\\` become
      one character each; any other character, including a backslash starting
      some other escape, is copied. */
  function Unescape(s: string): (r: string)
    ensures |r| <= |s|
  {
    if |s| >= 2 && s[0] == '\\' && s[1] in "\"n\\" then
      var c := if s[1] == 'n' then '\n' else s[1];
      [c] + Unescape(s[2..])
    else if s == [] then []
    else [s[0]] + Unescape(s[1..])
  }

  /** Unescape inverts Escape on every string. */
  lemma {:induction false} UnescapeEscape(s: string)
    ensures Unescape(Escape(s)) == s
  {
    if s != [] {
      var c := s[0];
      var rest := Escape(s[1..]);
      UnescapeEscape(s[1..]);
      if c == '"' || c == '\n' || c == '\\' {
        var e := Escape(s);
        assert e[2..] == rest;
      } else {
        var e := Escape(s);
        assert e == [c] + rest;
        assert e[1..] == rest;
      }
      assert s == [c] + s[1..];
    }
  }

  // ------------------------------------------------------ field extraction

  /** What Jackson reports for one field of the cleaned reply: the reply does
      not parse, the field is missing, the field is not a string, or its text. */
  datatype JsonLookup = Unparsable | Missing | NotText | Text(text: string)

  /** parseJsonField. `lookup(cleaned, field)` stands for readTree + get, and
      `capture(reply, field)` for the fallback regular expression's first group
      on the raw reply; the capture goes through the replace chain as written. */
  function ParseJsonField(reply: string, field: string,
                          lookup: (string, string) -> JsonLookup,
                          capture: (string, string) -> Option<string>): (r: Option<string>)
    ensures lookup(CleanResponse(reply), field).Text? ==> r == Some(lookup(CleanResponse(reply), field).text)
    ensures lookup(CleanResponse(reply), field) in {Missing, NotText} ==> r == None
    ensures lookup(CleanResponse(reply), field).Unparsable? ==>
              (r.Some? <==> capture(reply, field).Some?) &&
              (r.Some? ==> r.value == ChainUnescape(capture(reply, field).value))
  {
    match lookup(CleanResponse(reply), field)
    case Text(t) => Some(t)
    case Missing => None
    case NotText => None
    case Unparsable =>
      match capture(reply, field)
      case Some(g) => Some(ChainUnescape(g))
      case None => None
  }

  /** Either the model's field text, when it is present and not blank, or the
      template. */
  function OrTemplate(parsed: Option<string>, template: string): (r: string)
    requires !TrimsToEmpty(template)
    ensures !TrimsToEmpty(r)
    ensures parsed.Some? && !TrimsToEmpty(parsed.value) ==> r == parsed.value
    ensures parsed.None? || TrimsToEmpty(parsed.value) ==> r == template
  {
    if parsed.Some? && !TrimsToEmpty(parsed.value) then parsed.value else template
  }

  /** The two texts of a prescription. */
  datatype Texts = Texts(journalExplain: string, recommendationText: string)

  /** The text-producing part of generateAiPrescription. `reply` is None when the
      chat client throws (its reply trims to empty, the HTTP call fails, ...);
      the fallbacks then use the record's journal. Otherwise each field is parsed
      and a missing or blank one is replaced by its template. */
  function PrescriptionTexts(reply: Option<string>, journal: Option<string>,
                             weather: Option<WeatherLog>, level: EnergyLevel,
                             lookup: (string, string) -> JsonLookup,
                             capture: (string, string) -> Option<string>): (t: Texts)
    ensures !TrimsToEmpty(t.journalExplain) && !TrimsToEmpty(t.recommendationText)
    ensures reply.None? ==> t == Texts(JournalExplain(journal, weather, level),
                                       RecommendationTemplate(level, CategoryOf(level)))
    ensures t.journalExplain == JournalExplain(journal, weather, level)
            || (reply.Some? && ParseJsonField(reply.value, "journal_explain", lookup, capture) == Some(t.journalExplain))
    ensures t.recommendationText == RecommendationTemplate(level, CategoryOf(level))
            || (reply.Some? && ParseJsonField(reply.value, "recommendation_text", lookup, capture) == Some(t.recommendationText))
  {
    JournalExplainNotBlank(journal, weather, level);
    RecommendationTemplateNotBlank(level, CategoryOf(level));
    ChooseTexts(reply, JournalExplain(journal, weather, level), RecommendationTemplate(level, CategoryOf(level)),
                lookup, capture)
  }

  /** Each field of the reply, or its template when the reply is None or the
      field is missing or blank. */
  function ChooseTexts(reply: Option<string>, explainTemplate: string, recommendationTemplate: string,
                       lookup: (string, string) -> JsonLookup,
                       capture: (string, string) -> Option<string>): (t: Texts)
    requires !TrimsToEmpty(explainTemplate) && !TrimsToEmpty(recommendationTemplate)
    ensures !TrimsToEmpty(t.journalExplain) && !TrimsToEmpty(t.recommendationText)
    ensures reply.None? ==> t == Texts(explainTemplate, recommendationTemplate)
    ensures t.journalExplain == explainTemplate
            || (reply.Some? && ParseJsonField(reply.value, "journal_explain", lookup, capture) == Some(t.journalExplain))
    ensures t.recommendationText == recommendationTemplate
            || (reply.Some? && ParseJsonField(reply.value, "recommendation_text", lookup, capture) == Some(t.recommendationText))
  {
    match reply
    case None => Texts(explainTemplate, recommendationTemplate)
    case Some(answer) =>
      Texts(OrTemplate(ParseJsonField(answer, "journal_explain", lookup, capture), explainTemplate),
            OrTemplate(ParseJsonField(answer, "recommendation_text", lookup, capture), recommendationTemplate))
  }

  /** A field the model answered with text, by either extraction path, is kept
      as it is. */
  lemma ModelTextKept(answer: string, text: string, journal: Option<string>, weather: Option<WeatherLog>,
                      level: EnergyLevel, lookup: (string, string) -> JsonLookup,
                      capture: (string, string) -> Option<string>)
    requires ParseJsonField(answer, "journal_explain", lookup, capture) == Some(text)
    requires !TrimsToEmpty(text)
    ensures PrescriptionTexts(Some(answer), journal, weather, level, lookup, capture).journalExplain == text
  {
    JournalExplainNotBlank(journal, weather, level);
    assert OrTemplate(Some(text), JournalExplain(journal, weather, level)) == text;
  }

  /** The recommendation the model answered with, by either extraction path,
      is kept as it is when it is not blank. */
  lemma RecommendationTextKept(answer: string, text: string, journal: Option<string>,
                               weather: Option<WeatherLog>, level: EnergyLevel,
                               lookup: (string, string) -> JsonLookup,
                               capture: (string, string) -> Option<string>)
    requires ParseJsonField(answer, "recommendation_text", lookup, capture) == Some(text)
    requires !TrimsToEmpty(text)
    ensures PrescriptionTexts(Some(answer), journal, weather, level, lookup, capture).recommendationText == text
  {
    JournalExplainNotBlank(journal, weather, level);
    RecommendationTemplateNotBlank(level, CategoryOf(level));
  }

  /** A field the model left out, or answered blank, falls back on its
      template. */
  lemma BlankFieldFallsBack(answer: string, journal: Option<string>, weather: Option<WeatherLog>,
                            level: EnergyLevel, lookup: (string, string) -> JsonLookup,
                            capture: (string, string) -> Option<string>)
    ensures var parsed := ParseJsonField(answer, "journal_explain", lookup, capture);
            parsed.None? || TrimsToEmpty(parsed.value) ==>
              PrescriptionTexts(Some(answer), journal, weather, level, lookup, capture).journalExplain
              == JournalExplain(journal, weather, level)
    ensures var parsed := ParseJsonField(answer, "recommendation_text", lookup, capture);
            parsed.None? || TrimsToEmpty(parsed.value) ==>
              PrescriptionTexts(Some(answer), journal, weather, level, lookup, capture).recommendationText
              == RecommendationTemplate(level, CategoryOf(level))
  {
    JournalExplainNotBlank(journal, weather, level);
    RecommendationTemplateNotBlank(level, CategoryOf(level));
  }
}
