/** `build_report` as a pure function: the clock reading, the summarizer,
    the JSON parser and the chart renderer are parameters, and the result is
    the file name, the body parts in order, the full document and the
    prompts sent to the summarizer, in the order they were sent. A raising
    table renderer makes the whole report fail. */
module Report {
  import opened Text
  import opened Seqs
  import opened Options
  import opened Journal
  import opened Excerpts
  import opened Trends
  import opened JsonData
  import opened Replies

  // ---------------------------------------------------------------------
  // Clock reading and file name.

  /** A local date-time reading, to the second. */
  datatype Timestamp = Timestamp(year: nat, month: nat, day: nat, hour: nat, minute: nat, second: nat)

  /** A reading `datetime.now()` can give: a four-digit year (the calendar
      years a host clock reports) and in-range fields. */
  predicate ValidTimestamp(t: Timestamp) {
    && 1000 <= t.year <= 9999 && 1 <= t.month <= 12 && 1 <= t.day <= 31
    && t.hour < 24 && t.minute < 60 && t.second < 60
  }

  /** `strftime('%Y%m%d_%H%M%S')`. */
  function Stamp(t: Timestamp): (s: string)
    ensures |s| == 15 && s[8] == '_'
  {
    PadDigits(t.year, 4) + PadDigits(t.month, 2) + PadDigits(t.day, 2) + "_"
      + PadDigits(t.hour, 2) + PadDigits(t.minute, 2) + PadDigits(t.second, 2)
  }

  const FilePrefix: string := "journal_report_"
  const FileSuffix: string := ".html"

  /** The report's file name. */
  function Filename(t: Timestamp): (f: string)
    ensures |f| == |FilePrefix| + 15 + |FileSuffix|
    ensures FilePrefix <= f && f[|FilePrefix|..|FilePrefix| + 15] == Stamp(t)
    ensures f[|f| - |FileSuffix|..] == FileSuffix
  {
    var f := FilePrefix + Stamp(t) + FileSuffix;
    assert f[..|FilePrefix|] == FilePrefix;
    f
  }

  /** Two reports written at different seconds get different file names. */
  lemma FilenameInjective(a: Timestamp, b: Timestamp)
    requires ValidTimestamp(a) && ValidTimestamp(b)
    requires Filename(a) == Filename(b)
    ensures a == b
  {
    var sa, sb := Stamp(a), Stamp(b);
    assert sa == sb;
    StampFields(a);
    StampFields(b);
  }

  /** Each field of a valid reading reads back from its slice of the stamp. */
  lemma StampFields(t: Timestamp)
    requires ValidTimestamp(t)
    ensures var s := Stamp(t);
            && DigitsValue(s[0..4]) == t.year && DigitsValue(s[4..6]) == t.month
            && DigitsValue(s[6..8]) == t.day && DigitsValue(s[9..11]) == t.hour
            && DigitsValue(s[11..13]) == t.minute && DigitsValue(s[13..15]) == t.second
  {
    var s := Stamp(t);
    var head := PadDigits(t.year, 4) + PadDigits(t.month, 2) + PadDigits(t.day, 2) + "_"
      + PadDigits(t.hour, 2) + PadDigits(t.minute, 2);
    assert s == head + PadDigits(t.second, 2);
    assert s[0..4] == PadDigits(t.year, 4);
    assert s[4..6] == PadDigits(t.month, 2);
    assert s[6..8] == PadDigits(t.day, 2);
    assert s[9..11] == PadDigits(t.hour, 2);
    assert s[11..13] == PadDigits(t.minute, 2);
    assert s[13..15] == PadDigits(t.second, 2);
    assert Pow10(4) == 10000 && Pow10(2) == 100;
    PadDigitsValue(t.year, 4);
    PadDigitsValue(t.month, 2);
    PadDigitsValue(t.day, 2);
    PadDigitsValue(t.hour, 2);
    PadDigitsValue(t.minute, 2);
    PadDigitsValue(t.second, 2);
  }

  /** `strftime('%Y-%m-%d %H:%M')`. */
  function Generated(t: Timestamp): string {
    PadDigits(t.year, 4) + "-" + PadDigits(t.month, 2) + "-" + PadDigits(t.day, 2) + " "
      + PadDigits(t.hour, 2) + ":" + PadDigits(t.minute, 2)
  }

  // ---------------------------------------------------------------------
  // The summarizer.

  /** What every AI section shows when no summary was obtained. */
  const Placeholder: string := "Not available " + "(set OLLAMA_API_KEY for AI summaries)."

  datatype Aspect = Activity | Emotion

  /** A request to the summarizer, by the data it carries; the wording
      around the data is fixed per kind. */
  datatype Prompt =
    | OverallPrompt(aspect: Aspect, sample: string)
    | ObservationsPrompt(aspect: Aspect, byMonth: seq<GroupExcerpt>, byDay: seq<GroupExcerpt>,
                         byTime: seq<GroupExcerpt>, monthLabels: seq<string>)
    | TrendPrompt(keyword: string, counts: seq<MonthCount>)

  /** `ollama_chat(prompt, api_key)`: the reply text, or nothing. */
  type Summarizer = (Prompt, string) -> Option<string>

  /** `json.loads`, as in `Replies`. */
  type Parser = string -> Option<Json>

  /** `_bar_chart_html(counts, "month", "count", title)`: the chart markup for a trend. */
  type ChartRenderer = (seq<MonthCount>, string) -> string

  /** The key is truthy: present and non-empty. */
  predicate KeySet(key: Option<string>) {
    key.Some? && |key.value| > 0
  }

  /** The reply is truthy: present and non-empty. */
  predicate Answered(reply: Option<string>) {
    reply.Some? && |reply.value| > 0
  }

  /** A value together with the prompts sent to obtain it. */
  datatype Asked<T> = Asked(value: T, calls: seq<Prompt>)

  /** One summary section: the stripped reply when the key is set, there is
      something to summarize and the summarizer answers; otherwise the
      placeholder, and with no key or nothing to summarize no call at all. */
  function Summarize(key: Option<string>, wanted: bool, p: Prompt, chat: Summarizer): (a: Asked<string>)
    ensures |a.calls| <= 1
    ensures a.calls == [] <==> !(KeySet(key) && wanted)
    ensures a.calls != [] ==> a.calls[0] == p
    ensures KeySet(key) && wanted && Answered(chat(p, key.value)) ==> a.value == Strip(chat(p, key.value).value)
    ensures !(KeySet(key) && wanted && Answered(chat(p, key.value))) ==> a.value == Placeholder
  {
    if KeySet(key) && wanted then Asked(Shown(chat(p, key.value)), [p])
    else Asked(Placeholder, [])
  }

  /** The text a summary section shows for a reply: `reply.strip()` when
      the reply is truthy, the placeholder otherwise. */
  function Shown(reply: Option<string>): string {
    if Answered(reply) then Strip(reply.value) else Placeholder
  }

  // ---------------------------------------------------------------------
  // Observations.

  /** The first non-whitespace character is `<`: the text is used as
      markup as it is. */
  predicate StartsWithTag(s: string) {
    LeadingSpace(s) < |s| && s[LeadingSpace(s)] == '<'
  }

  /** `s.strip().startswith("<")`, as the source writes the test. */
  lemma StartsWithTagIsStrippedTest(s: string)
    ensures StartsWithTag(s) <==> |Strip(s)| > 0 && Strip(s)[0] == '<'
  {
  }

  /** The rendering of a reply's text given what was extracted from it:
      the tables when that is a truthy JSON value, the bullet list of the
      text otherwise. */
  function RenderParsed(parsed: Option<Json>, text: string, monthLabels: seq<string>): (r: Result<string>)
    ensures r.Ok? ==> StartsWithTag(r.value)
    ensures r.Err? <==> parsed.Some? && Truthy(parsed.value) && !(parsed.value.JObject? && TablesIterable(parsed.value))
    ensures !(parsed.Some? && Truthy(parsed.value)) ==> r == Ok(RawToBulletList(text))
    ensures parsed.Some? && Truthy(parsed.value) ==> r == ObservationsToHtmlTables(parsed.value, monthLabels, WeekdayOrder, TimeOfDayOrder)
  {
    if parsed.Some? && Truthy(parsed.value) then
      TablesTagged(parsed.value, monthLabels);
      ObservationsToHtmlTables(parsed.value, monthLabels, WeekdayOrder, TimeOfDayOrder)
    else
      var bullets := RawToBulletList(text);
      TagFirst(bullets);
      Ok(bullets)
  }

  /** The tables, when they succeed, start with a tag. */
  lemma TablesTagged(parsed: Json, monthLabels: seq<string>)
    ensures var r := ObservationsToHtmlTables(parsed, monthLabels, WeekdayOrder, TimeOfDayOrder);
            r.Ok? ==> StartsWithTag(r.value)
  {
    var r := ObservationsToHtmlTables(parsed, monthLabels, WeekdayOrder, TimeOfDayOrder);
    if r.Ok? {
      TagFirst(r.value);
    }
  }

  /** An answered observations reply, rendered: the tables when it holds a
      truthy JSON value, the bullet list otherwise. The tables fail when
      that value is not an object or holds a grouping that cannot be
      iterated. */
  function RenderObservations(reply: string, parse: Parser, monthLabels: seq<string>): (r: Result<string>)
    ensures r.Ok? ==> StartsWithTag(r.value)
    ensures var p := ExtractJsonFromReply(Strip(reply), parse);
            r.Err? <==> p.Some? && Truthy(p.value) && !(p.value.JObject? && TablesIterable(p.value))
    ensures var p := ExtractJsonFromReply(Strip(reply), parse);
            !(p.Some? && Truthy(p.value)) ==> r == Ok(RawToBulletList(Strip(reply)))
    ensures var p := ExtractJsonFromReply(Strip(reply), parse);
            p.Some? && Truthy(p.value) ==> r == ObservationsToHtmlTables(p.value, monthLabels, WeekdayOrder, TimeOfDayOrder)
  {
    var text := Strip(reply);
    RenderParsed(ExtractJsonFromReply(text, parse), text, monthLabels)
  }

  lemma TagFirst(s: string)
    requires |s| > 0 && s[0] == '<'
    ensures StartsWithTag(s)
  {
    StripKeepsFirst(s);
  }

  /** One observations section: the rendered reply when the key is set,
      there are groups and the summarizer answers; otherwise the
      placeholder. */
  function Observe(key: Option<string>, wanted: bool, p: Prompt, chat: Summarizer,
                   parse: Parser, monthLabels: seq<string>): (a: Asked<Result<string>>)
    ensures |a.calls| <= 1
    ensures a.calls == [] <==> !(KeySet(key) && wanted)
    ensures a.calls != [] ==> a.calls[0] == p
    ensures a.calls == [] ==> a.value == Ok(Placeholder)
    ensures a.value.Err? ==> a.calls != [] && Answered(chat(p, key.value))
    ensures a.value.Ok? ==> a.value.value == Placeholder || StartsWithTag(a.value.value)
    ensures KeySet(key) && wanted && Answered(chat(p, key.value)) ==>
              a.value == RenderObservations(chat(p, key.value).value, parse, monthLabels)
    ensures !(KeySet(key) && wanted && Answered(chat(p, key.value))) ==> a.value == Ok(Placeholder)
  {
    if KeySet(key) && wanted then Asked(Rendered(chat(p, key.value), parse, monthLabels), [p])
    else Asked(Ok(Placeholder), [])
  }

  /** What an observations section shows for a reply: the rendered reply
      when it is truthy, the placeholder otherwise. */
  function Rendered(reply: Option<string>, parse: Parser, monthLabels: seq<string>): Result<string> {
    if Answered(reply) then RenderObservations(reply.value, parse, monthLabels) else Ok(Placeholder)
  }

  // ---------------------------------------------------------------------
  // Trend sections.

  /** One keyword's section: its chart and its summary. */
  datatype TrendSection = TrendSection(keyword: string, chart: string, summary: string)

  function ChartTitle(kw: string): string {
    "Occurrences of \"" + kw + "\" by month"
  }

  /** One section per keyword, in keyword order, from each keyword's
      monthly counts; the summarizer is asked about a keyword only when the
      key is set and its counts are not empty. */
  function TrendSections(counts: string -> seq<MonthCount>, kws: seq<string>, key: Option<string>,
                         chat: Summarizer, chart: ChartRenderer): (a: Asked<seq<TrendSection>>)
    ensures |a.value| == |kws| && |a.calls| <= |kws|
    ensures forall i | 0 <= i < |kws| ::
              && a.value[i].keyword == kws[i]
              && a.value[i].chart == chart(counts(kws[i]), ChartTitle(kws[i]))
    ensures !KeySet(key) ==> a.calls == [] && forall i | 0 <= i < |kws| :: a.value[i].summary == Placeholder
    ensures KeySet(key) && (forall i | 0 <= i < |kws| :: |counts(kws[i])| > 0) ==>
              a.calls == Map(kws, TrendPromptWith(counts))
    ensures KeySet(key) ==> forall i | 0 <= i < |kws| :: a.value[i].summary == TrendSummary(counts, kws[i], key.value, chat)
  {
    if |kws| == 0 then Asked([], [])
    else
      var kw := kws[0];
      var s := Summarize(key, |counts(kw)| > 0, TrendPrompt(kw, counts(kw)), chat);
      var rest := TrendSections(counts, kws[1..], key, chat, chart);
      var t := TrendSection(kw, chart(counts(kw), ChartTitle(kw)), s.value);
      var a := Asked([t] + rest.value, s.calls + rest.calls);
      ConsShift(t, rest.value, a.value);
      ConsShift(kw, kws[1..], kws);
      assert KeySet(key) ==> s.value == TrendSummary(counts, kw, key.value, chat);
      MapCons(kws, TrendPromptWith(counts));
      a
  }

  /** The summary a keyword's section shows when the key is set: the
      stripped reply to its prompt when it has counts and the reply is
      truthy, the placeholder otherwise. */
  function TrendSummary(counts: string -> seq<MonthCount>, kw: string, key: string, chat: Summarizer): string {
    if |counts(kw)| > 0 then Shown(chat(TrendPrompt(kw, counts(kw)), key)) else Placeholder
  }

  /** The prompt about one keyword, given the counts of every keyword. */
  function TrendPromptWith(counts: string -> seq<MonthCount>): string -> Prompt {
    (kw: string) => TrendPrompt(kw, counts(kw))
  }

  lemma MapCons<T, U>(xs: seq<T>, f: T -> U)
    requires |xs| > 0
    ensures Map(xs, f) == [f(xs[0])] + Map(xs[1..], f)
  {
  }

  // ---------------------------------------------------------------------
  // The body.

  datatype Level = H1 | H2 | H3

  /** One element of the body, before it is written out as markup. */
  datatype Block =
    | Heading(level: Level, text: string)
    | GeneratedAt(now: Timestamp)
    | PurposeLabel
    | PurposeText(from: Date, to: Date, n: nat)
    | Divider
    | Para(text: string)
    | Markup(html: string)
    | AppendixStart
    | BasisText(from: Date, to: Date, n: nat)
    | AppendixEnd

  /** The fixed heading texts. */
  const ReportTitle: string := "Journal Analysis Report"
  const ActivityTitle: string := "Overall activity"
  const EmotionTitle: string := "Overall emotion"
  const ObservationsTitle: string := "Observations by month, day of week, and time of day"
  const ObsActivityTitle: string := "Activity"
  const ObsEmotionTitle: string := "Emotion"
  const TrendsTitle: string := "Trends by phrase"
  const AppendixTitle: string := "How conclusions were drawn"

  /** The fixed prose of the purpose paragraph and of the appendix, word by
      word; each is written with single spaces between the words. */
  const PurposeWords: seq<string> := [
    "It", "provides", "AI-generated", "summaries", "of", "<strong>life", "activity</strong>",
    "(what", "was", "documented,", "trends,", "changes)", "and", "<strong>emotion</strong>;",
    "observations", "by", "month,", "day", "of", "week,", "and", "time", "of", "day;", "and",
    "trends", "for", "user-specified", "phrases", "with", "occurrence", "counts", "by", "month.",
    "Conclusions", "are", "based", "on", "journal", "excerpts", "and", "optional", "Ollama",
    "Cloud", "summaries."]
  const BasisLeadWords: seq<string> := [
    "Conclusions", "are", "based", "on", "journal", "entry", "excerpts", "(truncated", "for",
    "length)", "and", "on", "summaries", "generated", "by", "Ollama", "Cloud", "(model:",
    "gpt-oss:20b-cloud)", "when", "OLLAMA_API_KEY", "is", "set.", "The", "analysis", "used"]
  const BasisTailWords: seq<string> := [
    "\"Activity\"", "refers", "to", "life", "activity", "(what", "was", "documented,", "trends,",
    "changes),", "not", "how", "often", "entries", "were", "written.", "Trend-by-phrase", "charts",
    "show", "occurrence", "counts", "per", "month;", "AI", "summaries", "use", "only", "aggregated",
    "or", "excerpted", "content."]

  function Sentence(words: seq<string>): string {
    JoinWith(words, " ")
  }

  function Tag(level: Level): string {
    match level
    case H1 => "h1"
    case H2 => "h2"
    case H3 => "h3"
  }

  /** `<tag>inner</tag>`. */
  function Element(tag: string, inner: string): string {
    "<" + tag + ">" + inner + "</" + tag + ">"
  }

  /** The markup of one block; raw markup is written as it is. */
  function Render(b: Block): string {
    match b
    case Heading(level, text) => Element(Tag(level), text)
    case GeneratedAt(now) => Element("p", Element("em", "Generated: " + Generated(now) + " (local time)"))
    case PurposeLabel => Element("p", Element("strong", "Purpose of this report"))
    case PurposeText(from, to, n) =>
      Element("p", "This report summarizes journal entries from " + IsoDate(from) + " to " + IsoDate(to) + " ("
                   + NatToString(n) + " entries). " + Sentence(PurposeWords))
    case Divider => "<" + "hr style=\"border: 2px solid #DD4633; margin: 30px 0;\" />"
    case Para(text) => Element("p", text)
    case Markup(html) => html
    case AppendixStart => "<" + "div class=\"appendix\">"
    case BasisText(from, to, n) =>
      Element("p", Sentence(BasisLeadWords) + " " + NatToString(n) + " entries from " + IsoDate(from) + " to " + IsoDate(to)
                   + ". " + Sentence(BasisTailWords))
    case AppendixEnd => "<" + "/div>"
  }

  /** Title, generation time, purpose, rule. */
  function Head(now: Timestamp, from: Date, to: Date, n: nat): seq<Block> {
    [Heading(H1, ReportTitle), GeneratedAt(now), PurposeLabel, PurposeText(from, to, n), Divider]
  }

  /** The overall activity and emotion sections. */
  function Overall(activity: string, emotion: string): seq<Block> {
    [Heading(H2, ActivityTitle), Para(activity), Divider, Heading(H2, EmotionTitle), Para(emotion), Divider]
  }

  /** An observations section as it is placed: markup as it is, anything
      else in a paragraph. */
  function Placed(obs: string): (b: Block)
    ensures StartsWithTag(obs) <==> b == Markup(obs)
    ensures !StartsWithTag(obs) <==> b == Para(obs)
  {
    if StartsWithTag(obs) then Markup(obs) else Para(obs)
  }

  /** Either way, the placed section is written starting with a tag. */
  lemma PlacedWrittenAsMarkup(obs: string)
    ensures StartsWithTag(Render(Placed(obs)))
  {
    if !StartsWithTag(obs) {
      var s := Render(Para(obs));
      assert s == "<" + "p" + ">" + obs + "</" + "p" + ">";
      TagFirst(s);
    }
  }

  function Observations(activity: string, emotion: string): seq<Block> {
    [Heading(H2, ObservationsTitle), Heading(H3, ObsActivityTitle), Placed(activity),
     Heading(H3, ObsEmotionTitle), Placed(emotion), Divider]
  }

  /** `"keyword"`, as the keyword's heading shows it. */
  function Quoted(kw: string): string {
    "\"" + kw + "\""
  }

  /** The three blocks of each trend section, in section order. */
  function TrendParts(ts: seq<TrendSection>): (ps: seq<Block>)
    ensures |ps| == 3 * |ts|
    ensures forall i | 0 <= i < |ts| ::
              && ps[3 * i] == Heading(H3, Quoted(ts[i].keyword))
              && ps[3 * i + 1] == Markup(ts[i].chart)
              && ps[3 * i + 2] == Para(ts[i].summary)
  {
    if |ts| == 0 then []
    else
      var rest := TrendParts(ts[1..]);
      var ps := [Heading(H3, Quoted(ts[0].keyword)), Markup(ts[0].chart), Para(ts[0].summary)] + rest;
      TrendPartsStep(ts, rest, ps);
      ps
  }

  /** The three blocks of the first section, followed by those of the
      others, are the blocks of all sections. */
  lemma TrendPartsStep(ts: seq<TrendSection>, rest: seq<Block>, ps: seq<Block>)
    requires |ts| > 0 && |rest| == 3 * (|ts| - 1)
    requires forall i | 0 <= i < |ts| - 1 ::
               && rest[3 * i] == Heading(H3, Quoted(ts[i + 1].keyword))
               && rest[3 * i + 1] == Markup(ts[i + 1].chart)
               && rest[3 * i + 2] == Para(ts[i + 1].summary)
    requires ps == [Heading(H3, Quoted(ts[0].keyword)), Markup(ts[0].chart), Para(ts[0].summary)] + rest
    ensures |ps| == 3 * |ts|
    ensures forall i | 0 <= i < |ts| ::
              && ps[3 * i] == Heading(H3, Quoted(ts[i].keyword))
              && ps[3 * i + 1] == Markup(ts[i].chart)
              && ps[3 * i + 2] == Para(ts[i].summary)
  {
    forall i | 0 <= i < |ts|
      ensures && ps[3 * i] == Heading(H3, Quoted(ts[i].keyword))
              && ps[3 * i + 1] == Markup(ts[i].chart)
              && ps[3 * i + 2] == Para(ts[i].summary)
    {
      if i > 0 {
        var j := i - 1;
        var k := 3 * j;
        assert 3 * i == k + 3;
        ShiftByThree(ps[0], ps[1], ps[2], rest, ps, k);
        assert rest[k] == Heading(H3, Quoted(ts[j + 1].keyword));
      }
    }
  }

  /** Three blocks in front of `rest` shift its positions by three. */
  lemma ShiftByThree<T>(x: T, y: T, z: T, rest: seq<T>, ps: seq<T>, k: nat)
    requires ps == [x, y, z] + rest && k + 2 < |rest|
    ensures ps[k + 3] == rest[k] && ps[k + 4] == rest[k + 1] && ps[k + 5] == rest[k + 2]
  {
  }

  /** The trends block, present only when there is at least one keyword. */
  function TrendBlock(ts: seq<TrendSection>): (ps: seq<Block>)
    ensures |ts| == 0 <==> ps == []
    ensures |ts| > 0 ==> |ps| == 3 * |ts| + 2 && ps[0] == Heading(H2, TrendsTitle) && ps[|ps| - 1] == Divider
    ensures |ts| > 0 ==> ps[1..|ps| - 1] == TrendParts(ts)
  {
    if |ts| == 0 then [] else [Heading(H2, TrendsTitle)] + TrendParts(ts) + [Divider]
  }

  function Appendix(from: Date, to: Date, n: nat): seq<Block> {
    [AppendixStart, Heading(H2, AppendixTitle), BasisText(from, to, n), AppendixEnd]
  }

  const DocumentOpen: string := "<!DOCTYPE html>\n<html>\n<head>\n  <meta charset=\"utf-8\">\n  <title>Journal Analysis Report</title>\n  <style>\n"
  const DocumentClose: string := "\n</body>\n</html>"

  /** What stands between the style sheet and the body. */
  const StyleToBody: string := "\n  </style>\n</head>\n<body>\n"

  /** The full document around the body; the style sheet is a parameter.
      The contract places each piece: the opening, the style sheet, the
      fixed text closing the head, the body, and the closing tags. */
  function Document(css: string, body: string): (d: string)
    ensures |d| == |DocumentOpen| + |css| + |StyleToBody| + |body| + |DocumentClose|
    ensures d[..|DocumentOpen|] == DocumentOpen
    ensures d[|DocumentOpen|..|DocumentOpen| + |css|] == css
    ensures d[|DocumentOpen| + |css|..|d| - |DocumentClose| - |body|] == StyleToBody
    ensures d[|d| - |DocumentClose| - |body|..|d| - |DocumentClose|] == body
    ensures d[|d| - |DocumentClose|..] == DocumentClose
  {
    FivePieces(DocumentOpen, css, StyleToBody, body, DocumentClose);
    DocumentOpen + (css + (StyleToBody + (body + DocumentClose)))
  }

  // ---------------------------------------------------------------------
  // The report.

  /** What `build_report` produces before rendering: when and over what
      it was written, the text of each AI section, the trend sections, and
      the prompts sent to the summarizer in order. */
  datatype Report = Report(
    now: Timestamp,
    from: Date,
    to: Date,
    entryCount: nat,
    activity: string,
    emotion: string,
    obsActivity: string,
    obsEmotion: string,
    trends: seq<TrendSection>,
    calls: seq<Prompt>)

  /** `sorted(df["month"].unique())`: the months present, ascending. */
  function MonthLabels(rows: seq<Entry>): (ls: seq<string>)
    ensures |ls| == |MonthsPresent(rows)|
  {
    Map(MonthsPresent(rows), MonthLabel)
  }

  /** Everything `build_report` derives from the entries before it asks the
      summarizer: the entry count, the overall sample, the three grouped
      excerpt payloads, the month labels and each phrase's monthly counts. */
  datatype Digest = Digest(
    entryCount: nat,
    sample: string,
    byMonth: seq<GroupExcerpt>,
    byDay: seq<GroupExcerpt>,
    byTime: seq<GroupExcerpt>,
    monthLabels: seq<string>,
    counts: string -> seq<MonthCount>)

  /** `by_month or by_dow or by_tod`: some grouping is non-empty. */
  predicate Grouped(d: Digest) {
    |d.byMonth| > 0 || |d.byDay| > 0 || |d.byTime| > 0
  }

  function ObservationsPromptOf(d: Digest, aspect: Aspect): Prompt {
    ObservationsPrompt(aspect, d.byMonth, d.byDay, d.byTime, d.monthLabels)
  }

  /** `_phrase_counts_by_month(df, keyword)` for every keyword. */
  function CountsOver(rows: seq<Entry>): string -> seq<MonthCount> {
    (kw: string) => PhraseCountsByMonth(rows, kw)
  }

  /** The digest of the entries. There is something to group exactly when
      there are entries, the sample is empty exactly when every entry is
      blank, and every phrase has counts exactly when there are entries. */
  function DigestOf(rows: seq<Entry>): (d: Digest)
    ensures d.entryCount == |rows|
    ensures Grouped(d) <==> |rows| > 0
    ensures |d.sample| == 0 <==> forall e | e in rows :: AllSpace(e.text)
    ensures forall kw :: |d.counts(kw)| > 0 <==> |rows| > 0
  {
    var d := Digest(|rows|, OverallSample(rows, OverallSampleChars),
                    BuildGroupedExcerpts(rows, MonthKey, ExcerptCharsPerGroup),
                    BuildGroupedExcerpts(WeekdayPass(rows), WeekdayKey, ExcerptCharsPerGroup),
                    BuildGroupedExcerpts(rows, TimeOfDayKey, ExcerptCharsPerGroup),
                    MonthLabels(rows), CountsOver(rows));
    GroupedIffEntries(rows);
    d
  }

  /** There are groups to observe exactly when there are entries. */
  lemma GroupedIffEntries(rows: seq<Entry>)
    ensures || |BuildGroupedExcerpts(rows, MonthKey, ExcerptCharsPerGroup)| > 0
            || |BuildGroupedExcerpts(WeekdayPass(rows), WeekdayKey, ExcerptCharsPerGroup)| > 0
            || |BuildGroupedExcerpts(rows, TimeOfDayKey, ExcerptCharsPerGroup)| > 0
            <==> |rows| > 0
  {
    if |rows| > 0 {
      assert rows[0] in rows;
    }
  }

  /** The two observations sections, activity first; a failing rendering
      of the first means the second is never requested. */
  function ObserveBoth(grouped: bool, pa: Prompt, pe: Prompt, labels: seq<string>,
                       key: Option<string>, chat: Summarizer, parse: Parser): (a: Asked<Result<(string, string)>>)
    ensures |a.calls| <= 2
    ensures a.value.Err? ==> KeySet(key) && grouped
    ensures !(KeySet(key) && grouped) ==> a.calls == [] && a.value == Ok((Placeholder, Placeholder))
    ensures KeySet(key) && grouped && a.value.Ok? ==> a.calls == [pa, pe]
    ensures KeySet(key) && grouped ==>
              var ra := Rendered(chat(pa, key.value), parse, labels);
              var re := Rendered(chat(pe, key.value), parse, labels);
              && (a.value.Ok? <==> ra.Ok? && re.Ok?)
              && (a.value.Ok? ==> a.value.value == (ra.value, re.value))
  {
    var oa := Observe(key, grouped, pa, chat, parse, labels);
    var oe := Observe(key, grouped, pe, chat, parse, labels);
    BothShape(oa, oe, KeySet(key) && grouped, pa, pe);
    Both(oa, oe)
  }

  /** The first section, then the second unless the first failed. */
  function Both(oa: Asked<Result<string>>, oe: Asked<Result<string>>): Asked<Result<(string, string)>> {
    match oa.value
    case Err(msg) => Asked(Err(msg), oa.calls)
    case Ok(first) =>
      match oe.value
      case Err(msg) => Asked(Err(msg), oa.calls + oe.calls)
      case Ok(second) => Asked(Ok((first, second)), oa.calls + oe.calls)
  }

  /** Two sections asked under the same condition combine into at most two
      calls, in order, made only under that condition. */
  lemma BothShape(oa: Asked<Result<string>>, oe: Asked<Result<string>>, asked: bool, pa: Prompt, pe: Prompt)
    requires |oa.calls| <= 1 && (oa.calls == [] <==> !asked) && (oa.calls != [] ==> oa.calls[0] == pa)
    requires |oe.calls| <= 1 && (oe.calls == [] <==> !asked) && (oe.calls != [] ==> oe.calls[0] == pe)
    requires oa.calls == [] ==> oa.value == Ok(Placeholder)
    requires oe.calls == [] ==> oe.value == Ok(Placeholder)
    ensures var a := Both(oa, oe);
            && |a.calls| <= 2
            && (a.value.Err? ==> asked)
            && (!asked ==> a.calls == [] && a.value == Ok((Placeholder, Placeholder)))
            && (asked && a.value.Ok? ==> a.calls == [pa, pe])
  {
  }

  /** The call skeleton of `build_report` over a digest: the two overall
      summaries, the two observations sections, then one summary per
      keyword. It fails only when a table rendering fails, which needs a
      key and something to group. */
  function Run(d: Digest, kws: seq<string>, key: Option<string>, from: Date, to: Date,
               now: Timestamp, chat: Summarizer, parse: Parser, chart: ChartRenderer): (r: Result<Report>)
    ensures r.Err? ==> KeySet(key) && Grouped(d)
    ensures r.Ok? ==> r.value.now == now && r.value.from == from && r.value.to == to
    ensures r.Ok? ==> r.value.entryCount == d.entryCount
    ensures r.Ok? ==> |r.value.calls| <= 4 + |kws|
    ensures r.Ok? ==> |r.value.trends| == |kws| && forall i | 0 <= i < |kws| :: r.value.trends[i].keyword == kws[i]
  {
    var act := Summarize(key, |d.sample| > 0, OverallPrompt(Activity, d.sample), chat);
    var emo := Summarize(key, |d.sample| > 0, OverallPrompt(Emotion, d.sample), chat);
    var obs := ObserveBoth(Grouped(d), ObservationsPromptOf(d, Activity), ObservationsPromptOf(d, Emotion),
                           d.monthLabels, key, chat, parse);
    match obs.value
    case Err(msg) => Err(msg)
    case Ok(pair) =>
      var ts := TrendSections(d.counts, kws, key, chat, chart);
      Ok(Report(now, from, to, d.entryCount, act.value, emo.value, pair.0, pair.1, ts.value,
                act.calls + emo.calls + obs.calls + ts.calls))
  }

  /** `build_report` over the filtered entries. The file it writes is
      `Filename(now)` holding `Html(r, css)`. */
  function BuildReport(rows: seq<Entry>, kws: seq<string>, key: Option<string>, from: Date, to: Date,
                       now: Timestamp, chat: Summarizer, parse: Parser, chart: ChartRenderer): (r: Result<Report>)
    ensures r.Err? ==> KeySet(key) && |rows| > 0
    ensures r.Ok? ==> r.value.entryCount == |rows|
  {
    Run(DigestOf(rows), kws, key, from, to, now, chat, parse, chart)
  }

  /** The body blocks in order: head, overall sections, observations, the
      trends block, appendix. */
  function Parts(r: Report): seq<Block> {
    Head(r.now, r.from, r.to, r.entryCount) + Overall(r.activity, r.emotion) + Observations(r.obsActivity, r.obsEmotion)
      + TrendBlock(r.trends) + Appendix(r.from, r.to, r.entryCount)
  }

  /** The written file: the rendered blocks joined by newlines inside the
      document. */
  function Html(r: Report, css: string): string {
    Document(css, JoinWith(Map(Parts(r), Render), "\n"))
  }

  // ---------------------------------------------------------------------
  // Properties of the report.

  /** Without a key nothing is sent to the summarizer, the report cannot
      fail, and every AI section shows the placeholder. */
  lemma RunWithoutKey(d: Digest, kws: seq<string>, key: Option<string>, from: Date, to: Date,
                      now: Timestamp, chat: Summarizer, parse: Parser, chart: ChartRenderer)
    requires !KeySet(key)
    ensures var r := Run(d, kws, key, from, to, now, chat, parse, chart);
            && r.Ok? && r.value.calls == []
            && r.value.activity == Placeholder && r.value.emotion == Placeholder
            && r.value.obsActivity == Placeholder && r.value.obsEmotion == Placeholder
            && forall i | 0 <= i < |kws| :: r.value.trends[i].summary == Placeholder
  {
  }

  /** Without a key the summarizer and the reply parser cannot influence
      the report. */
  lemma RunWithoutKeyIgnoresSummarizer(d: Digest, kws: seq<string>, key: Option<string>, from: Date, to: Date,
                                       now: Timestamp, chat: Summarizer, chat': Summarizer,
                                       parse: Parser, parse': Parser, chart: ChartRenderer)
    requires !KeySet(key)
    ensures Run(d, kws, key, from, to, now, chat, parse, chart) == Run(d, kws, key, from, to, now, chat', parse', chart)
  {
    var r := Run(d, kws, key, from, to, now, chat, parse, chart);
    var r' := Run(d, kws, key, from, to, now, chat', parse', chart);
    RunWithoutKey(d, kws, key, from, to, now, chat, parse, chart);
    RunWithoutKey(d, kws, key, from, to, now, chat', parse', chart);
    TrendSectionsAgree(d.counts, kws, key, chat, chat', chart);
  }

  /** The trend sections, with no key, do not depend on the summarizer. */
  lemma {:induction false} TrendSectionsAgree(counts: string -> seq<MonthCount>, kws: seq<string>, key: Option<string>,
                                              chat: Summarizer, chat': Summarizer, chart: ChartRenderer)
    requires !KeySet(key)
    ensures TrendSections(counts, kws, key, chat, chart) == TrendSections(counts, kws, key, chat', chart)
  {
    if |kws| > 0 {
      TrendSectionsAgree(counts, kws[1..], key, chat, chat', chart);
    }
  }

  /** With a key, every AI section shows its own reply: each overall
      section the stripped reply to its prompt when there is a sample, each
      observations section its rendered reply when there is something to
      group, and each keyword's summary the stripped reply about that
      keyword when it has counts; the placeholder otherwise. The report
      fails exactly when there is something to group and one of the two
      observations replies does not render. */
  lemma RunShowsReplies(d: Digest, kws: seq<string>, key: Option<string>, from: Date, to: Date,
                        now: Timestamp, chat: Summarizer, parse: Parser, chart: ChartRenderer)
    requires KeySet(key)
    ensures var r := Run(d, kws, key, from, to, now, chat, parse, chart);
            var ra := Rendered(chat(ObservationsPromptOf(d, Activity), key.value), parse, d.monthLabels);
            var re := Rendered(chat(ObservationsPromptOf(d, Emotion), key.value), parse, d.monthLabels);
            && (r.Ok? <==> !Grouped(d) || (ra.Ok? && re.Ok?))
            && (r.Ok? ==>
                  && r.value.activity == (if |d.sample| > 0 then Shown(chat(OverallPrompt(Activity, d.sample), key.value)) else Placeholder)
                  && r.value.emotion == (if |d.sample| > 0 then Shown(chat(OverallPrompt(Emotion, d.sample), key.value)) else Placeholder)
                  && (Grouped(d) ==> r.value.obsActivity == ra.value && r.value.obsEmotion == re.value)
                  && (!Grouped(d) ==> r.value.obsActivity == Placeholder && r.value.obsEmotion == Placeholder)
                  && forall i | 0 <= i < |kws| :: r.value.trends[i].summary == TrendSummary(d.counts, kws[i], key.value, chat))
  {
  }

  /** With a key, a non-empty sample, something to group and counts for
      every keyword, a successful report asked exactly these prompts in
      this order: the two overall summaries, the two observations, then
      one trend summary per keyword. */
  lemma RunCallOrder(d: Digest, kws: seq<string>, key: Option<string>, from: Date, to: Date,
                     now: Timestamp, chat: Summarizer, parse: Parser, chart: ChartRenderer)
    requires KeySet(key) && |d.sample| > 0 && Grouped(d)
    requires forall i | 0 <= i < |kws| :: |d.counts(kws[i])| > 0
    ensures var r := Run(d, kws, key, from, to, now, chat, parse, chart);
            r.Ok? ==>
              && r.value.calls == [OverallPrompt(Activity, d.sample), OverallPrompt(Emotion, d.sample),
                                   ObservationsPromptOf(d, Activity), ObservationsPromptOf(d, Emotion)]
                                  + Map(kws, TrendPromptWith(d.counts))
              && |r.value.calls| == 4 + |kws|
  {
    var r := Run(d, kws, key, from, to, now, chat, parse, chart);
    if r.Ok? {
      var act := Summarize(key, |d.sample| > 0, OverallPrompt(Activity, d.sample), chat);
      var emo := Summarize(key, |d.sample| > 0, OverallPrompt(Emotion, d.sample), chat);
      var obs := ObserveBoth(Grouped(d), ObservationsPromptOf(d, Activity), ObservationsPromptOf(d, Emotion),
                             d.monthLabels, key, chat, parse);
      var ts := TrendSections(d.counts, kws, key, chat, chart);
      assert obs.value.Ok?;
      assert r.value.calls == act.calls + emo.calls + obs.calls + ts.calls;
      CallsInOrder(act.calls, emo.calls, obs.calls, ts.calls, OverallPrompt(Activity, d.sample),
                   OverallPrompt(Emotion, d.sample), ObservationsPromptOf(d, Activity), ObservationsPromptOf(d, Emotion));
    }
  }

  lemma CallsInOrder(a: seq<Prompt>, b: seq<Prompt>, c: seq<Prompt>, m: seq<Prompt>,
                     x: Prompt, y: Prompt, z: Prompt, w: Prompt)
    requires a == [x] && b == [y] && c == [z, w]
    ensures a + b + c + m == [x, y, z, w] + m
  {
  }

  /** `build_report` without a key makes no call and shows placeholders. */
  lemma BuildReportWithoutKey(rows: seq<Entry>, kws: seq<string>, key: Option<string>, from: Date, to: Date,
                              now: Timestamp, chat: Summarizer, parse: Parser, chart: ChartRenderer)
    requires !KeySet(key)
    ensures var r := BuildReport(rows, kws, key, from, to, now, chat, parse, chart);
            && r.Ok? && r.value.calls == []
            && r.value.activity == Placeholder && r.value.emotion == Placeholder
            && r.value.obsActivity == Placeholder && r.value.obsEmotion == Placeholder
  {
    RunWithoutKey(DigestOf(rows), kws, key, from, to, now, chat, parse, chart);
  }

  /** `build_report` with a key and at least one non-blank entry asks the
      summarizer 4 + |kws| times when it succeeds. */
  lemma BuildReportCallCount(rows: seq<Entry>, kws: seq<string>, key: Option<string>, from: Date, to: Date,
                             now: Timestamp, chat: Summarizer, parse: Parser, chart: ChartRenderer)
    requires KeySet(key) && exists e | e in rows :: !AllSpace(e.text)
    ensures var r := BuildReport(rows, kws, key, from, to, now, chat, parse, chart);
            r.Ok? ==> |r.value.calls| == 4 + |kws|
  {
    var d := DigestOf(rows);
    RunCallOrder(d, kws, key, from, to, now, chat, parse, chart);
  }

  /** The sections come in a fixed order: head, overall activity, overall
      emotion, the observations, the trends block when there are keywords,
      and the appendix last. */
  lemma PartsLayout(r: Report)
    ensures var ps, k := Parts(r), |TrendBlock(r.trends)|;
            && |ps| == 21 + k
            && (k == 0 <==> |r.trends| == 0)
            && ps[0] == Heading(H1, ReportTitle) && ps[2] == PurposeLabel && ps[4] == Divider
            && ps[5] == Heading(H2, ActivityTitle) && ps[6] == Para(r.activity) && ps[7] == Divider
            && ps[8] == Heading(H2, EmotionTitle) && ps[9] == Para(r.emotion) && ps[10] == Divider
            && ps[11] == Heading(H2, ObservationsTitle)
            && ps[12] == Heading(H3, ObsActivityTitle) && ps[13] == Placed(r.obsActivity)
            && ps[14] == Heading(H3, ObsEmotionTitle) && ps[15] == Placed(r.obsEmotion) && ps[16] == Divider
            && ps[17..17 + k] == TrendBlock(r.trends)
            && ps[17 + k] == AppendixStart && ps[18 + k] == Heading(H2, AppendixTitle) && ps[20 + k] == AppendixEnd
  {
    FrontLayout(r);
    MiddleLayout(r);
    BackLayout(r);
  }

  /** The head and the two overall sections. */
  lemma FrontLayout(r: Report)
    ensures var ps := Parts(r);
            && |ps| >= 17
            && ps[0] == Heading(H1, ReportTitle) && ps[2] == PurposeLabel && ps[4] == Divider
            && ps[5] == Heading(H2, ActivityTitle) && ps[6] == Para(r.activity) && ps[7] == Divider
            && ps[8] == Heading(H2, EmotionTitle) && ps[9] == Para(r.emotion) && ps[10] == Divider
  {
    var ps := Parts(r);
    var front := Head(r.now, r.from, r.to, r.entryCount) + Overall(r.activity, r.emotion);
    assert |front| == 11 && forall i | 0 <= i < 11 :: ps[i] == front[i];
  }

  /** The observations: the two aspects, each placed as markup or prose. */
  lemma MiddleLayout(r: Report)
    ensures var ps := Parts(r);
            && |ps| >= 17
            && ps[11] == Heading(H2, ObservationsTitle)
            && ps[12] == Heading(H3, ObsActivityTitle) && ps[13] == Placed(r.obsActivity)
            && ps[14] == Heading(H3, ObsEmotionTitle) && ps[15] == Placed(r.obsEmotion) && ps[16] == Divider
  {
    var ps := Parts(r);
    var obs := Observations(r.obsActivity, r.obsEmotion);
    assert forall i | 0 <= i < 6 :: ps[11 + i] == obs[i];
  }

  /** The trends block, then the appendix. */
  lemma BackLayout(r: Report)
    ensures var ps, k := Parts(r), |TrendBlock(r.trends)|;
            && |ps| == 21 + k
            && (k == 0 <==> |r.trends| == 0)
            && ps[17..17 + k] == TrendBlock(r.trends)
            && ps[17 + k] == AppendixStart && ps[18 + k] == Heading(H2, AppendixTitle) && ps[20 + k] == AppendixEnd
  {
  }

  /** Each keyword's section sits under the trends heading, in keyword
      order: its heading, its chart, its summary. */
  lemma TrendPlacement(r: Report)
    requires |r.trends| > 0
    ensures var ps := Parts(r);
            && ps[17] == Heading(H2, TrendsTitle)
            && forall i | 0 <= i < |r.trends| ::
                 && ps[18 + 3 * i] == Heading(H3, Quoted(r.trends[i].keyword))
                 && ps[19 + 3 * i] == Markup(r.trends[i].chart)
                 && ps[20 + 3 * i] == Para(r.trends[i].summary)
  {
    BackLayout(r);
    InsideBlock(Parts(r), TrendBlock(r.trends), r.trends);
  }

  /** Where the blocks of a trends block land in the whole body. */
  lemma InsideBlock(ps: seq<Block>, tb: seq<Block>, ts: seq<TrendSection>)
    requires |ts| > 0 && tb == TrendBlock(ts) && |ps| >= 17 + |tb| && ps[17..17 + |tb|] == tb
    ensures ps[17] == Heading(H2, TrendsTitle)
    ensures forall i | 0 <= i < |ts| ::
              && ps[18 + 3 * i] == Heading(H3, Quoted(ts[i].keyword))
              && ps[19 + 3 * i] == Markup(ts[i].chart)
              && ps[20 + 3 * i] == Para(ts[i].summary)
  {
    var tp := TrendParts(ts);
    assert ps[17] == tb[0];
    forall i | 0 <= i < |ts|
      ensures ps[18 + 3 * i] == tp[3 * i] && ps[19 + 3 * i] == tp[3 * i + 1] && ps[20 + 3 * i] == tp[3 * i + 2]
    {
      assert ps[18 + 3 * i] == tb[1 + 3 * i];
      assert ps[19 + 3 * i] == tb[2 + 3 * i];
      assert ps[20 + 3 * i] == tb[3 + 3 * i];
    }
  }

  /** The observations sections are always written as markup. */
  lemma ObservationsWrittenAsMarkup(r: Report)
    ensures StartsWithTag(Render(Parts(r)[13])) && StartsWithTag(Render(Parts(r)[15]))
  {
    PartsLayout(r);
    PlacedWrittenAsMarkup(r.obsActivity);
    PlacedWrittenAsMarkup(r.obsEmotion);
  }

  /** The placeholder is not markup, so it is placed in a paragraph. */
  lemma PlaceholderIsProse()
    ensures Placed(Placeholder) == Para(Placeholder)
  {
    assert Placeholder[0] == 'N';
    StripKeepsFirst(Placeholder);
  }

  /** Without a key every AI section of the body is the placeholder
      paragraph, whatever the entries. */
  lemma BodyWithoutKey(rows: seq<Entry>, kws: seq<string>, key: Option<string>, from: Date, to: Date,
                       now: Timestamp, chat: Summarizer, parse: Parser, chart: ChartRenderer)
    requires !KeySet(key)
    ensures var r := BuildReport(rows, kws, key, from, to, now, chat, parse, chart);
            && r.Ok?
            && var ps := Parts(r.value);
               && ps[6] == Para(Placeholder) && ps[9] == Para(Placeholder)
               && ps[13] == Para(Placeholder) && ps[15] == Para(Placeholder)
  {
    BuildReportWithoutKey(rows, kws, key, from, to, now, chat, parse, chart);
    var r := BuildReport(rows, kws, key, from, to, now, chat, parse, chart);
    PartsLayout(r.value);
    PlaceholderIsProse();
  }
}
