# Journal Analyzer: entry filter and report pipeline, in Dafny

This project models the deterministic part of Journal Analyzer that sits
between the list of journal entries and the written HTML report:

- the **entry filter** of `utils.py` (`filter_entries`,
  `filter_entries_by_date_only`): a stable filter joining an inclusive date
  window, weekday and time-of-day membership and a comma-separated list of
  wildcard keyword phrases;
- the **report helpers** of `report_builder.py`: word-boundary truncation
  (`_excerpt`), per-group excerpts within a character budget
  (`_build_grouped_excerpts`), the overall sample (`_overall_sample`), the
  all-words phrase test and its per-month counts (`_phrase_matches_entry`,
  `_phrase_counts_by_month`), the JSON extraction from a model reply
  (`_extract_json_from_reply`), and the two fallback renderers
  (`_observations_to_html_tables`, `_raw_to_bullet_list`);
- the **call and layout skeleton of `build_report`**, as a pure function. It
  takes the clock reading, the summarizer, the JSON parser and the chart
  renderer as parameters. It returns the report's file name and its
  sections, or an error where the source would raise.

Modules, in dependency order:

| file | module | what it holds |
|---|---|---|
| `options.dfy` | `Options` | `Option` and `Result` |
| `text.dfy` | `Text` | Python `str` behaviour: `isspace`, `strip`, `split()`, `split(sep)`, `rsplit(maxsplit=1)`, ASCII `lower`, `splitlines`, the `in` substring test, zero-padded digits |
| `seqs.dfy` | `Seqs` | stable filter, subsequence, first-seen order, map, count |
| `journal.dfy` | `Journal` | `Entry`, `Date`, `Month`, month labels, canonical weekday and time-of-day orders |
| `glob.dfy` | `Glob` | the keyword pattern language: `*` is any run of non-newline characters, the rest is literal and case-insensitive |
| `filter.dfy` | `EntryFilter` | `filter_entries` and its properties |
| `excerpts.dfy` | `Excerpts` | `_excerpt`, `_build_grouped_excerpts`, the weekday pass, `_overall_sample` |
| `trends.dfy` | `Trends` | `_phrase_matches_entry`, `_phrase_counts_by_month` |
| `json.dfy` | `JsonData` | the decoded JSON values, Python truthiness, `dict.get`, `str()` |
| `replies.dfy` | `Replies` | `_extract_json_from_reply`, `_observations_to_html_tables`, `_raw_to_bullet_list` |
| `report.dfy` | `Report` | `build_report`: calls, placeholders, section order, file name |

Choices in the code that the model follows:

- Grouped excerpts come in first-seen order. The exception is the
  day-of-week pass, which sorts the frame by weekday before grouping
  (`report_builder.py:231-234`), so the weekday groups come in
  Monday..Sunday order (`WeekdayGroupsInCalendarOrder`).
- Weekday and time-of-day are the raw stored labels, so membership tests use
  them as they are.
- Model replies are stripped before JSON extraction. A fenced block is
  searched for with both fence patterns. The greedy `{...}` span runs from
  the first `{` to the last `}`.

## Model

| member | source | states |
|---|---|---|
| EntryFilter.FilterEntries | utils.py:48-88 | the result is exactly the input entries that pass all five tests (date from, date to, weekday, time of day, keywords), in input order; nothing else is in it |
| EntryFilter.StagesCompose | utils.py:64-87 | applying the stages one after another equals one stable filter by the conjunction of the tests |
| EntryFilter.KeywordPhrases | utils.py:78 | each phrase is non-empty, stripped and free of commas; there are none exactly when every comma-separated piece is blank |
| EntryFilter.KeywordPhrasesAre | utils.py:78 | the phrases are exactly the non-blank comma-separated pieces, each stripped, in the order written |
| EntryFilter.KeywordPhrasesOfEmpty | utils.py:77-79 | an empty keyword string gives no phrases, so the keyword stage is a no-op |
| EntryFilter.KeywordPhrasesPair | utils.py:78 | two comma-separated phrases come back as the two stripped phrases in order |
| EntryFilter.KeywordPhrasesExample | utils.py:78 | `"OCD, happy"` gives the phrases `OCD` and `happy` |
| EntryFilter.FilterEntriesOfNothing | utils.py:62-63 | a missing or empty frame gives an empty result, for the full and the date-only filter |
| EntryFilter.FilterEntriesSubsequence | utils.py:64-88 | the result is an order-preserving subsequence of the input |
| EntryFilter.FilterEntriesIdempotent | utils.py:64-88 | filtering the result again with the same criteria changes nothing |
| EntryFilter.FilterEntriesNoCriteria | utils.py:66-88 | with no dates, no days, no times and no keywords the result is the input, in order |
| EntryFilter.FilterEntriesOneDay | utils.py:66-69 | with both bounds equal to D, exactly the entries dated D are kept (both bounds inclusive) |
| EntryFilter.FilterEntriesDays | utils.py:71-75 | non-empty day and time lists keep exactly the entries whose raw labels are in both lists |
| EntryFilter.DateOnlyIsFilterEntries | utils.py:91-100 | the date-only filter is the stable filter by the two optional inclusive bounds |
| EntryFilter.FilterEntriesByDateOnly | utils.py:91-100 | an entry is in the result exactly when it is in the input and within both optional bounds |
| EntryFilter.MentionsEither | utils.py:80-87 | with two phrases an entry is kept when either one occurs in its text (OR across phrases) |
| EntryFilter.FilterEntriesDropsMiddle | utils.py:64-88 | a rejected entry between two kept ones is dropped and the others keep their order |
| EntryFilter.ScenarioDays | utils.py:71-72 | the Friday-only filter over three sample entries keeps only the Friday entry |
| EntryFilter.ScenarioKeywords | utils.py:77-87 | `"OCD, happy"` keeps the two sample entries that mention either word and drops the third |
| Glob.MatchPrefixLiteral | utils.py:83 | a phrase without `*` matches at the start of a text exactly when its lower-cased form is a prefix of the lower-cased text |
| Glob.SearchLiteral | utils.py:83-86 | a phrase without `*` is found exactly when its lower-cased form is a substring of the lower-cased text |
| Glob.StarMeaning | utils.py:83 | a leading `*` matches exactly when the rest of the phrase matches after some run of characters without a newline |
| Glob.TrailingStar | utils.py:83 | a trailing `*` never changes whether a phrase matches |
| Glob.MatchPrefixIgnoresCase | utils.py:86 | matching is the same for a text and its lower-cased form |
| Glob.NoSearchWithoutPair | utils.py:83-86 | a phrase that starts with two literal characters cannot be found in a text where those two characters never stand next to each other (ignoring case) |
| Glob.WildcardExample | utils.py:83-86 | `OC*` is found in "felt OCD today" |
| Excerpts.Excerpt | report_builder.py:56-61 | the excerpt is stripped and sits at the start of the text with its leading whitespace removed; it is `strip(t)` when `|t| <= m`; otherwise it keeps every word of `t[:m]` but the last when there are two or more, and is `strip(t[:m])` when there is at most one; its length is at most `m` for `m >= 0`; it is non-empty when the text starts with a non-space and `m >= 1` |
| Excerpts.TruncatedExcerpt | report_builder.py:60-61 | the truncation branch, written with `rsplit`, keeps every word of `t[:m]` but the last, and stays a prefix of the text after its leading whitespace |
| Excerpts.Accumulate | report_builder.py:68-80 | over one group's texts: blank texts are skipped; the k-th part is the excerpt of the k-th non-blank stripped text cut to the smaller of its length and the budget left after the earlier parts; each part is non-empty and fits that budget; a part that fits whole is the whole text; the loop stops only once the total reaches the budget |
| Excerpts.AccumulateWithinBudget | report_builder.py:74-80 | the part lengths never add up to more than the budget |
| Excerpts.AccumulateEmptyIff | report_builder.py:71-76 | there are no parts exactly when the budget is spent or every text is blank |
| Excerpts.GroupText | report_builder.py:68-81 | a group's text is empty exactly when the budget is non-positive or every text is blank; otherwise it is shorter than the budget plus the number of rows |
| Excerpts.GroupTextLength | report_builder.py:81 | a group's text is its parts joined by single spaces, at most budget + (number of parts − 1) long |
| Excerpts.BuildGroupedExcerpts | report_builder.py:64-82 | one record per distinct group label, in first-appearance order; every entry's label has a record; each record's group has rows and its text is that group's excerpt text |
| Excerpts.GroupRecords | report_builder.py:67-81 | records carrying the distinct row labels in first-appearance order are distinct, cover every row, each have rows, and keep that order |
| Excerpts.SortByOrderMembers | report_builder.py:232-233 | the weekday pass keeps exactly the rows whose weekday is a listed weekday |
| Excerpts.SortByOrderStable | report_builder.py:232-233 | for each weekday the pass keeps exactly that weekday's rows in input order, and none for a weekday not listed |
| Excerpts.SortByOrderRanked | report_builder.py:232-233 | after the pass the rows are in the listed weekday order |
| Excerpts.GroupsFollowOrder | report_builder.py:227-234 | grouping rows already in a canonical order yields groups in that order |
| Excerpts.WeekdayGroupsInCalendarOrder | report_builder.py:228-234 | the day-of-week groups are listed weekdays, in Monday..Sunday order, one for each weekday present |
| Excerpts.SampleChunks | report_builder.py:87-98 | the chunks are the 200-character excerpts of the non-blank stripped texts, in order; before every chunk after the first the running total is still below the budget; the loop stops early only once the total reaches the budget |
| Excerpts.OverallSample | report_builder.py:85-99 | the sample is the 200-character excerpts of the first n non-blank stripped texts joined by single spaces, where the total before each later chunk is below the budget and, when texts remain, the first n chunks reach it; it is empty exactly when every entry's text is blank; it is shorter than the budget plus 200 plus the number of entries |
| Excerpts.SampleChunksArePrefix | report_builder.py:87-98 | the chunks are those of a prefix of the non-blank stripped texts, stopping where the budget is reached |
| Excerpts.OverallSampleBound | report_builder.py:93-98 | the sample's chunks add up to less than the budget plus 200 |
| Excerpts.SampleEmptyIff | report_builder.py:89-92 | the joined sample is empty exactly when no text is non-blank |
| Trends.PhraseMatchesEntry | report_builder.py:102-108 | false for an empty text or phrase; otherwise true exactly when every word of the phrase, lower-cased, is a substring of the lower-cased text |
| Trends.BlankPhraseMatches | report_builder.py:104-108 | a whitespace-only phrase matches any non-empty text |
| Trends.PhraseIsConjunction | report_builder.py:107-108 | `a b` matches exactly when `a` and `b` both match (AND across words) |
| Trends.PhraseWordOrder | report_builder.py:107-108 | the order of a phrase's words does not matter |
| Trends.MissingWordFails | report_builder.py:108 | a phrase with a word absent from the text does not match |
| Trends.VeryHappyExample | report_builder.py:102-108 | "very happy" does not match the text "happy" |
| Trends.SingleWordAgreesWithFilter | report_builder.py:102-108 | for one word without `*`, the phrase test agrees with the entry filter's keyword search |
| Trends.MonthsPresent | report_builder.py:114-116 | the months present, strictly ascending, each once |
| Trends.PhraseCountsByMonth | report_builder.py:111-119 | one row per month present, ascending; each count is the number of matching entries of that month, so zero-count months stay; each count is at most the month's entries |
| Trends.CountsAddUp | report_builder.py:111-119 | the counts add up to the number of matching entries |
| JsonData.Field | report_builder.py:149-150 | `dict.get`: nothing exactly when no member has the key, otherwise the value of the last member with the key |
| Replies.FirstParse | report_builder.py:126-143 | the first candidate that parses wins; nothing exactly when none parses |
| Replies.Candidates | report_builder.py:124-141 | between one and four candidates: the two fence bodies when there are fences, then the brace span when there is one, then the stripped reply, in that order |
| Replies.ExtractJsonFromReply | report_builder.py:122-143 | the result is the first candidate that parses, nothing exactly when none does, and a reply that parses whole always yields a value |
| Replies.FenceCandidates | report_builder.py:126-132 | fenced candidates exist exactly when the reply holds two fences three or more characters apart; they are then the stripped text from after an optional `json` tag up to the next fence, and the stripped text from the first fence's end up to the next fence, for the first fence and the first fence after it |
| Replies.FenceCandidatesAt | report_builder.py:126-130 | a ```json fence yields the body after the tag first, then the body with the tag |
| Replies.BraceCandidates | report_builder.py:134-137 | the brace candidate runs from the first `{` to the last `}` after it, and exists exactly when there is such a `}` |
| Replies.BareReply | report_builder.py:140-143 | a reply with no fence and no brace is parsed whole, after stripping |
| Replies.FencedReply | report_builder.py:126-130 | a ```json-fenced body that parses is returned |
| Replies.ProseAroundObject | report_builder.py:134-137 | an object surrounded by prose without braces or fences is found and returned |
| Replies.TableFor | report_builder.py:148-157 | one table: lines joined by newlines, the header naming the row key's column, one row per label in label order showing the observation of the last row object carrying that label (or a dash when none does), then the footer; it fails exactly when the grouping cannot be iterated |
| Replies.LastRowObservationOf | report_builder.py:150-154 | when row object i carries a label and no later row object does, the label's cell is row i's observation |
| Replies.LastRowObservationDash | report_builder.py:150-154 | a label no row object carries gets a dash |
| Replies.TableLinesOfRows | report_builder.py:150-156 | each label's row line shows that label's last row observation |
| Replies.TableLines | report_builder.py:152-156 | the lines of a table: the header, one row per label, the footer |
| Replies.Lookup | report_builder.py:150 | the labels looked up are exactly the stripped labels of the object rows; a repeated label keeps the last row's observation |
| Replies.ObservationsToHtmlTables | report_builder.py:146-163 | succeeds exactly for an object whose three groupings can be iterated; the result starts with the "By month" heading |
| Replies.ObservationsAreSections | report_builder.py:159-163 | on success the result is the month table (labels `month_labels`), the weekday table and the time-of-day table, each under its heading, in that order |
| Replies.ObservationsFailIff | report_builder.py:146-163 | the rendering fails exactly when the value is not an object or one of its three groupings cannot be iterated |
| Replies.RawToBulletList | report_builder.py:166-171 | one bullet per non-blank stripped line; with no such line the raw text in a paragraph, or a dash for an empty reply; always markup |
| Replies.BulletsOfLines | report_builder.py:166-171 | stripped non-blank lines joined by newlines come back as the same bullets |
| Replies.SplitLinesOfJoin | report_builder.py:168 | splitting lines joined by newlines gives the lines back |
| Text.Strip | report_builder.py:59 | `strip()`: the result has no whitespace at either end and sits in the input with only whitespace around it |
| Text.StripUnique | report_builder.py:59 | any stripped piece surrounded by whitespace only is the `strip()` of its text |
| Text.WordsOfStrip | report_builder.py:60-61 | `strip()` keeps every word |
| Text.RSplitOnceWords | report_builder.py:60 | `rsplit(maxsplit=1)` gives no piece for blank text, the one word when there is one, and otherwise a head holding every word but the last, then the last word |
| Text.WordsOfJoin | report_builder.py:107 | splitting words joined with single spaces gives the words back |
| Text.NonBlankStripped | utils.py:78 | `[p.strip() for p in parts if p.strip()]`: each result is non-empty, stripped and the `strip()` of an input; the result is empty exactly when every input is blank |
| Text.NonBlankStrippedIsMapFilter | utils.py:78 | the result is the stripping of exactly the non-blank inputs, in input order |
| Text.Split | utils.py:78 | `split(sep)`: never empty, no piece holds the separator, and joining the pieces with the separator gives the input back |
| Text.ContainsIff | report_builder.py:108 | the substring test holds exactly when the needle occurs at some position |
| Report.Summarize | report_builder.py:200-224 | one overall section: exactly one call, with this prompt, when the key is set and the sample is non-empty; when that call is answered with a non-empty reply the value is the stripped reply, and in every other case the placeholder |
| Report.RenderObservations | report_builder.py:260-266 | the rendering is always markup; a reply with a truthy JSON value becomes the tables of that value over the month labels and the calendar weekday and time-of-day orders; a reply without one becomes the bullet list of its stripped text; it fails exactly when the value is truthy but not an object whose three groupings can be iterated |
| Report.Observe | report_builder.py:238-280 | one observations section: exactly one call, with this prompt, when the key is set and there are groups; when that call is answered with a non-empty reply the value is `RenderObservations` of the reply (tables, bullets or a failure), and in every other case the placeholder |
| Report.ObserveBoth | report_builder.py:238-280 | the activity section is asked before the emotion section; with no key or no groups there are no calls and both are placeholders; with a key and groups the pair succeeds exactly when both replies render, and it is then the activity rendering and the emotion rendering |
| Report.TrendSections | report_builder.py:283-299 | one section per keyword, in keyword order, with its chart; no key means no calls and placeholder summaries; with a key each summary is the stripped non-empty reply to that keyword's prompt when the keyword has counts, the placeholder otherwise; with counts for every keyword the calls are one trend prompt per keyword in order |
| Report.Run | report_builder.py:198-299 | the report fails only with a key and something to group; it carries the clock reading, the window and the entry count; at most 4 + \|keywords\| calls are made; the section values under a key are stated by `Report.RunShowsReplies` |
| Report.RunShowsReplies | report_builder.py:200-299 | with a key: each overall section is the stripped non-empty reply to its prompt when the sample is non-empty, each observations section is its rendered reply when there is something to group, each keyword summary is the stripped reply about that keyword when it has counts, and the placeholder in every other case; the report fails exactly when there is something to group and one of the two observations replies does not render |
| Report.BuildReport | report_builder.py:174-299 | over the entries: fails only with a key and at least one entry; carries the entry count; it is `Run` over `DigestOf` of the entries, so `Report.RunShowsReplies` gives its section values |
| Report.RunWithoutKey | report_builder.py:200-298 | without a key nothing is sent to the summarizer, the report cannot fail, and every AI section is the placeholder |
| Report.RunWithoutKeyIgnoresSummarizer | report_builder.py:201-298 | without a key the summarizer and the parser cannot influence the report |
| Report.RunCallOrder | report_builder.py:202-298 | with a key, a sample, groups and counts for every keyword, a successful report asked the two overall prompts, the two observation prompts, then one trend prompt per keyword: 4 + \|keywords\| calls |
| Report.BuildReportWithoutKey | report_builder.py:201-298 | `build_report` without a key makes no call and shows placeholders |
| Report.BuildReportCallCount | report_builder.py:202-298 | with a key and a non-blank entry, a successful report makes exactly 4 + \|keywords\| calls |
| Report.BodyWithoutKey | report_builder.py:314-325 | without a key all four AI sections of the body are the placeholder paragraph |
| Report.PartsLayout | report_builder.py:302-345 | the body blocks come in a fixed order: title, generation time, purpose, overall activity, overall emotion, the observations, the trends block when there are keywords, then the appendix |
| Report.TrendPlacement | report_builder.py:328-334 | each keyword's heading, chart and summary sit under the trends heading, in keyword order |
| Report.ObservationsWrittenAsMarkup | report_builder.py:323-325 | the observation sections are always written as markup: used as they are when they start with a tag, wrapped in a paragraph otherwise |
| Report.PlaceholderIsProse | report_builder.py:323-325 | the placeholder is wrapped in a paragraph |
| Report.StartsWithTagIsStrippedTest | report_builder.py:323 | the "starts with a tag" test is `strip().startswith("<")` |
| Report.Filename | report_builder.py:187 | the file name is `journal_report_`, the 15-character stamp, then `.html` |
| Report.FilenameInjective | report_builder.py:187 | two valid readings of the clock with the same file name are equal |
| Report.Document | report_builder.py:348-360 | the document is the fixed head, then the style sheet, then the text closing the head and opening the body, then the body, then the closing tags; each piece sits at its stated position |

## Left out

- Network access: `fetch_entries` and `ollama_chat` are not part of this model. The summarizer is a function parameter `(Prompt, key) -> Option<string>`.
- `api.py` and `app.py` (routing, CSV loading, the Shiny interface) are not part of this model.
- Plotly charts: the chart markup is a function parameter (`ChartRenderer`). The style sheet is a parameter of `Document`.
- Prompt wording: a prompt is modelled by the data it carries (`Prompt`), not by its text. `json.dumps` of the payloads is left out.
- `datetime.now()`, `mkdir` and the file write: the clock reading is a parameter, and the report is returned rather than written.
- `json.loads` is a parameter (`Parser`), and decoded numbers are integers only. `JNull` plays the role of `None`.
- Python's regular-expression engine: only the glob meaning of `*` in a keyword phrase is modelled (`Glob`). The fence and brace searches are written out directly.
- Case folding is ASCII only. Non-ASCII letters are compared as they are.
- The `groupby` on the categorical weekday column has pandas' `observed=False` default, which can also emit empty groups for listed weekdays without entries. The model emits observed groups only.
- The day-of-week sort uses numpy's default sort, which is not stable in general. The model uses a stable sort by weekday.
- `repr` escaping of strings inside lists and dicts is not modelled (`JsonData.Repr` quotes with `'` only).
- The month-label order is proved on `(year, month)` pairs. The four-digit years of pandas timestamps make it agree with the string order, which is not proved.
- Exceptions: an observations value that is not an object, or a grouping that cannot be iterated, makes the source raise. The model returns `Err` instead.
- `Report.FilenameInjective` assumes four-digit years and in-range fields (`ValidTimestamp`), which is what a host clock reports.
- `Report.BuildReport` states its properties through the digest of the entries (`DigestOf`); the prompts' payloads are that digest.
- Report.TrendSections: the exact list of trend prompts is stated only when every keyword has counts (as happens whenever there are entries); otherwise only the bound of one call per keyword.
- Report.Run: the exact call list is stated by `Report.RunCallOrder` under a key, a non-empty sample, groups and counts; in other cases only the bound 4 + |keywords|.
