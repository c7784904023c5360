/** The entry filter of `utils.py`: a stable filter that applies an
    inclusive date window, day-of-week and time-of-day membership, and a
    comma-separated list of wildcard keyword phrases, all joined by AND.
    An empty criterion imposes no constraint. */
module EntryFilter {
  import opened Text
  import opened Seqs
  import opened Options
  import opened Journal
  import opened Glob

  /** The filter arguments. `None` dates and empty lists or keyword strings
      mean "no constraint". */
  datatype Criteria = Criteria(
    dateFrom: Option<Date>,
    dateTo: Option<Date>,
    days: seq<string>,
    times: seq<string>,
    keywords: string)

  /** The criteria of the date-only filter used for the report window. */
  function DateOnly(dateFrom: Option<Date>, dateTo: Option<Date>): Criteria {
    Criteria(dateFrom, dateTo, [], [], "")
  }

  /** The keyword phrases: the comma-separated pieces, stripped, without the
      blank ones. */
  function KeywordPhrases(keywords: string): (ps: seq<string>)
    ensures forall k | 0 <= k < |ps| :: |ps[k]| > 0 && IsStripped(ps[k]) && ',' !in ps[k]
    ensures |ps| == 0 <==> forall piece | piece in Split(keywords, ',') :: AllSpace(piece)
  {
    var pieces := Split(keywords, ',');
    var ps := NonBlankStripped(pieces);
    forall w | w in ps ensures ',' !in w {
      var q :| q in pieces && w == Strip(q);
      StripKeepsAbsent(q, ',');
    }
    ps
  }

  // The five stage predicates. Each holds of every entry when its criterion
  // is empty, so that a skipped stage is a filter that keeps everything.

  predicate OnOrAfter(from: Option<Date>, e: Entry) {
    from.None? || DateLe(from.value, e.date)
  }

  predicate OnOrBefore(to: Option<Date>, e: Entry) {
    to.None? || DateLe(e.date, to.value)
  }

  predicate OnDay(days: seq<string>, e: Entry) {
    |days| == 0 || e.dayOfWeek in days
  }

  predicate AtTime(times: seq<string>, e: Entry) {
    |times| == 0 || e.timeOfDay in times
  }

  /** The keyword test: some phrase occurs in the text (the phrases are
      joined into one alternation and searched for anywhere). */
  predicate Mentions(phrases: seq<string>, e: Entry) {
    |phrases| == 0 || exists p | p in phrases :: Search(p, e.text)
  }

  /** An entry passes the filter: all five tests hold. */
  predicate Keep(c: Criteria, e: Entry) {
    && OnOrAfter(c.dateFrom, e)
    && OnOrBefore(c.dateTo, e)
    && OnDay(c.days, e)
    && AtTime(c.times, e)
    && Mentions(KeywordPhrases(c.keywords), e)
  }

  function Since(from: Option<Date>): Entry -> bool { e => OnOrAfter(from, e) }
  function Until(to: Option<Date>): Entry -> bool { e => OnOrBefore(to, e) }
  function OnDays(days: seq<string>): Entry -> bool { e => OnDay(days, e) }
  function AtTimes(times: seq<string>): Entry -> bool { e => AtTime(times, e) }
  function MentionsAny(phrases: seq<string>): Entry -> bool { e => Mentions(phrases, e) }
  function Kept(c: Criteria): Entry -> bool { e => Keep(c, e) }

  /** The rows of the frame handed in; `None` has none. */
  function Rows(df: Option<seq<Entry>>): seq<Entry> {
    if df.None? then [] else df.value
  }

  /** One filtering step that runs only when its criterion is given. */
  function Stage(xs: seq<Entry>, active: bool, p: Entry -> bool): (r: seq<Entry>)
    requires !active ==> forall e | e in xs :: p(e)
    ensures r == Filter(xs, p)
  {
    if active then Filter(xs, p)
    else
      FilterAll(xs, p);
      xs
  }

  /** `filter_entries`: the stages in the order the source applies them. The
      result is the input's entries that pass all five tests, in input
      order. */
  function FilterEntries(df: Option<seq<Entry>>, c: Criteria): (r: seq<Entry>)
    ensures r == Filter(Rows(df), Kept(c))
    ensures forall e | e in r :: e in Rows(df) && Keep(c, e)
    ensures forall e | e in Rows(df) && Keep(c, e) :: e in r
  {
    if df.None? || |df.value| == 0 then []
    else
      var r := Stages(df.value, c);
      assert forall e | e in df.value :: Kept(c)(e) == Keep(c, e);
      r
  }

  /** The five stages, each run only when its criterion is given. */
  function Stages(xs: seq<Entry>, c: Criteria): (r: seq<Entry>)
    ensures r == Filter(xs, Kept(c))
  {
    var out1 := Stage(xs, c.dateFrom.Some?, Since(c.dateFrom));
    var out2 := Stage(out1, c.dateTo.Some?, Until(c.dateTo));
    var out3 := Stage(out2, |c.days| > 0, OnDays(c.days));
    var out4 := Stage(out3, |c.times| > 0, AtTimes(c.times));
    var phrases := KeywordPhrases(c.keywords);
    KeywordPhrasesOfEmpty();
    var out5 := Stage(out4, |c.keywords| > 0 && |phrases| > 0, MentionsAny(phrases));
    StagesCompose(xs, c, phrases);
    out5
  }

  /** `filter_entries_by_date_only`. */
  function FilterEntriesByDateOnly(df: Option<seq<Entry>>, dateFrom: Option<Date>, dateTo: Option<Date>): (r: seq<Entry>)
    ensures forall e | e in r :: e in Rows(df) && OnOrAfter(dateFrom, e) && OnOrBefore(dateTo, e)
    ensures forall e | e in Rows(df) && OnOrAfter(dateFrom, e) && OnOrBefore(dateTo, e) :: e in r
  {
    FilterEntries(df, DateOnly(dateFrom, dateTo))
  }

  // ---------------------------------------------------------------------

  /** The phrases are the non-blank comma-separated pieces, each stripped,
      in the order they were written. */
  lemma KeywordPhrasesAre(keywords: string)
    ensures KeywordPhrases(keywords) == Map(Filter(Split(keywords, ','), NotBlank), Strip)
  {
    NonBlankStrippedIsMapFilter(Split(keywords, ','));
  }

  lemma KeywordPhrasesOfEmpty()
    ensures KeywordPhrases("") == []
  {
    assert Split("", ',') == [""];
    assert AllSpace("");
  }

  /** Filtering stage after stage is one stable filter by the conjunction
      of the five tests. */
  lemma StagesCompose(xs: seq<Entry>, c: Criteria, phrases: seq<string>)
    requires phrases == KeywordPhrases(c.keywords)
    ensures Filter(Filter(Filter(Filter(Filter(xs, Since(c.dateFrom)), Until(c.dateTo)), OnDays(c.days)), AtTimes(c.times)), MentionsAny(phrases))
         == Filter(xs, Kept(c))
  {
    var p12: Entry -> bool := e => OnOrAfter(c.dateFrom, e) && OnOrBefore(c.dateTo, e);
    var p123: Entry -> bool := e => p12(e) && OnDay(c.days, e);
    var p1234: Entry -> bool := e => p123(e) && AtTime(c.times, e);
    FilterThen(xs, Since(c.dateFrom), Until(c.dateTo), p12);
    FilterThen(xs, p12, OnDays(c.days), p123);
    FilterThen(xs, p123, AtTimes(c.times), p1234);
    FilterThen(xs, p1234, MentionsAny(phrases), Kept(c));
  }

  /** The result is an order-preserving subsequence of the input. */
  lemma FilterEntriesSubsequence(df: Option<seq<Entry>>, c: Criteria)
    ensures IsSubsequence(FilterEntries(df, c), Rows(df))
  {
    FilterIsSubsequence(Rows(df), Kept(c));
  }

  /** Filtering the filtered entries again with the same criteria changes
      nothing. */
  lemma FilterEntriesIdempotent(df: Option<seq<Entry>>, c: Criteria)
    ensures FilterEntries(Some(FilterEntries(df, c)), c) == FilterEntries(df, c)
  {
    FilterIdempotent(Rows(df), Kept(c));
  }

  /** A missing or empty frame gives an empty result. */
  lemma FilterEntriesOfNothing(df: Option<seq<Entry>>, c: Criteria)
    requires df.None? || df.value == []
    ensures FilterEntries(df, c) == []
    ensures FilterEntriesByDateOnly(df, c.dateFrom, c.dateTo) == []
  {
  }

  /** With every criterion empty the input comes back unchanged. */
  lemma FilterEntriesNoCriteria(xs: seq<Entry>)
    ensures FilterEntries(Some(xs), Criteria(None, None, [], [], "")) == xs
  {
    var c := Criteria(None, None, [], [], "");
    KeywordPhrasesOfEmpty();
    FilterAll(xs, Kept(c));
  }

  /** Both date bounds are inclusive: a one-day window keeps exactly the
      entries of that day, in order. */
  lemma FilterEntriesOneDay(xs: seq<Entry>, d: Date)
    ensures FilterEntries(Some(xs), DateOnly(Some(d), Some(d))) == Filter(xs, (e: Entry) => e.date == d)
  {
    var c := DateOnly(Some(d), Some(d));
    KeywordPhrasesOfEmpty();
    forall e | e in xs ensures Kept(c)(e) == (e.date == d) {
      if Keep(c, e) { DateLeAntisymmetric(d, e.date); }
    }
    FilterCongruent(xs, Kept(c), (e: Entry) => e.date == d);
  }

  /** A non-empty day list keeps exactly the entries whose stored weekday is
      listed; the time-of-day list works the same way. */
  lemma FilterEntriesDays(xs: seq<Entry>, days: seq<string>, times: seq<string>)
    requires |days| > 0 && |times| > 0
    ensures FilterEntries(Some(xs), Criteria(None, None, days, times, "")) ==
            Filter(xs, (e: Entry) => e.dayOfWeek in days && e.timeOfDay in times)
  {
    var c := Criteria(None, None, days, times, "");
    KeywordPhrasesOfEmpty();
    FilterCongruent(xs, Kept(c), (e: Entry) => e.dayOfWeek in days && e.timeOfDay in times);
  }

  /** The date-only filter is the full filter with the other criteria empty. */
  lemma DateOnlyIsFilterEntries(df: Option<seq<Entry>>, a: Option<Date>, b: Option<Date>)
    ensures FilterEntriesByDateOnly(df, a, b) == Filter(Rows(df), (e: Entry) => OnOrAfter(a, e) && OnOrBefore(b, e))
  {
    KeywordPhrasesOfEmpty();
    FilterCongruent(Rows(df), Kept(DateOnly(a, b)), (e: Entry) => OnOrAfter(a, e) && OnOrBefore(b, e));
  }

  /** Keyword phrases are alternatives: an entry is kept when any of them
      occurs in its text. */
  lemma MentionsEither(p: string, q: string, e: Entry)
    ensures Mentions([p, q], e) <==> Search(p, e.text) || Search(q, e.text)
  {
    if Search(p, e.text) { assert p in [p, q]; }
    if Search(q, e.text) { assert q in [p, q]; }
  }

  lemma StripExample(s: string)
    requires s == " happy"
    ensures Strip(s) == "happy"
  {
    var r := s[1..];
    assert IsSpace(s[0]) && r[0] == 'h' && r[|r| - 1] == 'y';
    assert IsStripped(r);
    assert TrimmedAt(s, r, 1);
    StripUnique(s, r);
    assert r == "happy";
  }

  lemma NonBlankStrippedPair(a: string, b: string)
    requires IsStripped(a) && a != "" && Strip(b) != ""
    ensures NonBlankStripped([a, b]) == [a, Strip(b)]
  {
    StripStripped(a);
    var pieces := [a, b];
    assert pieces[1..] == [b] && pieces[1..][1..] == [];
  }

  /** Two comma-separated phrases, the first already stripped, give the
      first phrase and the second one stripped. */
  lemma KeywordPhrasesPair(h: string, t: string)
    requires ',' !in h && ',' !in t
    requires h != "" && IsStripped(h) && Strip(t) != ""
    ensures KeywordPhrases(h + [','] + t) == [h, Strip(t)]
  {
    SplitPair(h, t, ',');
    NonBlankStrippedPair(h, t);
  }

  lemma KeywordPhrasesExample(keywords: string)
    requires keywords == "OCD, happy"
    ensures KeywordPhrases(keywords) == ["OCD", "happy"]
  {
    var h, t := "OCD", " happy";
    assert keywords == h + [','] + t;
    StripExample(t);
    assert IsStripped(h) by {
      assert !IsSpace(h[0]) && !IsSpace(h[2]);
    }
    KeywordPhrasesPair(h, t);
  }

  // Three entries: a Friday morning "felt OCD today", a Wednesday evening
  // "productive day at work" and a Thursday afternoon "calm and happy".
  const Felt := Entry(Date(2024, 1, 5), "Friday", "morning", "felt OCD today")
  const Productive := Entry(Date(2024, 1, 10), "Wednesday", "evening", "productive day at work")
  const Calm := Entry(Date(2024, 2, 1), "Thursday", "afternoon", "calm and happy")

  /** A three-entry input whose middle entry fails keeps the other two. */
  lemma FilterEntriesDropsMiddle(c: Criteria, a: Entry, b: Entry, d: Entry)
    requires Keep(c, a) && !Keep(c, b) && Keep(c, d)
    ensures FilterEntries(Some([a, b, d]), c) == [a, d]
  {
    assert Kept(c)(a) && !Kept(c)(b) && Kept(c)(d);
    FilterThree(a, b, d, Kept(c));
  }

  /** A three-entry input whose first entry alone passes keeps just that. */
  lemma FilterEntriesKeepsFirst(c: Criteria, a: Entry, b: Entry, d: Entry)
    requires Keep(c, a) && !Keep(c, b) && !Keep(c, d)
    ensures FilterEntries(Some([a, b, d]), c) == [a]
  {
    assert Kept(c)(a) && !Kept(c)(b) && !Kept(c)(d);
    FilterThree(a, b, d, Kept(c));
  }

  /** The day filter `Friday` keeps only the Friday entry. */
  lemma ScenarioDays()
    ensures FilterEntries(Some([Felt, Productive, Calm]), Criteria(None, None, ["Friday"], [], "")) == [Felt]
  {
    var c := Criteria(None, None, ["Friday"], [], "");
    KeywordPhrasesOfEmpty();
    assert "Wednesday" != "Friday" && "Thursday" != "Friday";
    FilterEntriesKeepsFirst(c, Felt, Productive, Calm);
  }

  lemma ScenarioKeywordFelt()
    ensures Mentions(["OCD", "happy"], Felt)
  {
    assert "OCD" <= Felt.text[5..];
    MatchPrefixOfPrefix("OCD", Felt.text[5..]);
    SearchAt("OCD", Felt.text, 5);
    MentionsEither("OCD", "happy", Felt);
  }

  lemma ScenarioNoOCD()
    ensures !Search("OCD", "productive day at work")
  {
    var t := "productive day at work";
    assert forall i | 0 <= i < |t| - 1 :: !(LowerChar(t[i]) == LowerChar('O') && LowerChar(t[i + 1]) == LowerChar('C'));
    NoSearchWithoutPair("OCD", t);
  }

  lemma ScenarioNoHappy()
    ensures !Search("happy", "productive day at work")
  {
    var t := "productive day at work";
    assert forall i | 0 <= i < |t| - 1 :: !(LowerChar(t[i]) == LowerChar('h') && LowerChar(t[i + 1]) == LowerChar('a'));
    NoSearchWithoutPair("happy", t);
  }

  lemma ScenarioKeywordProductive()
    ensures !Mentions(["OCD", "happy"], Productive)
  {
    ScenarioNoOCD();
    ScenarioNoHappy();
    MentionsEither("OCD", "happy", Productive);
  }

  lemma ScenarioKeywordCalm()
    ensures Mentions(["OCD", "happy"], Calm)
  {
    assert "happy" <= Calm.text[9..];
    MatchPrefixOfPrefix("happy", Calm.text[9..]);
    SearchAt("happy", Calm.text, 9);
    MentionsEither("OCD", "happy", Calm);
  }

  /** The keywords "OCD, happy" keep the first and the third entry. */
  lemma ScenarioKeywords(keywords: string)
    requires keywords == "OCD, happy"
    ensures FilterEntries(Some([Felt, Productive, Calm]), Criteria(None, None, [], [], keywords)) == [Felt, Calm]
  {
    var c := Criteria(None, None, [], [], keywords);
    KeywordPhrasesExample(keywords);
    ScenarioKeywordFelt();
    ScenarioKeywordProductive();
    ScenarioKeywordCalm();
    FilterEntriesDropsMiddle(c, Felt, Productive, Calm);
  }
}
