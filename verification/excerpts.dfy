/** Excerpts of entry texts for the summarizer prompts: word-boundary
    truncation, per-group excerpts within a character budget, and the
    overall sample of the report window. */
module Excerpts {
  import opened Text
  import opened Seqs
  import opened Journal

  /** Characters of excerpt text per group. */
  const ExcerptCharsPerGroup: int := 600

  /** Characters of the overall sample. */
  const OverallSampleChars: int := 2500

  /** Characters taken from one entry for the overall sample. */
  const SampleChunkChars: int := 200

  function Min(a: int, b: int): int {
    if a <= b then a else b
  }

  /** Python's slice `t[:m]`: a negative `m` counts from the end. */
  function PyPrefix(t: string, m: int): (p: string)
    ensures p <= t
    ensures m >= 0 ==> |p| == Min(m, |t|)
    ensures m < 0 ==> |p| == (if |t| + m > 0 then |t| + m else 0)
  {
    if m >= 0 then t[..Min(m, |t|)]
    else if |t| + m > 0 then t[..|t| + m]
    else ""
  }

  /** `_excerpt`: the stripped text when it fits, otherwise the first
      `maxChars` characters with the last whitespace-separated token dropped
      (a lone token is kept), stripped. */
  function Excerpt(text: string, maxChars: int): (r: string)
    ensures IsStripped(r)
    ensures r <= text[LeadingSpace(text)..]
    ensures |r| <= |text|
    ensures maxChars >= 0 ==> |r| <= maxChars
    ensures |text| <= maxChars ==> r == Strip(text)
    ensures |text| > maxChars ==>
              var p := PyPrefix(text, maxChars);
              var ws := Words(p);
              && (|ws| >= 2 ==> Words(r) == ws[..|ws| - 1])
              && (|ws| < 2 ==> r == Strip(p))
    ensures maxChars >= 1 && |text| > 0 && !IsSpace(text[0]) ==> |r| > 0
  {
    if |text| == 0 || |text| <= maxChars then
      StripOfPrefix(text, text);
      StripEmptyIff(text);
      Strip(text)
    else
      var p := PyPrefix(text, maxChars);
      var s := RSplitOnce(p);
      TruncatedExcerpt(text, maxChars);
      Strip(if |s| > 0 then s[0] else p)
  }

  /** The facts behind the truncating branch of `Excerpt`. */
  lemma TruncatedExcerpt(text: string, maxChars: int)
    requires |text| > maxChars
    ensures var p := PyPrefix(text, maxChars);
            var s := RSplitOnce(p);
            var r := Strip(if |s| > 0 then s[0] else p);
            var ws := Words(p);
            && r <= text[LeadingSpace(text)..]
            && |r| <= |p|
            && (|ws| >= 2 ==> Words(r) == ws[..|ws| - 1])
            && (|ws| < 2 ==> r == Strip(p))
            && (maxChars >= 1 && !IsSpace(text[0]) ==> |r| > 0)
  {
    var p := PyPrefix(text, maxChars);
    var s := RSplitOnce(p);
    var ws := Words(p);
    RSplitOnceWords(p);
    StripEmptyIff(p);
    WordsEmptyIff(p);
    if maxChars >= 1 {
      assert p[0] == text[0];
    }
    if |s| > 0 {
      if |ws| >= 2 {
        WordsOfStrip(s[0]);
        StripOfPrefix(s[0], text);
        assert !IsSpace(s[0][|s[0]| - 1]);
        StripEmptyIff(s[0]);
      } else {
        StripIdempotent(p);
        StripOfPrefix(p, text);
      }
    } else {
      StripOfPrefix(p, text);
    }
  }

  /** Total length of some strings. */
  function SumLen(parts: seq<string>): nat {
    if |parts| == 0 then 0 else |parts[0]| + SumLen(parts[1..])
  }

  lemma SumLenConsPrefix(x: string, ys: seq<string>, k: nat)
    requires 1 <= k <= |ys| + 1
    ensures SumLen(([x] + ys)[..k]) == |x| + SumLen(ys[..k - 1])
  {
    var zs := ([x] + ys)[..k];
    assert zs[0] == x && zs[1..] == ys[..k - 1];
  }

  /** What the inner loop of `_build_grouped_excerpts` promises of its
      parts against the non-blank texts `nb`, starting from `total`: the
      k-th part is a non-empty prefix of `nb[k]`, fits the budget left
      before it, and is the whole of `nb[k]` when that fits; and the loop
      stops before the last non-blank text only once the budget is spent. */
  predicate AccumulatedFrom(parts: seq<string>, nb: seq<string>, budget: int, total: int) {
    && |parts| <= |nb|
    && (forall k | 0 <= k < |parts| :: |parts[k]| > 0 && parts[k] <= nb[k])
    && (forall k | 0 <= k < |parts| :: |parts[k]| <= budget - total - SumLen(parts[..k]))
    && (forall k | 0 <= k < |parts| :: |nb[k]| <= budget - total - SumLen(parts[..k]) ==> parts[k] == nb[k])
    && (|parts| < |nb| ==> total + SumLen(parts) >= budget)
  }

  /** Each part is `cut` applied to its text and to what the budget had left
      before it: the whole text when it fits, otherwise the room left. */
  predicate CutFrom(parts: seq<string>, nb: seq<string>, budget: int, total: int, cut: (string, int) -> string) {
    && |parts| <= |nb|
    && (forall k | 0 <= k < |parts| :: parts[k] == cut(nb[k], Min(|nb[k]|, budget - total - SumLen(parts[..k]))))
  }

  /** The inner loop of `_build_grouped_excerpts` over one group's texts:
      blank texts are skipped, each excerpt is cut to the budget left, and
      the loop stops once `total` reaches `budget`. */
  function Accumulate(texts: seq<string>, budget: int, total: int): (parts: seq<string>)
    ensures AccumulatedFrom(parts, NonBlankStripped(texts), budget, total)
    ensures CutFrom(parts, NonBlankStripped(texts), budget, total, Excerpt)
    decreases |texts|
  {
    if |texts| == 0 then []
    else
      var t := Strip(texts[0]);
      NonBlankStrippedCons(texts);
      if t == "" then
        Accumulate(texts[1..], budget, total)
      else
        var take := Min(|t|, budget - total);
        if take <= 0 then
          AccumulatedNone(NonBlankStripped(texts), budget, total);
          CutNone(NonBlankStripped(texts), budget, total, Excerpt);
          []
        else
          var part := Excerpt(t, take);
          if total + |part| >= budget then
            AccumulatedNone(NonBlankStripped(texts[1..]), budget, total + |part|);
            CutNone(NonBlankStripped(texts[1..]), budget, total + |part|, Excerpt);
            AccumulateStep(texts, budget, total, []);
            ConsCut(part, [], t, NonBlankStripped(texts[1..]), budget, total, Excerpt);
            [part] + []
          else
            var rest := Accumulate(texts[1..], budget, total + |part|);
            AccumulateStep(texts, budget, total, rest);
            ConsCut(part, rest, t, NonBlankStripped(texts[1..]), budget, total, Excerpt);
            [part] + rest
  }

  /** No parts are right once the budget is spent or there is no text. */
  lemma AccumulatedNone(nb: seq<string>, budget: int, total: int)
    requires |nb| == 0 || total >= budget
    ensures AccumulatedFrom([], nb, budget, total)
  {
    assert SumLen([]) == 0;
  }

  /** One non-blank step of `Accumulate`: the facts about `[part] + rest`
      from those about `rest`. */
  lemma AccumulateStep(texts: seq<string>, budget: int, total: int, rest: seq<string>)
    requires |texts| > 0 && Strip(texts[0]) != "" && budget - total > 0
    requires var t := Strip(texts[0]);
             var part := Excerpt(t, Min(|t|, budget - total));
             AccumulatedFrom(rest, NonBlankStripped(texts[1..]), budget, total + |part|)
    ensures var t := Strip(texts[0]);
            AccumulatedFrom([Excerpt(t, Min(|t|, budget - total))] + rest, NonBlankStripped(texts), budget, total)
  {
    var t := Strip(texts[0]);
    var part := Excerpt(t, Min(|t|, budget - total));
    NonBlankStrippedCons(texts);
    assert LeadingSpace(t) == 0 && t[0..] == t;
    if |t| <= budget - total {
      StripStripped(t);
    }
    ConsAccumulated(part, rest, t, NonBlankStripped(texts[1..]), budget, total);
  }

  /** The facts of a part list grow by one part in front. */
  lemma ConsAccumulated(part: string, rest: seq<string>, t: string, nb: seq<string>, budget: int, total: int)
    requires |part| > 0 && part <= t
    requires |part| <= budget - total && (|t| <= budget - total ==> part == t)
    requires AccumulatedFrom(rest, nb, budget, total + |part|)
    ensures AccumulatedFrom([part] + rest, [t] + nb, budget, total)
  {
    var parts, nbs := [part] + rest, [t] + nb;
    assert parts[..0] == [];
    forall k | 0 < k < |parts|
      ensures |parts[k]| > 0 && parts[k] <= nbs[k]
      ensures |parts[k]| <= budget - total - SumLen(parts[..k])
      ensures |nbs[k]| <= budget - total - SumLen(parts[..k]) ==> parts[k] == nbs[k]
    {
      SumLenConsPrefix(part, rest, k);
      assert parts[k] == rest[k - 1] && nbs[k] == nb[k - 1];
    }
    assert parts[1..] == rest;
  }

  /** No parts are cut from anything. */
  lemma CutNone(nb: seq<string>, budget: int, total: int, cut: (string, int) -> string)
    ensures CutFrom([], nb, budget, total, cut)
  {
  }

  /** The cut parts grow by one part in front. */
  lemma ConsCut(part: string, rest: seq<string>, t: string, nb: seq<string>, budget: int, total: int,
                cut: (string, int) -> string)
    requires part == cut(t, Min(|t|, budget - total))
    requires CutFrom(rest, nb, budget, total + |part|, cut)
    ensures CutFrom([part] + rest, [t] + nb, budget, total, cut)
  {
    var parts, nbs := [part] + rest, [t] + nb;
    forall k | 0 <= k < |parts|
      ensures parts[k] == cut(nbs[k], Min(|nbs[k]|, budget - total - SumLen(parts[..k])))
    {
      if k > 0 {
        CutStep(part, t, rest, nb, budget, total, cut, k);
      } else {
        assert parts[..k] == [];
      }
    }
    assert |parts| <= |nbs|;
  }

  /** Index `k` of `[part] + rest` is index `k - 1` of `rest`, cut with
      what the budget had left after `part`. */
  lemma CutStep(part: string, t: string, rest: seq<string>, nb: seq<string>, budget: int, total: int,
                cut: (string, int) -> string, k: nat)
    requires 0 < k <= |rest|
    requires CutFrom(rest, nb, budget, total + |part|, cut)
    ensures var parts, nbs := [part] + rest, [t] + nb;
            parts[k] == cut(nbs[k], Min(|nbs[k]|, budget - total - SumLen(parts[..k])))
  {
    SumLenConsPrefix(part, rest, k);
    assert ([part] + rest)[k] == rest[k - 1] && ([t] + nb)[k] == nb[k - 1];
  }

  lemma {:induction false} SumLenAppend(a: seq<string>, b: seq<string>)
    ensures SumLen(a + b) == SumLen(a) + SumLen(b)
  {
    if |a| > 0 {
      assert (a + b)[0] == a[0] && (a + b)[1..] == a[1..] + b;
      SumLenAppend(a[1..], b);
    } else {
      assert a + b == b;
    }
  }

  /** `sep.join(parts)` has the parts' length plus one separator between
      each two of them. */
  lemma {:induction false} JoinLength(parts: seq<string>, sep: string)
    requires |parts| > 0
    ensures |JoinWith(parts, sep)| == SumLen(parts) + (|parts| - 1) * |sep|
  {
    if |parts| > 1 {
      JoinLength(parts[1..], sep);
    }
  }

  /** Within one `Accumulate` run the parts never exceed the budget. */
  lemma AccumulateWithinBudget(texts: seq<string>, budget: int)
    ensures var parts := Accumulate(texts, budget, 0);
            parts == [] || SumLen(parts) <= budget
  {
    var parts := Accumulate(texts, budget, 0);
    if parts != [] {
      var k := |parts| - 1;
      assert |parts[k]| <= budget - 0 - SumLen(parts[..k]);
      SplitLast(parts);
      SumLenAppend(parts[..k], [parts[k]]);
      assert SumLen([parts[k]]) == |parts[k]|;
    }
  }

  /** `Accumulate` produces nothing exactly when there is no budget or no
      non-blank text. */
  lemma {:induction false} AccumulateEmptyIff(texts: seq<string>, budget: int, total: int)
    ensures Accumulate(texts, budget, total) == [] <==> budget - total <= 0 || NonBlankStripped(texts) == []
    decreases |texts|
  {
    if |texts| > 0 {
      var t := Strip(texts[0]);
      StripEmptyIff(texts[0]);
      if t == "" {
        AccumulateEmptyIff(texts[1..], budget, total);
      }
    }
  }

  /** The excerpt text of one group: its parts joined by single spaces. */
  function GroupText(rows: seq<Entry>, budget: int): (r: string)
    ensures r == "" <==> budget <= 0 || forall e | e in rows :: AllSpace(e.text)
    ensures r == "" || |r| < budget + |rows|
  {
    var texts := Map(rows, (e: Entry) => e.text);
    var parts := Accumulate(texts, budget, 0);
    AccumulateEmptyIff(texts, budget, 0);
    AccumulateWithinBudget(texts, budget);
    NonBlankTexts(rows);
    if parts == [] then ""
    else
      JoinLength(parts, " ");
      assert |parts[0]| > 0;
      JoinWith(parts, " ")
  }

  /** The group text is its parts joined by single spaces, so it is at most
      the budget plus one separator between each two parts. */
  lemma GroupTextLength(rows: seq<Entry>, budget: int)
    ensures var parts := Accumulate(Map(rows, (e: Entry) => e.text), budget, 0);
            && (parts == [] <==> GroupText(rows, budget) == "")
            && (parts != [] ==> GroupText(rows, budget) == JoinWith(parts, " ")
                                && |GroupText(rows, budget)| <= budget + |parts| - 1)
  {
    var texts := Map(rows, (e: Entry) => e.text);
    var parts := Accumulate(texts, budget, 0);
    if parts != [] {
      AccumulateWithinBudget(texts, budget);
      JoinLength(parts, " ");
    }
  }

  /** No non-blank text among the rows' texts exactly when every text is
      whitespace, and never more non-blank texts than rows. */
  lemma NonBlankTexts(rows: seq<Entry>)
    ensures var nb := NonBlankStripped(Map(rows, (e: Entry) => e.text));
            && |nb| <= |rows|
            && (nb == [] <==> forall e | e in rows :: AllSpace(e.text))
  {
    var texts := Map(rows, (e: Entry) => e.text);
    assert forall e | e in rows :: e.text in texts;
    assert forall j | 0 <= j < |texts| :: texts[j] == rows[j].text;
  }

  // ---------------------------------------------------------------------
  // Grouping.

  /** The column a grouped excerpt pass groups by. */
  datatype GroupKey = MonthKey | WeekdayKey | TimeOfDayKey

  /** The group label of an entry: its `YYYY-MM` month, or its stored
      weekday or time-of-day label. */
  function KeyOf(g: GroupKey, e: Entry): string {
    match g
    case MonthKey => MonthLabel(MonthOf(e.date))
    case WeekdayKey => e.dayOfWeek
    case TimeOfDayKey => e.timeOfDay
  }

  function KeyFn(g: GroupKey): Entry -> string { e => KeyOf(g, e) }

  function HasKey(g: GroupKey, name: string): Entry -> bool { e => KeyOf(g, e) == name }

  /** The rows of one group, in input order. */
  function GroupRows(rows: seq<Entry>, g: GroupKey, name: string): seq<Entry> {
    Filter(rows, HasKey(g, name))
  }

  /** One `{group, excerpts}` record of the grouped excerpt payload. */
  datatype GroupExcerpt = GroupExcerpt(group: string, excerpts: string)

  /** `_build_grouped_excerpts`: one record per distinct label, in order of
      first appearance, holding the group's excerpt text. */
  function BuildGroupedExcerpts(rows: seq<Entry>, g: GroupKey, budget: int): (r: seq<GroupExcerpt>)
    ensures forall i, j | 0 <= i < j < |r| :: r[i].group != r[j].group
    ensures forall e | e in rows :: exists i | 0 <= i < |r| :: r[i].group == KeyOf(g, e)
    ensures forall i | 0 <= i < |r| :: |GroupRows(rows, g, r[i].group)| > 0
    ensures forall i, j | 0 <= i < j < |r| ::
              && r[i].group in Map(rows, KeyFn(g)) && r[j].group in Map(rows, KeyFn(g))
              && FirstIndex(Map(rows, KeyFn(g)), r[i].group) < FirstIndex(Map(rows, KeyFn(g)), r[j].group)
    ensures forall i | 0 <= i < |r| :: r[i].excerpts == GroupText(GroupRows(rows, g, r[i].group), budget)
  {
    var labels := FirstSeen(Map(rows, KeyFn(g)));
    var r := seq(|labels|, i requires 0 <= i < |labels| =>
      GroupExcerpt(labels[i], GroupText(GroupRows(rows, g, labels[i]), budget)));
    GroupLabels(rows, g);
    GroupRecords(rows, g, Map(rows, KeyFn(g)), labels, r);
    r
  }

  /** Records carrying the distinct labels of the rows, in order of first
      appearance among the row keys, are distinct, cover every row, each
      have rows, and keep that order. */
  lemma GroupRecords(rows: seq<Entry>, g: GroupKey, keys: seq<string>, labels: seq<string>, r: seq<GroupExcerpt>)
    requires |r| == |labels| && forall i | 0 <= i < |r| :: r[i].group == labels[i]
    requires Distinct(labels) && forall x | x in labels :: x in keys
    requires forall i, j | 0 <= i < j < |labels| :: FirstIndex(keys, labels[i]) < FirstIndex(keys, labels[j])
    requires forall e | e in rows :: KeyOf(g, e) in labels
    requires forall l | l in labels :: |GroupRows(rows, g, l)| > 0
    ensures forall i, j | 0 <= i < j < |r| :: r[i].group != r[j].group
    ensures forall e | e in rows :: exists i | 0 <= i < |r| :: r[i].group == KeyOf(g, e)
    ensures forall i | 0 <= i < |r| :: |GroupRows(rows, g, r[i].group)| > 0
    ensures forall i, j | 0 <= i < j < |r| ::
              && r[i].group in keys && r[j].group in keys
              && FirstIndex(keys, r[i].group) < FirstIndex(keys, r[j].group)
  {
    RecordsCarryLabels(keys, labels, r);
    RecordsCover(rows, g, labels, r);
    RecordsHaveRows(rows, g, labels, r);
  }

  /** Records carrying every row's label have a record for every row. */
  lemma RecordsCover(rows: seq<Entry>, g: GroupKey, labels: seq<string>, r: seq<GroupExcerpt>)
    requires |r| == |labels| && forall i | 0 <= i < |r| :: r[i].group == labels[i]
    requires forall e | e in rows :: KeyOf(g, e) in labels
    ensures forall e | e in rows :: exists i | 0 <= i < |r| :: r[i].group == KeyOf(g, e)
  {
    forall e | e in rows ensures exists i | 0 <= i < |r| :: r[i].group == KeyOf(g, e) {
      var i :| 0 <= i < |labels| && labels[i] == KeyOf(g, e);
      assert r[i].group == KeyOf(g, e);
    }
  }

  /** Records carrying labels that all have rows each have rows. */
  lemma RecordsHaveRows(rows: seq<Entry>, g: GroupKey, labels: seq<string>, r: seq<GroupExcerpt>)
    requires |r| == |labels| && forall i | 0 <= i < |r| :: r[i].group == labels[i]
    requires forall l | l in labels :: |GroupRows(rows, g, l)| > 0
    ensures forall i | 0 <= i < |r| :: |GroupRows(rows, g, r[i].group)| > 0
  {
    forall i | 0 <= i < |r| ensures |GroupRows(rows, g, r[i].group)| > 0 {
      assert labels[i] in labels;
    }
  }

  /** Records that carry distinct labels in first-appearance order are
      themselves distinct and in that order. */
  lemma RecordsCarryLabels(keys: seq<string>, labels: seq<string>, r: seq<GroupExcerpt>)
    requires |r| == |labels| && forall i | 0 <= i < |r| :: r[i].group == labels[i]
    requires Distinct(labels) && forall x | x in labels :: x in keys
    requires forall i, j | 0 <= i < j < |labels| :: FirstIndex(keys, labels[i]) < FirstIndex(keys, labels[j])
    ensures forall i, j | 0 <= i < j < |r| :: r[i].group != r[j].group
    ensures forall i, j | 0 <= i < j < |r| ::
              && r[i].group in keys && r[j].group in keys
              && FirstIndex(keys, r[i].group) < FirstIndex(keys, r[j].group)
  {
  }

  /** Every row's label is among the first-seen labels, and every such label
      has rows. */
  lemma GroupLabels(rows: seq<Entry>, g: GroupKey)
    ensures forall e | e in rows :: KeyOf(g, e) in FirstSeen(Map(rows, KeyFn(g)))
    ensures forall l | l in FirstSeen(Map(rows, KeyFn(g))) :: |GroupRows(rows, g, l)| > 0
  {
    var keys := Map(rows, KeyFn(g));
    forall e | e in rows ensures KeyOf(g, e) in keys {
      var k :| 0 <= k < |rows| && rows[k] == e;
      assert keys[k] == KeyOf(g, e);
    }
    forall l | l in FirstSeen(keys) ensures |GroupRows(rows, g, l)| > 0 {
      var k :| 0 <= k < |keys| && keys[k] == l;
      assert HasKey(g, l)(rows[k]);
    }
  }

  /** The weekday pass: rows whose weekday is listed in `order`, block by
      block in that order, each block in input order. */
  function SortByOrder(rows: seq<Entry>, order: seq<string>): seq<Entry>
    decreases |order|
  {
    if |order| == 0 then []
    else GroupRows(rows, WeekdayKey, order[0]) + SortByOrder(rows, order[1..])
  }

  /** The day-of-week input of the observations: unknown weekdays dropped,
      rows ordered Monday to Sunday. */
  function WeekdayPass(rows: seq<Entry>): seq<Entry> {
    SortByOrder(rows, WeekdayOrder)
  }

  // ---------------------------------------------------------------------
  // Overall sample.

  /** The chunk `_overall_sample` takes from one stripped text. */
  function Chunk(t: string): (c: string)
    ensures |c| <= SampleChunkChars
    ensures c <= t[LeadingSpace(t)..]
  {
    Excerpt(t, Min(|t|, SampleChunkChars))
  }

  /** The loop of `_overall_sample`: one chunk per non-blank text, stopping
      right after the running total reaches `maxChars`. `first` marks the
      first iteration, before any check of the total. */
  function SampleChunks(texts: seq<string>, maxChars: int, total: int): (chunks: seq<string>)
    ensures var nb := NonBlankStripped(texts);
            && |chunks| <= |nb|
            && (forall k | 0 <= k < |chunks| :: chunks[k] == Chunk(nb[k]))
            && (forall k | 0 < k < |chunks| :: total + SumLen(chunks[..k]) < maxChars)
            && (|chunks| < |nb| ==> total + SumLen(chunks) >= maxChars)
    decreases |texts|
  {
    if |texts| == 0 then []
    else
      var t := Strip(texts[0]);
      NonBlankStrippedCons(texts);
      if t == "" then SampleChunks(texts[1..], maxChars, total)
      else
        var chunk := Chunk(t);
        if total + |chunk| >= maxChars then
          OneChunk(Chunk, t, NonBlankStripped(texts[1..]), maxChars, total);
          [chunk]
        else
          var rest := SampleChunks(texts[1..], maxChars, total + |chunk|);
          SampleStep(texts, maxChars, total, rest);
          [chunk] + rest
  }

  lemma SampleStep(texts: seq<string>, maxChars: int, total: int, rest: seq<string>)
    requires |texts| > 0 && Strip(texts[0]) != ""
    requires var chunk := Chunk(Strip(texts[0]));
             var nb := NonBlankStripped(texts[1..]);
             var tot := total + |chunk|;
             && tot < maxChars
             && |rest| <= |nb|
             && (forall k | 0 <= k < |rest| :: rest[k] == Chunk(nb[k]))
             && (forall k | 0 < k < |rest| :: tot + SumLen(rest[..k]) < maxChars)
             && (|rest| < |nb| ==> tot + SumLen(rest) >= maxChars)
    ensures var chunks := [Chunk(Strip(texts[0]))] + rest;
            var nb := NonBlankStripped(texts);
            && |chunks| <= |nb|
            && (forall k | 0 <= k < |chunks| :: chunks[k] == Chunk(nb[k]))
            && (forall k | 0 < k < |chunks| :: total + SumLen(chunks[..k]) < maxChars)
            && (|chunks| < |nb| ==> total + SumLen(chunks) >= maxChars)
  {
    var t := Strip(texts[0]);
    assert NonBlankStripped(texts) == [t] + NonBlankStripped(texts[1..]);
    ConsChunks(Chunk, rest, t, NonBlankStripped(texts[1..]), maxChars, total);
  }

  /** A chunk that reaches the budget is the last one. */
  lemma OneChunk(f: string -> string, t: string, nb: seq<string>, maxChars: int, total: int)
    requires total + |f(t)| >= maxChars
    ensures var chunks, nbs := [f(t)], [t] + nb;
            && |chunks| <= |nbs|
            && (forall k | 0 <= k < |chunks| :: chunks[k] == f(nbs[k]))
            && (|chunks| < |nbs| ==> total + SumLen(chunks) >= maxChars)
  {
    assert SumLen([f(t)]) == |f(t)| + SumLen([]);
  }

  /** The sample facts of a chunk list grow by one chunk in front. */
  lemma ConsChunks(f: string -> string, rest: seq<string>, t: string, nb: seq<string>, maxChars: int, total: int)
    requires total + |f(t)| < maxChars
    requires |rest| <= |nb|
    requires forall k | 0 <= k < |rest| :: rest[k] == f(nb[k])
    requires forall k | 0 < k < |rest| :: total + |f(t)| + SumLen(rest[..k]) < maxChars
    requires |rest| < |nb| ==> total + |f(t)| + SumLen(rest) >= maxChars
    ensures var chunks, nbs := [f(t)] + rest, [t] + nb;
            && |chunks| <= |nbs|
            && (forall k | 0 <= k < |chunks| :: chunks[k] == f(nbs[k]))
            && (forall k | 0 < k < |chunks| :: total + SumLen(chunks[..k]) < maxChars)
            && (|chunks| < |nbs| ==> total + SumLen(chunks) >= maxChars)
  {
    var chunk := f(t);
    var chunks, nbs := [chunk] + rest, [t] + nb;
    forall k | 0 < k < |chunks|
      ensures chunks[k] == f(nbs[k])
      ensures total + SumLen(chunks[..k]) < maxChars
    {
      SumLenConsPrefix(chunk, rest, k);
      assert chunks[k] == rest[k - 1] && nbs[k] == nb[k - 1];
      if k == 1 {
        assert rest[..0] == [];
      }
    }
    assert chunks[1..] == rest;
  }

  /** `n` is where the overall sample stops in the non-blank texts `nb`:
      before the `n`th chunk the total was still under the budget, and if
      texts remain, the first `n` chunks reach it. */
  predicate SampledPrefix(nb: seq<string>, maxChars: int, n: int) {
    && 0 <= n <= |nb|
    && (forall k | 0 < k < n :: SumLen(Map(nb[..k], Chunk)) < maxChars)
    && (n < |nb| ==> SumLen(Map(nb[..n], Chunk)) >= maxChars)
  }

  /** `_overall_sample`: the chunks joined by single spaces. */
  function OverallSample(rows: seq<Entry>, maxChars: int): (r: string)
    ensures r == "" <==> forall e | e in rows :: AllSpace(e.text)
    ensures var nb := NonBlankStripped(Map(rows, (e: Entry) => e.text));
            exists n | SampledPrefix(nb, maxChars, n) :: r == JoinWith(Map(nb[..n], Chunk), " ")
    ensures maxChars > 0 ==> |r| < maxChars + SampleChunkChars + |rows|
  {
    var texts := Map(rows, (e: Entry) => e.text);
    var chunks := SampleChunks(texts, maxChars, 0);
    SampleChunksArePrefix(texts, maxChars);
    SampleEmptyIff(texts, maxChars);
    NonBlankTexts(rows);
    if maxChars > 0 && chunks != [] then
      OverallSampleBound(texts, maxChars);
      JoinLength(chunks, " ");
      JoinWith(chunks, " ")
    else
      JoinWith(chunks, " ")
  }

  // ---------------------------------------------------------------------
  // The weekday pass.

  /** Position of a weekday in `order`. */
  predicate RankedIn(xs: seq<Entry>, order: seq<string>) {
    forall i, j | 0 <= i < j < |xs| ::
      && xs[i].dayOfWeek in order && xs[j].dayOfWeek in order
      && FirstIndex(order, xs[i].dayOfWeek) <= FirstIndex(order, xs[j].dayOfWeek)
  }

  /** The weekday pass keeps exactly the rows whose weekday is listed. */
  lemma {:induction false} SortByOrderMembers(rows: seq<Entry>, order: seq<string>, e: Entry)
    ensures e in SortByOrder(rows, order) <==> e in rows && e.dayOfWeek in order
    decreases |order|
  {
    if |order| > 0 {
      SortByOrderMembers(rows, order[1..], e);
      assert order == [order[0]] + order[1..];
      assert e.dayOfWeek in order <==> e.dayOfWeek == order[0] || e.dayOfWeek in order[1..];
      if e in rows && e.dayOfWeek == order[0] {
        assert HasKey(WeekdayKey, order[0])(e);
      }
    }
  }

  lemma FilterNone<T>(xs: seq<T>, p: T -> bool)
    requires forall x | x in xs :: !p(x)
    ensures Filter(xs, p) == []
  {
    if Filter(xs, p) != [] {
      assert Filter(xs, p)[0] in Filter(xs, p);
    }
  }

  /** Within one weekday the pass keeps the input order: its rows for day
      `d` are the input's rows for `d`, or none when `d` is not listed. */
  lemma {:induction false} SortByOrderStable(rows: seq<Entry>, order: seq<string>, d: string)
    requires Distinct(order)
    ensures GroupRows(SortByOrder(rows, order), WeekdayKey, d) ==
            (if d in order then GroupRows(rows, WeekdayKey, d) else [])
    decreases |order|
  {
    if |order| > 0 {
      var block := GroupRows(rows, WeekdayKey, order[0]);
      var rest := SortByOrder(rows, order[1..]);
      assert Distinct(order[1..]);
      SortByOrderStable(rows, order[1..], d);
      FilterAppend(block, rest, HasKey(WeekdayKey, d));
      assert order == [order[0]] + order[1..];
      if order[0] == d {
        FilterIdempotent(rows, HasKey(WeekdayKey, d));
        assert d !in order[1..];
      } else {
        FilterNone(block, HasKey(WeekdayKey, d));
      }
    }
  }

  /** The pass lists its rows by weekday position in `order`. */
  lemma {:induction false} SortByOrderRanked(rows: seq<Entry>, order: seq<string>)
    requires Distinct(order)
    ensures RankedIn(SortByOrder(rows, order), order)
    decreases |order|
  {
    if |order| > 0 {
      var block := GroupRows(rows, WeekdayKey, order[0]);
      var rest := SortByOrder(rows, order[1..]);
      var xs := block + rest;
      assert Distinct(order[1..]);
      SortByOrderRanked(rows, order[1..]);
      forall x | x in rest ensures x.dayOfWeek in order[1..] && x.dayOfWeek != order[0] {
        SortByOrderMembers(rows, order[1..], x);
      }
      forall i | 0 <= i < |xs|
        ensures xs[i].dayOfWeek in order
        ensures i < |block| ==> FirstIndex(order, xs[i].dayOfWeek) == 0
        ensures i >= |block| ==>
                  && xs[i].dayOfWeek in order[1..]
                  && FirstIndex(order, xs[i].dayOfWeek) == FirstIndex(order[1..], xs[i].dayOfWeek) + 1
      {
        if i < |block| {
          assert xs[i] in block;
        } else {
          assert xs[i] == rest[i - |block|] && xs[i] in rest;
        }
      }
    }
  }

  /** Days of the week in canonical order are distinct. */
  lemma WeekdayOrderDistinct()
    ensures Distinct(WeekdayOrder)
  {
    var w := WeekdayOrder;
    assert w[0][0] == 'M' && w[1][0] == 'T' && w[2][0] == 'W' && w[3][0] == 'T';
    assert w[4][0] == 'F' && w[5][0] == 'S' && w[6][0] == 'S';
    assert w[1][1] == 'u' && w[3][1] == 'h' && w[5][1] == 'a' && w[6][1] == 'u';
  }

  /** Two rows of a ranked sequence with different weekdays are strictly
      ordered by `order`. */
  lemma RankedPair(xs: seq<Entry>, order: seq<string>, a: nat, b: nat)
    requires RankedIn(xs, order) && a < b < |xs|
    requires xs[a].dayOfWeek != xs[b].dayOfWeek
    ensures FirstIndex(order, xs[a].dayOfWeek) < FirstIndex(order, xs[b].dayOfWeek)
  {
    assert FirstIndex(order, xs[a].dayOfWeek) <= FirstIndex(order, xs[b].dayOfWeek);
  }

  /** Records listed in first-seen order of the weekdays of rows ranked by
      `order` follow `order`. */
  lemma RecordsFollowOrder(xs: seq<Entry>, order: seq<string>, r: seq<GroupExcerpt>)
    requires RankedIn(xs, order)
    requires forall e | e in xs :: e.dayOfWeek in order
    requires forall i, j | 0 <= i < j < |r| :: r[i].group != r[j].group
    requires forall i | 0 <= i < |r| :: |GroupRows(xs, WeekdayKey, r[i].group)| > 0
    requires forall i, j | 0 <= i < j < |r| ::
              && r[i].group in Map(xs, KeyFn(WeekdayKey)) && r[j].group in Map(xs, KeyFn(WeekdayKey))
              && FirstIndex(Map(xs, KeyFn(WeekdayKey)), r[i].group) < FirstIndex(Map(xs, KeyFn(WeekdayKey)), r[j].group)
    ensures forall i | 0 <= i < |r| :: r[i].group in order
    ensures forall i, j | 0 <= i < j < |r| :: FirstIndex(order, r[i].group) < FirstIndex(order, r[j].group)
  {
    var keys := Map(xs, KeyFn(WeekdayKey));
    forall i | 0 <= i < |r| ensures r[i].group in order {
      var rs := GroupRows(xs, WeekdayKey, r[i].group);
      assert rs[0] in rs && HasKey(WeekdayKey, r[i].group)(rs[0]);
    }
    forall i, j | 0 <= i < j < |r|
      ensures FirstIndex(order, r[i].group) < FirstIndex(order, r[j].group)
    {
      assert r[i].group in keys && r[j].group in keys;
      var a := FirstIndex(keys, r[i].group);
      var b := FirstIndex(keys, r[j].group);
      RankedPair(xs, order, a, b);
    }
  }

  /** Grouping rows ranked by `order` in first-seen order lists the groups
      in `order`'s order. */
  lemma GroupsFollowOrder(xs: seq<Entry>, order: seq<string>, budget: int)
    requires RankedIn(xs, order)
    requires forall e | e in xs :: e.dayOfWeek in order
    ensures var r := BuildGroupedExcerpts(xs, WeekdayKey, budget);
            && (forall i | 0 <= i < |r| :: r[i].group in order)
            && (forall i, j | 0 <= i < j < |r| ::
                  FirstIndex(order, r[i].group) < FirstIndex(order, r[j].group))
  {
    RecordsFollowOrder(xs, order, BuildGroupedExcerpts(xs, WeekdayKey, budget));
  }

  /** The day-of-week excerpts come out Monday to Sunday: after the weekday
      pass, grouping in first-seen order yields the observed weekdays in
      calendar order, and only known weekdays. */
  lemma WeekdayGroupsInCalendarOrder(rows: seq<Entry>, budget: int)
    ensures var r := BuildGroupedExcerpts(WeekdayPass(rows), WeekdayKey, budget);
            && (forall i | 0 <= i < |r| :: r[i].group in WeekdayOrder)
            && (forall i, j | 0 <= i < j < |r| ::
                  FirstIndex(WeekdayOrder, r[i].group) < FirstIndex(WeekdayOrder, r[j].group))
            && (forall e | e in rows && e.dayOfWeek in WeekdayOrder ::
                  exists i | 0 <= i < |r| :: r[i].group == e.dayOfWeek)
  {
    var xs := WeekdayPass(rows);
    WeekdayOrderDistinct();
    SortByOrderRanked(rows, WeekdayOrder);
    forall e | e in xs ensures e.dayOfWeek in WeekdayOrder {
      SortByOrderMembers(rows, WeekdayOrder, e);
    }
    forall e | e in rows && e.dayOfWeek in WeekdayOrder ensures e in xs {
      SortByOrderMembers(rows, WeekdayOrder, e);
    }
    GroupsFollowOrder(xs, WeekdayOrder, budget);
  }

  // ---------------------------------------------------------------------

  /** The overall sample never runs more than one chunk past its budget: the
      loop checks the total only after appending. */
  lemma OverallSampleBound(texts: seq<string>, maxChars: int)
    requires maxChars > 0
    ensures var chunks := SampleChunks(texts, maxChars, 0);
            chunks == [] || SumLen(chunks) < maxChars + SampleChunkChars
  {
    var chunks := SampleChunks(texts, maxChars, 0);
    if chunks != [] {
      var k := |chunks| - 1;
      SplitLast(chunks);
      SumLenAppend(chunks[..k], [chunks[k]]);
      if k > 0 {
        assert SumLen(chunks[..k]) < maxChars;
      } else {
        assert chunks[..k] == [];
      }
      assert SumLen([chunks[k]]) == |chunks[k]| + SumLen([]);
    }
  }

  /** The sample is empty exactly when no entry has text. */
  lemma {:induction false} SampleChunksEmptyIff(texts: seq<string>, maxChars: int, total: int)
    ensures SampleChunks(texts, maxChars, total) == [] <==> NonBlankStripped(texts) == []
    decreases |texts|
  {
    if |texts| > 0 && Strip(texts[0]) == "" {
      SampleChunksEmptyIff(texts[1..], maxChars, total);
    }
  }

  /** The joined sample is empty exactly when no text is non-blank. */
  lemma SampleEmptyIff(texts: seq<string>, maxChars: int)
    ensures JoinWith(SampleChunks(texts, maxChars, 0), " ") == "" <==> NonBlankStripped(texts) == []
  {
    var chunks := SampleChunks(texts, maxChars, 0);
    SampleChunksEmptyIff(texts, maxChars, 0);
    if chunks != [] {
      var nb := NonBlankStripped(texts);
      var t := nb[0];
      assert |t| > 0 && !IsSpace(t[0]);
      assert |chunks[0]| > 0;
      JoinLength(chunks, " ");
      assert SumLen(chunks) >= |chunks[0]|;
    }
  }

  /** The sample's chunks are those of the first non-blank texts, as many as
      it takes to reach the budget. */
  lemma SampleChunksArePrefix(texts: seq<string>, maxChars: int)
    ensures var nb := NonBlankStripped(texts);
            var chunks := SampleChunks(texts, maxChars, 0);
            && SampledPrefix(nb, maxChars, |chunks|)
            && chunks == Map(nb[..|chunks|], Chunk)
  {
    var nb := NonBlankStripped(texts);
    var chunks := SampleChunks(texts, maxChars, 0);
    MapPrefixes(chunks, nb, Chunk);
  }

}
