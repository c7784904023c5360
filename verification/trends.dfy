/** Trend counting for the report: a phrase matches an entry when every
    word of the phrase occurs in the entry's text, ignoring case, and the
    matches are counted per calendar month. */
module Trends {
  import opened Text
  import opened Seqs
  import opened Journal
  import Glob

  /** `all(word in hay for word in words)`. */
  function AllIn(words: seq<string>, hay: string): (b: bool)
    ensures b <==> forall i | 0 <= i < |words| :: Contains(hay, words[i])
  {
    if |words| == 0 then true
    else
      assert forall i | 1 <= i < |words| :: words[1..][i - 1] == words[i];
      Contains(hay, words[0]) && AllIn(words[1..], hay)
  }

  /** `_phrase_matches_entry`: false on an empty text or phrase; otherwise
      every word of the phrase, lower-cased, occurs in the lower-cased
      text. */
  function PhraseMatchesEntry(text: string, phrase: string): (b: bool)
    ensures b <==> |text| > 0 && |phrase| > 0 &&
                   forall w | w in Words(phrase) :: Contains(Lower(text), Lower(w))
  {
    if |text| == 0 || |phrase| == 0 then false
    else
      var ws := Words(phrase);
      var lowered := Map(ws, Lower);
      assert forall w | w in ws :: exists i | 0 <= i < |ws| :: ws[i] == w && lowered[i] == Lower(w);
      AllIn(lowered, Lower(text))
  }

  // ---------------------------------------------------------------------
  // Matching.

  /** A phrase of whitespace only has no words, so it matches every
      non-empty text. */
  lemma BlankPhraseMatches(text: string, phrase: string)
    requires |text| > 0 && |phrase| > 0 && AllSpace(phrase)
    ensures PhraseMatchesEntry(text, phrase)
  {
    WordsEmptyIff(phrase);
  }

  /** Words separated by whitespace are ANDed: `a b` matches exactly when
      `a` and `b` both match (for phrases that hold words). */
  lemma PhraseIsConjunction(text: string, a: string, b: string)
    requires !AllSpace(a) && !AllSpace(b)
    ensures PhraseMatchesEntry(text, a + " " + b) <==>
            PhraseMatchesEntry(text, a) && PhraseMatchesEntry(text, b)
  {
    WordsConcat(a, " " + b);
    WordsSpacePrefix(" ", b);
    assert a + " " + b == a + (" " + b);
    WordsEmptyIff(a);
    WordsEmptyIff(b);
    assert |a| > 0 && |b| > 0;
  }

  /** Order of the words does not matter. */
  lemma PhraseWordOrder(text: string, a: string, b: string)
    requires !AllSpace(a) && !AllSpace(b)
    ensures PhraseMatchesEntry(text, a + " " + b) <==> PhraseMatchesEntry(text, b + " " + a)
  {
    PhraseIsConjunction(text, a, b);
    PhraseIsConjunction(text, b, a);
  }

  /** A phrase whose word is missing from the text does not match, however
      many of its other words occur: "very happy" needs "very" too. */
  lemma MissingWordFails(text: string, phrase: string, w: string)
    requires w in Words(phrase) && !Contains(Lower(text), Lower(w))
    ensures !PhraseMatchesEntry(text, phrase)
  {
  }

  /** The example: "very happy" does not match a text holding only "happy". */
  lemma VeryHappyExample(text: string, phrase: string)
    requires text == "happy" && phrase == "very happy"
    ensures !PhraseMatchesEntry(text, phrase)
  {
    var a, b := "very", "happy";
    assert phrase == a + " " + b;
    assert !IsSpace(a[0]) && !IsSpace(b[0]);
    assert NoSpace(a);
    WordsOfWord(a);
    VeryNotInHappy(Lower(text), Lower(a));
    PhraseIsConjunction(text, a, b);
  }

  lemma VeryNotInHappy(h: string, n: string)
    requires h == Lower("happy") && n == Lower("very")
    ensures !Contains(h, n)
  {
    assert n[0] == 'v';
    forall i | 0 <= i < |h| ensures h[i] != 'v' {
      assert "happy"[i] != 'v' && "happy"[i] != 'V';
    }
    NotContainsWithoutChar(h, n, 'v');
  }

  /** For one star-free word the trend match and the entry filter's keyword
      search agree: both are a case-insensitive substring test. */
  lemma SingleWordAgreesWithFilter(text: string, w: string)
    requires |text| > 0 && |w| > 0 && NoSpace(w) && Glob.NoStar(w)
    ensures PhraseMatchesEntry(text, w) <==> Glob.Search(w, text)
  {
    WordsOfWord(w);
    Glob.SearchLiteral(w, text);
  }

  // ---------------------------------------------------------------------
  // Months present in a set of rows, ascending.

  predicate StrictlyAscending(ms: seq<Month>) {
    forall i, j | 0 <= i < j < |ms| :: MonthLt(ms[i], ms[j])
  }

  function EntryMonth(e: Entry): Month {
    MonthOf(e.date)
  }

  /** Put `m` into an ascending list of months, once. */
  function InsertMonth(ms: seq<Month>, m: Month): (r: seq<Month>)
    requires StrictlyAscending(ms)
    ensures StrictlyAscending(r)
    ensures forall x :: x in r <==> x in ms || x == m
  {
    if |ms| == 0 then [m]
    else if ms[0] == m then ms
    else if MonthLt(m, ms[0]) then [m] + ms
    else
      var rest := InsertMonth(ms[1..], m);
      assert forall x | x in rest :: x in ms[1..] || x == m;
      assert forall k | 0 <= k < |rest| :: MonthLt(ms[0], rest[k]) by {
        forall k | 0 <= k < |rest| ensures MonthLt(ms[0], rest[k]) {
          assert rest[k] in rest;
        }
      }
      assert forall x | x in ms :: x == ms[0] || x in ms[1..];
      [ms[0]] + rest
  }

  /** The distinct months of the rows, ascending: the `groupby("month")`
      keys. */
  function MonthsPresent(rows: seq<Entry>): (ms: seq<Month>)
    ensures StrictlyAscending(ms)
    ensures forall m :: m in ms <==> m in Map(rows, EntryMonth)
  {
    if |rows| == 0 then []
    else
      var rest := MonthsPresent(rows[1..]);
      var keys := Map(rows, EntryMonth);
      assert forall m | m in keys :: m == EntryMonth(rows[0]) || m in Map(rows[1..], EntryMonth) by {
        forall m | m in keys ensures m == EntryMonth(rows[0]) || m in Map(rows[1..], EntryMonth) {
          var k :| 0 <= k < |keys| && keys[k] == m;
          if k > 0 { assert Map(rows[1..], EntryMonth)[k - 1] == m; }
        }
      }
      assert forall m | m in Map(rows[1..], EntryMonth) :: m in keys by {
        forall m | m in Map(rows[1..], EntryMonth) ensures m in keys {
          var k :| 0 <= k < |rows[1..]| && Map(rows[1..], EntryMonth)[k] == m;
          assert keys[k + 1] == m;
        }
      }
      assert keys[0] == EntryMonth(rows[0]);
      InsertMonth(rest, EntryMonth(rows[0]))
  }

  // ---------------------------------------------------------------------
  // Counts per month.

  /** One row of the per-month count table. */
  datatype MonthCount = MonthCount(month: Month, count: nat)

  function InMonth(m: Month): Entry -> bool { (e: Entry) => EntryMonth(e) == m }

  function Matches(phrase: string): Entry -> bool { (e: Entry) => PhraseMatchesEntry(e.text, phrase) }

  function MatchesIn(m: Month, phrase: string): Entry -> bool {
    (e: Entry) => EntryMonth(e) == m && PhraseMatchesEntry(e.text, phrase)
  }

  /** One count row per month of `ms`: the matching entries of that month. */
  function CountsFor(rows: seq<Entry>, ms: seq<Month>, phrase: string): (r: seq<MonthCount>)
    ensures |r| == |ms|
    ensures forall i | 0 <= i < |r| :: r[i].month == ms[i]
    ensures forall i | 0 <= i < |r| :: r[i].count == Count(rows, MatchesIn(ms[i], phrase))
    ensures forall i | 0 <= i < |r| :: r[i].count <= Count(rows, InMonth(ms[i]))
    ensures forall i | 0 <= i < |r| :: r[i].count <= Count(rows, Matches(phrase))
  {
    if |ms| == 0 then []
    else
      CountBounds(rows, ms[0], phrase);
      [MonthCount(ms[0], Count(rows, MatchesIn(ms[0], phrase)))] + CountsFor(rows, ms[1..], phrase)
  }

  /** `_phrase_counts_by_month`: one row per month present in the input, in
      ascending order, zero counts kept. */
  function PhraseCountsByMonth(rows: seq<Entry>, phrase: string): (r: seq<MonthCount>)
    ensures forall i, j | 0 <= i < j < |r| :: MonthLt(r[i].month, r[j].month)
    ensures forall e | e in rows :: exists i | 0 <= i < |r| :: r[i].month == EntryMonth(e)
    ensures forall i | 0 <= i < |r| :: Count(rows, InMonth(r[i].month)) > 0
    ensures forall i | 0 <= i < |r| :: r[i].count == Count(rows, MatchesIn(r[i].month, phrase))
    ensures forall i | 0 <= i < |r| :: r[i].count <= Count(rows, InMonth(r[i].month))
    ensures |r| == 0 <==> |rows| == 0
  {
    var ms := MonthsPresent(rows);
    var r := CountsFor(rows, ms, phrase);
    CountsCoverMonths(rows, ms, r);
    r
  }

  lemma CountsCoverMonths(rows: seq<Entry>, ms: seq<Month>, r: seq<MonthCount>)
    requires forall m :: m in ms <==> m in Map(rows, EntryMonth)
    requires |r| == |ms| && forall i | 0 <= i < |r| :: r[i].month == ms[i]
    ensures forall e | e in rows :: exists i | 0 <= i < |r| :: r[i].month == EntryMonth(e)
    ensures forall i | 0 <= i < |r| :: Count(rows, InMonth(r[i].month)) > 0
    ensures |r| == 0 <==> |rows| == 0
  {
    forall e | e in rows ensures exists i | 0 <= i < |r| :: r[i].month == EntryMonth(e) {
      var k :| 0 <= k < |rows| && rows[k] == e;
      assert Map(rows, EntryMonth)[k] == EntryMonth(e);
      assert EntryMonth(e) in ms;
      var i :| 0 <= i < |ms| && ms[i] == EntryMonth(e);
      assert r[i].month == EntryMonth(e);
    }
    forall i | 0 <= i < |r| ensures Count(rows, InMonth(r[i].month)) > 0 {
      assert ms[i] in ms;
      var keys := Map(rows, EntryMonth);
      assert ms[i] in keys;
      var k :| 0 <= k < |keys| && keys[k] == ms[i];
      assert InMonth(ms[i])(rows[k]);
      assert rows[k] in Filter(rows, InMonth(ms[i]));
    }
    if |rows| > 0 {
      assert Map(rows, EntryMonth)[0] in Map(rows, EntryMonth);
      assert Map(rows, EntryMonth)[0] in ms;
    }
    if |ms| > 0 {
      assert ms[0] in Map(rows, EntryMonth);
    }
  }

  lemma CountBounds(rows: seq<Entry>, m: Month, phrase: string)
    ensures Count(rows, MatchesIn(m, phrase)) <= Count(rows, InMonth(m))
    ensures Count(rows, MatchesIn(m, phrase)) <= Count(rows, Matches(phrase))
  {
    FilterThen(rows, InMonth(m), Matches(phrase), MatchesIn(m, phrase));
    FilterThen(rows, Matches(phrase), InMonth(m), MatchesIn(m, phrase));
  }

  // ---------------------------------------------------------------------
  // The counts add up.

  function TotalCount(r: seq<MonthCount>): nat {
    if |r| == 0 then 0 else r[0].count + TotalCount(r[1..])
  }

  function SumOver(rows: seq<Entry>, ms: seq<Month>, phrase: string): nat
  {
    if |ms| == 0 then 0 else Count(rows, MatchesIn(ms[0], phrase)) + SumOver(rows, ms[1..], phrase)
  }

  lemma {:induction false} TotalCountIsSum(rows: seq<Entry>, ms: seq<Month>, phrase: string)
    ensures TotalCount(CountsFor(rows, ms, phrase)) == SumOver(rows, ms, phrase)
    decreases |ms|
  {
    if |ms| > 0 {
      TotalCountIsSum(rows, ms[1..], phrase);
      var r := CountsFor(rows, ms, phrase);
      assert r[1..] == CountsFor(rows, ms[1..], phrase);
    }
  }

  /** Adding one row in front adds one to the count of its own month only. */
  lemma {:induction false} SumOverCons(e: Entry, rest: seq<Entry>, ms: seq<Month>, phrase: string)
    requires Distinct(ms)
    ensures SumOver([e] + rest, ms, phrase) ==
            SumOver(rest, ms, phrase) + (if EntryMonth(e) in ms && PhraseMatchesEntry(e.text, phrase) then 1 else 0)
    decreases |ms|
  {
    if |ms| > 0 {
      var xs := [e] + rest;
      assert xs[0] == e && xs[1..] == rest;
      assert Distinct(ms[1..]);
      SumOverCons(e, rest, ms[1..], phrase);
      assert ms == [ms[0]] + ms[1..];
      if EntryMonth(e) == ms[0] {
        assert EntryMonth(e) !in ms[1..];
      }
    }
  }

  lemma {:induction false} SumOverAll(rows: seq<Entry>, ms: seq<Month>, phrase: string)
    requires Distinct(ms)
    requires forall e | e in rows :: EntryMonth(e) in ms
    ensures SumOver(rows, ms, phrase) == Count(rows, Matches(phrase))
    decreases |rows|
  {
    if |rows| == 0 {
      SumOverEmpty(ms, phrase);
    } else {
      assert rows == [rows[0]] + rows[1..];
      SumOverAll(rows[1..], ms, phrase);
      SumOverCons(rows[0], rows[1..], ms, phrase);
    }
  }

  lemma {:induction false} SumOverEmpty(ms: seq<Month>, phrase: string)
    ensures SumOver([], ms, phrase) == 0
    decreases |ms|
  {
    if |ms| > 0 {
      SumOverEmpty(ms[1..], phrase);
    }
  }

  /** Every matching entry is counted in exactly one month: the monthly
      counts add up to the number of matching entries. */
  lemma CountsAddUp(rows: seq<Entry>, phrase: string)
    ensures TotalCount(PhraseCountsByMonth(rows, phrase)) == Count(rows, Matches(phrase))
  {
    var ms := MonthsPresent(rows);
    TotalCountIsSum(rows, ms, phrase);
    forall e | e in rows ensures EntryMonth(e) in ms {
      var k :| 0 <= k < |rows| && rows[k] == e;
      assert Map(rows, EntryMonth)[k] == EntryMonth(e);
    }
    SumOverAll(rows, ms, phrase);
  }
}
