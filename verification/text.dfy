/** Character and string helpers with the meaning of the Python `str`
    methods the journal code relies on: `isspace`, `strip`, `split()`,
    `split(sep)`, `rsplit(maxsplit=1)`, `lower` (ASCII letters only),
    `splitlines` and the `in` substring test. */
module Text {
  import opened Seqs

  /** Python's `str.isspace` for one character. */
  predicate IsSpace(c: char) {
    c in SpaceChars
  }

  const SpaceChars: set<char> := {' ', '\t', '\n', '\U{0B}', '\U{0C}', '\r', '\U{1C}', '\U{1D}', '\U{1E}', '\U{1F}',
    '\U{85}', '\U{A0}', '\U{1680}', '\U{2000}', '\U{2001}', '\U{2002}', '\U{2003}', '\U{2004}', '\U{2005}',
    '\U{2006}', '\U{2007}', '\U{2008}', '\U{2009}', '\U{200A}', '\U{2028}', '\U{2029}', '\U{202F}', '\U{205F}', '\U{3000}'}

  predicate AllSpace(s: string) {
    forall i | 0 <= i < |s| :: IsSpace(s[i])
  }

  predicate NoSpace(s: string) {
    forall i | 0 <= i < |s| :: !IsSpace(s[i])
  }

  /** Neither end of `s` is whitespace: what `str.strip()` produces. */
  predicate IsStripped(s: string) {
    |s| == 0 || (!IsSpace(s[0]) && !IsSpace(s[|s| - 1]))
  }

  /** `r` sits inside `s` with nothing but whitespace on either side. */
  predicate Trimmed(s: string, r: string) {
    exists i | 0 <= i <= |s| :: TrimmedAt(s, r, i)
  }

  /** `r` sits at position `i` of `s` with only whitespace around it. */
  predicate TrimmedAt(s: string, r: string, i: int) {
    0 <= i && i + |r| <= |s| && s[i..i + |r|] == r && SpaceAround(s, i, i + |r|)
  }

  /** Every character of `s` outside `s[lo..hi]` is whitespace. */
  predicate SpaceAround(s: string, lo: int, hi: int) {
    && (forall k | 0 <= k < lo && k < |s| :: IsSpace(s[k]))
    && (forall k | hi <= k < |s| && 0 <= k :: IsSpace(s[k]))
  }

  /** `needle` occurs somewhere in `hay` (Python's `needle in hay`). */
  predicate Contains(hay: string, needle: string)
    decreases |hay|
  {
    needle <= hay || (|hay| > 0 && Contains(hay[1..], needle))
  }

  /** `needle` sits in `hay` at position `i`. */
  predicate OccursAt(hay: string, needle: string, i: int) {
    0 <= i && i + |needle| <= |hay| && hay[i..i + |needle|] == needle
  }

  /** End of the run starting at `i` of characters whose whitespace-ness is
      `space`: the first index at or after `i` that breaks the run. */
  function Skip(s: string, i: nat, space: bool): (r: nat)
    requires i <= |s|
    ensures i <= r <= |s|
    ensures forall k | i <= k < r :: IsSpace(s[k]) == space
    ensures r < |s| ==> IsSpace(s[r]) != space
    decreases |s| - i
  {
    if i == |s| || IsSpace(s[i]) != space then i else Skip(s, i + 1, space)
  }

  /** Start of the run ending at `j` of characters whose whitespace-ness is
      `space`. */
  function Back(s: string, j: nat, space: bool): (r: nat)
    requires j <= |s|
    ensures r <= j
    ensures forall k | r <= k < j :: IsSpace(s[k]) == space
    ensures r > 0 ==> IsSpace(s[r - 1]) != space
  {
    if j == 0 || IsSpace(s[j - 1]) != space then j else Back(s, j - 1, space)
  }

  /** Number of whitespace characters at the front of `s`. */
  function LeadingSpace(s: string): nat {
    Skip(s, 0, true)
  }

  /** Python's `str.strip()`: the text with surrounding whitespace removed. */
  function Strip(s: string): (r: string)
    ensures IsStripped(r)
    ensures Trimmed(s, r)
  {
    var a := Skip(s, 0, true);
    if a == |s| then
      assert TrimmedAt(s, "", 0);
      ""
    else
      var e := Back(s, |s|, true);
      assert a < e;
      var r := s[a..e];
      assert TrimmedAt(s, r, a);
      r
  }

  /** Python's `str.split()` with no argument: the maximal runs of
      non-whitespace characters, in order. */
  function Words(s: string): (ws: seq<string>)
    ensures forall k | 0 <= k < |ws| :: |ws[k]| > 0 && NoSpace(ws[k])
  {
    WordsFrom(s, "")
  }

  /** The words of `s` when the word `cur` is already open. */
  function WordsFrom(s: string, cur: string): (ws: seq<string>)
    requires NoSpace(cur)
    ensures forall k | 0 <= k < |ws| :: |ws[k]| > 0 && NoSpace(ws[k])
    decreases |s|
  {
    if |s| == 0 then (if |cur| == 0 then [] else [cur])
    else if IsSpace(s[0]) then (if |cur| == 0 then [] else [cur]) + WordsFrom(s[1..], "")
    else WordsFrom(s[1..], cur + [s[0]])
  }

  /** Python's `str.rsplit(maxsplit=1)` with no separator: at most two
      pieces, the last word and everything before the whitespace that
      precedes it (leading whitespace kept). */
  function RSplitOnce(s: string): (r: seq<string>)
    ensures |r| <= 2
  {
    var (k, i, j) := RSplitCuts(s);
    if j == 0 then [] else if k == 0 then [s[i..j]] else [s[..k], s[i..j]]
  }

  /** Cut points `(k, i, j)` of `rsplit(maxsplit=1)`: `s[..k]` is the head,
      `s[k..i]` the whitespace before the last word `s[i..j]`, and `s[j..]`
      the trailing whitespace. */
  function RSplitCuts(s: string): (c: (nat, nat, nat))
    ensures c.0 <= c.1 <= c.2 <= |s|
    ensures forall m | c.2 <= m < |s| :: IsSpace(s[m])
    ensures forall m | c.1 <= m < c.2 :: !IsSpace(s[m])
    ensures forall m | c.0 <= m < c.1 :: IsSpace(s[m])
    ensures c.2 == 0 ==> c.0 == 0 && c.1 == 0
    ensures c.2 > 0 ==> c.1 < c.2
    ensures c.0 > 0 ==> c.0 < c.1 && !IsSpace(s[c.0 - 1])
  {
    var j := Back(s, |s|, true);
    if j == 0 then (0, 0, 0)
    else
      var i := Back(s, j, false);
      (Back(s, i, true), i, j)
  }

  /** Index of the first `c` in `s`, or `|s|` when there is none. */
  function IndexOf(s: string, c: char): (i: nat)
    ensures i <= |s|
    ensures c !in s[..i]
    ensures i < |s| ==> s[i] == c
  {
    if |s| == 0 then 0
    else if s[0] == c then 0
    else
      var m := IndexOf(s[1..], c);
      assert s[..m + 1] == [s[0]] + s[1..][..m];
      m + 1
  }

  /** `sep.join(parts)`. */
  function JoinWith(parts: seq<string>, sep: string): string
  {
    if |parts| == 0 then ""
    else if |parts| == 1 then parts[0]
    else parts[0] + sep + JoinWith(parts[1..], sep)
  }

  /** Python's `str.split(sep)` for a one-character separator: never empty,
      no piece holds the separator, and joining the pieces gives `s` back. */
  function Split(s: string, sep: char): (parts: seq<string>)
    ensures |parts| >= 1
    ensures forall k | 0 <= k < |parts| :: sep !in parts[k]
    ensures JoinWith(parts, [sep]) == s
    decreases |s|
  {
    var i := IndexOf(s, sep);
    if i == |s| then
      assert s[..i] == s;
      [s]
    else
      var rest := Split(s[i + 1..], sep);
      assert s == s[..i] + [sep] + s[i + 1..];
      [s[..i]] + rest
  }

  /** A string without the separator is a single piece. */
  lemma SplitWithout(s: string, sep: char)
    requires sep !in s
    ensures Split(s, sep) == [s]
  {
    assert IndexOf(s, sep) == |s|;
  }

  /** The first separator cuts off the first piece. */
  lemma SplitAtFirst(s: string, sep: char, i: nat)
    requires i < |s| && s[i] == sep && sep !in s[..i]
    ensures Split(s, sep) == [s[..i]] + Split(s[i + 1..], sep)
  {
    var j := IndexOf(s, sep);
    assert forall k | 0 <= k < i :: s[..i][k] == s[k];
    assert forall k | 0 <= k < j :: s[..j][k] == s[k];
  }

  /** Two separator-free pieces joined by the separator split back apart. */
  lemma SplitPair(h: string, t: string, sep: char)
    requires sep !in h && sep !in t
    ensures Split(h + [sep] + t, sep) == [h, t]
  {
    var s := h + [sep] + t;
    assert s[|h|] == sep && s[..|h|] == h && s[|h| + 1..] == t;
    SplitAtFirst(s, sep, |h|);
    SplitWithout(t, sep);
  }

  /** ASCII lower-casing of one character. */
  function LowerChar(c: char): char {
    if 'A' <= c <= 'Z' then (c as int + 32) as char else c
  }

  /** Python's `str.lower()` restricted to ASCII letters. */
  function Lower(s: string): (r: string)
    ensures |r| == |s|
    ensures forall i | 0 <= i < |s| :: r[i] == LowerChar(s[i])
  {
    seq(|s|, i requires 0 <= i < |s| => LowerChar(s[i]))
  }

  /** The line boundaries of Python's `str.splitlines` (`\r\n` counts as one). */
  predicate IsLineBreak(c: char) {
    || c == '\n' || c == '\r' || c == '\U{0B}' || c == '\U{0C}'
    || ('\U{1C}' <= c <= '\U{1E}')
    || c == '\U{85}' || c == '\U{2028}' || c == '\U{2029}'
  }

  predicate NoLineBreak(s: string) {
    forall i | 0 <= i < |s| :: !IsLineBreak(s[i])
  }

  /** Index of the first line break in `s`, or `|s|`. */
  function LineEnd(s: string): (i: nat)
    ensures i <= |s|
    ensures NoLineBreak(s[..i])
    ensures i < |s| ==> IsLineBreak(s[i])
  {
    if |s| == 0 || IsLineBreak(s[0]) then 0
    else
      var m := LineEnd(s[1..]);
      assert s[..m + 1] == [s[0]] + s[1..][..m];
      m + 1
  }

  /** Python's `str.splitlines()`: the lines without their terminators; a
      final terminator does not open an empty last line. */
  function SplitLines(s: string): (lines: seq<string>)
    ensures forall k | 0 <= k < |lines| :: NoLineBreak(lines[k])
    ensures |lines| <= |s|
    decreases |s|
  {
    if |s| == 0 then []
    else
      var i := LineEnd(s);
      if i == |s| then
        assert s[..i] == s;
        [s]
      else
        var width := if s[i] == '\r' && i + 1 < |s| && s[i + 1] == '\n' then 2 else 1;
        [s[..i]] + SplitLines(s[i + width..])
  }

  /** Decimal digits of `n`, most significant first, without padding. */
  function NatToString(n: nat): (r: string)
    ensures |r| >= 1
    ensures forall i | 0 <= i < |r| :: '0' <= r[i] <= '9'
  {
    if n < 10 then [('0' as int + n) as char]
    else NatToString(n / 10) + [('0' as int + n % 10) as char]
  }

  /** `n` as exactly `width` decimal digits, zero padded on the left (the
      `%04d` / `%02d` conversions used in timestamps and month labels). */
  function PadDigits(n: nat, width: nat): (r: string)
    ensures |r| == width
    ensures forall i | 0 <= i < |r| :: '0' <= r[i] <= '9'
  {
    if width == 0 then ""
    else PadDigits(n / 10, width - 1) + [('0' as int + n % 10) as char]
  }

  /** Value of a string of decimal digits. */
  function DigitsValue(s: string): nat
  {
    if |s| == 0 then 0
    else
      var d := s[|s| - 1] as int - '0' as int;
      DigitsValue(s[..|s| - 1]) * 10 + (if 0 <= d <= 9 then d else 0)
  }

  function Pow10(k: nat): (r: nat)
    ensures r >= 1
  {
    if k == 0 then 1 else 10 * Pow10(k - 1)
  }

  // ---------------------------------------------------------------------
  // Facts about the helpers above.

  /** `Skip` is pinned down by its contract. */
  lemma SkipUnique(s: string, i: nat, space: bool, r: nat)
    requires i <= r <= |s|
    requires forall k | i <= k < r :: IsSpace(s[k]) == space
    requires r < |s| ==> IsSpace(s[r]) != space
    ensures Skip(s, i, space) == r
  {
  }

  /** `Back` is pinned down by its contract. */
  lemma BackUnique(s: string, j: nat, space: bool, r: nat)
    requires r <= j <= |s|
    requires forall k | r <= k < j :: IsSpace(s[k]) == space
    requires r > 0 ==> IsSpace(s[r - 1]) != space
    ensures Back(s, j, space) == r
  {
  }

  lemma AllSpaceSlice(s: string, lo: nat, hi: nat)
    requires lo <= hi <= |s|
    requires forall k | lo <= k < hi :: IsSpace(s[k])
    ensures AllSpace(s[lo..hi])
  {
    assert forall k | 0 <= k < hi - lo :: s[lo..hi][k] == s[lo + k];
  }

  lemma NoSpaceSlice(s: string, lo: nat, hi: nat)
    requires lo <= hi <= |s|
    requires forall k | lo <= k < hi :: !IsSpace(s[k])
    ensures NoSpace(s[lo..hi])
  {
    assert forall k | 0 <= k < hi - lo :: s[lo..hi][k] == s[lo + k];
  }

  /** A stripped string is its own `strip()`. */
  lemma StripStripped(s: string)
    requires IsStripped(s)
    ensures Strip(s) == s
  {
    if |s| > 0 {
      SkipUnique(s, 0, true, 0);
      BackUnique(s, |s|, true, |s|);
      assert s[0..|s|] == s;
    }
  }

  /** `strip()` is characterised by its contract: the only stripped string
      that sits in `s` between two whitespace runs. */
  lemma StripUnique(s: string, r: string)
    requires Trimmed(s, r) && IsStripped(r)
    ensures Strip(s) == r
  {
    var i :| 0 <= i <= |s| && TrimmedAt(s, r, i);
    if |r| == 0 {
      SkipUnique(s, 0, true, |s|);
    } else {
      var e := i + |r|;
      assert s[i] == r[0] && s[e - 1] == r[|r| - 1];
      SkipUnique(s, 0, true, i);
      BackUnique(s, |s|, true, e);
    }
  }

  /** `strip()` leaves nothing exactly when the string is all whitespace. */
  lemma StripEmptyIff(s: string)
    ensures Strip(s) == "" <==> AllSpace(s)
  {
    if AllSpace(s) {
      SkipUnique(s, 0, true, |s|);
    }
  }

  /** `strip()` only removes characters, so it adds none. */
  lemma StripKeepsAbsent(s: string, c: char)
    requires c !in s
    ensures c !in Strip(s)
  {
    var r := Strip(s);
    var i :| 0 <= i <= |s| && TrimmedAt(s, r, i);
    forall k | 0 <= k < |r| ensures r[k] != c { assert r[k] == s[i + k]; }
  }

  /** `[p.strip() for p in parts if p.strip()]`. */
  function NonBlankStripped(parts: seq<string>): (r: seq<string>)
    ensures |r| <= |parts|
    ensures forall k | 0 <= k < |r| :: |r[k]| > 0 && IsStripped(r[k])
    ensures forall w | w in r :: exists q | q in parts :: w == Strip(q)
    ensures |r| == 0 <==> forall j | 0 <= j < |parts| :: AllSpace(parts[j])
  {
    if |parts| == 0 then []
    else
      var rest := NonBlankStripped(parts[1..]);
      var p := Strip(parts[0]);
      StripEmptyIff(parts[0]);
      NonBlankStep(Strip, parts, p, rest);
      if p == "" then rest else [p] + rest
  }

  /** One step of `NonBlankStripped`, for any stripping function `f`. */
  lemma NonBlankStep(f: string -> string, parts: seq<string>, p: string, rest: seq<string>)
    requires |parts| > 0 && p == f(parts[0]) && (p == "" <==> AllSpace(parts[0])) && IsStripped(p)
    requires |rest| <= |parts| - 1
    requires forall k | 0 <= k < |rest| :: |rest[k]| > 0 && IsStripped(rest[k])
    requires forall w | w in rest :: exists q | q in parts[1..] :: w == f(q)
    requires |rest| == 0 <==> forall j | 0 <= j < |parts| - 1 :: AllSpace(parts[1..][j])
    ensures var r := if p == "" then rest else [p] + rest;
      && |r| <= |parts|
      && (forall k | 0 <= k < |r| :: |r[k]| > 0 && IsStripped(r[k]))
      && (forall w | w in r :: exists q | q in parts :: w == f(q))
      && (|r| == 0 <==> forall j | 0 <= j < |parts| :: AllSpace(parts[j]))
  {
    assert forall j | 1 <= j < |parts| :: parts[1..][j - 1] == parts[j];
    assert forall q | q in parts[1..] :: q in parts;
    assert parts[0] in parts;
  }

  /** A piece with some non-whitespace character. */
  predicate NotBlank(s: string) {
    !AllSpace(s)
  }

  /** `NonBlankStripped` keeps every non-blank part, in order, and strips
      it: it is the stripping of the non-blank parts. */
  lemma {:induction false} NonBlankStrippedIsMapFilter(parts: seq<string>)
    ensures NonBlankStripped(parts) == Map(Filter(parts, NotBlank), Strip)
    decreases |parts|
  {
    if |parts| > 0 {
      var rest := parts[1..];
      NonBlankStrippedIsMapFilter(rest);
      StripEmptyIff(parts[0]);
      assert Filter(parts, NotBlank) == (if NotBlank(parts[0]) then [parts[0]] else []) + Filter(rest, NotBlank);
      if NotBlank(parts[0]) {
        MapCons(parts[0], Filter(rest, NotBlank), Strip);
      } else {
        assert [] + Filter(rest, NotBlank) == Filter(rest, NotBlank);
      }
    } else {
      assert Filter(parts, NotBlank) == [];
    }
  }

  /** `NonBlankStripped` one element at a time. */
  lemma NonBlankStrippedCons(parts: seq<string>)
    requires |parts| > 0
    ensures NonBlankStripped(parts) ==
            (if Strip(parts[0]) == "" then [] else [Strip(parts[0])]) + NonBlankStripped(parts[1..])
  {
  }

  /** Stripping a prefix of `t` yields a prefix of `t` with its leading
      whitespace removed. */
  lemma StripOfPrefix(x: string, t: string)
    requires x <= t
    ensures Strip(x) <= t[LeadingSpace(t)..]
  {
    var a := Skip(x, 0, true);
    if a < |x| {
      assert forall k | 0 <= k <= a :: x[k] == t[k];
      SkipUnique(t, 0, true, a);
      var e := Back(x, |x|, true);
      StripIsSlice(x, a, e);
      SliceOfPrefix(x, t, a, e);
    }
  }

  lemma SliceOfPrefix(x: string, t: string, a: nat, e: nat)
    requires x <= t && a <= e <= |x|
    ensures x[a..e] <= t[a..]
  {
    assert forall k | a <= k < e :: x[k] == t[k];
  }

  /** `Strip` is the slice between the leading and trailing whitespace. */
  lemma StripIsSlice(s: string, a: nat, e: nat)
    requires a == Skip(s, 0, true) < |s| && e == Back(s, |s|, true)
    ensures a < e && Strip(s) == s[a..e]
  {
  }

  /** A string that starts with a non-space character keeps it first when
      stripped. */
  lemma StripKeepsFirst(s: string)
    requires |s| > 0 && !IsSpace(s[0])
    ensures |Strip(s)| > 0 && Strip(s)[0] == s[0]
  {
    var e := Back(s, |s|, true);
    assert Strip(s) == s[0..e];
  }

  /** `strip()` is idempotent. */
  lemma StripIdempotent(s: string)
    ensures Strip(Strip(s)) == Strip(s)
  {
    StripStripped(Strip(s));
  }

  lemma {:induction false} WordsFromEmptyIff(s: string, cur: string)
    requires NoSpace(cur)
    ensures WordsFrom(s, cur) == [] <==> |cur| == 0 && AllSpace(s)
    decreases |s|
  {
    if |s| > 0 {
      if IsSpace(s[0]) {
        WordsFromEmptyIff(s[1..], "");
        assert AllSpace(s) <==> AllSpace(s[1..]) by {
          assert forall k | 0 <= k < |s[1..]| :: s[1..][k] == s[k + 1];
        }
      } else {
        WordsFromEmptyIff(s[1..], cur + [s[0]]);
      }
    }
  }

  /** A string has no words exactly when it is all whitespace. */
  lemma WordsEmptyIff(s: string)
    ensures Words(s) == [] <==> AllSpace(s)
  {
    WordsFromEmptyIff(s, "");
  }

  lemma {:induction false} WordsFromWord(w: string, cur: string)
    requires NoSpace(cur) && NoSpace(w) && |cur + w| > 0
    ensures WordsFrom(w, cur) == [cur + w]
    decreases |w|
  {
    if |w| > 0 {
      assert w[0] == (w)[0] && !IsSpace(w[0]);
      assert NoSpace(cur + [w[0]]) by {
        assert forall k | 0 <= k < |cur| :: (cur + [w[0]])[k] == cur[k];
      }
      assert NoSpace(w[1..]) by {
        assert forall k | 0 <= k < |w[1..]| :: w[1..][k] == w[k + 1];
      }
      WordsFromWord(w[1..], cur + [w[0]]);
      assert cur + [w[0]] + w[1..] == cur + w;
    } else {
      assert cur + w == cur;
    }
  }

  /** A single run of non-space characters is one word. */
  lemma WordsOfWord(w: string)
    requires |w| > 0 && NoSpace(w)
    ensures Words(w) == [w]
  {
    WordsFromWord(w, "");
    assert "" + w == w;
  }

  lemma {:induction false} WordsFromConcat(x: string, y: string, cur: string)
    requires NoSpace(cur)
    requires |x| == 0 ==> |cur| == 0 || |y| == 0 || IsSpace(y[0])
    requires |x| > 0 ==> |y| == 0 || IsSpace(x[|x| - 1]) || IsSpace(y[0])
    ensures WordsFrom(x + y, cur) == WordsFrom(x, cur) + WordsFrom(y, "")
    decreases |x|
  {
    if |x| == 0 {
      WordsFromSeam(y, cur);
      assert x + y == y;
    } else {
      var x' := x[1..];
      assert |x'| > 0 ==> x'[|x'| - 1] == x[|x| - 1];
      if IsSpace(x[0]) {
        WordsFromConcat(x', y, "");
      } else {
        NoSpaceExtend(cur, x[0]);
        WordsFromConcat(x', y, cur + [x[0]]);
      }
      ConcatStep(x, y, cur);
    }
  }

  /** The inductive step of `WordsFromConcat`, from its claim about the rest
      of `x`. */
  lemma ConcatStep(x: string, y: string, cur: string)
    requires NoSpace(cur) && |x| > 0
    requires IsSpace(x[0]) ==> WordsFrom(x[1..] + y, "") == WordsFrom(x[1..], "") + WordsFrom(y, "")
    requires !IsSpace(x[0]) ==>
               WordsFrom(x[1..] + y, cur + [x[0]]) == WordsFrom(x[1..], cur + [x[0]]) + WordsFrom(y, "")
    ensures WordsFrom(x + y, cur) == WordsFrom(x, cur) + WordsFrom(y, "")
  {
    assert (x + y)[0] == x[0];
    assert (x + y)[1..] == x[1..] + y;
    WordsFromCons(x + y, cur);
    WordsFromCons(x, cur);
    if IsSpace(x[0]) {
      var pre, a, b := (if |cur| == 0 then [] else [cur]), WordsFrom(x[1..], ""), WordsFrom(y, "");
      assert pre + (a + b) == (pre + a) + b;
    }
  }

  /** `WordsFrom` one character at a time. */
  lemma WordsFromCons(s: string, cur: string)
    requires NoSpace(cur) && |s| > 0
    ensures !IsSpace(s[0]) ==> NoSpace(cur + [s[0]])
    ensures WordsFrom(s, cur) ==
              if IsSpace(s[0]) then (if |cur| == 0 then [] else [cur]) + WordsFrom(s[1..], "")
              else WordsFrom(s[1..], cur + [s[0]])
  {
  }

  lemma NoSpaceExtend(cur: string, c: char)
    requires NoSpace(cur) && !IsSpace(c)
    ensures NoSpace(cur + [c])
  {
    assert forall k | 0 <= k < |cur| :: (cur + [c])[k] == cur[k];
  }

  /** An open word ends at whitespace or at the end of the text. */
  lemma WordsFromSeam(y: string, cur: string)
    requires NoSpace(cur)
    requires |cur| == 0 || |y| == 0 || IsSpace(y[0])
    ensures WordsFrom(y, cur) == WordsFrom("", cur) + WordsFrom(y, "")
  {
    var none := WordsFrom("", cur);
    assert none == (if |cur| == 0 then [] else [cur]);
    if |cur| > 0 && |y| > 0 {
      WordsFromCons(y, cur);
      WordsFromCons(y, "");
    } else if |cur| == 0 {
      assert cur == "";
      assert none + WordsFrom(y, "") == WordsFrom(y, "");
    } else {
      assert y == "";
      assert WordsFrom(y, "") == [];
    }
  }

  /** Words of a concatenation, when the seam is at whitespace. */
  lemma WordsConcat(x: string, y: string)
    requires |x| == 0 || |y| == 0 || IsSpace(x[|x| - 1]) || IsSpace(y[0])
    ensures Words(x + y) == Words(x) + Words(y)
  {
    WordsFromConcat(x, y, "");
  }

  /** Whitespace in front of a string changes none of its words. */
  lemma WordsSpacePrefix(x: string, y: string)
    requires AllSpace(x)
    ensures Words(x + y) == Words(y)
  {
    WordsConcat(x, y);
    WordsEmptyIff(x);
  }

  /** `strip()` keeps every word. */
  lemma WordsOfStrip(s: string)
    ensures Words(Strip(s)) == Words(s)
  {
    var a := Skip(s, 0, true);
    if a == |s| {
      assert Strip(s) == "";
      WordsEmptyIff(s);
      WordsEmptyIff("");
    } else {
      var e := Back(s, |s|, true);
      StripIsSlice(s, a, e);
      WordsOfSlice(s, a, e);
    }
  }

  lemma WordsOfSlice(s: string, a: nat, e: nat)
    requires a <= e <= |s|
    requires forall k | 0 <= k < a :: IsSpace(s[k])
    requires forall k | e <= k < |s| :: IsSpace(s[k])
    ensures Words(s[a..e]) == Words(s)
  {
    var g, r, tail := s[0..a], s[a..e], s[e..|s|];
    AllSpaceSlice(s, 0, a);
    AllSpaceSlice(s, e, |s|);
    assert s == g + (r + tail);
    WordsBetweenSpace(g, r, tail);
  }

  /** Whitespace on both sides of a string changes none of its words. */
  lemma WordsBetweenSpace(g: string, r: string, tail: string)
    requires AllSpace(g) && AllSpace(tail)
    ensures Words(g + (r + tail)) == Words(r)
  {
    WordsSpacePrefix(g, r + tail);
    WordsConcat(r, tail);
    WordsEmptyIff(tail);
  }

  /** Joining words with single spaces and splitting again is the identity. */
  lemma {:induction false} WordsOfJoin(ws: seq<string>)
    requires forall k | 0 <= k < |ws| :: |ws[k]| > 0 && NoSpace(ws[k])
    ensures Words(JoinWith(ws, " ")) == ws
  {
    if |ws| == 0 {
      WordsEmptyIff("");
    } else if |ws| == 1 {
      WordsOfWord(ws[0]);
    } else {
      var rest := JoinWith(ws[1..], " ");
      WordsOfJoin(ws[1..]);
      assert JoinWith(ws, " ") == ws[0] + (" " + rest);
      WordsOfSpaced(ws[0], rest);
      assert ws == [ws[0]] + ws[1..];
    }
  }

  /** A word, a space, then more text: the word comes first. */
  lemma WordsOfSpaced(w: string, rest: string)
    requires |w| > 0 && NoSpace(w)
    ensures Words(w + (" " + rest)) == [w] + Words(rest)
  {
    WordsConcat(w, " " + rest);
    WordsOfWord(w);
    WordsSpacePrefix(" ", rest);
  }

  /** What `rsplit(maxsplit=1)` returns, in terms of the words of `s`: no
      piece for blank text, the one word when there is one, and otherwise
      a head (a prefix of `s` ending in a non-space) holding every word but
      the last, followed by the last word. */
  lemma RSplitOnceWords(s: string)
    ensures var r := RSplitOnce(s); var ws := Words(s);
      && |r| == (if |ws| >= 2 then 2 else |ws|)
      && (|r| == 1 ==> r[0] == ws[0] && r[0] == Strip(s))
      && (|r| == 2 ==> r[1] == ws[|ws| - 1] && r[0] <= s && |r[0]| > 0 && !IsSpace(r[0][|r[0]| - 1])
                        && Words(r[0]) == ws[..|ws| - 1])
  {
    var (k, i, j) := RSplitCuts(s);
    if j == 0 {
      RSplitBlank(s);
    } else if k == 0 {
      RSplitLoneWord(s);
    } else {
      RSplitHeadWord(s);
      var r := RSplitOnce(s);
      var hw := Words(r[0]);
      assert (hw + [r[1]])[..|hw|] == hw;
    }
  }

  /** Blank text has no words and no `rsplit` pieces. */
  lemma RSplitBlank(s: string)
    requires RSplitCuts(s).2 == 0
    ensures RSplitOnce(s) == [] && Words(s) == []
  {
    AllSpaceSlice(s, 0, |s|);
    assert s[0..|s|] == s;
    WordsEmptyIff(s);
  }

  /** Text with one word splits into that word, which is also its `strip()`. */
  lemma RSplitLoneWord(s: string)
    requires RSplitCuts(s).2 > 0 && RSplitCuts(s).0 == 0
    ensures RSplitOnce(s) == [Strip(s)] && Words(s) == [Strip(s)]
  {
    var (k, i, j) := RSplitCuts(s);
    SkipUnique(s, 0, true, i);
    BackUnique(s, |s|, true, j);
    assert Strip(s) == s[i..j];
    LoneWord(s, i, j);
  }

  lemma LoneWord(s: string, i: nat, j: nat)
    requires i < j <= |s|
    requires forall m | 0 <= m < i :: IsSpace(s[m])
    requires forall m | i <= m < j :: !IsSpace(s[m])
    requires forall m | j <= m < |s| :: IsSpace(s[m])
    ensures Words(s) == [s[i..j]]
  {
    var gap, w, tail := s[0..i], s[i..j], s[j..];
    AllSpaceSlice(s, 0, i);
    NoSpaceSlice(s, i, j);
    AllSpaceSlice(s, j, |s|);
    assert s == gap + (w + tail);
    WordsSpacePrefix(gap, w + tail);
    WordsConcat(w, tail);
    WordsOfWord(w);
    WordsEmptyIff(tail);
  }

  /** Text with two or more words splits into a head ending in a non-space,
      holding every word but the last, and the last word. */
  lemma RSplitHeadWord(s: string)
    requires RSplitCuts(s).0 > 0
    ensures var r := RSplitOnce(s);
      && |r| == 2 && r[0] <= s && |r[0]| > 0 && !IsSpace(r[0][|r[0]| - 1])
      && |Words(r[0])| > 0 && Words(s) == Words(r[0]) + [r[1]]
  {
    var (k, i, j) := RSplitCuts(s);
    HeadAndWord(s, k, i, j);
    assert RSplitOnce(s) == [s[..k], s[i..j]];
  }

  /** The words of `s` cut into a head ending in a non-space, whitespace,
      a word, and trailing whitespace. */
  lemma HeadAndWord(s: string, k: nat, i: nat, j: nat)
    requires 0 < k < i < j <= |s| && !IsSpace(s[k - 1])
    requires forall m | j <= m < |s| :: IsSpace(s[m])
    requires forall m | i <= m < j :: !IsSpace(s[m])
    requires forall m | k <= m < i :: IsSpace(s[m])
    ensures |s[..k]| > 0 && !IsSpace(s[..k][k - 1])
    ensures |Words(s[..k])| > 0 && Words(s) == Words(s[..k]) + [s[i..j]]
  {
    var head, gap, w, tail := s[..k], s[k..i], s[i..j], s[j..];
    AllSpaceSlice(s, k, i);
    NoSpaceSlice(s, i, j);
    AllSpaceSlice(s, j, |s|);
    assert s == head + gap + w + tail;
    WordsOfHeadWord(head, gap, w, tail);
    assert head[k - 1] == s[k - 1];
    WordsEmptyIff(head);
  }

  lemma WordsOfHeadWord(h: string, g: string, w: string, t: string)
    requires AllSpace(g) && AllSpace(t) && |w| > 0 && NoSpace(w) && (|h| > 0 ==> |g| > 0)
    ensures Words(h + g + w + t) == Words(h) + [w]
  {
    WordsConcat(h + g + w, t);
    WordsEmptyIff(t);
    var hg := h + g;
    assert |hg| > 0 ==> hg[|hg| - 1] == g[|g| - 1];
    WordsConcat(hg, w);
    WordsOfWord(w);
    WordsConcat(h, g);
    WordsEmptyIff(g);
  }

  lemma {:induction false} ContainsAt(hay: string, needle: string, i: nat)
    requires i + |needle| <= |hay| && hay[i..i + |needle|] == needle
    ensures Contains(hay, needle)
    decreases i
  {
    if i == 0 {
      assert needle <= hay;
    } else {
      assert hay[1..][i - 1..i - 1 + |needle|] == needle;
      ContainsAt(hay[1..], needle, i - 1);
    }
  }

  /** `needle in hay` holds exactly when `needle` sits at some position of
      `hay`. */
  lemma {:induction false} ContainsIff(hay: string, needle: string)
    ensures Contains(hay, needle) <==> exists i :: OccursAt(hay, needle, i)
    decreases |hay|
  {
    if exists i :: OccursAt(hay, needle, i) {
      var i :| OccursAt(hay, needle, i);
      ContainsAt(hay, needle, i);
    }
    if Contains(hay, needle) {
      if needle <= hay {
        assert hay[0..|needle|] == needle;
        assert OccursAt(hay, needle, 0);
      } else {
        ContainsIff(hay[1..], needle);
        var i :| OccursAt(hay[1..], needle, i);
        assert hay[i + 1..i + 1 + |needle|] == hay[1..][i..i + |needle|];
        assert OccursAt(hay, needle, i + 1);
      }
    }
  }

  /** Every character of a contained string occurs in the container. */
  lemma {:induction false} ContainsChars(hay: string, needle: string)
    requires Contains(hay, needle)
    ensures forall c | c in needle :: c in hay
    decreases |hay|
  {
    if needle <= hay {
      forall c | c in needle ensures c in hay {
        var k :| 0 <= k < |needle| && needle[k] == c;
        assert hay[k] == c;
      }
    } else {
      ContainsChars(hay[1..], needle);
      forall c | c in needle ensures c in hay {
        assert c in hay[1..];
      }
    }
  }

  /** Fixed-width digits read back to the number they encode. */
  lemma {:induction false} PadDigitsValue(n: nat, width: nat)
    requires n < Pow10(width)
    ensures DigitsValue(PadDigits(n, width)) == n
  {
    if width > 0 {
      var p := PadDigits(n / 10, width - 1);
      var r := PadDigits(n, width);
      assert r == p + [('0' as int + n % 10) as char];
      assert r[..|r| - 1] == p;
      PadDigitsValue(n / 10, width - 1);
    }
  }

  /** A string holding a character the container lacks is not contained. */
  lemma {:induction false} NotContainsWithoutChar(hay: string, needle: string, c: char)
    requires c in needle && c !in hay
    ensures !Contains(hay, needle)
    decreases |hay|
  {
    var k :| 0 <= k < |needle| && needle[k] == c;
    assert !(needle <= hay) by {
      if k < |hay| { assert hay[k] != c; }
    }
    if |hay| > 0 {
      assert c !in hay[1..] by {
        assert forall d | d in hay[1..] :: d in hay;
      }
      NotContainsWithoutChar(hay[1..], needle, c);
    }
  }
}
