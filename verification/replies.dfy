/** Turning a summarizer reply into report HTML: pulling a JSON value out of
    a reply that may wrap it in a Markdown fence or in prose, rendering the
    parsed observations as one table per grouping, and the bullet-list
    fallback for replies that are not JSON. `json.loads` is the parameter
    `parse`: `None` where it raises, the decoded value otherwise. */
module Replies {
  import opened Text
  import opened Seqs
  import opened Options
  import opened JsonData

  const Fence: string := "```"

  /** First position at or after `from` where `needle` occurs. */
  function FindFrom(s: string, needle: string, from: nat): (r: Option<nat>)
    requires |needle| > 0
    ensures r.Some? ==> from <= r.value && OccursAt(s, needle, r.value)
    ensures r.Some? ==> forall q | from <= q < r.value :: !OccursAt(s, needle, q)
    ensures r.None? ==> forall q | from <= q :: !OccursAt(s, needle, q)
    decreases |s| - from
  {
    if from + |needle| > |s| then None
    else if OccursAt(s, needle, from) then Some(from)
    else FindFrom(s, needle, from + 1)
  }

  /** Position of the last occurrence of `x` in `xs`, if any. */
  function LastIndex<T(==)>(xs: seq<T>, x: T): (r: Option<nat>)
    ensures r.None? <==> x !in xs
    ensures r.Some? ==> r.value < |xs| && xs[r.value] == x && x !in xs[r.value + 1..]
  {
    if |xs| == 0 then None
    else if xs[|xs| - 1] == x then
      assert xs[|xs|..] == [];
      Some(|xs| - 1)
    else
      var r := LastIndex(xs[..|xs| - 1], x);
      assert xs == xs[..|xs| - 1] + [xs[|xs| - 1]];
      assert r.Some? ==> xs[r.value + 1..] == xs[..|xs| - 1][r.value + 1..] + [xs[|xs| - 1]];
      r
  }

  /** `FindFrom` finds the first occurrence. */
  lemma FindFromIs(s: string, needle: string, from: nat, p: nat)
    requires |needle| > 0 && from <= p && OccursAt(s, needle, p)
    requires forall q | from <= q < p :: !OccursAt(s, needle, q)
    ensures FindFrom(s, needle, from) == Some(p)
  {
  }

  /** Without a backtick there is no fence. */
  lemma NoFenceWithoutTick(r: string)
    requires '`' !in r
    ensures FindFrom(r, Fence, 0).None?
  {
    forall q | 0 <= q && q + 3 <= |r| ensures !OccursAt(r, Fence, q) {
      assert r[q] == r[q..q + 3][0];
    }
  }

  lemma IndexOfIs(s: string, c: char, a: nat)
    requires a < |s| && s[a] == c && c !in s[..a]
    ensures IndexOf(s, c) == a
  {
    var i := IndexOf(s, c);
    assert forall k | 0 <= k < a :: s[k] == s[..a][k];
    assert s[..i] == s[..i];
    assert i <= a ==> s[i] == c;
    assert forall k | 0 <= k < i :: s[k] == s[..i][k];
  }

  lemma LastIndexIs<T>(s: seq<T>, c: T, b: nat)
    requires b < |s| && s[b] == c && c !in s[b + 1..]
    ensures LastIndex(s, c) == Some(b)
  {
    assert c in s;
    var p := LastIndex(s, c).value;
    NoneAfter(s, c, p);
    NoneAfter(s, c, b);
  }

  /** Nothing after position `p` equals `c` when `c` is not in the tail. */
  lemma NoneAfter<T>(s: seq<T>, c: T, p: nat)
    requires p < |s| && c !in s[p + 1..]
    ensures forall k | p < k < |s| :: s[k] != c
  {
    forall k | p < k < |s| ensures s[k] != c {
      assert s[k] == s[p + 1..][k - p - 1];
    }
  }

  // ---------------------------------------------------------------------
  // Candidates, in the order they are tried.

  /** `i` is the first fence of `r` and `close` the first fence starting
      after it ends. */
  predicate FirstFences(r: string, i: nat, close: nat) {
    && OccursAt(r, Fence, i)
    && (forall q | 0 <= q < i :: !OccursAt(r, Fence, q))
    && i + 3 <= close
    && OccursAt(r, Fence, close)
    && (forall q | i + 3 <= q < close :: !OccursAt(r, Fence, q))
  }

  /** Where the body of the fence at `i` starts once an optional `json`
      tag is skipped. */
  function TagEnd(r: string, i: nat): nat {
    if OccursAt(r, "json", i + 3) then i + 7 else i + 3
  }

  /** The text between the first fence and the next one, for the two fence
      patterns: with an optional `json` tag skipped, then without. Both
      patterns match exactly when a second fence follows the first. */
  function FenceCandidates(r: string): (cs: seq<string>)
    ensures |cs| == 0 || |cs| == 2
    ensures |cs| == 2 <==> exists i, j :: 0 <= i && i + 3 <= j && OccursAt(r, Fence, i) && OccursAt(r, Fence, j)
    ensures |cs| == 2 ==> exists i: nat, close: nat | FirstFences(r, i, close) ::
              && TagEnd(r, i) <= close
              && cs == [Strip(r[TagEnd(r, i)..close]), Strip(r[i + 3..close])]
  {
    match FindFrom(r, Fence, 0)
    case None =>
      []
    case Some(i) =>
      match FindFrom(r, Fence, i + 3)
      case None =>
        FenceNeedsSecond(r, i);
        []
      case Some(close) =>
        var start := TagEnd(r, i);
        JsonTagHasNoFence(r, i, start, close);
        assert FirstFences(r, i, close);
        [Strip(r[start..close]), Strip(r[i + 3..close])]
  }

  lemma FenceNeedsSecond(r: string, i: nat)
    requires OccursAt(r, Fence, i)
    requires forall q | 0 <= q < i :: !OccursAt(r, Fence, q)
    requires forall q | i + 3 <= q :: !OccursAt(r, Fence, q)
    ensures !exists a, b :: 0 <= a && a + 3 <= b && OccursAt(r, Fence, a) && OccursAt(r, Fence, b)
  {
  }

  lemma JsonTagHasNoFence(r: string, i: nat, start: nat, close: nat)
    requires start == (if OccursAt(r, "json", i + 3) then i + 7 else i + 3)
    requires i + 3 <= close && OccursAt(r, Fence, close)
    requires forall q | i + 3 <= q < close :: !OccursAt(r, Fence, q)
    ensures start <= close
  {
    if OccursAt(r, "json", i + 3) {
      var tag := r[i + 3..i + 7];
      assert tag == "json";
      forall q | i + 3 <= q < i + 7 && q + 3 <= |r| ensures !OccursAt(r, Fence, q) {
        assert r[q] == tag[q - i - 3];
        assert r[q..q + 3][0] == r[q];
      }
    }
  }

  /** The greedy `{...}` span: from the first `{` to the last `}`, when the
      last `}` comes after the first `{`. */
  function BraceCandidates(r: string): (cs: seq<string>)
    ensures |cs| <= 1
    ensures |cs| == 1 ==> |cs[0]| >= 2 && cs[0][0] == '{' && cs[0][|cs[0]| - 1] == '}'
    ensures |cs| == 1 ==> var a := IndexOf(r, '{');
              && a + |cs[0]| <= |r| && r[a..a + |cs[0]|] == cs[0] && '}' !in r[a + |cs[0]|..]
    ensures |cs| == 0 <==> '{' !in r || '}' !in r[IndexOf(r, '{')..]
  {
    var a := IndexOf(r, '{');
    match LastIndex(r, '}')
    case None => []
    case Some(b) =>
      if a < b then
        assert b < |r|;
        assert r[a..b + 1][0] == '{' && r[a..b + 1][b - a] == '}';
        [r[a..b + 1]]
      else
        assert a < |r| ==> '}' !in r[a..] by {
          if a < |r| {
            forall k | a <= k < |r| ensures r[k] != '}' {
              if k > b { assert r[k] == r[b + 1..][k - b - 1]; }
            }
            assert r[a] == '{';
          }
        }
        []
  }

  /** Every string `_extract_json_from_reply` hands to `json.loads`, in
      order; the stripped reply itself comes last. */
  function Candidates(reply: string): (cs: seq<string>)
    ensures 1 <= |cs| <= 4
    ensures cs[|cs| - 1] == Strip(reply)
    ensures cs == FenceCandidates(Strip(reply)) + BraceCandidates(Strip(reply)) + [Strip(reply)]
  {
    var r := Strip(reply);
    FenceCandidates(r) + BraceCandidates(r) + [r]
  }

  /** The first candidate that parses. */
  function FirstParse(cs: seq<string>, parse: string -> Option<Json>): (r: Option<Json>)
    ensures r.None? <==> forall k | 0 <= k < |cs| :: parse(cs[k]).None?
    ensures r.Some? ==> exists k | 0 <= k < |cs| ::
              && parse(cs[k]) == r
              && forall j | 0 <= j < k :: parse(cs[j]).None?
  {
    if |cs| == 0 then None
    else if parse(cs[0]).Some? then
      parse(cs[0])
    else
      var r := FirstParse(cs[1..], parse);
      assert forall k | 1 <= k < |cs| :: cs[1..][k - 1] == cs[k];
      r
  }

  /** `_extract_json_from_reply`: the value of the first candidate that
      parses, or nothing when none does. */
  function ExtractJsonFromReply(reply: string, parse: string -> Option<Json>): (r: Option<Json>)
    ensures r.None? <==> forall c | c in Candidates(reply) :: parse(c).None?
    ensures r.Some? ==> exists k | 0 <= k < |Candidates(reply)| ::
              && parse(Candidates(reply)[k]) == r
              && forall j | 0 <= j < k :: parse(Candidates(reply)[j]).None?
    ensures parse(Strip(reply)).Some? ==> r.Some?
  {
    FirstParseOf(Candidates(reply), parse)
  }

  /** `FirstParse` over a non-empty candidate list, stated in the terms
      `ExtractJsonFromReply` uses: some candidate parses when the last one
      does. */
  function FirstParseOf(cs: seq<string>, parse: string -> Option<Json>): (r: Option<Json>)
    requires |cs| > 0
    ensures r.None? <==> forall c | c in cs :: parse(c).None?
    ensures r.Some? ==> exists k | 0 <= k < |cs| ::
              && parse(cs[k]) == r
              && forall j | 0 <= j < k :: parse(cs[j]).None?
    ensures parse(cs[|cs| - 1]).Some? ==> r.Some?
  {
    assert cs[|cs| - 1] in cs;
    FirstParse(cs, parse)
  }

  // ---------------------------------------------------------------------
  // Typical replies.

  /** A reply that is exactly a JSON document, with no fence and no braces
      around other text, decodes to that document. */
  lemma BareReply(reply: string, parse: string -> Option<Json>)
    requires '`' !in reply && '{' !in reply
    ensures ExtractJsonFromReply(reply, parse) == parse(Strip(reply))
  {
    var r := Strip(reply);
    StripKeepsAbsent(reply, '`');
    StripKeepsAbsent(reply, '{');
    NoFenceWithoutTick(r);
    assert Candidates(reply) == [r];
  }

  /** A fenced ```json block around a document decodes to the document. */
  lemma FencedReply(body: string, v: Json, parse: string -> Option<Json>)
    requires '`' !in body && IsStripped(body)
    requires parse(body) == Some(v)
    ensures ExtractJsonFromReply("```json\n" + body + "\n```", parse) == Some(v)
  {
    var reply := "```json\n" + body + "\n```";
    assert reply[0] == '`' && reply[|reply| - 1] == '`';
    StripStripped(reply);
    FencedFind(reply, body);
    StripPadded(body);
    FenceCandidatesAt(reply, 0, |body| + 9);
    FenceComesFirst(reply);
    var cs := Candidates(reply);
    assert cs[0] == body;
  }

  /** Where both fences are found after a `json` tag, the candidates are the
      text after the tag and the text after the fence. */
  lemma FenceCandidatesAt(r: string, i: nat, close: nat)
    requires FindFrom(r, Fence, 0) == Some(i) && FindFrom(r, Fence, i + 3) == Some(close)
    requires OccursAt(r, "json", i + 3) && i + 7 <= close
    ensures FenceCandidates(r) == [Strip(r[i + 7..close]), Strip(r[i + 3..close])]
  {
  }

  /** A fence candidate, when there is one, is tried first. */
  lemma FenceComesFirst(reply: string)
    requires |FenceCandidates(Strip(reply))| > 0
    ensures Candidates(reply)[0] == FenceCandidates(Strip(reply))[0]
  {
  }

  lemma FencedFind(reply: string, body: string)
    requires '`' !in body
    requires reply == "```json\n" + body + "\n```"
    ensures FindFrom(reply, Fence, 0) == Some(0)
    ensures FindFrom(reply, Fence, 3) == Some(|body| + 9)
    ensures OccursAt(reply, "json", 3)
    ensures reply[7..|body| + 9] == "\n" + body + "\n"
  {
    var n := |body|;
    assert reply[0..3] == Fence;
    assert reply[3..7] == "json";
    FindFromIs(reply, Fence, 0, 0);
    FencedInside(reply, body);
    assert reply[n + 9..n + 12] == Fence;
    FindFromIs(reply, Fence, 3, n + 9);
    FencedBody(reply, body);
  }

  /** Between the opening fence and the closing one no fence starts. */
  lemma FencedInside(reply: string, body: string)
    requires '`' !in body
    requires reply == "```json\n" + body + "\n```"
    ensures forall q | 3 <= q < |body| + 9 :: !OccursAt(reply, Fence, q)
  {
    var n := |body|;
    var pre, post := "```json\n", "\n```";
    assert reply == pre + body + post;
    forall q | 3 <= q < n + 9 ensures !OccursAt(reply, Fence, q) {
      if q < 8 {
        assert reply[q] == pre[q];
      } else if q < n + 8 {
        assert reply[q] == body[q - 8];
      } else {
        assert reply[q] == post[0];
      }
      NoFenceAt(reply, q);
    }
  }

  /** The text between the `json` tag and the closing fence is the body
      between two line breaks. */
  lemma FencedBody(reply: string, body: string)
    requires reply == "```json\n" + body + "\n```"
    ensures reply[7..|body| + 9] == "\n" + body + "\n"
  {
    var n := |body|;
    var mid := reply[7..n + 9];
    assert |mid| == n + 2;
    forall k | 0 <= k < n + 2 ensures mid[k] == ("\n" + body + "\n")[k] {
      assert mid[k] == reply[k + 7];
    }
  }

  /** No fence starts at a character other than a backtick. */
  lemma NoFenceAt(s: string, q: nat)
    requires q < |s| ==> s[q] != '`'
    ensures !OccursAt(s, Fence, q)
  {
    if q + 3 <= |s| {
      assert s[q..q + 3][0] == s[q];
    }
  }

  lemma StripPadded(body: string)
    requires IsStripped(body)
    ensures Strip("\n" + body + "\n") == body
  {
    var s := "\n" + body + "\n";
    var e := 1 + |body|;
    assert s[1..e] == body && s[..1] == "\n" && s[e..] == "\n";
    assert TrimmedAt(s, body, 1);
    StripUnique(s, body);
  }

  /** Prose around one object: the brace span is that object. */
  lemma ProseAroundObject(before: string, obj: string, after: string, v: Json, parse: string -> Option<Json>)
    requires '`' !in before + obj + after
    requires '{' !in before && '}' !in after
    requires |obj| >= 2 && obj[0] == '{' && obj[|obj| - 1] == '}'
    requires IsStripped(before + obj + after)
    requires parse(obj) == Some(v)
    ensures ExtractJsonFromReply(before + obj + after, parse) == Some(v)
  {
    var reply := before + obj + after;
    StripStripped(reply);
    NoFenceWithoutTick(reply);
    BraceSpan(before, obj, after);
    BraceComesNext(reply, obj);
  }

  /** With no fence, a brace span is tried before the whole reply. */
  lemma BraceComesNext(reply: string, span: string)
    requires FindFrom(Strip(reply), Fence, 0).None?
    requires BraceCandidates(Strip(reply)) == [span]
    ensures Candidates(reply) == [span, Strip(reply)]
  {
  }

  lemma BraceSpan(before: string, obj: string, after: string)
    requires '{' !in before && '}' !in after
    requires |obj| >= 2 && obj[0] == '{' && obj[|obj| - 1] == '}'
    ensures BraceCandidates(before + obj + after) == [obj]
  {
    var reply := before + obj + after;
    var a := |before|;
    var b := a + |obj| - 1;
    assert reply[a] == '{' && reply[..a] == before;
    IndexOfIs(reply, '{', a);
    assert reply[b] == '}' && reply[b + 1..] == after;
    LastIndexIs(reply, '}', b);
    assert reply[a..b + 1] == obj;
  }

  // ---------------------------------------------------------------------
  // Observation tables.

  /** The grouping a table can fail on: a non-zero number or `true` where
      the array should be. */
  predicate Iterable(parsed: Json, key: string)
    requires parsed.JObject?
  {
    var v := Field(parsed.members, key);
    !(v.Some? && Truthy(v.value) && (v.value.JNumber? || v.value.JBool?))
  }

  /** `parsed.get(key) or []`, iterated: the array's items; the keys of an
      object and the characters of a string, none of which is a row; a
      non-zero number or `true` cannot be iterated. */
  function TableRows(parsed: Json, key: string): (r: Result<seq<Json>>)
    requires parsed.JObject?
    ensures r.Ok? <==> Iterable(parsed, key)
    ensures r.Ok? && Field(parsed.members, key).Some? && Field(parsed.members, key).value.JArray? ==>
              r.value == Field(parsed.members, key).value.items
    ensures r.Ok? && (exists k | 0 <= k < |r.value| :: r.value[k].JObject?) ==>
              Field(parsed.members, key).Some? && Field(parsed.members, key).value.JArray?
  {
    match Field(parsed.members, key)
    case None => Ok([])
    case Some(v) =>
      if !Truthy(v) then Ok([])
      else
        match v
        case JArray(items) => Ok(items)
        case JObject(ms) => Ok(Map(ms, (m: Member) => JString(m.key)))
        case JString(s) => Ok(Map(s, (c: char) => JString([c])))
        case _ => Err("TypeError: object is not iterable")
  }

  /** The label a row object gives: `str(r.get(row_key, "")).strip()`. */
  function RowLabel(ms: seq<Member>, rowKey: string): (l: string)
    ensures IsStripped(l)
  {
    Strip(PyStr(FieldOr(ms, rowKey, JString(""))))
  }

  /** The observation a row object gives: `str(r.get("observation", ""))`. */
  function RowObservation(ms: seq<Member>): string {
    PyStr(FieldOr(ms, "observation", JString("")))
  }

  /** The label of each row, or nothing for a row that is not an object
      (`isinstance(r, dict)` fails). */
  function RowKeys(rows: seq<Json>, rowKey: string): (ks: seq<Option<string>>)
    ensures |ks| == |rows|
    ensures forall i | 0 <= i < |rows| :: ks[i] == RowKey(rows[i], rowKey)
  {
    seq(|rows|, i requires 0 <= i < |rows| => RowKey(rows[i], rowKey))
  }

  function RowKey(row: Json, rowKey: string): (k: Option<string>)
    ensures k.Some? <==> row.JObject?
  {
    if row.JObject? then Some(RowLabel(row.members, rowKey)) else None
  }

  /** The observation of each row (unused for rows that are not objects). */
  function RowObservations(rows: seq<Json>): (os: seq<string>)
    ensures |os| == |rows|
    ensures forall i | 0 <= i < |rows| :: rows[i].JObject? ==> os[i] == RowObservation(rows[i].members)
  {
    seq(|rows|, i requires 0 <= i < |rows| => if rows[i].JObject? then RowObservation(rows[i].members) else "")
  }

  /** Building a dict from key/value pairs in order, skipping absent keys:
      a key is present exactly when some pair carries it, and maps to the
      value of the last such pair. */
  function DictOf(ks: seq<Option<string>>, vs: seq<string>): (m: map<string, string>)
    requires |ks| == |vs|
    ensures forall l :: l in m <==> Some(l) in ks
    ensures forall l | l in m :: m[l] == vs[LastIndex(ks, Some(l)).value]
  {
    if |ks| == 0 then map[]
    else
      var n := |ks| - 1;
      var m := DictOf(ks[..n], vs[..n]);
      assert ks == ks[..n] + [ks[n]];
      forall l ensures LastIndex(ks, Some(l)) == (if ks[n] == Some(l) then Some(n) else LastIndex(ks[..n], Some(l))) {
      }
      match ks[n]
      case Some(k) => m[k := vs[n]]
      case None => m
  }

  /** The dict comprehension over the row objects: label to observation,
      later rows overriding earlier ones. A label is present exactly when
      some row object carries it, and maps to the observation of the last
      such row. */
  function Lookup(rows: seq<Json>, rowKey: string): (m: map<string, string>)
    ensures forall l :: l in m <==> Some(l) in RowKeys(rows, rowKey)
    ensures forall l | l in m :: m[l] == RowObservation(rows[LastIndex(RowKeys(rows, rowKey), Some(l)).value].members)
  {
    var ks := RowKeys(rows, rowKey);
    var os := RowObservations(rows);
    var m := DictOf(ks, os);
    forall l | l in m
      ensures m[l] == RowObservation(rows[LastIndex(ks, Some(l)).value].members)
    {
      var i := LastIndex(ks, Some(l)).value;
      assert ks[i] == Some(l);
      assert rows[i].JObject?;
    }
    m
  }

  /** The column heading for the row key. */
  function ColumnName(rowKey: string): string {
    if rowKey == "month" then "Month" else if rowKey == "day" then "Day" else "Time"
  }

  function HeaderLine(name: string): string {
    "<table><thead><tr><th>" + name + "</th><th>Observation</th></tr></thead><tbody>"
  }

  function RowLine(lbl: string, obs: string): string {
    "<tr><td>" + lbl + "</td><td>" + obs + "</td></tr>"
  }

  const FooterLine: string := "</tbody></table>"

  /** The cell for a label: its observation, or a dash when no row names it. */
  function Cell(lookup: map<string, string>, lbl: string): string {
    if lbl in lookup then lookup[lbl] else "—"
  }

  /** The lines of one table: header, one row per label in label order,
      footer. */
  function TableLines(name: string, labels: seq<string>, lookup: map<string, string>): (lines: seq<string>)
    ensures |lines| == |labels| + 2
    ensures lines[0] == HeaderLine(name) && lines[|lines| - 1] == FooterLine
    ensures forall k | 0 <= k < |labels| :: lines[k + 1] == RowLine(labels[k], Cell(lookup, labels[k]))
  {
    [HeaderLine(name)] + Map(labels, (l: string) => RowLine(l, Cell(lookup, l))) + [FooterLine]
  }

  /** What a table shows for a label, read off the rows themselves: the
      observation of the last row object carrying the label, or a dash when
      none does. */
  function LastRowObservation(rows: seq<Json>, rowKey: string, lbl: string): string {
    var ks := RowKeys(rows, rowKey);
    if Some(lbl) in ks then RowObservation(rows[LastIndex(ks, Some(lbl)).value].members) else "—"
  }

  /** The row line of each label shows the label's last row observation. */
  lemma TableLinesOfRows(rows: seq<Json>, rowKey: string, labels: seq<string>)
    ensures var ls := TableLines(ColumnName(rowKey), labels, Lookup(rows, rowKey));
            forall k | 0 <= k < |labels| :: ls[k + 1] == RowLine(labels[k], LastRowObservation(rows, rowKey, labels[k]))
  {
    var ls := TableLines(ColumnName(rowKey), labels, Lookup(rows, rowKey));
    forall k | 0 <= k < |labels| ensures ls[k + 1] == RowLine(labels[k], LastRowObservation(rows, rowKey, labels[k])) {
      CellIsLastRow(rows, rowKey, labels[k]);
    }
  }

  /** The cell the lookup gives a label is the label's last row observation. */
  lemma CellIsLastRow(rows: seq<Json>, rowKey: string, lbl: string)
    ensures Cell(Lookup(rows, rowKey), lbl) == LastRowObservation(rows, rowKey, lbl)
  {
  }

  /** `table_for(key, row_key, labels)`: the lines are the header naming the
      row key's column, one row per label in label order showing that
      label's last row observation, and the footer, joined by newlines. */
  function TableFor(parsed: Json, key: string, rowKey: string, labels: seq<string>): (r: Result<string>)
    requires parsed.JObject?
    ensures r.Ok? <==> TableRows(parsed, key).Ok?
    ensures r.Ok? ==> var rows := TableRows(parsed, key).value;
              exists ls: seq<string> | |ls| == |labels| + 2 && r.value == JoinWith(ls, "\n") ::
                && ls[0] == HeaderLine(ColumnName(rowKey))
                && ls[|ls| - 1] == FooterLine
                && forall k | 0 <= k < |labels| :: ls[k + 1] == RowLine(labels[k], LastRowObservation(rows, rowKey, labels[k]))
  {
    match TableRows(parsed, key)
    case Err(msg) => Err(msg)
    case Ok(rows) =>
      var ls := TableLines(ColumnName(rowKey), labels, Lookup(rows, rowKey));
      TableLinesOfRows(rows, rowKey, labels);
      Ok(JoinWith(ls, "\n"))
  }

  /** A label's cell shows the observation of the row object carrying it
      when no later row object carries it. */
  lemma LastRowObservationOf(rows: seq<Json>, rowKey: string, lbl: string, i: nat)
    requires i < |rows| && rows[i].JObject? && RowLabel(rows[i].members, rowKey) == lbl
    requires forall j | i < j < |rows| :: !(rows[j].JObject? && RowLabel(rows[j].members, rowKey) == lbl)
    ensures LastRowObservation(rows, rowKey, lbl) == RowObservation(rows[i].members)
  {
    var ks := RowKeys(rows, rowKey);
    assert ks[i] == Some(lbl);
    forall j | i < j < |ks| ensures ks[j] != Some(lbl) {
      assert ks[j] == RowKey(rows[j], rowKey);
    }
    var later := ks[i + 1..];
    forall j | 0 <= j < |later| ensures later[j] != Some(lbl) {
      assert later[j] == ks[i + 1 + j];
    }
    LastIndexIs(ks, Some(lbl), i);
  }

  /** A label no row object carries shows a dash. */
  lemma LastRowObservationDash(rows: seq<Json>, rowKey: string, lbl: string)
    requires forall j | 0 <= j < |rows| :: !(rows[j].JObject? && RowLabel(rows[j].members, rowKey) == lbl)
    ensures LastRowObservation(rows, rowKey, lbl) == "—"
  {
    var ks := RowKeys(rows, rowKey);
    forall j | 0 <= j < |ks| ensures ks[j] != Some(lbl) {
      assert ks[j] == RowKey(rows[j], rowKey);
    }
    assert Some(lbl) !in ks;
  }

  /** `_observations_to_html_tables`: the three tables under their
      headings. It fails (the Python raises) when the parsed value is not
      an object, or a grouping holds a non-iterable truthy value. */
  function ObservationsToHtmlTables(parsed: Json, monthLabels: seq<string>, dowOrder: seq<string>, todOrder: seq<string>): (r: Result<string>)
    ensures r.Ok? <==> parsed.JObject? && TablesIterable(parsed)
    ensures r.Ok? ==> "<h4>By month</h4>" <= r.value
    ensures r.Ok? ==> r.value[0] == '<'
  {
    if !parsed.JObject? then Err("AttributeError: object has no attribute 'get'")
    else
      var a := TableFor(parsed, "by_month", "month", monthLabels);
      var b := TableFor(parsed, "by_day_of_week", "day", dowOrder);
      var c := TableFor(parsed, "by_time_of_day", "time", todOrder);
      Combine(a, b, c)
  }

  /** When the tables succeed they are the three tables under their
      headings, in month, weekday, time-of-day order. */
  lemma ObservationsAreSections(parsed: Json, monthLabels: seq<string>, dowOrder: seq<string>, todOrder: seq<string>)
    requires parsed.JObject? && TablesIterable(parsed)
    ensures var a := TableFor(parsed, "by_month", "month", monthLabels);
            var b := TableFor(parsed, "by_day_of_week", "day", dowOrder);
            var c := TableFor(parsed, "by_time_of_day", "time", todOrder);
            && a.Ok? && b.Ok? && c.Ok?
            && ObservationsToHtmlTables(parsed, monthLabels, dowOrder, todOrder) == Ok(Sections(a.value, b.value, c.value))
  {
    var a := TableFor(parsed, "by_month", "month", monthLabels);
    var b := TableFor(parsed, "by_day_of_week", "day", dowOrder);
    var c := TableFor(parsed, "by_time_of_day", "time", todOrder);
    assert a.Ok? && b.Ok? && c.Ok?;
    CombineOk(a, b, c);
  }

  /** All three groupings can be iterated. */
  predicate TablesIterable(parsed: Json)
    requires parsed.JObject?
  {
    TableRows(parsed, "by_month").Ok? && TableRows(parsed, "by_day_of_week").Ok? && TableRows(parsed, "by_time_of_day").Ok?
  }

  /** The tables fail exactly when the parsed value is not an object or one
      of its groupings holds a non-zero number or `true`. */
  lemma ObservationsFailIff(parsed: Json, monthLabels: seq<string>, dowOrder: seq<string>, todOrder: seq<string>)
    ensures ObservationsToHtmlTables(parsed, monthLabels, dowOrder, todOrder).Err? <==>
            || !parsed.JObject?
            || !Iterable(parsed, "by_month") || !Iterable(parsed, "by_day_of_week") || !Iterable(parsed, "by_time_of_day")
  {
  }

  /** The first failure among the three tables, or the three under their
      headings. */
  function Combine(a: Result<string>, b: Result<string>, c: Result<string>): (r: Result<string>)
    ensures r.Ok? <==> a.Ok? && b.Ok? && c.Ok?
    ensures r.Ok? ==> r.value == Sections(a.value, b.value, c.value)
  {
    if a.Err? then a
    else if b.Err? then b
    else if c.Err? then c
    else Ok(Sections(a.value, b.value, c.value))
  }

  /** Three tables that all succeed combine under their headings. */
  lemma CombineOk(a: Result<string>, b: Result<string>, c: Result<string>)
    requires a.Ok? && b.Ok? && c.Ok?
    ensures Combine(a, b, c) == Ok(Sections(a.value, b.value, c.value))
  {
  }

  lemma TableForOk(parsed: Json, key: string, rowKey: string, labels: seq<string>)
    requires parsed.JObject?
    ensures TableFor(parsed, key, rowKey, labels).Ok? <==> Iterable(parsed, key)
  {
  }

  /** The three tables under their headings. */
  function Sections(t1: string, t2: string, t3: string): (r: string)
    ensures "<h4>By month</h4>" <= r
    ensures r[0] == '<'
  {
    var h := "<h4>By month</h4>";
    var r := h + (t1 + "<h4>By day of week</h4>" + t2 + "<h4>By time of day</h4>" + t3);
    assert r[..|h|] == h;
    assert r[0] == h[0];
    r
  }

  // ---------------------------------------------------------------------
  // Bullet-list fallback.

  function Items(lines: seq<string>): string {
    if |lines| == 0 then "" else "<li>" + lines[0] + "</li>" + Items(lines[1..])
  }

  /** `_raw_to_bullet_list`: one bullet per non-blank line, stripped; with no
      such line the raw text in a paragraph, or a dash for an empty reply. */
  function RawToBulletList(raw: string): (r: string)
    ensures |r| > 0 && r[0] == '<'
    ensures var ls := NonBlankStripped(SplitLines(raw));
            |ls| > 0 ==> r == "<ul>" + Items(ls) + "</ul>"
    ensures AllSpace(raw) ==> r == (if raw == "" then "<p>—</p>" else "<p>" + raw + "</p>")
  {
    var lines := NonBlankStripped(SplitLines(raw));
    BlankLines(raw);
    if |lines| == 0 then (if raw == "" then "<p>—</p>" else "<p>" + raw + "</p>")
    else "<ul>" + Items(lines) + "</ul>"
  }

  /** Every line of blank text is blank. */
  lemma {:induction false} BlankLines(s: string)
    ensures AllSpace(s) ==> forall k | 0 <= k < |SplitLines(s)| :: AllSpace(SplitLines(s)[k])
    decreases |s|
  {
    if |s| > 0 && AllSpace(s) {
      var i := LineEnd(s);
      if i < |s| {
        var width := if s[i] == '\r' && i + 1 < |s| && s[i + 1] == '\n' then 2 else 1;
        var rest := s[i + width..];
        AllSpaceSlice(s, i + width, |s|);
        assert s[i + width..|s|] == rest;
        BlankLines(rest);
        AllSpaceSlice(s, 0, i);
        assert s[0..i] == s[..i];
        AllSpaceCons(s[..i], SplitLines(rest), SplitLines(s));
      } else {
        assert s[..i] == s;
      }
    }
  }

  lemma AllSpaceCons(line: string, rest: seq<string>, lines: seq<string>)
    requires lines == [line] + rest && AllSpace(line)
    requires forall k | 0 <= k < |rest| :: AllSpace(rest[k])
    ensures forall k | 0 <= k < |lines| :: AllSpace(lines[k])
  {
    assert forall k | 1 <= k < |lines| :: lines[k] == rest[k - 1];
  }

  /** Lines joined by newlines come back as the same bullets. */
  lemma {:induction false} BulletsOfLines(ls: seq<string>)
    requires |ls| > 0
    requires forall k | 0 <= k < |ls| :: |ls[k]| > 0 && IsStripped(ls[k]) && NoLineBreak(ls[k])
    ensures RawToBulletList(JoinWith(ls, "\n")) == "<ul>" + Items(ls) + "</ul>"
  {
    SplitLinesOfJoin(ls);
    NonBlankStrippedKeeps(ls);
  }

  lemma {:induction false} SplitLinesOfJoin(ls: seq<string>)
    requires |ls| > 0
    requires forall k | 0 <= k < |ls| :: |ls[k]| > 0 && NoLineBreak(ls[k])
    ensures SplitLines(JoinWith(ls, "\n")) == ls
  {
    var s := JoinWith(ls, "\n");
    var w := ls[0];
    if |ls| == 1 {
      LineEndOfLine(w, "");
      assert w + "" == w;
    } else {
      var rest := JoinWith(ls[1..], "\n");
      assert s == w + ("\n" + rest);
      LineEndOfLine(w, "\n" + rest);
      assert s[|w|] == '\n';
      assert s[|w| + 1..] == rest;
      assert s[..|w|] == w;
      SplitLinesOfJoin(ls[1..]);
      assert |rest| > 0 ==> rest[0] != '\n' by {
        if |ls[1..]| == 1 { assert rest == ls[1]; } else { assert rest[0] == ls[1][0]; }
        assert !IsLineBreak(ls[1][0]);
      }
    }
  }

  lemma LineEndOfLine(w: string, t: string)
    requires NoLineBreak(w) && (|t| > 0 ==> IsLineBreak(t[0]))
    ensures LineEnd(w + t) == |w|
  {
    var s := w + t;
    assert s[..|w|] == w;
    LineEndUnique(s, |w|);
  }

  /** The first line break is where `LineEnd` stops. */
  lemma LineEndUnique(s: string, i: nat)
    requires i <= |s| && NoLineBreak(s[..i]) && (i < |s| ==> IsLineBreak(s[i]))
    ensures LineEnd(s) == i
  {
    var m := LineEnd(s);
    assert forall k | 0 <= k < i :: s[..i][k] == s[k];
    assert forall k | 0 <= k < m :: s[..m][k] == s[k];
  }

  lemma {:induction false} NonBlankStrippedKeeps(ls: seq<string>)
    requires forall k | 0 <= k < |ls| :: |ls[k]| > 0 && IsStripped(ls[k])
    ensures NonBlankStripped(ls) == ls
  {
    if |ls| > 0 {
      StripStripped(ls[0]);
      NonBlankStrippedKeeps(ls[1..]);
    }
  }
}
