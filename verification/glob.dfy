/** The keyword pattern language of the entry filter. Each phrase is turned
    into a regular expression by escaping every character and then turning
    the escaped `*` back into `.*`; the phrases are searched for anywhere in
    the text, ignoring case. So `*` stands for any run of characters other
    than a newline (`.` does not match `\n` without DOTALL), and every other
    character stands for itself. */
module Glob {
  import opened Text

  /** Does phrase `p` match a prefix of `t`? */
  predicate MatchPrefix(p: string, t: string)
    decreases |p| + |t|
  {
    if |p| == 0 then true
    else if p[0] == '*' then MatchPrefix(p[1..], t) || (|t| > 0 && t[0] != '\n' && MatchPrefix(p, t[1..]))
    else |t| > 0 && LowerChar(t[0]) == LowerChar(p[0]) && MatchPrefix(p[1..], t[1..])
  }

  /** `re.search` of the phrase's expression: a match starting anywhere in `t`. */
  predicate Search(p: string, t: string)
    decreases |t|
  {
    MatchPrefix(p, t) || (|t| > 0 && Search(p, t[1..]))
  }

  predicate NoStar(p: string) {
    '*' !in p
  }

  predicate NoNewline(s: string) {
    '\n' !in s
  }

  // ---------------------------------------------------------------------

  /** Without wildcards a phrase matches a prefix exactly when its
      lower-cased form is a prefix of the lower-cased text. */
  lemma {:induction false} MatchPrefixLiteral(p: string, t: string)
    requires NoStar(p)
    ensures MatchPrefix(p, t) <==> Lower(p) <= Lower(t)
    decreases |p|
  {
    if |p| > 0 && |t| > 0 {
      assert p[1..] == p[1..] && '*' !in p[1..] by {
        assert forall c | c in p[1..] :: c in p;
      }
      MatchPrefixLiteral(p[1..], t[1..]);
      assert Lower(p)[1..] == Lower(p[1..]);
      assert Lower(t)[1..] == Lower(t[1..]);
      assert Lower(p) <= Lower(t) <==> (Lower(p)[0] == Lower(t)[0] && Lower(p)[1..] <= Lower(t)[1..]);
    }
  }

  /** Without wildcards, the keyword search is the case-insensitive substring
      test. */
  lemma {:induction false} SearchLiteral(p: string, t: string)
    requires NoStar(p)
    ensures Search(p, t) <==> Contains(Lower(t), Lower(p))
    decreases |t|
  {
    MatchPrefixLiteral(p, t);
    if |t| > 0 {
      SearchLiteral(p, t[1..]);
      assert Lower(t)[1..] == Lower(t[1..]);
    }
  }

  /** `*` at the front: the phrase's remainder matches after skipping some
      run of characters that holds no newline. */
  lemma {:induction false} StarMeaning(q: string, t: string)
    ensures MatchPrefix("*" + q, t) <==> exists k | 0 <= k <= |t| :: StarSkip(q, t, k)
    decreases |t|
  {
    var p := "*" + q;
    assert p[0] == '*' && p[1..] == q;
    assert t[..0] == "" && t[0..] == t;
    assert MatchPrefix(q, t) ==> StarSkip(q, t, 0);
    if |t| > 0 {
      StarMeaning(q, t[1..]);
      if MatchPrefix(p, t) && !MatchPrefix(q, t) {
        var k :| 0 <= k <= |t[1..]| && StarSkip(q, t[1..], k);
        StarShift(q, t, k);
      }
      if exists k | 0 <= k <= |t| :: StarSkip(q, t, k) {
        var k :| 0 <= k <= |t| && StarSkip(q, t, k);
        if k > 0 {
          StarUnshift(q, t, k);
        }
      }
    }
  }

  /** The text from `k` on matches `q`, and the `k` characters skipped
      before it hold no newline. */
  predicate StarSkip(q: string, t: string, k: int) {
    0 <= k <= |t| && NoNewline(t[..k]) && MatchPrefix(q, t[k..])
  }

  lemma StarShift(q: string, t: string, k: nat)
    requires |t| > 0 && t[0] != '\n' && StarSkip(q, t[1..], k)
    ensures StarSkip(q, t, k + 1)
  {
    assert t[..k + 1] == [t[0]] + t[1..][..k];
    assert t[k + 1..] == t[1..][k..];
  }

  lemma StarUnshift(q: string, t: string, k: nat)
    requires k > 0 && StarSkip(q, t, k)
    ensures t[0] != '\n' && StarSkip(q, t[1..], k - 1)
  {
    assert t[0] == t[..k][0];
    assert t[1..][..k - 1] == t[1..k];
    assert forall c | c in t[1..k] :: c in t[..k];
    assert t[1..][k - 1..] == t[k..];
  }

  /** A trailing `*` never changes whether a phrase matches: `.*` may match
      nothing. */
  lemma {:induction false} TrailingStar(p: string, t: string)
    ensures MatchPrefix(p + "*", t) <==> MatchPrefix(p, t)
    decreases |p| + |t|
  {
    var ps := p + "*";
    if |p| == 0 {
      assert ps == "*" && ps[1..] == "";
    } else {
      assert ps[0] == p[0] && ps[1..] == p[1..] + "*";
      if p[0] == '*' {
        TrailingStar(p[1..], t);
        if |t| > 0 {
          TrailingStar(p, t[1..]);
        }
      } else if |t| > 0 {
        TrailingStar(p[1..], t[1..]);
      }
    }
  }

  /** Case does not matter on the text side. */
  lemma {:induction false} MatchPrefixIgnoresCase(p: string, t: string)
    ensures MatchPrefix(p, t) <==> MatchPrefix(p, Lower(t))
    decreases |p| + |t|
  {
    if |p| > 0 {
      var lt := Lower(t);
      if |t| > 0 {
        assert lt[1..] == Lower(t[1..]);
        assert LowerChar(lt[0]) == LowerChar(t[0]);
        assert lt[0] != '\n' <==> t[0] != '\n';
        MatchPrefixIgnoresCase(p[1..], t[1..]);
        if p[0] == '*' {
          MatchPrefixIgnoresCase(p, t[1..]);
        }
      }
      MatchPrefixIgnoresCase(p[1..], t);
    }
  }

  lemma {:induction false} SearchAt(p: string, t: string, i: nat)
    requires i <= |t| && MatchPrefix(p, t[i..])
    ensures Search(p, t)
    decreases i
  {
    if i > 0 {
      assert t[1..][i - 1..] == t[i..];
      SearchAt(p, t[1..], i - 1);
    }
  }

  /** A phrase without wildcards matches any text that starts with it. */
  lemma {:induction false} MatchPrefixOfPrefix(p: string, t: string)
    requires NoStar(p) && p <= t
    ensures MatchPrefix(p, t)
    decreases |p|
  {
    if |p| > 0 {
      assert p[1..] <= t[1..];
      assert '*' !in p[1..] by {
        assert forall c | c in p[1..] :: c in p;
      }
      MatchPrefixOfPrefix(p[1..], t[1..]);
    }
  }

  /** A literal phrase whose first two characters never stand side by side
      in the text (ignoring case) matches nowhere. */
  lemma {:induction false} NoSearchWithoutPair(p: string, t: string)
    requires |p| >= 2 && p[0] != '*' && p[1] != '*'
    requires forall i | 0 <= i < |t| - 1 :: !(LowerChar(t[i]) == LowerChar(p[0]) && LowerChar(t[i + 1]) == LowerChar(p[1]))
    ensures !Search(p, t)
    decreases |t|
  {
    if |t| > 0 {
      assert p[1..][0] == p[1];
      if |t| > 1 {
        assert !(LowerChar(t[0]) == LowerChar(p[0]) && LowerChar(t[1]) == LowerChar(p[1]));
        assert t[1..][0] == t[1];
      }
      assert !MatchPrefix(p, t);
      assert forall i | 0 <= i < |t[1..]| :: t[1..][i] == t[i + 1];
      NoSearchWithoutPair(p, t[1..]);
    }
  }

  /** The wildcard example of the filter: `OC*` keeps "felt OCD today". */
  lemma WildcardExample()
    ensures Search("OC*", "felt OCD today")
  {
    var t := "felt OCD today";
    assert t[5..] == "OCD today";
    var u := t[5..];
    assert MatchPrefix("*", u[2..]);
    assert MatchPrefix("C*", u[1..]);
    assert MatchPrefix("OC*", u);
    SearchAt("OC*", t, 5);
  }
}
