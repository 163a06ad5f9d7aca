/** The few .NET string operations the core relies on, with ordinal
    (character by character) comparison throughout. */
module Text {
  import opened Errors

  /** `s.EndsWith(suffix, StringComparison.Ordinal)`. */
  function EndsWith(s: string, suffix: string): (r: bool)
    ensures r <==> exists w :: w + suffix == s
  {
    if |suffix| <= |s| && s[|s| - |suffix|..] == suffix then
      assert s[..|s| - |suffix|] + suffix == s;
      true
    else
      false
  }

  /** `pat` occurs in `s` starting at index `i`. */
  predicate OccursAt(s: string, pat: string, i: nat) {
    i + |pat| <= |s| && s[i..i + |pat|] == pat
  }

  /** `s.Replace(pat, rep)`: scans left to right and replaces every
      non-overlapping occurrence of `pat`. The library rejects an empty
      `pat`; every caller here passes a non-empty constant. */
  function Replace(s: string, pat: string, rep: string): (r: string)
    requires pat != []
    ensures (forall i :: 0 <= i < |s| ==> !OccursAt(s, pat, i)) ==> r == s
    decreases |s|
  {
    if |s| < |pat| then s
    else if s[..|pat|] == pat then
      assert OccursAt(s, pat, 0);
      rep + Replace(s[|pat|..], pat, rep)
    else
      OccursInTail(s, pat);
      [s[0]] + Replace(s[1..], pat, rep)
  }

  /** A prefix in which no occurrence of `pat` starts is copied unchanged. */
  lemma {:induction false} ReplaceSkipsPrefix(w: string, t: string, pat: string, rep: string)
    requires pat != []
    requires forall i :: 0 <= i < |w| ==> !OccursAt(w + t, pat, i)
    ensures Replace(w + t, pat, rep) == w + Replace(t, pat, rep)
  {
    if w != [] {
      var s := w + t;
      if |s| >= |pat| {
        assert !OccursAt(s, pat, 0);
        assert s[1..] == w[1..] + t;
        forall i | 0 <= i < |w[1..]|
          ensures !OccursAt(w[1..] + t, pat, i)
        {
          assert !OccursAt(s, pat, i + 1);
          if i + |pat| <= |w[1..] + t| {
            assert (w[1..] + t)[i..i + |pat|] == s[i + 1..i + 1 + |pat|];
          }
        }
        ReplaceSkipsPrefix(w[1..], t, pat, rep);
        assert s == [w[0]] + (w[1..] + t);
      } else {
        assert Replace(t, pat, rep) == t;
      }
    } else {
      assert w + t == t;
    }
  }

  /** When the only occurrence of `pat` in `s` is its suffix, that suffix
      is replaced and nothing else changes. */
  lemma ReplaceSoleSuffix(s: string, pat: string, rep: string)
    requires pat != [] && EndsWith(s, pat)
    requires forall i :: 0 <= i < |s| - |pat| ==> !OccursAt(s, pat, i)
    ensures Replace(s, pat, rep) == s[..|s| - |pat|] + rep
  {
    var w := s[..|s| - |pat|];
    assert s == w + pat;
    ReplaceSkipsPrefix(w, pat, pat, rep);
    assert pat[..|pat|] == pat && pat[|pat|..] == [];
    assert Replace(pat, pat, rep) == rep + Replace([], pat, rep);
  }

  /** A prefix of the result free of `rep[0]` was copied from the input:
      no replacement took place inside it. */
  lemma {:induction false} ReplacedPrefix(t: string, pat: string, rep: string, q: string)
    requires pat != [] && rep != []
    requires |q| <= |Replace(t, pat, rep)| && Replace(t, pat, rep)[..|q|] == q
    requires forall k :: 0 <= k < |q| ==> q[k] != rep[0]
    ensures |q| <= |t| && t[..|q|] == q
    decreases |t|
  {
    if q != [] && |t| >= |pat| {
      assert Replace(t, pat, rep)[0] == q[0] != rep[0];
      ReplaceHead(t, pat, rep);
      var r' := Replace(t[1..], pat, rep);
      assert Replace(t, pat, rep) == [t[0]] + r';
      assert r'[..|q| - 1] == q[1..];
      ReplacedPrefix(t[1..], pat, rep, q[1..]);
      assert t == [t[0]] + t[1..];
    }
  }

  /** When `pat` starts `t`, the result starts with `rep`. */
  lemma ReplaceHead(t: string, pat: string, rep: string)
    requires pat != []
    ensures |t| >= |pat| && t[..|pat|] == pat ==>
              Replace(t, pat, rep) == rep + Replace(t[|pat|..], pat, rep)
  {
  }

  /** Replace leaves no occurrence of `pat` behind, provided the
      replacement cannot take part in forming one: `pat[0]` does not occur
      in `rep`, and `rep[0]` does not occur in `pat`. */
  lemma {:induction false} ReplaceRemovesEvery(s: string, pat: string, rep: string, i: nat)
    requires pat != [] && rep != []
    requires forall k :: 0 <= k < |rep| ==> rep[k] != pat[0]
    requires forall k :: 0 <= k < |pat| ==> pat[k] != rep[0]
    ensures !OccursAt(Replace(s, pat, rep), pat, i)
    decreases |s|
  {
    var r := Replace(s, pat, rep);
    if |s| < |pat| {
    } else if s[..|pat|] == pat {
      var r' := Replace(s[|pat|..], pat, rep);
      assert r == rep + r';
      if i < |rep| {
        assert r[i] == rep[i];
      } else {
        ReplaceRemovesEvery(s[|pat|..], pat, rep, i - |rep|);
        OccursAtShift(rep, r', pat, i - |rep|);
      }
    } else {
      var r' := Replace(s[1..], pat, rep);
      assert r == [s[0]] + r';
      if i == 0 {
        if OccursAt(r, pat, 0) {
          assert r'[..|pat| - 1] == pat[1..];
          ReplacedPrefix(s[1..], pat, rep, pat[1..]);
          assert false;
        }
      } else {
        ReplaceRemovesEvery(s[1..], pat, rep, i - 1);
        OccursAtShift([s[0]], r', pat, i - 1);
      }
    }
  }

  /** Occurrences in `b` are occurrences in `a + b`, shifted by `|a|`. */
  lemma OccursAtShift(a: string, b: string, pat: string, i: nat)
    ensures OccursAt(a + b, pat, |a| + i) <==> OccursAt(b, pat, i)
  {
    if i + |pat| <= |b| {
      assert (a + b)[|a| + i..|a| + i + |pat|] == b[i..i + |pat|];
    }
  }

  /** An occurrence in `s[1..]` is an occurrence in `s`, one place on. */
  lemma OccursInTail(s: string, pat: string)
    requires s != []
    ensures forall i :: 0 <= i < |s| - 1 && OccursAt(s[1..], pat, i) ==> OccursAt(s, pat, i + 1)
    ensures [s[0]] + s[1..] == s
  {
    forall i | 0 <= i < |s| - 1 && OccursAt(s[1..], pat, i)
      ensures OccursAt(s, pat, i + 1)
    {
      assert [s[0]] + s[1..] == s;
      OccursAtShift([s[0]], s[1..], pat, i);
    }
  }

  /** `s.TrimEnd(c)`: removes every trailing `c`. The contract pins the
      result down: the longest prefix of `s` that does not end in `c` and
      after which only copies of `c` follow. */
  function TrimEnd(s: string, c: char): (r: string)
    ensures |r| <= |s| && r == s[..|r|]
    ensures r == [] || r[|r| - 1] != c
    ensures forall i :: |r| <= i < |s| ==> s[i] == c
    decreases |s|
  {
    if s != [] && s[|s| - 1] == c then TrimEnd(s[..|s| - 1], c) else s
  }

  /** One more trailing `c` is trimmed away with the rest. */
  lemma TrimEndAppended(s: string, c: char)
    ensures TrimEnd(s + [c], c) == TrimEnd(s, c)
  {
    assert (s + [c])[..|s|] == s;
  }

  /** A string that does not end in `c` is its own trimming. */
  lemma TrimEndUntouched(s: string, c: char)
    requires s == [] || s[|s| - 1] != c
    ensures TrimEnd(s, c) == s
  {
  }

  /** `char.IsWhiteSpace`: the Unicode space separators, the line and
      paragraph separators, U+0009 to U+000D and U+0085. */
  function IsWhiteSpace(c: char): (r: bool)
    ensures c == ' ' || '\t' <= c <= '\r' ==> r
    ensures '!' <= c <= '~' ==> !r
  {
    || c == ' '
    || '\t' <= c <= '\r'
    || c == '\U{85}'
    || c == '\U{A0}'
    || c == '\U{1680}'
    || '\U{2000}' <= c <= '\U{200A}'
    || c == '\U{2028}'
    || c == '\U{2029}'
    || c == '\U{202F}'
    || c == '\U{205F}'
    || c == '\U{3000}'
  }

  /** `string.IsNullOrWhiteSpace`: null, empty, or white space only. */
  function IsNullOrWhiteSpace(value: Option<string>): (r: bool)
    ensures value == Some([]) ==> r
    ensures r <==> value.None? || forall c :: c in value.value ==> IsWhiteSpace(c)
  {
    value.None? || forall i :: 0 <= i < |value.value| ==> IsWhiteSpace(value.value[i])
  }
}
