/**
 * The handful of Python `str` operations the application relies on, over
 * `string` (a sequence of Unicode scalar values): whitespace as Python
 * defines it, `strip()`, `split()` with no argument, substring search
 * (`in`, `split(sep, 1)`) and `lower()`.
 */
module Text {
  import opened Wrappers

  /** Python's `str.isspace()` on one character: the characters that
      `strip()` and `split()` without arguments treat as whitespace. */
  predicate IsSpace(c: char) {
    ('\t' <= c <= '\r') || ('\U{1C}' <= c <= '\U{1F}') || c == ' ' ||
    c == '\U{85}' || c == '\U{A0}' || c == '\U{1680}' ||
    ('\U{2000}' <= c <= '\U{200A}') || c == '\U{2028}' || c == '\U{2029}' ||
    c == '\U{202F}' || c == '\U{205F}' || c == '\U{3000}'
  }

  predicate AllSpace(s: string) {
    forall i :: 0 <= i < |s| ==> IsSpace(s[i])
  }

  predicate NoSpace(s: string) {
    forall i :: 0 <= i < |s| ==> !IsSpace(s[i])
  }

  /** Neither starts nor ends with whitespace. */
  predicate IsStripped(s: string) {
    s == [] || (!IsSpace(s[0]) && !IsSpace(s[|s| - 1]))
  }

  // ---------------------------------------------------------------- strip()

  /** Python's `str.lstrip()`: drops the leading whitespace. */
  function TrimStart(s: string): (r: string)
    ensures |r| <= |s| && r == s[|s| - |r|..]
    ensures r == [] || !IsSpace(r[0])
  {
    if s != [] && IsSpace(s[0]) then TrimStart(s[1..]) else s
  }

  /** Everything `lstrip()` drops is whitespace. */
  lemma {:induction false} TrimStartDropsSpace(s: string)
    ensures forall k :: 0 <= k < |s| - |TrimStart(s)| ==> IsSpace(s[k])
    decreases |s|
  {
    if s != [] && IsSpace(s[0]) {
      TrimStartDropsSpace(s[1..]);
      forall k | 1 <= k < |s| - |TrimStart(s)|
        ensures IsSpace(s[k])
      {
        assert s[k] == s[1..][k - 1];
      }
    }
  }

  /** Python's `str.rstrip()`: drops the trailing whitespace. */
  function TrimEnd(s: string): (r: string)
    ensures |r| <= |s| && r == s[..|r|]
    ensures r == [] || !IsSpace(r[|r| - 1])
  {
    if s != [] && IsSpace(s[|s| - 1]) then TrimEnd(s[..|s| - 1]) else s
  }

  /** Everything `rstrip()` drops is whitespace. */
  lemma {:induction false} TrimEndDropsSpace(s: string)
    ensures forall k :: |TrimEnd(s)| <= k < |s| ==> IsSpace(s[k])
    decreases |s|
  {
    if s != [] && IsSpace(s[|s| - 1]) {
      TrimEndDropsSpace(s[..|s| - 1]);
      forall k | |TrimEnd(s)| <= k < |s| - 1
        ensures IsSpace(s[k])
      {
        assert s[k] == s[..|s| - 1][k];
      }
    }
  }

  /** Python's `str.strip()`: drops the whitespace at both ends. */
  function Strip(s: string): (r: string)
    ensures IsStripped(r)
    ensures IsStripped(s) ==> r == s
  {
    var t := TrimStart(s);
    var r := TrimEnd(t);
    assert r != [] ==> r[0] == t[0];
    assert IsStripped(s) ==> t == s;
    assert IsStripped(s) ==> r == s;
    r
  }

  /** Where `s.strip()` starts in `s`. */
  function StripStart(s: string): (i: nat)
    ensures i <= |s|
  {
    |s| - |TrimStart(s)|
  }

  /** `s.strip()` is the slice of `s` that starts at `StripStart(s)`. */
  lemma StripIsSlice(s: string)
    ensures StripStart(s) + |Strip(s)| <= |s|
    ensures s[StripStart(s)..StripStart(s) + |Strip(s)|] == Strip(s)
  {
    var t := TrimStart(s);
    var r := TrimEnd(t);
    assert Strip(s) == r;
    SliceOfSuffix(s, |s| - |t|, |r|);
  }

  /** Everything `strip()` drops, before and after the slice, is whitespace. */
  lemma StripDropsOnlySpace(s: string)
    ensures forall k :: 0 <= k < StripStart(s) ==> IsSpace(s[k])
    ensures forall k :: StripStart(s) + |Strip(s)| <= k < |s| ==> IsSpace(s[k])
  {
    var t := TrimStart(s);
    var r := TrimEnd(t);
    assert Strip(s) == r;
    var i := |s| - |t|;
    TrimStartDropsSpace(s);
    TrimEndDropsSpace(t);
    forall k | i + |r| <= k < |s|
      ensures IsSpace(s[k])
    {
      assert s[k] == t[k - i];
    }
  }

  /** Taking `n` characters of `s[i..]` is slicing `s` from `i` to `i + n`. */
  lemma SliceOfSuffix(s: string, i: nat, n: nat)
    requires i + n <= |s|
    ensures s[i..][..n] == s[i..i + n]
  {
  }

  // ------------------------------------------------------ substring search

  /** `pat` occurs in `s` starting at index `i`. */
  predicate OccursAt(s: string, pat: string, i: nat) {
    i + |pat| <= |s| && s[i..i + |pat|] == pat
  }

  /** The first occurrence of `pat` in `s` at or after index `k`. */
  function FindFrom(s: string, pat: string, k: nat): (r: Option<nat>)
    decreases |s| - k
    ensures r.Some? ==> k <= r.value && OccursAt(s, pat, r.value)
    ensures forall j: nat :: k <= j && (r.None? || j < r.value) ==> !OccursAt(s, pat, j)
  {
    if k + |pat| > |s| then None
    else if s[k..k + |pat|] == pat then Some(k)
    else FindFrom(s, pat, k + 1)
  }

  /** Python's `str.find`: the leftmost occurrence of `pat` in `s`, if any. */
  function Find(s: string, pat: string): (r: Option<nat>)
    ensures r.Some? ==> OccursAt(s, pat, r.value)
    ensures forall j: nat :: (r.None? || j < r.value) ==> !OccursAt(s, pat, j)
  {
    FindFrom(s, pat, 0)
  }

  /** Python's `pat in s`. */
  predicate Contains(s: string, pat: string) {
    Find(s, pat).Some?
  }

  /** `s.strip()` keeps every occurrence of a pattern that begins and ends
      with a non-whitespace character. */
  lemma StripKeepsOccurrence(s: string, pat: string, p: nat)
    requires OccursAt(s, pat, p) && pat != []
    requires !IsSpace(pat[0]) && !IsSpace(pat[|pat| - 1])
    ensures Contains(Strip(s), pat)
  {
    var q := p + |pat|;
    assert s[p] == pat[0] && s[q - 1] == pat[|pat| - 1] by {
      assert s[p..q][0] == s[p] && s[p..q][|pat| - 1] == s[q - 1];
    }
    StripKeepsNonSpace(s, p, q - 1);
    StripIsSlice(s);
    ContainsWithin(s, Strip(s), pat, StripStart(s), p);
  }

  /** Non-whitespace characters at `p` and `l` lie within the slice that
      `s.strip()` keeps. */
  lemma StripKeepsNonSpace(s: string, p: nat, l: nat)
    requires p <= l < |s| && !IsSpace(s[p]) && !IsSpace(s[l])
    ensures StripStart(s) <= p && l < StripStart(s) + |Strip(s)|
  {
    StripIsSlice(s);
    StripDropsOnlySpace(s);
  }

  /** An occurrence of `pat` in `s` inside the slice `r == s[i..i + |r|]` is
      an occurrence in `r`. */
  lemma ContainsWithin(s: string, r: string, pat: string, i: nat, p: nat)
    requires i <= p && p + |pat| <= i + |r| <= |s| && r == s[i..i + |r|]
    requires s[p..p + |pat|] == pat
    ensures Contains(r, pat)
  {
    var w := r[p - i..p - i + |pat|];
    forall k | 0 <= k < |pat|
      ensures w[k] == pat[k]
    {
      assert w[k] == r[p - i + k] == s[p + k] == s[p..p + |pat|][k];
    }
    assert OccursAt(r, pat, p - i);
  }

  /** An occurrence at or after `start` is an occurrence in `s[start..]`. */
  lemma OccursInSuffix(s: string, pat: string, start: nat, j: nat)
    requires start <= j && OccursAt(s, pat, j)
    ensures OccursAt(s[start..], pat, j - start)
  {
    assert s[start..][j - start..j - start + |pat|] == s[j..j + |pat|];
  }

  /** Inside an occurrence: `pat` without its first and last character
      occurs one position further on. */
  lemma OccursAtInner(s: string, pat: string, q: nat)
    requires OccursAt(s, pat, q) && 2 < |pat|
    ensures OccursAt(s, pat[1..|pat| - 1], q + 1)
  {
    var a := s[q + 1..q + |pat| - 1];
    var b := pat[1..|pat| - 1];
    forall k | 0 <= k < |a|
      ensures a[k] == b[k]
    {
      assert s[q..q + |pat|][k + 1] == s[q + 1 + k];
    }
    assert a == b;
  }

  /** An occurrence of `pat` whose inner part, without its first and last
      character, starts at or after `start`, and whose second and
      second-to-last characters are not whitespace, keeps that inner part
      through `s[start..].strip()`. */
  lemma StripKeepsInnerOccurrence(s: string, pat: string, start: nat, j: nat)
    requires start <= j + 1 && OccursAt(s, pat, j) && 2 < |pat|
    requires !IsSpace(pat[1]) && !IsSpace(pat[|pat| - 2])
    ensures Contains(Strip(s[start..]), pat[1..|pat| - 1])
  {
    var inner := pat[1..|pat| - 1];
    assert inner[0] == pat[1] && inner[|inner| - 1] == pat[|pat| - 2];
    OccursAtInner(s, pat, j);
    OccursInSuffix(s, inner, start, j + 1);
    StripKeepsOccurrence(s[start..], inner, j + 1 - start);
  }

  /** The parts before and after the middle of `a + m + b`. */
  lemma AroundMiddle(a: string, m: string, b: string)
    ensures (a + m + b)[..|a|] == a && (a + m + b)[|a| + |m|..] == b
  {
  }

  /** Text ends with `suffix`. */
  predicate EndsWith(s: string, suffix: string) {
    |suffix| <= |s| && s[|s| - |suffix|..] == suffix
  }

  /** In `e + pat + c` the first occurrence of `pat` is the one after `e`
      when `e` holds no `pat`, `e` does not end with `pat` short of its last
      character, and `pat` repeats its first character only at its end. */
  lemma FirstOccurrenceAfter(e: string, pat: string, c: string)
    requires pat != []
    requires forall d :: 1 <= d < |pat| - 1 ==> pat[d] != pat[0]
    requires !Contains(e, pat) && !EndsWith(e, pat[..|pat| - 1])
    ensures OccursAt(e + pat + c, pat, |e|)
    ensures forall j: nat :: j < |e| ==> !OccursAt(e + pat + c, pat, j)
  {
    var s := e + pat + c;
    assert s[|e|..|e| + |pat|] == pat;
    forall j: nat | j < |e|
      ensures !OccursAt(s, pat, j)
    {
      if j + |pat| <= |e| {
        assert !OccursAt(e, pat, j);
        assert s[j..j + |pat|] == e[j..j + |pat|];
      } else {
        var d := |e| - j;
        var w := s[j..j + |pat|];
        if d < |pat| - 1 {
          assert w[d] == s[|e|] == pat[0] != pat[d];
        } else {
          assert w[..d] == s[j..|e|] == e[|e| - d..] != pat[..d];
        }
      }
    }
  }

  // ---------------------------------------------------------------- lower()

  /** Python's `str.lower()` on one character, exact on ASCII and Latin-1. */
  function LowerChar(c: char): char {
    if 'A' <= c <= 'Z' || ('\U{C0}' <= c <= '\U{DE}' && c != '\U{D7}') then (c as int + 32) as char else c
  }

  /** Python's `str.lower()`, character by character. */
  function Lower(s: string): (r: string)
    ensures |r| == |s|
  {
    seq(|s|, i requires 0 <= i < |s| => LowerChar(s[i]))
  }

  /** Lowering a slice is slicing the lowered text. */
  lemma LowerSlice(s: string, i: nat, j: nat)
    requires i <= j <= |s|
    ensures Lower(s)[i..j] == Lower(s[i..j])
  {
  }

  // ---------------------------------------------------------------- split()

  /** The longest whitespace-free prefix of `s`. */
  function WordPrefix(s: string): (w: string)
    ensures |w| <= |s| && w == s[..|w|] && NoSpace(w)
    ensures |w| == |s| || IsSpace(s[|w|])
  {
    if s == [] || IsSpace(s[0]) then [] else [s[0]] + WordPrefix(s[1..])
  }

  /** Python's `str.split()` with no argument: the maximal runs of
      non-whitespace characters, in order. */
  function Words(s: string): (ws: seq<string>)
    decreases |s|
    ensures |ws| <= |s|
    ensures |ws| == 0 <==> AllSpace(s)
    ensures forall k :: 0 <= k < |ws| ==> ws[k] != [] && NoSpace(ws[k])
  {
    if s == [] then
      []
    else if IsSpace(s[0]) then
      var ws := Words(s[1..]);
      assert AllSpace(s[1..]) ==> AllSpace(s) by {
        if AllSpace(s[1..]) {
          forall i | 0 < i < |s|
            ensures IsSpace(s[i])
          {
            assert s[i] == s[1..][i - 1];
          }
        }
      }
      ws
    else
      var w := WordPrefix(s);
      var rest := Words(s[|w|..]);
      assert w != [] by {
        assert |w| == |s| || IsSpace(s[|w|]);
      }
      var ws := [w] + rest;
      assert forall k :: 1 <= k < |ws| ==> ws[k] == rest[k - 1];
      ws
  }

  /** Where `split()` cuts: the first word is the first run of
      non-whitespace after the leading whitespace, and the words of what
      follows it come next. With the text always getting shorter, this fixes
      every word boundary. */
  lemma {:induction false} WordsSplitFirst(s: string)
    ensures var t := TrimStart(s);
      Words(s) == if t == [] then [] else [WordPrefix(t)] + Words(t[|WordPrefix(t)|..])
    decreases |s|
  {
    if s != [] && IsSpace(s[0]) {
      WordsSplitFirst(s[1..]);
    }
  }

  /** An independent count of the words: the positions holding a
      non-whitespace character that opens the text or follows whitespace. */
  function RunStarts(s: string, afterSpace: bool): nat {
    if s == [] then 0
    else (if afterSpace && !IsSpace(s[0]) then 1 else 0) + RunStarts(s[1..], IsSpace(s[0]))
  }

  lemma {:induction false} RunStartsInsideWord(t: string)
    ensures RunStarts(t, false) == RunStarts(t[|WordPrefix(t)|..], true)
    decreases |t|
  {
    if t != [] && !IsSpace(t[0]) {
      RunStartsInsideWord(t[1..]);
      assert t[|WordPrefix(t)|..] == t[1..][|WordPrefix(t[1..])|..];
    }
  }

  /** `len(s.split())` is the number of maximal non-whitespace runs. */
  lemma {:induction false} WordsCountRuns(s: string)
    ensures |Words(s)| == RunStarts(s, true)
    decreases |s|
  {
    if s == [] {
    } else if IsSpace(s[0]) {
      WordsCountRuns(s[1..]);
    } else {
      var w := WordPrefix(s);
      var rest := s[|w|..];
      assert rest == s[1..][|WordPrefix(s[1..])|..];
      WordsCountRuns(rest);
      RunStartsInsideWord(s[1..]);
    }
  }

  /** The non-whitespace characters of `s`, in order. */
  function NonSpace(s: string): string {
    if s == [] then [] else (if IsSpace(s[0]) then [] else [s[0]]) + NonSpace(s[1..])
  }

  function Concat(ws: seq<string>): string {
    if ws == [] then [] else ws[0] + Concat(ws[1..])
  }

  lemma {:induction false} NonSpaceAppend(p: string, q: string)
    ensures NonSpace(p + q) == NonSpace(p) + NonSpace(q)
    decreases |p|
  {
    if p == [] {
      assert p + q == q;
    } else {
      NonSpaceAppend(p[1..], q);
      var h := if IsSpace(p[0]) then [] else [p[0]];
      assert (p + q)[0] == p[0] && (p + q)[1..] == p[1..] + q;
      assert NonSpace(p + q) == h + NonSpace(p[1..] + q);
      assert NonSpace(p) == h + NonSpace(p[1..]);
    }
  }

  lemma {:induction false} NonSpaceOfWord(s: string)
    requires NoSpace(s)
    ensures NonSpace(s) == s
    decreases |s|
  {
    if s != [] {
      NonSpaceOfWord(s[1..]);
    }
  }

  /** Joining the words of `s.split()` gives back every non-whitespace
      character of `s`, in order: splitting loses only whitespace. */
  lemma {:induction false} WordsKeepText(s: string)
    ensures Concat(Words(s)) == NonSpace(s)
    decreases |s|
  {
    if s == [] {
    } else if IsSpace(s[0]) {
      WordsKeepText(s[1..]);
    } else {
      var w := WordPrefix(s);
      var rest := s[|w|..];
      assert s == w + rest;
      NonSpaceAppend(w, rest);
      NonSpaceOfWord(w);
      WordsKeepText(rest);
      var ws := [w] + Words(rest);
      assert Words(s) == ws;
      assert ws[1..] == Words(rest);
    }
  }
}
