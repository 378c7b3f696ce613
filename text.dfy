/**
 * Character classes and string helpers standing in for the Python built-ins
 * the scraper uses (`str.isdigit`, `str.strip`, `str.upper`, `str.title`,
 * `str.replace`, `int`). Digits and letters are restricted to ASCII; the
 * whitespace class is exactly the set of characters for which Python's
 * `str.isspace` holds, which is also what `\s` and `str.split()` use.
 */
module Text {
  import opened Wrappers


  predicate IsDigit(c: char) {
    '0' <= c <= '9'
  }

  predicate AllDigits(s: string) {
    forall i :: 0 <= i < |s| ==> IsDigit(s[i])
  }

  function DigitValue(c: char): (d: nat)
    requires IsDigit(c)
    ensures d < 10
  {
    c as int - '0' as int
  }

  /** `int(s)` for a string of ASCII digits (most significant first). */
  function Value(s: string): nat
    requires AllDigits(s)
  {
    if s == [] then 0 else Value(s[..|s| - 1]) * 10 + DigitValue(s[|s| - 1])
  }

  lemma ValueSnoc(s: string, c: char)
    requires AllDigits(s) && IsDigit(c)
    ensures AllDigits(s + [c]) && Value(s + [c]) == Value(s) * 10 + DigitValue(c)
  {
    assert (s + [c])[..|s|] == s;
  }

  /** Python's `str.isspace`. */
  predicate IsSpace(c: char) {
    ('\t' <= c <= '\r') || ('\U{1C}' <= c <= ' ') || c == '\U{85}' || c == '\U{A0}'
    || c == '\U{1680}' || ('\U{2000}' <= c <= '\U{200A}') || c == '\U{2028}' || c == '\U{2029}'
    || c == '\U{202F}' || c == '\U{205F}' || c == '\U{3000}'
  }

  predicate IsLower(c: char) {
    'a' <= c <= 'z'
  }

  predicate IsUpper(c: char) {
    'A' <= c <= 'Z'
  }

  predicate IsLetter(c: char) {
    IsLower(c) || IsUpper(c)
  }

  function UpperChar(c: char): char {
    if IsLower(c) then (c as int - 32) as char else c
  }

  function LowerChar(c: char): char {
    if IsUpper(c) then (c as int + 32) as char else c
  }

  /** `str.upper()`. */
  function Upper(s: string): (r: string)
    ensures |r| == |s|
    ensures forall i :: 0 <= i < |s| ==> r[i] == UpperChar(s[i])
  {
    if s == [] then [] else [UpperChar(s[0])] + Upper(s[1..])
  }

  /** `str.lower()`. */
  function Lower(s: string): (r: string)
    ensures |r| == |s|
    ensures forall i :: 0 <= i < |s| ==> r[i] == LowerChar(s[i])
  {
    if s == [] then [] else [LowerChar(s[0])] + Lower(s[1..])
  }

  /**
   * `str.title()`: a letter is upper-cased when the character before it is
   * not a letter and lower-cased otherwise; `afterLetter` says whether the
   * character before `s` was a letter.
   */
  function TitleFrom(s: string, afterLetter: bool): (r: string)
    ensures |r| == |s|
    ensures forall i :: 0 <= i < |s| ==>
      r[i] == if (if i == 0 then afterLetter else IsLetter(s[i - 1])) then LowerChar(s[i]) else UpperChar(s[i])
  {
    if s == [] then []
    else [if afterLetter then LowerChar(s[0]) else UpperChar(s[0])] + TitleFrom(s[1..], IsLetter(s[0]))
  }

  function Title(s: string): string {
    TitleFrom(s, false)
  }

  predicate StartsWith(s: string, prefix: string) {
    |prefix| <= |s| && s[..|prefix|] == prefix
  }

  predicate OccursAt(s: string, part: string, i: int) {
    0 <= i <= |s| - |part| && s[i..i + |part|] == part
  }

  predicate Contains(s: string, part: string) {
    exists i :: 0 <= i <= |s| && OccursAt(s, part, i)
  }

  /** The characters of `s` that satisfy `keep`, in order. */
  function Filter(s: string, keep: char -> bool): (r: string)
    ensures |r| <= |s|
    ensures forall i :: 0 <= i < |r| ==> keep(r[i])
  {
    if s == [] then [] else Filter(s[..|s| - 1], keep) + (if keep(s[|s| - 1]) then [s[|s| - 1]] else [])
  }

  /** `s.replace(pat, rep)`: every non-overlapping occurrence, scanning left to right. */
  function ReplaceAll(s: string, pat: string, rep: string): string
    requires |pat| > 0
  {
    if |s| < |pat| then s
    else if s[..|pat|] == pat then rep + ReplaceAll(s[|pat|..], pat, rep)
    else [s[0]] + ReplaceAll(s[1..], pat, rep)
  }

  function TrimStart(s: string): (r: string)
    ensures |r| <= |s| && r == s[|s| - |r|..]
    ensures r == [] || !IsSpace(r[0])
    ensures forall i :: 0 <= i < |s| - |r| ==> IsSpace(s[i])
  {
    if s != [] && IsSpace(s[0]) then TrimStart(s[1..]) else s
  }

  function TrimEnd(s: string): (r: string)
    ensures |r| <= |s| && r == s[..|r|]
    ensures r == [] || !IsSpace(r[|r| - 1])
    ensures forall i :: |r| <= i < |s| ==> IsSpace(s[i])
  {
    if s != [] && IsSpace(s[|s| - 1]) then TrimEnd(s[..|s| - 1]) else s
  }

  /** `str.strip()` with no argument. */
  function Strip(s: string): (r: string)
    ensures r == [] || (!IsSpace(r[0]) && !IsSpace(r[|r| - 1]))
  {
    TrimEnd(TrimStart(s))
  }

  /** The first position, from `k` on, whose element satisfies `p`. */
  function FirstWhere<T>(xs: seq<T>, k: nat, p: T -> bool): (r: Option<nat>)
    requires k <= |xs|
    ensures r.Some? ==> k <= r.value < |xs| && p(xs[r.value])
    ensures r.Some? ==> forall j :: k <= j < r.value ==> !p(xs[j])
    ensures r.None? ==> forall j :: k <= j < |xs| ==> !p(xs[j])
    decreases |xs| - k
  {
    if k == |xs| then None
    else if p(xs[k]) then Some(k)
    else FirstWhere(xs, k + 1, p)
  }

  /** The first position in `[k, n)` that satisfies `p`: a left-to-right scan. */
  function FirstIndex(k: nat, n: nat, p: int -> bool): (r: Option<nat>)
    requires k <= n
    ensures r.Some? ==> k <= r.value < n && p(r.value)
    ensures r.Some? ==> forall j :: k <= j < r.value ==> !p(j)
    ensures r.None? ==> forall j :: k <= j < n ==> !p(j)
    decreases n - k
  {
    if k == n then None
    else if p(k) then Some(k)
    else FirstIndex(k + 1, n, p)
  }

  function Pow10(n: nat): (r: nat)
    ensures r >= 1
  {
    if n == 0 then 1 else 10 * Pow10(n - 1)
  }

  // ---------------------------------------------------------------------
  // Facts about the helpers
  // ---------------------------------------------------------------------

  lemma {:induction false} FilterAppend(a: string, b: string, keep: char -> bool)
    ensures Filter(a + b, keep) == Filter(a, keep) + Filter(b, keep)
  {
    if b == [] {
      assert a + b == a;
    } else {
      assert (a + b)[..|a + b| - 1] == a + b[..|b| - 1];
      FilterAppend(a, b[..|b| - 1], keep);
    }
  }

  lemma FilterSnoc(s: string, c: char, keep: char -> bool)
    ensures Filter(s + [c], keep) == Filter(s, keep) + (if keep(c) then [c] else [])
  {
    assert (s + [c])[..|s|] == s;
  }

  lemma {:induction false} FilterAll(s: string, keep: char -> bool)
    requires forall i :: 0 <= i < |s| ==> keep(s[i])
    ensures Filter(s, keep) == s
  {
    if s != [] {
      FilterAll(s[..|s| - 1], keep);
    }
  }

  lemma {:induction false} FilterNone(s: string, keep: char -> bool)
    requires forall i :: 0 <= i < |s| ==> !keep(s[i])
    ensures Filter(s, keep) == []
  {
    if s != [] {
      FilterNone(s[..|s| - 1], keep);
    }
  }

  lemma {:induction false} ReplaceAllAbsent(s: string, pat: string, rep: string)
    requires |pat| > 0
    requires forall i :: 0 <= i < |s| ==> s[i] != pat[0]
    ensures ReplaceAll(s, pat, rep) == s
  {
    if |s| >= |pat| {
      assert s[..|pat|][0] == s[0];
      ReplaceAllAbsent(s[1..], pat, rep);
    }
  }

  /**
   * Replacing a single character by a string of characters that `keep`
   * rejects is invisible to a filter that rejects that character too.
   */
  lemma {:induction false} FilterReplaceChar(s: string, c: char, rep: string, keep: char -> bool)
    requires !keep(c)
    requires forall i :: 0 <= i < |rep| ==> !keep(rep[i])
    ensures Filter(ReplaceAll(s, [c], rep), keep) == Filter(s, keep)
  {
    if s != [] {
      FilterReplaceChar(s[1..], c, rep, keep);
      assert s == [s[0]] + s[1..];
      FilterAppend([s[0]], s[1..], keep);
      assert Filter([s[0]], keep) == if keep(s[0]) then [s[0]] else [] by {
        assert [s[0]][..0] == [];
      }
      if s[..1] == [c] {
        FilterAppend(rep, ReplaceAll(s[1..], [c], rep), keep);
        assert Filter(rep, keep) == [] by {
          if Filter(rep, keep) != [] {
            FilterMember(rep, keep, 0);
          }
        }
      } else {
        FilterAppend([s[0]], ReplaceAll(s[1..], [c], rep), keep);
      }
    }
  }

  /** Every character kept by a filter comes from its input. */
  lemma {:induction false} FilterMember(s: string, keep: char -> bool, k: nat)
    requires k < |Filter(s, keep)|
    ensures exists i :: 0 <= i < |s| && s[i] == Filter(s, keep)[k]
  {
    var init := Filter(s[..|s| - 1], keep);
    if k < |init| {
      FilterMember(s[..|s| - 1], keep, k);
      var i :| 0 <= i < |s| - 1 && s[..|s| - 1][i] == init[k];
      assert s[i] == Filter(s, keep)[k];
    } else {
      assert s[|s| - 1] == Filter(s, keep)[k];
    }
  }

  lemma {:induction false} FilterSame(s: string, p: char -> bool, q: char -> bool)
    requires forall i :: 0 <= i < |s| ==> p(s[i]) == q(s[i])
    ensures Filter(s, p) == Filter(s, q)
  {
    if s != [] {
      FilterSame(s[..|s| - 1], p, q);
    }
  }

  lemma {:induction false} FilterOfFilter(s: string, p: char -> bool, q: char -> bool, both: char -> bool)
    requires forall c :: both(c) == (p(c) && q(c))
    ensures Filter(Filter(s, p), q) == Filter(s, both)
  {
    if s != [] {
      FilterOfFilter(s[..|s| - 1], p, q, both);
      var init := Filter(s[..|s| - 1], p);
      var last := s[|s| - 1];
      FilterAppend(init, if p(last) then [last] else [], q);
      if p(last) {
        assert Filter([last], q) == if q(last) then [last] else [] by {
          assert [last][..0] == [];
        }
      }
    }
  }

  lemma UpperTwice(s: string)
    ensures Upper(Upper(s)) == Upper(s)
  {
  }

  /** Title-casing changes letters' case only: upper-casing undoes it. */
  lemma {:induction false} UpperOfTitle(s: string, afterLetter: bool)
    ensures Upper(TitleFrom(s, afterLetter)) == Upper(s)
  {
    if s != [] {
      UpperOfTitle(s[1..], IsLetter(s[0]));
    }
  }

  /** A string of `n` digits denotes a number below 10^n. */
  lemma {:induction false} ValueBelow(s: string)
    requires AllDigits(s)
    ensures Value(s) < Pow10(|s|)
  {
    if s != [] {
      ValueBelow(s[..|s| - 1]);
    }
  }
}
