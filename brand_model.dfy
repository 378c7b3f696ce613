/**
 * Splitting the heading of a lot into a brand and a model
 * (`AuctionParser.split_brand_model` of `parser.py`).
 */
module BrandModel {
  import opened Wrappers
  import opened Text

  /** The brands spelt with more than one word; tried first, in this order. */
  const MultiWordBrands: seq<string> := ["MERCEDES-BENZ", "LAND ROVER", "ALFA ROMEO", "ASTON MARTIN"]

  /** The single-word brands, tried in list order after the multi-word ones. */
  const KnownBrands: seq<string> := [
    "TOYOTA", "NISSAN", "HONDA", "MAZDA", "SUBARU", "MITSUBISHI", "SUZUKI",
    "DAIHATSU", "ISUZU", "LEXUS", "INFINITI", "ACURA", "BMW", "AUDI",
    "VOLKSWAGEN", "VOLVO", "FORD", "CHEVROLET", "HYUNDAI", "KIA", "PEUGEOT",
    "RENAULT", "FIAT", "JEEP", "CHRYSLER", "DODGE", "CADILLAC", "BUICK"
  ]

  /** Every brand entry, in the order the two loops try them. */
  function BrandTable(): seq<string> {
    MultiWordBrands + KnownBrands
  }

  // ---------------------------------------------------------------------
  // Whitespace normalisation
  // ---------------------------------------------------------------------

  /**
   * `re.sub(r'\s+', ' ', s)`: every maximal run of whitespace becomes one
   * ordinary space; `inRun` says whether the character before `s` was
   * whitespace (and so already produced the space).
   */
  function CollapseFrom(s: string, inRun: bool): (r: string)
    ensures OrdinarySpaces(r) && NoDoubleSpace(r)
    ensures inRun && r != [] ==> r[0] != ' '
    ensures s != [] && !IsSpace(s[0]) ==> r != [] && r[0] == s[0]
    ensures !inRun && (s == [] || IsSpace(s[0])) ==> r == [] || r[0] == ' '
  {
    if s == [] then []
    else if IsSpace(s[0]) then
      var rest := CollapseFrom(s[1..], true);
      if inRun then rest
      else
        ConsSpacing(' ', rest);
        [' '] + rest
    else
      var rest := CollapseFrom(s[1..], false);
      ConsSpacing(s[0], rest);
      [s[0]] + rest
  }

  /** Collapsing whitespace keeps the words of the text, in order. */
  lemma {:induction false} CollapseKeepsWords(s: string, inRun: bool)
    ensures Words(CollapseFrom(s, inRun)) == Words(s)
  {
    if s != [] {
      var y := s[1..];
      assert s == [s[0]] + y;
      if IsSpace(s[0]) {
        CollapseKeepsWords(y, true);
        WordsConsSpace(s[0], y);
        WordsConsSpace(' ', CollapseFrom(y, true));
      } else {
        CollapseKeepsWords(y, false);
        WordsConsWord(s[0], CollapseFrom(y, false));
        WordsConsWord(s[0], y);
      }
    }
  }

  function CollapseSpaces(s: string): string {
    CollapseFrom(s, false)
  }

  /** The text as matched: entity replaced, whitespace collapsed, then stripped. */
  function Normalize(text: string): string {
    Strip(CollapseSpaces(ReplaceAll(text, "&nbsp;", " ")))
  }

  /** Whitespace in `c`, if any, is the ordinary space. */
  predicate OrdinarySpace(c: char) {
    IsSpace(c) ==> c == ' '
  }

  predicate OrdinarySpaces(t: string) {
    forall i :: 0 <= i < |t| ==> OrdinarySpace(t[i])
  }

  /** Two ordinary spaces in a row at position `i`. */
  predicate DoubleSpaceAt(s: string, i: int)
    requires 0 <= i < |s| - 1
  {
    s[i] == ' ' && s[i + 1] == ' '
  }

  predicate NoDoubleSpace(t: string) {
    forall i :: 0 <= i < |t| - 1 ==> !DoubleSpaceAt(t, i)
  }

  /** Putting `c` in front keeps the spacing properties unless it doubles a space. */
  lemma ConsSpacing(c: char, rest: string)
    requires OrdinarySpace(c) && OrdinarySpaces(rest) && NoDoubleSpace(rest)
    requires c == ' ' ==> rest == [] || rest[0] != ' '
    ensures OrdinarySpaces([c] + rest) && NoDoubleSpace([c] + rest)
  {
    var r := [c] + rest;
    forall i | 0 <= i < |r| - 1 ensures !DoubleSpaceAt(r, i) {
      if i > 0 {
        assert !DoubleSpaceAt(rest, i - 1);
      }
    }
  }

  /** Single ordinary spaces between non-space characters, none at either end. */
  predicate Normalized(t: string) {
    OrdinarySpaces(t) && NoDoubleSpace(t) && (t == [] || (t[0] != ' ' && t[|t| - 1] != ' '))
  }

  // ---------------------------------------------------------------------
  // Words
  // ---------------------------------------------------------------------

  /** Length of the leading run of non-space characters. */
  function WordEnd(s: string): (n: nat)
    ensures n <= |s|
    ensures forall i :: 0 <= i < n ==> !IsSpace(s[i])
    ensures n < |s| ==> IsSpace(s[n])
    ensures s != [] && !IsSpace(s[0]) ==> n > 0
  {
    if s == [] || IsSpace(s[0]) then 0 else 1 + WordEnd(s[1..])
  }

  /** `str.split()` with no argument: the maximal runs of non-space characters. */
  function Words(s: string): (r: seq<string>)
    ensures AllWords(r)
    decreases |s|
  {
    var t := TrimStart(s);
    if t == [] then []
    else
      var n := WordEnd(t);
      LeadingWord(t);
      var rest := Words(t[n..]);
      ConsWords(t[..n], rest);
      [t[..n]] + rest
  }

  predicate AllWords(words: seq<string>) {
    forall k :: 0 <= k < |words| ==> IsWord(words[k])
  }

  lemma ConsWords(w: string, words: seq<string>)
    requires IsWord(w) && AllWords(words)
    ensures AllWords([w] + words)
  {
    var r := [w] + words;
    forall k | 0 <= k < |r| ensures IsWord(r[k]) {
      if k > 0 {
        assert r[k] == words[k - 1];
      }
    }
  }

  predicate NoSpace(w: string) {
    forall i :: 0 <= i < |w| ==> !IsSpace(w[i])
  }

  /** A word of `str.split()`: non-empty and without whitespace. */
  predicate IsWord(w: string) {
    w != [] && NoSpace(w)
  }

  lemma LeadingWord(t: string)
    requires t != [] && !IsSpace(t[0])
    ensures 0 < WordEnd(t) <= |t| && IsWord(t[..WordEnd(t)])
  {
  }

  /** The words of a text depend only on the text past its leading whitespace. */
  lemma WordsOfSameTrim(a: string, b: string)
    requires TrimStart(a) == TrimStart(b)
    ensures Words(a) == Words(b)
  {
  }

  /** A text that starts with a word: that word, then the words after it. */
  lemma WordsOfWordStart(t: string)
    requires t != [] && !IsSpace(t[0])
    ensures Words(t) == [t[..WordEnd(t)]] + Words(t[WordEnd(t)..])
  {
    assert TrimStart(t) == t;
  }

  /** Whitespace in front of a text adds no word. */
  lemma WordsConsSpace(c: char, s: string)
    requires IsSpace(c)
    ensures Words([c] + s) == Words(s)
  {
    TrimStartCons(c, s);
    WordsOfSameTrim([c] + s, s);
  }

  lemma TrimStartCons(c: char, s: string)
    requires IsSpace(c)
    ensures TrimStart([c] + s) == TrimStart(s)
  {
    assert ([c] + s)[1..] == s;
  }

  /**
   * A non-space character in front of a text starts a word of its own when
   * the text is empty or starts with whitespace, and joins its first word
   * otherwise.
   */
  lemma WordsConsWord(c: char, s: string)
    requires !IsSpace(c)
    ensures s == [] || IsSpace(s[0]) ==> Words([c] + s) == [[c]] + Words(s)
    ensures s != [] && !IsSpace(s[0]) ==>
              Words(s) != [] && Words([c] + s) == [[c] + Words(s)[0]] + Words(s)[1..]
  {
    if s == [] || IsSpace(s[0]) {
      WordAlone(c, s);
    } else {
      WordJoined(c, s);
    }
  }

  lemma WordAlone(c: char, s: string)
    requires !IsSpace(c) && (s == [] || IsSpace(s[0]))
    ensures Words([c] + s) == [[c]] + Words(s)
  {
    var t := [c] + s;
    assert t[1..] == s;
    WordsOfWordStart(t);
    assert WordEnd(t) == 1;
    assert t[..1] == [c];
  }

  lemma WordJoined(c: char, s: string)
    requires !IsSpace(c) && s != [] && !IsSpace(s[0])
    ensures Words(s) != [] && Words([c] + s) == [[c] + Words(s)[0]] + Words(s)[1..]
  {
    var t := [c] + s;
    var m := WordEnd(s);
    var after := Words(s[m..]);
    WordsOfWordStart(s);
    WordEndCons(c, s);
    WordsOfWordStart(t);
    ConsSlices(c, s, m);
    assert ([s[..m]] + after)[1..] == after;
  }

  lemma WordEndCons(c: char, s: string)
    requires !IsSpace(c)
    ensures WordEnd([c] + s) == 1 + WordEnd(s)
  {
    assert ([c] + s)[1..] == s;
  }

  lemma ConsSlices<T>(c: T, s: seq<T>, m: nat)
    requires m <= |s|
    ensures ([c] + s)[..m + 1] == [c] + s[..m] && ([c] + s)[m + 1..] == s[m..]
  {
  }

  /** Leading whitespace adds no word. */
  lemma WordsOfTrimStart(s: string)
    ensures Words(TrimStart(s)) == Words(s)
  {
    var t := TrimStart(s);
    assert TrimStart(t) == t;
    WordsOfSameTrim(t, s);
  }

  /** Trailing whitespace adds no word. */
  lemma {:induction false} WordsOfTrailing(x: string, gap: string)
    requires forall k :: 0 <= k < |gap| ==> IsSpace(gap[k])
    ensures Words(x + gap) == Words(x)
    decreases |x|
  {
    if x == [] {
      assert x + gap == gap;
      assert TrimStart(gap) == [];
      assert Words([]) == [];
    } else {
      var y := x[1..];
      assert x == [x[0]] + y;
      assert x + gap == [x[0]] + (y + gap);
      WordsOfTrailing(y, gap);
      if IsSpace(x[0]) {
        WordsConsSpace(x[0], y + gap);
        WordsConsSpace(x[0], y);
      } else {
        WordsConsWord(x[0], y + gap);
        WordsConsWord(x[0], y);
        if y == [] {
          assert y + gap == gap;
        } else {
          assert (y + gap)[0] == y[0];
        }
      }
    }
  }

  /** `str.strip()` keeps the words of a text. */
  lemma WordsOfStrip(s: string)
    ensures Words(Strip(s)) == Words(s)
  {
    WordsOfTrimStart(s);
    WordsOfTrimEnd(TrimStart(s));
  }

  lemma WordsOfTrimEnd(a: string)
    ensures Words(TrimEnd(a)) == Words(a)
  {
    var b := TrimEnd(a);
    var gap := a[|b|..];
    assert a == b + gap;
    assert forall k :: 0 <= k < |gap| ==> IsSpace(gap[k]) by {
      forall k | 0 <= k < |gap| ensures IsSpace(gap[k]) {
        assert gap[k] == a[|b| + k];
      }
    }
    WordsOfTrailing(b, gap);
  }

  /** `' '.join(words)`. */
  function Join(words: seq<string>): string {
    if words == [] then ""
    else if |words| == 1 then words[0]
    else words[0] + " " + Join(words[1..])
  }

  /** A dash of the class `[\s\-–—]`: hyphen-minus, en dash or em dash. */
  predicate IsDash(c: char) {
    c == '-' || c == '\U{2013}' || c == '\U{2014}'
  }

  /** A character of the class `[\s\-–—]`. */
  predicate IsSeparator(c: char) {
    IsSpace(c) || IsDash(c)
  }

  /** `re.sub(r'^[\s\-–—]+', '', s)`: drop leading whitespace and dashes. */
  function DropSeparators(s: string): (r: string)
    ensures |r| <= |s| && r == s[|s| - |r|..]
    ensures r == [] || !IsSeparator(r[0])
    ensures forall i :: 0 <= i < |s| - |r| ==> IsSeparator(s[i])
  {
    if s != [] && IsSeparator(s[0]) then DropSeparators(s[1..]) else s
  }

  // ---------------------------------------------------------------------
  // The split
  // ---------------------------------------------------------------------

  /**
   * The first entry of `first + second` that `u` starts with: the entries of
   * `first` are tried in order, then those of `second`.
   */
  function FirstPrefix(u: string, first: seq<string>, second: seq<string>): (r: Option<string>)
    ensures r.Some? ==> StartsWith(u, r.value)
    ensures r.Some? ==>
      exists i :: 0 <= i < |first + second| && (first + second)[i] == r.value
        && (forall j :: 0 <= j < i ==> !StartsWith(u, (first + second)[j]))
    ensures r.None? ==> forall j :: 0 <= j < |first + second| ==> !StartsWith(u, (first + second)[j])
  {
    match FirstWhere(first, 0, b => StartsWith(u, b))
    case Some(i) =>
      assert (first + second)[i] == first[i];
      Some(first[i])
    case None =>
      match FirstWhere(second, 0, b => StartsWith(u, b))
      case Some(i) =>
        assert (first + second)[|first| + i] == second[i];
        Some(second[i])
      case None => None
  }

  /** The brand entry `split_brand_model` matches against the upper-cased text. */
  function MatchedBrand(u: string): Option<string> {
    FirstPrefix(u, MultiWordBrands, KnownBrands)
  }

  /** The split when no brand entry matches: the first word, then the rest. */
  function SplitWords(t: string): (string, string) {
    var words := Words(t);
    if |words| == 0 then ("", "")
    else if |words| == 1 then (words[0], "")
    else (words[0], Strip(DropSeparators(Join(words[1..]))))
  }

  /** The split of an already normalised heading `t`. */
  function SplitNormalized(t: string): (r: (string, string))
    ensures r.1 == [] || (!IsSpace(r.1[0]) && !IsSpace(r.1[|r.1| - 1]))
  {
    match MatchedBrand(Upper(t))
    case Some(b) => (Title(b), Strip(t[|b|..]))
    case None => SplitWords(t)
  }

  /** What `split_brand_model` returns for the heading `text`. */
  function SplitBrandModel(text: string): (r: (string, string))
    ensures text == "" ==> r == ("", "")
    ensures r.1 == [] || (!IsSpace(r.1[0]) && !IsSpace(r.1[|r.1| - 1]))
  {
    if text == "" then ("", "") else SplitNormalized(Normalize(text))
  }

  // ---------------------------------------------------------------------
  // Properties
  // ---------------------------------------------------------------------

  /** Normalising leaves single ordinary spaces between words and none at the ends. */
  lemma NormalizeIsNormalized(text: string)
    ensures Normalized(Normalize(text))
  {
    StripCollapsed(CollapseSpaces(ReplaceAll(text, "&nbsp;", " ")));
  }

  /**
   * The cleaned heading is the words of the heading, after the `&nbsp;`
   * replacement, joined with single spaces: the whitespace between them is
   * collapsed and none is left at either end.
   */
  lemma NormalizeIsJoinedWords(text: string)
    ensures Normalize(text) == Join(Words(ReplaceAll(text, "&nbsp;", " ")))
  {
    var c := CollapseSpaces(ReplaceAll(text, "&nbsp;", " "));
    CollapseKeepsWords(ReplaceAll(text, "&nbsp;", " "), false);
    WordsOfStrip(c);
    NormalizeIsNormalized(text);
    JoinWords(Normalize(text));
  }

  lemma StripCollapsed(c: string)
    requires OrdinarySpaces(c) && NoDoubleSpace(c)
    ensures Normalized(Strip(c))
  {
    var a := TrimStart(c);
    SliceSpacing(c, |c| - |a|, |c|);
    assert a == c[|c| - |a|..|c|];
    var b := TrimEnd(a);
    SliceSpacing(a, 0, |b|);
    assert b == a[0..|b|];
  }

  /** A slice keeps the spacing properties of the text it is cut from. */
  lemma SliceSpacing(c: string, lo: nat, hi: nat)
    requires lo <= hi <= |c|
    requires OrdinarySpaces(c) && NoDoubleSpace(c)
    ensures OrdinarySpaces(c[lo..hi]) && NoDoubleSpace(c[lo..hi])
  {
    var d := c[lo..hi];
    forall i | 0 <= i < |d| ensures OrdinarySpace(d[i]) {
      assert d[i] == c[lo + i];
    }
    forall i | 0 <= i < |d| - 1 ensures !DoubleSpaceAt(d, i) {
      assert !DoubleSpaceAt(c, lo + i);
    }
  }

  /** A normalised text whose first word runs to its end is that one word. */
  lemma WordsOfOneWord(t: string)
    requires Normalized(t) && t != [] && WordEnd(t) == |t|
    ensures Words(t) == [t]
  {
    assert TrimStart(t) == t;
    assert t[|t|..] == [];
    assert t[..|t|] == t;
    assert Words([]) == [];
  }

  /** Past its first word, a normalised text has one space and then the rest. */
  lemma WordsStep(t: string)
    requires Normalized(t) && t != [] && WordEnd(t) < |t|
    ensures var n := WordEnd(t);
      t[n] == ' ' && t[n + 1..] != [] && Normalized(t[n + 1..])
      && Words(t) == [t[..n]] + Words(t[n + 1..])
  {
    SpaceAfterWord(t);
    WordsAfterSpace(t, WordEnd(t));
  }

  lemma SpaceAfterWord(t: string)
    requires Normalized(t) && t != [] && WordEnd(t) < |t|
    ensures var n := WordEnd(t);
      t[n] == ' ' && n + 1 < |t| && t[n + 1] != ' ' && Normalized(t[n + 1..])
  {
    var n := WordEnd(t);
    assert OrdinarySpace(t[n]);
    assert t[|t| - 1] != ' ';
    assert !DoubleSpaceAt(t, n);
    SliceSpacing(t, n + 1, |t|);
    assert t[n + 1..] == t[n + 1..|t|];
  }

  lemma WordsAfterSpace(t: string, n: nat)
    requires n + 1 < |t| && WordEnd(t) == n && !IsSpace(t[0]) && t[n] == ' ' && t[n + 1] != ' '
    requires OrdinarySpace(t[n + 1])
    ensures Words(t) == [t[..n]] + Words(t[n + 1..])
  {
    assert TrimStart(t) == t;
    var rest := t[n + 1..];
    assert t[n..][1..] == rest;
    assert TrimStart(t[n..]) == TrimStart(rest);
    assert TrimStart(rest) == rest;
  }

  /** Joining the words of a normalised text with single spaces gives the text back. */
  lemma {:induction false} JoinWords(t: string)
    requires Normalized(t)
    ensures Join(Words(t)) == t
    decreases |t|
  {
    if t != [] {
      var n := WordEnd(t);
      LeadingWord(t);
      if n == |t| {
        WordsOfOneWord(t);
      } else {
        WordsStep(t);
        var rest := t[n + 1..];
        JoinWords(rest);
        WordsOfNormalized(rest);
        JoinAround(t, n, Words(rest));
      }
    }
  }

  /** A text with a space at `n` joins back from its part before `n` and the words after. */
  lemma JoinAround(t: string, n: nat, words: seq<string>)
    requires n < |t| && t[n] == ' ' && words != [] && Join(words) == t[n + 1..]
    ensures Join([t[..n]] + words) == t
  {
    assert ([t[..n]] + words)[1..] == words;
    assert t == t[..n] + " " + t[n + 1..];
  }

  /** A normalised text has words exactly when it is not empty. */
  lemma WordsOfNormalized(t: string)
    requires Normalized(t)
    ensures Words(t) == [] <==> t == []
  {
    if t != [] {
      assert TrimStart(t) == t;
    }
  }

  /**
   * A matched brand is returned title-cased; it spells the matched prefix of
   * the heading up to letter case, and the model is the rest of the heading,
   * stripped, in its original case.
   */
  lemma SplitOfMatchedBrand(t: string)
    requires MatchedBrand(Upper(t)).Some?
    ensures var b := MatchedBrand(Upper(t)).value;
      var r := SplitNormalized(t);
      r.0 == Title(b) && Upper(r.0) == Upper(t[..|b|]) && r.1 == Strip(t[|b|..])
  {
    var u := Upper(t);
    var b := MatchedBrand(u).value;
    UpperOfTitle(b, false);
    assert Upper(t[..|b|]) == u[..|b|];
    UpperTwice(t[..|b|]);
  }

  /**
   * Without a brand match the brand is the first word of the normalised
   * heading, untouched, and the model is what follows the space after it,
   * with leading dashes and spaces dropped.
   */
  lemma SplitOfUnknownBrand(t: string)
    requires Normalized(t) && MatchedBrand(Upper(t)).None?
    ensures var r := SplitNormalized(t);
      (t == [] ==> r == ("", ""))
      && (t != [] ==>
            IsWord(r.0) && StartsWith(t, r.0)
            && (|r.0| == |t| ==> r.1 == "")
            && (|r.0| < |t| ==> t[|r.0|] == ' ' && r.1 == Strip(DropSeparators(t[|r.0| + 1..]))))
  {
    assert SplitNormalized(t) == SplitWords(t);
    WordsOfNormalized(t);
    if t != [] {
      JoinWords(t);
      SplitOfJoined(t, Words(t));
    }
  }

  /** The first-word split of a text that joins back from its words. */
  lemma SplitOfJoined(t: string, words: seq<string>)
    requires words == Words(t) && words != [] && Join(words) == t
    ensures var r := SplitWords(t);
      IsWord(r.0) && StartsWith(t, r.0)
      && (|r.0| == |t| ==> r.1 == "")
      && (|r.0| < |t| ==> t[|r.0|] == ' ' && r.1 == Strip(DropSeparators(t[|r.0| + 1..])))
  {
    assert IsWord(words[0]);
    if |words| == 1 {
      assert t == words[0];
    } else {
      FirstWordOfJoin(t, words);
    }
  }

  lemma FirstWordOfJoin(t: string, words: seq<string>)
    requires |words| > 1 && Join(words) == t
    ensures var w := words[0]; |w| < |t| && t[..|w|] == w && t[|w|] == ' ' && t[|w| + 1..] == Join(words[1..])
  {
    var w := words[0];
    assert t == w + " " + Join(words[1..]);
    assert t[..|w|] == w;
  }

  /** Every entry of the brand table is non-empty. */
  lemma BrandTableNonEmpty()
    ensures forall j :: 0 <= j < |BrandTable()| ==> BrandTable()[j] != []
  {
  }

  lemma MatchedBrandNonEmpty(u: string)
    requires MatchedBrand(u).Some?
    ensures MatchedBrand(u).value != []
  {
    BrandTableNonEmpty();
    assert BrandTable() == MultiWordBrands + KnownBrands;
    var i :| 0 <= i < |BrandTable()| && BrandTable()[i] == MatchedBrand(u).value;
  }

  /** The brand is empty exactly when the heading is blank once normalised. */
  lemma BrandEmptyIff(text: string)
    ensures SplitBrandModel(text).0 == "" <==> Normalize(text) == ""
  {
    var t := Normalize(text);
    if text == "" {
      assert t == "";
    } else {
      NormalizeIsNormalized(text);
      BrandOfNormalizedEmptyIff(t);
    }
  }

  lemma BrandOfNormalizedEmptyIff(t: string)
    requires Normalized(t)
    ensures SplitNormalized(t).0 == "" <==> t == ""
  {
    match MatchedBrand(Upper(t))
    case Some(b) =>
      MatchedBrandNonEmpty(Upper(t));
      assert |Title(b)| == |b| && |b| <= |t|;
    case None =>
      SplitOfUnknownBrand(t);
  }

  /** Collapsing leaves text that already has single ordinary spaces unchanged. */
  lemma {:induction false} CollapseOfSpaced(s: string, inRun: bool)
    requires OrdinarySpaces(s) && NoDoubleSpace(s)
    requires inRun ==> s == [] || s[0] != ' '
    ensures CollapseFrom(s, inRun) == s
  {
    if s != [] {
      SliceSpacing(s, 1, |s|);
      assert s[1..] == s[1..|s|];
      assert OrdinarySpace(s[0]);
      if IsSpace(s[0]) && |s| > 1 {
        assert !DoubleSpaceAt(s, 0);
      }
      CollapseOfSpaced(s[1..], IsSpace(s[0]));
    }
  }

  /** A normalised heading without an ampersand is its own normal form. */
  lemma NormalizeFixes(t: string)
    requires Normalized(t)
    requires forall i :: 0 <= i < |t| ==> t[i] != '&'
    ensures Normalize(t) == t
  {
    ReplaceAllAbsent(t, "&nbsp;", " ");
    CollapseOfSpaced(t, false);
    StripOfTrimmed(t);
  }

  lemma StripOfTrimmed(t: string)
    requires t == [] || (!IsSpace(t[0]) && !IsSpace(t[|t| - 1]))
    ensures Strip(t) == t
  {
  }

  // ---------------------------------------------------------------------
  // Examples
  // ---------------------------------------------------------------------

  /** A multi-word brand is title-cased; the model keeps its capitals. */
  lemma ExampleLandRover(text: string)
    requires text == "LAND ROVER DISCOVERY 4"
    ensures SplitBrandModel(text) == ("Land Rover", "DISCOVERY 4")
  {
    LandRoverNormalized(text);
    NormalizeFixes(text);
    LandRoverUpper(text);
    LandRoverMatch(text);
    LandRoverTitle("LAND ROVER");
    LandRoverModel(text);
  }

  lemma LandRoverNormalized(text: string)
    requires text == "LAND ROVER DISCOVERY 4"
    ensures Normalized(text) && forall i :: 0 <= i < |text| ==> text[i] != '&'
  {
    forall i | 0 <= i < |text| - 1 ensures !DoubleSpaceAt(text, i) {
    }
  }

  lemma LandRoverUpper(text: string)
    requires text == "LAND ROVER DISCOVERY 4"
    ensures Upper(text) == text
  {
  }

  lemma LandRoverMatch(text: string)
    requires text == "LAND ROVER DISCOVERY 4"
    ensures MatchedBrand(text) == Some("LAND ROVER")
  {
    assert !StartsWith(text, MultiWordBrands[0]) by {
      assert text[0] != MultiWordBrands[0][0];
    }
    assert StartsWith(text, MultiWordBrands[1]) by {
      assert text[..10] == "LAND ROVER";
    }
  }

  lemma LandRoverTitle(b: string)
    requires b == "LAND ROVER"
    ensures Title(b) == "Land Rover"
  {
    var r := TitleFrom(b, false);
    assert r[0] == 'L';
    assert r[1] == 'a';
    assert r[2] == 'n';
    assert r[3] == 'd';
    assert r[4] == ' ';
    assert r[5] == 'R';
    assert r[6] == 'o';
    assert r[7] == 'v';
    assert r[8] == 'e';
    assert r[9] == 'r';
  }

  lemma LandRoverModel(text: string)
    requires text == "LAND ROVER DISCOVERY 4"
    ensures Strip(text[10..]) == "DISCOVERY 4"
  {
    var rest := text[10..];
    assert rest == " DISCOVERY 4";
    TrimDiscovery(rest);
    StripOfTrimmed(TrimStart(rest));
  }

  lemma TrimDiscovery(x: string)
    requires x == " DISCOVERY 4"
    ensures TrimStart(x) == "DISCOVERY 4" && Strip(x) == TrimEnd(TrimStart(x))
  {
    assert x[1..] == "DISCOVERY 4";
    TrimPlain(x[1..]);
  }

  lemma TrimPlain(x: string)
    requires x == "DISCOVERY 4"
    ensures TrimStart(x) == x
  {
    assert x[0] == 'D';
  }


  /** An unknown brand is the first word as written; the dash before the model goes. */
  lemma ExampleUnknownBrand(text: string)
    requires text == "UAZ \U{2014} Patriot"
    ensures SplitBrandModel(text) == ("UAZ", "Patriot")
  {
    UnknownNormalized(text);
    NormalizeFixes(text);
    assert SplitBrandModel(text) == SplitNormalized(text);
    NoBrandStartsWithU(Upper(text));
    SplitOfUnknownBrand(text);
    UnknownBrandWord(text, SplitNormalized(text).0);
    UnknownModel(text);
  }

  lemma UnknownNormalized(text: string)
    requires text == "UAZ \U{2014} Patriot"
    ensures Normalized(text) && forall i :: 0 <= i < |text| ==> text[i] != '&'
  {
    forall i | 0 <= i < |text| - 1 ensures !DoubleSpaceAt(text, i) {
    }
  }

  /** No brand entry begins with the letter U. */
  lemma NoBrandStartsWithU(u: string)
    requires u != [] && u[0] == 'U'
    ensures MatchedBrand(u).None?
  {
    BrandTableNonEmpty();
    assert BrandTable() == MultiWordBrands + KnownBrands;
    assert forall j :: 0 <= j < |BrandTable()| ==> BrandTable()[j][0] != 'U';
    assert forall j :: 0 <= j < |BrandTable()| ==> !StartsWith(u, BrandTable()[j]);
  }


  lemma UnknownBrandWord(text: string, w: string)
    requires text == "UAZ \U{2014} Patriot"
    requires IsWord(w) && StartsWith(text, w) && (|w| < |text| ==> text[|w|] == ' ')
    ensures w == "UAZ"
  {
    assert IsSpace(text[3]);
    assert forall i :: 0 <= i < |w| ==> !IsSpace(text[i]) by {
      forall i | 0 <= i < |w| ensures !IsSpace(text[i]) {
        assert text[i] == w[i];
      }
    }
    assert text[0] != ' ' && text[1] != ' ' && text[2] != ' ';
    assert |w| == 3;
    assert text[..3] == "UAZ";
  }

  lemma UnknownModel(text: string)
    requires text == "UAZ \U{2014} Patriot"
    ensures Strip(DropSeparators(text[4..])) == "Patriot"
  {
    var rest := text[4..];
    assert rest == "\U{2014} Patriot";
    DropDash(rest);
    StripOfTrimmed(DropSeparators(rest));
  }

  lemma DropDash(x: string)
    requires x == "\U{2014} Patriot"
    ensures DropSeparators(x) == "Patriot"
  {
    assert x[1..] == " Patriot";
    DropSpace(x[1..]);
  }

  lemma DropSpace(x: string)
    requires x == " Patriot"
    ensures DropSeparators(x) == "Patriot"
  {
    assert x[1..] == "Patriot";
    DropNothing(x[1..]);
  }

  lemma DropNothing(x: string)
    requires x == "Patriot"
    ensures DropSeparators(x) == x
  {
    assert x[0] == 'P';
  }

}
