/**
 * Price normalisation (`AuctionParser.parse_price_text`) and the price
 * locator chain (`AuctionParser.extract_price`) of `parser.py`.
 */
module Price {
  import opened Wrappers
  import opened Text

  /** Bounds outside which a number is treated as scrape garbage, not a price. */
  const MinPrice: nat := 10000
  const MaxPrice: nat := 1000000000

  /** One entry of a replacement table: a non-empty pattern and its replacement. */
  type Replacement = e: (string, string) | |e.0| > 0 witness ("&nbsp;", " ")

  /**
   * The replacement table, in the order the dict literal iterates it: the
   * HTML entity first, then the space variants that become an ordinary
   * space, then the zero-width characters that are deleted.
   */
  const Replacements: seq<Replacement> := [
    ("&nbsp;", " "),
    ("\U{A0}", " "),    // no-break space
    ("\U{202F}", " "),  // narrow no-break space
    ("\U{2009}", " "),  // thin space
    ("\U{2007}", " "),  // figure space
    ("\U{2060}", " "),  // word joiner
    ("\U{200A}", " "),  // hair space
    ("\U{200B}", ""),   // zero-width space
    ("\U{FEFF}", "")    // zero-width no-break space (BOM)
  ]

  /** The single-character keys of the replacement table, in table order. */
  const SpaceVariants: seq<char> :=
    ['\U{A0}', '\U{202F}', '\U{2009}', '\U{2007}', '\U{2060}', '\U{200A}', '\U{200B}', '\U{FEFF}']

  predicate IsSpaceVariant(c: char) {
    c == '\U{A0}' || c == '\U{202F}' || c == '\U{2009}' || c == '\U{2007}'
    || c == '\U{2060}' || c == '\U{200A}' || c == '\U{200B}' || c == '\U{FEFF}'
  }

  /**
   * The character class `[~≈₽рRUBруб]` under `re.IGNORECASE`: each listed
   * character and its other case, one character at a time.
   */
  predicate IsStripped(c: char) {
    c == '~' || c == '\U{2248}' || c == '\U{20BD}'
    || c == 'R' || c == 'r' || c == 'U' || c == 'u' || c == 'B' || c == 'b'
    || c == '\U{440}' || c == '\U{420}'   // Cyrillic er
    || c == '\U{443}' || c == '\U{423}'   // Cyrillic u
    || c == '\U{431}' || c == '\U{411}'   // Cyrillic be
  }

  predicate NotStripped(c: char) {
    !IsStripped(c)
  }

  predicate NotSpace(c: char) {
    c != ' '
  }

  /** A character that normalisation removes wherever it stands. */
  predicate Dropped(c: char) {
    c == ' ' || IsSpaceVariant(c) || IsStripped(c)
  }

  predicate Kept(c: char) {
    !Dropped(c)
  }

  /** Apply the table's replacements one after another, first entry first. */
  function Replaced(s: string, table: seq<Replacement>): string
    decreases |table|
  {
    if table == [] then s else Replaced(ReplaceAll(s, table[0].0, table[0].1), table[1..])
  }

  /** The text left after every normalisation step. */
  function Clean(text: string): string {
    Filter(Filter(Replaced(text, Replacements), NotStripped), NotSpace)
  }

  predicate InPriceRange(n: int) {
    MinPrice <= n <= MaxPrice
  }

  /** What `parse_price_text` returns for `text`. */
  function ParsePrice(text: string): (r: Option<nat>)
    ensures r.Some? ==> InPriceRange(r.value)
    ensures text == "" ==> r == None
  {
    if text == "" then None
    else
      var clean := Clean(text);
      if clean != "" && AllDigits(clean) && InPriceRange(Value(clean)) then Some(Value(clean)) else None
  }

  /** `parse_price_text`, reassigning the cleaned text once per table entry. */
  method ParsePriceText(text: string) returns (price: Option<nat>)
    ensures price == ParsePrice(text)
  {
    if text == "" {
      return None;
    }
    var clean := text;
    for i := 0 to |Replacements|
      invariant Replaced(clean, Replacements[i..]) == Replaced(text, Replacements)
    {
      ReplacedStep(clean, Replacements, i);
      clean := ReplaceAll(clean, Replacements[i].0, Replacements[i].1);
    }
    assert Replacements[|Replacements|..] == [];
    clean := Filter(clean, NotStripped);
    clean := Filter(clean, NotSpace);
    if clean != "" && AllDigits(clean) {
      var n := Value(clean);
      if InPriceRange(n) {
        return Some(n);
      }
    }
    return None;
  }

  /** Applying the table from entry `i` on is applying entry `i`, then the rest. */
  lemma ReplacedStep(s: string, table: seq<Replacement>, i: nat)
    requires i < |table|
    ensures Replaced(s, table[i..]) == Replaced(ReplaceAll(s, table[i].0, table[i].1), table[i + 1..])
  {
    assert table[i..][1..] == table[i + 1..];
  }

  // ---------------------------------------------------------------------
  // What normalisation does, character by character
  // ---------------------------------------------------------------------

  /** Replacements whose keys are single dropped characters are invisible after the filter. */
  lemma {:induction false} FilterReplaced(s: string, table: seq<Replacement>)
    requires forall k :: 0 <= k < |table| ==> |table[k].0| == 1 && Dropped(table[k].0[0])
    requires forall k, i :: 0 <= k < |table| && 0 <= i < |table[k].1| ==> Dropped(table[k].1[i])
    ensures Filter(Replaced(s, table), Kept) == Filter(s, Kept)
    decreases |table|
  {
    if table != [] {
      var e := table[0];
      assert e.0 == [e.0[0]];
      FilterReplaceChar(s, e.0[0], e.1, Kept);
      FilterReplaced(ReplaceAll(s, e.0, e.1), table[1..]);
    }
  }

  /**
   * After the "&nbsp;" entity has been replaced, normalisation simply keeps
   * the characters that are neither spaces, space variants nor currency or
   * approximation marks.
   */
  lemma CleanIsFilter(text: string)
    ensures Clean(text) == Filter(ReplaceAll(text, "&nbsp;", " "), Kept)
  {
    var afterEntity := ReplaceAll(text, "&nbsp;", " ");
    CleanAfterVariants(text);
    VariantEntriesDropped();
    FilterReplaced(afterEntity, Replacements[1..]);
  }

  lemma VariantEntriesDropped()
    ensures forall k :: 0 <= k < |Replacements[1..]| ==>
      |Replacements[1..][k].0| == 1 && Dropped(Replacements[1..][k].0[0])
    ensures forall k, i :: 0 <= k < |Replacements[1..]| && 0 <= i < |Replacements[1..][k].1| ==>
      Dropped(Replacements[1..][k].1[i])
  {
    var t := Replacements[1..];
    forall k | 0 <= k < |t| ensures |t[k].0| == 1 && Dropped(t[k].0[0]) {
      assert t[k].0 == [SpaceVariants[k]];
    }
  }

  /** Once the space variants are gone, the two filters keep the same characters. */
  lemma CleanAfterVariants(text: string)
    ensures Clean(text) == Filter(Replaced(ReplaceAll(text, "&nbsp;", " "), Replacements[1..]), Kept)
  {
    var afterEntity := ReplaceAll(text, "&nbsp;", " ");
    CleanUnfold(text);
    NoVariantsLeft(afterEntity);
    FiltersAsKept(Replaced(afterEntity, Replacements[1..]));
  }

  /** `Clean` with the entity entry of the table applied first. */
  lemma CleanUnfold(text: string)
    ensures Clean(text) ==
      Filter(Filter(Replaced(ReplaceAll(text, "&nbsp;", " "), Replacements[1..]), NotStripped), NotSpace)
  {
    ReplacedStep(text, Replacements, 0);
  }

  lemma FiltersAsKept(s: string)
    requires forall i :: 0 <= i < |s| ==> !IsSpaceVariant(s[i])
    ensures Filter(Filter(s, NotStripped), NotSpace) == Filter(s, Kept)
  {
    FilterOfFilter(s, NotStripped, NotSpace, NeitherStrippedNorSpace);
    FilterSame(s, NeitherStrippedNorSpace, Kept);
  }

  lemma NoVariantsLeft(s: string)
    ensures forall i :: 0 <= i < |Replaced(s, Replacements[1..])| ==> !IsSpaceVariant(Replaced(s, Replacements[1..])[i])
  {
    forall c | IsSpaceVariant(c) ensures c in SpaceVariants {
    }
    ReplacedAvoids(s, Replacements[1..], SpaceVariants, IsSpaceVariant);
  }

  predicate NeitherStrippedNorSpace(c: char) {
    NotStripped(c) && NotSpace(c)
  }

  /**
   * Replacing single characters: when every `bad` character of `s` is one of
   * the table's keys and no replacement text holds a `bad` character, none
   * is left afterwards.
   */
  lemma {:induction false} ReplacedAvoids(s: string, table: seq<Replacement>, keys: seq<char>, bad: char -> bool)
    requires |keys| == |table|
    requires forall k :: 0 <= k < |table| ==> table[k].0 == [keys[k]]
    requires forall k, i :: 0 <= k < |table| && 0 <= i < |table[k].1| ==> !bad(table[k].1[i])
    requires forall i :: 0 <= i < |s| && bad(s[i]) ==> s[i] in keys
    ensures forall i :: 0 <= i < |Replaced(s, table)| ==> !bad(Replaced(s, table)[i])
    decreases |table|
  {
    if table != [] {
      var c, rep := keys[0], table[0].1;
      var later := keys[1..];
      var s1 := ReplaceAll(s, [c], rep);
      assert table[0].0 == [c];
      ReplaceCharAvoids(s, c, rep, x => bad(x) && x !in later);
      ReplacedAvoids(s1, table[1..], later, bad);
    }
  }

  lemma {:induction false} ReplaceCharAvoids(s: string, c: char, rep: string, bad: char -> bool)
    requires forall i :: 0 <= i < |rep| ==> !bad(rep[i])
    requires forall i :: 0 <= i < |s| && bad(s[i]) ==> s[i] == c
    ensures forall i :: 0 <= i < |ReplaceAll(s, [c], rep)| ==> !bad(ReplaceAll(s, [c], rep)[i])
  {
    if s != [] {
      ReplaceCharAvoids(s[1..], c, rep, bad);
    }
  }

  /** The cleaned text never holds a space, a space variant or a currency mark. */
  lemma CleanDropsNoise(text: string)
    ensures forall i :: 0 <= i < |Clean(text)| ==> !Dropped(Clean(text)[i])
  {
    CleanIsFilter(text);
  }

  /**
   * A text made only of digits and characters that normalisation drops is
   * priced by its digits alone, within the bounds.
   */
  lemma PriceOfDigitsAndNoise(text: string)
    requires forall i :: 0 <= i < |text| ==> IsDigit(text[i]) || Dropped(text[i])
    ensures var d := Filter(text, IsDigit);
      ParsePrice(text) == if d != [] && InPriceRange(Value(d)) then Some(Value(d)) else None
  {
    CleanOfDigitsAndNoise(text);
    PriceOfDigitsClean(text);
  }

  lemma PriceOfDigitsClean(text: string)
    requires Clean(text) == Filter(text, IsDigit)
    ensures var d := Filter(text, IsDigit);
      ParsePrice(text) == if d != [] && InPriceRange(Value(d)) then Some(Value(d)) else None
  {
  }

  lemma CleanOfDigitsAndNoise(text: string)
    requires forall i :: 0 <= i < |text| ==> IsDigit(text[i]) || Dropped(text[i])
    ensures Clean(text) == Filter(text, IsDigit)
  {
    DigitsAndNoiseFacts(text);
    assert NoAmpersand(text);
    CleanWithoutAmpersand(text);
  }

  /** No character of `s` can start an `&nbsp;` entity. */
  predicate NoAmpersand(s: string) {
    forall i :: 0 <= i < |s| ==> s[i] != '&'
  }

  lemma DigitsAndNoiseFacts(text: string)
    requires forall i :: 0 <= i < |text| ==> IsDigit(text[i]) || Dropped(text[i])
    ensures NoAmpersand(text)
    ensures Filter(text, Kept) == Filter(text, IsDigit)
  {
    KeptAreDigits(text);
    FilterKeptIsDigits(text);
  }

  lemma KeptAreDigits(text: string)
    requires forall i :: 0 <= i < |text| ==> IsDigit(text[i]) || Dropped(text[i])
    ensures forall i :: 0 <= i < |text| ==> text[i] != '&'
    ensures forall i :: 0 <= i < |text| ==> Kept(text[i]) == IsDigit(text[i])
  {
  }

  lemma FilterKeptIsDigits(text: string)
    requires forall i :: 0 <= i < |text| ==> Kept(text[i]) == IsDigit(text[i])
    ensures Filter(text, Kept) == Filter(text, IsDigit)
  {
    FilterSame(text, Kept, IsDigit);
  }

  lemma CleanWithoutAmpersand(text: string)
    requires NoAmpersand(text)
    ensures Clean(text) == Filter(text, Kept)
  {
    ReplaceAllAbsent(text, "&nbsp;", " ");
    CleanIsFilter(text);
  }

  /** "1 500 000 ₽" written with no-break spaces prices at 1 500 000. */
  lemma ExampleNoBreakSpacesAndRuble(text: string)
    requires text == "1\U{A0}500\U{A0}000 \U{20BD}"
    ensures ParsePrice(text) == Some(1500000)
  {
    DigitsOfNoBreakExample(text);
    PriceOfDigitsAndNoise(text);
  }

  lemma DigitsOfNoBreakExample(text: string)
    requires text == "1\U{A0}500\U{A0}000 \U{20BD}"
    ensures forall i :: 0 <= i < |text| ==> IsDigit(text[i]) || Dropped(text[i])
    ensures Filter(text, IsDigit) == "1500000" && Value("1500000") == 1500000
  {
    FilterOfNoBreakExample(text);
    assert "1500000"[..6] == "150000";
    assert "150000"[..5] == "15000";
    assert "15000"[..4] == "1500";
    assert "1500"[..3] == "150";
    assert "150"[..2] == "15";
    assert "15"[..1] == "1";
    assert "1"[..0] == "";
  }

  lemma FilterOfNoBreakExample(text: string)
    requires text == "1\U{A0}500\U{A0}000 \U{20BD}"
    ensures Filter(text, IsDigit) == "1500000"
  {
    var s0: string := [];
    FilterSnoc(s0, '1', IsDigit);
    var s1 := s0 + ['1'];
    FilterSnoc(s1, '\U{A0}', IsDigit);
    var s2 := s1 + ['\U{A0}'];
    FilterSnoc(s2, '5', IsDigit);
    var s3 := s2 + ['5'];
    FilterSnoc(s3, '0', IsDigit);
    var s4 := s3 + ['0'];
    FilterSnoc(s4, '0', IsDigit);
    var s5 := s4 + ['0'];
    FilterSnoc(s5, '\U{A0}', IsDigit);
    var s6 := s5 + ['\U{A0}'];
    FilterSnoc(s6, '0', IsDigit);
    var s7 := s6 + ['0'];
    FilterSnoc(s7, '0', IsDigit);
    var s8 := s7 + ['0'];
    FilterSnoc(s8, '0', IsDigit);
    var s9 := s8 + ['0'];
    FilterSnoc(s9, ' ', IsDigit);
    var s10 := s9 + [' '];
    FilterSnoc(s10, '\U{20BD}', IsDigit);
    var s11 := s10 + ['\U{20BD}'];
    assert text == s11;
  }

  /** "~500" loses its tilde and is then below the lower bound. */
  lemma ExampleBelowBound(text: string)
    requires text == "~500"
    ensures ParsePrice(text) == None
  {
    DigitsOfTildeExample(text);
    PriceOfDigitsAndNoise(text);
  }

  lemma DigitsOfTildeExample(text: string)
    requires text == "~500"
    ensures forall i :: 0 <= i < |text| ==> IsDigit(text[i]) || Dropped(text[i])
    ensures Filter(text, IsDigit) == "500" && Value("500") == 500
  {
    var s0: string := [];
    FilterSnoc(s0, '~', IsDigit);
    var s1 := s0 + ['~'];
    FilterSnoc(s1, '5', IsDigit);
    var s2 := s1 + ['5'];
    FilterSnoc(s2, '0', IsDigit);
    var s3 := s2 + ['0'];
    FilterSnoc(s3, '0', IsDigit);
    var s4 := s3 + ['0'];
    assert text == s4;
    assert "500"[..2] == "50";
    assert "50"[..1] == "5";
    assert "5"[..0] == "";
  }

  // ---------------------------------------------------------------------
  // The locator chain of extract_price
  // ---------------------------------------------------------------------

  /** A text node that `find_all(text=re.compile('[₽р]'))` returns. */
  predicate HasRuble(t: string) {
    exists i :: 0 <= i < |t| && (t[i] == '\U{20BD}' || t[i] == '\U{440}')
  }

  /** A text node that the fallback scan accepts. */
  predicate RubleCandidate(t: string) {
    HasRuble(t) && ParsePrice(Strip(t)).Some?
  }

  /** Whether the text of the element found by the price selectors parses. */
  predicate PrimaryParses(primary: Option<string>) {
    primary.Some? && ParsePrice(primary.value).Some?
  }

  /**
   * `extract_price`: the selected element's text when it parses, otherwise
   * the first ruble-bearing text node (in document order) that parses.
   * `primary` is the text of the first element the three selectors find,
   * `nodes` every text node of the block.
   */
  function ExtractPrice(primary: Option<string>, nodes: seq<string>): (r: Option<nat>)
    ensures r.Some? ==> InPriceRange(r.value)
    ensures PrimaryParses(primary) ==> r == ParsePrice(primary.value)
    ensures !PrimaryParses(primary) ==>
      (r.None? <==> forall j :: 0 <= j < |nodes| ==> !RubleCandidate(nodes[j]))
    ensures !PrimaryParses(primary) && r.Some? ==>
      exists i :: 0 <= i < |nodes| && RubleCandidate(nodes[i]) && r == ParsePrice(Strip(nodes[i]))
        && forall j :: 0 <= j < i ==> !RubleCandidate(nodes[j])
  {
    if PrimaryParses(primary) then ParsePrice(primary.value)
    else
      match FirstWhere(nodes, 0, RubleCandidate)
      case Some(i) => ParsePrice(Strip(nodes[i]))
      case None => None
  }
}
