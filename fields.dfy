/**
 * The per-field extractors applied to one listing block, the record they
 * build, and the loop over all blocks of a page. The HTML tree is not
 * modelled: a `Block` holds the text of each element the scraper locates
 * (or `None` when the element is absent), and each extractor is a function
 * of that text. The regular expressions are modelled by their
 * leftmost-match semantics, stated as a scan for the first position at
 * which a match begins.
 */
module Fields {
  import opened Wrappers
  import opened Text
  import Price
  import BrandModel

  const Origin: string := "https://japantransit.ru"

  // ---------------------------------------------------------------------
  // Lot number
  // ---------------------------------------------------------------------

  /** The tag's digits in order; every other character is deleted. */
  function LotNumber(tag: string): (r: string)
    ensures AllDigits(r) && |r| <= |tag|
  {
    Filter(tag, IsDigit)
  }

  /** A tag that is already a lot number is kept as it is. */
  lemma LotNumberOfDigits(tag: string)
    requires AllDigits(tag)
    ensures LotNumber(tag) == tag
  {
    FilterAll(tag, IsDigit);
  }

  /** Extracting twice is extracting once. */
  lemma LotNumberIdempotent(tag: string)
    ensures LotNumber(LotNumber(tag)) == LotNumber(tag)
  {
    FilterAll(LotNumber(tag), IsDigit);
  }

  /** Decoration around the number does not change it, wherever it sits. */
  lemma LotNumberAround(before: string, digits: string, after: string)
    requires AllDigits(digits)
    requires forall i :: 0 <= i < |before| ==> !IsDigit(before[i])
    requires forall i :: 0 <= i < |after| ==> !IsDigit(after[i])
    ensures LotNumber(before + digits + after) == digits
  {
    FilterNone(before, IsDigit);
    FilterNone(after, IsDigit);
    FilterAll(digits, IsDigit);
    FilterAppend(before, digits, IsDigit);
    assert Filter(before + digits, IsDigit) == digits;
    FilterAppend(before + digits, after, IsDigit);
  }

  // ---------------------------------------------------------------------
  // Year
  // ---------------------------------------------------------------------

  /** Four digits start at `i`: where `\d{4}` can match. */
  predicate YearAt(s: string, i: int) {
    0 <= i && i + 4 <= |s| && AllDigits(s[i..i + 4])
  }

  /** The first run of four digits in the tag, read as a number. */
  function YearOf(tag: string): (r: Option<nat>)
    ensures r.Some? ==> r.value < 10000
    ensures r.None? <==> forall i :: 0 <= i < |tag| ==> !YearAt(tag, i)
    ensures r.Some? ==>
              exists i :: 0 <= i < |tag| && YearAt(tag, i) && r.value == Value(tag[i..i + 4])
                          && forall j :: 0 <= j < i ==> !YearAt(tag, j)
  {
    var p := i => YearAt(tag, i);
    match FirstIndex(0, |tag|, p)
    case Some(i) =>
      ValueBelow(tag[i..i + 4]);
      assert Pow10(4) == 10000;
      assert forall j :: 0 <= j < i ==> !YearAt(tag, j) by {
        forall j | 0 <= j < i ensures !YearAt(tag, j) {
          assert !p(j);
        }
      }
      Some(Value(tag[i..i + 4]))
    case None =>
      assert forall j :: 0 <= j < |tag| ==> !YearAt(tag, j) by {
        forall j | 0 <= j < |tag| ensures !YearAt(tag, j) {
          assert !p(j);
        }
      }
      None
  }

  lemma ExampleYear(tag: string)
    requires tag == "2015 г."
    ensures YearOf(tag) == Some(2015)
  {
    assert YearAt(tag, 0);
    assert tag[0..4] == "2015";
    assert "2015"[..3] == "201" && "201"[..2] == "20" && "20"[..1] == "2";
  }

  // ---------------------------------------------------------------------
  // Runs of a character class
  // ---------------------------------------------------------------------

  /** The end of the longest run of `inClass` characters starting at `i`. */
  function SpanEnd(s: string, i: nat, inClass: char -> bool): (j: nat)
    requires i <= |s|
    ensures i <= j <= |s|
    ensures forall k :: i <= k < j ==> inClass(s[k])
    ensures j < |s| ==> !inClass(s[j])
    decreases |s| - i
  {
    if i < |s| && inClass(s[i]) then SpanEnd(s, i + 1, inClass) else i
  }

  /** A run that is known to stop at `j` ends there. */
  lemma {:induction false} SpanEndAt(s: string, i: nat, j: nat, inClass: char -> bool)
    requires i <= j <= |s|
    requires forall k :: i <= k < j ==> inClass(s[k])
    requires j < |s| ==> !inClass(s[j])
    ensures SpanEnd(s, i, inClass) == j
    decreases j - i
  {
    if i < j {
      SpanEndAt(s, i + 1, j, inClass);
    }
  }

  // ---------------------------------------------------------------------
  // Engine volume
  // ---------------------------------------------------------------------

  /**
   * `(\d+)\s*cc` matches at `i`: a digit starts there, and "cc" follows the
   * whole digit run and the whitespace after it. (Backtracking into a
   * shorter digit run cannot help: the next character would be a digit.)
   */
  predicate EngineAt(s: string, i: int) {
    0 <= i < |s| && IsDigit(s[i]) && OccursAt(s, "cc", SpanEnd(s, SpanEnd(s, i, IsDigit), IsSpace))
  }

  /** The engine volume as `<digits> cc`, whatever spacing the page used. */
  function EngineVolume(text: string): (r: Option<string>)
    ensures r.None? <==> forall i :: 0 <= i < |text| ==> !EngineAt(text, i)
    ensures r.Some? ==>
              var n := |r.value|;
              n > 3 && r.value[n - 3..] == " cc" && AllDigits(r.value[..n - 3])
    ensures r.Some? ==>
              exists i :: 0 <= i < |text| && EngineAt(text, i)
                          && (forall j :: 0 <= j < i ==> !EngineAt(text, j))
                          && r.value == text[i..SpanEnd(text, i, IsDigit)] + " cc"
  {
    var p := i => EngineAt(text, i);
    match FirstIndex(0, |text|, p)
    case Some(i) =>
      var digits := text[i..SpanEnd(text, i, IsDigit)];
      assert (digits + " cc")[..|digits|] == digits;
      assert forall j :: 0 <= j < i ==> !EngineAt(text, j) by {
        forall j | 0 <= j < i ensures !EngineAt(text, j) {
          assert !p(j);
        }
      }
      Some(digits + " cc")
    case None =>
      assert forall j :: 0 <= j < |text| ==> !EngineAt(text, j) by {
        forall j | 0 <= j < |text| ensures !EngineAt(text, j) {
          assert !p(j);
        }
      }
      None
  }

  /**
   * `1500cc`, `1500 cc` and `1500\tcc` all give `1500 cc`, also behind a
   * label without digits such as "Объем: ".
   */
  lemma {:induction false} EngineVolumeOf(caption: string, digits: string, gap: string, rest: string)
    requires forall k :: 0 <= k < |caption| ==> !IsDigit(caption[k])
    requires digits != [] && AllDigits(digits)
    requires forall k :: 0 <= k < |gap| ==> IsSpace(gap[k])
    ensures EngineVolume(caption + digits + gap + "cc" + rest) == Some(digits + " cc")
  {
    var s := caption + digits + gap + "cc" + rest;
    SpacedEngine(caption, digits, gap, rest);
    forall j | 0 <= j < |caption| ensures !EngineAt(s, j) {
      assert s[j] == caption[j];
    }
    FirstEngine(s, |caption|);
  }

  lemma SpacedEngine(caption: string, digits: string, gap: string, rest: string)
    requires digits != [] && AllDigits(digits)
    requires forall k :: 0 <= k < |gap| ==> IsSpace(gap[k])
    ensures var s := caption + digits + gap + "cc" + rest; var a := |caption|;
      (forall k :: 0 <= k < a ==> s[k] == caption[k])
      && EngineAt(s, a) && s[a..SpanEnd(s, a, IsDigit)] == digits
  {
    var s := caption + digits + gap + "cc" + rest;
    var a := |caption|;
    assert s[a + |digits| + |gap|] == 'c';
    SpanEndAt(s, a, a + |digits|, IsDigit);
    SpanEndAt(s, a + |digits|, a + |digits| + |gap|, IsSpace);
    assert s[a + |digits| + |gap|..a + |digits| + |gap| + 2] == "cc";
    assert s[a] == digits[0];
    assert s[a..a + |digits|] == digits;
  }

  /** The volume is read from the leftmost position where the pattern matches. */
  lemma FirstEngine(text: string, a: nat)
    requires EngineAt(text, a) && forall j :: 0 <= j < a ==> !EngineAt(text, j)
    ensures EngineVolume(text) == Some(text[a..SpanEnd(text, a, IsDigit)] + " cc")
  {
    var r := EngineVolume(text);
    var i :| 0 <= i < |text| && EngineAt(text, i) && (forall j :: 0 <= j < i ==> !EngineAt(text, j))
             && r.value == text[i..SpanEnd(text, i, IsDigit)] + " cc";
    assert i == a;
  }

  // ---------------------------------------------------------------------
  // Mileage
  // ---------------------------------------------------------------------

  predicate DigitOrSpace(c: char) {
    IsDigit(c) || IsSpace(c)
  }

  /**
   * `([\d\s]+)\s*км` matches at `i`: the run of digits and whitespace that
   * starts there is followed by "км". The greedy group keeps the trailing
   * whitespace, and no shorter group can succeed.
   */
  predicate MileageAt(s: string, i: int) {
    0 <= i < |s| && DigitOrSpace(s[i]) && OccursAt(s, "км", SpanEnd(s, i, DigitOrSpace))
  }

  /** The matched group with ordinary spaces removed, read as a number if it is all digits. */
  function MileageOfGroup(group: string): (r: Option<nat>)
    ensures r.Some? <==> (var clean := Filter(group, Price.NotSpace); clean != [] && AllDigits(clean))
  {
    var clean := Filter(group, Price.NotSpace);
    if clean != [] && AllDigits(clean) then Some(Value(clean)) else None
  }

  /**
   * The mileage: nothing when the pattern does not match; otherwise what the
   * group of the leftmost match reads as.
   */
  function Mileage(text: string): (r: Option<nat>)
    ensures (forall i :: 0 <= i < |text| ==> !MileageAt(text, i)) ==> r.None?
    ensures forall i :: 0 <= i < |text| && MileageAt(text, i) && (forall j :: 0 <= j < i ==> !MileageAt(text, j)) ==>
              r == MileageOfGroup(text[i..SpanEnd(text, i, DigitOrSpace)])
  {
    var p := i => MileageAt(text, i);
    match FirstIndex(0, |text|, p)
    case Some(i) =>
      assert forall j :: 0 <= j < i ==> !MileageAt(text, j) by {
        forall j | 0 <= j < i ensures !MileageAt(text, j) {
          assert !p(j);
        }
      }
      MileageOfGroup(text[i..SpanEnd(text, i, DigitOrSpace)])
    case None =>
      assert forall j :: 0 <= j < |text| ==> !MileageAt(text, j) by {
        forall j | 0 <= j < |text| ensures !MileageAt(text, j) {
          assert !p(j);
        }
      }
      None
  }

  /** A text that opens with the number and its unit is read through its group. */
  lemma {:induction false} MileageOf(group: string, rest: string)
    requires group != [] && forall k :: 0 <= k < |group| ==> DigitOrSpace(group[k])
    ensures Mileage(group + "км" + rest) == MileageOfGroup(group)
  {
    var s := group + "км" + rest;
    assert s[|group|] == 'к';
    assert s[0] == group[0];
    SpanEndAt(s, 0, |group|, DigitOrSpace);
    assert s[|group|..|group| + 2] == "км";
    assert MileageAt(s, 0);
    assert s[0..|group|] == group;
  }

  /** Digits grouped by ordinary spaces read as the number they spell. */
  lemma {:induction false} MileageOfSpacedDigits(group: string)
    requires forall k :: 0 <= k < |group| ==> IsDigit(group[k]) || group[k] == ' '
    ensures Filter(group, Price.NotSpace) != [] && AllDigits(Filter(group, Price.NotSpace)) ==>
              MileageOfGroup(group) == Some(Value(Filter(group, Price.NotSpace)))
    ensures (exists k :: 0 <= k < |group| && IsDigit(group[k])) ==> MileageOfGroup(group).Some?
  {
    KeptDigits(group);
    if exists k :: 0 <= k < |group| && IsDigit(group[k]) {
      var k :| 0 <= k < |group| && IsDigit(group[k]);
      KeptDigitPresent(group, k);
    }
  }

  lemma {:induction false} KeptDigits(group: string)
    requires forall k :: 0 <= k < |group| ==> IsDigit(group[k]) || group[k] == ' '
    ensures AllDigits(Filter(group, Price.NotSpace))
  {
    if group != [] {
      KeptDigits(group[..|group| - 1]);
    }
  }

  lemma {:induction false} KeptDigitPresent(group: string, k: nat)
    requires k < |group| && IsDigit(group[k])
    ensures Filter(group, Price.NotSpace) != []
  {
    if k < |group| - 1 {
      KeptDigitPresent(group[..|group| - 1], k);
    }
  }

  /**
   * A no-break space between the digit groups is whitespace to the pattern
   * but survives the removal of ordinary spaces, so no mileage is read.
   */
  lemma MileageWithNoBreakSpace(text: string)
    requires text == "45\U{A0}000 км"
    ensures Mileage(text) == None
  {
    var group := "45\U{A0}000 ";
    assert text == group + "км" + "";
    MileageOf(group, "");
    var clean := Filter(group, Price.NotSpace);
    FilterMember(group, Price.NotSpace, 0);
    assert !AllDigits(clean) by {
      FilterAll(group[..|group| - 1], Price.NotSpace);
      assert group[..|group| - 1] == "45\U{A0}000";
      FilterSnoc("45\U{A0}000", ' ', Price.NotSpace);
      assert group == "45\U{A0}000" + [' '];
      assert clean[2] == '\U{A0}';
    }
  }

  // ---------------------------------------------------------------------
  // Links
  // ---------------------------------------------------------------------

  /** A site-relative link is made absolute on the auction host; any other is kept. */
  function ResolveLotUrl(href: string): (r: string)
    ensures StartsWith(href, "/") ==> r == Origin + href
    ensures !StartsWith(href, "/") ==> r == href
  {
    if |href| > 0 && href[0] == '/' then Origin + href else href
  }

  /** A resolved link never starts with "/", so resolving again changes nothing. */
  lemma ResolveLotUrlIdempotent(href: string)
    ensures ResolveLotUrl(ResolveLotUrl(href)) == ResolveLotUrl(href)
  {
    if |href| > 0 && href[0] == '/' {
      assert (Origin + href)[0] == 'h';
    }
  }

  // ---------------------------------------------------------------------
  // Images
  // ---------------------------------------------------------------------

  predicate NotQuote(c: char) {
    c != '\''
  }

  /**
   * `url\('([^']+)'\)` matches at `i`: "url('" is followed by a non-empty
   * run of non-quote characters, the closing quote and ")".
   */
  predicate ImageAt(s: string, i: int) {
    0 <= i && OccursAt(s, "url('", i)
    && var j := SpanEnd(s, i + 5, NotQuote);
    i + 5 < j && j + 1 < |s| && s[j + 1] == ')'
  }

  /** The address inside the first `url('…')` of a style attribute. */
  function ImageUrl(style: string): (r: Option<string>)
    ensures r.None? <==> forall i :: 0 <= i < |style| ==> !ImageAt(style, i)
    ensures r.Some? ==> r.value != [] && forall k :: 0 <= k < |r.value| ==> NotQuote(r.value[k])
    ensures r.Some? ==> Contains(style, "url('" + r.value + "')")
    ensures r.Some? ==>
              exists i :: 0 <= i < |style| && ImageAt(style, i)
                          && (forall j :: 0 <= j < i ==> !ImageAt(style, j))
                          && r.value == style[i + 5..SpanEnd(style, i + 5, NotQuote)]
  {
    var p := i => ImageAt(style, i);
    match FirstIndex(0, |style|, p)
    case Some(i) =>
      var j := SpanEnd(style, i + 5, NotQuote);
      var u := style[i + 5..j];
      assert forall k :: 0 <= k < i ==> !ImageAt(style, k) by {
        forall k | 0 <= k < i ensures !ImageAt(style, k) {
          assert !p(k);
        }
      }
      assert style[i..j + 2] == "url('" + u + "')" by {
        assert style[i..i + 5] == "url('";
        assert style[j] == '\'' && style[j + 1] == ')';
      }
      assert OccursAt(style, "url('" + u + "')", i);
      Some(u)
    case None =>
      assert forall j :: 0 <= j < |style| ==> !ImageAt(style, j) by {
        forall j | 0 <= j < |style| ensures !ImageAt(style, j) {
          assert !p(j);
        }
      }
      None
  }

  /**
   * Wrapping an address in `url('…')` and extracting it gives the address
   * back, also behind other declarations that contain no "u".
   */
  lemma {:induction false} ImageUrlRoundTrip(before: string, u: string, rest: string)
    requires forall k :: 0 <= k < |before| ==> before[k] != 'u'
    requires u != [] && forall k :: 0 <= k < |u| ==> NotQuote(u[k])
    ensures ImageUrl(before + "url('" + u + "')" + rest) == Some(u)
  {
    var s := before + "url('" + u + "')" + rest;
    WrappedImage(before, u, rest);
    NoImageBefore(s, |before|);
    FirstImage(s, |before|);
  }

  lemma WrappedImage(before: string, u: string, rest: string)
    requires u != [] && forall k :: 0 <= k < |u| ==> NotQuote(u[k])
    ensures var s := before + "url('" + u + "')" + rest; var a := |before|;
      (forall k :: 0 <= k < a ==> s[k] == before[k])
      && ImageAt(s, a) && s[a + 5..SpanEnd(s, a + 5, NotQuote)] == u
  {
    var s := before + "url('" + u + "')" + rest;
    var a := |before|;
    assert s[a..a + 5] == "url('";
    assert s[a + 5 + |u|] == '\'' && s[a + 5 + |u| + 1] == ')';
    SpanEndAt(s, a + 5, a + 5 + |u|, NotQuote);
    assert s[a + 5..a + 5 + |u|] == u;
  }

  /** No match starts before position `a` when no "u" occurs there. */
  lemma NoImageBefore(s: string, a: nat)
    requires a <= |s| && forall k :: 0 <= k < a ==> s[k] != 'u'
    ensures forall j :: 0 <= j < a ==> !ImageAt(s, j)
  {
    forall j | 0 <= j < a ensures !ImageAt(s, j) {
      if j + 5 <= |s| {
        assert s[j..j + 5][0] == s[j];
      }
    }
  }

  /** The address is read from the leftmost position where the pattern matches. */
  lemma FirstImage(style: string, a: nat)
    requires ImageAt(style, a) && forall j :: 0 <= j < a ==> !ImageAt(style, j)
    ensures ImageUrl(style) == Some(style[a + 5..SpanEnd(style, a + 5, NotQuote)])
  {
    var r := ImageUrl(style);
    var i :| 0 <= i < |style| && ImageAt(style, i) && (forall j :: 0 <= j < i ==> !ImageAt(style, j))
             && r.value == style[i + 5..SpanEnd(style, i + 5, NotQuote)];
    assert i == a;
  }

  /** The addresses of every style that carries one, in page order. */
  function ImageUrls(styles: seq<string>): (r: seq<string>)
    ensures |r| <= |styles|
    ensures forall k :: 0 <= k < |r| ==> r[k] != []
  {
    if styles == [] then []
    else ImageUrls(styles[..|styles| - 1]) + match ImageUrl(styles[|styles| - 1]) {
      case Some(u) => [u]
      case None => []
    }
  }

  /** Collecting images from two runs of links is collecting from each in turn. */
  lemma {:induction false} ImageUrlsAppend(a: seq<string>, b: seq<string>)
    ensures ImageUrls(a + b) == ImageUrls(a) + ImageUrls(b)
  {
    if b == [] {
      assert a + b == a;
    } else {
      assert (a + b)[..|a + b| - 1] == a + b[..|b| - 1];
      ImageUrlsAppend(a, b[..|b| - 1]);
    }
  }

  /** Every style that carries an address contributes it, and no other does. */
  lemma {:induction false} ImageUrlsComplete(styles: seq<string>)
    ensures (forall k :: 0 <= k < |styles| ==> ImageUrl(styles[k]).None?) <==> ImageUrls(styles) == []
  {
    if styles != [] {
      var init := styles[..|styles| - 1];
      ImageUrlsComplete(init);
      assert forall k :: 0 <= k < |init| ==> init[k] == styles[k];
    }
  }

  // ---------------------------------------------------------------------
  // One block, one page
  // ---------------------------------------------------------------------

  /**
   * The text the scraper reads from one listing block; `None` marks an
   * element the block lacks. `engineText` is the text of the element that
   * holds the engine volume's parent, `mileageText` that of the element
   * mentioning "км"; `pricePrimary` and `priceNodes` feed the price locator.
   */
  datatype Block = Block(
    lotLabel: Option<string>,
    heading: Option<string>,
    auctionDate: Option<string>,
    yearLabel: Option<string>,
    engineText: Option<string>,
    mileageText: Option<string>,
    pricePrimary: Option<string>,
    priceNodes: seq<string>,
    auctionHref: Option<string>,
    imageStyles: seq<string>)

  /** The record built from one block: a field is `None` when its key is not set. */
  datatype Candidate = Candidate(
    lotNumber: Option<string>,
    brand: Option<string>,
    model: Option<string>,
    auctionDate: Option<string>,
    year: Option<nat>,
    engineVolume: Option<string>,
    mileage: Option<nat>,
    price: Option<nat>,
    lotUrl: Option<string>,
    images: Option<seq<string>>)

  function OptionYear(tag: Option<string>): (r: Option<nat>)
    ensures r.Some? <==> tag.Some? && exists i :: 0 <= i < |tag.value| && YearAt(tag.value, i)
    ensures r.Some? ==> r.value < 10000
  {
    if tag.Some? then YearOf(tag.value) else None
  }

  function OptionEngine(text: Option<string>): (r: Option<string>)
    ensures r.Some? <==> text.Some? && exists i :: 0 <= i < |text.value| && EngineAt(text.value, i)
  {
    if text.Some? then EngineVolume(text.value) else None
  }

  function OptionMileage(text: Option<string>): Option<nat> {
    if text.Some? then Mileage(text.value) else None
  }

  function ExtractCarFromBlock(b: Block): (r: Candidate)
    ensures r.lotNumber.Some? <==> b.lotLabel.Some?
    ensures b.lotLabel.Some? ==> r.lotNumber == Some(LotNumber(b.lotLabel.value))
    ensures b.heading.Some? ==>
              r.brand.Some? && r.model.Some? && (r.brand.value, r.model.value) == BrandModel.SplitBrandModel(b.heading.value)
    ensures b.yearLabel.Some? ==> r.year == YearOf(b.yearLabel.value)
    ensures b.engineText.Some? ==> r.engineVolume == EngineVolume(b.engineText.value)
    ensures b.mileageText.Some? ==> r.mileage == Mileage(b.mileageText.value)
    ensures r.price == Price.ExtractPrice(b.pricePrimary, b.priceNodes)
    ensures b.auctionHref.Some? ==> r.lotUrl == Some(ResolveLotUrl(b.auctionHref.value))
    ensures r.lotNumber.Some? ==> AllDigits(r.lotNumber.value)
    ensures r.brand.Some? <==> b.heading.Some?
    ensures r.model.Some? <==> b.heading.Some?
    ensures r.auctionDate == b.auctionDate
    ensures r.year.Some? <==> b.yearLabel.Some? && exists i :: 0 <= i < |b.yearLabel.value| && YearAt(b.yearLabel.value, i)
    ensures r.year.Some? ==> r.year.value < 10000
    ensures r.engineVolume.Some? <==>
              b.engineText.Some? && exists i :: 0 <= i < |b.engineText.value| && EngineAt(b.engineText.value, i)
    ensures r.mileage.Some? ==> b.mileageText.Some?
    ensures r.price.Some? ==> Price.InPriceRange(r.price.value)
    ensures r.lotUrl.Some? <==> b.auctionHref.Some?
    ensures r.images.Some? <==> ImageUrls(b.imageStyles) != []
    ensures r.images.Some? ==> r.images.value == ImageUrls(b.imageStyles)
  {
    var split := if b.heading.Some? then Some(BrandModel.SplitBrandModel(b.heading.value)) else None;
    var images := ImageUrls(b.imageStyles);
    Candidate(
      lotNumber := if b.lotLabel.Some? then Some(LotNumber(b.lotLabel.value)) else None,
      brand := if split.Some? then Some(split.value.0) else None,
      model := if split.Some? then Some(split.value.1) else None,
      auctionDate := b.auctionDate,
      year := OptionYear(b.yearLabel),
      engineVolume := OptionEngine(b.engineText),
      mileage := OptionMileage(b.mileageText),
      price := Price.ExtractPrice(b.pricePrimary, b.priceNodes),
      lotUrl := if b.auctionHref.Some? then Some(ResolveLotUrl(b.auctionHref.value)) else None,
      images := if images != [] then Some(images) else None)
  }

  /**
   * The brand is set and empty exactly when the heading is blank once
   * normalised; such a record is skipped when saved.
   */
  lemma BlockBrandEmptyIff(b: Block)
    requires b.heading.Some?
    ensures var r := ExtractCarFromBlock(b);
            r.brand.Some? && (r.brand.value == "" <==> BrandModel.Normalize(b.heading.value) == "")
  {
    BrandModel.BrandEmptyIff(b.heading.value);
  }

  /**
   * One record per block, in page order. Every block yields a record: the
   * price key is always set, so the record is never empty and the
   * emptiness test before appending always passes.
   */
  method ParseCarData(blocks: seq<Block>) returns (cars: seq<Candidate>)
    ensures |cars| == |blocks|
    ensures forall i :: 0 <= i < |blocks| ==> cars[i] == ExtractCarFromBlock(blocks[i])
  {
    cars := [];
    for i := 0 to |blocks|
      invariant |cars| == i
      invariant forall k :: 0 <= k < i ==> cars[k] == ExtractCarFromBlock(blocks[k])
    {
      var car := ExtractCarFromBlock(blocks[i]);
      cars := cars + [car];
    }
  }
}
