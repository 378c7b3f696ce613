/**
 * The small rules of the web interface: normalising the requested page
 * range before a multi-page run, the sweep that stops every running log,
 * and the filters of the car listing.
 */
module Views {
  import opened Wrappers
  import opened Text
  import opened Store
  import opened RunLog
  import MultiPage

  // ---------------------------------------------------------------------
  // Page range
  // ---------------------------------------------------------------------

  /** What `int()` accepts once the text is stripped: an optional sign, then ASCII digits. */
  predicate IntLiteral(s: string) {
    (s != [] && AllDigits(s)) || (|s| >= 2 && (s[0] == '+' || s[0] == '-') && AllDigits(s[1..]))
  }

  /** `int()` of an already stripped string: an optional sign and ASCII digits. */
  function ParseInt(s: string): (r: Option<int>)
    ensures r.Some? <==> IntLiteral(s)
    ensures s != [] && AllDigits(s) ==> r == Some(Value(s))
    ensures |s| >= 2 && s[0] == '+' && AllDigits(s[1..]) ==> r == Some(Value(s[1..]))
    ensures |s| >= 2 && s[0] == '-' && AllDigits(s[1..]) ==> r == Some(-(Value(s[1..]) as int))
  {
    if s != [] && (s[0] == '+' || s[0] == '-') then
      if s[1..] != [] && AllDigits(s[1..]) then Some(if s[0] == '-' then -(Value(s[1..]) as int) else Value(s[1..])) else None
    else if s != [] && AllDigits(s) then Some(Value(s))
    else None
  }

  /** The decimal digits of `n`, most significant first. */
  function Decimal(n: nat): (r: string)
    ensures r != [] && AllDigits(r)
  {
    (if n < 10 then [] else Decimal(n / 10)) + ['0' + (n % 10) as char]
  }

  lemma {:induction false} ValueOfDecimal(n: nat)
    ensures Value(Decimal(n)) == n
  {
    var d := '0' + (n % 10) as char;
    if n < 10 {
      assert Decimal(n) == [] + [d];
      ValueSnoc([], d);
    } else {
      ValueOfDecimal(n / 10);
      ValueSnoc(Decimal(n / 10), d);
    }
  }

  /** A page number written out in decimal is read back as itself. */
  lemma ParseIntOfDecimal(n: nat)
    ensures ParseInt(Decimal(n)) == Some(n)
  {
    ValueOfDecimal(n);
  }

  /** Text with no whitespace at either end is its own stripped form. */
  lemma StripOfUnspaced(s: string)
    requires s == [] || (!IsSpace(s[0]) && !IsSpace(s[|s| - 1]))
    ensures Strip(s) == s
  {
  }

  /** A field that is not an integer literal, such as "abc" or "1.5", is rejected. */
  lemma ParseIntRejects(s: string)
    requires s == "abc" || s == "1.5" || s == "-" || s == "+-1"
    ensures ParseInt(s).None?
  {
    if s == "abc" {
      assert !IsDigit(s[0]) && !IsDigit(s[1..][0]);
    } else if s != "-" {
      assert !IsDigit(s[1]) && s[1..][0] == s[1];
    }
  }

  /**
   * A page number in the form reads as itself when it is at least 1, and
   * zero or a negative number reads as the first page.
   */
  lemma ClampStartPageOfNumber(n: nat, negative: bool)
    ensures ClampStartPage((if negative then "-" else "") + Decimal(n)) == if negative || n == 0 then 1 else n
  {
    var d := Decimal(n);
    var s := (if negative then "-" else "") + d;
    ValueOfDecimal(n);
    assert IsDigit(d[0]) && IsDigit(d[|d| - 1]);
    assert s[|s| - 1] == d[|d| - 1];
    StripOfUnspaced(s);
    if negative {
      assert s[1..] == d;
      assert ParseInt(s) == Some(-(n as int));
    } else {
      assert s == d;
      assert ParseInt(s) == Some(n);
    }
  }

  /** The first page: 1 when the field is not a number or is below 1. */
  function ClampStartPage(raw: string): (r: int)
    ensures r >= 1
    ensures ParseInt(Strip(raw)).None? ==> r == 1
    ensures ParseInt(Strip(raw)).Some? && ParseInt(Strip(raw)).value < 1 ==> r == 1
    ensures ParseInt(Strip(raw)).Some? && ParseInt(Strip(raw)).value >= 1 ==> r == ParseInt(Strip(raw)).value
  {
    match ParseInt(Strip(raw))
    case Some(n) => if n < 1 then 1 else n
    case None => 1
  }

  /**
   * The last page: `None` (auto mode) when the field is empty or not a
   * number; otherwise the number, raised to `start` and lowered to
   * `start + 49`.
   */
  function ClampEndPage(start: int, raw: string): (r: Option<int>)
    ensures ParseInt(Strip(raw)).None? ==> r.None?
    ensures r.Some? ==> start <= r.value <= start + MultiPage.MaxPages - 1
    ensures ParseInt(Strip(raw)).Some? ==>
              var e := ParseInt(Strip(raw)).value;
              (start <= e <= start + 49 ==> r == Some(e))
              && (e < start ==> r == Some(start))
              && (e > start + 49 ==> r == Some(start + 49))
  {
    var text := Strip(raw);
    if text == [] then None
    else match ParseInt(text)
      case Some(e) =>
        var atLeast := if e < start then start else e;
        Some(if atLeast > start + 49 then start + 49 else atLeast)
      case None => None
  }

  /** Whatever the form holds, a multi-page run visits between one and fifty pages. */
  lemma RequestedRunSpan(startRaw: string, endRaw: string, results: seq<(nat, nat)>)
    ensures var start := ClampStartPage(startRaw);
            var end := ClampEndPage(start, endRaw);
            start >= 1 && 1 <= MultiPage.Visited(start, end, results) <= MultiPage.MaxPages
  {
    MultiPage.AutoVisitedStops(results);
  }

  // ---------------------------------------------------------------------
  // Stopping running logs
  // ---------------------------------------------------------------------

  const StopMessage: string := "Остановлен пользователем"

  function StatusesOf(logs: seq<ParserLog>): (r: seq<Status>)
    reads logs
    ensures |r| == |logs| && forall i :: 0 <= i < |logs| ==> r[i] == logs[i].status
  {
    if logs == [] then [] else StatusesOf(logs[..|logs| - 1]) + [logs[|logs| - 1].status]
  }

  function CountStatus(statuses: seq<Status>, st: Status): (n: nat)
    ensures n <= |statuses|
  {
    if statuses == [] then 0
    else CountStatus(statuses[..|statuses| - 1], st) + if statuses[|statuses| - 1] == st then 1 else 0
  }

  /**
   * Every running log becomes stopped, with a finishing time and the stop
   * message; every other log is left alone. Returns how many were stopped.
   */
  method StopRunning(logs: seq<ParserLog>, now: int) returns (count: nat)
    requires forall i, j :: 0 <= i < j < |logs| ==> logs[i] != logs[j]
    modifies logs
    ensures count == CountStatus(old(StatusesOf(logs)), Running)
    ensures forall i :: 0 <= i < |logs| && old(logs[i].status) == Running ==>
              logs[i].status == Stopped && logs[i].finishedAt == Some(now) && logs[i].errorMessage == Some(StopMessage)
    ensures forall i :: 0 <= i < |logs| && old(logs[i].status) != Running ==>
              logs[i].status == old(logs[i].status) && logs[i].finishedAt == old(logs[i].finishedAt)
              && logs[i].errorMessage == old(logs[i].errorMessage)
    ensures forall i :: 0 <= i < |logs| ==>
              logs[i].url == old(logs[i].url) && logs[i].createdAt == old(logs[i].createdAt)
              && logs[i].carsParsed == old(logs[i].carsParsed) && logs[i].imagesParsed == old(logs[i].imagesParsed)
  {
    ghost var before := StatusesOf(logs);
    count := 0;
    for k := 0 to |logs|
      invariant count == CountStatus(before[..k], Running)
      invariant forall i :: 0 <= i < |logs| ==>
                  if i < k && old(logs[i].status) == Running
                  then logs[i].status == Stopped && logs[i].finishedAt == Some(now) && logs[i].errorMessage == Some(StopMessage)
                  else logs[i].status == old(logs[i].status) && logs[i].finishedAt == old(logs[i].finishedAt)
                       && logs[i].errorMessage == old(logs[i].errorMessage)
      invariant forall i :: 0 <= i < |logs| ==>
                  logs[i].url == old(logs[i].url) && logs[i].createdAt == old(logs[i].createdAt)
                  && logs[i].carsParsed == old(logs[i].carsParsed) && logs[i].imagesParsed == old(logs[i].imagesParsed)
    {
      assert before[..k + 1][..k] == before[..k];
      var log := logs[k];
      assert forall i :: 0 <= i < |logs| && i != k ==> logs[i] != log;
      if log.status == Running {
        log.status := Stopped;
        log.finishedAt := Some(now);
        log.errorMessage := Some(StopMessage);
        count := count + 1;
      }
    }
    assert before[..|logs|] == before;
  }

  // ---------------------------------------------------------------------
  // The car listing
  // ---------------------------------------------------------------------

  /**
   * The listing's filters: an empty string or `None` means the filter is
   * not given. The numeric bounds are the values after `int()`.
   */
  datatype CarFilter = CarFilter(
    search: string,
    brand: string,
    yearFrom: Option<int>,
    yearTo: Option<int>,
    priceFrom: Option<int>,
    priceTo: Option<int>,
    mileageFrom: Option<int>,
    mileageTo: Option<int>)

  const NoFilter: CarFilter := CarFilter("", "", None, None, None, None, None, None)

  /** Case-insensitive containment (ASCII letters only are folded). */
  predicate ContainsFolded(field: string, part: string) {
    Contains(Lower(field), Lower(part))
  }

  /** A bound on a column that may be null: a null value never satisfies a given bound. */
  predicate InRange(v: Option<nat>, from: Option<int>, to: Option<int>) {
    (from.None? || (v.Some? && from.value <= v.value))
    && (to.None? || (v.Some? && v.value <= to.value))
  }

  predicate Matches(car: Car, f: CarFilter) {
    (f.search == [] || ContainsFolded(car.brand, f.search) || ContainsFolded(car.model, f.search)
      || (car.lotNumber.Some? && ContainsFolded(car.lotNumber.value, f.search)))
    && (f.brand == [] || car.brand == f.brand)
    && InRange(Some(car.year), f.yearFrom, f.yearTo)
    && InRange(car.price, f.priceFrom, f.priceTo)
    && InRange(car.mileage, f.mileageFrom, f.mileageTo)
  }

  /** The cars that pass every given filter, in their original order. */
  function FilterCars(cars: seq<Car>, f: CarFilter): (r: seq<Car>)
    ensures |r| <= |cars|
    ensures forall car :: car in r <==> car in cars && Matches(car, f)
  {
    if cars == [] then []
    else FilterCars(cars[..|cars| - 1], f) + if Matches(cars[|cars| - 1], f) then [cars[|cars| - 1]] else []
  }

  /** Filtering works car by car: the filtered listing of two runs of cars is the two filtered runs. */
  lemma {:induction false} FilterCarsAppend(a: seq<Car>, b: seq<Car>, f: CarFilter)
    ensures FilterCars(a + b, f) == FilterCars(a, f) + FilterCars(b, f)
  {
    if b == [] {
      assert a + b == a;
    } else {
      assert (a + b)[..|a + b| - 1] == a + b[..|b| - 1];
      FilterCarsAppend(a, b[..|b| - 1], f);
    }
  }

  /** With no filter given, every car is listed. */
  lemma {:induction false} NoFilterKeepsAll(cars: seq<Car>)
    ensures FilterCars(cars, NoFilter) == cars
  {
    if cars != [] {
      var last := cars[|cars| - 1];
      NoFilterKeepsAll(cars[..|cars| - 1]);
      assert Matches(last, NoFilter);
      assert cars == cars[..|cars| - 1] + [last];
    }
  }

  /**
   * The bounds are inclusive at both ends: with bounds on one column and no
   * other filter, a car is listed exactly when its value lies between them,
   * and a car without a price never passes a price bound.
   */
  lemma BoundsInclusive(cars: seq<Car>, from: int, to: int)
    ensures forall car :: car in FilterCars(cars, NoFilter.(yearFrom := Some(from), yearTo := Some(to))) <==>
              car in cars && from <= car.year <= to
    ensures forall car :: car in FilterCars(cars, NoFilter.(priceFrom := Some(from), priceTo := Some(to))) <==>
              car in cars && car.price.Some? && from <= car.price.value <= to
    ensures forall car :: car in FilterCars(cars, NoFilter.(mileageFrom := Some(from), mileageTo := Some(to))) <==>
              car in cars && car.mileage.Some? && from <= car.mileage.value <= to
  {
  }

  /** At most the first three images of a car are shown. */
  function ShownImages(urls: seq<string>): (r: seq<string>)
    ensures |r| == if |urls| < 3 then |urls| else 3
    ensures r == urls[..|r|]
  {
    if |urls| < 3 then urls else urls[..3]
  }
}
