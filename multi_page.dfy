/**
 * The multi-page driver. Pages are numbered from `start`; the k-th page
 * visited is page `start + k`, and `results[k]` is the (cars, images) pair
 * its single-page step reported (a page beyond the supplied results reports
 * (0, 0)). In range mode every page from `start` to `end` is visited; in
 * auto mode the driver stops after the third empty page in a row or after
 * fifty pages. The driver records what it does as a trace of fetches and
 * pauses.
 */
module MultiPage {
  import opened Wrappers
  import opened RunLog

  const MaxPages: nat := 50
  const EmptyLimit: nat := 3

  datatype Event = Fetch(page: int) | Pause

  function ResultAt(results: seq<(nat, nat)>, k: nat): (nat, nat) {
    if k < |results| then results[k] else (0, 0)
  }

  /** A page is empty when it created neither a car nor an image. */
  predicate EmptyAt(results: seq<(nat, nat)>, k: nat) {
    ResultAt(results, k).0 == 0 && ResultAt(results, k).1 == 0
  }

  /** Pages k, k+1 and k+2 are all empty. */
  predicate ThreeEmptyAt(results: seq<(nat, nat)>, k: nat) {
    EmptyAt(results, k) && EmptyAt(results, k + 1) && EmptyAt(results, k + 2)
  }

  // ---------------------------------------------------------------------
  // How many pages a run visits
  // ---------------------------------------------------------------------

  /**
   * Auto mode from page index `k` on, with `empties` empty pages just
   * before it: the number of pages visited in all.
   */
  function AutoFrom(results: seq<(nat, nat)>, k: nat, empties: nat): (n: nat)
    requires k < MaxPages
    ensures k < n <= MaxPages
    decreases MaxPages - k
  {
    if EmptyAt(results, k) && empties + 1 >= EmptyLimit then k + 1
    else if k + 1 == MaxPages then MaxPages
    else AutoFrom(results, k + 1, if EmptyAt(results, k) then empties + 1 else 0)
  }

  function AutoVisited(results: seq<(nat, nat)>): nat {
    AutoFrom(results, 0, 0)
  }

  /** Range mode visits `start..end` whatever the pages hold; auto mode applies the stopping rule. */
  function Visited(start: int, end: Option<int>, results: seq<(nat, nat)>): nat {
    match end
    case None => AutoVisited(results)
    case Some(e) => if e >= start then e - start + 1 else 0
  }

  /** `empties` counts exactly the empty pages right before `k`. */
  predicate TrailingEmpties(results: seq<(nat, nat)>, k: nat, empties: nat) {
    empties <= k
    && (forall j :: k - empties <= j < k ==> EmptyAt(results, j))
    && (empties < k ==> !EmptyAt(results, k - empties - 1))
  }

  /** Below a page that does not end the run, no three empty pages end. */
  lemma NoNewTriple(results: seq<(nat, nat)>, k: nat, empties: nat)
    requires 2 <= k && empties < EmptyLimit && TrailingEmpties(results, k, empties)
    requires !(EmptyAt(results, k) && empties + 1 >= EmptyLimit)
    ensures !ThreeEmptyAt(results, k - 2)
  {
    if empties == 0 {
      assert !EmptyAt(results, k - 1);
    } else if empties == 1 {
      assert !EmptyAt(results, k - 2);
    } else {
      assert !EmptyAt(results, k);
    }
  }

  /** The counter after page `k` counts the empty pages right before `k + 1`. */
  lemma TrailingNext(results: seq<(nat, nat)>, k: nat, empties: nat)
    requires TrailingEmpties(results, k, empties)
    ensures TrailingEmpties(results, k + 1, if EmptyAt(results, k) then empties + 1 else 0)
  {
  }

  /** No three consecutive empty pages lie wholly below page index `m`. */
  predicate NoTripleBelow(results: seq<(nat, nat)>, m: nat) {
    forall j :: 0 <= j && j + 3 <= m ==> !ThreeEmptyAt(results, j)
  }

  /** A page that does not end the run completes no triple of empty pages. */
  lemma NoTripleNext(results: seq<(nat, nat)>, k: nat, empties: nat)
    requires empties < EmptyLimit && TrailingEmpties(results, k, empties)
    requires NoTripleBelow(results, k)
    requires !(EmptyAt(results, k) && empties + 1 >= EmptyLimit)
    ensures NoTripleBelow(results, k + 1)
  {
    if 2 <= k {
      NoNewTriple(results, k, empties);
    }
    forall j | 0 <= j && j + 3 <= k + 1
      ensures !ThreeEmptyAt(results, j)
    {
      if j + 2 == k {
        assert j == k - 2;
      }
    }
  }

  /** What the counter of the auto loop means, and that no earlier triple of empties exists. */
  lemma {:induction false} AutoFromStops(results: seq<(nat, nat)>, k: nat, empties: nat)
    requires k < MaxPages && empties < EmptyLimit
    requires TrailingEmpties(results, k, empties)
    requires NoTripleBelow(results, k)
    ensures var n := AutoFrom(results, k, empties);
            NoTripleBelow(results, n - 1) && (n < MaxPages ==> n >= 3 && ThreeEmptyAt(results, n - 3))
    decreases MaxPages - k
  {
    if EmptyAt(results, k) && empties + 1 >= EmptyLimit {
      assert AutoFrom(results, k, empties) == k + 1;
      assert EmptyAt(results, k - 2) && EmptyAt(results, k - 1);
      assert ThreeEmptyAt(results, k - 2);
    } else if k + 1 == MaxPages {
      assert AutoFrom(results, k, empties) == k + 1;
    } else {
      var next := if EmptyAt(results, k) then empties + 1 else 0;
      TrailingNext(results, k, empties);
      NoTripleNext(results, k, empties);
      assert AutoFrom(results, k, empties) == AutoFrom(results, k + 1, next);
      AutoFromStops(results, k + 1, next);
    }
  }

  /**
   * Auto mode visits between one and fifty pages. It stops early exactly
   * when the last three pages visited were empty, and no three consecutive
   * empty pages occur before that.
   */
  lemma AutoVisitedStops(results: seq<(nat, nat)>)
    ensures var n := AutoVisited(results);
            1 <= n <= MaxPages
            && (forall j :: 0 <= j && j + 3 < n ==> !ThreeEmptyAt(results, j))
            && (n < MaxPages ==> n >= 3 && ThreeEmptyAt(results, n - 3))
  {
    AutoFromStops(results, 0, 0);
    var n := AutoVisited(results);
    assert NoTripleBelow(results, n - 1);
  }

  /**
   * The stopping rule pins the count down: a number of pages with no
   * earlier triple of empty pages, that is fifty or ends on such a triple,
   * is the number auto mode visits.
   */
  lemma AutoVisitedIs(results: seq<(nat, nat)>, n: nat)
    requires 1 <= n <= MaxPages
    requires NoTripleBelow(results, n - 1)
    requires n < MaxPages ==> n >= 3 && ThreeEmptyAt(results, n - 3)
    ensures AutoVisited(results) == n
  {
    AutoVisitedStops(results);
    var m := AutoVisited(results);
    var lastM: nat := m - 3;
    var lastN: nat := n - 3;
    assert m < n ==> ThreeEmptyAt(results, lastM);
    assert n < m ==> ThreeEmptyAt(results, lastN);
  }

  /** A page that is not empty resets the count: a run of non-empty pages is never cut short. */
  lemma {:induction false} AutoNoEmpties(results: seq<(nat, nat)>, k: nat, empties: nat)
    requires k < MaxPages
    requires forall j :: k <= j < MaxPages ==> !EmptyAt(results, j)
    ensures AutoFrom(results, k, empties) == MaxPages
    decreases MaxPages - k
  {
    if k + 1 < MaxPages {
      AutoNoEmpties(results, k + 1, 0);
    }
  }

  // ---------------------------------------------------------------------
  // Totals
  // ---------------------------------------------------------------------

  function SumCars(results: seq<(nat, nat)>, n: nat): nat {
    if n == 0 then 0 else SumCars(results, n - 1) + ResultAt(results, n - 1).0
  }

  function SumImages(results: seq<(nat, nat)>, n: nat): nat {
    if n == 0 then 0 else SumImages(results, n - 1) + ResultAt(results, n - 1).1
  }

  function CountNonEmpty(results: seq<(nat, nat)>, n: nat): nat {
    if n == 0 then 0 else CountNonEmpty(results, n - 1) + if EmptyAt(results, n - 1) then 0 else 1
  }

  /** The number of successful pages never exceeds the pages visited, and is zero exactly when nothing was created. */
  lemma {:induction false} CountNonEmptyBounds(results: seq<(nat, nat)>, n: nat)
    ensures CountNonEmpty(results, n) <= n
    ensures CountNonEmpty(results, n) == 0 <==> SumCars(results, n) == 0 && SumImages(results, n) == 0
  {
    if n > 0 {
      CountNonEmptyBounds(results, n - 1);
    }
  }

  // ---------------------------------------------------------------------
  // The trace
  // ---------------------------------------------------------------------

  /** `k` fetches, each followed by a pause. */
  function Steps(start: int, k: nat): (r: seq<Event>)
    ensures |r| == 2 * k
  {
    if k == 0 then [] else Steps(start, k - 1) + [Fetch(start + k - 1), Pause]
  }

  /** The trace of a run that visits `n` pages: fetches of `start..start+n-1` with a pause between each two. */
  function Trace(start: int, n: nat): (r: seq<Event>)
    ensures n == 0 ==> r == []
    ensures n > 0 ==> |r| == 2 * n - 1
  {
    if n == 0 then [] else Steps(start, n - 1) + [Fetch(start + n - 1)]
  }

  lemma {:induction false} StepsShape(start: int, k: nat)
    ensures forall i :: 0 <= i < k ==> Steps(start, k)[2 * i] == Fetch(start + i) && Steps(start, k)[2 * i + 1] == Pause
  {
    if k > 0 {
      StepsShape(start, k - 1);
      var prev := Steps(start, k - 1);
      assert forall i :: 0 <= i < 2 * (k - 1) ==> Steps(start, k)[i] == prev[i];
    }
  }

  /**
   * The pages are fetched in increasing order, one each, and a pause
   * comes only between two fetches, never first or last.
   */
  lemma TraceShape(start: int, n: nat)
    ensures var t := Trace(start, n);
            (forall i :: 0 <= i < n ==> t[2 * i] == Fetch(start + i))
            && (forall i :: 0 <= i < |t| ==> (t[i] == Pause <==> i % 2 == 1))
            && (forall i :: 0 <= i < |t| && t[i] == Pause ==> 0 < i < |t| - 1 && t[i - 1].Fetch? && t[i + 1].Fetch?)
  {
    if n > 0 {
      StepsShape(start, n - 1);
      var t := Trace(start, n);
      forall i | 0 <= i < |t|
        ensures t[i] == Pause <==> i % 2 == 1
      {
        if i < |t| - 1 {
          var h := i / 2;
          assert i == 2 * h || i == 2 * h + 1;
        }
      }
    }
  }

  // ---------------------------------------------------------------------
  // The loop
  // ---------------------------------------------------------------------

  /**
   * The page loop of both modes. The totals add up what the non-empty
   * pages created; `successfulPages` counts the non-empty pages.
   */
  method DrivePages(start: int, end: Option<int>, results: seq<(nat, nat)>)
    returns (totalCars: nat, totalImages: nat, successfulPages: nat, events: seq<Event>)
    ensures var n := Visited(start, end, results);
            events == Trace(start, n)
            && totalCars == SumCars(results, n) && totalImages == SumImages(results, n)
            && successfulPages == CountNonEmpty(results, n)
  {
    if end.None? {
      totalCars, totalImages, successfulPages, events := AutoPages(start, results);
    } else {
      totalCars, totalImages, successfulPages, events := RangePages(start, end.value, results);
    }
  }

  /** Auto mode: at most fifty pages, ending after the third empty page in a row. */
  method AutoPages(start: int, results: seq<(nat, nat)>)
    returns (totalCars: nat, totalImages: nat, successfulPages: nat, events: seq<Event>)
    ensures var n := AutoVisited(results);
            events == Trace(start, n)
            && totalCars == SumCars(results, n) && totalImages == SumImages(results, n)
            && successfulPages == CountNonEmpty(results, n)
  {
    totalCars, totalImages, successfulPages := 0, 0, 0;
    events := [];
    var current := start;
    var emptyPageCount: nat := 0;
    ghost var done: nat := 0;
    ghost var stopped := false;
    while current <= start + MaxPages - 1
      invariant !stopped
      invariant current == start + done && done <= MaxPages
      invariant emptyPageCount < EmptyLimit
      invariant TrailingEmpties(results, done, emptyPageCount)
      invariant NoTripleBelow(results, done)
      invariant done < MaxPages ==> events == Steps(start, done)
      invariant done == MaxPages ==> events == Trace(start, done)
      invariant totalCars == SumCars(results, done)
      invariant totalImages == SumImages(results, done)
      invariant successfulPages == CountNonEmpty(results, done)
      decreases MaxPages - done
    {
      var k: nat := current - start;
      ghost var before := emptyPageCount;
      assert Trace(start, k + 1) == events + [Fetch(current)];
      events := events + [Fetch(current)];
      var pageCars, pageImages := ResultAt(results, k).0, ResultAt(results, k).1;
      if pageCars == 0 && pageImages == 0 {
        emptyPageCount := emptyPageCount + 1;
        if emptyPageCount >= EmptyLimit {
          assert ThreeEmptyAt(results, k - 2);
          stopped := true;
          break;
        }
      } else {
        emptyPageCount := 0;
        totalCars := totalCars + pageCars;
        totalImages := totalImages + pageImages;
        successfulPages := successfulPages + 1;
      }
      TrailingNext(results, k, before);
      NoTripleNext(results, k, before);
      if current < start + MaxPages - 1 {
        events := events + [Pause];
      }
      current := current + 1;
      done := done + 1;
    }
    if stopped {
      AutoVisitedIs(results, done + 1);
    } else {
      assert NoTripleBelow(results, MaxPages - 1);
      AutoVisitedIs(results, MaxPages);
    }
  }

  /** Range mode: every page from `start` to `endPage`, empty or not. */
  method RangePages(start: int, endPage: int, results: seq<(nat, nat)>)
    returns (totalCars: nat, totalImages: nat, successfulPages: nat, events: seq<Event>)
    ensures var n := if endPage >= start then endPage - start + 1 else 0;
            events == Trace(start, n)
            && totalCars == SumCars(results, n) && totalImages == SumImages(results, n)
            && successfulPages == CountNonEmpty(results, n)
  {
    totalCars, totalImages, successfulPages := 0, 0, 0;
    events := [];
    var page := start;
    while page <= endPage
      invariant start <= page <= if endPage >= start then endPage + 1 else start
      invariant page <= endPage ==> events == Steps(start, page - start)
      invariant page > endPage ==> events == Trace(start, page - start)
      invariant totalCars == SumCars(results, page - start)
      invariant totalImages == SumImages(results, page - start)
      invariant successfulPages == CountNonEmpty(results, page - start)
      decreases endPage - page
    {
      var k: nat := page - start;
      events := events + [Fetch(page)];
      var pageCars, pageImages := ResultAt(results, k).0, ResultAt(results, k).1;
      if !(pageCars == 0 && pageImages == 0) {
        totalCars := totalCars + pageCars;
        totalImages := totalImages + pageImages;
        successfulPages := successfulPages + 1;
      }
      if page < endPage {
        events := events + [Pause];
      }
      page := page + 1;
    }
    assert page - start == if endPage >= start then endPage - start + 1 else 0;
  }

  /**
   * A whole multi-page run. `failure` stands for an exception escaping the
   * page loop: the log is marked failed and the run returns (0, 0, 0).
   * Otherwise the log is marked completed with the totals, whatever its
   * status was, so a stopped run is reported as completed.
   */
  method RunMultiPageParser(log: ParserLog, start: int, end: Option<int>, results: seq<(nat, nat)>,
                            failure: Option<string>, now: int)
    returns (totalCars: nat, totalImages: nat, successfulPages: nat, events: seq<Event>)
    modifies log
    ensures log.url == old(log.url) && log.createdAt == old(log.createdAt)
    ensures log.finishedAt == Some(now)
    ensures failure.Some? ==>
              (totalCars, totalImages, successfulPages) == (0, 0, 0)
              && log.status == Error && log.errorMessage == failure
              && log.carsParsed == old(log.carsParsed) && log.imagesParsed == old(log.imagesParsed)
    ensures failure.None? ==>
              var n := Visited(start, end, results);
              events == Trace(start, n)
              && totalCars == SumCars(results, n) && totalImages == SumImages(results, n)
              && successfulPages == CountNonEmpty(results, n)
              && log.status == Completed && log.carsParsed == totalCars && log.imagesParsed == totalImages
              && log.errorMessage == old(log.errorMessage)
  {
    if failure.Some? {
      log.MarkError(failure.value, now);
      return 0, 0, 0, [];
    }
    totalCars, totalImages, successfulPages, events := DrivePages(start, end, results);
    log.MarkCompleted(totalCars, totalImages, now);
  }
}
