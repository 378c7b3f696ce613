/**
 * Running the scraper on one page: the single-run entry point that reports
 * its outcome on a run log, and the per-page step of the multi-page driver,
 * which only returns counts. A page is what the fetch produced: `None` when
 * no HTML came back (a failed request or an empty body), otherwise the
 * listing blocks found in it.
 */
module Runner {
  import opened Wrappers
  import opened Fields
  import opened Store
  import opened RunLog

  const NoHtmlMessage: string := "Не удалось получить HTML содержимое"
  const NoCarsMessage: string := "Не найдено данных об автомобилях"

  /** The records built from a page's blocks, one per block. */
  function Records(blocks: seq<Block>): (r: seq<Candidate>)
    ensures |r| == |blocks|
    ensures forall i :: 0 <= i < |blocks| ==> r[i] == ExtractCarFromBlock(blocks[i])
  {
    seq(|blocks|, i requires 0 <= i < |blocks| => ExtractCarFromBlock(blocks[i]))
  }

  /** What one page does to the store, and the counts it reports. */
  function PageCounts(s: StoreState, page: Option<seq<Block>>): (r: (StoreState, nat, nat))
    ensures page.None? || page.value == [] ==> r == (s, 0, 0)
    ensures page.Some? && page.value != [] ==> r == SaveAll(s, Records(page.value))
  {
    if page.None? || page.value == [] then (s, 0, 0)
    else SaveAll(s, Records(page.value))
  }

  /** A page whose every block carries a lot number. */
  predicate AllLotted(blocks: seq<Block>) {
    forall i :: 0 <= i < |blocks| ==> blocks[i].lotLabel.Some? && LotNumber(blocks[i].lotLabel.value) != ""
  }

  /**
   * Scraping a page a second time finds every lot already stored: the page
   * reports (0, 0), which the multi-page driver counts as an empty page.
   */
  lemma RerunPageIsEmpty(s: StoreState, blocks: seq<Block>)
    requires ValidState(s) && AllLotted(blocks)
    ensures var s1 := PageCounts(s, Some(blocks)).0;
            PageCounts(s1, Some(blocks)) == (s1, 0, 0)
  {
    var batch := Records(blocks);
    forall k | 0 <= k < |batch|
      ensures HasLot(batch[k])
    {
      assert batch[k] == ExtractCarFromBlock(blocks[k]);
    }
    Resubmit(s, batch);
  }

  /** Every page leaves the store consistent and only ever adds to it. */
  lemma PageCountsValid(s: StoreState, page: Option<seq<Block>>)
    requires ValidState(s)
    ensures var r := PageCounts(s, page);
            ValidState(r.0) && |r.0.cars| == |s.cars| + r.1 && |r.0.images| == |s.images| + r.2
  {
    if page.Some? && page.value != [] {
      SaveAllValid(s, Records(page.value));
      SaveAllCounts(s, Records(page.value));
    }
  }

  /** One page of the multi-page run: (0, 0) when there is no HTML or no record. */
  method ParseSinglePage(store: CarStore, page: Option<seq<Block>>) returns (cars: nat, images: nat)
    requires store.Valid()
    modifies store
    ensures store.Valid()
    ensures (store.State(), cars, images) == PageCounts(old(store.State()), page)
  {
    if page.None? {
      return 0, 0;
    }
    var records := ParseCarData(page.value);
    if records == [] {
      return 0, 0;
    }
    assert records == Records(page.value);
    cars, images := store.SaveToDatabase(records);
  }

  /**
   * A single run: a page without HTML or without records fails the run with
   * its message and leaves the store alone; otherwise the records are saved
   * and the run completes with the counts of what was created.
   */
  method RunParser(store: CarStore, log: ParserLog, page: Option<seq<Block>>, now: int)
    requires store.Valid()
    modifies store, log
    ensures store.Valid()
    ensures log.url == old(log.url) && log.createdAt == old(log.createdAt)
    ensures log.finishedAt == Some(now)
    ensures page.None? ==>
              log.status == Error && log.errorMessage == Some(NoHtmlMessage) && store.State() == old(store.State())
              && log.carsParsed == old(log.carsParsed) && log.imagesParsed == old(log.imagesParsed)
    ensures page.Some? && page.value == [] ==>
              log.status == Error && log.errorMessage == Some(NoCarsMessage) && store.State() == old(store.State())
              && log.carsParsed == old(log.carsParsed) && log.imagesParsed == old(log.imagesParsed)
    ensures page.Some? && page.value != [] ==>
              var r := SaveAll(old(store.State()), Records(page.value));
              store.State() == r.0 && log.status == Completed && log.carsParsed == r.1 && log.imagesParsed == r.2
              && log.errorMessage == old(log.errorMessage)
  {
    if page.None? {
      log.MarkError(NoHtmlMessage, now);
      return;
    }
    var records := ParseCarData(page.value);
    if records == [] {
      log.MarkError(NoCarsMessage, now);
      return;
    }
    assert records == Records(page.value);
    var cars, images := store.SaveToDatabase(records);
    log.MarkCompleted(cars, images, now);
  }
}
