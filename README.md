# car_parser in Dafny

A model of the scraper in `car_parser`. The scraper reads the listing pages of
an auto-auction site and turns each listing block into a car record. It stores
the records in a database of cars and images, and keeps a log of every run.
The model covers four parts of it:

- **Field extraction.** This turns the text of a block into a record: lot
  number, brand and model, year, engine volume, mileage, price, link and
  images. It also covers the price parser with its table of space variants and
  its plausibility bounds, and the brand/model splitter with its brand tables.
- **Saving.** The upsert policy of `save_to_database`:
  - a record without a brand or year is skipped;
  - a record is looked up by lot number (get-or-create);
  - each (car, url) image pair is get-or-created;
  - the two counters report what was created.
  - Deleting a car cascades to its images.
- **Runs.** The single-page run that reports on its log. The multi-page driver
  in its two modes:
  - a fixed page range;
  - auto mode, which stops after the third empty page in a row or after fifty
    pages.
  - The pauses between pages are recorded as a trace.
- **Web interface rules.** Clamping the requested page range, the sweep that
  stops every running log, the listing filters, and the three-image preview.

Modules:

| module | file | models |
|---|---|---|
| `Wrappers` | `wrappers.dfy` | `Option` |
| `Text` | `text.dfy` | Python string behaviour used by the source: digits, whitespace, `upper`, `title`, `strip`, removing characters, replacing substrings, first match |
| `Price` | `price.dfy` | `parse_price_text`, `extract_price` |
| `BrandModel` | `brand_model.dfy` | `split_brand_model` |
| `Fields` | `fields.dfy` | `extract_car_from_block`, `parse_car_data` |
| `Store` | `store.dfy` | the `Car` and `Image` tables, `save_to_database`, cascade delete |
| `RunLog` | `run_log.dfy` | `ParserLog` and its two transitions |
| `Runner` | `runner.dfy` | `run_parser`, `parse_single_page` |
| `MultiPage` | `multi_page.dfy` | `run_multi_page_parser` |
| `Views` | `views.dfy` | page-range clamping, the stop sweep, listing filters |

Each source file is modelled in the form it is written in.
- The string handling is pure, so it becomes functions with lemmas.
- The database is a class. Its fields are:
  - `cars`, a `seq` of car values in insertion order;
  - `images`, a `set` of (car id, url) pairs;
  - `nextId`.

  `SaveToDatabase` loops over the batch and updates these fields in place. It
  is proved equal to a specification function, `SaveAll`, and the properties
  are proved about `SaveAll`.
- The run log is a class whose methods overwrite its fields.
- The two page loops are methods with `while` loops. They are proved against
  the functions that say how many pages a run visits.

Inputs from outside the program become parameters:
- the fetched page, as the text of its blocks, or `None` when no HTML came back;
- the per-page counts of a multi-page run;
- the current time, as an integer;
- an escaping exception, as an optional message.

Points where the code's behaviour is easy to misread, which the model follows as written:

- `split_brand_model("LAND ROVER DISCOVERY 4")` returns `("Land Rover",
  "DISCOVERY 4")`. Only a matched brand is title-cased; the model part keeps
  its original case (auction_parser/cars/parser.py:302-303). This is proved in
  `BrandModel.ExampleLandRover`.
- No status of a run log is terminal. The code never checks the current
  status before overwriting it:
  - `mark_completed` and `mark_error` overwrite any status (auction_parser/cars/models.py:60-75);
  - the stop sweep sets `stopped` (auction_parser/cars/views.py:236), which is not among the
    declared choices (auction_parser/cars/models.py:43-47);
  - a stopped multi-page run is still marked completed at its end
    (auction_parser/cars/run_parse.py:98).

  The model states this in `RunLog.ParserLog.MarkCompleted` and
  `MultiPage.RunMultiPageParser`.
- Two observations about the code. They are not findings, since nothing shows
  the authors meant otherwise:
  - The mileage pattern's `\s` also matches a no-break space, but only ordinary
    spaces are removed afterwards. So "45 000 км" written with a no-break space
    yields no mileage (`Fields.MileageWithNoBreakSpace`).
  - `parse_car_data`'s emptiness test never drops a record, because `price` is
    always set.

## Model

| member | source | states |
|---|---|---|
| Price.ParsePrice | auction_parser/cars/parser.py:218-276 | an empty text has no price, and any price returned lies within 10 000 to 1 000 000 000 |
| Price.ParsePriceText | auction_parser/cars/parser.py:249-276 | reassigning the text once per table entry, then removing the stripped characters and the spaces, returns exactly `ParsePrice` |
| Price.ReplacedStep | auction_parser/cars/parser.py:250-251 | applying the table from entry i on is entry i's replacement followed by the rest of the table |
| Price.CleanIsFilter | auction_parser/cars/parser.py:237-261 | normalisation is the `&nbsp;` replacement followed by deleting every space variant, every currency/approximation character (either case) and every space |
| Price.CleanDropsNoise | auction_parser/cars/parser.py:229-261 | no space, space variant, tilde, approximation sign, ruble sign or letter of "RUB"/"руб" (either case) survives normalisation |
| Price.PriceOfDigitsAndNoise | auction_parser/cars/parser.py:249-270 | a text of digits and removable characters is priced by its digits alone: Some(value) exactly when there are digits and the value is within the bounds |
| Price.ExampleNoBreakSpacesAndRuble | auction_parser/cars/parser.py:237-270 | "1 500 000 ₽" written with no-break spaces is priced 1 500 000 |
| Price.ExampleBelowBound | auction_parser/cars/parser.py:265-272 | "~500" cleans to 500, which is below the lower bound, so there is no price |
| Price.ExtractPrice | auction_parser/cars/parser.py:177-216 | the selected element's text is used when it parses; otherwise the first text node (in order) that carries a ruble sign and parses; None exactly when no node qualifies; the result is always within bounds |
| BrandModel.CollapseFrom | auction_parser/cars/parser.py:288 | collapsing whitespace leaves only ordinary spaces and never two in a row; a text that starts with a non-space character keeps it first, and one that starts with whitespace (outside a run) starts with a space |
| BrandModel.CollapseKeepsWords | auction_parser/cars/parser.py:288 | collapsing whitespace keeps the words of the text, in order: `Words` of the result equals `Words` of the input |
| BrandModel.WordsOfStrip | auction_parser/cars/parser.py:288 | `strip()` keeps the words of the text |
| BrandModel.WordsConsSpace | auction_parser/cars/parser.py:288 | whitespace in front of a text adds no word |
| BrandModel.WordsConsWord | auction_parser/cars/parser.py:288 | a non-space character in front of a text forms a word of its own before whitespace or the end, and otherwise joins the first word |
| BrandModel.NormalizeIsJoinedWords | auction_parser/cars/parser.py:286-288 | the cleaned heading is exactly the words of the heading (after `&nbsp;` becomes a space) joined with single spaces |
| BrandModel.NormalizeIsNormalized | auction_parser/cars/parser.py:286-288 | the cleaned heading has single ordinary spaces and no whitespace at either end |
| BrandModel.NormalizeFixes | auction_parser/cars/parser.py:286-288 | cleaning an already clean heading with no `&` changes nothing |
| BrandModel.FirstPrefix | auction_parser/cars/parser.py:298-317 | the entry found is the first in table order (multi-word brands, then single-word brands) that prefixes the upper-cased heading; None exactly when no entry does |
| BrandModel.DropSeparators | auction_parser/cars/parser.py:328 | exactly the leading run of whitespace and dashes (hyphen, en dash, em dash) is removed |
| BrandModel.SplitBrandModel | auction_parser/cars/parser.py:279-329 | an empty heading gives ("", ""); the model never begins or ends with whitespace |
| BrandModel.SplitOfMatchedBrand | auction_parser/cars/parser.py:298-317 | with a brand entry matched, the brand is the entry title-cased, spells the heading's prefix up to case, and the model is the rest of the heading stripped, in its original case |
| BrandModel.SplitOfUnknownBrand | auction_parser/cars/parser.py:319-329 | with no entry matched, a blank heading gives ("", ""); otherwise the brand is the first word as written and the model is the rest with leading separators dropped and stripped |
| BrandModel.JoinWords | auction_parser/cars/parser.py:320-327 | joining the words of a clean heading with single spaces gives the heading back |
| BrandModel.BrandEmptyIff | auction_parser/cars/parser.py:279-329 | the brand is empty exactly when the heading is blank once cleaned |
| BrandModel.ExampleLandRover | auction_parser/cars/parser.py:298-303 | "LAND ROVER DISCOVERY 4" splits into ("Land Rover", "DISCOVERY 4") |
| BrandModel.ExampleUnknownBrand | auction_parser/cars/parser.py:319-329 | "UAZ — Patriot" splits into ("UAZ", "Patriot"): the dash before the model is dropped |
| Fields.LotNumber | auction_parser/cars/parser.py:103-106 | the lot number holds only digits and is no longer than its label |
| Fields.LotNumberAround | auction_parser/cars/parser.py:106 | digits between digit-free text are extracted exactly |
| Fields.LotNumberIdempotent | auction_parser/cars/parser.py:106 | extracting from an extracted lot number changes nothing |
| Fields.YearOf | auction_parser/cars/parser.py:120-125 | None exactly when no four digits occur in a row; otherwise the value of the leftmost four-digit run, below 10 000 |
| Fields.ExampleYear | auction_parser/cars/parser.py:122-125 | "2015 г." gives year 2015 |
| Fields.EngineVolume | auction_parser/cars/parser.py:131-135 | None exactly when no digit run followed by optional whitespace and "cc" occurs; otherwise the digit run of the leftmost match followed by " cc" |
| Fields.FirstEngine | auction_parser/cars/parser.py:133-135 | when the leftmost match starts at a, the volume is the digit run from a followed by " cc" |
| Fields.EngineVolumeOf | auction_parser/cars/parser.py:131-135 | a label without digits, then digits, any whitespace and "cc" give the digits followed by " cc", whatever the spacing |
| Fields.MileageOfGroup | auction_parser/cars/parser.py:143-145 | the group has a value exactly when it is non-empty and all digits once ordinary spaces are removed |
| Fields.Mileage | auction_parser/cars/parser.py:138-145 | no match gives no mileage; otherwise the mileage is what the group of the leftmost match reads as |
| Fields.MileageOf | auction_parser/cars/parser.py:141-145 | a text opening with digits and whitespace followed by "км" is read through that group |
| Fields.MileageOfSpacedDigits | auction_parser/cars/parser.py:141-145 | a group of digits and ordinary spaces containing a digit always yields the value of its digits |
| Fields.MileageWithNoBreakSpace | auction_parser/cars/parser.py:141-145 | "45 000 км" written with a no-break space yields no mileage |
| Fields.ResolveLotUrl | auction_parser/cars/parser.py:151-157 | a link starting with "/" is prefixed with the site origin; any other link is kept |
| Fields.ResolveLotUrlIdempotent | auction_parser/cars/parser.py:151-157 | resolving a resolved link changes nothing |
| Fields.ImageUrl | auction_parser/cars/parser.py:163-166 | None exactly when no `url('…')` with a non-empty, quote-free address occurs; otherwise the address of the leftmost such match |
| Fields.FirstImage | auction_parser/cars/parser.py:164-166 | when the leftmost match starts at a, the address is the quote-free run after "url('" at a |
| Fields.ImageUrlRoundTrip | auction_parser/cars/parser.py:164-166 | a style made of declarations without the letter "u", then `url('u')`, then anything, yields u |
| Fields.ImageUrls | auction_parser/cars/parser.py:160-166 | at most one address per link, and none of them empty |
| Fields.ImageUrlsAppend | auction_parser/cars/parser.py:160-166 | collecting over two runs of links is collecting over each in turn |
| Fields.ImageUrlsComplete | auction_parser/cars/parser.py:160-169 | the list is empty exactly when no link carries an address |
| Fields.ExtractCarFromBlock | auction_parser/cars/parser.py:95-171 | each key holds what its extractor gives for its element: the lot number is `LotNumber` of the label, brand and model are `SplitBrandModel` of the heading, the year is `YearOf`, the engine `EngineVolume`, the mileage `Mileage`, the link `ResolveLotUrl`, the price `ExtractPrice` (the price key is always set); the lot number, brand, model, auction date and link are set exactly when their element is present, year and engine exactly when the pattern also matches; the year is below 10 000, a price is within bounds; images are set exactly when some address was found |
| Fields.BlockBrandEmptyIff | auction_parser/cars/parser.py:109-112 | a block with a heading has a brand, and the brand is empty exactly when the heading is blank once cleaned |
| Fields.ParseCarData | auction_parser/cars/parser.py:73-93 | one record per block, in page order |
| Store.FindByLot | auction_parser/cars/parser.py:368-370 | the lookup returns a car with that lot number, and None exactly when no car has it |
| Store.NewCar | auction_parser/cars/parser.py:369-392 | the new car takes the next id, the record's brand and year, and its lot number exactly when the lot is non-empty |
| Store.AddImages | auction_parser/cars/parser.py:399-406 | the image set becomes the old set plus every (car, url) pair, and the count is how many pairs were new |
| Store.SaveRecord | auction_parser/cars/parser.py:361-406 | a record without brand or year changes nothing; at most one car is created and only at the end; images only grow, by the count; a record without a lot always creates a car; a known lot creates none |
| Store.SaveRecordValid | auction_parser/cars/parser.py:361-406 | saving a record keeps ids increasing and below the next id, lot numbers unique and non-empty, and every image owned by a car |
| Store.SaveAllCounts | auction_parser/cars/parser.py:394-406 | over a batch, the car list grows by exactly the cars counted, the old cars are kept, and the image set grows by exactly the images counted |
| Store.SaveAllValid | auction_parser/cars/parser.py:354-412 | saving a batch keeps the store consistent |
| Store.SaveAllSkipsAll | auction_parser/cars/parser.py:364-366 | a batch in which every record lacks a brand or a year changes nothing and counts nothing |
| Store.SaveRecordStores | auction_parser/cars/parser.py:368-406 | after saving a record with a lot, a car with that lot exists with all the record's images |
| Store.StoredKept | auction_parser/cars/parser.py:368-406 | a stored record stays stored when any other record is saved |
| Store.FindUniqueLot | auction_parser/cars/parser.py:368-370 | with unique lot numbers, the lookup finds the car that holds the lot |
| Store.SaveStoredRecord | auction_parser/cars/parser.py:368-406 | saving an already stored record changes nothing and counts (0, 0) |
| Store.SaveAllStores | auction_parser/cars/parser.py:361-406 | after a batch of lotted records, every record of the batch is stored |
| Store.SaveAllOfStored | auction_parser/cars/parser.py:361-406 | a batch of already stored records changes nothing and counts (0, 0) |
| Store.Resubmit | auction_parser/cars/parser.py:354-412 | saving the same batch of lotted records twice: the second time is a no-op counted (0, 0) |
| Store.SameLotOnce | auction_parser/cars/parser.py:368-381 | a second record with the same lot creates no car and leaves the car list as it was |
| Store.WithoutCar | auction_parser/cars/models.py:26-31 | deleting a car keeps exactly the cars with other ids |
| Store.DeleteCarValid | auction_parser/cars/models.py:26-31 | deleting a car keeps the store consistent, leaves no car with that id, and keeps exactly the images of other cars |
| Store.CarStore.constructor | auction_parser/cars/models.py:4-31 | a new store is empty, consistent, and hands out id 1 first |
| Store.CarStore.AddImagesInPlace | auction_parser/cars/parser.py:399-406 | the in-place get-or-create loop over the urls produces the `AddImages` image set and count, leaving the cars alone |
| Store.CarStore.SaveRecordInPlace | auction_parser/cars/parser.py:362-406 | one loop iteration updates the store and counts exactly as `SaveRecord` |
| Store.CarStore.SaveToDatabase | auction_parser/cars/parser.py:354-412 | the store stays consistent, and its new state and both counters are those of `SaveAll` over the batch |
| Store.CarStore.DeleteCar | auction_parser/cars/models.py:26-31 | the store stays consistent, becomes `DeleteCarSpec`, and keeps no car or image of that id |
| RunLog.ParserLog.constructor | auction_parser/cars/models.py:49-55 | a new log is running, with zero counters, no error, no finishing time, and the given url and creation time |
| RunLog.ParserLog.MarkCompleted | auction_parser/cars/models.py:60-67 | whatever the status was, it becomes completed with the given counters and finishing time; url, creation time and error message are kept |
| RunLog.ParserLog.MarkError | auction_parser/cars/models.py:69-75 | whatever the status was, it becomes error with the message and finishing time; the counters are kept |
| Runner.RunParser | auction_parser/cars/parser.py:28-53 | the log always gets the finishing time; no HTML: an error with the first message, counters and store unchanged; no record: an error with the second message, counters and store unchanged; otherwise the store and the completed log's counters are those of `SaveAll` and the error message is kept |
| Runner.ParseSinglePage | auction_parser/cars/run_parse.py:113-138 | the store stays consistent; no HTML or no record reports (0, 0) and changes nothing; otherwise the store and the counts are those of `SaveAll` |
| Runner.PageCountsValid | auction_parser/cars/run_parse.py:113-134 | every page keeps the store consistent and grows it by exactly the counts reported |
| Runner.RerunPageIsEmpty | auction_parser/cars/run_parse.py:113-134 | scraping again a page whose every block has a lot reports (0, 0), so the driver counts it as empty |
| MultiPage.AutoFrom | auction_parser/cars/run_parse.py:38-70 | from page index k, auto mode visits more than k and at most fifty pages |
| MultiPage.NoTripleNext | auction_parser/cars/run_parse.py:46-53 | a page that does not end the run completes no triple of empty pages |
| MultiPage.AutoFromStops | auction_parser/cars/run_parse.py:38-70 | the run ends with no earlier triple of empty pages, and ends early only on a triple |
| MultiPage.AutoVisitedStops | auction_parser/cars/run_parse.py:38-70 | auto mode visits 1 to 50 pages; before the end no three consecutive pages are empty; a run shorter than fifty ends on three empty pages |
| MultiPage.AutoVisitedIs | auction_parser/cars/run_parse.py:46-53 | the stopping rule fixes the count: a length with no earlier triple, which is fifty or ends on a triple, is the number of pages auto mode visits |
| MultiPage.AutoNoEmpties | auction_parser/cars/run_parse.py:54-59 | a non-empty page resets the counter, so with no empty page ahead the run visits all fifty pages |
| MultiPage.CountNonEmptyBounds | auction_parser/cars/run_parse.py:46-59 | the successful pages never exceed the pages visited, and are zero exactly when no car and no image was created |
| MultiPage.TraceShape | auction_parser/cars/run_parse.py:62-68 | pages are fetched in increasing order, one each; pauses sit at the odd positions, each between two fetches, never first or last |
| MultiPage.AutoPages | auction_parser/cars/run_parse.py:33-70 | the auto loop visits exactly the pages the stopping rule allows; its trace, totals and successful-page count are those of that many pages |
| MultiPage.RangePages | auction_parser/cars/run_parse.py:71-95 | the range loop visits start..end, empty pages included; its trace, totals and successful-page count are those of that many pages |
| MultiPage.DrivePages | auction_parser/cars/run_parse.py:33-95 | the mode is chosen by whether an end page is given, and the results are those of the pages the mode visits |
| MultiPage.RunMultiPageParser | auction_parser/cars/run_parse.py:17-111 | the log always gets the finishing time; an escaping failure marks the log failed with its message, keeps the counters and returns (0, 0, 0); otherwise the log is completed with the totals of the pages visited and its error message is kept |
| Views.ParseInt | auction_parser/cars/views.py:186-195 | a value exactly when the text is an integer literal (digits, optionally after one "+" or "-"); digits read as their value, "+" keeps it and "-" negates it |
| Views.ParseIntRejects | auction_parser/cars/views.py:190-191 | "abc", "1.5", "-" and "+-1" are not numbers |
| Views.ParseIntOfDecimal | auction_parser/cars/views.py:186-195 | a page number written in decimal reads back as itself |
| Views.ClampStartPage | auction_parser/cars/views.py:183-191 | the first page is at least 1: 1 when the field is not a number or is below 1, otherwise the number |
| Views.ClampStartPageOfNumber | auction_parser/cars/views.py:183-191 | a positive page number in the form is kept; zero or a negative number gives page 1 |
| Views.ClampEndPage | auction_parser/cars/views.py:193-204 | an empty field or a non-number selects auto mode; a number is raised to the first page and lowered to the first page + 49 |
| Views.RequestedRunSpan | auction_parser/cars/views.py:182-216 | whatever the form holds, the first page is at least 1 and a run visits between 1 and 50 pages |
| Views.StopRunning | auction_parser/cars/views.py:230-240 | every running log becomes stopped, with the finishing time and the stop message; every other log keeps its status, time and message; the count is the number of logs that were running |
| Views.FilterCars | auction_parser/cars/views.py:39-62 | a car is listed exactly when it passes every filter given, and no car is added |
| Views.FilterCarsAppend | auction_parser/cars/views.py:39-62 | filtering works car by car and keeps the original order |
| Views.NoFilterKeepsAll | auction_parser/cars/views.py:39-62 | with no filter given, every car is listed |
| Views.BoundsInclusive | auction_parser/cars/views.py:49-57 | with bounds on one column (year, price or mileage) and no other filter, a car is listed exactly when its value lies between the bounds inclusive; a car with no price or mileage never passes that column's bounds |
| Views.ShownImages | auction_parser/cars/views.py:90-93 | the preview is the first min(3, n) images |

## Left out

- Fetching, HTML parsing and CSS selectors (`fetch_html`, BeautifulSoup). A block is given as the text its elements hold, and a page as its blocks or `None`. An empty HTML body counts as no HTML, as the source's truthiness test does.
- `save_to_json`: file output with a time-stamped name. It does not affect the counts or the store.
- `print` output, `time.sleep` and the random delay. Only the position of each pause is recorded, in the event trace.
- Threads (`run_in_thread`), the creation of a missing log inside the driver, and looking a log up by id. The driver is given its log.
- The per-page step inside the multi-page loop. The loop is given the (cars, images) pair each page reports; `Runner.ParseSinglePage` models the step itself.
- Exceptions. Those raised inside a block, a record's save, or a single run are not modelled. An exception escaping the multi-page loop is the `failure` parameter. Any Django ORM errors (for example duplicate rows for a lot, which get-or-create would raise on) are not modelled. The model's consistency invariant keeps lot numbers unique, and every save path preserves it.
- Unicode. Digits (`\d`, `isdigit`, `int`) are ASCII digits. `upper`, `title` and the case-insensitive `icontains` fold ASCII letters only. Whitespace is the set of characters for which Python's `str.isspace` holds. `int()` also accepts underscores and non-ASCII digits, which the model does not.
- The listing's search over the store is modelled as a filter over a sequence of cars. Sorting, pagination and `int()` failures on filter fields are not modelled; the numeric bounds are given already converted.
- The clock. Times are integers passed in by the caller.
- Database column widths and 32-bit integer columns. Counts and values are unbounded naturals.
- The admin and URL configuration, and the JSON views beyond the listing filters and the three-image preview. They only present data.
