# Commander: a Dafny model of the quote scraper, its sync route and its gates

Commander is a small HTTP API. Its `/api/dolarg` route scrapes Argentine
dollar quotes from a web page and stores them in a Firestore document.
Every route under `/api/` first passes an API-key check. The dolarg route
also passes a ten-minute cooldown gate that reads the stored document's
last sync date. A second, currently unrouted module locates the bond-listing
PDF and derives its date from the listing text.

This project models that core:

- `wrappers.dfy`: `Option` and `Result`.
- `js_string.dfy`: the JavaScript string operations the source relies on.
  - `replace` with a string pattern replaces the first occurrence only.
  - `replace(/\./g, '')` removes every occurrence.
  - `includes` and `split`. `Join` is not called by the source: it is a reference function that states the `split` round trip.
  - Truthiness of an optional string.
- `js_number.dfy`: `parseFloat` over exact decimals. It skips leading
  JavaScript white space, reads an optional sign, then the longest run of
  digits with at most one `.`. Text with no such prefix gives `NaN`.
- `dolarg.dfy`:
  - the three inline normalisers: price to number, variation to number, empty text to null;
  - `getDolargData`'s extraction loop, over an abstract list of child tiles;
  - the proof that the normalisers never store `NaN`.
- `dolarg_examples.dfy`: worked inputs such as `"$1.440,00"`, `"$1,2,3"` and `"0,5%"`.
- `cooldown.dfy`: the cooldown gate's integer-millisecond decision and its 429 message.
- `auth.dfy`: the API-key predicate.
- `sync.dfy`: the Firestore document as a `Store` class, plus the route's handler and middleware chain.
  - The document's `update` overwrites only the fields it is given.
  - The store keeps a log of every read and write.
  - `Attempt` is the reference definition of one sync attempt.
- `renta_fija.dfy`: the pure fragments of `getPdfOptions` and `isValidDate`.
  - The environment guard.
  - The date token rewritten from `d/m/y` to `m-d-y`.
  - The viewer URL.
  - Which exit leaves the browser open.

Where the written code and the intended behaviour differ, the model follows the code:

- `"0,5%"` is stored as `0`, not `0.5`, because the variation path never rewrites the comma (`src/dolarg.ts:61`).
- `"$1,2,3"` is stored as `1.2` rather than null (`src/dolarg.ts:60`).
- A failed sync writes only the status fields. `update` merges, so the previously stored `data` survives.
- `getPdfOptions` closes the browser only on its success path. An exception after the launch leaves it open.
- The handler's "no data" throw (`src/index.ts:95`) cannot fire. `getDolargData` always returns an array, and an empty array is committed as a success.

Outside inputs become parameters:

- environment variables are `Option<string>`;
- the fetched page is a function from URL to `Result` of tiles;
- each Firestore write's failure is an `Option<string>` error;
- the clock is an integer number of milliseconds.

## Model

| member | source | states |
|---|---|---|
| JsString.ReplaceFirst | src/dolarg.ts:58 | `replace(c, r)` leaves text without `c` unchanged. |
| JsString.ReplaceFirstAt | src/dolarg.ts:58 | `replace(c, r)` replaces exactly the first occurrence of `c` and keeps everything around it. |
| JsString.ReplaceFirstAfter | src/dolarg.ts:58 | Replacement skips a prefix free of `c`. |
| JsString.RemoveAll | src/dolarg.ts:58 | `replace(/c/g, '')` leaves no `c`, and leaves `c`-free text unchanged. |
| JsString.RemoveAllKeeps | src/dolarg.ts:58 | Removing `c` keeps the count of every other character. |
| JsString.RemoveAllAppend | src/dolarg.ts:58 | Removing `c` distributes over concatenation. |
| JsString.RemoveAllJoin | src/dolarg.ts:58 | Removing the separator from a join of separator-free pieces gives their concatenation. |
| JsString.ReplaceFirstCount | src/dolarg.ts:58 | `replace(c, r)` removes one `c` and adds the characters of `r` when the text holds a `c`, and otherwise changes nothing. |
| JsString.Split | src/renta-fija-argentina.ts:48 | `split(sep)` yields one more piece than there are separators, and no piece holds the separator. |
| JsString.JoinSplit | src/renta-fija-argentina.ts:48 | Joining the pieces of `split(sep)` with `sep` restores the text. |
| JsString.SplitJoin | src/renta-fija-argentina.ts:50 | Splitting a join of separator-free pieces returns the pieces. |
| JsString.SplitNoSeparator | src/renta-fija-argentina.ts:48 | Text without the separator splits into itself alone. |
| JsString.SplitAfter | src/renta-fija-argentina.ts:48 | A separator-free prefix before the separator is the first piece. |
| JsNumber.SpaceRun | src/dolarg.ts:58 | `parseFloat`'s leading white-space run is maximal. |
| JsNumber.DigitRun | src/dolarg.ts:58 | The digit run read by `parseFloat` is maximal. |
| JsNumber.ParseMagnitude | src/dolarg.ts:58 | An unsigned number is read if and only if the text starts with a digit, or with `.` and a digit. |
| JsNumber.ParseFloat | src/dolarg.ts:58 | `parseFloat` is not `NaN` if and only if the text has a numeric prefix after white space and sign. |
| JsNumber.TrimSpaces | src/dolarg.ts:58 | Leading white space is dropped up to the first other character. |
| JsNumber.DigitRunOf | src/dolarg.ts:58 | The digit run of digits followed by a non-digit is exactly those digits. |
| JsNumber.MagnitudeDecimal | src/dolarg.ts:58 | `a.f` followed by a non-digit reads as the exact decimal `a.f`. |
| JsNumber.MagnitudeInteger | src/dolarg.ts:58 | Digits followed by neither a digit nor `.` read as that integer. |
| JsNumber.ParseFloatSigned | src/dolarg.ts:58 | White space is skipped, a `+` is accepted, and a `-` negates the unsigned reading. |
| JsNumber.ParseFloatDecimal | src/dolarg.ts:58 | `parseFloat` of white space, sign and `a.f` then a non-digit is the signed exact decimal. |
| JsNumber.ParseFloatInteger | src/dolarg.ts:58 | `parseFloat` of white space, sign and digits then a non-digit, non-`.` is the signed integer. |
| JsNumber.FractionDigits | src/dolarg.ts:58 | The fraction read after `.` is all digits. |
| DolargScraper.OrNull | src/dolarg.ts:40 | `text() \|\| null` is null exactly for empty text, and otherwise the text itself. |
| DolargScraper.LocaleToPointCounts | src/dolarg.ts:58 | The rewrite leaves one `.` exactly when the text held a `,`, one `,` fewer, and every other character as often as before. |
| DolargScraper.CurrencyValue | src/dolarg.ts:58-60 | A price is non-null exactly when the raw text is present, holds `$`, and passes the guard once its first `$` is removed. |
| DolargScraper.PercentageValue | src/dolarg.ts:61 | A variation is non-null exactly when the raw text is present, holds `%`, and passes the guard once its first `%` is removed. A non-null variation is a number, never `NaN`. |
| DolargScraper.ExtractQuoteFormats | src/dolarg.ts:39-62 | Each formatted field is computed from the stored raw field: the prices by the price normaliser, the variation by the variation normaliser. |
| DolargScraper.ScrapeOutcome | src/dolarg.ts:24-67 | The scrape succeeds exactly when the URL is truthy and the fetch succeeds. A missing URL is the fixed error. A success holds one record per tile, record `i` extracted from tile `i`. |
| DolargScraper.NullIffEmpty | src/dolarg.ts:40-50 | Name, buy price, sell price and variation are null exactly when their extracted text is empty. |
| DolargScraper.FormattedNeedsMarker | src/dolarg.ts:58-61 | A formatted price is non-null only if its raw text contains `$`, and a formatted variation only if it contains `%`. |
| DolargScraper.LocaleToPointAfter | src/dolarg.ts:58 | The locale rewrite passes over a prefix with no `.` or `,`. |
| DolargScraper.LocaleToPointSkipsPoint | src/dolarg.ts:58 | The locale rewrite deletes a leading `.`. |
| DolargScraper.NumericStart | src/dolarg.ts:58 | White space, an optional sign and a digit make a numeric prefix. |
| DolargScraper.LocaleToPointStart | src/dolarg.ts:58 | The rewrite keeps white space, sign and first digit, and drops a `.` before that digit. |
| DolargScraper.NumericParts | src/dolarg.ts:58 | Text with a numeric prefix splits into white space, sign, optional `.`, a digit and the rest. |
| DolargScraper.LocaleToPointKeepsNumber | src/dolarg.ts:58 | Text that passes the `isNaN` guard still has a numeric prefix after the locale rewrite. |
| DolargScraper.CurrencyOfMarked | src/dolarg.ts:58 | The price of `$` followed by a text is null when that text fails the guard, and otherwise `parseFloat` of its locale rewrite. |
| DolargScraper.CurrencyNeverNaN | src/dolarg.ts:58-60 | The price normaliser is null or a number, never `NaN`: whenever the guard passes, the final parse succeeds. |
| DolargScraper.ConcatDigits | src/dolarg.ts:58 | Thousands groups of digits concatenate to digits. |
| DolargScraper.CurrencyArgentine | src/dolarg.ts:58-60 | `$` + digit groups joined by `.` + `,` + decimals is stored as the exact value of the groups concatenated, plus the decimals. |
| DolargScraper.PercentagePoint | src/dolarg.ts:61 | `a.f%` is stored as the decimal `a.f`. |
| DolargScraper.PercentageComma | src/dolarg.ts:61 | `a,f%` is stored as the integer `a`: the decimals after the comma are lost. |
| DolargScraper.Extracted | src/dolarg.ts:36-64 | Exactly one record per matched tile. |
| DolargScraper.GetDolargData | src/dolarg.ts:24-67 | A missing URL throws before any fetch. A fetch error propagates. Otherwise record `i` is the normalisation of tile `i`, in document order, and there are as many records as tiles, including none. |
| DolargExamples.ThousandsPrice | src/dolarg.ts:58 | `"$1.440,00"` is stored as 1440. |
| DolargExamples.CentsPrice | src/dolarg.ts:58 | `"$0,50"` is stored as 0.5. |
| DolargExamples.SecondCommaEndsNumber | src/dolarg.ts:60 | `"$1,2,3"` is stored as 1.2. |
| DolargExamples.PlusSign | src/dolarg.ts:58 | `parseFloat("+5")` is 5: a leading `+` is accepted. |
| DolargExamples.BareMarkerPrice | src/dolarg.ts:58 | `"$"` is stored as null. |
| DolargExamples.LettersPrice | src/dolarg.ts:58 | `"$abc"` is stored as null. |
| DolargExamples.PricesWithoutMarker | src/dolarg.ts:58-61 | A price without `$`, a missing price and a variation without `%` are stored as null. |
| DolargExamples.GuardRefusesLeadingComma | src/dolarg.ts:58 | `"$,5"` is refused by the `isNaN` guard and stored as null. |
| DolargExamples.RewrittenLeadingComma | src/dolarg.ts:58 | The rewritten text of `",5"` would have parsed as 0.5: the guard is stricter than the final parse. |
| DolargExamples.PointVariation | src/dolarg.ts:61 | `"10.63%"` is stored as 10.63. |
| DolargExamples.CommaVariation | src/dolarg.ts:61 | `"0,5%"` is stored as 0. |
| DolargExamples.ThousandsSellPrice | src/dolarg.ts:60 | `"$1.460,00"` is stored as 1460. |
| DolargExamples.BlueDollarTile | src/dolarg.ts:38-62 | A typical tile yields the full record with both prices and the variation. |
| Cooldown.CeilDiv | src/middleware/cooldown.ts:15-16 | `Math.ceil(x / d)` is the least integer `q` with `x <= q * d`. |
| Cooldown.DecimalText | src/middleware/cooldown.ts:16 | The interpolated seconds are a non-empty string of digits, with no leading zero from 10 on. |
| Cooldown.DecimalTextValue | src/middleware/cooldown.ts:16 | The interpolated text reads back as the number. |
| Cooldown.WaitMessage | src/middleware/cooldown.ts:16 | The 429 text is the fixed prefix, the seconds in decimal digits, and the fixed suffix; the digits read back as the seconds. |
| Cooldown.Decide | src/middleware/cooldown.ts:7-19 | Passes if and only if there is no sync date or at least 600000 ms have elapsed. A wait shows the ceiling of the remaining milliseconds over 1000, which is at least 1, and at most 600 once the clock is past the sync date. |
| Cooldown.DolargCooldown | src/middleware/cooldown.ts:14-19 | The gate answers nothing (calls `next`) exactly on a pass, and otherwise 429 with the remaining seconds. |
| Cooldown.CooldownTimeline | src/middleware/cooldown.ts:7-16 | 300000 ms after a sync shows 300 s, 599001 ms shows 1 s, exactly 600000 ms passes, and no stored date always passes. |
| Auth.ApiKeyAuth | src/middleware/auth.ts:5-12 | A rejection is always 401 `Unauthorized`. A pass implies a non-empty header equal to the configured key. |
| Auth.AcceptsExactlyTheKey | src/middleware/auth.ts:8-12 | The request passes if and only if the header is present, non-empty and equal to the key. |
| Auth.RefusesMissingOrEmpty | src/middleware/auth.ts:8-9 | A missing header, or an empty one even when the key is empty, gets 401. |
| DolargSync.Store.Get | src/firebase/server.ts:28-32 | A read returns the document and only logs the read. |
| DolargSync.Store.Update | src/firebase/server.ts:34-37 | A write that does not throw overwrites only the fields it names. A write that throws changes nothing. Both are logged. |
| DolargSync.Apply | src/firebase/server.ts:34-37 | `update` overwrites each field the patch names and keeps each field it leaves out. |
| DolargSync.ApplyIdempotent | src/firebase/server.ts:34-37 | Applying the same update twice gives the same document as applying it once. |
| DolargSync.SuccessPatch | src/index.ts:97-102 | The success write names every field: whatever the document held, it becomes the list, `false`, null and the date. |
| DolargSync.FailurePatch | src/index.ts:105-109 | The failure write leaves `data` out: whatever the document held, it keeps its `data` and gets `true`, the message and the date. |
| DolargSync.Attempt | src/index.ts:92-111 | The data changes only when the scrape and the success write both succeed. The date is stamped unless every write throws. The route throws exactly when the catch's write throws. |
| DolargSync.ErrorResponse | src/index.ts:110 | The failure response is 500, with `ERROR: ` followed by the message. |
| DolargSync.HandleDolarg | src/index.ts:90-112 | The handler's new document, its accesses and its reply are those of `Attempt` on the scrape outcome. Earlier log entries are kept. |
| DolargSync.ServeDolarg | src/index.ts:89-112 | Auth, registered at src/index.ts:17, runs first: a rejected key touches nothing. Then the gate reads the store once: a 429 only reads. Otherwise exactly one attempt runs after that read. |
| DolargSync.SuccessCommit | src/index.ts:97-103 | A successful attempt stores the list, `syncError = false`, a null message and the date, whatever was there, and answers 200. |
| DolargSync.FailureKeepsData | src/index.ts:105-109 | A failed scrape writes flag, message and date only: the previous `data` survives. |
| DolargSync.ReportedMessageIsStored | src/index.ts:107-110 | The 500 body carries exactly the message stored in `syncErrorMsg`. |
| DolargSync.ThrowingSuccessWriteEndsAsFailure | src/index.ts:97-110 | If the success write throws, the catch writes a failure: two writes, final status failure, old data. |
| DolargSync.OneCommitPerAttempt | src/index.ts:92-111 | An attempt makes one or two writes and no read. Exactly one takes effect unless the catch's write also throws. |
| DolargSync.EmptyPageIsSuccess | src/index.ts:95-102 | A page with no tiles is committed as a success with an empty list. |
| RentaFija.IsValidDate | src/renta-fija-argentina.ts:26-28 | Holds exactly for a date whose time value is not `NaN`. |
| RentaFija.DateText | src/renta-fija-argentina.ts:46-53 | A date text exists exactly when the description has a second `.`-piece holding `/`. |
| RentaFija.PdfDate | src/renta-fija-argentina.ts:46-53 | The assigned date text is the one `DateText` derives from the description. |
| RentaFija.PdfPageUrl | src/renta-fija-argentina.ts:55 | The viewer URL is the origin followed by the href, or by `null` when the href is missing. |
| RentaFija.GetPdfOptions | src/renta-fija-argentina.ts:30-64 | A missing variable throws before launch. A failing page throws with the browser left open. Success returns the viewer's `data` and the date text, with the browser closed. |
| RentaFija.EmptyDescriptionNoDate | src/renta-fija-argentina.ts:46-47 | An empty description gives no date. |
| RentaFija.NoSecondPieceNoDate | src/renta-fija-argentina.ts:48-49 | A description without `.` has no second piece and gives no date. |
| RentaFija.SecondPieceWithoutSlashNoDate | src/renta-fija-argentina.ts:49 | A second piece without `/` gives no date. |
| RentaFija.SlashParts | src/renta-fija-argentina.ts:50 | `d/m/y` splits on `/` into `d`, `m`, `y`. |
| RentaFija.DateOfToken | src/renta-fija-argentina.ts:47-51 | Only the second `.`-piece decides the date text. |
| RentaFija.DateReordered | src/renta-fija-argentina.ts:50-51 | A second piece `d/m/y` gives `m-d-y`. |
| RentaFija.MissingYearIsUndefined | src/renta-fija-argentina.ts:50-51 | A second piece `d/m` gives `m-d-undefined`. |

## Left out

- Network and rendering are left out: `cheerio.fromURL`, the CSS selectors, playwright navigation and `getPdfBuffer`'s download are I/O. The page is an abstract list of tiles whose four texts are inputs; `text()` concatenation over several matches is not modelled.
- Firestore access and credential setup are reduced to the `Store` class. `update` is assumed to merge the named fields into an existing document.
- `Timestamp` fields are integer milliseconds; the fractional part `toMillis` can return is not modelled.
- JsNumber.ParseFloat: exact decimals instead of IEEE doubles. Exponents (`1e3`), `Infinity`, rounding and `-0` are not modelled.
- The JavaScript `Date` built from the reordered text (src/renta-fija-argentina.ts:51) is not modelled. `RentaFija.DateText` yields the text passed to `new Date`.
- `Timestamp.now()` is one `now` per attempt. The source reads the clock separately for the gate and for each write; the gate's clock is a separate input.
- The race between the cooldown's read and the handler's write under concurrent requests is not modelled.
- A missing store document, which makes the gate crash at `src/middleware/cooldown.ts:11`, is not modelled: the store always holds a document.
- The commented-out renta-fija route (src/index.ts:27-87) and the AI prompt text (src/renta-fija-argentina.ts:83-135) are not modelled: they are dead code and prose.
- `GetPdfOptions` assumes `chromium.launch()` and `newPage()` (src/renta-fija-argentina.ts:36-37) never throw: their failure before the first page load is not modelled.
- `Store.Get` never fails: a `getFirestoreData` error at src/middleware/cooldown.ts:11 (network, permissions) is not modelled.
- Server startup, the `/` and `/error` routes and how Hono turns an escaping exception into a 500 are not modelled. An exception escaping the handler is the `Thrown` reply.
