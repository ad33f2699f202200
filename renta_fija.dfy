/**
 * The pure fragments of the bond-listing locator: the configuration guard,
 * the listing date token rewritten from `d/m/y` to `m-d-y`, the viewer page
 * URL, and the `isValidDate` check.
 */
module RentaFija {
  import opened Wrappers
  import opened JsString
  import opened JsNumber

  const MissingEnvMessage := "No se encontraron las variables de entorno: RFA_DATA_ORIGIN_URL o RFA_DATA_URL"

  /** A value handed to `isValidDate`: a `Date` with its time value, or anything else. */
  datatype JsValue = DateObject(time: Number) | NotADate

  /** `isValidDate`: a `Date` whose time value is a number. */
  function IsValidDate(v: JsValue): (ok: bool)
    ensures ok ==> v.DateObject? && v.time != NaN
    ensures v.DateObject? && v.time.Num? ==> ok
  {
    match v
    case DateObject(time) => time != NaN
    case NotADate => false
  }

  /** `${x}` for an array element that may be undefined. */
  function Interpolated(x: Option<string>): string
  {
    if x.None? then "undefined" else x.value
  }

  /** `pieces[i]`, undefined past the end. */
  function Element(pieces: seq<string>, i: nat): Option<string>
  {
    if i < |pieces| then Some(pieces[i]) else None
  }

  /**
   * The text the listing date is built from (`new Date(...)`'s argument), or
   * null: the specification that the imperative `PdfDate` is proved to meet.
   */
  function DateText(description: string): (r: Option<string>)
    ensures r.Some? <==> |Split(description, '.')| > 1 && '/' in Split(description, '.')[1]
  {
    if description == "" then None
    else
      var dateSplit := Split(description, '.');
      if |dateSplit| > 1 && dateSplit[1] != "" && '/' in dateSplit[1] then
        var formatedDate := Split(dateSplit[1], '/');
        Some(Interpolated(Element(formatedDate, 1)) + "-" + Interpolated(Element(formatedDate, 0)) + "-" +
             Interpolated(Element(formatedDate, 2)))
      else None
  }

  /**
   * The `pdfDate` assignments of `getPdfOptions`, as written, the imperative
   * rendering of `DateText`: null unless the second piece holds `/`.
   */
  method PdfDate(description: string) returns (pdfDate: Option<string>)
    ensures pdfDate == DateText(description)
  {
    pdfDate := None;
    if description != "" {
      var dateSplit := Split(description, '.');
      if |dateSplit| > 1 && dateSplit[1] != "" && '/' in dateSplit[1] {
        var formatedDate := Split(dateSplit[1], '/');
        pdfDate := Some(Interpolated(Element(formatedDate, 1)) + "-" + Interpolated(Element(formatedDate, 0)) + "-" +
                        Interpolated(Element(formatedDate, 2)));
      }
    }
  }

  /** `dataOriginUrl + aTagHref`; a missing `href` is concatenated as the text "null". */
  function PdfPageUrl(originUrl: string, href: Option<string>): (url: string)
    ensures |url| >= |originUrl| && url[..|originUrl|] == originUrl
    ensures url[|originUrl|..] == if href.Some? then href.value else "null"
  {
    originUrl + (if href.Some? then href.value else "null")
  }

  /** What the listing page yields: the first link's `href` and its description's HTML. */
  datatype ListingLink = ListingLink(href: Option<string>, description: string)

  datatype PdfOptions = PdfOptions(pdfUrl: Option<string>, pdfDate: Option<string>)

  /** Where the browser stands when `getPdfOptions` returns or throws. */
  datatype Browser = NotLaunched | LeftOpen | Closed

  /**
   * `getPdfOptions`. `listing` stands for opening RFA_DATA_URL and reading
   * the first link; `viewer` for opening the viewer page and reading the
   * object's `data` attribute. Either may throw.
   */
  method GetPdfOptions(originUrl: Option<string>, dataUrl: Option<string>,
                       listing: string -> Result<ListingLink>, viewer: string -> Result<Option<string>>)
    returns (r: Result<PdfOptions>, browser: Browser)
    ensures !(Truthy(originUrl) && Truthy(dataUrl)) ==> r == Err(MissingEnvMessage) && browser == NotLaunched
    ensures Truthy(originUrl) && Truthy(dataUrl) && listing(dataUrl.value).Err? ==>
      r == Err(listing(dataUrl.value).message) && browser == LeftOpen
    ensures Truthy(originUrl) && Truthy(dataUrl) && listing(dataUrl.value).Ok? ==>
      var link := listing(dataUrl.value).value;
      var page := viewer(PdfPageUrl(originUrl.value, link.href));
      if page.Err? then r == Err(page.message) && browser == LeftOpen
      else r == Ok(PdfOptions(page.value, DateText(link.description))) && browser == Closed
  {
    if !Truthy(originUrl) || !Truthy(dataUrl) {
      return Err(MissingEnvMessage), NotLaunched;
    }
    browser := LeftOpen;
    var listed := listing(dataUrl.value);
    if listed.Err? {
      return Err(listed.message), browser;
    }
    var pdfDate := PdfDate(listed.value.description);
    var pdfPageUrl := PdfPageUrl(originUrl.value, listed.value.href);
    var shown := viewer(pdfPageUrl);
    if shown.Err? {
      return Err(shown.message), browser;
    }
    browser := Closed;
    r := Ok(PdfOptions(shown.value, pdfDate));
  }

  // ---------------------------------------------------------------------
  // Properties of the date token

  /** No description, no date. */
  lemma EmptyDescriptionNoDate()
    ensures DateText("") == None
  {
  }

  /** A description without a `.` has no second piece, so no date. */
  lemma NoSecondPieceNoDate(description: string)
    requires '.' !in description
    ensures DateText(description) == None
  {
  }

  /** A second piece without `/` gives no date, whatever the other pieces hold. */
  lemma SecondPieceWithoutSlashNoDate(description: string)
    requires |Split(description, '.')| > 1 && '/' !in Split(description, '.')[1]
    ensures DateText(description) == None
  {
  }

  /** Splitting `d/m/y` on `/` gives its three parts. */
  lemma SlashParts(d: string, m: string, y: string)
    requires '/' !in d && '/' !in m && '/' !in y
    ensures Split(d + "/" + m + "/" + y, '/') == [d, m, y]
  {
    assert d + "/" + m + "/" + y == d + ['/'] + (m + ['/'] + y);
    SplitAfter(d, m + ['/'] + y, '/');
    SplitAfter(m, y, '/');
    SplitNoSeparator(y, '/');
  }

  /** The date text read off a description whose second `.`-piece is `token`. */
  lemma DateOfToken(description: string, token: string)
    requires |Split(description, '.')| >= 2 && Split(description, '.')[1] == token
    requires '/' in token
    ensures DateText(description) ==
      Some(Interpolated(Element(Split(token, '/'), 1)) + "-" + Interpolated(Element(Split(token, '/'), 0)) + "-" +
           Interpolated(Element(Split(token, '/'), 2)))
  {
    assert Split("", '.') == [""];
  }

  /**
   * A description whose second `.`-piece is `d/m/y` gives the text `m-d-y`,
   * whatever the first and later pieces hold.
   */
  lemma DateReordered(description: string, d: string, m: string, y: string)
    requires '/' !in d && '/' !in m && '/' !in y
    requires |Split(description, '.')| >= 2 && Split(description, '.')[1] == d + "/" + m + "/" + y
    ensures DateText(description) == Some(m + "-" + d + "-" + y)
  {
    var token := d + "/" + m + "/" + y;
    SlashParts(d, m, y);
    assert token[|d|] == '/';
    DateOfToken(description, token);
  }

  /** A `d/m` token with no year still gives a text: the year is interpolated as "undefined". */
  lemma MissingYearIsUndefined(description: string, d: string, m: string)
    requires '/' !in d && '/' !in m
    requires |Split(description, '.')| >= 2 && Split(description, '.')[1] == d + "/" + m
    ensures DateText(description) == Some(m + "-" + d + "-" + "undefined")
  {
    var token := d + "/" + m;
    SplitAfter(d, m, '/');
    SplitNoSeparator(m, '/');
    assert Split(token, '/') == [d, m];
    assert token[|d|] == '/';
    DateOfToken(description, token);
    assert Element([d, m], 2) == None;
  }
}
