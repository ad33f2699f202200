/**
 * The quote scraper: every child tile of the quotes container becomes one
 * `Dolarg` record, its texts made null when empty and its prices and
 * variation normalised to numbers.
 */
module DolargScraper {
  import opened Wrappers
  import opened JsString
  import opened JsNumber

  const MissingUrlMessage := "No se encontraron las variables de entorno: DOLARG_DATA_URL"

  /**
   * One element matched by the child selector, seen through the four texts
   * the extraction reads (`.text()` of each nested selector; "" when the
   * selector matches nothing).
   */
  datatype ChildElement = ChildElement(
    titleText: string,     // '.title .titleText'
    buyVal: string,        // '.values .compra .val'
    sellVal: string,       // '.values .venta .venta-wrapper .val'
    sellVariation: string  // '.values .venta .var-porcentaje div'
  )

  datatype Dolarg = Dolarg(
    name: Option<string>,
    buyPrice: Option<string>,
    sellPrice: Option<string>,
    sellPercentage: Option<string>,
    buyPriceFormated: Option<Number>,
    sellPriceFormated: Option<Number>,
    sellPercentageFormated: Option<Number>
  )

  /** `text || null`: the empty string is falsy. */
  function OrNull(text: string): (r: Option<string>)
    ensures r.None? <==> text == ""
    ensures r.Some? ==> r.value == text
  {
    if text == "" then None else Some(text)
  }

  /**
   * `.replace(/\./g, '').replace(',', '.')`: drop thousands separators, then
   * turn the first comma into a point. `LocaleToPointCounts` states what it does
   * to each character.
   */
  function LocaleToPoint(text: string): string
  {
    ReplaceFirst(RemoveAll(text, '.'), ',', ".")
  }

  /**
   * A price: non-null only for text holding `$` whose `$`-less form starts
   * with a number; that check is made on the text before the separators are
   * rewritten, and the value is read after.
   */
  function CurrencyValue(raw: Option<string>): (r: Option<Number>)
    ensures r.Some? <==> raw.Some? && '$' in raw.value && HasNumericPrefix(ReplaceFirst(raw.value, '$', ""))
  {
    if raw.Some? && '$' in raw.value then
      var stripped := ReplaceFirst(raw.value, '$', "");
      if ParseFloat(stripped) != NaN then Some(ParseFloat(LocaleToPoint(stripped))) else None
    else None
  }

  /** A variation: non-null only for text holding `%`; no separator is rewritten. */
  function PercentageValue(raw: Option<string>): (r: Option<Number>)
    ensures r.Some? <==> raw.Some? && '%' in raw.value && HasNumericPrefix(ReplaceFirst(raw.value, '%', ""))
    ensures r.Some? ==> r.value.Num?
  {
    if raw.Some? && '%' in raw.value then
      var stripped := ReplaceFirst(raw.value, '%', "");
      if ParseFloat(stripped) != NaN then Some(ParseFloat(stripped)) else None
    else None
  }

  /** The record pushed for one child element (the `.values` wrapper is always truthy). */
  function ExtractQuote(el: ChildElement): Dolarg
  {
    var buyPrice := OrNull(el.buyVal);
    var sellPrice := OrNull(el.sellVal);
    var sellPercentage := OrNull(el.sellVariation);
    Dolarg(OrNull(el.titleText), buyPrice, sellPrice, sellPercentage,
           CurrencyValue(buyPrice), CurrencyValue(sellPrice), PercentageValue(sellPercentage))
  }

  /** Each formatted field of a record is the parse of the raw text stored beside it. */
  lemma ExtractQuoteFormats(el: ChildElement)
    ensures ExtractQuote(el).buyPriceFormated == CurrencyValue(ExtractQuote(el).buyPrice)
    ensures ExtractQuote(el).sellPriceFormated == CurrencyValue(ExtractQuote(el).sellPrice)
    ensures ExtractQuote(el).sellPercentageFormated == PercentageValue(ExtractQuote(el).sellPercentage)
  {
  }

  /** The records for a list of child elements, one each, in document order. */
  function Extracted(children: seq<ChildElement>): (qs: seq<Dolarg>)
    ensures |qs| == |children|
  {
    seq(|children|, i requires 0 <= i < |children| => ExtractQuote(children[i]))
  }

  /**
   * What `getDolargData` returns or throws, as a value: the specification
   * that the imperative `GetDolargData` is proved to meet.
   */
  function ScrapeOutcome(dataUrl: Option<string>, fromUrl: string -> Result<seq<ChildElement>>): (r: Result<seq<Dolarg>>)
    ensures r.Ok? <==> Truthy(dataUrl) && fromUrl(dataUrl.value).Ok?
    ensures !Truthy(dataUrl) ==> r == Err(MissingUrlMessage)
    ensures r.Ok? ==> |r.value| == |fromUrl(dataUrl.value).value|
    ensures r.Ok? ==> forall i :: 0 <= i < |r.value| ==> r.value[i] == ExtractQuote(fromUrl(dataUrl.value).value[i])
  {
    if !Truthy(dataUrl) then Err(MissingUrlMessage)
    else match fromUrl(dataUrl.value)
      case Err(message) => Err(message)
      case Ok(children) => Ok(Extracted(children))
  }

  /**
   * `getDolargData`, the imperative rendering of `ScrapeOutcome`: without a
   * truthy DOLARG_DATA_URL it throws before anything is fetched; otherwise it
   * fetches the page (`fromUrl`, whose failure propagates) and pushes one
   * record per matched child.
   */
  method GetDolargData(dataUrl: Option<string>, fromUrl: string -> Result<seq<ChildElement>>)
    returns (r: Result<seq<Dolarg>>)
    ensures r == ScrapeOutcome(dataUrl, fromUrl)
  {
    if !Truthy(dataUrl) {
      return Err(MissingUrlMessage);
    }
    var page := fromUrl(dataUrl.value);
    if page.Err? {
      return Err(page.message);
    }
    var children := page.value;
    ghost var expected := Extracted(children);
    assert ScrapeOutcome(dataUrl, fromUrl) == Ok(expected);
    var data: seq<Dolarg> := [];
    if |children| > 0 {
      for k := 0 to |children|
        invariant data == expected[..k]
      {
        var el := children[k];
        data := data + [ExtractQuote(el)];
        assert data == expected[..k + 1];
      }
    }
    assert data == expected;
    return Ok(data);
  }

  // ---------------------------------------------------------------------
  // Properties of the extraction

  /** Each text field is null exactly when the selector's text is empty, and otherwise that text. */
  lemma NullIffEmpty(el: ChildElement)
    ensures ExtractQuote(el).name == (if el.titleText == "" then None else Some(el.titleText))
    ensures ExtractQuote(el).buyPrice == (if el.buyVal == "" then None else Some(el.buyVal))
    ensures ExtractQuote(el).sellPrice == (if el.sellVal == "" then None else Some(el.sellVal))
    ensures ExtractQuote(el).sellPercentage == (if el.sellVariation == "" then None else Some(el.sellVariation))
  {
  }

  /** A formatted field is non-null only if its raw text is non-null and holds the field's marker. */
  lemma FormattedNeedsMarker(el: ChildElement)
    ensures ExtractQuote(el).buyPriceFormated.Some? ==> '$' in el.buyVal
    ensures ExtractQuote(el).sellPriceFormated.Some? ==> '$' in el.sellVal
    ensures ExtractQuote(el).sellPercentageFormated.Some? ==> '%' in el.sellVariation
  {
  }

  lemma {:induction false} LocaleToPointAfter(p: string, tail: string)
    requires '.' !in p && ',' !in p
    ensures LocaleToPoint(p + tail) == p + LocaleToPoint(tail)
  {
    RemoveAllAppend(p, tail, '.');
    assert RemoveAll(p, '.') == p;
    ReplaceFirstAfter(p, RemoveAll(tail, '.'), ',', ".");
  }

  lemma LocaleToPointSkipsPoint(tail: string)
    ensures LocaleToPoint("." + tail) == LocaleToPoint(tail)
  {
    assert ("." + tail)[1..] == tail;
  }

  /** Spaces, an optional sign and a digit make a numeric prefix, whatever follows. */
  lemma NumericStart(w: string, sg: string, d: char, rest: string)
    requires AllSpaces(w) && (sg == "" || sg == "+" || sg == "-") && IsDigit(d)
    ensures HasNumericPrefix(w + (sg + ([d] + rest)))
  {
    var z := sg + ([d] + rest);
    TrimSpaces(w, z);
    if sg == "" {
      assert z[0] == d;
    } else {
      assert z[1..] == [d] + rest;
    }
  }

  /** Helper: white space holds neither separator. */
  lemma {:induction false} SpacesLackSeparators(w: string)
    requires AllSpaces(w)
    ensures '.' !in w && ',' !in w
  {
    forall i | 0 <= i < |w| ensures w[i] != '.' && w[i] != ',' {
      assert IsJsSpace(w[i]);
    }
  }

  /** The normalised text of spaces, a sign, a number's first digit (or point and digit) and the rest. */
  lemma {:induction false} LocaleToPointStart(w: string, sg: string, lead: string, d: char, tail: string)
    requires AllSpaces(w) && (sg == "" || sg == "+" || sg == "-")
    requires lead == "" || lead == "."
    requires IsDigit(d)
    ensures LocaleToPoint(w + (sg + (lead + ([d] + tail)))) == w + (sg + ([d] + LocaleToPoint(tail)))
  {
    SpacesLackSeparators(w);
    LocaleToPointAfter(w, sg + (lead + ([d] + tail)));
    LocaleToPointAfter(sg, lead + ([d] + tail));
    if lead == "." {
      LocaleToPointSkipsPoint([d] + tail);
    } else {
      assert lead + ([d] + tail) == [d] + tail;
    }
    LocaleToPointAfter([d], tail);
  }

  /** A text is its optional sign followed by its unsigned part. */
  lemma SignParts(t: string) returns (sg: string)
    ensures (sg == "" || sg == "+" || sg == "-") && t == sg + Unsigned(t)
  {
    if |t| > 0 && (t[0] == '+' || t[0] == '-') {
      sg := t[..1];
      assert t == t[..1] + t[1..];
    } else {
      sg := "";
      assert t == "" + t;
    }
  }

  /** An unsigned number's text is an optional point, a digit and the rest. */
  lemma LeadParts(u: string) returns (lead: string, d: char, tail: string)
    requires (|u| > 0 && IsDigit(u[0])) || (|u| > 1 && u[0] == '.' && IsDigit(u[1]))
    ensures (lead == "" || lead == ".") && IsDigit(d) && u == lead + ([d] + tail)
  {
    if IsDigit(u[0]) {
      lead, d, tail := "", u[0], u[1..];
      assert u == [u[0]] + u[1..];
    } else {
      lead, d, tail := ".", u[1], u[2..];
      assert u == [u[0]] + ([u[1]] + u[2..]);
    }
  }

  /** A text with a numeric prefix is spaces, an optional sign, an optional point, a digit and the rest. */
  lemma {:induction false} NumericParts(text: string) returns (w: string, sg: string, lead: string, d: char, tail: string)
    requires HasNumericPrefix(text)
    ensures AllSpaces(w) && (sg == "" || sg == "+" || sg == "-") && (lead == "" || lead == ".") && IsDigit(d)
    ensures text == w + (sg + (lead + ([d] + tail)))
  {
    var n := SpaceRun(text);
    w := text[..n];
    var t := TrimStart(text);
    assert text == w + t;
    sg := SignParts(t);
    lead, d, tail := LeadParts(Unsigned(t));
  }

  /** Normalising the separators never destroys a leading number: the guard's verdict carries over. */
  lemma {:induction false} LocaleToPointKeepsNumber(text: string)
    requires HasNumericPrefix(text)
    ensures HasNumericPrefix(LocaleToPoint(text))
  {
    var w, sg, lead, d, tail := NumericParts(text);
    LocaleToPointStart(w, sg, lead, d, tail);
    NumericStart(w, sg, d, LocaleToPoint(tail));
  }

  /** Helper: the locale rewrite keeps the count of every character other than `.` and `,`. */
  lemma LocaleToPointKeepsOthers(text: string, x: char)
    requires x != '.' && x != ','
    ensures multiset(LocaleToPoint(text))[x] == multiset(text)[x]
  {
    var u := RemoveAll(text, '.');
    RemoveAllKeeps(text, '.', x);
    ReplaceFirstCount(u, ',', ".");
  }

  /**
   * The locale rewrite leaves one point exactly when the text held a comma,
   * one comma fewer, and every other character as often as before.
   */
  lemma LocaleToPointCounts(text: string)
    ensures multiset(LocaleToPoint(text))['.'] == if ',' in text then 1 else 0
    ensures multiset(LocaleToPoint(text))[','] == if ',' in text then multiset(text)[','] - 1 else 0
    ensures forall x :: x != '.' && x != ',' ==> multiset(LocaleToPoint(text))[x] == multiset(text)[x]
  {
    var u := RemoveAll(text, '.');
    var before := multiset(u);
    RemoveAllKeeps(text, '.', ',');
    assert ',' in u <==> ',' in text by {
      assert ',' in u <==> ',' in before;
      assert ',' in text <==> ',' in multiset(text);
    }
    assert before['.'] == 0 by {
      assert '.' !in before;
    }
    ReplaceFirstCount(u, ',', ".");
    forall x | x != '.' && x != ','
      ensures multiset(LocaleToPoint(text))[x] == multiset(text)[x]
    {
      LocaleToPointKeepsOthers(text, x);
    }
  }

  /** Whenever the NaN guard lets a price through, the value stored is a number, never NaN. */
  lemma CurrencyNeverNaN(raw: Option<string>)
    ensures CurrencyValue(raw) != Some(NaN)
  {
    if raw.Some? && '$' in raw.value {
      var stripped := ReplaceFirst(raw.value, '$', "");
      if ParseFloat(stripped) != NaN {
        LocaleToPointKeepsNumber(stripped);
      }
    }
  }

  lemma {:induction false} ConcatDigits(groups: seq<string>)
    requires forall i :: 0 <= i < |groups| ==> AllDigits(groups[i])
    ensures AllDigits(Concat(groups))
    ensures |groups| > 0 ==> |Concat(groups)| >= |groups[0]|
  {
    if |groups| > 0 {
      ConcatDigits(groups[1..]);
    }
  }

  /** Helper: a digit string holds no non-digit. */
  lemma DigitsLack(a: string, c: char)
    requires AllDigits(a) && !IsDigit(c)
    ensures c !in a
  {
  }

  /**
   * A price written the Argentine way, `$` then digit groups joined by `.`
   * then `,` and the decimals, is read as the number its digits denote.
   */
  lemma {:induction false} CurrencyArgentine(groups: seq<string>, decimals: string)
    requires |groups| >= 1 && |groups[0]| > 0
    requires forall i :: 0 <= i < |groups| ==> AllDigits(groups[i])
    requires AllDigits(decimals)
    ensures CurrencyValue(Some("$" + (Join(groups, '.') + ("," + decimals)))) ==
            Some(Num(DecimalValue(Concat(groups), decimals)))
  {
    var stripped := Join(groups, '.') + ("," + decimals);
    assert HasNumericPrefix(stripped) by {
      assert stripped == "" + ("" + ([groups[0][0]] + stripped[1..])) by {
        assert stripped[0] == groups[0][0];
      }
      NumericStart("", "", groups[0][0], stripped[1..]);
    }
    assert ParseFloat(LocaleToPoint(stripped)) == Num(DecimalValue(Concat(groups), decimals)) by {
      ArgentineRewritten(groups, decimals);
      ParseFloatDecimal("", "", Concat(groups), decimals, "");
    }
    CurrencyOfMarked(stripped);
  }

  /** The price of `$` followed by text is read from that text. */
  lemma CurrencyOfMarked(stripped: string)
    ensures CurrencyValue(Some("$" + stripped)) ==
            if HasNumericPrefix(stripped) then Some(ParseFloat(LocaleToPoint(stripped))) else None
  {
    var raw := "$" + stripped;
    assert raw[0] == '$' && raw[1..] == stripped;
    assert ReplaceFirst(raw, '$', "") == stripped;
    assert ParseFloat(stripped) != NaN <==> HasNumericPrefix(stripped);
  }

  /** The locale rewrite of digit groups joined by `.`, then `,` and decimals. */
  lemma ArgentineRewritten(groups: seq<string>, decimals: string)
    requires |groups| >= 1
    requires forall i :: 0 <= i < |groups| ==> AllDigits(groups[i])
    requires AllDigits(decimals)
    ensures AllDigits(Concat(groups)) && |Concat(groups)| >= |groups[0]|
    ensures LocaleToPoint(Join(groups, '.') + ("," + decimals)) ==
            "" + ("" + (Concat(groups) + ("." + (decimals + ""))))
  {
    var joined := Join(groups, '.');
    forall i | 0 <= i < |groups| ensures '.' !in groups[i] {
      DigitsLack(groups[i], '.');
    }
    RemoveAllJoin(groups, '.');
    var whole := Concat(groups);
    ConcatDigits(groups);
    DigitsLack(whole, ',');
    DigitsLack(decimals, '.');
    RemoveAllAppend(joined, "," + decimals, '.');
    assert RemoveAll("," + decimals, '.') == "," + decimals;
    ReplaceFirstAfter(whole, "," + decimals, ',', ".");
    assert ReplaceFirst("," + decimals, ',', ".") == "." + decimals;
  }

  /** A variation `a.f%` is read as the decimal `a.f`. */
  lemma {:induction false} PercentagePoint(a: string, f: string)
    requires AllDigits(a) && AllDigits(f) && |a| + |f| > 0
    ensures PercentageValue(Some(a + ("." + (f + "%")))) == Some(Num(DecimalValue(a, f)))
  {
    DigitsLack(a, '%');
    DigitsLack(f, '%');
    ReplaceFirstAfter(f, "%", '%', "");
    ReplaceFirstAfter(".", f + "%", '%', "");
    ReplaceFirstAfter(a, "." + (f + "%"), '%', "");
    assert ReplaceFirst("%", '%', "") == "";
    var raw := a + ("." + (f + "%"));
    assert '%' in raw by { assert raw[|raw| - 1] == '%'; }
    assert ReplaceFirst(raw, '%', "") == "" + ("" + (a + ("." + (f + ""))));
    ParseFloatDecimal("", "", a, f, "");
  }

  /** A variation `a,f%` keeps only its integer part: the comma is never turned into a point. */
  lemma {:induction false} PercentageComma(a: string, f: string)
    requires AllDigits(a) && AllDigits(f) && |a| > 0
    ensures PercentageValue(Some(a + ("," + (f + "%")))) == Some(Num(DigitsValue(a) as real))
  {
    DigitsLack(a, '%');
    DigitsLack(f, '%');
    ReplaceFirstAfter(f, "%", '%', "");
    ReplaceFirstAfter(",", f + "%", '%', "");
    ReplaceFirstAfter(a, "," + (f + "%"), '%', "");
    assert ReplaceFirst("%", '%', "") == "";
    var raw := a + ("," + (f + "%"));
    assert '%' in raw by { assert raw[|raw| - 1] == '%'; }
    assert ReplaceFirst(raw, '%', "") == "" + ("" + (a + ("," + f)));
    ParseFloatInteger("", "", a, "," + f);
  }
}
