/** Worked inputs for the quote normalisers, each proved from the general lemmas. */
module DolargExamples {
  import opened Wrappers
  import opened JsString
  import opened JsNumber
  import opened DolargScraper

  /** Helper of the worked prices: the values of the digit strings they use. */
  lemma DigitValues()
    ensures DigitsValue("1440") == 1440 && DigitsValue("1460") == 1460
    ensures DigitsValue("00") == 0 && DigitsValue("50") == 50 && DigitsValue("0") == 0
    ensures DigitsValue("10") == 10 && DigitsValue("63") == 63
  {
    assert "1440"[..3] == "144" && "144"[..2] == "14" && "14"[..1] == "1" && "1"[..0] == "";
    assert "1460"[..3] == "146" && "146"[..2] == "14";
    assert "00"[..1] == "0" && "0"[..0] == "";
    assert "50"[..1] == "5" && "5"[..0] == "";
    assert "10"[..1] == "1" && "63"[..1] == "6" && "6"[..0] == "";
  }

  /** `"$1.440,00"` is 1440: the thousands point is dropped and the comma is the decimal point. */
  lemma ThousandsPrice(raw: string)
    requires raw == "$1.440,00"
    ensures CurrencyValue(Some(raw)) == Some(Num(1440.0))
  {
    var g := ["1", "440"];
    assert DecimalValue(Concat(g), "00") == 1440.0 by {
      assert Concat(g) == "1440" by { assert Concat(["440"]) == "440"; }
      DigitValues();
    }
    assert raw == "$" + (Join(g, '.') + ("," + "00")) by {
      assert Join(g, '.') == "1.440" by { assert Join(["440"], '.') == "440"; }
    }
    assert AllDigits(g[0]) && AllDigits(g[1]) && AllDigits("00");
    CurrencyArgentine(g, "00");
  }

  /** `"$0,50"` is 0.5. */
  lemma CentsPrice(raw: string)
    requires raw == "$0,50"
    ensures CurrencyValue(Some(raw)) == Some(Num(0.5))
  {
    var g := ["0"];
    assert DecimalValue(Concat(g), "50") == 0.5 by {
      assert Concat(g) == "0";
      DigitValues();
      assert Pow10(2) == 100;
    }
    assert raw == "$" + (Join(g, '.') + ("," + "50"));
    assert AllDigits(g[0]) && AllDigits("50");
    CurrencyArgentine(g, "50");
  }

  /** Helper of `SecondCommaEndsNumber`: only the first comma becomes a point. */
  lemma CommasRewritten(stripped: string)
    requires stripped == "1,2,3"
    ensures LocaleToPoint(stripped) == "1.2,3"
  {
    assert RemoveAll(stripped, '.') == stripped;
    assert ReplaceFirst(stripped, ',', ".") == "1.2,3";
  }

  /** Helper of `SecondCommaEndsNumber`: the parse stops at the second comma. */
  lemma ReadUpToSecondComma(t: string)
    requires t == "1.2,3"
    ensures ParseFloat(t) == Num(1.2)
  {
    assert t == "" + ("" + ("1" + ("." + ("2" + ",3"))));
    assert DecimalValue("1", "2") == 1.2 by {
      assert DigitsValue("1") == 1 && DigitsValue("2") == 2 && Pow10(1) == 10;
    }
    ParseFloatDecimal("", "", "1", "2", ",3");
  }

  /** Only the first comma becomes a point: `"$1,2,3"` is 1.2, not null. */
  lemma SecondCommaEndsNumber(raw: string)
    requires raw == "$1,2,3"
    ensures CurrencyValue(Some(raw)) == Some(Num(1.2))
  {
    var stripped := raw[1..];
    assert ReplaceFirst(raw, '$', "") == stripped;
    assert stripped == "1,2,3";
    assert HasNumericPrefix(stripped) by {
      assert stripped == "" + ("" + (['1'] + ",2,3"));
      NumericStart("", "", '1', ",2,3");
    }
    CommasRewritten(stripped);
    ReadUpToSecondComma(LocaleToPoint(stripped));
  }

  /** A leading `+` is accepted and leaves the value positive. */
  lemma PlusSign(t: string)
    requires t == "+5"
    ensures ParseFloat(t) == Num(5.0)
  {
    assert t == "" + ("+" + ("5" + ""));
    assert DigitsValue("5") == 5 by { assert "5"[..0] == ""; }
    ParseFloatInteger("", "+", "5", "");
  }

  /** A lone `$` yields null. */
  lemma BareMarkerPrice(raw: string)
    requires raw == "$"
    ensures CurrencyValue(Some(raw)) == None
  {
    assert ReplaceFirst(raw, '$', "") == "";
    assert SpaceRun("") == 0;
  }

  /** Text with `$` but letters after it yields null. */
  lemma LettersPrice(raw: string)
    requires raw == "$abc"
    ensures CurrencyValue(Some(raw)) == None
  {
    assert raw[1..] == "abc";
    assert ReplaceFirst(raw, '$', "") == "abc";
    assert SpaceRun("abc") == 0;
  }

  /** Text without the marker yields null, whatever it holds. */
  lemma PricesWithoutMarker()
    ensures CurrencyValue(Some("1234")) == None
    ensures CurrencyValue(None) == None
    ensures PercentageValue(Some("12")) == None
  {
  }

  /** The guard reads the text before commas are rewritten: `"$,5"` is null. */
  lemma GuardRefusesLeadingComma(raw: string)
    requires raw == "$,5"
    ensures CurrencyValue(Some(raw)) == None
  {
    assert raw[1..] == ",5";
    assert ReplaceFirst(raw, '$', "") == ",5";
    assert SpaceRun(",5") == 0;
  }

  /** ... although the rewritten text `".5"` would have been read as 0.5. */
  lemma RewrittenLeadingComma(stripped: string)
    requires stripped == ",5"
    ensures ParseFloat(LocaleToPoint(stripped)) == Num(0.5)
  {
    assert LocaleToPoint(stripped) == "" + ("" + ("" + ("." + ("5" + "")))) by {
      assert RemoveAll(stripped, '.') == stripped;
      assert ReplaceFirst(stripped, ',', ".") == ".5";
    }
    assert DecimalValue("", "5") == 0.5 by {
      assert DigitsValue("") == 0 && DigitsValue("5") == 5 && Pow10(1) == 10;
    }
    ParseFloatDecimal("", "", "", "5", "");
  }

  /** `"10.63%"` is 10.63. */
  lemma PointVariation(raw: string)
    requires raw == "10.63%"
    ensures PercentageValue(Some(raw)) == Some(Num(10.63))
  {
    assert raw == "10" + ("." + ("63" + "%"));
    assert DecimalValue("10", "63") == 10.63 by {
      DigitValues();
      assert Pow10(2) == 100;
    }
    PercentagePoint("10", "63");
  }

  /** `"0,5%"` is 0, not 0.5: the variation's comma is never converted. */
  lemma CommaVariation(raw: string)
    requires raw == "0,5%"
    ensures PercentageValue(Some(raw)) == Some(Num(0.0))
  {
    assert raw == "0" + ("," + ("5" + "%"));
    DigitValues();
    PercentageComma("0", "5");
  }

  /** `"$1.460,00"` is 1460. */
  lemma ThousandsSellPrice(raw: string)
    requires raw == "$1.460,00"
    ensures CurrencyValue(Some(raw)) == Some(Num(1460.0))
  {
    var g := ["1", "460"];
    assert DecimalValue(Concat(g), "00") == 1460.0 by {
      assert Concat(g) == "1460" by { assert Concat(["460"]) == "460"; }
      DigitValues();
    }
    assert raw == "$" + (Join(g, '.') + ("," + "00")) by {
      assert Join(g, '.') == "1.460" by { assert Join(["460"], '.') == "460"; }
    }
    assert AllDigits(g[0]) && AllDigits(g[1]) && AllDigits("00");
    CurrencyArgentine(g, "00");
  }

  /** One tile for the blue dollar gives one record, both prices read and a variation of 0. */
  lemma BlueDollarTile(el: ChildElement)
    requires el == ChildElement("Dólar Blue", "$1.440,00", "$1.460,00", "0,5%")
    ensures Extracted([el]) ==
      [Dolarg(Some("Dólar Blue"), Some("$1.440,00"), Some("$1.460,00"), Some("0,5%"),
              Some(Num(1440.0)), Some(Num(1460.0)), Some(Num(0.0)))]
  {
    ThousandsPrice(el.buyVal);
    ThousandsSellPrice(el.sellVal);
    CommaVariation(el.sellVariation);
  }
}
