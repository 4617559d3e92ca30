/**
 * Worked examples of `parseMessage` and of the handler's acceptance test.
 * Each example is proved one stage at a time: the normalized text and its
 * tokens, the scan of those tokens, and the object built from the scan. The
 * stages rest on the general lemmas in the first half of this module.
 *
 * The example lemmas take their literal text as a parameter fixed by a
 * `requires` (`requires t == "23.50"`) instead of writing the literal in the
 * body: a recursive function applied to a literal argument is unrolled by the
 * verifier without limit, while a parameter keeps each unfolding under the
 * control of the proof.
 */
module Scenarios {
  import opened Options
  import opened Text
  import opened Grammar
  import opened Parser
  import opened Webhook

  // ------------------------------------------------------ general stages

  /** A trimmed text whose normalized form is single words joined by spaces
      parses to the object built from the scan of those words. */
  lemma ParseOfWords(raw: string, ts: seq<string>, dflt: string)
    requires raw != [] && Trimmed(raw)
    requires |ts| >= 1 && forall j | 0 <= j < |ts| :: ts[j] != [] && NoSpace(ts[j])
    requires Join(ts) == Normalize(raw)
    ensures Parse(Some(raw), dflt) == Finish(raw, Scan(ts), dflt)
  {
    SplitJoin(ts);
  }

  /** The object built from a scan whose label tokens are words: the words
      joined, or `null` when there are none. */
  lemma FinishOf(raw: string, st: ScanState, dflt: string)
    requires forall j | 0 <= j < |st.lugarTokens| :: st.lugarTokens[j] != [] && NoSpace(st.lugarTokens[j])
    ensures Finish(raw, st, dflt) ==
      ParsedMessage(raw, if st.lugarTokens == [] then None else Some(Join(st.lugarTokens)),
                    st.monto, Upper(st.moneda.GetOr(dflt)))
  {
    JoinShape(st.lugarTokens);
  }

  /** Two label words are joined with one space. */
  lemma FinishTwoWords(raw: string, a: string, b: string, m: Option<real>, c: string, dflt: string)
    requires a != [] && NoSpace(a) && b != [] && NoSpace(b)
    ensures Finish(raw, ScanState(m, Some(c), [a, b]), dflt) == ParsedMessage(raw, Some(a + " " + b), m, Upper(c))
  {
    FinishOf(raw, ScanState(m, Some(c), [a, b]), dflt);
    assert [a, b][1..] == [b];
  }

  /** The value `parseFloat` gives a well-formed numeral's text, exactly. */
  lemma AmountOfNumeral(n: Numeral)
    requires WellFormed(n)
    ensures IsAmount(Render(n)) && AmountValue(Render(n)) == Value(n)
  {
    ParseRender(n);
    AmountMatch(Render(n));
  }

  /** A label word, an amount and a currency code, in that order. */
  lemma ScanLabelAmountCurrency(a: string, b: string, c: string)
    requires !IsAmount(a) && !IsCurrency(a) && IsAmount(b) && IsCurrency(c)
    ensures Scan([a, b, c]) == ScanState(Some(AmountValue(b)), Some(Upper(c)), [a])
  {
    ScanLabelAmount(a, b);
    assert [a, b, c][..2] == [a, b];
  }

  /** A label word and an amount: the currency slot stays empty. */
  lemma ScanLabelAmount(a: string, b: string)
    requires !IsAmount(a) && !IsCurrency(a) && IsAmount(b)
    ensures Scan([a, b]) == ScanState(Some(AmountValue(b)), None, [a])
  {
    ScanLabel(a);
    assert [a, b][..1] == [a];
  }

  /** A label word alone. */
  lemma ScanLabel(a: string)
    requires !IsAmount(a) && !IsCurrency(a)
    ensures Scan([a]) == ScanState(None, None, [a])
  {
    assert [a][..0] == [];
  }

  /** An amount and a currency code: nothing is left for the label. */
  lemma ScanAmountCurrency(a: string, b: string)
    requires IsAmount(a) && IsCurrency(b)
    ensures Scan([a, b]) == ScanState(Some(AmountValue(a)), Some(Upper(b)), [])
  {
    assert [a][..0] == [];
    assert Scan([a]) == ScanState(Some(AmountValue(a)), None, []);
    AmountIsNotCurrency(a);
    assert [a, b][..1] == [a];
  }

  /** A label word, an amount, the same amount again and a currency code: the
      repeated amount goes to the label. */
  lemma ScanRepeatedAmount(a: string, b: string, c: string)
    requires !IsAmount(a) && !IsCurrency(a) && IsAmount(b) && IsCurrency(c)
    ensures Scan([a, b, b, c]) == ScanState(Some(AmountValue(b)), Some(Upper(c)), [a, b])
  {
    ScanLabelAmount(a, b);
    AmountIsNotCurrency(b);
    assert [a, b, b][..2] == [a, b];
    assert Scan([a, b, b]) == ScanState(Some(AmountValue(b)), None, [a, b]);
    assert [a, b, b, c][..3] == [a, b, b];
  }

  // --------------------------------------------- "super 23.50 USD", "PAB"

  lemma SuperWords()
    ensures !IsAmount("super") && !IsCurrency("super") && IsCurrency("usd") && Upper("usd") == "USD"
  {
  }

  lemma SuperNumeral()
    ensures Value(Numeral(false, "23", "50")) == 23.5
  {
    assert "23"[..1] == "2" && "2"[..0] == [];
    assert "50"[..1] == "5" && "5"[..0] == [];
    assert DigitsValue("23") == 23 && DigitsValue("50") == 50;
    assert Pow10(2) == 100;
  }

  lemma SuperValue(t: string)
    requires t == "23.50"
    ensures IsAmount(t) && AmountValue(t) == 23.5
  {
    var n := Numeral(false, "23", "50");
    assert Render(n) == t;
    AmountOfNumeral(n);
    SuperNumeral();
  }

  lemma SuperScan(a: string, b: string, c: string)
    requires a == "super" && b == "23.50" && c == "usd"
    ensures Scan([a, b, c]) == ScanState(Some(23.5), Some("USD"), [a])
  {
    SuperWords();
    SuperValue(b);
    ScanLabelAmountCurrency(a, b, c);
  }

  lemma SuperTokens(raw: string)
    requires raw == "super 23.50 USD"
    ensures Join(["super", "23.50", "usd"]) == Normalize(raw)
  {
    ReplaceAbsent(raw, ',', '.');
  }

  lemma SuperFinish(raw: string, a: string)
    requires a == "super"
    ensures Finish(raw, ScanState(Some(23.5), Some("USD"), [a]), "PAB") ==
      ParsedMessage(raw, Some(a), Some(23.5), "USD")
  {
    FinishOf(raw, ScanState(Some(23.5), Some("USD"), [a]), "PAB");
    assert Upper("USD") == "USD";
  }

  /** "super 23.50 USD" with default "PAB": label "super", amount 23.5 and
      code "USD". */
  lemma SuperInDollars(text: string)
    requires text == "super 23.50 USD"
    ensures Parse(Some(text), "PAB") == ParsedMessage(text, Some("super"), Some(23.5), "USD")
  {
    SuperTokens(text);
    ParseOfWords(text, ["super", "23.50", "usd"], "PAB");
    SuperScan("super", "23.50", "usd");
    SuperFinish(text, "super");
  }

  // ---------------------------------------------- "farmacia 12,30", "PAB"

  lemma PharmacyWords()
    ensures !IsAmount("farmacia") && !IsCurrency("farmacia") && Upper("PAB") == "PAB"
  {
  }

  lemma PharmacyNumeral()
    ensures Value(Numeral(false, "12", "30")) == 12.3
  {
    assert "12"[..1] == "1" && "1"[..0] == [];
    assert "30"[..1] == "3" && "3"[..0] == [];
    assert DigitsValue("12") == 12 && DigitsValue("30") == 30;
    assert Pow10(2) == 100;
  }

  lemma PharmacyValue(t: string)
    requires t == "12.30"
    ensures IsAmount(t) && AmountValue(t) == 12.3
  {
    var n := Numeral(false, "12", "30");
    assert Render(n) == t;
    AmountOfNumeral(n);
    PharmacyNumeral();
  }

  lemma PharmacyScan(a: string, b: string)
    requires a == "farmacia" && b == "12.30"
    ensures Scan([a, b]) == ScanState(Some(12.3), None, [a])
  {
    PharmacyWords();
    PharmacyValue(b);
    ScanLabelAmount(a, b);
  }

  lemma PharmacyTokens(raw: string)
    requires raw == "farmacia 12,30"
    ensures Join(["farmacia", "12.30"]) == Normalize(raw)
  {
    assert raw == "farmacia 12" + [','] + "30";
    ReplaceFirstOnly("farmacia 12", "30", ',', '.');
  }

  lemma PharmacyFinish(raw: string, a: string)
    requires a == "farmacia"
    ensures Finish(raw, ScanState(Some(12.3), None, [a]), "PAB") ==
      ParsedMessage(raw, Some(a), Some(12.3), "PAB")
  {
    FinishOf(raw, ScanState(Some(12.3), None, [a]), "PAB");
    PharmacyWords();
  }

  /** "farmacia 12,30" with default "PAB": the comma is the decimal point and
      the default fills the currency. */
  lemma PharmacyInDefault(text: string)
    requires text == "farmacia 12,30"
    ensures Parse(Some(text), "PAB") == ParsedMessage(text, Some("farmacia"), Some(12.3), "PAB")
  {
    PharmacyTokens(text);
    ParseOfWords(text, ["farmacia", "12.30"], "PAB");
    PharmacyScan("farmacia", "12.30");
    PharmacyFinish(text, "farmacia");
  }

  // ------------------------------------------------ "uber 8 8 usd", "PAB"

  lemma UberWords()
    ensures !IsAmount("uber") && !IsCurrency("uber") && IsCurrency("usd") && Upper("usd") == "USD"
    ensures "uber" + " " + "8" == "uber 8"
  {
  }

  /** A one-digit token is the amount of that digit. */
  lemma DigitValueOf(t: string)
    requires |t| == 1 && IsDigit(t[0])
    ensures IsAmount(t) && AmountValue(t) == DigitValue(t[0]) as real
  {
    var n := Numeral(false, t, "");
    assert Render(n) == t;
    AmountOfNumeral(n);
    assert t[..0] == [];
  }

  lemma UberScan(a: string, b: string, c: string)
    requires a == "uber" && b == "8" && c == "usd"
    ensures Scan([a, b, b, c]) == ScanState(Some(8.0), Some("USD"), [a, b])
  {
    UberWords();
    DigitValueOf(b);
    ScanRepeatedAmount(a, b, c);
  }

  lemma UberTokens(raw: string)
    requires raw == "uber 8 8 usd"
    ensures Join(["uber", "8", "8", "usd"]) == Normalize(raw)
  {
    ReplaceAbsent(raw, ',', '.');
  }

  lemma UberFinish(raw: string, a: string, b: string)
    requires a == "uber" && b == "8"
    ensures Finish(raw, ScanState(Some(8.0), Some("USD"), [a, b]), "PAB") ==
      ParsedMessage(raw, Some("uber 8"), Some(8.0), "USD")
  {
    FinishTwoWords(raw, a, b, Some(8.0), "USD", "PAB");
    UberWords();
    assert Upper("USD") == "USD";
  }

  /** "uber 8 8 usd" with default "PAB": the first "8" is the amount and the
      second stays in the label. */
  lemma RepeatedAmount(text: string)
    requires text == "uber 8 8 usd"
    ensures Parse(Some(text), "PAB") == ParsedMessage(text, Some("uber 8"), Some(8.0), "USD")
  {
    UberTokens(text);
    ParseOfWords(text, ["uber", "8", "8", "usd"], "PAB");
    UberScan("uber", "8", "usd");
    UberFinish(text, "uber", "8");
  }

  // ------------------------------------------------------- "5 USD", "PAB"

  lemma FiveScan(a: string, b: string)
    requires a == "5" && b == "usd"
    ensures Scan([a, b]) == ScanState(Some(5.0), Some("USD"), [])
  {
    DigitValueOf(a);
    assert IsCurrency("usd") && Upper("usd") == "USD";
    ScanAmountCurrency(a, b);
  }

  lemma FiveTokens(raw: string)
    requires raw == "5 USD"
    ensures Join(["5", "usd"]) == Normalize(raw)
  {
    ReplaceAbsent(raw, ',', '.');
  }

  lemma FiveFinish(raw: string)
    ensures Finish(raw, ScanState(Some(5.0), Some("USD"), []), "PAB") == ParsedMessage(raw, None, Some(5.0), "USD")
  {
    FinishOf(raw, ScanState(Some(5.0), Some("USD"), []), "PAB");
    assert Upper("USD") == "USD";
  }

  /** "5 USD" with default "PAB": the two tokens fill the amount and the code,
      no label is left, and the handler rejects the message. */
  lemma AmountWithoutLabel(text: string)
    requires text == "5 USD"
    ensures Parse(Some(text), "PAB") == ParsedMessage(text, None, Some(5.0), "USD")
    ensures !IsStorable(Parse(Some(text), "PAB"))
  {
    FiveTokens(text);
    ParseOfWords(text, ["5", "usd"], "PAB");
    FiveScan("5", "usd");
    FiveFinish(text);
  }

  // ------------------------------------------------------- "1,2,3", "PAB"

  lemma CommasScan(a: string)
    requires a == "1.2,3"
    ensures Scan([a]) == ScanState(None, None, [a])
  {
    assert !IsAmount("1.2,3") && !IsCurrency("1.2,3");
    assert [a][..0] == [];
  }

  lemma CommasTokens(raw: string)
    requires raw == "1,2,3"
    ensures Join(["1.2,3"]) == Normalize(raw)
  {
    assert raw == "1" + [','] + "2,3";
    ReplaceFirstOnly("1", "2,3", ',', '.');
  }

  lemma CommasFinish(raw: string, a: string)
    requires a == "1.2,3"
    ensures Finish(raw, ScanState(None, None, [a]), "PAB") == ParsedMessage(raw, Some(a), None, "PAB")
  {
    FinishOf(raw, ScanState(None, None, [a]), "PAB");
    assert Upper("PAB") == "PAB";
  }

  /** "1,2,3" with default "PAB": only the first comma becomes a period, so
      the one token "1.2,3" is no amount and the whole message is label. */
  lemma OnlyFirstComma(text: string)
    requires text == "1,2,3"
    ensures Parse(Some(text), "PAB") == ParsedMessage(text, Some("1.2,3"), None, "PAB")
    ensures !IsStorable(Parse(Some(text), "PAB"))
  {
    CommasTokens(text);
    ParseOfWords(text, ["1.2,3"], "PAB");
    CommasScan("1.2,3");
    CommasFinish(text, "1.2,3");
  }

  // ------------------------------------------ "taxi 5 \u212Aes", "PAB"

  /** U+212A KELVIN SIGN lower-cases to the ASCII `k`, so the token written
      with it becomes the currency code "kes". */
  lemma KelvinWords()
    ensures !IsAmount("taxi") && !IsCurrency("taxi") && IsCurrency("kes") && Upper("kes") == "KES"
  {
  }

  lemma KelvinScan(a: string, b: string, c: string)
    requires a == "taxi" && b == "5" && c == "kes"
    ensures Scan([a, b, c]) == ScanState(Some(5.0), Some("KES"), [a])
  {
    KelvinWords();
    DigitValueOf(b);
    ScanLabelAmountCurrency(a, b, c);
  }

  lemma KelvinTokens(raw: string)
    requires raw == "taxi 5 \U{212A}es"
    ensures Join(["taxi", "5", "kes"]) == Normalize(raw)
  {
    ReplaceAbsent(raw, ',', '.');
  }

  lemma KelvinFinish(raw: string, a: string)
    requires a == "taxi"
    ensures Finish(raw, ScanState(Some(5.0), Some("KES"), [a]), "PAB") ==
      ParsedMessage(raw, Some(a), Some(5.0), "KES")
  {
    FinishOf(raw, ScanState(Some(5.0), Some("KES"), [a]), "PAB");
    assert Upper("KES") == "KES";
  }

  /** "taxi 5 \u212Aes" with default "PAB": after lower-casing, the last token
      matches `^[a-z]{3}$`, so the code is "KES" and the label is "taxi". */
  lemma KelvinSignCurrency(text: string)
    requires text == "taxi 5 \U{212A}es"
    ensures Parse(Some(text), "PAB") == ParsedMessage(text, Some("taxi"), Some(5.0), "KES")
  {
    KelvinTokens(text);
    ParseOfWords(text, ["taxi", "5", "kes"], "PAB");
    KelvinScan("taxi", "5", "kes");
    KelvinFinish(text, "taxi");
  }
}
