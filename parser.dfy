/**
 * `parseMessage` (server.js:50-67): a chat line such as "super 23.50 USD"
 * becomes the trimmed text, a label (`lugar`), an amount (`monto`) and a
 * three-letter currency code (`moneda`).
 *
 * `Parse` is the specification: the token scan is the left fold `Scan` of
 * `Step`. `ParseMessage` is the loop of the source, proved equal to `Parse`.
 * The lemmas say what `Parse` means: first match wins each slot, every token
 * lands in exactly one place, labels keep their order, the code's shape.
 */
module Parser {
  import opened Options
  import opened Text
  import opened Grammar

  /** The object `parseMessage` returns; `None` stands for `null`. */
  datatype ParsedMessage = ParsedMessage(raw: string, lugar: Option<string>, monto: Option<real>, moneda: string)

  /** The loop's three variables: `monto`, `moneda` and `lugarTokens`. */
  datatype ScanState = ScanState(monto: Option<real>, moneda: Option<string>, lugarTokens: seq<string>)

  const Start := ScanState(None, None, [])

  /** One pass of the loop body on token `t`: a slot once filled keeps its
      value, and the token goes to exactly one place (an empty slot or the
      end of the label list). */
  function Step(st: ScanState, t: string): (r: ScanState)
    ensures st.monto.Some? ==> r.monto == st.monto
    ensures st.moneda.Some? ==> r.moneda == st.moneda
    ensures r.lugarTokens == st.lugarTokens || r.lugarTokens == st.lugarTokens + [t]
    ensures |r.lugarTokens| + (if r.monto.Some? then 1 else 0) + (if r.moneda.Some? then 1 else 0) ==
            |st.lugarTokens| + (if st.monto.Some? then 1 else 0) + (if st.moneda.Some? then 1 else 0) + 1
    ensures r != st
  {
    if st.monto.None? && IsAmount(t) then st.(monto := Some(AmountValue(t)))
    else if st.moneda.None? && IsCurrency(t) then st.(moneda := Some(Upper(t)))
    else st.(lugarTokens := st.lugarTokens + [t])
  }

  /** The loop run over `ts`, left to right. When neither slot gets filled,
      every token is a label token. */
  function Scan(ts: seq<string>): (r: ScanState)
    ensures |r.lugarTokens| <= |ts|
    ensures r.monto.None? && r.moneda.None? ==> r.lugarTokens == ts
    decreases |ts|
  {
    if ts == [] then Start else Step(Scan(ts[..|ts| - 1]), ts[|ts| - 1])
  }

  /** Scanning one more token of `ts` is one more step. */
  lemma ScanPrefix(ts: seq<string>, i: nat)
    requires i < |ts|
    ensures Scan(ts[..i + 1]) == Step(Scan(ts[..i]), ts[i])
  {
    assert ts[..i + 1][..i] == ts[..i];
  }

  /** `raw.replace(",", ".").toLowerCase()`. */
  function Normalize(raw: string): (r: string)
    ensures |r| == |raw|
  {
    Lower(ReplaceFirst(raw, ',', '.'))
  }

  /** Normalizing turns only the first comma into a period and lower-cases
      every letter; white space stays where it was, so a trimmed text stays
      trimmed. */
  lemma NormalizeShape(raw: string)
    ensures |Normalize(raw)| == |raw|
    ensures forall k | 0 <= k < |raw| ::
      Normalize(raw)[k] == (if raw[k] == ',' && ',' !in raw[..k] then '.' else LowerChar(raw[k]))
    ensures NoUpper(Normalize(raw))
    ensures forall k | 0 <= k < |raw| :: IsSpace(Normalize(raw)[k]) == IsSpace(raw[k])
  {
    ReplaceFirstAt(raw, ',', '.');
    LowerHasNoUpper(ReplaceFirst(raw, ',', '.'));
  }

  /** `normalized.split(/\s+/)`. */
  function Tokens(raw: string): seq<string> {
    Split(Normalize(raw))
  }

  /** `(text || "").trim()`; `None` is a missing text. */
  function RawText(text: Option<string>): (r: string)
    ensures Trimmed(r)
    ensures r == [] <==> text.None? || AllSpace(text.value)
  {
    Trim(text.GetOr(""))
  }

  /** The returned object built from the loop's final state (server.js:61-66):
      the labels joined and trimmed, `null` when that is empty, and the found or
      default currency upper-cased. The `isNaN` guard never fires on an exact
      value, so `monto` passes through. */
  function Finish(raw: string, st: ScanState, dflt: string): (r: ParsedMessage)
    ensures r.raw == raw && r.monto == st.monto
    ensures r.lugar.Some? ==> r.lugar.value != [] && Trimmed(r.lugar.value)
    ensures r.lugar.None? <==> AllSpace(Join(st.lugarTokens))
  {
    var joined := Trim(Join(st.lugarTokens));
    ParsedMessage(raw, if joined == [] then None else Some(joined), st.monto, Upper(st.moneda.GetOr(dflt)))
  }

  /** What `parseMessage(text)` returns when `DEFAULT_CURRENCY` is `dflt`. */
  function Parse(text: Option<string>, dflt: string): ParsedMessage {
    var raw := RawText(text);
    if raw == [] then ParsedMessage(raw, None, None, dflt)
    else Finish(raw, Scan(Tokens(raw)), dflt)
  }

  method ParseMessage(text: Option<string>, dflt: string) returns (p: ParsedMessage)
    ensures p == Parse(text, dflt)
  {
    var raw := Trim(if text.Some? then text.value else "");
    if raw == [] {
      return ParsedMessage(raw, None, None, dflt);
    }
    var normalized := Lower(ReplaceFirst(raw, ',', '.'));
    var tokens := Split(normalized);
    var lugarTokens: seq<string> := [];
    var monto: Option<real> := None;
    var moneda: Option<string> := None;
    for i := 0 to |tokens|
      invariant ScanState(monto, moneda, lugarTokens) == Scan(tokens[..i])
    {
      var t := tokens[i];
      ScanPrefix(tokens, i);
      if monto.None? && IsAmount(t) {
        monto := Some(AmountValue(t));
        continue;
      }
      if moneda.None? && IsCurrency(t) {
        moneda := Some(Upper(t));
        continue;
      }
      lugarTokens := lugarTokens + [t];
    }
    assert tokens[..|tokens|] == tokens;
    var joined := Trim(Join(lugarTokens));
    p := ParsedMessage(raw, if joined == [] then None else Some(joined), monto,
                       Upper(if moneda.Some? then moneda.value else dflt));
  }

  // ------------------------------------------------- reference definitions

  /** Index of the first token satisfying `p`. */
  function FirstWhere(ts: seq<string>, p: string -> bool): (r: Option<nat>)
    ensures r.Some? ==> r.value < |ts| && p(ts[r.value])
    ensures forall k | 0 <= k < |ts| && (r.None? || k < r.value) :: !p(ts[k])
  {
    if ts == [] then None
    else if p(ts[0]) then Some(0)
    else match FirstWhere(ts[1..], p)
      case None => None
      case Some(i) => Some(i + 1)
  }

  /** Index of the first token matching the amount grammar. */
  function FirstAmount(ts: seq<string>): Option<nat> {
    FirstWhere(ts, IsAmount)
  }

  /** Index of the first token matching the currency grammar. */
  function FirstCurrency(ts: seq<string>): Option<nat> {
    FirstWhere(ts, IsCurrency)
  }

  function Indices(o: Option<nat>): set<nat> {
    if o.Some? then {o.value} else {}
  }

  /** `ts` without the tokens at the positions in `skip`, in their order. */
  function Excluding(ts: seq<string>, skip: set<nat>): seq<string>
    decreases |ts|
  {
    if ts == [] then []
    else Excluding(ts[..|ts| - 1], skip) + (if |ts| - 1 in skip then [] else [ts[|ts| - 1]])
  }

  /** The label tokens: every token except the amount and the currency. */
  function LabelTokens(ts: seq<string>): seq<string> {
    Excluding(ts, Indices(FirstAmount(ts)) + Indices(FirstCurrency(ts)))
  }

  // ---------------------------------------------------------- the scan

  lemma {:induction false} ExcludingAgree(ts: seq<string>, s1: set<nat>, s2: set<nat>)
    requires forall k: nat | k < |ts| :: k in s1 <==> k in s2
    ensures Excluding(ts, s1) == Excluding(ts, s2)
    decreases |ts|
  {
    if ts != [] {
      ExcludingAgree(ts[..|ts| - 1], s1, s2);
    }
  }

  /** The first match in `ps + [t]`: the first match in `ps`, else `t` when
      it passes. The proof is direct; automatic induction on `ps` only makes
      it slower, so it is switched off. */
  lemma {:induction false} FirstWhereSnoc(ps: seq<string>, t: string, p: string -> bool)
    ensures FirstWhere(ps + [t], p) ==
      if FirstWhere(ps, p).Some? then FirstWhere(ps, p)
      else if p(t) then Some(|ps|) else None
  {
    var ts := ps + [t];
    var q, r := FirstWhere(ps, p), FirstWhere(ts, p);
    assert forall k | 0 <= k < |ps| :: ts[k] == ps[k];
    assert ts[|ps|] == t;
    if q.Some? {
      assert p(ts[q.value]);
    } else if r.Some? {
      assert r.value == |ps|;
    }
  }

  /** The scan's amount is the value of the first amount-shaped token. */
  lemma {:induction false} ScanAmount(ts: seq<string>)
    ensures Scan(ts).monto == if FirstAmount(ts).Some? then Some(AmountValue(ts[FirstAmount(ts).value])) else None
    decreases |ts|
  {
    if ts != [] {
      var ps, t := ts[..|ts| - 1], ts[|ts| - 1];
      assert ts == ps + [t];
      ScanAmount(ps);
      FirstWhereSnoc(ps, t, IsAmount);
      var fa := FirstAmount(ps);
      if fa.Some? { assert ts[fa.value] == ps[fa.value]; }
    }
  }

  /** The scan's currency is the first three-letter token, upper-cased: a token
      the amount took is never three letters. */
  lemma {:induction false} ScanCurrency(ts: seq<string>)
    ensures Scan(ts).moneda == if FirstCurrency(ts).Some? then Some(Upper(ts[FirstCurrency(ts).value])) else None
    decreases |ts|
  {
    if ts != [] {
      var ps, t := ts[..|ts| - 1], ts[|ts| - 1];
      assert ts == ps + [t];
      ScanCurrency(ps);
      FirstWhereSnoc(ps, t, IsCurrency);
      if IsAmount(t) { AmountIsNotCurrency(t); }
      var fc := FirstCurrency(ps);
      if fc.Some? { assert ts[fc.value] == ps[fc.value]; }
    }
  }

  /** Appending a token appends it to the label tokens unless it is the first
      amount-shaped or the first three-letter token. */
  lemma LabelTokensSnoc(ps: seq<string>, t: string)
    ensures LabelTokens(ps + [t]) == LabelTokens(ps) +
      if (FirstAmount(ps).None? && IsAmount(t)) || (FirstCurrency(ps).None? && IsCurrency(t)) then [] else [t]
  {
    var ts := ps + [t];
    var s1 := Indices(FirstAmount(ts)) + Indices(FirstCurrency(ts));
    var s0 := Indices(FirstAmount(ps)) + Indices(FirstCurrency(ps));
    assert Excluding(ts, s1) == Excluding(ps, s1) + (if |ps| in s1 then [] else [t]) by {
      assert ts[..|ts| - 1] == ps && ts[|ts| - 1] == t;
    }
    assert (|ps| in s1) == ((FirstAmount(ps).None? && IsAmount(t)) || (FirstCurrency(ps).None? && IsCurrency(t)))
       && forall k: nat | k < |ps| :: k in s1 <==> k in s0
    by {
      FirstWhereSnoc(ps, t, IsAmount);
      FirstWhereSnoc(ps, t, IsCurrency);
    }
    ExcludingAgree(ps, s1, s0);
  }

  /** The scan keeps every token but the amount and the currency, in order, as
      a label token. */
  lemma {:induction false} ScanLabels(ts: seq<string>)
    ensures Scan(ts).lugarTokens == LabelTokens(ts)
    decreases |ts|
  {
    if ts != [] {
      var ps, t := ts[..|ts| - 1], ts[|ts| - 1];
      assert ts == ps + [t];
      ScanLabels(ps);
      ScanAmount(ps);
      ScanCurrency(ps);
      LabelTokensSnoc(ps, t);
    }
  }

  /** Every token lands in exactly one place: the amount, the currency or the
      label list. */
  lemma {:induction false} ScanPartition(ts: seq<string>)
    ensures |Scan(ts).lugarTokens| + (if Scan(ts).monto.Some? then 1 else 0)
          + (if Scan(ts).moneda.Some? then 1 else 0) == |ts|
    decreases |ts|
  {
    if ts != [] {
      ScanPartition(ts[..|ts| - 1]);
    }
  }

  /** The amount and the currency never come from the same token. */
  lemma AmountAndCurrencyDistinct(ts: seq<string>)
    requires FirstAmount(ts).Some? && FirstCurrency(ts).Some?
    ensures FirstAmount(ts).value != FirstCurrency(ts).value
  {
    AmountIsNotCurrency(ts[FirstAmount(ts).value]);
  }

  /** Every label token is one of the scanned tokens. */
  lemma {:induction false} ExcludingFrom(ts: seq<string>, skip: set<nat>)
    ensures forall j | 0 <= j < |Excluding(ts, skip)| :: Excluding(ts, skip)[j] in ts
    decreases |ts|
  {
    if ts != [] {
      var ps := ts[..|ts| - 1];
      ExcludingFrom(ps, skip);
      forall j | 0 <= j < |Excluding(ps, skip)| ensures Excluding(ps, skip)[j] in ts {
        var p :| 0 <= p < |ps| && ps[p] == Excluding(ps, skip)[j];
        assert ts[p] == ps[p];
      }
    }
  }

  // ------------------------------------------------------ the whole parse

  /** The tokens of a non-empty trimmed message are non-empty, free of white
      space and contain no upper-case letter. */
  lemma TokensShape(raw: string)
    requires raw != [] && Trimmed(raw)
    ensures forall j | 0 <= j < |Tokens(raw)| :: Tokens(raw)[j] != [] && NoSpace(Tokens(raw)[j])
    ensures forall j | 0 <= j < |Tokens(raw)| :: NoUpper(Tokens(raw)[j])
  {
    var n := Normalize(raw);
    NormalizeShape(raw);
    assert Trimmed(n);
    SplitTrimmedNonEmpty(n);
    SplitNoSpace(n);
    SplitNoUpper(n);
  }

  /** Empty, white-space-only or missing text short-circuits to the all-null
      result with the default currency as it is. */
  lemma ParseEmpty(text: Option<string>, dflt: string)
    requires text.None? || AllSpace(text.value)
    ensures Parse(text, dflt) == ParsedMessage("", None, None, dflt)
  {
  }

  /** The raw text is the trimmed input; it is empty exactly when the input was
      missing or only white space. */
  lemma ParseRaw(text: Option<string>, dflt: string)
    ensures Trimmed(Parse(text, dflt).raw)
    ensures Parse(text, dflt).raw == [] <==> text.None? || AllSpace(text.value)
  {
  }

  /** The amount is the exact value of the first amount-shaped token; it is
      absent exactly when no token has that shape. */
  lemma ParseAmount(text: Option<string>, dflt: string)
    ensures var raw := RawText(text); var ts := Tokens(raw);
      Parse(text, dflt).monto ==
        if raw != [] && FirstAmount(ts).Some? then Some(AmountValue(ts[FirstAmount(ts).value])) else None
  {
    var raw := RawText(text);
    if raw != [] { ScanAmount(Tokens(raw)); }
  }

  /** The currency is the first three-letter token upper-cased, or else the
      default (upper-cased once the text is not empty). */
  lemma ParseCurrency(text: Option<string>, dflt: string)
    ensures var raw := RawText(text); var ts := Tokens(raw);
      Parse(text, dflt).moneda ==
        if raw == [] then dflt
        else if FirstCurrency(ts).Some? then Upper(ts[FirstCurrency(ts).value])
        else Upper(dflt)
  {
    var raw := RawText(text);
    if raw != [] {
      var ts := Tokens(raw);
      ScanCurrency(ts);
      if FirstCurrency(ts).Some? { UpperIdempotent(ts[FirstCurrency(ts).value]); }
    }
  }

  /** The label is the label tokens joined with single spaces, `null` exactly
      when there are none; it is trimmed and has no upper-case letter. */
  lemma ParseLabel(text: Option<string>, dflt: string)
    ensures var raw := RawText(text); var ls := LabelTokens(Tokens(raw));
      Parse(text, dflt).lugar == if raw == [] || ls == [] then None else Some(Join(ls))
    ensures var l := Parse(text, dflt).lugar;
      l.Some? ==> l.value != [] && Trimmed(l.value) && NoUpper(l.value)
  {
    var raw := RawText(text);
    if raw != [] {
      var ts := Tokens(raw);
      var ls := LabelTokens(ts);
      ScanLabels(ts);
      TokensShape(raw);
      ExcludingFrom(ts, Indices(FirstAmount(ts)) + Indices(FirstCurrency(ts)));
      forall j | 0 <= j < |ls| ensures ls[j] != [] && NoSpace(ls[j]) && NoUpper(ls[j]) {
        var p :| 0 <= p < |ts| && ts[p] == ls[j];
      }
      JoinShape(ls);
      JoinNoUpper(ls);
    }
  }

  /** At most one token is the amount and at most one the currency; all the
      others are in the label, so the label's words and the two slots account
      for every token. */
  lemma ParsePartition(text: Option<string>, dflt: string)
    requires RawText(text) != []
    ensures var p := Parse(text, dflt); var ts := Tokens(RawText(text));
      |LabelTokens(ts)| + (if p.monto.Some? then 1 else 0) + (if FirstCurrency(ts).Some? then 1 else 0) == |ts|
  {
    var ts := Tokens(RawText(text));
    ScanAmount(ts);
    ScanCurrency(ts);
    ScanLabels(ts);
    ScanPartition(ts);
  }

  /** Three ASCII upper-case letters: the shape of every currency code. */
  predicate IsCode(s: string) {
    |s| == 3 && forall k | 0 <= k < 3 :: IsAsciiUpper(s[k])
  }

  /** `moneda` always has the code shape when the default has it. */
  lemma ParseCurrencyShape(text: Option<string>, dflt: string)
    requires IsCode(dflt)
    ensures IsCode(Parse(text, dflt).moneda)
  {
    ParseCurrency(text, dflt);
  }
}
