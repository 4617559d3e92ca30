/**
 * The callers of `parseMessage` in server.js: the configured default
 * currency, the half-month rule `quincena`, and what the POST `/webhook`
 * handler does with one text message (reply with a prompt, reject it, or
 * store an expense record). Sending the replies and writing to the database
 * are left to the caller of this model.
 */
module Webhook {
  import opened Options
  import opened Text
  import opened Parser

  /** Three ASCII letters of either case: a configured default that
      upper-cases to a currency code. */
  predicate IsLetters3(s: string) {
    |s| == 3 && forall k | 0 <= k < 3 :: IsAsciiUpper(s[k]) || IsAsciiLower(s[k])
  }

  /** `(process.env.DEFAULT_CURRENCY || "USD").toUpperCase()`; `configured` is
      the environment variable, `None` when unset. */
  function DefaultCurrency(configured: Option<string>): (r: string)
    ensures configured.None? || configured.value == [] ==> r == "USD"
    ensures configured.Some? && configured.value != [] ==> Lower(r) == Lower(configured.value)
    ensures forall k | 0 <= k < |r| :: !IsAsciiLower(r[k])
    ensures configured.Some? && configured.value != [] ==>
      forall k | 0 <= k < |r| :: r[k] == configured.value[k] || r[k] == UpperChar(configured.value[k])
  {
    var v := if configured.Some? && configured.value != [] then configured.value else "USD";
    LowerOfUpper(v);
    Upper(v)
  }

  /** A calendar date as JavaScript's `Date` reports it: `month` is the
      zero-based `getMonth()`, `day` the day of the month `getDate()`. */
  datatype Date = Date(year: int, month: int, day: int)

  /** `quincena`: the first half of the month is 1, the second 2. */
  function Quincena(d: Date): (r: int)
    ensures r == 1 || r == 2
    ensures r == 1 <==> d.day <= 15
  {
    if d.day <= 15 then 1 else 2
  }

  /** Later days of a month are never in an earlier half. */
  lemma QuincenaMonotone(d1: Date, d2: Date)
    requires d1.day <= d2.day
    ensures Quincena(d1) <= Quincena(d2)
  {
  }

  /** The test at server.js:104 passes: `lugar` is a non-empty string and
      `monto` is not null. */
  predicate IsStorable(p: ParsedMessage) {
    p.lugar.Some? && p.lugar.value != [] && p.monto.Some?
  }

  /** A parsed message is stored exactly when it has a label and an amount;
      zero and negative amounts included. In terms of the tokens: some token
      is amount-shaped and some token is neither the amount nor the currency. */
  lemma StorableIff(text: Option<string>, dflt: string)
    ensures var p := Parse(text, dflt);
      IsStorable(p) <==> p.lugar.Some? && p.monto.Some?
    ensures var raw := RawText(text); var ts := Tokens(raw);
      IsStorable(Parse(text, dflt)) <==> raw != [] && FirstAmount(ts).Some? && LabelTokens(ts) != []
  {
    ParseLabel(text, dflt);
    ParseAmount(text, dflt);
  }

  /** One stored expense: the fields the handler writes besides the server
      timestamps. */
  datatype Expense = Expense(
    lugar: string, monto: real, moneda: string, userWaId: string, raw: string,
    fuente: string, year: int, mes: int, dia: int, quincena: int)

  /** What the handler does with a message. */
  datatype Reply =
    | AskForText      // no text: the "send me the expense as ..." prompt
    | InvalidFormat   // no label or no amount: the "invalid format" prompt
    | Saved(e: Expense)

  /** The POST handler from the message text on (server.js:95-121): `body` is
      `msg.text?.body`, `from` is `msg.from`, `now` the server clock. */
  function Handle(body: Option<string>, from: string, dflt: string, now: Date): (r: Reply)
    ensures r.Saved? ==> r.e.lugar != [] && r.e.fuente == "whatsapp-cloud" &&
                         r.e.year == now.year && r.e.mes == now.month + 1 && r.e.dia == now.day &&
                         1 <= r.e.quincena <= 2
  {
    var text := Trim(body.GetOr(""));
    if text == [] then AskForText
    else
      var p := Parse(Some(text), dflt);
      if !IsStorable(p) then InvalidFormat
      else Saved(Expense(p.lugar.value, p.monto.value, p.moneda, from, p.raw,
                         "whatsapp-cloud", now.year, now.month + 1, now.day, Quincena(now)))
  }

  /** The handler saves exactly the messages whose text parses to a storable
      result, and the record carries that result, the trimmed text and the
      half of the month of `now`. */
  lemma HandleSaves(body: Option<string>, from: string, dflt: string, now: Date)
    ensures var p := Parse(body, dflt);
      Handle(body, from, dflt, now).Saved? <==> IsStorable(p)
    ensures var p := Parse(body, dflt); var r := Handle(body, from, dflt, now);
      r.Saved? ==> r.e.lugar == p.lugar.value && r.e.monto == p.monto.value && r.e.moneda == p.moneda &&
                   r.e.raw == Trim(body.GetOr("")) && r.e.userWaId == from &&
                   (r.e.quincena == 1 <==> now.day <= 15)
    ensures Handle(body, from, dflt, now) == AskForText <==> RawText(body) == []
  {
    var text := Trim(body.GetOr(""));
    TrimIdempotent(body.GetOr(""));
    assert RawText(Some(text)) == RawText(body);
  }

  /** A saved record's label is non-empty with no ASCII capital, and its currency is
      three ASCII capitals when the configured default is unset, empty or
      three letters. */
  lemma SavedShape(body: Option<string>, from: string, configured: Option<string>, now: Date)
    requires configured.None? || configured.value == [] || IsLetters3(configured.value)
    ensures var r := Handle(body, from, DefaultCurrency(configured), now);
      r.Saved? ==> r.e.lugar != [] && NoUpper(r.e.lugar) &&
                   IsCode(r.e.moneda) && 1 <= r.e.quincena <= 2
  {
    var dflt := DefaultCurrency(configured);
    DefaultIsCode(configured);
    HandleSaves(body, from, dflt, now);
    ParseLabel(body, dflt);
    ParseCurrencyShape(body, dflt);
  }

  /** The configured default, once derived, is a currency code when the
      variable is unset, empty or three letters of either case. */
  lemma DefaultIsCode(configured: Option<string>)
    requires configured.None? || configured.value == [] || IsLetters3(configured.value)
    ensures IsCode(DefaultCurrency(configured))
  {
  }

  /** Upper-casing the configured default again changes nothing, so a message
      without a currency token gets the same default whether it short-circuits
      as empty (server.js:52) or goes through the scan (server.js:65). */
  lemma DefaultFallback(text: Option<string>, configured: Option<string>)
    ensures var dflt := DefaultCurrency(configured); var raw := RawText(text);
      raw == [] || FirstCurrency(Tokens(raw)).None? ==> Parse(text, dflt).moneda == dflt
  {
    var dflt := DefaultCurrency(configured);
    ParseCurrency(text, dflt);
    UpperIdempotent(if configured.Some? && configured.value != [] then configured.value else "USD");
  }
}
