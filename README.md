# wa-gastos expense-message parser, in Dafny

wa-gastos is a WhatsApp Cloud API webhook. Users send expense messages of the
form "lugar monto [moneda]", such as `super 23.50 USD`, and the webhook stores
each one as an expense record. This project models the logic in `server.js`
that decides what a message means:

- `parseMessage` (server.js:50-67) turns a message into a record:
  - `raw`: the trimmed text;
  - `lugar`: the label, or `null`;
  - `monto`: the amount, or `null`;
  - `moneda`: a three-letter currency code.
- `quincena` (server.js:68) gives the half of the month.
- The POST handler's acceptance rule (server.js:104) decides which parsed
  messages are stored.

Files:

- `options.dfy`: `Option`, which stands for JavaScript's `null`.
- `text.dfy`: the string built-ins the parser uses:
  - `trim`;
  - `replace` with a one-character string pattern, which replaces only the
    first occurrence;
  - `toLowerCase` and `toUpperCase`;
  - `split(/\s+/)` and `join(" ")`.
- `grammar.dfy`: the two token grammars.
  - The amount grammar `^-?\d+(\.\d+)?$` is given twice: as an automaton
    (`IsAmount`) and as a decomposition into a `Numeral` (`ParseNumeral`). The
    two are proved equivalent, and the decomposition is proved to round-trip
    with `Render`.
  - The currency grammar is `^[a-z]{3}$`.
  - The exact value `parseFloat` gives a numeral.
- `parser.dfy`: the parser itself.
  - `Parse` is the functional specification, with the token loop written as
    the left fold `Scan` of `Step`.
  - `ParseMessage` is the source's loop: a method with `monto`, `moneda` and
    `lugarTokens` as mutable locals, proved equal to `Parse`.
  - Reference definitions (`FirstAmount`, `FirstCurrency`, `LabelTokens`) say
    what the scan computes without a loop: first match wins each slot, and
    every other token goes to the label in order.
- `webhook.dfy`: the callers of `parseMessage`:
  - the configured default currency (server.js:22);
  - `quincena`;
  - the acceptance test;
  - the record the POST handler builds (server.js:95-121).
- `scenarios.dfy`: worked examples, each proved from the definitions. Three
  are the examples in the service's own reply texts (server.js:99, 105):
  `super 23.50 USD`, `farmacia 12,30` and `5 USD`. The others are chosen edge
  cases: a repeated amount, several commas, and a Kelvin sign.

Behaviours of the code that are easy to miss:

- **Commas.** `raw.replace(",", ".")` with a string pattern replaces only the
  first comma (server.js:53), so `"1,2,3"` becomes the one label token
  `"1.2,3"` (`Scenarios.OnlyFirstComma`).
- **Trimmed `raw`.** `raw` is the trimmed text (server.js:51, 62).
- **ASCII-only currency.** The currency token must match `[a-z]{3}`
  (server.js:58), and `[a-z]` is ASCII only. Three non-ASCII letters such as
  `"ñaé"` stay in the label. A character whose lower-case form is ASCII does
  match: U+212A KELVIN SIGN lower-cases to `k`, so `"\u212Aes"` becomes the
  code `"KES"` (`Scenarios.KelvinSignCurrency`).
- **Default currency on the empty path.** An empty message returns
  `DEFAULT_CURRENCY` without upper-casing it again (server.js:52). That
  constant is already upper-cased where it is defined (server.js:22), so both
  paths agree (`Webhook.DefaultFallback`).

## Model

| member | source | states |
|---|---|---|
| `Parser.Parse` | server.js:50-67 | The whole of `parseMessage` as a function: the empty case, then `Finish` of the `Scan` of the tokens. Its meaning is stated by `ParseEmpty`, `ParseRaw`, `ParseAmount`, `ParseCurrency`, `ParseLabel` and `ParsePartition`. |
| `Parser.Step` | server.js:56-59 | One pass of the loop body. A filled slot keeps its value, and the token goes to exactly one place: an empty slot or the end of the label list. Label tokens plus filled slots grow by exactly one at each step. |
| `Parser.Scan` | server.js:55-60 | The loop as a left fold of `Step`. There are never more label tokens than tokens, and when no slot is filled every token is a label token. `ScanAmount`, `ScanCurrency` and `ScanLabels` give its exact result. |
| `Parser.Finish` | server.js:61-66 | The returned object: `raw` and `monto` pass through, a present label is non-empty and trimmed, and the label is null exactly when the joined label tokens are all white space. |
| `Parser.ParseMessage` | server.js:50-67 | The loop over the tokens, with `continue` after filling a slot, returns exactly `Parse(text, dflt)`: the invariant is that the three loop variables equal the fold `Scan` of the tokens seen so far. |
| `Parser.ParseEmpty` | server.js:51-52 | A missing, empty or all-white-space text gives `raw = ""`, no label, no amount, and the default currency as it is. |
| `Parser.ParseRaw` | server.js:51 | `raw` is trimmed, and it is empty exactly when the text was missing or only white space. |
| `Parser.RawText` | server.js:51 | The text, or `""` when it is missing or falsy, trimmed: the result is trimmed, and empty exactly when the text is missing or only white space. |
| `Parser.Normalize` | server.js:53 | `raw.replace(",", ".").toLowerCase()`. It keeps the length; `NormalizeShape` gives each character of the result. |
| `Parser.Tokens` | server.js:54 | `normalized.split(/\s+/)` of the normalized text. `TokensShape` states what the tokens look like, and `Text.SplitJoinRuns` which tokens a text made of words and white-space runs gives. |
| `Parser.NormalizeShape` | server.js:53 | Normalizing keeps the length. Each character becomes `.` if it is the first comma, otherwise its lower-case form. The result has no ASCII upper-case letter. White space stays where it was. |
| `Parser.TokensShape` | server.js:51-54 | The tokens of a non-empty trimmed text are non-empty, free of white space, and have no ASCII upper-case letter. |
| `Parser.FirstWhere` | server.js:56-58 | The index found satisfies the test, and no earlier token does. `None` means no token does. |
| `Parser.ScanAmount` | server.js:55-57 | The loop's `monto` is the exact value of the FIRST amount-shaped token, or null when there is none. |
| `Parser.ScanCurrency` | server.js:55-58 | The loop's `moneda` is the FIRST three-letter token, upper-cased, or null. A token taken as the amount never competes, because no amount is three letters. |
| `Parser.LabelTokensSnoc` | server.js:59 | One more token joins the label list unless it is the first amount-shaped token or the first three-letter token. |
| `Parser.ScanLabels` | server.js:55-60 | The loop's `lugarTokens` are all the tokens except the amount and the currency, in their original order. |
| `Parser.ScanPartition` | server.js:55-60 | Label tokens, plus one for a filled amount, plus one for a filled currency, count every token exactly once. |
| `Parser.AmountAndCurrencyDistinct` | server.js:57-58 | The amount and the currency never come from the same token. |
| `Parser.ExcludingFrom` | server.js:59 | Every label token is one of the message's tokens. |
| `Parser.ParseAmount` | server.js:57 | `monto` is the exact value of the first amount-shaped token. It is null exactly when the text is empty or no token has that shape. |
| `Parser.ParseCurrency` | server.js:65 | `moneda` is the first three-letter token upper-cased. Otherwise it is the default, upper-cased when the text was not empty. |
| `Parser.ParseLabel` | server.js:63 | `lugar` is the label tokens joined with single spaces. It is null exactly when the text is empty or no label token is left. A present label is non-empty, trimmed, and has no ASCII upper-case letter. |
| `Parser.ParsePartition` | server.js:56-63 | For a non-empty text, the label words, the amount and the currency account for every token exactly once. |
| `Parser.ParseCurrencyShape` | server.js:65 | If the default is three upper-case ASCII letters, so is `moneda`, on every path. |
| `Grammar.IsAmount` | server.js:57 | The test `/^-?\d+(\.\d+)?$/` as an automaton over the token's characters. `AmountMatch` and `AmountGrammar` state which tokens it accepts. |
| `Grammar.IsCurrency` | server.js:58 | The test `/^[a-z]{3}$/`: three ASCII lower-case letters. `AmountIsNotCurrency` states that no token passes both tests. |
| `Grammar.Value` | server.js:57 | The exact value `parseFloat` reads from a well-formed numeral: the digits as an integer over a power of ten, negated after a minus sign. `TrailingZero` and `ValueSign` state its properties. |
| `Grammar.AmountValue` | server.js:57 | `parseFloat(t)` of a token that matched the amount pattern: the exact `Value` of its numeral decomposition, which exists by `AmountMatch`. `Scenarios.AmountOfNumeral` states that a well-formed numeral's text reads back as its `Value`. |
| `Grammar.AmountMatch` | server.js:57 | The automaton for `-?\d+(\.\d+)?` accepts exactly the tokens the numeral decomposition accepts. |
| `Grammar.RenderParse` | server.js:57 | A decomposed token is a well-formed numeral that spells the token back. |
| `Grammar.ParseRender` | server.js:57 | Decomposing a well-formed numeral's text gives the same numeral back. |
| `Grammar.AmountGrammar` | server.js:57 | A token matches the amount pattern exactly when it is the text of some well-formed numeral: optional sign, digits, optional `.` and digits. |
| `Grammar.AmountIsNotCurrency` | server.js:57-58 | No token matches both the amount pattern and `^[a-z]{3}$`. |
| `Grammar.TrailingZero` | server.js:57 | A trailing zero in the fraction does not change the value, so `"23.50"` and `"23.5"` are the same amount. |
| `Grammar.ValueSign` | server.js:57 | A value is non-negative without the minus sign and non-positive with it. |
| `Text.Trim` | server.js:51 | The result is trimmed, empty exactly when the input is all white space, and the input itself when the input is already trimmed. |
| `Text.TrimSlice` | server.js:51 | `trim` removes only white space, and only at the two ends. |
| `Text.TrimIdempotent` | server.js:95 | Trimming twice (the handler, then `parseMessage`) is trimming once. |
| `Text.ReplaceFirstAt` | server.js:53 | `replace(",", ".")` puts `.` where the first comma was and keeps every other character. |
| `Text.ReplaceFirstOnly` | server.js:53 | In `p + "," + q`, where `p` has no comma, the result is `p + "." + q`, so any later commas in `q` stay. |
| `Text.ReplaceAbsent` | server.js:53 | A text without a comma is left unchanged. |
| `Text.Lower` | server.js:53 | `toLowerCase`, character by character: `A`-`Z` to `a`-`z`, U+212A KELVIN SIGN to `k`, every other character kept. It keeps the length; `LowerHasNoUpper` and `LowerOfUpper` state the rest. |
| `Text.Upper` | server.js:65 | `toUpperCase` on ASCII letters (also used at server.js:22 and 58): it keeps the length; `UpperIdempotent`, `LowerOfUpper` and `DefaultCurrency` state the rest. |
| `Text.LowerHasNoUpper` | server.js:53 | `toLowerCase` leaves no ASCII upper-case letter and keeps white space where it was. |
| `Text.ReplaceFirst` | server.js:53 | `replace` with a one-character string pattern keeps the length. `ReplaceFirstAt`, `ReplaceFirstOnly` and `ReplaceAbsent` say which character changes. |
| `Text.LowerOfUpper` | server.js:22 | Upper-casing a text and lower-casing it again gives the text lower-cased. |
| `Text.Split` | server.js:54 | `split(/\s+/)`: the pieces between maximal runs of white space. `SplitWhole`, `SplitRun` and `SplitLeading` give its value on any text, one piece and one run of white space at a time; `SplitNoSpace` and `SplitTrimmedNonEmpty` state what every piece looks like. |
| `Text.SplitWhole` | server.js:54 | A text without white space splits into itself alone. |
| `Text.SplitRun` | server.js:54 | A word followed by a run of white space of any length and kind splits into the word, then the pieces of the rest; a trailing run leaves a last piece `""`. |
| `Text.SplitLeading` | server.js:54 | A text that starts with white space has `""` as its first piece. |
| `Text.SplitJoinRuns` | server.js:54 | Words separated by runs of white space of any length and kind (double spaces, tabs, line breaks) split back into exactly those words. |
| `Text.Join` | server.js:63 | `join(" ")`: no words give `""` and a single word is joined to itself. `JoinSnoc` places exactly one `" "` between neighbouring words, `JoinShape` gives the shape of the result, and `SplitJoin` shows that `split(/\s+/)` undoes it. |
| `Text.JoinSnoc` | server.js:63 | Joining one more word appends exactly one `" "` and the word. With the cases of no word and one word, this fixes the joined text of every list. |
| `Text.SplitNoSpace` | server.js:54 | `split(/\s+/)` gives at least one piece, and no piece holds white space. |
| `Text.SplitNoUpper` | server.js:54 | Splitting text without ASCII upper-case letters gives pieces without them. |
| `Text.SplitTrimmedNonEmpty` | server.js:51-54 | On non-empty trimmed text, every piece is non-empty. |
| `Text.SplitJoin` | server.js:54 | Splitting words joined by single spaces gives the words back. |
| `Text.JoinShape` | server.js:63 | Words joined with `" "` form a trimmed string, empty exactly when there are no words, so the `.trim()` after `join` never changes it. |
| `Text.JoinNoUpper` | server.js:63 | Joining words without ASCII upper-case letters adds none. |
| `Text.UpperIdempotent` | server.js:65 | Upper-casing twice is upper-casing once. |
| `Webhook.DefaultCurrency` | server.js:22 | The default is "USD" when the variable is unset or empty. Otherwise each of its characters is the variable's character at that position, or that character upper-cased; the default has no lower-case ASCII letter, and it lower-cases to the same text as the variable. So `"eur"` gives `"EUR"` and `"kes"` gives `"KES"`. |
| `Webhook.DefaultIsCode` | server.js:22 | When the variable is unset, empty, or three ASCII letters of either case, the default is three ASCII upper-case letters. |
| `Webhook.DefaultFallback` | server.js:52 | A message with no currency token gets the configured default unchanged, on the empty path and the scan path alike. |
| `Webhook.Quincena` | server.js:68 | The half of the month is 1 or 2, and it is 1 exactly when the day is at most 15. |
| `Webhook.QuincenaMonotone` | server.js:68 | A later day of the month is never in an earlier half. |
| `Webhook.IsStorable` | server.js:104 | The handler's test `parsed.lugar && parsed.monto !== null`: a non-empty label and an amount. `StorableIff` states when a parsed message passes it. |
| `Webhook.StorableIff` | server.js:104 | A parsed message passes the handler's test exactly when it has a label and an amount; zero and negative amounts pass. In terms of tokens: some token is amount-shaped and some token is neither the amount nor the currency. |
| `Webhook.HandleSaves` | server.js:95-121 | The handler asks for text exactly when the trimmed body is empty, and saves exactly the storable messages. The saved record carries the parsed label, amount and currency, the trimmed text, the sender, and the half of the month of `now`. |
| `Webhook.Handle` | server.js:95-121 | The handler from the message text on. A saved record has a non-empty label, source `"whatsapp-cloud"`, the year, the one-based month and the day of `now`, and a half of 1 or 2. `HandleSaves` states when it saves and what. |
| `Webhook.SavedShape` | server.js:104-121 | A saved record has a non-empty label with no ASCII upper-case letter, a currency of three ASCII upper-case letters (given a sensible configured default), and a half of 1 or 2. |
| `Scenarios.ParseOfWords` | server.js:51-54 | A trimmed text whose normalized form is words joined by single spaces parses to the object built from the scan of those words. |
| `Scenarios.FinishOf` | server.js:61-66 | The returned object: the label words joined, or null when there are none; the amount as scanned; the scanned or default currency, upper-cased. |
| `Scenarios.ScanRepeatedAmount` | server.js:56-59 | For a label word, an amount, the same amount again, and a currency: the second amount goes to the label. |
| `Scenarios.ScanAmountCurrency` | server.js:56-59 | For an amount followed by a currency, nothing is left for the label. |
| `Scenarios.SuperInDollars` | server.js:50-67 | `"super 23.50 USD"` with default `"PAB"` gives label `"super"`, amount 23.5 and currency `"USD"`. |
| `Scenarios.PharmacyInDefault` | server.js:53-65 | `"farmacia 12,30"` with default `"PAB"` gives label `"farmacia"`, amount 12.3 and currency `"PAB"`: the comma is the decimal point. |
| `Scenarios.RepeatedAmount` | server.js:57-59 | `"uber 8 8 usd"` gives label `"uber 8"`, amount 8 and currency `"USD"`. |
| `Scenarios.AmountWithoutLabel` | server.js:104 | `"5 USD"` gives no label, amount 5 and currency `"USD"`, and the handler rejects it. |
| `Scenarios.KelvinSignCurrency` | server.js:53-58 | `"taxi 5 \u212Aes"` gives label `"taxi"`, amount 5 and currency `"KES"`: the Kelvin sign lower-cases to `k`, so the token matches `^[a-z]{3}$`. |
| `Scenarios.OnlyFirstComma` | server.js:53 | `"1,2,3"` normalizes to `"1.2,3"`, which is not an amount, so the whole message is label and the handler rejects it. |

## Left out

- HTTP plumbing is not modelled: the Express app, the routes, the GET
  verification handshake, and the extraction of `msg` from the request body
  (server.js:5-6, 72-92, 136-137). `Webhook.Handle` starts from the message's
  text body and sender. A request without a message is not represented.
- Outbound messages are not modelled. `sendWhatsAppText` (server.js:27-47) is
  a network call. The handler's replies are the values `AskForText`,
  `InvalidFormat` and `Saved`.
- Firebase is not modelled: neither its initialization nor the Firestore
  `add` (server.js:8-19, 110-123). The model stops at the record the handler
  would write. The server timestamps `fechaServidor` and `createdAt` are left
  out of that record.
- `process.env` (server.js:22-25) is not read. The environment variable is
  the parameter `configured` of `Webhook.DefaultCurrency`, and the parser
  takes the resulting default as the parameter `dflt`.
- The clock (`new Date()`, `getFullYear`/`getMonth`/`getDate`, and time
  zones) is replaced by the value `now: Date`, which holds the year, the
  zero-based month and the day that `Date` would report.
- The amount is an exact `real` rather than a 64-bit float.
  - `parseFloat`'s rounding is not modelled; nor are the `isNaN` guard (it
    never fires, because the grammar admits only numerals) and overflow to
    `Infinity` for huge digit strings.
  - The confirmation's `toLocaleString("es-PA", …)` formatting
    (server.js:125) is not modelled.
- Case mapping is partial. `toLowerCase` maps `A`-`Z` and U+212A KELVIN
  SIGN, the one-character mappings that give ASCII. `toUpperCase` maps only
  `a`-`z`.
  - Which tokens match is modelled exactly on the lower-case side: both
    grammars are ASCII, and no other lower-case mapping yields an ASCII
    letter, digit, sign or period alone. U+0130 becomes `i` followed by
    U+0307, which matches neither grammar.
  - Other Unicode capitals in a label are kept as they are. A one-to-many
    mapping such as U+0130 would change the text's length.
  - `toUpperCase` matters only for the configured default currency
    (server.js:22, 65): a value holding U+0131 or `ß` would upper-case to
    `I` or `SS` in JavaScript but is kept as it is here.
- White space is the fixed list of JavaScript's WhiteSpace and LineTerminator
  code points that both `trim` and `\s` use, with the Unicode space
  separators as of today. Space separators added by a future Unicode version
  would not be included.
