# Customer Portfolio API: a verified model

The API answers one question: what is a customer's portfolio worth? It reads accounts from a Core
service that speaks one of two wire contracts, asks a Market service for the prices of the symbols
it found, values every holding in int64 minor units, and prints the sums as decimal text. This
project models that pipeline and proves what it promises, on machine arithmetic: int64 sums wrap,
`/` and `%` truncate, and the parser, the printers, the adapters and the loops keep the branches
and the error order of the Go code.

## How it is organised

| file | what it holds |
|---|---|
| `GoInt64.dfy`, `GoStrings.dfy`, `Decimal.dfy`, `Errors.dfy` | Go's int64 and uint64, the string functions used, digit strings and `strconv`, error chains |
| `Traversal.dfy`, `Sums.dfy`, `Sorting.dfy` | loops that stop at the first failure, sums, sorted listings |
| `Money.dfy`, `Quantities.dfy` | money, quantities, their parsers and printers, the v2 overflow guard |
| `CoreContract.dfy`, `CoreTheorems.dfy` | the two Core contracts, their adapters, refinement and round trips |
| `Aggregation.dfy`, `AggregationTheorems.dfy` | the portfolio service's loops and what they guarantee |
| `Upstreams.dfy` | the Core and Market clients with a record of the calls they make, and the mock market |
| `Presentation.dfy` | the public response and what a client reading its amounts can rely on |
| `Metrics.dfy`, `RequestRun.dfy` | the counters, one request from identifier to response, and sessions of requests |

Loops and objects of the source are methods and classes; each is proved equal to a specification
function, and the theorems are about those functions.

## The main results

- **The printed figures add up** (`RunAddsUp`): in every successful run in which no cash balance,
  account value or total comes out at the minimum int64, the printed total is the printed cash plus
  the printed holdings modulo the int64 width, and is the plain sum exactly when that sum fits.
  Overflow of partial sums does not matter. The condition is on what the upstreams sent, and is
  exactly when those texts read as amounts (`AmountsReadIff`).
- **The response shows what the upstreams sent** (`RunShows`): the accounts and positions of Core's
  payload in order, the Market's last figures for each symbol, the latest instant used, and the
  total in the accounts' currency. How amounts and quantities print is stated by spelling
  (`AmountSpelled`, `PrintsCanonically`, `NegativePrinted`), negative quantities included.
- **Both contracts are one** (`V2RefinesV1`, `VersionTransparent`): v2 accepts exactly the payloads
  that v1 accepts under renaming and that keep v2's extra rules; calls, status and body of a run do
  not tell which contract Core spoke.
- **The accepted languages** (`V2Language`, `V2Value`, `V1Language`, `V1Value`): exact, stated by
  the spelling and the decimal value of the text, over the reals, and not by the parser's steps.
- **Order does not matter** (`BookDeterminesResult`): success, total and as-of depend only on which
  balances and positions there are.
- **The request protocol** (`RunProtocol`, `RunSucceedsIff`): which calls are made with which
  symbols, and success exactly on a valid identifier, valid replies and accounts that add up. A
  failed aggregation names the first account and position at fault (`AggregationFails`,
  `AccountFails`).
- **The counters** (`SessionCounters`, `ServeSession`): however many requests are served on one set
  of counters, below the counter width the listing gives each status its number of requests, and
  their sum as the total.

## Where a promise needs a condition

- The overflow guard is exact on trimmed text only; with surrounding space it stays silent
  (`GuardExact`, `GuardSilentOnSpaces`). The check before it has by then refused such text.
- A v1 quantity is its decimal value exactly when that fits int64 millionths; otherwise it wraps,
  possibly to a negative quantity, which prints as text that no longer parses (`V1Value`,
  `V1WrapsNegative`, `QuantityRoundTrip`).
- A returned valuation is right exactly when quantity times price fits int64; a wrapped product can
  pass the divisibility check (`MarketValueExact`, `MarketValueWrapsUnnoticed`). A product that a
  million divides is accepted exactly when the number of times it wraps around is a multiple of
  15625, so an exactly divisible product outside int64 can be refused as fractional
  (`MarketValueVerdict`, `MarketValueRefusesDivisible`). The decision record on integer money
  promises exactness without either condition.
- The minimum int64 is the one amount that does not print as an amount (`AmountRoundTrip`).
- The total counts every account exactly when there is at most one or the first names a currency
  (`CountsEveryAccountIff`, `EmptyCurrencyLosesCash`), and is still their wrapped exact sum exactly
  when what it leaves out wraps to zero (`TotalExactIff`). The first account from either adapter
  always names one (`MappedAccountsNamed`).
- The as-of instant is the latest price used exactly when some used price is not before the zero
  instant (`AsOfIsLatest`); a price from before it is accepted and missed (`EarlyPriceMissed`).

Where code and documentation differ the model follows the code: the public API document requires a
three-capital-letter currency and one of two account types, while the code gives a customer without
accounts an empty total currency, and passes any v1 account type and any three-character v1
currency; the Core document allows any number of decimals in a quantity, the code six.

## Model

| member | source | states |
|---|---|---|
| Errors.TransportKeepsCause | internal/upstream/client.go:422-428 | Dropping the URL layer of a transport error neither hides nor invents a cancellation or deadline cause. |
| Errors.TransportDropsURL | internal/upstream/client.go:422-428 | Everything down to and including the first URL layer is dropped, and nothing else; an error without one is kept whole. |
| GoStrings.SplitUndoesJoinIff | internal/upstream/client.go:467 | Splitting a joined list gives the list back exactly for non-empty lists of separator-free parts. |
| GoStrings.JoinUndoesSplit | cmd/market-mock/main.go:54 | Joining the parts of any text gives the text back. |
| GoStrings.JoinAppend | internal/upstream/client.go:467 | A joined list keeps its parts in order, the last one last. |
| Money.NewMoneyNormalises | internal/domain/money.go:22-28 | Money is accepted exactly when the trimmed currency has three characters; it keeps its minor units and stores those characters, each small letter as the capital in the same place of the alphabet and all others as they are; a second pass changes nothing. |
| Money.Amount | internal/domain/money.go:37-45 | The step-by-step printer yields, for every int64 but the minimum, a minus exactly below zero, the shortest whole digits, a dot and two digits worth the amount; at the minimum the two-minus text it really prints. |
| Money.AmountSpelled | internal/domain/money.go:37-45 | The specified text has that spelling for every int64. |
| Money.AmountSpellingUnique | internal/domain/money.go:37-45 | That spelling is the only one: a text has it exactly if it is the printed text. |
| Money.AmountRoundTrip | internal/domain/money.go:37-45 | The printed text matches the published amount pattern and reads back to the same minor units, for every int64 except exactly the minimum. |
| Money.AmountInjective | internal/domain/money.go:37-45 | No two amounts print alike, the minimum included. |
| Money.MarketValueExact | internal/domain/money.go:99-105 | Within int64 a value exists exactly when the product is divisible by a million; for every product, a returned value times a million is the product exactly when the product fits. |
| Money.MarketValueVerdict | internal/domain/money.go:99-105 | For every product, in int64 or not: a divisible one is accepted exactly when its wrap count is a multiple of 15625, and acceptance agrees with divisibility exactly then or when the remainder is neither zero nor the one wrapping takes away. |
| Money.MarketValueWrapsUnnoticed | internal/domain/money.go:99-105 | A concrete positive quantity and price whose wrapped product is accepted as a negative value. |
| Money.MarketValueRefusesDivisible | internal/domain/money.go:99-105 | Ten million units at 2,000,000 minor units, worth exactly 2*10^13, are refused as fractional. |
| Quantities.ParseQuantity | internal/domain/money.go:52-88 | The parser accepts exactly trimmed text of an optional plus, digits within int64 and at most six decimals, and returns the wrapped number of millionths. |
| Quantities.ParseParts | internal/domain/money.go:63-87 | The part after the split: the digit loop and padding compute the wrapped millionths of whole and fraction, or refuse. |
| Quantities.GuardExact | internal/upstream/client.go:280-291 | On text the parser accepts, the overflow guard fires exactly when the text has no surrounding space and its millionths exceed int64. |
| Quantities.GuardSilentOnSpaces | internal/upstream/client.go:280-291 | A family of spaced texts on which the guard is silent although the parsed value has wrapped. |
| Quantities.V2Refines | internal/upstream/client.go:268-273 | The strict check passes exactly accepted, trimmed texts without plus or trailing dot whose millionths fit; the parsed value is then the unwrapped number. |
| Quantities.V2Value | internal/upstream/client.go:250-260 | Of a spelled-out decimal with up to six places, v2 accepts exactly those whose real value in millionths is within int64, and stores exactly that value. |
| Quantities.V2Language | internal/upstream/client.go:246-273 | A units text is accepted exactly if it is digits, or digits, a dot and one to six digits, of real value within int64 millionths; any other text is an invalid quantity. |
| Quantities.V1Value | internal/domain/money.go:52-88 | The stored number of an accepted v1 text is the decimal value it spells exactly when that value fits int64 millionths. |
| Quantities.V1Stores | internal/domain/money.go:52-88 | For every accepted spelling, spaces, plus and trailing dot included, the stored number is the decimal value in millionths less a multiple of two to the 64. |
| Quantities.V1Language | internal/domain/money.go:52-88 | A v1 text is accepted exactly if, inside surrounding space, it is an optional plus, digits within int64, and optionally a dot and at most six digits; any other text is an invalid quantity. |
| Quantities.V1WrapsNegative | internal/domain/money.go:52-88 | The text 9223372036855 is accepted as a negative quantity. |
| Quantities.PrintsCanonically | internal/domain/money.go:90-97 | A non-negative quantity prints as the canonical spelling of its value: no leading zeros, no trailing zeros, no bare dot. |
| Quantities.NegativePrinted | internal/domain/money.go:90-97 | The text of every negative quantity: a minus and the whole digits, unless there are none, then a dot, a second minus and at least five digits of the rest without their last zeros. |
| Quantities.CanonicalIsFixed | internal/domain/money.go:52-97 | Every canonical text within range is what its own parsed value prints as. |
| Quantities.QuantityRoundTrip | internal/domain/money.go:90-97 | Printing then parsing returns the quantity, under the lenient and the strict reading, exactly when it is not negative; otherwise the text is refused. |
| Quantities.QuantityTextInjective | internal/domain/money.go:90-97 | A quantity that is not negative shares its text with no other. |
| Quantities.NormalForm | internal/domain/money.go:52-97 | Print-after-parse keeps the value, and two accepted in-range texts get the same print exactly when they denote the same number. |
| CoreTheorems.CoreMoneyAccepted | internal/upstream/client.go:227-239 | Cash maps exactly when both members are present and the currency is three letters from A to Z under v2, or three characters once trimmed under v1; it keeps the minor units, and its currency is the text with small letters as capitals. |
| CoreTheorems.CorePositionAccepted | internal/upstream/client.go:246-261 | A position maps exactly when its symbol is non-empty and its quantity is in the contract's language; it keeps the symbol and holds the parsed quantity, and a refused quantity is reported as invalid. |
| CoreContract.MapCoreV1 | internal/upstream/client.go:293-311 | The account loop returns all mapped accounts in order or the first account's error. |
| CoreContract.MapCoreV1Account | internal/upstream/client.go:313-337 | The position loop of one v1 account returns the account or its first violation. |
| CoreContract.MapCoreV2 | internal/upstream/client.go:339-357 | The portfolio loop returns all mapped accounts in order or the first portfolio's error. |
| CoreContract.MapCoreV2Portfolio | internal/upstream/client.go:359-385 | The asset loop of one v2 portfolio returns the account or its first violation. |
| CoreTheorems.V1AccountValid | internal/upstream/client.go:313-337 | One v1 account maps exactly when every member is present and valid, its currency three characters once trimmed and its quantities in the v1 language; the account has the item's identity, type, cash and positions in order. |
| CoreTheorems.V2AccountValid | internal/upstream/client.go:359-385 | One v2 portfolio maps exactly when every member is valid, its category BROKERAGE or RETIREMENT, its currency three letters from A to Z and its units in the v2 language; the account has the item's identity, category, cash and positions in order. |
| CoreTheorems.V1FailsClosed | internal/upstream/client.go:293-337 | v1 yields accounts exactly when the identity matches and every item is valid, one account per item in order; one invalid item yields none. |
| CoreTheorems.V2FailsClosed | internal/upstream/client.go:339-385 | v2 yields accounts exactly when the identity matches and every item is valid, one account per item in order; one invalid item yields none. |
| CoreTheorems.AccountRefines | internal/upstream/client.go:313-385 | One v2 portfolio maps exactly when its renaming maps under v1 and it keeps v2's extra rules, and then to the same account. |
| CoreTheorems.V2RefinesV1 | internal/upstream/client.go:293-385 | v2 accepts exactly the payloads whose renaming v1 accepts and that keep v2's extra rules, with the same account list. |
| CoreTheorems.RenameCoversV1 | internal/upstream/client.go:59-110 | Every v1 payload is the renaming of a v2 payload, so the refinement also reads from v1 to v2. |
| Money.NewMoneyFixes | internal/domain/money.go:22-28 | A currency passes unchanged exactly when it is three characters, trimmed, without small letters. |
| CoreTheorems.V1WireRoundTrip | internal/upstream/client.go:293-337 | Rendering accounts as v1 and mapping them back returns the list exactly when ids, types and symbols are non-empty, currencies normal and quantities not negative. |
| CoreTheorems.V2WireRoundTrip | internal/upstream/client.go:339-385 | The same for v2, exactly with known categories and three-capital currencies. |
| Sorting.SortDistinct | internal/portfolio/service.go:116-121 | Sorting distinct strings gives a strictly ascending list of the same strings. |
| Sorting.ListingUnique | internal/portfolio/service.go:116-121 | A set of strings has only one strictly ascending listing. |
| Sorting.LessIsPrecedes | internal/portfolio/service.go:116-121 | The order is dictionary order: after some common characters the smaller text ends or has the smaller character. |
| Sorting.SortedKeys | internal/portfolio/service.go:116-121 | Collecting map keys in any order and sorting them yields just those keys in dictionary order, the one such listing. |
| Aggregation.UniqueSymbols | internal/portfolio/service.go:108-122 | The result has just the symbols that some account holds, once each, in dictionary order. |
| Aggregation.SymbolsListed | internal/portfolio/service.go:108-122 | The same of the list that the protocol sends to the Market. |
| Aggregation.Aggregate | internal/portfolio/service.go:48-95 | The account loop yields the specified portfolio or the first failure in source order. |
| Aggregation.ValueAccount | internal/portfolio/service.go:59-83 | The position loop yields the account's holdings, value and latest instant, or its first failure. |
| AggregationTheorems.AccountValued | internal/portfolio/service.go:50-83 | An account is valued exactly when every position is priced in its currency at an exact value; its value is the wrapped exact sum and each holding is its position's. |
| AggregationTheorems.AccountGainExact | internal/portfolio/service.go:59-83 | With products in range, value minus cash, in millionths, is the sum of quantity times price exactly when the account's exact sum fits. |
| AggregationTheorems.HoldingFails | internal/portfolio/service.go:60-71 | A position fails exactly when unsound: for want of a price exactly when it has none, else as fractional exactly when its product is not divisible, else for its currency. |
| AggregationTheorems.AccountFails | internal/portfolio/service.go:59-71 | A failed account reports the class of its first unsound position. |
| AggregationTheorems.SucceedsIff | internal/portfolio/service.go:48-95 | For any accounts at all, aggregation succeeds exactly on consistent currencies and sound positions. |
| AggregationTheorems.AggregationFails | internal/portfolio/service.go:48-95 | A failed aggregation reports the first account that cannot join: its own failure, or a currency other than that of the accounts before it. |
| AggregationTheorems.AccumulateTotal | internal/portfolio/service.go:84-91 | For any accounts at all, the total is the wrapped exact sum of the accounts it counts. |
| AggregationTheorems.TotalCurrency | internal/portfolio/service.go:84-91 | For any accounts at all, the total has the currency that they name, and none when none is named. |
| AggregationTheorems.CountsEveryAccountIff | internal/portfolio/service.go:84-91 | The accounts that the total sums (`AccumulateTotal`) are all accounts exactly when there is at most one or the first names its currency. |
| AggregationTheorems.TotalExactIff | internal/portfolio/service.go:84-91 | For any accounts at all, the total is the wrapped exact sum of all of them exactly when the exact worth of those it leaves out wraps to zero. |
| AggregationTheorems.TotalIsWrappedExactSum | internal/portfolio/service.go:59-91 | The total is the wrapped exact sum of all cash and position values, so exact exactly when the final sum fits, whatever overflowed on the way. |
| AggregationTheorems.PortfolioGainExact | internal/portfolio/service.go:59-91 | With products in range, the total in millionths is all cash plus quantity times price over all positions exactly when the exact total fits. |
| AggregationTheorems.UnnamedFirstIsLost | internal/portfolio/service.go:84-91 | Of two accounts, the first without a currency, the total is the second's value alone. |
| AggregationTheorems.EmptyCurrencyLosesCash | internal/portfolio/service.go:84-91 | Concrete accounts with cash and no positions for which the first one's cash is lost. |
| AggregationTheorems.AsOfIsLatest | internal/portfolio/service.go:72-74 | As-of bounds every used price and is one of them exactly when one is not before the zero instant; otherwise it is the zero instant. |
| RequestRun.EarlyPriceMissed | internal/portfolio/service.go:72-74 | A position priced before the zero instant: the price is accepted and used, yet the as-of instant stays zero. |
| AggregationTheorems.BookDeterminesResult | internal/portfolio/service.go:48-95 | Success, total, currency and as-of depend only on the multisets of cash balances and of positions. |
| AggregationTheorems.AccountOrderIrrelevant | internal/portfolio/service.go:48-95 | Permuting accounts changes neither success, total, currency nor as-of. |
| AggregationTheorems.PositionOrderIrrelevant | internal/portfolio/service.go:59-81 | Permuting the positions of an account changes neither success, total, currency nor as-of. |
| AggregationTheorems.MovingPositionKeepsTotal | internal/portfolio/service.go:48-95 | Moving a position between accounts changes neither success, total, currency nor as-of. |
| Upstreams.CoreAccounts | internal/upstream/client.go:125-166 | Exactly one Core call, and the accounts or error its reply stands for. |
| Upstreams.MarketPrices | internal/upstream/client.go:461-501 | No call for an empty list, else one call with the joined symbols; the first error, or a map that has, under each symbol of the reply, its last item's amount, instant and currency in capitals. |
| Upstreams.PriceMapKeyed | internal/upstream/client.go:489-499 | Every price in the client's map is filed under its own non-empty symbol, with a three-character currency and a non-zero instant. |
| Upstreams.PriceAccepted | internal/upstream/client.go:490-498 | An item is accepted exactly when valid, with its own symbol, amount and instant and its currency in capitals, unchanged when it is normal already. |
| Upstreams.PriceMapValid | internal/upstream/client.go:489-499 | The price list maps exactly when every item has a symbol, a non-zero instant and a currency of three characters once trimmed; one invalid item yields no map. |
| Upstreams.PriceMapKeys | internal/upstream/client.go:489-499 | The keys of the map are exactly the symbols of the items. |
| Upstreams.PriceMapLast | internal/upstream/client.go:489-499 | Of several items with one symbol, the last one's price is kept. |
| Upstreams.PricesAccepted | internal/upstream/client.go:461-501 | The client obtains prices exactly when it asks for none or the Market answers 200 with a decodable list of valid items. |
| Upstreams.PricesFiled | internal/upstream/client.go:461-501 | From any valid reply the client's map has exactly the replied symbols, each with its last item's figures. |
| Upstreams.PriceOrderIrrelevant | internal/upstream/client.go:489-499 | Without repeated symbols the order of the reply does not matter. |
| Upstreams.MockPrices | cmd/market-mock/main.go:54-67 | The lookup loop answers one price per symbol in request order, or 404 when any is unknown. |
| Upstreams.MockAnswersInOrder | cmd/market-mock/main.go:54-67 | A joined list of known, comma-free symbols is answered with exactly its prices in order. |
| Upstreams.MockRefusesUnknown | cmd/market-mock/main.go:54-67 | A joined list of comma-free symbols is answered 404 exactly when some symbol is unknown, and 200 exactly when none is. |
| Upstreams.SymbolTransport | internal/upstream/client.go:461-501 | Over the joined query the client obtains the table's prices of exactly the listed symbols; the empty list included. |
| Upstreams.SymbolTransportIff | internal/upstream/client.go:461-501 | The client obtains a price for every listed symbol from a well-formed table exactly when the table knows all symbols and none holds a comma. |
| Presentation.MapMoney | internal/httpapi/handler.go:159-161 | The printed amount and currency of a money value. |
| Presentation.MoneyPrinted | internal/httpapi/handler.go:159-161 | The text has the money's own currency and the published spelling of its minor units. |
| Presentation.MapPortfolio | internal/httpapi/handler.go:131-157 | The account loop prints every account in order. |
| Presentation.MapAccount | internal/httpapi/handler.go:138-155 | The holding loop prints every holding in order. |
| Presentation.ResponseHeads | internal/httpapi/handler.go:131-137 | A response names the customer, its as-of bounds every used price and is one of them exactly when one is not before the zero instant (else zero), and its total is in the accounts' currency, or none. |
| Presentation.ResponseKeepsSource | internal/httpapi/handler.go:131-157 | A response shows every account and position of the source in order: identity, cash, quantity, unit price and value. |
| Presentation.AmountsReadIff | internal/httpapi/handler.go:131-161 | The printed total, cash balances and account values all read as amounts exactly when, of the inputs, no cash, no wrapped account sum and no wrapped total is the minimum int64. |
| Presentation.EveryAmountReadsIff | internal/httpapi/handler.go:131-161 | Every money text of a response reads as an amount exactly when, besides, no unit price used is the minimum; holding values always read. |
| Presentation.PrintedAmountsAddUp | internal/httpapi/handler.go:131-161 | For inputs with no such minimum: read back from the printed text, each account value and the total are the wrapped sums of what is printed below them, and plain sums exactly when those fit. |
| Metrics.Metrics.constructor | internal/observability/metrics.go:18-25 | A fresh object has observed nothing and lists the four statuses at zero. |
| Metrics.Metrics.Observe | internal/observability/metrics.go:27-33 | One observation extends the history by one status and keeps the counters those of the history. |
| Metrics.Metrics.WritePrometheus | internal/observability/metrics.go:35-54 | Each key once with its count, in sorted order, and the request total. |
| Metrics.KeysKept | internal/observability/metrics.go:18-33 | The key set stays the initial one exactly when only the four known statuses were observed. |
| Metrics.CounterExact | internal/observability/metrics.go:27-33 | Below the counter width any status's counter is its number of occurrences, whether or not it was listed from the start. |
| Metrics.CountersExact | internal/observability/metrics.go:18-54 | After any known observations: the four keys, exact counts that add up to all observations, and the sorted listing. |
| RequestRun.Get | internal/portfolio/service.go:36-96 | One Core call, then at most one Market call, and the portfolio or error they lead to. |
| RequestRun.CustomerIDs | internal/httpapi/handler.go:17 | An identifier is well formed exactly if it is cust- and four to twelve digits. |
| RequestRun.Handler.Portfolio | internal/httpapi/handler.go:76-109 | Status, body and calls are those of the specified run, and the status is recorded exactly once. |
| RequestRun.RunProtocol | internal/httpapi/handler.go:76-109 | Which calls are made and in what order, the Market call with exactly the held symbols in dictionary order, and which status results: 400 on a bad identifier without calls, 404 exactly on Core's 404, a body exactly with 200. |
| RequestRun.RunSucceedsIff | internal/httpapi/handler.go:76-109 | A run ends 200 exactly when the identifier is well formed, Core's reply is valid, the Market's is too unless there is nothing to price, and all balances and positions are sound in one currency. |
| RequestRun.AccountsAccepted | internal/upstream/client.go:125-207 | Core's reply yields accounts exactly when it is a 200 with one contract's complete and unmixed signature and a payload valid under that contract. |
| RequestRun.UnsupportedStopsAtCore | internal/upstream/client.go:184-207 | Mixed, incomplete or unknown contract signatures end 502 with no Market call. |
| RequestRun.SessionCounters | internal/observability/metrics.go:18-54 | The statuses of any session below the counter width leave the four keys, each with its number of requests, adding up to all requests. |
| RequestRun.ServeSession | internal/observability/metrics.go:18-54 | Serving any requests in turn on one set of counters records their runs' statuses; the listing then shows the four statuses in order with their numbers of requests, and their sum as the total. |
| RequestRun.MappedAccountsNamed | internal/upstream/client.go:227-239 | Accounts that came through either adapter name their currency, which the total relies on. |
| RequestRun.AccountsDenoted | internal/upstream/client.go:125-166 | The mapped accounts are those of the payload that the reply's signature calls for, member by member and in order. |
| RequestRun.RunShows | internal/httpapi/handler.go:76-161 | A successful response shows, from what the upstreams sent, every account and position in order, the customer, the latest instant used and the accounts' currency. |
| RequestRun.RunAddsUp | internal/httpapi/handler.go:131-161 | The printed figures of every successful run add up, modulo the int64 width and plainly when the sums fit, unless the upstreams' data make a cash balance, account value or total the minimum int64; the texts are amounts exactly unless they do. |
| RequestRun.VersionTransparent | internal/upstream/client.go:150-165 | On any accepted v2 payload, calls, status and body equal those of the run on its v1 form. |
| RequestRun.MockRun | cmd/market-mock/main.go:54-67 | Accounts rendered for the wire and priced by the mock reach aggregation unchanged with a price for every position; the run succeeds exactly when aggregation does and never for want of a price. |
| RequestRun.MockRunEitherVersion | internal/upstream/client.go:150-165 | Accounts that both contracts can carry are served alike by either. |

## Left out

- QuantityOf: white space and letter case beyond ASCII, which `strings.TrimSpace` and `strings.ToUpper` also treat; text is modelled as ASCII characters.
- Observe: the floating-point sum of durations, and the mutex; an observation is one atomic step, in any order.
- Handler.Portfolio: a handler that panics, and the logging and tracing beside the status.
- SortStrings: the library's sort in place is a function on the list's value, so its moves are not modelled.
- CoreAccounts: JSON decoding, the size bound and URL building; a body is its top-level keys and the outcome of each strict decoding.
- MarketPrices: JSON decoding of the price list and escaping of the query.
- Error messages: only which sentinel an error chain contains is kept, not its text.
- HTTP servers and clients, timeouts, cancellation, security headers, health and readiness routes: plumbing around the pipeline.
- `cmd/core-mock`, `internal/app`, `internal/mockhttp`, scripts and deployment files: fixed data and wrappers that would only add easy members.
