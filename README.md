# fiat-prices-aggregator: the price pipeline, in Dafny

This project models one run of the price-oracle updater. The updater reads
USD exchange rates for sixteen fiat currencies from the Yadio feed. It keeps
the strictly positive rates and turns each one into a fixed-point
`CurrencyPrice` in hundredths. It then builds one `UpdatePrices`
execute-contract message, signs it and broadcasts it to a Cosmos chain. If no
rate survives the filter, it exits with code 1 before it sends any request to
the ledger.

Modules:

- `Fiat` (`fiat.dfy`): the sixteen `FiatCurrency` variants the updater uses,
  their declaration order (ARS … VND) and their codes.
- `Yadio` (`yadio.dfy`): the `Prices` record, its all-zero `Default`, field
  assignment, and the serde-derived decoding of `{ "USD": { … } }` over a
  small JSON value type, including which defect serde_json reports when the
  input has several: values are type-checked as an object is read, a
  missing field is reported after the whole object in declaration order, and
  an array is read element by element before its length is checked.
  `get_yadio_prices` is modelled from the response the
  HTTP request returned, and `main`'s fallback to `Default` on any error is
  `PricesOrDefault`.
- `Decimal` (`decimal.dfy`): `str::parse::<i64>()` as Rust's
  `from_str_radix` performs it, the wrapping cast `as u64`, and what `main`
  makes of the account's `sequence` and `account_number` strings
  (`unwrap` becomes `None`, meaning a panic). Decimal display of an `i64` is
  the reference the parser is proved against.
- `PriceUpdate` (`prices.dfy`): the candidate list, the filter, the abort,
  `(rate * 100.0).round() as u64`, the conversion loop (a method proved equal
  to the specification function `CurrencyPrices`) and the `UpdatePrices`
  message.
- `Transaction` (`tx.dfy`): the account-query URL, the fee constants, the
  transaction-body builder (a class that `main` mutates), the sign document,
  and `RunUpdater`, one whole run. The run records the requests it sends as
  `Effect`s and ends in an `Exit`.

Rates are `real`. `f64::round` is rounding half away from zero. The cast to
`u64` saturates at 0 and at 2^64 - 1. The filter checks the rate and not the
price it becomes. So a rate strictly between 0 and 0.005 passes the filter and
is posted with `usd_price` 0 (`SmallPositiveRatePostsZero`). A rate of at
least 0.005 always gives a price of at least 1.

The model follows the code in three places where a reader might expect otherwise:

- A currency key missing from the feed response does not default to 0.0.
  The derived `Deserialize` has no field defaults, so decoding fails, and
  `main` then uses the all-zero snapshot. That snapshot always aborts.
- A negative or huge value that reaches the conversion is not rejected
  loudly. The cast saturates. The filter keeps negatives away.
- A non-numeric `sequence` or `account_number` is a panic through `unwrap`,
  not a typed error. A negative one wraps modulo 2^64. A value above the
  `i64` range also panics, even though it would fit in a `u64`.

## Model

| member | source | states |
|---|---|---|
| `Fiat.IndexOfDeclared` | src/main.rs:36-53 | the currency at position `Index(c)` of the declaration order is `c` |
| `Fiat.DeclaredIsEnumeration` | src/main.rs:36-53 | the sixteen currencies ARS … VND each occur once, at their own index, in increasing order |
| `Fiat.CodeInjective` | src/api/yadio.rs:12-29 | distinct currencies have distinct codes (JSON field names) |
| `Fiat.EveryCurrencyDeclared` | src/main.rs:36-53 | the declaration order lists every currency |
| `Yadio.Prices.WithRate` | src/api/yadio.rs:98-103 | assigning one field sets that currency's rate and leaves every other rate unchanged |
| `Yadio.Default` | src/api/yadio.rs:31-51 | `Prices::default()` has every rate equal to 0.0 |
| `Yadio.FieldsAreCurrencyCodes` | src/api/yadio.rs:12-29 | the record has sixteen fields, and the i-th is named after the i-th currency of the declaration order |
| `Yadio.FromRates` | src/api/yadio.rs:12-29 | sixteen rates in field order give the snapshot whose rate for `c` is the one at `c`'s position |
| `Yadio.ObjectFields` | src/api/yadio.rs:10-29 | the fields of an object are found exactly when every field name is a key, the values come in field order, and otherwise the missing field is the first name, in field order, that the object lacks |
| `Yadio.ElementNumbers` | src/api/yadio.rs:13-28 | reading n array elements as `f64` succeeds exactly when the array has n elements and each of the first n is a number; it reports the array's length exactly when all its elements are numbers and there are fewer than n, and a type error otherwise |
| `Yadio.DecodePrices` | src/api/yadio.rs:10-29 | a snapshot is read only from an object or from an array of exactly sixteen values; any other JSON value is a type error; a missing field is reported only when every code present holds a number; a length error reports the length of a short array, and trailing elements are rejected only in an array longer than sixteen |
| `Yadio.DecodePricesObject` | src/api/yadio.rs:10-29 | no partial record: an object decodes exactly when it has a number under every code, and then each rate is that number |
| `Yadio.DecodePricesObjectErrors` | src/api/yadio.rs:10-29 | an object gives a type error exactly when some code holds a non-number; any other failure is the first absent code in declaration order |
| `Yadio.DecodePricesArray` | src/api/yadio.rs:10-29 | an array decodes exactly when it holds sixteen numbers, read in declaration order; a short array of numbers gives its length, a longer one with sixteen leading numbers gives trailing characters, and every other defective array gives a type error |
| `Yadio.FirstElementCheckedFirst` | src/api/yadio.rs:10-29 | a non-number first element is a type error whatever the array's length |
| `Yadio.DecodeEncodePrices` | src/api/yadio.rs:10-29 | decoding the serialised snapshot gives back the snapshot |
| `Yadio.EncodePrices` | src/api/yadio.rs:10-29 | the serialised snapshot is an object holding each rate under its currency's code, and every key is some currency's code |
| `Yadio.DecodeCurrency` | src/api/yadio.rs:4-8 | a non-structure is a type error; an object without `USD` reports `USD` missing, and one with `USD` succeeds or fails exactly as that value does as `Prices`; an empty array reports length 0, a non-empty one reports the first element's error first, then trailing elements, and otherwise holds the first element's record |
| `Yadio.EncodeCurrency` | src/api/yadio.rs:4-8 | decoding the serialised `Currency { USD }` gives it back |
| `Yadio.ElementErrorBeforeTrailing` | src/api/yadio.rs:4-8 | a `Currency` array whose first element is an empty object reports `ARS` missing, whatever follows it |
| `Yadio.GetYadioPrices` | src/api/yadio.rs:54-63 | a failed request is passed on as an error; otherwise the result is the decoded `USD` record, or an error exactly when decoding fails |
| `Yadio.PricesOrDefault` | src/main.rs:30-34 | on a fetch error the snapshot has every rate 0.0; otherwise it is the fetched one |
| `Yadio.PartialSnapshotKeepsZeros` | src/api/yadio.rs:95-110 | a default with EUR, GBP and SGD set keeps ARS, BRL and every other field at 0.0 |
| `Decimal.Accumulate` | src/main.rs:127-135 | the digit loop of `parse::<i64>()` succeeds only on all-digit text, with a value in the `i64` range and of the sign being parsed |
| `Decimal.ParseI64` | src/main.rs:127-135 | `parse::<i64>()` yields only `i64` values, and fails on empty text |
| `Decimal.AsU64` | src/main.rs:134 | `as u64` yields the value modulo 2^64, unchanged when non-negative |
| `Decimal.AsU64Injective` | src/main.rs:134 | the cast maps distinct `i64` values to distinct `u64` values |
| `Decimal.AsU64Negative` | src/main.rs:134 | a negative value wraps to value + 2^64, above the `i64` range |
| `Decimal.ParseAccountField` | src/main.rs:142-147 | `parse::<i64>().unwrap() as u64` gives a value exactly when the parse succeeds, and that value is the parsed one modulo 2^64 |
| `Decimal.ParseI64Meaning` | src/main.rs:127-135 | the parse succeeds exactly on an optional sign followed by at least one digit whose value is in the `i64` range, and returns that value |
| `Decimal.ParseShowI64` | src/main.rs:127-135 | parsing the decimal display of any `i64` gives it back |
| `Decimal.AccountFieldExamples` | src/main.rs:127-147 | "7" reads as 7, "-1" wraps to 2^64 - 1, and "seven", "" and "+" panic |
| `Decimal.LargeU64Rejected` | src/main.rs:142-147 | 2^63 in decimal panics even though it fits in a `u64` |
| `PriceUpdate.AllPrices` | src/main.rs:36-53 | sixteen pairs in declaration order, each rate paired with its own currency |
| `PriceUpdate.ValidPrices` | src/main.rs:56-66 | the filter keeps no more pairs than it is given, and every kept rate is strictly positive |
| `PriceUpdate.ValidPricesMembers` | src/main.rs:58-65 | a pair is kept exactly when it is a candidate whose rate is not `<= 0.0` |
| `PriceUpdate.ValidPricesIsSubsequence` | src/main.rs:56-66 | the filter's result is an order-preserving subsequence of its input |
| `PriceUpdate.ValidPricesKeepsOrder` | src/main.rs:56-66 | a list in declaration order stays in declaration order after filtering |
| `PriceUpdate.AllPricesInOrder` | src/main.rs:36-53 | the candidate list is in strictly increasing declaration order |
| `PriceUpdate.ValidPricesOfSnapshot` | src/main.rs:36-74 | at most 16 survivors, in declaration order, each with its own rate, and a currency survives exactly when its rate is strictly positive |
| `PriceUpdate.FilteringExample` | src/main.rs:172-204 | the test's list of ARS 0, BRL 0, EUR 0.85, GBP 0.75 and SGD 1.30 filters to EUR, GBP and SGD |
| `PriceUpdate.Round` | src/main.rs:107 | `f64::round`: within one half of the input, with ties going away from zero |
| `PriceUpdate.SaturatingU64` | src/main.rs:107 | the float-to-`u64` cast clamps below at 0 and above at 2^64 - 1 |
| `PriceUpdate.UsdPrice` | src/main.rs:107 | the price is the rate in hundredths rounded to nearest, 0 for a non-positive rate, and 2^64 - 1 beyond the range |
| `PriceUpdate.UsdPriceMonotone` | src/main.rs:107 | a larger rate never gives a smaller price |
| `PriceUpdate.UsdPriceExamples` | src/main.rs:107 | 0.862166 gives 86, the tie 1.295 gives 130, and 0.85, 0.75, 1.30, 0.746083, 1.290295 give 85, 75, 130, 75, 129 |
| `PriceUpdate.SmallPositiveRatePostsZero` | src/main.rs:56-66 | a rate strictly between 0 and 0.005 passes the filter and is priced 0 |
| `PriceUpdate.PositivePriceFromHalfCent` | src/main.rs:107 | a rate of at least 0.005 is priced at least 1 |
| `PriceUpdate.CurrencyPrices` | src/main.rs:103-114 | one `CurrencyPrice` per valid pair, in the same order, with its currency, its fixed-point price and `updated_at` 0 |
| `PriceUpdate.ConvertPrices` | src/main.rs:103-114 | the push loop builds exactly `CurrencyPrices` of the valid pairs |
| `PriceUpdate.PricePipeline` | src/main.rs:56-116 | steps one to five of `main`: abort with exit code 1 exactly when no pair survives the filter, otherwise an `UpdatePrices` message with one entry per survivor, in order, holding its currency, `UsdPrice` of its rate and `updated_at` 0 |
| `PriceUpdate.AbortIffNoPositiveRate` | src/main.rs:69-72 | the pipeline aborts with exit code 1 exactly when no rate is strictly positive; otherwise the message is non-empty |
| `PriceUpdate.FeedFailureAborts` | src/main.rs:31-34 | a failed feed fetch always ends in exit code 1 |
| `PriceUpdate.PostedPrices` | src/main.rs:56-116 | 1 to 16 posted entries, in declaration order, each for a currency with a positive rate, priced from that rate, with `updated_at` 0 |
| `PriceUpdate.PostedCurrencies` | src/main.rs:56-116 | a currency is posted exactly when its rate is strictly positive |
| `PriceUpdate.ScenarioOfDefault` | src/main.rs:166-170 | a default with EUR 0.85, GBP 0.75 and SGD 1.30 set is the test scenario |
| `PriceUpdate.ScenarioValidPrices` | src/main.rs:163-205 | the scenario's snapshot filters to exactly EUR, GBP and SGD, in that order |
| `PriceUpdate.EndToEndExample` | src/main.rs:103-116 | the scenario posts exactly EUR 85, GBP 75 and SGD 130, with nothing for ARS or BRL |
| `Transaction.AccountUrl` | src/main.rs:89-93 | the URL is the LCD base, then the accounts path, then the address, with no separator added |
| `Transaction.AddressOfUrl` | src/main.rs:89-93 | an address recovered from a URL rebuilds that URL |
| `Transaction.AddressOfAccountUrl` | src/main.rs:89-93 | the address can be read back from the account URL |
| `Transaction.NoSeparatorInserted` | src/main.rs:89-93 | the character right after the LCD base is the `c` of `cosmos/auth/…`, whatever the base ends with |
| `Transaction.BodyBuilder.constructor` | src/main.rs:102 | a new body builder holds no messages |
| `Transaction.BodyBuilder.Msg` | src/main.rs:125 | adding a message appends it to the builder's messages |
| `Transaction.BodyBuilder.Finish` | src/main.rs:141 | the finished body holds the builder's messages, with the builder's default empty memo and timeout height 0 |
| `Transaction.RunUpdater` | src/main.rs:28-156 | with no valid price the run exits with 1 and sends nothing; otherwise it first queries the account URL, panics on a failed query or an unparsable sequence or account number, and else broadcasts a sign document carrying the pipeline's message, the parsed sequence and account number and the fixed fee |
| `Transaction.BroadcastShape` | src/main.rs:116-140 | `PriceBody` holds exactly one message from the signer to the price contract with no funds, whose prices are non-empty, in declaration order, and posted for a currency exactly when its rate is positive, with an empty memo and timeout height 0; `PriceAuthInfo` carries the signer's key and the given sequence, and the fee is 15000 uatom with gas limit 500000 |
| `Transaction.SequenceSevenExample` | src/main.rs:127-135 | sequence "7" gives a signer info whose sequence is 7 |

## Left out

- The HTTP request to the feed and the network-dependent tests `test_yadio_prices` and `test_asean_currencies`. The model starts from the request's outcome (`GetYadioPrices`' parameter). `RequestFailed` stands for a connection, timeout or other transport failure only: `reqwest::get` succeeds on a 4xx or 5xx response, so such a response reaches `GetYadioPrices` as `Success(body)` and is decoded like any other, which in practice fails in the decoder.
- JSON text syntax. A body that is not JSON is the `MalformedBody` error. Decoding starts from a parsed JSON value whose objects are maps, so a repeated key cannot be represented. The derived decoder rejects a repeated field name (one of the sixteen codes, or `USD` at the top level) and ignores a repeated unknown key.
- The text, position and offending value that serde's errors carry. `DecodeError` keeps only the kind, with the missing field's name and the length of a short array. `main` discards the error, so this makes no difference to a run.
- BIP-39 mnemonic parsing, BIP-32 derivation along `m/44'/118'/0'/0/0`, secp256k1 keys, address encoding and signing. These are foreign cryptography. Their result is the `Signer` parameter, and their panics are not modelled.
- The account query's transport and JSON decoding, and the RPC client and `broadcast_commit`. These are network I/O. The query's outcome is a parameter. The broadcast is recorded as an effect, and the result, its logging and its `unwrap` are not modelled.
- Configuration values read with `dotenv!`. They are opaque strings in `Config`. The parses of the contract address and the chain id, and their panics, are not modelled.
- The exact `serde_json` bytes of `UpdatePrices`, the `serde_json::to_string(&valid_prices)` at line 75, and the protobuf `into_any` encoding. The message is modelled as a record.
- IEEE-754 behaviour. Rates are reals. NaN would pass the `<= 0.0` check and become 0 under `as u64`. Rounding of `rate * 100.0` in binary floating point can differ from exact decimal rounding at ties.
- `println!` logging, including the per-currency warnings of the filter, and the `tokio` runtime.
- `FiatCurrency` belongs to the price contract's crate. Only the sixteen variants that `main` uses are modelled.
