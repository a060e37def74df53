# CCAvenue payment integration — a Dafny model

This project models the server side of a PHP integration with the CCAvenue payment gateway:

- **Order request.** `PaymentProcessor::createOrder` builds the order request as `key=value` fields joined by `&`. It encrypts the request with AES-128-CBC under an MD5-derived key and a fixed IV, and sends it hex-encoded.
- **Gateway reply.** `handlePaymentResponse` decrypts the reply, parses it back into fields, classifies it and stores it as a row of `hdfc_payment`.
- **Controllers.** `OrderController::create` validates the form, converts the amount to rupees with `CurrencyService` and hands the order to the processor. `PaymentController::handleResponse` saves the gateway's reply and then dispatches on its order status to a logged event and a redirect. `PaymentController::logPaymentEvent` logs browser events.

Modules, one concern each:

| module | file | what it holds |
|---|---|---|
| `Wrappers` | wrappers.dfy | `Option` (PHP `null`/`false`), `Outcome` (a value or a fatal PHP `Error`) |
| `PhpString` | php_string.dfy | the PHP string built-ins the core uses: `explode`, `implode`, `rtrim`, `substr`, `str_replace`, `strtoupper`, `urlencode`, `urldecode`, integer to string |
| `OrderedMap` | ordered_map.dfy | PHP string-keyed arrays as ordered entry lists: lookup, assignment, `array_merge` |
| `Codec` | codec.dfy | `hextobin` (the hand-written loop), `bin2hex`, `encrypt`, `decrypt` |
| `Payload` | payload.dfy | the merchant data string of `createOrder` and `parseResponseString` |
| `NumberFormat` | number_format.dfy | `number_format($amount, 2, '.', '')` |
| `Storage` | storage.dfy | the four tables, as a `Database` class whose methods append rows |
| `Classification` | classification.dfy | `mapPaymentStatus`, `getErrorMessage`, `sanitizeTransactionData` |
| `Processor` | processor.dfy | the `PaymentProcessor` class |
| `Currency` | currency.dfy | `CurrencyService`, as functions over the rate table |
| `Orders` | order_controller.dfy | `OrderController`: `generateOrderId`, `transformInput`, `create`, `getTransactionUrl` |
| `Payments` | payment_controller.dfy | `PaymentController`: `handleResponse`, the `handle*Payment` redirects, `logPaymentEvent` |

Outside effects are parameters or fields of the model:

- **Clock and randomness.** `time()`, the text of `microtime(true)` and `mt_rand(100, 999)` are method parameters.
- **Session and validator.** The CSRF check result is a parameter. The `Validator` is a function from the rule string it is given to its verdict.
- **Cipher, digest and date conversion.** AES, MD5 and `DateTime` conversion are fields of `Crypto` and of the processor.
- **Helpers and configuration.** The `url()` helper's result and the configuration values are constructor arguments.
- **Database.** It is a `Database` object. The methods that write to it state the new contents of every table.

Behaviour of the code that the model keeps:

- **`hextobin` is total.** It is modelled as PHP's `pack("H*")` behaves: a character that is not a hex digit counts as 0, and a lone last digit becomes a high nibble. This covers odd-length and non-hex input as well as even-length hex.
- **Failed decryption.** When `openssl_decrypt` fails it returns `false`. That is parsed as the empty string, which yields no fields.
- **A missing or unparseable `trans_date` is a fatal error.** `sanitizeTransactionData` reads `trans_date` through `DateTime::createFromFormat(...)->format(...)`. When `createFromFormat` returns `false`, calling `format` on it raises a PHP `Error`. `Error` is not an `Exception`, so no `catch` of the application stops it. The `?? date(...)` fallback is never reached. The model returns `Fatal`: no transaction row is written, no redirect is sent, but the "order not found" error row written just before is kept.
- **`convert` versus `isValidCurrency`.** `convert` looks the currency code up exactly as given. `isValidCurrency` and `getExchangeRate` upper-case it first.
- **Event names.** The server logs a failed payment as `payment_failure`. The browser may log only `payment_failed`, among the other allowed events.

## Model

| member | source | states |
|---|---|---|
| PhpString.Explode | app/Services/PaymentProcessor.php:116-119 | `explode` on one character: one more part than separators, no part holds the separator, and joining the parts with it gives the input back |
| PhpString.Implode | app/Services/CurrencyService.php:95 | no contract of its own; `Explode`, `ExplodeImplode` and `ImplodeSnoc` state what it yields |
| PhpString.ExplodeImplode | app/Services/CurrencyService.php:95 | splitting, on the glue character, a join of at least one part free of that character gives the parts back |
| PhpString.RTrim | app/Services/PaymentProcessor.php:65 | `rtrim` keeps a prefix that does not end in the character, and everything it removed is that character |
| PhpString.RTrimAppended | app/Services/PaymentProcessor.php:62-65 | the `&` appended after the last field disappears under `rtrim`, exactly as if it had never been appended |
| PhpString.Prefix | app/Controllers/OrderController.php:138 | `substr($s, 0, n)` is a prefix of at most n characters, and the whole string when it is no longer |
| PhpString.RemoveChar | app/Controllers/OrderController.php:129 | `str_replace` of one character by nothing leaves none of it, shortens the string by its count, and changes nothing when it is absent |
| PhpString.ToUpper | app/Services/PaymentProcessor.php:200 | `strtoupper` keeps the length and maps each character by ASCII upper-casing |
| PhpString.ToUpperIdempotent | app/Controllers/PaymentController.php:31 | upper-casing twice is upper-casing once |
| PhpString.NatToString | app/Services/PaymentProcessor.php:44 | the decimal text of a non-negative integer: digits only, no leading zero, reads back as the number |
| PhpString.NatToStringThreeDigits | app/Controllers/OrderController.php:132 | every number `mt_rand(100, 999)` can return has exactly three digits |
| PhpString.IntToString | app/Services/PaymentProcessor.php:44 | an integer's text is its magnitude's digits, after `-` when negative |
| PhpString.UrlEncode | app/Controllers/PaymentController.php:119 | no contract of its own; `UrlDecodeEncode` states that `urldecode` inverts it |
| PhpString.UrlDecode | app/Services/PaymentProcessor.php:121 | no contract of its own; `UrlDecodeEncode` and `UrlDecodePlain` state what it yields |
| PhpString.UrlDecodeEncode | app/Controllers/PaymentController.php:119 | `urldecode(urlencode($s)) === $s` for every byte string |
| PhpString.UrlDecodePlain | app/Services/PaymentProcessor.php:121 | `urldecode` leaves a value without `%` and `+` unchanged |
| PhpString.DecodeEncodedChar | app/Controllers/PaymentController.php:119 | decoding undoes the encoding of each single byte, whatever follows it |
| OrderedMap.Get | app/Services/PaymentProcessor.php:164-183 | a lookup (`$data[k] ?? default`) finds nothing exactly when the key is not among the array's keys |
| OrderedMap.Put | app/Services/PaymentProcessor.php:121 | no contract of its own; `PutSpec`, `PutDistinct` and `PutNew` state what it yields |
| OrderedMap.Merge | app/Services/PaymentProcessor.php:56 | no contract of its own; `MergeGet`, `MergeKeys` and `MergeDistinct` state what it yields |
| OrderedMap.PutSpec | app/Services/PaymentProcessor.php:121 | `$a[k] = v` makes k map to v and leaves every other key's value alone; a present key keeps its position, a new one is appended |
| OrderedMap.PutDistinct | app/Services/PaymentProcessor.php:121 | assignment never creates a duplicate key |
| OrderedMap.GetAt | app/Services/PaymentProcessor.php:121 | in an array without duplicate keys, looking up an entry's key gives that entry's value |
| OrderedMap.PutNew | app/Services/PaymentProcessor.php:121 | assigning a key the array lacks appends exactly that entry |
| OrderedMap.MergeGet | app/Services/PaymentProcessor.php:56 | in `array_merge($a, $b)` a key of `$b` has `$b`'s value and any other key keeps `$a`'s |
| OrderedMap.MergeKeys | app/Services/PaymentProcessor.php:56 | in `array_merge($a, $b)` the keys of `$a` keep their places and the keys only `$b` has follow in `$b`'s order |
| OrderedMap.MergeDistinct | app/Services/PaymentProcessor.php:56 | `array_merge` never creates a duplicate key |
| OrderedMap.NewKeysFrom | app/Services/PaymentProcessor.php:56 | every key `array_merge` adds comes from the second array |
| OrderedMap.NewKeysOfFresh | app/Services/PaymentProcessor.php:56 | when no key of `$b` is in `$a`, all of `$b`'s keys are added, in order |
| Codec.PackHex | app/Services/PaymentProcessor.php:419 | `pack("H*")` yields one byte per two hex characters, rounded up |
| Codec.PackHexAt | app/Services/PaymentProcessor.php:419 | byte i comes from characters 2i (high nibble) and 2i+1 (low nibble); a lone last digit is a high nibble |
| Codec.PackHexConcat | app/Services/PaymentProcessor.php:417-427 | packing splits at every even position, so packing pair by pair and appending is packing the whole |
| Codec.HexToBin | app/Services/PaymentProcessor.php:412-429 | the `while` loop over two-character slices computes exactly `pack("H*")` of the whole input, the empty input included |
| Codec.Bin2Hex | app/Services/PaymentProcessor.php:401 | `bin2hex` writes two lower-case hex digits per byte |
| Codec.PackHexBin2Hex | app/Services/PaymentProcessor.php:401-408 | `hextobin(bin2hex($b)) === $b`: what `decrypt` reads back is what `encrypt` wrote |
| Codec.Bin2HexPackHex | app/Services/PaymentProcessor.php:412-429 | for even-length lower-case hex, `bin2hex(hextobin($h)) === $h` |
| Codec.CipherKey | app/Services/PaymentProcessor.php:398 | a 32-digit MD5 hex digest becomes a 16-byte AES key |
| Codec.Encrypt | app/Services/PaymentProcessor.php:396-402 | `encrypt` returns the hex form of the ciphertext: even length, lower-case hex digits |
| Codec.Decrypt | app/Services/PaymentProcessor.php:404-410 | `decrypt` is the cipher's decryption of the hex-decoded input under the same key and IV |
| Codec.DecryptEncrypt | app/Services/PaymentProcessor.php:396-410 | under the stated hypothesis that the cipher inverts, `decrypt(encrypt($p)) === $p` |
| Payload.MerchantDataString | app/Services/PaymentProcessor.php:60-65 | the `foreach` and `rtrim` give the `key=value` segments in insertion order joined by `&`, with every trailing `&` stripped |
| Payload.MerchantString | app/Services/PaymentProcessor.php:60-65 | no contract of its own; `MerchantDataString` ties the loop to it, `MerchantStringIsJoin` and `ParseMerchantString` state what it yields |
| Payload.MerchantStringIsJoin | app/Services/PaymentProcessor.php:60-65 | when the last value does not end in `&`, the merchant string is exactly the segments joined by `&` |
| Payload.ParseResponseString | app/Services/PaymentProcessor.php:112-126 | the `foreach` over `&`-segments computes the parsed response |
| Payload.ParseResponse | app/Services/PaymentProcessor.php:112-126 | no contract of its own; `ParseResponseString` ties the loop to it, `ParsedKeys`, `ParsedLast`, `DroppedSegment` and `KeptSegment` state what it yields |
| Payload.ParsedDistinct | app/Services/PaymentProcessor.php:112-126 | the parsed response never holds a key twice |
| Payload.ParsedKeys | app/Services/PaymentProcessor.php:118-122 | a key is present exactly when some segment with one `=` has it, undecoded, before the `=` |
| Payload.ParsedLast | app/Services/PaymentProcessor.php:118-122 | a key's value is the url-decoded value of the last segment that assigns it |
| Payload.DroppedSegment | app/Services/PaymentProcessor.php:119-120 | a segment with no `=` or with two or more leaves the parsed response as it was |
| Payload.KeptSegment | app/Services/PaymentProcessor.php:119-121 | a segment `k=v` sets k to `urldecode(v)`: an earlier k is overwritten in its position, a new k is appended, other keys are untouched |
| Payload.KeyValueSegment | app/Services/PaymentProcessor.php:119-121 | `k=v` with no `=` in k or v is kept, assigns k, and decodes to v when v has no `%` or `+` |
| Payload.ParseSegments | app/Services/PaymentProcessor.php:118-122 | parsing the segments of transmittable fields gives back the fields, in order |
| Payload.ParseMerchantString | app/Services/PaymentProcessor.php:112-126 | parsing the merchant string of transmittable fields (distinct keys, no `&` `=` in keys or values, no `%` `+` in values) gives back the fields, in order |
| Payload.SegmentFieldsTransmittable | app/Services/PaymentProcessor.php:112-126 | the key and value of well-formed segments (each with one `=`, no `&`, no `%` or `+` in the value, distinct keys) are transmittable fields whose segments are exactly those segments |
| Payload.MerchantStringOfParse | app/Services/PaymentProcessor.php:112-126 | the other direction of the round trip: writing the parse of a well-formed response string as a merchant string gives back that string |
| NumberFormat.RoundHalfAwayFromZero | app/Services/PaymentProcessor.php:47 | the nearest integer, halves rounded away from zero |
| NumberFormat.TwoDigits | app/Services/PaymentProcessor.php:47 | the cents are written as two digits with a leading zero |
| NumberFormat.FormatAmount | app/Services/PaymentProcessor.php:47 | the formatted amount is an optional `-`, digits, `.` and exactly two digits, with no thousands separator; it starts with `-` exactly when the amount rounds to a negative number of cents, so `-0.00` is never written |
| NumberFormat.FormatAmountValue | app/Services/PaymentProcessor.php:47 | the formatted text denotes exactly the amount rounded to cents |
| NumberFormat.FormatAmountNearest | app/Services/PaymentProcessor.php:47 | the formatted text is within half a cent of the amount |
| Storage.StatusTextInjective | app/Services/PaymentProcessor.php:192-198 | no two statuses are stored as the same text |
| Storage.FindOrder | app/Services/PaymentProcessor.php:292-294 | the order lookup finds a row exactly when some row has the id (`NULL` finds none), and the row it finds has that id |
| Storage.FindOrderFirst | app/Services/PaymentProcessor.php:292-294 | the model's `LIMIT 1` lookup is the earliest row with the id (the query has no `ORDER BY`; see Left out) |
| Storage.FindOrderAppend | app/Services/PaymentProcessor.php:292-294 | logging more orders does not change what an existing order id finds |
| Storage.Database.InsertOrderLog | app/Services/PaymentProcessor.php:234-243 | one `cc_order_logs` row appended, the other tables unchanged |
| Storage.Database.InsertTransaction | app/Services/PaymentProcessor.php:135-151 | one `hdfc_payment` row appended, its id returned, the other tables unchanged |
| Storage.Database.InsertPaymentLog | app/Services/PaymentProcessor.php:217-228 | one `cc_payment_logs` row appended, its id returned, the other tables unchanged |
| Storage.Database.InsertErrorLog | app/Services/PaymentProcessor.php:254-260 | one `cc_error_logs` row appended, the other tables unchanged |
| Classification.MapPaymentStatusTable | app/Services/PaymentProcessor.php:190-201 | the status table both ways: each listed status comes from exactly the codes that upper-case to its gateway code, and `unknown` from every other code, so the mapping is total |
| Classification.MapPaymentStatus | app/Services/PaymentProcessor.php:190-201 | no contract of its own; `MapPaymentStatusTable` states the whole table both ways |
| Classification.MapPaymentStatusIgnoresCase | app/Services/PaymentProcessor.php:200 | a code and its upper-cased form map to the same status |
| Classification.KeepTruthy | app/Services/PaymentProcessor.php:205-209 | `array_filter` keeps only present, truthy values, never more than it was given |
| Classification.KeepTruthyOne | app/Services/PaymentProcessor.php:205-209 | one value is kept exactly when it is present and truthy |
| Classification.KeepTruthyAppend | app/Services/PaymentProcessor.php:205-209 | the filter keeps order and works value by value: filtering a concatenation is concatenating the filtered parts |
| Classification.KeepTruthyEmpty | app/Services/PaymentProcessor.php:205-211 | the filter keeps nothing exactly when no value is present and truthy |
| Classification.GetErrorMessage | app/Services/PaymentProcessor.php:203-212 | the message is `null` exactly when none of `failure_message`, `status_message`, `status_code` is present and truthy |
| Classification.ErrorMessageJoin | app/Services/PaymentProcessor.php:203-212 | in every one of the eight cases, the message is the present, truthy fields among `failure_message`, `status_message`, `status_code`, in that order, joined by ` \| `, and `null` when there is none |
| Classification.JoinThree | app/Services/PaymentProcessor.php:211 | three messages are joined as `a \| b \| c` |
| Classification.ErrorMessageAll | app/Services/PaymentProcessor.php:203-212 | example of `ErrorMessageJoin`: with all three fields truthy, the message lists them in that order, separated by ` \| ` |
| Classification.ErrorMessageSkipsFalsy | app/Services/PaymentProcessor.php:205-211 | example of `ErrorMessageJoin`: an absent, empty or `"0"` failure message leaves no trace in the join |
| Classification.ErrorMessageSingle | app/Services/PaymentProcessor.php:205-211 | example of `ErrorMessageJoin`: a single truthy field is the whole message |
| Classification.SanitizeTransactionData | app/Services/PaymentProcessor.php:158-188 | fatal exactly when `trans_date` is missing or does not convert; otherwise the row carries the converted time, the mapped status, the error message, `amount` defaulting to 0 and `currency` to INR, the order's original amount and currency or 0 and INR without an order, and the order and tracking ids |
| Classification.MissingStatusIsPending | app/Services/PaymentProcessor.php:179 | a response without `order_status` is stored as pending |
| Processor.BaseFields | app/Services/PaymentProcessor.php:43-52 | the request always carries `tid`, `merchant_id`, `order_id`, `amount`, `currency`, `redirect_url`, `cancel_url`, `language`, in that order |
| Processor.BaseKeysDistinct | app/Services/PaymentProcessor.php:43-52 | the base keys are distinct |
| Processor.BaseFieldsAmount | app/Services/PaymentProcessor.php:47 | the `amount` field is the amount formatted with two decimals |
| Processor.MerchantDataLayout | app/Services/PaymentProcessor.php:54-57 | the `!empty` guard changes nothing; a customer value replaces a base value with the same key in its place, and other customer keys follow `language` |
| Processor.MerchantData | app/Services/PaymentProcessor.php:54-57 | no contract of its own; `MerchantDataLayout` and `Orders.OrderRequestLayout` state what it yields |
| Processor.OrderRequestRoundTrip | app/Services/PaymentProcessor.php:59-68 | if the cipher inverts, decrypting the order request and parsing it gives back exactly the transmittable fields sent |
| Processor.PaymentProcessor.GetUrl | app/Services/PaymentProcessor.php:27-35 | the production gateway URL exactly when the environment is `production`, the test URL otherwise |
| Processor.PaymentProcessor.CreateOrder | app/Services/PaymentProcessor.php:39-82 | the encrypted merchant string of the fields, the access code and the order id; one order row with amount and original amount and currency; nothing else written |
| Processor.PaymentProcessor.HandlePaymentResponse | app/Services/PaymentProcessor.php:93-110 | the reply is decrypted (a failure parses as empty), parsed, and saved before it is returned; fatal, with no row, when sanitizing fails |
| Processor.PaymentProcessor.SaveTransaction | app/Services/PaymentProcessor.php:128-156 | one `hdfc_payment` row from the sanitized response and its id, after an error row if the order is unknown |
| Processor.PaymentProcessor.GetOrderDetails | app/Services/PaymentProcessor.php:288-309 | the first order row with the id, or an `Order Details Error` row naming the id |
| Processor.OrderNotFound | app/Services/PaymentProcessor.php:296-299 | no contract of its own; the error message `GetOrderDetails` logs for an unknown id |
| Processor.PaymentProcessor.LogPaymentDetails | app/Services/PaymentProcessor.php:214-229 | one payment-log row with the event type and the data, and its id |
| Processor.PaymentProcessor.LogOrder | app/Services/PaymentProcessor.php:231-249 | one order-log row with the five values |
| Processor.PaymentProcessor.LogError | app/Services/PaymentProcessor.php:251-265 | one error-log row with the type and message |
| Currency.Convert | app/Services/CurrencyService.php:60-75 | `null` exactly when the code, as given, is not in the table; the amount unchanged for INR; otherwise the amount times the code's rate |
| Currency.RateTable | app/Services/CurrencyService.php:18 | no contract of its own; `RateTableStartsWithBase`, `RateTableRates` and `RateTableDistinct` state what it yields |
| Currency.AvailableCurrencies | app/Services/CurrencyService.php:26-29 | no contract of its own; `RateTableStartsWithBase` states its order |
| Currency.GetExchangeRate | app/Services/CurrencyService.php:47-50 | no contract of its own; `ValidIffRate` and `ValidButNotConvertible` state it |
| Currency.IsValidCurrency | app/Services/CurrencyService.php:83-86 | no contract of its own; `ValidIffRate` states it |
| Currency.ValidationRulesArray | app/Services/CurrencyService.php:93-96 | no contract of its own; `ValidationRulesSplit` and `ListedCurrencyConverts` state what it lists |
| Currency.RateTableStartsWithBase | app/Services/CurrencyService.php:18 | INR is always the first code, followed by the JSON's other codes in order |
| Currency.RateTableRates | app/Services/CurrencyService.php:18 | INR's rate is 1 unless the JSON gives one, which overrides it; every other code has exactly its JSON rate |
| Currency.RateTableDistinct | app/Services/CurrencyService.php:18 | the table holds each code once |
| Currency.ConvertBase | app/Services/CurrencyService.php:69-71 | converting INR is the identity for every table the constructor builds |
| Currency.ValidIffRate | app/Services/CurrencyService.php:83-86 | a code is valid exactly when `getExchangeRate` finds a rate for it |
| Currency.ValidButNotConvertible | app/Services/CurrencyService.php:60-66 | `usd` is a valid currency, yet `convert` returns `null` for it, because only validation upper-cases |
| Currency.ValidationRulesSplit | app/Services/CurrencyService.php:93-96 | when no code holds `,`, splitting the rule string on `,` gives back the codes in table order |
| Currency.ListedCurrencyConverts | app/Services/CurrencyService.php:60-66 | every code the rule string lists converts |
| Orders.GenerateOrderId | app/Controllers/OrderController.php:125-139 | the order id has at most 30 characters and is a prefix of the dot-free timestamp followed by the random number |
| Orders.OrderIdShape | app/Controllers/OrderController.php:128-138 | with at most 27 timestamp digits the whole 3-digit suffix survives, and a timestamp of digits and dots gives an all-digit id |
| Orders.RemoveCharFrom | app/Controllers/OrderController.php:129 | removing a character introduces no new ones |
| Orders.OrderIdInjective | app/Controllers/OrderController.php:128-138 | for timestamps of at most 27 digits each, equal ids mean equal digits and equal random numbers |
| Orders.OrderIdDropsRandom | app/Controllers/OrderController.php:138 | once the timestamp has 30 digits, the random number is cut off entirely |
| Orders.CustomerData | app/Controllers/OrderController.php:111-120 | exactly the eight billing keys, in the fixed order |
| Orders.JoinedAddress | app/Controllers/OrderController.php:99-108 | no contract of its own; the four-case address table that `TransformInput` is proved against |
| Orders.TransformInput | app/Controllers/OrderController.php:97-123 | the address built by conditional appends is the four-case table (both lines with a space, the one non-empty line, or empty, with `"0"` counting as empty), and the eight fields are copied from the input |
| Orders.BillingKeysDistinct | app/Controllers/OrderController.php:111-120 | the billing keys are distinct |
| Orders.BillingKeysFresh | app/Controllers/OrderController.php:111-120 | no billing key is a base key of the request |
| Orders.CustomerKeysFresh | app/Controllers/OrderController.php:111-120 | customer data keyed by the billing keys shares no key with the base fields |
| Orders.MergeBilling | app/Services/PaymentProcessor.php:54-57 | merging billing-keyed fields into base-keyed fields appends them and keeps the amount |
| Orders.OrderRequestLayout | app/Controllers/OrderController.php:73-80 | the request `create` sends has the eight base keys then the eight billing keys, none twice, and the amount formatted to two decimals |
| Orders.CreatePlanProceeds | app/Controllers/OrderController.php:29-70 | `create` goes ahead exactly when the token is valid, the input validates and its currency, as given, is in the rate table |
| Orders.CreatePlan | app/Controllers/OrderController.php:29-70 | no contract of its own; `CreatePlanProceeds` and `ListedCurrencyProceeds` state when it goes ahead |
| Orders.ListedCurrencyProceeds | app/Controllers/OrderController.php:35-70 | a valid request whose currency the rule string lists always reaches `createOrder`, with the converted amount |
| Orders.OrderController.GetTransactionUrl | app/Controllers/OrderController.php:141-145 | the production URL when the environment is `production`, the test URL otherwise, followed by `/transaction/transaction.do?command=initiateTransaction` |
| Orders.OrderController.Create | app/Controllers/OrderController.php:23-95 | an invalid token, a failed validation and a failed conversion all log their message and answer 400 with the same generic error; otherwise `createOrder` gets the converted amount in INR and the user's amount and currency as the original pair, and the answer carries its encrypted request |
| Payments.DispatchAgreesWithStatus | app/Controllers/PaymentController.php:30-50 | a reply is accepted exactly when it is stored as completed, failed or cancelled; only SUCCESS leads to `/success`; each logs its own event |
| Payments.DispatchIgnoresCase | app/Controllers/PaymentController.php:31 | the dispatch ignores the case of the status |
| Payments.Dispatch | app/Controllers/PaymentController.php:30-50 | no contract of its own; `DispatchAgreesWithStatus` and `DispatchIgnoresCase` state it |
| Payments.LocationCarriesOrderId | app/Controllers/PaymentController.php:119 | the redirect's query decodes back to the order id the gateway sent |
| Payments.Location | app/Controllers/PaymentController.php:113-135 | no contract of its own; `LocationCarriesOrderId` states what the redirect carries |
| Payments.AllowedEventsRule | app/Controllers/PaymentController.php:63-72 | the rule lists exactly the five allowed events; `payment_failure` is not among them |
| Payments.FilterNonNull | app/Controllers/PaymentController.php:91-93 | the filter never adds fields |
| Payments.FilterNonNullAppend | app/Controllers/PaymentController.php:91-93 | the filter works entry by entry and keeps the order: filtering a concatenation concatenates the filtered parts |
| Payments.FilterNonNullMember | app/Controllers/PaymentController.php:91-93 | whatever the keys, a pair is logged exactly when the input holds that key with that non-`null` value |
| Payments.FilterNonNullGet | app/Controllers/PaymentController.php:91-93 | a field survives exactly when its value is not `null`, and keeps that value |
| Payments.PaymentController.HandleResponse | app/Controllers/PaymentController.php:19-57 | a falsy `encResp` gives an error row and the error redirect; otherwise the transaction is saved first. An accepted status then logs its event and redirects with the order id; a rejected or missing one logs an error and redirects to the error page, its row already saved. A fatal save ends the request |
| Payments.PaymentController.LogPaymentEvent | app/Controllers/PaymentController.php:59-111 | a validation failure answers 400 with `An error occurred: ` and the first error; otherwise the non-`null` fields are logged under the event type and the new row's id is answered |

## Left out

- The AES-128-CBC cipher, MD5 and `DateTime` conversion are given as functions, not modelled. `decrypt(encrypt($p)) === $p` is proved only under the explicit hypothesis `CipherInverts`.
- `openssl_encrypt` is taken to succeed. Its `false` result, and `bin2hex(false)`, are not modelled.
- Database failures are not modelled: every insert succeeds. So the `catch` blocks of `createOrder`, `handlePaymentResponse`, `saveTransaction`, `getOrderDetails`, `logOrder` and `logError` are never entered. This includes `logError`'s fallback to the PHP error log and the `Order Creation Error`, `Transaction Save Error` and `Transaction Details Error` rows.
- Storage.Database: the id an insert returns is taken to be the table's row count after the insert. Auto-increment gaps after failed inserts or deletions are not modelled.
- Storage.FindOrder: `LIMIT 1` without `ORDER BY` may return any matching row. The model returns the first one inserted.
- The SQL text, how the database compares strings (collation), and the JSON encoding of logged data are not modelled. Logged data is kept as the entries themselves.
- `getTransactionDetails`, `success()`, `error()`, `refundPayment`, `saveRefund`, `updateTransactionStatus` and `getPaymentStatistics` are not part of this model. They are database reads, pages, or code calling an API object that does not exist.
- `getAllExchangeRates` returns the table unchanged. It is covered by the rate-table lemmas and has no function of its own.
- `info()` logging, `header()`/`exit`, `jsonResponse` rendering, the views, `payment.js`, the routes, `Redirect` and `PagesController` are not modelled. The model returns redirect locations and response values instead.
- Currency.Convert: amounts and rates are exact reals. IEEE floating point, `(float)` string casts, a `null` or non-numeric JSON rate, a JSON file that fails to decode, and integer-like JSON keys (which `array_merge` renumbers) are not modelled.
- NumberFormat.FormatAmount: rounds an exact real. The decimal pre-rounding PHP applies to binary floating-point values is not modelled.
- Orders.OrderInput: the validated amount is a real. The source passes the sanitized amount string as the original amount. The model passes the number. An absent optional field (`tel`, `address2`) is the empty string. These billing values are never stored in a table. `createOrder` concatenates them into the merchant string, where PHP's `null` reads as `""` (`billing_tel=`). The "Undefined array key" warning for an absent field is taken not to become an exception.
- Orders.OrderController.Create: the validator is a function of the currency rule string. Its other rules, and how it reads `$_POST`, are not modelled.
- Classification.SanitizeTransactionData: an absent form field reads as `null`. PHP's "undefined index" warnings are taken not to become exceptions.
- OrderedMap: arrays are keyed by strings only. PHP's conversion of numeric-string keys to integers, and `array_merge`'s renumbering of integer keys, are not modelled.
- Codec.HexToBin: the byte string is a sequence of bytes, while the plaintext handed to the cipher is a string. Converting between the two is part of the cipher functions.
