# TrimItGood short-code engine in Dafny

This project models the core of TrimItGood, a Kotlin/Spring URL shortener, and proves properties of the model. The core has these parts:

- The short-code generator (`UrlShortenerUtil`). It has a 58-symbol table spelled without I, O, l and 0, and positional conversion with radix 62 in both directions. It also has two bounded retry loops that look for a code the URL table does not hold yet.
- The sequence counter (`UrlSequence.getAndIncrement`, `SequenceService.getNext`). It post-increments row 1 of table `url_sequence`.
- The service pipelines (`URLShortenerService`): create, resolve (redirect), read, update, delete and statistics. They work over the `url` table, keyed by its unique short code, and the append-only `url_stats` visit log.
- The `Url` record and its projection `toResponseDto`.
- Header extraction (`RequestUtil`): the client address from X-Forwarded-For, and the User-Agent truncated to 100 characters.

Modules, one per source component:

| file | module | models |
|---|---|---|
| `common.dfy` | `Common` | nullable values, exceptions as a `Result`, the service's messages, `Instant`, Kotlin `Long` range and wrap-around |
| `text.dfy` | `Text` | Kotlin `trim()` (with `Char.isWhitespace`) and the first element of `split(",")` |
| `url_shortener_util.dfy` | `ShortCodeUtil` | `UrlShortenerUtil.kt` |
| `request_util.dfy` | `RequestUtil` | `RequestUtil.kt` |
| `url_model.dfy` | `UrlModel` | `Url.kt`, `UrlStats.kt`, the request and response records |
| `url_sequence.dfy` | `UrlSequenceModel` | `UrlSequence.kt` (a class with a mutable `currNo`) |
| `sequence_service.dfy` | `SequenceServices` | `SequenceService.kt` (a class over the `url_sequence` rows) |
| `shortener_service.dfy` | `ShortenerService` | `URLShortenerService.kt` (a class over the two tables and the counter) |

Exceptions are the `Failure` cases of `Common.Result`. `RequestException(message)` is `RequestError(message)` with the source's own message strings. The runtime exceptions of the generator, the counter and the user-agent lookup each have a case of their own.

The model's inputs stand in for the outside world:

- `Instant.now()` is a parameter `now`, one instant per operation.
- The answer of `InetAddress.getByName` is a parameter `isValidAddress`.
- `SecureRandom.nextInt(58)` is an input sequence of symbol indices, one sequence per attempt.
- The repository's `existsByShortCode` is the set of codes the `url` table holds.

Two behaviours of the code that are easy to misread, and that the model keeps:

- An expiry equal to `now` is accepted, because the check is a strict `isBefore`. This holds on create, on update and on redirect.
- The sequence overload of `generateUniqueShortCode` draws no new sequence value between attempts. It asks the same question `maxAttempts` times.

Facts the proofs bring out:

- The radix is 62 but the table has 58 symbols. Any positive number with a base-62 digit between 58 and 61 (58 is the first) fails with an index out of bounds instead of producing a code (`ShortCodeUtil.FiftyEightIsNotEncodable`). For such a counter value, `shortenUrl` fails and the value is lost.
- `base10ToBase62(0)` is `"0"`, which `base62ToBase10` rejects (`ShortCodeUtil.ZeroDoesNotRoundTrip`).
- `base10ToBase62` of a negative number is the empty string.

Readings of the runtime the model follows (the model's definitions are written to match them; no proof derives them):

- A redirect whose request has no User-Agent header fails. This happens after every other check has passed, and nothing is logged: `getHeader("User-Agent").take(100)` is applied to null.
- An update deletes every visit of the url, because the entity it saves has an empty `stats` list and orphan removal applies. A url whose access limit was reached can therefore be visited again after any update.
- An update's response carries `createdAt = now`, while the stored row keeps its original creation time, because the column is not updatable.

## Model

| member | source | states |
|---|---|---|
| Common.WrapLong | src/main/kotlin/com/showy/trimitgood/util/UrlShortenerUtil.kt:55 | Kotlin `Long` arithmetic: the result is a 64-bit value that differs from the exact one by a multiple of 2^64 (two's-complement wrap-around), and equals it whenever that fits |
| ShortCodeUtil.AlphabetText | src/main/kotlin/com/showy/trimitgood/util/UrlShortenerUtil.kt:12 | the symbol table is exactly the source's 58-character literal |
| ShortCodeUtil.IsSymbolIff | src/main/kotlin/com/showy/trimitgood/util/UrlShortenerUtil.kt:12 | the arithmetic membership test holds exactly for the characters of the table |
| ShortCodeUtil.AlphabetDistinct | src/main/kotlin/com/showy/trimitgood/util/UrlShortenerUtil.kt:12-13 | no symbol occurs twice, so `charToIndex` loses no position |
| ShortCodeUtil.SymbolIndex | src/main/kotlin/com/showy/trimitgood/util/UrlShortenerUtil.kt:13 | every table character has a position below 58 that holds exactly that character |
| ShortCodeUtil.CharToIndex | src/main/kotlin/com/showy/trimitgood/util/UrlShortenerUtil.kt:13 | `charToIndex` is defined exactly on the table's characters and inverts indexing: it maps `alphabet[i]` back to `i` |
| ShortCodeUtil.Digits | src/main/kotlin/com/showy/trimitgood/util/UrlShortenerUtil.kt:43-47 | the base-62 digits of a positive number: at least one, each below 62, the leading one nonzero |
| ShortCodeUtil.ValueOfDigits | src/main/kotlin/com/showy/trimitgood/util/UrlShortenerUtil.kt:43-47 | the digits, read most significant first, denote the number again |
| ShortCodeUtil.DigitCount | src/main/kotlin/com/showy/trimitgood/util/UrlShortenerUtil.kt:43-47 | the number of digits `k` satisfies 62^(k-1) <= n < 62^k |
| ShortCodeUtil.DigitsInjective | src/main/kotlin/com/showy/trimitgood/util/UrlShortenerUtil.kt:43-47 | distinct positive numbers have distinct digit sequences |
| ShortCodeUtil.Symbols | src/main/kotlin/com/showy/trimitgood/util/UrlShortenerUtil.kt:44 | spelling digits with the table gives one table symbol per digit |
| ShortCodeUtil.Indices | src/main/kotlin/com/showy/trimitgood/util/UrlShortenerUtil.kt:53-56 | reading symbols back gives one position per symbol, each below 58 |
| ShortCodeUtil.IndicesOfSymbols | src/main/kotlin/com/showy/trimitgood/util/UrlShortenerUtil.kt:13 | reading back a spelled digit sequence gives the same digits |
| ShortCodeUtil.PositiveEncoding | src/main/kotlin/com/showy/trimitgood/util/UrlShortenerUtil.kt:41-47 | for n > 0 the conversion succeeds exactly when every digit is below 58; it then spells the digits most significant first; otherwise the failing index lies in 58..61 |
| ShortCodeUtil.Encoding | src/main/kotlin/com/showy/trimitgood/util/UrlShortenerUtil.kt:39-48 | 0 gives "0", a negative number gives "", a positive number its spelled digits or an out-of-bounds failure |
| ShortCodeUtil.PositiveEncodingStep | src/main/kotlin/com/showy/trimitgood/util/UrlShortenerUtil.kt:43-46 | one turn of the loop splits off the least significant symbol |
| ShortCodeUtil.Reversed | src/main/kotlin/com/showy/trimitgood/util/UrlShortenerUtil.kt:47 | `reverse()`: the same length, with position k holding the character at position length-1-k |
| ShortCodeUtil.Base10ToBase62 | src/main/kotlin/com/showy/trimitgood/util/UrlShortenerUtil.kt:39-48 | the loop that collects symbols least significant first and then reverses them returns `Encoding(num)` |
| ShortCodeUtil.PrefixValue | src/main/kotlin/com/showy/trimitgood/util/UrlShortenerUtil.kt:53-56 | a prefix of a digit sequence denotes no more than the whole |
| ShortCodeUtil.LongValue | src/main/kotlin/com/showy/trimitgood/util/UrlShortenerUtil.kt:51-56 | the `result * 62 + value` accumulation of the decoding loop, wrapping, is always a 64-bit value |
| ShortCodeUtil.LongValueCongruent | src/main/kotlin/com/showy/trimitgood/util/UrlShortenerUtil.kt:55 | whatever the length of the input, the wrapped result differs from the exact base-62 value by a multiple of 2^64 |
| ShortCodeUtil.LongValueExact | src/main/kotlin/com/showy/trimitgood/util/UrlShortenerUtil.kt:55 | while the value fits in a `Long`, the wrapping accumulation is the exact value |
| ShortCodeUtil.IndicesSnoc | src/main/kotlin/com/showy/trimitgood/util/UrlShortenerUtil.kt:53-56 | reading one more symbol extends the accumulated value by one `result * 62 + value` step |
| ShortCodeUtil.Base62ToBase10 | src/main/kotlin/com/showy/trimitgood/util/UrlShortenerUtil.kt:50-58 | succeeds exactly on strings of table symbols, with the `Long` accumulation (the exact value when it fits); otherwise it fails on the leftmost foreign character; "" gives 0 |
| ShortCodeUtil.ZeroDoesNotRoundTrip | src/main/kotlin/com/showy/trimitgood/util/UrlShortenerUtil.kt:40 | the code of 0 is "0", which is not in the table, so decoding rejects it |
| ShortCodeUtil.DecodeEncode | src/main/kotlin/com/showy/trimitgood/util/UrlShortenerUtil.kt:39-58 | for every positive `Long` whose digits are all below 58, decoding the code gives the number back |
| ShortCodeUtil.EncodingInjective | src/main/kotlin/com/showy/trimitgood/util/UrlShortenerUtil.kt:39-48 | two positive numbers with the same code are equal |
| ShortCodeUtil.NoLeadingZeroSymbol | src/main/kotlin/com/showy/trimitgood/util/UrlShortenerUtil.kt:41-47 | a positive number's code has one symbol per base-62 digit and never starts with `alphabet[0]` |
| ShortCodeUtil.FiftyEightIsNotEncodable | src/main/kotlin/com/showy/trimitgood/util/UrlShortenerUtil.kt:39-48 | every number from 1 to 57 encodes, while 58 fails with index 58 |
| ShortCodeUtil.GenerateRandomShortCode | src/main/kotlin/com/showy/trimitgood/util/UrlShortenerUtil.kt:17-27 | returns the first drawn candidate the store does not hold, of exactly `length` table symbols; it fails with "after maxAttempts attempts" exactly when all `maxAttempts` candidates are held |
| ShortCodeUtil.GenerateDefaultShortCode | src/main/kotlin/com/showy/trimitgood/util/UrlShortenerUtil.kt:14-17 | the call with the default arguments, six symbols and five attempts: a code of six table symbols the store does not hold, or failure exactly when all five candidates are held |
| ShortCodeUtil.SequentialCode | src/main/kotlin/com/showy/trimitgood/util/UrlShortenerUtil.kt:29-37 | the outcome is decided by the one candidate `base10ToBase62(sequence)`: it is returned when not held, its conversion failure is passed on, and a held candidate or zero attempts means exhaustion; a held code is never returned |
| ShortCodeUtil.GenerateSequentialShortCode | src/main/kotlin/com/showy/trimitgood/util/UrlShortenerUtil.kt:29-37 | the retry loop returns `SequentialCode` |
| Text.TrimStart | src/main/kotlin/com/showy/trimitgood/util/RequestUtil.kt:12 | the whitespace prefix, up to the first character that is not whitespace |
| Text.TrimEnd | src/main/kotlin/com/showy/trimitgood/util/RequestUtil.kt:12 | the whitespace suffix, back to the last character that is not whitespace |
| Text.Trim | src/main/kotlin/com/showy/trimitgood/service/URLShortenerService.kt:46 | the infix left after cutting whitespace off both ends; empty exactly for a blank string, otherwise it neither starts nor ends with whitespace |
| Text.TrimIdempotent | src/main/kotlin/com/showy/trimitgood/service/URLShortenerService.kt:46 | trimming a trimmed string changes nothing |
| Text.FirstSegment | src/main/kotlin/com/showy/trimitgood/util/RequestUtil.kt:10-11 | the first element of `split(",")`: the longest prefix without a comma, stopping at a comma or at the end |
| RequestUtil.GetHeader | src/main/kotlin/com/showy/trimitgood/util/RequestUtil.kt:9 | `getHeader`: the value of the first header line whose name matches ignoring case; null exactly when no line matches |
| RequestUtil.FirstHeader | src/main/kotlin/com/showy/trimitgood/util/RequestUtil.kt:9 | the position of the first header line with that name, ignoring case: every earlier line has another name |
| RequestUtil.GetHeaderIgnoresCase | src/main/kotlin/com/showy/trimitgood/util/RequestUtil.kt:9 | two spellings of a name that differ only in letter case find the same header |
| RequestUtil.ForwardedCandidate | src/main/kotlin/com/showy/trimitgood/util/RequestUtil.kt:9-12 | the candidate from X-Forwarded-For holds no comma and no whitespace at its ends, and is empty exactly when the first segment is blank |
| RequestUtil.RawIp | src/main/kotlin/com/showy/trimitgood/util/RequestUtil.kt:9-13 | the remote address is used only when X-Forwarded-For is absent |
| RequestUtil.GetClientIpSafe | src/main/kotlin/com/showy/trimitgood/util/RequestUtil.kt:8-19 | the candidate, unchanged, exactly when it is a valid address; null otherwise |
| RequestUtil.EmptyForwardedFor | src/main/kotlin/com/showy/trimitgood/util/RequestUtil.kt:9-13 | a present but empty X-Forwarded-For gives "", not the remote address |
| RequestUtil.FirstSegmentOf | src/main/kotlin/com/showy/trimitgood/util/RequestUtil.kt:10-11 | the split stops at the first comma |
| RequestUtil.SegmentsAfterFirstIgnored | src/main/kotlin/com/showy/trimitgood/util/RequestUtil.kt:9-12 | for "first,rest" the candidate is the trimmed first part, whatever follows |
| RequestUtil.GetUserAgent | src/main/kotlin/com/showy/trimitgood/util/RequestUtil.kt:21-23 | a present header gives its prefix of length min(100, length); an absent header throws instead of giving null |
| RequestUtil.LowerCaseUserAgent | src/main/kotlin/com/showy/trimitgood/util/RequestUtil.kt:22 | a User-Agent sent as `user-agent`, as HTTP/2 does, is found and returned |
| UrlModel.ToResponseDto | src/main/kotlin/com/showy/trimitgood/model/Url.kt:43-53 | the seven fields id, shortCode, originalUrl, createdAt, updatedAt, expiredAt and accessLimit are copied unchanged |
| UrlModel.FromResponseDto | src/main/kotlin/com/showy/trimitgood/model/Url.kt:43-53 | a response with an update time comes from exactly one record |
| UrlModel.ResponseDtoRoundTrip | src/main/kotlin/com/showy/trimitgood/model/Url.kt:43-53 | the projection loses nothing: the record is recovered from its response |
| UrlModel.ToVisitStats | src/main/kotlin/com/showy/trimitgood/service/URLShortenerService.kt:138-144 | a visit row's time, address and user agent appear unchanged in the stats response |
| UrlSequenceModel.UrlSequence.Default | src/main/kotlin/com/showy/trimitgood/model/UrlSequence.kt:10-16 | a fresh record is row 1 with counter 0 |
| UrlSequenceModel.UrlSequence.constructor | src/main/kotlin/com/showy/trimitgood/model/UrlSequence.kt:10-16 | a loaded record holds the given id and counter |
| UrlSequenceModel.UrlSequence.GetAndIncrement | src/main/kotlin/com/showy/trimitgood/model/UrlSequence.kt:17-21 | returns the counter as it was before the call; the counter becomes one greater; `id` is a constant and stays |
| UrlSequenceModel.SuccessiveValues | src/main/kotlin/com/showy/trimitgood/model/UrlSequence.kt:10-21 | k calls on a fresh record return 0, 1, ..., k-1 |
| SequenceServices.ConsecutiveOffset | src/main/kotlin/com/showy/trimitgood/service/SequenceService.kt:12-18 | in a run of values each one greater than the last, values j-i positions apart differ by j-i |
| SequenceServices.ConsecutiveIncreasing | src/main/kotlin/com/showy/trimitgood/service/SequenceService.kt:12-18 | such a run is strictly increasing, so no value occurs twice |
| SequenceServices.SequenceService.constructor | src/main/kotlin/com/showy/trimitgood/service/SequenceService.kt:8-10 | a service over the given rows that has issued nothing yet |
| SequenceServices.SequenceService.GetNext | src/main/kotlin/com/showy/trimitgood/service/SequenceService.kt:12-18 | returns row 1's counter as it was before the call and saves that row one higher, touching no other row; without row 1 it fails with "entry not found" and saves nothing; the values issued so far stay consecutive |
| ShortenerService.VisitsOf | src/main/kotlin/com/showy/trimitgood/service/URLShortenerService.kt:136 | `findAllByUrlId`: no longer than the log, and each visit it lists is a visit of the log with that url id |
| ShortenerService.VisitsOfMembers | src/main/kotlin/com/showy/trimitgood/service/URLShortenerService.kt:136 | it holds exactly the log's visits of that url |
| ShortenerService.VisitsOfAppend | src/main/kotlin/com/showy/trimitgood/service/URLShortenerService.kt:136 | the list keeps log order: the visits of a log split in two are those of the first part followed by those of the second |
| ShortenerService.CountByUrlId | src/main/kotlin/com/showy/trimitgood/service/URLShortenerService.kt:76 | `countByUrlId`: the number of log entries with that url id (its partner is `CountIsVisits`) |
| ShortenerService.CountIsVisits | src/main/kotlin/com/showy/trimitgood/service/URLShortenerService.kt:76 | `countByUrlId` equals the length of `findAllByUrlId` |
| ShortenerService.CountAfterVisit | src/main/kotlin/com/showy/trimitgood/service/URLShortenerService.kt:82-89 | logging a visit adds one to its url's count and list and changes no other url's |
| ShortenerService.WithoutUrl | src/main/kotlin/com/showy/trimitgood/model/Url.kt:40 | the cascade: no longer than the log, and each visit it keeps is a visit of the log of another url |
| ShortenerService.WithoutUrlMembers | src/main/kotlin/com/showy/trimitgood/model/Url.kt:40 | the cascade keeps exactly the visits of the other urls |
| ShortenerService.WithoutUrlAppend | src/main/kotlin/com/showy/trimitgood/model/Url.kt:40 | the cascade keeps log order: it filters each part of a split log on its own |
| ShortenerService.VisitsWithoutUrl | src/main/kotlin/com/showy/trimitgood/model/Url.kt:40 | after the cascade the deleted url has no visits, and every other url keeps its visits in order |
| ShortenerService.IsPast | src/main/kotlin/com/showy/trimitgood/service/URLShortenerService.kt:26-30 | `expiry.isBefore(now)`: an expiry is refused only when it is strictly before `now`; a missing expiry never is |
| ShortenerService.LimitReached | src/main/kotlin/com/showy/trimitgood/service/URLShortenerService.kt:75-79 | a limit is set and the url already has at least that many visits |
| ShortenerService.CustomCode | src/main/kotlin/com/showy/trimitgood/service/URLShortenerService.kt:45-56 | a custom code is used trimmed; blank gives "Custom short code cannot be blank"; a stored trimmed code gives "ShortCode already exists" |
| ShortenerService.ChosenCode | src/main/kotlin/com/showy/trimitgood/service/URLShortenerService.kt:44-60 | the custom code when one is given; otherwise, with counter row 1 present, `SequentialCode` of its value: that code exactly when it encodes and is not stored, the conversion failure when it does not encode, exhaustion after five attempts when it is stored; without row 1, "entry not found"; never a stored code |
| ShortenerService.Draft | src/main/kotlin/com/showy/trimitgood/service/URLShortenerService.kt:32-39 | the new record has no id yet, the chosen code, and the request's url, expiry and limit, created and updated at `now` |
| ShortenerService.Revised | src/main/kotlin/com/showy/trimitgood/service/URLShortenerService.kt:119-127 | the stored row after an update keeps id, code and creation time, and takes url, expiry and limit from the request |
| ShortenerService.UrlShortenerService.constructor | src/main/kotlin/com/showy/trimitgood/service/URLShortenerService.kt:17-23 | empty tables whose identity columns start at 1 |
| ShortenerService.UrlShortenerService.StoreValid | src/main/kotlin/com/showy/trimitgood/model/Url.kt:18-23 | the table constraints every operation keeps: each row filed under its own unique `short_code`, identity ids below the next one and distinct, and every visit's `url_id` the id of a stored url (`UrlStats.kt` lines 21-22) with its own id below the next one |
| ShortenerService.UrlShortenerService.ValidateAndGenerateShortCode | src/main/kotlin/com/showy/trimitgood/service/URLShortenerService.kt:44-60 | returns `ChosenCode`; the counter advances only on the sequential branch |
| ShortenerService.UrlShortenerService.InsertUrl | src/main/kotlin/com/showy/trimitgood/service/URLShortenerService.kt:41 | saving a new record assigns the next id and files it under a code the table did not hold |
| ShortenerService.UrlShortenerService.ShortenUrl | src/main/kotlin/com/showy/trimitgood/service/URLShortenerService.kt:24-42 | the code is chosen first (consuming a counter value even if the request then fails); a past expiry is refused; on success exactly one row is inserted with the request's url, expiry and limit, and its projection is returned; every failure leaves the tables unchanged |
| ShortenerService.UrlShortenerService.SaveVisit | src/main/kotlin/com/showy/trimitgood/service/URLShortenerService.kt:89 | a visit of a stored url is appended under the next id |
| ShortenerService.UrlShortenerService.CheckRedirect | src/main/kotlin/com/showy/trimitgood/service/URLShortenerService.kt:66-80 | an unknown code, then an expiry strictly before now, then a reached access limit are refused in that order; the url is returned exactly when none applies |
| ShortenerService.UrlShortenerService.RedirectToOriginalUrl | src/main/kotlin/com/showy/trimitgood/service/URLShortenerService.kt:62-92 | after the checks and the user-agent lookup, exactly one visit of that url is logged and its target is returned; every failure leaves the log unchanged; the url table never changes; a limited url never ends up with more visits than its limit |
| ShortenerService.UrlShortenerService.GetUrlForShortCode | src/main/kotlin/com/showy/trimitgood/service/URLShortenerService.kt:94-98 | the stored row's projection, whose code is the one asked for; "Invalid shortCode" exactly when it is not stored |
| ShortenerService.UrlShortenerService.DeleteByShortCode | src/main/kotlin/com/showy/trimitgood/service/URLShortenerService.kt:100-104 | removes exactly the row with that code's id and, by the cascade, exactly its visits; an unknown code changes nothing |
| ShortenerService.UrlShortenerService.UpdateByShortenCode | src/main/kotlin/com/showy/trimitgood/service/URLShortenerService.kt:106-130 | a custom code is refused before the lookup, then an unknown code, then a past expiry, each changing nothing; on success the row keeps id, code and creation time and takes the request's url, expiry and limit, every visit of that url is deleted as an orphan of the empty `stats` list (`Url.kt` line 40), and the response shows creation time `now` |
| ShortenerService.UrlShortenerService.GetUrlStats | src/main/kotlin/com/showy/trimitgood/service/URLShortenerService.kt:132-157 | the row's fields, its visits in log order, their count as total, and limit minus count as remaining (which may be negative) when a limit is set; "Invalid shortCode" for an unknown code |

## Left out

- The HTTP layer is not modelled: the controller, the exception handler and the status codes are framework mapping.
- The Spring Data repositories are not modelled. They are the fields `urls`, `visits` and `rows`.
- Concurrency and transactions are not modelled: every operation runs alone. This covers the transactional read, increment and save in `getNext`, and the count-then-insert in the redirect.
- The bean-validation annotations of the request body are not modelled: URL format, code length 8..20 and limit 1..10000. The model accepts any request.
- `InetAddress.getByName` is a parameter, because it may perform a DNS lookup.
- `SecureRandom` is a parameter, because it is randomness.
- `Instant.now()` is a parameter, because it is a clock. The source reads the clock several times in one operation. The model uses one instant for all of these reads, so `createdAt` and `updatedAt` of a new row are equal.
- `findAllByUrlId` has no `ORDER BY`. The model returns visits in insertion order, which the database does not promise.
- Header lines are a list in arrival order. Header names are compared with ASCII case folding, as the servlet container does for these ASCII names; a container that also joins repeated lines is not modelled.
- The update path's deletion of visits follows Hibernate's merge of the empty `stats` list with `orphanRemoval` (Hibernate is the provider `spring-boot-starter-data-jpa` brings in). The flush order of that deletion and the row update is not modelled.
- Characters are Dafny `char` values, not UTF-16 code units. A User-Agent with characters outside the Basic Multilingual Plane is truncated per code point, not per code unit.
- The `Int` type of `length` and `maxAttempts` is not modelled: both are `nat`, so a negative argument is not modelled (the source treats it like 0).
- UrlSequenceModel.UrlSequence.GetAndIncrement: the 64-bit wrap-around of `currNo += 1` is not modelled, because it would take 2^63 calls.
- SequenceServices.SequenceService.GetNext: like `GetAndIncrement`, the counter is unbounded.
- ShortenerService.UrlShortenerService.GetUrlStats: `limit - size` is computed without 32-bit wrap-around. The size is below 2^31, and with limits in 1..10000 the subtraction cannot wrap.
- ShortenerService.UrlShortenerService.RedirectToOriginalUrl: the `Long` result of `countByUrlId` is compared unbounded.
- `URLStatsService` is not part of this model: it is an empty class.
