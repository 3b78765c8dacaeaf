# A verified model of the Orisun Go client

The Orisun client is a Go library over gRPC. This project models the parts of it whose behaviour is
more than plumbing and proves what they keep:

- **The subscription protocol.** One goroutine receives events and calls the handler while any
  number of threads call `Close`. `SubscriptionProtocol.dfy` is the interleaved step system,
  `SubscriptionSafety.dfy` states what every run of it keeps, and `SubscriptionCode.dfy` is the code
  in its own form (the object, the loop, the body of `Close`), shown to make only such runs.
- **The message formatter** (`Formatter.dfy`): repeated search in the changed text against one pass
  from left to right, and exactly which inserted text keeps them equal.
- **Version conflicts** (`Decimal.dfy`, `VersionParser.dfy`, `Exceptions.dfy`, `SaveErrors.dfy`):
  the regular expression and its scanner, the exception text, and what the caller can find in the
  error of a failed save.
- **Authentication** (`TokenCache.dfy`, `AuthRuns.dfy`, `AuthCode.dfy`, `BasicAuth.dfy`): the token
  cache, runs of interleaved calls that share it, the interceptors shown to make only such runs, and
  the Basic credential (section 4 of RFC 4648, section 2 of RFC 7617).
- **Retries** (`Retry.dfy`): both loops, how often they call, how long they wait.
- **Builder and client** (`ClientBuilder.dfy`, `ClientClose.dfy`): target selection and printing,
  timeout rounding, and who closes the connection.

`dafny verify dfyconfig.toml` checks the whole project.

Schedules, stream answers, outcomes of calls, answers of the connection, timers and context
cancellations are parameters, and the results hold for all of them. Where the code does not do what
its documentation or a caller would expect, the code is modelled as it is and the exact case is
proved:

- `OnEvent` can start after `OnCompleted` has ended and after `Close` has returned
  (`EventAfterCompleted`), precisely when the processor stands between its check and its call
  (`LateCallbackIff`). A `Close` that finds the flag set returns while `OnEvent` is running and
  before the winner has cancelled anything (`EarlyReturnPromisesNothing`).
- `FormatMessage` goes wrong for inserted text that is empty, holds `{}`, starts with `}` or ends
  with `{` (`SafeTextIff`); without a placeholder it overwrites the first two bytes
  (`OverwritesFirst`, `NoPlaceholderIff`), and a message shorter than two bytes makes it panic
  (`PanicIff`).
- `README.md` lines 256-264 of the library show `errors.As` finding an
  `OptimisticConcurrencyException`. The code returns the embedded `OrisunException`, so it is not
  found (`ConflictTypeIsLost`, `DocumentedConflictNotFound`); the versions are in the context.
- The waits between retries never decrease exactly when the first product and the cap are not below
  the initial delay, for every factor that is not negative and a cap whose product can be converted
  (`NeverDecreasesIff`); without the condition on the cap, exactly when moreover some delay is its own
  successor (`NeverDecreasesIffFixed`). So a backoff whose cap times factor leaves int64 turns
  negative (`WaitsGrowIff`), and with the factor 1 an initial delay of 2^53 + 1 ns, which float64
  cannot hold, shrinks (`FactorOneIff`, `BeyondExactShrinks`).
- A default timeout above 9223372036 seconds turns negative (`TimeoutRoundsUpIff`).
- `Do` with a negative `MaxRetries` calls nothing and reports success (`NilIffSomeSuccess`).

## Model

| member | source | states |
|---|---|---|
| SubscriptionSafety.CallbackOrder | subscription.go:65-95 | In every run the handler sees OnEvent calls that do not overlap, then at most one OnError, then nothing more from the processor; the events are those of the stream, in order |
| SubscriptionSafety.AtMostOneUndelivered | subscription.go:68-94 | At most one received event is undelivered, always the last one, and for good only when the flag was set; while waiting for the stream, and after an end without Close, all are delivered |
| SubscriptionSafety.ErrorReported | subscription.go:78-86 | OnError is called with the error that the stream just returned; the loop ends only because the flag was set or after that call has ended; an error is the last answer asked for |
| SubscriptionProtocol.DialogueAlternates | subscription.go:88-94 | The reading of the callbacks: start and end of OnEvent in turn, one pair for each event in order |
| SubscriptionSafety.AtMostOneStartAfterFlag | subscription.go:68-130 | The flag is set at most once, and after that the processor starts at most one more RecvMsg, OnEvent or OnError in all |
| SubscriptionSafety.CompletedOnceByWinner | subscription.go:98-118 | OnCompleted is called at most once, by the call that set the flag, after it called a non-nil cancel |
| SubscriptionSafety.OneCloserWins | subscription.go:98-112 | In every run exactly one Close call has won when the flag is set, and none before; the winner is the call that set the flag |
| SubscriptionSafety.CancelCalledIff | subscription.go:112-115 | Exactly the winner that is past that point has called the cancel function; a nil function is never called |
| SubscriptionSafety.WinnerReturnsLast | subscription.go:112-130 | The winner returns only after its own OnCompleted has ended and it called a non-nil cancel |
| SubscriptionSafety.CloseReturnsQuietly | subscription.go:98-130 | A Close that leaves through done is the winner and the processor has finished and stays silent; a Close that returns early found the flag set by another |
| SubscriptionSafety.DoneIsLast | subscription.go:66 | done is closed at most once, and nothing of the processor follows |
| SubscriptionSafety.FlagStays | subscription.go:100-107 | closed never reverts, from any state |
| SubscriptionSafety.FlagLeadsToDone | subscription.go:68-95 | Once the flag is set, a bound that falls with every own step of the processor leads to done, whatever the other threads do |
| SubscriptionSafety.LateCallbackIff | subscription.go:81-90 | After the flag is set, a further callback is possible if and only if the processor stands between its check and the call |
| SubscriptionSafety.EventAfterCompleted | subscription.go:88-126 | A run in which OnEvent starts after OnCompleted has ended and Close has returned on the timer |
| SubscriptionSafety.EarlyReturnPromisesNothing | subscription.go:98-118 | A run in which a second Close returns while OnEvent is running and before the winner has called cancel or OnCompleted |
| SubscriptionCode.EventSubscription.constructor | subscription.go:49-56 | A new subscription is in the initial state of the protocol |
| SubscriptionCode.EventSubscription.ReadClosed | subscription.go:69-71 | Reading the flag is one atomic step of the protocol |
| SubscriptionCode.EventSubscription.ProcessEvents | subscription.go:65-95 | The loop, under every interference of other threads, makes a run of the protocol in which the others do just what they were scheduled to do, takes the answers of the stream, events and errors, in order, and ends with done closed or waits for more |
| SubscriptionCode.EventSubscription.Close | subscription.go:98-130 | The body of Close, under every interference, makes a run of the protocol (so CancelCalledIff and WinnerReturnsLast hold of it), leaves the flag set, and returns or waits for done |
| SubscriptionCode.CodeKeepsProtocol | subscription.go:65-130 | Whatever the code of a new subscription has done keeps the invariants of all runs; without a cancel function none is called |
| Formatter.FindNextPlaceholder | utils.go:221-228 | Finds the leftmost {} or reports that there is none |
| Formatter.IndexIsLeftmost | utils.go:221-239 | The position searched for is the leftmost occurrence, and -1 means there is none |
| Formatter.ReplaceFirst | utils.go:231-240 | Replaces the leftmost occurrence; without one it replaces the first bytes, or runs out of the slice |
| Formatter.ReplaceIs | utils.go:231-240 | Written out: text before the first occurrence, the new text, the rest; without an occurrence the new text and what follows the first bytes |
| Formatter.FormatMessage | utils.go:197-218 | The loop computes the text of repeated searches, for every message and argument list; FormatIsSinglePass, SinglePassIs and TextsAre say what that is |
| Formatter.TextsAre | utils.go:243-251 | A string argument is inserted as it is, nil as nothing, and any other as "%v" prints it |
| Formatter.LoneArgument | utils.go:197-251 | The message {} with one argument gives the text of the argument, whatever it is |
| Formatter.SinglePassIs | utils.go:196-218 | The single pass written out: text without {} stays, and the {} behind it takes the first argument before the rest is treated likewise |
| Formatter.FormatIsSinglePass | utils.go:197-240 | For a message with a placeholder, repeated searching is the single left-to-right substitution when the arguments that are followed by another are safe |
| Formatter.SafeTextIff | utils.go:197-240 | A text is safe to insert in every message exactly when it is not empty, holds no {}, does not start with a closing and does not end with an opening brace |
| Formatter.SinglePassWeaves | utils.go:196-218 | The single pass puts the arguments in order between the pieces of the message, and {} where arguments have run out |
| Formatter.WeaveNothing | utils.go:196-218 | The pieces joined by {} are the message |
| Formatter.PiecesHoldNone | utils.go:221-228 | No piece holds a placeholder |
| Formatter.SinglePassUses | utils.go:197-240 | Surplus arguments are ignored; length = message + used arguments - 2 per placeholder used |
| Formatter.PanicIff | utils.go:231-239 | The call panics exactly when there is an argument and the message has less than two bytes |
| Formatter.OverwritesFirst | utils.go:197-239 | Without a placeholder the first argument takes the place of the first two bytes, and safe further arguments go in a single pass to the placeholders of the text this makes |
| Formatter.NoPlaceholderIff | utils.go:197-239 | Without a placeholder the message survives exactly when the first argument equals its first two bytes, for every list of arguments, unless the first argument makes a placeholder for the second |
| Formatter.SecondArgumentRepairs | utils.go:197-239 | In that case the message can survive although the first argument is not its first two bytes |
| Decimal.ValueOfPrint | validator.go:424-431 | Reading the digits of a printed number gives the number |
| Decimal.PrintIs | validator.go:424-431 | Printing writes the last digit last and no leading zero |
| Decimal.PrintIntIs | client.go:479 | A negative number is printed with a minus sign |
| Decimal.ValueIs | validator.go:424-431 | Reading takes the last digit for the units |
| VersionParser.FitsMeans | validator.go:416 | What the expression demands, with its words and character classes written out, in both directions |
| VersionParser.FindIffChosen | validator.go:416-419 | The scanner finds exactly the leftmost greedy match of the regular expression, and none if and only if nothing matches |
| VersionParser.ExtractIff | validator.go:414-434 | Returns (e, a) exactly when the chosen match holds e and a and both fit in int64; otherwise zeros and an error |
| VersionParser.ErrorIff | validator.go:420-431 | Which error: no match, the expected version above 9223372036854775807, or only the actual one |
| VersionParser.RoundTrip | validator.go:414-434 | Reads back every pair of printed int64 versions, after any text without a match of its own and before any text that does not start with a digit |
| VersionParser.VersionsInWords | validator.go:414-434 | The text "Expected e, Actual a" written out, for numbers of any size: read back, or refused for the one that is too large |
| VersionParser.SuffixIrrelevant | validator.go:416-433 | Text after the chosen match beyond its last digit never changes the result |
| Exceptions.LessIsStrict | exceptions.go:53 | The order of sort.Strings is irreflexive, asymmetric and total |
| Exceptions.LessIsTransitive | exceptions.go:53 | The order of sort.Strings is transitive |
| Exceptions.LessIs | exceptions.go:53 | The order is decided by the first place where two strings differ, a prefix coming first |
| Exceptions.ListingUnique | exceptions.go:49-53 | There is only one ascending list of a set of keys |
| Exceptions.OrisunException.AddContext | exceptions.go:72-78 | Sets one key, making the map if it is nil, and returns the receiver |
| Exceptions.OrisunException.GetContext | exceptions.go:81-87 | Looks a key up; a nil map has none |
| Exceptions.OrisunException.Error | exceptions.go:43-64 | The text depends on the message and the context alone, for every order in which the map is visited; RenderedFirst and RenderedNext say which text |
| Exceptions.RenderedFirst | exceptions.go:43-64 | Without context the text is the message; with one entry it is followed by " [Context: key=value]" |
| Exceptions.RenderedNext | exceptions.go:43-64 | An entry whose key comes after all others is written last, behind a comma: with RenderedFirst this fixes the text of every context |
| Exceptions.ShownIs | exceptions.go:58 | Text is shown as it is and an integer as its decimal numeral |
| Exceptions.SameLastSameText | exceptions.go:43-78 | Two lists of AddContext calls that agree on the last value of every key give the same context and text |
| SaveErrors.OptimisticConcurrencyException.constructor | exceptions.go:148-154 | Embeds a new exception with the message, the cause and an empty context |
| SaveErrors.OptimisticConcurrencyException.AddContext | exceptions.go:72-78 | The promoted method returns the embedded exception, not the conflict |
| SaveErrors.HandleSaveException | client.go:668-691 | Builds the report of a failed save and returns the exception itself |
| SaveErrors.ReportsVersionsIff | client.go:668-691 | The versions are in the context exactly for AlreadyExists with a parsable text; message, operation, code and description follow, and no other key; the cause is always the original error |
| SaveErrors.ConflictReported | client.go:675-684 | A conflict worded inside any text reaches the caller with its two versions |
| SaveErrors.ConflictText | client.go:675-684 | The text that the caller reads for a conflict, in full |
| SaveErrors.FailureText | client.go:669-690 | The text for every other failure, with and without a status, in full |
| SaveErrors.AsConflictFirst | README.md:256-264 | errors.As finds the first conflict in the chain of causes, and nothing only if there is none |
| SaveErrors.AsExceptionFirst | README.md:256-264 | And likewise the first exception |
| SaveErrors.ConflictTypeIsLost | client.go:679-683 | errors.As finds a conflict in the report only if the original error carried it |
| SaveErrors.DocumentedConflictNotFound | README.md:256-264 | For every plain version conflict the documented errors.As fails, while the context holds the versions |
| TokenCache.TokenCache.CacheToken | token_cache.go:28-38 | Stores a token that is not empty |
| TokenCache.TokenCache.GetCachedToken | token_cache.go:41-49 | Returns the token, or the empty string exactly when there is none |
| TokenCache.TokenCache.ClearToken | token_cache.go:60-66 | Empties the cache |
| TokenCache.TokenCache.ExtractAndCacheToken | token_cache.go:69-82 | Caches the first token of a response unless it is absent or empty |
| TokenCache.TokenCache.CreateAuthMetadata | token_cache.go:85-98 | The token under x-auth-token if there is one, else Basic under authorization, else nothing |
| TokenCache.CallSends | client.go:410-420 | A call sends the cached token under x-auth-token or else Basic under authorization, behind what the caller put there, and all other metadata of the caller unchanged |
| TokenCache.FirstTokenCached | token_cache.go:69-82 | A response caches the first value of its x-auth-token if that is not empty, and otherwise changes nothing |
| AuthCode.AuthClient.UnaryInterceptor | client.go:410-433 | Sends the caller's metadata joined to the credential that the cache gave when it was read; each under its own header; leaves the token of the answer in the cache; under every schedule of the other calls the whole is the run of exactly this schedule |
| AuthCode.AuthClient.StreamInterceptor | client.go:443-463 | Sends likewise and never writes the cache, as a run of its schedule |
| AuthCode.CodeKeepsRuns | client.go:404-463 | Whatever the interceptors have done keeps what all runs keep: one credential added by each call, and Basic only before the first cached token |
| AuthRuns.SendsOneCredential | client.go:404-463 | In every run a call sends one credential value more than its caller put in, so exactly one if and only if the caller put in none |
| AuthRuns.SentAsRead | client.go:404-463 | In every run each call sends the token last written back before it read the cache, and before the first token Basic, each under its own header, and the other metadata of its caller unchanged |
| AuthRuns.AnswerIsCached | client.go:427-431 | A unary call answered with a token caches it; a stream ends without writing the cache |
| AuthRuns.LastCachedIff | token_cache.go:28-38 | The token last written back, written out |
| AuthRuns.TokensComeFromAnswers | token_cache.go:69-98 | Every token a call adds was carried by the answer to an earlier call |
| AuthRuns.CacheIsLastToken | token_cache.go:28-82 | The cache is the token of the last write-back that carried one, and is never empty text |
| AuthRuns.BasicOnlyBeforeFirstToken | token_cache.go:85-98 | A read falls back to Basic if and only if no token was written back before it |
| BasicAuth.DecodeOfEncode | token_cache.go:107 | Base64 decoding undoes the encoding, for all bytes |
| BasicAuth.SymbolIs | token_cache.go:107 | The alphabet of standard Base64 |
| BasicAuth.EncodeIs | token_cache.go:107 | Three bytes are written as one number in base 64, with the digits of the alphabet |
| BasicAuth.EncodeEndIs | token_cache.go:107 | One or two bytes at the end are filled up with zero bits and padded |
| BasicAuth.CredentialIs | token_cache.go:101-108 | "Basic " and the encoding of username, colon and password; the empty string if one of them is empty |
| BasicAuth.CredentialsReadBackIff | token_cache.go:101-108 | A server reads back username and password if and only if the username holds no colon; there is a credential exactly when neither is empty |
| BasicAuth.CredentialsInjective | token_cache.go:101-108 | Users without a colon in their name never share a credential |
| Retry.Do | utils.go:105-132 | Calls, waits and result of the loop are those of the specification; CallsUpToFirstStop, ResultIs, NextWaitExact and NextWaitNear fix these |
| Retry.DoWithContext | utils.go:135-166 | The calls of Do cut off at the first wait the context ends, with the context's error, or else the result of Do; ContextCutsShort says which wait that is |
| Retry.CallsUpToFirstStop | utils.go:109-129 | fn is called up to the first success or error that is not retryable, and at most MaxRetries + 1 times |
| Retry.ResultIs | utils.go:119-131 | The result is what the last call returned: nil for a success, and otherwise its error |
| Retry.NilIffSomeSuccess | utils.go:109-131 | Do reports success exactly when some call succeeded or MaxRetries is negative |
| Retry.ContextCutsShort | utils.go:135-166 | DoWithContext makes a non-empty prefix of the calls of Do, strict exactly when the context ends a wait, and cut off at the first such wait |
| Retry.OnlyFirstExceeds | utils.go:112-115 | Only the first wait can exceed the cap, for every configuration |
| Retry.TotalWait | utils.go:110-116 | n waits sum to at most InitialDelay + (n-1) MaxDelay, for every configuration; the time they take, where a negative wait ends at once, to at most the same sum without its negative parts |
| Retry.NextWaitExact | utils.go:110-116 | For every factor: the next wait is the product of the wait and the factor without its fraction, capped, where float64 holds the wait and the product; a product outside int64 becomes the smallest int64 |
| Retry.NextWaitNear | utils.go:110-116 | And where the product is rounded it is off by one part in 2^53 at most before it is truncated and capped |
| Retry.NeverDecreasesIff | utils.go:110-116 | For every factor that is not negative, in float64 arithmetic: if the product of the cap is below 2^63, the waits never decrease exactly when InitialDelay exceeds neither the cap nor its own product |
| Retry.NeverDecreasesIffFixed | utils.go:110-116 | Without any condition on the cap: exactly when the second wait is not shorter than the first and some delay between InitialDelay and the cap is its own successor |
| Retry.NegativeFactorIff | utils.go:110-116 | For a negative factor: exactly when the second wait is not shorter than the first and equals the third |
| Retry.WaitsGrow | utils.go:110-116 | For every factor from 1 on, 0 <= InitialDelay <= MaxDelay and every cap whose product is below 2^63, the waits never decrease and stay within the cap if float64(InitialDelay) is not below InitialDelay, as for all delays up to 2^53 ns |
| Retry.FactorOneIff | utils.go:112 | With the factor 1, 0 <= InitialDelay <= MaxDelay and float64(MaxDelay) below 2^63, the waits never decrease exactly when float64(InitialDelay) is not below InitialDelay |
| Retry.WaitsAreCappedGeometric | utils.go:110-116 | For a natural factor f from 1 on, 0 <= InitialDelay <= MaxDelay <= 2^53 ns and a product of the cap below 2^63, the k-th wait is exactly min(InitialDelay f^k, MaxDelay), in float64 arithmetic |
| Retry.WaitsGrowIff | utils.go:112-115 | For every factor from 2 on and 0 < InitialDelay <= MaxDelay, the waits never decrease if and only if float64(MaxDelay) * BackoffFactor is below 2^63; otherwise some wait is negative |
| Retry.DefaultSchedule | utils.go:72-80 | The default configuration makes four calls, 100, 200 and 400 ms apart; with more retries the waits would double up to 5 s |
| ClientBuilder.ClientBuilder.constructor | client.go:74-89 | The defaults that target and timeout depend on |
| ClientBuilder.ClientBuilder.SelectTarget | client.go:279-331 | The target of TargetIs and ServersAre, and the default server that is added |
| ClientBuilder.TargetIs | client.go:279-293 | A raw target first, as it is; then a DNS target behind "dns:///"; then a static one behind "static:///" |
| ClientBuilder.ServersAre | client.go:294-329 | Without those: the default server, one server as host:port, or several behind the resolver, but without it if a host holds a comma |
| ClientBuilder.BlankIs | client.go:279-287 | Which targets count as blank: the white space of Unicode, listed |
| ClientBuilder.ClientBuilder.CreateTargetString | client.go:467-483 | The loop writes the target string of TargetStringIs |
| ClientBuilder.TargetStringIs | client.go:467-483 | "dns:///" or "static:///", then host:port of every server in order, with commas between them |
| ClientBuilder.SecondBuildAgrees | client.go:296-329 | A second Build selects the same target |
| ClientBuilder.TargetReadsBackIff | client.go:467-483 | The target of a non-empty server list reads back as that list if and only if no host holds a comma |
| ClientBuilder.ClientBuilder.DefaultTimeout | client.go:155-168 | Rounds a positive timeout up to seconds and ignores any other |
| ClientBuilder.ClientBuilder.BuildTimeout | client.go:344 | The timeout is the int64 that agrees with the seconds in nanoseconds modulo 2^64; it is that very number if and only if the seconds lie within 9223372036 of zero |
| ClientBuilder.TimeoutRoundsUpIff | client.go:155-168 | The least whole number of seconds not below t; the client then holds exactly that time if and only if t is at most 9223372036 s, and a negative time above |
| ClientClose.OrisunClient.Close | client.go:486-508 | One Close: closes an owned connection and stays open if that fails |
| ClientClose.ClosesOwnedUntilSuccess | client.go:486-508 | Over any number of calls an owned connection is closed until that succeeds once, and a lent one never |

## Left out

- Generated code under `eventstore/`: message plumbing and RPC stubs; only an event with its id and data is kept.
- The server's storage and consistency rules: no code of this repository implements them.
- Dialing, keepalive, TLS, flow control and the network: what RecvMsg, invokers and connections answer is a parameter.
- Logging, clocks and sleeping: a wait is recorded by its length, and the five-second timer may fire at any time.
- Handlers that panic, and a nil handler, which the constructor replaces by one that does nothing.
- A handler that calls Close from inside OnEvent is one of the interleavings, without the constraint that its thread waits for itself.
- The rounding of float64 is a parameter of the backoff: any function that is monotone, changes nothing when applied again, keeps the integers up to 2^53 and is off by at most one part in 2^53, as IEEE 754 binary64 does. Factors that are infinite or not numbers are left out.
- Retry.WaitsGrowIff: here and in all results about waits, outside int64 the conversion gives the smallest int64, as on amd64; Go leaves that result to the implementation.
- A RetryableFunc that is nil or has effects: it is a total function of the error.
- The formatter's "%v" of arguments that are not strings: the printed text is given.
- Strings are sequences of bytes in the formatter and for the Basic credential. Elsewhere they are sequences of characters: what the code looks for there is ASCII, or in `TrimSpace` whole characters, and for the sorted keys the order of bytes and of characters is the same.
- `status.FromError`: its answer for the error is a parameter of `HandleSaveException`, so the results hold for all answers.
- The handlers of other operations' errors, which differ only in their context keys.
- The text of `OptimisticConcurrencyException.Error`, which no error returned by this client has.
- `sort.Strings` is modelled by a stable insertion on sequences rather than in place.
- Request validators, builder setters and option wrappers: each is settled by reading one branch.
- `ContextHelper`, the examples and `TokenCache.HasToken`.
