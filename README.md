# URL shortener: a Dafny model of its two Lambda handlers

The system is a URL shortener built from two AWS Lambda functions that
share one DynamoDB table.

- `lambda-generate-url-shortener.py` is the **allocator**. It takes a
  target URL, an optional alias and an optional time-to-live. It settles
  on a code: the alias when that is free, otherwise random 8-character
  codes drawn from `a-z0-9` until one is free. It writes one record, then
  answers with the short link `https://{APP_DOMAIN}/{code}`.
- `lambda-redirect-url.py` is the **resolver**, a CloudFront handler. It
  strips the leading `/` from the request path to get the code, looks the
  code up, and answers with one of two things:
  - a 302 redirect to the stored target, presigning it first when it is an
    `s3://` URI;
  - an error response whose status is carried inside an exception text
    `"status|message"`.

The model is written in Dafny. It is organised in these modules:

| module | file | what it holds |
|---|---|---|
| `Wrappers` | `wrappers.dfy` | `Option`, `Result` |
| `PyText` | `pytext.dfy` | The Python string operations the handlers depend on: `str.split`, `str.replace` (leftmost, non-overlapping), `s[:n]`, ASCII `lower()`, `int()` of a decimal text, and `str()` of a natural number. Each comes with lemmas about it. |
| `Table` | `table.dfy` | Items as maps from attribute name to `Str`/`Num`/`Null`. The `""` filter that `putItemDynamoDB` applies to the item it writes. (`getDynamoData` applies the same filter to its lookup key; neither handler ever looks up `""`, so `Store.Get` leaves that filter out.) The `Store` class: the items, a script of the faults the coming calls will meet, and a ghost history of keys looked up and items written. Its methods are `Get` and `Put`. |
| `Resolver` | `resolver.dfy` | Pure. It covers the response shapes and headers, the `"status|message"` encoding and the shared `except` block, the S3 URI split and validity window, `redirectURL` and `lambda_handler`. |
| `Allocator` | `allocator.dfy` | Mixed. The pure parts are `sec2Epoch`, the alphabet and draw contract, record completion, the `validade` slice and request normalisation. The imperative parts are module-level methods that take a `Store`: `generateCode` with its `while invalid` loop, and `generateShortenerURL` with its single put. |
| `RoundTrip` | `roundtrip.dfy` | Follows a record the allocator wrote through the resolver's lookup. |

Collaborators are parameters:
- The resolver's `Env` carries the table lookup, the signer, `urlparse(...).netloc` and the current time.
- The allocator receives the `now` instant, the `strftime` formatter and the domain.
- The random draws are `sampler: nat -> Draw`. Draw `n` is the `n`-th result of `random.sample` and satisfies its contract: 8 distinct positions in the 36-character population.

Where the behaviour documented for the system and the code differ, the model follows the code:
- **Empty URL.** The allocator's check is `event['url'] != None`, so an empty URL is accepted. The record written for it lacks `urlOriginal`, because the `""` filter drops it. The resolver then fails on that record instead of answering (`RoundTrip.EmptyTargetEscapes`).
- **Resolver errors can escape.** The resolver can raise past its `except` block:
  - when the exception text has no integer before its first `|`;
  - when the text has no `|` at all;
  - when the stored record is malformed.

  The model gives these an `Unhandled` outcome.
- **No retry bound.** The generate loop has no bound. The model proves that the loop ends under a stated hypothesis: some attempt meets a fault or a free candidate.
- **Naive expiry timestamp.** The expiry text is built from `datetime.fromtimestamp`, which is naive, so `%z` formats as `""`. The `[:-2]` slice then cuts the seconds rather than the offset's minutes. The answer ends in `"::00"` (`Allocator.ValidadeWithoutOffset`). With an aware timestamp the slice gives the `+HH:00` suffix (`Allocator.ValidadeWithOffset`).

## Model

| member | source | states |
|---|---|---|
| PyText.Split | lambdas/lambda-redirect-url.py:62 | `str.split(sep)` always yields at least one piece |
| PyText.SplitJoin | lambdas/lambda-redirect-url.py:130 | joining the pieces of a split with the separator gives back the text |
| PyText.SplitPiecesLackSep | lambdas/lambda-redirect-url.py:130 | no piece of a split contains the separator |
| PyText.SplitWithoutSep | lambdas/lambda-redirect-url.py:130 | a text without the separator splits into itself alone |
| PyText.SplitAtFirst | lambdas/lambda-redirect-url.py:130 | splitting at the first separator yields the prefix, then the split of the rest |
| PyText.SplitHead | lambdas/lambda-redirect-url.py:62 | the first piece is the text before the first separator |
| PyText.ReplaceAbsent | lambdas/lambda-redirect-url.py:62-63 | replace changes nothing when the pattern does not occur |
| PyText.ReplaceLeading | lambdas/lambda-redirect-url.py:62 | a leading occurrence is replaced, then the rest is scanned |
| PyText.ContainsInSuffix | lambdas/lambda-redirect-url.py:62 | an occurrence in a suffix is an occurrence in the whole |
| PyText.ContainsLonger | lambdas/lambda-redirect-url.py:63 | a text that contains `p + q` contains `p` |
| PyText.NoNewOccurrence | lambdas/lambda-redirect-url.py:62 | a prefix lacking the pattern's first character creates no occurrence |
| PyText.StripThenSplit | lambdas/lambda-redirect-url.py:62 | stripping the scheme and splitting at `/` gives the bucket when the tail holds no further scheme |
| PyText.StripLonger | lambdas/lambda-redirect-url.py:63 | removing `scheme + bucket + "/"` leaves exactly the key |
| PyText.Join | lambdas/lambda-redirect-url.py:130 | no contract of its own: the inverse of `Split`, as `SplitJoin` states |
| PyText.Contains | lambdas/lambda-redirect-url.py:62-63 | no contract of its own: `pat in s`. `ContainsInSuffix`, `ContainsLonger` and `NoNewOccurrence` characterise it |
| PyText.Replace | lambdas/lambda-redirect-url.py:62-63 | no contract of its own: `str.replace`, leftmost and non-overlapping. `ReplaceAbsent`, `ReplaceLeading`, `StripThenSplit` and `StripLonger` characterise it |
| PyText.ParseInt | lambdas/lambda-redirect-url.py:132 | no contract of its own: `int()` of a decimal text, `None` where Python raises ValueError. `ParseDecimal` shows it inverts `str()` |
| PyText.Take | lambdas/lambda-redirect-url.py:97 | `s[:n]` is a prefix of length `min(n, len(s))` |
| PyText.AsciiLower | lambdas/lambda-redirect-url.py:97 | upper-case ASCII letters map to lower case and every other character is kept |
| PyText.Lower | lambdas/lambda-redirect-url.py:97 | `lower()` maps each character and keeps the length |
| PyText.Decimal | lambdas/lambda-redirect-url.py:94 | `str()` of a status is all digits |
| PyText.DecimalValue | lambdas/lambda-redirect-url.py:132 | the digits of `str(n)` denote `n` |
| PyText.ParseDecimal | lambdas/lambda-redirect-url.py:132 | `int(str(n)) == n` |
| Table.Serialized | lambdas/lambda-generate-url-shortener.py:35 | exactly the attributes whose value is not `""` are sent, unchanged |
| Table.SerializedIdempotent | lambdas/lambda-generate-url-shortener.py:35 | filtering twice is filtering once, and nothing sent is `""` |
| Table.Drop | lambdas/lambda-generate-url-shortener.py:48-81 | after `n` calls the next call meets the fault scripted `n` places ahead |
| Table.DropStep | lambdas/lambda-generate-url-shortener.py:48-81 | one call after `n` calls is `n + 1` calls |
| Table.HasData | lambdas/lambda-generate-url-shortener.py:105 | no contract of its own: `r['data']` is truthy. `Store.Get` and `FoundHasData` state when it holds |
| Table.KeyedBy | lambdas/lambda-generate-url-shortener.py:143 | no contract of its own: an item carries its key as `id`. `Store.Valid` requires it of every stored item |
| Table.NextFault | lambdas/lambda-generate-url-shortener.py:74-81 | no contract of its own: the scripted outcome of the next call. `Store.Get` and `Store.Put` fail exactly when it is `Some` |
| Table.FaultAt | lambdas/lambda-generate-url-shortener.py:74-81 | no contract of its own: the scripted outcome `n` calls ahead. `Drop` ties it to `NextFault` |
| Table.Store.Valid | lambdas/lambda-generate-url-shortener.py:143-147 | no contract of its own: every stored item is keyed by its `id`. The constructor establishes it and every method keeps it |
| Table.Store.constructor | lambdas/lambda-generate-url-shortener.py:48-81 | a table holding the given items and fault script, with empty history |
| Table.Store.Get | lambdas/lambda-generate-url-shortener.py:48-81 | `getDynamoData`: fails with the scripted message, or finds the item, or reports none. Truthy data means the key is present. Items are unchanged and one lookup is logged |
| Table.Store.Put | lambdas/lambda-generate-url-shortener.py:23-46 | `putItemDynamoDB`: fails with the scripted message and leaves the items, or stores the item under its `id`. One write is logged |
| Table.FoundHasData | lambdas/lambda-generate-url-shortener.py:105 | in a valid table a found item is truthy exactly when the key is present |
| Resolver.ErrorHeaders | lambdas/lambda-redirect-url.py:133-139 | the error responses carry five headers |
| Resolver.RedirectHeaders | lambdas/lambda-redirect-url.py:112-120 | the redirect carries seven headers |
| Resolver.ErrorHeadersFacts | lambdas/lambda-redirect-url.py:133-139 | the five error headers have the stated values, and there is no Location and no Host |
| Resolver.RedirectHeadersFacts | lambdas/lambda-redirect-url.py:112-120 | Location is the target and Host is its netloc. Every other header equals the error header of that name |
| Resolver.ErrorRoundTrip | lambdas/lambda-redirect-url.py:125-141 | decoding `"status|message"` gives that status, the error headers and the text up to the next `|`. When the message has no `|`, that text is the whole message |
| Resolver.BarInMessageTruncates | lambdas/lambda-redirect-url.py:130-140 | when the message holds a `|`, the decoded body is not the message: it stops at the first `|` |
| Resolver.NonNumericErrorEscapes | lambdas/lambda-redirect-url.py:130-132 | an exception text whose head before the first `|` is not a number (it does not start with a digit or a sign, or it starts with `|`) makes the `except` block itself raise ValueError |
| Resolver.S3SchemeCases | lambdas/lambda-redirect-url.py:97 | the S3 test holds exactly when the target starts `s3://` or `S3://` |
| Resolver.PresignFor | lambdas/lambda-redirect-url.py:62-65 | the signer gets the split bucket and key, and a window equal to `ttl - now` |
| Resolver.S3UriSplit | lambdas/lambda-redirect-url.py:62-63 | `s3://b/k` splits into bucket `b` and key `k` when `b` has no `/` and the tail has no further `s3://` |
| Resolver.RepeatedSchemeMergesBucket | lambdas/lambda-redirect-url.py:62 | the hypothesis is needed: `s3://xs3://y` yields bucket `xy` |
| Resolver.UpperCaseSchemeKept | lambdas/lambda-redirect-url.py:62-97 | `S3://b/k` passes the case-insensitive test, but the case-sensitive replacement keeps it whole: bucket `S3:`, key the whole URI |
| Resolver.RedirectTo | lambdas/lambda-redirect-url.py:110-122 | a redirect has status 302, body "Redirecionando...", seven headers, Location = target and Host = netloc(target) |
| Resolver.NoBarInBadRequest | lambdas/lambda-redirect-url.py:128 | the 400 message has no `|`, so it decodes whole |
| Resolver.NoBarInNotFound | lambdas/lambda-redirect-url.py:125 | the 404 message has no `|`, so it decodes whole |
| Resolver.EmptyCodeIs400 | lambdas/lambda-redirect-url.py:88-141 | a missing or empty code gives 400 with the error headers and the 400 message. No lookup is made: the answer is the same for every environment |
| Resolver.LookupFailureIs500 | lambdas/lambda-redirect-url.py:91-141 | a failed lookup gives 500 with body "ERRO 500: " and the store's message, up to its first `|` |
| Resolver.SplitPrefixWithoutSep | lambdas/lambda-redirect-url.py:130 | a prefix without `|` survives decoding in front of the message |
| Resolver.MissingRecordIs404 | lambdas/lambda-redirect-url.py:95-125 | no record, or an empty one, gives 404 with the 404 message |
| Resolver.PlainTargetRedirects | lambdas/lambda-redirect-url.py:97-122 | a non-S3 target is the redirect verbatim |
| Resolver.S3TargetIsSigned | lambdas/lambda-redirect-url.py:97-105 | an S3 target goes to the signer with the stored `dataExclusao`. It redirects to the signed URL, or gives 500 with the signer's message up to its first `|` |
| Resolver.MalformedRecordEscapes | lambdas/lambda-redirect-url.py:97-132 | a record without a text `urlOriginal` makes the handler raise rather than answer |
| Resolver.IntOfErrorText | lambdas/lambda-redirect-url.py:65 | the error `int()` raises on a stored expiry that is not a number starts with a letter, so the `except` block cannot parse it as a status |
| Resolver.DispatchShapes | lambdas/lambda-redirect-url.py:96-122 | a found record either redirects, or raises an error that decodes to an error shape or escapes the `except` block |
| Resolver.ResponseShapes | lambdas/lambda-redirect-url.py:82-141 | every answer of `redirectURL` is a 302 redirect or a 400/404/500 with the five error headers. Otherwise it is unhandled |
| Resolver.ErrorText | lambdas/lambda-redirect-url.py:94-128 | no contract of its own: the text `f"{status}|{message}"` of the raised exceptions. `ErrorRoundTrip` shows that `HandleError` decodes it |
| Resolver.HandleError | lambdas/lambda-redirect-url.py:129-141 | no contract of its own: the `except` block. `ErrorRoundTrip` and `NonNumericErrorEscapes` characterise it |
| Resolver.IsS3Uri | lambdas/lambda-redirect-url.py:97 | no contract of its own: the test `urlOriginal[:5].lower() == "s3://"`. `S3SchemeCases` states exactly when it holds |
| Resolver.S3Bucket | lambdas/lambda-redirect-url.py:62 | no contract of its own: the bucket split. `S3UriSplit`, `RepeatedSchemeMergesBucket` and `UpperCaseSchemeKept` characterise it |
| Resolver.S3Key | lambdas/lambda-redirect-url.py:63 | no contract of its own: the object key split. `S3UriSplit` and `UpperCaseSchemeKept` characterise it |
| Resolver.IntOf | lambdas/lambda-redirect-url.py:65 | no contract of its own: `int()` of a stored attribute. `IntOfErrorText` states what its errors look like |
| Resolver.KeyErrorText | lambdas/lambda-redirect-url.py:97 | no contract of its own: the text of a KeyError. `MalformedRecordEscapes` shows it escapes the `except` block |
| Resolver.Dispatch | lambdas/lambda-redirect-url.py:96-122 | no contract of its own: the branch for a found item. `PlainTargetRedirects`, `S3TargetIsSigned`, `MalformedRecordEscapes` and `DispatchShapes` characterise it |
| Resolver.TryRedirect | lambdas/lambda-redirect-url.py:88-128 | no contract of its own: the `try` block of `redirectURL`. It is characterised through `RedirectURL` |
| Resolver.RedirectURL | lambdas/lambda-redirect-url.py:82-141 | no contract of its own: `redirectURL(code)`. `EmptyCodeIs400`, `LookupFailureIs500`, `MissingRecordIs404`, `PlainTargetRedirects`, `S3TargetIsSigned` and `ResponseShapes` characterise it |
| Resolver.HandleEvent | lambdas/lambda-redirect-url.py:143-175 | no contract of its own: `lambda_handler`. `HandlerStripsSlash` and `MissingUriIs400` characterise it |
| Resolver.HandlerStripsSlash | lambdas/lambda-redirect-url.py:156-162 | the handler resolves the uri without its first character |
| Resolver.MissingUriIs400 | lambdas/lambda-redirect-url.py:158-175 | a missing request, a missing uri, or uri `""` or `"/"` gives 400 with the error headers, independent of the table |
| Allocator.TruthyInt | lambdas/lambda-generate-url-shortener.py:89 | no contract of its own: Python truthiness of an optional integer |
| Allocator.TruthyText | lambdas/lambda-generate-url-shortener.py:99 | no contract of its own: Python truthiness of an optional text |
| Allocator.Sec2Epoch | lambdas/lambda-generate-url-shortener.py:83-91 | `now + s` for a truthy `s`, otherwise `now + 3153600000` |
| Allocator.ExpiryAhead | lambdas/lambda-generate-url-shortener.py:89 | a non-negative ttl gives an expiry after `now`. It equals the default exactly when the ttl is falsy or a hundred years |
| Allocator.AlphabetRanks | lambdas/lambda-generate-url-shortener.py:115 | position `p` of `ascii_lowercase + digits` is a code character of rank `p` |
| Allocator.AlphabetDistinct | lambdas/lambda-generate-url-shortener.py:115 | the population has no repeated character |
| Allocator.Candidate | lambdas/lambda-generate-url-shortener.py:115 | no contract of its own: the code spelled by one draw. `CandidateIsCode` states its shape |
| Allocator.CandidateIsCode | lambdas/lambda-generate-url-shortener.py:115 | every sample yields 8 pairwise distinct characters from `a-z0-9` |
| Allocator.Candidates | lambdas/lambda-generate-url-shortener.py:114-116 | `n` attempts look up `n` keys |
| Allocator.CandidateAt | lambdas/lambda-generate-url-shortener.py:114-116 | the `j`-th key looked up is the `j`-th candidate, a generated code |
| Allocator.AllTakenAt | lambdas/lambda-generate-url-shortener.py:117-123 | each rejected attempt had no fault and found its candidate taken |
| Allocator.AllTaken | lambdas/lambda-generate-url-shortener.py:117-123 | no contract of its own: the first `n` attempts were turned down. `AllTakenAt` states it attempt by attempt |
| Allocator.Settles | lambdas/lambda-generate-url-shortener.py:117-123 | no contract of its own: attempt `n` ends the loop, by a failed lookup or a free candidate |
| Allocator.FirstSettles | lambdas/lambda-generate-url-shortener.py:114-123 | no contract of its own: attempt `n` is the first to end the loop |
| Allocator.FirstSettlesUnique | lambdas/lambda-generate-url-shortener.py:114-123 | at most one attempt is the first to settle, so the table, the fault script and the draws decide how many candidates are turned down |
| Allocator.LookedUp | lambdas/lambda-generate-url-shortener.py:101-116 | one key for a truthy alias, `attempts + 1` candidates otherwise |
| Allocator.CodeOutcome | lambdas/lambda-generate-url-shortener.py:99-124 | no contract of its own: the answer of `generateCode` as a function of the table and the fault script. `CodeOutcomeMeaning` states what it means |
| Allocator.CodeOutcomeMeaning | lambdas/lambda-generate-url-shortener.py:99-124 | a failure carries a scripted message. Success without a code happens exactly when the alias lookup succeeds and finds the alias. A code is non-empty and free, and is the alias or a generated code |
| Allocator.GenerateCode | lambdas/lambda-generate-url-shortener.py:93-124 | the answer is `CodeOutcome` of the table and script before the call. For an alias no candidate is turned down; otherwise the turned-down count is that of the first settling attempt. The keys looked up are `LookedUp`, exactly one fault is used per lookup, the items are unchanged and nothing is written |
| Allocator.DrawCode | lambdas/lambda-generate-url-shortener.py:111-124 | every rejected candidate was looked up without fault and was taken. The loop stops at the first failed lookup (returning its message) or the first free candidate (returning it). Keys are looked up in order and nothing is written |
| Allocator.Attempt | lambdas/lambda-generate-url-shortener.py:115-116 | one attempt looks up the next candidate and meets the next scripted fault |
| Allocator.ShortUrl | lambdas/lambda-generate-url-shortener.py:145 | `https://` then the domain, then `/`, then the code |
| Allocator.WrittenItem | lambdas/lambda-generate-url-shortener.py:143-147 | the written record is keyed by its code |
| Allocator.WrittenItemFields | lambdas/lambda-generate-url-shortener.py:143-147 | the record holds the short URL, the target only when it is not `""`, the expiry and the ttl, and nothing else |
| Allocator.Validade | lambdas/lambda-generate-url-shortener.py:158 | the formatted expiry without its last two characters, then `:00` |
| Allocator.ValidadeWithOffset | lambdas/lambda-generate-url-shortener.py:158 | with a `+HHMM` offset the text ends `+HH:00` |
| Allocator.ValidadeWithoutOffset | lambdas/lambda-generate-url-shortener.py:158 | with a naive timestamp the seconds are cut and the text ends `::00` |
| Allocator.ItemOf | lambdas/lambda-generate-url-shortener.py:189-195 | no contract of its own: the `data` dict as an item. `WrittenItemFields` states what survives the filter |
| Allocator.AnswerOf | lambdas/lambda-generate-url-shortener.py:133-172 | no contract of its own: the answer for each outcome. `LinkMatchesRecord` ties the success answer to the written record |
| Allocator.Stored | lambdas/lambda-generate-url-shortener.py:147 | no contract of its own: the items after a creation; only `Created` changes them |
| Allocator.Written | lambdas/lambda-generate-url-shortener.py:147 | no contract of its own: the one put of a creation that settled on a code |
| Allocator.WriteOutcome | lambdas/lambda-generate-url-shortener.py:147-166 | no contract of its own: the put fails with the scripted message or creates the record |
| Allocator.CreationOutcome | lambdas/lambda-generate-url-shortener.py:126-172 | no contract of its own: how `generateShortenerURL` ends, as a function of the table and the fault script. `OutcomeMeaning` states what it means |
| Allocator.OutcomeMeaning | lambdas/lambda-generate-url-shortener.py:126-172 | a generation or write failure carries a scripted message. The alias is turned down exactly when its lookup succeeds and finds it. A code that is written was free and is the alias or a generated code |
| Allocator.LinkMatchesRecord | lambdas/lambda-generate-url-shortener.py:151-160 | the returned code, short URL and target are the ones written |
| Allocator.GenerateShortenerURL | lambdas/lambda-generate-url-shortener.py:126-172 | the outcome is `CreationOutcome` of the table and fault script before the call, with the turned-down count of the first settling attempt. The answer is that outcome's answer, and the items change only on `Created`. The keys looked up are `LookedUp`. The writes are exactly the one put of a settled code. The script is used up by one entry per lookup and per put |
| Allocator.Save | lambdas/lambda-generate-url-shortener.py:143-166 | writes the completed record once and answers with the link, or with "Falha ao gravar na tabela " and the store's message |
| Allocator.Normalise | lambdas/lambda-generate-url-shortener.py:187-195 | a falsy alias becomes no id. A falsy ttl becomes no ttl and the hundred-year expiry. The URL is kept as given |
| Allocator.FalsyFieldsIgnored | lambdas/lambda-generate-url-shortener.py:190-194 | alias `""` and ttl `0` behave exactly like leaving them out |
| Allocator.HandleEvent | lambdas/lambda-generate-url-shortener.py:174-203 | a missing URL answers "Campo URL não foi informado." and leaves the table, the script and the history untouched. Otherwise the outcome, answer, items, lookups, writes and remaining script are those of `GenerateShortenerURL` on the normalised event |
| Allocator.AliasTwice | lambdas/lambda-generate-url-shortener.py:99-110 | two creations with one free alias on a healthy table: the first creates the alias's record, the second answers "alias in use" and changes nothing |
| Allocator.HealthyDrawSucceeds | lambdas/lambda-generate-url-shortener.py:111-160 | on a table that meets no fault, a creation without an alias succeeds once some draw is free. It writes under a free generated code |
| RoundTrip.ReadsFrom | lambdas/lambda-redirect-url.py:91 | no contract of its own: the redirect handler reads the table the allocator wrote |
| RoundTrip.RequestFor | lambdas/lambda-redirect-url.py:156-160 | no contract of its own: the CloudFront event for a request path |
| RoundTrip.ShortUrlPath | lambdas/lambda-generate-url-shortener.py:145 | the short link's path is `/code` |
| RoundTrip.CreatedLinkRedirects | lambdas/lambda-redirect-url.py:156-162 | requesting a created short link redirects to its plain target |
| RoundTrip.CreatedS3LinkIsSigned | lambdas/lambda-redirect-url.py:97-102 | a created S3 link is signed for the time left until the record's expiry |
| RoundTrip.EmptyTargetEscapes | lambdas/lambda-generate-url-shortener.py:187 | a link created for the empty URL makes the resolver fail |
| RoundTrip.UnknownCodeIs404 | lambdas/lambda-redirect-url.py:123-125 | a code never written answers 404 |
| RoundTrip.CreateThenResolve | lambdas/lambda-generate-url-shortener.py:174-203 | a creation is followed by a request for the path of the short link it answered with, on the table it left. A failed creation leaves the table as it was and nothing is resolved. After a success, a plain target redirects to itself. An S3 target is signed for the time left until the record's expiry and redirects to the signed URL. The empty URL makes the redirect handler fail |

## Left out

- boto3, `TypeSerializer`/`TypeDeserializer`, `json.dumps` and `roundFloat` are foreign library calls. Each handler sees the table through `getDynamoData`/`putItemDynamoDB` only, as a `Store` or as `Env.get`. The signer's internals are left out too.
- `random.sample` is an oracle `sampler`. The model captures the contract of its draws but not their distribution.
- `datetime.now`, `time.time`, `round` and `timedelta` become an integer `now`. Float timestamps are not modelled.
- Allocator.Sec2Epoch: returns `now + ttl` for every ttl. In the source, a ttl that takes the expiry outside `datetime`'s range (a ttl below about −6.4e10 seconds, before year 1, or above about 2.5e11 seconds, after year 9999) raises OverflowError at `lambda-generate-url-shortener.py:90`. That happens before any table call and escapes `lambda_handler`; the model instead goes on to the lookups and the put. The same holds for the `fromtimestamp` call behind `validade`.
- `strftime` and local time-zone conversion are the parameter `format`. Only the `[:-2] + ":00"` slice is modelled.
- `urlparse(...).netloc` is an uninterpreted function.
- RoundTrip.CreateThenResolve: the edge layer is taken to pass the link's text after the domain through unchanged as the request `uri`. That holds for generated codes, which use only `a-z0-9`. It fails for an alias holding `?`, `#` or a character a client percent-encodes: for example, the link `https://d/a?b` arrives as uri `/a`.
- Allocator.GenerateCode: it assumes the loop ends, i.e. some attempt meets a fault or a free candidate. The code never bounds the loop, so nothing is stated about runs in which every candidate is taken forever.
- Allocator.DrawCode: carries the same termination hypothesis as `GenerateCode`.
- Allocator.GenerateShortenerURL: carries the same termination hypothesis when no alias is given.
- Allocator.HandleEvent: carries the same termination hypothesis when a URL and no alias are given.
- The check-then-write race between concurrent allocations is concurrency, and the code does nothing about it.
- `print` logging is left out, and so are the table and region names.
- `int()` is modelled only for decimal texts without whitespace, underscores or non-ASCII digits. String-typed `ttl` values in the allocator's event are omitted: `ttl` is an optional integer.
- `lower()` is modelled on ASCII letters only.
- An exception raised inside `urlparse` is not modelled.
- The resolver's event is a list of records, each with an optional request and an optional uri. A missing `cf` key and a missing request are one case. A missing `Records` key, which raises KeyError, is not modelled.
- The `data` dict that `generateShortenerURL` completes in place is modelled as a value (`Draft`). The caller never reads it afterwards, so no aliasing is lost.
- The `Store` history: lookups and writes are logged separately, so their interleaving is not recorded. The fault script is shared and is used up in call order, so the order of calls still decides which call meets which fault.
- Table.Store.Get: does not apply `getDynamoData`'s `""` filter to the key. Neither handler looks up `""`: the resolver checks `len(code) > 0` and the allocator looks up only a truthy alias or an 8-character candidate.
