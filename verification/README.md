# DeepL Java client: a verified model of its core

This project models in Dafny the deterministic core of the DeepL Java client library (`com.deepl.api`).
Each area below is one module:

- **`Glossary`, `GlossaryExamples`** — the glossary entries map (`GlossaryEntries`):
  - term trimming and validation;
  - the validated `put`/`putAll`;
  - the strict TSV parser `fromTsv`, with 1-based line numbers in its errors;
  - the serialiser `toTsv`.
- **`LanguageCode`** — language-code normalisation (`standardize`, `removeRegionalVariant`), with ASCII case mapping.
- **`Backoff`** — the retry timer (`BackoffTimer`): retry counter, backoff capped at 120 s, a jittered deadline, and a timeout floor.
- **`Http`** — the HTTP wrapper (`HttpClientWrapper`):
  - the classification of one attempt (`sendRequest`);
  - the retry loop (`sendRequestWithBackoff`);
  - the per-verb wrappers;
  - the single-attempt PATCH path.
- **`Content`** — request bodies (`HttpContent`): form URL encoding, and multipart framing for a given boundary.
- **`Translation`** — the request logic of `Translator`:
  - server URL and header selection;
  - language checks;
  - the parameter-list builders;
  - response classification;
  - the document polling loop;
  - the `translateDocument` composition.
- **`Client`** — the request builders and guards of `DeepLClient`:
  - multilingual glossaries, with indexed `dictionaries[i].*` parameters;
  - the language query string;
  - rephrase parameters;
  - dictionary replace and update.
- **`Usage`, `Documents`, `ErrorBodies`** — small predicates and formatters: usage counters and their report, document status codes, and the error-body message.
- **`Errors`** — the library's exceptions as one `Error` datatype. `IllegalArgumentException` carries a structured `Problem` instead of a message string.

Some of this code changes state step by step in Java, and stays imperative here:

- `GlossaryEntries` and `BackoffTimer` are classes whose methods update their fields.
- `HttpClientWrapper`, `Translator` and `DeepLClient` are classes holding their configuration.
- The loops stay `while` loops with invariants: trimming, term validation, TSV parsing and rendering, the retry loop, polling, and the parameter builders.

Each method is proved against a specification function, and the properties the library promises are lemmas about those functions.

The environment is made explicit:

- **Network.** A `reply(k, request)` function gives the transport's answer to the k-th request.
- **Clock.** `clock(i)` gives the i-th clock reading.
- **Interrupts.** `interrupted(k)` tells whether the k-th sleep is interrupted.
- **Jitter.** `jitter(k)` is a real in [0.77, 1.23).
- **Foreign helpers.** The URL encoder, the content-type guesser, the JSON error-message parser and the multipart boundary are parameters.
- **Time.** Time is in nanoseconds. `Duration.toMillis` rounds down.
- **Observable events.** A retry run returns a ghost trace of events, in order: `Sent(request)`, `Closed(code)` and `Slept(ms)`.

## Model

| member | source | states |
|---|---|---|
| Backoff.NextBackoff | deepl-java/src/main/java/com/deepl/api/utils/BackoffTimer.java:51-52 | the next backoff never exceeds 120 s and never falls below the current one (up to the cap); below the cap it is the current backoff times 8/5, rounded down; it is the cap exactly when 1.6 times the current backoff reaches 120 s |
| Backoff.Jittered | deepl-java/src/main/java/com/deepl/api/utils/BackoffTimer.java:54-56 | the jittered sleep lies between 0.77 and 1.23 times the backoff (up to rounding), strictly below 1.23 times a positive backoff |
| Backoff.TimeUntilDeadline | deepl-java/src/main/java/com/deepl/api/utils/BackoffTimer.java:60-64 | never negative; zero exactly once the deadline has passed, otherwise now plus it is the deadline |
| Backoff.Timeout | deepl-java/src/main/java/com/deepl/api/utils/BackoffTimer.java:29-37 | getTimeout is the larger of the minimum timeout and the time until the deadline |
| Backoff.AfterSleep | deepl-java/src/main/java/com/deepl/api/utils/BackoffTimer.java:50-57 | a completed sleep adds exactly one retry, advances the backoff by NextBackoff (never shrinking it) and sets the deadline to the wake-up time plus a jittered backoff |
| Backoff.BackoffReachesCap | deepl-java/src/main/java/com/deepl/api/utils/BackoffTimer.java:17-58 | from 1 s the backoff stays below 120 s for the first 10 retries and sits at the cap from the 11th on |
| Backoff.TimeUntilDeadlineShrinks | deepl-java/src/main/java/com/deepl/api/utils/BackoffTimer.java:60-64 | as the clock advances, the time until the deadline shrinks, and by no more than the time elapsed |
| Backoff.BackoffTimer.constructor | deepl-java/src/main/java/com/deepl/api/utils/BackoffTimer.java:17-27 | a new timer has no retries, a 1 s backoff and a deadline 1 s from now |
| Backoff.BackoffTimer.GetTimeout | deepl-java/src/main/java/com/deepl/api/utils/BackoffTimer.java:29-33 | getTimeout is at least the minimum timeout and the time until the deadline, and equals one of them |
| Backoff.BackoffTimer.GetTimeoutMillis | deepl-java/src/main/java/com/deepl/api/utils/BackoffTimer.java:35-37 | getTimeoutMillis is getTimeout in whole milliseconds, rounded down, and never below the minimum timeout in milliseconds |
| Backoff.BackoffTimer.GetNumRetries | deepl-java/src/main/java/com/deepl/api/utils/BackoffTimer.java:39-41 | getNumRetries is the retry count of the timer state, which a completed sleep advances by one |
| Http.TimeoutShrinks | deepl-java/src/main/java/com/deepl/api/utils/BackoffTimer.java:29-37 | a timeout read later is never longer, in nanoseconds or in whole milliseconds |
| Backoff.BackoffTimer.SleepUntilRetry | deepl-java/src/main/java/com/deepl/api/utils/BackoffTimer.java:43-58 | sleeps for the time until the deadline; an interrupted sleep fails and leaves retries, backoff and deadline unchanged; a completed one moves the state as AfterSleep says |
| Documents.Ok | deepl-java/src/main/java/com/deepl/api/DocumentStatus.java:71-73 | ok() holds exactly for Queued, Translating and Done, and so fails for a missing status or Error |
| Documents.IsDone | deepl-java/src/main/java/com/deepl/api/DocumentStatus.java:71-81 | done() implies ok() |
| Documents.StillRunning | deepl-java/src/main/java/com/deepl/api/DocumentStatus.java:27-81 | ok() && !done() holds exactly for Queued and Translating, the states in which polling continues |
| ErrorBodies.ErrorMessage | deepl-java/src/main/java/com/deepl/api/parsing/ErrorResponse.java:17-25 | "" exactly when message and detail are both absent; "message: m", "detail: d" (no leading separator) or "message: m, detail: d" otherwise |
| Usage.ReportLines | deepl-java/src/main/java/com/deepl/api/Usage.java:94-108 | the report has a heading plus one "label: count of limit" line per present counter, in the order Characters, Documents, Team documents |
| Usage.AnyLimitReachedIff | deepl-java/src/main/java/com/deepl/api/Usage.java:81-85 | anyLimitReached holds iff some present counter has count >= limit; never when all three are absent |
| Usage.UsageStringJoin | deepl-java/src/main/java/com/deepl/api/Usage.java:94-108 | toString is the report's lines joined by "\n", with the heading first |
| Usage.UsageStringLines | deepl-java/src/main/java/com/deepl/api/Usage.java:94-108 | splitting toString at "\n" gives back exactly the heading and the counter lines |
| Usage.DetailStringParts | deepl-java/src/main/java/com/deepl/api/Usage.java:64-67 | Detail.toString is "<count> of <limit>", and both numbers read back from it |
| LanguageCode.SplitAtFirstDash | deepl-java/src/main/java/com/deepl/api/LanguageCode.java:137-144 | split("-", 2): one part (the whole code) iff the code has no '-'; else the dash-free part before the first '-' and everything after it |
| LanguageCode.StandardizeWithoutDash | deepl-java/src/main/java/com/deepl/api/LanguageCode.java:125-140 | a code without '-' standardizes to its lowercase, and so does its regional variant removal |
| LanguageCode.StandardizeWithDash | deepl-java/src/main/java/com/deepl/api/LanguageCode.java:125-144 | with a first '-' at i, standardize gives lower(code[..i]) + "-" + upper(code[i+1..]), and removeRegionalVariant gives lower(code[..i]) |
| LanguageCode.RemoveRegionalVariantHasNoDash | deepl-java/src/main/java/com/deepl/api/LanguageCode.java:125-128 | removeRegionalVariant never contains '-' |
| LanguageCode.StandardizeIdempotent | deepl-java/src/main/java/com/deepl/api/LanguageCode.java:137-144 | standardize is idempotent |
| LanguageCode.RemoveRegionalVariantOfStandardized | deepl-java/src/main/java/com/deepl/api/LanguageCode.java:125-144 | removing the regional variant after standardizing gives the same result as before |
| LanguageCode.StandardizeExamples | deepl-java/src/main/java/com/deepl/api/LanguageCode.java:137-144 | "EN-us" standardizes to "en-US" and "dE" to "de" |
| Content.FormBody | deepl-java/src/main/java/com/deepl/api/http/HttpContent.java:32-45 | the form body is empty exactly when the parameters are null or empty |
| Content.BuildFormURLEncodedContent | deepl-java/src/main/java/com/deepl/api/http/HttpContent.java:32-45 | the loop builds the form content: the body joins "enc(k)=enc(v)" with "&" in parameter order, and the type is application/x-www-form-urlencoded |
| Content.FormBodyPieces | deepl-java/src/main/java/com/deepl/api/http/HttpContent.java:36-41 | when the encoder emits no '&' or '=', the body splits at '&' back into the encoded pairs, each splitting at '=' into encoded key and value (so there is no stray '&') |
| Content.Multipart | deepl-java/src/main/java/com/deepl/api/http/HttpContent.java:61-113 | a built multipart content has type "multipart/form-data; boundary=" + boundary, and its body ends with "--boundary--\r\n" |
| Content.BuildMultipartFormDataContent | deepl-java/src/main/java/com/deepl/api/http/HttpContent.java:61-113 | the loop writes the string and stream parts in parameter order and then the closing line, or fails as Multipart does |
| Content.PartsFailure | deepl-java/src/main/java/com/deepl/api/http/HttpContent.java:70-105 | framing succeeds iff every field is a string or a named stream; otherwise it fails with the error of the first other field |
| Content.PartsAppend | deepl-java/src/main/java/com/deepl/api/http/HttpContent.java:70-105 | the parts of consecutive fields are the concatenation of their parts, in order |
| Http.SendRequest | deepl-java/src/main/java/com/deepl/api/HttpClientWrapper.java:183-220 | a fault becomes a connection error, retryable exactly for a socket timeout; a response keeps its code, with the body from the input stream for 200..399 and from the error stream otherwise |
| Http.ToStringResponse | deepl-java/src/main/java/com/deepl/api/HttpClientWrapper.java:50-53 | a stream response read as a string keeps its code; an absent body reads as "" |
| Http.AttemptsWellFormed | deepl-java/src/main/java/com/deepl/api/HttpClientWrapper.java:160-181 | a run's events start with a request and separate consecutive requests by exactly one sleep, a discarded (429 or 5xx) response being closed just before it; a run ends with a sleep iff it was interrupted |
| Http.AttemptsCount | deepl-java/src/main/java/com/deepl/api/HttpClientWrapper.java:160-181 | a run makes at least one attempt and at most maxRetries + 1 |
| Http.AttemptsStop | deepl-java/src/main/java/com/deepl/api/HttpClientWrapper.java:166-177 | a returned response is non-retryable or the retries are used up; a failure is an interrupt, a non-retryable connection error, or a retryable one with the retries used up |
| Http.AttemptsSend | deepl-java/src/main/java/com/deepl/api/HttpClientWrapper.java:160-220 | every request of a run uses the call's verb, serverUrl + relative URL, headers and content |
| Http.TwoTooManyRequestsThenSuccess | deepl-java/src/main/java/com/deepl/api/HttpClientWrapper.java:160-181 | with 5 retries allowed, a server that answers 429 twice and then 200 yields the 200 response after exactly three attempts |
| Http.UploadBody | deepl-java/src/main/java/com/deepl/api/HttpClientWrapper.java:136-157 | an upload body always builds: the file part first, then one part per parameter, then the closing line |
| Http.PatchOutcome | deepl-java/src/main/java/com/deepl/api/HttpClientWrapper.java:86-127 | a PATCH fault is a connection error (retryable only for a timeout) and so is a missing entity; otherwise the code and the entity are returned |
| Http.HttpClientWrapper.constructor | deepl-java/src/main/java/com/deepl/api/HttpClientWrapper.java:37-48 | the wrapper keeps the server URL, headers, minimum timeout and retry budget it is given |
| Http.HttpClientWrapper.SendRequestWithBackoff | deepl-java/src/main/java/com/deepl/api/HttpClientWrapper.java:160-181 | the while(true) loop over a BackoffTimer yields exactly the result and the events of the retry specification Attempts, from a fresh timer |
| Http.HttpClientWrapper.Get | deepl-java/src/main/java/com/deepl/api/HttpClientWrapper.java:50-53 | sends GET with no content through the retry loop, reading the body as a string |
| Http.HttpClientWrapper.Delete | deepl-java/src/main/java/com/deepl/api/HttpClientWrapper.java:55-60 | sends DELETE with the form content of the parameters |
| Http.HttpClientWrapper.DeleteWithoutParams | deepl-java/src/main/java/com/deepl/api/HttpClientWrapper.java:62-65 | sends DELETE with an empty form body |
| Http.HttpClientWrapper.PostWithoutContent | deepl-java/src/main/java/com/deepl/api/HttpClientWrapper.java:67-70 | sends POST with no content |
| Http.HttpClientWrapper.Post | deepl-java/src/main/java/com/deepl/api/HttpClientWrapper.java:72-77 | sends POST with the form content of the parameters |
| Http.HttpClientWrapper.Put | deepl-java/src/main/java/com/deepl/api/HttpClientWrapper.java:79-84 | sends PUT with the form content of the parameters |
| Http.HttpClientWrapper.Download | deepl-java/src/main/java/com/deepl/api/HttpClientWrapper.java:129-134 | sends POST with form content and hands back the stream response unread |
| Http.HttpClientWrapper.Upload | deepl-java/src/main/java/com/deepl/api/HttpClientWrapper.java:136-157 | a body that cannot be built fails with "failed building request" before any request; otherwise the multipart body is sent by POST through the retry loop |
| Http.HttpClientWrapper.PatchRequest | deepl-java/src/main/java/com/deepl/api/HttpClientWrapper.java:89-105 | the single PATCH request goes to the server URL plus the relative path, with the wrapper's headers and the form content; both timeouts come from a fresh timer, are never below the minimum timeout, and the socket timeout read second is never longer than the connect timeout |
| Http.HttpClientWrapper.Patch | deepl-java/src/main/java/com/deepl/api/HttpClientWrapper.java:86-127 | exactly one PATCH attempt, despite the name, with timeouts from a fresh timer and the form content; no retry and no sleep |
| Glossary.Trim | deepl-java/src/main/java/com/deepl/api/GlossaryEntries.java:197-216 | the trimmed term is no longer than the input and neither starts nor ends with a space or tab |
| Glossary.TrimSlice | deepl-java/src/main/java/com/deepl/api/GlossaryEntries.java:197-216 | the trimmed term is a contiguous slice of the input with only spaces and tabs cut off on either side |
| Glossary.TrimEmpty | deepl-java/src/main/java/com/deepl/api/GlossaryEntries.java:197-216 | trimming gives "" iff the input is all spaces and tabs |
| Glossary.TrimWhitespace | deepl-java/src/main/java/com/deepl/api/GlossaryEntries.java:197-216 | the two index loops compute Trim |
| Glossary.CheckTerm | deepl-java/src/main/java/com/deepl/api/GlossaryEntries.java:157-171 | a term passes iff its trimmed form is non-empty and has no character <= 31, in 128..159, or U+2028/U+2029; an all-blank term fails as without content, any other failure names an invalid character of the trimmed term |
| Glossary.ValidateGlossaryTerm | deepl-java/src/main/java/com/deepl/api/GlossaryEntries.java:157-171 | the character scan yields CheckTerm's verdict |
| Glossary.ValidTermHasNoSeparator | deepl-java/src/main/java/com/deepl/api/GlossaryEntries.java:163-170 | a valid term's trimmed form holds no tab and no line break |
| Glossary.InteriorTabRejected | deepl-java/src/main/java/com/deepl/api/GlossaryEntries.java:163-170 | "B\tC" is rejected for its tab |
| Glossary.CheckPair | deepl-java/src/main/java/com/deepl/api/GlossaryEntries.java:108-112 | a pair passes iff both terms are valid |
| Glossary.GlossaryEntries.Put | deepl-java/src/main/java/com/deepl/api/GlossaryEntries.java:108-112 | validates both terms first; on failure the map is unchanged; on success it stores the untrimmed pair, changes no other key, and returns the previous target term if any |
| Glossary.GlossaryEntries.PutAll | deepl-java/src/main/java/com/deepl/api/GlossaryEntries.java:120-124 | succeeds iff every pair is valid, then merging them all; on failure reports a pair not yet added, while the pairs put before it stay |
| Glossary.GlossaryEntries.Equals | deepl-java/src/main/java/com/deepl/api/GlossaryEntries.java:66-73 | two entry objects are equal exactly when their maps have the same size and every entry of one is also in the other, as Java map equality defines it |
| Glossary.GlossaryEntries.ToTsv | deepl-java/src/main/java/com/deepl/api/GlossaryEntries.java:179-188 | the StringBuilder loop renders the entries in some enumeration of the keys, each exactly once; the output is a TSV rendering of the entries, and is non-empty exactly when there are entries |
| Glossary.RenderSnoc | deepl-java/src/main/java/com/deepl/api/GlossaryEntries.java:181-186 | each further entry appends its "key\tvalue" line, after "\n" unless it is the first |
| Glossary.RenderShape | deepl-java/src/main/java/com/deepl/api/GlossaryEntries.java:179-188 | the empty map renders as "", and valid entries render as exactly one line per entry with no trailing line break |
| Glossary.FromMap | deepl-java/src/main/java/com/deepl/api/GlossaryEntries.java:18-20 | new GlossaryEntries(map) succeeds iff every pair is valid, and then holds exactly that map |
| Glossary.ParseLineSuccess | deepl-java/src/main/java/com/deepl/api/GlossaryEntries.java:31-56 | a line that parses is blank and adds nothing, or holds exactly one tab and adds one new trimmed, valid entry without overwriting |
| Glossary.ParseLineSeparatorError | deepl-java/src/main/java/com/deepl/api/GlossaryEntries.java:36-45 | a missing separator names the line number and the trimmed, tab-free line; an extra one names the line as read, which has two tabs or more |
| Glossary.ReadTsvLine | deepl-java/src/main/java/com/deepl/api/GlossaryEntries.java:31-56 | the loop body yields no pair for a blank line, a validated new pair, or ParseLine's error |
| Glossary.ParseLinesSuccess | deepl-java/src/main/java/com/deepl/api/GlossaryEntries.java:28-62 | a successful parse is non-empty, canonical, with one entry per non-blank line, each of which has exactly one tab |
| Glossary.WalkStops | deepl-java/src/main/java/com/deepl/api/GlossaryEntries.java:30-57 | the parse fails with the error of the first line that fails, or ends with what every line gathered |
| Glossary.SeparatorErrorLine | deepl-java/src/main/java/com/deepl/api/GlossaryEntries.java:30-45 | a separator error carries a 1-based line number that exists, and names a non-blank line with no tab, or with more than one |
| Glossary.ParseTsvSuccess | deepl-java/src/main/java/com/deepl/api/GlossaryEntries.java:26-64 | fromTsv succeeds only with a non-empty map of canonical terms, one entry per non-blank line |
| Glossary.ParsePaddedLine | deepl-java/src/main/java/com/deepl/api/GlossaryEntries.java:32-56 | blanks around a line and spaces around its tab are trimmed away: the line parses to the pair, or to a duplicate error naming the line if the source term is present |
| Glossary.RoundTrip | deepl-java/src/main/java/com/deepl/api/GlossaryEntries.java:26-188 | for non-empty entries of valid, unpadded terms, fromTsv(toTsv(g)) gives back the same map in every iteration order, so the parsed entries are equal to g in the sense of GlossaryEntries.Equals |
| Glossary.FromTsv | deepl-java/src/main/java/com/deepl/api/GlossaryEntries.java:26-64 | the line loop with its 1-based counter succeeds exactly when ParseTsv does, with the same entries or the same error |
| GlossaryExamples.ParseExample | deepl-java/src/test/java/com/deepl/api/GlossaryTest.java:21-25 | "apple\tApfel\n crab apple \t Holzapfel " parses to {apple: Apfel, crab apple: Holzapfel} |
| GlossaryExamples.EmptyTsvRejected | deepl-java/src/test/java/com/deepl/api/GlossaryTest.java:26 | "" is rejected as having no valid entries |
| GlossaryExamples.DuplicateRejected | deepl-java/src/test/java/com/deepl/api/GlossaryTest.java:27-28 | a repeated source term is an error on line 2, not an overwrite |
| GlossaryExamples.ExtraSeparatorRejected | deepl-java/src/test/java/com/deepl/api/GlossaryTest.java:29 | "A\tB\tC" is rejected for more than one separator on line 1 |
| GlossaryExamples.TrailingTabRejected | deepl-java/src/test/java/com/deepl/api/GlossaryTest.java:30 | "A\t " trims to "A" and is rejected for a missing separator on line 1 |
| GlossaryExamples.TabInTargetRejected | deepl-java/src/test/java/com/deepl/api/GlossaryTest.java:32-33 | a map whose target term holds a tab is not all valid, so the map constructor rejects it |
| Translation.IsFreeAccountAuthKey | deepl-java/src/main/java/com/deepl/api/Translator.java:117-119 | a key is a Free key iff it is present and ends with ":fx" |
| Translation.TrimKeepsFreeSuffix | deepl-java/src/main/java/com/deepl/api/Translator.java:49-119 | a key ending with ":fx" still ends with it after String.trim |
| Translation.UserAgent | deepl-java/src/main/java/com/deepl/api/Translator.java:93-108 | the user agent starts with the library version, ends with " name/version" when app info is given, and is just the version otherwise without platform info |
| Translation.ServerUrl | deepl-java/src/main/java/com/deepl/api/Translator.java:51-56 | an explicit server URL wins; otherwise the Free URL iff the sanitized key is a Free key, else the Pro URL |
| Translation.Headers | deepl-java/src/main/java/com/deepl/api/Translator.java:58-65 | user headers are kept as given; Authorization and User-Agent are added only when absent |
| Translation.Translator.constructor | deepl-java/src/main/java/com/deepl/api/Translator.java:44-69 | the client is configured with the API version, server URL, headers, timeout and retry budget |
| Translation.NewTranslator | deepl-java/src/main/java/com/deepl/api/Translator.java:44-69 | fails iff the key is null or empty; otherwise configures the server URL and headers from the trimmed key |
| Translation.CheckValidLanguages | deepl-java/src/main/java/com/deepl/api/Translator.java:976-994 | passes iff the source is absent or non-empty, and the target is non-empty and neither "en" nor "pt" |
| Translation.AmbiguousTargetRejected | deepl-java/src/main/java/com/deepl/api/Translator.java:905-994 | because the check follows standardization, "EN", "Pt" and the like are rejected too |
| Translation.ParamsCommon | deepl-java/src/main/java/com/deepl/api/Translator.java:900-944 | succeeds iff the standardized languages pass and a glossary comes with a source language; emits source_lang?, target_lang, formality?, glossary_id? in that order, with standardized codes |
| Translation.CreateHttpParamsCommon | deepl-java/src/main/java/com/deepl/api/Translator.java:900-944 | the list-building code yields ParamsCommon |
| Translation.TextParamsEmptyText | deepl-java/src/main/java/com/deepl/api/Translator.java:788-803 | once the common parameters pass, building fails iff some text is empty, with the empty-text error |
| Translation.TextParamsTexts | deepl-java/src/main/java/com/deepl/api/Translator.java:788-863 | the "text" values are the texts in input order, unless an extra body parameter overrides "text" |
| Translation.TextParamsTail | deepl-java/src/main/java/com/deepl/api/Translator.java:788-805 | without options the texts are followed by show_billed_characters=1, which comes last |
| Translation.CreateHttpParams | deepl-java/src/main/java/com/deepl/api/Translator.java:788-863 | the text builder yields TextParams for the extras' iteration order |
| Translation.AddTexts | deepl-java/src/main/java/com/deepl/api/Translator.java:799-803 | any empty text rejects the whole list; otherwise each text is appended as a "text" pair in order |
| Translation.AddFormattingOptions | deepl-java/src/main/java/com/deepl/api/Translator.java:809-832 | appends split_sentences (0, nonewlines or 1) when a mode is set, preserve_formatting=1 when asked, then context and model_type when given |
| Translation.AddTagOptions | deepl-java/src/main/java/com/deepl/api/Translator.java:833-844 | appends tag_handling and tag_handling_version when given, outline_detection=0 when outline detection is off, and the comma-joined splitting tags when given |
| Translation.KeyedPairsValues | deepl-java/src/main/java/com/deepl/api/Translator.java:799-803 | the pairs built for a fixed key read back, under that key, as exactly the values in order, and under any other key as nothing; so the texts come back as the "text" values and custom instructions add no "text" value |
| Translation.AddStyleOptions | deepl-java/src/main/java/com/deepl/api/Translator.java:845-859 | appends the comma-joined non-splitting and ignore tags and style_id when given, then one custom_instructions pair per instruction, in order |
| Translation.CreateDocumentHttpParams | deepl-java/src/main/java/com/deepl/api/Translator.java:875-887 | the document builder yields the common parameters followed by the extra body parameters |
| Translation.ExtrasPresent | deepl-java/src/main/java/com/deepl/api/Translator.java:958-966 | every extra key ends up in the list with its extra value |
| Translation.ExtrasOnce | deepl-java/src/main/java/com/deepl/api/Translator.java:958-966 | every extra key appears exactly once |
| Translation.ExtrasKeepOthers | deepl-java/src/main/java/com/deepl/api/Translator.java:958-966 | pairs with other keys keep their values and relative order |
| Translation.RemoveOverridden | deepl-java/src/main/java/com/deepl/api/Translator.java:961 | the removeIf loop drops exactly the pairs whose key is an extra key |
| Translation.AddExtraBodyParameters | deepl-java/src/main/java/com/deepl/api/Translator.java:958-966 | yields the pairs without the overridden keys, followed by the extras in the map's iteration order |
| Translation.CheckResponse | deepl-java/src/main/java/com/deepl/api/Translator.java:1040-1086 | passes iff the code is 2xx; otherwise 400 bad request, 403 authorization, 404 glossary-not-found iff a glossary is used, else not found, 429 too many requests, 456 quota exceeded, 503 document-not-ready iff downloading, else service unavailable, anything else unknown; each carries the body's message suffix |
| Translation.SuffixReadBack | deepl-java/src/main/java/com/deepl/api/Translator.java:1047-1055 | the suffix is "" iff the body is empty; otherwise ", error message: " + the parsed message, or ", response: " + the raw body when parsing fails |
| Translation.CheckResponseStream | deepl-java/src/main/java/com/deepl/api/Translator.java:1020-1029 | the stream variant passes 200..399, fails on a missing body, and otherwise classifies with the download flag set |
| Translation.StreamCheckDiffers | deepl-java/src/main/java/com/deepl/api/Translator.java:1020-1086 | a 3xx passes the stream check but not the string check; 503 means document-not-ready for the stream check only |
| Translation.Checked | deepl-java/src/main/java/com/deepl/api/Translator.java:1040-1086 | a request result passes the check iff it is a 2xx response, which is then passed on unchanged |
| Translation.CalculateDocumentWaitTimeMillis | deepl-java/src/main/java/com/deepl/api/Translator.java:1088-1091 | always 5000 ms |
| Translation.WaitIgnoresEstimate | deepl-java/src/main/java/com/deepl/api/Translator.java:1088-1091 | the wait is positive and does not depend on secondsRemaining |
| Translation.WaitUntilDone | deepl-java/src/main/java/com/deepl/api/Translator.java:558-572 | the polling loop returns WaitResult and sleeps 5000 ms once per status that is still running |
| Translation.WaitResultDone | deepl-java/src/main/java/com/deepl/api/Translator.java:558-572 | success only with a done status, after only running ones; a non-ok status fails with its error message or "Unknown error" |
| Translation.WaitResultIndependent | deepl-java/src/main/java/com/deepl/api/Translator.java:558-572 | the outcome does not depend on the bound used to show that polling ends |
| Translation.DocumentResult | deepl-java/src/main/java/com/deepl/api/Translator.java:401-421 | every failure is a DocumentTranslation error whose handle is absent iff the upload failed; success returns the waited status |
| Translation.TranslateDocument | deepl-java/src/main/java/com/deepl/api/Translator.java:401-421 | upload, wait and download compose as DocumentResult says |
| Translation.TranslateDocumentDone | deepl-java/src/main/java/com/deepl/api/Translator.java:401-572 | a successful document translation returns a done status; a failed wait after a good upload carries the upload's handle |
| Client.ValidateParameter | deepl-java/src/main/java/com/deepl/api/DeepLClient.java:820-825 | passes iff the value is present and non-empty, else names the parameter |
| Client.CheckNewGlossary | deepl-java/src/main/java/com/deepl/api/DeepLClient.java:103-109 | a new glossary needs a non-empty name (checked first) and at least one dictionary |
| Client.CreateMultilingualGlossary | deepl-java/src/main/java/com/deepl/api/DeepLClient.java:103-115 | bad arguments fail before any request; otherwise the indexed parameters of the dictionaries' TSV renderings are posted to /v3/glossaries and the response checked |
| Client.CreateGlossaryDictionariesHttpParams | deepl-java/src/main/java/com/deepl/api/DeepLClient.java:875-884 | exactly the four index-0 pairs, in fixed order |
| Client.GlossaryParamsShape | deepl-java/src/main/java/com/deepl/api/DeepLClient.java:852-873 | 1 + 4n pairs: the name first, then for each dictionary i in order its four dictionaries[i].* pairs |
| Client.GlossaryKeysDistinct | deepl-java/src/main/java/com/deepl/api/DeepLClient.java:852-873 | no two glossary parameters share a key |
| Client.IndexedKeyInjective | deepl-java/src/main/java/com/deepl/api/DeepLClient.java:858-869 | two dictionaries[i].f keys are equal iff their indices and fields are |
| Client.CreateGlossaryHttpParams | deepl-java/src/main/java/com/deepl/api/DeepLClient.java:852-873 | the indexed loop yields the parameters of each dictionary with its toTsv rendering |
| Client.CreateGlossaryFromCsv | deepl-java/src/main/java/com/deepl/api/DeepLClient.java:735-745 | posts the four index-0 pairs with format "csv", followed by "name", and checks the response |
| Client.LanguageQuery | deepl-java/src/main/java/com/deepl/api/DeepLClient.java:801-818 | validates the source code, then the target code; returns "?source_lang=enc(s)&target_lang=enc(t)" |
| Client.LanguageQueryReadBack | deepl-java/src/main/java/com/deepl/api/DeepLClient.java:801-818 | the query splits back into its two assignments and their encoded values |
| Client.CheckDictionaryRequest | deepl-java/src/main/java/com/deepl/api/DeepLClient.java:758-789 | glossary ID, source code, target code and entries are validated in that order |
| Client.ReplaceDictionary | deepl-java/src/main/java/com/deepl/api/DeepLClient.java:751-773 | validates before any request, then PUTs source_lang, target_lang, entries and entries_format to the glossary's dictionaries |
| Client.UpdateDictionary | deepl-java/src/main/java/com/deepl/api/DeepLClient.java:779-798 | validates before any request, then makes a single PATCH attempt with the index-0 pairs |
| Client.UpdateGlossaryName | deepl-java/src/main/java/com/deepl/api/DeepLClient.java:574-583 | one PATCH of name to the glossary, checked as a glossary request |
| Client.WriteParams | deepl-java/src/main/java/com/deepl/api/DeepLClient.java:827-850 | a rephrase request fails only on invalid arguments |
| Client.WriteParamsContent | deepl-java/src/main/java/com/deepl/api/DeepLClient.java:827-850 | succeeds iff the standardized target (if any) passes and no text is empty; then the first pair is target_lang and the texts come last, in order |
| Client.WriteRejectsAmbiguousTarget | deepl-java/src/main/java/com/deepl/api/DeepLClient.java:829-830 | a target of "en" or "pt" in any case is rejected |
| Client.CreateWriteHttpParams | deepl-java/src/main/java/com/deepl/api/DeepLClient.java:827-850 | the builder yields WriteParams |
| Client.WriteParamsAsWritten | deepl-java/src/main/java/com/deepl/api/DeepLClient.java:827-835 | as written, standardize is called on the target first, so a missing target fails; with a target present it agrees with WriteParams |
| Client.NullTargetFails | deepl-java/src/main/java/com/deepl/api/DeepLClient.java:827-835 | with non-empty texts, a missing target fails as written but succeeds in the intended builder |
| Client.DeepLClient.constructor | deepl-java/src/main/java/com/deepl/api/DeepLClient.java:46-48 | a client wraps the configured translator |

## Left out

- Network, file and stream I/O are not modelled. The transport is a function from attempt number and request to a reply or a fault, and bodies are strings or bytes. Reading streams (StreamUtil), the Apache PATCH client and the `File` overloads are not part of this model.
- JSON parsing (gson, `Parser` and the `*Deserializer` classes) is not part of this model. The error-message parse used by `checkResponse` is a parameter that either yields a message or fails.
- `URLEncoder.encode`, `URLConnection.guessContentTypeFromName`, the random UUID boundary and the platform string of the user agent are parameters.
- Java's Unicode `toLowerCase`/`toUpperCase` are modelled on ASCII letters only.
- Backoff.NextBackoff: the 1.6F float multiplication is modelled as exact 8/5 with rounding down to whole nanoseconds, not as float arithmetic.
- Backoff.Jittered: the random jitter is a real parameter in [0.77, 1.23), from ThreadLocalRandom; float rounding is not modelled.
- `Thread.sleep` is a step that reports whether it was interrupted; time is a sequence of clock readings.
- Translation.WaitUntilDone: requires that some poll in the script stops the loop, through a ghost bound. A document that stays Queued forever, where the Java loop never ends, is not modelled.
- Translation.TranslateDocument: the upload and download are inputs (their outcomes), not calls; `translateDocumentUpload` and `translateDocumentDownload` are not part of this model.
- The API calls other than those above are not part of this model: `translateText`, `getUsage`, `getLanguages`, the glossary listing and retrieval calls, and the deletes. Their results come through JSON parsing.
- `DeepLClient` extends `Translator` in Java; here it holds a `Translator`.
- The `Map` view methods of `GlossaryEntries` (`size`, `get`, `remove`, `clear`, `keySet`, `entrySet`, and the like) are not modelled. They pass through to the map, and some of them bypass validation.
- `toTsv` and `putAll` iterate in `HashMap` order, which Java leaves unspecified; the model lets any enumeration of the keys stand for it.
- Exceptions are one `Error` datatype; message texts are reduced to structured values (the `Problem` of an illegal argument, the message suffix of an HTTP error).
- Integer widths are not modelled: counters and durations are unbounded. This ignores `long` overflow of nanosecond durations, which needs a timeout of centuries.
- Http.SendRequest: the millisecond timeout is an unbounded `nat`, while HttpClientWrapper.java:192-193 casts it with `(int)`. A timeout above 2^31 - 1 ms, which a minimum timeout of 25 days gives, wraps. A negative result makes `setConnectTimeout` throw, and the catch at line 217 turns that into a non-retryable connection error before anything is sent. A wrap to a small positive value shortens the timeout instead. The model sends the request with the unwrapped timeout.
- Http.HttpClientWrapper.SendRequestWithBackoff: inherits the unmodelled `(int)` timeout cast of Http.SendRequest. Its trace records a `Sent` request where Java fails or truncates the timeout when it exceeds 2^31 - 1 ms.
- Http.HttpClientWrapper.PatchRequest: the connect and socket timeouts are unbounded `nat`s, while HttpClientWrapper.java:97-98 casts `getTimeoutMillis()` with `(int)` before handing it to RequestConfig. A timeout above 2^31 - 1 ms wraps there. RequestConfig stores a negative wrap as undefined, so the system-default timeouts apply and the connect timeout has no bound. A wrap to a small positive int shortens both timeouts. The model's request carries the unwrapped timeout.
- Http.HttpClientWrapper.Patch: inherits the unmodelled `(int)` cast of PatchRequest. The PATCH is still sent exactly once, as the recorded `Sent` says; only the timeout values it carries differ from Java's when the cast wraps.

## Findings

| source | as written | input that shows it | evidently intended | confidence | as-written member | corrected member |
|---|---|---|---|---|---|---|
| deepl-java/src/main/java/com/deepl/api/DeepLClient.java:827-835 | `createWriteHttpParams` calls `LanguageCode.standardize(targetLang)` before its `targetLang != null` test. `standardize` splits the string, so a null target throws a NullPointerException, and the null test and the `@Nullable` target are dead. | `rephraseText(["Hello"], null, null)` | a null target is allowed and leaves target_lang out, giving `[("text", "Hello")]` | not executed | Client.WriteParamsAsWritten, Client.NullTargetFails | Client.WriteParams, Client.CreateWriteHttpParams |
