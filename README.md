# sahibinden extension core, modelled in Dafny

This project models the logic at the heart of the sahibinden browser extension.
The extension scrapes real-estate listings from sahibinden.com and sends them to
an "Emlak" back-end API. It estimates how open each side of a listing is from
OpenStreetMap data, asks Google's Gemini model for a short Turkish summary of a
listing, and keeps per-listing notes that sync with a notes server.

The model is split into one module per part of the extension:

- `EmlakConfig` (`emlak_config.dfy`): resolving the Emlak API base address (`resolveEmlakBaseUrl`).
- `FieldMapper` (`field_mapper.dfy`): turning a scraped record into the DTO sent to the API.
  - price parsing, coordinate and id extraction, the city / district / neighbourhood split;
  - `mapToPropertyDto`.
- `Submission` (`submission.dfy`): the endpoints the background worker tries when it sends a listing (`postSinglePropertyToEmlak`).
  - the failure report built when every endpoint fails;
  - the per-origin CORS rule (`ensureCorsBypassForBase`);
  - the login loop (`emlakLogin`).
- `Openness` (`openness.dfy`): the openness estimator.
  - the zone verdict (`analyzeZoneResults`);
  - the Overpass retry schedule over five endpoints (`queryOverpass`);
  - the per-direction results (`calculateOpenness`).
- `GeminiClient` (`gemini_client.dfy`): the Gemini client. It covers:
  - redacting the record, splitting the criteria into important and other lines, and building the summary request (`generateSummaryWithGeminiStateless`, the version bound as `generateSummaryWithGemini`);
  - the `fetch` wrapper that compacts every outgoing request;
  - reading reply text (`extractTextFromGeminiResponse`);
  - classifying a call (`callGemini`) and the retry with a tweaked token budget (`callGeminiWithFallback`);
  - error formatting (`formatGeminiError`) and the API-key test (`testGeminiAPI`).
- `NotesCache` (`notes_cache.dfy`): the notes cache of the listing-page content script, held in the class `NoteStore`.
  - loading from local storage and writing to it;
  - the listing id of a result row and whether the row shows the note star;
  - queued saves and their server answers;
  - the pull merge in which the newer-or-equal note wins.
- `JsText` (`js_text.dfy`) and `Wrappers` (`wrappers.dfy`) are shared helpers:
  - the JavaScript string operations the source relies on (`trim` with ECMAScript's white-space set, `split`, `join`, digit runs, regular-expression case folding, `toUpperCase`);
  - an `Option` type.

Every network exchange is a parameter: a script of outcomes.
- The n-th request receives the n-th outcome.
- A request past the end of the script fails the way an unreachable host does (`Failed to fetch`).
- What each operation promises is stated for every such script.

JavaScript's absent or falsy strings are modelled as `""`, and an absent number as `None` or `0`, as each case needs. Timestamps are whole numbers.

Where the code and its own comments or names disagree, the model follows the code:
- Price text. The comment at chrome-extension/background.js:171 speaks of a "decimal comma → dot" step. The step before it (:169) already turns every comma into a space, so no comma is left to convert. "1.250,50 ₺" therefore parses to 1250, and every parsed price is a whole number (`FieldMapper.ParsePriceDecimalComma`).
- Back-off. The Overpass back-off doubles every five attempts (`attempt / ENDPOINTS.length`), while the endpoint changes every three (`maxAttemptsPerEndpoint`).
- Retries. The comment at chrome-extension/opennesAPI.js:158 says other HTTP errors are not retried. The `throw` after it (:159) is caught by the `catch` of the same `try` (:160), so every non-ok Overpass status is retried, not only 429 and 5xx.
- Login address. `emlakLogin` defaults to port 8080 and does not trim its address. The shared resolver defaults to 8084 and trims.

## Model

| member | source | states |
|---|---|---|
| JsText.Trim | chrome-extension/emlakConfig.js:6 | `trim` yields a text no longer than the input with no white space at either end; it is empty exactly when the input is all white space |
| JsText.TrimKeepsChars | chrome-extension/emlakConfig.js:6 | every character of the trimmed text comes from the input |
| JsText.TrimDef | chrome-extension/emlakConfig.js:6 | trimming is trimming the start, then the end |
| JsText.TrimIdempotent | chrome-extension/emlakConfig.js:6 | trimming twice is trimming once |
| JsText.FirstDigitRun | extension/contentScript.js:100 | `match(/\d+/)` is the first maximal run of digits; it is empty exactly when the text holds no digit |
| JsText.FirstDelimitedDigitsSpec | extension/contentScript.js:105 | the first `/<digits>` followed by one of the stop characters or the end is found, and it is missing exactly when no position matches |
| JsText.NatToStringRoundTrip | chrome-extension/opennesAPI.js:81 | the decimal text of a number reads back as that number |
| JsText.JoinTruthyEmpty | chrome-extension/geminiClient.js:587-588 | `filter(Boolean).join(sep)` is empty exactly when every item is empty |
| JsText.UpperIsToUpper | chrome-extension/geminiClient.js:427 | comparing `toUpperCase()` with a text is the character-wise comparison |
| EmlakConfig.StripTrailingSlash | chrome-extension/emlakConfig.js:7 | `replace(/\/$/, '')` removes exactly one final '/' when there is one and changes nothing otherwise |
| EmlakConfig.ResolveBaseUrl | chrome-extension/emlakConfig.js:4-11 | the result is the trimmed value, or the default when the value is empty, less at most one trailing slash; it is one shorter exactly when the trimmed text ends in '/' |
| EmlakConfig.ResolveDefault | chrome-extension/emlakConfig.js:2-7 | an empty value and the default both resolve to `http://localhost:8084` |
| EmlakConfig.ResolveStripsOneSlash | chrome-extension/emlakConfig.js:7 | only one of two trailing slashes goes |
| EmlakConfig.ResolveIgnoresSurroundingSpace | chrome-extension/emlakConfig.js:6 | any white space, of any length, before and after a non-blank value leaves the result that of the value alone |
| EmlakConfig.ResolveBlankIsEmpty | chrome-extension/emlakConfig.js:6-7 | a blank value is truthy, so it does not fall back to the default and resolves to "" |
| FieldMapper.NumberAt | chrome-extension/background.js:174 | `-?\d+(?:\.\d+)?` matches at the start of a text exactly when it starts with a digit or a '-' and a digit; the match is well formed |
| FieldMapper.NumberAtText | chrome-extension/background.js:174 | the matched lexeme is a prefix of the text |
| FieldMapper.NumberAtOf | chrome-extension/background.js:174 | a written number followed by a stopping character is matched back as itself |
| FieldMapper.FirstNumberIff | chrome-extension/background.js:174-175 | some number is matched exactly when the text holds a digit |
| FieldMapper.FirstNumberMarks | chrome-extension/background.js:174 | a matched number has a sign only when the text has a '-', and a fraction only when it has a '.' |
| FieldMapper.CleanPriceChars | chrome-extension/background.js:168-173 | the cleaned price text holds no '.'; each of its non-space characters comes from the input, and it keeps every digit of the input |
| FieldMapper.ParsePrice | chrome-extension/background.js:165-177 | `parsePriceToNumber` gives null exactly when the price text holds no digit, including the empty text |
| FieldMapper.ParsePriceIsWhole | chrome-extension/background.js:165-177 | every parsed price is a whole number, and it is negative only when the text has a '-' |
| FieldMapper.ParsePriceThousands | chrome-extension/background.js:169-176 | "a.b" with digit groups a and b parses to the number ab: the dot is a thousands separator |
| FieldMapper.ParsePriceDecimalComma | chrome-extension/background.js:169-176 | "a.b,c" parses to ab: the decimal part after a comma is dropped |
| FieldMapper.CleanThousands | chrome-extension/background.js:168-173 | cleaning "a.b" gives the digits ab |
| FieldMapper.CleanDecimalComma | chrome-extension/background.js:168-173 | cleaning "a.b,c" gives "ab c" |
| FieldMapper.ParseCoords | chrome-extension/background.js:180-191 | latitude and longitude are both present or both missing |
| FieldMapper.ParseCoordsSpec | chrome-extension/background.js:183-187 | coordinates are found exactly when some position of the map link holds `maps?q=<number>,<number>`, and the first such position is the one read |
| FieldMapper.CoordsRoundTrip | chrome-extension/background.js:180-188 | a link `maps?q=x,y` built from two written numbers parses back to their values |
| FieldMapper.ExtractIdFromUrl | chrome-extension/background.js:193-201 | the id taken from a URL is empty or all digits |
| FieldMapper.ExtractIdTrailing | chrome-extension/background.js:197-198 | a link ending in `-<digits>`, optionally followed by a query, yields those digits |
| FieldMapper.ExtractIdNeedsEndOrQuery | chrome-extension/background.js:197 | a link with no '?' that does not end in a digit yields no id |
| FieldMapper.TrimmedNonEmptyAppend | chrome-extension/background.js:205 | `map(trim).filter(Boolean)` works piece by piece: the kept pieces of a + b are those of a followed by those of b, so order is kept |
| FieldMapper.TrimmedNonEmptyOne | chrome-extension/background.js:205 | a single piece is dropped when blank and kept, trimmed, otherwise |
| FieldMapper.LocationSegments | chrome-extension/background.js:205 | the segments are the kept pieces of splitting on '/', each a non-empty trimmed word with no '/' |
| FieldMapper.SplitCityDistrict | chrome-extension/background.js:203-211 | the shape of the result: city and district hold no '/'; an empty city means an empty district, and an empty district an empty neighbourhood; empty text gives three empty fields |
| FieldMapper.SplitCityDistrictSpec | chrome-extension/background.js:203-211 | for any text, as the '/'-free pieces between its slashes: blank pieces are dropped and the others trimmed; the city is the first kept piece, the district the second (else ""), and the neighbourhood the rest joined with " / " (else "") |
| FieldMapper.SplitCityDistrictSkipsBlank | chrome-extension/background.js:205-208 | "A / / B" gives city A, district B and no neighbourhood |
| FieldMapper.SplitCityDistrictCityOnly | chrome-extension/background.js:205-208 | a single name is the city, with empty district and neighbourhood |
| FieldMapper.SplitCityDistrictFour | chrome-extension/background.js:205-209 | "a / b / c / d" gives neighbourhood "c / d" |
| FieldMapper.SplitCityDistrictRoundTrip | chrome-extension/background.js:203-211 | "city / district / neighbourhood" splits back into its three words |
| FieldMapper.ListingId | chrome-extension/background.js:217 | the listing id is "" exactly when "İlan No" and "ID" are blank and the URL yields no id; otherwise it is a trimmed word |
| FieldMapper.MapToPropertyDto | chrome-extension/background.js:213-254 | each DTO field comes from its record field: the id is ListingId (null when ""), the price is ParsePrice of "Fiyat", the coordinates ParseCoords of "Harita", the location text "İl / İlçe" else "Konum" and city, district and neighbourhood its SplitCityDistrict, the title "İlan Başlığı" else "Baslik", the contact "Agent Adı" else "İletişim"; source "sahibinden", the time of the call and the record itself; latitude and longitude come together, and a price is present exactly when its text holds a digit |
| FieldMapper.DtoIdNoneIff | chrome-extension/background.js:217-232 | the DTO id is null exactly when no source of an id yields one |
| FieldMapper.DtoIdPrecedence | chrome-extension/background.js:193-217 | a non-blank "İlan No" wins, trimmed; otherwise a non-blank "ID", trimmed; otherwise the digits the URL yields, when it yields some |
| FieldMapper.DtoIdIsListingId | chrome-extension/background.js:217-232 | the DTO's id is null exactly when the listing id is "", and is that id otherwise |
| FieldMapper.DtoIdStable | chrome-extension/background.js:217-232 | the id depends only on "İlan No", "ID" and "URL", not on the scrape time or other fields |
| FieldMapper.DtoIdFromUrl | chrome-extension/background.js:197-217 | a record holding only a detail URL `…/daire-1234?x=1` gets the id "1234" |
| Submission.Run | chrome-extension/background.js:291-302 | one attempt is appended to the log with its scripted outcome; the log stays a chain that follows the script, and the last network error is tracked |
| Submission.TryFirstPaths | chrome-extension/background.js:305-313 | after the first POST, and after the second path when the first gave 404, 405 or no response, the chain asks next for a POST to the third path, or for nothing after an ok response |
| Submission.TryPath | chrome-extension/background.js:314-333 | each later path is tried only after a failure, with a PUT after a 405; after an ok response nothing is sent |
| Submission.PostSingleProperty | chrome-extension/background.js:257-359 | without a JWT nothing is sent and the result is `no_jwt`; otherwise the requests form a complete chain over the script, and the result is success exactly when the last response was ok, else the last status and the failure message |
| Submission.NextRequest | chrome-extension/background.js:304-333 | the fallback rule: a POST to the first path exactly when nothing was sent yet; a PUT only to the path whose POST was just answered 405 |
| Submission.Settle | chrome-extension/background.js:335-358 | a finished chain reports success exactly when its last response was ok; otherwise it reports the last status, none exactly when the last request got no response, and a message starting "Emlak send failed " |
| Submission.ChainAt | chrome-extension/background.js:304-333 | every attempt of a chain is the one the fallback rule asks for after the attempts before it |
| Submission.NextRankGrows | chrome-extension/background.js:304-333 | the rule only moves forward through the fixed order of requests, and only after a failed attempt |
| Submission.ChainOrdered | chrome-extension/background.js:304-333 | the requests of a chain come in the fixed order, with no request repeated |
| Submission.ChainAtMostNine | chrome-extension/background.js:304-333 | at most nine requests are made |
| Submission.ChainStopsAtOk | chrome-extension/background.js:306-328 | no request follows an ok response |
| Submission.ChainPutAfter405 | chrome-extension/background.js:309-331 | a PUT comes only right after a POST to the same path that was answered 405 |
| Submission.ChainSecondPath | chrome-extension/background.js:306 | the second path is tried only when the first gave 404, 405 or no response |
| Submission.ChainFailureReachesLastPath | chrome-extension/background.js:328-335 | a chain that ends in failure has reached the last path |
| Submission.ChainUnique | chrome-extension/background.js:304-333 | a script determines the complete chain: there is only one |
| Submission.ChainPrefix | chrome-extension/background.js:304-333 | two chains over the same script agree on their common prefix |
| Submission.FollowsAt | chrome-extension/background.js:291-295 | the i-th attempt received the i-th scripted outcome |
| Submission.ChainExample | chrome-extension/background.js:305-308 | a 404 on the first path and 201 on the second is a complete chain that succeeds |
| Submission.FailureTail | chrome-extension/background.js:336-351 | the tail of the failure report is the last body (a problem document flattened) cut to 500 characters, or else the last network error |
| Submission.FailureMessageDiagnostics | chrome-extension/background.js:294-352 | the failure message ends with the attempts marker (" ", a bar, " attempts: ") and one `METHOD path -> status` or `-> error: message` line per attempt, joined by " ; " in the order the attempts were made; one more attempt appends exactly its own line |
| Submission.UntitledProblemText | chrome-extension/background.js:341-346 | a problem document without a title but with field errors reads "Validation error [" followed by the field texts joined by ", " and "]" |
| Submission.ValidationReportExample | chrome-extension/background.js:341-346 | a validation problem is shown as "Validation error [field: message, …]", a missing message falling back to the error code and a missing one printing "undefined" |
| Submission.EscapeRegex | chrome-extension/background.js:128 | the result is well escaped: every backslash is followed by one of `.*+?^${}()\|[]\`, and none of those stands bare; it is never shorter than the origin |
| Submission.WellEscapedIsEscape | chrome-extension/background.js:128 | a well-escaped text is the escaping of what it reads back as, so escaping puts a backslash before exactly the special characters |
| Submission.EscapeRegexRoundTrip | chrome-extension/background.js:128 | escaping loses nothing and adds exactly one backslash per special character |
| Submission.OriginHashIsPolyMod | chrome-extension/background.js:132-133 | the running `(h * 31 + code) >>> 0` hash equals the polynomial hash of the origin modulo 2^32 |
| Submission.RuleId | chrome-extension/background.js:127-134 | the rule id is 10000 plus the origin's hash modulo 40000, so it lies in 10000..49999 |
| Submission.LoginStepOf | chrome-extension/background.js:388-412 | one login request succeeds only with a non-empty token, and it carries the base address |
| Submission.EmlakLogin | chrome-extension/background.js:362-415 | the login loop gives the result of the path-by-path rule and makes one or two requests |
| Submission.LoginSuccess | chrome-extension/background.js:390-401 | a successful login holds a non-empty token from an ok response and the resolved base address |
| Submission.LoginSecondPathOnlyAfter | chrome-extension/background.js:402-412 | the second path is tried only after a network error, a 404, 405 or 401, or an ok JSON `null` body on the first |
| Submission.LoginFailsFast | chrome-extension/background.js:405-409 | any other failing status stops at once with "HTTP status", and the body cut to 300 characters |
| Submission.TokenPrecedence | chrome-extension/background.js:396 | the token is `id_token`, else `token`, else `jwt` |
| Submission.LoginExhausted | chrome-extension/background.js:386-414 | when both paths are passed over, the result is the last error, or the default message when that is empty |
| Submission.LoginBaseUntrimmed | chrome-extension/background.js:363 | login drops one trailing slash but does not trim, and defaults to port 8080 |
| Openness.FindOpenFeature | chrome-extension/opennesAPI.js:53-55 | the first park, parking or grass element, if any; there is none exactly when no element is one |
| Openness.Buildings | chrome-extension/opennesAPI.js:64 | exactly the elements with a `building` tag are kept |
| Openness.ParseIntLeading | chrome-extension/opennesAPI.js:73 | `parseInt` skips leading white space and reads the leading digits |
| Openness.ParseIntRoundTrip | chrome-extension/opennesAPI.js:73 | `parseInt` of a written integer is that integer |
| Openness.DeclaredLevels | chrome-extension/opennesAPI.js:72-73 | the declared level count of each building, in order |
| Openness.MaxLevelsSpec | chrome-extension/opennesAPI.js:63-78 | the running maximum bounds every declared level, and is 0 or one of them |
| Openness.ZoneVerdict | chrome-extension/opennesAPI.js:45-87 | a zone is never Error, and it is not Open only when it holds a building |
| Openness.AnalyzeThrowsIff | chrome-extension/opennesAPI.js:46-54 | the classifier throws exactly for a `null` body, or for a `null` element with no open feature before it |
| Openness.AnalyzeZoneResults | chrome-extension/opennesAPI.js:45-87 | the loop computes the zone verdict |
| Openness.MaxLevelsAbove | chrome-extension/opennesAPI.js:71-80 | the maximum exceeds n exactly when some building declares more than n levels |
| Openness.ZoneOpenIff | chrome-extension/opennesAPI.js:45-69 | a zone is Open exactly when it is empty, has an open feature or has no building |
| Openness.ZoneOpenReason | chrome-extension/opennesAPI.js:48-59 | an empty zone reads "Empty Lot", a zone with an open feature names the first such feature |
| Openness.ZoneByHeight | chrome-extension/opennesAPI.js:80-86 | with buildings and no open feature: more than two floors blocks, one or two is low-rise, no known height blocks |
| Openness.FinalMessage | chrome-extension/opennesAPI.js:174 | the final error message is never empty |
| Openness.BaseDelayMonotone | chrome-extension/opennesAPI.js:146-163 | the back-off never shrinks from one attempt to the next |
| Openness.FirstSuccess | chrome-extension/opennesAPI.js:116-138 | the first successful attempt, with every earlier one failed |
| Openness.OverpassResult | chrome-extension/opennesAPI.js:95-175 | the query resolves exactly when one of the fifteen attempts succeeds; otherwise it rejects with the last attempt's error |
| Openness.QueryOverpass | chrome-extension/opennesAPI.js:95-175 | the loop gives that result and makes exactly the attempts described next |
| Openness.PlannedUpToSpec | chrome-extension/opennesAPI.js:116-168 | the first n planned attempts are n, each on its endpoint, verb and back-off |
| Openness.AttemptsMadeSpec | chrome-extension/opennesAPI.js:95-175 | one to fifteen attempts; they stop at the first success and are all fifteen when each fails; the result is fetched exactly when the last attempt succeeded |
| Openness.EndpointStep | chrome-extension/opennesAPI.js:117-169 | the endpoint index is `attempt / 3`, stays within the five endpoints, and steps after every third attempt |
| Openness.ClientErrorRetried | chrome-extension/opennesAPI.js:158-171 | a client-error status is retried too, and a later success is returned |
| Openness.OpennessResults | chrome-extension/opennesAPI.js:8-38 | the result has exactly the directions asked for as keys |
| Openness.DirectionVerdict | chrome-extension/opennesAPI.js:15-34 | a direction's entry is Error exactly when the direction is unknown, its query fails, or the classifier throws on the answer |
| Openness.CalculateOpenness | chrome-extension/opennesAPI.js:8-38 | the loop gives those results for the selected directions, or all four by default |
| Openness.OpennessEntry | chrome-extension/opennesAPI.js:15-34 | each direction's entry is its verdict, the last occurrence of a repeated direction winning |
| Openness.UnknownDirection | chrome-extension/opennesAPI.js:215-246 | a direction not among the four gets an Error entry with the TypeError of the missing corner |
| Openness.FailedDirection | chrome-extension/opennesAPI.js:27-34 | a direction whose attempts all fail gets an Error entry with the final message |
| Openness.DefaultDirections | chrome-extension/opennesAPI.js:9-10 | with no or an empty selection, all four directions are answered |
| GeminiClient.Cut | chrome-extension/geminiClient.js:732-733 | a string over the limit is cut to the limit plus '…'; a shorter one is kept |
| GeminiClient.CutCut | chrome-extension/geminiClient.js:725-733 | cutting to a larger limit and then a smaller one is cutting to the smaller |
| GeminiClient.CutThenLarger | chrome-extension/geminiClient.js:725-733 | cutting to a smaller limit and then a larger one changes nothing more |
| GeminiClient.Redacted | chrome-extension/geminiClient.js:723-736 | the redacted record has the record's keys except "Image Data" |
| GeminiClient.Redact | chrome-extension/geminiClient.js:723-736 | the loop computes the redacted record |
| GeminiClient.RedactedBounds | chrome-extension/geminiClient.js:728-736 | each string field is cut to 400 or 600 characters plus '…', a short one is kept, and other values are untouched |
| GeminiClient.DescriptionCapIsSubsumed | chrome-extension/geminiClient.js:725-727 | the 2000-character cap on the description is overridden by the 600 limit |
| GeminiClient.RedactedIdempotent | chrome-extension/geminiClient.js:723-736 | redacting twice is redacting once |
| GeminiClient.ImportantPrefixSpec | chrome-extension/geminiClient.js:738 | a line is important exactly when `^\s*Önemli\s*:` matches it (white space, "Önemli" in any case, white space, a colon), and the prefix found is that whole match |
| GeminiClient.ImportantOrder | chrome-extension/geminiClient.js:738 | important lines keep their order |
| GeminiClient.NormalOrder | chrome-extension/geminiClient.js:739 | the other lines keep their order |
| GeminiClient.PartitionCount | chrome-extension/geminiClient.js:738-739 | every line is either important or other, never both |
| GeminiClient.PartitionTrimmed | chrome-extension/geminiClient.js:738-739 | both lists hold trimmed lines |
| GeminiClient.Compacted | chrome-extension/geminiClient.js:678-689 | the wrapper keeps only the allowed keys |
| GeminiClient.CompactRecord | chrome-extension/geminiClient.js:678-691 | the loop computes the compacted record |
| GeminiClient.CompactedIdempotent | chrome-extension/geminiClient.js:678-691 | compacting twice is compacting once |
| GeminiClient.SentRecord | chrome-extension/geminiClient.js:678-736 | the record that leaves the browser holds the allowed keys except "Image Data", each string cut to 600 (description), 300 (surroundings) or 120 characters |
| GeminiClient.CompactParts | chrome-extension/geminiClient.js:664-695 | parts are only dropped or rewritten, never added |
| GeminiClient.Wire | chrome-extension/geminiClient.js:641-709 | a request with a system instruction goes out without it and without stop sequences, with a budget of 1024 tokens; any other request goes out unchanged |
| GeminiClient.SanitizeRequest | chrome-extension/geminiClient.js:641-709 | the wrapper's loop computes the request that is sent |
| GeminiClient.CompactPartsAppend | chrome-extension/geminiClient.js:664-695 | compacting works part by part |
| GeminiClient.KeptText | chrome-extension/geminiClient.js:664-670 | a text that starts with neither "Diğer" nor "Örnek biçem:" is kept |
| GeminiClient.CompactPart | chrome-extension/geminiClient.js:664-695 | a single part is dropped, has its record compacted, or is kept |
| GeminiClient.OtherCriteriaDropped | chrome-extension/geminiClient.js:668-755 | the "Diğer: …" criteria part never reaches the model |
| GeminiClient.SummaryTailSent | chrome-extension/geminiClient.js:671-758 | the record heading is kept and the record is compacted |
| GeminiClient.CriteriaPartsSent | chrome-extension/geminiClient.js:664-755 | of the criteria, the heading and the important line are sent |
| GeminiClient.SummaryPartsSent | chrome-extension/geminiClient.js:660-758 | the user parts sent are the compacted parts plus the brevity hint |
| GeminiClient.WireOfSummary | chrome-extension/geminiClient.js:641-763 | the summary request that leaves the browser holds the sent parts, a budget of 1024 and no stop sequences |
| GeminiClient.CollectCandidate | chrome-extension/geminiClient.js:498-514 | the loop collects a candidate's non-blank texts in order |
| GeminiClient.ExtractText | chrome-extension/geminiClient.js:493-520 | the loop computes the reply text |
| GeminiClient.ResponseText | chrome-extension/geminiClient.js:493-520 | the reply text is always trimmed, and "" for a falsy body |
| GeminiClient.ResponseTextEmptyIff | chrome-extension/geminiClient.js:493-520 | the reply text is empty exactly when there is no body, or no non-blank text and no non-blank `output_text`; it is always trimmed |
| GeminiClient.Classify | chrome-extension/geminiClient.js:462-491 | text comes only from an ok status and is trimmed and non-empty; an error carries the response status, or none for a thrown error |
| GeminiClient.ClassifySpec | chrome-extension/geminiClient.js:462-491 | a call yields text exactly on an ok status with non-empty text; an ok reply without text is the error "Empty response text" with its status, body, parsed reply, first finishReason and blockReason; a failing status keeps the status and the body; a thrown error keeps only its message |
| GeminiClient.EmptyReplyTweakable | chrome-extension/geminiClient.js:426-433 | a 200 reply without text is always retried with the tweak, and takes the MAX_TOKENS budget exactly when its first candidate's finishReason is MAX_TOKENS in any case |
| GeminiClient.CallGemini | chrome-extension/geminiClient.js:462-491 | the call is classified by that rule |
| GeminiClient.NewBudgetBounds | chrome-extension/geminiClient.js:433 | after MAX_TOKENS the budget is doubled into 256..512; after an empty reply it is at most 100 and never raised |
| GeminiClient.DefaultBudget | chrome-extension/geminiClient.js:431-433 | with no budget set, the retries ask for 256 or 100 tokens |
| GeminiClient.Tweak | chrome-extension/geminiClient.js:429-441 | the tweaked request keeps the system part and the number of contents, and asks for the new token budget |
| GeminiClient.TweakHint | chrome-extension/geminiClient.js:436-441 | the tweak appends the brevity hint to the last content's parts and leaves the others alone |
| GeminiClient.Retries | chrome-extension/geminiClient.js:425-457 | after a failed first call: a tweaked retry when the reply was empty or hit MAX_TOKENS, then a plain retry on 429 or 5xx |
| GeminiClient.Answer | chrome-extension/geminiClient.js:774-779 | the summary text is empty exactly when the call failed, and trimmed otherwise |
| GeminiClient.FollowSpec | chrome-extension/geminiClient.js:415-460 | following a plan of calls sends a prefix of it, yields the last call's outcome, stops at the first success, and sends all of it when every call fails |
| GeminiClient.Fallback | chrome-extension/geminiClient.js:415-460 | one to three calls, the first with the body as given, and the result is the last call's classification |
| GeminiClient.FallbackSpec | chrome-extension/geminiClient.js:415-460 | one to three calls, the first with the body as given; the result is the last call's; a first success returns at once; a third call comes only after the tweaked one failed; a failure means every planned retry was made |
| GeminiClient.CallGeminiWithFallback | chrome-extension/geminiClient.js:415-460 | the calls made and the result are those of following the plan of the first call and its retries |
| GeminiClient.RetryAfter | chrome-extension/geminiClient.js:425-459 | after a failed first call, the calls follow the plan of that call and its retries |
| GeminiClient.GenerateSummary | chrome-extension/geminiClient.js:715-784 | without a key, criteria or record the summary is "" and nothing is sent; otherwise the request is the summary body of the redacted record, and the summary is the last call's text or "" on failure |
| GeminiClient.AskForText | chrome-extension/geminiClient.js:774-779 | the calls are those of the fallback plan for the body; the text is the last call's answer, "" exactly when that call failed |
| GeminiClient.FormatGeminiError | chrome-extension/geminiClient.js:577-589 | an error with a status is shown starting "HTTP <status>" |
| GeminiClient.MessageParts | chrome-extension/geminiClient.js:580-586 | the message starts with `message`, else the JSON error message, else the body cut to 200; block and finish reasons follow |
| GeminiClient.FormatEmptyIff | chrome-extension/geminiClient.js:577-589 | the formatted error is empty exactly when it has no status, message, block or finish reason |
| GeminiClient.FormatThrown | chrome-extension/geminiClient.js:488-589 | a thrown error is shown as its message alone |
| GeminiClient.FormatHttpFailure | chrome-extension/geminiClient.js:472-589 | a failing status with an unparsable body is shown as "HTTP status - body" |
| GeminiClient.StripRuns | chrome-extension/geminiClient.js:566 | the result is an infix of the text with only quotes before and after it and no quote at either end: exactly the leading and trailing quote runs are removed |
| GeminiClient.NormalizeGreeting | chrome-extension/geminiClient.js:564-573 | the test reply becomes exactly "Merhaba.", or it is left as a non-empty text that does not mention merhaba |
| GeminiClient.GreetingFound | chrome-extension/geminiClient.js:568-570 | a reply mentioning merhaba in any case becomes "Merhaba." |
| GeminiClient.GreetingKept | chrome-extension/geminiClient.js:564-574 | a reply with nothing left after trimming and unquoting becomes "Merhaba."; one that does not mention merhaba comes back unquoted and otherwise unchanged |
| GeminiClient.GreetingUnquoted | chrome-extension/geminiClient.js:564-574 | a double-quoted reply that does not greet is reported as the text inside the quotes |
| GeminiClient.TestVerdict | chrome-extension/geminiClient.js:559-574 | the test succeeds exactly when the call gave text |
| GeminiClient.TestGeminiApi | chrome-extension/geminiClient.js:547-575 | without a key it fails with "API anahtarı girilmemiş." and sends nothing; otherwise it sends the test body and judges the last call |
| GeminiClient.SendTest | chrome-extension/geminiClient.js:549-574 | the calls are those of the fallback plan for the test body, and the verdict is that of the last call |
| GeminiClient.TestRetryBudget | chrome-extension/geminiClient.js:431-551 | the test's MAX_TOKENS retry asks for 256 tokens, its empty-reply retry keeps 8 |
| NotesCache.NoteKey | extension/contentScript.js:60-76 | a note's storage key is "note:" followed by the id |
| NotesCache.NoteKeyInjective | extension/contentScript.js:60-66 | distinct listings have distinct keys |
| NotesCache.LegacyNoteReplaced | extension/contentScript.js:58-72 | a note stored as a plain string loads with its text, no timestamp and version 0, so any pulled item for it replaces it and its next save carries version 0 |
| NotesCache.LoadedRoundTrip | extension/contentScript.js:58-80 | storing every cached note under its key with its listing indexed, then loading, gives the cache back |
| NotesCache.LoadedAfterWrite | extension/contentScript.js:75-80 | writing one note changes what a reload yields for that listing only |
| NotesCache.GetAdId | extension/contentScript.js:94-109 | `data-id` wins; otherwise the id is digits from the `id` attribute or the link |
| NotesCache.GetAdIdNone | extension/contentScript.js:94-109 | a row has no id exactly when it has no `data-id`, no digit in `id` and no `/<digits>` segment in its link |
| NotesCache.HasNote | extension/contentScript.js:87 | a row shows the star exactly when its listing's note is not blank |
| NotesCache.MergeFrame | extension/contentScript.js:182-189 | the pull adds exactly the listings its items name and leaves every other entry as it was |
| NotesCache.MergeNeverOlder | extension/contentScript.js:184 | a pull never moves a timestamped note back in time |
| NotesCache.MergeNewest | extension/contentScript.js:182-189 | after a pull, a listing's entry is its cached entry or one of the items for it, and is at least as new as the cached entry and as every item for that listing |
| NotesCache.NoteStore.constructor | extension/contentScript.js:42-43 | the script starts with an empty cache and queue over what storage holds; the cache is already consistent with storage when storage holds no indexed note |
| NotesCache.NoteStore.GetAllNotesLocal | extension/contentScript.js:58-73 | the loop loads the notes storage holds |
| NotesCache.NoteStore.Bootstrap | extension/contentScript.js:52-55 | after start-up the cache is what a reload gives |
| NotesCache.NoteStore.SetNoteLocal | extension/contentScript.js:75-80 | the listing is indexed and its note stored |
| NotesCache.NoteStore.QueueSave | extension/contentScript.js:120-124 | the latest text for a listing replaces any pending save |
| NotesCache.NoteStore.OnNoteChanged | extension/contentScript.js:112-118 | the edited note, stamped now, keeps its version, is stored, and its save queued; the cache still matches storage |
| NotesCache.NoteStore.FlushSave | extension/contentScript.js:127-164 | with nothing pending it sends nothing and changes nothing; otherwise the pending save is sent with the cached version; a 409 or ok JSON answer replaces the note by the server's; anything else keeps the local note; the pending save is gone afterwards |
| NotesCache.NoteStore.BeginSave | extension/contentScript.js:127-145 | the request carries the pending text and time and the cached version, 0 when there is none; nothing is sent without a pending save; nothing changes |
| NotesCache.NoteStore.FinishSaveAsWritten | extension/contentScript.js:147-163 | as written: an accepted answer replaces the cached and stored note, and the pending save is dropped whatever it now holds |
| NotesCache.NoteStore.FinishSave | extension/contentScript.js:147-163 | corrected: the answer is applied and the pending save dropped only while the queue still holds the save that was sent; a save queued by a later edit stays, with its note |
| NotesCache.LostEditAsWritten | extension/contentScript.js:112-163 | an edit made while its listing's save is in flight is lost: nothing stays queued and the cache holds the server's copy of the earlier text |
| NotesCache.EditKeptCorrected | extension/contentScript.js:112-163 | with the corrected second half, the same edit stays in the cache and its save stays queued |
| NotesCache.NoteStore.MergeItem | extension/contentScript.js:183-188 | one item is merged into the cache and storage |
| NotesCache.NoteStore.PullFromServer | extension/contentScript.js:171-195 | the request asks for changes since the last sync; an ok JSON answer merges the items in order and records the server time, or now; any failure changes nothing |

## Left out

- DOM access, the note editor UI, star rendering, hover tracking, mutation observers and `renderNoteIfVisible`: these concern the page, not the data. A row is given by its `data-id`, `id` and link `href`.
- The page scraper (`scrapeDetailInPage`) and the message listeners are left out. They are DOM and runtime messaging.
- The search polygon (`getSearchPolygon`) and the Overpass query text are left out. They are floating-point geometry. Only the throw for an unknown direction is modelled.
- Timers, debounce, jitter and sleeps are left out. The base back-off is modelled; the random jitter is not.
- NotesCache.NoteStore: each handler runs to completion before the next starts; interleavings are not modelled, except an edit between the two halves of `flushSave` (`BeginSave`, before the `PUT` is awaited, and `FinishSave`, after it). Two races follow from the `await`s in the source. An edit while a save is in flight is lost (see "## Findings"). `setNoteLocal` is called without `await` (extension/contentScript.js:115), so two overlapping read-modify-writes of `noteIndex` can drop an index entry; that second race is not modelled.
- NotesCache.NoteStore: the handlers require the cache to agree with storage, which `Bootstrap` establishes and the constructor establishes only when storage holds no indexed note; an edit made while the asynchronous bootstrap (extension/contentScript.js:52-55) is still loading a non-empty storage is not covered, because that bootstrap then overwrites the cache with the stored notes.
- `chrome.storage` reads of the JWT, the notes token and the Emlak address become parameters or are left out. The JWT is a parameter. The notes token only goes in a header.
- `chrome.declarativeNetRequest.updateDynamicRules` is not modelled; only the rule id and the regular-expression filter are.
- `JSON.parse` and `JSON.stringify` are replaced by datatypes: a body is given already parsed, or as unparsable.
  - The summary's record is a structured part, not a JSON text. The wrapper's test for a text that starts with '{' and ends with '}' is therefore read as "this is the record part".
  - The wrapper's per-part `try` is not modelled. A string part that happens to look like JSON is not recognised.
  - A JSON `null` is modelled where the source reads through it: the Overpass body and its elements (`Openness.Analyze`) and the login reply. A `null` pull body is the unparsable case, since reading its `items` throws into the same `catch`. A `null` answer to a note save is not modelled.
- Dates are whole numbers. The notes cache compares them as numbers; an item without a timestamp never replaces a timestamped note, as an invalid `Date` compares. Server time strings are not parsed.
- JavaScript strings count UTF-16 code units; the model counts Unicode scalar values. The two differ only for characters outside the Basic Multilingual Plane.
- JavaScript numbers are doubles. Prices and coordinates are exact rationals here, and a float's rounding and `Number.isFinite` are not modelled.
- The Gemini request's `safetySettings`, the system-prompt wording and the model URL are left out. They are constants that do not steer any branch.
- `buildPromptPreview` and the `__lastGeminiPrompt` / `__lastGeminiError` diagnostics are left out. They only record what was sent.
- `listGeminiModels` and `server/server.js` are not part of this model.
- The first copy of the Gemini summary (geminiClient.js lines 1-307 and 323-413) is not modelled. It is replaced at line 787 by the stateless version, which is modelled.
- The URL test of the fetch wrapper (`generativelanguage.googleapis.com`) is left out: every Gemini call goes to that host.
- The "Unknown Gemini error" default of `callGeminiWithFallback` is left out: it cannot be reached, since a failed first call always sets the last error.
- The `try`/`catch` around steps that cannot throw on the modelled inputs is not modelled. This covers the tweak's deep copy and the redaction loop.
- GeminiClient.Retries: states the count and the first and last entries rather than the list. A tweaked body can equal the original, so the retry list is not an if-and-only-if of the two conditions.
- The listing body (`mapToPropertyDto`) and the login credentials are the same in every request and steer no branch. They are not parameters of `Submission.PostSingleProperty` and `Submission.EmlakLogin`. The Emlak address read from storage only enters the rule id, which is modelled on its own.
- The DTO's `scrapedAt` time is a parameter of `FieldMapper.MapToPropertyDto`.

## Findings

| source | as written | input that shows it | evidently intended | confidence | as-written member | corrected member |
|---|---|---|---|---|---|---|
| extension/contentScript.js:127-163 | `flushSave` reads the pending save, awaits the `PUT`, writes the server's note over the cache on an ok or 409 answer, and in `finally` deletes whatever save is queued for the listing and clears its timer | edit "first" at time 1; the save of "first" is sent; edit "second" at time 2 while the `PUT` is in flight; the server answers 200 with its copy of "first" | an edit made during the request stays in the cache and its own save stays queued; `NotesCache.EditKeptCorrected` runs the same input through the corrected half | not executed; high (the scenario is proved for the model) | NotesCache.LostEditAsWritten | NotesCache.NoteStore.FinishSave |
