# parlance client core, modelled in Dafny

This project models the core of the HTTPS client of *parlance*, a command-line
tool that pages through a social network's time-series API. The core lives in
`src/client.js` and has three parts:

- **The paged-fetch loop** (`_paged_request`). It validates the optional start
  and end keys and calls the emitter's `start()`. Then it repeatedly calls the
  request callback with the current key, retries failures up to a limit,
  reduces each response to a batch, emits the batch with its `is_first` and
  `is_last` flags, and advances the key to the response's `next`. It stops on
  an empty page, a `last` flag, a cursor that did not move forward, or a
  reached end key. Its graceful tail clears the page-size suppression, calls
  `finish()` and resets the start key.
- **Reference expansion** (`_reparent`, `_reparent_one`, `_reparent_all`). It
  builds an id → record table from a sibling array keyed by `id || _id`. Then
  it replaces each enabled field (`creator`, `parent`, `root`, `links`) of each
  post, in place, by the record its id names, or an array of ids by the array
  of records.
- **Request helpers**: the `page_size` getter and setter with their override,
  the query string and URL of `_paged_request_one`, and the `Referrer` header
  built by `_create_extra_headers`.

## Layout

| file | module | contents |
|---|---|---|
| `wrappers.dfy` | `Wrappers` | `Option`, `Result` |
| `json.dfy` | `JsonValues` | JavaScript values: truthiness, `typeof … === 'object'`, property reads and writes, the string a value becomes as an object key |
| `paging.dfy` | `Paging` | the loop as functions: `Setup`, `KeyCheck`, `Step`, `Loop`, `Tail`, `Run` |
| `paging_properties.dfy` | `PagingProperties` | what the loop promises, as lemmas about `Run` |
| `expansion.dfy` | `Expansion` | reference expansion as functions, the in-place table and id-array loops, and lemmas |
| `requests.dfy` | `Requests` | page size, query string, URL, extra headers |
| `client.dfy` | `Client` | the `Client` class: its fields, the `PagedRequest` loop, the in-place reparenting methods |

The outside world is a parameter. The request callback is a script of outcomes,
one per call: it throws (`Failed`) or returns a page. A page is already
reduced: its result batch plus the record's `last` and `next`. The emitter is a
script of replies to `start()`, to the i-th `emit()` and to `finish()`. The
time-series key module is a record of three functions: `parse_extended`, which
may fail, `unparse_extended` and `compare_extended`. Every run yields an
explicit `Outcome` (`Done`, `Fatal(fault)`, or `Unfinished` when the script ran
out) together with the trace of every interaction in order.

The imperative parts stay imperative. `Client.Client.PagedRequest` is the
`for (;;)` loop over the source's local variables, proved equal to
`Paging.Run`. `Client.Client.Reparent` and `Expansion.ResolveIds` overwrite
array elements in place and are proved equal to the `Expansion` functions,
including the partly expanded state left behind when an id is dangling.

A dangling reference is not fatal to the paged loop. `_reparent_one` throws
for an id missing from the table (src/client.js:460 and :470). The endpoint
callbacks call `_reparent_all` inside the request callback
(src/client.js:509-510), so that error is caught by the retry handler
(src/client.js:266-279). It therefore counts as one failed request, which is
retried. In the model this is the `Failed` outcome of the script.

## Model

| member | source | states |
|---|---|---|
| PagingProperties.RangeKeyValidation | src/client.js:233-243 | the whole call fails as malformed exactly when a given (truthy) start or end key does not parse, and then it has touched neither the emitter nor the request callback |
| PagingProperties.FalsyRangeKeysIgnored | src/client.js:234-239 | an empty start or end key makes the whole call behave exactly as a null one |
| PagingProperties.StartBeforeFetch | src/client.js:249-251 | the call fails with the start fault exactly when the keys parse and `start()` is refused; a refused `start()` means no request and no emit |
| PagingProperties.FirstRequestUsesFirstKey | src/client.js:234-236 | the first request after `start()` uses the start key parsed and re-serialised as a start marker, or null when no start key is given |
| PagingProperties.StepShape | src/client.js:256-340 | one iteration makes exactly one request, with `next_key`, then backs off or emits the batch with `is_first_page` and `record.last`; a continuing emit resets the error count, clears `is_first_page` and takes `record.next` as key |
| PagingProperties.LoopRetryCeiling | src/client.js:266-279 | at any point of the loop, with e failures already counted, the next L-e failures are retried on the same key and the one after them is fatal, whatever the rest of the script holds |
| PagingProperties.EmptyPageStops | src/client.js:285-288 | an empty batch stops the loop without an emit and runs the graceful tail |
| PagingProperties.RefusedEmitIsFatal | src/client.js:296-298 | an emit the sink refuses is fatal, right after that emit |
| PagingProperties.CorruptNextIsFatal | src/client.js:305-308 | a `next` key that does not parse is fatal after the emit, even on a page flagged last |
| PagingProperties.KeyCheckContinues | src/client.js:312-329 | with a previous key, the loop continues exactly when both keys parse, the cursor strictly advanced and the end key, if any, lies beyond the new key |
| PagingProperties.CursorStopAfterEmit | src/client.js:312-340 | a non-advancing cursor or a reached end key stops the loop after the page was emitted with its own flags; no further request is made |
| PagingProperties.FirstPageIgnoresEndKey | src/client.js:312-329 | with no previous key the end key is never consulted: only the parse of `next` matters |
| PagingProperties.RetriesBelowCeiling | src/client.js:264-279 | up to L consecutive failures each add a request and a backoff with the same key and raise the error count by one |
| PagingProperties.RetryCeiling | src/client.js:266-279 | with limit L, L+1 consecutive failures from the start are fatal, after exactly L retries on the same key, and nothing is emitted |
| PagingProperties.RetriesThenPage | src/client.js:264-298 | after at most L failures, a non-empty page is requested with the same key and emitted as the first page |
| PagingProperties.RetryFaultNeedsConsecutiveFailures | src/client.js:266-279 | a retry-limit failure implies the script holds L+1 consecutive failures |
| PagingProperties.RetriesHaveNoEmit | src/client.js:266-279 | retried failures emit nothing |
| PagingProperties.LoopExtendsTrace | src/client.js:256-341 | the loop only appends interactions, and its first iteration's events come first |
| PagingProperties.RunFirstFlags | src/client.js:224 | over a whole run, an emit carries `is_first` exactly when no emit came before it |
| PagingProperties.RunLastEmitEndsRun | src/client.js:291-293 | once an emit carries `is_last`, nothing but `finish()` follows |
| PagingProperties.RunSinkProtocol | src/client.js:249-251 | `start()` comes first and once; `finish()` comes at most once, last, and exactly on a graceful exit; a malformed key touches nothing |
| PagingProperties.RunRequestCount | src/client.js:264 | each scripted outcome serves exactly one request; the run is unfinished only when the script is used up |
| PagingProperties.LoopOverPages | src/client.js:256-341 | over a well-formed page stream, the loop emits page after page with the threaded keys and then runs the tail |
| PagingProperties.WellFormedPagesEmitAll | src/client.js:217-354 | a well-formed page stream is emitted page by page in order, each request threading the previous `next`, `is_first` only on the first emit, `is_last` only from `record.last`, then `finish()` once |
| Client.ConfiguredRetryCeiling | src/client.js:27 | with the limit set from the option (`retry_limit \|\| 10`), exactly n failures are retried on the same key and the next is fatal with nothing emitted: n is a positive option, 0 for a negative one, and 10 when the option is absent or 0 |
| Client.Client.constructor | src/client.js:27-39 | the retry limit, expand-fields table, page-size override, `ignore_last` and domain defaults |
| Client.Client.SetStartKey | src/client.js:75-78 | a falsy start key is stored as null |
| Client.Client.SetEndKey | src/client.js:89-92 | a falsy end key is stored as null |
| Client.Client.SetPageSize | src/client.js:138-151 | the setter is a no-op while an override is set and ignores a value that is not positive; reading back gives the override or the new value |
| Client.Client.TemporarilyDisablePageSize | src/client.js:200-204 | the suppression flag is set |
| Client.Client.PagedUrl | src/client.js:372-385 | the URL starts with the base path and gains `?qs` exactly when the callback part is non-empty, page size is not suppressed, or a start key is given |
| Client.Client.ExtraHeaders | src/client.js:176-194 | the object's extra headers: `Accept-Language` is `en-us`, and a missing argument gives `https://` and the object's domain as Referrer |
| Client.Client.PagedRequest | src/client.js:217-354 | the loop computes exactly `Paging.Run` on the object's settings; the suppression flag is cleared on every exit that reaches the tail, and the start key is reset only after a successful `finish()` |
| Requests.ReadingAfterSetters | src/client.js:131-151 | after any sequence of setter calls the getter reads the override when one is set, else the last positive value given, else the starting value |
| Requests.SetterReadBack | src/client.js:131-151 | reading after setting gives the override, else the requested value if positive, else the old reading |
| Requests.SetterIdempotent | src/client.js:138-151 | setting the same value twice equals setting it once |
| Requests.SetterKeepsPositive | src/client.js:144-148 | the setter never stores a value that is not positive |
| Requests.SizeText | src/client.js:376 | the limit text is `undefined` exactly when no page size was ever set, and otherwise decimal text that reads back as the page size |
| Requests.QueryString | src/client.js:372-382 | the callback part is a prefix; the query string is empty exactly when that part is empty, the limit is suppressed and there is no start key |
| Requests.StartKeyParameter | src/client.js:379-381 | `&startkey=` and the encoded key are appended last exactly when the start key is truthy; otherwise the query is as without a key |
| Requests.DefaultQuery | src/client.js:366-370 | the default URL callback gives an `id=` part exactly when the profile's `_id` is truthy, and nothing for a missing profile |
| Requests.RequestUrl | src/client.js:384-386 | the URL is unchanged exactly when the query string is empty; otherwise it is the URL, `?` and the query string |
| Requests.LimitParameter | src/client.js:375-377 | `&limit=` with the page size follows the callback part when page size is not suppressed; when it is suppressed the page size is not consulted and nothing follows the callback part but the start key |
| Requests.OverrideFixesLimit | src/client.js:131-151 | with an override, the limit parameter is the override whatever the setter was given |
| Requests.ExtraHeaders | src/client.js:178-191 | `Accept-Language` is `en-us`; a missing argument gives the site root as Referrer; the Referrer starts with the caller's referrer or the site root and is exactly that base when none of username, id and tag is truthy |
| Requests.ReferrerPrecedence | src/client.js:182-191 | the Referrer starts with the caller's referrer or the site root; username beats id beats tag; the bare base is used exactly when none is truthy |
| Requests.AsWrittenDiffers | src/client.js:176-194 | the code as written throws exactly on a null or undefined argument and agrees with the intended function otherwise |
| Expansion.LastRef | src/client.js:411-417 | the reference table's meaning: the last record stored under a key, a member of the references |
| Expansion.FirstUnusable | src/client.js:411-414 | the index of the first reference that is not a non-null object |
| Expansion.BuildFromSpec | src/client.js:411-417 | the table loop from any index fails on the first unusable reference, else agrees with `LastRef` |
| Expansion.RefHashSpec | src/client.js:411-417 | the table fails exactly on the first reference that is not a non-null object, naming its index; otherwise each key maps to the last record with that `id \|\| _id` |
| Expansion.RefHashOkIff | src/client.js:411-414 | the table is built exactly when every reference is a non-null object |
| Expansion.ResolveInBuiltTable | src/client.js:445-469 | a lookup in a built table finds the last record with the id's key and fails exactly when none has it |
| Expansion.BuildRefHash | src/client.js:411-417 | the loop builds exactly the specified table |
| Expansion.ResolveIdsFrom | src/client.js:449-458 | the array keeps its length; a failure is a dangling id |
| Expansion.FirstDangling | src/client.js:449-458 | the index of the first id that does not resolve |
| Expansion.ResolveIdsSpec | src/client.js:449-458 | an array of ids keeps length and order; each element before the first dangling id is replaced by its record, the rest are untouched, and the dangling id is reported |
| Expansion.ResolveIds | src/client.js:449-458 | the in-place loop leaves the array as specified, partly replaced on a dangling id |
| Expansion.FirstFailingTarget | src/client.js:420-428 | the index of the first target that is not of object type or whose expansion fails |
| Expansion.ReparentFromSpec | src/client.js:420-428 | the targets loop from index i: earlier targets untouched, targets before the first failing one replaced by their expanded form, that one left as far as it got and naming the failure, later ones untouched; no failure exactly when none fails |
| Expansion.ReparentSpec | src/client.js:406-432 | a bad reference fails before any target is touched; otherwise targets are expanded in order up to the first failing one, which names the failure; a pass without failure expands every target, each of object type, without failure |
| Expansion.OneKeyPass | src/client.js:425-427 | a pass over a single key applies `_reparent_one` for that key |
| Expansion.FieldFrame | src/client.js:435-475 | one field: only that field can change, only when enabled, and the target keeps its shape |
| Expansion.KeysFrame | src/client.js:425-427 | the fields of one target: fields not expanded are untouched |
| Expansion.FromFrame | src/client.js:420-429 | over the targets: shapes kept, fields not expanded untouched, targets before the start untouched |
| Expansion.ReparentFrame | src/client.js:406-432 | a pass keeps the number and order of the targets, their shapes, and every field it does not expand |
| Expansion.DisabledKeysChangeNothing | src/client.js:438-441 | with no field enabled, no target changes |
| Expansion.DisabledKeysSkip | src/client.js:438-441 | with no field enabled, one target is skipped without failure |
| Expansion.TargetCheck | src/client.js:420-424 | a pass succeeds only when every target is of object type; a non-object-target failure names its index |
| Expansion.KeysFailureKinds | src/client.js:444-471 | a failure inside one target is a null target or a dangling id |
| Expansion.EnabledFieldSpec | src/client.js:444-471 | an enabled field with a falsy value is left as it is; a single id becomes its record or is reported dangling with the target unchanged; an array of ids is expanded element by element |
| Expansion.ReparentAllFrame | src/client.js:479-497 | `_reparent_all` changes only `posts`, keeps their number, and leaves a payload without a posts array as it was |
| Expansion.ReparentAllPostFrame | src/client.js:479-497 | within the posts only `creator`, `parent`, `root` and `links` can change; every post keeps its shape and all other fields |
| Expansion.ReparentAllSpec | src/client.js:479-497 | without failure, all three tables were built and each post had `creator` expanded from `users`, then `parent` and `root` from `postRefs`, then `links` from `urls` |
| Expansion.CreatorPass | src/client.js:406-432 | the `creator` pass replaces a user id by the user record, and reports a dangling id with no users |
| Expansion.DisabledPasses | src/client.js:479-497 | the `parent`/`root` and `links` passes change nothing when those fields are not enabled |
| Expansion.CreatorExample | src/client.js:479-497 | a post with `creator: "u1"` and a user with `_id: "u1"` yields the post with the full user; with no users the id is dangling |
| Client.Client.ReparentOne | src/client.js:435-475 | for a target of object type, the target in its array becomes its expanded form in place, also after a failure part-way through an array field |
| Client.Client.Reparent | src/client.js:406-432 | in place, the targets become exactly what `Expansion.Reparent` specifies, as far as they got on a failure |
| Client.Client.ReparentAll | src/client.js:479-497 | the three passes compute exactly `Expansion.ReparentAll` |

## Left out

- HTTP transport (`bent`, `_create_client`, `request(url)`, `response.json()`): foreign I/O; the request callback is a script of outcomes instead.
- Rate limiting and the session (`Ratelimit.wait`, `.headers`, `Session.set_headers`): their files are not part of this model; the retry backoff appears as a `Backoff` event.
- The time-series key module `./iso8601x` is not part of this model: parse, re-serialise and compare are parameters, with no grammar and no ordering laws assumed.
- Paging.Cursors: only `parse_extended` can fail. The model's `unparse` and `compare` always return, whereas in the source a throw from `unparse_extended` (src/client.js:236) becomes the malformed-key error and a throw from `compare_extended` (src/client.js:316, :324) becomes the corrupt-key error. A `record.next` that is null and one that is absent are both `None`; the loop's `prev_key != null` test treats them alike too.
- The endpoint wrappers (`_request_*`, `print_*`, `_paged_generic_print`) and the single-request endpoints (`write_post`, `follow`, `profile`, `_request_generic`, …): URL and parameter configuration around the modelled core. The reflective `this[_fn_name]` dispatch becomes the explicit script.
- The `!_request_callback` check (src/client.js:245-247): the callback is always given as the script, so that error cannot arise.
- The reduce callback: each scripted page is already reduced to its batch.
- `encodeURIComponent` is an uninterpreted function `enc`; integers are rendered by `IntText`, which it would leave unchanged.
- `parseInt` text parsing: the page-size option and the setter's argument are taken after `parseInt`, with `NaN` as `None`.
- Logging through `_io`, `async`/`await` scheduling and concurrency: no behaviour to verify.
- Floating-point numbers: `Json` numbers are integers.
- Paging.Run: the real loop runs forever only when the request callback keeps returning pages that continue it, with or without failures in between (failures with no accepted page between them end at the retry limit); the model stops with `Unfinished` when the script is used up.
- Paging.LastFlag: `record.last == true` is loose equality in JavaScript (`1` and `"1"` also match); the model's `last` is an optional boolean.
- Expansion.Resolve: the table is a plain object, so lookups of inherited names such as `constructor` find prototype members, and storing under `__proto__` changes the prototype; the model's table is a map with none of these.
- Expansion.Elements: an array-like object with a `length` field is iterated by the source; the model iterates only arrays and strings.
- Requests.ReferrerBase: a truthy non-string `referrer` with no suffix stays a non-string header value in the source; the model renders it as a string.
- Expansion.ReparentAll: values are immutable here, so sharing of one array or record between two places of a payload is not modelled; parsed JSON has none.

## Findings

| source | as written | input that shows it | evidently intended | confidence | as-written member | corrected member |
|---|---|---|---|---|---|---|
| src/client.js:182 | the `Referrer` default reads `_args.referrer`, the raw argument, although the line above made `args = (_args \|\| {})` | `_create_extra_headers(undefined)`, as `_paged_request_one` does for a missing profile (src/client.js:363): a TypeError | read `args.referrer`, so a missing argument gives `https://<domain>` | not executed | Requests.ExtraHeadersAsWritten (shown by Requests.AsWrittenDiffers) | Requests.ExtraHeaders (Requests.ReferrerPrecedence, Requests.AsWrittenDiffers) |
