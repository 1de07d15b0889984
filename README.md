# A verified model of the go-example HTTP request client and observer registry

This project models three parts of the Go repository in Dafny and proves properties about them.

- **The request option record** (`pkg/request/options.go`). An `options` record holds the timeout, a header map, a context, a content length where -1 means "unset", an endpoint URL, and a TPS token, rate and burst. Functional options update the record in place. The Dafny class `RequestOptions.Options` is the record. `Config` is its value at one moment. `OptionFunc` has one variant per closure that the `With...` constructors return. `ApplyOption` and `ApplyAll` specify what applying options does.
- **The client and its results** (`request/request.go`). `HTTPClient.Request` clones the base options and applies the per-call options to the clone. It then makes its decisions: drop the body, resolve the target, pick the context, flatten the headers, override the content length, and call the limiter. Then it calls the transport. Some calls go to libraries: `url.Parse` of the target, `ResolveReference`, `http.NewRequestWithContext`, the header-key canonicalisation inside `Header.Add`, and `client.Do`. These are the function values of a `Foreign` record, so the model fixes no particular behaviour for them. The rate limiter is a `TPSLimiter` object that records the calls it receives. `Response` is a class with `GetResponse`, `CheckHTTPResponse` and `GetRSCloser`, and each of these returns early when `Err` is already set. `NopRSCloser` is a datatype, because its Go methods have value receivers. It holds a `Body` (bytes plus a read cursor) and a shared `RscStatus` object, so a change made through any copy of the adapter shows through every other copy.
- **The observer registry** (`pkg/pattern/observer/base.go`, `sync.go`). `BaseEventBus` holds a map from topic to a set of observer ids, and `Subscribe`/`Unsubscribe` update it in place. `SyncEventBus.Publish` calls every subscriber of the event's topic and collects the failures into a map. Each observer's `OnChange` result is given as a function from observer id to an optional error.

Integer types: Go's `int64` and `time.Duration` are the `Int64` subset type. The `float64` rate is a `real`, and the source only compares it with 0. Strings are `seq<char>`. Body bytes and the text that `GetResponse` returns are `seq<Byte>`.

Modules: `Base` (base.dfy), `RequestOptions` (options.dfy), `Request` (request.dfy), `Observer` (observer.dfy), `SyncObserver` (sync.dfy).

## Model

| member | source | states |
|---|---|---|
| RequestOptions.Options.constructor | pkg/request/options.go:33-40 | the defaults are a 30 s timeout, an empty header map, content length -1, the background context, no endpoint and tps 0 |
| RequestOptions.Options.Clone | pkg/request/options.go:42-46 | the result is a fresh record with the same value in every field, so later writes to either record, header map included, cannot reach the other |
| RequestOptions.Options.Apply | pkg/request/options.go:48-110 | applying an option changes the record exactly as `ApplyOption` says, and nothing else |
| RequestOptions.Options.ApplyEach | request/request.go:51-53 | options are applied in order, left to right |
| RequestOptions.MergeHeaders | pkg/request/options.go:63-69 | every key of the given header ends up with the given values, existing values for those keys are overwritten, and all other keys are kept unchanged |
| RequestOptions.DeleteHeaders | pkg/request/options.go:72-79 | no listed name remains, repeated and absent names do no harm, and every other key keeps its values |
| RequestOptions.EndpointText | pkg/request/options.go:89-92 | the string handed to the parser ends in "/", begins with the endpoint, and is the endpoint itself when that already ends in "/" |
| RequestOptions.EndpointTextIdempotent | pkg/request/options.go:89-92 | normalising the endpoint twice gives the same string as normalising it once |
| RequestOptions.WithEndpoint | pkg/request/options.go:88-98 | the option stores the URL when parsing succeeds and the nil URL when it fails, and the parse error is not reported |
| RequestOptions.OptionFrame | pkg/request/options.go:48-110 | each option writes only its own field and leaves every other field unchanged |
| RequestOptions.UntouchedFieldKept | pkg/request/options.go:48-110 | a field that no option in a sequence writes keeps its value through the whole sequence |
| RequestOptions.ApplyAllConcat | request/request.go:51-53 | applying a ++ b equals applying a and then b |
| RequestOptions.ScalarOverwrites | pkg/request/options.go:49-60 | a scalar option's field afterwards does not depend on the record it was applied to |
| RequestOptions.LastWriteWins | pkg/request/options.go:49-60 | the last option in a sequence that writes a scalar field decides that field's final value |
| RequestOptions.ApplyOptionIdempotent | pkg/request/options.go:48-110 | applying any option twice in a row, header merge and delete included, is the same as applying it once |
| RequestOptions.BurstAtLeastOne | pkg/request/options.go:101-110 | after any WithTPSLimit option has been applied, the burst is at least 1 |
| RequestOptions.HeaderThenWithout | pkg/request/options.go:63-79 | WithHeader followed by WithoutHeader leaves every removed name absent and keeps the merged names that were not removed |
| Request.HTTPClient.constructor | request/request.go:32-43 | NewClient starts from the defaults and applies its options in order |
| Request.HTTPClient.Request | request/request.go:45-110 | the base options are not changed, and the rest of the call is `Performed` on the base options with the call's options applied in order |
| Request.HTTPClient.Perform | request/request.go:57-109 | a target parse failure or a request construction failure returns only that error, and neither the limiter nor the transport is called. Otherwise the transport gets the resolved URL, the chosen context, no body when the content length is 0, the header built by `Added` over one iteration order of the option headers, a content length override only when it is not -1, and the timeout. The limiter is called exactly once when tps > 0 and never otherwise. The result holds either the transport's error or its response, never both |
| Request.AddHeaders | request/request.go:89-93 | the header is what adding each option key's values, joined with a space, under the key's canonical name leaves, taking the keys one at a time in an iteration order that lists every key exactly once; so each key adds exactly one value under its canonical name, and each name holds each value exactly as many times as keys with that value map to it |
| Request.AddedIsAddedOnce | request/request.go:89-93 | adding the keys of any duplicate-free order gives each processed key's value once under its canonical name; each name holds one value per key that maps to it, each value exactly as many times as keys with that value map to it, and only values of those keys |
| Request.HeadersAddedOnce | request/request.go:89-93 | whatever order the map is iterated in, every option header key adds exactly one value under its canonical name: each name holds each value as many times as keys with that value map to it, and no other names or values appear |
| Request.AddedOnceInjective | request/request.go:89-93 | when no two keys share a canonical name, each name holds exactly the one joined value of its key |
| Request.EffectiveBody | request/request.go:58-61 | the body is dropped when the effective content length is 0 and is passed through unchanged otherwise |
| Request.ResolveTarget | request/request.go:63-72 | without an endpoint the target is used as given; with one, a target parse error short-circuits and a parsed target is resolved against the endpoint |
| Request.RequestContext | request/request.go:79-83 | the request is built with the option's context, or with the background context when that is nil, so it never has a nil context |
| Request.ContentLengthOverride | request/request.go:95-97 | req.ContentLength is overridden exactly when the option's content length is not -1, and then with that value |
| Request.TPSLimiter.Limit | request/request.go:99-101 | a Limit call is recorded with its context, token, rate and burst |
| Request.LimitCalls | request/request.go:99-101 | a request that reaches the limiter makes one Limit call, with the option's context, token, rate and burst, when tps > 0 and none otherwise |
| Request.ReadStep | request/request.go:179 | a body read returns the next min(n, remaining) bytes and advances the cursor by that many; at the end it returns no bytes and io.EOF, or the body's read error |
| Request.Body.Read | request/request.go:179 | a delegated read returns the bytes and error that `ReadStep` gives and moves the cursor to match |
| Request.Body.ReadAll | request/request.go:117 | ioutil.ReadAll calls Read until the first error and returns every unread byte, with no error at io.EOF and with the body's read error otherwise; the cursor ends at the end of the body |
| Request.Response.GetResponse | request/request.go:113-121 | if Err is set, returns "" and that error and leaves the body alone; otherwise returns the whole remaining body and the read error, and closes the body; the body's bytes are not changed |
| Request.Response.CheckHTTPResponse | request/request.go:124-134 | returns the same Response. An existing Err is kept. A status mismatch sets Err to a mismatch error carrying the actual code. A match leaves Err unset. The result stays attached in every case |
| Request.Response.GetRSCloser | request/request.go:150-161 | if Err is set, returns no adapter and that error; otherwise returns an adapter over the body with a fresh status whose flag is false and whose size is the response's content length |
| Request.NopRSCloser.SetFirstFakeChunk | request/request.go:165-167 | sets the shared flag and leaves the size unchanged |
| Request.NopRSCloser.SetContentLength | request/request.go:170-172 | sets the shared size and leaves the flag unchanged |
| Request.NopRSCloser.Read | request/request.go:175-180 | while the flag is set, a 512-byte read returns no bytes and io.EOF, leaves the body untouched and keeps the flag set; every other read is the body's read |
| Request.NopRSCloser.Close | request/request.go:183-185 | closes the body |
| Request.NopRSCloser.Seek | request/request.go:188-202 | every seek clears the flag, even one that then fails; the result is `SeekOutcome` of the shared size |
| Request.SeekOutcome | request/request.go:193-201 | only offset 0 succeeds, and only from the start (result 0) or from the end (result the declared size); every other pair fails with "not implemented", and so does every seek from the current position |
| Request.ProbeThenServe | request/request.go:163-202 | a flag set through a copy of the adapter is seen through the original; a 512-byte sniffing read returns nothing; a seek to the end returns the size; after the seeks, the next 512-byte read is served from the body |
| Observer.Subscribed | pkg/pattern/observer/base.go:61-69 | after Subscribe the observer is in the topic's set, the topic's earlier observers remain, and every other topic is unchanged |
| Observer.Unsubscribed | pkg/pattern/observer/base.go:71-75 | after Unsubscribe the observer is not in the topic's set and the topic's other observers remain; no topic key is added or removed, and every other topic is unchanged |
| Observer.SubscribeIdempotent | pkg/pattern/observer/base.go:61-69 | subscribing twice gives the same registry as subscribing once |
| Observer.UnsubscribeAbsentIsNoop | pkg/pattern/observer/base.go:71-75 | unsubscribing from an unknown topic, or an observer that is not subscribed, changes nothing |
| Observer.UnsubscribeAfterSubscribe | pkg/pattern/observer/base.go:61-75 | Unsubscribe undoes Subscribe on the topic's set, but the topic key stays, possibly with an empty set |
| Observer.BaseEventBus.constructor | pkg/pattern/observer/base.go:55-59 | a new bus has no topics |
| Observer.BaseEventBus.Subscribe | pkg/pattern/observer/base.go:61-69 | updates the registry in place as `Subscribed` says, creating the topic's set when it is missing |
| Observer.BaseEventBus.Unsubscribe | pkg/pattern/observer/base.go:71-75 | updates the registry in place as `Unsubscribed` says |
| SyncObserver.SyncEventBus.constructor | pkg/pattern/observer/sync.go:12-16 | a new synchronous bus embeds an empty base bus |
| SyncObserver.SyncEventBus.Publish | pkg/pattern/observer/sync.go:18-29 | calls OnChange exactly once on each subscriber of the topic and on no one else, and calls all of them even after failures, so a topic with no subscribers gets no calls; the error map holds exactly the observers that failed, each with its error; the registry is only read |
| SyncObserver.PublishToFour | pkg/pattern/observer/sync_test.go:8-24 | four subscribers that all succeed produce an empty error map |

## Left out

- Network I/O, timeouts and context cancellation. `client.Do`, `http.NewRequest(WithContext)`, `url.Parse` of the target, `ResolveReference` (section 5.2 of RFC 3986) and header-key canonicalisation are function values of `Foreign`. `url.Parse` of the endpoint is the `parse` argument of `WithEndpoint`, since the option is built before any client exists. Nothing in the model requires the two to be the same function. Their behaviour is not modelled. The timeout is only passed on to the transport.
- The TPS limiter's token bucket, its blocking and its process-wide registry keyed by token. `TPSLimiter` only records the calls made to it, so the model captures that `Limit` is called iff tps > 0, and with which arguments.
- The `sync.Mutex` in `HTTPClient` and the `sync.RWMutex` in `BaseEventBus`. They only serialise concurrent callers, and the model is sequential.
- The timing tests (the two-call TPS test and the real-network request test). They depend on real time and a real server.
- `BaseObserver.OnChange` and `SyncEventBus.handleErr`, which only print. `Publish` returns the error map it would hand to `handleErr`. `BaseEventBus.Publish`, which only panics.
- `util/io.go` (filesystem helpers), which is not part of this model.
- Request.HTTPClient.Request: the `options.header != nil` guard has no modelled counterpart. The header map starts non-nil and `clone` keeps it non-nil, so the guard never fails here.
- Go map iteration order: the order in which `AddHeaders` visits the option header keys is a ghost result of the call, and any order that lists every key once is allowed. The values under a canonical name shared by several keys therefore come in an order that the model leaves open.
- Request.Body.Read: a read on a closed body is not treated as an error. Closing is recorded as a flag only.
- Request.ReadStep: the response body is an in-memory reader that fills each read as far as it can and reports its error only after the last byte. A transport's body may return short reads, or bytes together with an error. `ReadAll` and the `NopRSCloser` pass-through do not depend on the chunk sizes.
- Request.Response.GetResponse: the text is the body's bytes. No character decoding is involved, since a Go string holds bytes.
- Observers are ids. `OnChange` is given as its outcome for the published event, and the order of calls (Go map iteration order) is left open.
