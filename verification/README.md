# S3Proxy4GCS: verified model

A Dafny 4.11 model of the S3 to GCS proxy, with proofs about its translators, its tagging protocol,
its credential handling and its request accounting. `dafny verify dfyconfig.toml` checks everything.

The proxy answers S3 control-plane requests by translating them to the GCS SDK and forwards
data-plane requests after re-signing them with the client's own GCS HMAC pair. Its hard parts, and the files that
model them:

| files | what |
|---|---|
| `CivilDate.dfy` | the date parser and printer behind lifecycle dates |
| `LifecycleModel.dfy`, `LifecycleTranslate.dfy` | the two S3 to GCS lifecycle translators and the one back: loops as methods, proved against functions on rule lists |
| `LifecycleLaws.dfy`, `LifecycleMeaning.dfy`, `LifecycleRoundTrip.dfy` | laws of the translations: composition and rejection, agreement of the two translators, what rules do to objects, round trips |
| `TaggingTranslate.dfy`, `TaggingProtocol.dfy`, `TaggingHandlers.dfy` | object tags: the patch, the optimistic-concurrency protocol over any interleaving, the handlers themselves |
| `CredStore.dfy`, `CredWatcher.dfy`, `CredGate.dfy` | the credential store, its hot reload, and the gate every request passes |
| `Text.dfy`, `QueryScan.dfy` | the hand-written scanners of query strings and of the SigV4 header |
| `CorsTranslate.dfy` | CORS rules, the in-place header deduplication, 64-bit durations |
| `MetricsMiddleware.dfy` | the status-capturing writer and the metrics, with panics |
| `Dispatcher.dfy` | request dispatch by feature flags, and the metrics label of the same request |

## How it is modelled

* A Go string is a `string` whose characters stand for bytes; only in the credential store, which asks
  for white space, do they stand for runes (strings are otherwise compared whole there). Pointers are `Option`; Go's `int` and
  `int64`, which the modelled code mostly copies and compares with zero, are `int`. Where width matters
  (`time.Duration`) wrap-around is explicit.
* Loops over slices and maps are methods with invariants. A map loop picks any remaining key, so the
  proofs hold for every iteration order. Conditions filled in through a pointer, the store, the
  response writer and the shared header array are mutable objects.
* Concurrency is a transition system: a run is any list of actions, and an action that cannot happen
  leaves the state alone, so a lemma about all lists is about all interleavings.
* XML and JSON decoding, the clock and the GCS service are outside. JSON decoding is a function
  parameter. Of GCS only three facts are used: an accepted metadata write adds one to the
  metageneration, a conditional update is atomic, and a context patch deletes and sets the keys it
  names, an empty one clearing them all.

## Results worth knowing

* **Tagging is linearizable.** Each Put or Delete reads, computes a patch and updates on an unchanged
  metageneration. Over every interleaving with other requests and outside writers, the object's
  contexts are the replay of the accepted writes as atomic "replace all tags" and "clear" operations,
  every client is told the truth about its own write, each request takes effect in one step between its
  arrival and its answer, later requests come later in the order, reads included, and no update is lost.
* **Lifecycle meaning** is preserved exactly for actions that have a day count and at most one prefix.
  The code itself is kept where it does not: an expiration without days (for instance one that only
  asks for expired delete markers) becomes a Delete of everything its filter matches, at any age
  (`LifecycleMeaning.MarkerOnlyExpirationDeletesAll`), and two prefixes become alternatives.
* **Round trips** GCS to S3 to GCS are the identity exactly on canonical rules, and what came from S3
  is canonical exactly under a condition on the S3 rules.
* **Hot reload converges**, in a bounded number of steps once writes stop, and never lets an invalid
  payload in; the watcher loop itself is shown to do what these runs do. Therefore a request that passed
  the first emptiness check can never reach the silent return of `validateClientCredential`. The comment
  on that function says its caller may fall back to the legacy pair; the caller does not, and
  `CredGate.GateSafe` shows the Director's legacy branch never signs anything under a configuration that
  starts.
* **Metrics** count the status the client gets exactly when the handler opens well
  (`MetricsMiddleware.CountedIsEffective`). They do not behind an informational (1xx) header, where the
  writer also suppresses the later, final header (`MetricsMiddleware.MiddlewareTransparent`); behind a
  header with an impossible code, which makes net/http panic after the recorder has stored it; and behind
  an early flush, which sends the client a 200 that the recorder does not notice, when another header or
  a panic comes next.
* **Label and dispatch.** The dispatcher compares query keys without case and after unescaping and skips
  segments it cannot parse, the metrics label compares them literally. They agree exactly when the first
  family the parser finds also stands in the query as it is and no family before it stands in a segment
  the parser drops (`Dispatcher.LabelMatchesDispatch`). So they disagree on a key in other letters
  (`Dispatcher.OtherSpellingMislabelled`) and on a badly escaped key before another
  (`Dispatcher.DroppedKeyMislabelled`).

## Model

| member | source | states |
|---|---|---|
| CivilDate.ParseFormattedTimestamp | pkg/translate/gcs_lifecycle.go:168-172 | a printed timestamp of any instant of years 0000-9999 parses back to its calendar date, whatever the time of day |
| CivilDate.ParsesIffPrinted | pkg/translate/gcs_lifecycle.go:157-172 | a string parses to a date exactly when it starts with the print of that date: no other spelling and no impossible day is accepted, and whatever follows is ignored |
| CivilDate.CalendarDates | pkg/translate/gcs_lifecycle.go:169-172 | the dates there are, month lengths and leap years included (RFC 3339, section 5.7 and Appendix C) |
| CivilDate.TimestampText | pkg/translate/gcs_lifecycle.go:320 | a timestamp byte by byte: date, time of day to the millisecond, cut and not rounded |
| LifecycleTranslate.ApplySdkFilter | pkg/translate/gcs_lifecycle.go:274-284 | the condition behind the pointer gains exactly the filter's non-empty prefixes, in order, and nothing else changes |
| LifecycleTranslate.ApplyRuleFilter | pkg/translate/gcs_lifecycle.go:108-138 | same for the older translator, which reports the first unsupported part of the filter, possibly after writing a prefix |
| LifecycleTranslate.TranslateS3ToGcsLifecycle | pkg/translate/gcs_lifecycle.go:176-271 | the nested loops with early returns compute the rule-by-rule translation that the laws below are about |
| LifecycleTranslate.TranslateS3ToGcs | pkg/translate/gcs_lifecycle.go:40-106 | the older loops, with the filter tested per emitted rule, compute the JSON translation |
| LifecycleTranslate.TranslateGcsToS3Lifecycle | pkg/translate/gcs_lifecycle.go:287-351 | the loop back computes one S3 rule per GCS rule, numbered from zero |
| LifecycleLaws.TranslateConcat | pkg/translate/gcs_lifecycle.go:179-268 | translating a concatenation is translating the parts in order, the first failure deciding |
| LifecycleLaws.DisabledRuleErased | pkg/translate/gcs_lifecycle.go:180-182 | a rule that is not enabled can be erased anywhere, even one that could not be translated |
| LifecycleLaws.TranslateFailsIffRejected | pkg/translate/gcs_lifecycle.go:184-241 | translation fails exactly when some enabled rule has a size or tag filter or a date that does not start with a calendar date; the first such rule decides the error |
| LifecycleLaws.RejectionReason | pkg/translate/gcs_lifecycle.go:184-241 | within a rule the filter is reported first, by the first of four tests that applies, then the expiration date, then the first bad transition date, quoting it |
| LifecycleLaws.TranslatorsAgree | pkg/translate/gcs_lifecycle.go:40-106 | where the SDK translator succeeds the older one does, and its rules read as SDK rules are the SDK rules without the aborts; and exactly what more the older one accepts |
| LifecycleLaws.JsonDates | pkg/translate/gcs_lifecycle.go:157-162 | every date the older translator emits is a prefix of one it was given, ten bytes long unless that is shorter |
| LifecycleMeaning.AcceptedFilterIsPrefixes | pkg/translate/gcs_lifecycle.go:184-200 | a filter that is not rejected matches, under the full S3 semantics with tags and sizes, exactly the objects with all its prefixes |
| LifecycleMeaning.ActionMeaningExact | pkg/translate/gcs_lifecycle.go:202-241 | an undated action and the rule emitted for it agree on all live objects if and only if it has a day count and the filter names at most one prefix |
| LifecycleMeaning.MeaningPreserved | pkg/translate/gcs_lifecycle.go:176-271 | for every configuration of day-counted actions that translates, each live object expires or moves to each class under S3 exactly when it does under the emitted GCS rules |
| LifecycleMeaning.MarkerOnlyExpirationDeletesAll | pkg/translate/gcs_lifecycle.go:203-219 | an expiration with neither days nor date, under any accepted filter, expires nothing in S3, and after translation every live object the filter matches |
| LifecycleRoundTrip.RoundTripIffCanonical | pkg/translate/gcs_lifecycle.go:287-351 | GCS to S3 to GCS always succeeds and is the identity exactly on lists of canonical rules |
| LifecycleRoundTrip.NormalisationIffNormal | pkg/translate/gcs_lifecycle.go:176-271 | what an S3 configuration translates to comes back unchanged exactly when no enabled rule has two prefixes, a negative day count or a non-positive abort |
| LifecycleRoundTrip.BackRulesDistinct | pkg/translate/gcs_lifecycle.go:290-294 | every GCS rule becomes one enabled S3 rule and no two share an ID |
| LifecycleRoundTrip.BackTells | pkg/translate/gcs_lifecycle.go:287-367 | what a client is told about each GCS rule: place, first prefix, action, days, timestamp and class, and nothing that the rule does not say |
| TaggingTranslate.TagMapKeys | pkg/translate/gcs_tagging.go:15-17 | the tag map of a tag set has exactly the keys given |
| TaggingTranslate.LastValueCounts | pkg/translate/gcs_tagging.go:31-35 | of several values for a key the last one counts |
| TaggingTranslate.TranslateS3ToGcsContexts | pkg/translate/gcs_tagging.go:21-38 | the two loops build delete marks for the old keys without a new value and upserts for the new tags, in any map order |
| TaggingTranslate.PatchReplaces | pkg/translate/gcs_tagging.go:12-17 | the patch, applied to the contexts it was computed from, replaces the whole tag map |
| TaggingTranslate.StalePatchKeepsNewKey | pkg/translate/gcs_tagging.go:12-17 | applied to contexts with a key added since, it does not replace them |
| TaggingTranslate.TranslateGcsContextsToS3Tagging | pkg/translate/gcs_tagging.go:42-55 | the answer lists every non-empty key once with its value, in some order |
| TaggingTranslate.PutThenGet | pkg/translate/gcs_tagging.go:21-55 | reading back after a put yields each non-empty key once, with its last value, and no old key |
| TaggingProtocol.CommitIsAtomic | main.go:1648-1658 | an update that finds its metageneration unchanged has the effect of the atomic operation |
| TaggingProtocol.RunKeepsInv | main.go:1635-1658 | every step of every interleaving keeps: contexts are the replay, what was read was true then, outcomes match the log |
| TaggingProtocol.Linearizable | main.go:1635-1658 | over all interleavings the contexts are the replay of the accepted writes in metageneration order, each accepted once and exactly when its client was told so, and reads answer with a moment since their arrival |
| TaggingProtocol.EffectInLifetime | main.go:1635-1658 | a request takes effect in the step that answers it, between its arrival and its answer, and its outcome stands: a commit is the entry logged there, a read shows the contexts there, anything else changes nothing |
| TaggingProtocol.OutcomeHasCause | main.go:1626-1701 | over all runs a 404 comes only from a failed read of the request itself, a 500 only from its own failed or late update, a listing or a success only from its own read or update |
| TaggingProtocol.RequestProceeds | main.go:1626-1701 | a read that reaches the object answers a Get with its listing and lets a Put or Delete go on, a failed one answers 404, an update settles the request |
| TaggingProtocol.RealTimeOrder | main.go:1635-1658 | a request that arrives after another was answered, a write or a read, is ordered after it: strictly behind a commit, and seeing no less of the log than an answered read |
| TaggingProtocol.AtMostOneCommits | main.go:1654-1656 | of two requests that read the same metageneration at most one ever commits |
| TaggingProtocol.UpdateOutcome | main.go:1653-1663 | an update is accepted exactly when nothing was accepted since its read; a refused one changes nothing, and another writer's entry stands in its way |
| TaggingHandlers.GcsObject.UpdateIf | main.go:1654-1656 | the conditional update that the protocol assumes of GCS |
| TaggingHandlers.HandlePutObjectTagging | main.go:1635-1666 | the handler does to the object, and answers, what the protocol says for the writes that got in between, or for a read that fails |
| TaggingHandlers.HandleDeleteObjectTagging | main.go:1721-1754 | the same for Delete, whose empty patch clears every tag |
| TaggingHandlers.HandleGetObjectTagging | main.go:1685-1701 | 200 with a listing of the current contexts, or 404, as the protocol says of an undisturbed Get |
| CredStore.TrimSpaceBlank | pkg/credstore/credstore.go:110-128 | trimming leaves nothing exactly of blank strings |
| CredStore.TrimSpaceTrims | pkg/credstore/credstore.go:110 | trimming takes white space off both ends, all of it and nothing else |
| CredStore.Parse | pkg/credstore/credstore.go:109-130 | a payload is accepted exactly when it decodes to a non-empty map without blank keys or secrets, as that very map, and each error has its cause |
| CredStore.AcceptedExactly | pkg/credstore/credstore.go:109-130 | the accepted map is the decoded one, under the stated conditions |
| CredStore.Store.Replace | pkg/credstore/credstore.go:58-65 | the store gets a fresh copy of the map and the gauge its size |
| CredStore.Store.Lookup | pkg/credstore/credstore.go:69-73 | found exactly for the keys of the current map, with their secret |
| CredStore.Store.Size | pkg/credstore/credstore.go:76-79 | the number of entries of the current map |
| CredStore.ReplaceIsDefensive | pkg/credstore/credstore.go:54-57 | a caller that goes on changing its own map does not change what is looked up |
| CredWatcher.RunWatcher | pkg/credstore/credstore.go:237-284 | the select loop, for every sequence of picks, leaves the store, gauge, timer and counts that the loop function computes |
| CredWatcher.ChangeIsLoaded | pkg/credstore/credstore.go:245-276 | a create, write, remove or rename of the file or of ..data, then the timer: the file is loaded and counted, and a valid content replaces the map |
| CredWatcher.OtherEventIgnored | pkg/credstore/credstore.go:249-254 | events of other files, and changes of mode only, do nothing |
| CredWatcher.LoopControl | pkg/credstore/credstore.go:242-282 | an idle timer and a watcher error do nothing; stop and closed channels end the loop |
| CredWatcher.WorldMoves | pkg/credstore/credstore.go:237-284 | an announced write changes the file and queues its event, a received event arms the timer, a fired timer loads the file, a stopped watcher is stopped |
| CredWatcher.WorldRunsLoop | pkg/credstore/credstore.go:237-284 | in every run of file, queue, timer and watcher the watcher is that loop on the picks it makes in the run |
| CredWatcher.SnapshotsValid | pkg/credstore/credstore.go:259-276 | over all runs every map ever held was in the file and accepted, is non-empty and has no blank key or secret; the gauge is the size of the current one |
| CredWatcher.MalformedReloadsKeepStore | pkg/credstore/credstore.go:261-270 | any number of reloads of invalid payloads leaves the store as it was |
| CredWatcher.Converges | pkg/credstore/credstore.go:237-284 | from any reachable state the watcher alone stops within a bounded number of steps, and then the store is what the file says, or unchanged if it is invalid |
| CredWatcher.WatchFile | pkg/credstore/credstore.go:237-284 | the method itself, on the picks of a run whose writes stop, leaves an acceptable map and the gauge at its size, and the content of the file if that is valid |
| CredGate.GateSafe | main.go:894-946 | under every starting configuration and interleaving no request is dropped silently; with credentials every forwarded request is signed with its own key's secret from a snapshot live between its arrival and its last look at the store, and every rejection is deserved; without, nothing is signed |
| CredGate.NamedKeyExactly | main.go:900-907 | a key named in the header wins; the query is asked only if the header names none |
| CredGate.PresignedNamesKey | main.go:900-907 | a presigned request without credential in its header names the key it was presigned with |
| CredGate.SignedNamesKey | main.go:900-907 | a signed header names its key whatever the query says |
| CredGate.SourceOfCredentials | config/settings.go:352-374 | file before inline map before legacy pair, the first two having to be valid, the last only if complete and with its access key as key |
| CredGate.RequestEnds | main.go:894-946 | whatever else happens, a request takes at most four steps of its own, and when it can take no more it has been answered with an error or forwarded |
| CredGate.LoadsDecide | main.go:894-946 | what the three loads of the store decide, case by case |
| CredGate.DecisionStands | main.go:894-946 | once decided, a request loads nothing more and its answer stays |
| CredGate.ResolvedPairSigns | main.go:322-338 | once resolved, a pair is the one the Director signs with, whatever is reloaded |
| CredGate.Signs | main.go:322-338 | the resolved pair signs if there is one, the legacy pair only if complete |
| CredGate.ValidateClientCredential | main.go:894-930 | with a reload between its two loads: which pair is stored in the request, or which error is written |
| CredGate.Gate | main.go:942-946 | with a reload between any two of its three loads the gate does what the request's phases say for the maps found: with non-empty reloads a request is admitted exactly when there are no credentials or its key is in the last map, with that pair resolved, and a refused one has exactly the one error it deserves written |
| CredGate.GatePresigned | main.go:894-946 | a client with a presigned URL is admitted with its own pair exactly when its key is in the map, and else gets InvalidAccessKeyId |
| QueryScan.VisitedIsSplit | pkg/metrics/metrics.go:288-295 | the shrinking loop visits the segments of the split on '&', except an empty last one |
| QueryScan.HasQueryKey | pkg/metrics/metrics.go:287-305 | true exactly when some segment of the split has the (non-empty) name |
| QueryScan.TwoPassesDecode | pkg/credstore/credstore.go:185-186 | the two replacement passes are one decoder of %2F and %2f |
| QueryScan.ExtractAccessKeyFromQuery | pkg/credstore/credstore.go:161-194 | the key before the first slash of the first credential segment, by the split |
| QueryScan.QueryRoundTrip | pkg/credstore/credstore.go:158-194 | a presigned query, its credential first or behind other parameters and with the slash in any spelling, gives back exactly its access key if and only if the key is not empty and has no '&' and no slash, plain or encoded |
| QueryScan.FirstCredentialDecides | pkg/credstore/credstore.go:168-191 | the first credential parameter decides whatever follows; without a slash, or with one in front, there is no key |
| QueryScan.HeaderNames | pkg/credstore/credstore.go:142-156 | the header yields a key exactly when its first Credential= is followed by that non-empty slash-free key and a slash |
| CorsTranslate.MaxAgeRoundTrip | pkg/translate/gcs_cors.go:20-21 | a max age survives exactly when absent or from 1 to 9223372036 seconds; zero becomes absent |
| CorsTranslate.DedupInPlace | pkg/translate/gcs_cors.go:41-51 | the in-place loop leaves the first occurrences in front and the rest of the array as it was |
| CorsTranslate.FirstOccurrencesMeaning | pkg/translate/gcs_cors.go:40-52 | the result is a subsequence without two headers equal up to case, in which every header is represented by its first occurrence |
| CorsTranslate.DroppedHeaders | pkg/translate/gcs_cors.go:30-52 | the caller is told of every allowed header of any rule, up to case, and of no other |
| CorsTranslate.TranslateS3ToGcsCors | pkg/translate/gcs_cors.go:14-55 | rules translate one by one, dropped headers are deduplicated, and no caller's slice changes |
| CorsTranslate.FieldsToGcs | pkg/translate/gcs_cors.go:19-38 | each field comes from its own field, and a max age that fits is exact |
| CorsTranslate.RoundTrip | pkg/translate/gcs_cors.go:57-80 | order, methods, origins and exposed headers survive S3 to GCS to S3, and the max age exactly in its range |
| MetricsMiddleware.CountingResponseWriter.WriteHeader | pkg/metrics/metrics.go:334-341 | the writer's whole new state; only the first header is passed on |
| MetricsMiddleware.CountingResponseWriter.Write | pkg/metrics/metrics.go:343-354 | the writer's whole new state; an implicit 200 is recorded |
| MetricsMiddleware.CountingResponseWriter.Flush | pkg/metrics/metrics.go:356-361 | the writer's whole new state; the connection sends an implicit 200 that is not recorded |
| MetricsMiddleware.CountedIsEffective | pkg/metrics/metrics.go:419-428 | for every sequence of calls, with or without a panic, the counted status is the client's exactly when the handler opens with a write, a final header, a flush that nothing but a 200 or a return follows, or nothing at all |
| MetricsMiddleware.MiddlewareTransparent | pkg/metrics/metrics.go:334-361 | wrapping leaves the client's status alone, except behind an informational header, where it becomes 200, or 500 from a panic before anything is written or flushed |
| MetricsMiddleware.BytesCounted | pkg/metrics/metrics.go:349-352 | every byte accepted up to the end of the handler is counted once |
| MetricsMiddleware.WithMetrics | pkg/metrics/metrics.go:379-443 | one wrapped request, returning or panicking, leaves the in-flight gauge where it was and adds one observation |
| MetricsMiddleware.Conservation | pkg/metrics/metrics.go:391-429 | over all interleavings started is unfinished plus counted, gauges are start value plus running, and each status counter is the number of requests counted under it, which are the clients that got it if all handlers opened well |
| MetricsMiddleware.CountedIsAnswered | pkg/metrics/metrics.go:419-428 | over the requests of a run, counted and actual status agree for every series and status exactly when every ended handler opened well |
| Dispatcher.HandleS3Request | main.go:969-1144 | the chain of early returns, and a rejection counted exactly for a disabled feature |
| Dispatcher.ForwardedExactly | main.go:985-1144 | a request is forwarded exactly when its headers are acceptable, every feature it uses is on, it has no restore key and any control-plane key comes with a method other than PUT, GET and DELETE; reads and writes go to their own proxy |
| Dispatcher.HandledExactly | main.go:998-1081 | a family's handler runs exactly for a PUT, GET or DELETE with its key, its flag on and no earlier family's key |
| Dispatcher.HandledByName | main.go:998-1081 | the same with the keys written out, in their order |
| Dispatcher.ControlPlaneStaysHere | main.go:998-1081 | a PUT, GET or DELETE with a control-plane key is never forwarded |
| Dispatcher.HeaderRejections | main.go:948-983 | an unknown storage class is refused before all else, aws-chunked content next |
| Dispatcher.RestoreAnswered | main.go:1087-1100 | a restore key is never forwarded, and its handler runs exactly for a Post with the feature on |
| Dispatcher.DisabledIsDeserved | main.go:776-789 | a refusal names a feature the request uses and the configuration turns off |
| Dispatcher.ClassifyEndpoint | pkg/metrics/metrics.go:211-281 | the label: reserved path, then the first family named in the query, then verb and path |
| Dispatcher.PathLabels | pkg/metrics/metrics.go:250-281 | the label of a request without query, by its verb and by whether its path has a bucket and a key between slashes |
| Dispatcher.PostLabels | pkg/metrics/metrics.go:236-246 | a POST that names no family is labelled by delete, else by restore |
| Dispatcher.LabelMatchesDispatch | pkg/metrics/metrics.go:227-234 | on ordinary paths a Put, Get or Delete is labelled with the family the dispatcher selects if and only if the first family the parser finds stands in the query literally and none before it stands in a dropped segment |
| Dispatcher.PlainLabelMatches | pkg/metrics/metrics.go:227-234 | in particular on every query whose names are unescaped and spell no key in other letters and whose values are well escaped |
| Dispatcher.OtherSpellingMislabelled | main.go:989-996 | a key in any other spelling, folded characters outside ASCII included, selects its family but is labelled by its path |
| Dispatcher.DroppedKeyMislabelled | main.go:988-996 | a badly escaped key in front of a later family's key gives the label, and the later family is dispatched |
| Dispatcher.CapitalKeyMislabelled | main.go:989-996 | a key in capitals is dispatched to its family but labelled as an object listing |
| Dispatcher.LongSMislabelled | main.go:989-996 | the key of CORS with a long s (U+017F) is dispatched to CORS and labelled as an object listing |
| Dispatcher.ParameterParsed | main.go:988 | a parameter is found under the name that was meant, however it was escaped, unless there is a semicolon in it or its value has a bad escape |

## Left out

- The HTTP server, reverse proxies, transports, SigV4 hashing and signing, the router, the throttle and the panic recoverer: library code. Only the choice of signing pair is modelled, and a panic before any header is taken to become a 500.
- XML and JSON encoding and decoding, and the final JSON encoding of the older lifecycle translator.
- Lost responses and SDK retries of a metadata update, and a new object generation written while a tagging request is under way: the condition compares the metageneration only.
- Dry-run shortcuts, path parsing and body limits of the handlers.
- LifecycleMeaning.MeaningPreserved: gives no meaning to dated actions (an S3 Date and a GCS createdBefore are different conditions), noncurrent-version rules (days are carried into a version count) and aborts (the prefix is dropped); the translation of these is covered by the laws and the round trips. It goes one way only, since another rule of the configuration can hide a discrepancy; ActionMeaningExact is the exact statement for one action.
- CivilDate.ParseFormattedTimestamp: is about UTC instants of years 0000-9999, all that RFC 3339 dates can name.
- LifecycleRoundTrip.RoundTripIffCanonical: the SDK condition fields that the proxy never reads or writes (custom time, noncurrent time, all-objects) are not modelled.
- CredWatcher.Converges: fsnotify is taken to deliver a relevant event for every write of the file, real time is not modelled, and nothing is claimed while writes go on, since each event restarts the debounce delay. The window between the initial load and the start of the watcher is not covered.
- CorsTranslate.MaxAgeRoundTrip: seconds are truncated exactly, where the code goes through a float64; for the wrapped durations of out-of-range inputs that can differ by one second, which does not change what survives.
- Hijacked connections: a handler that takes the connection over through `Unwrap` bypasses the counting writer.
- The request-body reader, size histograms, error-class counter and durations of the metrics middleware: counters updated next to the ones modelled.
- Logging and website translators, the data-plane storage-class table, environment parsing, request logging and all tests, scripts and deployment files: one-branch code or tooling.
