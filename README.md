# CockroachDB tracer core, modelled in Dafny

This project models the core of CockroachDB's OpenTracing implementation,
`pkg/util/tracing/tracer.go`:

- **span-context propagation.** `Tracer.Inject` writes a span context into a
  text-map carrier as `crdb-tracer-*`, `crdb-baggage-*` and `crdb-shadow-*`
  entries. `Tracer.Extract` reads them back with case-insensitive keys.
  Its result is either a noop context or a real one, never a broken one.
- **the span-materialization policy.** `Tracer.StartSpan` returns the
  preallocated noop span unless something could consume a real span: the
  `Recordable` option, a parent that is recording or carries snowball
  baggage, a shadow tracer, net/trace, or `forceRealSpans`. When it does
  build a span, the span takes its trace, baggage, recording and shadow
  tracer from the first eligible parent reference.
- **`StartChildSpan`**, the fast path for a child of a local span.
- **the tracer registry** (`tracerRegistryImpl`), together with `NewTracer`
  and `Close`.
- **the recording checker.** `TestingCheckRecordedSpans` renders recorded
  spans as rows. It then compares those rows with an expected text, where
  `matchesWithoutFileLine` lets an event row match with its `file:line`
  token dropped.

Modules:

| module | file | contents |
|---|---|---|
| `Wrappers` | wrappers.dfy | `Option`, `Result` |
| `Text` | text.dfy | the Go string functions the core uses: `ToLower`, `TrimPrefix`, `TrimSpace`, `Trim`, `Split`, `Join` and `sort.Strings` (as a sorting function proved unique); map range orders |
| `Hex` | hex.dfy | `strconv.FormatUint(x, 16)` and `strconv.ParseUint(s, 16, 64)` |
| `SpanContexts` | span_contexts.dfy | `spanContext`, recording types, shadow-tracer handles, the `Snowball` key |
| `Propagation` | propagation.dfy | the carrier constants, `Inject` and `Extract` |
| `Tracing` | spans.dfy | start-span options, the `Tracer` and `Span` classes, `StartSpan`, `StartChildSpan` |
| `TracerRegistry` | registry.dfy | the `Registry` class, `NewTracer`, `Close` |
| `Checker` | checker.dfy | row rendering, `matchesWithoutFileLine`, `TestingCheckRecordedSpans` |

### How the state is modelled

- **A text-map carrier.** For `Inject` it is the sequence of `Set(key, value)`
  calls the tracer makes. For `Extract` it is the sequence of pairs the
  reader's `ForeachKey` visits, or `None` when the carrier is not a
  `TextMapReader`.
- **Go `map` iteration order.** Go leaves this order unspecified. Every
  `range` over a map is a loop that picks some remaining key (`:|`). A ghost
  `order` records the choice. A property that must not depend on the order
  is proved for every enumeration, for example with `TagsRowAnyOrder` and
  `SortPermutationInvariant`. A map carrier is modelled by the map its `Set`
  calls leave behind (`Carrier`). `ForeachKey` on it visits the keys in any
  enumeration (`CarrierPairs`). `MapCarrierRoundTrip` proves the round trip
  for every such enumeration.
- **The `Tracer` class.** It keeps `forceRealSpans` and the current shadow
  tracer as fields.
- **The `Span` class.** It keeps each field the tracer writes.
- **Parameters the caller supplies.** Each of these is an argument:
  - the two random draws;
  - the clock reading;
  - the `trace.debug.enable` setting;
  - the shadow tracer's own `Inject`, `Extract` and `StartSpan`.

The doc comment at tracer.go:292-294 calls `StartChildSpan` functionally
equivalent to `StartSpan(op, ChildOf(parent.Context()))`. The code differs
from that in three ways:

- It leaves the span's duration at 0, where `StartSpan` sets -1.
- It does not start a snowball recording for a parent that carries snowball
  baggage but is not recording.
- It decides on the noop span from the parent alone. A black-hole parent
  gives the noop span even when the tracer forces real spans, and the
  tracer's current net/trace setting is not consulted.

`IsBlackHoleSpan` is defined in span.go, which is not part of this model.
Its callers in tracer.go (513-521, 538-546) deal with the noop span before
they call it and then substitute the noop span. Line 308 describes it as
"tracing is disabled". The model therefore makes it hold for the noop span
and for a real span that is not recording, has no net/trace sink and no
shadow span (`DropsEvents`).

The model follows the code. `ChildSpanAgreesWithStartSpan` states the
cases where the two agree, and `SnowballChildDiffers` states the snowball
case.

## Model

| member | source | states |
|---|---|---|
| `Propagation.FieldNamesUseStatePrefix` | pkg/util/tracing/tracer.go:50-61 | the three reserved field names are the tracer-state prefix followed by `traceid`, `spanid` and `shadowtype` |
| `Propagation.FieldNamesAreLowercase` | pkg/util/tracing/tracer.go:50-61 | the reserved names and both prefixes are unchanged by lower-casing. This is why lower-casing incoming keys still finds them (line 440) |
| `Propagation.PrefixesDisjoint` | pkg/util/tracing/tracer.go:440-467 | no reserved name starts with the baggage or shadow prefix, and no key starts with both, so the `switch` routes every key to exactly one place |
| `Propagation.BaggagePairs` | pkg/util/tracing/tracer.go:395-397 | exactly one `crdb-baggage-<k>` pair per visited baggage key, carrying that key's value |
| `Propagation.ShadowPrefixed` | pkg/util/tracing/tracer.go:402-404 | every write of the shadow tracer reaches the carrier under `crdb-shadow-` and its original key, value unchanged, same order |
| `Propagation.Inject` | pkg/util/tracing/tracer.go:368-410 | a noop context writes nothing and succeeds; otherwise the checks fail in the source's order: unsupported format, non-writer carrier, foreign context, each with no writes. A tracer context writes both ids in hex, then one baggage entry per key in some enumeration of the baggage, then (with a shadow tracer) the shadow type and the prefixed shadow writes of the shadow tracer's `Inject` (given the same format), returning its error |
| `Propagation.LastValue` | pkg/util/tracing/tracer.go:439-467 | the value of the last pair whose lower-cased key is the given one (later `Set`s overwrite earlier ones); `None` exactly when no pair has that key |
| `Propagation.ExtractOutcome` | pkg/util/tracing/tracer.go:424-493 | every error comes with the noop context; the result is always noop or a tracer context; a tracer context comes with no error, has a non-zero id and no recording group; an unsupported format and a non-reader carrier give their own errors |
| `Propagation.Extract` | pkg/util/tracing/tracer.go:424-493 | the `ForeachKey` loop, the id check and the shadow match compute exactly `ExtractOutcome` |
| `Propagation.ScanAppend` | pkg/util/tracing/tracer.go:439-470 | walking `p + q` is walking `p` and then `q`, stopping at the first handler error |
| `Propagation.ScanIgnoresKeyCase` | pkg/util/tracing/tracer.go:440 | two carriers whose keys agree after lower-casing, and whose values are equal, walk to the same outcome |
| `Propagation.ExtractIgnoresKeyCase` | pkg/util/tracing/tracer.go:440 | `Extract` treats such carriers the same |
| `Propagation.ScanFailure` | pkg/util/tracing/tracer.go:441-452 | the walk fails exactly when some id entry does not parse as a 64-bit hex number, and then with `ErrSpanContextCorrupted` |
| `Propagation.ScanIds` | pkg/util/tracing/tracer.go:441-454 | after a successful walk, each id is the parse of its key's last value (or stays as it started), and the shadow type is the last value given |
| `Propagation.ScanBaggage` | pkg/util/tracing/tracer.go:456-460 | the walk's baggage maps each `k` with a `crdb-baggage-k` entry to that entry's last value, and keeps the rest |
| `Propagation.ScanShadowCarrier` | pkg/util/tracing/tracer.go:461-466 | the same for `crdb-shadow-` entries and the shadow carrier |
| `Propagation.ExtractNoIds` | pkg/util/tracing/tracer.go:474-476 | a text-map carrier without either id key extracts to the noop context with no error |
| `Propagation.ExtractZeroIds` | pkg/util/tracing/tracer.go:439-476 | `Extract` gives the noop context with no error exactly when no id entry is corrupt and each id is absent or parses to zero |
| `Propagation.ExtractCorrupted` | pkg/util/tracing/tracer.go:441-452 | a corrupt id entry anywhere gives `(noop, ErrSpanContextCorrupted)` |
| `Propagation.ExtractFromScan` | pkg/util/tracing/tracer.go:471-492 | a tracer context is the walk's ids and baggage; it adopts the local shadow tracer exactly when the shadow type is non-empty and equals the local tracer's type ignoring case |
| `Propagation.ExtractContents` | pkg/util/tracing/tracer.go:439-492 | the same in terms of the carrier itself: no corrupt entry, ids from the last id entries (0 when absent), baggage from the last baggage entries, and the shadow tracer rule |
| `Propagation.ExtractShadowCarrier` | pkg/util/tracing/tracer.go:461-466 | the shadow carrier handed to the shadow tracer holds the un-prefixed shadow entries, last value winning |
| `Propagation.Visited` | pkg/util/tracing/tracer.go:395-397 | the baggage items a prefix of the range loop has visited: the given keys with their values |
| `Propagation.BaggageScan` | pkg/util/tracing/tracer.go:395-397 | reading back the injected baggage entries adds exactly the visited baggage items |
| `Propagation.IdScan` | pkg/util/tracing/tracer.go:392-393 | reading back the two injected id entries restores both ids |
| `Propagation.InjectedScan` | pkg/util/tracing/tracer.go:392-397 | reading back everything `Inject` writes for a context without a shadow tracer restores its ids and its whole baggage, whatever the baggage order |
| `Propagation.RoundTrip` | pkg/util/tracing/tracer.go:392-397 | `Extract` of what `Inject` wrote, read back in the order written, gives back the same trace id, span id and baggage with no error, for any baggage order, when the ids are not both 0 and the baggage keys are lower-case |
| `Propagation.CarrierLastValue` | pkg/util/tracing/tracer.go:392-397 | a map carrier holds, for each key written, the value of the last `Set` to it, which is the value the walk routes under that key |
| `Propagation.CarrierPairsLastValue` | pkg/util/tracing/tracer.go:439-470 | ranging over a map carrier in any key order, the last value under each key is the carrier's value |
| `Propagation.ScanSameLastValues` | pkg/util/tracing/tracer.go:439-470 | two successful walks that see the same last value under every key end in the same state, whatever the pair order |
| `Propagation.ExtractSameScan` | pkg/util/tracing/tracer.go:471-492 | `Extract` depends on the carrier only through the outcome of the walk |
| `Propagation.MapCarrierRoundTrip` | pkg/util/tracing/tracer.go:392-397 | `Inject` into a `TextMapCarrier` map followed by `Extract` from it, with the carrier ranged in any order, gives back the same trace id, span id and baggage with no error |
| `Hex.FormatHex` | pkg/util/tracing/tracer.go:392-393 | the digits are canonical lower-case hex (no leading zero) and denote the number |
| `Hex.ParseHex` | pkg/util/tracing/tracer.go:443 | succeeds exactly on non-empty hex strings (either case) whose value fits in 64 bits, returning that value |
| `Hex.ParseFormat` | pkg/util/tracing/tracer.go:392-393 | parsing the formatted id gives the id back |
| `Hex.FormatParse` | pkg/util/tracing/tracer.go:443 | formatting the value of a canonical hex string gives the string back |
| `Hex.ParseHexIgnoresCase` | pkg/util/tracing/tracer.go:443-449 | lower-casing a value does not change how it parses |
| `Hex.HexValueLower` | pkg/util/tracing/tracer.go:443-449 | lower-casing a hex string keeps its value |
| `Text.LowerIdempotent` | pkg/util/tracing/tracer.go:440 | lower-casing twice is lower-casing once, so already lowered keys route the same |
| `Text.TrimPrefix` | pkg/util/tracing/tracer.go:460 | with the prefix present, prefix and result make up the input; otherwise the input is returned |
| `Text.TrimLeftSpec` | pkg/util/tracing/tracer.go:608 | the result is a suffix of the input, everything removed is in the cut set, and the result does not start with a cut character |
| `Text.TrimRightSpec` | pkg/util/tracing/tracer.go:640-641 | the result is a prefix of the input, everything removed is in the cut set, and the result does not end with a cut character |
| `Text.TrimUnchanged` | pkg/util/tracing/tracer.go:640-641 | a string with no cut character at either end is its own trim |
| `Text.Split` | pkg/util/tracing/tracer.go:634 | at least one part, no part holds the separator, and joining the parts restores the input |
| `Text.SplitJoin` | pkg/util/tracing/tracer.go:634 | splitting a join of separator-free parts gives the parts back |
| `Text.JoinNoSeparator` | pkg/util/tracing/tracer.go:652 | a join holding no separator has exactly one part |
| `Text.Sort` | pkg/util/tracing/tracer.go:621 | the result is sorted and a permutation of the input |
| `Text.SortedUnique` | pkg/util/tracing/tracer.go:621 | two sorted permutations of each other are equal |
| `Text.SortPermutationInvariant` | pkg/util/tracing/tracer.go:618-621 | sorting removes any dependence on the order the entries were collected in |
| `Text.EnumerationMultiset` | pkg/util/tracing/tracer.go:618 | a map range visits each key exactly once |
| `Tracing.CollectReferences` | pkg/util/tracing/tracer.go:179-186 | every collected reference comes from a `Reference` option; with none there are none |
| `Tracing.CollectNoStartTime` | pkg/util/tracing/tracer.go:179-186 | without a `StartTime` option the collected start time is zero |
| `Tracing.CollectStartTime` | pkg/util/tracing/tracer.go:179-186 | the last `StartTime` option decides the start time |
| `Tracing.CollectTagKeys` | pkg/util/tracing/tracer.go:179-186 | a tag is collected exactly when some option sets it |
| `Tracing.CollectTagValue` | pkg/util/tracing/tracer.go:179-186 | the last option setting a tag decides its value |
| `Tracing.ApplyOptions` | pkg/util/tracing/tracer.go:179-186 | the option loop collects the options in order and reports `recordable` exactly when the `Recordable` option is among them |
| `Tracing.FirstEligible` | pkg/util/tracing/tracer.go:194-217 | the first reference that is `ChildOf`/`FollowsFrom`, non-nil and not noop; `None` exactly when there is none |
| `Tracing.ResolveParent` | pkg/util/tracing/tracer.go:194-217 | the reference loop skips ineligible references and settles on the first eligible one |
| `Tracing.SingleNoopReferenceHasNoParent` | pkg/util/tracing/tracer.go:164-170 | a lone reference to a noop context resolves to no parent and does not ask for recording, so the fast path agrees with the general check |
| `Tracing.NoopPolicy` | pkg/util/tracing/tracer.go:164-229 | a noop span exactly when the fast path applies or nothing would consume a span; `Recordable` always gives a real span; with net/trace or forced real spans only the fast path gives noop |
| `Tracing.ConsumedParentGivesRealSpan` | pkg/util/tracing/tracer.go:207-229 | a parent that is recording, has snowball baggage or uses a shadow tracer always gets a real child |
| `Tracing.BuiltSpan` | pkg/util/tracing/tracer.go:231-287 | the built span has the given operation and span id, duration -1 and the net/trace flag, and it starts at the option's start time or, when that is zero, now |
| `Tracing.ParentInheritance` | pkg/util/tracing/tracer.go:207-280 | under the first eligible parent, the span takes the parent's trace id, its span id as parent id, its baggage and its shadow tracer. The mirrored shadow span is opened from the parent's shadow context with the reference's type. Recording joins the parent's type, starts snowball recording for snowball baggage, or is off |
| `Tracing.RootSpan` | pkg/util/tracing/tracer.go:245-259 | with no eligible parent: a fresh trace id, parent id 0, empty baggage, the tracer's current shadow tracer opened as a root, and no recording |
| `Tracing.PlannedTags` | pkg/util/tracing/tracer.go:241-243 | a tag is present exactly when an option sets it or (with net/trace or a shadow tracer) it is a baggage key, and then baggage wins (lines 282-287) |
| `Tracing.PlannedTagValue` | pkg/util/tracing/tracer.go:241-243 | an option-set tag not overwritten by baggage has the last option's value |
| `Tracing.PlannedStartTime` | pkg/util/tracing/tracer.go:231-238 | the last `StartTime` option decides the start time, zero meaning now |
| `Tracing.PlannedStartTimeNow` | pkg/util/tracing/tracer.go:231-238 | without a `StartTime` option the span starts now |
| `Tracing.StartFill` | pkg/util/tracing/tracer.go:231-251 | a fresh span of this tracer with the operation, start time, duration -1, the option tags and the trace and span ids |
| `Tracing.LinkAndRecord` | pkg/util/tracing/tracer.go:253-264 | links the shadow span when a shadow tracer is in effect and joins the recording group when there is one, changing nothing else |
| `Tracing.InheritFromParent` | pkg/util/tracing/tracer.go:266-287 | sets net/trace, the parent id and a copy of the parent's baggage, and mirrors the baggage into the tags when net/trace or a shadow tracer is on |
| `Tracing.FillSpan` | pkg/util/tracing/tracer.go:231-287 | the span built after the noop check has exactly the fields `BuiltSpan` gives and the recording group decided |
| `Tracing.CopyEntries` | pkg/util/tracing/tracer.go:274-279 | copying the entries of a map over another one entry at a time, in any order, gives their union with the source winning |
| `Tracing.Tracer.constructor` | pkg/util/tracing/tracer.go:106-109 | a new tracer does not force real spans and uses the shadow tracer the settings give it |
| `Tracing.Tracer.SetForceRealSpans` | pkg/util/tracing/tracer.go:123-127 | returns the previous value and stores the new one, leaving the shadow tracer alone |
| `Tracing.Tracer.SetShadowTracer` | pkg/util/tracing/tracer.go:129-140 | replaces the shadow tracer and nothing else |
| `Tracing.Tracer.StartSpan` | pkg/util/tracing/tracer.go:158-290 | the result is the tracer's noop span exactly when the materialization policy says so. Otherwise it is a fresh span of this tracer whose fields are the planned span and whose recording group is the parent's group, a fresh snowball group, or none |
| `Tracing.Span.constructor` | pkg/util/tracing/tracer.go:231-235 | a new span has its operation and start time, and no tags, baggage, ids, recording or shadow span |
| `Tracing.Span.SetTags` | pkg/util/tracing/tracer.go:241-243 | adds the given tags, overwriting, and changes nothing else |
| `Tracing.Span.CopyBaggage` | pkg/util/tracing/tracer.go:274-279 | the span's baggage becomes a copy of the given baggage, nothing else changes |
| `Tracing.Span.LinkShadowSpan` | pkg/util/tracing/tracer.go:253-259 | records the shadow tracer and the mirrored shadow span, nothing else changes |
| `Tracing.Span.EnableRecording` | pkg/util/tracing/tracer.go:262-264 | sets the recording group and type, nothing else changes |
| `Tracing.ChildSpan` | pkg/util/tracing/tracer.go:315-352 | the child has its own operation, starts now, has a fresh span id, duration 0 and no net/trace |
| `Tracing.StartChild` | pkg/util/tracing/tracer.go:315-332 | the child has the parent's trace id, its span id as parent id and a copy of its baggage, with no tags, shadow span or recording yet |
| `Tracing.FillChild` | pkg/util/tracing/tracer.go:315-343 | the not-yet-recording child has exactly the fields `ChildSpan` gives |
| `Tracing.StartChildSpan` | pkg/util/tracing/tracer.go:304-356 | a black-hole parent (the noop span, or a real span that drops its events) gives its tracer's noop span. Any other parent gives a fresh span of the same tracer with the `ChildSpan` fields. Its recording group is the parent's, or a fresh one with `separateRecording`, or none when the parent is not recording |
| `Tracing.ChildOfOptions` | pkg/util/tracing/tracer.go:292-294 | the options `ChildOf(parent.Context())` resolve to the parent's context as a `ChildOf` parent |
| `Tracing.ChildSpanAgreesWithStartSpan` | pkg/util/tracing/tracer.go:292-294 | without net/trace and without unrecorded snowball baggage, `StartSpan(op, ChildOf(parent))` returns noop exactly when the parent drops its events (the black-hole case of `StartChildSpan`) and spans are not forced. Otherwise it builds the `StartChildSpan` span, except that duration is -1 instead of 0 |
| `Tracing.SnowballChildDiffers` | pkg/util/tracing/tracer.go:209-214 | for a parent with snowball baggage and no recording, `StartSpan(op, ChildOf(parent))` starts a snowball recording, which `StartChildSpan` does not (lines 346-352) |
| `TracerRegistry.FirstIndex` | pkg/util/tracing/tracer.go:687-688 | the first position holding the tracer; `None` exactly when it is absent |
| `TracerRegistry.Without` | pkg/util/tracing/tracer.go:689 | the list minus one occurrence of the tracer, with everything before it in place and everything after it moved down one place; unchanged when absent |
| `TracerRegistry.Registry.constructor` | pkg/util/tracing/tracer.go:675 | the registry starts empty |
| `TracerRegistry.Registry.Add` | pkg/util/tracing/tracer.go:677-681 | appends the tracer |
| `TracerRegistry.Registry.Remove` | pkg/util/tracing/tracer.go:683-694 | removes the first occurrence and keeps the others in order; reports failure (the panic) exactly when the tracer is not registered |
| `TracerRegistry.Registry.ForEach` | pkg/util/tracing/tracer.go:696-702 | calls the function on every registered tracer, in order |
| `TracerRegistry.RemoveAfterAdd` | pkg/util/tracing/tracer.go:677-694 | removing a tracer just added to a registry that did not hold it restores the registry |
| `TracerRegistry.NewTracer` | pkg/util/tracing/tracer.go:106-112 | a fresh tracer that does not force real spans, with the given shadow tracer, appended to the registry |
| `TracerRegistry.Close` | pkg/util/tracing/tracer.go:115-119 | unregisters the tracer and drops its shadow tracer; an unknown tracer stops at the panic with its shadow tracer untouched |
| `Checker.EntriesOf` | pkg/util/tracing/tracer.go:618-620 | one `k=v` entry per key visited |
| `Checker.TagsRowAnyOrder` | pkg/util/tracing/tracer.go:616-622 | the tags row is the same whichever order the tag map is ranged in |
| `Checker.ImagePermutation` | pkg/util/tracing/tracer.go:618-621 | formatting a permutation of the keys gives a permutation of the entries |
| `Checker.RenderTags` | pkg/util/tracing/tracer.go:616-622 | the loop builds the sorted, space-joined tags row |
| `Checker.RenderLog` | pkg/util/tracing/tracer.go:625-628 | a log row is its fields' `  key: value` texts one after the other |
| `Checker.RenderLogs` | pkg/util/tracing/tracer.go:624-630 | one row per log record |
| `Checker.SpanRows` | pkg/util/tracing/tracer.go:615-630 | a span renders as its header, a tags row when it has tags, and one row per log |
| `Checker.RenderSpan` | pkg/util/tracing/tracer.go:615-630 | builds exactly those rows |
| `Checker.Rows` | pkg/util/tracing/tracer.go:614-631 | at least one row per span |
| `Checker.RowsHead` | pkg/util/tracing/tracer.go:615 | the first row is the first span's header |
| `Checker.Render` | pkg/util/tracing/tracer.go:614-631 | the spans loop builds exactly the rows of all spans in order |
| `Checker.DigitRunSpec` | pkg/util/tracing/tracer.go:663 | the run of `[0-9]*` from a position is all digits and ends at a non-digit or the end |
| `Checker.LastFileLine` | pkg/util/tracing/tracer.go:663 | the last colon (after `event: `) followed by digits and a space, which is where the greedy `.*` stops; `None` exactly when there is none |
| `Checker.MatchSound` | pkg/util/tracing/tracer.go:662-665 | a match means the message is `event: ` + file + `:` + digits + ` ` + rest with no newline, and the expected text is `event: ` + rest |
| `Checker.MatchComplete` | pkg/util/tracing/tracer.go:662-665 | conversely, such a message (rest without colons, no newlines) matches `event: ` + rest |
| `Checker.MatchAt` | pkg/util/tracing/tracer.go:663 | a colon, a digit run and a space with no colon after them capture everything after that space |
| `Checker.FileLineExample` | pkg/util/tracing/tracer.go:657-659 | `event: util/log/trace_test.go:111 log` matches `event: log` |
| `Checker.TestingCheckRecordedSpans` | pkg/util/tracing/tracer.go:607-655 | no error exactly when the rendered rows and the expected rows (trimmed, split on newlines, none for empty text) are as many and match pairwise (equal after trimming blanks and tabs, or equal without `file:line`). An error carries the expected and the rendered text |
| `Checker.MatchRows` | pkg/util/tracing/tracer.go:636-647 | the comparison loop accepts exactly when the row counts agree and every row matches |
| `Checker.MatchRow` | pkg/util/tracing/tracer.go:640-642 | one row comparison |
| `Checker.JoinEnds` | pkg/util/tracing/tracer.go:652 | a join starts with its first part's first character and ends with its last part's last character |
| `Checker.CheckAcceptsOwnRendering` | pkg/util/tracing/tracer.go:607-655 | the rendered text of a recording of at least one span, given back as the expected text, is accepted when no row holds a newline and the last row does not end in white space |

## Left out

- `Text.Lower` models `strings.ToLower` on ASCII letters only (Go lower-cases all of Unicode). Carrier keys are ASCII header names in practice.
- HTTP header canonicalisation by the carrier is not modelled. The carrier hands keys over as they are, and `Extract` lower-cases them.
- The shadow tracer (LightStep and similar) is left abstract. Its `Inject`, `Extract` and `StartSpan` are function parameters (`shadowInject`, `ShadowExtractor`, `ShadowOpener`). Closing the old shadow tracer in `setShadowTracer` (tracer.go:137-139) is not modelled.
- The atomic pointer holding the shadow tracer (tracer.go:98-99, 137-144) is a plain field. Concurrent readers are not modelled.
- `updateShadowTracer` and the cluster settings are not part of this model. `NewTracer` takes the resulting shadow tracer as an argument.
- `enableNetTrace` (tracer.go:63-67) is a boolean argument. `trace.New` and `SetMaxEvents(maxLogsPerSpan)` (tracer.go:266-269) are reduced to a flag on the span.
- `rand.Int63` and `time.Now` (tracer.go:237, 247, 251, 318, 332) are arguments. `time.Time` is an integer where zero stands for `IsZero`.
- The span's mutex, the parent's lock in `StartChildSpan` (tracer.go:323, 354) and the registry's mutex are not modelled. Each operation is treated as atomic.
- The span type itself lives in span.go, which is not part of this model. `SetTag`, `enableRecording`, `isRecording`, `IsBlackHoleSpan` and `shadowSpan.Context()` are modelled by what they do to the fields used here:
  - `SetTag` updates the tag map;
  - `enableRecording` sets the group and type;
  - `isRecording` means "has a group";
  - `IsBlackHoleSpan` means "is the noop span, or is not recording and has neither a net/trace sink nor a shadow span".
- Tag values and log field values are strings, so `%v` formatting is the identity.
- `Tracing.StartSpan` requires that the first eligible reference holds one of this tracer's own contexts. The source's type assertion at tracer.go:206 panics on a foreign context, and that panic is not modelled.
- `TracerRegistry.Registry.Remove`: the panic on an unknown tracer is modelled as a `false` result with the list unchanged. Likewise `TracerRegistry.Close` returns `false` before touching the shadow tracer.
- `TracerRegistry.Registry.ForEach`: the callback is a pure function whose results are returned. Its side effects on the tracers are not modelled.
- `Checker.TestingCheckRecordedSpans`: the error's `file:line` prefix from `caller.Lookup` and the exact `errors.Errorf` text are not modelled. The error carries the expected and the rendered text as a pair.
- `sort.Strings` is modelled by an insertion sort over code-point order. Every sorted permutation is proved to be the same sequence, so the sort used does not matter.
- Regular expressions in general are not modelled. `matchesWithoutFileLine` is modelled for its one pattern, as the greedy match that pattern performs.
- The `context.Context` helpers (tracer.go:497-584) and the `textMapWriterFn`/`textMapReaderFn` adapters are not modelled. They forward to the operations above.
- `Extract` on the `Binary` format and `Inject` of a foreign span context return the errors shown above. Other carrier kinds are represented only by "is or is not a reader/writer".
