/**
 * The text-map propagation codec: `Tracer.Inject` writes a span context as
 * key/value pairs, `Tracer.Extract` reads one back. Keys are matched without
 * regard to case on read, as HTTP header field names are case-insensitive
 * (section 3.2 of RFC 7230); ids travel as lower-case base-16 text.
 */
module Propagation {
  import opened Wrappers
  import opened Text
  import opened Hex
  import opened SpanContexts

  const PrefixTracerState: string := "crdb-tracer-"
  const PrefixBaggage: string := "crdb-baggage-"
  const PrefixShadow: string := "crdb-shadow-"

  const FieldNameTraceID: string := "crdb-tracer-traceid"
  const FieldNameSpanID: string := "crdb-tracer-spanid"
  const FieldNameShadowType: string := "crdb-tracer-shadowtype"

  /** The reserved field names are formed from the tracer-state prefix. */
  lemma FieldNamesUseStatePrefix()
    ensures FieldNameTraceID == PrefixTracerState + "traceid"
    ensures FieldNameSpanID == PrefixTracerState + "spanid"
    ensures FieldNameShadowType == PrefixTracerState + "shadowtype"
  {
  }

  /** The propagation formats of opentracing; only the two text-map ones are supported. */
  datatype Format = HTTPHeaders | TextMap | Binary | OtherFormat

  predicate IsTextMapFormat(f: Format) {
    f == HTTPHeaders || f == TextMap
  }

  /** The errors at the propagation boundary; a shadow tracer may return its own. */
  datatype Error =
    | ErrUnsupportedFormat
    | ErrInvalidCarrier
    | ErrInvalidSpanContext
    | ErrSpanContextCorrupted
    | ShadowTracerError(code: nat)

  /** One key/value pair of a text-map carrier. */
  type Pair = (string, string)

  // ---------------------------------------------------------------------
  // Inject

  /** The two id entries `Inject` writes first. */
  function IdPairs(sc: SpanContext): seq<Pair> {
    [(FieldNameTraceID, FormatHex(sc.traceId)), (FieldNameSpanID, FormatHex(sc.spanId))]
  }

  /** One `crdb-baggage-<k>` entry per baggage item, in the order `order` visits them. */
  function BaggagePairs(bag: map<string, string>, order: seq<string>): (r: seq<Pair>)
    requires forall k :: k in order ==> k in bag
    ensures |r| == |order|
    ensures forall i :: 0 <= i < |order| ==> r[i] == (PrefixBaggage + order[i], bag[order[i]])
  {
    if order == [] then [] else [(PrefixBaggage + order[0], bag[order[0]])] + BaggagePairs(bag, order[1..])
  }

  /** What `Inject` writes for a context without a shadow tracer. */
  function InjectedPairs(sc: SpanContext, order: seq<string>): seq<Pair>
    requires forall k :: k in order ==> k in sc.baggage
  {
    IdPairs(sc) + BaggagePairs(sc.baggage, order)
  }

  /** The shadow tracer's own entries, re-keyed under `crdb-shadow-`. */
  function ShadowPrefixed(writes: seq<Pair>): (r: seq<Pair>)
    ensures |r| == |writes|
    ensures forall i :: 0 <= i < |writes| ==> r[i] == (PrefixShadow + writes[i].0, writes[i].1)
  {
    if writes == [] then [] else [(PrefixShadow + writes[0].0, writes[0].1)] + ShadowPrefixed(writes[1..])
  }

  /** What the shadow tracer's `Inject` writes through the forwarding writer, and the error it returns. */
  datatype ShadowInjection = ShadowInjection(writes: seq<Pair>, err: Option<Error>)

  /**
   * `Tracer.Inject`. `writable` says whether the carrier is an
   * `opentracing.TextMapWriter`; `writes` are the `Set` calls it receives, in
   * order; `order` is the order in which the baggage map was ranged over.
   */
  method Inject(
    ctx: Context, format: Format, writable: bool,
    shadowInject: (ShadowTracer, Option<ShadowContext>, Format) -> ShadowInjection)
    returns (writes: seq<Pair>, err: Option<Error>, ghost order: seq<string>)
    ensures ctx == NoopContext ==> writes == [] && err == None
    ensures ctx != NoopContext && !IsTextMapFormat(format) ==>
      writes == [] && err == Some(ErrUnsupportedFormat)
    ensures ctx != NoopContext && IsTextMapFormat(format) && !writable ==>
      writes == [] && err == Some(ErrInvalidCarrier)
    ensures ctx != NoopContext && IsTextMapFormat(format) && writable && !ctx.CrdbContext? ==>
      writes == [] && err == Some(ErrInvalidSpanContext)
    ensures ctx.CrdbContext? && IsTextMapFormat(format) && writable ==>
      && IsEnumeration(order, ctx.sc.baggage.Keys)
      && match ctx.sc.shadowTr
         case None => writes == InjectedPairs(ctx.sc, order) && err == None
         case Some(st) =>
           var si := shadowInject(st, ctx.sc.shadowCtx, format);
           && writes == InjectedPairs(ctx.sc, order) + [(FieldNameShadowType, st.typ)] + ShadowPrefixed(si.writes)
           && err == si.err
  {
    order := [];
    if ctx == NoopContext {
      return [], None, order;
    }
    if !IsTextMapFormat(format) {
      return [], Some(ErrUnsupportedFormat), order;
    }
    if !writable {
      return [], Some(ErrInvalidCarrier), order;
    }
    if !ctx.CrdbContext? {
      return [], Some(ErrInvalidSpanContext), order;
    }
    var sc := ctx.sc;
    writes := [(FieldNameTraceID, FormatHex(sc.traceId))];
    writes := writes + [(FieldNameSpanID, FormatHex(sc.spanId))];

    var remaining := sc.baggage.Keys;
    while remaining != {}
      invariant remaining <= sc.baggage.Keys
      invariant forall k :: k in order ==> k in sc.baggage && k !in remaining
      invariant forall k :: k in sc.baggage ==> k in order || k in remaining
      invariant forall i, j :: 0 <= i < j < |order| ==> order[i] != order[j]
      invariant writes == InjectedPairs(sc, order)
      decreases remaining
    {
      var k :| k in remaining;
      writes := writes + [(PrefixBaggage + k, sc.baggage[k])];
      order := order + [k];
      remaining := remaining - {k};
    }

    err := None;
    if sc.shadowTr.Some? {
      var st := sc.shadowTr.value;
      writes := writes + [(FieldNameShadowType, st.typ)];
      var si := shadowInject(st, sc.shadowCtx, format);
      writes := writes + ShadowPrefixed(si.writes);
      err := si.err;
    }
  }

  // ---------------------------------------------------------------------
  // Extract

  /** What `Extract` has gathered from the pairs read so far. */
  datatype Scanned = Scanned(
    traceId: Uint64,
    spanId: Uint64,
    baggage: map<string, string>,
    shadowType: string,
    shadowCarrier: map<string, string>)

  const EmptyScan: Scanned := Scanned(0, 0, map[], "", map[])

  /** The `ForeachKey` handler of `Extract` for one pair: the key is lowered, then routed. */
  function ScanPair(acc: Scanned, key: string, value: string): Result<Scanned, Error> {
    var k := Lower(key);
    if k == FieldNameTraceID then
      match ParseHex(value)
      case None => Failure(ErrSpanContextCorrupted)
      case Some(x) => Success(acc.(traceId := x))
    else if k == FieldNameSpanID then
      match ParseHex(value)
      case None => Failure(ErrSpanContextCorrupted)
      case Some(x) => Success(acc.(spanId := x))
    else if k == FieldNameShadowType then
      Success(acc.(shadowType := value))
    else if PrefixBaggage <= k then
      Success(acc.(baggage := acc.baggage[TrimPrefix(k, PrefixBaggage) := value]))
    else if PrefixShadow <= k then
      Success(acc.(shadowCarrier := acc.shadowCarrier[TrimPrefix(k, PrefixShadow) := value]))
    else
      Success(acc)
  }

  /** `ForeachKey` over the pairs: the first error returned by the handler stops the walk. */
  function ScanFrom(acc: Scanned, pairs: seq<Pair>): Result<Scanned, Error>
    decreases |pairs|
  {
    if pairs == [] then Success(acc)
    else
      match ScanPair(acc, pairs[0].0, pairs[0].1)
      case Failure(e) => Failure(e)
      case Success(next) => ScanFrom(next, pairs[1..])
  }

  /** The shadow tracer's `Extract` for the carrier's format, on the un-prefixed shadow entries. */
  type ShadowExtractor = (ShadowTracer, Format, map<string, string>) -> Result<Option<ShadowContext>, Error>

  /** The span context built from what was scanned, before any shadow part. */
  function ContextOf(acc: Scanned): SpanContext {
    SpanContext(acc.traceId, acc.spanId, acc.baggage, None, None, None, NoRecording)
  }

  /**
   * The outcome of `Tracer.Extract`. `reader` holds the pairs in visit order,
   * or is `None` when the carrier is not an `opentracing.TextMapReader`;
   * `local` is the tracer's current shadow tracer.
   */
  function ExtractOutcome(
    format: Format, reader: Option<seq<Pair>>, local: Option<ShadowTracer>,
    shadowExtract: ShadowExtractor): (out: (Context, Option<Error>))
    ensures out.1.Some? ==> out.0 == NoopContext
    ensures out.0 == NoopContext || out.0.CrdbContext?
    ensures out.0.CrdbContext? ==>
      && out.1 == None
      && (out.0.sc.traceId != 0 || out.0.sc.spanId != 0)
      && out.0.sc.recordingGroup == None
    ensures !IsTextMapFormat(format) ==> out == (NoopContext, Some(ErrUnsupportedFormat))
    ensures IsTextMapFormat(format) && reader.None? ==> out == (NoopContext, Some(ErrInvalidCarrier))
  {
    if !IsTextMapFormat(format) then (NoopContext, Some(ErrUnsupportedFormat))
    else if reader.None? then (NoopContext, Some(ErrInvalidCarrier))
    else
      match ScanFrom(EmptyScan, reader.value)
      case Failure(e) => (NoopContext, Some(e))
      case Success(acc) =>
        if acc.traceId == 0 && acc.spanId == 0 then (NoopContext, None)
        else if acc.shadowType != "" && local.Some? && Lower(acc.shadowType) == Lower(local.value.typ) then
          match shadowExtract(local.value, format, acc.shadowCarrier)
          case Failure(e) => (NoopContext, Some(e))
          case Success(shadowCtx) =>
            (CrdbContext(ContextOf(acc).(shadowTr := local, shadowCtx := shadowCtx)), None)
        else (CrdbContext(ContextOf(acc)), None)
  }

  /** `Tracer.Extract`: walks the pairs once, building the context step by step. */
  method Extract(
    format: Format, reader: Option<seq<Pair>>, local: Option<ShadowTracer>,
    shadowExtract: ShadowExtractor)
    returns (ctx: Context, err: Option<Error>)
    ensures (ctx, err) == ExtractOutcome(format, reader, local, shadowExtract)
  {
    if !IsTextMapFormat(format) {
      return NoopContext, Some(ErrUnsupportedFormat);
    }
    if reader.None? {
      return NoopContext, Some(ErrInvalidCarrier);
    }
    var pairs := reader.value;
    var traceId: Uint64, spanId: Uint64 := 0, 0;
    var baggage: map<string, string> := map[];
    var shadowType := "";
    var shadowCarrier: map<string, string> := map[];

    var i := 0;
    while i < |pairs|
      invariant 0 <= i <= |pairs|
      invariant ScanFrom(EmptyScan, pairs)
             == ScanFrom(Scanned(traceId, spanId, baggage, shadowType, shadowCarrier), pairs[i..])
    {
      assert pairs[i..][0] == pairs[i] && pairs[i..][1..] == pairs[i + 1..];
      var k := Lower(pairs[i].0);
      var v := pairs[i].1;
      if k == FieldNameTraceID {
        var parsed := ParseHex(v);
        if parsed.None? {
          return NoopContext, Some(ErrSpanContextCorrupted);
        }
        traceId := parsed.value;
      } else if k == FieldNameSpanID {
        var parsed := ParseHex(v);
        if parsed.None? {
          return NoopContext, Some(ErrSpanContextCorrupted);
        }
        spanId := parsed.value;
      } else if k == FieldNameShadowType {
        shadowType := v;
      } else if PrefixBaggage <= k {
        baggage := baggage[TrimPrefix(k, PrefixBaggage) := v];
      } else if PrefixShadow <= k {
        shadowCarrier := shadowCarrier[TrimPrefix(k, PrefixShadow) := v];
      }
      i := i + 1;
    }
    assert pairs[i..] == [];

    if traceId == 0 && spanId == 0 {
      return NoopContext, None;
    }
    var sc := SpanContext(traceId, spanId, baggage, None, None, None, NoRecording);
    if shadowType != "" && local.Some? && Lower(shadowType) == Lower(local.value.typ) {
      var shadowCtx := shadowExtract(local.value, format, shadowCarrier);
      if shadowCtx.Failure? {
        return NoopContext, Some(shadowCtx.error);
      }
      sc := sc.(shadowTr := local, shadowCtx := shadowCtx.value);
    }
    return CrdbContext(sc), None;
  }

  // ---------------------------------------------------------------------
  // Properties of Extract

  /** The key of `p` as `Extract` routes it. */
  function RoutingKey(p: Pair): string {
    Lower(p.0)
  }

  /** The value of the last pair whose lowered key is `key`, if any (later pairs overwrite earlier ones). */
  function LastValue(pairs: seq<Pair>, key: string): (r: Option<string>)
    ensures r.None? <==> forall i :: 0 <= i < |pairs| ==> RoutingKey(pairs[i]) != key
    ensures r.Some? ==>
      exists i :: && 0 <= i < |pairs| && RoutingKey(pairs[i]) == key && pairs[i].1 == r.value
                  && forall j :: i < j < |pairs| ==> RoutingKey(pairs[j]) != key
    decreases |pairs|
  {
    if pairs == [] then None
    else
      var rest := LastValue(pairs[1..], key);
      if rest.Some? then
        assert forall i :: 0 <= i < |pairs| - 1 ==> pairs[1..][i] == pairs[i + 1];
        rest
      else if RoutingKey(pairs[0]) == key then Some(pairs[0].1)
      else
        assert forall i :: 1 <= i < |pairs| ==> pairs[i] == pairs[1..][i - 1];
        None
  }

  /**
   * `m` is `base` overlaid with the pairs routed under `prefix`: key `k` is
   * present when it was in `base` or some pair's lowered key is `prefix + k`,
   * and then holds the value of the last such pair.
   */
  ghost predicate Overlays(m: map<string, string>, base: map<string, string>, pairs: seq<Pair>, prefix: string) {
    && (forall k :: k in m <==> k in base || LastValue(pairs, prefix + k).Some?)
    && (forall k :: k in m ==>
          m[k] == if LastValue(pairs, prefix + k).Some? then LastValue(pairs, prefix + k).value else base[k])
  }

  /** An id key: a pair under it fails the walk when its value does not parse. */
  predicate IsIdKey(k: string) {
    k == FieldNameTraceID || k == FieldNameSpanID
  }

  /** A pair that makes the `ForeachKey` handler return `ErrSpanContextCorrupted`. */
  predicate IsCorruptPair(p: Pair) {
    IsIdKey(RoutingKey(p)) && ParseHex(p.1).None?
  }

  /** The reserved names and the two prefixes route disjoint sets of keys. */
  lemma PrefixesDisjoint(k: string)
    ensures !(PrefixBaggage <= FieldNameTraceID) && !(PrefixShadow <= FieldNameTraceID)
    ensures !(PrefixBaggage <= FieldNameSpanID) && !(PrefixShadow <= FieldNameSpanID)
    ensures !(PrefixBaggage <= FieldNameShadowType) && !(PrefixShadow <= FieldNameShadowType)
    ensures !(PrefixBaggage <= k && PrefixShadow <= k)
  {
    assert PrefixBaggage[5] == 'b' && PrefixShadow[5] == 's';
    assert FieldNameTraceID[5] == 't' && FieldNameSpanID[5] == 't' && FieldNameShadowType[5] == 't';
  }

  /** Walking `p + q` is walking `p`, then `q` from where `p` left off. */
  lemma {:induction false} ScanAppend(acc: Scanned, p: seq<Pair>, q: seq<Pair>)
    ensures ScanFrom(acc, p + q) == match ScanFrom(acc, p)
                                   case Failure(e) => Failure(e)
                                   case Success(a) => ScanFrom(a, q)
    decreases |p|
  {
    if p == [] {
      assert p + q == q;
    } else {
      assert (p + q)[0] == p[0] && (p + q)[1..] == p[1..] + q;
      match ScanPair(acc, p[0].0, p[0].1)
      case Failure(e) =>
      case Success(next) => ScanAppend(next, p[1..], q);
    }
  }

  /** The walk only looks at keys after lowering them. */
  lemma {:induction false} ScanIgnoresKeyCase(acc: Scanned, p: seq<Pair>, q: seq<Pair>)
    requires |p| == |q|
    requires forall i :: 0 <= i < |p| ==> RoutingKey(p[i]) == RoutingKey(q[i]) && p[i].1 == q[i].1
    ensures ScanFrom(acc, p) == ScanFrom(acc, q)
    decreases |p|
  {
    if p != [] {
      assert ScanPair(acc, p[0].0, p[0].1) == ScanPair(acc, q[0].0, q[0].1);
      match ScanPair(acc, p[0].0, p[0].1)
      case Failure(e) =>
      case Success(next) => ScanIgnoresKeyCase(next, p[1..], q[1..]);
    }
  }

  /**
   * Keys are matched case-insensitively: re-casing the keys of a carrier (as
   * an HTTP header carrier does when it canonicalises them) changes nothing.
   */
  lemma ExtractIgnoresKeyCase(
    format: Format, p: seq<Pair>, q: seq<Pair>, local: Option<ShadowTracer>, shadowExtract: ShadowExtractor)
    requires |p| == |q|
    requires forall i :: 0 <= i < |p| ==> Lower(p[i].0) == Lower(q[i].0) && p[i].1 == q[i].1
    ensures ExtractOutcome(format, Some(p), local, shadowExtract) == ExtractOutcome(format, Some(q), local, shadowExtract)
  {
    ScanIgnoresKeyCase(EmptyScan, p, q);
  }

  /** The walk fails exactly when some id pair does not parse, and then always with `ErrSpanContextCorrupted`. */
  lemma {:induction false} ScanFailure(acc: Scanned, pairs: seq<Pair>)
    ensures ScanFrom(acc, pairs).Failure? <==> exists i :: 0 <= i < |pairs| && IsCorruptPair(pairs[i])
    ensures ScanFrom(acc, pairs).Failure? ==> ScanFrom(acc, pairs).error == ErrSpanContextCorrupted
    decreases |pairs|
  {
    if pairs != [] {
      assert forall i :: 1 <= i < |pairs| ==> pairs[i] == pairs[1..][i - 1];
      match ScanPair(acc, pairs[0].0, pairs[0].1)
      case Failure(e) =>
        assert IsCorruptPair(pairs[0]);
      case Success(next) =>
        assert !IsCorruptPair(pairs[0]);
        ScanFailure(next, pairs[1..]);
        if exists i :: 0 <= i < |pairs| && IsCorruptPair(pairs[i]) {
          var i :| 0 <= i < |pairs| && IsCorruptPair(pairs[i]);
          assert IsCorruptPair(pairs[1..][i - 1]);
        }
    }
  }

  lemma StripPrefix(key: string, prefix: string, k: string)
    ensures key == prefix + k <==> prefix <= key && key[|prefix|..] == k
  {
    if prefix <= key && key[|prefix|..] == k {
      assert key == key[..|prefix|] + key[|prefix|..];
    }
  }

  lemma LastValueCons(p: Pair, rest: seq<Pair>, key: string)
    ensures LastValue([p] + rest, key)
         == if LastValue(rest, key).Some? then LastValue(rest, key)
            else if RoutingKey(p) == key then Some(p.1) else None
  {
    assert ([p] + rest)[1..] == rest;
  }

  /** One step of the overlay: routing `p` in front of `rest`. */
  lemma OverlayStep(m: map<string, string>, base: map<string, string>, p: Pair, rest: seq<Pair>, prefix: string)
    requires Overlays(m, if prefix <= RoutingKey(p) then base[RoutingKey(p)[|prefix|..] := p.1] else base, rest, prefix)
    ensures Overlays(m, base, [p] + rest, prefix)
  {
    var pairs := [p] + rest;
    forall k
      ensures k in m <==> k in base || LastValue(pairs, prefix + k).Some?
      ensures k in m ==>
        m[k] == if LastValue(pairs, prefix + k).Some? then LastValue(pairs, prefix + k).value else base[k]
    {
      LastValueCons(p, rest, prefix + k);
      StripPrefix(RoutingKey(p), prefix, k);
    }
  }

  /** Every base is overlaid by no pairs. */
  lemma OverlayEmpty(m: map<string, string>, prefix: string)
    ensures Overlays(m, m, [], prefix)
  {
  }

  /** What a lowered key routes past: the three reserved names and the two prefixes. */
  lemma RoutingCases(key: string)
    ensures key == FieldNameTraceID ==> !(PrefixBaggage <= key) && !(PrefixShadow <= key)
    ensures key == FieldNameSpanID ==> !(PrefixBaggage <= key) && !(PrefixShadow <= key)
    ensures key == FieldNameShadowType ==> !(PrefixBaggage <= key) && !(PrefixShadow <= key)
    ensures !(PrefixBaggage <= key && PrefixShadow <= key)
  {
    PrefixesDisjoint(key);
  }

  /** One pair's effect on the ids and the shadow type. */
  lemma ScanPairIds(acc: Scanned, p: Pair)
    requires ScanPair(acc, p.0, p.1).Success?
    ensures var next := ScanPair(acc, p.0, p.1).value;
      var k := RoutingKey(p);
      && (k == FieldNameTraceID ==> ParseHex(p.1) == Some(next.traceId))
      && (k != FieldNameTraceID ==> next.traceId == acc.traceId)
      && (k == FieldNameSpanID ==> ParseHex(p.1) == Some(next.spanId))
      && (k != FieldNameSpanID ==> next.spanId == acc.spanId)
      && next.shadowType == if k == FieldNameShadowType then p.1 else acc.shadowType
  {
  }

  /** Each id after a successful walk is the last value written under its reserved name. */
  lemma {:induction false} ScanIds(acc: Scanned, pairs: seq<Pair>)
    requires ScanFrom(acc, pairs).Success?
    ensures var r := ScanFrom(acc, pairs).value;
      && (LastValue(pairs, FieldNameTraceID).None? ==> r.traceId == acc.traceId)
      && (LastValue(pairs, FieldNameTraceID).Some? ==> ParseHex(LastValue(pairs, FieldNameTraceID).value) == Some(r.traceId))
      && (LastValue(pairs, FieldNameSpanID).None? ==> r.spanId == acc.spanId)
      && (LastValue(pairs, FieldNameSpanID).Some? ==> ParseHex(LastValue(pairs, FieldNameSpanID).value) == Some(r.spanId))
      && r.shadowType == LastValue(pairs, FieldNameShadowType).GetOr(acc.shadowType)
    decreases |pairs|
  {
    if pairs != [] {
      var p := pairs[0];
      var rest := pairs[1..];
      assert pairs == [p] + rest;
      var next := ScanPair(acc, p.0, p.1).value;
      ScanPairIds(acc, p);
      ScanIds(next, rest);
      LastValueCons(p, rest, FieldNameTraceID);
      LastValueCons(p, rest, FieldNameSpanID);
      LastValueCons(p, rest, FieldNameShadowType);
    }
  }

  /** One pair's effect on the baggage and the shadow carrier. */
  lemma ScanPairMaps(acc: Scanned, p: Pair)
    requires ScanPair(acc, p.0, p.1).Success?
    ensures var next := ScanPair(acc, p.0, p.1).value;
      var k := RoutingKey(p);
      && next.baggage == (if PrefixBaggage <= k then acc.baggage[k[|PrefixBaggage|..] := p.1] else acc.baggage)
      && next.shadowCarrier == (if PrefixShadow <= k then acc.shadowCarrier[k[|PrefixShadow|..] := p.1] else acc.shadowCarrier)
  {
    PrefixesDisjoint(RoutingKey(p));
  }

  /** After a successful walk the baggage is the start baggage overlaid with the `crdb-baggage-` pairs. */
  lemma {:induction false} ScanBaggage(acc: Scanned, pairs: seq<Pair>)
    requires ScanFrom(acc, pairs).Success?
    ensures Overlays(ScanFrom(acc, pairs).value.baggage, acc.baggage, pairs, PrefixBaggage)
    decreases |pairs|
  {
    if pairs == [] {
      OverlayEmpty(acc.baggage, PrefixBaggage);
    } else {
      var p := pairs[0];
      var rest := pairs[1..];
      assert pairs == [p] + rest;
      var next := ScanPair(acc, p.0, p.1).value;
      ScanPairMaps(acc, p);
      ScanBaggage(next, rest);
      OverlayStep(ScanFrom(next, rest).value.baggage, acc.baggage, p, rest, PrefixBaggage);
    }
  }

  /** After a successful walk the shadow carrier is the start carrier overlaid with the `crdb-shadow-` pairs. */
  lemma {:induction false} ScanShadowCarrier(acc: Scanned, pairs: seq<Pair>)
    requires ScanFrom(acc, pairs).Success?
    ensures Overlays(ScanFrom(acc, pairs).value.shadowCarrier, acc.shadowCarrier, pairs, PrefixShadow)
    decreases |pairs|
  {
    if pairs == [] {
      OverlayEmpty(acc.shadowCarrier, PrefixShadow);
    } else {
      var p := pairs[0];
      var rest := pairs[1..];
      assert pairs == [p] + rest;
      var next := ScanPair(acc, p.0, p.1).value;
      ScanPairMaps(acc, p);
      ScanShadowCarrier(next, rest);
      OverlayStep(ScanFrom(next, rest).value.shadowCarrier, acc.shadowCarrier, p, rest, PrefixShadow);
    }
  }

  /** A walk with no id key never fails and leaves both ids as they were. */
  lemma ExtractNoIds(format: Format, pairs: seq<Pair>, local: Option<ShadowTracer>, shadowExtract: ShadowExtractor)
    requires IsTextMapFormat(format)
    requires forall i :: 0 <= i < |pairs| ==> !IsIdKey(RoutingKey(pairs[i]))
    ensures ExtractOutcome(format, Some(pairs), local, shadowExtract) == (NoopContext, None)
  {
    ScanFailure(EmptyScan, pairs);
    ScanIds(EmptyScan, pairs);
  }

  /** An id entry that is absent, or whose last value parses to zero. */
  predicate ZeroOrAbsent(v: Option<string>) {
    v.None? || ParseHex(v.value) == Some(0)
  }

  /**
   * `Extract` returns the noop context with no error exactly when no id entry
   * is corrupt and both ids come out zero, whether absent or written as zero.
   */
  lemma ExtractZeroIds(format: Format, pairs: seq<Pair>, local: Option<ShadowTracer>, shadowExtract: ShadowExtractor)
    requires IsTextMapFormat(format)
    ensures ExtractOutcome(format, Some(pairs), local, shadowExtract) == (NoopContext, None)
        <==> && (forall i :: 0 <= i < |pairs| ==> !IsCorruptPair(pairs[i]))
             && ZeroOrAbsent(LastValue(pairs, FieldNameTraceID))
             && ZeroOrAbsent(LastValue(pairs, FieldNameSpanID))
  {
    ScanFailure(EmptyScan, pairs);
    var scan := ScanFrom(EmptyScan, pairs);
    if scan.Success? {
      var acc := scan.value;
      ScanIds(EmptyScan, pairs);
      assert ZeroOrAbsent(LastValue(pairs, FieldNameTraceID)) <==> acc.traceId == 0;
      assert ZeroOrAbsent(LastValue(pairs, FieldNameSpanID)) <==> acc.spanId == 0;
      ZeroIdsOutcome(format, pairs, acc, local, shadowExtract);
    }
  }

  /** After a successful walk, `Extract` gives `(noop, nil)` exactly when both ids are zero. */
  lemma ZeroIdsOutcome(format: Format, pairs: seq<Pair>, acc: Scanned, local: Option<ShadowTracer>, shadowExtract: ShadowExtractor)
    requires IsTextMapFormat(format) && ScanFrom(EmptyScan, pairs) == Success(acc)
    ensures ExtractOutcome(format, Some(pairs), local, shadowExtract) == (NoopContext, None)
        <==> acc.traceId == 0 && acc.spanId == 0
  {
  }

  /** An id that does not parse as a 64-bit base-16 number makes `Extract` fail with `ErrSpanContextCorrupted`. */
  lemma ExtractCorrupted(
    format: Format, pairs: seq<Pair>, i: nat, local: Option<ShadowTracer>, shadowExtract: ShadowExtractor)
    requires IsTextMapFormat(format)
    requires i < |pairs| && IsCorruptPair(pairs[i])
    ensures ExtractOutcome(format, Some(pairs), local, shadowExtract) == (NoopContext, Some(ErrSpanContextCorrupted))
  {
    ScanFailure(EmptyScan, pairs);
  }

  /** A context-returning `Extract` is the context built from the scan, with the shadow part attached when the type matches. */
  lemma ExtractFromScan(
    format: Format, pairs: seq<Pair>, local: Option<ShadowTracer>, shadowExtract: ShadowExtractor)
    requires ExtractOutcome(format, Some(pairs), local, shadowExtract).0.CrdbContext?
    ensures ScanFrom(EmptyScan, pairs).Success?
    ensures var acc := ScanFrom(EmptyScan, pairs).value;
      var sc := ExtractOutcome(format, Some(pairs), local, shadowExtract).0.sc;
      && sc.traceId == acc.traceId && sc.spanId == acc.spanId && sc.baggage == acc.baggage
      && sc.recordingGroup == None && sc.recordingType == NoRecording
      && (sc.shadowTr.Some? <==> acc.shadowType != "" && local.Some? && Lower(acc.shadowType) == Lower(local.value.typ))
      && (sc.shadowTr.Some? ==> sc.shadowTr == local)
  {
  }

  /**
   * What a successful `Extract` returns: the ids are the last values under
   * the reserved names, the baggage holds exactly the `crdb-baggage-` pairs,
   * no recording is carried across, and the shadow context is attached only
   * when the carrier names the local shadow tracer's type.
   */
  lemma ExtractContents(
    format: Format, pairs: seq<Pair>, local: Option<ShadowTracer>, shadowExtract: ShadowExtractor)
    requires ExtractOutcome(format, Some(pairs), local, shadowExtract).0.CrdbContext?
    ensures var sc := ExtractOutcome(format, Some(pairs), local, shadowExtract).0.sc;
      && (forall i :: 0 <= i < |pairs| ==> !IsCorruptPair(pairs[i]))
      && (LastValue(pairs, FieldNameTraceID).None? ==> sc.traceId == 0)
      && (LastValue(pairs, FieldNameTraceID).Some? ==> ParseHex(LastValue(pairs, FieldNameTraceID).value) == Some(sc.traceId))
      && (LastValue(pairs, FieldNameSpanID).None? ==> sc.spanId == 0)
      && (LastValue(pairs, FieldNameSpanID).Some? ==> ParseHex(LastValue(pairs, FieldNameSpanID).value) == Some(sc.spanId))
      && Overlays(sc.baggage, map[], pairs, PrefixBaggage)
      && sc.recordingGroup == None && sc.recordingType == NoRecording
      && (sc.shadowTr.Some? <==>
            && LastValue(pairs, FieldNameShadowType).GetOr("") != ""
            && local.Some?
            && Lower(LastValue(pairs, FieldNameShadowType).GetOr("")) == Lower(local.value.typ))
      && (sc.shadowTr.Some? ==> sc.shadowTr == local)
  {
    ExtractFromScan(format, pairs, local, shadowExtract);
    ScanFailure(EmptyScan, pairs);
    ScanIds(EmptyScan, pairs);
    ScanBaggage(EmptyScan, pairs);
  }

  /** The `crdb-shadow-` pairs are what the local shadow tracer is handed, and nothing else is. */
  lemma ExtractShadowCarrier(pairs: seq<Pair>)
    requires ScanFrom(EmptyScan, pairs).Success?
    ensures Overlays(ScanFrom(EmptyScan, pairs).value.shadowCarrier, map[], pairs, PrefixShadow)
  {
    ScanShadowCarrier(EmptyScan, pairs);
  }

  // ---------------------------------------------------------------------
  // The round trip

  /** A string without upper-case ASCII letters is its own lower-case form. */
  lemma LowerOfLowercase(s: string)
    requires forall i :: 0 <= i < |s| ==> !('A' <= s[i] <= 'Z')
    ensures Lower(s) == s
  {
  }

  lemma FieldNamesAreLowercase()
    ensures Lower(FieldNameTraceID) == FieldNameTraceID
    ensures Lower(FieldNameSpanID) == FieldNameSpanID
    ensures Lower(FieldNameShadowType) == FieldNameShadowType
    ensures Lower(PrefixBaggage) == PrefixBaggage
    ensures Lower(PrefixShadow) == PrefixShadow
  {
    LowerOfLowercase(FieldNameTraceID);
    LowerOfLowercase(FieldNameSpanID);
    LowerOfLowercase(FieldNameShadowType);
    LowerOfLowercase(PrefixBaggage);
    LowerOfLowercase(PrefixShadow);
  }

  /** The baggage items `order` visits. */
  function Visited(bag: map<string, string>, order: seq<string>): (m: map<string, string>)
    requires forall k :: k in order ==> k in bag
    ensures forall k :: k in m <==> k in order
    ensures forall k :: k in m ==> m[k] == bag[k]
  {
    map k | k in order :: bag[k]
  }

  lemma VisitedCons(base: map<string, string>, bag: map<string, string>, order: seq<string>)
    requires order != [] && forall k :: k in order ==> k in bag
    ensures base[order[0] := bag[order[0]]] + Visited(bag, order[1..]) == base + Visited(bag, order)
  {
    assert forall k :: k in order <==> k == order[0] || k in order[1..];
  }

  /** The first step of reading back one baggage entry written by `Inject`. */
  lemma BaggagePairScan(acc: Scanned, k0: string, v: string)
    requires Lower(k0) == k0
    ensures ScanPair(acc, PrefixBaggage + k0, v) == Success(acc.(baggage := acc.baggage[k0 := v]))
  {
    var key := PrefixBaggage + k0;
    FieldNamesAreLowercase();
    LowerAppend(PrefixBaggage, k0);
    PrefixesDisjoint(key);
    assert PrefixBaggage <= key;
    assert key[|PrefixBaggage|..] == k0;
  }

  /** Reading the baggage entries `Inject` wrote adds each visited item, under its own key, to the baggage. */
  lemma {:induction false} BaggageScan(acc: Scanned, bag: map<string, string>, order: seq<string>)
    requires forall k :: k in order ==> k in bag && Lower(k) == k
    ensures ScanFrom(acc, BaggagePairs(bag, order)) == Success(acc.(baggage := acc.baggage + Visited(bag, order)))
    decreases |order|
  {
    var pairs := BaggagePairs(bag, order);
    if order == [] {
      assert acc.baggage + Visited(bag, order) == acc.baggage;
    } else {
      var k0 := order[0];
      BaggagePairScan(acc, k0, bag[k0]);
      var next := acc.(baggage := acc.baggage[k0 := bag[k0]]);
      assert pairs[0] == (PrefixBaggage + k0, bag[k0]);
      assert pairs[1..] == BaggagePairs(bag, order[1..]);
      assert ScanFrom(acc, pairs) == ScanFrom(next, pairs[1..]);
      BaggageScan(next, bag, order[1..]);
      VisitedCons(acc.baggage, bag, order);
    }
  }

  /** Reading the two id entries `Inject` wrote restores both ids. */
  lemma IdScan(acc: Scanned, sc: SpanContext)
    ensures ScanFrom(acc, IdPairs(sc)) == Success(acc.(traceId := sc.traceId, spanId := sc.spanId))
  {
    FieldNamesAreLowercase();
    ParseFormat(sc.traceId);
    ParseFormat(sc.spanId);
    var p := IdPairs(sc);
    var a1 := acc.(traceId := sc.traceId);
    assert ScanPair(acc, p[0].0, p[0].1) == Success(a1);
    assert ScanFrom(acc, p) == ScanFrom(a1, p[1..]);
    assert p[1..][1..] == [];
  }

  /**
   * `Extract` reads back what `Inject` wrote for a context without a shadow
   * tracer: the same trace id, span id and baggage. The recording group and
   * type are not propagated. Baggage keys must be lower case, since keys are
   * lowered on read.
   */
  lemma RoundTrip(
    sc: SpanContext, order: seq<string>, format: Format,
    local: Option<ShadowTracer>, shadowExtract: ShadowExtractor)
    requires IsTextMapFormat(format)
    requires sc.shadowTr == None
    requires sc.traceId != 0 || sc.spanId != 0
    requires forall k :: k in sc.baggage ==> Lower(k) == k
    requires IsEnumeration(order, sc.baggage.Keys)
    ensures ExtractOutcome(format, Some(InjectedPairs(sc, order)), local, shadowExtract)
         == (CrdbContext(SpanContext(sc.traceId, sc.spanId, sc.baggage, None, None, None, NoRecording)), None)
  {
    InjectedScan(sc, order);
  }

  /** Reading back everything `Inject` wrote for a context without a shadow tracer. */
  lemma InjectedScan(sc: SpanContext, order: seq<string>)
    requires forall k :: k in sc.baggage ==> Lower(k) == k
    requires IsEnumeration(order, sc.baggage.Keys)
    ensures ScanFrom(EmptyScan, InjectedPairs(sc, order)) == Success(Scanned(sc.traceId, sc.spanId, sc.baggage, "", map[]))
  {
    var afterIds := Scanned(sc.traceId, sc.spanId, map[], "", map[]);
    var ids := IdPairs(sc);
    var bag := BaggagePairs(sc.baggage, order);
    IdScan(EmptyScan, sc);
    assert ScanFrom(EmptyScan, ids) == Success(afterIds);
    BaggageScan(afterIds, sc.baggage, order);
    VisitedAll(sc.baggage, order);
    ScanAppend(EmptyScan, ids, bag);
  }

  /** Visiting every key of a map in some order visits the whole map. */
  lemma VisitedAll(bag: map<string, string>, order: seq<string>)
    requires IsEnumeration(order, bag.Keys)
    ensures map[] + Visited(bag, order) == bag
  {
  }
  // ---------------------------------------------------------------------
  // Round trip through a map carrier

  /**
   * The `opentracing.TextMapCarrier` a sequence of `Set` calls leaves behind:
   * every key written, holding the value of the last write to it.
   */
  function Carrier(writes: seq<Pair>): map<string, string>
    decreases |writes|
  {
    if writes == [] then map[]
    else
      var rest := Carrier(writes[1..]);
      if writes[0].0 in rest then rest else rest[writes[0].0 := writes[0].1]
  }

  /** The pairs `ForeachKey` hands out for carrier `m` when its range visits the keys in order `keys`. */
  function CarrierPairs(m: map<string, string>, keys: seq<string>): (r: seq<Pair>)
    requires forall i :: 0 <= i < |keys| ==> keys[i] in m
    ensures |r| == |keys|
    ensures forall i :: 0 <= i < |keys| ==> r[i] == (keys[i], m[keys[i]])
  {
    seq(|keys|, i requires 0 <= i < |keys| => (keys[i], m[keys[i]]))
  }

  /** Writes under lower-case keys: the carrier holds the last value per key, which is what the walk routes. */
  lemma {:induction false} CarrierLastValue(writes: seq<Pair>)
    requires forall i :: 0 <= i < |writes| ==> Lower(writes[i].0) == writes[i].0
    ensures forall k :: k in Carrier(writes) ==> Lower(k) == k
    ensures forall key :: LastValue(writes, key) == if key in Carrier(writes) then Some(Carrier(writes)[key]) else None
    decreases |writes|
  {
    if writes != [] {
      var p, rest := writes[0], writes[1..];
      assert writes == [p] + rest;
      CarrierLastValue(rest);
      forall key
        ensures LastValue(writes, key) == if key in Carrier(writes) then Some(Carrier(writes)[key]) else None
      {
        LastValueCons(p, rest, key);
      }
    }
  }

  /** Visiting distinct lower-case keys of a carrier: the last value under each key is the carrier's. */
  lemma {:induction false} CarrierPairsLastValue(m: map<string, string>, keys: seq<string>)
    requires forall i :: 0 <= i < |keys| ==> keys[i] in m && Lower(keys[i]) == keys[i]
    requires forall i, j :: 0 <= i < j < |keys| ==> keys[i] != keys[j]
    ensures forall key :: LastValue(CarrierPairs(m, keys), key) == if key in keys then Some(m[key]) else None
    decreases |keys|
  {
    if keys != [] {
      var q := CarrierPairs(m, keys);
      var rest := CarrierPairs(m, keys[1..]);
      assert q == [q[0]] + rest;
      CarrierPairsLastValue(m, keys[1..]);
      forall key
        ensures LastValue(q, key) == if key in keys then Some(m[key]) else None
      {
        LastValueCons(q[0], rest, key);
        assert key in keys <==> key == keys[0] || key in keys[1..];
      }
    }
  }

  /** An overlay is determined by the last values under its prefix. */
  lemma OverlaysUnique(
    m1: map<string, string>, m2: map<string, string>, base: map<string, string>, p: seq<Pair>, q: seq<Pair>, prefix: string)
    requires Overlays(m1, base, p, prefix) && Overlays(m2, base, q, prefix)
    requires forall key :: LastValue(p, key) == LastValue(q, key)
    ensures m1 == m2
  {
    forall k
      ensures k in m1 <==> k in m2
      ensures k in m1 ==> m1[k] == m2[k]
    {
      assert LastValue(p, prefix + k) == LastValue(q, prefix + k);
    }
  }

  /** Two walks that succeed and see the same last value under every key end in the same state. */
  lemma ScanSameLastValues(acc: Scanned, p: seq<Pair>, q: seq<Pair>)
    requires ScanFrom(acc, p).Success? && ScanFrom(acc, q).Success?
    requires forall key :: LastValue(p, key) == LastValue(q, key)
    ensures ScanFrom(acc, p) == ScanFrom(acc, q)
  {
    var a, b := ScanFrom(acc, p).value, ScanFrom(acc, q).value;
    ScanIds(acc, p);
    ScanIds(acc, q);
    ScanBaggage(acc, p);
    ScanBaggage(acc, q);
    OverlaysUnique(a.baggage, b.baggage, acc.baggage, p, q, PrefixBaggage);
    ScanShadowCarrier(acc, p);
    ScanShadowCarrier(acc, q);
    OverlaysUnique(a.shadowCarrier, b.shadowCarrier, acc.shadowCarrier, p, q, PrefixShadow);
    assert a == b;
  }

  /** Every key `Inject` writes for a context with lower-case baggage keys is lower case. */
  lemma InjectedKeysLowercase(sc: SpanContext, order: seq<string>)
    requires forall k :: k in sc.baggage ==> Lower(k) == k
    requires forall k :: k in order ==> k in sc.baggage
    ensures var w := InjectedPairs(sc, order);
      forall i :: 0 <= i < |w| ==> Lower(w[i].0) == w[i].0
  {
    FieldNamesAreLowercase();
    var w := InjectedPairs(sc, order);
    forall i | 0 <= i < |w|
      ensures Lower(w[i].0) == w[i].0
    {
      if i >= 2 {
        assert w[i] == BaggagePairs(sc.baggage, order)[i - 2];
        LowerAppend(PrefixBaggage, order[i - 2]);
      }
    }
  }

  /**
   * The round trip through a map carrier: `Inject` sets its entries in a
   * `TextMapCarrier`, and `Extract` reads them back in whatever order the
   * carrier's range visits its keys. The outcome is the same trace id, span id
   * and baggage in every order.
   */
  lemma MapCarrierRoundTrip(
    sc: SpanContext, order: seq<string>, visit: seq<string>, format: Format,
    local: Option<ShadowTracer>, shadowExtract: ShadowExtractor)
    requires IsTextMapFormat(format)
    requires sc.shadowTr == None
    requires sc.traceId != 0 || sc.spanId != 0
    requires forall k :: k in sc.baggage ==> Lower(k) == k
    requires IsEnumeration(order, sc.baggage.Keys)
    requires IsEnumeration(visit, Carrier(InjectedPairs(sc, order)).Keys)
    ensures ExtractOutcome(format, Some(CarrierPairs(Carrier(InjectedPairs(sc, order)), visit)), local, shadowExtract)
         == (CrdbContext(SpanContext(sc.traceId, sc.spanId, sc.baggage, None, None, None, NoRecording)), None)
  {
    var p := InjectedPairs(sc, order);
    var q := CarrierPairs(Carrier(p), visit);
    CarrierView(sc, order, visit);
    InjectedScan(sc, order);
    SameLastValuesScan(p, q);
    ScanSameLastValues(EmptyScan, p, q);
    ExtractSameScan(format, p, q, local, shadowExtract);
    RoundTrip(sc, order, format, local, shadowExtract);
  }

  /** Reading the carrier in any order sees the last value `Inject` wrote under each key, once per key. */
  lemma CarrierView(sc: SpanContext, order: seq<string>, visit: seq<string>)
    requires forall k :: k in sc.baggage ==> Lower(k) == k
    requires IsEnumeration(order, sc.baggage.Keys)
    requires IsEnumeration(visit, Carrier(InjectedPairs(sc, order)).Keys)
    ensures var p := InjectedPairs(sc, order);
      var q := CarrierPairs(Carrier(p), visit);
      && (forall key :: LastValue(p, key) == LastValue(q, key))
      && (forall i :: 0 <= i < |q| ==> LastValue(q, RoutingKey(q[i])) == Some(q[i].1))
  {
    var p := InjectedPairs(sc, order);
    var m := Carrier(p);
    InjectedKeysLowercase(sc, order);
    CarrierLastValue(p);
    CarrierPairsLastValue(m, visit);
  }

  /** `Extract` depends on the pairs only through the walk over them. */
  lemma ExtractSameScan(
    format: Format, p: seq<Pair>, q: seq<Pair>, local: Option<ShadowTracer>, shadowExtract: ShadowExtractor)
    requires ScanFrom(EmptyScan, p) == ScanFrom(EmptyScan, q)
    ensures ExtractOutcome(format, Some(p), local, shadowExtract) == ExtractOutcome(format, Some(q), local, shadowExtract)
  {
  }

  /**
   * A walk over pairs with distinct keys succeeds when a successful walk sees
   * the same last value under every key.
   */
  lemma SameLastValuesScan(p: seq<Pair>, q: seq<Pair>)
    requires ScanFrom(EmptyScan, p).Success?
    requires forall key :: LastValue(p, key) == LastValue(q, key)
    requires forall i :: 0 <= i < |q| ==> LastValue(q, RoutingKey(q[i])) == Some(q[i].1)
    ensures ScanFrom(EmptyScan, q).Success?
  {
    ScanIds(EmptyScan, p);
    ScanFailure(EmptyScan, q);
    forall i | 0 <= i < |q|
      ensures !IsCorruptPair(q[i])
    {
      assert LastValue(p, RoutingKey(q[i])) == Some(q[i].1);
    }
  }
}
