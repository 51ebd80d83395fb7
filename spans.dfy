/**
 * Span creation: the `Tracer` and its `StartSpan`, and `StartChildSpan`. The
 * decisive part is the materialization policy: a real span is allocated only
 * when something will consume it (a recording, a shadow tracer, the debug
 * sink, an explicit `Recordable` option or `forceRealSpans`); otherwise the
 * tracer hands out its shared noop span.
 */
module Tracing {
  import opened Wrappers
  import opened Text
  import opened Hex
  import opened SpanContexts

  // ---------------------------------------------------------------------
  // Start options

  /** `opentracing.SpanReferenceType`; `ChildOfRef` is the zero value. */
  datatype ReferenceType = ChildOfRef | FollowsFromRef | OtherReference

  datatype SpanReference = SpanReference(refType: ReferenceType, context: Context)

  /** The `opentracing.StartSpanOption`s a caller can pass; tag values are kept as their text. */
  datatype StartSpanOption =
    | Reference(ref: SpanReference)
    | RecordableOption
    | StartTime(time: int)
    | Tag(key: string, value: string)
    | Tags(tags: map<string, string>)

  /** `opentracing.StartSpanOptions`; a start time of 0 is the zero `time.Time`. */
  datatype StartSpanOptions = StartSpanOptions(references: seq<SpanReference>, startTime: int, tags: map<string, string>)

  const NoOptions: StartSpanOptions := StartSpanOptions([], 0, map[])

  /** `o.Apply(&sso)` for one option; `Recordable` applies nothing. */
  function ApplyOption(sso: StartSpanOptions, o: StartSpanOption): StartSpanOptions {
    match o
    case Reference(r) => sso.(references := sso.references + [r])
    case RecordableOption => sso
    case StartTime(t) => sso.(startTime := t)
    case Tag(k, v) => sso.(tags := sso.tags[k := v])
    case Tags(m) => sso.(tags := sso.tags + m)
  }

  /** The options after applying all of `opts` in order. */
  function Collect(opts: seq<StartSpanOption>): StartSpanOptions {
    if opts == [] then NoOptions else ApplyOption(Collect(opts[..|opts| - 1]), opts[|opts| - 1])
  }

  /** Whether option `o` sets tag `k`. */
  predicate SetsTag(o: StartSpanOption, k: string) {
    (o.Tag? && o.key == k) || (o.Tags? && k in o.tags)
  }

  /** The value option `o` gives tag `k`. */
  function TagValue(o: StartSpanOption, k: string): string
    requires SetsTag(o, k)
  {
    if o.Tags? && k in o.tags then o.tags[k] else o.value
  }

  /** Every collected reference comes from a `Reference` option; without such an option there are none. */
  lemma {:induction false} CollectReferences(opts: seq<StartSpanOption>)
    ensures forall j :: 0 <= j < |Collect(opts).references| ==>
      exists i :: 0 <= i < |opts| && opts[i] == Reference(Collect(opts).references[j])
    ensures (forall i :: 0 <= i < |opts| ==> !opts[i].Reference?) ==> Collect(opts).references == []
    decreases |opts|
  {
    if opts != [] {
      var init := opts[..|opts| - 1];
      CollectReferences(init);
      assert forall i :: 0 <= i < |init| ==> init[i] == opts[i];
      var refs := Collect(opts).references;
      var initRefs := Collect(init).references;
      var last := opts[|opts| - 1];
      assert refs == if last.Reference? then initRefs + [last.ref] else initRefs;
      forall j | 0 <= j < |refs| ensures exists i :: 0 <= i < |opts| && opts[i] == Reference(refs[j]) {
        if j < |initRefs| {
          var i :| 0 <= i < |init| && init[i] == Reference(initRefs[j]);
          assert opts[i] == Reference(refs[j]);
        } else {
          assert opts[|opts| - 1] == Reference(refs[j]);
        }
      }
      assert forall j :: 0 <= j < |refs| ==> exists i :: 0 <= i < |opts| && opts[i] == Reference(refs[j]);
    } else {
      assert Collect(opts).references == [];
    }
  }

  /** Without a `StartTime` option the start time stays zero. */
  lemma {:induction false} CollectNoStartTime(opts: seq<StartSpanOption>)
    requires forall i :: 0 <= i < |opts| ==> !opts[i].StartTime?
    ensures Collect(opts).startTime == 0
    decreases |opts|
  {
    if opts != [] {
      CollectNoStartTime(opts[..|opts| - 1]);
    } else {
      assert Collect(opts) == NoOptions;
    }
  }

  /** The start time is the one of the last `StartTime` option. */
  lemma {:induction false} CollectStartTime(opts: seq<StartSpanOption>, i: nat)
    requires i < |opts| && opts[i].StartTime?
    requires forall j :: i < j < |opts| ==> !opts[j].StartTime?
    ensures Collect(opts).startTime == opts[i].time
    decreases |opts|
  {
    if i < |opts| - 1 {
      CollectStartTime(opts[..|opts| - 1], i);
    }
  }

  /** A tag is present exactly when some option sets it. */
  lemma {:induction false} CollectTagKeys(opts: seq<StartSpanOption>, k: string)
    ensures k in Collect(opts).tags <==> exists i :: 0 <= i < |opts| && SetsTag(opts[i], k)
    decreases |opts|
  {
    if opts != [] {
      var init := opts[..|opts| - 1];
      CollectTagKeys(init, k);
      if exists i :: 0 <= i < |init| && SetsTag(init[i], k) {
        var i :| 0 <= i < |init| && SetsTag(init[i], k);
        assert opts[i] == init[i];
      }
      if exists i :: 0 <= i < |opts| && SetsTag(opts[i], k) {
        var i :| 0 <= i < |opts| && SetsTag(opts[i], k);
        if i < |init| { assert init[i] == opts[i]; }
      }
    } else {
      assert Collect(opts) == NoOptions;
    }
  }

  /** The last option that sets a tag gives its value. */
  lemma {:induction false} CollectTagValue(opts: seq<StartSpanOption>, k: string, i: nat)
    requires i < |opts| && SetsTag(opts[i], k)
    requires forall j :: i < j < |opts| ==> !SetsTag(opts[j], k)
    ensures k in Collect(opts).tags && Collect(opts).tags[k] == TagValue(opts[i], k)
    decreases |opts|
  {
    if i < |opts| - 1 {
      CollectTagValue(opts[..|opts| - 1], k, i);
    }
  }

  /** The option loop of `StartSpan`: applies every option and notes whether `Recordable` was among them. */
  method ApplyOptions(opts: seq<StartSpanOption>) returns (sso: StartSpanOptions, recordable: bool)
    ensures sso == Collect(opts)
    ensures recordable <==> RecordableOption in opts
  {
    sso := NoOptions;
    recordable := false;
    for i := 0 to |opts|
      invariant sso == Collect(opts[..i])
      invariant recordable <==> RecordableOption in opts[..i]
    {
      assert opts[..i + 1][..i] == opts[..i];
      sso := ApplyOption(sso, opts[i]);
      if opts[i] == RecordableOption {
        recordable := true;
      }
    }
    assert opts[..|opts|] == opts;
  }

  // ---------------------------------------------------------------------
  // The parent

  /** A reference `StartSpan` may take as the parent: child-of or follows-from, to a non-nil, non-noop context. */
  predicate Eligible(r: SpanReference) {
    && (r.refType == ChildOfRef || r.refType == FollowsFromRef)
    && r.context != NilContext
    && r.context != NoopContext
  }

  /** The position of the first eligible reference. */
  function FirstEligible(refs: seq<SpanReference>): (r: Option<nat>)
    ensures r.None? <==> forall i :: 0 <= i < |refs| ==> !Eligible(refs[i])
    ensures r.Some? ==> r.value < |refs| && Eligible(refs[r.value])
    ensures r.Some? ==> forall i :: 0 <= i < r.value ==> !Eligible(refs[i])
    decreases |refs|
  {
    if refs == [] then None
    else if Eligible(refs[0]) then Some(0)
    else
      match FirstEligible(refs[1..])
      case None =>
        assert forall i :: 1 <= i < |refs| ==> refs[i] == refs[1..][i - 1];
        None
      case Some(j) =>
        assert forall i :: 1 <= i < j + 1 ==> refs[i] == refs[1..][i - 1];
        Some(j + 1)
  }

  /**
   * The parent must be one of this tracer's own contexts: the type assertion
   * to `*spanContext` panics on a context of another tracer implementation.
   */
  predicate CanResolve(refs: seq<SpanReference>) {
    FirstEligible(refs).Some? ==> refs[FirstEligible(refs).value].context.CrdbContext?
  }

  /** What the reference loop settles on: no parent, or the parent context and how it is referenced. */
  datatype Parent = NoParent | Parent(refType: ReferenceType, sc: SpanContext)

  function ParentOf(refs: seq<SpanReference>): Parent
    requires CanResolve(refs)
  {
    match FirstEligible(refs)
    case None => NoParent
    case Some(i) => Parent(refs[i].refType, refs[i].context.sc)
  }

  /** The reference type handed to the shadow tracer: the parent's, or the zero value. */
  function LinkType(p: Parent): ReferenceType {
    if p.Parent? then p.refType else ChildOfRef
  }

  /** The reference loop of `StartSpan`: skips ineligible references and stops at the first parent. */
  method ResolveParent(refs: seq<SpanReference>) returns (p: Parent)
    requires CanResolve(refs)
    ensures p == ParentOf(refs)
  {
    p := NoParent;
    var i := 0;
    while i < |refs|
      invariant 0 <= i <= |refs|
      invariant forall j :: 0 <= j < i ==> !Eligible(refs[j])
    {
      var r := refs[i];
      if r.refType != ChildOfRef && r.refType != FollowsFromRef {
        i := i + 1;
        continue;
      }
      if r.context == NilContext || r.context == NoopContext {
        i := i + 1;
        continue;
      }
      assert FirstEligible(refs) == Some(i);
      p := Parent(r.refType, r.context.sc);
      return;
    }
  }

  /** How a new span's recording is decided. */
  datatype RecordingPlan =
    | NotRecording
    | JoinRecording(group: SpanGroup, typ: RecordingType)
    | NewRecording(typ: RecordingType)

  /** A non-empty `Snowball` baggage item asks for snowball recording; a missing one reads as empty. */
  predicate HasSnowball(baggage: map<string, string>) {
    Snowball in baggage && baggage[Snowball] != ""
  }

  /** `StartSpan`: join the parent's recording, or start a snowball recording when its baggage asks for one. */
  function InheritedRecording(p: Parent): RecordingPlan {
    if p.NoParent? then NotRecording
    else if p.sc.recordingGroup.Some? then JoinRecording(p.sc.recordingGroup.value, p.sc.recordingType)
    else if HasSnowball(p.sc.baggage) then NewRecording(SnowballRecording)
    else NotRecording
  }

  /** A child keeps using its parent's shadow tracer, whatever the tracer's current one is. */
  function EffectiveShadow(p: Parent, current: Option<ShadowTracer>): Option<ShadowTracer> {
    if p.Parent? then p.sc.shadowTr else current
  }

  // ---------------------------------------------------------------------
  // The materialization policy

  /** The first fast path: a single reference to a noop context. */
  predicate SingleNoopReference(opts: seq<StartSpanOption>) {
    |opts| == 1 && opts[0].Reference? && opts[0].ref.context == NoopContext
  }

  /** The second fast path: no options and nothing enabled. */
  predicate IdleTracer(opts: seq<StartSpanOption>, netTrace: bool, shadow: Option<ShadowTracer>, force: bool) {
    |opts| == 0 && !netTrace && shadow.None? && !force
  }

  /** The general check: nothing would consume a real span. */
  predicate NothingConsumes(opts: seq<StartSpanOption>, netTrace: bool, shadow: Option<ShadowTracer>, force: bool)
    requires CanResolve(Collect(opts).references)
  {
    var p := ParentOf(Collect(opts).references);
    && RecordableOption !in opts
    && InheritedRecording(p) == NotRecording
    && EffectiveShadow(p, shadow).None?
    && !netTrace
    && !force
  }

  /** When `StartSpan` hands out the tracer's noop span. */
  predicate ReturnsNoopSpan(opts: seq<StartSpanOption>, netTrace: bool, shadow: Option<ShadowTracer>, force: bool)
    requires CanResolve(Collect(opts).references)
  {
    || SingleNoopReference(opts)
    || IdleTracer(opts, netTrace, shadow, force)
    || NothingConsumes(opts, netTrace, shadow, force)
  }

  // ---------------------------------------------------------------------
  // Spans and the tracer

  /** The state of a span that span creation sets; ids are `uint64`. */
  datatype SpanFields = SpanFields(
    operation: string,
    startTime: int,
    duration: int,
    tags: map<string, string>,
    baggage: map<string, string>,
    traceId: Uint64,
    spanId: Uint64,
    parentSpanId: Uint64,
    recordingType: RecordingType,
    shadowTr: Option<ShadowTracer>,
    shadowCtx: Option<ShadowContext>,
    netTr: bool)

  /** `rand.Int63()`: a non-negative 63-bit draw, converted to `uint64` for an id. */
  type Int63 = x: int | 0 <= x < 0x8000_0000_0000_0000

  /**
   * `linkShadowSpan`: opens the mirrored span in the shadow tracer under the
   * given parent shadow context and reference type, and yields its context.
   */
  type ShadowOpener = (ShadowTracer, Option<ShadowContext>, ReferenceType) -> ShadowContext

  /** The baggage a new span starts with: a copy of the parent's. */
  function ParentBaggage(p: Parent): map<string, string> {
    if p.Parent? then p.sc.baggage else map[]
  }

  /** The context of the mirrored span when there is a shadow tracer in effect. */
  function MirroredContext(p: Parent, st: Option<ShadowTracer>, shadowOpen: ShadowOpener): Option<ShadowContext> {
    if st.Some? then Some(shadowOpen(st.value, if p.Parent? then p.sc.shadowCtx else None, LinkType(p))) else None
  }

  /** The span `StartSpan` builds once it has decided on a real span: from the options, the parent and the shadow tracer in effect. */
  function BuiltSpan(
    op: string, sso: StartSpanOptions, p: Parent, st: Option<ShadowTracer>, recordingType: RecordingType,
    netTrace: bool, now: int, traceDraw: Int63, spanDraw: Int63, shadowOpen: ShadowOpener): (f: SpanFields)
    ensures f.operation == op && f.spanId == spanDraw && f.duration == -1 && f.netTr == netTrace
    ensures f.startTime == if sso.startTime == 0 then now else sso.startTime
  {
    SpanFields(
      op,
      if sso.startTime == 0 then now else sso.startTime,
      -1,
      if netTrace || st.Some? then sso.tags + ParentBaggage(p) else sso.tags,
      ParentBaggage(p),
      if p.Parent? then p.sc.traceId else traceDraw,
      spanDraw,
      if p.Parent? then p.sc.spanId else 0,
      recordingType,
      st,
      MirroredContext(p, st, shadowOpen),
      netTrace)
  }

  /** The recording type a span starts with under a recording plan. */
  function PlanType(plan: RecordingPlan): RecordingType {
    match plan
    case NotRecording => NoRecording
    case JoinRecording(_, t) => t
    case NewRecording(t) => t
  }

  /** The real span `StartSpan` builds for these options. */
  function PlannedSpan(
    op: string, opts: seq<StartSpanOption>, netTrace: bool, shadow: Option<ShadowTracer>,
    now: int, traceDraw: Int63, spanDraw: Int63, shadowOpen: ShadowOpener): SpanFields
    requires CanResolve(Collect(opts).references)
  {
    var p := ParentOf(Collect(opts).references);
    BuiltSpan(op, Collect(opts), p, EffectiveShadow(p, shadow), PlanType(InheritedRecording(p)),
              netTrace, now, traceDraw, spanDraw, shadowOpen)
  }

  // ---------------------------------------------------------------------
  // What the policy and the plan promise

  /** A lone reference to a noop context names no parent and carries no `Recordable`. */
  lemma SingleNoopReferenceHasNoParent(opts: seq<StartSpanOption>)
    requires SingleNoopReference(opts)
    ensures CanResolve(Collect(opts).references) && ParentOf(Collect(opts).references) == NoParent
    ensures RecordableOption !in opts
  {
    assert opts[..0] == [];
    assert Collect(opts).references == [opts[0].ref];
  }

  /**
   * The noop decision: the no-option fast path is only a shortcut of the
   * general check, `Recordable` always gets a real span, and with the debug
   * sink or `forceRealSpans` on only the single-noop-reference fast path
   * still gives the noop span.
   */
  lemma NoopPolicy(opts: seq<StartSpanOption>, netTrace: bool, shadow: Option<ShadowTracer>, force: bool)
    requires CanResolve(Collect(opts).references)
    ensures ReturnsNoopSpan(opts, netTrace, shadow, force)
        <==> SingleNoopReference(opts) || NothingConsumes(opts, netTrace, shadow, force)
    ensures RecordableOption in opts ==> !ReturnsNoopSpan(opts, netTrace, shadow, force)
    ensures netTrace || force ==> (ReturnsNoopSpan(opts, netTrace, shadow, force) <==> SingleNoopReference(opts))
  {
    if IdleTracer(opts, netTrace, shadow, force) {
      assert opts == [] && Collect(opts) == NoOptions;
    }
    if SingleNoopReference(opts) {
      SingleNoopReferenceHasNoParent(opts);
    }
  }

  /** A parent that is recording, asks for a snowball recording or has a shadow tracer always gets a real child. */
  lemma ConsumedParentGivesRealSpan(opts: seq<StartSpanOption>, netTrace: bool, shadow: Option<ShadowTracer>, force: bool)
    requires CanResolve(Collect(opts).references)
    requires ParentOf(Collect(opts).references).Parent?
    requires var p := ParentOf(Collect(opts).references);
      p.sc.recordingGroup.Some? || HasSnowball(p.sc.baggage) || p.sc.shadowTr.Some?
    ensures !ReturnsNoopSpan(opts, netTrace, shadow, force)
  {
    if SingleNoopReference(opts) {
      SingleNoopReferenceHasNoParent(opts);
    }
  }

  /**
   * A span with a parent: the first child-of or follows-from reference to a
   * live context. It keeps the parent's trace, baggage and shadow tracer,
   * records the parent's span id, and joins the parent's recording or
   * starts a snowball one.
   */
  lemma ParentInheritance(
    op: string, opts: seq<StartSpanOption>, netTrace: bool, shadow: Option<ShadowTracer>,
    now: int, traceDraw: Int63, spanDraw: Int63, shadowOpen: ShadowOpener, i: nat)
    requires var refs := Collect(opts).references;
      && i < |refs| && Eligible(refs[i]) && refs[i].context.CrdbContext?
      && forall j :: 0 <= j < i ==> !Eligible(refs[j])
    ensures CanResolve(Collect(opts).references)
    ensures var sc := Collect(opts).references[i].context.sc;
            var f := PlannedSpan(op, opts, netTrace, shadow, now, traceDraw, spanDraw, shadowOpen);
      && f.traceId == sc.traceId
      && f.parentSpanId == sc.spanId
      && f.baggage == sc.baggage
      && f.shadowTr == sc.shadowTr
      && f.shadowCtx == (if sc.shadowTr.Some?
                         then Some(shadowOpen(sc.shadowTr.value, sc.shadowCtx, Collect(opts).references[i].refType))
                         else None)
      && f.recordingType == (if sc.recordingGroup.Some? then sc.recordingType
                             else if HasSnowball(sc.baggage) then SnowballRecording
                             else NoRecording)
  {
    assert FirstEligible(Collect(opts).references) == Some(i);
  }

  /** A root span: no usable reference. It gets the drawn trace id, no parent id, no baggage and the tracer's shadow tracer. */
  lemma RootSpan(
    op: string, opts: seq<StartSpanOption>, netTrace: bool, shadow: Option<ShadowTracer>,
    now: int, traceDraw: Int63, spanDraw: Int63, shadowOpen: ShadowOpener)
    requires forall j :: 0 <= j < |Collect(opts).references| ==> !Eligible(Collect(opts).references[j])
    ensures CanResolve(Collect(opts).references)
    ensures var f := PlannedSpan(op, opts, netTrace, shadow, now, traceDraw, spanDraw, shadowOpen);
      && f.traceId == traceDraw
      && f.parentSpanId == 0
      && f.baggage == map[]
      && f.shadowTr == shadow
      && f.shadowCtx == (if shadow.Some? then Some(shadowOpen(shadow.value, None, ChildOfRef)) else None)
      && f.recordingType == NoRecording
  {
    assert FirstEligible(Collect(opts).references).None?;
  }

  /**
   * The tags of a new span: those the options set, the last setting winning,
   * and, when the debug sink or a shadow tracer is in effect, the baggage
   * items on top of them.
   */
  lemma PlannedTags(
    op: string, opts: seq<StartSpanOption>, netTrace: bool, shadow: Option<ShadowTracer>,
    now: int, traceDraw: Int63, spanDraw: Int63, shadowOpen: ShadowOpener, k: string)
    requires CanResolve(Collect(opts).references)
    ensures var f := PlannedSpan(op, opts, netTrace, shadow, now, traceDraw, spanDraw, shadowOpen);
            var mirrored := netTrace || f.shadowTr.Some?;
      && (k in f.tags <==> (exists i :: 0 <= i < |opts| && SetsTag(opts[i], k)) || (mirrored && k in f.baggage))
      && (mirrored && k in f.baggage ==> f.tags[k] == f.baggage[k])
  {
    CollectTagKeys(opts, k);
  }

  /** The value of a tag no baggage item overrides comes from the last option that sets it. */
  lemma PlannedTagValue(
    op: string, opts: seq<StartSpanOption>, netTrace: bool, shadow: Option<ShadowTracer>,
    now: int, traceDraw: Int63, spanDraw: Int63, shadowOpen: ShadowOpener, k: string, i: nat)
    requires CanResolve(Collect(opts).references)
    requires i < |opts| && SetsTag(opts[i], k)
    requires forall j :: i < j < |opts| ==> !SetsTag(opts[j], k)
    requires var f := PlannedSpan(op, opts, netTrace, shadow, now, traceDraw, spanDraw, shadowOpen);
      !((netTrace || f.shadowTr.Some?) && k in f.baggage)
    ensures var f := PlannedSpan(op, opts, netTrace, shadow, now, traceDraw, spanDraw, shadowOpen);
      k in f.tags && f.tags[k] == TagValue(opts[i], k)
  {
    CollectTagValue(opts, k, i);
  }

  /** The start time is the last `StartTime` option's, or the clock when there is none or it is the zero time. */
  lemma PlannedStartTime(
    op: string, opts: seq<StartSpanOption>, netTrace: bool, shadow: Option<ShadowTracer>,
    now: int, traceDraw: Int63, spanDraw: Int63, shadowOpen: ShadowOpener, i: nat)
    requires CanResolve(Collect(opts).references)
    requires i < |opts| && opts[i].StartTime?
    requires forall j :: i < j < |opts| ==> !opts[j].StartTime?
    ensures PlannedSpan(op, opts, netTrace, shadow, now, traceDraw, spanDraw, shadowOpen).startTime
         == if opts[i].time == 0 then now else opts[i].time
  {
    CollectStartTime(opts, i);
  }

  lemma PlannedStartTimeNow(
    op: string, opts: seq<StartSpanOption>, netTrace: bool, shadow: Option<ShadowTracer>,
    now: int, traceDraw: Int63, spanDraw: Int63, shadowOpen: ShadowOpener)
    requires CanResolve(Collect(opts).references)
    requires forall j :: 0 <= j < |opts| ==> !opts[j].StartTime?
    ensures PlannedSpan(op, opts, netTrace, shadow, now, traceDraw, spanDraw, shadowOpen).startTime == now
  {
    CollectNoStartTime(opts);
  }

  /** The first part of the fill in `StartSpan`: start time, duration, option tags and ids. */
  method StartFill(
    t: Tracer, op: string, sso: StartSpanOptions, parent: Parent, now: int, traceDraw: Int63, spanDraw: Int63)
    returns (s: Span)
    ensures fresh(s) && s.tracer == t && s.recordingGroup.None?
    ensures s.Fields() == SpanFields(op, if sso.startTime == 0 then now else sso.startTime, -1, sso.tags, map[],
                                     if parent.Parent? then parent.sc.traceId else traceDraw, spanDraw, 0,
                                     NoRecording, None, None, false)
  {
    s := new Span(t, op, if sso.startTime == 0 then now else sso.startTime);
    s.duration := -1;
    assert map[] + sso.tags == sso.tags;
    s.SetTags(sso.tags);
    if parent.NoParent? {
      s.traceId := traceDraw;
    } else {
      s.traceId := parent.sc.traceId;
    }
    s.spanId := spanDraw;
  }

  /** The field-by-field fill of a new span in `StartSpan`, after the noop checks. */
  method FillSpan(
    t: Tracer, op: string, sso: StartSpanOptions, parent: Parent, shadowTr: Option<ShadowTracer>,
    recordingGroup: Option<SpanGroup>, recordingType: RecordingType,
    netTrace: bool, now: int, traceDraw: Int63, spanDraw: Int63, shadowOpen: ShadowOpener)
    returns (s: Span)
    ensures fresh(s) && s.tracer == t && s.recordingGroup == recordingGroup
    ensures s.Fields() == BuiltSpan(op, sso, parent, shadowTr, if recordingGroup.Some? then recordingType else NoRecording,
                                    netTrace, now, traceDraw, spanDraw, shadowOpen)
  {
    s := StartFill(t, op, sso, parent, now, traceDraw, spanDraw);
    LinkAndRecord(s, parent, shadowTr, recordingGroup, recordingType, shadowOpen);
    InheritFromParent(s, parent, netTrace, shadowTr);
  }

  /** The middle of the fill in `StartSpan`: the shadow link, then the recording. */
  method LinkAndRecord(
    s: Span, parent: Parent, shadowTr: Option<ShadowTracer>,
    recordingGroup: Option<SpanGroup>, recordingType: RecordingType, shadowOpen: ShadowOpener)
    modifies s
    requires s.shadowTr.None? && s.shadowCtx.None? && s.recordingGroup.None?
    ensures s.recordingGroup == recordingGroup
    ensures s.Fields() == old(s.Fields()).(
      shadowTr := shadowTr,
      shadowCtx := MirroredContext(parent, shadowTr, shadowOpen),
      recordingType := if recordingGroup.Some? then recordingType else old(s.recordingType))
  {
    if shadowTr.Some? {
      var parentShadowCtx := if parent.Parent? then parent.sc.shadowCtx else None;
      s.LinkShadowSpan(shadowTr.value, parentShadowCtx, LinkType(parent), shadowOpen);
    }
    if recordingGroup.Some? {
      s.EnableRecording(recordingGroup.value, recordingType);
    }
  }

  /** The end of the fill in `StartSpan`: the debug sink, the parent's span id and baggage, and baggage mirrored as tags. */
  method InheritFromParent(s: Span, parent: Parent, netTrace: bool, shadowTr: Option<ShadowTracer>)
    modifies s
    requires s.baggage == map[] && !s.netTr && s.parentSpanId == 0
    ensures s.recordingGroup == old(s.recordingGroup)
    ensures s.Fields() == old(s.Fields()).(
      netTr := netTrace,
      parentSpanId := if parent.Parent? then parent.sc.spanId else 0,
      baggage := ParentBaggage(parent),
      tags := if netTrace || shadowTr.Some? then old(s.tags) + ParentBaggage(parent) else old(s.tags))
  {
    if netTrace {
      s.netTr := true;
    }
    if parent.Parent? {
      s.parentSpanId := parent.sc.spanId;
      s.CopyBaggage(parent.sc.baggage);
    }
    if netTrace || shadowTr.Some? {
      s.SetTags(s.baggage);
    }
  }

  class Tracer {
    /** Create real spans always, whatever the recording and shadow configuration. */
    var forceRealSpans: bool
    /** The current shadow tracer, if any. */
    var shadowTracer: Option<ShadowTracer>

    constructor (shadow: Option<ShadowTracer>)
      ensures forceRealSpans == false && shadowTracer == shadow
    {
      forceRealSpans := false;
      shadowTracer := shadow;
    }

    /** Sets `forceRealSpans` and returns its previous value. */
    method SetForceRealSpans(v: bool) returns (prev: bool)
      modifies this
      ensures prev == old(forceRealSpans)
      ensures forceRealSpans == v && shadowTracer == old(shadowTracer)
    {
      prev := forceRealSpans;
      forceRealSpans := v;
    }

    /** Replaces the shadow tracer (`setShadowTracer`); closing the old one is not modelled. */
    method SetShadowTracer(shadow: Option<ShadowTracer>)
      modifies this
      ensures shadowTracer == shadow && forceRealSpans == old(forceRealSpans)
    {
      shadowTracer := shadow;
    }

    /**
     * `Tracer.StartSpan`. `netTrace` is the debug-sink setting, `now` the
     * clock, `traceDraw` and `spanDraw` the two random draws.
     */
    method StartSpan(
      op: string, opts: seq<StartSpanOption>, netTrace: bool, now: int,
      traceDraw: Int63, spanDraw: Int63, shadowOpen: ShadowOpener)
      returns (h: SpanHandle)
      requires CanResolve(Collect(opts).references)
      ensures h.NoopSpan? <==> ReturnsNoopSpan(opts, netTrace, shadowTracer, forceRealSpans)
      ensures h.NoopSpan? ==> h.owner == this
      ensures h.RealSpan? ==>
        && fresh(h.span)
        && h.span.tracer == this
        && h.span.Fields() == PlannedSpan(op, opts, netTrace, shadowTracer, now, traceDraw, spanDraw, shadowOpen)
        && match InheritedRecording(ParentOf(Collect(opts).references))
           case NotRecording => h.span.recordingGroup.None?
           case JoinRecording(g, _) => h.span.recordingGroup == Some(g)
           case NewRecording(_) => h.span.recordingGroup.Some? && fresh(h.span.recordingGroup.value)
    {
      if |opts| == 1 && opts[0].Reference? && opts[0].ref.context == NoopContext {
        return NoopSpan(this);
      }
      var shadowTr := shadowTracer;
      if |opts| == 0 && !netTrace && shadowTr.None? && !forceRealSpans {
        return NoopSpan(this);
      }

      var sso, recordable := ApplyOptions(opts);
      var parent := ResolveParent(sso.references);
      var recordingGroup: Option<SpanGroup> := None;
      var recordingType := NoRecording;
      if parent.Parent? {
        if parent.sc.recordingGroup.Some? {
          recordingGroup := parent.sc.recordingGroup;
          recordingType := parent.sc.recordingType;
        } else if HasSnowball(parent.sc.baggage) {
          var g := new SpanGroup();
          recordingGroup := Some(g);
          recordingType := SnowballRecording;
        }
        shadowTr := parent.sc.shadowTr;
      }

      if !recordable && recordingGroup.None? && shadowTr.None? && !netTrace && !forceRealSpans {
        return NoopSpan(this);
      }

      var s := FillSpan(this, op, sso, parent, shadowTr, recordingGroup, recordingType,
                        netTrace, now, traceDraw, spanDraw, shadowOpen);
      return RealSpan(s);
    }
  }

  /** A `span`: its fields as span creation fills them in. */
  class Span {
    const tracer: Tracer
    var operation: string
    var startTime: int
    var duration: int
    var tags: map<string, string>
    var baggage: map<string, string>
    var traceId: Uint64
    var spanId: Uint64
    var parentSpanId: Uint64
    var recordingGroup: Option<SpanGroup>
    var recordingType: RecordingType
    var shadowTr: Option<ShadowTracer>
    var shadowCtx: Option<ShadowContext>
    var netTr: bool

    /** `&span{tracer: t, operation: op, startTime: start}`: every other field at its zero value. */
    constructor (t: Tracer, op: string, start: int)
      ensures tracer == t && recordingGroup.None?
      ensures Fields() == SpanFields(op, start, 0, map[], map[], 0, 0, 0, NoRecording, None, None, false)
    {
      tracer := t;
      operation := op;
      startTime := start;
      duration := 0;
      tags := map[];
      baggage := map[];
      traceId := 0;
      spanId := 0;
      parentSpanId := 0;
      recordingGroup := None;
      recordingType := NoRecording;
      shadowTr := None;
      shadowCtx := None;
      netTr := false;
    }

    function Fields(): SpanFields
      reads this
    {
      SpanFields(operation, startTime, duration, tags, baggage, traceId, spanId, parentSpanId,
                 recordingType, shadowTr, shadowCtx, netTr)
    }

    /** `isRecording`: the span belongs to a recording group. */
    predicate IsRecording()
      reads this
    {
      recordingGroup.Some?
    }

    /** `SetTag` for each entry of `m` (the tag record only; mirroring to the shadow span and debug sink is not modelled). */
    method SetTags(m: map<string, string>)
      modifies this
      ensures recordingGroup == old(recordingGroup)
      ensures Fields() == old(Fields()).(tags := old(tags) + m)
    {
      tags := CopyEntries(tags, m);
    }

    /** The baggage copy from a parent: a fresh map holding the parent's items, left nil when there are none. */
    method CopyBaggage(src: map<string, string>)
      modifies this
      requires baggage == map[]
      ensures recordingGroup == old(recordingGroup)
      ensures Fields() == old(Fields()).(baggage := src)
    {
      if |src| > 0 {
        baggage := CopyEntries(map[], src);
      }
    }

    /** `linkShadowSpan`: mirrors the span in shadow tracer `st` and keeps the mirrored span's context. */
    method LinkShadowSpan(st: ShadowTracer, parentCtx: Option<ShadowContext>, refType: ReferenceType, shadowOpen: ShadowOpener)
      modifies this
      ensures recordingGroup == old(recordingGroup)
      ensures Fields() == old(Fields()).(shadowTr := Some(st), shadowCtx := Some(shadowOpen(st, parentCtx, refType)))
    {
      shadowTr := Some(st);
      shadowCtx := Some(shadowOpen(st, parentCtx, refType));
    }

    /** `enableRecording`: the span joins `group` with recording type `typ`. */
    method EnableRecording(group: SpanGroup, typ: RecordingType)
      modifies this
      ensures recordingGroup == Some(group)
      ensures Fields() == old(Fields()).(recordingType := typ)
    {
      recordingGroup := Some(group);
      recordingType := typ;
    }
  }

  /** A span handle: the tracer's shared noop span, or a real span. */
  datatype SpanHandle = NoopSpan(owner: Tracer) | RealSpan(span: Span)

  /** A span whose events go nowhere: it is not recording, has no debug sink and no shadow span. */
  predicate DropsEvents(f: SpanFields, recording: bool) {
    !recording && !f.netTr && f.shadowTr.None?
  }

  /**
   * `IsBlackHoleSpan`: the shared noop span, or a real span whose events are
   * all dropped (its callers handle the noop span before asking, so a real
   * span can be a black hole too).
   */
  predicate IsBlackHoleSpan(h: SpanHandle)
    reads if h.RealSpan? then {h.span} else {}
  {
    h.NoopSpan? || DropsEvents(h.span.Fields(), h.span.IsRecording())
  }

  /** `span.Tracer()`: the tracer a span handle belongs to. */
  function TracerOf(h: SpanHandle): Tracer {
    if h.NoopSpan? then h.owner else h.span.tracer
  }

  /**
   * The copy loops of span creation (`SetTag` over a tag map, the baggage
   * copy): a range over `src` storing each entry into `dest`.
   */
  method CopyEntries(dest: map<string, string>, src: map<string, string>) returns (r: map<string, string>)
    ensures r == dest + src
  {
    r := dest;
    var remaining := src.Keys;
    while remaining != {}
      invariant remaining <= src.Keys
      invariant r == dest + (map k | k in src && k !in remaining :: src[k])
      decreases remaining
    {
      var k :| k in remaining;
      r := r[k := src[k]];
      remaining := remaining - {k};
    }
    assert (map k | k in src && k !in remaining :: src[k]) == src;
  }

  // ---------------------------------------------------------------------
  // StartChildSpan

  /** The span `StartChildSpan` builds from a real parent. */
  function ChildSpan(op: string, parent: SpanFields, recording: bool, now: int, spanDraw: Int63, shadowOpen: ShadowOpener): (f: SpanFields)
    ensures f.operation == op && f.startTime == now && f.spanId == spanDraw && f.duration == 0 && !f.netTr
  {
    SpanFields(
      op,
      now,
      0,
      if parent.netTr || parent.shadowTr.Some? then parent.baggage else map[],
      parent.baggage,
      parent.traceId,
      spanDraw,
      parent.spanId,
      if recording then parent.recordingType else NoRecording,
      parent.shadowTr,
      if parent.shadowTr.Some? then Some(shadowOpen(parent.shadowTr.value, parent.shadowCtx, ChildOfRef)) else None,
      false)
  }

  /** The fill of a child span from the fields of a real parent, before its recording is decided. */
  method FillChild(t: Tracer, p: SpanFields, op: string, now: int, spanDraw: Int63, shadowOpen: ShadowOpener)
    returns (s: Span)
    ensures fresh(s) && s.tracer == t && s.recordingGroup.None?
    ensures s.Fields() == ChildSpan(op, p, false, now, spanDraw, shadowOpen)
  {
    s := StartChild(t, p, op, now, spanDraw);
    if p.shadowTr.Some? {
      s.LinkShadowSpan(p.shadowTr.value, p.shadowCtx, ChildOfRef, shadowOpen);
    }
    if p.netTr || p.shadowTr.Some? {
      assert map[] + s.baggage == s.baggage;
      s.SetTags(s.baggage);
    }
  }

  /** The first part of the child fill: the parent's span id, baggage and trace id, and a new span id. */
  method StartChild(t: Tracer, p: SpanFields, op: string, now: int, spanDraw: Int63)
    returns (s: Span)
    ensures fresh(s) && s.tracer == t && s.recordingGroup.None?
    ensures s.Fields() == SpanFields(op, now, 0, map[], p.baggage, p.traceId, spanDraw, p.spanId,
                                     NoRecording, None, None, false)
  {
    s := new Span(t, op, now);
    s.parentSpanId := p.spanId;
    s.CopyBaggage(p.baggage);
    s.traceId := p.traceId;
    s.spanId := spanDraw;
  }

  /**
   * `StartChildSpan`: a child of a local parent span. A black-hole parent
   * gives the noop span of the parent's tracer; the parent is left unchanged.
   */
  method StartChildSpan(
    op: string, parent: SpanHandle, separateRecording: bool, now: int, spanDraw: Int63, shadowOpen: ShadowOpener)
    returns (h: SpanHandle)
    ensures IsBlackHoleSpan(parent) ==> h == NoopSpan(TracerOf(parent))
    ensures !IsBlackHoleSpan(parent) ==>
      && parent.RealSpan? && !DropsEvents(parent.span.Fields(), parent.span.IsRecording())
      && h.RealSpan? && fresh(h.span)
      && h.span.tracer == parent.span.tracer
      && h.span.Fields() == ChildSpan(op, parent.span.Fields(), parent.span.IsRecording(), now, spanDraw, shadowOpen)
      && (parent.span.recordingGroup.None? ==> h.span.recordingGroup.None?)
      && (parent.span.recordingGroup.Some? && !separateRecording ==> h.span.recordingGroup == parent.span.recordingGroup)
      && (parent.span.recordingGroup.Some? && separateRecording ==>
            h.span.recordingGroup.Some? && fresh(h.span.recordingGroup.value))
  {
    if IsBlackHoleSpan(parent) {
      return NoopSpan(TracerOf(parent));
    }
    var p := parent.span;
    var s := FillChild(p.tracer, p.Fields(), op, now, spanDraw, shadowOpen);
    if p.IsRecording() {
      var group := p.recordingGroup.value;
      if separateRecording {
        group := new SpanGroup();
      }
      s.EnableRecording(group, p.recordingType);
    }
    return RealSpan(s);
  }

  // ---------------------------------------------------------------------
  // StartChildSpan against StartSpan

  /**
   * The context a local span hands to `StartSpan` through `ChildOf`: its ids,
   * baggage, shadow link and recording. (`span.Context` is not part of this model;
   * this is the shape it has.)
   */
  function ContextOfSpan(f: SpanFields, group: Option<SpanGroup>): SpanContext {
    SpanContext(f.traceId, f.spanId, f.baggage, f.shadowTr, f.shadowCtx, group, f.recordingType)
  }

  /** The options of `StartSpan(op, ChildOf(parent.Context()))`. */
  function ChildOfOptions(f: SpanFields, group: Option<SpanGroup>): (opts: seq<StartSpanOption>)
    ensures CanResolve(Collect(opts).references)
    ensures ParentOf(Collect(opts).references) == Parent(ChildOfRef, ContextOfSpan(f, group))
  {
    var opts := [Reference(SpanReference(ChildOfRef, CrdbContext(ContextOfSpan(f, group))))];
    assert opts[..0] == [];
    assert Collect(opts).references == [opts[0].ref];
    assert FirstEligible(Collect(opts).references) == Some(0);
    opts
  }

  /**
   * Where `StartChildSpan` and `StartSpan` with `ChildOf` agree: neither the
   * parent nor the tracer feeds the debug sink, and a parent that is not
   * recording carries no snowball request. Then `StartSpan` gives the noop
   * span exactly when the parent drops its events and real spans are not
   * forced (`StartChildSpan` gives it for such a parent even when they are),
   * and otherwise the same span except that its duration reads "unfinished"
   * (-1) where the child's is zero.
   */
  lemma ChildSpanAgreesWithStartSpan(
    op: string, pf: SpanFields, group: Option<SpanGroup>, netTrace: bool, shadow: Option<ShadowTracer>, force: bool,
    now: int, traceDraw: Int63, spanDraw: Int63, shadowOpen: ShadowOpener)
    requires !pf.netTr && !netTrace
    requires group.Some? || !HasSnowball(pf.baggage)
    ensures var opts := ChildOfOptions(pf, group);
      && (ReturnsNoopSpan(opts, netTrace, shadow, force) <==> DropsEvents(pf, group.Some?) && !force)
      && PlannedSpan(op, opts, netTrace, shadow, now, traceDraw, spanDraw, shadowOpen)
         == ChildSpan(op, pf, group.Some?, now, spanDraw, shadowOpen).(duration := -1)
  {
    var opts := ChildOfOptions(pf, group);
    assert !SingleNoopReference(opts);
    assert Collect(opts).tags == map[] && Collect(opts).startTime == 0;
    assert map[] + pf.baggage == pf.baggage;
  }

  /**
   * Where they differ: a parent that is not recording but carries a
   * snowball request makes `StartSpan` start a new snowball recording, while
   * `StartChildSpan` leaves the child unrecorded.
   */
  lemma SnowballChildDiffers(
    op: string, pf: SpanFields, netTrace: bool, shadow: Option<ShadowTracer>, force: bool,
    now: int, traceDraw: Int63, spanDraw: Int63, shadowOpen: ShadowOpener)
    requires HasSnowball(pf.baggage)
    ensures var opts := ChildOfOptions(pf, None);
      && !ReturnsNoopSpan(opts, netTrace, shadow, force)
      && InheritedRecording(ParentOf(Collect(opts).references)) == NewRecording(SnowballRecording)
      && PlannedSpan(op, opts, netTrace, shadow, now, traceDraw, spanDraw, shadowOpen).recordingType == SnowballRecording
      && ChildSpan(op, pf, false, now, spanDraw, shadowOpen).recordingType == NoRecording
  {
    var opts := ChildOfOptions(pf, None);
    assert !SingleNoopReference(opts);
  }
}
