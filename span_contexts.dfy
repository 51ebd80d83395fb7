/**
 * The values the tracer passes between spans and across process boundaries:
 * span contexts, recording kinds and the handles of the shadow tracer.
 */
module SpanContexts {
  import opened Wrappers
  import opened Hex

  /** Baggage key whose non-empty value turns on snowball recording. */
  const Snowball: string := "sb"

  /**
   * A recording group (`spanGroup`): the shared collector that the spans of
   * one recording append their snapshots to. Only its identity matters here.
   */
  class SpanGroup {
    constructor () {}
  }

  /** How a span is being recorded; the zero value is "not recording". */
  datatype RecordingType = NoRecording | SnowballRecording | SingleNodeRecording

  /** A shadow tracer (for example LightStep): its type name and which instance it is. */
  datatype ShadowTracer = ShadowTracer(typ: string, instance: nat)

  /** A span context of the shadow tracer; its contents belong to that tracer. */
  datatype ShadowContext = ShadowContext(handle: nat)

  /** `spanContext`: what a remote or local child needs to know about its parent. */
  datatype SpanContext = SpanContext(
    traceId: Uint64,
    spanId: Uint64,
    baggage: map<string, string>,
    shadowTr: Option<ShadowTracer>,
    shadowCtx: Option<ShadowContext>,
    recordingGroup: Option<SpanGroup>,
    recordingType: RecordingType)

  /**
   * An `opentracing.SpanContext` interface value: nil, the tracer's
   * `noopSpanContext{}`, one of its own `*spanContext`s, or a context of some
   * other tracer implementation.
   */
  datatype Context = NilContext | NoopContext | CrdbContext(sc: SpanContext) | ForeignContext
}
