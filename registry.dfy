/**
 * The tracer registry: the list of live tracers that a change of the
 * shadow-tracer settings is applied to. `NewTracer` adds a tracer and
 * `Close` removes it again.
 */
module TracerRegistry {
  import opened Wrappers
  import opened SpanContexts
  import opened Tracing

  /** The position of the first occurrence of `t` in `s`. */
  function FirstIndex(s: seq<Tracer>, t: Tracer): (r: Option<nat>)
    ensures r.None? <==> t !in s
    ensures r.Some? ==> r.value < |s| && s[r.value] == t && t !in s[..r.value]
  {
    if t !in s then None
    else if s[0] == t then Some(0)
    else
      var j := FirstIndex(s[1..], t).value;
      assert s[..j + 1] == [s[0]] + s[1..][..j];
      Some(j + 1)
  }

  /**
   * `s` with the first occurrence of `t` cut out and everything after it
   * moved down one place; `s` itself when `t` is not in it.
   */
  function Without(s: seq<Tracer>, t: Tracer): (r: seq<Tracer>)
    ensures t in s ==> |r| == |s| - 1 && multiset(r) == multiset(s) - multiset{t}
    ensures t !in s ==> r == s
    ensures t in s ==> var i := FirstIndex(s, t).value;
      && (forall j :: 0 <= j < i ==> r[j] == s[j] && s[j] != t)
      && (forall j :: i <= j < |r| ==> r[j] == s[j + 1])
  {
    match FirstIndex(s, t)
    case None => s
    case Some(i) =>
      assert s == s[..i] + [t] + s[i + 1..];
      assert forall j :: 0 <= j < i ==> s[j] in s[..i];
      s[..i] + s[i + 1..]
  }

  /** `tracerRegistryImpl`: the registered tracers in the order they were added (the mutex is not modelled). */
  class Registry {
    var tracers: seq<Tracer>

    constructor ()
      ensures tracers == []
    {
      tracers := [];
    }

    /** `Add`: appends `t`. */
    method Add(t: Tracer)
      modifies this
      ensures tracers == old(tracers) + [t]
    {
      tracers := tracers + [t];
    }

    /**
     * `Remove`: deletes the first occurrence of `t`, keeping the order of the
     * others. `removed` is false where the source panics with "removing
     * unknown tracer"; the list is then unchanged.
     */
    method Remove(t: Tracer) returns (removed: bool)
      modifies this
      ensures removed <==> t in old(tracers)
      ensures tracers == Without(old(tracers), t)
    {
      var i := 0;
      while i < |tracers|
        invariant 0 <= i <= |tracers|
        invariant t !in tracers[..i]
      {
        if tracers[i] == t {
          assert FirstIndex(tracers, t) == Some(i);
          tracers := tracers[..i] + tracers[i + 1..];
          return true;
        }
        assert tracers[..i + 1] == tracers[..i] + [tracers[i]];
        i := i + 1;
      }
      assert tracers[..i] == tracers;
      return false;
    }

    /** `ForEach`: calls `fn` on each tracer in order; `results` are the calls' outcomes. */
    method ForEach<R>(fn: Tracer -> R) returns (results: seq<R>)
      ensures |results| == |tracers|
      ensures forall i :: 0 <= i < |tracers| ==> results[i] == fn(tracers[i])
    {
      results := [];
      for i := 0 to |tracers|
        invariant |results| == i
        invariant forall j :: 0 <= j < i ==> results[j] == fn(tracers[j])
      {
        results := results + [fn(tracers[i])];
      }
    }
  }

  /** Removing a tracer that was just added to a list not holding it gives back the list. */
  lemma RemoveAfterAdd(s: seq<Tracer>, t: Tracer)
    requires t !in s
    ensures Without(s + [t], t) == s
  {
    assert FirstIndex(s + [t], t) == Some(|s|) by {
      assert (s + [t])[..|s|] == s;
    }
  }

  /**
   * `NewTracer`: a tracer with no forced real spans and the shadow tracer the
   * settings ask for (`shadow`, since `updateShadowTracer` is not part of this
   * model), registered in `reg`.
   */
  method NewTracer(reg: Registry, shadow: Option<ShadowTracer>) returns (t: Tracer)
    modifies reg
    ensures fresh(t) && !t.forceRealSpans && t.shadowTracer == shadow
    ensures reg.tracers == old(reg.tracers) + [t]
  {
    t := new Tracer(shadow);
    reg.Add(t);
  }

  /** `Close`: unregisters `t` and drops its shadow tracer; an unknown tracer panics (`closed` false) before the shadow tracer is touched. */
  method Close(reg: Registry, t: Tracer) returns (closed: bool)
    modifies reg, t
    ensures closed <==> t in old(reg.tracers)
    ensures reg.tracers == Without(old(reg.tracers), t)
    ensures t.forceRealSpans == old(t.forceRealSpans)
    ensures t.shadowTracer == if closed then None else old(t.shadowTracer)
  {
    closed := reg.Remove(t);
    if closed {
      t.SetShadowTracer(None);
    }
  }
}
