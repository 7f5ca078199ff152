/** The per-action timeout of pkg/config/config.go: a default of 30 seconds that
    OKTETO_TIMEOUT may override, computed by the first call and cached for the life of
    the process (`sync.Once`). Calls are modelled one after another; the cache is a
    value threaded from call to call. */
module Timeout {
  import opened Wrappers
  import opened Environment

  const Second := 1_000_000_000

  /** `time.Duration`: a signed 64-bit count of nanoseconds. */
  type Duration = d: int | -0x8000_0000_0000_0000 <= d < 0x8000_0000_0000_0000

  const DefaultTimeout: Duration := 30 * Second

  /** `time.ParseDuration`, whose grammar is not modelled: `None` is its error return. */
  type DurationParser = string -> Option<Duration>

  /** The `timeout` global guarded by `tOnce`: None until the first call. */
  datatype TimeoutCache = TimeoutCache(cached: Option<Duration>)

  /** The state before any call. */
  const Fresh := TimeoutCache(None)

  /** What one call observes: the timeout it returns, the cache it leaves behind, and
      whether the once-only computation ran during this call. */
  datatype TimeoutRead = TimeoutRead(value: Duration, cache: TimeoutCache, computed: bool)

  /** The body of `tOnce.Do`: an override that parses wins; an unset or unparsable
      OKTETO_TIMEOUT leaves the default. */
  function ComputeTimeout(env: Env, parse: DurationParser): (d: Duration)
    ensures d == DefaultTimeout || (TimeoutVar in env && parse(env[TimeoutVar]) == Some(d))
    ensures TimeoutVar in env && parse(env[TimeoutVar]).Some? ==> d == parse(env[TimeoutVar]).value
    ensures (TimeoutVar !in env || parse(env[TimeoutVar]).None?) ==> d == DefaultTimeout
  {
    if TimeoutVar !in env then DefaultTimeout
    else
      match parse(env[TimeoutVar])
      case None => DefaultTimeout
      case Some(parsed) => parsed
  }

  /** `GetTimeout`: the first call computes and caches the timeout; every later call
      returns the cached value without looking at the environment. */
  function GetTimeout(cache: TimeoutCache, env: Env, parse: DurationParser): (r: TimeoutRead)
    ensures r.cache.cached == Some(r.value)
    ensures r.computed <==> cache.cached.None?
    ensures cache.cached.None? ==> r.value == ComputeTimeout(env, parse)
    ensures cache.cached.Some? ==> r.value == cache.cached.value && r.cache == cache
  {
    match cache.cached
    case Some(t) => TimeoutRead(t, cache, false)
    case None =>
      var t := ComputeTimeout(env, parse);
      TimeoutRead(t, TimeoutCache(Some(t)), true)
  }

  /** A run of calls, the i-th made while the environment is `envs[i]`. */
  function Run(cache: TimeoutCache, envs: seq<Env>, parse: DurationParser): (calls: seq<TimeoutRead>)
    ensures |calls| == |envs|
    decreases |envs|
  {
    if |envs| == 0 then []
    else
      var first := GetTimeout(cache, envs[0], parse);
      [first] + Run(first.cache, envs[1..], parse)
  }

  /** Once the cache holds a value, every later call returns it, whatever the
      environment has become, and none of them computes again. */
  lemma {:induction false} CachedRunIsConstant(t: Duration, envs: seq<Env>, parse: DurationParser)
    ensures forall i :: 0 <= i < |envs| ==>
              Run(TimeoutCache(Some(t)), envs, parse)[i].value == t &&
              !Run(TimeoutCache(Some(t)), envs, parse)[i].computed
    decreases |envs|
  {
    if |envs| > 0 {
      CachedRunIsConstant(t, envs[1..], parse);
      var calls := Run(TimeoutCache(Some(t)), envs, parse);
      assert calls[1..] == Run(TimeoutCache(Some(t)), envs[1..], parse);
      forall i | 0 <= i < |envs| ensures calls[i].value == t && !calls[i].computed {
        if i > 0 {
          assert calls[i] == calls[1..][i - 1];
        }
      }
    }
  }

  /** From the fresh state, the computation runs exactly once — in the first call — and
      every call of the run returns the timeout computed from the first call's
      environment. */
  lemma FreshRunComputesOnce(envs: seq<Env>, parse: DurationParser)
    requires |envs| >= 1
    ensures forall i :: 0 <= i < |envs| ==>
              Run(Fresh, envs, parse)[i].value == ComputeTimeout(envs[0], parse)
    ensures forall i :: 0 <= i < |envs| ==> (Run(Fresh, envs, parse)[i].computed <==> i == 0)
  {
    var t := ComputeTimeout(envs[0], parse);
    var calls := Run(Fresh, envs, parse);
    CachedRunIsConstant(t, envs[1..], parse);
    assert calls[1..] == Run(TimeoutCache(Some(t)), envs[1..], parse);
    forall i | 1 <= i < |envs|
      ensures calls[i].value == t && !calls[i].computed
    {
      assert calls[i] == calls[1..][i - 1];
    }
  }

  /** OKTETO_TIMEOUT="2m" yields two minutes; an unparsable value yields the default. */
  lemma TimeoutOverrideExamples(parse: DurationParser)
    requires parse("2m") == Some(120 * Second)
    requires parse("notaduration") == None
    ensures GetTimeout(Fresh, map[TimeoutVar := "2m"], parse).value == 120 * Second
    ensures GetTimeout(Fresh, map[TimeoutVar := "notaduration"], parse).value == DefaultTimeout
  {
  }
}
