/** computeWateringDecision as the process runs it: module-level caches and a wrapper per request. */
module WateringService {
  import opened Common
  import opened Fallback
  import opened Skips
  import opened StateStore
  import opened Decision
  import SoilMoisture
  import WaterBudget

  class Server {
    const cfg: Config
    var cache: map<CacheKey, CacheEntry>
    var memo: map<MemoKey, MemoEntry>
    var budgets: map<string, SoilMoisture.BudgetState>
    var budgetSources: map<string, set<Provider>>

    constructor(cfg: Config)
      ensures this.cfg == cfg && State() == COLD
    {
      this.cfg := cfg;
      cache, memo, budgets, budgetSources := map[], map[], map[], map[];
    }

    function State(): Service
      reads this
    {
      Service(cache, memo, budgets, budgetSources)
    }

    /** The adjustment methods' calls go through the wrapper, which records who served. */
    method CalculateWateringScale(req: Request, world: World, wp: FallbackWeatherProvider)
      returns (r: Outcome<Response>)
      requires MethodId(req.param) <= 4 && wp.State() == UNUSED
      modifies this, wp
      ensures var run := UseMethod(cfg, old(State()), req, world, wp.chain);
              && r == run.result && wp.State() == run.flags
              && State() == old(State()).(budgets := run.budgets, budgetSources := run.budgetSources)
    {
      var id := MethodId(req.param);
      if id == 0 {
        return Ok(Plain(None, MethodFields(0), None, {}));
      }
      if id == 3 && cfg.etoOptions(req.options).Some? {
        return Err(cfg.etoOptions(req.options).value);
      }
      var outcome, _ := wp.Run(Signed(if id <= 2 then world.wateringData else world.etoData));
      if id == 4 {
        var run := BudgetRun(cfg, State(), req, outcome, wp.State());
        budgets, budgetSources := run.budgets, run.budgetSources;
        return run.result;
      }
      if outcome.Err? {
        return Err(outcome.error);
      }
      var served := outcome.value;
      if id == 1 {
        var scored := cfg.zimmerman(req.options, served.data);
        if scored.Err? {
          return Err(scored.error);
        }
        r := Ok(Plain(Some(scored.value.scale), MethodFields(scored.value.fields), None, {served.provider}));
      } else if id == 2 {
        var (fields, delay) := cfg.rainDelay(req.options, served.data);
        r := Ok(Plain(None, MethodFields(fields), delay, {served.provider}));
      } else {
        r := Ok(EToResponse(cfg, req, world, wp.chain, served));
      }
    }

    method FetchWeather(req: Request, world: World, wp: FallbackWeatherProvider) returns (weather: Option<SkipWeather>)
      modifies this`memo, wp
      ensures var f := FetchSkipWeather(cfg, old(memo), req, world, wp.chain, old(wp.State()));
              weather == f.weather && memo == f.memo && wp.State() == f.flags
    {
      var key := SkipMemoKey(cfg, req);
      if key in memo && memo[key].expires > world.answered {
        return Some(memo[key].weather);
      }
      var wd, _ := wp.Run(WeatherFor(world, req));
      if wd.Err? || wd.value.None? {
        return None;
      }
      weather := wd.value;
      memo := memo[key := MemoEntry(weather.value, world.answered + cfg.skipTtl)];
    }

    method ApplyWeatherSkips(answer: Response, req: Request, world: World, wp: FallbackWeatherProvider)
      returns (r: Response)
      modifies this`memo, wp
      ensures var guards := ResolveSkipConfig(req.options.skips, CheckRestrictions(req.param));
              if !guards.AnyEnabled() then r == answer && memo == old(memo) && wp.State() == old(wp.State())
              else
                var f := FetchSkipWeather(cfg, old(memo), req, world, wp.chain, old(wp.State()));
                && r == Overlay(answer, if f.weather.Some? then EvaluateSkips(f.weather.value, guards) else None)
                && memo == f.memo && wp.State() == f.flags
    {
      var guards := ResolveSkipConfig(req.options.skips, CheckRestrictions(req.param));
      if !guards.AnyEnabled() {
        return answer;
      }
      var weather := FetchWeather(req, world, wp);
      if weather.None? {
        return answer;
      }
      var result := EvaluateSkips(weather.value, guards);
      if result.None? {
        return answer;
      }
      var raw := if answer.raw.Some? then answer.raw.value else RawData(MethodFields(0), NotBypassed, None);
      r := answer.(scale := Some(0.0), raw := Some(raw.(skip := result)));
    }

    /** The answer before the overlay: from the cache, or computed, annotated and perhaps stored. */
    method Compute(req: Request, world: World, wp: FallbackWeatherProvider) returns (r: Outcome<Response>)
      requires MethodId(req.param) <= 4 && wp.State() == UNUSED
      requires Resolved(wp.chain, wp.primaryIsPws) == ResolveWeatherProvider(cfg, req)
      modifies this, wp
      ensures Own(r, wp.State(), State()) == OwnAnswer(cfg, old(State()), req, world)
    {
      var key, shouldCache := MakeKey(req), cfg.shouldCache(wp.chain[0]);
      if shouldCache && key in cache && world.asked <= cache[key].expires {
        return Ok(cache[key].answer);
      }
      var response := CalculateWateringScale(req, world, wp);
      if response.Err? {
        return response;
      }
      var answer := response.value;
      if wp.PwsBypassed() && answer.raw.Some? {
        answer := answer.(raw := Some(answer.raw.value.(bypass := Bypassed(wp.lastFallbackReason))));
      }
      if shouldCache && !wp.ServedFallback() {
        cache := cache[key := CacheEntry(answer, DayEndOf(cfg, req, world.answered))];
      }
      r := Ok(answer);
    }

    /** The handler: the station is built from the options before anything is computed. */
    method GetWateringData(req: Request, world: World) returns (r: Outcome<WateringDecision>)
      modifies this
      ensures (r, State()) == Serve(cfg, old(State()), req, world)
    {
      if MethodId(req.param) > 4 {
        return Err(Coded(INVALID_ADJUSTMENT_METHOD));
      }
      var pws := BuildPwsFromParams(req.options);
      if pws.Err? {
        return Err(pws.error);
      }
      r := ComputeWateringDecision(req, world);
    }

    method ComputeWateringDecision(req: Request, world: World) returns (r: Outcome<WateringDecision>)
      requires BuildPwsFromParams(req.options).Ok?
      modifies this
      ensures (r, State()) == Serve(cfg, old(State()), req, world)
    {
      if MethodId(req.param) > 4 {
        return Err(Coded(INVALID_ADJUSTMENT_METHOD));
      }
      var resolved := ResolveWeatherProvider(cfg, req);
      var wp := new FallbackWeatherProvider(resolved.chain, resolved.primaryIsPws);
      var own := Compute(req, world, wp);
      if own.Err? {
        return Err(own.error);
      }
      var answer := ApplyWeatherSkips(own.value, req, world, wp);
      var skip := answer.raw.Some? && answer.raw.value.skip.Some?;
      r := Ok(WateringDecision(MethodId(req.param), answer.scale, answer.rainDelay, answer.raw, skip,
                               wp.ServedFallback(), wp.PwsBypassed(), CheckRestrictions(req.param) && skip));
    }
  }
}
