/** What every run of the watering service keeps: the scale cache, its hits, and the decisions. */
module DecisionRuns {
  import opened Common
  import opened Fallback
  import opened Skips
  import opened StateStore
  import opened Decision
  import WaterBudget

  datatype Event = Event(req: Request, world: World)

  /** The service after serving the events in order, from a cold start. */
  ghost function After(cfg: Config, events: seq<Event>): Service {
    if |events| == 0 then COLD
    else
      var n := |events| - 1;
      Serve(cfg, After(cfg, events[..n]), events[n].req, events[n].world).1
  }

  lemma OneEvent(cfg: Config, event: Event)
    ensures After(cfg, [event]) == Serve(cfg, COLD, event.req, event.world).1
  {
    assert [event][..0] == [];
  }

  ghost function ChainOf(cfg: Config, req: Request): seq<Provider> {
    ResolveWeatherProvider(cfg, req).chain
  }

  /** What the adjustment method itself answers to event i, and the flags its calls leave. */
  ghost function MethodAnswer(cfg: Config, events: seq<Event>, i: nat): MethodRun
    requires i < |events|
  {
    var req := events[i].req;
    UseMethod(cfg, After(cfg, events[..i]), req, events[i].world, ResolveWeatherProvider(cfg, req).chain)
  }

  predicate Unadorned(r: Response) {
    r.raw.Some? && r.raw.value.bypass == NotBypassed && r.raw.value.skip.None?
  }

  lemma MethodsAnswerUnadorned(cfg: Config, svc: Service, req: Request, world: World, chain: seq<Provider>)
    ensures var run := UseMethod(cfg, svc, req, world, chain);
            run.result.Ok? ==> Unadorned(run.result.value)
  {
  }

  /** Event i put this entry under this key: the method's own answer, served by the primary, until the day ends. */
  ghost predicate StoredBy(cfg: Config, events: seq<Event>, i: nat, key: CacheKey, entry: CacheEntry)
    requires i < |events|
  {
    var req, run := events[i].req, MethodAnswer(cfg, events, i);
    && MakeKey(req) == key
    && run.result == Ok(entry.answer)
    && run.flags.servedIndex <= 0
    && Unadorned(entry.answer)
    && cfg.shouldCache(ResolveWeatherProvider(cfg, req).chain[0])
    && entry.expires == DayEndOf(cfg, req, events[i].world.answered)
  }

  /** The overlay leaves the cache and the budgets to the answer before it. */
  lemma ServeStores(cfg: Config, svc: Service, req: Request, world: World)
    ensures var after, own := Serve(cfg, svc, req, world).1, OwnAnswer(cfg, svc, req, world).svc;
            after.(memo := svc.memo) == if Accepted(req) then own else svc
  {
    DecideKeeps(cfg, OwnAnswer(cfg, svc, req, world), req, world);
    OwnAnswerKeeps(cfg, svc, req, world);
  }

  lemma DecideKeeps(cfg: Config, own: Own, req: Request, world: World)
    ensures Decide(cfg, own, req, world).1.(memo := own.svc.memo) == own.svc
  {
  }

  /** Apart from the cache, an own answer leaves what its method leaves, and a hit leaves everything. */
  lemma OwnAnswerKeeps(cfg: Config, svc: Service, req: Request, world: World)
    ensures var run := UseMethod(cfg, svc, req, world, ResolveWeatherProvider(cfg, req).chain);
            OwnAnswer(cfg, svc, req, world).svc.(cache := svc.cache) ==
            if CachedAnswer(cfg, svc, req, world.asked).Some? then svc
            else svc.(budgets := run.budgets, budgetSources := run.budgetSources)
  {
  }

  /** A request leaves the cache alone or adds one entry, the method's answer served by the primary. */
  lemma OwnAnswerStores(cfg: Config, svc: Service, req: Request, world: World)
    ensures var chain := ResolveWeatherProvider(cfg, req).chain;
            var run, after := UseMethod(cfg, svc, req, world, chain), OwnAnswer(cfg, svc, req, world).svc.cache;
            || after == svc.cache
            || (run.result.Ok? && run.flags.servedIndex <= 0 && cfg.shouldCache(chain[0])
                && after == svc.cache[MakeKey(req) := CacheEntry(run.result.value, DayEndOf(cfg, req, world.answered))])
  {
  }

  /**
   * An answered request that missed the cache is stored, until the end of the local day of its
   * answer, exactly when its primary provider allows that and no fallback served it.
   */
  lemma MissIsStoredIff(cfg: Config, svc: Service, req: Request, world: World)
    requires CachedAnswer(cfg, svc, req, world.asked).None? && OwnAnswer(cfg, svc, req, world).result.Ok?
    ensures var own := OwnAnswer(cfg, svc, req, world);
            var entry := CacheEntry(own.result.value, cfg.dayEnd(req.latitude, req.longitude, world.answered));
            own.svc.cache ==
            if cfg.shouldCache(Primary(cfg, req)) && own.flags.servedIndex <= 0 then svc.cache[MakeKey(req) := entry]
            else svc.cache
  {
  }

  lemma PrefixKeepsStoredBy(cfg: Config, events: seq<Event>, n: nat, i: nat, key: CacheKey, entry: CacheEntry)
    requires i < n <= |events| && StoredBy(cfg, events[..n], i, key, entry)
    ensures StoredBy(cfg, events, i, key, entry)
  {
    assert events[..n][..i] == events[..i];
  }

  /**
   * Every entry that a run leaves in the cache is exactly what the adjustment method answered to
   * an earlier request for its key: no overlay, no bypass metadata, no answer of a fallback.
   */
  lemma {:induction false} CacheHoldsOwnAnswers(cfg: Config, events: seq<Event>, key: CacheKey) returns (i: nat)
    requires key in After(cfg, events).cache
    ensures i < |events| && StoredBy(cfg, events, i, key, After(cfg, events).cache[key])
  {
    var n := |events| - 1;
    var svc := After(cfg, events[..n]);
    if key in svc.cache && After(cfg, events).cache[key] == svc.cache[key] {
      i := CacheHoldsOwnAnswers(cfg, events[..n], key);
      PrefixKeepsStoredBy(cfg, events, n, i, key, svc.cache[key]);
    } else {
      i := n;
      var req, world := events[n].req, events[n].world;
      ServeStores(cfg, svc, req, world);
      OwnAnswerStores(cfg, svc, req, world);
      MethodsAnswerUnadorned(cfg, svc, req, world, ResolveWeatherProvider(cfg, req).chain);
    }
  }

  // ------------------------------------------------------------------ hits

  /** dayEnd gives the last instant of the local day that an instant falls in. */
  ghost predicate ValidDays(cfg: Config) {
    forall lat, lon, t :: t <= cfg.dayEnd(lat, lon, t) &&
      forall u :: t <= u <= cfg.dayEnd(lat, lon, t) ==> cfg.dayEnd(lat, lon, u) == cfg.dayEnd(lat, lon, t)
  }

  /** Requests are served one after the other, and each takes its time. */
  ghost predicate ClockNeverGoesBack(events: seq<Event>) {
    && (forall i :: 0 <= i < |events| ==> events[i].world.asked <= events[i].world.answered)
    && (forall i, j :: 0 <= i < j < |events| ==> events[i].world.answered <= events[j].world.asked)
  }

  /**
   * A hit reproduces, before the overlay and without asking any provider, the method's own answer
   * to an earlier request for the same key. It falls on the local day on which that answer was
   * stored, which is the day on which it was asked for if and only if no day ended in between.
   */
  lemma HitReproducesStoredAnswer(cfg: Config, events: seq<Event>, n: nat) returns (i: nat)
    requires n < |events| && ValidDays(cfg) && ClockNeverGoesBack(events)
    requires var req := events[n].req;
             && cfg.shouldCache(ResolveWeatherProvider(cfg, req).chain[0])
             && Cached(After(cfg, events[..n]), MakeKey(req), events[n].world.asked).Some?
    ensures i < n && MakeKey(events[i].req) == MakeKey(events[n].req)
    ensures var req, own := events[n].req, OwnAnswer(cfg, After(cfg, events[..n]), events[n].req, events[n].world);
            && own.result == MethodAnswer(cfg, events, i).result && own.flags == UNUSED
            && own.svc == After(cfg, events[..n])
    ensures var req, first, hit := events[n].req, events[i].world, events[n].world;
            && DayEndOf(cfg, req, first.answered) == DayEndOf(cfg, req, hit.asked)
            && (DayEndOf(cfg, req, first.asked) == DayEndOf(cfg, req, hit.asked) <==>
                first.answered <= DayEndOf(cfg, req, first.asked))
  {
    var req := events[n].req;
    i := CacheHoldsOwnAnswers(cfg, events[..n], MakeKey(req));
    assert events[..n][i] == events[i] && events[..n][..i] == events[..i];
    assert MakeKey(events[i].req) == MakeKey(req);
    assert events[i].world.answered <= events[n].world.asked;
  }

  /** The cache key loses nothing: it is that of one request only, with its station and its provider chain. */
  lemma KeyDeterminesProviders(cfg: Config, a: Request, b: Request)
    requires MakeKey(a) == MakeKey(b)
    ensures a == b && ResolveWeatherProvider(cfg, a) == ResolveWeatherProvider(cfg, b) && PwsOf(a) == PwsOf(b)
  {
  }

  /**
   * Once stored, an answer stays for as long as its own requests come before it expires, whatever
   * else is served meanwhile.
   */
  lemma {:induction false} StoredAnswerLasts(cfg: Config, events: seq<Event>, i: nat, req: Request)
    requires i <= |events| && cfg.shouldCache(Primary(cfg, req)) && MakeKey(req) in After(cfg, events[..i]).cache
    requires forall k :: i <= k < |events| && events[k].req == req ==>
                           events[k].world.asked <= After(cfg, events[..i]).cache[MakeKey(req)].expires
    ensures var key, later := MakeKey(req), After(cfg, events).cache;
            key in later && later[key] == After(cfg, events[..i]).cache[key]
  {
    if i == |events| {
      assert events[..i] == events;
    } else {
      var n := |events| - 1;
      assert events[..n][..i] == events[..i];
      StoredAnswerLasts(cfg, events[..n], i, req);
      ServeKeepsEntry(cfg, After(cfg, events[..n]), events[n].req, events[n].world, req);
    }
  }

  lemma ServeKeepsEntry(cfg: Config, svc: Service, req: Request, world: World, stored: Request)
    requires cfg.shouldCache(Primary(cfg, stored)) && MakeKey(stored) in svc.cache
    requires req == stored ==> world.asked <= svc.cache[MakeKey(stored)].expires
    ensures var key, after := MakeKey(stored), Serve(cfg, svc, req, world).1.cache;
            key in after && after[key] == svc.cache[key]
  {
    ServeStores(cfg, svc, req, world);
    OwnAnswerStores(cfg, svc, req, world);
    if MakeKey(req) == MakeKey(stored) {
      KeyDeterminesProviders(cfg, req, stored);
      HitAnswers(cfg, svc, req, world);
    }
  }

  lemma HitAnswers(cfg: Config, svc: Service, req: Request, world: World)
    requires cfg.shouldCache(Primary(cfg, req)) && MakeKey(req) in svc.cache
    requires world.asked <= svc.cache[MakeKey(req)].expires
    ensures OwnAnswer(cfg, svc, req, world) == Own(Ok(svc.cache[MakeKey(req)].answer), UNUSED, svc)
  {
  }

  // ------------------------------------------------------------------ the overlay

  lemma OwnAnswerHasNoSkip(cfg: Config, events: seq<Event>, req: Request, world: World)
    ensures var own := OwnAnswer(cfg, After(cfg, events), req, world);
            own.result.Ok? ==> own.result.value.raw.Some? && own.result.value.raw.value.skip.None?
  {
    var svc, key := After(cfg, events), MakeKey(req);
    if key in svc.cache {
      var _ := CacheHoldsOwnAnswers(cfg, events, key);
    }
    MethodsAnswerUnadorned(cfg, svc, req, world, ResolveWeatherProvider(cfg, req).chain);
  }

  /** A decision is the own answer under the overlay of whatever guard fired. */
  lemma ServeDecides(cfg: Config, svc: Service, req: Request, world: World)
    returns (fired: Option<SkipReason>, flags: Flags)
    requires Serve(cfg, svc, req, world).0.Ok?
    ensures OwnAnswer(cfg, svc, req, world).result.Ok?
    ensures Serve(cfg, svc, req, world).0.value ==
            Decided(req, Overlay(OwnAnswer(cfg, svc, req, world).result.value, fired), flags,
                    ResolveWeatherProvider(cfg, req).primaryIsPws)
    ensures var own := OwnAnswer(cfg, svc, req, world);
            var guards := ResolveSkipConfig(req.options.skips, CheckRestrictions(req.param));
            var f := FetchSkipWeather(cfg, own.svc.memo, req, world, ChainOf(cfg, req), own.flags);
            fired == if guards.AnyEnabled() && f.weather.Some? then EvaluateSkips(f.weather.value, guards) else None
  {
    var own, resolved := OwnAnswer(cfg, svc, req, world), ResolveWeatherProvider(cfg, req);
    var guards := ResolveSkipConfig(req.options.skips, CheckRestrictions(req.param));
    fired, flags := None, own.flags;
    if guards.AnyEnabled() {
      var f := FetchSkipWeather(cfg, own.svc.memo, req, world, resolved.chain, own.flags);
      fired := if f.weather.Some? then EvaluateSkips(f.weather.value, guards) else None;
      flags := f.flags;
    }
  }

  /**
   * In every reachable state a decision is the method's or the cache's answer untouched, or scale
   * 0 with a skip reason; restricted says that the restriction was asked for and a guard fired.
   */
  lemma DecisionIsOwnAnswerOrSkip(cfg: Config, events: seq<Event>, req: Request, world: World)
    ensures var (d, own) := (Serve(cfg, After(cfg, events), req, world).0,
                             OwnAnswer(cfg, After(cfg, events), req, world));
            d.Ok? ==>
              && own.result.Ok?
              && (d.value.skip ==> d.value.scale == Some(0.0) && d.value.raw.value.skip.Some?)
              && (!d.value.skip ==> d.value.scale == own.result.value.scale && d.value.raw == own.result.value.raw)
              && (d.value.restricted <==> CheckRestrictions(req.param) && d.value.skip)
              && (d.value.restricted ==> d.value.scale == Some(0.0))
              && d.value.rainDelay == own.result.value.rainDelay
  {
    OwnAnswerHasNoSkip(cfg, events, req, world);
    if Serve(cfg, After(cfg, events), req, world).0.Ok? {
      var _, _ := ServeDecides(cfg, After(cfg, events), req, world);
    }
  }

  // ------------------------------------------------------------------ whose data is cached

  lemma ServedByPrimary(chain: seq<Provider>, fn: Provider -> Outcome<int>)
    requires chain != []
    ensures var (outcome, flags) := RunChain(chain, Signed(fn), UNUSED);
            outcome.Ok? ==> (outcome.value.provider == chain[0] <== flags.servedIndex <= 0)
  {
  }

  /** What the chain answers to a request for the day's weather. */
  ghost function EToOutcome(cfg: Config, event: Event): Outcome<Served> {
    RunChain(ChainOf(cfg, event.req), Signed(event.world.etoData), UNUSED).0
  }

  /** The ETo method consults a forecaster that is not the primary provider. */
  predicate ForeignForecast(cfg: Config, req: Request) {
    var chain := ResolveWeatherProvider(cfg, req).chain;
    && MethodId(req.param) == 3 && cfg.etoOptions(req.options).None? && cfg.forecastEnabled
    && ForecastChild(cfg, chain).Some? && ForecastChild(cfg, chain).value != chain[0]
  }

  ghost predicate PrimaryOnly(cfg: Config, svc: Service, req: Request, world: World) {
    var chain := ResolveWeatherProvider(cfg, req).chain;
    var run := UseMethod(cfg, svc, req, world, chain);
    run.result.Ok? && run.flags.servedIndex <= 0 ==> run.result.value.sources <= {chain[0]}
  }

  /**
   * Apart from the water budget, what may be cached is made of the primary provider's data alone,
   * whatever the providers answer, exactly when the ETo method has no foreign forecaster to ask
   * (or never uses a forecast). servedFallback does not see forecasts.
   */
  lemma CacheablePrimaryOnlyIff(cfg: Config, svc: Service, req: Request)
    requires MethodId(req.param) < 4
    ensures (forall world: World :: PrimaryOnly(cfg, svc, req, world)) <==>
            !(ForeignForecast(cfg, req) && exists h, f :: cfg.etoWithForecast(req.options, h, f).Some?)
  {
    if ForeignForecast(cfg, req) && exists h, f :: cfg.etoWithForecast(req.options, h, f).Some? {
      var h, f :| cfg.etoWithForecast(req.options, h, f).Some?;
      ForeignForecastIsCacheable(cfg, svc, req, h, f);
    } else {
      forall world: World ensures PrimaryOnly(cfg, svc, req, world) {
        NoForeignForecastIsPrimary(cfg, svc, req, world);
      }
    }
  }

  lemma ForeignForecastIsCacheable(cfg: Config, svc: Service, req: Request, h: int, f: int)
    requires ForeignForecast(cfg, req) && cfg.etoWithForecast(req.options, h, f).Some?
    ensures !PrimaryOnly(cfg, svc, req, World(0, 0, _ => Ok(h), _ => Ok(h), _ => Ok(f), (_, _) => Ok(None)))
  {
    var chain := ResolveWeatherProvider(cfg, req).chain;
    var world := World(0, 0, _ => Ok(h), _ => Ok(h), _ => Ok(f), (_, _) => Ok(None));
    assert StopAt(chain, Signed(world.etoData), 0) == 0;
    assert ForecastChild(cfg, chain).value in UseMethod(cfg, svc, req, world, chain).result.value.sources;
  }

  lemma NoForeignForecastIsPrimary(cfg: Config, svc: Service, req: Request, world: World)
    requires MethodId(req.param) < 4
    requires !(ForeignForecast(cfg, req) && exists h, f :: cfg.etoWithForecast(req.options, h, f).Some?)
    ensures PrimaryOnly(cfg, svc, req, world)
  {
    var chain := ResolveWeatherProvider(cfg, req).chain;
    ServedByPrimary(chain, world.wateringData);
    ServedByPrimary(chain, world.etoData);
    if MethodId(req.param) == 3 && cfg.etoOptions(req.options).None? && EToOutcome(cfg, Event(req, world)).Ok? {
      ForecastSources(cfg, req, world, EToOutcome(cfg, Event(req, world)).value);
    }
  }

  lemma ForecastSources(cfg: Config, req: Request, world: World, served: Served)
    requires MethodId(req.param) == 3 && cfg.etoOptions(req.options).None?
    requires !(ForeignForecast(cfg, req) && exists h, f :: cfg.etoWithForecast(req.options, h, f).Some?)
    ensures EToResponse(cfg, req, world, ChainOf(cfg, req), served).sources <= {served.provider, Primary(cfg, req)}
  {
  }
}
