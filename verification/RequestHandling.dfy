/** What a request is: its station, its providers, and what each adjustment method makes of their data. */
module RequestHandling {
  import opened Common
  import opened Fallback
  import opened Skips
  import opened StateStore
  import opened Decision
  import opened DecisionRuns
  import WaterBudget

  // ------------------------------------------------------------------ the request

  /** The low seven bits of the parameter are the method's number, and the eighth asks for the restriction. */
  lemma ParamBits(method_: nat, restricted: bool)
    requires method_ < 128
    ensures var param := method_ + (if restricted then 128 else 0);
            MethodId(param) == method_ && (CheckRestrictions(param) <==> restricted)
  {
  }

  predicate NotEmpty(v: Option<string>) {
    v.Some? && |v.value| > 0
  }

  /**
   * A station is a text of letters and digits asked for from WU with a key of 32 small hexadecimal
   * digits; a text or a key of another form is refused, and a key alone is just a key.
   */
  lemma StationIff(o: Options)
    ensures var r, both := BuildPwsFromParams(o), o.provider == "WU" && NotEmpty(o.pws) && NotEmpty(o.key);
            && (r == Err(Coded(30)) <==>
                both && exists c <- o.pws.value :: (c < '0' || '9' < c) && (c < 'A' || 'Z' < c) && (c < 'a' || 'z' < c))
            && (r.Err? && r.error != Coded(30) <==>
                both && (forall c <- o.pws.value :: '0' <= c <= '9' || 'A' <= c <= 'Z' || 'a' <= c <= 'z')
                && (|o.key.value| != 32 || exists c <- o.key.value :: (c < '0' || '9' < c) && (c < 'a' || 'f' < c)))
            && (r.Err? ==> r.error == Coded(30) || r.error == Coded(31))
            && (r.Ok? && both ==> r.value == Some(Pws(o.pws, o.key.value)))
            && (!both ==> r == Ok(if NotEmpty(o.key) then Some(Pws(None, o.key.value)) else None))
  {
  }

  // ------------------------------------------------------------------ the providers

  /**
   * Local mode knows one provider. A station comes first where one is named, and is alone unless
   * its fallback is enabled; else the selected provider comes first, or Apple where that is unknown.
   * Behind the first stand, without repetition, exactly the known fallbacks of the request, or of
   * the environment where the request names none.
   */
  lemma ProviderSelection(cfg: Config, req: Request)
    ensures var r, keys := ResolveWeatherProvider(cfg, req), req.options.fallbacks;
            var listed := if keys.Some? then keys.value else cfg.envFallbacks;
            var selected := cfg.lookup(req.options.provider);
            && (r.primaryIsPws <==> !cfg.local && NamesStation(req) && |r.chain| > 1)
            && if cfg.local then r.chain == ["local"]
               else if NamesStation(req) && !cfg.pwsFallbackEnabled then r.chain == [cfg.pwsProvider]
               else
                 && r.chain[0] == (if NamesStation(req) then cfg.pwsProvider
                                   else if selected.Some? then selected.value else cfg.apple)
                 && NoDuplicates(r.chain)
                 && forall p :: p in r.chain <==>
                                p == r.chain[0] || exists k :: 0 <= k < |listed| && cfg.lookup(listed[k]) == Some(p)
  {
    ExtendedChain([Primary(cfg, req)], FallbackKeys(cfg, req.options), cfg.lookup);
  }

  /** The provider at n settles the call: everyone before it fails eligibly, and it does not or is the last. */
  ghost predicate Settles<T(!new)>(chain: seq<Provider>, fn: Provider -> Outcome<T>, n: nat) {
    && n < |chain|
    && (forall k :: 0 <= k < n ==> EligibleFailure(fn(chain[k])))
    && (n == |chain| - 1 || !EligibleFailure(fn(chain[n])))
  }

  lemma SettledCall(chain: seq<Provider>, fn: Provider -> Outcome<int>, n: nat)
    requires Settles(chain, fn, n)
    ensures RunChain(chain, Signed(fn), UNUSED) ==
            ((match fn(chain[n])
              case Ok(data) => Ok(Served(chain[n], data))
              case Err(e) => Err(e)),
             Flags(if fn(chain[n]).Ok? then n else -1,
                   if n > 0 then Some(DescribeErr(fn(chain[n - 1]).error)) else None))
  {
    StopIsUnique(chain, Signed(fn), 0, n);
  }

  // ------------------------------------------------------------------ the methods

  /** The answer's parts; a fallback for a station is reported with the reason of the last failure before it. */
  ghost predicate Answers(cfg: Config, req: Request, r: Response, scale: Option<real>, fields: Fields,
                          rainDelay: Option<int>, fn: Provider -> Outcome<int>, n: nat)
    requires Settles(ChainOf(cfg, req), fn, n)
  {
    && r.scale == scale && r.rainDelay == rainDelay && r.raw.Some?
    && r.raw.value.fields == fields && r.raw.value.skip.None?
    && r.raw.value.bypass ==
       if !cfg.local && NamesStation(req) && n > 0 && fn(ChainOf(cfg, req)[n]).Ok?
       then Bypassed(Some(DescribeErr(fn(ChainOf(cfg, req)[n - 1]).error))) else NotBypassed
  }

  /** The manual method asks nobody and has no scale. */
  lemma ManualAnswer(cfg: Config, svc: Service, req: Request, world: World)
    requires MethodId(req.param) == 0 && CachedAnswer(cfg, svc, req, world.asked).None?
    ensures var own := OwnAnswer(cfg, svc, req, world);
            && own.result == Ok(Response(None, Some(RawData(MethodFields(0), NotBypassed, None)), None, {}))
            && own.flags == UNUSED
  {
  }

  /** Zimmerman and rain delay work on the watering data of the provider that settles the call. */
  lemma WateringDataAnswer(cfg: Config, svc: Service, req: Request, world: World, n: nat)
    requires 1 <= MethodId(req.param) <= 2 && CachedAnswer(cfg, svc, req, world.asked).None?
    requires Settles(ChainOf(cfg, req), world.wateringData, n)
    ensures var result, chain := OwnAnswer(cfg, svc, req, world).result, ChainOf(cfg, req);
            match world.wateringData(chain[n])
            case Err(e) => result == Err(e)
            case Ok(data) =>
              if MethodId(req.param) == 1 then
                match cfg.zimmerman(req.options, data)
                case Err(e) => result == Err(e)
                case Ok(s) =>
                  && result.Ok?
                  && Answers(cfg, req, result.value, Some(s.scale), MethodFields(s.fields), None, world.wateringData, n)
              else
                && result.Ok?
                && Answers(cfg, req, result.value, None, MethodFields(cfg.rainDelay(req.options, data).0),
                           cfg.rainDelay(req.options, data).1, world.wateringData, n)
  {
    SettledCall(ChainOf(cfg, req), world.wateringData, n);
    ProviderSelection(cfg, req);
  }

  /** The first provider of the chain that can forecast stands at k, or nobody can. */
  ghost predicate FirstForecaster(cfg: Config, chain: seq<Provider>, k: nat) {
    && k <= |chain| && (forall i :: 0 <= i < k ==> !cfg.canForecast(chain[i]))
    && (k < |chain| ==> cfg.canForecast(chain[k]))
  }

  lemma {:induction false} ForecastChildIsFirst(cfg: Config, chain: seq<Provider>, k: nat)
    requires FirstForecaster(cfg, chain, k)
    ensures ForecastChild(cfg, chain) == if k < |chain| then Some(chain[k]) else None
  {
    if k > 0 {
      forall i | 0 <= i < k - 1 ensures !cfg.canForecast(chain[1..][i]) {
        assert chain[1..][i] == chain[i + 1];
      }
      ForecastChildIsFirst(cfg, chain[1..], k - 1);
    }
  }

  /** The forecast that the ETo method gets, if forecasts are enabled and that provider has one. */
  function ForecastFrom(cfg: Config, chain: seq<Provider>, k: nat, world: World): Option<int> {
    if cfg.forecastEnabled && k < |chain| && world.forecastData(chain[k]).Ok?
    then Some(world.forecastData(chain[k]).value) else None
  }

  /** The scale and fields from historical data, with the forecast where there is one that can be used. */
  function EToScored(cfg: Config, req: Request, data: int, forecast: Option<int>): Scored {
    var combined := if forecast.Some? then cfg.etoWithForecast(req.options, data, forecast.value) else None;
    if combined.Some? then combined.value else cfg.etoHistorical(req.options, data)
  }

  lemma EToResponseIs(cfg: Config, req: Request, world: World, chain: seq<Provider>, served: Served, k: nat)
    requires FirstForecaster(cfg, chain, k)
    ensures var r := EToResponse(cfg, req, world, chain, served);
            var s := EToScored(cfg, req, served.data, ForecastFrom(cfg, chain, k, world));
            r == Plain(Some(s.scale), MethodFields(s.fields), None, r.sources)
  {
    ForecastChildIsFirst(cfg, chain, k);
  }

  /** The ETo method refuses unusable options before it asks anybody, and combines historical data and forecast. */
  lemma EToAnswer(cfg: Config, svc: Service, req: Request, world: World, n: nat, k: nat)
    requires MethodId(req.param) == 3 && CachedAnswer(cfg, svc, req, world.asked).None?
    requires Settles(ChainOf(cfg, req), world.etoData, n) && FirstForecaster(cfg, ChainOf(cfg, req), k)
    ensures var result, chain := OwnAnswer(cfg, svc, req, world).result, ChainOf(cfg, req);
            if cfg.etoOptions(req.options).Some? then result == Err(cfg.etoOptions(req.options).value)
            else
              match world.etoData(chain[n])
              case Err(e) => result == Err(e)
              case Ok(data) =>
                var s := EToScored(cfg, req, data, ForecastFrom(cfg, chain, k, world));
                && result.Ok?
                && Answers(cfg, req, result.value, Some(s.scale), MethodFields(s.fields), None, world.etoData, n)
  {
    var chain := ChainOf(cfg, req);
    SettledCall(chain, world.etoData, n);
    ProviderSelection(cfg, req);
    if world.etoData(chain[n]).Ok? {
      EToResponseIs(cfg, req, world, chain, Served(chain[n], world.etoData(chain[n]).value), k);
    }
  }

  /** The poll that a request makes of its budget, with the weather that a provider returned or its failure. */
  function PollWith(cfg: Config, req: Request, outcome: Outcome<int>): WaterBudget.Poll {
    cfg.budgetPoll(req).(weather :=
      match outcome
      case Ok(data) =>
        var w := cfg.budgetWeather(req, data);
        WaterBudget.Available(w.0, w.1, w.2)
      case Err(e) => WaterBudget.Unavailable(if e.Coded? then e.code else 99))
  }

  lemma BudgetRunIs(cfg: Config, svc: Service, req: Request, outcome: Outcome<Served>, plain: Outcome<int>,
                    flags: Flags)
    requires match outcome case Ok(served) => plain == Ok(served.data) case Err(e) => plain == Err(e)
    ensures var poll, run := PollWith(cfg, req, plain), BudgetRun(cfg, svc, req, outcome, flags);
            var (answer, next) := WaterBudget.PollOnce(Lookup(svc.budgets, poll.key), poll);
            && run.flags == flags && Lookup(run.budgets, poll.key) == next
            && match answer
               case Err(code) => run.result == Err(Coded(code))
               case Ok(a) => run.result.Ok?
                               && run.result == Ok(Plain(Some(a.scale), BudgetFields(a), None,
                                                         run.result.value.sources))
  {
    var poll := PollWith(cfg, req, plain);
    assert BudgetPollOf(cfg, req, outcome) == poll;
    WaterBudget.AnswersHeldScale(Lookup(svc.budgets, poll.key), poll);
    WaterBudget.OnlyAdvancingPollsPersist(Lookup(svc.budgets, poll.key), poll);
  }

  /** A request that misses the cache is answered by its method, with a bypass noted. */
  lemma OwnAnswerOfMethod(cfg: Config, svc: Service, req: Request, world: World)
    requires CachedAnswer(cfg, svc, req, world.asked).None?
    ensures var own, run := OwnAnswer(cfg, svc, req, world), UseMethod(cfg, svc, req, world, ChainOf(cfg, req));
            && own.svc.budgets == run.budgets
            && own.result == match run.result
                             case Err(e) => Err(e)
                             case Ok(r) => Ok(Annotate(r, run.flags, ResolveWeatherProvider(cfg, req).primaryIsPws))
  {
  }

  /**
   * The water budget polls its location with the weather of the provider that settles the call, or
   * with its failure.
   */
  lemma BudgetMethodAnswer(cfg: Config, svc: Service, req: Request, world: World, n: nat)
    requires MethodId(req.param) == 4 && CachedAnswer(cfg, svc, req, world.asked).None?
    requires Settles(ChainOf(cfg, req), world.etoData, n)
    ensures var own, poll := OwnAnswer(cfg, svc, req, world), PollWith(cfg, req, world.etoData(ChainOf(cfg, req)[n]));
            var (answer, next) := WaterBudget.PollOnce(Lookup(svc.budgets, poll.key), poll);
            && Lookup(own.svc.budgets, poll.key) == next
            && match answer
               case Err(code) => own.result == Err(Coded(code))
               case Ok(a) =>
                 && own.result.Ok?
                 && Answers(cfg, req, own.result.value, Some(a.scale), BudgetFields(a), None, world.etoData, n)
  {
    var chain := ChainOf(cfg, req);
    var call := RunChain(chain, Signed(world.etoData), UNUSED);
    SettledCall(chain, world.etoData, n);
    BudgetRunIs(cfg, svc, req, call.0, world.etoData(chain[n]), call.1);
    assert UseMethod(cfg, svc, req, world, chain) == BudgetRun(cfg, svc, req, call.0, call.1);
    OwnAnswerOfMethod(cfg, svc, req, world);
    ProviderSelection(cfg, req);
  }

  // ------------------------------------------------------------------ the decision

  /** Unknown methods and malformed stations are refused at once; a failure of the method is passed on. */
  lemma RefusedRequests(cfg: Config, svc: Service, req: Request, world: World)
    ensures MethodId(req.param) > 4 ==> Serve(cfg, svc, req, world) == (Err(Coded(41)), svc)
    ensures MethodId(req.param) <= 4 && BuildPwsFromParams(req.options).Err? ==>
              Serve(cfg, svc, req, world) == (Err(BuildPwsFromParams(req.options).error), svc)
    ensures Accepted(req) ==>
              var own := OwnAnswer(cfg, svc, req, world);
              if own.result.Ok? then Serve(cfg, svc, req, world).0.Ok?
              else Serve(cfg, svc, req, world) == (Err(own.result.error), own.svc)
  {
  }

  /** A decision names its method, and a station is bypassed exactly where a fallback served in its place. */
  lemma DecisionReports(cfg: Config, svc: Service, req: Request, world: World)
    requires Serve(cfg, svc, req, world).0.Ok?
    ensures var d := Serve(cfg, svc, req, world).0.value;
            && d.methodId == MethodId(req.param)
            && (d.pwsBypassed <==> d.servedFallback && !cfg.local && NamesStation(req))
            && (d.skip <==> d.raw.Some? && d.raw.value.skip.Some?)
  {
    ProviderSelection(cfg, req);
    var fired, flags := ServeDecides(cfg, svc, req, world);
    if Serve(cfg, svc, req, world).0.value.servedFallback {
      FallbackHasServed(cfg, svc, req, world);
    }
  }

  /** A fallback can only have served where there is one. */
  lemma FallbackHasServed(cfg: Config, svc: Service, req: Request, world: World)
    requires Serve(cfg, svc, req, world).0.Ok? && Serve(cfg, svc, req, world).0.value.servedFallback
    ensures |ChainOf(cfg, req)| > 1
  {
  }
}
