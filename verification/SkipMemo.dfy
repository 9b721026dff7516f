/** The skip-weather memo of the watering service: what it keeps, and when it can be told from a fresh call. */
module SkipMemo {
  import opened Common
  import opened Fallback
  import opened Skips
  import opened Decision
  import opened DecisionRuns

  // ------------------------------------------------------------------ what the memo keeps

  /** The memo's entry is what event i's own provider call returned, kept for one TTL. */
  ghost predicate MemoizedBy(cfg: Config, event: Event, key: MemoKey, entry: MemoEntry) {
    var chain := ResolveWeatherProvider(cfg, event.req).chain;
    && SkipMemoKey(cfg, event.req) == key
    && RunChain(chain, WeatherFor(event.world, event.req), UNUSED).0 == Ok(Some(entry.weather))
    && entry.expires == event.world.answered + cfg.skipTtl
  }

  /** A request leaves the memo alone or adds the one entry that it fetched. */
  lemma ServeMemoizes(cfg: Config, svc: Service, req: Request, world: World)
    ensures var key, after := SkipMemoKey(cfg, req), Serve(cfg, svc, req, world).1.memo;
            || after == svc.memo
            || (key in after && after == svc.memo[key := after[key]]
                && MemoizedBy(cfg, Event(req, world), key, after[key]))
  {
    OwnAnswerKeeps(cfg, svc, req, world);
    DecideMemoizes(cfg, OwnAnswer(cfg, svc, req, world), req, world);
  }

  lemma DecideMemoizes(cfg: Config, own: Own, req: Request, world: World)
    ensures var key, after := SkipMemoKey(cfg, req), Decide(cfg, own, req, world).1.memo;
            || after == own.svc.memo
            || (key in after && after == own.svc.memo[key := after[key]]
                && MemoizedBy(cfg, Event(req, world), key, after[key]))
  {
    FetchMemoizes(cfg, own.svc.memo, req, world, own.flags);
  }

  lemma FetchMemoizes(cfg: Config, memo: map<MemoKey, MemoEntry>, req: Request, world: World, flags: Flags)
    ensures var chain, key := ResolveWeatherProvider(cfg, req).chain, SkipMemoKey(cfg, req);
            var after := FetchSkipWeather(cfg, memo, req, world, chain, flags).memo;
            || after == memo
            || (key in after && after == memo[key := after[key]] && MemoizedBy(cfg, Event(req, world), key, after[key]))
  {
    var chain := ResolveWeatherProvider(cfg, req).chain;
    assert RunChain(chain, WeatherFor(world, req), flags).0 == RunChain(chain, WeatherFor(world, req), UNUSED).0;
  }

  /**
   * In every reachable state each memo entry was fetched by an earlier request with its key; failures
   * are never kept.
   */
  lemma {:induction false} MemoHoldsFetchedWeather(cfg: Config, events: seq<Event>, key: MemoKey) returns (i: nat)
    requires key in After(cfg, events).memo
    ensures i < |events| && MemoizedBy(cfg, events[i], key, After(cfg, events).memo[key])
  {
    var n := |events| - 1;
    var svc := After(cfg, events[..n]);
    if key in svc.memo && After(cfg, events).memo[key] == svc.memo[key] {
      i := MemoHoldsFetchedWeather(cfg, events[..n], key);
    } else {
      i := n;
      ServeMemoizes(cfg, svc, events[n].req, events[n].world);
    }
  }

  // ------------------------------------------------------------------ what the memo key tells apart

  /** The wrapper's for a chain of two or more, else the lone provider's. */
  function ClassOf(cfg: Config, req: Request): ProviderClass {
    var chain := ResolveWeatherProvider(cfg, req).chain;
    if |chain| >= 2 then FallbackWrapper else BareProvider(cfg.className(chain[0]))
  }

  /** Coordinates to four decimals are at most half of the last one off. */
  lemma Fixed4IsClose(v: real)
    ensures -0.00005 <= Fixed4(v) as real / 10000.0 - v <= 0.00005
  {
    RoundIsNearest(v * 10000.0);
  }

  /** A station that the memo key takes for no station or for a bare API key. */
  predicate TakenFor(station: Request, other: Request) {
    && NamesStation(station) && !NamesStation(other)
    && station.options.pws == Some(if PwsOf(other).Some? then "pwskey" else "nopws")
  }

  /** One station by its ID, or none on both sides, or an API key on both sides: which one does not matter. */
  predicate SameStation(a: Request, b: Request) {
    || (NamesStation(a) && NamesStation(b) && PwsOf(a).value.id == PwsOf(b).value.id)
    || (!NamesStation(a) && !NamesStation(b) && (PwsOf(a).Some? <==> PwsOf(b).Some?))
  }

  /**
   * Two requests share a memo entry exactly when they agree in the class of provider, the provider
   * asked for, the place to four decimals and the station, where stations called "nopws" and
   * "pwskey" pass for none and for an API key. API keys and fallback lists are not told apart.
   */
  lemma MemoKeyIff(cfg: Config, a: Request, b: Request)
    ensures SkipMemoKey(cfg, a) == SkipMemoKey(cfg, b) <==>
            && ClassOf(cfg, a) == ClassOf(cfg, b) && a.options.provider == b.options.provider
            && Fixed4(a.latitude) == Fixed4(b.latitude) && Fixed4(a.longitude) == Fixed4(b.longitude)
            && (SameStation(a, b) || TakenFor(a, b) || TakenFor(b, a))
  {
    assert TakenFor(a, b) ==> PwsTag(PwsOf(a)) == PwsTag(PwsOf(b));
    assert TakenFor(b, a) ==> PwsTag(PwsOf(a)) == PwsTag(PwsOf(b));
  }

  /** Such a station does collide with no station at all, where both are served by a lone provider of one class. */
  lemma NopwsCollides(cfg: Config, station: Request, key: string)
    requires station.options.provider == "WU" && station.options.pws == Some("nopws")
    requires station.options.key == Some(key) && IsHexKey(key)
    requires !cfg.pwsFallbackEnabled && FallbackKeys(cfg, station.options) == []
    requires cfg.lookup("WU").Some? && cfg.className(cfg.lookup("WU").value) == cfg.className(cfg.pwsProvider)
    ensures var other := station.(options := station.options.(pws := None, key := None));
            && BuildPwsFromParams(station.options).Ok? && BuildPwsFromParams(other.options).Ok?
            && SkipMemoKey(cfg, station) == SkipMemoKey(cfg, other) && CallOf(station) != CallOf(other)
  {
  }

  /**
   * Requests with one memo key may be sent to different chains. Stations have one primary provider
   * in common, and so have the others; bare, or with the same fallbacks asked for, they go to one chain.
   */
  lemma MemoKeyChains(cfg: Config, a: Request, b: Request)
    requires SkipMemoKey(cfg, a) == SkipMemoKey(cfg, b) && NamesStation(a) == NamesStation(b)
    ensures Primary(cfg, a) == Primary(cfg, b)
    ensures !ResolveWeatherProvider(cfg, a).Composite() ==> ChainOf(cfg, a) == ChainOf(cfg, b)
    ensures a.options.fallbacks == b.options.fallbacks ==> ChainOf(cfg, a) == ChainOf(cfg, b)
  {
  }

  // ------------------------------------------------------------------ telling the memo from a fresh call

  lemma ChainsAreDistinct(cfg: Config, req: Request)
    ensures ChainOf(cfg, req) != [] && NoDuplicates(ChainOf(cfg, req))
  {
    ExtendedChain([Primary(cfg, req)], FallbackKeys(cfg, req.options), cfg.lookup);
  }

  /** The weather that the guards of a request are given. */
  ghost function GuardWeather(cfg: Config, svc: Service, event: Event): Option<SkipWeather> {
    FetchSkipWeather(cfg, svc.memo, event.req, event.world, ChainOf(cfg, event.req), UNUSED).weather
  }

  /** What a request's own chain returns to its own call in some world. */
  ghost function OwnWeather(cfg: Config, req: Request, world: World): Outcome<Option<SkipWeather>> {
    RunChain(ChainOf(cfg, req), WeatherFor(world, req), UNUSED).0
  }

  /** Whatever the first request's call returns, the second one's would return as well. */
  predicate Covered(cfg: Config, a: Request, b: Request) {
    ResolveWeatherProvider(cfg, a).chain <= ResolveWeatherProvider(cfg, b).chain && CallOf(a) == CallOf(b)
  }

  /**
   * In every run the memo cannot be told from the request's own call to its own chain, made at most
   * one TTL ago, as long as earlier requests with its memo key made the same call to prefixes of
   * that chain.
   */
  lemma MemoGivesOwnWeather(cfg: Config, events: seq<Event>, n: nat) returns (i: nat)
    requires n < |events|
    requires forall k :: 0 <= k < n && SkipMemoKey(cfg, events[k].req) == SkipMemoKey(cfg, events[n].req) ==>
                           Covered(cfg, events[k].req, events[n].req)
    ensures i <= n && SkipMemoKey(cfg, events[i].req) == SkipMemoKey(cfg, events[n].req)
    ensures i < n ==> events[n].world.answered < events[i].world.answered + cfg.skipTtl
    ensures var weather := GuardWeather(cfg, After(cfg, events[..n]), events[n]);
            if weather.Some? then OwnWeather(cfg, events[n].req, events[i].world) == Ok(weather)
            else i == n && !(OwnWeather(cfg, events[n].req, events[n].world).Ok?
                             && OwnWeather(cfg, events[n].req, events[n].world).value.Some?)
  {
    var req, memo := events[n].req, After(cfg, events[..n]).memo;
    var key := SkipMemoKey(cfg, req);
    if key in memo && memo[key].expires > events[n].world.answered {
      i := MemoHoldsFetchedWeather(cfg, events[..n], key);
      ChainsAreDistinct(cfg, events[i].req);
      assert WeatherFor(events[i].world, events[i].req) == WeatherFor(events[i].world, req);
      PrefixReturnsAlike(ChainOf(cfg, events[i].req), ChainOf(cfg, req), WeatherFor(events[i].world, req));
    } else {
      i := n;
    }
  }

  /** The guards of b are given something that b's own call returned, at the time of the earlier request or now. */
  ghost predicate MemoIsTransparent(cfg: Config, a: Request, wa: World, b: Request, wb: World) {
    var weather := GuardWeather(cfg, After(cfg, [Event(a, wa)]), Event(b, wb));
    weather.Some? ==> OwnWeather(cfg, b, wa) == Ok(weather) || OwnWeather(cfg, b, wb) == Ok(weather)
  }

  predicate Guarded(req: Request) {
    ResolveSkipConfig(req.options.skips, CheckRestrictions(req.param)).AnyEnabled()
  }

  /**
   * Exactly that is needed. Of two requests with one memo key, the first of which can be answered
   * at all, the second's guards are given only what its own call returned, whatever the providers
   * answer, if and only if both make the same call and the first chain is a prefix of the second.
   */
  lemma MemoIsTransparentIff(cfg: Config, a: Request, b: Request, w0: World)
    requires SkipMemoKey(cfg, a) == SkipMemoKey(cfg, b) && cfg.skipTtl > 0
    requires Accepted(a) && Guarded(a) && OwnAnswer(cfg, COLD, a, w0).result.Ok?
    ensures (forall wa: World, wb: World :: MemoIsTransparent(cfg, a, wa, b, wb)) <==> Covered(cfg, a, b)
  {
    if Covered(cfg, a, b) {
      forall wa: World, wb: World ensures MemoIsTransparent(cfg, a, wa, b, wb) {
        var events := [Event(a, wa), Event(b, wb)];
        var i := MemoGivesOwnWeather(cfg, events, 1);
        assert events[..1] == [Event(a, wa)];
      }
    } else {
      var w := MemoShowsForeignWeather(cfg, a, b, w0);
      assert !MemoIsTransparent(cfg, a, w, b, w);
    }
  }

  /**
   * A world in which b's own call fails altogether, and yet b's guards are given weather when a was
   * served just before.
   */
  lemma MemoShowsForeignWeather(cfg: Config, a: Request, b: Request, w0: World) returns (w: World)
    requires SkipMemoKey(cfg, a) == SkipMemoKey(cfg, b) && !Covered(cfg, a, b) && cfg.skipTtl > 0
    requires Accepted(a) && Guarded(a) && OwnAnswer(cfg, COLD, a, w0).result.Ok?
    ensures OwnWeather(cfg, b, w).Err? && GuardWeather(cfg, After(cfg, [Event(a, w)]), Event(b, w)).Some?
  {
    var weather := SkipWeather(NonFinite, NonFinite, NonFinite, NonFinite);
    w := OnlyTheFirstReturns(cfg, a, b, w0, weather);
    OneEvent(cfg, Event(a, w));
    AnsweredMemoizes(cfg, a, w, weather);
  }

  /** A world like the given one, but in which a's call returns the weather and b's call fails. */
  lemma OnlyTheFirstReturns(cfg: Config, a: Request, b: Request, w0: World, weather: SkipWeather) returns (w: World)
    requires !Covered(cfg, a, b)
    ensures OwnWeather(cfg, a, w) == Ok(Some(weather)) && OwnWeather(cfg, b, w).Err?
    ensures OwnAnswer(cfg, COLD, a, w) == OwnAnswer(cfg, COLD, a, w0)
  {
    ChainsAreDistinct(cfg, a);
    ChainsAreDistinct(cfg, b);
    if CallOf(a) != CallOf(b) {
      var call := CallOf(a);
      w := w0.(weatherData := (_, c) => if c == call then Ok(Some(weather)) else Err(Thrown));
      StopIsUnique(ChainOf(cfg, a), WeatherFor(w, a), 0, 0);
      StopIsUnique(ChainOf(cfg, b), WeatherFor(w, b), 0, 0);
    } else {
      var fn := DivergentReturn(ChainOf(cfg, a), ChainOf(cfg, b), Some(weather));
      w := w0.(weatherData := (p, _) => fn(p));
      RunsAlike(ChainOf(cfg, a), WeatherFor(w, a), fn, UNUSED);
      RunsAlike(ChainOf(cfg, b), WeatherFor(w, b), fn, UNUSED);
    }
    GuardsStayOut(cfg, a, w0, w);
  }

  /** The guards' weather plays no part in an own answer. */
  lemma GuardsStayOut(cfg: Config, req: Request, w0: World, w: World)
    requires w == w0.(weatherData := w.weatherData)
    ensures OwnAnswer(cfg, COLD, req, w) == OwnAnswer(cfg, COLD, req, w0)
  {
    assert UseMethod(cfg, COLD, req, w, ChainOf(cfg, req)) == UseMethod(cfg, COLD, req, w0, ChainOf(cfg, req));
  }

  lemma AnsweredMemoizes(cfg: Config, req: Request, world: World, weather: SkipWeather)
    requires Accepted(req) && Guarded(req) && OwnAnswer(cfg, COLD, req, world).result.Ok?
    requires OwnWeather(cfg, req, world) == Ok(Some(weather))
    ensures var key, memo := SkipMemoKey(cfg, req), Serve(cfg, COLD, req, world).1.memo;
            key in memo && memo[key] == MemoEntry(weather, world.answered + cfg.skipTtl)
  {
    var own := OwnAnswer(cfg, COLD, req, world);
    OwnAnswerKeeps(cfg, COLD, req, world);
    assert own.svc.memo == map[];
    assert RunChain(ChainOf(cfg, req), WeatherFor(world, req), own.flags).0 == Ok(Some(weather));
  }

  /** For one whole TTL, requests with the key are given the memo's weather without a call. */
  lemma MemoAnswersForTtl(cfg: Config, a: Request, wa: World, b: Request, wb: World, weather: SkipWeather)
    requires SkipMemoKey(cfg, a) == SkipMemoKey(cfg, b) && wb.answered < wa.answered + cfg.skipTtl
    requires Accepted(a) && Guarded(a) && OwnAnswer(cfg, COLD, a, wa).result.Ok?
    requires OwnWeather(cfg, a, wa) == Ok(Some(weather))
    ensures GuardWeather(cfg, After(cfg, [Event(a, wa)]), Event(b, wb)) == Some(weather)
  {
    OneEvent(cfg, Event(a, wa));
    AnsweredMemoizes(cfg, a, wa, weather);
  }

  // ------------------------------------------------------------------ what the guards decide

  /**
   * In every reachable state an answered request is skipped exactly when its guards are given
   * weather and one of them fires on it: the freeze rule on the minimum temperature, or on the
   * current one where that is missing, at or below its limit; the wind and rain rules at or above
   * theirs. The scale is then 0, and the reason names the first of them.
   */
  lemma SkippedIff(cfg: Config, events: seq<Event>, req: Request, world: World)
    requires Serve(cfg, After(cfg, events), req, world).0.Ok?
    ensures var d := Serve(cfg, After(cfg, events), req, world).0.value;
            var o, restricted := req.options.skips, CheckRestrictions(req.param);
            var weather := GuardWeather(cfg, After(cfg, events), Event(req, world));
            && (d.skip <==>
                weather.Some? && (TooCold(o, weather.value) || TooWindy(o, weather.value)
                                  || TooWet(o, restricted, weather.value)))
            && (d.skip ==> d.scale == Some(0.0) && d.raw.Some? && d.raw.value.skip.Some?
                           && Explains(d.raw.value.skip.value, o, restricted, weather.value))
  {
    var svc, weather := After(cfg, events), GuardWeather(cfg, After(cfg, events), Event(req, world));
    OwnAnswerHasNoSkip(cfg, events, req, world);
    OwnAnswerKeeps(cfg, svc, req, world);
    var fired, flags := ServeDecides(cfg, svc, req, world);
    if weather.Some? {
      GuardsFireIff(req.options.skips, CheckRestrictions(req.param), weather.value);
    }
    GuardsFireIff(req.options.skips, CheckRestrictions(req.param),
                  SkipWeather(NonFinite, NonFinite, NonFinite, NonFinite));
    GuardWeatherIsFlagless(cfg, svc, req, world, OwnAnswer(cfg, svc, req, world).flags);
  }

  lemma GuardWeatherIsFlagless(cfg: Config, svc: Service, req: Request, world: World, flags: Flags)
    ensures FetchSkipWeather(cfg, svc.memo, req, world, ChainOf(cfg, req), flags).weather ==
            GuardWeather(cfg, svc, Event(req, world))
  {
  }

  // ------------------------------------------------------------------ whose flags a decision reports

  /**
   * The reported flags belong to the last provider call that returned something: the guards' own
   * when they fetch weather, the method's when the memo answers or no provider does.
   */
  lemma ReportedFlagsFollowLastCall(cfg: Config, svc: Service, req: Request, world: World)
    requires Serve(cfg, svc, req, world).0.Ok? && Guarded(req)
    ensures var d, own := Serve(cfg, svc, req, world).0.value, OwnAnswer(cfg, svc, req, world);
            var key, chain := SkipMemoKey(cfg, req), ChainOf(cfg, req);
            var fetches := key in svc.memo ==> svc.memo[key].expires <= world.answered;
            var n := StopAt(chain, WeatherFor(world, req), 0);
            d.servedFallback <==>
              if fetches && WeatherFor(world, req)(chain[n]).Ok? then n > 0 else own.flags.servedIndex > 0
  {
    OwnAnswerKeeps(cfg, svc, req, world);
    assert OwnAnswer(cfg, svc, req, world).svc.memo == svc.memo;
  }
}
