/**
 * The watering-decision pipeline: provider resolution, the scale cache, the adjustment methods,
 * the bypass annotation and the live skip overlay, as one service driven by requests.
 */
module Decision {
  import opened Common
  import opened Fallback
  import opened Skips
  import opened StateStore
  import SoilMoisture
  import WaterBudget

  // ------------------------------------------------------------------ requests and their world

  /** The wto options that the pipeline itself looks at; rest stands for all the others. */
  datatype Options = Options(
    provider: string,
    pws: Option<string>,
    key: Option<string>,
    fallbacks: Option<seq<string>>,
    skips: SkipOptions,
    rest: int)

  datatype Request = Request(param: nat, latitude: real, longitude: real, options: Options)

  /** The arguments of a weather call. */
  datatype Call = Call(latitude: real, longitude: real, pws: Option<Pws>)

  /**
   * What each provider would answer to the request, and when: it is asked at one instant, and its
   * answer is stored and handed to the guards at another, after the method's calls. The methods'
   * data is that for the request's own arguments; the guards' data depends on the call, since one
   * request's may be kept for another.
   */
  datatype World = World(
    asked: int,
    answered: int,
    wateringData: Provider -> Outcome<int>,
    etoData: Provider -> Outcome<int>,
    forecastData: Provider -> Outcome<int>,
    weatherData: (Provider, Call) -> Outcome<Option<SkipWeather>>)

  /** A method's number and the fields of its raw data. */
  datatype Scored = Scored(scale: real, fields: int)

  /**
   * What stays fixed while the process runs: environment, registries, the end of a local day, and
   * the arithmetic inside the adjustment methods.
   */
  datatype Config = Config(
    local: bool,
    pwsFallbackEnabled: bool,
    envFallbacks: seq<string>,
    lookup: string -> Option<Provider>,
    apple: Provider,
    pwsProvider: Provider,
    className: Provider -> string,
    shouldCache: Provider -> bool,
    canForecast: Provider -> bool,
    forecastEnabled: bool,
    skipTtl: int,
    dayEnd: (real, real, int) -> int,
    zimmerman: (Options, int) -> Outcome<Scored>,
    rainDelay: (Options, int) -> (int, Option<int>),
    etoOptions: Options -> Option<Failure>,
    etoHistorical: (Options, int) -> Scored,
    etoWithForecast: (Options, int, int) -> Option<Scored>,
    budgetPoll: Request -> WaterBudget.Poll,
    budgetWeather: (Request, int) -> (Num, Num, int))

  // ------------------------------------------------------------------ the weather station

  /** A personal weather station, or just an API key when it has no ID. */
  datatype Pws = Pws(id: Option<string>, apiKey: string)

  const INVALID_PWS_ID := 30
  const INVALID_PWS_API_KEY := 31

  predicate Given(v: Option<string>) {
    v.Some? && v.value != ""
  }

  /** The pattern /^[a-zA-Z\d]+$/ on a text that is not empty. */
  predicate IsAlphanumeric(s: string) {
    forall c <- s :: 'a' <= c <= 'z' || 'A' <= c <= 'Z' || '0' <= c <= '9'
  }

  /** The pattern /^[a-f\d]{32}$/. */
  predicate IsHexKey(s: string) {
    |s| == 32 && forall c <- s :: 'a' <= c <= 'f' || '0' <= c <= '9'
  }

  function BuildPwsFromParams(options: Options): (r: Outcome<Option<Pws>>)
    ensures r.Ok? && r.value.Some? && r.value.value.id.Some? ==>
              options.provider == "WU" && r.value.value.id == options.pws
    ensures r.Ok? && r.value.Some? && r.value.value.id.Some? ==>
              Given(r.value.value.id) && IsAlphanumeric(r.value.value.id.value)
  {
    if options.provider == "WU" && Given(options.pws) && Given(options.key) then
      if !IsAlphanumeric(options.pws.value) then Err(Coded(INVALID_PWS_ID))
      else if !IsHexKey(options.key.value) then Err(Coded(INVALID_PWS_API_KEY))
      else Ok(Some(Pws(options.pws, options.key.value)))
    else if Given(options.key) then Ok(Some(Pws(None, options.key.value)))
    else Ok(None)
  }

  /** The station of an accepted request: every caller builds it from the options. */
  function PwsOf(req: Request): Option<Pws> {
    match BuildPwsFromParams(req.options)
    case Ok(pws) => pws
    case Err(_) => None
  }

  function CallOf(req: Request): Call {
    Call(req.latitude, req.longitude, PwsOf(req))
  }

  /** What the request's own weather calls return. */
  function WeatherFor(world: World, req: Request): Provider -> Outcome<Option<SkipWeather>> {
    p => world.weatherData(p, CallOf(req))
  }

  /** Whether a station, rather than the selected provider, comes first. */
  predicate NamesStation(req: Request) {
    PwsOf(req).Some? && PwsOf(req).value.id.Some?
  }

  // ------------------------------------------------------------------ provider resolution

  datatype Resolved = Resolved(chain: seq<Provider>, primaryIsPws: bool) {
    predicate Composite() {
      |chain| > 1
    }
  }

  function FallbackKeys(cfg: Config, options: Options): seq<string> {
    if options.fallbacks.Some? then options.fallbacks.value else cfg.envFallbacks
  }

  function Primary(cfg: Config, req: Request): Provider {
    if cfg.local then "local"
    else if NamesStation(req) then cfg.pwsProvider
    else
      var selected := cfg.lookup(req.options.provider);
      if selected.Some? then selected.value else cfg.apple
  }

  /** A bare provider is a chain of one. */
  function ResolveWeatherProvider(cfg: Config, req: Request): (r: Resolved)
    ensures r.chain != [] && r.chain[0] == Primary(cfg, req)
  {
    var primary := Primary(cfg, req);
    if cfg.local then Resolved([primary], false)
    else if NamesStation(req) && !cfg.pwsFallbackEnabled then Resolved([primary], false)
    else
      ExtendedStartsWith([primary], FallbackKeys(cfg, req.options), cfg.lookup);
      var chain := Extended([primary], FallbackKeys(cfg, req.options), cfg.lookup);
      Resolved(chain, NamesStation(req) && |chain| > 1)
  }

  /** The first provider of the chain that can forecast. */
  function ForecastChild(cfg: Config, chain: seq<Provider>): Option<Provider> {
    if chain == [] then None
    else if cfg.canForecast(chain[0]) then Some(chain[0])
    else ForecastChild(cfg, chain[1..])
  }

  // ------------------------------------------------------------------ the service state

  datatype Bypass = NotBypassed | Bypassed(reason: Option<Description>)

  /** A method's own raw data: that of the water budget is its answer. */
  datatype Fields = MethodFields(id: int) | BudgetFields(answer: WaterBudget.Answer)

  /** rawData: the method's own fields, and the two kinds of metadata that the pipeline can add. */
  datatype RawData = RawData(fields: Fields, bypass: Bypass, skip: Option<SkipReason>)

  /** scale, rawData and rainDelay, with the providers whose data went into them. */
  datatype Response = Response(scale: Option<real>, raw: Option<RawData>, rainDelay: Option<int>,
                               sources: set<Provider>)

  datatype CacheKey = CacheKey(param: nat, latitude: real, longitude: real, pwsId: string, options: Options)

  datatype CacheEntry = CacheEntry(answer: Response, expires: int)

  /** A provider's constructor name: that of the wrapper for every chain of two or more. */
  datatype ProviderClass = BareProvider(name: string) | FallbackWrapper

  datatype MemoKey = MemoKey(local: bool, provider: ProviderClass, selected: string, latitude: int, longitude: int,
                             pws: string)

  datatype MemoEntry = MemoEntry(weather: SkipWeather, expires: int)

  /** The module-level state; budgetSources says whose data is in each persisted budget. */
  datatype Service = Service(
    cache: map<CacheKey, CacheEntry>,
    memo: map<MemoKey, MemoEntry>,
    budgets: map<string, SoilMoisture.BudgetState>,
    budgetSources: map<string, set<Provider>>)

  const COLD := Service(map[], map[], map[], map[])

  function MakeKey(req: Request): CacheKey {
    var pwsId := match PwsOf(req)
                 case None => ""
                 case Some(pws) => if pws.id.Some? then pws.id.value else "undefined";
    CacheKey(req.param, req.latitude, req.longitude, pwsId, req.options)
  }

  function Fixed4(v: real): int {
    Round(v * 10000.0)
  }

  function PwsTag(pws: Option<Pws>): string {
    match pws
    case None => "nopws"
    case Some(pws) => if pws.id.Some? then pws.id.value else "pwskey"
  }

  function SkipMemoKey(cfg: Config, req: Request): MemoKey {
    var resolved := ResolveWeatherProvider(cfg, req);
    MemoKey(cfg.local, if resolved.Composite() then FallbackWrapper else BareProvider(cfg.className(resolved.chain[0])),
            req.options.provider, Fixed4(req.latitude), Fixed4(req.longitude), PwsTag(PwsOf(req)))
  }

  // ------------------------------------------------------------------ the adjustment methods

  function MethodId(param: nat): nat {
    if param / 128 % 2 == 1 then param - 128 else param
  }

  predicate CheckRestrictions(param: nat) {
    param / 128 % 2 == 1
  }

  const INVALID_ADJUSTMENT_METHOD := 41

  /** A provider's data together with the provider that served it. */
  datatype Served = Served(provider: Provider, data: int)

  function Signed(fn: Provider -> Outcome<int>): Provider -> Outcome<Served> {
    p => match fn(p)
         case Ok(data) => Ok(Served(p, data))
         case Err(e) => Err(e)
  }

  datatype MethodRun = MethodRun(
    result: Outcome<Response>,
    flags: Flags,
    budgets: map<string, SoilMoisture.BudgetState>,
    budgetSources: map<string, set<Provider>>)

  function Plain(scale: Option<real>, fields: Fields, rainDelay: Option<int>, sources: set<Provider>): Response {
    Response(scale, Some(RawData(fields, NotBypassed, None)), rainDelay, sources)
  }

  function EToResponse(cfg: Config, req: Request, world: World, chain: seq<Provider>, served: Served): Response {
    var historical := cfg.etoHistorical(req.options, served.data);
    var child := if cfg.forecastEnabled then ForecastChild(cfg, chain) else None;
    var forecast := match child
                    case None => Err(Thrown)
                    case Some(p) => world.forecastData(p);
    var combined := match forecast
                    case Ok(data) => cfg.etoWithForecast(req.options, served.data, data)
                    case Err(_) => None;
    if combined.Some? then
      Plain(Some(combined.value.scale), MethodFields(combined.value.fields), None, {served.provider, child.value})
    else Plain(Some(historical.scale), MethodFields(historical.fields), None, {served.provider})
  }

  function BudgetPollOf(cfg: Config, req: Request, outcome: Outcome<Served>): WaterBudget.Poll {
    var poll := cfg.budgetPoll(req);
    match outcome
    case Err(Coded(code)) => poll.(weather := WaterBudget.Unavailable(code))
    case Err(_) => poll.(weather := WaterBudget.Unavailable(99))
    case Ok(served) =>
      var (eto, precip, today) := cfg.budgetWeather(req, served.data);
      poll.(weather := WaterBudget.Available(eto, precip, today))
  }

  function SourcesOf(svc: Service, key: string): set<Provider> {
    if key in svc.budgetSources then svc.budgetSources[key] else {}
  }

  /**
   * The water budget answers from its persisted state, so the data behind that state counts as its
   * source, but not the data of the days before a gap reset.
   */
  function BudgetRun(cfg: Config, svc: Service, req: Request, outcome: Outcome<Served>, flags: Flags): MethodRun {
    var poll := BudgetPollOf(cfg, req, outcome);
    var prev := Lookup(svc.budgets, poll.key);
    var (answer, next) := WaterBudget.PollOnce(prev, poll);
    var sources := if WaterBudget.Advances(prev, poll) && outcome.Ok?
                   then {outcome.value.provider} +
                        (if WaterBudget.Resets(prev, poll) then {} else SourcesOf(svc, poll.key))
                   else SourcesOf(svc, poll.key);
    var budgets := WaterBudget.Updated(svc.budgets, poll.key, next);
    match answer
    case Err(code) => MethodRun(Err(Coded(code)), flags, budgets, svc.budgetSources)
    case Ok(a) => MethodRun(Ok(Plain(Some(a.scale), BudgetFields(a), None, sources)), flags, budgets,
                            svc.budgetSources[poll.key := sources])
  }

  /** The five adjustment methods, seen through the provider calls that they make. */
  function UseMethod(cfg: Config, svc: Service, req: Request, world: World, chain: seq<Provider>): MethodRun {
    var id := MethodId(req.param);
    if id == 0 then MethodRun(Ok(Plain(None, MethodFields(0), None, {})), UNUSED, svc.budgets, svc.budgetSources)
    else if id == 3 && cfg.etoOptions(req.options).Some? then
      MethodRun(Err(cfg.etoOptions(req.options).value), UNUSED, svc.budgets, svc.budgetSources)
    else
      var (outcome, flags) := RunChain(chain, Signed(if id <= 2 then world.wateringData else world.etoData), UNUSED);
      if id == 4 then BudgetRun(cfg, svc, req, outcome, flags)
      else
        MethodRun(
          match outcome
          case Err(e) => Err(e)
          case Ok(served) =>
            if id == 1 then
              match cfg.zimmerman(req.options, served.data)
              case Ok(scored) => Ok(Plain(Some(scored.scale), MethodFields(scored.fields), None, {served.provider}))
              case Err(e) => Err(e)
            else if id == 2 then
              var (fields, delay) := cfg.rainDelay(req.options, served.data);
              Ok(Plain(None, MethodFields(fields), delay, {served.provider}))
            else Ok(EToResponse(cfg, req, world, chain, served)),
          flags, svc.budgets, svc.budgetSources)
  }

  // ------------------------------------------------------------------ the pipeline

  /** The last instant of the request's local day. */
  function DayEndOf(cfg: Config, req: Request, now: int): int {
    cfg.dayEnd(req.latitude, req.longitude, now)
  }

  function Cached(svc: Service, key: CacheKey, now: int): Option<Response> {
    if key in svc.cache && now <= svc.cache[key].expires then Some(svc.cache[key].answer) else None
  }

  function Annotate(r: Response, flags: Flags, primaryIsPws: bool): Response {
    if primaryIsPws && flags.servedIndex > 0 && r.raw.Some?
    then r.(raw := Some(r.raw.value.(bypass := Bypassed(flags.reason))))
    else r
  }

  /** What the scale cache has for a request whose primary provider allows caching. */
  function CachedAnswer(cfg: Config, svc: Service, req: Request, now: int): Option<Response> {
    if cfg.shouldCache(Primary(cfg, req)) then Cached(svc, MakeKey(req), now) else None
  }

  /** The answer before the overlay, with the flags and the state it leaves. */
  datatype Own = Own(result: Outcome<Response>, flags: Flags, svc: Service)

  function OwnAnswer(cfg: Config, svc: Service, req: Request, world: World): Own {
    var resolved := ResolveWeatherProvider(cfg, req);
    var key := MakeKey(req);
    var cacheable := cfg.shouldCache(resolved.chain[0]);
    var hit := CachedAnswer(cfg, svc, req, world.asked);
    if hit.Some? then Own(Ok(hit.value), UNUSED, svc)
    else
      var run := UseMethod(cfg, svc, req, world, resolved.chain);
      var after := svc.(budgets := run.budgets, budgetSources := run.budgetSources);
      match run.result
      case Err(e) => Own(Err(e), run.flags, after)
      case Ok(response) =>
        var answer := Annotate(response, run.flags, resolved.primaryIsPws);
        Own(Ok(answer), run.flags,
            if cacheable && run.flags.servedIndex <= 0
            then after.(cache := after.cache[key := CacheEntry(answer, DayEndOf(cfg, req, world.answered))])
            else after)
  }

  datatype Fetched = Fetched(weather: Option<SkipWeather>, flags: Flags, memo: map<MemoKey, MemoEntry>)

  function FetchSkipWeather(cfg: Config, memo: map<MemoKey, MemoEntry>, req: Request, world: World,
                            chain: seq<Provider>, flags: Flags): Fetched {
    var key := SkipMemoKey(cfg, req);
    if key in memo && memo[key].expires > world.answered then Fetched(Some(memo[key].weather), flags, memo)
    else
      var run: (Outcome<Option<SkipWeather>>, Flags) := RunChain(chain, WeatherFor(world, req), flags);
      match run.0
      case Ok(Some(weather)) =>
        Fetched(Some(weather), run.1, memo[key := MemoEntry(weather, world.answered + cfg.skipTtl)])
      case _ => Fetched(None, run.1, memo)
  }

  /** The overlay: the input itself unless a guard fires, else a fresh answer with scale 0. */
  function Overlay(answer: Response, fired: Option<SkipReason>): Response {
    if fired.None? then answer
    else
      var raw := if answer.raw.Some? then answer.raw.value else RawData(MethodFields(0), NotBypassed, None);
      answer.(scale := Some(0.0), raw := Some(raw.(skip := fired)))
  }

  datatype WateringDecision = WateringDecision(
    methodId: nat,
    scale: Option<real>,
    rainDelay: Option<int>,
    raw: Option<RawData>,
    skip: bool,
    servedFallback: bool,
    pwsBypassed: bool,
    restricted: bool)

  function Decided(req: Request, answer: Response, flags: Flags, primaryIsPws: bool): WateringDecision {
    var skip := answer.raw.Some? && answer.raw.value.skip.Some?;
    WateringDecision(MethodId(req.param), answer.scale, answer.rainDelay, answer.raw, skip, flags.servedIndex > 0,
                     primaryIsPws && flags.servedIndex > 0, CheckRestrictions(req.param) && skip)
  }

  /** The method exists, and the station's ID and key are well formed if both are given. */
  predicate Accepted(req: Request) {
    MethodId(req.param) <= 4 && BuildPwsFromParams(req.options).Ok?
  }

  /** The overlay over an own answer: the decision, and the state with the memo that the guards leave. */
  function Decide(cfg: Config, own: Own, req: Request, world: World): (Outcome<WateringDecision>, Service) {
    match own.result
    case Err(e) => (Err(e), own.svc)
    case Ok(answer) =>
      var resolved := ResolveWeatherProvider(cfg, req);
      var guards := ResolveSkipConfig(req.options.skips, CheckRestrictions(req.param));
      if !guards.AnyEnabled() then (Ok(Decided(req, answer, own.flags, resolved.primaryIsPws)), own.svc)
      else
        var f := FetchSkipWeather(cfg, own.svc.memo, req, world, resolved.chain, own.flags);
        var fired := if f.weather.Some? then EvaluateSkips(f.weather.value, guards) else None;
        (Ok(Decided(req, Overlay(answer, fired), f.flags, resolved.primaryIsPws)), own.svc.(memo := f.memo))
  }

  function Serve(cfg: Config, svc: Service, req: Request, world: World): (Outcome<WateringDecision>, Service) {
    if MethodId(req.param) > 4 then (Err(Coded(INVALID_ADJUSTMENT_METHOD)), svc)
    else if BuildPwsFromParams(req.options).Err? then (Err(BuildPwsFromParams(req.options).error), svc)
    else Decide(cfg, OwnAnswer(cfg, svc, req, world), req, world)
  }
}
