/** The water budget behind the watering service: whose weather it holds, and when a cached hold stops it. */
module ServiceBudget {
  import opened Common
  import opened Fallback
  import opened Skips
  import opened StateStore
  import opened Decision
  import opened DecisionRuns
  import SoilMoisture
  import WaterBudget
  import BudgetMemory

  // ------------------------------------------------------------------ the polls that advance a budget

  predicate Polls(cfg: Config, req: Request, key: string) {
    MethodId(req.param) == 4 && cfg.budgetPoll(req).key == key
  }

  /** The event polls the water budget of the key, misses the cache, and its weather moves the budget by a day. */
  ghost predicate MovesBudget(cfg: Config, svc: Service, e: Event, key: string) {
    var outcome := EToOutcome(cfg, e);
    && Accepted(e.req) && Polls(cfg, e.req, key) && CachedAnswer(cfg, svc, e.req, e.world.asked).None? && outcome.Ok?
    && WaterBudget.Advances(Lookup(svc.budgets, key), BudgetPollOf(cfg, e.req, outcome))
  }

  ghost predicate AdvancesBudget(cfg: Config, events: seq<Event>, i: nat, key: string)
    requires i < |events|
  {
    MovesBudget(cfg, After(cfg, events[..i]), events[i], key)
  }

  /** The provider whose data event i was served. */
  ghost function ServerOf(cfg: Config, event: Event): Provider
    requires EToOutcome(cfg, event).Ok?
  {
    EToOutcome(cfg, event).value.provider
  }

  /** The polls that advanced the key's budget, with the data that they were served. */
  ghost function AdvancingPolls(cfg: Config, events: seq<Event>, key: string): seq<WaterBudget.Poll> {
    if events == [] then []
    else
      var n := |events| - 1;
      AdvancingPolls(cfg, events[..n], key) +
      (if AdvancesBudget(cfg, events, n, key) then [BudgetPollOf(cfg, events[n].req, EToOutcome(cfg, events[n]))]
       else [])
  }

  /** What a provider's outcome does to one budget: one more day from one more source, or nothing. */
  ghost predicate BudgetMoves(before: Service, after: Service, key: string, advances: bool, poll: WaterBudget.Poll,
                              outcome: Outcome<Served>) {
    if advances && outcome.Ok? then
      && Lookup(after.budgets, key) == WaterBudget.PollOnce(Lookup(before.budgets, key), poll).1
      && SourcesOf(after, key) ==
         {outcome.value.provider} +
         (if WaterBudget.Resets(Lookup(before.budgets, key), poll) then {} else SourcesOf(before, key))
    else Lookup(after.budgets, key) == Lookup(before.budgets, key) && SourcesOf(after, key) == SourcesOf(before, key)
  }

  /** Only a budget poll that misses the cache can touch a budget, and only its own one. */
  lemma OwnAnswerBudget(cfg: Config, svc: Service, req: Request, world: World, key: string)
    ensures var outcome := EToOutcome(cfg, Event(req, world));
            var poll := BudgetPollOf(cfg, req, outcome);
            BudgetMoves(svc, OwnAnswer(cfg, svc, req, world).svc, key,
                        MethodId(req.param) == 4 && CachedAnswer(cfg, svc, req, world.asked).None?
                        && cfg.budgetPoll(req).key == key && WaterBudget.Advances(Lookup(svc.budgets, key), poll),
                        poll, outcome)
  {
    OwnAnswerKeeps(cfg, svc, req, world);
    UseMethodBudgets(cfg, svc, req, world);
    if MethodId(req.param) == 4 {
      BudgetRunBudget(cfg, svc, req, EToOutcome(cfg, Event(req, world)), FlagsOf(cfg, svc, req, world), key);
    }
  }

  ghost function FlagsOf(cfg: Config, svc: Service, req: Request, world: World): Flags {
    UseMethod(cfg, svc, req, world, ResolveWeatherProvider(cfg, req).chain).flags
  }

  lemma UseMethodBudgets(cfg: Config, svc: Service, req: Request, world: World)
    ensures var run := UseMethod(cfg, svc, req, world, ResolveWeatherProvider(cfg, req).chain);
            if MethodId(req.param) == 4 then
              run == BudgetRun(cfg, svc, req, EToOutcome(cfg, Event(req, world)), run.flags)
            else run.budgets == svc.budgets && run.budgetSources == svc.budgetSources
  {
  }

  lemma BudgetRunBudget(cfg: Config, svc: Service, req: Request, outcome: Outcome<Served>, flags: Flags, key: string)
    ensures var run, poll := BudgetRun(cfg, svc, req, outcome, flags), BudgetPollOf(cfg, req, outcome);
            BudgetMoves(svc, svc.(budgets := run.budgets, budgetSources := run.budgetSources), key,
                        poll.key == key && WaterBudget.Advances(Lookup(svc.budgets, key), poll), poll, outcome)
  {
    var poll := BudgetPollOf(cfg, req, outcome);
    WaterBudget.OnlyAdvancingPollsPersist(Lookup(svc.budgets, poll.key), poll);
    WaterBudget.AnswersHeldScale(Lookup(svc.budgets, poll.key), poll);
  }

  /** Event i is the first advancing poll after so long an outage that the stored rain is dropped. */
  ghost predicate ResetsBudget(cfg: Config, events: seq<Event>, i: nat, key: string)
    requires i < |events|
  {
    WaterBudget.Resets(Lookup(After(cfg, events[..i]).budgets, key),
                       BudgetPollOf(cfg, events[i].req, EToOutcome(cfg, events[i])))
  }

  /** The providers that served the advancing polls since the last gap reset, that one included. */
  ghost function ServersSinceReset(cfg: Config, events: seq<Event>, key: string): seq<Provider> {
    if events == [] then []
    else
      var n := |events| - 1;
      var before := ServersSinceReset(cfg, events[..n], key);
      if !AdvancesBudget(cfg, events, n, key) then before
      else (if ResetsBudget(cfg, events, n, key) then [] else before) + [ServerOf(cfg, events[n])]
  }

  /** A request touches its own budget only, and only when it advances it. */
  lemma ServeBudget(cfg: Config, svc: Service, e: Event, key: string)
    ensures var outcome := EToOutcome(cfg, e);
            BudgetMoves(svc, Serve(cfg, svc, e.req, e.world).1, key, MovesBudget(cfg, svc, e, key),
                        BudgetPollOf(cfg, e.req, outcome), outcome)
  {
    assert Event(e.req, e.world) == e;
    ServeStores(cfg, svc, e.req, e.world);
    OwnAnswerBudget(cfg, svc, e.req, e.world, key);
  }

  lemma OneEventBudget(cfg: Config, events: seq<Event>, key: string)
    requires events != []
    ensures var n := |events| - 1;
            var outcome := EToOutcome(cfg, events[n]);
            BudgetMoves(After(cfg, events[..n]), After(cfg, events), key, AdvancesBudget(cfg, events, n, key),
                        BudgetPollOf(cfg, events[n].req, outcome), outcome)
  {
    var n := |events| - 1;
    ServeBudget(cfg, After(cfg, events[..n]), events[n], key);
  }

  /** The service's budget is the budget of its advancing polls, run one after the other from a cold start. */
  lemma {:induction false} ServiceBudgetIsPollRun(cfg: Config, events: seq<Event>, key: string)
    ensures Lookup(After(cfg, events).budgets, key) == WaterBudget.PollRun(None, AdvancingPolls(cfg, events, key))
  {
    if events != [] {
      var n := |events| - 1;
      ServiceBudgetIsPollRun(cfg, events[..n], key);
      OneEventBudget(cfg, events, key);
      var polls := AdvancingPolls(cfg, events[..n], key);
      if AdvancesBudget(cfg, events, n, key) {
        var poll := BudgetPollOf(cfg, events[n].req, EToOutcome(cfg, events[n]));
        assert (polls + [poll])[..|polls|] == polls;
      } else {
        assert polls + [] == polls;
      }
    }
  }

  /** The advancing polls since the last gap reset, with the data that they were served. */
  ghost function RememberedBy(cfg: Config, events: seq<Event>, key: string): BudgetMemory.Remembered {
    if events == [] then BudgetMemory.Remembered(false, [])
    else
      var n := |events| - 1;
      var before := RememberedBy(cfg, events[..n], key);
      if !AdvancesBudget(cfg, events, n, key) then before
      else BudgetMemory.Remember(before, Lookup(After(cfg, events[..n]).budgets, key),
                                 BudgetPollOf(cfg, events[n].req, EToOutcome(cfg, events[n])))
  }

  /** The service's budget is, for all that any poll can see, that of the polls since the last gap reset alone. */
  lemma {:induction false} BudgetIsReplay(cfg: Config, events: seq<Event>, key: string)
    ensures var r := RememberedBy(cfg, events, key);
            BudgetMemory.Sound(r) && BudgetMemory.Alike(Lookup(After(cfg, events).budgets, key), BudgetMemory.Replay(r))
  {
    if events != [] {
      var n := |events| - 1;
      BudgetIsReplay(cfg, events[..n], key);
      OneEventBudget(cfg, events, key);
      if AdvancesBudget(cfg, events, n, key) {
        BudgetMemory.ReplayOneMore(RememberedBy(cfg, events[..n], key), Lookup(After(cfg, events[..n]).budgets, key),
                                   BudgetPollOf(cfg, events[n].req, EToOutcome(cfg, events[n])));
      }
    }
  }

  /**
   * Runs that remember the same polls answer the same, whatever else the providers returned: data
   * from before the last gap reset, and data that never advanced the budget, play no part.
   */
  lemma MemoryDecidesAnswer(cfg: Config, a: seq<Event>, b: seq<Event>, req: Request, wa: World, wb: World)
    requires MethodId(req.param) == 4 && EToOutcome(cfg, Event(req, wa)) == EToOutcome(cfg, Event(req, wb))
    requires RememberedBy(cfg, a, cfg.budgetPoll(req).key) == RememberedBy(cfg, b, cfg.budgetPoll(req).key)
    ensures Seen(BudgetAnswer(cfg, a, req, wa)) == Seen(BudgetAnswer(cfg, b, req, wb))
  {
    AnswerIsReplayed(cfg, a, req, wa);
    AnswerIsReplayed(cfg, b, req, wb);
  }

  /** What the method answers to a request after a run. */
  ghost function BudgetAnswer(cfg: Config, events: seq<Event>, req: Request, world: World): Outcome<Response> {
    UseMethod(cfg, After(cfg, events), req, world, ChainOf(cfg, req)).result
  }

  /** What a client can see of an answer: its failure, or its scale and raw data. */
  function Seen(r: Outcome<Response>): Outcome<(Option<real>, Option<RawData>)> {
    match r
    case Err(e) => Err(e)
    case Ok(response) => Ok((response.scale, response.raw))
  }

  function SeenAnswer(r: Result<WaterBudget.Answer, int>): Outcome<(Option<real>, Option<RawData>)> {
    match r
    case Err(code) => Err(Coded(code))
    case Ok(a) => Ok((Some(a.scale), Some(RawData(BudgetFields(a), NotBypassed, None))))
  }

  lemma AnswerIsReplayed(cfg: Config, events: seq<Event>, req: Request, world: World)
    requires MethodId(req.param) == 4
    ensures var poll := BudgetPollOf(cfg, req, EToOutcome(cfg, Event(req, world)));
            var memory := BudgetMemory.Replay(RememberedBy(cfg, events, cfg.budgetPoll(req).key));
            Seen(BudgetAnswer(cfg, events, req, world)) == SeenAnswer(WaterBudget.PollOnce(memory, poll).0)
  {
    var key, poll := cfg.budgetPoll(req).key, BudgetPollOf(cfg, req, EToOutcome(cfg, Event(req, world)));
    BudgetIsReplay(cfg, events, key);
    AnswerFromBudget(cfg, After(cfg, events), req, world);
    BudgetMemory.AlikeAnswers(Lookup(After(cfg, events).budgets, key),
                              BudgetMemory.Replay(RememberedBy(cfg, events, key)), poll);
  }

  lemma AnswerFromBudget(cfg: Config, svc: Service, req: Request, world: World)
    requires MethodId(req.param) == 4
    ensures var prev := Lookup(svc.budgets, cfg.budgetPoll(req).key);
            var poll := BudgetPollOf(cfg, req, EToOutcome(cfg, Event(req, world)));
            Seen(UseMethod(cfg, svc, req, world, ChainOf(cfg, req)).result) ==
              SeenAnswer(WaterBudget.PollOnce(prev, poll).0)
  {
    UseMethodBudgets(cfg, svc, req, world);
  }

  /** The budget's recorded sources are exactly the servers of the polls that advanced it since the last gap reset. */
  lemma {:induction false} BudgetSourcesAreServers(cfg: Config, events: seq<Event>, key: string)
    ensures forall p :: p in SourcesOf(After(cfg, events), key) <==> p in ServersSinceReset(cfg, events, key)
  {
    if events != [] {
      BudgetSourcesAreServers(cfg, events[..|events| - 1], key);
      OneEventBudget(cfg, events, key);
    }
  }

  /** A budget poll that misses the cache and is answered, by data or by a hold. */
  ghost predicate AnsweredPoll(cfg: Config, svc: Service, req: Request, world: World) {
    && Accepted(req) && MethodId(req.param) == 4 && CachedAnswer(cfg, svc, req, world.asked).None?
    && UseMethod(cfg, svc, req, world, ChainOf(cfg, req)).result.Ok?
  }

  /**
   * In every run, a cacheable answer of the water budget is made of the primary provider's data
   * alone exactly when that provider served every poll that advanced the location's budget since
   * its last gap reset, the answered poll included.
   */
  lemma BudgetPrimaryOnlyIff(cfg: Config, events: seq<Event>, req: Request, world: World)
    requires AnsweredPoll(cfg, After(cfg, events), req, world)
    requires UseMethod(cfg, After(cfg, events), req, world, ChainOf(cfg, req)).flags.servedIndex <= 0
    ensures PrimaryOnly(cfg, After(cfg, events), req, world) <==>
            forall server <- ServersSinceReset(cfg, events + [Event(req, world)], cfg.budgetPoll(req).key) ::
              server == Primary(cfg, req)
  {
    var all, key := events + [Event(req, world)], cfg.budgetPoll(req).key;
    assert all[..|events|] == events;
    ServeStores(cfg, After(cfg, events), req, world);
    OwnAnswerKeeps(cfg, After(cfg, events), req, world);
    AnswerHoldsSources(cfg, After(cfg, events), req, world);
    OneServerIff(cfg, all, key, Primary(cfg, req));
  }

  lemma OneServerIff(cfg: Config, events: seq<Event>, key: string, p: Provider)
    ensures SourcesOf(After(cfg, events), key) <= {p} <==>
              forall server <- ServersSinceReset(cfg, events, key) :: server == p
  {
    BudgetSourcesAreServers(cfg, events, key);
  }

  /** An answer's sources are those recorded for the budget that it leaves. */
  lemma AnswerHoldsSources(cfg: Config, svc: Service, req: Request, world: World)
    requires MethodId(req.param) == 4
    ensures var run := UseMethod(cfg, svc, req, world, ChainOf(cfg, req));
            run.result.Ok? ==>
              run.result.value.sources ==
              SourcesOf(svc.(budgets := run.budgets, budgetSources := run.budgetSources), cfg.budgetPoll(req).key)
  {
    UseMethodBudgets(cfg, svc, req, world);
  }

  // ------------------------------------------------------------------ holds that are cached

  ghost function BudgetAfter(cfg: Config, events: seq<Event>, req: Request): Option<SoilMoisture.BudgetState> {
    Lookup(After(cfg, events).budgets, cfg.budgetPoll(req).key)
  }

  /** Later requests among which only the event's own one polls its budget, on the local day of the event's answer. */
  ghost predicate LaterThatDay(cfg: Config, e: Event, later: seq<Event>) {
    forall f <- later :: Polls(cfg, f.req, cfg.budgetPoll(e.req).key) ==>
                           f.req == e.req && e.world.answered <= f.world.asked <= DayEndOf(cfg, e.req, e.world.answered)
  }

  /** Whatever is asked later that day, the budget stays where it was before the event. */
  ghost predicate KeepsBudget(cfg: Config, past: seq<Event>, e: Event) {
    forall later: seq<Event> | LaterThatDay(cfg, e, later) ::
      BudgetAfter(cfg, past + [e] + later, e.req) == BudgetAfter(cfg, past, e.req)
  }

  ghost predicate AdvancesNow(cfg: Config, past: seq<Event>, e: Event) {
    WaterBudget.Advances(BudgetAfter(cfg, past, e.req), BudgetPollOf(cfg, e.req, EToOutcome(cfg, e)))
  }

  /**
   * An answered poll that its primary provider allows to cache keeps the budget from advancing for
   * the rest of the local day, even when weather of a new date is there to be had, exactly when it
   * is a hold that no fallback served: every provider failed, or the primary's weather was
   * incomplete or of a date that is stored already.
   */
  lemma HoldKeepsBudgetIff(cfg: Config, past: seq<Event>, e: Event, d: int)
    requires ValidDays(cfg) && e.world.asked <= e.world.answered && cfg.shouldCache(Primary(cfg, e.req))
    requires AnsweredPoll(cfg, After(cfg, past), e.req, e.world)
    requires var (eto, precip, today) := cfg.budgetWeather(e.req, d);
             eto.Finite? && precip.Finite? && !SoilMoisture.SameDay(BudgetAfter(cfg, past, e.req), today)
    ensures KeepsBudget(cfg, past, e) <==>
            FlagsOf(cfg, After(cfg, past), e.req, e.world).servedIndex <= 0 && !AdvancesNow(cfg, past, e)
  {
    EventLeaves(cfg, past, e);
    if AdvancesNow(cfg, past, e) {
      assert past + [e] + [] == past + [e];
      assert LaterThatDay(cfg, e, []);
    } else if FlagsOf(cfg, After(cfg, past), e.req, e.world).servedIndex > 0 {
      FreshWeatherAdvances(cfg, past, e, d);
    } else {
      forall later: seq<Event> | LaterThatDay(cfg, e, later)
        ensures BudgetAfter(cfg, past + [e] + later, e.req) == BudgetAfter(cfg, past, e.req)
      {
        HeldAllDay(cfg, past, e, later);
      }
    }
  }

  lemma AfterOneMore(cfg: Config, events: seq<Event>, e: Event)
    ensures After(cfg, events + [e]) == Serve(cfg, After(cfg, events), e.req, e.world).1
  {
    assert (events + [e])[..|events|] == events;
  }

  /** The event itself: whether it moves its budget, and whether it is stored. */
  lemma EventLeaves(cfg: Config, past: seq<Event>, e: Event)
    requires AnsweredPoll(cfg, After(cfg, past), e.req, e.world)
    ensures BudgetAfter(cfg, past + [e], e.req) != BudgetAfter(cfg, past, e.req) <==> AdvancesNow(cfg, past, e)
    ensures var before, after, key := After(cfg, past).cache, After(cfg, past + [e]).cache, MakeKey(e.req);
            if cfg.shouldCache(Primary(cfg, e.req)) && FlagsOf(cfg, After(cfg, past), e.req, e.world).servedIndex <= 0
            then key in after && after[key].expires == DayEndOf(cfg, e.req, e.world.answered)
            else after == before
  {
    AfterOneMore(cfg, past, e);
    ServeBudget(cfg, After(cfg, past), e, cfg.budgetPoll(e.req).key);
    WaterBudget.OnlyAdvancingPollsPersist(BudgetAfter(cfg, past, e.req), BudgetPollOf(cfg, e.req, EToOutcome(cfg, e)));
    ServeStores(cfg, After(cfg, past), e.req, e.world);
    MissStores(cfg, After(cfg, past), e.req, e.world);
  }

  lemma MissStores(cfg: Config, svc: Service, req: Request, world: World)
    requires AnsweredPoll(cfg, svc, req, world)
    ensures var after := OwnAnswer(cfg, svc, req, world).svc.cache;
            if cfg.shouldCache(Primary(cfg, req)) && FlagsOf(cfg, svc, req, world).servedIndex <= 0
            then MakeKey(req) in after && after[MakeKey(req)].expires == DayEndOf(cfg, req, world.answered)
            else after == svc.cache
  {
  }

  /** The request's answer is in the cache until the given instant. */
  predicate HeldUntil(svc: Service, req: Request, end: int) {
    MakeKey(req) in svc.cache && svc.cache[MakeKey(req)].expires == end
  }

  /** A stored hold answers the poll again, so that it does not reach the method. */
  lemma HeldOnceMore(cfg: Config, svc: Service, req: Request, end: int, f: Event)
    requires cfg.shouldCache(Primary(cfg, req)) && HeldUntil(svc, req, end)
    requires Polls(cfg, f.req, cfg.budgetPoll(req).key) ==> f.req == req
    requires f.req == req ==> f.world.asked <= end
    ensures var after, key := Serve(cfg, svc, f.req, f.world).1, cfg.budgetPoll(req).key;
            HeldUntil(after, req, end) && Lookup(after.budgets, key) == Lookup(svc.budgets, key)
  {
    ServeKeepsEntry(cfg, svc, f.req, f.world, req);
    ServeBudget(cfg, svc, f, cfg.budgetPoll(req).key);
  }

  lemma {:induction false} HeldAllDay(cfg: Config, past: seq<Event>, e: Event, later: seq<Event>)
    requires HeldUntil(After(cfg, past + [e]), e.req, DayEndOf(cfg, e.req, e.world.answered))
    requires LaterThatDay(cfg, e, later)
    requires MethodId(e.req.param) == 4 && cfg.shouldCache(Primary(cfg, e.req))
    ensures HeldUntil(After(cfg, past + [e] + later), e.req, DayEndOf(cfg, e.req, e.world.answered))
    ensures BudgetAfter(cfg, past + [e] + later, e.req) == BudgetAfter(cfg, past + [e], e.req)
  {
    if later == [] {
      assert past + [e] + [] == past + [e];
    } else {
      var init, last := later[..|later| - 1], later[|later| - 1];
      HeldAllDay(cfg, past, e, init);
      assert past + [e] + later == past + [e] + init + [last] && last in later;
      HeldAfterOneMore(cfg, past + [e] + init, e.req, DayEndOf(cfg, e.req, e.world.answered), last);
    }
  }

  lemma HeldAfterOneMore(cfg: Config, events: seq<Event>, req: Request, end: int, last: Event)
    requires cfg.shouldCache(Primary(cfg, req)) && HeldUntil(After(cfg, events), req, end)
    requires Polls(cfg, last.req, cfg.budgetPoll(req).key) ==> last.req == req && last.world.asked <= end
    requires Polls(cfg, req, cfg.budgetPoll(req).key)
    ensures HeldUntil(After(cfg, events + [last]), req, end)
    ensures BudgetAfter(cfg, events + [last], req) == BudgetAfter(cfg, events, req)
  {
    AfterOneMore(cfg, events, last);
    HeldOnceMore(cfg, After(cfg, events), req, end, last);
  }

  /** An answer that was not stored leaves the day open: at once the primary provider may bring a new date. */
  lemma FreshWeatherAdvances(cfg: Config, past: seq<Event>, e: Event, d: int)
    requires ValidDays(cfg) && e.world.asked <= e.world.answered && !AdvancesNow(cfg, past, e)
    requires AnsweredPoll(cfg, After(cfg, past), e.req, e.world)
    requires FlagsOf(cfg, After(cfg, past), e.req, e.world).servedIndex > 0
    requires var (eto, precip, today) := cfg.budgetWeather(e.req, d);
             eto.Finite? && precip.Finite? && !SoilMoisture.SameDay(BudgetAfter(cfg, past, e.req), today)
    ensures !KeepsBudget(cfg, past, e)
  {
    var t := e.world.answered;
    var f := Event(e.req, World(t, t, _ => Ok(d), _ => Ok(d), _ => Ok(d), (_, _) => Ok(None)));
    FreshPollMovesOn(cfg, past, e, f, d);
    AtOnce(cfg, e, f);
    NotKept(cfg, past, e, [f]);
  }

  lemma AtOnce(cfg: Config, e: Event, f: Event)
    requires ValidDays(cfg) && f.req == e.req && f.world.asked == e.world.answered
    ensures LaterThatDay(cfg, e, [f])
  {
  }

  lemma NotKept(cfg: Config, past: seq<Event>, e: Event, later: seq<Event>)
    requires LaterThatDay(cfg, e, later) && BudgetAfter(cfg, past + [e] + later, e.req) != BudgetAfter(cfg, past, e.req)
    ensures !KeepsBudget(cfg, past, e)
  {
  }

  lemma FreshPollMovesOn(cfg: Config, past: seq<Event>, e: Event, f: Event, d: int)
    requires !AdvancesNow(cfg, past, e) && AnsweredPoll(cfg, After(cfg, past), e.req, e.world)
    requires FlagsOf(cfg, After(cfg, past), e.req, e.world).servedIndex > 0
    requires f.req == e.req && e.world.asked <= f.world.asked && f.world.etoData(Primary(cfg, e.req)) == Ok(d)
    requires var (eto, precip, today) := cfg.budgetWeather(e.req, d);
             eto.Finite? && precip.Finite? && !SoilMoisture.SameDay(BudgetAfter(cfg, past, e.req), today)
    ensures BudgetAfter(cfg, past + [e] + [f], e.req) != BudgetAfter(cfg, past, e.req)
  {
    EventLeaves(cfg, past, e);
    PrimaryAnswers(cfg, f, d);
    AfterOneMore(cfg, past + [e], f);
    StillMissed(cfg, After(cfg, past), After(cfg, past + [e]), e.req, e.world.asked, f.world.asked);
    FreshPollMoves(cfg, After(cfg, past + [e]), f, d);
  }

  lemma StillMissed(cfg: Config, before: Service, after: Service, req: Request, asked: int, t: int)
    requires after.cache == before.cache && CachedAnswer(cfg, before, req, asked).None? && asked <= t
    ensures CachedAnswer(cfg, after, req, t).None?
  {
  }

  lemma FreshPollMoves(cfg: Config, svc: Service, f: Event, d: int)
    requires Accepted(f.req) && MethodId(f.req.param) == 4 && CachedAnswer(cfg, svc, f.req, f.world.asked).None?
    requires EToOutcome(cfg, f) == Ok(Served(Primary(cfg, f.req), d))
    requires var (eto, precip, today) := cfg.budgetWeather(f.req, d);
             eto.Finite? && precip.Finite?
               && !SoilMoisture.SameDay(Lookup(svc.budgets, cfg.budgetPoll(f.req).key), today)
    ensures var key := cfg.budgetPoll(f.req).key;
            Lookup(Serve(cfg, svc, f.req, f.world).1.budgets, key) != Lookup(svc.budgets, key)
  {
    var key := cfg.budgetPoll(f.req).key;
    ServeBudget(cfg, svc, f, key);
    WaterBudget.OnlyAdvancingPollsPersist(Lookup(svc.budgets, key), BudgetPollOf(cfg, f.req, EToOutcome(cfg, f)));
  }

  lemma PrimaryAnswers(cfg: Config, e: Event, d: int)
    requires e.world.etoData(Primary(cfg, e.req)) == Ok(d)
    ensures EToOutcome(cfg, e) == Ok(Served(Primary(cfg, e.req), d))
  {
    StopIsUnique(ChainOf(cfg, e.req), Signed(e.world.etoData), 0, 0);
  }

  // ------------------------------------------------------------------ fallback data in the cache

  /**
   * So fallback data does reach the scale cache through the budget's memory: a day advanced on a
   * fallback's weather is not cached, but the next poll, served by the primary, caches the held scale.
   */
  lemma HeldFallbackScaleIsCached(cfg: Config, req: Request, first: World, second: World, d1: int, d2: int)
    requires MethodId(req.param) == 4 && Accepted(req)
    requires var chain := ResolveWeatherProvider(cfg, req).chain;
             && |chain| >= 2 && cfg.shouldCache(chain[0])
             && EligibleFailure(first.etoData(chain[0])) && first.etoData(chain[1]) == Ok(d1)
             && second.etoData(chain[0]) == Ok(d2)
    requires var (a, b) := (cfg.budgetWeather(req, d1), cfg.budgetWeather(req, d2));
             a.0.Finite? && a.1.Finite? && b.0.Finite? && b.1.Finite? && a.2 == b.2
    ensures var cache := After(cfg, [Event(req, first), Event(req, second)]).cache;
            && MakeKey(req) in cache
            && ResolveWeatherProvider(cfg, req).chain[1] in cache[MakeKey(req)].answer.sources
  {
    var events := [Event(req, first), Event(req, second)];
    var chain, key := ResolveWeatherProvider(cfg, req).chain, cfg.budgetPoll(req).key;
    OneEvent(cfg, Event(req, first));
    assert events[..1] == [Event(req, first)];
    FallbackAdvancesBudget(cfg, req, first, d1);
    ServeStores(cfg, COLD, req, first);
    var svc := After(cfg, events[..1]);
    HeldScaleIsStored(cfg, svc, req, second, d2, chain[1]);
    ServeStores(cfg, svc, req, second);
  }

  /** The first day: the primary fails, the fallback's data advances the budget, nothing is cached. */
  lemma FallbackAdvancesBudget(cfg: Config, req: Request, world: World, d: int)
    requires MethodId(req.param) == 4
    requires var chain := ResolveWeatherProvider(cfg, req).chain;
             |chain| >= 2 && EligibleFailure(world.etoData(chain[0])) && world.etoData(chain[1]) == Ok(d)
    requires cfg.budgetWeather(req, d).0.Finite? && cfg.budgetWeather(req, d).1.Finite?
    ensures var after, key := OwnAnswer(cfg, COLD, req, world).svc, cfg.budgetPoll(req).key;
            && after.cache == map[]
            && key in after.budgets && WaterBudget.Locked(Some(after.budgets[key]), cfg.budgetWeather(req, d).2)
            && SourcesOf(after, key) == {ResolveWeatherProvider(cfg, req).chain[1]}
  {
    var chain, fn := ResolveWeatherProvider(cfg, req).chain, Signed(world.etoData);
    StopIsUnique(chain, fn, 0, 1);
    assert UseMethod(cfg, COLD, req, world, chain) ==
           BudgetRun(cfg, COLD, req, Ok(Served(chain[1], d)), RunChain(chain, fn, UNUSED).1);
  }

  /** Later that day: the primary is back, and the held scale is stored with its sources. */
  lemma HeldScaleIsStored(cfg: Config, svc: Service, req: Request, world: World, d: int, source: Provider)
    requires MethodId(req.param) == 4 && MakeKey(req) !in svc.cache
    requires var chain := ResolveWeatherProvider(cfg, req).chain;
             cfg.shouldCache(chain[0]) && world.etoData(chain[0]) == Ok(d)
    requires cfg.budgetWeather(req, d).0.Finite? && cfg.budgetWeather(req, d).1.Finite?
    requires var key := cfg.budgetPoll(req).key;
             && key in svc.budgets && WaterBudget.Locked(Some(svc.budgets[key]), cfg.budgetWeather(req, d).2)
             && source in SourcesOf(svc, key)
    ensures var after := OwnAnswer(cfg, svc, req, world).svc;
            MakeKey(req) in after.cache && source in after.cache[MakeKey(req)].answer.sources
  {
    var chain, fn := ResolveWeatherProvider(cfg, req).chain, Signed(world.etoData);
    StopIsUnique(chain, fn, 0, 0);
    assert UseMethod(cfg, svc, req, world, chain) ==
           BudgetRun(cfg, svc, req, Ok(Served(chain[0], d)), RunChain(chain, fn, UNUSED).1);
  }
}
