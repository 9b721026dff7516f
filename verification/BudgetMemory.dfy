/** What a water budget remembers of the days behind it. */
module BudgetMemory {
  import opened Common
  import opened SoilMoisture
  import opened WaterBudget

  // ------------------------------------------------------------------ states that answer alike

  /** What a poll can see of a state: everything but the older decisions and the day's opening balance. */
  predicate Alike(s: Option<BudgetState>, t: Option<BudgetState>) {
    match (s, t)
    case (None, None) => true
    case (Some(a), Some(b)) =>
      && a.rainBank == b.rainBank && a.lastUpdated == b.lastUpdated && a.lastScale == b.lastScale
      && (a.history == [] <==> b.history == [])
      && (a.history != [] ==> SameDecision(a.lastScale, Newest(a), Newest(b)))
    case _ => false
  }

  function Newest(s: BudgetState): DecisionRecord
    requires s.history != []
  {
    s.history[|s.history| - 1]
  }

  predicate SameDecision(scale: real, a: DecisionRecord, b: DecisionRecord) {
    ShownDecision(scale, a) == ShownDecision(scale, b) && a.demandKc == b.demandKc
  }

  /** Alike states give the same answer to every poll and stay alike. */
  lemma AlikeAnswers(s: Option<BudgetState>, t: Option<BudgetState>, poll: Poll)
    requires Alike(s, t)
    ensures PollOnce(s, poll).0 == PollOnce(t, poll).0 && Alike(PollOnce(s, poll).1, PollOnce(t, poll).1)
  {
    if Advances(s, poll) && s.Some? {
      BankDecidesDay(s, t, poll);
    }
  }

  /** An advancing day looks at nothing but the bank and the date. */
  lemma BankDecidesDay(s: Option<BudgetState>, t: Option<BudgetState>, poll: Poll)
    requires s.Some? && t.Some? && Advances(s, poll)
    requires s.value.rainBank == t.value.rainBank && s.value.lastUpdated == t.value.lastUpdated
    ensures PollOnce(s, poll).0 == PollOnce(t, poll).0 && Alike(PollOnce(s, poll).1, PollOnce(t, poll).1)
  {
    SameOpening(s, t, InputOf(poll));
  }

  /** A day that starts from the same balance ends in the same decision. */
  lemma SameOpening(s: Option<BudgetState>, t: Option<BudgetState>, input: StepInput)
    requires s.Some? && t.Some? && !SameDay(s, input.today) && !SameDay(t, input.today)
    requires CarriedBank(s, input) == CarriedBank(t, input) && LongGap(s, input) == LongGap(t, input)
    ensures var a, b := Step(s, input), Step(t, input);
            && a.scale == b.scale && a.reason == b.reason && a.state.(history := []) == b.state.(history := [])
            && a.state.history != [] && b.state.history != [] && Newest(a.state) == Newest(b.state)
  {
  }

  lemma {:induction false} AlikeRuns(s: Option<BudgetState>, t: Option<BudgetState>, polls: seq<Poll>)
    requires Alike(s, t)
    ensures Alike(PollRun(s, polls), PollRun(t, polls))
  {
    if polls != [] {
      var n := |polls| - 1;
      AlikeRuns(s, t, polls[..n]);
      AlikeAnswers(PollRun(s, polls[..n]), PollRun(t, polls[..n]), polls[n]);
    }
  }

  // ------------------------------------------------------------------ a gap reset forgets

  /** The advancing polls since the last gap reset, or since the cold start. */
  datatype Remembered = Remembered(reset: bool, polls: seq<Poll>)

  function Remember(before: Remembered, prev: Option<BudgetState>, poll: Poll): Remembered {
    if !Advances(prev, poll) then before
    else if Resets(prev, poll) then Remembered(true, [poll])
    else before.(polls := before.polls + [poll])
  }

  /** A state so old that the poll resets it. */
  function LongAgo(poll: Poll): BudgetState
    requires poll.weather.Available?
  {
    BudgetState(Finite(0.0), poll.weather.today - InputOf(poll).params.gapResetDays.Floor - 1, 0.0, [])
  }

  /** The budget that the remembered polls alone amount to. */
  function Replay(r: Remembered): Option<BudgetState> {
    if r.reset && r.polls != [] && r.polls[0].weather.Available? then PollRun(Some(LongAgo(r.polls[0])), r.polls)
    else PollRun(None, r.polls)
  }

  predicate Sound(r: Remembered) {
    r.reset ==> r.polls != [] && r.polls[0].weather.Available?
  }

  /** After a reset any two states are as good as each other. */
  lemma ResetForgets(s: Option<BudgetState>, t: Option<BudgetState>, poll: Poll)
    requires Advances(s, poll) && Resets(s, poll) && Advances(t, poll) && Resets(t, poll)
    ensures PollOnce(s, poll).0 == PollOnce(t, poll).0 && Alike(PollOnce(s, poll).1, PollOnce(t, poll).1)
  {
    SameOpening(s, t, InputOf(poll));
  }

  lemma LongAgoResets(poll: Poll)
    requires HasWeather(poll)
    ensures Advances(Some(LongAgo(poll)), poll) && Resets(Some(LongAgo(poll)), poll)
  {
    ParametersAreUsable(poll);
  }

  lemma PollRunAppend(prev: Option<BudgetState>, polls: seq<Poll>, poll: Poll)
    ensures PollRun(prev, polls + [poll]) == PollOnce(PollRun(prev, polls), poll).1
  {
    assert (polls + [poll])[..|polls|] == polls;
  }

  lemma ReplayAppend(r: Remembered, poll: Poll)
    requires Sound(r)
    ensures Replay(r.(polls := r.polls + [poll])) == PollOnce(Replay(r), poll).1
  {
    if r.reset {
      assert (r.polls + [poll])[0] == r.polls[0];
      PollRunAppend(Some(LongAgo(r.polls[0])), r.polls, poll);
    } else {
      PollRunAppend(None, r.polls, poll);
    }
  }

  lemma ReplayReset(prev: Option<BudgetState>, poll: Poll)
    requires Advances(prev, poll) && Resets(prev, poll)
    ensures Alike(PollOnce(prev, poll).1, Replay(Remembered(true, [poll])))
  {
    LongAgoResets(poll);
    ResetForgets(prev, Some(LongAgo(poll)), poll);
    assert [] + [poll] == [poll];
    PollRunAppend(Some(LongAgo(poll)), [], poll);
  }

  /** One more poll is remembered by the replay as it is by the budget itself. */
  lemma ReplayOneMore(r: Remembered, prev: Option<BudgetState>, poll: Poll)
    requires Sound(r) && Alike(prev, Replay(r))
    ensures Sound(Remember(r, prev, poll)) && Alike(PollOnce(prev, poll).1, Replay(Remember(r, prev, poll)))
  {
    OnlyAdvancingPollsPersist(prev, poll);
    if Advances(prev, poll) && Resets(prev, poll) {
      ReplayReset(prev, poll);
    } else if Advances(prev, poll) {
      ReplayAppend(r, poll);
      AlikeAnswers(prev, Replay(r), poll);
    }
  }

  // ------------------------------------------------------------------ how long one day matters

  /** The poll with other amounts of weather on the same date. */
  function WithAmounts(poll: Poll, eto: real, precip: real): Poll
    requires poll.weather.Available?
  {
    poll.(weather := Available(Finite(eto), Finite(precip), poll.weather.today))
  }

  /** The fullest bank that the day can end with, whatever its weather. */
  function FullestBank(prev: Option<BudgetState>, input: StepInput): real {
    if input.params.runoffFactor > 0.0 then BankCap(input) else Clamp(CarriedBank(prev, input), 0.0, BankCap(input))
  }

  function WithBank(s: BudgetState, bank: real): Option<BudgetState> {
    Some(s.(rainBank := Finite(bank)))
  }

  /** The budget after one more day and some more polls. */
  function Later(s: Option<BudgetState>, next: Poll, rest: seq<Poll>): Option<BudgetState> {
    PollRun(PollOnce(s, next).1, rest)
  }

  /** The two states were reached by the same polls from different banks. */
  predicate Twins(s: Option<BudgetState>, t: Option<BudgetState>) {
    && Dominated(s, t) && s.Some? && s.value.rainBank.Finite? && t.value.rainBank.Finite?
    && (s.value.rainBank == t.value.rainBank && s.value.lastScale == t.value.lastScale ==> Alike(s, t))
  }

  lemma TwinPolls(s: Option<BudgetState>, t: Option<BudgetState>, poll: Poll)
    requires Dominated(s, t) && s.Some? && (Advances(s, poll) || Twins(s, t))
    ensures Twins(PollOnce(s, poll).1, PollOnce(t, poll).1)
  {
    OnlyAdvancingPollsPersist(s, poll);
    OnlyAdvancingPollsPersist(t, poll);
    if Advances(s, poll) {
      var input := InputOf(poll);
      ParametersAreUsable(poll);
      StepMonotone(s, t, input, input);
      SameClosing(s, t, input);
    }
  }

  /** Of days with one input, the bank and the scale that they end with decide what is shown of them. */
  lemma SameClosing(s: Option<BudgetState>, t: Option<BudgetState>, input: StepInput)
    requires s.Some? && t.Some? && s.value.lastUpdated == t.value.lastUpdated && !SameDay(s, input.today)
    ensures var a, b := Step(s, input).state, Step(t, input).state;
            && a.rainBank.Finite? && b.rainBank.Finite?
            && (a.rainBank == b.rainBank && a.lastScale == b.lastScale ==> Alike(Some(a), Some(b)))
  {
  }

  lemma {:induction false} TwinRuns(s: Option<BudgetState>, t: Option<BudgetState>, polls: seq<Poll>)
    requires Twins(s, t)
    ensures Twins(PollRun(s, polls), PollRun(t, polls))
  {
    if polls != [] {
      var n := |polls| - 1;
      TwinRuns(s, t, polls[..n]);
      TwinPolls(PollRun(s, polls[..n]), PollRun(t, polls[..n]), polls[n]);
    }
  }

  /** A fuller bank leads to a twin of what an emptier one leads to. */
  lemma BanksLeadToTwins(s: BudgetState, a: real, b: real, next: Poll, rest: seq<Poll>)
    requires a <= b && Advances(Some(s), next)
    ensures Twins(Later(WithBank(s, a), next, rest), Later(WithBank(s, b), next, rest))
  {
    TwinPolls(WithBank(s, a), WithBank(s, b), next);
    TwinRuns(PollOnce(WithBank(s, a), next).1, PollOnce(WithBank(s, b), next).1, rest);
  }

  /** If an empty and a full bank end alike, so does every bank in between. */
  lemma Squeezed(s: BudgetState, bank: real, full: real, next: Poll, rest: seq<Poll>)
    requires 0.0 <= bank <= full && Advances(Some(s), next)
    requires Alike(Later(WithBank(s, 0.0), next, rest), Later(WithBank(s, full), next, rest))
    ensures Alike(Later(WithBank(s, bank), next, rest), Later(WithBank(s, 0.0), next, rest))
  {
    BanksLeadToTwins(s, 0.0, bank, next, rest);
    BanksLeadToTwins(s, bank, full, next, rest);
  }

  /** The day's bank, and how it leads on. */
  lemma DayLeadsOn(prev: Option<BudgetState>, day: Poll, s: BudgetState, eto: real, precip: real, next: Poll,
                   rest: seq<Poll>)
    returns (bank: real)
    requires Advances(prev, day) && s.lastUpdated == day.weather.today && Advances(Some(s), next)
    ensures 0.0 <= bank <= FullestBank(prev, InputOf(day))
    ensures bank == Bank(PollOnce(prev, WithAmounts(day, eto, precip)).1)
    ensures Alike(Later(PollOnce(prev, WithAmounts(day, eto, precip)).1, next, rest),
                  Later(WithBank(s, bank), next, rest))
  {
    var poll := WithAmounts(day, eto, precip);
    var after := PollOnce(prev, poll).1;
    ParametersAreUsable(poll);
    OnlyAdvancingPollsPersist(prev, poll);
    DayBank(prev, InputOf(poll), InputOf(day));
    bank := Bank(after);
    BankDecidesDay(after, WithBank(s, bank), next);
    AlikeRuns(PollOnce(after, next).1, PollOnce(WithBank(s, bank), next).1, rest);
  }

  /** The bank that a day ends with, from the water that it starts with and gets. */
  lemma DayBank(prev: Option<BudgetState>, input: StepInput, day: StepInput)
    requires !SameDay(prev, input.today) && input == day.(eto := input.eto, precip := input.precip)
    requires Usable(input) && Fin(input.params.kc) > 0.0
    ensures var s := Step(prev, input).state;
            s.lastUpdated == input.today && s.rainBank.Finite? && 0.0 <= Bank(Some(s)) <= FullestBank(prev, day)
  {
    var carried, rain, etc, cap := CarriedBank(prev, input), EffectiveRain(input), Etc(input), BankCap(input);
    StepAdvances(prev, input, carried + rain);
    AmountsOnly(prev, input, day);
    SettledBank(carried, rain, etc, cap);
  }

  /** Other amounts of weather leave the opening balance and the cap as they are. */
  lemma AmountsOnly(prev: Option<BudgetState>, input: StepInput, day: StepInput)
    requires input == day.(eto := input.eto, precip := input.precip) && Fin(input.params.kc) > 0.0
    ensures BankCap(input) == BankCap(day) && CarriedBank(prev, input) == CarriedBank(prev, day) && Etc(input) >= 0.0
    ensures input.params.runoffFactor == 0.0 ==> EffectiveRain(input) == 0.0
  {
    ProductMonotone(0.0, Max(0.0, Fin(input.eto)), Fin(input.params.kc));
    NothingTimes(Max(0.0, Fin(input.precip)), input.params.runoffFactor);
  }

  lemma NothingTimes(a: real, k: real)
    ensures k == 0.0 ==> a * k == 0.0
  {
  }

  lemma SettledBank(carried: real, rain: real, etc: real, cap: real)
    requires etc >= 0.0 && cap >= 0.0
    ensures 0.0 <= Settle(carried + rain, etc, cap).after <= cap
    ensures rain == 0.0 ==> Settle(carried + rain, etc, cap).after <= Clamp(carried, 0.0, cap)
    ensures rain == 0.0 && etc >= carried ==> Settle(carried + rain, etc, cap).after == 0.0
    ensures rain == 0.0 && etc == 0.0 ==> Settle(carried + rain, etc, cap).after == Clamp(carried, 0.0, cap)
    ensures carried + rain >= cap && etc == 0.0 ==> Settle(carried + rain, etc, cap).after == cap
  {
  }

  /** A dry day with enough demand ends with an empty bank. */
  lemma SomeWeatherEmpties(prev: Option<BudgetState>, day: Poll) returns (eto: real)
    requires Advances(prev, day)
    ensures Bank(PollOnce(prev, WithAmounts(day, eto, 0.0)).1) == 0.0
  {
    ParametersAreUsable(day);
    var kc, carried := Fin(InputOf(day).params.kc), Max(0.0, CarriedBank(prev, InputOf(day)));
    eto := carried / kc;
    QuotientTimesKc(carried, kc);
    EndsWith(prev, WithAmounts(day, eto, 0.0), carried, 0.0);
  }

  /** What an advancing poll makes of its demand and rain. */
  lemma EndsWith(prev: Option<BudgetState>, poll: Poll, etc: real, rain: real)
    requires Advances(prev, poll) && Etc(InputOf(poll)) == etc && EffectiveRain(InputOf(poll)) == rain && etc >= 0.0
    ensures var input, bank := InputOf(poll), Bank(PollOnce(prev, poll).1);
            && (rain == 0.0 && etc >= CarriedBank(prev, input) ==> bank == 0.0)
            && (rain == 0.0 && etc == 0.0 ==> bank == Clamp(CarriedBank(prev, input), 0.0, BankCap(input)))
            && (CarriedBank(prev, input) + rain >= BankCap(input) && etc == 0.0 ==> bank == BankCap(input))
  {
    var input := InputOf(poll);
    ParametersAreUsable(poll);
    OnlyAdvancingPollsPersist(prev, poll);
    StepAdvances(prev, input, CarriedBank(prev, input) + rain);
    SettledBank(CarriedBank(prev, input), rain, etc, BankCap(input));
  }

  lemma QuotientTimesKc(a: real, kc: real)
    requires a >= 0.0 && kc > 0.0
    ensures a / kc >= 0.0 && a / kc * kc == a
  {
  }

  /** A day without demand and with enough rain ends with the fullest bank. */
  lemma SomeWeatherFills(prev: Option<BudgetState>, day: Poll) returns (precip: real)
    requires Advances(prev, day)
    ensures Bank(PollOnce(prev, WithAmounts(day, 0.0, precip)).1) == FullestBank(prev, InputOf(day))
  {
    ParametersAreUsable(day);
    var input := InputOf(day);
    var runoff, lacking := input.params.runoffFactor, Max(0.0, BankCap(input) - Min(0.0, CarriedBank(prev, input)));
    precip := 0.0;
    if runoff > 0.0 {
      precip := lacking / runoff;
      QuotientTimesKc(lacking, runoff);
    }
    var poll := WithAmounts(day, 0.0, precip);
    AmountsOnly(prev, InputOf(poll), input);
    RainOf(poll, precip);
    EndsWith(prev, poll, 0.0, if runoff > 0.0 then lacking else 0.0);
  }

  lemma RainOf(poll: Poll, precip: real)
    requires poll.weather.Available? && poll.weather.eto == Finite(0.0) && poll.weather.precip == Finite(precip)
    requires precip >= 0.0
    ensures Etc(InputOf(poll)) == 0.0 && EffectiveRain(InputOf(poll)) == precip * InputOf(poll).params.runoffFactor
  {
  }

  /**
   * How much it rained and how much was needed on one day makes no difference to the budget any
   * more, whatever the amounts were, exactly when the days since then lead from an empty and from
   * the fullest bank to the same budget. Whoever served that day then has no part in its answers.
   */
  lemma DayIsForgottenIff(prev: Option<BudgetState>, day: Poll, next: Poll, rest: seq<Poll>)
    requires Advances(prev, day) && Advances(PollOnce(prev, day).1, next)
    ensures var s := PollOnce(prev, day).1.value;
            (forall eto: real, precip: real ::
               Alike(Later(PollOnce(prev, WithAmounts(day, eto, precip)).1, next, rest),
                     Later(Some(s), next, rest))) <==>
            Alike(Later(WithBank(s, 0.0), next, rest), Later(WithBank(s, FullestBank(prev, InputOf(day))), next, rest))
  {
    OnlyAdvancingPollsPersist(prev, day);
    var s, full := PollOnce(prev, day).1.value, FullestBank(prev, InputOf(day));
    var empty, most := Later(WithBank(s, 0.0), next, rest), Later(WithBank(s, full), next, rest);
    assert WithAmounts(day, day.weather.eto.v, day.weather.precip.v) == day;
    var own := DayLeadsOn(prev, day, s, day.weather.eto.v, day.weather.precip.v, next, rest);
    if Alike(empty, most) {
      Squeezed(s, own, full, next, rest);
      forall eto: real, precip: real
        ensures Alike(Later(PollOnce(prev, WithAmounts(day, eto, precip)).1, next, rest), Later(Some(s), next, rest))
      {
        var bank := DayLeadsOn(prev, day, s, eto, precip, next, rest);
        Squeezed(s, bank, full, next, rest);
      }
    } else {
      var eto := SomeWeatherEmpties(prev, day);
      var precip := SomeWeatherFills(prev, day);
      var a := DayLeadsOn(prev, day, s, eto, 0.0, next, rest);
      var b := DayLeadsOn(prev, day, s, 0.0, precip, next, rest);
      assert a == 0.0 && b == full;
    }
  }
}
