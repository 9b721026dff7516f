/** The driver of the water budget: one poll of one location. */
module WaterBudget {
  import opened Common
  import opened SoilMoisture
  import opened StateStore

  // ------------------------------------------------------------------ options and environment

  /** Number(v) of an option or a variable; NonFinite stands for anything that is not a number. */
  function EnvNum(v: Num, fallback: real): real {
    if v.Finite? && v.v > 0.0 then v.v else fallback
  }

  function EnvNonNegativeNum(v: Num, fallback: real): real {
    if v.Finite? && v.v >= 0.0 then v.v else fallback
  }

  function OptPositiveNum(v: Num): Option<real> {
    if v.Finite? && v.v > 0.0 then Some(v.v) else None
  }

  function ClampKc(v: Num): Option<real> {
    if v.Finite? then Some(Min(1.5, Max(0.1, v.v))) else None
  }

  /** The BUDGET_ variables. */
  datatype Env = Env(kc: Num, maxScale: Num, runoff: Num, rainBankCapDays: Num, gapReset: Num, defaultRefEto: Num)

  function ResolveParams(env: Env): BudgetParams {
    var baseKc := EnvNum(env.kc, 0.9);
    BudgetParams(
      Finite(baseKc), Some(Finite(baseKc)), EnvNum(env.maxScale, 200.0),
      Min(1.0, EnvNonNegativeNum(env.runoff, 1.0)),
      EnvNum(env.rainBankCapDays, 14.0), EnvNum(env.gapReset, 2.0))
  }

  datatype Weather =
    | Unavailable(errCode: int)
    | Available(eto: Num, precip: Num, today: int)

  /** plantKc and plantSource are what resolveCropCoefficient answers for the day. */
  datatype Poll = Poll(
    key: string,
    weather: Weather,
    baseline: Option<Num>,
    plantKc: Num,
    plantSource: Source,
    budgetKc: Num,
    budgetMaxScale: Num,
    env: Env)

  /** The raw data of a decision: its record's fields, with the coefficient unless it is the budget's own. */
  datatype Shown = Shown(
    scale: real,
    eto: Num,
    etc: real,
    effectiveRain: real,
    bank: real,
    reason: Option<Reason>,
    kc: Option<(Num, Source)>)

  /**
   * A budgetKc that came too late: what was asked for and what the day's decision applied, which then
   * is the reason shown.
   */
  datatype LateKc = LateKc(requested: real, applied: Num)

  datatype Kind =
    | StaleWeather
    | IncompleteWeather
    | LockedToday(shown: Shown, late: Option<LateKc>)
    | Advanced(shown: Shown, kcApplied: bool)

  datatype MaxScaleFlag = MaxScaleFlag(limit: real, applied: bool)

  /** A request that sets no limit gets no flag. */
  datatype Answer = Answer(scale: real, heldScale: real, kind: Kind, maxScale: Option<MaxScaleFlag>)

  const MISSING_WEATHER_FIELD := 11

  function ClampDown(scale: real, mx: Option<real>): real {
    match mx
    case Some(limit) => if limit > 0.0 then Min(scale, limit) else scale
    case None => scale
  }

  function HeldAnswer(held: real, kind: Kind, mx: Option<real>): Answer {
    var clamped := ClampDown(held, mx);
    Answer(clamped, held, kind, if mx.None? then None else Some(MaxScaleFlag(Round2(mx.value), clamped < held)))
  }

  // ------------------------------------------------------------------ the pieces between awaits

  predicate Locked(prev: Option<BudgetState>, today: int) {
    SameDay(prev, today) && prev.value.history != []
  }

  function Late(requested: Option<real>, applied: Num): Option<LateKc> {
    if requested.Some? && applied.Finite?
       && (requested.value - applied.v > 0.005 || applied.v - requested.value > 0.005)
    then Some(LateKc(Round2(requested.value), Round2Num(applied)))
    else None
  }

  function ShownDecision(scale: real, record: DecisionRecord): Shown {
    Shown(scale, record.eto, record.etc, record.effectiveRain, Round2(record.rainBankAfter), Some(record.reason),
          if record.kcSource == Budget then None else Some((record.demandKc, record.kcSource)))
  }

  /** After the state has been read: answer right away, or go on to the model. */
  datatype Verdict = Return(answer: Result<Answer, int>) | Advance

  function AfterRead(prev: Option<BudgetState>, poll: Poll): Verdict {
    var mx := OptPositiveNum(poll.budgetMaxScale);
    match poll.weather
    case Unavailable(errCode) =>
      if prev.Some? then Return(Ok(HeldAnswer(prev.value.lastScale, StaleWeather, mx))) else Return(Err(errCode))
    case Available(eto, precip, today) =>
      if eto.NonFinite? || precip.NonFinite? then
        if prev.Some? then Return(Ok(HeldAnswer(prev.value.lastScale, IncompleteWeather, mx)))
        else Return(Err(MISSING_WEATHER_FIELD))
      else if Locked(prev, today) then
        var h := prev.value.history;
        var last := h[|h| - 1];
        var kind := LockedToday(ShownDecision(prev.value.lastScale, last), Late(ClampKc(poll.budgetKc), last.demandKc));
        Return(Ok(HeldAnswer(prev.value.lastScale, kind, mx)))
      else Advance
  }

  /** The model's input once the baseline has been looked up. */
  function InputOf(poll: Poll): StepInput
    requires poll.weather.Available?
  {
    var params := ResolveParams(poll.env);
    var referenceEto := match poll.baseline
                        case Some(v) => v
                        case None => Finite(EnvNum(poll.env.defaultRefEto, 0.15));
    var overrideKc := ClampKc(poll.budgetKc);
    var plantKc := if poll.plantKc.Finite? && poll.plantKc.v > 0.0 then poll.plantKc else ReferenceKc(params);
    var demandKc := if overrideKc.Some? then Finite(overrideKc.value) else plantKc;
    StepInput(poll.weather.today, poll.weather.eto, poll.weather.precip, referenceEto, params.(kc := demandKc),
              if overrideKc.Some? then OverrideBudget else poll.plantSource)
  }

  function Round3(v: real): real {
    Round(v * 1000.0) as real / 1000.0
  }

  /** What is shown when the model kept a state without any decision. */
  function ShownInput(input: StepInput, r: StepResult): Shown {
    Shown(r.scale, Finite(Round3(Fin(input.eto))), Round3(Fin(input.eto) * Fin(input.params.kc)),
          Round2(Fin(input.precip) * input.params.runoffFactor), Round2(Bank(Some(r.state))), r.reason,
          if input.kcSource == Budget then None else Some((Round2Num(input.params.kc), input.kcSource)))
  }

  function AdvancedAnswer(poll: Poll, r: StepResult): Answer
    requires poll.weather.Available?
  {
    var h := r.state.history;
    var shown := if h != [] then ShownDecision(r.scale, h[|h| - 1]) else ShownInput(InputOf(poll), r);
    HeldAnswer(r.scale, Advanced(shown, ClampKc(poll.budgetKc).Some?), OptPositiveNum(poll.budgetMaxScale))
  }

  /** A whole poll with nothing in between: the answer and the state left behind. */
  function PollOnce(prev: Option<BudgetState>, poll: Poll): (Result<Answer, int>, Option<BudgetState>) {
    match AfterRead(prev, poll)
    case Return(answer) => (answer, prev)
    case Advance =>
      var next := Step(prev, InputOf(poll));
      (Ok(AdvancedAnswer(poll, next)), Some(next.state))
  }

  function Updated(entries: map<string, BudgetState>, key: string,
                   state: Option<BudgetState>): map<string, BudgetState> {
    if state.Some? then entries[key := state.value] else entries
  }

  /** calculateWaterBudgetScale without interference from other polls. */
  method CalculateWaterBudgetScale(store: FileStateStore<BudgetState>, poll: Poll, flush: Flush)
    returns (answer: Result<Answer, int>)
    modifies store, store.disk
    ensures var before := Lookup(old(store.View()), poll.key);
            && answer == PollOnce(before, poll).0
            && store.View() == Updated(old(store.View()), poll.key, PollOnce(before, poll).1)
  {
    var mx := OptPositiveNum(poll.budgetMaxScale);
    var prev := store.Get(poll.key);
    if poll.weather.Unavailable? {
      if prev.Some? {
        return Ok(HeldAnswer(prev.value.lastScale, StaleWeather, mx));
      }
      return Err(poll.weather.errCode);
    }
    if poll.weather.eto.NonFinite? || poll.weather.precip.NonFinite? {
      if prev.Some? {
        return Ok(HeldAnswer(prev.value.lastScale, IncompleteWeather, mx));
      }
      return Err(MISSING_WEATHER_FIELD);
    }
    if prev.Some? && prev.value.lastUpdated == poll.weather.today && prev.value.history != [] {
      var last := prev.value.history[|prev.value.history| - 1];
      var kind := LockedToday(ShownDecision(prev.value.lastScale, last), Late(ClampKc(poll.budgetKc), last.demandKc));
      return Ok(HeldAnswer(prev.value.lastScale, kind, mx));
    }
    var next := Step(prev, InputOf(poll));
    var _ := store.Set(poll.key, next.state, flush);
    answer := Ok(AdvancedAnswer(poll, next));
  }

  // ------------------------------------------------------------------ one poll

  /** Whatever the variables say, the model gets positive coefficients and a runoff of at most one. */
  lemma ParametersAreUsable(poll: Poll)
    requires poll.weather.Available?
    ensures var input := InputOf(poll);
            && Fin(input.params.kc) > 0.0 && Fin(ReferenceKc(input.params)) > 0.0 && input.params.maxScale > 0.0
            && 0.0 <= input.params.runoffFactor <= 1.0
            && input.params.rainBankCapDays > 0.0 && input.params.gapResetDays > 0.0
            && Usable(input)
  {
    var input := InputOf(poll);
    ProductMonotone(0.0, Max(0.0, Fin(input.referenceEto)), Fin(ReferenceKc(input.params)));
    ProductMonotone(0.0, input.params.rainBankCapDays, ReferenceEtc(input));
  }

  /**
   * Every answer is the scale held by the state it leaves behind, cut to the request's limit where
   * that is a positive number, and says so.
   */
  lemma AnswersHeldScale(prev: Option<BudgetState>, poll: Poll)
    ensures var (answer, next) := PollOnce(prev, poll);
            && (answer.Ok? <==> next.Some?)
            && (answer.Ok? ==>
                  var (a, held) := (answer.value, next.value.lastScale);
                  a.heldScale == held &&
                  if poll.budgetMaxScale.Finite? && poll.budgetMaxScale.v > 0.0 then
                    var limit := poll.budgetMaxScale.v;
                    a.scale == Min(held, limit) && a.maxScale == Some(MaxScaleFlag(Round2(limit), limit < held))
                  else a.scale == held && a.maxScale.None?)
  {
  }

  /** The weather is there and complete. */
  predicate HasWeather(poll: Poll) {
    poll.weather.Available? && poll.weather.eto.Finite? && poll.weather.precip.Finite?
  }

  /** A poll that may move the budget: usable weather on a day that is not locked yet. */
  predicate Advances(prev: Option<BudgetState>, poll: Poll) {
    HasWeather(poll) && !SameDay(prev, poll.weather.today)
  }

  /** A poll after so long an outage that the model drops the stored rain. */
  predicate Resets(prev: Option<BudgetState>, poll: Poll) {
    poll.weather.Available? && LongGap(prev, InputOf(poll))
  }

  /** Failed weather, incomplete weather and every later poll of a day, with any budgetKc, change nothing. */
  lemma OnlyAdvancingPollsPersist(prev: Option<BudgetState>, poll: Poll)
    ensures Advances(prev, poll) ==> PollOnce(prev, poll).1 == Some(Step(prev, InputOf(poll)).state) != prev
    ensures !Advances(prev, poll) ==> PollOnce(prev, poll).1 == prev
  {
  }

  /** Every later poll of a day shows the decision that the day's first poll showed, whatever it asks for. */
  lemma RepollShowsTheDecision(prev: Option<BudgetState>, poll: Poll, again: Poll)
    requires Advances(prev, poll) && HasWeather(again) && again.weather.today == poll.weather.today
    ensures var (first, state) := PollOnce(prev, poll);
            var (second, after) := PollOnce(state, again);
            && after == state && first.Ok? && second.Ok?
            && first.value.kind.Advanced? && second.value.kind.LockedToday?
            && second.value.kind.shown == first.value.kind.shown && second.value.heldScale == first.value.heldScale
  {
    StepEndsWithDecision(prev, InputOf(poll));
  }

  lemma StepEndsWithDecision(prev: Option<BudgetState>, input: StepInput)
    requires !SameDay(prev, input.today)
    ensures var s := Step(prev, input).state;
            s.history != [] && s.lastUpdated == input.today && s.lastScale == Step(prev, input).scale
  {
  }

  // ------------------------------------------------------------------ what a poll's answer says

  /** The raw data is the record's own numbers; a coefficient is shown unless it is the budget's own. */
  predicate ShowsRecord(shown: Shown, scale: real, record: DecisionRecord) {
    && shown.scale == scale && shown.eto == record.eto && shown.etc == record.etc
    && shown.effectiveRain == record.effectiveRain && shown.bank == Round2(record.rainBankAfter)
    && shown.reason == Some(record.reason)
    && (record.kcSource == Budget ==> shown.kc.None?)
    && (record.kcSource != Budget ==> shown.kc == Some((record.demandKc, record.kcSource)))
  }

  /** A stored state of the day without any decision is shown with the poll's own numbers. */
  predicate ShowsDay(shown: Shown, s: BudgetState, poll: Poll)
    requires HasWeather(poll)
  {
    var d, w := DayOf(poll), poll.weather;
    && shown.scale == s.lastScale && shown.bank == Round2(Bank(Some(s))) && shown.reason.None?
    && shown.eto == Finite(Round3(w.eto.v))
    && w.eto.v * d.kc - 0.0005 < shown.etc <= w.eto.v * d.kc + 0.0005
    && w.precip.v * RunoffOf(poll) - 0.005 < shown.effectiveRain <= w.precip.v * RunoffOf(poll) + 0.005
    && shown.kc == if d.source == Budget then None else Some((Finite(Round2(d.kc)), d.source))
  }

  lemma Round3IsClose(v: real)
    ensures v - 0.0005 < Round3(v) <= v + 0.0005 && (Round3(v) * 1000.0).Floor as real == Round3(v) * 1000.0
  {
    RoundIsNearest(v * 1000.0);
    assert Round3(v) * 1000.0 == Round(v * 1000.0) as real;
  }

  /** A coefficient within the range that a request may ask for. */
  function InRange(kc: real): real {
    if kc < 0.1 then 0.1 else if kc > 1.5 then 1.5 else kc
  }

  /** A late wish is reported when it is a number that differs visibly from what the day applied. */
  predicate ReportsLate(late: Option<LateKc>, asked: Num, applied: Num) {
    var differs := asked.Finite? && applied.Finite?
                   && (InRange(asked.v) > applied.v + 0.005 || InRange(asked.v) < applied.v - 0.005);
    late == if differs then Some(LateKc(Round2(InRange(asked.v)), Finite(Round2(applied.v)))) else None
  }

  /**
   * What a poll answers: failed and incomplete weather hold the last scale or fail, and a locked day
   * shows its decision.
   */
  lemma PollAnswers(prev: Option<BudgetState>, poll: Poll)
    ensures var (answer, next) := PollOnce(prev, poll);
            match poll.weather
            case Unavailable(errCode) =>
              if prev.None? then answer == Err(errCode) else answer.Ok? && answer.value.kind == StaleWeather
            case Available(eto, precip, today) =>
              if !HasWeather(poll) then
                if prev.None? then answer == Err(11) else answer.Ok? && answer.value.kind == IncompleteWeather
              else if prev.Some? && prev.value.lastUpdated == today && prev.value.history != [] then
                var newest := prev.value.history[|prev.value.history| - 1];
                && answer.Ok? && answer.value.kind.LockedToday?
                && ShowsRecord(answer.value.kind.shown, prev.value.lastScale, newest)
                && ReportsLate(answer.value.kind.late, poll.budgetKc, newest.demandKc)
              else
                && answer.Ok? && answer.value.kind.Advanced? && (answer.value.kind.kcApplied <==> poll.budgetKc.Finite?)
                && (Advances(prev, poll) ==>
                      && next.value.history != []
                      && ShowsRecord(answer.value.kind.shown, next.value.lastScale,
                                     next.value.history[|next.value.history| - 1]))
  {
  }

  /** A day's quantities, straight from the weather, the request and the variables. */
  datatype Day = Day(
    kc: real,
    source: Source,
    demand: real,
    reference: real,
    rain: real,
    cap: real,
    gapDays: real,
    maxScale: real)

  function PositiveOr(v: Num, usual: real): real {
    match v
    case Finite(n) => if n > 0.0 then n else usual
    case NonFinite => usual
  }

  /** The share of rain that counts: all of it unless the variable is a smaller share. */
  function RunoffOf(poll: Poll): real {
    match poll.env.runoff
    case Finite(v) => if v < 0.0 || v > 1.0 then 1.0 else v
    case NonFinite => 1.0
  }

  /**
   * The demand coefficient is the request's own, held within its range, or else the plant's, or else
   * the budget's; the reference is the normal day's ETo at the budget's coefficient.
   */
  function DayOf(poll: Poll): Day
    requires HasWeather(poll)
  {
    var base := PositiveOr(poll.env.kc, 0.9);
    var kc := if poll.budgetKc.Finite? then InRange(poll.budgetKc.v) else PositiveOr(poll.plantKc, base);
    var normal := match poll.baseline
                  case Some(Finite(v)) => v
                  case Some(NonFinite) => 0.0
                  case None => PositiveOr(poll.env.defaultRefEto, 0.15);
    var reference := (if normal > 0.0 then normal else 0.0) * base;
    Day(kc, if poll.budgetKc.Finite? then OverrideBudget else poll.plantSource,
        (if poll.weather.eto.v > 0.0 then poll.weather.eto.v else 0.0) * kc,
        reference,
        (if poll.weather.precip.v > 0.0 then poll.weather.precip.v else 0.0) * RunoffOf(poll),
        PositiveOr(poll.env.rainBankCapDays, 14.0) * reference,
        PositiveOr(poll.env.gapReset, 2.0), PositiveOr(poll.env.maxScale, 200.0))
  }

  /** The stored rain that the day starts with: none after a cold start or a gap. */
  function Opening(prev: Option<BudgetState>, poll: Poll): real
    requires HasWeather(poll)
  {
    if prev.None? || (poll.weather.today - prev.value.lastUpdated) as real > DayOf(poll).gapDays
    then 0.0 else Bank(prev)
  }

  /** What the day's demand leaves in the bank, and what of it the water does not meet. */
  function Closing(water: real, d: Day): real {
    if water <= d.demand then 0.0 else Min(water - d.demand, d.cap)
  }

  function Shortfall(water: real, d: Day): real {
    if water <= d.demand then d.demand - water else 0.0
  }

  function ShareOf(shortfall: real, d: Day): real {
    if d.reference > 0.0 then Min(d.maxScale, Round(100.0 * shortfall / d.reference) as real) else 0.0
  }

  lemma InputIsDay(prev: Option<BudgetState>, poll: Poll)
    requires HasWeather(poll)
    ensures var input, d := InputOf(poll), DayOf(poll);
            && input.today == poll.weather.today && input.eto == poll.weather.eto && input.precip == poll.weather.precip
            && input.params.kc == Finite(d.kc) && input.kcSource == d.source
            && Etc(input) == d.demand && ReferenceEtc(input) == d.reference && EffectiveRain(input) == d.rain
            && BankCap(input) == d.cap && input.params.gapResetDays == d.gapDays && input.params.maxScale == d.maxScale
            && CarriedBank(prev, input) == Opening(prev, poll)
  {
  }

  /** A state of the day without any decision stays, and is shown with the poll's own numbers. */
  lemma UndecidedDayIsShown(prev: BudgetState, poll: Poll)
    requires HasWeather(poll) && prev.lastUpdated == poll.weather.today && prev.history == []
    ensures var (answer, next) := PollOnce(Some(prev), poll);
            && next == Some(prev) && answer.Ok? && answer.value.kind.Advanced?
            && ShowsDay(answer.value.kind.shown, prev, poll)
  {
    UndecidedAnswer(prev, poll);
    InputIsDay(Some(prev), poll);
    var r := StepResult(prev, prev.lastScale, None);
    UndecidedDemand(poll, r);
    UndecidedRain(poll, r);
  }

  lemma UndecidedDemand(poll: Poll, r: StepResult)
    requires HasWeather(poll)
    ensures var shown, demand := ShownInput(InputOf(poll), r), poll.weather.eto.v * DayOf(poll).kc;
            demand - 0.0005 < shown.etc <= demand + 0.0005
  {
    InputIsDay(None, poll);
    Round3IsClose(Fin(InputOf(poll).eto) * Fin(InputOf(poll).params.kc));
  }

  lemma UndecidedRain(poll: Poll, r: StepResult)
    requires HasWeather(poll)
    ensures var shown, rain := ShownInput(InputOf(poll), r), poll.weather.precip.v * RunoffOf(poll);
            rain - 0.005 < shown.effectiveRain <= rain + 0.005
  {
    RunoffIs(poll);
    Round2IsClose(Fin(InputOf(poll).precip) * InputOf(poll).params.runoffFactor);
  }

  lemma UndecidedAnswer(prev: BudgetState, poll: Poll)
    requires HasWeather(poll) && prev.lastUpdated == poll.weather.today && prev.history == []
    ensures var (answer, next) := PollOnce(Some(prev), poll);
            && next == Some(prev) && answer.Ok? && answer.value.kind.Advanced?
            && answer.value.kind.shown == ShownInput(InputOf(poll), StepResult(prev, prev.lastScale, None))
  {
  }

  lemma RunoffIs(poll: Poll)
    requires HasWeather(poll)
    ensures InputOf(poll).params.runoffFactor == RunoffOf(poll)
  {
  }

  lemma SettlesAs(water: real, d: Day)
    requires d.cap >= 0.0 && d.maxScale > 0.0
    ensures var b := Settle(water, d.demand, d.cap);
            && b.after == Closing(water, d) && b.unmet == Shortfall(water, d)
            && ScaleFor(b.unmet, d.reference, d.maxScale) == ShareOf(b.unmet, d)
  {
    if d.reference > 0.0 {
      ShareIsNonNegative(Shortfall(water, d), d.reference);
      RoundIsNearest(100.0 * Shortfall(water, d) / d.reference);
    }
  }

  /**
   * What an advancing poll does, in the terms of its options: the bank meets the day's demand, the
   * scale is the share of reference demand that stays unmet, and the day's record says so, with the
   * coefficient that was applied and where it came from.
   */
  lemma AdvancingPollSettlesDay(prev: Option<BudgetState>, poll: Poll)
    requires Advances(prev, poll)
    ensures PollOnce(prev, poll).1.Some?
    ensures var s, d, opening := PollOnce(prev, poll).1.value, DayOf(poll), Opening(prev, poll);
            var water := opening + d.rain;
            && s.rainBank == Finite(Closing(water, d)) && s.lastUpdated == poll.weather.today
            && s.lastScale == ShareOf(Shortfall(water, d), d)
            && s.history == LastN((if prev.Some? then prev.value.history else []) + [RecordOf(prev, poll)], 90)
  {
    var input, d := InputOf(poll), DayOf(poll);
    ParametersAreUsable(poll);
    InputIsDay(prev, poll);
    SettlesAs(Opening(prev, poll) + d.rain, d);
    OnlyAdvancingPollsPersist(prev, poll);
  }

  /** The day's decision as it goes into the history. */
  function RecordOf(prev: Option<BudgetState>, poll: Poll): DecisionRecord
    requires HasWeather(poll)
  {
    var d, opening := DayOf(poll), Opening(prev, poll);
    var water := opening + d.rain;
    var bank, unmet := Closing(water, d), Shortfall(water, d);
    var scale := ShareOf(unmet, d);
    DecisionRecord(
      poll.weather.today, scale, Finite(Round2(poll.weather.eto.v)), Round2(d.demand), Round2(d.rain), Round2(unmet),
      Round2(opening), Round2(bank), Round2(d.reference),
      if prev.Some? && (poll.weather.today - prev.value.lastUpdated) as real > d.gapDays then GapReset
      else if scale == 0.0 && bank > 0.0 then StoredRain
      else if d.rain > 0.0 && scale < 100.0 then RecentRain
      else if d.demand > d.reference then AboveNormal
      else if prev.None? then FirstRun
      else Dry,
      Finite(Round2(d.kc)), d.source)
  }

  // ------------------------------------------------------------------ runs of polls

  function PollRun(prev: Option<BudgetState>, polls: seq<Poll>): Option<BudgetState> {
    if polls == [] then prev
    else PollOnce(PollRun(prev, polls[..|polls| - 1]), polls[|polls| - 1]).1
  }

  /** budgetMaxScale shapes answers only: runs that differ in nothing else persist the same states. */
  lemma {:induction false} MaxScaleIsNeverPersisted(prev: Option<BudgetState>, ps: seq<Poll>, qs: seq<Poll>)
    requires |ps| == |qs|
    requires forall i :: 0 <= i < |ps| ==> qs[i] == ps[i].(budgetMaxScale := qs[i].budgetMaxScale)
    ensures PollRun(prev, ps) == PollRun(prev, qs)
  {
    if ps != [] {
      var n := |ps| - 1;
      MaxScaleIsNeverPersisted(prev, ps[..n], qs[..n]);
      MaxScaleStaysOutOfOnePoll(PollRun(prev, ps[..n]), ps[n], qs[n]);
    }
  }

  lemma MaxScaleStaysOutOfOnePoll(prev: Option<BudgetState>, p: Poll, q: Poll)
    requires q == p.(budgetMaxScale := q.budgetMaxScale)
    ensures PollOnce(prev, p).1 == PollOnce(prev, q).1
  {
    OnlyAdvancingPollsPersist(prev, p);
    OnlyAdvancingPollsPersist(prev, q);
    assert p.weather.Available? ==> InputOf(p) == InputOf(q);
  }

  /** The decisions of all advancing polls, oldest first and never trimmed. */
  function Log(polls: seq<Poll>): seq<DecisionRecord> {
    if polls == [] then []
    else
      var n := |polls| - 1;
      var prev := PollRun(None, polls[..n]);
      if Advances(prev, polls[n]) then
        var h := Step(prev, InputOf(polls[n])).state.history;
        Log(polls[..n]) + [h[|h| - 1]]
      else Log(polls[..n])
  }

  predicate DatesNeverGoBack(polls: seq<Poll>) {
    forall i, j :: 0 <= i < j < |polls| && polls[i].weather.Available? && polls[j].weather.Available? ==>
                     polls[i].weather.today <= polls[j].weather.today
  }

  predicate Chronological(log: seq<DecisionRecord>) {
    forall i, j :: 0 <= i < j < |log| ==> log[i].date < log[j].date
  }

  /** The state is what the log says: its last 90 decisions, and its newest scale and date. */
  predicate Summarises(state: Option<BudgetState>, log: seq<DecisionRecord>) {
    match state
    case None => log == []
    case Some(s) =>
      && log != []
      && s.history == LastN(log, HISTORY_CAP)
      && s.lastScale == log[|log| - 1].scale
      && s.lastUpdated == log[|log| - 1].date
  }

  lemma LastOfLastN<T>(s: seq<T>, x: T, n: nat)
    requires n > 0
    ensures LastN(LastN(s, n) + [x], n) == LastN(s + [x], n)
  {
  }

  lemma {:induction false} LogDatesComeFromPolls(polls: seq<Poll>)
    ensures forall r <- Log(polls) ::
              exists i :: 0 <= i < |polls| && polls[i].weather.Available? && polls[i].weather.today == r.date
  {
    if polls != [] {
      var n := |polls| - 1;
      LogDatesComeFromPolls(polls[..n]);
      forall r | r in Log(polls)
        ensures exists i :: 0 <= i < |polls| && polls[i].weather.Available? && polls[i].weather.today == r.date
      {
        if r in Log(polls[..n]) {
          var i :| 0 <= i < n && polls[..n][i].weather.Available? && polls[..n][i].weather.today == r.date;
          assert polls[i].weather.today == r.date;
        } else {
          assert polls[n].weather.today == r.date;
        }
      }
    }
  }

  lemma {:induction false} HistorySummarisesLog(polls: seq<Poll>)
    ensures Summarises(PollRun(None, polls), Log(polls))
  {
    if polls != [] {
      var n := |polls| - 1;
      var prev, log := PollRun(None, polls[..n]), Log(polls[..n]);
      HistorySummarisesLog(polls[..n]);
      OnlyAdvancingPollsPersist(prev, polls[n]);
      if Advances(prev, polls[n]) {
        var h := Step(prev, InputOf(polls[n])).state.history;
        LastOfLastN(log, h[|h| - 1], HISTORY_CAP);
      }
    }
  }

  /**
   * From cold start, after any polls whose dates never go back, the history is the last 90 of all
   * advancing decisions, in strictly increasing date order.
   */
  lemma {:induction false} HistoryIsChronological(polls: seq<Poll>)
    requires DatesNeverGoBack(polls)
    ensures Summarises(PollRun(None, polls), Log(polls)) && Chronological(Log(polls))
  {
    HistorySummarisesLog(polls);
    if polls != [] {
      var n := |polls| - 1;
      HistoryIsChronological(polls[..n]);
      if Advances(PollRun(None, polls[..n]), polls[n]) && Log(polls[..n]) != [] {
        NextDateIsLater(polls);
      }
    }
  }

  /** An advancing poll comes on a later date than all decisions before it. */
  lemma NextDateIsLater(polls: seq<Poll>)
    requires polls != [] && DatesNeverGoBack(polls)
    requires var n := |polls| - 1;
             && Summarises(PollRun(None, polls[..n]), Log(polls[..n])) && Log(polls[..n]) != []
             && Advances(PollRun(None, polls[..n]), polls[n])
    ensures var n := |polls| - 1; Log(polls[..n])[|Log(polls[..n])| - 1].date < polls[n].weather.today
  {
    var n := |polls| - 1;
    var log := Log(polls[..n]);
    var last := log[|log| - 1];
    LogDatesComeFromPolls(polls[..n]);
    assert last in log;
    var i :| 0 <= i < n && polls[..n][i].weather.Available? && polls[..n][i].weather.today == last.date;
    assert polls[i].weather.today <= polls[n].weather.today;
  }
}
