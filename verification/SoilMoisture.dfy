/** The open-loop rain-bank water budget: one location advanced by one local day. */
module SoilMoisture {
  import opened Common

  datatype BudgetParams = BudgetParams(
    kc: Num,
    referenceKc: Option<Num>,
    maxScale: real,
    runoffFactor: real,
    rainBankCapDays: real,
    gapResetDays: real)

  datatype Source = Budget | Plant | Override | OverrideBudget

  datatype Reason = GapReset | StoredRain | RecentRain | AboveNormal | FirstRun | Dry

  datatype DecisionRecord = DecisionRecord(
    date: int,
    scale: real,
    eto: Num,
    etc: real,
    effectiveRain: real,
    unmetDemand: real,
    rainBankBefore: real,
    rainBankAfter: real,
    referenceEtc: real,
    reason: Reason,
    demandKc: Num,
    kcSource: Source)

  datatype BudgetState = BudgetState(rainBank: Num, lastUpdated: int, lastScale: real, history: seq<DecisionRecord>)

  /** Dates are day numbers in the location's time zone. */
  datatype StepInput = StepInput(
    today: int,
    eto: Num,
    precip: Num,
    referenceEto: Num,
    params: BudgetParams,
    kcSource: Source)

  datatype StepResult = StepResult(state: BudgetState, scale: real, reason: Option<Reason>)

  const HISTORY_CAP := 90

  /** Coerces non-finite numbers to 0. */
  function Fin(n: Num): real {
    match n
    case Finite(v) => v
    case NonFinite => 0.0
  }

  function Round2(v: real): real {
    Round(v * 100.0) as real / 100.0
  }

  function Round2Num(n: Num): Num {
    match n
    case Finite(v) => Finite(Round2(v))
    case NonFinite => NonFinite
  }

  // ------------------------------------------------------------------ the day's quantities

  function ReferenceKc(p: BudgetParams): Num {
    match p.referenceKc
    case None => p.kc
    case Some(kc) => kc
  }

  function Etc(input: StepInput): real {
    Max(0.0, Fin(input.eto)) * Fin(input.params.kc)
  }

  function ReferenceEtc(input: StepInput): real {
    Max(0.0, Fin(input.referenceEto)) * Fin(ReferenceKc(input.params))
  }

  function EffectiveRain(input: StepInput): real {
    Max(0.0, Fin(input.precip)) * input.params.runoffFactor
  }

  function BankCap(input: StepInput): real {
    input.params.rainBankCapDays * ReferenceEtc(input)
  }

  function Bank(prev: Option<BudgetState>): real {
    match prev
    case None => 0.0
    case Some(s) => Fin(s.rainBank)
  }

  predicate SameDay(prev: Option<BudgetState>, today: int) {
    prev.Some? && prev.value.lastUpdated == today
  }

  /** An outage longer than the limit drops the stored rain. */
  predicate LongGap(prev: Option<BudgetState>, input: StepInput) {
    prev.Some? && (input.today - prev.value.lastUpdated) as real > input.params.gapResetDays
  }

  function CarriedBank(prev: Option<BudgetState>, input: StepInput): real {
    if LongGap(prev, input) then 0.0 else Bank(prev)
  }

  function BuildReason(scale: real, input: StepInput, bankAfter: real, gapReset: bool, coldStart: bool): Reason {
    if gapReset then GapReset
    else if scale == 0.0 && bankAfter > 0.0 then StoredRain
    else if EffectiveRain(input) > 0.0 && scale < 100.0 then RecentRain
    else if Etc(input) > ReferenceEtc(input) then AboveNormal
    else if coldStart then FirstRun
    else Dry
  }

  /** How the available water meets the demand, and what stays in the bank. */
  datatype Balance = Balance(met: real, unmet: real, after: real)

  function Settle(available: real, etc: real, cap: real): Balance {
    var metByRain := Min(etc, available);
    Balance(metByRain, Max(0.0, etc - metByRain), Clamp(available - metByRain, 0.0, cap))
  }

  function ScaleFor(unmetDemand: real, referenceEtc: real, maxScale: real): real {
    if referenceEtc > 0.0 then Clamp(Round(100.0 * unmetDemand / referenceEtc) as real, 0.0, maxScale) else 0.0
  }

  function Step(prev: Option<BudgetState>, input: StepInput): StepResult {
    var etc, referenceEtc := Etc(input), ReferenceEtc(input);
    if SameDay(prev, input.today) then
      var h := prev.value.history;
      StepResult(prev.value, prev.value.lastScale, if h == [] then None else Some(h[|h| - 1].reason))
    else
      var gapReset := LongGap(prev, input);
      var before := CarriedBank(prev, input);
      var balance := Settle(before + EffectiveRain(input), etc, BankCap(input));
      var scale := ScaleFor(balance.unmet, referenceEtc, input.params.maxScale);
      var reason := BuildReason(scale, input, balance.after, gapReset, prev.None?);
      var record := DecisionRecord(
        input.today, scale, Round2Num(input.eto), Round2(etc), Round2(EffectiveRain(input)), Round2(balance.unmet),
        Round2(before), Round2(balance.after), Round2(referenceEtc), reason, Round2Num(input.params.kc),
        input.kcSource);
      var history := LastN((if prev.Some? then prev.value.history else []) + [record], HISTORY_CAP);
      StepResult(BudgetState(Finite(balance.after), input.today, scale, history), scale, Some(reason))
  }

  function Run(prev: Option<BudgetState>, inputs: seq<StepInput>): Option<BudgetState> {
    if inputs == [] then prev
    else Some(Step(Run(prev, inputs[..|inputs| - 1]), inputs[|inputs| - 1]).state)
  }

  // ------------------------------------------------------------------ conservation of water

  /** Where the water of one or more days came from and went. */
  datatype Ledger = Ledger(rain: real, demand: real, met: real, unmet: real, spill: real, dropped: real)

  /** One day's entries; a repeated poll of the same day moves no water. */
  function DayLedger(prev: Option<BudgetState>, input: StepInput): Ledger {
    if SameDay(prev, input.today) then Ledger(0.0, 0.0, 0.0, 0.0, 0.0, 0.0)
    else
      var carried, rain, demand := CarriedBank(prev, input), EffectiveRain(input), Etc(input);
      var met := Min(demand, carried + rain);
      Ledger(rain, demand, met, Max(0.0, demand - (carried + rain)),
             Max(0.0, carried + rain - met - BankCap(input)), Bank(prev) - carried)
  }

  function Add(a: Ledger, b: Ledger): Ledger {
    Ledger(a.rain + b.rain, a.demand + b.demand, a.met + b.met, a.unmet + b.unmet, a.spill + b.spill,
           a.dropped + b.dropped)
  }

  function RunLedger(prev: Option<BudgetState>, inputs: seq<StepInput>): Ledger {
    if inputs == [] then Ledger(0.0, 0.0, 0.0, 0.0, 0.0, 0.0)
    else
      var init := inputs[..|inputs| - 1];
      Add(RunLedger(prev, init), DayLedger(Run(prev, init), inputs[|inputs| - 1]))
  }

  lemma DayConserves(prev: Option<BudgetState>, input: StepInput)
    requires BankCap(input) >= 0.0
    ensures var day := DayLedger(prev, input);
            && Bank(prev) + day.rain == day.met + day.spill + day.dropped + Bank(Some(Step(prev, input).state))
            && day.demand == day.met + day.unmet
  {
  }

  /** Starting bank plus rain is demand met by rain, spill, drops and final bank; demand is met or unmet. */
  lemma {:induction false} WaterIsConserved(prev: Option<BudgetState>, inputs: seq<StepInput>)
    requires forall input <- inputs :: BankCap(input) >= 0.0
    ensures var total := RunLedger(prev, inputs);
            && Bank(prev) + total.rain == total.met + total.spill + total.dropped + Bank(Run(prev, inputs))
            && total.demand == total.met + total.unmet
  {
    if inputs != [] {
      var init := inputs[..|inputs| - 1];
      WaterIsConserved(prev, init);
      DayConserves(Run(prev, init), inputs[|inputs| - 1]);
    }
  }

  /** The nearest hundredth. */
  lemma Round2IsClose(v: real)
    ensures v - 0.005 < Round2(v) <= v + 0.005 && (Round2(v) * 100.0).Floor as real == Round2(v) * 100.0
  {
    RoundIsNearest(v * 100.0);
    assert Round2(v) * 100.0 == Round(v * 100.0) as real;
  }

  /** An advancing step appends the day's ledger, to the cent of an inch, and keeps at most 90 decisions. */
  lemma StepRecordsItsLedger(prev: Option<BudgetState>, input: StepInput)
    requires !SameDay(prev, input.today) && BankCap(input) >= 0.0
    ensures var s, day := Step(prev, input).state, DayLedger(prev, input);
            && 0 < |s.history| <= HISTORY_CAP
            && (var record := s.history[|s.history| - 1];
                && record.date == input.today == s.lastUpdated && record.scale == s.lastScale
                && -0.005 <= record.effectiveRain - day.rain <= 0.005
                && -0.005 <= record.etc - day.demand <= 0.005
                && -0.005 <= record.unmetDemand - day.unmet <= 0.005
                && -0.005 <= record.rainBankBefore - (Bank(prev) - day.dropped) <= 0.005
                && -0.005 <= record.rainBankAfter - Bank(Some(s)) <= 0.005)
  {
    var day := DayLedger(prev, input);
    Round2IsClose(day.rain);
    Round2IsClose(day.demand);
    Round2IsClose(day.unmet);
    Round2IsClose(CarriedBank(prev, input));
    Round2IsClose(Bank(Some(Step(prev, input).state)));
  }

  /**
   * The scale is the unmet share of the reference demand in percent, to the nearest integer, cut to
   * the limit; where there is no reference demand it is 0, even if demand goes unmet.
   */
  lemma ScaleIsUnmetShare(prev: Option<BudgetState>, input: StepInput)
    requires !SameDay(prev, input.today) && input.params.maxScale >= 0.0
    ensures 0.0 <= Step(prev, input).scale <= input.params.maxScale
    ensures ReferenceEtc(input) <= 0.0 ==> Step(prev, input).scale == 0.0
    ensures ReferenceEtc(input) > 0.0 ==>
              var scale, share := Step(prev, input).scale, 100.0 * DayLedger(prev, input).unmet / ReferenceEtc(input);
              && (scale < input.params.maxScale ==> -0.5 <= scale - share <= 0.5)
              && (scale == input.params.maxScale ==> share >= scale - 0.5)
  {
    var unmet, reference := DayLedger(prev, input).unmet, ReferenceEtc(input);
    assert Step(prev, input).scale == ScaleFor(unmet, reference, input.params.maxScale);
    if reference > 0.0 {
      ShareIsNonNegative(unmet, reference);
      ClampedRound(100.0 * unmet / reference, input.params.maxScale);
    }
  }

  lemma ShareIsNonNegative(unmet: real, reference: real)
    requires unmet >= 0.0 && reference > 0.0
    ensures 100.0 * unmet / reference >= 0.0
  {
  }

  lemma ClampedRound(v: real, hi: real)
    requires v >= 0.0 && hi >= 0.0
    ensures var c := Clamp(Round(v) as real, 0.0, hi);
            0.0 <= c <= hi && (c < hi ==> -0.5 <= c - v <= 0.5) && (c == hi ==> v >= c - 0.5)
  {
  }

  /**
   * A day with unmet demand ends with an empty bank, and a day that spills ends with a full one and
   * meets its demand.
   */
  lemma UnmetDemandEmptiesBank(prev: Option<BudgetState>, input: StepInput)
    requires BankCap(input) >= 0.0
    ensures DayLedger(prev, input).unmet > 0.0 ==> Bank(Some(Step(prev, input).state)) == 0.0
    ensures DayLedger(prev, input).spill > 0.0 ==>
              Bank(Some(Step(prev, input).state)) == BankCap(input) && DayLedger(prev, input).unmet == 0.0
  {
  }

  /** The cap of the last day that advanced the budget, 0 before the first one. */
  function LastCap(prev: Option<BudgetState>, inputs: seq<StepInput>): real {
    if inputs == [] then 0.0
    else
      var init, last := inputs[..|inputs| - 1], inputs[|inputs| - 1];
      if SameDay(Run(prev, init), last.today) then LastCap(prev, init) else BankCap(last)
  }

  /** After any run the bank lies between zero and the cap of the last advancing day, however the cap varies. */
  lemma {:induction false} BankWithinCap(inputs: seq<StepInput>)
    requires forall input <- inputs :: BankCap(input) >= 0.0
    ensures 0.0 <= Bank(Run(None, inputs)) <= LastCap(None, inputs)
  {
    if inputs != [] {
      BankWithinCap(inputs[..|inputs| - 1]);
    }
  }

  lemma {:induction false} ConstantCap(inputs: seq<StepInput>, cap: real)
    requires cap >= 0.0 && forall input <- inputs :: BankCap(input) == cap
    ensures LastCap(None, inputs) <= cap
  {
    if inputs != [] {
      ConstantCap(inputs[..|inputs| - 1], cap);
    }
  }

  // ------------------------------------------------------------------ more rain, less watering

  /** The two days differ at most in rain, and the second is at least as wet. */
  predicate AsWet(a: StepInput, b: StepInput) {
    && b == a.(precip := b.precip)
    && Max(0.0, Fin(a.precip)) <= Max(0.0, Fin(b.precip))
  }

  /** Same day reached; the second bank at least as full, the second scale no larger. */
  predicate Dominated(p: Option<BudgetState>, q: Option<BudgetState>) {
    match (p, q)
    case (None, None) => true
    case (Some(s), Some(t)) => s.lastUpdated == t.lastUpdated && Fin(s.rainBank) <= Fin(t.rainBank)
                                 && s.lastScale >= t.lastScale
    case _ => false
  }

  predicate Usable(input: StepInput) {
    && input.params.runoffFactor >= 0.0
    && BankCap(input) >= 0.0
  }

  lemma QuotientMonotone(a: real, b: real, d: real)
    requires a <= b && d > 0.0
    ensures 100.0 * a / d <= 100.0 * b / d
  {
    ProductMonotone(100.0 * a, 100.0 * b, 1.0 / d);
  }

  lemma ScaleMonotone(less: real, more: real, referenceEtc: real, maxScale: real)
    requires less <= more
    ensures ScaleFor(less, referenceEtc, maxScale) <= ScaleFor(more, referenceEtc, maxScale)
  {
    if referenceEtc > 0.0 {
      QuotientMonotone(less, more, referenceEtc);
      ClampRoundMonotone(100.0 * less / referenceEtc, 100.0 * more / referenceEtc, maxScale);
    }
  }

  lemma ClampRoundMonotone(a: real, b: real, hi: real)
    requires a <= b
    ensures Clamp(Round(a) as real, 0.0, hi) <= Clamp(Round(b) as real, 0.0, hi)
  {
    RoundMonotone(a, b);
  }

  lemma RoundMonotone(a: real, b: real)
    requires a <= b
    ensures Round(a) <= Round(b)
  {
    assert Round(a) as real <= a + 0.5 <= b + 0.5 < Round(b) as real + 1.0;
  }

  lemma SettleMonotone(less: real, more: real, etc: real, cap: real)
    requires less <= more && cap >= 0.0
    ensures var a, b := Settle(less, etc, cap), Settle(more, etc, cap);
            a.unmet >= b.unmet && a.after <= b.after && b.after - a.after <= more - less
  {
  }

  lemma RainMonotone(a: StepInput, b: StepInput)
    requires AsWet(a, b) && a.params.runoffFactor >= 0.0
    ensures EffectiveRain(a) <= EffectiveRain(b)
  {
    ProductMonotone(Max(0.0, Fin(a.precip)), Max(0.0, Fin(b.precip)), a.params.runoffFactor);
  }

  lemma SameDemand(a: StepInput, b: StepInput)
    requires AsWet(a, b)
    ensures Etc(a) == Etc(b) && ReferenceEtc(a) == ReferenceEtc(b) && BankCap(a) == BankCap(b)
  {
  }

  /** The advancing half of a step, in terms of the water available. */
  lemma StepAdvances(prev: Option<BudgetState>, input: StepInput, available: real)
    requires !SameDay(prev, input.today) && available == CarriedBank(prev, input) + EffectiveRain(input)
    ensures var s, balance := Step(prev, input).state, Settle(available, Etc(input), BankCap(input));
            && s.rainBank == Finite(balance.after) && s.lastUpdated == input.today
            && s.lastScale == ScaleFor(balance.unmet, ReferenceEtc(input), input.params.maxScale)
  {
  }

  lemma StepMonotone(p: Option<BudgetState>, q: Option<BudgetState>, a: StepInput, b: StepInput)
    requires Dominated(p, q) && AsWet(a, b) && Usable(a)
    ensures Dominated(Some(Step(p, a).state), Some(Step(q, b).state))
    ensures !SameDay(p, a.today) ==>
              (Bank(Some(Step(q, b).state)) - Bank(Some(Step(p, a).state))) - (Bank(q) - Bank(p))
              <= EffectiveRain(b) - EffectiveRain(a)
    ensures SameDay(p, a.today) ==> Step(p, a).state == p.value && Step(q, b).state == q.value
  {
    if !SameDay(p, a.today) {
      RainMonotone(a, b);
      var availA, availB := CarriedBank(p, a) + EffectiveRain(a), CarriedBank(q, b) + EffectiveRain(b);
      var etc, cap := Etc(a), BankCap(a);
      SameDemand(a, b);
      StepAdvances(p, a, availA);
      StepAdvances(q, b, availB);
      SettleMonotone(availA, availB, etc, cap);
      ScaleMonotone(Settle(availB, etc, cap).unmet, Settle(availA, etc, cap).unmet, ReferenceEtc(a), a.params.maxScale);
    }
  }

  /** Rain of the days that advance the budget from prev. */
  function CreditedRain(prev: Option<BudgetState>, inputs: seq<StepInput>): real {
    RunLedger(prev, inputs).rain
  }

  /**
   * Two runs over the same dates, ETo and parameters: on every day the wetter run has at least as
   * full a bank and no larger a scale, and the banks never drift apart by more than the extra rain.
   */
  lemma {:induction false} MoreRainNeverWatersMore(p: Option<BudgetState>, q: Option<BudgetState>,
                                                   dry: seq<StepInput>, wet: seq<StepInput>)
    requires Dominated(p, q) && |dry| == |wet|
    requires forall i :: 0 <= i < |dry| ==> AsWet(dry[i], wet[i]) && Usable(dry[i])
    ensures Dominated(Run(p, dry), Run(q, wet))
    ensures Bank(Run(q, wet)) - Bank(Run(p, dry)) <=
            Bank(q) - Bank(p) + CreditedRain(q, wet) - CreditedRain(p, dry)
  {
    if dry != [] {
      var n := |dry| - 1;
      MoreRainNeverWatersMore(p, q, dry[..n], wet[..n]);
      StepMonotone(Run(p, dry[..n]), Run(q, wet[..n]), dry[n], wet[n]);
    }
  }

  // ------------------------------------------------------------------ draining

  /** A rainless day of normal ETo with the demand coefficient at its reference value. */
  predicate NormalDryDay(input: StepInput, reference: real) {
    && input.eto == input.referenceEto
    && ReferenceKc(input.params) == input.params.kc
    && Fin(input.precip) <= 0.0
    && ReferenceEtc(input) == reference
    && input.params.maxScale >= 100.0
    && input.params.rainBankCapDays >= 0.0
  }

  /** Dates advance from the state and along the inputs. */
  predicate Advancing(prev: Option<BudgetState>, inputs: seq<StepInput>) {
    && (prev.Some? && inputs != [] ==> prev.value.lastUpdated < inputs[0].today)
    && (forall i :: 0 < i < |inputs| ==> inputs[i - 1].today < inputs[i].today)
  }

  lemma {:induction false} RunReachesLastDate(prev: Option<BudgetState>, inputs: seq<StepInput>)
    requires Advancing(prev, inputs) && inputs != []
    ensures Run(prev, inputs).Some? && Run(prev, inputs).value.lastUpdated == inputs[|inputs| - 1].today
    ensures !SameDay(Run(prev, inputs[..|inputs| - 1]), inputs[|inputs| - 1].today)
  {
    if |inputs| > 1 {
      RunReachesLastDate(prev, inputs[..|inputs| - 1]);
    }
  }

  lemma FullDemandScale(reference: real, maxScale: real)
    requires reference > 0.0 && maxScale >= 100.0
    ensures ScaleFor(reference, reference, maxScale) == 100.0
  {
    assert 100.0 * reference / reference == 100.0;
  }

  lemma DryDayDrains(prev: Option<BudgetState>, input: StepInput, reference: real, before: real, after: real)
    requires NormalDryDay(input, reference) && reference > 0.0 && !SameDay(prev, input.today)
    requires 0.0 <= Bank(prev) <= before && 0.0 <= after && before - reference <= after
    ensures var next := Step(prev, input);
            && 0.0 <= Bank(Some(next.state)) <= after
            && (before == 0.0 ==> next.scale == 100.0)
  {
    ProductMonotone(0.0, input.params.rainBankCapDays, reference);
    assert EffectiveRain(input) == 0.0 && Etc(input) == reference;
    FullDemandScale(reference, input.params.maxScale);
  }

  function DaysLeft(days: nat, elapsed: nat): nat {
    if elapsed <= days then days - elapsed else 0
  }

  /** That many days' worth of the reference demand. */
  function Stored(days: nat, reference: real): real {
    if days == 0 then 0.0 else Stored(days - 1, reference) + reference
  }

  lemma {:induction false} StoredIsProduct(days: nat, reference: real)
    requires reference > 0.0
    ensures Stored(days, reference) == days as real * reference >= 0.0
  {
    if days > 0 {
      StoredIsProduct(days - 1, reference);
      assert days as real * reference == (days - 1) as real * reference + reference;
    }
  }

  lemma {:induction false} StoredIsNonNegative(days: nat, reference: real)
    requires reference > 0.0
    ensures Stored(days, reference) >= 0.0
  {
    if days > 0 {
      StoredIsNonNegative(days - 1, reference);
    }
  }

  lemma OneDayLess(days: nat, elapsed: nat, reference: real)
    requires reference > 0.0
    ensures var before := Stored(DaysLeft(days, elapsed), reference);
            var after := Stored(DaysLeft(days, elapsed + 1), reference);
            && 0.0 <= after && before - reference <= after
            && (elapsed >= days ==> before == 0.0)
  {
    StoredIsNonNegative(DaysLeft(days, elapsed + 1), reference);
  }

  lemma {:induction false} DryDaysDrain(prev: Option<BudgetState>, inputs: seq<StepInput>, reference: real, days: nat)
    requires Advancing(prev, inputs) && reference > 0.0
    requires forall input <- inputs :: NormalDryDay(input, reference)
    requires 0.0 <= Bank(prev) <= Stored(days, reference)
    ensures 0.0 <= Bank(Run(prev, inputs)) <= Stored(DaysLeft(days, |inputs|), reference)
    ensures |inputs| > days ==> Run(prev, inputs).value.lastScale == 100.0
  {
    if inputs != [] {
      var init, last := inputs[..|inputs| - 1], inputs[|inputs| - 1];
      DryDaysDrain(prev, init, reference, days);
      RunReachesLastDate(prev, inputs);
      OneDayLess(days, |init|, reference);
      DryDayDrains(Run(prev, init), last, reference,
                   Stored(DaysLeft(days, |init|), reference), Stored(DaysLeft(days, |inputs|), reference));
    }
  }

  function Ceil(v: real): int {
    if v == v.Floor as real then v.Floor else v.Floor + 1
  }

  /**
   * From any bank reachable under a constant positive reference ETc, rainless normal days empty
   * the bank within ceil(rainBankCapDays) days, and the scale is exactly 100 on every one after.
   */
  lemma NormalDaysReturnToFullWatering(past: seq<StepInput>, dry: seq<StepInput>, reference: real, capDays: real)
    requires reference > 0.0 && capDays >= 0.0
    requires forall input <- past :: ReferenceEtc(input) == reference && input.params.rainBankCapDays == capDays
    requires forall input <- dry :: NormalDryDay(input, reference)
    requires Advancing(Run(None, past), dry)
    ensures |dry| >= Ceil(capDays) ==> Bank(Run(Run(None, past), dry)) == 0.0
    ensures |dry| > Ceil(capDays) ==> Run(Run(None, past), dry).value.lastScale == 100.0
  {
    var days: nat := Ceil(capDays);
    ReachableBankBound(past, reference, capDays, days);
    DryDaysDrain(Run(None, past), dry, reference, days);
  }

  lemma ReachableBankBound(past: seq<StepInput>, reference: real, capDays: real, days: nat)
    requires reference > 0.0 && 0.0 <= capDays <= days as real
    requires forall input <- past :: ReferenceEtc(input) == reference && input.params.rainBankCapDays == capDays
    ensures 0.0 <= Bank(Run(None, past)) <= Stored(days, reference)
  {
    CapWithin(reference, capDays, days);
    CapIsConstant(past, reference, capDays);
    BankWithinCap(past);
    ConstantCap(past, capDays * reference);
  }

  lemma CapWithin(reference: real, capDays: real, days: nat)
    requires reference > 0.0 && 0.0 <= capDays <= days as real
    ensures capDays * reference <= Stored(days, reference)
  {
    ProductMonotone(capDays, days as real, reference);
    StoredIsProduct(days, reference);
  }

  lemma CapIsConstant(inputs: seq<StepInput>, reference: real, capDays: real)
    requires reference > 0.0 && capDays >= 0.0
    requires forall input <- inputs :: ReferenceEtc(input) == reference && input.params.rainBankCapDays == capDays
    ensures capDays * reference >= 0.0
    ensures forall input <- inputs :: BankCap(input) == capDays * reference
  {
    ProductMonotone(0.0, capDays, reference);
  }
}
