/** The freeze, wind and rain guards: their configuration and their evaluation. */
module Skips {
  import opened Common

  /** Fields that are missing, not numbers or not finite are NonFinite. */
  datatype SkipWeather = SkipWeather(minTemp: Num, temp: Num, wind: Num, precip: Num)

  /** The rules that are enabled, with their thresholds. */
  datatype SkipConfig = SkipConfig(freeze: Option<real>, wind: Option<real>, rain: Option<real>) {
    predicate AnyEnabled() {
      freeze.Some? || wind.Some? || rain.Some?
    }
  }

  /** One guard as requested (absent: not mentioned) and as set in the environment. */
  datatype Setting = Setting(enabled: Option<bool>, threshold: Option<Num>, envEnabled: bool, envThreshold: Num)

  datatype SkipOptions = SkipOptions(freeze: Setting, wind: Setting, rain: Setting)

  function NumOr(v: Num, fallback: real): real {
    if v.Finite? then v.v else fallback
  }

  function Threshold(s: Setting, default_: real): real {
    NumOr(if s.threshold.Some? then s.threshold.value else s.envThreshold, default_)
  }

  function Rule(s: Setting, default_: real): Option<real> {
    if (if s.enabled.Some? then s.enabled.value else s.envEnabled) then Some(Threshold(s, default_)) else None
  }

  function ResolveSkipConfig(o: SkipOptions, forceRain: bool): SkipConfig {
    var rain := Rule(o.rain, 0.1);
    SkipConfig(Rule(o.freeze, 32.0), Rule(o.wind, 25.0),
               if forceRain && rain.None? then Some(Threshold(o.rain, 0.1)) else rain)
  }

  datatype SkipReason =
    | Freeze(value: real, limit: real)
    | Wind(value: real, limit: real)
    | Rain(value: real, limit: real)

  function R1(v: real): real {
    Round(v * 10.0) as real / 10.0
  }

  /** The temperature that the freeze rule looks at: the minimum, or else the current one. */
  function FreezeTemp(w: SkipWeather): Num {
    if w.minTemp.Finite? then w.minTemp else w.temp
  }

  function EvaluateSkips(w: SkipWeather, cfg: SkipConfig): Option<SkipReason> {
    var t := FreezeTemp(w);
    if cfg.freeze.Some? && t.Finite? && t.v <= cfg.freeze.value then Some(Freeze(R1(t.v), cfg.freeze.value))
    else if cfg.wind.Some? && w.wind.Finite? && w.wind.v >= cfg.wind.value then Some(Wind(R1(w.wind.v), cfg.wind.value))
    else if cfg.rain.Some? && w.precip.Finite? && w.precip.v >= cfg.rain.value then
      Some(Rain(R1(w.precip.v), cfg.rain.value))
    else None
  }

  // ------------------------------------------------------------------ when a guard fires

  /** The request's own wish counts before the environment's. */
  predicate RuleOn(s: Setting) {
    s.enabled == Some(true) || (s.enabled.None? && s.envEnabled)
  }

  /** So does its limit; one that is not a number gives way to the usual one. */
  function LimitOf(s: Setting, usual: real): real {
    match s.threshold
    case Some(Finite(v)) => v
    case Some(NonFinite) => usual
    case None => if s.envThreshold.Finite? then s.envThreshold.v else usual
  }

  predicate TooCold(o: SkipOptions, w: SkipWeather) {
    && RuleOn(o.freeze)
    && if w.minTemp.Finite? then w.minTemp.v <= LimitOf(o.freeze, 32.0)
       else w.temp.Finite? && w.temp.v <= LimitOf(o.freeze, 32.0)
  }

  predicate TooWindy(o: SkipOptions, w: SkipWeather) {
    RuleOn(o.wind) && w.wind.Finite? && w.wind.v >= LimitOf(o.wind, 25.0)
  }

  /** The restriction asks for the rain rule as well. */
  predicate TooWet(o: SkipOptions, restricted: bool, w: SkipWeather) {
    (RuleOn(o.rain) || restricted) && w.precip.Finite? && w.precip.v >= LimitOf(o.rain, 0.1)
  }

  /** The reading to one decimal. */
  predicate OneDecimal(shown: real, v: real) {
    v - 0.05 < shown <= v + 0.05 && (shown * 10.0).Floor as real == shown * 10.0
  }

  /** The reason names the first guard that fires, in the order of freeze, wind and rain, with its reading and limit. */
  predicate Explains(reason: SkipReason, o: SkipOptions, restricted: bool, w: SkipWeather) {
    match reason
    case Freeze(value, limit) =>
      TooCold(o, w) && limit == LimitOf(o.freeze, 32.0)
      && OneDecimal(value, if w.minTemp.Finite? then w.minTemp.v else w.temp.v)
    case Wind(value, limit) =>
      !TooCold(o, w) && TooWindy(o, w) && limit == LimitOf(o.wind, 25.0) && OneDecimal(value, w.wind.v)
    case Rain(value, limit) =>
      !TooCold(o, w) && !TooWindy(o, w) && TooWet(o, restricted, w) && limit == LimitOf(o.rain, 0.1)
      && OneDecimal(value, w.precip.v)
  }

  lemma R1IsOneDecimal(v: real)
    ensures OneDecimal(R1(v), v)
  {
    RoundIsNearest(v * 10.0);
    assert R1(v) * 10.0 == Round(v * 10.0) as real;
  }

  /** The configured guards fire exactly on what they are asked to look for, and say what it was. */
  lemma GuardsFireIff(o: SkipOptions, restricted: bool, w: SkipWeather)
    ensures var fired := EvaluateSkips(w, ResolveSkipConfig(o, restricted));
            && (fired.Some? <==> TooCold(o, w) || TooWindy(o, w) || TooWet(o, restricted, w))
            && (fired.Some? ==> Explains(fired.value, o, restricted, w))
    ensures ResolveSkipConfig(o, restricted).AnyEnabled() <==>
            RuleOn(o.freeze) || RuleOn(o.wind) || RuleOn(o.rain) || restricted
  {
    if FreezeTemp(w).Finite? {
      R1IsOneDecimal(FreezeTemp(w).v);
    }
    if w.wind.Finite? {
      R1IsOneDecimal(w.wind.v);
    }
    if w.precip.Finite? {
      R1IsOneDecimal(w.precip.v);
    }
  }

  // ------------------------------------------------------------------ what the guards keep

  /** Worse weather: colder, windier and wetter wherever the other has a reading. */
  predicate AtLeastAsBad(worse: SkipWeather, w: SkipWeather) {
    && (FreezeTemp(w).Finite? ==> FreezeTemp(worse).Finite? && FreezeTemp(worse).v <= FreezeTemp(w).v)
    && (w.wind.Finite? ==> worse.wind.Finite? && worse.wind.v >= w.wind.v)
    && (w.precip.Finite? ==> worse.precip.Finite? && worse.precip.v >= w.precip.v)
  }

  /** Fail-open and monotone: without readings nothing fires, and worse weather never waters more. */
  lemma SkipsAreMonotone(w: SkipWeather, worse: SkipWeather, cfg: SkipConfig)
    requires AtLeastAsBad(worse, w)
    ensures EvaluateSkips(w, cfg).Some? ==> EvaluateSkips(worse, cfg).Some?
    ensures w == SkipWeather(NonFinite, NonFinite, NonFinite, NonFinite) ==> EvaluateSkips(w, cfg).None?
  {
  }

  /** The restriction bit is an alias for the rain rule: it enables that rule and touches no other. */
  lemma ForceRainOnlyAddsRain(o: SkipOptions)
    ensures var plain, forced := ResolveSkipConfig(o, false), ResolveSkipConfig(o, true);
            && forced.rain.Some? && forced.AnyEnabled()
            && forced == plain.(rain := forced.rain)
            && (plain.rain.Some? ==> forced == plain)
  {
  }
}
