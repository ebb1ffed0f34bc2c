/**
 * The celebration effect: the stored intensity level with its default, the
 * level-to-configuration table, and what `triggerConfetti` does with it — one
 * `confetti(...)` call, or an interval that fires a volley of calls on every
 * tick until the burst's end time has been reached.
 */
module Effect {
  import opened Wrappers

  const DefaultLevel: string := "a-lot"
  const KnownLevels: set<string> := {"minimal", "a-lot", "a-ton", "extreme"}

  /**
   * `getConfettiLevel`: `result.confettiLevel || "a-lot"`. The stored value
   * is returned unless it is missing or empty (the falsy strings).
   */
  function ResolveLevel(stored: Option<string>): (level: string)
    ensures level != ""
    ensures level == DefaultLevel || stored == Some(level)
    ensures stored.Some? && stored.value != "" ==> level == stored.value
  {
    match stored
    case Some(v) => if v != "" then v else DefaultLevel
    case None => DefaultLevel
  }

  /** Resolving is a projection: a resolved level, stored back, resolves to itself. */
  lemma ResolveLevelIdempotent(stored: Option<string>)
    ensures ResolveLevel(Some(ResolveLevel(stored))) == ResolveLevel(stored)
  {
  }

  /** The integer fields of a configuration (`origin`, `scalar` and `gravity` are not modelled). */
  datatype Config = Config(particleCount: int, spread: int, ticks: Option<int>)

  /** `confettiConfigs[level]`: a direct lookup, with no entry for an unknown level. */
  function ConfigFor(level: string): (c: Option<Config>)
    ensures c.Some? <==> level in KnownLevels
  {
    if level == "minimal" then Some(Config(50, 60, None))
    else if level == "a-lot" then Some(Config(150, 90, Some(200)))
    else if level == "a-ton" then Some(Config(300, 120, Some(300)))
    else if level == "extreme" then Some(Config(500, 180, Some(400)))
    else None
  }

  /** The default level has an entry, so a missing or empty stored value always finds a configuration. */
  lemma DefaultLevelConfigured(stored: Option<string>)
    requires stored.None? || stored == Some("")
    ensures ConfigFor(ResolveLevel(stored)) == Some(Config(150, 90, Some(200)))
  {
  }

  /** A call's angle: the library default, a fixed number of degrees, or `Math.random() * 360`. */
  datatype Angle = DefaultAngle | Degrees(deg: int) | RandomAngle

  /** A call's origin, as an opaque tag (the coordinates are fractions of the viewport). */
  datatype Origin =
    | ConfigOrigin   // the configuration's own origin
    | LowerLeft      // x 0, y 0.6
    | LowerRight     // x 1, y 0.6
    | UpperCentre    // x 0.5, y 0.3
    | RandomPoint    // x random, y random * 0.6
    | LeftEdge       // x 0
    | RightEdge      // x 1

  /** One `confetti(...)` call; `NoOptions` is `confetti(undefined)`. */
  datatype Call =
    | Options(particleCount: int, angle: Angle, spread: int, ticks: Option<int>, origin: Origin)
    | NoOptions

  /** `confetti(config)`. */
  function SingleCall(config: Option<Config>): Call {
    match config
    case Some(c) => Options(c.particleCount, DefaultAngle, c.spread, c.ticks, ConfigOrigin)
    case None => NoOptions
  }

  /** One tick of the extreme burst: left, right, centre and a random explosion. */
  function ExtremeVolley(config: Config): seq<Call> {
    [ Options(200, Degrees(60), 100, config.ticks, LowerLeft),
      Options(200, Degrees(120), 100, config.ticks, LowerRight),
      Options(150, Degrees(90), 120, config.ticks, UpperCentre),
      Options(100, RandomAngle, 100, config.ticks, RandomPoint) ]
  }

  /** One tick of the a-ton burst: left and right. */
  function ATonVolley(config: Config): seq<Call> {
    [ Options(100, Degrees(60), 55, config.ticks, LeftEdge),
      Options(100, Degrees(120), 55, config.ticks, RightEdge) ]
  }

  const ExtremePeriod: nat := 150
  const ExtremeDuration: nat := 10000
  const ATonPeriod: nat := 250
  const ATonDuration: nat := 3000

  /** What `triggerConfetti` does for a level. */
  datatype Plan = Once(call: Call) | Burst(period: nat, duration: nat, volley: seq<Call>)

  function PlanFor(level: string): (p: Plan)
    ensures p.Burst? <==> level == "extreme" || level == "a-ton"
    ensures p.Burst? ==> p.period > 0 && p.duration > 0 && |p.volley| > 0
    ensures p.Burst? ==> forall k :: 0 <= k < |p.volley| ==> p.volley[k].Options? && p.volley[k].ticks == ConfigFor(level).value.ticks
    ensures p.Once? ==> (p.call.NoOptions? <==> level !in KnownLevels)
  {
    var config := ConfigFor(level);
    if level == "extreme" then Burst(ExtremePeriod, ExtremeDuration, ExtremeVolley(config.value))
    else if level == "a-ton" then Burst(ATonPeriod, ATonDuration, ATonVolley(config.value))
    else Once(SingleCall(config))
  }

  function ParticleCounts(calls: seq<Call>): seq<int>
    requires forall k :: 0 <= k < |calls| ==> calls[k].Options?
  {
    seq(|calls|, k requires 0 <= k < |calls| => calls[k].particleCount)
  }

  /**
   * `extreme` fires 4 calls every 150 ms for 10000 ms, with 200, 200, 150 and
   * 100 particles, each keeping the configuration's `ticks` of 400.
   */
  lemma ExtremePlan()
    ensures PlanFor("extreme").Burst?
    ensures PlanFor("extreme").period == 150 && PlanFor("extreme").duration == 10000
    ensures ParticleCounts(PlanFor("extreme").volley) == [200, 200, 150, 100]
    ensures PlanFor("extreme").volley ==
      [ Options(200, Degrees(60), 100, Some(400), LowerLeft),
        Options(200, Degrees(120), 100, Some(400), LowerRight),
        Options(150, Degrees(90), 120, Some(400), UpperCentre),
        Options(100, RandomAngle, 100, Some(400), RandomPoint) ]
  {
  }

  /** `a-ton` fires 2 calls every 250 ms for 3000 ms, with 100 particles each. */
  lemma ATonPlan()
    ensures PlanFor("a-ton").Burst?
    ensures PlanFor("a-ton").period == 250 && PlanFor("a-ton").duration == 3000
    ensures ParticleCounts(PlanFor("a-ton").volley) == [100, 100]
    ensures PlanFor("a-ton").volley ==
      [ Options(100, Degrees(60), 55, Some(300), LeftEdge),
        Options(100, Degrees(120), 55, Some(300), RightEdge) ]
  {
  }

  /** `minimal` and `a-lot` make one call with their own table entry, at the library's default angle. */
  lemma SingleCallLevels()
    ensures PlanFor("minimal") == Once(Options(50, DefaultAngle, 60, None, ConfigOrigin))
    ensures PlanFor("a-lot") == Once(Options(150, DefaultAngle, 90, Some(200), ConfigOrigin))
  {
  }

  /** Every other level, known or not, makes exactly one call with its configuration as it is. */
  lemma OtherLevelsCallOnce(level: string)
    requires level != "extreme" && level != "a-ton"
    ensures PlanFor(level) == Once(SingleCall(ConfigFor(level)))
  {
  }

  /** An unknown level is not mapped to the default: it gets `confetti(undefined)`. */
  lemma UnknownLevelHasNoConfig(level: string)
    requires level !in KnownLevels
    ensures ConfigFor(level).None? && PlanFor(level) == Once(NoOptions)
  {
  }

  /** A running `setInterval`: the burst's end time, the volley of each tick, and whether it was cleared. */
  datatype Interval = Interval(end: int, volley: seq<Call>, cleared: bool)

  /**
   * The interval a burst plan starts at clock time `now`
   * (`animationEnd = Date.now() + duration`): every callback before
   * `now + duration` fires the plan's volley, and the first one at or after
   * it clears the interval and fires nothing.
   */
  function Start(plan: Plan, now: int): (iv: Interval)
    requires plan.Burst?
    ensures forall t :: t < now + plan.duration ==> Tick(iv, t) == (iv, plan.volley)
    ensures forall t :: t >= now + plan.duration ==> Tick(iv, t).0.cleared && Tick(iv, t).1 == []
  {
    Interval(now + plan.duration, plan.volley, false)
  }

  /**
   * The interval's callback at clock time `now`: with time left it fires the
   * volley; the first time it finds none left it clears itself and fires
   * nothing. A cleared interval is never called back.
   */
  function Tick(iv: Interval, now: int): (r: (Interval, seq<Call>))
    ensures r.0.end == iv.end && r.0.volley == iv.volley
    ensures r.1 == [] || (r.1 == iv.volley && !r.0.cleared)
    ensures iv.cleared ==> r == (iv, [])
  {
    if iv.cleared then (iv, [])
    else if iv.end - now <= 0 then (iv.(cleared := true), [])
    else (iv, iv.volley)
  }

  /** The callbacks of an interval at the clock times `times`, in order: the final interval and every call fired. */
  function RunTicks(iv: Interval, times: seq<int>): (r: (Interval, seq<Call>))
    ensures r.0.end == iv.end && r.0.volley == iv.volley
    ensures iv.cleared ==> r.0.cleared
    decreases |times|
  {
    if times == [] then (iv, [])
    else
      var first := Tick(iv, times[0]);
      var rest := RunTicks(first.0, times[1..]);
      (rest.0, first.1 + rest.1)
  }

  /** How many of the leading clock times fall strictly before `end`. */
  function LiveTicks(end: int, times: seq<int>): nat
    decreases |times|
  {
    if times == [] || end - times[0] <= 0 then 0 else 1 + LiveTicks(end, times[1..])
  }

  function Repeated(volley: seq<Call>, n: nat): seq<Call> {
    if n == 0 then [] else volley + Repeated(volley, n - 1)
  }

  lemma {:induction false} RepeatedLength(volley: seq<Call>, n: nat)
    ensures |Repeated(volley, n)| == n * |volley|
  {
    if n > 0 {
      RepeatedLength(volley, n - 1);
    }
  }

  /** A cleared interval fires nothing and stays cleared. */
  lemma {:induction false} ClearedIsSilent(iv: Interval, times: seq<int>)
    requires iv.cleared
    ensures RunTicks(iv, times) == (iv, [])
  {
    if times != [] {
      ClearedIsSilent(iv, times[1..]);
      assert [] + RunTicks(iv, times[1..]).1 == [];
    }
  }

  /**
   * A running interval fires one whole volley for each leading tick with time
   * left, then nothing: it is cleared exactly when some tick found no time left.
   */
  lemma {:induction false} RunTicksFiresLiveTicks(iv: Interval, times: seq<int>)
    requires !iv.cleared
    ensures RunTicks(iv, times).1 == Repeated(iv.volley, LiveTicks(iv.end, times))
    ensures RunTicks(iv, times).0 == iv.(cleared := LiveTicks(iv.end, times) < |times|)
  {
    if times != [] {
      if iv.end - times[0] <= 0 {
        ClearedIsSilent(iv.(cleared := true), times[1..]);
      } else {
        RunTicksFiresLiveTicks(iv, times[1..]);
      }
    }
  }

  /** The callback times of an undelayed `setInterval(f, period)` started at `start`: start + period, start + 2 * period, ... */
  function IdealTimes(start: int, period: nat, n: nat): (times: seq<int>)
    ensures |times| == n
    ensures forall k :: 0 <= k < n ==> times[k] == start + (k + 1) * period
    decreases n
  {
    if n == 0 then [] else [start + period] + IdealTimes(start + period, period, n - 1)
  }

  /** Under an undelayed clock, exactly `k` ticks find time left when `k * period < duration <= (k + 1) * period`. */
  lemma {:induction false} IdealLiveTicks(start: int, period: nat, duration: int, n: nat, k: nat)
    requires period > 0 && k < n
    requires k * period < duration <= (k + 1) * period
    ensures LiveTicks(start + duration, IdealTimes(start, period, n)) == k
    decreases k
  {
    var times := IdealTimes(start, period, n);
    assert times[0] == start + period;
    assert times[1..] == IdealTimes(start + period, period, n - 1);
    if k > 0 {
      assert (k - 1) * period + period == k * period;
      IdealLiveTicks(start + period, period, duration - period, n - 1, k - 1);
      assert (start + period) + (duration - period) == start + duration;
    }
  }

  /**
   * The extreme burst, undelayed, fires 66 volleys (264 calls): the 67th tick,
   * at 10050 ms, finds no time left and clears the interval.
   */
  lemma ExtremeBurstTotal(start: int, n: nat)
    requires n > 66
    ensures var p := PlanFor("extreme");
      var run := RunTicks(Start(p, start), IdealTimes(start, p.period, n));
      run.1 == Repeated(p.volley, 66) && |run.1| == 264 && run.0.cleared
  {
    var p := PlanFor("extreme");
    IdealLiveTicks(start, p.period, p.duration, n, 66);
    RunTicksFiresLiveTicks(Start(p, start), IdealTimes(start, p.period, n));
    RepeatedLength(p.volley, 66);
    assert |IdealTimes(start, p.period, n)| == n;
  }

  /**
   * The a-ton burst, undelayed, fires 11 volleys (22 calls): the 12th tick,
   * at exactly 3000 ms, finds `timeLeft == 0` and clears the interval.
   */
  lemma ATonBurstTotal(start: int, n: nat)
    requires n > 11
    ensures var p := PlanFor("a-ton");
      var run := RunTicks(Start(p, start), IdealTimes(start, p.period, n));
      run.1 == Repeated(p.volley, 11) && |run.1| == 22 && run.0.cleared
  {
    var p := PlanFor("a-ton");
    IdealLiveTicks(start, p.period, p.duration, n, 11);
    RunTicksFiresLiveTicks(Start(p, start), IdealTimes(start, p.period, n));
    RepeatedLength(p.volley, 11);
    assert |IdealTimes(start, p.period, n)| == n;
  }
}
