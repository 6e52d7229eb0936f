/** The storm controller as a transition system: the lifecycle flags, the four
    timers, start and stop, the damage phase, the automatic scheduler, and one
    step per serialized event. */
module Storm {
  import opened Common
  import opened Settings
  import opened Protection
  import opened Effects
  import opened Deadzone

  /** A one-shot or repeating timer: off, or armed with its period. */
  datatype Timer = Off | Armed(intervalMs: real)

  /** The automatic-storm timer also distinguishes "never created / disposed"
      (`Absent`) from "created but not running" (`Stopped`). */
  datatype AutoTimer = Absent | Stopped | Running(intervalMs: real)

  datatype StormError = AlreadyActive | NotActive

  /** The translation key of an error's message. */
  function ErrorKey(e: StormError): MessageKey
  {
    match e
    case AlreadyActive => StormAlreadyActive
    case NotActive => StormNotActive
  }

  /** The controller's state. `nextStormTime` is in seconds on the same clock
      as `World.now`. */
  datatype Plugin = Plugin(
    stormActive: bool,
    damageActive: bool,
    nextStormTime: Option<real>,
    tick: Timer,
    duration: Timer,
    delay: Timer,
    auto: AutoTimer,
    book: Book,
    deadzone: Handle,
    level: Level)

  /** A draw of the random source: uniform over [0, 1). */
  type Draw = r: real | 0.0 <= r < 1.0

  /** What an event may consult besides the state: the server, the random
      draw, the radius the deadzone must cover, and whether a new
      deadzone node can be built and registered. */
  datatype Env = Env(world: World, random: Draw, coverRadius: real, canCreateDeadzone: bool)

  function Emit(s: Plugin, c: Command): (t: Plugin)
    ensures t.book.log == s.book.log + [c]
    ensures t == s.(book := t.book) && t.book == s.book.(log := t.book.log)
  {
    s.(book := s.book.(log := s.book.log + [c]))
  }

  /** `Broadcast`: the translated message to everyone, when broadcasting is on. */
  function Announce(cfg: Config, s: Plugin, k: MessageKey): (t: Plugin)
    ensures t == s.(book := t.book) && t.book == s.book.(log := t.book.log)
    ensures !cfg.broadcastMessages ==> t == s
    ensures cfg.broadcastMessages ==> t.book.log == s.book.log + [Broadcast(Translate(k, ""))]
  {
    if cfg.broadcastMessages then Emit(s, Broadcast(Translate(k, ""))) else s
  }

  predicate WeatherInUse(cfg: Config)
  {
    cfg.useWeather && cfg.weatherGuid != ""
  }

  /** `ActivateWeather`: switches to the configured weather when weather is
      in use and a weather is configured, and does nothing otherwise. */
  function WeatherOn(cfg: Config, s: Plugin): (t: Plugin)
    ensures t == s.(book := t.book) && t.book == s.book.(log := t.book.log)
    ensures |s.book.log| <= |t.book.log| && t.book.log[..|s.book.log|] == s.book.log
    ensures !cfg.useWeather || cfg.weatherGuid == "" ==> t == s
    ensures cfg.useWeather && cfg.weatherGuid != "" ==> t.book.log == s.book.log + [Weather("weather " + cfg.weatherGuid)]
  {
    if WeatherInUse(cfg) then Emit(s, Weather("weather " + cfg.weatherGuid)) else s
  }

  /** `DeactivateWeather`: clears the weather under the same conditions. */
  function WeatherOff(cfg: Config, s: Plugin): (t: Plugin)
    ensures t == s.(book := t.book) && t.book == s.book.(log := t.book.log)
    ensures |s.book.log| <= |t.book.log| && t.book.log[..|s.book.log|] == s.book.log
    ensures !cfg.useWeather || cfg.weatherGuid == "" ==> t == s
    ensures cfg.useWeather && cfg.weatherGuid != "" ==> t.book.log == s.book.log + [Weather("weather none")]
  {
    if WeatherInUse(cfg) then Emit(s, Weather("weather none")) else s
  }

  /** The automatic interval in minutes for the random draw `r`. */
  function AutoIntervalMinutes(cfg: Config, r: Draw): (m: real)
    ensures 0.1 <= m
    ensures var lo := Max(0.1, cfg.autoStormMinIntervalMinutes);
      var hi := Max(lo, cfg.autoStormMaxIntervalMinutes);
      && (lo == hi ==> m == lo)
      && lo <= m <= hi && (lo < hi ==> m < hi)
  {
    var lo := Max(0.1, cfg.autoStormMinIntervalMinutes);
    var hi := Max(lo, cfg.autoStormMaxIntervalMinutes);
    if lo == hi then lo
    else
      Between(lo, hi, r)
  }

  /** The point a fraction `r` of the way from `lo` to `hi`. */
  function Between(lo: real, hi: real, r: Draw): (m: real)
    requires lo < hi
    ensures lo <= m < hi
  {
    ScaleBelow(r, hi - lo);
    lo + Scale(r, hi - lo)
  }

  function Scale(r: Draw, d: real): real
  {
    r * d
  }

  lemma ScaleBelow(r: Draw, d: real)
    requires 0.0 < d
    ensures 0.0 <= Scale(r, d) < d
  {
    assert (1.0 - r) * d > 0.0;
  }

  /** `ScheduleNextAutoStorm` at clock reading `now` with random draw `r`. */
  function ScheduleNextAutoStorm(cfg: Config, s: Plugin, now: Instant, r: Draw): (t: Plugin)
    ensures t == s.(nextStormTime := t.nextStormTime, auto := t.auto)
    ensures s.auto.Absent? || !cfg.autoStormEnabled ==> t == s.(nextStormTime := None)
    ensures !s.auto.Absent? && cfg.autoStormEnabled ==>
      && t.auto.Running? && t.nextStormTime.Some?
      && t.nextStormTime == Some(now + AutoIntervalMinutes(cfg, r) * 60.0)
      && now + 6.0 <= t.nextStormTime.value
      && t.auto.intervalMs == Max(1000.0, (t.nextStormTime.value - now) * 1000.0)
  {
    if s.auto.Absent? || !cfg.autoStormEnabled then s.(nextStormTime := None)
    else
      var minutes := AutoIntervalMinutes(cfg, r);
      s.(nextStormTime := Some(now + minutes * 60.0), auto := Running(Max(1000.0, minutes * 60000.0)))
  }

  /** The duration countdown `StartStormDurationCountdown` arms. */
  function DurationTimer(cfg: Config): (t: Timer)
    ensures t.Off? <==> cfg.stormDurationSeconds <= 0.0
    ensures t.Armed? ==> 0.0 < t.intervalMs
    ensures 0.0 < cfg.stormDurationSeconds ==> t == Armed(cfg.stormDurationSeconds * 1000.0)
  {
    var seconds := Max(0.0, cfg.stormDurationSeconds);
    if seconds <= 0.0 then Off else Armed(seconds * 1000.0)
  }

  /** `ActivateDamagePhase`: disarms the delay and, unless the phase is
      already on, turns it on and shows the effect to every exposed player.
      It does not look at `stormActive`. */
  function ActivateDamagePhase(cfg: Config, s: Plugin, w: World): (t: Plugin)
    ensures t == s.(delay := Off, damageActive := true, book := t.book)
    ensures s.damageActive ==> t.book == s.book
    ensures !s.damageActive ==> t.book == ApplyEffectAll(cfg, s.book, w)
  {
    var s1 := s.(delay := Off);
    if s1.damageActive then s1
    else
      var s2 := s1.(damageActive := true);
      if cfg.useRadiationEffect then s2.(book := ApplyEffectAll(cfg, s2.book, w)) else s2
  }

  /** Turning the damage phase on with the effect in use gives the effect to
      every connected player who is neither skipped nor shielded. */
  lemma ActivationReachesExposedClients(cfg: Config, s: Plugin, w: World, i: nat)
    requires !s.damageActive && EffectEnabled(cfg)
    requires DistinctIds(w.clients) && i < |w.clients|
    requires !Skipped(cfg, w.clients[i]) && !ShieldedAt(cfg, s.book.cache, w, w.clients[i].position)
    ensures w.clients[i].id in ActivateDamagePhase(cfg, s, w).book.recipients
    ensures SendEffect(w.clients[i].id, cfg.radiationEffectId, cfg.radiationEffectKey)
      in ActivateDamagePhase(cfg, s, w).book.log[|s.book.log|..]
  {
    VisitAllExposed(cfg, s.book, w, w.clients, true, false, i);
  }

  /** `ScheduleDamageActivation`: the phase starts now when the delay is not
      positive, otherwise the delay timer is armed. */
  function ScheduleDamageActivation(cfg: Config, s: Plugin, w: World): (t: Plugin)
    ensures t == s.(damageActive := t.damageActive, delay := t.delay, book := t.book)
    ensures t.damageActive <==> cfg.weatherDamageDelaySeconds <= 0.0
    ensures t.delay.Armed? <==> 0.0 < cfg.weatherDamageDelaySeconds
    ensures t.delay.Armed? ==> t.delay.intervalMs == cfg.weatherDamageDelaySeconds * 1000.0
    ensures 0.0 < cfg.weatherDamageDelaySeconds ==> t.book == s.book
    ensures cfg.weatherDamageDelaySeconds <= 0.0 ==> t.book == ApplyEffectAll(cfg, s.book, w)
  {
    var s1 := s.(damageActive := false, delay := Off);
    var seconds := Max(0.0, cfg.weatherDamageDelaySeconds);
    if seconds <= 0.0 then ActivateDamagePhase(cfg, s1, w)
    else s1.(delay := Armed(seconds * 1000.0))
  }

  /** `DeactivateDamagePhase`. */
  function DeactivateDamagePhase(cfg: Config, s: Plugin, w: World): (t: Plugin)
    ensures t == s.(damageActive := false, delay := Off, book := t.book)
    ensures t.book == ClearAll(cfg, s.book, w)
    ensures t.book.recipients == {}
  {
    s.(damageActive := false, delay := Off, book := ClearAll(cfg, s.book, w))
  }

  /** `StartStorm`. */
  function StartStorm(cfg: Config, s: Plugin, env: Env): (r: Result<Plugin, StormError>)
    ensures s.stormActive <==> r == Failure(AlreadyActive)
    ensures r.Failure? ==> r.error == AlreadyActive
    ensures r.Success? ==>
      && r.value.stormActive
      && r.value.nextStormTime.None?
      && (r.value.auto == if s.auto.Absent? then Absent else Stopped)
      && r.value.duration == DurationTimer(cfg)
      && r.value.tick == s.tick
      && (r.value.damageActive <==> cfg.weatherDamageDelaySeconds <= 0.0)
      && (r.value.delay.Armed? <==> 0.0 < cfg.weatherDamageDelaySeconds)
      && (r.value.level, r.value.deadzone) == CreateDeadzone(cfg, s.level, s.deadzone, env.coverRadius, env.canCreateDeadzone)
      && |s.book.log| <= |r.value.book.log| && r.value.book.log[..|s.book.log|] == s.book.log
      && (cfg.broadcastMessages ==> 0 < |r.value.book.log| && r.value.book.log[|r.value.book.log| - 1] == Broadcast(Translate(StormStart, "")))
  {
    if s.stormActive then Failure(AlreadyActive)
    else
      var s1 := s.(stormActive := true,
                   auto := if s.auto.Absent? then Absent else Stopped,
                   nextStormTime := None,
                   duration := DurationTimer(cfg));
      var s2 := WeatherOn(cfg, s1);
      var dz := CreateDeadzone(cfg, s2.level, s2.deadzone, env.coverRadius, env.canCreateDeadzone);
      var s3 := s2.(level := dz.0, deadzone := dz.1);
      var s4 := ScheduleDamageActivation(cfg, s3, env.world);
      Success(Announce(cfg, s4, StormStart))
  }

  /** `StopStorm`. */
  function StopStorm(cfg: Config, s: Plugin, env: Env): (r: Result<Plugin, StormError>)
    ensures !s.stormActive <==> r == Failure(NotActive)
    ensures r.Failure? ==> r.error == NotActive
    ensures r.Success? ==>
      && !r.value.stormActive && !r.value.damageActive
      && r.value.delay == Off && r.value.duration == Off
      && r.value.tick == s.tick
      && r.value.book.recipients == {}
      && r.value.deadzone == NoHandle
      && r.value.level == RemoveDeadzone(s.level, s.deadzone).0
      && |s.book.log| <= |r.value.book.log| && r.value.book.log[..|s.book.log|] == s.book.log
      && (cfg.broadcastMessages ==> 0 < |r.value.book.log| && r.value.book.log[|r.value.book.log| - 1] == Broadcast(Translate(StormStop, "")))
    ensures r.Success? && !s.auto.Absent? && cfg.autoStormEnabled ==>
      r.value.auto.Running? && r.value.nextStormTime.Some? && env.world.now + 6.0 <= r.value.nextStormTime.value
    ensures r.Success? && (s.auto.Absent? || !cfg.autoStormEnabled) ==>
      r.value.auto == s.auto && r.value.nextStormTime.None?
  {
    if !s.stormActive then Failure(NotActive)
    else
      var s1 := s.(stormActive := false);
      var s2 := DeactivateDamagePhase(cfg, s1, env.world);
      var s3 := s2.(duration := Off);
      var s4 := WeatherOff(cfg, s3);
      var dz := RemoveDeadzone(s4.level, s4.deadzone);
      var s5 := s4.(level := dz.0, deadzone := dz.1);
      var s6 := Announce(cfg, s5, StormStop);
      Success(ScheduleNextAutoStorm(cfg, s6, env.world.now, env.random))
  }

  /** The serialized events: the two public operations, the four timer
      callbacks (each running its queued main-thread work at once), and a
      player joining. */
  datatype Event = Start | Stop | DurationFired | DelayFired | AutoFired | TickFired | PlayerConnected(id: PlayerId)

  /** A timer callback can only happen while its timer runs. */
  predicate Enabled(s: Plugin, e: Event)
  {
    match e
    case DurationFired => s.duration.Armed?
    case DelayFired => s.delay.Armed?
    case AutoFired => s.auto.Running?
    case TickFired => s.tick.Armed?
    case _ => true
  }

  /** The effect of one event. A failing start or stop changes nothing (the
      caller gets the error; see `RadiationCommand.Execute`). */
  function Step(cfg: Config, s: Plugin, env: Env, e: Event): (t: Plugin)
    ensures e == Start && s.stormActive ==> t == s
    ensures e == Stop && !s.stormActive ==> t == s
    ensures e == DurationFired && !s.stormActive ==> t == s.(duration := Off)
    ensures e == AutoFired && s.stormActive ==>
      t == ScheduleNextAutoStorm(cfg, s.(auto := Stopped), env.world.now, env.random)
    ensures (e == TickFired || e.PlayerConnected?) && !(s.stormActive && s.damageActive) ==> t == s
    ensures e == TickFired && s.stormActive && s.damageActive ==> t == s.(book := ApplyRadiationTick(cfg, s.book, env.world))
    ensures e == TickFired && !EffectEnabled(cfg) && !DamageEnabled(cfg) ==> t == s
  {
    match e
    case Start =>
      (match StartStorm(cfg, s, env) case Success(t) => t case Failure(_) => s)
    case Stop =>
      (match StopStorm(cfg, s, env) case Success(t) => t case Failure(_) => s)
    case DurationFired =>
      var s1 := s.(duration := Off);
      if !s1.stormActive then s1
      else (match StopStorm(cfg, s1, env) case Success(t) => t case Failure(_) => s1)
    case DelayFired =>
      ActivateDamagePhase(cfg, s, env.world)
    case AutoFired =>
      var s1 := s.(auto := Stopped);
      if s1.stormActive then ScheduleNextAutoStorm(cfg, s1, env.world.now, env.random)
      else (match StartStorm(cfg, s1, env) case Success(t) => t case Failure(_) => s1)
    case TickFired =>
      if s.stormActive && s.damageActive then s.(book := ApplyRadiationTick(cfg, s.book, env.world)) else s
    case PlayerConnected(id) =>
      if s.stormActive && s.damageActive then s.(book := OnPlayerConnected(cfg, s.book, env.world, id)) else s
  }

  /** The controller's invariant under serialized events. */
  predicate Inv(cfg: Config, s: Plugin)
  {
    && (s.damageActive ==> s.stormActive)
    && (s.delay.Armed? ==> s.stormActive && !s.damageActive)
    && (s.duration.Armed? ==> s.stormActive)
    && (s.auto.Running? <==> s.nextStormTime.Some?)
    && (s.auto.Running? ==> 1000.0 <= s.auto.intervalMs)
    && (!s.auto.Absent? ==> cfg.autoStormEnabled)
    && (!s.damageActive ==> s.book.recipients == {})
    && (!s.stormActive ==> s.deadzone == NoHandle)
    && s.tick == Armed(TickIntervalMs(cfg))
    && WellFormed(s.level) && Fits(s.level, s.deadzone)
  }

  /** The plugin as constructed: idle, nothing recorded, over the given level. */
  function Fresh(level: Level): Plugin
  {
    Plugin(false, false, None, Off, Off, Off, Absent, Book(EmptyCache, {}, []), NoHandle, level)
  }

  /** `Load`: start the tick timer and, when automatic storms are on, create
      and schedule the automatic timer. */
  function Load(cfg: Config, level: Level, now: Instant, r: Draw): (s: Plugin)
    ensures WellFormed(level) ==> Inv(cfg, s)
    ensures !s.stormActive && !s.damageActive && s.tick.Armed?
    ensures cfg.autoStormEnabled <==> s.auto.Running?
    ensures cfg.autoStormEnabled ==> s.nextStormTime.Some? && now + 6.0 <= s.nextStormTime.value
  {
    var s0 := Fresh(level).(tick := Armed(TickIntervalMs(cfg)));
    if !cfg.autoStormEnabled then s0.(auto := Absent)
    else ScheduleNextAutoStorm(cfg, s0.(auto := Stopped), now, r)
  }

  /** `Unload`: every timer disposed, every effect cleared, the deadzone undone.
      The storm flags are left as they were. */
  function Unload(cfg: Config, s: Plugin, w: World): (t: Plugin)
    ensures t.tick == Off && t.duration == Off && t.delay == Off && t.auto == Absent
    ensures forall e: Event :: e.DurationFired? || e.DelayFired? || e.AutoFired? || e.TickFired? ==> !Enabled(t, e)
    ensures t.book.recipients == {} && t.deadzone == NoHandle
    ensures t.level == RemoveDeadzone(s.level, s.deadzone).0
    ensures t.stormActive == s.stormActive && t.damageActive == s.damageActive
  {
    var s1 := s.(tick := Off, auto := Absent, duration := Off, delay := Off);
    var s2 := s1.(book := ClearAll(cfg, s1.book, w));
    var dz := RemoveDeadzone(s2.level, s2.deadzone);
    s2.(level := dz.0, deadzone := dz.1)
  }

  lemma StartKeepsInv(cfg: Config, s: Plugin, env: Env)
    requires Inv(cfg, s) && !s.stormActive
    ensures Inv(cfg, StartStorm(cfg, s, env).value)
  {
    CreateKeepsWellFormed(cfg, s.level, s.deadzone, env.coverRadius, env.canCreateDeadzone);
  }

  lemma StopKeepsInv(cfg: Config, s: Plugin, env: Env)
    requires Inv(cfg, s) && s.stormActive
    ensures Inv(cfg, StopStorm(cfg, s, env).value)
  {
    RemoveKeepsWellFormed(s.level, s.deadzone);
  }

  /** Every enabled event keeps the invariant; in particular the damage phase
      is only ever on during a storm. */
  lemma {:induction false} StepKeepsInv(cfg: Config, s: Plugin, env: Env, e: Event)
    requires Inv(cfg, s) && Enabled(s, e)
    ensures Inv(cfg, Step(cfg, s, env, e))
  {
    match e
    case Start =>
      if !s.stormActive {
        StartKeepsInv(cfg, s, env);
      }
    case Stop =>
      if s.stormActive {
        StopKeepsInv(cfg, s, env);
      }
    case DurationFired =>
      StopKeepsInv(cfg, s.(duration := Off), env);
    case DelayFired =>
    case AutoFired =>
      if !s.stormActive {
        var s1 := s.(auto := Stopped);
        assert StartStorm(cfg, s1, env) == StartStorm(cfg, s1.(nextStormTime := None), env);
        StartKeepsInv(cfg, s1.(nextStormTime := None), env);
      }
    case TickFired =>
    case PlayerConnected(_) =>
  }

  /** A run of enabled events from a loaded plugin never leaves the invariant. */
  lemma {:induction false} RunKeepsInv(cfg: Config, s: Plugin, envs: seq<Env>, es: seq<Event>)
    requires Inv(cfg, s) && |envs| == |es|
    ensures Inv(cfg, Run(cfg, s, envs, es))
    decreases |es|
  {
    if |es| > 0 && Enabled(s, es[0]) {
      StepKeepsInv(cfg, s, envs[0], es[0]);
      RunKeepsInv(cfg, Step(cfg, s, envs[0], es[0]), envs[1..], es[1..]);
    }
  }

  /** Applies the events in order, stopping at the first one that cannot
      happen. */
  function Run(cfg: Config, s: Plugin, envs: seq<Env>, es: seq<Event>): Plugin
    requires |envs| == |es|
    decreases |es|
  {
    if |es| == 0 || !Enabled(s, es[0]) then s
    else Run(cfg, Step(cfg, s, envs[0], es[0]), envs[1..], es[1..])
  }

  /** A damage-delay callback queued before a stop still runs after it: the
      damage phase comes on with no storm, and the effect is shown again. */
  lemma StaleDelayFireAfterStop(cfg: Config, s: Plugin, env: Env)
    requires Inv(cfg, s) && s.stormActive && s.delay.Armed?
    ensures var stopped := Step(cfg, s, env, Stop);
      && !Enabled(stopped, DelayFired)
      && var late := ActivateDamagePhase(cfg, stopped, env.world);
      && late.damageActive && !late.stormActive
      && late.book == ApplyEffectAll(cfg, stopped.book, env.world)
  {
  }
}
