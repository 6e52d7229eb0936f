/** The plugin's tunables and its default translation table. The
    configuration is an input record: it is read on every use and never
    changed by the plugin. */
module Settings {
  import opened Common

  datatype Config = Config(
    tickIntervalSeconds: real,
    infectionDamagePerTick: Byte,
    broadcastMessages: bool,
    targetUnturnedAdmins: bool,
    useRadiationEffect: bool,
    radiationEffectId: UShort,
    radiationEffectKey: Short,
    stormDurationSeconds: real,
    weatherDamageDelaySeconds: real,
    autoStormEnabled: bool,
    autoStormMinIntervalMinutes: real,
    autoStormMaxIntervalMinutes: real,
    useWeather: bool,
    weatherGuid: string,
    useDeadzone: bool,
    deadzoneRadius: real,
    respectOxygenSafeZones: bool,
    oxygenSafeAlphaThreshold: real,
    respectSafezoneRadiators: bool,
    safezoneRadiatorItemIds: seq<UShort>,
    safezoneRadiatorDefaultRadius: real,
    safezoneRadiatorRequiresPower: bool,
    safezoneRadiatorRefreshSeconds: real)

  /** The visible effect is in use: switched on and given a non-zero id. */
  predicate EffectEnabled(cfg: Config)
  {
    cfg.useRadiationEffect && cfg.radiationEffectId != 0
  }

  /** Per-tick damage is in use. */
  predicate DamageEnabled(cfg: Config)
  {
    cfg.infectionDamagePerTick > 0
  }

  /** A player the storm leaves alone whatever else holds: the dead, and
      admins unless admins are targeted. */
  predicate Skipped(cfg: Config, p: Player)
  {
    p.dead || (!cfg.targetUnturnedAdmins && p.admin)
  }

  /** Period of the repeating tick timer in milliseconds. */
  function TickIntervalMs(cfg: Config): (ms: real)
    ensures 500.0 <= ms
    ensures cfg.tickIntervalSeconds >= 0.5 ==> ms == cfg.tickIntervalSeconds * 1000.0
    ensures cfg.tickIntervalSeconds <= 0.5 ==> ms == 500.0
  {
    Max(0.5, cfg.tickIntervalSeconds) * 1000.0
  }

  datatype MessageKey =
    | StormStart | StormStop | StormAlreadyActive | StormNotActive | StormStatus | StormNext

  /** The default translation of a key, with `arg` put in place of `{0}`. */
  function Translate(k: MessageKey, arg: string): string
  {
    match k
    case StormStart => "Radiation storm has begun!"
    case StormStop => "Radiation storm has ended."
    case StormAlreadyActive => "Radiation storm is already active."
    case StormNotActive => "No active radiation storm."
    case StormStatus => "Radiation storm is currently " + arg + "."
    case StormNext => "Next radiation storm in " + arg + "."
  }

  /** Whether the key's text has a `{0}` slot. */
  predicate HasSlot(k: MessageKey)
  {
    k.StormStatus? || k.StormNext?
  }

  /** Characters at fixed positions that tell the six texts apart. */
  lemma {:induction false} TranslateMarks(k: MessageKey, arg: string)
    ensures var r := Translate(k, arg);
      && |r| > 20
      && (r[0] == 'N' <==> k.StormNotActive? || k.StormNext?)
      && (r[0] == 'N' ==> (r[1] == 'o' <==> k.StormNotActive?))
      && (r[0] != 'N' ==> (r[16] == 'h' <==> k.StormStart? || k.StormStop?))
      && (r[0] != 'N' && r[16] == 'h' ==> (r[20] == 'b' <==> k.StormStart?))
      && (r[0] != 'N' && r[16] != 'h' ==> (r[19] == 'a' <==> k.StormAlreadyActive?))
  {
  }

  /** Different keys never render the same text, and a key with a slot
      renders different arguments differently: a message names its key and
      its argument. */
  lemma TranslateInjective(k1: MessageKey, a1: string, k2: MessageKey, a2: string)
    ensures Translate(k1, a1) == Translate(k2, a2) <==> k1 == k2 && (a1 == a2 || !HasSlot(k1))
  {
    var r1 := Translate(k1, a1);
    var r2 := Translate(k2, a2);
    TranslateMarks(k1, a1);
    TranslateMarks(k2, a2);
    if r1 == r2 && k1 == k2 && HasSlot(k1) {
      var n := if k1.StormStatus? then 29 else 24;
      assert a1 == r1[n..|r1| - 1];
      assert a2 == r2[n..|r2| - 1];
    }
  }
}
