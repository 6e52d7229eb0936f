/** Protection evaluation: radiator zones built from placed barricades, the
    time-bounded zone cache, the breathable-volume check, and the combined
    "is this position shielded" predicate. */
module Protection {
  import opened Common
  import opened Settings

  /** A placed barricade as the radiator scan sees it. `assetId` is absent when
      the asset cannot be resolved; `position` is absent when the drop has no
      transform; `detectedRadius` is the value of the type's radius-like member
      (absent when the type has none); `activeFlag` is the value of its
      powered-like member read with fallback `true` (absent when the type has
      none, see `Reflection.ActiveFlag`). */
  datatype Drop = Drop(
    assetId: Option<UShort>,
    position: Option<Vec3>,
    detectedRadius: Option<real>,
    activeFlag: Option<bool>)

  /** One radiator's reach. */
  datatype Zone = Zone(center: Vec3, radius: real, sqrRadius: real)

  /** The radius a radiator drop gets: its detected radius when positive,
      otherwise the configured default. */
  function EffectiveRadius(cfg: Config, d: Drop): real
  {
    if d.detectedRadius.Some? && d.detectedRadius.value > 0.0 then d.detectedRadius.value
    else cfg.safezoneRadiatorDefaultRadius
  }

  /** The drop is excluded from the zone list. A missing powered member never
      excludes (fail-open). */
  predicate Excluded(cfg: Config, d: Drop)
  {
    || d.assetId.None?
    || d.assetId.value !in cfg.safezoneRadiatorItemIds
    || d.position.None?
    || (cfg.safezoneRadiatorRequiresPower && d.activeFlag == Some(false))
  }

  /** `TryCreateSafezoneRadiatorInfo`. */
  function TryCreateZone(cfg: Config, d: Drop): (r: Option<Zone>)
    ensures r.None? <==> Excluded(cfg, d)
    ensures r.Some? ==> r.value.center == d.position.value
    ensures r.Some? ==> r.value.radius == EffectiveRadius(cfg, d)
    ensures r.Some? ==> r.value.sqrRadius == r.value.radius * r.value.radius
  {
    if d.assetId.None? then None
    else if d.assetId.value !in cfg.safezoneRadiatorItemIds then None
    else if d.position.None? then None
    else
      var detected := if d.detectedRadius.Some? && d.detectedRadius.value > 0.0 then d.detectedRadius.value else cfg.safezoneRadiatorDefaultRadius;
      var powered := if cfg.safezoneRadiatorRequiresPower && d.activeFlag.Some? then d.activeFlag.value else true;
      if cfg.safezoneRadiatorRequiresPower && !powered then None
      else
        var radius := if detected <= 0.0 then cfg.safezoneRadiatorDefaultRadius else detected;
        Some(Zone(d.position.value, radius, radius * radius))
  }

  /** Zones of the admissible drops, in scan order. */
  function ZonesOf(cfg: Config, drops: seq<Drop>): (zs: seq<Zone>)
    ensures |zs| <= |drops|
    ensures forall z :: z in zs <==> exists d :: d in drops && TryCreateZone(cfg, d) == Some(z)
    decreases |drops|
  {
    if |drops| == 0 then []
    else
      var rest := ZonesOf(cfg, drops[1..]);
      assert forall d :: d in drops <==> d == drops[0] || d in drops[1..];
      match TryCreateZone(cfg, drops[0])
      case Some(z) => [z] + rest
      case None => rest
  }

  /** `CollectSafezoneRadiators` over every drop of every barricade region. */
  function CollectRadiators(cfg: Config, drops: seq<Drop>): (zs: seq<Zone>)
    ensures |cfg.safezoneRadiatorItemIds| == 0 ==> zs == []
  {
    if |cfg.safezoneRadiatorItemIds| == 0 then [] else ZonesOf(cfg, drops)
  }

  /** Which drops yield a zone: exactly the non-excluded ones. */
  lemma CollectRadiatorsIff(cfg: Config, drops: seq<Drop>, d: Drop)
    requires d in drops
    ensures !Excluded(cfg, d) ==> exists z :: z in CollectRadiators(cfg, drops) && z.center == d.position.value && z.radius == EffectiveRadius(cfg, d)
    ensures forall z :: z in CollectRadiators(cfg, drops) ==> exists e :: e in drops && !Excluded(cfg, e) && z.center == e.position.value
  {
    if !Excluded(cfg, d) {
      assert d.assetId.value in cfg.safezoneRadiatorItemIds;
      var z := TryCreateZone(cfg, d);
      assert z.value in ZonesOf(cfg, drops);
    }
  }

  /** The zone cache and the instant until which it is trusted. */
  datatype Cache = Cache(zones: seq<Zone>, expiry: Instant)

  const EmptyCache := Cache([], MinTime)

  /** `UpdateSafezoneRadiatorCacheIfNeeded` at clock reading `now`. */
  function UpdateCache(cfg: Config, c: Cache, now: Instant, drops: seq<Drop>): (r: Cache)
    ensures !cfg.respectSafezoneRadiators ==> r == EmptyCache
    ensures cfg.respectSafezoneRadiators && now < c.expiry ==> r == c
    ensures cfg.respectSafezoneRadiators && c.expiry <= now ==>
      r.zones == CollectRadiators(cfg, drops)
      && r.expiry == now + Max(1.0, cfg.safezoneRadiatorRefreshSeconds)
      && r.expiry >= now + 1.0 && r.expiry >= now + cfg.safezoneRadiatorRefreshSeconds
    ensures cfg.respectSafezoneRadiators ==> now < r.expiry
  {
    if !cfg.respectSafezoneRadiators then EmptyCache
    else if now < c.expiry then c
    else Cache(CollectRadiators(cfg, drops), now + Max(1.0, cfg.safezoneRadiatorRefreshSeconds))
  }

  /** A second update at the same instant changes nothing. */
  lemma UpdateCacheIdempotent(cfg: Config, c: Cache, now: Instant, drops: seq<Drop>)
    ensures UpdateCache(cfg, UpdateCache(cfg, c, now, drops), now, drops) == UpdateCache(cfg, c, now, drops)
  {
  }

  /** The cache a radiator check leaves behind: the radiator check consults
      (and so refreshes) the cache only while the feature is on. */
  function Refreshed(cfg: Config, c: Cache, now: Instant, drops: seq<Drop>): (r: Cache)
    ensures !cfg.respectSafezoneRadiators ==> r == c
    ensures cfg.respectSafezoneRadiators ==> now < r.expiry
  {
    if cfg.respectSafezoneRadiators then UpdateCache(cfg, c, now, drops) else c
  }

  lemma {:induction false} RefreshedIdempotent(cfg: Config, c: Cache, now: Instant, drops: seq<Drop>)
    ensures Refreshed(cfg, Refreshed(cfg, c, now, drops), now, drops) == Refreshed(cfg, c, now, drops)
  {
    if cfg.respectSafezoneRadiators {
      UpdateCacheIdempotent(cfg, c, now, drops);
    }
  }

  predicate InZone(z: Zone, pos: Vec3)
  {
    SqrDistance(pos, z.center) <= z.sqrRadius
  }

  /** The radiator scan: some cached zone reaches the position. */
  function AnyZoneContains(zones: seq<Zone>, pos: Vec3): (b: bool)
    ensures b <==> exists i :: 0 <= i < |zones| && InZone(zones[i], pos)
    decreases |zones|
  {
    if |zones| == 0 then false
    else if InZone(zones[0], pos) then true
    else
      var b := AnyZoneContains(zones[1..], pos);
      assert forall i :: 1 <= i < |zones| ==> zones[i] == zones[1..][i - 1];
      b
  }

  /** A radiator's own position is inside its zone. */
  lemma RadiatorCenterProtected(zones: seq<Zone>, i: nat)
    requires i < |zones|
    requires zones[i].sqrRadius == zones[i].radius * zones[i].radius
    ensures AnyZoneContains(zones, zones[i].center)
  {
    var z := zones[i];
    assert SqrDistance(z.center, z.center) == 0.0;
    assert 0.0 <= z.radius * z.radius;
    assert InZone(zones[i], z.center);
  }

  /** What the breathable-volume query reports for a position; a failed
      query reports `inside == false`. */
  datatype Oxygen = Oxygen(inside: bool, alpha: real)

  /** `IsPlayerInOxygenSafeZone`. */
  predicate OxygenSafe(cfg: Config, o: Oxygen)
  {
    cfg.respectOxygenSafeZones && o.inside && o.alpha >= Max(0.0, cfg.oxygenSafeAlphaThreshold)
  }

  /** A negative alpha threshold acts as zero. */
  lemma NegativeThresholdIsZero(cfg: Config, o: Oxygen)
    requires cfg.oxygenSafeAlphaThreshold <= 0.0
    ensures OxygenSafe(cfg, o) <==> cfg.respectOxygenSafeZones && o.inside && o.alpha >= 0.0
  {
  }

  /** Raising the alpha threshold never makes a position safer. */
  lemma OxygenThresholdMonotone(cfg: Config, o: Oxygen, higher: real)
    requires cfg.oxygenSafeAlphaThreshold <= higher
    ensures OxygenSafe(cfg.(oxygenSafeAlphaThreshold := higher), o) ==> OxygenSafe(cfg, o)
  {
  }

  /** The position is immune: inside a radiator zone with radiator protection
      on, or inside a breathable volume with oxygen protection on. */
  predicate Shielded(cfg: Config, zones: seq<Zone>, oxygen: Vec3 -> Oxygen, pos: Vec3)
  {
    (cfg.respectSafezoneRadiators && AnyZoneContains(zones, pos)) || OxygenSafe(cfg, oxygen(pos))
  }
}
