/** Effect reconciliation and the per-tick pass over connected players: which
    players are shielded, who carries the visible effect, and which effect,
    clear and damage commands each pass issues. */
module Effects {
  import opened Common
  import opened Settings
  import opened Protection

  /** What the server offers during one event: the clock, the connected
      clients, the placed barricades, and the breathable-volume query. */
  datatype World = World(now: Instant, clients: seq<Player>, drops: seq<Drop>, oxygen: Vec3 -> Oxygen)

  /** The reconciler's bookkeeping: the radiator cache, the players recorded
      as carrying the effect, and every command issued so far. */
  datatype Book = Book(cache: Cache, recipients: set<PlayerId>, log: seq<Command>)

  /** The cache a protection check works with. */
  function View(cfg: Config, c: Cache, w: World): Cache
  {
    Refreshed(cfg, c, w.now, w.drops)
  }

  /** Whether a protection check at this instant reports the position shielded. */
  predicate ShieldedAt(cfg: Config, c: Cache, w: World, pos: Vec3)
  {
    Shielded(cfg, View(cfg, c, w).zones, w.oxygen, pos)
  }

  lemma ViewStable(cfg: Config, c: Cache, w: World)
    ensures View(cfg, View(cfg, c, w), w) == View(cfg, c, w)
  {
    RefreshedIdempotent(cfg, c, w.now, w.drops);
  }

  /** The clear command a clear issues: only for a recorded recipient, and only
      while the effect is in use. */
  function ClearCommands(cfg: Config, recipients: set<PlayerId>, id: PlayerId): seq<Command>
  {
    if id in recipients && EffectEnabled(cfg) then [ClearEffect(id, cfg.radiationEffectId)] else []
  }

  /** The commands an exposed player draws. */
  function ExposureCommands(cfg: Config, id: PlayerId, effect: bool, damage: bool): seq<Command>
  {
    (if effect && EffectEnabled(cfg) then [SendEffect(id, cfg.radiationEffectId, cfg.radiationEffectKey)] else [])
    + (if damage && DamageEnabled(cfg) then [Damage(id, cfg.infectionDamagePerTick)] else [])
  }

  /** `ClearRadiationEffectForPlayer`. */
  function ClearFor(cfg: Config, b: Book, id: PlayerId): (r: Book)
    ensures r.cache == b.cache
    ensures r.recipients == b.recipients - {id}
    ensures id !in b.recipients ==> r == b
    ensures r.log == b.log + ClearCommands(cfg, b.recipients, id)
  {
    if id !in b.recipients then b
    else
      var b1 := b.(recipients := b.recipients - {id});
      if !EffectEnabled(cfg) then b1
      else b1.(log := b1.log + [ClearEffect(id, cfg.radiationEffectId)])
  }

  /** Clearing twice is clearing once. */
  lemma ClearIdempotent(cfg: Config, b: Book, id: PlayerId)
    ensures ClearFor(cfg, ClearFor(cfg, b, id), id) == ClearFor(cfg, b, id)
  {
  }

  /** `IsPlayerInSafezoneRadiator`: the answer and the cache it leaves. */
  function InSafezoneRadiator(cfg: Config, c: Cache, w: World, pos: Vec3): (res: (bool, Cache))
    ensures res.1 == View(cfg, c, w)
    ensures res.0 <==> cfg.respectSafezoneRadiators && AnyZoneContains(View(cfg, c, w).zones, pos)
  {
    if !cfg.respectSafezoneRadiators then (false, c)
    else
      var c1 := UpdateCache(cfg, c, w.now, w.drops);
      if |c1.zones| == 0 then (false, c1) else (AnyZoneContains(c1.zones, pos), c1)
  }

  /** `IsPlayerProtectedFromRadiation`: a protected player's effect is cleared
      on the way. */
  function IsProtected(cfg: Config, b: Book, w: World, p: Player): (res: (bool, Book))
    ensures res.0 <==> ShieldedAt(cfg, b.cache, w, p.position)
    ensures res.1.cache == View(cfg, b.cache, w)
    ensures res.0 ==> res.1.recipients == b.recipients - {p.id}
    ensures res.0 ==> res.1.log == b.log + ClearCommands(cfg, b.recipients, p.id)
    ensures !res.0 ==> res.1.recipients == b.recipients && res.1.log == b.log
  {
    var (inRadiator, cache) := InSafezoneRadiator(cfg, b.cache, w, p.position);
    var b1 := b.(cache := cache);
    if inRadiator then (true, ClearFor(cfg, b1, p.id))
    else if cfg.respectOxygenSafeZones && OxygenSafe(cfg, w.oxygen(p.position)) then (true, ClearFor(cfg, b1, p.id))
    else (false, b1)
  }

  /** `EnsureRadiationEffect`: an exposed player is sent the effect every time,
      whether or not already recorded; a shielded one is cleared instead. */
  function Ensure(cfg: Config, b: Book, w: World, p: Player): (r: Book)
    ensures r.cache == View(cfg, b.cache, w)
    ensures ShieldedAt(cfg, b.cache, w, p.position) ==>
      r.recipients == b.recipients - {p.id} && r.log == b.log + ClearCommands(cfg, b.recipients, p.id)
    ensures !ShieldedAt(cfg, b.cache, w, p.position) && EffectEnabled(cfg) ==>
      r.recipients == b.recipients + {p.id}
      && r.log == b.log + [SendEffect(p.id, cfg.radiationEffectId, cfg.radiationEffectKey)]
    ensures !ShieldedAt(cfg, b.cache, w, p.position) && !EffectEnabled(cfg) ==>
      r.recipients == b.recipients && r.log == b.log
  {
    var (protected, b1) := IsProtected(cfg, b, w, p);
    if protected then b1
    else if !EffectEnabled(cfg) then b1
    else if cfg.respectOxygenSafeZones && OxygenSafe(cfg, w.oxygen(p.position)) then ClearFor(cfg, b1, p.id)
    else
      b1.(recipients := b1.recipients + {p.id},
          log := b1.log + [SendEffect(p.id, cfg.radiationEffectId, cfg.radiationEffectKey)])
  }

  /** After the effect has been ensured and then cleared, the player is no
      longer recorded and the other recipients are as before. */
  lemma EnsureThenClear(cfg: Config, b: Book, w: World, p: Player)
    ensures ClearFor(cfg, Ensure(cfg, b, w, p), p.id).recipients == b.recipients - {p.id}
  {
  }

  /** `ApplyRadiationDamage` for a player the pass reached: a living player
      takes the configured damage when it is positive; nothing else changes. */
  function ApplyDamage(cfg: Config, b: Book, p: Player): (r: Book)
    ensures r.cache == b.cache && r.recipients == b.recipients
    ensures p.dead || cfg.infectionDamagePerTick <= 0 ==> r == b
    ensures !p.dead && cfg.infectionDamagePerTick > 0 ==> r.log == b.log + [Damage(p.id, cfg.infectionDamagePerTick)]
  {
    if p.dead || !DamageEnabled(cfg) then b
    else b.(log := b.log + [Damage(p.id, cfg.infectionDamagePerTick)])
  }

  /** One player's turn in a pass: skip the dead and exempt admins, clear the
      shielded, otherwise ensure the effect (when `effect`) and deal damage
      (when `damage`). */
  function Visit(cfg: Config, b: Book, w: World, p: Player, effect: bool, damage: bool): (r: Book)
    ensures Skipped(cfg, p) ==> r == b
    ensures !Skipped(cfg, p) ==> r.cache == View(cfg, b.cache, w)
    ensures !Skipped(cfg, p) && ShieldedAt(cfg, b.cache, w, p.position) ==>
      r.recipients == b.recipients - {p.id} && r.log == b.log + ClearCommands(cfg, b.recipients, p.id)
    ensures !Skipped(cfg, p) && !ShieldedAt(cfg, b.cache, w, p.position) ==>
      r.recipients == b.recipients + (if effect && EffectEnabled(cfg) then {p.id} else {})
      && r.log == b.log + ExposureCommands(cfg, p.id, effect, damage)
    ensures |b.log| <= |r.log| && r.log[..|b.log|] == b.log
    ensures forall c :: c in r.log[|b.log|..] ==> Concerns(c, p.id)
    ensures r.recipients - {p.id} == b.recipients - {p.id}
  {
    if Skipped(cfg, p) then b
    else
      var (protected, b1) := IsProtected(cfg, b, w, p);
      if protected then b1
      else
        ViewStable(cfg, b.cache, w);
        var b2 := if effect then Ensure(cfg, b1, w, p) else b1;
        if damage then ApplyDamage(cfg, b2, p) else b2
  }

  /** A pass over `ps` in order. */
  function VisitAll(cfg: Config, b: Book, w: World, ps: seq<Player>, effect: bool, damage: bool): (r: Book)
    ensures |b.log| <= |r.log| && r.log[..|b.log|] == b.log
    ensures View(cfg, r.cache, w) == View(cfg, b.cache, w)
    decreases |ps|
  {
    if |ps| == 0 then b
    else
      ViewStable(cfg, b.cache, w);
      VisitAll(cfg, Visit(cfg, b, w, ps[0], effect, damage), w, ps[1..], effect, damage)
  }

  /** None of the commands is about player `x`. */
  predicate SilentOn(cs: seq<Command>, x: PlayerId)
  {
    forall c :: c in cs ==> !Concerns(c, x)
  }

  /** A command log grown in two silent steps grew silently. */
  lemma SilentSteps(a: seq<Command>, b: seq<Command>, c: seq<Command>, x: PlayerId)
    requires |a| <= |b| <= |c| && b[..|a|] == a && c[..|b|] == b
    requires SilentOn(b[|a|..], x) && SilentOn(c[|b|..], x)
    ensures SilentOn(c[|a|..], x)
  {
    assert c[|a|..] == b[|a|..] + c[|b|..];
  }

  /** One visit to a player other than `x` leaves `x` alone. */
  lemma VisitOther(cfg: Config, b: Book, w: World, p: Player, effect: bool, damage: bool, x: PlayerId)
    requires p.id != x
    ensures x in Visit(cfg, b, w, p, effect, damage).recipients <==> x in b.recipients
    ensures SilentOn(Visit(cfg, b, w, p, effect, damage).log[|b.log|..], x)
  {
  }

  /** A pass leaves alone every player it does not visit. */
  lemma {:induction false} VisitAllFrame(cfg: Config, b: Book, w: World, ps: seq<Player>, effect: bool, damage: bool, x: PlayerId)
    requires forall k :: 0 <= k < |ps| ==> ps[k].id != x
    ensures x in VisitAll(cfg, b, w, ps, effect, damage).recipients <==> x in b.recipients
    ensures forall c :: c in VisitAll(cfg, b, w, ps, effect, damage).log[|b.log|..] ==> !Concerns(c, x)
    decreases |ps|
  {
    if |ps| > 0 {
      var b1 := Visit(cfg, b, w, ps[0], effect, damage);
      var r := VisitAll(cfg, b1, w, ps[1..], effect, damage);
      assert VisitAll(cfg, b, w, ps, effect, damage) == r;
      VisitOther(cfg, b, w, ps[0], effect, damage, x);
      assert forall k :: 0 <= k < |ps[1..]| ==> ps[1..][k].id != x by {
        forall k | 0 <= k < |ps[1..]| ensures ps[1..][k].id != x {
          assert ps[1..][k] == ps[k + 1];
        }
      }
      VisitAllFrame(cfg, b1, w, ps[1..], effect, damage, x);
      SilentSteps(b.log, b1.log, r.log, x);
    }
  }

  /** Every command of `cs` about player `x` is one of `allowed`. */
  predicate OnlyAbout(cs: seq<Command>, x: PlayerId, allowed: seq<Command>)
  {
    forall c :: c in cs && Concerns(c, x) ==> c in allowed
  }

  /** A log grown in two steps, each issuing only allowed commands about `x`,
      issued only allowed commands about `x`. */
  lemma AboutSteps(a: seq<Command>, b: seq<Command>, c: seq<Command>, x: PlayerId, allowed: seq<Command>)
    requires |a| <= |b| <= |c| && b[..|a|] == a && c[..|b|] == b
    requires OnlyAbout(b[|a|..], x, allowed) && OnlyAbout(c[|b|..], x, allowed)
    ensures OnlyAbout(c[|a|..], x, allowed)
  {
    assert c[|a|..] == b[|a|..] + c[|b|..];
  }

  /** Commands issued in the first step are still among those issued over
      both steps, and so are those of the second. */
  lemma IssuedSteps(a: seq<Command>, b: seq<Command>, c: seq<Command>)
    requires |a| <= |b| <= |c| && b[..|a|] == a && c[..|b|] == b
    ensures forall k :: k in b[|a|..] ==> k in c[|a|..]
    ensures forall k :: k in c[|b|..] ==> k in c[|a|..]
  {
    assert c[|a|..] == b[|a|..] + c[|b|..];
  }

  /** The rest of a list of distinct players is distinct, and its players
      differ from the first. */
  lemma DistinctRest(ps: seq<Player>)
    requires DistinctIds(ps) && 0 < |ps|
    ensures DistinctIds(ps[1..])
    ensures forall k :: 0 <= k < |ps[1..]| ==> ps[1..][k].id != ps[0].id
  {
    forall i, j | 0 <= i < j < |ps[1..]|
      ensures ps[1..][i].id != ps[1..][j].id
    {
      assert ps[1..][i] == ps[i + 1] && ps[1..][j] == ps[j + 1];
    }
    forall k | 0 <= k < |ps[1..]|
      ensures ps[1..][k].id != ps[0].id
    {
      assert ps[1..][k] == ps[k + 1];
    }
  }

  /** A shielded player visited by a pass ends it without the effect, and the
      only command addressed to them is the clear. */
  lemma {:induction false} VisitAllShielded(cfg: Config, b: Book, w: World, ps: seq<Player>, effect: bool, damage: bool, i: nat)
    requires DistinctIds(ps) && i < |ps|
    requires !Skipped(cfg, ps[i]) && ShieldedAt(cfg, b.cache, w, ps[i].position)
    ensures ps[i].id !in VisitAll(cfg, b, w, ps, effect, damage).recipients
    ensures forall c :: c in VisitAll(cfg, b, w, ps, effect, damage).log[|b.log|..] && Concerns(c, ps[i].id) ==>
      c == ClearEffect(ps[i].id, cfg.radiationEffectId)
    decreases |ps|
  {
    var x := ps[i].id;
    var allowed := [ClearEffect(x, cfg.radiationEffectId)];
    var b1 := Visit(cfg, b, w, ps[0], effect, damage);
    var r := VisitAll(cfg, b1, w, ps[1..], effect, damage);
    assert VisitAll(cfg, b, w, ps, effect, damage) == r;
    DistinctRest(ps);
    if i == 0 {
      VisitAllFrame(cfg, b1, w, ps[1..], effect, damage, x);
      assert OnlyAbout(b1.log[|b.log|..], x, allowed);
    } else {
      ViewStable(cfg, b.cache, w);
      assert ps[1..][i - 1] == ps[i];
      VisitOther(cfg, b, w, ps[0], effect, damage, x);
      VisitAllShielded(cfg, b1, w, ps[1..], effect, damage, i - 1);
      assert OnlyAbout(r.log[|b1.log|..], x, allowed);
    }
    AboutSteps(b.log, b1.log, r.log, x, allowed);
  }

  /** An exposed player visited by a pass gets the effect (when the pass
      applies it) and exactly the pass's damage. */
  lemma {:induction false} VisitAllExposed(cfg: Config, b: Book, w: World, ps: seq<Player>, effect: bool, damage: bool, i: nat)
    requires DistinctIds(ps) && i < |ps|
    requires !Skipped(cfg, ps[i]) && !ShieldedAt(cfg, b.cache, w, ps[i].position)
    ensures effect && EffectEnabled(cfg) ==> ps[i].id in VisitAll(cfg, b, w, ps, effect, damage).recipients
    ensures !(effect && EffectEnabled(cfg)) ==>
      (ps[i].id in VisitAll(cfg, b, w, ps, effect, damage).recipients <==> ps[i].id in b.recipients)
    ensures forall c :: c in VisitAll(cfg, b, w, ps, effect, damage).log[|b.log|..] && Concerns(c, ps[i].id) ==>
      c in ExposureCommands(cfg, ps[i].id, effect, damage)
    ensures forall c :: c in ExposureCommands(cfg, ps[i].id, effect, damage) ==>
      c in VisitAll(cfg, b, w, ps, effect, damage).log[|b.log|..]
    decreases |ps|
  {
    var x := ps[i].id;
    var allowed := ExposureCommands(cfg, x, effect, damage);
    var b1 := Visit(cfg, b, w, ps[0], effect, damage);
    var r := VisitAll(cfg, b1, w, ps[1..], effect, damage);
    assert VisitAll(cfg, b, w, ps, effect, damage) == r;
    DistinctRest(ps);
    IssuedSteps(b.log, b1.log, r.log);
    if i == 0 {
      VisitAllFrame(cfg, b1, w, ps[1..], effect, damage, x);
      assert b1.log[|b.log|..] == allowed;
      assert OnlyAbout(r.log[|b1.log|..], x, allowed);
    } else {
      ViewStable(cfg, b.cache, w);
      assert ps[1..][i - 1] == ps[i];
      VisitOther(cfg, b, w, ps[0], effect, damage, x);
      VisitAllExposed(cfg, b1, w, ps[1..], effect, damage, i - 1);
      assert OnlyAbout(r.log[|b1.log|..], x, allowed);
    }
    AboutSteps(b.log, b1.log, r.log, x, allowed);
  }

  /** A dead player or an exempt admin is untouched by a pass. */
  lemma {:induction false} VisitAllSkipped(cfg: Config, b: Book, w: World, ps: seq<Player>, effect: bool, damage: bool, i: nat)
    requires DistinctIds(ps) && i < |ps| && Skipped(cfg, ps[i])
    ensures ps[i].id in VisitAll(cfg, b, w, ps, effect, damage).recipients <==> ps[i].id in b.recipients
    ensures forall c :: c in VisitAll(cfg, b, w, ps, effect, damage).log[|b.log|..] ==> !Concerns(c, ps[i].id)
    decreases |ps|
  {
    var x := ps[i].id;
    var b1 := Visit(cfg, b, w, ps[0], effect, damage);
    var r := VisitAll(cfg, b1, w, ps[1..], effect, damage);
    assert VisitAll(cfg, b, w, ps, effect, damage) == r;
    DistinctRest(ps);
    if i == 0 {
      VisitAllFrame(cfg, b1, w, ps[1..], effect, damage, x);
    } else {
      assert ps[1..][i - 1] == ps[i];
      VisitOther(cfg, b, w, ps[0], effect, damage, x);
      VisitAllSkipped(cfg, b1, w, ps[1..], effect, damage, i - 1);
    }
    SilentSteps(b.log, b1.log, r.log, x);
  }

  /** `ApplyRadiationTick`. */
  function ApplyRadiationTick(cfg: Config, b: Book, w: World): (r: Book)
    ensures !EffectEnabled(cfg) && !DamageEnabled(cfg) ==> r == b
    ensures |b.log| <= |r.log| && r.log[..|b.log|] == b.log
  {
    if !EffectEnabled(cfg) && !DamageEnabled(cfg) then b
    else VisitAll(cfg, b, w, w.clients, EffectEnabled(cfg), DamageEnabled(cfg))
  }

  /** What one tick does to a connected player: a dead player or exempt admin
      is untouched; a shielded one loses the effect and draws no effect or
      damage; any other draws the effect (if in use) and then the per-tick
      damage (if positive), and nothing else. */
  lemma TickOutcome(cfg: Config, b: Book, w: World, i: nat)
    requires DistinctIds(w.clients) && i < |w.clients|
    requires EffectEnabled(cfg) || DamageEnabled(cfg)
    ensures var p := w.clients[i];
      var r := ApplyRadiationTick(cfg, b, w);
      var issued := r.log[|b.log|..];
      && (Skipped(cfg, p) ==>
            (p.id in r.recipients <==> p.id in b.recipients) && forall c :: c in issued ==> !Concerns(c, p.id))
      && (!Skipped(cfg, p) && ShieldedAt(cfg, b.cache, w, p.position) ==>
            p.id !in r.recipients && forall c :: c in issued && Concerns(c, p.id) ==> c.ClearEffect?)
      && (!Skipped(cfg, p) && !ShieldedAt(cfg, b.cache, w, p.position) ==>
            (EffectEnabled(cfg) ==> p.id in r.recipients && SendEffect(p.id, cfg.radiationEffectId, cfg.radiationEffectKey) in issued)
            && (DamageEnabled(cfg) ==> Damage(p.id, cfg.infectionDamagePerTick) in issued)
            && forall c :: c in issued && Concerns(c, p.id) ==> c.SendEffect? || c.Damage?)
  {
    var p := w.clients[i];
    var e := EffectEnabled(cfg);
    var d := DamageEnabled(cfg);
    if Skipped(cfg, p) {
      VisitAllSkipped(cfg, b, w, w.clients, e, d, i);
    } else if ShieldedAt(cfg, b.cache, w, p.position) {
      VisitAllShielded(cfg, b, w, w.clients, e, d, i);
    } else {
      VisitAllExposed(cfg, b, w, w.clients, e, d, i);
      assert e ==> SendEffect(p.id, cfg.radiationEffectId, cfg.radiationEffectKey) in ExposureCommands(cfg, p.id, e, d);
      assert d ==> Damage(p.id, cfg.infectionDamagePerTick) in ExposureCommands(cfg, p.id, e, d);
    }
  }

  /** No command of `cs` deals damage. */
  predicate Harmless(cs: seq<Command>)
  {
    forall c :: c in cs ==> !c.Damage?
  }

  /** A pass that deals no damage issues no damage command. */
  lemma {:induction false} VisitAllHarmless(cfg: Config, b: Book, w: World, ps: seq<Player>, effect: bool)
    ensures Harmless(VisitAll(cfg, b, w, ps, effect, false).log[|b.log|..])
    decreases |ps|
  {
    if |ps| > 0 {
      var b1 := Visit(cfg, b, w, ps[0], effect, false);
      var r := VisitAll(cfg, b1, w, ps[1..], effect, false);
      assert VisitAll(cfg, b, w, ps, effect, false) == r;
      assert Harmless(b1.log[|b.log|..]);
      VisitAllHarmless(cfg, b1, w, ps[1..], effect);
      HarmlessSteps(b.log, b1.log, r.log);
    }
  }

  /** A log grown in two harmless steps grew harmlessly. */
  lemma HarmlessSteps(a: seq<Command>, b: seq<Command>, c: seq<Command>)
    requires |a| <= |b| <= |c| && b[..|a|] == a && c[..|b|] == b
    requires Harmless(b[|a|..]) && Harmless(c[|b|..])
    ensures Harmless(c[|a|..])
  {
    assert c[|a|..] == b[|a|..] + c[|b|..];
  }

  /** `ApplyRadiationEffectAll`: an effect-only pass over the connected
      players, which never deals damage. */
  function ApplyEffectAll(cfg: Config, b: Book, w: World): (r: Book)
    ensures !EffectEnabled(cfg) ==> r == b
    ensures |b.log| <= |r.log| && r.log[..|b.log|] == b.log
    ensures Harmless(r.log[|b.log|..])
  {
    if !EffectEnabled(cfg) then b
    else
      VisitAllHarmless(cfg, b, w, w.clients, true);
      VisitAll(cfg, b, w, w.clients, true, false)
  }

  /** What the effect pass does to a connected player: a dead player or exempt
      admin is untouched; a shielded one ends unrecorded and draws at most the
      clear; any other is recorded and sent the effect, and nothing else. */
  lemma EffectAllOutcome(cfg: Config, b: Book, w: World, i: nat)
    requires DistinctIds(w.clients) && i < |w.clients| && EffectEnabled(cfg)
    ensures var p := w.clients[i];
      var r := ApplyEffectAll(cfg, b, w);
      var issued := r.log[|b.log|..];
      && (Skipped(cfg, p) ==>
            (p.id in r.recipients <==> p.id in b.recipients) && forall c :: c in issued ==> !Concerns(c, p.id))
      && (!Skipped(cfg, p) && ShieldedAt(cfg, b.cache, w, p.position) ==>
            p.id !in r.recipients && forall c :: c in issued && Concerns(c, p.id) ==> c.ClearEffect?)
      && (!Skipped(cfg, p) && !ShieldedAt(cfg, b.cache, w, p.position) ==>
            p.id in r.recipients && SendEffect(p.id, cfg.radiationEffectId, cfg.radiationEffectKey) in issued
            && forall c :: c in issued && Concerns(c, p.id) ==> c.SendEffect?)
  {
    var p := w.clients[i];
    if Skipped(cfg, p) {
      VisitAllSkipped(cfg, b, w, w.clients, true, false, i);
    } else if ShieldedAt(cfg, b.cache, w, p.position) {
      VisitAllShielded(cfg, b, w, w.clients, true, false, i);
    } else {
      VisitAllExposed(cfg, b, w, w.clients, true, false, i);
      assert ExposureCommands(cfg, p.id, true, false) == [SendEffect(p.id, cfg.radiationEffectId, cfg.radiationEffectKey)];
    }
  }

  function ClearAllCommands(cfg: Config, clients: seq<Player>): (cs: seq<Command>)
    ensures |cs| == |clients|
    ensures forall i :: 0 <= i < |clients| ==> cs[i] == ClearEffect(clients[i].id, cfg.radiationEffectId)
  {
    seq(|clients|, i requires 0 <= i < |clients| => ClearEffect(clients[i].id, cfg.radiationEffectId))
  }

  /** `ClearRadiationEffectAll`: every connected client is sent a clear, not
      only the recorded recipients, and the record is emptied. */
  function ClearAll(cfg: Config, b: Book, w: World): (r: Book)
    ensures r.recipients == {}
    ensures r.cache == b.cache
    ensures !EffectEnabled(cfg) ==> r.log == b.log
    ensures EffectEnabled(cfg) ==> r.log == b.log + ClearAllCommands(cfg, w.clients)
  {
    if !EffectEnabled(cfg) then b.(recipients := {})
    else b.(recipients := {}, log := b.log + ClearAllCommands(cfg, w.clients))
  }

  /** Every connected client gets a clear from `ClearAll`, recipient or not. */
  lemma ClearAllReachesEveryClient(cfg: Config, b: Book, w: World, p: Player)
    requires EffectEnabled(cfg) && p in w.clients
    ensures ClearEffect(p.id, cfg.radiationEffectId) in ClearAll(cfg, b, w).log[|b.log|..]
  {
    var i :| 0 <= i < |w.clients| && w.clients[i] == p;
    var r := ClearAll(cfg, b, w);
    assert r.log[|b.log|..] == ClearAllCommands(cfg, w.clients);
    assert r.log[|b.log|..][i] == ClearEffect(p.id, cfg.radiationEffectId);
  }

  /** `PlayerTool.getSteamPlayer`: the first client with the identifier. */
  function FindClient(clients: seq<Player>, id: PlayerId): (r: Option<Player>)
    ensures r.Some? ==> r.value in clients && r.value.id == id
    ensures r.None? ==> forall k :: 0 <= k < |clients| ==> clients[k].id != id
    decreases |clients|
  {
    if |clients| == 0 then None
    else if clients[0].id == id then Some(clients[0])
    else FindClient(clients[1..], id)
  }

  /** Among distinct players, the one found is the only one with the identifier. */
  lemma FindClientUnique(clients: seq<Player>, id: PlayerId)
    ensures DistinctIds(clients) ==> forall p :: p in clients && p.id == id ==> FindClient(clients, id) == Some(p)
  {
    if DistinctIds(clients) {
      forall p | p in clients && p.id == id
        ensures FindClient(clients, id) == Some(p)
      {
        var f := FindClient(clients, id);
        var k :| 0 <= k < |clients| && clients[k] == p;
        var m :| 0 <= m < |clients| && clients[m] == f.value;
        assert k == m;
      }
    }
  }

  /** The queued part of `OnPlayerConnected`: the newly connected player is
      handled like one player of an effect-only pass; a player no longer
      connected, a dead one or an exempt admin changes nothing. */
  function OnPlayerConnected(cfg: Config, b: Book, w: World, id: PlayerId): (r: Book)
    ensures r.recipients - {id} == b.recipients - {id}
    ensures |b.log| <= |r.log| && forall c :: c in r.log[|b.log|..] ==> Concerns(c, id) && !c.Damage?
    ensures (forall k :: 0 <= k < |w.clients| ==> w.clients[k].id != id) ==> r == b
    ensures forall p :: p in w.clients && p.id == id && DistinctIds(w.clients) ==>
      && (Skipped(cfg, p) ==> r == b)
      && (!Skipped(cfg, p) && ShieldedAt(cfg, b.cache, w, p.position) ==>
            id !in r.recipients && r.log == b.log + ClearCommands(cfg, b.recipients, id))
      && (!Skipped(cfg, p) && !ShieldedAt(cfg, b.cache, w, p.position) && EffectEnabled(cfg) ==>
            id in r.recipients && r.log == b.log + [SendEffect(id, cfg.radiationEffectId, cfg.radiationEffectKey)])
      && (!Skipped(cfg, p) && !ShieldedAt(cfg, b.cache, w, p.position) && !EffectEnabled(cfg) ==>
            r.recipients == b.recipients && r.log == b.log)
  {
    FindClientUnique(w.clients, id);
    match FindClient(w.clients, id)
    case None => b
    case Some(p) => Visit(cfg, b, w, p, true, false)
  }

  /** A player connecting while the effect is in use ends up recorded exactly
      when the effect pass would have recorded them. */
  lemma ConnectedLikePass(cfg: Config, b: Book, w: World, i: nat)
    requires DistinctIds(w.clients) && i < |w.clients| && EffectEnabled(cfg)
    ensures var id := w.clients[i].id;
      id in OnPlayerConnected(cfg, b, w, id).recipients <==> id in ApplyEffectAll(cfg, b, w).recipients
  {
    EffectAllOutcome(cfg, b, w, i);
    assert w.clients[i] in w.clients;
  }
}
