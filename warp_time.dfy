/** The warp-time graph of a fit: the distance unit conversions of the graph's
    inputs and the probe that measures a fit's clean sub-warp speed, with
    every speed-changing effect switched off and then switched back on. */
module WarpTime {
  import opened Wrappers

  // ---------------------------------------------------------------------
  // Distance units
  // ---------------------------------------------------------------------

  /** One astronomical unit, in metres. */
  const AuMeters: real := 149597870700.0

  /** The two units in which the graph shows a distance. */
  datatype DistanceUnit = AU | Km

  /** A distance shown in `unit`, in metres (the graph's internal unit). */
  function Normalize(v: real, unit: DistanceUnit): real
  {
    match unit
    case AU => v * AuMeters
    case Km => v * 1000.0
  }

  /** A distance in metres, shown in `unit`. */
  function Denormalize(v: real, unit: DistanceUnit): real
  {
    match unit
    case AU => v / AuMeters
    case Km => v / 1000.0
  }

  /** The range of distances, in metres, the graph lets a fit be drawn over. */
  function DistanceLimits(maxWarpDistance: real): (real, real)
  {
    (0.0, maxWarpDistance * AuMeters)
  }

  lemma DenormalizeNormalize(v: real, unit: DistanceUnit)
    ensures Denormalize(Normalize(v, unit), unit) == v
  {
  }

  lemma NormalizeDenormalize(v: real, unit: DistanceUnit)
    ensures Normalize(Denormalize(v, unit), unit) == v
  {
  }

  /** The limiter runs from zero to the fit's maximum warp distance, which is
      given in AU, converted to metres. */
  lemma DistanceLimitsInMeters(maxWarpDistance: real)
    ensures DistanceLimits(maxWarpDistance).0 == 0.0
    ensures DistanceLimits(maxWarpDistance).1 == Normalize(maxWarpDistance, AU)
    ensures Denormalize(DistanceLimits(maxWarpDistance).1, AU) == maxWarpDistance
    ensures maxWarpDistance >= 0.0 ==> DistanceLimits(maxWarpDistance).0 <= DistanceLimits(maxWarpDistance).1
  {
  }

  // ---------------------------------------------------------------------
  // The entities of a fit the probe switches off
  // ---------------------------------------------------------------------

  /** Activation state of a module; the states are ordered as listed. */
  datatype ModuleState = Offline | Online | Active | Overheated

  function Rank(s: ModuleState): int
  {
    match s
    case Offline => -1
    case Online => 0
    case Active => 1
    case Overheated => 2
  }

  predicate AtLeastActive(s: ModuleState)
  {
    Rank(s) >= Rank(Active)
  }

  datatype Item = Item(groupName: string)

  /** A module slot of the fit itself; an empty slot has no item. */
  datatype LocalModule = LocalModule(item: Option<Item>, state: ModuleState)

  /** How another fit is projected onto this one. */
  datatype ProjectionInfo = ProjectionInfo(active: bool)

  datatype ProjectedModule = ProjectedModule(isExclusiveSystemEffect: bool, state: ModuleState)

  datatype ProjectedDrone = ProjectedDrone(amountActive: nat)

  datatype ProjectedFighter = ProjectedFighter(active: bool)

  /** Everything the probe reads or writes. `projections` holds, for each fit
      projected onto this one, its projection info onto this fit, if any. */
  datatype FitState = FitState(
    modules: seq<LocalModule>,
    projections: seq<Option<ProjectionInfo>>,
    projectedModules: seq<ProjectedModule>,
    projectedDrones: seq<ProjectedDrone>,
    projectedFighters: seq<ProjectedFighter>)

  /** Item groups whose active modules change a ship's sub-warp speed. */
  const SpeedGroups: set<string> := {"Propulsion Module", "Mass Entanglers", "Cloaking Device"}

  // Selection tests: the entities the probe switches off.

  predicate AffectsSpeed(m: LocalModule)
  {
    m.item.Some? && m.item.value.groupName in SpeedGroups && AtLeastActive(m.state)
  }

  predicate IsActiveLink(p: Option<ProjectionInfo>)
  {
    p.Some? && p.value.active
  }

  predicate IsActiveProjectedModule(m: ProjectedModule)
  {
    !m.isExclusiveSystemEffect && AtLeastActive(m.state)
  }

  predicate HasActiveDrones(d: ProjectedDrone)
  {
    d.amountActive > 0
  }

  predicate IsActiveFighter(f: ProjectedFighter)
  {
    f.active
  }

  // The field each category toggles: how to read it and how to write it.

  function ModuleStateOf(m: LocalModule): ModuleState { m.state }

  function WithModuleState(m: LocalModule, s: ModuleState): LocalModule { m.(state := s) }

  function LinkActive(p: Option<ProjectionInfo>): bool
  {
    match p
    case Some(info) => info.active
    case None => false
  }

  function WithLinkActive(p: Option<ProjectionInfo>, active: bool): Option<ProjectionInfo>
  {
    match p
    case Some(info) => Some(info.(active := active))
    case None => None
  }

  function ProjectedModuleStateOf(m: ProjectedModule): ModuleState { m.state }

  function WithProjectedModuleState(m: ProjectedModule, s: ModuleState): ProjectedModule { m.(state := s) }

  function AmountActiveOf(d: ProjectedDrone): nat { d.amountActive }

  function WithAmountActive(d: ProjectedDrone, n: nat): ProjectedDrone { d.(amountActive := n) }

  function FighterActive(f: ProjectedFighter): bool { f.active }

  function WithFighterActive(f: ProjectedFighter, active: bool): ProjectedFighter { f.(active := active) }

  // ---------------------------------------------------------------------
  // Neutralising and restoring one category, as values
  // ---------------------------------------------------------------------

  /** One entity after the switch-off pass: a selected entity gets the
      neutral value, any other is left alone. */
  function Neutral<E, V>(e: E, selected: E -> bool, update: (E, V) -> E, neutral: V): E
  {
    if selected(e) then update(e, neutral) else e
  }

  function NeutraliseAll<E, V>(s: seq<E>, selected: E -> bool, update: (E, V) -> E, neutral: V): seq<E>
  {
    seq(|s|, k requires 0 <= k < |s| => Neutral(s[k], selected, update, neutral))
  }

  /** What the switch-off pass records: the old value of every selected
      entity, by position. */
  function Snapshot<E, V>(s: seq<E>, selected: E -> bool, field: E -> V): map<int, V>
  {
    map k | 0 <= k < |s| && selected(s[k]) :: field(s[k])
  }

  /** Writing every recorded value back. */
  function RestoreAll<E, V>(s: seq<E>, saved: map<int, V>, update: (E, V) -> E): seq<E>
  {
    seq(|s|, k requires 0 <= k < |s| => if k in saved then update(s[k], saved[k]) else s[k])
  }

  /** Restoring the snapshot undoes the switch-off pass, as long as writing
      back a field's old value gives back the entity. */
  lemma {:induction false} RestoreUndoesNeutralise<E, V>(
    s: seq<E>, selected: E -> bool, field: E -> V, update: (E, V) -> E, neutral: V)
    requires forall e :: selected(e) ==> update(update(e, neutral), field(e)) == e
    ensures RestoreAll(NeutraliseAll(s, selected, update, neutral), Snapshot(s, selected, field), update) == s
  {
    var n := NeutraliseAll(s, selected, update, neutral);
    var saved := Snapshot(s, selected, field);
    var r := RestoreAll(n, saved, update);
    assert |r| == |s|;
    forall k | 0 <= k < |s|
      ensures r[k] == s[k]
    {
      if selected(s[k]) {
        assert k in saved && saved[k] == field(s[k]);
        assert n[k] == update(s[k], neutral);
      } else {
        assert k !in saved;
      }
    }
  }

  /** The whole fit after every category has been switched off: the state in
      which the clean speed is measured. */
  function Neutralised(s: FitState): FitState
  {
    FitState(
      NeutraliseAll(s.modules, AffectsSpeed, WithModuleState, Online),
      NeutraliseAll(s.projections, IsActiveLink, WithLinkActive, false),
      NeutraliseAll(s.projectedModules, IsActiveProjectedModule, WithProjectedModuleState, Online),
      NeutraliseAll(s.projectedDrones, HasActiveDrones, WithAmountActive, 0),
      NeutraliseAll(s.projectedFighters, IsActiveFighter, WithFighterActive, false))
  }

  /** No speed-changing effect is on. */
  ghost predicate Clean(s: FitState)
  {
    && (forall k :: 0 <= k < |s.modules| ==> !AffectsSpeed(s.modules[k]))
    && (forall k :: 0 <= k < |s.projections| ==> !IsActiveLink(s.projections[k]))
    && (forall k :: 0 <= k < |s.projectedModules| ==> !IsActiveProjectedModule(s.projectedModules[k]))
    && (forall k :: 0 <= k < |s.projectedDrones| ==> s.projectedDrones[k].amountActive == 0)
    && (forall k :: 0 <= k < |s.projectedFighters| ==> !IsActiveFighter(s.projectedFighters[k]))
  }

  /** The measurement is taken with every speed-changing effect off. */
  lemma NeutralisedIsClean(s: FitState)
    ensures Clean(Neutralised(s))
  {
  }

  /** The switch-off pass writes only the entities it selects, and puts a
      selected module exactly ONLINE, not lower. Drones are zeroed and links
      and fighters made inactive. */
  lemma NeutraliseWritesOnlySelected(s: FitState)
    ensures var n := Neutralised(s);
      && |n.modules| == |s.modules| && |n.projections| == |s.projections|
      && |n.projectedModules| == |s.projectedModules|
      && |n.projectedDrones| == |s.projectedDrones|
      && |n.projectedFighters| == |s.projectedFighters|
      && (forall k :: 0 <= k < |s.modules| ==>
            n.modules[k] == if AffectsSpeed(s.modules[k]) then s.modules[k].(state := Online) else s.modules[k])
      && (forall k :: 0 <= k < |s.projections| ==>
            n.projections[k] == if IsActiveLink(s.projections[k]) then Some(s.projections[k].value.(active := false)) else s.projections[k])
      && (forall k :: 0 <= k < |s.projectedModules| ==>
            n.projectedModules[k] == if IsActiveProjectedModule(s.projectedModules[k])
                                     then s.projectedModules[k].(state := Online) else s.projectedModules[k])
      && (forall k :: 0 <= k < |s.projectedDrones| ==>
            n.projectedDrones[k] == if HasActiveDrones(s.projectedDrones[k])
                                    then s.projectedDrones[k].(amountActive := 0) else s.projectedDrones[k])
      && (forall k :: 0 <= k < |s.projectedFighters| ==>
            n.projectedFighters[k] == s.projectedFighters[k].(active := false))
  {
  }

  /** A fit with nothing to switch off is measured as it stands. */
  lemma NeutraliseCleanIsIdentity(s: FitState)
    requires Clean(s)
    ensures Neutralised(s) == s
  {
  }

  /** The five records the probe keeps, each keyed by position: the state of
      every module, link, projected module, drone stack and fighter it
      switched off. */
  datatype SavedStates = SavedStates(
    modStates: map<int, ModuleState>,
    projFitStates: map<int, bool>,
    projModStates: map<int, ModuleState>,
    projDroneStates: map<int, nat>,
    projFighterStates: map<int, bool>)

  /** What switching everything off records. */
  function Snapshots(s: FitState): SavedStates
  {
    SavedStates(
      Snapshot(s.modules, AffectsSpeed, ModuleStateOf),
      Snapshot(s.projections, IsActiveLink, LinkActive),
      Snapshot(s.projectedModules, IsActiveProjectedModule, ProjectedModuleStateOf),
      Snapshot(s.projectedDrones, HasActiveDrones, AmountActiveOf),
      Snapshot(s.projectedFighters, IsActiveFighter, FighterActive))
  }

  /** The fit after every record has been written back. */
  function Restored(s: FitState, saved: SavedStates): FitState
  {
    FitState(
      RestoreAll(s.modules, saved.modStates, WithModuleState),
      RestoreAll(s.projections, saved.projFitStates, WithLinkActive),
      RestoreAll(s.projectedModules, saved.projModStates, WithProjectedModuleState),
      RestoreAll(s.projectedDrones, saved.projDroneStates, WithAmountActive),
      RestoreAll(s.projectedFighters, saved.projFighterStates, WithFighterActive))
  }

  /** Writing the records back after switching everything off gives the fit
      back exactly as it was. */
  lemma RestoredUndoesNeutralised(s: FitState)
    ensures Restored(Neutralised(s), Snapshots(s)) == s
  {
    RestoreUndoesNeutralise(s.modules, AffectsSpeed, ModuleStateOf, WithModuleState, Online);
    RestoreUndoesNeutralise(s.projections, IsActiveLink, LinkActive, WithLinkActive, false);
    RestoreUndoesNeutralise(s.projectedModules, IsActiveProjectedModule, ProjectedModuleStateOf,
                            WithProjectedModuleState, Online);
    RestoreUndoesNeutralise(s.projectedDrones, HasActiveDrones, AmountActiveOf, WithAmountActive, 0);
    RestoreUndoesNeutralise(s.projectedFighters, IsActiveFighter, FighterActive, WithFighterActive, false);
  }

  // ---------------------------------------------------------------------
  // Neutralising and restoring one category, in place
  // ---------------------------------------------------------------------

  /** One switch-off loop of the probe: every selected entity's field is
      recorded by position and then set to the neutral value. */
  method Neutralise<E, V>(a: array<E>, selected: E -> bool, field: E -> V, update: (E, V) -> E, neutral: V)
    returns (saved: map<int, V>)
    modifies a
    ensures a[..] == NeutraliseAll(old(a[..]), selected, update, neutral)
    ensures saved == Snapshot(old(a[..]), selected, field)
  {
    saved := map[];
    for i := 0 to a.Length
      invariant forall k :: 0 <= k < i ==> a[k] == Neutral(old(a[k]), selected, update, neutral)
      invariant forall k :: i <= k < a.Length ==> a[k] == old(a[k])
      invariant forall k :: k in saved <==> 0 <= k < i && selected(old(a[k]))
      invariant forall k :: k in saved ==> saved[k] == field(old(a[k]))
    {
      if selected(a[i]) {
        saved := saved[i := field(a[i])];
        a[i] := update(a[i], neutral);
      }
    }
  }

  /** One restoring loop of the probe: every recorded field is written back. */
  method Restore<E, V>(a: array<E>, saved: map<int, V>, update: (E, V) -> E)
    modifies a
    ensures a[..] == RestoreAll(old(a[..]), saved, update)
  {
    for i := 0 to a.Length
      invariant forall k :: 0 <= k < i ==> a[k] == if k in saved then update(old(a[k]), saved[k]) else old(a[k])
      invariant forall k :: i <= k < a.Length ==> a[k] == old(a[k])
    {
      if i in saved {
        a[i] := update(a[i], saved[i]);
      }
    }
  }

  // ---------------------------------------------------------------------
  // The fit and the graph
  // ---------------------------------------------------------------------

  /** The part of a fit the probe works on. The simulation engine that
      derives the ship's maximum velocity from the entity states is `engine`;
      `recalculations` logs the state each recalculation saw. */
  class Fit {
    const id: int
    const modules: array<LocalModule>
    const projections: array<Option<ProjectionInfo>>
    const projectedModules: array<ProjectedModule>
    const projectedDrones: array<ProjectedDrone>
    const projectedFighters: array<ProjectedFighter>
    const engine: FitState -> real
    var shipMaxVelocity: real
    ghost var recalculations: seq<FitState>

    constructor (id: int, s: FitState, engine: FitState -> real, shipMaxVelocity: real)
      ensures this.id == id && this.engine == engine && this.shipMaxVelocity == shipMaxVelocity
      ensures State() == s && recalculations == []
      ensures fresh(modules) && fresh(projections) && fresh(projectedModules)
      ensures fresh(projectedDrones) && fresh(projectedFighters)
    {
      this.id := id;
      this.engine := engine;
      this.shipMaxVelocity := shipMaxVelocity;
      modules := new LocalModule[|s.modules|](k requires 0 <= k < |s.modules| => s.modules[k]);
      projections := new Option<ProjectionInfo>[|s.projections|](k requires 0 <= k < |s.projections| => s.projections[k]);
      projectedModules := new ProjectedModule[|s.projectedModules|](k requires 0 <= k < |s.projectedModules| => s.projectedModules[k]);
      projectedDrones := new ProjectedDrone[|s.projectedDrones|](k requires 0 <= k < |s.projectedDrones| => s.projectedDrones[k]);
      projectedFighters := new ProjectedFighter[|s.projectedFighters|](k requires 0 <= k < |s.projectedFighters| => s.projectedFighters[k]);
      recalculations := [];
    }

    function State(): FitState
      reads modules, projections, projectedModules, projectedDrones, projectedFighters
    {
      FitState(modules[..], projections[..], projectedModules[..], projectedDrones[..], projectedFighters[..])
    }

    /** The probe's switch-off loops, one per category: every speed-changing
        effect is turned off and its state recorded. */
    method SwitchOffSpeedEffects() returns (saved: SavedStates)
      modifies modules, projections, projectedModules, projectedDrones, projectedFighters
      ensures State() == Neutralised(old(State()))
      ensures saved == Snapshots(old(State()))
    {
      var modStates := Neutralise(modules, AffectsSpeed, ModuleStateOf, WithModuleState, Online);
      var projFitStates := Neutralise(projections, IsActiveLink, LinkActive, WithLinkActive, false);
      var projModStates := Neutralise(projectedModules, IsActiveProjectedModule, ProjectedModuleStateOf,
                                      WithProjectedModuleState, Online);
      var projDroneStates := Neutralise(projectedDrones, HasActiveDrones, AmountActiveOf, WithAmountActive, 0);
      var projFighterStates := Neutralise(projectedFighters, IsActiveFighter, FighterActive, WithFighterActive, false);
      saved := SavedStates(modStates, projFitStates, projModStates, projDroneStates, projFighterStates);
    }

    /** The probe's restoring loops, projections first as in the source. */
    method RestoreSpeedEffects(saved: SavedStates)
      modifies modules, projections, projectedModules, projectedDrones, projectedFighters
      ensures State() == Restored(old(State()), saved)
    {
      Restore(projections, saved.projFitStates, WithLinkActive);
      Restore(modules, saved.modStates, WithModuleState);
      Restore(projectedModules, saved.projModStates, WithProjectedModuleState);
      Restore(projectedDrones, saved.projDroneStates, WithAmountActive);
      Restore(projectedFighters, saved.projFighterStates, WithFighterActive);
    }

    /** Recomputes the ship's modified attributes from the current states. */
    method CalculateModifiedAttributes()
      modifies this
      ensures shipMaxVelocity == engine(State())
      ensures recalculations == old(recalculations) + [State()]
    {
      shipMaxVelocity := engine(State());
      recalculations := recalculations + [State()];
    }
  }

  /** Key of the clean sub-warp speed in a fit's calculation cache entry. */
  const CleanSubwarpSpeedKey: string := "cleanSubwarpSpeed"

  predicate HasCleanSpeed(cache: map<int, map<string, real>>, id: int)
  {
    id in cache && CleanSubwarpSpeedKey in cache[id]
  }

  class FitWarpTimeGraph {
    var calcCache: map<int, map<string, real>>

    constructor ()
      ensures calcCache == map[]
    {
      calcCache := map[];
    }

    /** The fit's sub-warp speed with every speed-changing effect off,
        measured once per fit and then taken from the cache. */
    method GetSubwarpSpeed(fit: Fit) returns (speed: real)
      modifies this, fit, fit.modules, fit.projections, fit.projectedModules, fit.projectedDrones, fit.projectedFighters
      // a hit reads the cache and changes nothing
      ensures HasCleanSpeed(old(calcCache), fit.id) ==>
        && speed == old(calcCache)[fit.id][CleanSubwarpSpeedKey]
        && calcCache == old(calcCache)
        && fit.shipMaxVelocity == old(fit.shipMaxVelocity)
        && fit.recalculations == old(fit.recalculations)
      // a miss measures the neutralised fit, caches the speed and recalculates
      // twice: once neutralised, once restored
      ensures !HasCleanSpeed(old(calcCache), fit.id) ==>
        && speed == fit.engine(Neutralised(old(fit.State())))
        && calcCache == old(calcCache)[fit.id := map[CleanSubwarpSpeedKey := speed]]
        && fit.recalculations == old(fit.recalculations) + [Neutralised(old(fit.State())), old(fit.State())]
        && fit.shipMaxVelocity == fit.engine(old(fit.State()))
      // either way every entity ends in the state it started in
      ensures fit.State() == old(fit.State())
    {
      if HasCleanSpeed(calcCache, fit.id) {
        speed := calcCache[fit.id][CleanSubwarpSpeedKey];
        return;
      }
      ghost var before := fit.State();
      var saved := fit.SwitchOffSpeedEffects();
      fit.CalculateModifiedAttributes();
      speed := fit.shipMaxVelocity;
      calcCache := calcCache[fit.id := map[CleanSubwarpSpeedKey := speed]];
      fit.RestoreSpeedEffects(saved);
      RestoredUndoesNeutralised(before);
      fit.CalculateModifiedAttributes();
    }
  }
}
