/**
 * The static catalog of js/data.js (`MasterData`): materials, vehicle parts
 * and areas. Display-only fields (part symbols, area background gradients)
 * are not part of this model.
 */
module Catalog {
  import opened Optional

  type MaterialId = string
  type PartId = string
  type AreaId = string

  datatype Material = Material(id: MaterialId, name: string)

  datatype PartType = Engine | Wheel | Frame | Booster

  /** The `synergy` descriptor a part declares; `synergy: {}` is `None`. */
  datatype Synergy = Synergy(target: PartType, mult: real)

  /** A cost as the entries of the source's cost object, in declaration order. */
  type Cost = seq<(MaterialId, real)>

  datatype Part = Part(
    id: PartId,
    name: string,
    partType: PartType,
    baseVelocity: real,
    cost: Cost,
    synergy: Option<Synergy>,
    unlockVelocity: real)

  datatype Area = Area(id: AreaId, name: string, threshold: real, primaryDrop: MaterialId)

  const Materials: seq<Material> := [
    Material("scrap", "Scrap Metal"),
    Material("rubber", "Rubber"),
    Material("circuit", "Circuit"),
    Material("plasma", "Plasma Fluid")
  ]

  /** The ids of `Materials` (see `MaterialsDeclared`). */
  const MaterialIds: set<MaterialId> := {"scrap", "rubber", "circuit", "plasma"}

  const EngineBasic := Part("engine_basic", "Rusty Engine", Engine, 10.0,
    [("scrap", 10.0)], Some(Synergy(Booster, 2.0)), 0.0)
  const EngineV2 := Part("engine_v2", "V2 Engine", Engine, 50.0,
    [("scrap", 200.0), ("rubber", 50.0)], Some(Synergy(Booster, 2.5)), 50.0)
  const WheelBasic := Part("wheel_basic", "Old Tire", Wheel, 0.0,
    [("scrap", 5.0), ("rubber", 5.0)], Some(Synergy(Frame, 1.0)), 0.0)
  const WheelRace := Part("wheel_race", "Racing Tire", Wheel, 5.0,
    [("rubber", 100.0), ("scrap", 50.0)], Some(Synergy(Frame, 1.2)), 200.0)
  const FrameBasic := Part("frame_basic", "Steel Frame", Frame, 0.0,
    [("scrap", 5.0)], None, 0.0)
  const FrameLight := Part("frame_light", "Carbon Frame", Frame, 0.0,
    [("scrap", 100.0), ("circuit", 10.0)], None, 1000.0)
  const BoosterBasic := Part("booster_basic", "Nitro Injector", Booster, 0.0,
    [("scrap", 50.0), ("circuit", 1.0)], None, 100.0)
  const BoosterPlasma := Part("booster_plasma", "Plasma Thruster", Booster, 0.0,
    [("circuit", 50.0), ("plasma", 10.0)], None, 5000.0)

  /** `Object.values(MasterData.parts)`: the parts in declaration order. */
  const PartValues: seq<Part> :=
    [EngineBasic, EngineV2, WheelBasic, WheelRace, FrameBasic, FrameLight, BoosterBasic, BoosterPlasma]

  /** `MasterData.parts`, keyed by part id. */
  const Parts: map<PartId, Part> := map[
    "engine_basic" := EngineBasic,
    "engine_v2" := EngineV2,
    "wheel_basic" := WheelBasic,
    "wheel_race" := WheelRace,
    "frame_basic" := FrameBasic,
    "frame_light" := FrameLight,
    "booster_basic" := BoosterBasic,
    "booster_plasma" := BoosterPlasma
  ]

  const Areas: seq<Area> := [
    Area("area_junkyard", "Scrap Yard", 0.0, "scrap"),
    Area("area_highway", "Abandoned Highway", 100.0, "rubber"),
    Area("area_city", "Cyber City", 2000.0, "circuit"),
    Area("area_space", "Orbital Elevator", 10000.0, "plasma")
  ]

  /** A table of parts keyed by id, as `MasterData.parts` is. */
  type PartTable = map<PartId, Part>

  /** Every engine of the table moves: its base velocity is positive. */
  predicate EnginesMove(cat: PartTable)
  {
    forall id :: id in cat && cat[id].partType == Engine ==> cat[id].baseVelocity > 0.0
  }

  /** Base and unlock velocities of the table are never negative. */
  predicate StatsNonNegative(cat: PartTable)
  {
    forall id :: id in cat ==> cat[id].baseVelocity >= 0.0 && cat[id].unlockVelocity >= 0.0
  }

  /** No material appears twice in a cost (the keys of a JavaScript object). */
  predicate DistinctKeys(c: Cost)
  {
    forall i, j :: 0 <= i < j < |c| ==> c[i].0 != c[j].0
  }

  /**
   * The facts about a part table that the game's operations rely on: stats
   * are non-negative, engines move, and every cost names declared materials
   * with positive amounts, each material at most once.
   */
  predicate WellFormed(cat: PartTable)
  {
    && StatsNonNegative(cat)
    && EnginesMove(cat)
    && (forall id :: id in cat ==> CostDeclared(cat[id].cost))
  }

  /** Every entry of a cost names a declared material with a positive amount, each material at most once. */
  predicate CostDeclared(c: Cost)
  {
    (forall k :: 0 <= k < |c| ==> c[k].0 in MaterialIds && c[k].1 > 0.0) && DistinctKeys(c)
  }

  // ---------------------------------------------------------------------
  // Facts about the catalog

  /** Every key of `parts` is the `id` of the part stored under it. */
  lemma PartKeysAreIds()
    ensures forall id :: id in Parts ==> Parts[id].id == id
  {
  }

  /** The map and the declaration-order list hold the same parts, with distinct ids. */
  lemma PartListMatchesMap()
    ensures forall i :: 0 <= i < |PartValues| ==> PartValues[i].id in Parts && Parts[PartValues[i].id] == PartValues[i]
    ensures forall id :: id in Parts ==> Parts[id] in PartValues
    ensures forall i, j :: 0 <= i < j < |PartValues| ==> PartValues[i].id != PartValues[j].id
  {
  }

  /** The table of the parts `ps`, each under its own id (the way `MasterData.parts` is written out). */
  function TableOf(ps: seq<Part>): PartTable
  {
    if ps == [] then map[] else TableOf(ps[..|ps| - 1])[ps[|ps| - 1].id := ps[|ps| - 1]]
  }

  /** `parts` is exactly the table of its declaration-order list `Object.values(parts)`. */
  lemma CatalogIsTableOfList()
    ensures TableOf(PartValues) == Parts
  {
    var ps := PartValues;
    var t: PartTable := map[];
    assert ps[..0] == [];
    t := t["engine_basic" := EngineBasic];
    TableOfPrefix(ps, 1);
    assert TableOf(ps[..1]) == t;
    t := t["engine_v2" := EngineV2];
    TableOfPrefix(ps, 2);
    assert TableOf(ps[..2]) == t;
    t := t["wheel_basic" := WheelBasic];
    TableOfPrefix(ps, 3);
    assert TableOf(ps[..3]) == t;
    t := t["wheel_race" := WheelRace];
    TableOfPrefix(ps, 4);
    assert TableOf(ps[..4]) == t;
    t := t["frame_basic" := FrameBasic];
    TableOfPrefix(ps, 5);
    assert TableOf(ps[..5]) == t;
    t := t["frame_light" := FrameLight];
    TableOfPrefix(ps, 6);
    assert TableOf(ps[..6]) == t;
    t := t["booster_basic" := BoosterBasic];
    TableOfPrefix(ps, 7);
    assert TableOf(ps[..7]) == t;
    t := t["booster_plasma" := BoosterPlasma];
    TableOfPrefix(ps, 8);
    assert TableOf(ps[..8]) == t;
    assert ps[..8] == ps;
  }

  /** Extending a prefix of the list by one part adds that part under its id. */
  lemma TableOfPrefix(ps: seq<Part>, k: nat)
    requires 0 < k <= |ps|
    ensures TableOf(ps[..k]) == TableOf(ps[..k - 1])[ps[k - 1].id := ps[k - 1]]
  {
    assert ps[..k][..k - 1] == ps[..k - 1];
  }

  /** Base and unlock velocities are never negative; every engine has a positive base velocity. */
  lemma PartStats()
    ensures StatsNonNegative(Parts)
    ensures EnginesMove(Parts)
  {
  }

  /** The types of the starter parts. */
  lemma StarterTypes()
    ensures Parts["engine_basic"].partType == Engine && Parts["wheel_basic"].partType == Wheel
    ensures Parts["frame_basic"].partType == Frame && Parts["booster_basic"].partType == Booster
  {
  }

  /** The base velocities the velocity rule is built on. */
  lemma BaseVelocities()
    ensures Parts["engine_basic"].baseVelocity == 10.0 && Parts["engine_v2"].baseVelocity == 50.0
    ensures Parts["wheel_basic"].baseVelocity == 0.0
    ensures forall id :: id in Parts && Parts[id].partType in {Frame, Booster} ==> Parts[id].baseVelocity == 0.0
  {
  }

  /** Area thresholds start at 0 and strictly ascend in list order. */
  lemma AreasAscending()
    ensures |Areas| > 0 && Areas[0].threshold == 0.0
    ensures forall i, j :: 0 <= i < j < |Areas| ==> Areas[i].threshold < Areas[j].threshold
  {
  }

  /** The material ids are those of the material list, and every area drops a declared material. */
  lemma MaterialsDeclared()
    ensures MaterialIds == set m | m in Materials :: m.id
    ensures forall i :: 0 <= i < |Areas| ==> Areas[i].primaryDrop in MaterialIds
  {
  }

  /** Every part cost names declared materials, each once, with positive amounts. */
  lemma CostsDeclared()
    ensures forall id :: id in Parts ==> CostDeclared(Parts[id].cost)
  {
    assert CostDeclared(EngineBasic.cost) && CostDeclared(EngineV2.cost);
    assert CostDeclared(WheelBasic.cost) && CostDeclared(WheelRace.cost);
    assert CostDeclared(FrameBasic.cost) && CostDeclared(FrameLight.cost);
    assert CostDeclared(BoosterBasic.cost) && CostDeclared(BoosterPlasma.cost);
    assert forall p :: p in PartValues ==> CostDeclared(p.cost);
    PartListMatchesMap();
  }

  /** The catalog's part table has every property the operations rely on. */
  lemma CatalogWellFormed()
    ensures WellFormed(Parts)
  {
    PartStats();
    CostsDeclared();
  }
}
