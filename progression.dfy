/**
 * `Game` of js/game.js: the game state, the per-tick progression step
 * (`update`), the unlock list (`checkUnlocks`) and the purchase action
 * (`buyPart`). The state fields `researched` (written by js/tech.js) and
 * `maxVelocity` (read by js/ui.js) live here too, since the source keeps
 * every field in the one `state` object.
 */
module Progression {
  import opened Optional
  import opened Catalog
  import opened BoardSpec
  import opened GridEngine
  import opened Ledger

  type TechId = string

  /** No element occurs twice. */
  predicate NoDup<T(==)>(s: seq<T>)
  {
    forall i, j :: 0 <= i < j < |s| ==> s[i] != s[j]
  }

  // ---------------------------------------------------------------------
  // Areas

  /** `areas.find(a => a.id === id)`: the first area with that id. */
  function FindArea(areas: seq<Area>, id: AreaId): (r: Option<Area>)
    ensures r.Some? ==> r.value in areas && r.value.id == id
    ensures r.None? ==> forall i :: 0 <= i < |areas| ==> areas[i].id != id
  {
    if areas == [] then None
    else if areas[0].id == id then Some(areas[0])
    else FindArea(areas[1..], id)
  }

  /** `areas.slice().reverse().find(a => v >= a.threshold)`: the last area in list order whose threshold `v` reaches. */
  function LastReachable(areas: seq<Area>, v: real): Option<Area>
  {
    if areas == [] then None
    else if v >= areas[|areas| - 1].threshold then Some(areas[|areas| - 1])
    else LastReachable(areas[..|areas| - 1], v)
  }

  /** Area `i` is reached by `v` and no later area is. */
  predicate LastReachedAt(areas: seq<Area>, v: real, i: int)
  {
    0 <= i < |areas| && areas[i].threshold <= v && forall j :: i < j < |areas| ==> areas[j].threshold > v
  }

  /**
   * `LastReachable` finds an area exactly when some area is reached, and it
   * is the last one reached: the one at index `i`.
   */
  lemma {:induction false} LastReachableSpec(areas: seq<Area>, v: real) returns (i: int)
    ensures LastReachable(areas, v).None? <==> forall j :: 0 <= j < |areas| ==> areas[j].threshold > v
    ensures LastReachable(areas, v).Some? ==> LastReachedAt(areas, v, i) && areas[i] == LastReachable(areas, v).value
  {
    i := -1;
    if areas != [] {
      var n := |areas| - 1;
      var init := areas[..n];
      if v < areas[n].threshold {
        assert LastReachable(areas, v) == LastReachable(init, v);
        i := LastReachableSpec(init, v);
        if LastReachable(init, v).Some? {
          assert init[i] == areas[i];
          assert LastReachedAt(areas, v, i);
        } else {
          forall j | 0 <= j < |areas|
            ensures areas[j].threshold > v
          {
            if j < n {
              assert init[j] == areas[j];
            }
          }
        }
      } else {
        i := n;
        assert LastReachedAt(areas, v, n);
      }
    }
  }

  /**
   * Because the thresholds of the catalog start at 0 and ascend, every
   * non-negative velocity selects an area, and it is the reached area with
   * the highest threshold.
   */
  lemma HighestReachable(v: real)
    requires v >= 0.0
    ensures LastReachable(Areas, v).Some?
    ensures LastReachable(Areas, v).value in Areas && LastReachable(Areas, v).value.threshold <= v
    ensures forall j :: 0 <= j < |Areas| && Areas[j].threshold <= v ==> Areas[j].threshold <= LastReachable(Areas, v).value.threshold
  {
    AreasAscending();
    var i := LastReachableSpec(Areas, v);
  }

  /** A higher velocity never selects an area with a lower threshold. */
  lemma ReachableMonotone(v1: real, v2: real)
    requires 0.0 <= v1 <= v2
    ensures LastReachable(Areas, v1).Some? && LastReachable(Areas, v2).Some?
    ensures LastReachable(Areas, v1).value.threshold <= LastReachable(Areas, v2).value.threshold
  {
    HighestReachable(v1);
    HighestReachable(v2);
    var a := LastReachable(Areas, v1).value;
    var j :| 0 <= j < |Areas| && Areas[j] == a;
    assert Areas[j].threshold <= v2;
  }

  /** The selection follows the current velocity both ways: it moves up past a threshold and back down below it. */
  lemma AreaFollowsVelocity()
    ensures LastReachable(Areas, 0.0) == Some(Areas[0]) && Areas[0].id == "area_junkyard"
    ensures LastReachable(Areas, 150.0) == Some(Areas[1]) && Areas[1].id == "area_highway"
    ensures LastReachable(Areas, 50.0) == Some(Areas[0])
    ensures LastReachable(Areas, 10000.0) == Some(Areas[3]) && Areas[3].id == "area_space"
  {
    assert Areas[..3][..2] == Areas[..2] && Areas[..2][..1] == Areas[..1];
    assert LastReachable(Areas[..1], 0.0) == Some(Areas[0]);
    assert LastReachable(Areas, 0.0) == LastReachable(Areas[..3], 0.0) == LastReachable(Areas[..2], 0.0) == LastReachable(Areas[..1], 0.0);
    assert LastReachable(Areas[..1], 50.0) == Some(Areas[0]);
    assert LastReachable(Areas, 50.0) == LastReachable(Areas[..3], 50.0) == LastReachable(Areas[..2], 50.0) == LastReachable(Areas[..1], 50.0);
  }

  // ---------------------------------------------------------------------
  // The resource drip of `update`

  /** The amount added per tick: 0.5 per second, scaled by `1 + v * 0.01`. */
  function DropAmount(v: real, dt: real): real
  {
    0.5 * (1.0 + v * 0.01) * dt
  }

  /** The material that receives the drip: the current area's primary drop, when the vehicle moves and the area exists. */
  function DropTarget(areaId: AreaId, v: real): (m: Option<MaterialId>)
    ensures m.Some? ==> v > 0.0 && m.value in MaterialIds
    ensures m.None? ==> v <= 0.0 || forall i :: 0 <= i < |Areas| ==> Areas[i].id != areaId
  {
    MaterialsDeclared();
    if v > 0.0 then
      match FindArea(Areas, areaId)
      case Some(a) => Some(a.primaryDrop)
      case None => None
    else None
  }

  /** The drip never takes anything away from a moving vehicle over a non-negative tick. */
  lemma DropAmountNonNegative(v: real, dt: real)
    requires v >= 0.0 && dt >= 0.0
    ensures DropAmount(v, dt) >= 0.0
  {
    var rate := 0.5 * (1.0 + v * 0.01);
    assert rate > 0.0;
    assert rate * dt >= 0.0;
  }

  /** The ledger after step 3 of `update`: the drip added to the drop target, if any. */
  function Dripped(r: Resources, areaId: AreaId, v: real, dt: real): (r': Resources)
    requires Ledgered(r)
    ensures r'.Keys == r.Keys
    ensures forall m :: m in r ==> r'[m] == r[m] + (if DropTarget(areaId, v) == Some(m) then DropAmount(v, dt) else 0.0)
  {
    match DropTarget(areaId, v)
    case Some(m) => r[m := r[m] + DropAmount(v, dt)]
    case None => r
  }

  /** Over a non-negative tick at a non-negative velocity, the drip keeps a solvent ledger solvent. */
  lemma DrippedSolvent(r: Resources, areaId: AreaId, v: real, dt: real)
    requires Ledgered(r) && Solvent(r) && v >= 0.0 && dt >= 0.0
    ensures Solvent(Dripped(r, areaId, v, dt))
  {
    DropAmountNonNegative(v, dt);
  }

  // ---------------------------------------------------------------------
  // Unlocks

  /** Some part of `ps` with id `x` unlocks at or below `v`. */
  predicate Eligible(ps: seq<Part>, v: real, x: PartId)
  {
    exists i :: 0 <= i < |ps| && ps[i].id == x && ps[i].unlockVelocity <= v
  }

  /** The unlock loop over the parts `ps` in order: each eligible part not yet present is appended. */
  function UnlockFold(u: seq<PartId>, ps: seq<Part>, v: real): seq<PartId>
  {
    if ps == [] then u
    else
      var u' := UnlockFold(u, ps[..|ps| - 1], v);
      var p := ps[|ps| - 1];
      if p.unlockVelocity <= v && p.id !in u' then u' + [p.id] else u'
  }

  /** The unlock list only grows: the old list is a prefix of the new one. */
  lemma {:induction false} UnlockFoldExtends(u: seq<PartId>, ps: seq<Part>, v: real)
    ensures |u| <= |UnlockFold(u, ps, v)| && UnlockFold(u, ps, v)[..|u|] == u
  {
    if ps != [] {
      UnlockFoldExtends(u, ps[..|ps| - 1], v);
    }
  }

  /** After the loop, an id is unlocked exactly when it was before or some part of `ps` with that id is eligible. */
  lemma {:induction false} UnlockFoldMembers(u: seq<PartId>, ps: seq<Part>, v: real)
    ensures forall x :: x in UnlockFold(u, ps, v) <==> x in u || Eligible(ps, v, x)
  {
    if ps != [] {
      var n := |ps| - 1;
      UnlockFoldMembers(u, ps[..n], v);
      forall x
        ensures x in UnlockFold(u, ps, v) <==> x in u || Eligible(ps, v, x)
      {
        if Eligible(ps, v, x) && x !in u {
          var i :| 0 <= i < |ps| && ps[i].id == x && ps[i].unlockVelocity <= v;
          if i < n {
            assert ps[..n][i] == ps[i];
          }
        }
        if Eligible(ps[..n], v, x) {
          var i :| 0 <= i < n && ps[..n][i].id == x && ps[..n][i].unlockVelocity <= v;
          assert ps[i] == ps[..n][i];
        }
      }
    }
  }

  /** The loop never adds an id twice. */
  lemma {:induction false} UnlockFoldNoDup(u: seq<PartId>, ps: seq<Part>, v: real)
    requires NoDup(u)
    ensures NoDup(UnlockFold(u, ps, v))
  {
    if ps != [] {
      UnlockFoldNoDup(u, ps[..|ps| - 1], v);
    }
  }

  /** The loop changes nothing when every eligible part is already unlocked. */
  lemma {:induction false} UnlockFoldSaturated(u: seq<PartId>, ps: seq<Part>, v: real)
    requires forall i :: 0 <= i < |ps| && ps[i].unlockVelocity <= v ==> ps[i].id in u
    ensures UnlockFold(u, ps, v) == u
  {
    if ps != [] {
      UnlockFoldSaturated(u, ps[..|ps| - 1], v);
    }
  }

  /** A second unlock pass at the same velocity changes nothing. */
  lemma UnlockFoldIdempotent(u: seq<PartId>, ps: seq<Part>, v: real)
    ensures UnlockFold(UnlockFold(u, ps, v), ps, v) == UnlockFold(u, ps, v)
  {
    UnlockFoldMembers(u, ps, v);
    var r := UnlockFold(u, ps, v);
    forall i | 0 <= i < |ps| && ps[i].unlockVelocity <= v
      ensures ps[i].id in r
    {
      assert Eligible(ps, v, ps[i].id);
    }
    UnlockFoldSaturated(r, ps, v);
  }

  // ---------------------------------------------------------------------
  // The progression step

  /** The part of the game state that `update` changes. */
  datatype Progress = Progress(
    velocity: real,
    distance: real,
    resources: Resources,
    currentAreaId: AreaId,
    unlocks: seq<PartId>)

  /**
   * `update(dt)` for a board of velocity `v`: the velocity is taken over,
   * the distance grows by `v * dt`, the area held before the step receives
   * the drip, the area becomes the last one `v` reaches (unchanged when no
   * area is reached), and the unlock loop runs at `v`.
   */
  function Tick(p: Progress, v: real, dt: real): Progress
    requires Ledgered(p.resources)
  {
    Progress(
      v,
      p.distance + v * dt,
      Dripped(p.resources, p.currentAreaId, v, dt),
      match LastReachable(Areas, v) case Some(a) => a.id case None => p.currentAreaId,
      UnlockFold(p.unlocks, PartValues, v))
  }

  /** A progress whose fields are the ones a tick computes is that tick. */
  lemma TickFields(p: Progress, v: real, dt: real, q: Progress)
    requires Ledgered(p.resources) && v >= 0.0
    requires q.velocity == v && q.distance == p.distance + v * dt
    requires q.resources == Dripped(p.resources, p.currentAreaId, v, dt)
    requires LastReachable(Areas, v).Some? && q.currentAreaId == LastReachable(Areas, v).value.id
    requires q.unlocks == UnlockFold(p.unlocks, PartValues, v)
    ensures q == Tick(p, v, dt)
  {
  }

  /** Over a non-negative tick the distance never decreases and a solvent ledger stays solvent. */
  lemma TickMonotone(p: Progress, v: real, dt: real)
    requires Ledgered(p.resources) && v >= 0.0 && dt >= 0.0
    ensures Tick(p, v, dt).distance >= p.distance
    ensures Solvent(p.resources) ==> Solvent(Tick(p, v, dt).resources)
  {
    assert v * dt >= 0.0;
    if Solvent(p.resources) {
      DrippedSolvent(p.resources, p.currentAreaId, v, dt);
    }
  }

  /**
   * After a tick at a non-negative velocity the current area is a catalog
   * area that the velocity reaches, with the highest threshold among those.
   */
  lemma TickArea(p: Progress, v: real, dt: real)
    requires Ledgered(p.resources) && v >= 0.0
    ensures exists i :: (0 <= i < |Areas| && Areas[i].id == Tick(p, v, dt).currentAreaId && Areas[i].threshold <= v
      && forall j :: 0 <= j < |Areas| && Areas[j].threshold <= v ==> Areas[j].threshold <= Areas[i].threshold)
  {
    HighestReachable(v);
    var a := LastReachable(Areas, v).value;
    var i :| 0 <= i < |Areas| && Areas[i] == a;
    assert Areas[i].id == Tick(p, v, dt).currentAreaId;
  }

  /**
   * A tick keeps the old unlock list as a prefix, never duplicates an id,
   * and afterwards every part whose unlock velocity `v` reaches is unlocked.
   */
  lemma TickUnlocks(p: Progress, v: real, dt: real)
    requires Ledgered(p.resources) && NoDup(p.unlocks)
    ensures |p.unlocks| <= |Tick(p, v, dt).unlocks| && Tick(p, v, dt).unlocks[..|p.unlocks|] == p.unlocks
    ensures NoDup(Tick(p, v, dt).unlocks)
    ensures forall x :: x in Tick(p, v, dt).unlocks <==> x in p.unlocks || Eligible(PartValues, v, x)
  {
    UnlockFoldExtends(p.unlocks, PartValues, v);
    UnlockFoldNoDup(p.unlocks, PartValues, v);
    UnlockFoldMembers(p.unlocks, PartValues, v);
  }

  // ---------------------------------------------------------------------
  // The game

  class Game {
    var velocity: real
    var distance: real
    var resources: Resources
    var unlocks: seq<PartId>
    var currentAreaId: AreaId
    var inventory: seq<PartId>
    /** Created by the research manager when absent. */
    var researched: Option<seq<TechId>>
    /** Read by the area list; nothing in the game writes it. */
    var maxVelocity: Option<real>
    /** The part table the game reads (`MasterData.parts`). */
    const parts: PartTable
    const grid: Grid

    /**
     * The board half of the state every modelled operation keeps: the table
     * is the one `Object.values(parts)` lists (so it is `Parts`, by
     * `CatalogIsTableOfList`), and the board is filled and names only its parts.
     */
    ghost predicate Catalogued()
      reads grid, grid.cells
    {
      && parts == TableOf(PartValues)
      && WellFormed(parts)
      && grid.parts == parts
      && grid.Valid()
      && CatalogOnly(parts, grid.Contents())
    }

    /**
     * The state every modelled operation keeps: the board is catalogued, the
     * inventory names only catalog parts, every catalog material has a
     * ledger entry, and no part is unlocked twice.
     */
    ghost predicate Valid()
      reads this, grid, grid.cells
    {
      && Catalogued()
      && (forall i :: 0 <= i < |inventory| ==> inventory[i] in parts)
      && Ledgered(resources)
      && NoDup(unlocks)
    }

    /** `constructor`: the initial state, before the board is filled by `init`. */
    constructor ()
      ensures velocity == 0.0 && distance == 0.0
      ensures resources.Keys == MaterialIds && forall m :: m in resources ==> resources[m] == 0.0
      ensures unlocks == ["engine_basic", "wheel_basic", "frame_basic", "booster_basic"]
      ensures currentAreaId == "area_junkyard"
      ensures inventory == ["engine_basic", "wheel_basic", "frame_basic"]
      ensures researched == None && maxVelocity == None
      ensures parts == Parts && fresh(grid) && grid.parts == Parts && fresh(grid.cells) && grid.cells.Length0 == 0
    {
      parts := Parts;
      velocity := 0.0;
      distance := 0.0;
      var r: Resources := map["scrap" := 0.0, "rubber" := 0.0, "circuit" := 0.0];
      currentAreaId := "area_junkyard";
      inventory := ["engine_basic", "wheel_basic", "frame_basic"];
      grid := new Grid(Parts);
      for i := 0 to |Materials|
        invariant r.Keys == {"scrap", "rubber", "circuit"} + set j | 0 <= j < i :: Materials[j].id
        invariant forall m :: m in r ==> r[m] == 0.0
      {
        r := r[Materials[i].id := 0.0];
      }
      assert Materials[3].id in r.Keys;
      resources := r;
      unlocks := ["engine_basic", "wheel_basic", "frame_basic", "booster_basic"];
      researched := None;
      maxVelocity := None;
    }

    /** The board part of `init`: fill the fresh board, after which the state is valid. */
    method Init()
      requires grid.cells.Length0 == 0 && grid.parts == parts && parts == Parts
      requires Ledgered(resources) && NoDup(unlocks) && forall i :: 0 <= i < |inventory| ==> inventory[i] in parts
      modifies grid
      ensures Valid() && grid.Contents() == EmptyBoard() && fresh(grid.cells)
    {
      CatalogWellFormed();
      CatalogIsTableOfList();
      grid.Init();
    }

    /** `checkUnlocks`: append every part, in catalog order, that the current velocity unlocks and that is not yet unlocked. */
    method CheckUnlocks()
      requires Valid()
      modifies this
      ensures Valid()
      ensures unlocks == UnlockFold(old(unlocks), PartValues, velocity)
      ensures velocity == old(velocity) && distance == old(distance) && resources == old(resources)
      ensures currentAreaId == old(currentAreaId) && inventory == old(inventory)
      ensures researched == old(researched) && maxVelocity == old(maxVelocity)
    {
      for i := 0 to |PartValues|
        invariant unlocks == UnlockFold(old(unlocks), PartValues[..i], velocity)
        invariant velocity == old(velocity) && distance == old(distance) && resources == old(resources)
        invariant currentAreaId == old(currentAreaId) && inventory == old(inventory)
        invariant researched == old(researched) && maxVelocity == old(maxVelocity)
      {
        var part := PartValues[i];
        assert PartValues[..i + 1][..i] == PartValues[..i];
        if part.unlockVelocity <= velocity {
          if part.id !in unlocks {
            unlocks := unlocks + [part.id];
          }
        }
      }
      assert PartValues[..|PartValues|] == PartValues;
      UnlockFoldNoDup(old(unlocks), PartValues, velocity);
    }

    /** The fields `update` changes. */
    ghost function Snapshot(): Progress
      reads this
    {
      Progress(velocity, distance, resources, currentAreaId, unlocks)
    }

    /**
     * `update(dt)`: take the board's velocity, advance the distance, drip
     * the current area's primary drop, select the area the velocity reaches
     * and unlock what it unlocks.
     */
    method Update(dt: real)
      requires Valid()
      modifies this
      ensures Valid() && Resolvable(parts, grid.Contents())
      ensures Snapshot() == Tick(old(Snapshot()), Velocity(parts, grid.Contents()), dt)
      ensures velocity >= 0.0 && (velocity == 0.0 <==> forall k :: 0 <= k < 100 ==> !EngineAt(parts, grid.Contents(), k))
      ensures inventory == old(inventory) && researched == old(researched) && maxVelocity == old(maxVelocity)
    {
      ghost var before := Snapshot();
      Advance(dt);
      ghost var board := grid.Contents();
      Settle(dt);
      assert grid.Contents() == board;
      TickFields(before, velocity, dt, Snapshot());
    }

    /** Steps 3 to 5 of `update`, at the velocity step 1 took: drip, select the area, unlock. */
    method Settle(dt: real)
      requires Valid() && velocity >= 0.0
      modifies this
      ensures Valid()
      ensures resources == Dripped(old(resources), old(currentAreaId), velocity, dt)
      ensures LastReachable(Areas, velocity).Some? && currentAreaId == LastReachable(Areas, velocity).value.id
      ensures unlocks == UnlockFold(old(unlocks), PartValues, velocity)
      ensures velocity == old(velocity) && distance == old(distance)
      ensures inventory == old(inventory) && researched == old(researched) && maxVelocity == old(maxVelocity)
    {
      Drip(dt);
      SelectArea();
      CheckUnlocks();
    }

    /** Steps 1 and 2 of `update`: the velocity is the board's, and the distance grows by velocity times `dt`. */
    method Advance(dt: real)
      requires Valid()
      modifies this
      ensures Valid()
      ensures Resolvable(parts, grid.Contents()) && velocity == Velocity(parts, grid.Contents()) && velocity >= 0.0
      ensures velocity == 0.0 <==> forall k :: 0 <= k < 100 ==> !EngineAt(parts, grid.Contents(), k)
      ensures distance == old(distance) + velocity * dt
      ensures resources == old(resources) && unlocks == old(unlocks) && currentAreaId == old(currentAreaId)
      ensures inventory == old(inventory) && researched == old(researched) && maxVelocity == old(maxVelocity)
    {
      CatalogOnlyIsResolvable(parts, grid.Contents());
      var currentVelocity := grid.GetVelocity();
      velocity := currentVelocity;
      distance := distance + velocity * dt;
    }

    /** Step 4 of `update`: the current area becomes the last one, in list order, whose threshold the velocity reaches. */
    method SelectArea()
      requires Valid() && velocity >= 0.0
      modifies this
      ensures Valid()
      ensures LastReachable(Areas, velocity).Some? && currentAreaId == LastReachable(Areas, velocity).value.id
      ensures velocity == old(velocity) && distance == old(distance) && resources == old(resources) && unlocks == old(unlocks)
      ensures inventory == old(inventory) && researched == old(researched) && maxVelocity == old(maxVelocity)
    {
      var nextArea := LastReachable(Areas, velocity);
      HighestReachable(velocity);
      if nextArea.Some? && currentAreaId != nextArea.value.id {
        currentAreaId := nextArea.value.id;
      }
    }

    /** Step 3 of `update`: a moving vehicle collects the current area's primary drop. */
    method Drip(dt: real)
      requires Valid() && velocity >= 0.0
      modifies this
      ensures Valid()
      ensures resources == Dripped(old(resources), currentAreaId, velocity, dt)
      ensures velocity == old(velocity) && distance == old(distance) && unlocks == old(unlocks)
      ensures currentAreaId == old(currentAreaId) && inventory == old(inventory)
      ensures researched == old(researched) && maxVelocity == old(maxVelocity)
    {
      if velocity > 0.0 {
        var area := FindArea(Areas, currentAreaId);
        if area.Some? {
          var amount := DropAmount(velocity, dt);
          var drop := area.value.primaryDrop;
          assert DropTarget(currentAreaId, velocity) == Some(drop);
          resources := resources[drop := resources[drop] + amount];
        }
      }
    }

    /**
     * `buyPart(partId)`: an unknown id, or a cost entry above the held
     * amount, changes nothing; otherwise every cost entry is debited and the
     * part is appended to the inventory.
     */
    method BuyPart(partId: PartId)
      requires Valid()
      modifies this
      ensures Valid()
      ensures partId !in parts ==> resources == old(resources) && inventory == old(inventory)
      ensures partId in parts && !Covers(old(resources), parts[partId].cost) ==>
        resources == old(resources) && inventory == old(inventory)
      ensures partId in parts && Covers(old(resources), parts[partId].cost) ==>
        resources == Debit(old(resources), parts[partId].cost) && inventory == old(inventory) + [partId]
      ensures Solvent(old(resources)) ==> Solvent(resources)
      ensures velocity == old(velocity) && distance == old(distance) && unlocks == old(unlocks)
      ensures currentAreaId == old(currentAreaId) && researched == old(researched) && maxVelocity == old(maxVelocity)
    {
      if partId !in parts {
        return;
      }
      var partDef := parts[partId];
      assert Payable(resources, partDef.cost) && DistinctKeys(partDef.cost);
      var enough := Affords(partDef.cost);
      if !enough {
        return;
      }
      if Solvent(resources) {
        DebitSolvent(resources, partDef.cost);
      }
      Deduct(partDef.cost);
      inventory := inventory + [partId];
    }

    /** The check loop of `buyPart`: false as soon as an entry exceeds the held amount. */
    method Affords(cost: Cost) returns (enough: bool)
      requires Payable(resources, cost)
      ensures enough == Covers(resources, cost)
    {
      for i := 0 to |cost|
        invariant forall j :: 0 <= j < i ==> resources[cost[j].0] >= cost[j].1
      {
        var (resId, amount) := cost[i];
        if resources[resId] < amount {
          return false;
        }
      }
      return true;
    }

    /** The deduction loop of `buyPart`: every cost entry, in order, subtracted from its material. */
    method Deduct(cost: Cost)
      requires Payable(resources, cost)
      modifies this
      ensures resources == Debit(old(resources), cost)
      ensures velocity == old(velocity) && distance == old(distance) && unlocks == old(unlocks)
      ensures currentAreaId == old(currentAreaId) && inventory == old(inventory)
      ensures researched == old(researched) && maxVelocity == old(maxVelocity)
    {
      for i := 0 to |cost|
        invariant resources.Keys == old(resources).Keys
        invariant resources == Debit(old(resources), cost[..i])
        invariant velocity == old(velocity) && distance == old(distance) && unlocks == old(unlocks)
        invariant currentAreaId == old(currentAreaId) && inventory == old(inventory)
        invariant researched == old(researched) && maxVelocity == old(maxVelocity)
      {
        var (resId, amount) := cost[i];
        assert cost[..i + 1][..i] == cost[..i];
        resources := resources[resId := resources[resId] - amount];
      }
      assert cost[..|cost|] == cost;
    }
  }
}
