/**
 * `TechManager` of js/tech.js: the research action, gated by prerequisites
 * and cost, that debits the ledger all-or-nothing and appends to the
 * append-only list `state.researched`, and the four queries that fold the
 * researched effects. The tech catalog (`MasterData.techs`) is not part of
 * the static data, so it is a parameter of the manager.
 */
module Research {
  import opened Optional
  import opened Catalog
  import opened Ledger
  import opened Progression

  datatype EffectType = EngineMult | BoosterBuff | GlobalMult | CostReduc | OtherEffect(name: string)

  /** A tech's effect; `target` is the part a cost reduction applies to. */
  datatype Effect = Effect(effectType: EffectType, value: real, target: Option<PartId>)

  /** A tech; an absent prerequisite list is the empty list. */
  datatype Tech = Tech(cost: Cost, req: seq<TechId>, effect: Option<Effect>)

  type TechTable = map<TechId, Tech>

  /** Every tech's cost lists each material at most once, with a positive amount. */
  predicate WellFormedTechs(techs: TechTable)
  {
    forall id :: id in techs ==>
      DistinctKeys(techs[id].cost) && forall i :: 0 <= i < |techs[id].cost| ==> techs[id].cost[i].1 > 0.0
  }

  /** Every id of the list names a tech of the table. */
  predicate Known(techs: TechTable, ids: seq<TechId>)
  {
    forall i :: 0 <= i < |ids| ==> ids[i] in techs
  }

  /** The held amount of a material, a missing entry counting as 0. */
  function Held(r: Resources, m: MaterialId): real
  {
    if m in r then r[m] else 0.0
  }

  /**
   * `canResearch`: the tech is not yet researched, is in the table, all its
   * prerequisites are researched, and every cost entry is held.
   */
  predicate Researchable(researched: seq<TechId>, r: Resources, techs: TechTable, id: TechId)
  {
    && id !in researched
    && id in techs
    && (forall q :: q in techs[id].req ==> q in researched)
    && (forall i :: 0 <= i < |techs[id].cost| ==> Held(r, techs[id].cost[i].0) >= techs[id].cost[i].1)
  }

  /** With positive amounts, a researchable tech's cost can be debited: every material it names is held. */
  lemma ResearchablePayable(researched: seq<TechId>, r: Resources, techs: TechTable, id: TechId)
    requires WellFormedTechs(techs) && Researchable(researched, r, techs, id)
    ensures Payable(r, techs[id].cost) && Covers(r, techs[id].cost) && DistinctKeys(techs[id].cost)
  {
    var c := techs[id].cost;
    forall i | 0 <= i < |c|
      ensures c[i].0 in r
    {
      assert Held(r, c[i].0) >= c[i].1 > 0.0;
    }
  }

  // ---------------------------------------------------------------------
  // Effect queries

  /** The four effect queries; a cost reduction is asked for one part. */
  datatype Query = EngineQuery | BoosterQuery | GlobalQuery | CostQuery(part: PartId)

  /** The effect answers the query. */
  predicate Selects(q: Query, e: Effect)
  {
    match q
    case EngineQuery => e.effectType == EngineMult
    case BoosterQuery => e.effectType == BoosterBuff
    case GlobalQuery => e.effectType == GlobalMult
    case CostQuery(p) => e.effectType == CostReduc && e.target == Some(p)
  }

  /** The booster bonus is a sum starting at 0; the other three are products starting at 1. */
  function Unit(q: Query): real
  {
    if q.BoosterQuery? then 0.0 else 1.0
  }

  function Combine(q: Query, acc: real, x: real): real
  {
    if q.BoosterQuery? then acc + x else acc * x
  }

  /** The tech contributes to the query. */
  predicate Matches(techs: TechTable, q: Query, id: TechId)
    requires id in techs
  {
    techs[id].effect.Some? && Selects(q, techs[id].effect.value)
  }

  /** The query's fold over the researched list, in list order. */
  function Aggregate(techs: TechTable, ids: seq<TechId>, q: Query): real
    requires Known(techs, ids)
  {
    if ids == [] then Unit(q)
    else
      var t := ids[|ids| - 1];
      var acc := Aggregate(techs, ids[..|ids| - 1], q);
      if Matches(techs, q, t) then Combine(q, acc, techs[t].effect.value.value) else acc
  }

  /** The answer when no researched tech matches: 1.0 for a product, 0.0 for the sum. */
  lemma {:induction false} AggregateNoMatch(techs: TechTable, ids: seq<TechId>, q: Query)
    requires Known(techs, ids)
    requires forall i :: 0 <= i < |ids| ==> !Matches(techs, q, ids[i])
    ensures Aggregate(techs, ids, q) == Unit(q)
  {
    if ids != [] {
      AggregateNoMatch(techs, ids[..|ids| - 1], q);
    }
  }

  /** Researching one more tech combines its value into the answer when it matches, and leaves the answer otherwise. */
  lemma AggregateAppend(techs: TechTable, ids: seq<TechId>, t: TechId, q: Query)
    requires Known(techs, ids) && t in techs
    ensures Known(techs, ids + [t])
    ensures Aggregate(techs, ids + [t], q) ==
      if Matches(techs, q, t) then Combine(q, Aggregate(techs, ids, q), techs[t].effect.value.value) else Aggregate(techs, ids, q)
  {
    assert (ids + [t])[..|ids|] == ids;
  }

  /** Combining two values in either order gives the same answer. */
  lemma CombineSwap(q: Query, a: real, x: real, y: real)
    ensures Combine(q, Combine(q, a, x), y) == Combine(q, Combine(q, a, y), x)
  {
    if !q.BoosterQuery? {
      assert (a * x) * y == (a * y) * x;
    }
  }

  /** Taking one tech out of the list and combining it last gives the same answer. */
  lemma {:induction false} AggregateRemove(techs: TechTable, ids: seq<TechId>, j: int, q: Query)
    requires Known(techs, ids) && 0 <= j < |ids|
    ensures Known(techs, ids[..j] + ids[j + 1..])
    ensures Aggregate(techs, ids, q) ==
      var rest := Aggregate(techs, ids[..j] + ids[j + 1..], q);
      if Matches(techs, q, ids[j]) then Combine(q, rest, techs[ids[j]].effect.value.value) else rest
  {
    var n := |ids| - 1;
    if j == n {
      assert ids[..j] + ids[j + 1..] == ids[..n];
    } else {
      var front := ids[..n];
      AggregateRemove(techs, front, j, q);
      var shorter := front[..j] + front[j + 1..];
      assert ids[..j] + ids[j + 1..] == shorter + [ids[n]];
      AggregateAppend(techs, shorter, ids[n], q);
      var r := Aggregate(techs, shorter, q);
      if Matches(techs, q, ids[j]) && Matches(techs, q, ids[n]) {
        CombineSwap(q, r, techs[ids[j]].effect.value.value, techs[ids[n]].effect.value.value);
      }
    }
  }

  /** Taking element `j` out of a list takes one occurrence of it out of the list's multiset. */
  lemma MultisetWithout<T>(s: seq<T>, j: int)
    requires 0 <= j < |s|
    ensures multiset(s[..j] + s[j + 1..]) + multiset{s[j]} == multiset(s)
  {
    assert s == s[..j] + [s[j]] + s[j + 1..];
  }

  lemma MultisetCancel<T>(a: multiset<T>, b: multiset<T>, t: T)
    requires a + multiset{t} == b + multiset{t}
    ensures a == b
  {
    assert forall x :: a[x] == (a + multiset{t})[x] - multiset{t}[x];
  }

  /** Every answer is independent of the order of the researched list. */
  lemma {:induction false} AggregatePermutation(techs: TechTable, ids1: seq<TechId>, ids2: seq<TechId>, q: Query)
    requires Known(techs, ids1) && Known(techs, ids2) && multiset(ids1) == multiset(ids2)
    ensures Aggregate(techs, ids1, q) == Aggregate(techs, ids2, q)
    decreases |ids1|
  {
    if ids1 != [] {
      var n := |ids1| - 1;
      var t := ids1[n];
      assert ids1 == ids1[..n] + [t];
      assert t in multiset(ids2);
      var j :| 0 <= j < |ids2| && ids2[j] == t;
      var rest2 := ids2[..j] + ids2[j + 1..];
      MultisetWithout(ids2, j);
      MultisetCancel(multiset(ids1[..n]), multiset(rest2), t);
      AggregateRemove(techs, ids2, j, q);
      AggregatePermutation(techs, ids1[..n], rest2, q);
    } else {
      assert |multiset(ids2)| == 0;
    }
  }

  /** Products of positive matching values are positive; sums of non-negative values are non-negative. */
  lemma {:induction false} AggregateSign(techs: TechTable, ids: seq<TechId>, q: Query)
    requires Known(techs, ids)
    requires forall i :: 0 <= i < |ids| && Matches(techs, q, ids[i]) ==> techs[ids[i]].effect.value.value > 0.0
    ensures q.BoosterQuery? ==> Aggregate(techs, ids, q) >= 0.0
    ensures !q.BoosterQuery? ==> Aggregate(techs, ids, q) > 0.0
  {
    if ids != [] {
      AggregateSign(techs, ids[..|ids| - 1], q);
    }
  }

  // ---------------------------------------------------------------------
  // The manager

  class TechManager {
    const game: Game
    /** `MasterData.techs`. */
    const techs: TechTable

    /** `constructor`: create the researched list when the state has none, and keep an existing one. */
    constructor (game: Game, techs: TechTable)
      modifies game
      ensures this.game == game && this.techs == techs
      ensures game.researched == if old(game.researched).None? then Some([]) else old(game.researched)
      ensures game.Snapshot() == old(game.Snapshot()) && game.inventory == old(game.inventory)
      ensures game.maxVelocity == old(game.maxVelocity)
    {
      this.game := game;
      this.techs := techs;
      new;
      if game.researched.None? {
        game.researched := Some([]);
      }
    }

    /** `canResearch`: the early-return checks, in the source's order. */
    method CanResearch(techId: TechId) returns (ok: bool)
      requires game.researched.Some?
      ensures ok == Researchable(game.researched.value, game.resources, techs, techId)
    {
      var researched := game.researched.value;
      if techId in researched {
        return false;
      }
      if techId !in techs {
        return false;
      }
      var tech := techs[techId];
      if |tech.req| > 0 {
        for i := 0 to |tech.req|
          invariant forall j :: 0 <= j < i ==> tech.req[j] in researched
        {
          if tech.req[i] !in researched {
            return false;
          }
        }
      }
      for i := 0 to |tech.cost|
        invariant forall j :: 0 <= j < i ==> Held(game.resources, tech.cost[j].0) >= tech.cost[j].1
      {
        var (resId, cost) := tech.cost[i];
        var held := if resId in game.resources then game.resources[resId] else 0.0;
        if held < cost {
          return false;
        }
      }
      return true;
    }

    /**
     * `doResearch`: when the tech cannot be researched nothing changes;
     * otherwise every cost entry is debited and the id is appended once, after
     * which the same tech can no longer be researched.
     */
    method DoResearch(techId: TechId) returns (ok: bool)
      requires game.researched.Some? && WellFormedTechs(techs)
      modifies game
      ensures game.researched.Some?
      ensures ok == old(Researchable(game.researched.value, game.resources, techs, techId))
      ensures !ok ==> game.resources == old(game.resources) && game.researched == old(game.researched)
      ensures ok ==> techId in techs && Payable(old(game.resources), techs[techId].cost)
      ensures ok ==> game.resources == Debit(old(game.resources), techs[techId].cost)
      ensures ok ==> game.researched.value == old(game.researched.value) + [techId]
      ensures ok ==> !Researchable(game.researched.value, game.resources, techs, techId)
      ensures NoDup(old(game.researched.value)) ==> NoDup(game.researched.value)
      ensures Solvent(old(game.resources)) ==> Solvent(game.resources)
      ensures game.resources.Keys == old(game.resources.Keys)
      ensures game.velocity == old(game.velocity) && game.distance == old(game.distance)
      ensures game.unlocks == old(game.unlocks) && game.currentAreaId == old(game.currentAreaId)
      ensures game.inventory == old(game.inventory) && game.maxVelocity == old(game.maxVelocity)
    {
      ok := CanResearch(techId);
      if !ok {
        return;
      }
      var tech := techs[techId];
      ResearchablePayable(game.researched.value, game.resources, techs, techId);
      if Solvent(game.resources) {
        DebitSolvent(game.resources, tech.cost);
      }
      Consume(tech.cost);
      game.researched := Some(game.researched.value + [techId]);
    }

    /** The consume loop of `doResearch`: every cost entry, in order, subtracted from its material. */
    method Consume(cost: Cost)
      requires Payable(game.resources, cost)
      modifies game
      ensures game.resources == Debit(old(game.resources), cost)
      ensures game.researched == old(game.researched)
      ensures game.velocity == old(game.velocity) && game.distance == old(game.distance)
      ensures game.unlocks == old(game.unlocks) && game.currentAreaId == old(game.currentAreaId)
      ensures game.inventory == old(game.inventory) && game.maxVelocity == old(game.maxVelocity)
    {
      for i := 0 to |cost|
        invariant game.resources.Keys == old(game.resources).Keys
        invariant game.resources == Debit(old(game.resources), cost[..i])
        invariant game.researched == old(game.researched)
        invariant game.velocity == old(game.velocity) && game.distance == old(game.distance)
        invariant game.unlocks == old(game.unlocks) && game.currentAreaId == old(game.currentAreaId)
        invariant game.inventory == old(game.inventory) && game.maxVelocity == old(game.maxVelocity)
      {
        var (resId, amount) := cost[i];
        assert cost[..i + 1][..i] == cost[..i];
        game.resources := game.resources[resId := game.resources[resId] - amount];
      }
      assert cost[..|cost|] == cost;
    }

    /** The `forEach` loop shared by the four queries. */
    method Accumulate(q: Query) returns (acc: real)
      requires game.researched.Some? && Known(techs, game.researched.value)
      ensures acc == Aggregate(techs, game.researched.value, q)
    {
      var researched := game.researched.value;
      acc := Unit(q);
      for i := 0 to |researched|
        invariant acc == Aggregate(techs, researched[..i], q)
      {
        var tech := techs[researched[i]];
        assert researched[..i + 1][..i] == researched[..i];
        if tech.effect.Some? && Selects(q, tech.effect.value) {
          acc := Combine(q, acc, tech.effect.value.value);
        }
      }
      assert researched[..|researched|] == researched;
    }

    /** `getEngineMultiplier`: the product of the researched engine multipliers. */
    method GetEngineMultiplier() returns (mult: real)
      requires game.researched.Some? && Known(techs, game.researched.value)
      ensures mult == Aggregate(techs, game.researched.value, EngineQuery)
    {
      mult := Accumulate(EngineQuery);
    }

    /** `getBoosterSynergyBonus`: the sum of the researched booster buffs. */
    method GetBoosterSynergyBonus() returns (bonus: real)
      requires game.researched.Some? && Known(techs, game.researched.value)
      ensures bonus == Aggregate(techs, game.researched.value, BoosterQuery)
    {
      bonus := Accumulate(BoosterQuery);
    }

    /** `getGlobalMultiplier`: the product of the researched global multipliers. */
    method GetGlobalMultiplier() returns (mult: real)
      requires game.researched.Some? && Known(techs, game.researched.value)
      ensures mult == Aggregate(techs, game.researched.value, GlobalQuery)
    {
      mult := Accumulate(GlobalQuery);
    }

    /** `getCostMultiplier(partId)`: the product of the researched cost reductions aimed at that part. */
    method GetCostMultiplier(partId: PartId) returns (mult: real)
      requires game.researched.Some? && Known(techs, game.researched.value)
      ensures mult == Aggregate(techs, game.researched.value, CostQuery(partId))
    {
      mult := Accumulate(CostQuery(partId));
    }
  }
}
