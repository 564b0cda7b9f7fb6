/**
 * The value-level view of the 10x10 vehicle board of js/grid.js, and the
 * velocity rule of `Grid.getVelocity` stated as a function of that view.
 *
 * A board is the row-major sequence of its cells: the cell at column `x`,
 * row `y` is `b[Index(x, y)]`. A cell is either empty (`null` in the source)
 * or holds the id of the part placed there.
 */
module BoardSpec {
  import opened Optional
  import opened Catalog

  const Width: int := 10
  const Height: int := 10

  type Cell = Option<PartId>
  type Board = seq<Cell>

  predicate Shaped(b: Board)
  {
    |b| == 100
  }

  /** `Grid.isValid`. */
  predicate InBounds(x: int, y: int)
  {
    0 <= x < Width && 0 <= y < Height
  }

  function Index(x: int, y: int): (k: nat)
    requires InBounds(x, y)
    ensures k < 100 && k % 10 == x && k / 10 == y
  {
    y * Width + x
  }

  function EmptyBoard(): (b: Board)
    ensures Shaped(b) && forall k :: 0 <= k < |b| ==> b[k] == None
  {
    seq(100, _ => None)
  }

  /** `Grid.getPartAt`: the cell, or `null` off the board. */
  function CellAt(b: Board, x: int, y: int): Cell
    requires Shaped(b)
  {
    if InBounds(x, y) then b[Index(x, y)] else None
  }

  /** The board after `Grid.placePart(x, y, p)`: an in-bounds cell is overwritten. */
  function Place(b: Board, x: int, y: int, p: PartId): (b': Board)
    requires Shaped(b)
    ensures Shaped(b')
  {
    if InBounds(x, y) then b[Index(x, y) := Some(p)] else b
  }

  /** The board after `Grid.removePart(x, y)`. */
  function Remove(b: Board, x: int, y: int): (b': Board)
    requires Shaped(b)
    ensures Shaped(b')
  {
    if InBounds(x, y) then b[Index(x, y) := None] else b
  }

  // ---------------------------------------------------------------------
  // Neighbours

  /** The four directions `getNeighbors` scans: up, down, left, right. */
  const Dirs: seq<(int, int)> := [(0, -1), (0, 1), (-1, 0), (1, 0)]

  /** The part id at `(nx, ny)` as a list of zero or one element. */
  function NeighbourAt(b: Board, nx: int, ny: int): seq<PartId>
    requires Shaped(b)
  {
    match CellAt(b, nx, ny)
    case Some(id) => [id]
    case None => []
  }

  /** What `getNeighbors(x, y)` has collected after scanning the first `n` directions. */
  function NeighboursUpTo(b: Board, x: int, y: int, n: nat): seq<PartId>
    requires Shaped(b) && n <= |Dirs|
  {
    if n == 0 then [] else NeighboursUpTo(b, x, y, n - 1) + NeighbourAt(b, x + Dirs[n - 1].0, y + Dirs[n - 1].1)
  }

  function Neighbours(b: Board, x: int, y: int): seq<PartId>
    requires Shaped(b)
  {
    NeighboursUpTo(b, x, y, 4)
  }

  // ---------------------------------------------------------------------
  // The velocity rule, over a part table `cat` (the game passes `Parts`)

  predicate AllKnown(cat: PartTable, ns: seq<PartId>)
  {
    forall i :: 0 <= i < |ns| ==> ns[i] in cat
  }

  /** The cell at row-major index `k` holds a part the table lists as an engine. */
  predicate EngineAt(cat: PartTable, b: Board, k: int)
    requires Shaped(b) && 0 <= k < 100
  {
    b[k].Some? && b[k].value in cat && cat[b[k].value].partType == Engine
  }

  predicate WheelAt(cat: PartTable, b: Board, k: int)
    requires Shaped(b) && 0 <= k < 100
  {
    b[k].Some? && b[k].value in cat && cat[b[k].value].partType == Wheel
  }

  /**
   * `getVelocity` looks up the catalog entry of every neighbour of an engine
   * without a guard: it completes only when every such neighbour is a
   * catalog part. Unknown ids elsewhere are skipped.
   */
  predicate Resolvable(cat: PartTable, b: Board)
    requires Shaped(b)
  {
    forall k :: 0 <= k < 100 && EngineAt(cat, b, k) ==> AllKnown(cat, Neighbours(b, k % 10, k / 10))
  }

  /** Every occupied cell names a part of the table. */
  predicate CatalogOnly(cat: PartTable, b: Board)
    requires Shaped(b)
  {
    forall k :: 0 <= k < 100 && b[k].Some? ==> b[k].value in cat
  }

  /** The factor one neighbour of type `t` applies to an engine: booster x2.0, frame x1.2, others x1. */
  function Factor(t: PartType): real
  {
    match t
    case Booster => 2.0
    case Frame => 1.2
    case _ => 1.0
  }

  /** The product of the neighbour factors, in scanning order. */
  function SynergyProduct(cat: PartTable, ns: seq<PartId>): real
    requires AllKnown(cat, ns)
  {
    if ns == [] then 1.0 else SynergyProduct(cat, ns[..|ns| - 1]) * Factor(cat[ns[|ns| - 1]].partType)
  }

  /** What the engine at row-major index `k` adds to the total; 0 for every other cell. */
  function Contribution(cat: PartTable, b: Board, k: int): real
    requires Shaped(b) && Resolvable(cat, b) && 0 <= k < 100
  {
    if EngineAt(cat, b, k) then cat[b[k].value].baseVelocity * SynergyProduct(cat, Neighbours(b, k % 10, k / 10)) else 0.0
  }

  /** The sum of the contributions of the first `n` cells in row-major order. */
  function EngineTotal(cat: PartTable, b: Board, n: nat): real
    requires Shaped(b) && Resolvable(cat, b) && n <= 100
  {
    if n == 0 then 0.0 else EngineTotal(cat, b, n - 1) + Contribution(cat, b, n - 1)
  }

  /** The number of wheels among the first `n` cells in row-major order. */
  function WheelCount(cat: PartTable, b: Board, n: nat): nat
    requires Shaped(b) && n <= 100
  {
    if n == 0 then 0 else WheelCount(cat, b, n - 1) + (if WheelAt(cat, b, n - 1) then 1 else 0)
  }

  /** `1.0` plus `0.1` per wheel on the board. */
  function GlobalMultiplier(cat: PartTable, b: Board): real
    requires Shaped(b)
  {
    1.0 + 0.1 * (WheelCount(cat, b, 100) as real)
  }

  /** The velocity of a board, as `Grid.getVelocity` computes it. */
  function Velocity(cat: PartTable, b: Board): real
    requires Shaped(b) && Resolvable(cat, b)
  {
    EngineTotal(cat, b, 100) * GlobalMultiplier(cat, b)
  }

  // ---------------------------------------------------------------------
  // Placement

  /** Placing writes exactly the addressed cell, overwriting what was there; off the board nothing changes. */
  lemma PlaceEffect(b: Board, x: int, y: int, p: PartId, x': int, y': int)
    requires Shaped(b)
    ensures CellAt(Place(b, x, y, p), x', y') ==
      if InBounds(x, y) && x' == x && y' == y then Some(p) else CellAt(b, x', y')
  {
  }

  /** Removing empties exactly the addressed cell; removing twice is removing once. */
  lemma RemoveEffect(b: Board, x: int, y: int, x': int, y': int)
    requires Shaped(b)
    ensures CellAt(Remove(b, x, y), x', y') ==
      if InBounds(x, y) && x' == x && y' == y then None else CellAt(b, x', y')
    ensures Remove(Remove(b, x, y), x, y) == Remove(b, x, y)
  {
  }

  /** Place then remove at one cell leaves it empty and every other cell as it was. */
  lemma PlaceThenRemove(b: Board, x: int, y: int, p: PartId)
    requires Shaped(b) && InBounds(x, y)
    ensures Remove(Place(b, x, y, p), x, y) == Remove(b, x, y)
    ensures b[Index(x, y)] == None ==> Remove(Place(b, x, y, p), x, y) == b
  {
  }

  // ---------------------------------------------------------------------
  // Neighbours

  /** `id` sits in the cell one step in direction `d` from `(x, y)` (which is then on the board). */
  predicate FromDirection(b: Board, x: int, y: int, d: int, id: PartId)
    requires Shaped(b) && 0 <= d < |Dirs|
  {
    CellAt(b, x + Dirs[d].0, y + Dirs[d].1) == Some(id)
  }

  /** `id` sits in one of the cells the first `n` directions reach from `(x, y)`. */
  predicate AdjacentWithin(b: Board, x: int, y: int, n: nat, id: PartId)
    requires Shaped(b) && n <= |Dirs|
  {
    exists d :: 0 <= d < n && FromDirection(b, x, y, d, id)
  }

  lemma {:induction false} NeighboursUpToSound(b: Board, x: int, y: int, n: nat)
    requires Shaped(b) && n <= |Dirs|
    ensures |NeighboursUpTo(b, x, y, n)| <= n
    ensures forall i :: 0 <= i < |NeighboursUpTo(b, x, y, n)| ==> AdjacentWithin(b, x, y, n, NeighboursUpTo(b, x, y, n)[i])
  {
    if n > 0 {
      NeighboursUpToSound(b, x, y, n - 1);
      var prev := NeighboursUpTo(b, x, y, n - 1);
      var cur := NeighboursUpTo(b, x, y, n);
      var next := NeighbourAt(b, x + Dirs[n - 1].0, y + Dirs[n - 1].1);
      assert cur == prev + next;
      forall i | 0 <= i < |cur|
        ensures AdjacentWithin(b, x, y, n, cur[i])
      {
        if i < |prev| {
          assert AdjacentWithin(b, x, y, n - 1, prev[i]);
          var d :| 0 <= d < n - 1 && FromDirection(b, x, y, d, prev[i]);
          assert cur[i] == prev[i];
          assert FromDirection(b, x, y, d, cur[i]);
        } else {
          assert cur[i] == next[0];
          assert FromDirection(b, x, y, n - 1, cur[i]);
        }
      }
    }
  }

  lemma {:induction false} NeighboursUpToComplete(b: Board, x: int, y: int, n: nat)
    requires Shaped(b) && n <= |Dirs|
    ensures forall d, id :: 0 <= d < n && FromDirection(b, x, y, d, id) ==> id in NeighboursUpTo(b, x, y, n)
  {
    if n > 0 {
      NeighboursUpToComplete(b, x, y, n - 1);
      var prev, next := NeighboursUpTo(b, x, y, n - 1), NeighbourAt(b, x + Dirs[n - 1].0, y + Dirs[n - 1].1);
      assert NeighboursUpTo(b, x, y, n) == prev + next;
      forall d, id | 0 <= d < n && FromDirection(b, x, y, d, id) ensures id in prev + next {
        if d < n - 1 {
          assert id in prev;
        } else {
          assert CellAt(b, x + Dirs[n - 1].0, y + Dirs[n - 1].1) == Some(id);
          assert next == [id];
        }
      }
    }
  }

  /**
   * `getNeighbors` returns at most four ids, each the content of an occupied
   * cell one step up, down, left or right that lies on the board (no
   * wrap-around, no diagonals), and it misses no such cell. There is one
   * entry per occupied direction (`NeighboursUpToLength`), so two cells
   * holding the same part give two entries.
   */
  lemma NeighboursAreOrthogonal(b: Board, x: int, y: int)
    requires Shaped(b)
    ensures |Neighbours(b, x, y)| <= 4
    ensures forall i :: 0 <= i < |Neighbours(b, x, y)| ==> AdjacentWithin(b, x, y, 4, Neighbours(b, x, y)[i])
    ensures forall d, id :: 0 <= d < 4 && FromDirection(b, x, y, d, id) ==> id in Neighbours(b, x, y)
  {
    NeighboursUpToSound(b, x, y, 4);
    NeighboursUpToComplete(b, x, y, 4);
  }

  /** The cell one step in direction `d` from `(x, y)` is on the board and occupied. */
  predicate OccupiedFrom(b: Board, x: int, y: int, d: int)
    requires Shaped(b) && 0 <= d < |Dirs|
  {
    CellAt(b, x + Dirs[d].0, y + Dirs[d].1).Some?
  }

  /** The cell one step in direction `d` from `(x, y)` holds a part the table lists with type `t`. */
  predicate TypedFrom(cat: PartTable, b: Board, x: int, y: int, d: int, t: PartType)
    requires Shaped(b) && 0 <= d < |Dirs|
  {
    var c := CellAt(b, x + Dirs[d].0, y + Dirs[d].1);
    c.Some? && c.value in cat && cat[c.value].partType == t
  }

  /** The indices below `n` that pass the test `p` (see `IndicesBelowMembers`). */
  function IndicesBelow(p: int -> bool, n: nat): set<int>
  {
    if n == 0 then {} else IndicesBelow(p, n - 1) + (if p(n - 1) then {n - 1} else {})
  }

  lemma {:induction false} IndicesBelowMembers(p: int -> bool, n: nat)
    ensures forall d :: d in IndicesBelow(p, n) <==> 0 <= d < n && p(d)
  {
    if n > 0 {
      IndicesBelowMembers(p, n - 1);
    }
  }

  /** One more index joins the set exactly when it passes the test. */
  lemma IndicesBelowStep(p: int -> bool, n: nat)
    requires n > 0
    ensures |IndicesBelow(p, n)| == |IndicesBelow(p, n - 1)| + (if p(n - 1) then 1 else 0)
  {
    IndicesBelowMembers(p, n - 1);
  }

  /** The test "direction `d` reaches an occupied cell on the board". */
  function OccupiedTest(b: Board, x: int, y: int): int -> bool
    requires Shaped(b)
  {
    d => 0 <= d < |Dirs| && OccupiedFrom(b, x, y, d)
  }

  /** The test "direction `d` reaches a cell holding a part of type `t`". */
  function TypedTest(cat: PartTable, b: Board, x: int, y: int, t: PartType): int -> bool
    requires Shaped(b)
  {
    d => 0 <= d < |Dirs| && TypedFrom(cat, b, x, y, d, t)
  }

  /** The directions among the first `n` whose cell is on the board and occupied. */
  function OccupiedDirs(b: Board, x: int, y: int, n: nat): set<int>
    requires Shaped(b)
  {
    IndicesBelow(OccupiedTest(b, x, y), n)
  }

  /** The directions among the first `n` whose cell holds a part of type `t`. */
  function TypedDirs(cat: PartTable, b: Board, x: int, y: int, n: nat, t: PartType): set<int>
    requires Shaped(b)
  {
    IndicesBelow(TypedTest(cat, b, x, y, t), n)
  }

  /** The direction sets hold exactly the directions whose cell is occupied, or holds a part of type `t`. */
  lemma DirsMembers(cat: PartTable, b: Board, x: int, y: int, t: PartType)
    requires Shaped(b)
    ensures forall d :: d in OccupiedDirs(b, x, y, 4) <==> 0 <= d < 4 && OccupiedFrom(b, x, y, d)
    ensures forall d :: d in TypedDirs(cat, b, x, y, 4, t) <==> 0 <= d < 4 && TypedFrom(cat, b, x, y, d, t)
  {
    IndicesBelowMembers(OccupiedTest(b, x, y), 4);
    IndicesBelowMembers(TypedTest(cat, b, x, y, t), 4);
  }

  /** One more direction scanned: the list grows by one exactly when that cell is occupied. */
  lemma LengthStep(b: Board, x: int, y: int, n: nat)
    requires Shaped(b) && 0 < n <= |Dirs|
    ensures |NeighboursUpTo(b, x, y, n)| == |NeighboursUpTo(b, x, y, n - 1)| + (if OccupiedFrom(b, x, y, n - 1) then 1 else 0)
  {
  }

  /** One more direction scanned: the count of type `t` grows by one exactly when that cell holds such a part. */
  lemma CountStep(cat: PartTable, b: Board, x: int, y: int, n: nat, t: PartType)
    requires Shaped(b) && 0 < n <= |Dirs| && AllKnown(cat, NeighboursUpTo(b, x, y, n))
    ensures AllKnown(cat, NeighboursUpTo(b, x, y, n - 1))
    ensures CountType(cat, NeighboursUpTo(b, x, y, n), t) ==
      CountType(cat, NeighboursUpTo(b, x, y, n - 1), t) + (if TypedFrom(cat, b, x, y, n - 1, t) then 1 else 0)
  {
    var prev := NeighboursUpTo(b, x, y, n - 1);
    var next := NeighbourAt(b, x + Dirs[n - 1].0, y + Dirs[n - 1].1);
    var cur := NeighboursUpTo(b, x, y, n);
    assert cur == prev + next;
    forall i | 0 <= i < |prev| ensures prev[i] in cat {
      assert cur[i] == prev[i];
    }
    var c := CellAt(b, x + Dirs[n - 1].0, y + Dirs[n - 1].1);
    if c.Some? {
      assert next == [c.value];
      assert cur[..|cur| - 1] == prev && cur[|cur| - 1] == c.value;
    } else {
      assert cur == prev;
    }
  }

  /** After scanning the first `n` directions, the list has one entry per occupied cell among them. */
  lemma {:induction false} NeighboursUpToLength(b: Board, x: int, y: int, n: nat)
    requires Shaped(b) && n <= |Dirs|
    ensures |NeighboursUpTo(b, x, y, n)| == |OccupiedDirs(b, x, y, n)|
  {
    if n > 0 {
      LengthStep(b, x, y, n);
      NeighboursUpToLength(b, x, y, n - 1);
      OccupiedDirsStep(b, x, y, n);
    }
  }

  /** Every occupied cell the first `n` directions reach from `(x, y)` holds a part the table lists. */
  predicate KnownAround(cat: PartTable, b: Board, x: int, y: int, n: nat)
    requires Shaped(b) && n <= |Dirs|
  {
    forall d :: 0 <= d < n && OccupiedFrom(b, x, y, d) ==> CellAt(b, x + Dirs[d].0, y + Dirs[d].1).value in cat
  }

  /** The table lists every neighbour exactly when it lists the part in every occupied adjacent cell. */
  lemma KnownAroundIsAllKnown(cat: PartTable, b: Board, x: int, y: int, n: nat)
    requires Shaped(b) && n <= |Dirs|
    ensures KnownAround(cat, b, x, y, n) <==> AllKnown(cat, NeighboursUpTo(b, x, y, n))
  {
    var ns := NeighboursUpTo(b, x, y, n);
    NeighboursUpToSound(b, x, y, n);
    NeighboursUpToComplete(b, x, y, n);
    if KnownAround(cat, b, x, y, n) {
      forall i | 0 <= i < |ns| ensures ns[i] in cat {
        assert AdjacentWithin(b, x, y, n, ns[i]);
        var d :| 0 <= d < n && FromDirection(b, x, y, d, ns[i]);
        assert OccupiedFrom(b, x, y, d);
      }
    }
    if AllKnown(cat, ns) {
      forall d | 0 <= d < n && OccupiedFrom(b, x, y, d) ensures CellAt(b, x + Dirs[d].0, y + Dirs[d].1).value in cat {
        assert FromDirection(b, x, y, d, CellAt(b, x + Dirs[d].0, y + Dirs[d].1).value);
      }
    }
  }

  /** After scanning the first `n` directions, the list holds as many parts of type `t` as there are cells of type `t`. */
  lemma {:induction false} NeighboursUpToCount(cat: PartTable, b: Board, x: int, y: int, n: nat, t: PartType)
    requires Shaped(b) && n <= |Dirs| && KnownAround(cat, b, x, y, n)
    ensures AllKnown(cat, NeighboursUpTo(b, x, y, n))
    ensures CountType(cat, NeighboursUpTo(b, x, y, n), t) == |TypedDirs(cat, b, x, y, n, t)|
  {
    KnownAroundIsAllKnown(cat, b, x, y, n);
    if n > 0 {
      CountStep(cat, b, x, y, n, t);
      NeighboursUpToCount(cat, b, x, y, n - 1, t);
      TypedDirsStep(cat, b, x, y, n, t);
    }
  }

  /** One more direction scanned: the occupied directions grow by that one exactly when its cell is occupied. */
  lemma OccupiedDirsStep(b: Board, x: int, y: int, n: nat)
    requires Shaped(b) && 0 < n <= |Dirs|
    ensures |OccupiedDirs(b, x, y, n)| == |OccupiedDirs(b, x, y, n - 1)| + (if OccupiedFrom(b, x, y, n - 1) then 1 else 0)
  {
    IndicesBelowStep(OccupiedTest(b, x, y), n);
  }

  /** One more direction scanned: the directions typed `t` grow by that one exactly when its cell holds such a part. */
  lemma TypedDirsStep(cat: PartTable, b: Board, x: int, y: int, n: nat, t: PartType)
    requires Shaped(b) && 0 < n <= |Dirs|
    ensures |TypedDirs(cat, b, x, y, n, t)| == |TypedDirs(cat, b, x, y, n - 1, t)| + (if TypedFrom(cat, b, x, y, n - 1, t) then 1 else 0)
  {
    IndicesBelowStep(TypedTest(cat, b, x, y, t), n);
  }

  /**
   * The neighbour multiplier of the engine at `(x, y)` is the one of as many
   * boosters as there are adjacent booster cells and as many frames as there
   * are adjacent frame cells, that is `2.0^nb * 1.2^nf` (`MultiplierIsPowers`):
   * two adjacent cells holding the same part both count.
   */
  lemma SynergyCountsCells(cat: PartTable, b: Board, x: int, y: int)
    requires Shaped(b) && KnownAround(cat, b, x, y, 4)
    ensures AllKnown(cat, Neighbours(b, x, y))
    ensures SynergyProduct(cat, Neighbours(b, x, y)) ==
      Multiplier(|TypedDirs(cat, b, x, y, 4, Booster)|, |TypedDirs(cat, b, x, y, 4, Frame)|)
  {
    var ns := Neighbours(b, x, y);
    var nb, nf := |TypedDirs(cat, b, x, y, 4, Booster)|, |TypedDirs(cat, b, x, y, 4, Frame)|;
    NeighboursUpToCount(cat, b, x, y, 4, Booster);
    NeighboursUpToCount(cat, b, x, y, 4, Frame);
    assert CountType(cat, ns, Booster) == nb && CountType(cat, ns, Frame) == nf;
    SynergyProductIsPowers(cat, ns);
  }

  // ---------------------------------------------------------------------
  // The engine multiplier as powers

  /** `2.0` to the power `n`: the factor of `n` adjacent boosters. */
  function BoosterPower(n: nat): real
  {
    if n == 0 then 1.0 else 2.0 * BoosterPower(n - 1)
  }

  /** `1.2` to the power `n`: the factor of `n` adjacent frames. */
  function FramePower(n: nat): real
  {
    if n == 0 then 1.0 else 1.2 * FramePower(n - 1)
  }

  /** The factor of `nb` adjacent boosters and `nf` adjacent frames, one factor at a time, boosters first. */
  function Multiplier(nb: nat, nf: nat): real
  {
    if nb > 0 then 2.0 * Multiplier(nb - 1, nf) else if nf > 0 then 1.2 * Multiplier(0, nf - 1) else 1.0
  }

  /** How many of `ns` the table lists with type `t`. */
  function CountType(cat: PartTable, ns: seq<PartId>, t: PartType): nat
    requires AllKnown(cat, ns)
  {
    if ns == [] then 0 else CountType(cat, ns[..|ns| - 1], t) + (if cat[ns[|ns| - 1]].partType == t then 1 else 0)
  }

  /** An engine's multiplier is 2.0 per adjacent booster times 1.2 per adjacent frame, whatever the order. */
  lemma {:induction false} SynergyProductIsPowers(cat: PartTable, ns: seq<PartId>)
    requires AllKnown(cat, ns)
    ensures SynergyProduct(cat, ns) == Multiplier(CountType(cat, ns, Booster), CountType(cat, ns, Frame))
  {
    if ns != [] {
      var init := ns[..|ns| - 1];
      var nb, nf := CountType(cat, init, Booster), CountType(cat, init, Frame);
      SynergyProductIsPowers(cat, init);
      var t := LastNeighbour(cat, ns);
      if t == Frame {
        MultiplierFrameStep(nb, nf);
      }
    }
  }

  /** Unfolding the product and the counts at the last neighbour, of type `t`. */
  lemma LastNeighbour(cat: PartTable, ns: seq<PartId>) returns (t: PartType)
    requires AllKnown(cat, ns) && ns != []
    ensures AllKnown(cat, ns[..|ns| - 1]) && t == cat[ns[|ns| - 1]].partType
    ensures t == Booster ==> SynergyProduct(cat, ns) == SynergyProduct(cat, ns[..|ns| - 1]) * 2.0
    ensures t == Frame ==> SynergyProduct(cat, ns) == SynergyProduct(cat, ns[..|ns| - 1]) * 1.2
    ensures t != Booster && t != Frame ==> SynergyProduct(cat, ns) == SynergyProduct(cat, ns[..|ns| - 1])
    ensures CountType(cat, ns, Booster) == CountType(cat, ns[..|ns| - 1], Booster) + (if t == Booster then 1 else 0)
    ensures CountType(cat, ns, Frame) == CountType(cat, ns[..|ns| - 1], Frame) + (if t == Frame then 1 else 0)
  {
    t := cat[ns[|ns| - 1]].partType;
  }

  /** A frame's factor can be taken out after the boosters' ones. */
  lemma {:induction false} MultiplierFrameStep(nb: nat, nf: nat)
    ensures Multiplier(nb, nf + 1) == 1.2 * Multiplier(nb, nf)
  {
    if nb > 0 {
      MultiplierFrameStep(nb - 1, nf);
    }
  }

  /** The multiplier of `nb` boosters and `nf` frames is `2.0^nb * 1.2^nf`. */
  lemma {:induction false} MultiplierIsPowers(nb: nat, nf: nat)
    ensures Multiplier(nb, nf) == BoosterPower(nb) * FramePower(nf)
  {
    if nb > 0 {
      MultiplierIsPowers(nb - 1, nf);
      assert 2.0 * (BoosterPower(nb - 1) * FramePower(nf)) == (2.0 * BoosterPower(nb - 1)) * FramePower(nf);
    } else if nf > 0 {
      MultiplierIsPowers(0, nf - 1);
    }
  }

  /** No neighbour slows an engine down: the multiplier is at least 1. */
  lemma {:induction false} SynergyProductAtLeastOne(cat: PartTable, ns: seq<PartId>)
    requires AllKnown(cat, ns)
    ensures SynergyProduct(cat, ns) >= 1.0
  {
    if ns != [] {
      SynergyProductAtLeastOne(cat, ns[..|ns| - 1]);
      MulAtLeastOne(SynergyProduct(cat, ns[..|ns| - 1]), Factor(cat[ns[|ns| - 1]].partType));
    }
  }

  lemma MulAtLeastOne(a: real, c: real)
    requires a >= 1.0 && c >= 1.0
    ensures a * c >= 1.0
  {
    assert a * c >= a * 1.0;
  }

  // ---------------------------------------------------------------------
  // Sign and zero of the velocity

  /** A contribution is positive exactly at an engine, and zero elsewhere. */
  /** The contribution of the engine at `(x, y)`: its base velocity times the product over its neighbours. */
  lemma EngineContributionAt(cat: PartTable, b: Board, x: int, y: int, velocity: real, multiplier: real)
    requires Shaped(b) && Resolvable(cat, b) && InBounds(x, y) && EngineAt(cat, b, Index(x, y))
    requires velocity == cat[b[Index(x, y)].value].baseVelocity && multiplier == SynergyProduct(cat, Neighbours(b, x, y))
    ensures Contribution(cat, b, Index(x, y)) == velocity * multiplier
  {
  }

  lemma ContributionSign(cat: PartTable, b: Board, k: int)
    requires Shaped(b) && Resolvable(cat, b) && EnginesMove(cat) && 0 <= k < 100
    ensures EngineAt(cat, b, k) ==> Contribution(cat, b, k) > 0.0
    ensures !EngineAt(cat, b, k) ==> Contribution(cat, b, k) == 0.0
  {
    if EngineAt(cat, b, k) {
      SynergyProductAtLeastOne(cat, Neighbours(b, k % 10, k / 10));
    }
  }

  /** The total of the first `n` cells is never negative, and it is 0 exactly when none of them holds an engine. */
  lemma {:induction false} EngineTotalSign(cat: PartTable, b: Board, n: nat)
    requires Shaped(b) && Resolvable(cat, b) && EnginesMove(cat) && n <= 100
    ensures EngineTotal(cat, b, n) >= 0.0
    ensures EngineTotal(cat, b, n) == 0.0 <==> forall k :: 0 <= k < n ==> !EngineAt(cat, b, k)
  {
    if n > 0 {
      EngineTotalSign(cat, b, n - 1);
      ContributionSign(cat, b, n - 1);
    }
  }

  /**
   * The velocity is never negative, and it is 0 exactly when the board holds
   * no engine, whatever wheels, frames and boosters it holds.
   */
  lemma VelocitySign(cat: PartTable, b: Board)
    requires Shaped(b) && Resolvable(cat, b) && EnginesMove(cat)
    ensures Velocity(cat, b) >= 0.0
    ensures Velocity(cat, b) == 0.0 <==> forall k :: 0 <= k < 100 ==> !EngineAt(cat, b, k)
  {
    EngineTotalSign(cat, b, 100);
    var t, g := EngineTotal(cat, b, 100), GlobalMultiplier(cat, b);
    assert g >= 1.0;
    if t > 0.0 {
      assert t * g >= t * 1.0;
    }
  }

  /** A board of table parts only never makes `getVelocity` fail. */
  lemma CatalogOnlyIsResolvable(cat: PartTable, b: Board)
    requires Shaped(b) && CatalogOnly(cat, b)
    ensures Resolvable(cat, b)
  {
    forall k | 0 <= k < 100 && EngineAt(cat, b, k)
      ensures AllKnown(cat, Neighbours(b, k % 10, k / 10))
    {
      var x, y := k % 10, k / 10;
      NeighboursAreOrthogonal(b, x, y);
      var ns := Neighbours(b, x, y);
      forall i | 0 <= i < |ns| ensures ns[i] in cat {
        assert AdjacentWithin(b, x, y, 4, ns[i]);
        var d :| 0 <= d < 4 && FromDirection(b, x, y, d, ns[i]);
        assert b[Index(x + Dirs[d].0, y + Dirs[d].1)] == Some(ns[i]);
      }
    }
  }

  // ---------------------------------------------------------------------
  // Worked examples on the game's own catalog

  /** With at most one engine on the board, the total is that engine's contribution. */
  lemma {:induction false} SingleEngineTotal(cat: PartTable, b: Board, e: int, n: nat)
    requires Shaped(b) && Resolvable(cat, b) && 0 <= e < 100 && n <= 100
    requires forall k :: 0 <= k < 100 && k != e ==> !EngineAt(cat, b, k)
    ensures EngineTotal(cat, b, n) == if e < n then Contribution(cat, b, e) else 0.0
  {
    if n > 0 {
      SingleEngineTotal(cat, b, e, n - 1);
    }
  }

  /** With at most one wheel on the board, the wheel count is 0 or 1. */
  lemma {:induction false} SingleWheelCount(cat: PartTable, b: Board, w: int, n: nat)
    requires Shaped(b) && 0 <= w < 100 && n <= 100
    requires forall k :: 0 <= k < 100 && k != w ==> !WheelAt(cat, b, k)
    ensures WheelCount(cat, b, n) == if w < n && WheelAt(cat, b, w) then 1 else 0
  {
    if n > 0 {
      SingleWheelCount(cat, b, w, n - 1);
    }
  }

  /** Neighbours that are neither boosters nor frames leave an engine's base velocity as it is. */
  lemma {:induction false} NoSynergy(cat: PartTable, ns: seq<PartId>)
    requires AllKnown(cat, ns)
    requires forall i :: 0 <= i < |ns| ==> cat[ns[i]].partType != Booster && cat[ns[i]].partType != Frame
    ensures SynergyProduct(cat, ns) == 1.0
  {
    if ns != [] {
      NoSynergy(cat, ns[..|ns| - 1]);
    }
  }

  /** On a board with one engine and no wheel, the velocity is that engine's contribution. */
  lemma OneEngineNoWheel(cat: PartTable, b: Board, e: int)
    requires Shaped(b) && Resolvable(cat, b) && 0 <= e < 100
    requires forall k :: 0 <= k < 100 && k != e ==> !EngineAt(cat, b, k)
    requires forall k :: 0 <= k < 100 ==> !WheelAt(cat, b, k)
    ensures Velocity(cat, b) == Contribution(cat, b, e)
  {
    SingleEngineTotal(cat, b, e, 100);
    SingleWheelCount(cat, b, e, 100);
  }

  /** The multiplier of one or two neighbours is the product of their factors. */
  lemma SynergyOfFew(cat: PartTable, a: PartId, c: PartId)
    requires a in cat && c in cat
    ensures SynergyProduct(cat, [a]) == Factor(cat[a].partType)
    ensures SynergyProduct(cat, [a, c]) == Factor(cat[a].partType) * Factor(cat[c].partType)
  {
    assert [a, c][..1] == [a];
    assert [a][..0] == [];
  }

  function LoneEngine(): Board
  {
    Place(EmptyBoard(), 5, 5, "engine_basic")
  }

  /** A lone `engine_basic` moves at 10. */
  lemma LoneEngineVelocity()
    ensures Resolvable(Parts, LoneEngine()) && Velocity(Parts, LoneEngine()) == 10.0
  {
    var b := LoneEngine();
    assert Neighbours(b, 5, 5) == [];
    SingleEngineTotal(Parts, b, 55, 100);
    SingleWheelCount(Parts, b, 55, 100);
  }

  /** A `frame_basic` placed above the engine raises it to 12. */
  lemma FrameAboveVelocity()
    ensures Resolvable(Parts, Place(LoneEngine(), 5, 4, "frame_basic"))
    ensures Velocity(Parts, Place(LoneEngine(), 5, 4, "frame_basic")) == 12.0
  {
    var b := Place(LoneEngine(), 5, 4, "frame_basic");
    var expected: Board := EmptyBoard()[45 := Some("frame_basic")][55 := Some("engine_basic")];
    assert b == expected;
    assert CatalogOnly(Parts, b);
    CatalogOnlyIsResolvable(Parts, b);
    assert Neighbours(b, 5, 5) == ["frame_basic"];
    SynergyOfFew(Parts, "frame_basic", "booster_basic");
    StarterTypes();
    OneEngineNoWheel(Parts, b, 55);
  }

  /** A `booster_basic` below the engine as well doubles that to 24. */
  lemma FrameAndBoosterVelocity()
    ensures Resolvable(Parts, Place(Place(LoneEngine(), 5, 4, "frame_basic"), 5, 6, "booster_basic"))
    ensures Velocity(Parts, Place(Place(LoneEngine(), 5, 4, "frame_basic"), 5, 6, "booster_basic")) == 24.0
  {
    var b := Place(Place(LoneEngine(), 5, 4, "frame_basic"), 5, 6, "booster_basic");
    var expected: Board := EmptyBoard()[45 := Some("frame_basic")][55 := Some("engine_basic")][65 := Some("booster_basic")];
    assert b == expected;
    assert CatalogOnly(Parts, b);
    CatalogOnlyIsResolvable(Parts, b);
    assert Neighbours(b, 5, 5) == ["frame_basic", "booster_basic"];
    SynergyOfFew(Parts, "frame_basic", "booster_basic");
    StarterTypes();
    OneEngineNoWheel(Parts, b, 55);
  }

  /** A lone `engine_basic` with one `wheel_basic` anywhere else on the board moves at 11. */
  lemma EngineAndWheelVelocity(wx: int, wy: int)
    requires InBounds(wx, wy) && (wx, wy) != (5, 5)
    ensures Resolvable(Parts, Place(LoneEngine(), wx, wy, "wheel_basic"))
    ensures Velocity(Parts, Place(LoneEngine(), wx, wy, "wheel_basic")) == 11.0
  {
    var b := Place(LoneEngine(), wx, wy, "wheel_basic");
    EngineBesideWheel(wx, wy);
    WheelBesideEngine(wx, wy);
    assert GlobalMultiplier(Parts, b) == 1.1;
  }

  /** The engine of that board contributes its base velocity 10: a wheel gives no neighbour bonus. */
  lemma EngineBesideWheel(wx: int, wy: int)
    requires InBounds(wx, wy) && (wx, wy) != (5, 5)
    ensures Resolvable(Parts, Place(LoneEngine(), wx, wy, "wheel_basic"))
    ensures EngineTotal(Parts, Place(LoneEngine(), wx, wy, "wheel_basic"), 100) == 10.0
  {
    var b := Place(LoneEngine(), wx, wy, "wheel_basic");
    var w := Index(wx, wy);
    assert forall k :: 0 <= k < 100 ==> b[k] == if k == w then Some("wheel_basic") else if k == 55 then Some("engine_basic") else None;
    assert CatalogOnly(Parts, b);
    CatalogOnlyIsResolvable(Parts, b);
    var ns := Neighbours(b, 5, 5);
    NeighboursAreOrthogonal(b, 5, 5);
    forall i | 0 <= i < |ns| ensures ns[i] == "wheel_basic" {
      assert AdjacentWithin(b, 5, 5, 4, ns[i]);
    }
    NoSynergy(Parts, ns);
    SingleEngineTotal(Parts, b, 55, 100);
  }

  /** That board holds exactly one wheel. */
  lemma WheelBesideEngine(wx: int, wy: int)
    requires InBounds(wx, wy) && (wx, wy) != (5, 5)
    ensures WheelCount(Parts, Place(LoneEngine(), wx, wy, "wheel_basic"), 100) == 1
  {
    var b := Place(LoneEngine(), wx, wy, "wheel_basic");
    var w := Index(wx, wy);
    assert forall k :: 0 <= k < 100 ==> b[k] == if k == w then Some("wheel_basic") else if k == 55 then Some("engine_basic") else None;
    SingleWheelCount(Parts, b, w, 100);
    assert WheelAt(Parts, b, w);
  }

  // ---------------------------------------------------------------------
  // The parts a board holds

  function CellParts(c: Cell): multiset<PartId>
  {
    match c
    case Some(id) => multiset{id}
    case None => multiset{}
  }

  /** The multiset of part ids placed on a board. */
  function PlacedParts(b: Board): multiset<PartId>
  {
    if b == [] then multiset{} else PlacedParts(b[..|b| - 1]) + CellParts(b[|b| - 1])
  }

  /** Adding the same multiset to both sides of an equation, rearranged. */
  lemma AddBoth(a: multiset<PartId>, a': multiset<PartId>, x: multiset<PartId>, y: multiset<PartId>, z: multiset<PartId>)
    requires a' + x == a + y
    ensures (a' + z) + x == (a + z) + y
  {
    assert forall q :: ((a' + z) + x)[q] == (a' + x)[q] + z[q];
  }

  /** Overwriting one cell trades its old part for the new one in the board's multiset. */
  lemma {:induction false} PlacedPartsUpdate(b: Board, k: int, c: Cell)
    requires 0 <= k < |b|
    ensures PlacedParts(b[k := c]) + CellParts(b[k]) == PlacedParts(b) + CellParts(c)
  {
    var n := |b| - 1;
    var b' := b[k := c];
    if k < n {
      assert b'[..n] == b[..n][k := c];
      assert b'[n] == b[n];
      assert b[..n][k] == b[k];
      PlacedPartsUpdate(b[..n], k, c);
      AddBoth(PlacedParts(b[..n]), PlacedParts(b'[..n]), CellParts(b[k]), CellParts(c), CellParts(b[n]));
    } else {
      assert b'[..n] == b[..n];
    }
  }
}
