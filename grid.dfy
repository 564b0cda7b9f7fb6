/**
 * `Grid` of js/grid.js: the 10x10 board of optional part references, its
 * bounds-checked place/remove/lookup operations and the velocity computation.
 * `cells[y, x]` is the source's `cells[y][x]`.
 */
module GridEngine {
  import opened Optional
  import opened Catalog
  import opened BoardSpec

  class Grid {
    var cells: array2<Cell>
    /** The part table the grid reads (`MasterData.parts`). */
    const parts: PartTable

    /** The board has been filled by `Init` (or restored by `ImportState`). */
    ghost predicate Valid()
      reads this
    {
      cells.Length0 == Height && cells.Length1 == Width
    }

    /** The board as a row-major sequence of cells. */
    ghost function Contents(): (b: Board)
      reads this, cells
      requires Valid()
      ensures Shaped(b)
      ensures forall k :: 0 <= k < 100 ==> b[k] == cells[k / 10, k % 10]
    {
      seq(100, k requires 0 <= k < 100 && Valid() reads this, cells => cells[k / 10, k % 10])
    }

    /** The source's constructor leaves `cells` an empty list. */
    constructor (parts: PartTable)
      ensures this.parts == parts
      ensures fresh(cells) && cells.Length0 == 0
    {
      this.parts := parts;
      cells := new Cell[0, 0];
    }

    /** `init`: fill the board row by row with empty cells. */
    method Init()
      requires cells.Length0 == 0
      modifies this
      ensures Valid() && fresh(cells)
      ensures Contents() == EmptyBoard()
    {
      cells := new Cell[Height, Width];
      for y := 0 to Height
        invariant Valid() && fresh(cells)
        invariant forall j, i :: 0 <= j < y && 0 <= i < Width ==> cells[j, i] == None
      {
        for x := 0 to Width
          invariant Valid() && fresh(cells)
          invariant forall j, i :: 0 <= j < y && 0 <= i < Width ==> cells[j, i] == None
          invariant forall i :: 0 <= i < x ==> cells[y, i] == None
        {
          cells[y, x] := None;
        }
      }
      assert forall k :: 0 <= k < 100 ==> Contents()[k] == EmptyBoard()[k];
    }

    /** `getPartAt`: the cell, or `null` off the board. */
    function GetPartAt(x: int, y: int): (c: Cell)
      reads this, cells
      requires Valid()
      ensures c == CellAt(Contents(), x, y)
      ensures !(0 <= x < Width && 0 <= y < Height) ==> c == None
    {
      if InBounds(x, y) then cells[y, x] else None
    }

    /** `placePart`: overwrite an in-bounds cell, occupied or not; off the board, report false and change nothing. */
    method PlacePart(x: int, y: int, partId: PartId) returns (ok: bool)
      requires Valid()
      modifies cells
      ensures ok == InBounds(x, y)
      ensures Contents() == Place(old(Contents()), x, y, partId)
      ensures ok ==> GetPartAt(x, y) == Some(partId)
    {
      if !InBounds(x, y) {
        return false;
      }
      ghost var before := Contents();
      cells[y, x] := Some(partId);
      assert forall k :: 0 <= k < 100 ==> Contents()[k] == before[Index(x, y) := Some(partId)][k];
      return true;
    }

    /** `removePart`: empty an in-bounds cell (also an empty one); off the board, report false and change nothing. */
    method RemovePart(x: int, y: int) returns (ok: bool)
      requires Valid()
      modifies cells
      ensures ok == InBounds(x, y)
      ensures Contents() == Remove(old(Contents()), x, y)
      ensures GetPartAt(x, y) == None
    {
      if !InBounds(x, y) {
        return false;
      }
      ghost var before := Contents();
      cells[y, x] := None;
      assert forall k :: 0 <= k < 100 ==> Contents()[k] == before[Index(x, y) := None][k];
      return true;
    }

    /** `getNeighbors`: the occupied cells up, down, left and right of `(x, y)` that lie on the board. */
    method GetNeighbors(x: int, y: int) returns (neighbors: seq<PartId>)
      requires Valid()
      ensures neighbors == Neighbours(Contents(), x, y)
      ensures |neighbors| <= 4
    {
      ghost var b := Contents();
      neighbors := [];
      for i := 0 to |Dirs|
        invariant neighbors == NeighboursUpTo(b, x, y, i)
      {
        var nx, ny := x + Dirs[i].0, y + Dirs[i].1;
        assert NeighboursUpTo(b, x, y, i + 1) == neighbors + NeighbourAt(b, nx, ny);
        if InBounds(nx, ny) && cells[ny, nx].Some? {
          assert b[Index(nx, ny)] == cells[ny, nx];
          neighbors := neighbors + [cells[ny, nx].value];
        } else if InBounds(nx, ny) {
          assert b[Index(nx, ny)] == cells[ny, nx];
        }
      }
      NeighboursAreOrthogonal(b, x, y);
    }

    /**
     * `getVelocity`: every engine contributes its base velocity times 2.0 per
     * adjacent booster and 1.2 per adjacent frame; every wheel adds 0.1 to a
     * global multiplier that starts at 1.0; the result is the sum of the
     * contributions times that multiplier.
     */
    method GetVelocity() returns (v: real)
      requires Valid() && Resolvable(parts, Contents())
      ensures v == Velocity(parts, Contents())
      ensures WellFormed(parts) ==> v >= 0.0 && (v == 0.0 <==> forall k :: 0 <= k < 100 ==> !EngineAt(parts, Contents(), k))
    {
      var totalVelocity, globalMultiplier := ScanBoard();
      v := totalVelocity * globalMultiplier;
      if WellFormed(parts) {
        VelocitySign(parts, Contents());
      }
    }

    /** The scan of `getVelocity`: the sum of the engine contributions and the wheels' global multiplier. */
    method ScanBoard() returns (totalVelocity: real, globalMultiplier: real)
      requires Valid() && Resolvable(parts, Contents())
      ensures totalVelocity == EngineTotal(parts, Contents(), 100)
      ensures globalMultiplier == GlobalMultiplier(parts, Contents())
    {
      ghost var b := Contents();
      totalVelocity := 0.0;
      globalMultiplier := 1.0;
      for y := 0 to Height
        invariant totalVelocity == EngineTotal(parts, b, y * 10)
        invariant globalMultiplier == 1.0 + 0.1 * (WheelCount(parts, b, y * 10) as real)
      {
        totalVelocity, globalMultiplier := ScanRow(y, totalVelocity, globalMultiplier);
      }
    }

    /** The inner loop of the scan of `getVelocity`: row `y` added to the running total and multiplier. */
    method ScanRow(y: int, totalVelocity: real, globalMultiplier: real) returns (total': real, global': real)
      requires Valid() && Resolvable(parts, Contents()) && 0 <= y < Height
      requires totalVelocity == EngineTotal(parts, Contents(), y * 10)
      requires globalMultiplier == 1.0 + 0.1 * (WheelCount(parts, Contents(), y * 10) as real)
      ensures total' == EngineTotal(parts, Contents(), y * 10 + 10)
      ensures global' == 1.0 + 0.1 * (WheelCount(parts, Contents(), y * 10 + 10) as real)
    {
      ghost var b := Contents();
      total', global' := totalVelocity, globalMultiplier;
      for x := 0 to Width
        invariant total' == EngineTotal(parts, b, y * 10 + x)
        invariant global' == 1.0 + 0.1 * (WheelCount(parts, b, y * 10 + x) as real)
      {
        ghost var k := y * 10 + x;
        assert Index(x, y) == k;
        assert EngineTotal(parts, b, k + 1) == EngineTotal(parts, b, k) + Contribution(parts, b, k);
        assert WheelCount(parts, b, k + 1) == WheelCount(parts, b, k) + (if WheelAt(parts, b, k) then 1 else 0);
        total', global' := ScanCell(x, y, total', global');
      }
    }

    /** One step of the scan of `getVelocity`: the cell at `(x, y)` adds to the running total and multiplier. */
    method ScanCell(x: int, y: int, totalVelocity: real, globalMultiplier: real) returns (total': real, global': real)
      requires Valid() && Resolvable(parts, Contents()) && InBounds(x, y)
      ensures total' == totalVelocity + Contribution(parts, Contents(), Index(x, y))
      ensures global' == globalMultiplier + (if WheelAt(parts, Contents(), Index(x, y)) then 0.1 else 0.0)
    {
      total', global' := totalVelocity, globalMultiplier;
      var cell := cells[y, x];
      if cell.None? || cell.value !in parts {
        return;
      }
      var partDef := parts[cell.value];
      if partDef.partType == Wheel {
        global' := global' + 0.1;
      }
      if partDef.partType == Engine {
        var contribution := EngineContribution(x, y);
        total' := total' + contribution;
      }
    }

    /** The engine at `(x, y)`: its base velocity times the synergy multiplier of its neighbours. */
    method EngineContribution(x: int, y: int) returns (c: real)
      requires Valid() && Resolvable(parts, Contents()) && InBounds(x, y) && EngineAt(parts, Contents(), Index(x, y))
      ensures c == Contribution(parts, Contents(), Index(x, y))
    {
      ghost var b := Contents();
      assert cells[y, x] == b[Index(x, y)];
      var velocity := parts[cells[y, x].value].baseVelocity;
      var neighbors := GetNeighbors(x, y);
      var multiplier := SynergyMultiplier(neighbors);
      EngineContributionAt(parts, b, x, y, velocity, multiplier);
      c := velocity * multiplier;
    }

    method SynergyMultiplier(neighbors: seq<PartId>) returns (multiplier: real)
      requires AllKnown(parts, neighbors)
      ensures multiplier == SynergyProduct(parts, neighbors)
      ensures multiplier == BoosterPower(CountType(parts, neighbors, Booster)) * FramePower(CountType(parts, neighbors, Frame))
    {
      multiplier := 1.0;
      for i := 0 to |neighbors|
        invariant multiplier == SynergyProduct(parts, neighbors[..i])
      {
        var nPartDef := parts[neighbors[i]];
        assert neighbors[..i + 1][..i] == neighbors[..i];
        if nPartDef.partType == Booster {
          multiplier := multiplier * 2.0;
        }
        if nPartDef.partType == Frame {
          multiplier := multiplier * 1.2;
        }
      }
      assert neighbors[..|neighbors|] == neighbors;
      SynergyProductIsPowers(parts, neighbors);
      MultiplierIsPowers(CountType(parts, neighbors, Booster), CountType(parts, neighbors, Frame));
    }

    /** `exportState`: the board as rows of cells. */
    function ExportState(): (rows: seq<seq<Cell>>)
      reads this, cells
      requires Valid()
      ensures |rows| == Height && forall y :: 0 <= y < Height ==> |rows[y]| == Width
      ensures forall y, x :: 0 <= y < Height && 0 <= x < Width ==> rows[y][x] == Contents()[Index(x, y)]
    {
      seq(Height, y requires 0 <= y < Height && Valid() reads this, cells => seq(Width, x requires 0 <= x < Width && Valid() reads this, cells => cells[y, x]))
    }

    /** `importState`: restore a snapshot; a missing snapshot leaves the board as it is. */
    method ImportState(data: Option<seq<seq<Cell>>>)
      requires data.Some? ==> |data.value| == Height && forall y :: 0 <= y < Height ==> |data.value[y]| == Width
      requires data.None? ==> Valid()
      modifies this
      ensures Valid()
      ensures data.None? ==> cells == old(cells)
      ensures data.Some? ==> fresh(cells) && ExportState() == data.value
    {
      if data.None? {
        return;
      }
      var rows := data.value;
      cells := new Cell[Height, Width]((y, x) requires 0 <= y < Height && 0 <= x < Width => rows[y][x]);
      assert forall y :: 0 <= y < Height ==> ExportState()[y] == rows[y];
    }
  }
}
