/**
 * The state effects of `UIManager` in js/ui.js: the inventory list, drag
 * and drop between inventory and board, right-click removal, selecting an
 * area by click, and the shop's list of unlocked parts. Rendering is not
 * part of this model.
 */
module Interaction {
  import opened Optional
  import opened Catalog
  import opened BoardSpec
  import opened GridEngine
  import opened Progression

  /** `draggedItem`: a part dragged from an inventory slot or from a board cell. */
  datatype DragItem = FromInventory(index: nat, partId: PartId) | FromGrid(x: int, y: int, partId: PartId)

  // ---------------------------------------------------------------------
  // Value-level rules

  /** `Object.values(MasterData.parts).filter(p => unlocks.includes(p.id))`, in catalog order. */
  function ShopParts(ps: seq<Part>, unlocks: seq<PartId>): (shop: seq<Part>)
    ensures |shop| <= |ps|
  {
    if ps == [] then []
    else ShopParts(ps[..|ps| - 1], unlocks) + (if ps[|ps| - 1].id in unlocks then [ps[|ps| - 1]] else [])
  }

  /** The shop lists a part exactly when the catalog has it and it is unlocked. */
  lemma {:induction false} ShopMembers(ps: seq<Part>, unlocks: seq<PartId>)
    ensures forall p :: p in ShopParts(ps, unlocks) <==> p in ps && p.id in unlocks
  {
    if ps != [] {
      var n := |ps| - 1;
      ShopMembers(ps[..n], unlocks);
      assert ps == ps[..n] + [ps[n]];
    }
  }

  /** Filtering a catalog one part longer adds that part at the end exactly when it is unlocked. */
  lemma ShopAppend(ps: seq<Part>, p: Part, unlocks: seq<PartId>)
    ensures ShopParts(ps + [p], unlocks) == ShopParts(ps, unlocks) + (if p.id in unlocks then [p] else [])
  {
    assert (ps + [p])[..|ps|] == ps;
  }

  /** A catalog of eight parts in which every other part is unlocked yields those four, in order. */
  lemma ShopOfAlternate(p0: Part, p1: Part, p2: Part, p3: Part, p4: Part, p5: Part, p6: Part, p7: Part, unlocks: seq<PartId>)
    requires p0.id in unlocks && p2.id in unlocks && p4.id in unlocks && p6.id in unlocks
    requires p1.id !in unlocks && p3.id !in unlocks && p5.id !in unlocks && p7.id !in unlocks
    ensures ShopParts([p0, p1, p2, p3, p4, p5, p6, p7], unlocks) == [p0, p2, p4, p6]
  {
    ShopAppend([], p0, unlocks);
    assert [] + [p0] == [p0];
    ShopAppend([p0], p1, unlocks);
    assert [p0] + [p1] == [p0, p1];
    ShopAppend([p0, p1], p2, unlocks);
    assert [p0, p1] + [p2] == [p0, p1, p2];
    ShopAppend([p0, p1, p2], p3, unlocks);
    assert [p0, p1, p2] + [p3] == [p0, p1, p2, p3];
    ShopAppend([p0, p1, p2, p3], p4, unlocks);
    assert [p0, p1, p2, p3] + [p4] == [p0, p1, p2, p3, p4];
    ShopAppend([p0, p1, p2, p3, p4], p5, unlocks);
    assert [p0, p1, p2, p3, p4] + [p5] == [p0, p1, p2, p3, p4, p5];
    ShopAppend([p0, p1, p2, p3, p4, p5], p6, unlocks);
    assert [p0, p1, p2, p3, p4, p5] + [p6] == [p0, p1, p2, p3, p4, p5, p6];
    ShopAppend([p0, p1, p2, p3, p4, p5, p6], p7, unlocks);
    assert [p0, p1, p2, p3, p4, p5, p6] + [p7] == [p0, p1, p2, p3, p4, p5, p6, p7];
  }

  /** The shop of a new game offers exactly the four starter parts, in catalog order. */
  lemma StarterShop()
    ensures ShopParts(PartValues, ["engine_basic", "wheel_basic", "frame_basic", "booster_basic"]) ==
      [EngineBasic, WheelBasic, FrameBasic, BoosterBasic]
  {
    var u := ["engine_basic", "wheel_basic", "frame_basic", "booster_basic"];
    assert EngineBasic.id in u && WheelBasic.id in u && FrameBasic.id in u && BoosterBasic.id in u;
    assert EngineV2.id !in u && WheelRace.id !in u && FrameLight.id !in u && BoosterPlasma.id !in u;
    ShopOfAlternate(EngineBasic, EngineV2, WheelBasic, WheelRace, FrameBasic, FrameLight, BoosterBasic, BoosterPlasma, u);
  }

  /** `splice(index, 1)` for a non-negative index: remove that element, or nothing past the end. */
  function Splice(s: seq<PartId>, i: nat): (r: seq<PartId>)
    ensures i < |s| ==> |r| == |s| - 1 && multiset(r) + multiset{s[i]} == multiset(s)
    ensures i >= |s| ==> r == s
    ensures forall q :: q in r ==> q in s
  {
    if i < |s| then
      assert s == s[..i] + [s[i]] + s[i + 1..];
      s[..i] + s[i + 1..]
    else s
  }

  /**
   * A grid-to-grid drop of part `p` from `(sx, sy)` onto `(x, y)`: empty the
   * source, put the target's former occupant there if it had one, then put
   * `p` on the target.
   */
  function Move(b: Board, sx: int, sy: int, x: int, y: int, p: PartId): (b': Board)
    requires Shaped(b)
    ensures Shaped(b')
  {
    var existing := CellAt(b, x, y);
    var cleared := Remove(b, sx, sy);
    var swapped := if existing.Some? then Place(cleared, sx, sy, existing.value) else cleared;
    Place(swapped, x, y, p)
  }

  /**
   * Whether the area list offers `area` for selection: it is not the active
   * area, and the best velocity on record reaches its threshold (with no
   * record, the comparison fails for every area).
   */
  predicate Selectable(maxVelocity: Option<real>, currentAreaId: AreaId, area: Area)
  {
    area.id != currentAreaId && maxVelocity.Some? && maxVelocity.value >= area.threshold
  }

  /** The parts on the board and in the inventory together. */
  function Holdings(b: Board, inventory: seq<PartId>): multiset<PartId>
  {
    PlacedParts(b) + multiset(inventory)
  }

  /** Placing the dragged inventory part on an empty cell and splicing it out keeps every part. */
  lemma InventoryDropConserves(b: Board, inventory: seq<PartId>, i: nat, x: int, y: int)
    requires Shaped(b) && InBounds(x, y) && CellAt(b, x, y) == None && i < |inventory|
    ensures Holdings(Place(b, x, y, inventory[i]), Splice(inventory, i)) == Holdings(b, inventory)
  {
    var k := Index(x, y);
    var p := inventory[i];
    var b' := b[k := Some(p)];
    assert Place(b, x, y, p) == b';
    PlacedPartsUpdate(b, k, Some(p));
    assert PlacedParts(b') == PlacedParts(b) + multiset{p};
    assert multiset(Splice(inventory, i)) + multiset{p} == multiset(inventory);
    assert forall q :: (PlacedParts(b') + multiset(Splice(inventory, i)))[q] == (PlacedParts(b) + multiset(inventory))[q];
  }

  /** Taking a part off the board into the inventory keeps every part. */
  lemma ReturnConserves(b: Board, inventory: seq<PartId>, x: int, y: int, p: PartId)
    requires Shaped(b) && CellAt(b, x, y) == Some(p)
    ensures Holdings(Remove(b, x, y), inventory + [p]) == Holdings(b, inventory)
  {
    var k := Index(x, y);
    var b' := b[k := None];
    assert Remove(b, x, y) == b';
    PlacedPartsUpdate(b, k, None);
    assert PlacedParts(b') + multiset{p} == PlacedParts(b);
    assert multiset(inventory + [p]) == multiset(inventory) + multiset{p};
    assert forall q :: (PlacedParts(b') + multiset(inventory + [p]))[q] == (PlacedParts(b) + multiset(inventory))[q];
  }

  /** A part added on both sides of a multiset equation cancels. */
  lemma Cancel(m1: multiset<PartId>, m2: multiset<PartId>, e: multiset<PartId>)
    requires m1 + e == m2 + e
    ensures m1 == m2
  {
    assert forall q :: m1[q] == (m1 + e)[q] - e[q];
  }

  /** A grid-to-grid move of the part that sits on the source cell keeps the board's parts. */
  lemma MoveConserves(b: Board, sx: int, sy: int, x: int, y: int, p: PartId)
    requires Shaped(b) && InBounds(sx, sy) && InBounds(x, y) && CellAt(b, sx, sy) == Some(p)
    ensures PlacedParts(Move(b, sx, sy, x, y, p)) == PlacedParts(b)
  {
    var ks, kt := Index(sx, sy), Index(x, y);
    var existing := b[kt];
    var cleared := b[ks := None];
    if ks == kt {
      assert Move(b, sx, sy, x, y, p) == cleared[ks := Some(p)][kt := Some(p)];
      assert cleared[ks := Some(p)][kt := Some(p)] == b;
    } else {
      var swapped := b[ks := existing];
      assert Move(b, sx, sy, x, y, p) == swapped[kt := Some(p)];
      PlacedPartsUpdate(b, ks, existing);
      PlacedPartsUpdate(swapped, kt, Some(p));
      assert swapped[kt] == existing;
      Cancel(PlacedParts(swapped[kt := Some(p)]), PlacedParts(b), CellParts(existing));
    }
  }

  /** A move of a part that sits on the source cell keeps a board that names only catalog parts so. */
  lemma MoveCatalogued(cat: PartTable, b: Board, sx: int, sy: int, x: int, y: int, p: PartId)
    requires Shaped(b) && CatalogOnly(cat, b) && InBounds(sx, sy) && CellAt(b, sx, sy) == Some(p)
    ensures CatalogOnly(cat, Move(b, sx, sy, x, y, p))
  {
    var cleared := Remove(b, sx, sy);
    assert CatalogOnly(cat, cleared);
    var existing := CellAt(b, x, y);
    var swapped := if existing.Some? then Place(cleared, sx, sy, existing.value) else cleared;
    assert CatalogOnly(cat, swapped);
  }

  /**
   * After a move the dragged part sits on the target, the target's former
   * occupant (or nothing) on the source, and every other cell is unchanged;
   * dropping a part onto its own cell changes nothing.
   */
  lemma MoveEffect(b: Board, sx: int, sy: int, x: int, y: int, p: PartId)
    requires Shaped(b) && InBounds(sx, sy) && InBounds(x, y) && CellAt(b, sx, sy) == Some(p)
    ensures CellAt(Move(b, sx, sy, x, y, p), x, y) == Some(p)
    ensures (sx, sy) != (x, y) ==> CellAt(Move(b, sx, sy, x, y, p), sx, sy) == CellAt(b, x, y)
    ensures forall u, v :: (u, v) != (sx, sy) && (u, v) != (x, y) ==> CellAt(Move(b, sx, sy, x, y, p), u, v) == CellAt(b, u, v)
    ensures (sx, sy) == (x, y) ==> Move(b, sx, sy, x, y, p) == b
  {
    var existing := CellAt(b, x, y);
    var cleared := Remove(b, sx, sy);
    var swapped := if existing.Some? then Place(cleared, sx, sy, existing.value) else cleared;
    forall u, v
      ensures CellAt(Move(b, sx, sy, x, y, p), u, v) ==
        if (u, v) == (x, y) then Some(p) else if (u, v) == (sx, sy) then existing else CellAt(b, u, v)
    {
      PlaceEffect(swapped, x, y, p, u, v);
      RemoveEffect(b, sx, sy, u, v);
      if existing.Some? {
        PlaceEffect(cleared, sx, sy, existing.value, u, v);
      }
    }
    if (sx, sy) == (x, y) {
      var k := Index(x, y);
      assert Move(b, sx, sy, x, y, p) == b[k := Some(p)];
    }
  }

  // ---------------------------------------------------------------------
  // The manager

  class UIManager {
    const game: Game
    var draggedItem: Option<DragItem>

    constructor (game: Game)
      ensures this.game == game && draggedItem == None
    {
      this.game := game;
      draggedItem := None;
    }

    /** The board and inventory, as parts held. */
    ghost function PartsHeld(): multiset<PartId>
      reads game, game.grid, game.grid.cells
      requires game.grid.Valid()
    {
      Holdings(game.grid.Contents(), game.inventory)
    }

    /** The drag data still describes the state: the slot or cell it was taken from holds that part. */
    ghost predicate Current(item: DragItem)
      reads game, game.grid, game.grid.cells
      requires game.grid.Valid()
    {
      match item
      case FromInventory(i, p) => i < |game.inventory| && game.inventory[i] == p
      case FromGrid(x, y, p) => InBounds(x, y) && CellAt(game.grid.Contents(), x, y) == Some(p)
    }

    /** `addInventoryItem`: append the id at the end of the inventory. */
    method AddInventoryItem(partId: PartId)
      modifies game
      ensures game.inventory == old(game.inventory) + [partId]
      ensures game.Snapshot() == old(game.Snapshot())
      ensures game.researched == old(game.researched) && game.maxVelocity == old(game.maxVelocity)
      ensures old(game.Valid()) && partId in game.parts ==> game.Valid()
    {
      game.inventory := game.inventory + [partId];
    }

    /** `handleDragStart`: remember the dragged part. */
    method HandleDragStart(data: DragItem)
      modifies this
      ensures draggedItem == Some(data)
    {
      draggedItem := Some(data);
    }

    /**
     * `handleDrop` on the cell `(x, y)`. A part from the inventory goes onto
     * an empty cell and leaves its slot; onto an occupied cell the drop is
     * refused and the drag stays pending. A part from the board moves to the
     * target, and the target's occupant, if any, takes its place.
     */
    method HandleDrop(x: int, y: int)
      requires game.grid.Valid()
      modifies this, game, game.grid.cells
      ensures game.grid.Valid()
      ensures game.Snapshot() == old(game.Snapshot())
      ensures game.researched == old(game.researched) && game.maxVelocity == old(game.maxVelocity)
      ensures old(draggedItem).None? ==>
        draggedItem == None && game.grid.Contents() == old(game.grid.Contents()) && game.inventory == old(game.inventory)
      ensures old(draggedItem).Some? && old(draggedItem).value.FromInventory? ==>
        var item := old(draggedItem).value;
        if CellAt(old(game.grid.Contents()), x, y).Some? then
          draggedItem == old(draggedItem) && game.grid.Contents() == old(game.grid.Contents()) && game.inventory == old(game.inventory)
        else
          draggedItem == None && game.grid.Contents() == Place(old(game.grid.Contents()), x, y, item.partId)
          && game.inventory == Splice(old(game.inventory), item.index)
      ensures old(draggedItem).Some? && old(draggedItem).value.FromGrid? ==>
        var item := old(draggedItem).value;
        draggedItem == None && game.inventory == old(game.inventory)
        && game.grid.Contents() == Move(old(game.grid.Contents()), item.x, item.y, x, y, item.partId)
      ensures old(draggedItem.Some? && Current(draggedItem.value)) && InBounds(x, y) ==> PartsHeld() == old(PartsHeld())
      ensures old(game.Valid() && (draggedItem.Some? ==> Current(draggedItem.value))) ==> game.Valid()
    {
      if draggedItem.None? {
        return;
      }
      match draggedItem.value {
        case FromInventory(index, partId) =>
          var accepted := DropFromInventory(index, partId, x, y);
          if !accepted {
            return;
          }
        case FromGrid(srcX, srcY, partId) =>
          MoveOnGrid(srcX, srcY, x, y, partId);
      }
      draggedItem := None;
    }

    /** The inventory branch of `handleDrop`: refuse an occupied cell, otherwise place the part and splice its slot out. */
    method DropFromInventory(index: nat, partId: PartId, x: int, y: int) returns (accepted: bool)
      requires game.grid.Valid()
      modifies game, game.grid.cells
      ensures game.grid.Valid()
      ensures game.Snapshot() == old(game.Snapshot())
      ensures game.researched == old(game.researched) && game.maxVelocity == old(game.maxVelocity)
      ensures accepted == CellAt(old(game.grid.Contents()), x, y).None?
      ensures !accepted ==> game.grid.Contents() == old(game.grid.Contents()) && game.inventory == old(game.inventory)
      ensures accepted ==>
        game.grid.Contents() == Place(old(game.grid.Contents()), x, y, partId)
        && game.inventory == Splice(old(game.inventory), index)
      ensures old(index < |game.inventory| && game.inventory[index] == partId) && InBounds(x, y) ==> PartsHeld() == old(PartsHeld())
      ensures old(game.Valid() && index < |game.inventory| && game.inventory[index] == partId) ==> game.Valid()
    {
      ghost var b := game.grid.Contents();
      var existing := game.grid.GetPartAt(x, y);
      if existing.Some? {
        return false;
      }
      var placed := game.grid.PlacePart(x, y, partId);
      game.inventory := Splice(game.inventory, index);
      if index < |old(game.inventory)| && old(game.inventory)[index] == partId && InBounds(x, y) {
        InventoryDropConserves(b, old(game.inventory), index, x, y);
      }
      return true;
    }

    /** The board branch of `handleDrop`: move the part, swapping it with the target's occupant. */
    method MoveOnGrid(srcX: int, srcY: int, x: int, y: int, partId: PartId)
      requires game.grid.Valid()
      modifies game.grid.cells
      ensures game.grid.Valid()
      ensures game.grid.Contents() == Move(old(game.grid.Contents()), srcX, srcY, x, y, partId)
      ensures old(InBounds(srcX, srcY) && CellAt(game.grid.Contents(), srcX, srcY) == Some(partId)) && InBounds(x, y) ==>
        PlacedParts(game.grid.Contents()) == old(PlacedParts(game.grid.Contents()))
      ensures old(game.Valid() && InBounds(srcX, srcY) && CellAt(game.grid.Contents(), srcX, srcY) == Some(partId)) ==> game.Valid()
    {
      ghost var b := game.grid.Contents();
      var existing := game.grid.GetPartAt(x, y);
      var removed := game.grid.RemovePart(srcX, srcY);
      if existing.Some? {
        var swapped := game.grid.PlacePart(srcX, srcY, existing.value);
      }
      var placed := game.grid.PlacePart(x, y, partId);
      if InBounds(srcX, srcY) && CellAt(b, srcX, srcY) == Some(partId) {
        if InBounds(x, y) {
          MoveConserves(b, srcX, srcY, x, y, partId);
        }
        if old(game.Valid()) {
          MoveCatalogued(game.parts, b, srcX, srcY, x, y, partId);
        }
      }
    }

    /**
     * The inventory's drop handler: a part dragged from the board leaves its
     * cell and is appended to the inventory; a drag from the inventory stays
     * pending and nothing changes.
     */
    method HandleInventoryDrop()
      requires game.grid.Valid()
      modifies this, game, game.grid.cells
      ensures game.grid.Valid()
      ensures game.Snapshot() == old(game.Snapshot())
      ensures game.researched == old(game.researched) && game.maxVelocity == old(game.maxVelocity)
      ensures old(draggedItem).Some? && old(draggedItem).value.FromGrid? ==>
        var item := old(draggedItem).value;
        draggedItem == None && game.grid.Contents() == Remove(old(game.grid.Contents()), item.x, item.y)
        && game.inventory == old(game.inventory) + [item.partId]
      ensures !(old(draggedItem).Some? && old(draggedItem).value.FromGrid?) ==>
        draggedItem == old(draggedItem) && game.grid.Contents() == old(game.grid.Contents()) && game.inventory == old(game.inventory)
      ensures old(draggedItem.Some? && Current(draggedItem.value)) ==> PartsHeld() == old(PartsHeld())
      ensures old(game.Valid() && (draggedItem.Some? ==> Current(draggedItem.value))) ==> game.Valid()
    {
      if draggedItem.None? || !draggedItem.value.FromGrid? {
        return;
      }
      ghost var b := game.grid.Contents();
      ghost var current := Current(draggedItem.value);
      var FromGrid(x, y, partId) := draggedItem.value;
      var removed := game.grid.RemovePart(x, y);
      AddInventoryItem(partId);
      if current {
        ReturnConserves(b, old(game.inventory), x, y, partId);
      }
      draggedItem := None;
    }

    /** The board's right-click handler: an occupied cell is emptied and its part appended to the inventory. */
    method RightClick(x: int, y: int)
      requires game.grid.Valid()
      modifies game, game.grid.cells
      ensures game.grid.Valid()
      ensures game.Snapshot() == old(game.Snapshot())
      ensures game.researched == old(game.researched) && game.maxVelocity == old(game.maxVelocity)
      ensures CellAt(old(game.grid.Contents()), x, y).Some? ==>
        game.grid.Contents() == Remove(old(game.grid.Contents()), x, y)
        && game.inventory == old(game.inventory) + [CellAt(old(game.grid.Contents()), x, y).value]
      ensures CellAt(old(game.grid.Contents()), x, y).None? ==>
        game.grid.Contents() == old(game.grid.Contents()) && game.inventory == old(game.inventory)
      ensures PartsHeld() == old(PartsHeld())
      ensures old(game.Valid()) ==> game.Valid()
    {
      var cell := game.grid.GetPartAt(x, y);
      if cell.Some? {
        ghost var b := game.grid.Contents();
        var partId := cell.value;
        var removed := game.grid.RemovePart(x, y);
        AddInventoryItem(partId);
        ReturnConserves(b, old(game.inventory), x, y, partId);
      }
    }

    /** The click handler of area `i` in the area list: select it when the list offers it. */
    method ClickArea(i: int)
      requires 0 <= i < |Areas|
      modifies game
      ensures game.currentAreaId ==
        if Selectable(old(game.maxVelocity), old(game.currentAreaId), Areas[i]) then Areas[i].id else old(game.currentAreaId)
      ensures game.maxVelocity.None? ==> game.currentAreaId == old(game.currentAreaId)
      ensures game.velocity == old(game.velocity) && game.distance == old(game.distance)
      ensures game.resources == old(game.resources) && game.unlocks == old(game.unlocks)
      ensures game.inventory == old(game.inventory)
      ensures game.researched == old(game.researched) && game.maxVelocity == old(game.maxVelocity)
      ensures old(game.Valid()) ==> game.Valid()
    {
      var area := Areas[i];
      var isUnlocked := game.maxVelocity.Some? && game.maxVelocity.value >= area.threshold;
      if area.id == game.currentAreaId {
      } else if isUnlocked {
        game.currentAreaId := area.id;
      }
    }
  }

  // ---------------------------------------------------------------------
  // A first session

  /**
   * A new game is built and initialised, the player drags the first
   * inventory slot (`engine_basic`) onto the middle cell `(5, 5)`, and one
   * second passes: the vehicle moves at 10 and has covered 10.
   */
  method FirstEngine() returns (g: Game)
    ensures g.velocity == 10.0 && g.distance == 10.0
    ensures g.inventory == ["wheel_basic", "frame_basic"]
  {
    g := NewGame();
    DropFirstEngine(g);
    LoneEngineVelocity();
    g.Update(1.0);
  }

  /** `new Game()` followed by `init()`: a valid game on an empty board, which the caller may change. */
  method NewGame() returns (g: Game)
    ensures fresh(g) && fresh(g.grid) && fresh(g.grid.cells) && g.Valid() && g.parts == Parts
    ensures g.grid.Contents() == EmptyBoard() && g.distance == 0.0
    ensures g.inventory == ["engine_basic", "wheel_basic", "frame_basic"]
  {
    g := new Game();
    g.Init();
  }

  /** Dragging the first inventory slot onto `(5, 5)` of an empty board leaves a lone engine there. */
  method DropFirstEngine(g: Game)
    requires g.Valid() && g.parts == Parts && g.grid.Contents() == EmptyBoard()
    requires g.inventory == ["engine_basic", "wheel_basic", "frame_basic"]
    modifies g, g.grid.cells
    ensures g.Valid() && g.grid.Contents() == LoneEngine()
    ensures g.inventory == ["wheel_basic", "frame_basic"] && g.distance == old(g.distance)
  {
    var ui := new UIManager(g);
    ui.HandleDragStart(FromInventory(0, "engine_basic"));
    ghost var b0, i0 := g.grid.Contents(), g.inventory;
    assert b0 == EmptyBoard() && CellAt(b0, 5, 5) == None;
    assert ui.draggedItem == Some(FromInventory(0, "engine_basic"));
    assert g.Valid() && ui.Current(ui.draggedItem.value);
    ui.HandleDrop(5, 5);
    assert g.grid.Contents() == Place(b0, 5, 5, "engine_basic");
    assert g.inventory == Splice(i0, 0) == ["wheel_basic", "frame_basic"];
  }
}
