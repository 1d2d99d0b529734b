/**
 * qdInventory: a list of cell sets with one numbering of all their cells
 * (the cells of the first set, then those of the second, ...), the
 * placement, removal and lookup of game objects across the sets, the
 * redraw flag, the shadow settings and the additional cells shared by all
 * sets.
 *
 * Cell positions and the cells a point addresses follow the sets' layout
 * with rows `size.x + additional.x` cells apart (see InventoryCells); the
 * mouse handler, drawing, scripts and save data are not part of this model.
 */
module Inventories {
  import opened Wrappers
  import opened InventoryCells
  import FileOwners

  /** The inventory flags. */
  const TakeToMouse: int := 0x01
  const DontOpenAfterTake: int := 0x02
  const PutObjectAfterClick: int := 0x04
  const EnableRightClick: int := 0x08
  const VisibleWhenInactive: int := 0x10

  /** INV_DEFAULT_SHADOW_COLOR and INV_DEFAULT_SHADOW_ALPHA. */
  const DefaultShadowColor: U32 := 0
  const DefaultShadowAlpha: int := 128

  /** The inventory flags are the five distinct single bits 2^0 to 2^4, in order. */
  lemma FlagsAreDistinctBits()
    ensures var flags := [TakeToMouse, DontOpenAfterTake, PutObjectAfterClick, EnableRightClick, VisibleWhenInactive];
      forall k :: 0 <= k < |flags| ==> flags[k] == FileOwners.Pow2(k)
    ensures DefaultShadowColor == 0 && DefaultShadowAlpha == 128
  {
  }

  /** Some set holds `p`. */
  predicate InList(sets: seq<CellSet>, p: GameObject?) {
    exists k :: 0 <= k < |sets| && sets[k].Holds(p)
  }

  /** Every set with cells has rows of at least one cell, as cell_position divides by the row width. */
  predicate RowsNonEmpty(sets: seq<CellSet>) {
    forall k :: 0 <= k < |sets| && |sets[k].cells| > 0 ==> sets[k].Width() != 0
  }

  /** Every set is valid. */
  predicate AllValid(sets: seq<CellSet>) {
    forall k :: 0 <= k < |sets| ==> sets[k].Valid()
  }

  /**
   * cell_index from set `i` on, the cells before set `i` numbering `base`:
   * the number of the first cell holding `p`, or -1.
   */
  function IndexFrom(sets: seq<CellSet>, i: nat, base: int, p: GameObject?): int
    requires i <= |sets|
    decreases |sets| - i
  {
    if i == |sets| then -1
    else
      var k := FirstHolding(sets[i].cells, p);
      if k != -1 then base + k else IndexFrom(sets, i + 1, base + |sets[i].cells|, p)
  }

  /** The number cell_index gives the first cell holding `p`, or -1. */
  function GlobalIndex(sets: seq<CellSet>, p: GameObject?): int {
    IndexFrom(sets, 0, 0, p)
  }

  /**
   * cell_position's decoding from set `i` on: the set an index falls in
   * and the index within it, subtracting each earlier set's cell count; none
   * past the last set. A negative index falls in the first set.
   */
  function LocateFrom(sets: seq<CellSet>, i: nat, idx: int): Option<(nat, int)>
    requires i <= |sets|
    decreases |sets| - i
  {
    if i == |sets| then None
    else if idx < |sets[i].cells| then Some((i, idx))
    else LocateFrom(sets, i + 1, idx - |sets[i].cells|)
  }

  /** The set and local index of a global cell index. */
  function Locate(sets: seq<CellSet>, idx: int): (r: Option<(nat, int)>)
    ensures r.Some? ==> r.value.0 < |sets| && r.value.1 < |sets[r.value.0].cells|
  {
    LocateFromBounds(sets, 0, idx);
    LocateFrom(sets, 0, idx)
  }

  /** LocateFrom names a set at or after `i` and an index below its cell count. */
  lemma {:induction false} LocateFromBounds(sets: seq<CellSet>, i: nat, idx: int)
    requires i <= |sets|
    ensures var r := LocateFrom(sets, i, idx);
      r.Some? ==> i <= r.value.0 < |sets| && r.value.1 < |sets[r.value.0].cells|
    decreases |sets| - i
  {
    if i < |sets| && idx >= |sets[i].cells| {
      LocateFromBounds(sets, i + 1, idx - |sets[i].cells|);
    }
  }

  /** The position cell_position gives a global cell index: (0,0) past the last set. */
  function PositionOf(sets: seq<CellSet>, idx: int): Vec2
    requires RowsNonEmpty(sets)
  {
    match Locate(sets, idx)
    case None => Vec2(0, 0)
    case Some(loc) => sets[loc.0].CellPosition(loc.1)
  }

  /**
   * The number cell_index gives is -1 exactly when no set holds the object,
   * and otherwise cell_position's decoding takes it back to a cell holding
   * the object: the first one, in the first set holding it.
   */
  lemma IndexLocatesObject(sets: seq<CellSet>, p: GameObject?)
    ensures GlobalIndex(sets, p) >= 0 <==> InList(sets, p)
    ensures GlobalIndex(sets, p) >= 0 ==> var r := Locate(sets, GlobalIndex(sets, p));
      r.Some? && 0 <= r.value.1 && sets[r.value.0].cells[r.value.1].obj == p &&
      r.value.1 == FirstHolding(sets[r.value.0].cells, p)
  {
    IndexFromLocates(sets, 0, 0, p);
  }

  /** IndexLocatesObject from set `i` on. */
  lemma {:induction false} IndexFromLocates(sets: seq<CellSet>, i: nat, base: nat, p: GameObject?)
    requires i <= |sets|
    ensures var g := IndexFrom(sets, i, base, p);
      (g != -1 ==> g >= base) &&
      (g != -1 <==> exists k :: i <= k < |sets| && sets[k].Holds(p)) &&
      (g != -1 ==> var r := LocateFrom(sets, i, g - base);
        r.Some? && r.value.0 < |sets| && 0 <= r.value.1 < |sets[r.value.0].cells| &&
        sets[r.value.0].cells[r.value.1].obj == p && r.value.1 == FirstHolding(sets[r.value.0].cells, p))
    decreases |sets| - i
  {
    if i < |sets| {
      var k := FirstHolding(sets[i].cells, p);
      if k == -1 {
        IndexFromLocates(sets, i + 1, base + |sets[i].cells|, p);
      } else {
        assert sets[i].cells[k].obj == p;
        assert sets[i].Holds(p);
      }
    }
  }

  /** The first set from `i` on with a cell that takes `p`. */
  function AcceptingFrom(sets: seq<CellSet>, i: nat, p: GameObject): (r: Option<nat>)
    requires i <= |sets|
    ensures r.Some? ==> i <= r.value < |sets| && FirstFit(sets[r.value].cells, p.inventoryType) >= 0
    ensures r.None? <==> forall k :: i <= k < |sets| ==> FirstFit(sets[k].cells, p.inventoryType) < 0
    decreases |sets| - i
  {
    if i == |sets| then None
    else if FirstFit(sets[i].cells, p.inventoryType) >= 0 then Some(i)
    else AcceptingFrom(sets, i + 1, p)
  }

  /** The first set from `i` on whose put_object(p, pos) succeeds. */
  function AcceptingAtFrom(sets: seq<CellSet>, i: nat, p: GameObject, pos: Vec2): (r: Option<nat>)
    requires i <= |sets|
    ensures r.Some? ==> i <= r.value < |sets| && sets[r.value].PutObjectAt(p, pos).0
    ensures r.None? <==> forall k :: i <= k < |sets| ==> !sets[k].PutObjectAt(p, pos).0
    decreases |sets| - i
  {
    if i == |sets| then None
    else if sets[i].PutObjectAt(p, pos).0 then Some(i)
    else AcceptingAtFrom(sets, i + 1, p, pos)
  }

  /** The first set from `i` on holding `p`. */
  function HoldingFrom(sets: seq<CellSet>, i: nat, p: GameObject?): (r: Option<nat>)
    requires i <= |sets|
    ensures r.Some? ==> i <= r.value < |sets| && sets[r.value].Holds(p)
    ensures r.None? <==> forall k :: i <= k < |sets| ==> !sets[k].Holds(p)
    decreases |sets| - i
  {
    if i == |sets| then None
    else if sets[i].Holds(p) then Some(i)
    else HoldingFrom(sets, i + 1, p)
  }

  /** get_object from set `i` on: the first non-null object got from a set the point hits. */
  function ObjectAtFrom(sets: seq<CellSet>, i: nat, pos: Vec2): (r: GameObject?)
    requires i <= |sets|
    ensures r != null ==> InList(sets, r)
    decreases |sets| - i
  {
    if i == |sets| then null
    else if sets[i].Hit(pos) && sets[i].GetObjectAt(pos) != null then sets[i].GetObjectAt(pos)
    else ObjectAtFrom(sets, i + 1, pos)
  }

  /** The sets with set `j` holding `p` in cell `k`. */
  function PlacedIn(sets: seq<CellSet>, j: nat, k: int, p: GameObject?): (r: seq<CellSet>)
    requires j < |sets| && 0 <= k < |sets[j].cells|
    ensures |r| == |sets|
  {
    sets[j := sets[j].WithObject(k, p)]
  }

  /** After a set's cell takes `p`, some set holds `p`. */
  lemma PlacedInHolds(sets: seq<CellSet>, j: nat, k: int, p: GameObject?)
    requires j < |sets| && 0 <= k < |sets[j].cells|
    ensures InList(PlacedIn(sets, j, k, p), p)
  {
    var r := PlacedIn(sets, j, k, p);
    assert r[j].cells[k].obj == p;
  }

  class Inventory {
    var cellSets: seq<CellSet>
    var needRedraw: bool
    var shadowColor: U32
    var shadowAlpha: int
    var additionalCells: Vec2

    /** The constructor: no sets, no redraw pending, the default shadow, no additional cells. */
    constructor()
      ensures cellSets == [] && !needRedraw
      ensures shadowColor == DefaultShadowColor && shadowAlpha == DefaultShadowAlpha
      ensures additionalCells == Vec2(0, 0)
    {
      cellSets := [];
      needRedraw := false;
      shadowColor := DefaultShadowColor;
      shadowAlpha := DefaultShadowAlpha;
      additionalCells := Vec2(0, 0);
    }

    /** add_cell_set: a copy of the set goes at the end. */
    method AddCellSet(s: CellSet)
      modifies this
      ensures cellSets == old(cellSets) + [s]
      ensures needRedraw == old(needRedraw) && shadowColor == old(shadowColor)
      ensures shadowAlpha == old(shadowAlpha) && additionalCells == old(additionalCells)
    {
      cellSets := cellSets + [s];
    }

    /** remove_cell_set: the set at a valid index is erased; the others keep their order. */
    method RemoveCellSet(idx: int)
      requires 0 <= idx < |cellSets|
      modifies this
      ensures cellSets == old(cellSets)[..idx] + old(cellSets)[idx + 1..]
      ensures needRedraw == old(needRedraw) && shadowColor == old(shadowColor)
      ensures shadowAlpha == old(shadowAlpha) && additionalCells == old(additionalCells)
    {
      cellSets := cellSets[..idx] + cellSets[idx + 1..];
    }

    /** get_cell_set. */
    function GetCellSet(id: int): CellSet
      reads this
      requires 0 <= id < |cellSets|
    {
      cellSets[id]
    }

    /** set_cells_pos: only an existing set moves. */
    method SetCellsPos(id: int, pos: Vec2)
      modifies this
      ensures cellSets == if 0 <= id < |old(cellSets)| then old(cellSets)[id := old(cellSets)[id].(screenPos := pos)] else old(cellSets)
      ensures needRedraw == old(needRedraw) && shadowColor == old(shadowColor)
      ensures shadowAlpha == old(shadowAlpha) && additionalCells == old(additionalCells)
    {
      if 0 <= id < |cellSets| {
        cellSets := cellSets[id := cellSets[id].(screenPos := pos)];
      }
    }

    /** set_cells_type: only an existing set takes the cell type. */
    method SetCellsType(id: int, tp: CellType)
      modifies this
      ensures cellSets == if 0 <= id < |old(cellSets)| then old(cellSets)[id := old(cellSets)[id].WithCellType(tp)] else old(cellSets)
      ensures needRedraw == old(needRedraw) && shadowColor == old(shadowColor)
      ensures shadowAlpha == old(shadowAlpha) && additionalCells == old(additionalCells)
    {
      if 0 <= id < |cellSets| {
        cellSets := cellSets[id := cellSets[id].WithCellType(tp)];
      }
    }

    /** set_cells_size: only an existing set takes the size. */
    method SetCellsSize(id: int, sz: Vec2)
      modifies this
      ensures cellSets == if 0 <= id < |old(cellSets)| then old(cellSets)[id := old(cellSets)[id].(size := sz)] else old(cellSets)
      ensures needRedraw == old(needRedraw) && shadowColor == old(shadowColor)
      ensures shadowAlpha == old(shadowAlpha) && additionalCells == old(additionalCells)
    {
      if 0 <= id < |cellSets| {
        cellSets := cellSets[id := cellSets[id].(size := sz)];
      }
    }

    /** cell_index: the earlier sets' cell counts plus the index within the first set holding obj, or -1. */
    method CellIndex(p: GameObject?) returns (r: int)
      ensures r == GlobalIndex(cellSets, p)
      ensures r >= 0 <==> InList(cellSets, p)
    {
      IndexLocatesObject(cellSets, p);
      var index := 0;
      var i := 0;
      while i < |cellSets|
        invariant 0 <= i <= |cellSets|
        invariant IndexFrom(cellSets, i, index, p) == GlobalIndex(cellSets, p)
      {
        var idx := cellSets[i].CellIndex(p);
        if idx != -1 {
          return index + idx;
        }
        index := index + |cellSets[i].cells|;
        i := i + 1;
      }
      return -1;
    }

    /** cell_position: the position of the cell a global index falls in, or (0,0) past the last set. */
    method CellPosition(idx: int) returns (r: Vec2)
      requires RowsNonEmpty(cellSets)
      ensures r == PositionOf(cellSets, idx)
    {
      var rest := idx;
      var i := 0;
      while i < |cellSets|
        invariant 0 <= i <= |cellSets|
        invariant LocateFrom(cellSets, i, rest) == Locate(cellSets, idx)
      {
        if rest < |cellSets[i].cells| {
          return cellSets[i].CellPosition(rest);
        }
        rest := rest - |cellSets[i].cells|;
        i := i + 1;
      }
      return Vec2(0, 0);
    }

    /** is_object_in_list: whether some set holds p. */
    method IsObjectInList(p: GameObject?) returns (b: bool)
      ensures b <==> InList(cellSets, p)
    {
      var i := 0;
      while i < |cellSets|
        invariant 0 <= i <= |cellSets|
        invariant forall k :: 0 <= k < i ==> !cellSets[k].Holds(p)
      {
        b := cellSets[i].IsObjectInList(p);
        if b {
          return;
        }
        i := i + 1;
      }
      return false;
    }

    /** get_object(pos): the first object got from a set the point hits, or none. */
    method GetObject(pos: Vec2) returns (r: GameObject?)
      ensures r == ObjectAtFrom(cellSets, 0, pos)
      ensures r != null ==> InList(cellSets, r)
    {
      var i := 0;
      while i < |cellSets|
        invariant 0 <= i <= |cellSets|
        invariant ObjectAtFrom(cellSets, i, pos) == ObjectAtFrom(cellSets, 0, pos)
      {
        if cellSets[i].Hit(pos) {
          var q := cellSets[i].GetObjectAt(pos);
          if q != null {
            return q;
          }
        }
        i := i + 1;
      }
      return null;
    }

    /**
     * What put_object records once a set has taken p: p remembers the
     * number of the first cell holding it, p is marked as in the
     * inventory, and a redraw is due.
     */
    method RecordPlaced(p: GameObject, ghost j: nat, ghost k: int)
      requires j < |cellSets| && 0 <= k < |cellSets[j].cells| && cellSets[j].cells[k].obj == p
      modifies this, p
      ensures cellSets == old(cellSets) && needRedraw && p.inInventory
      ensures p.cellIndex == GlobalIndex(cellSets, p) && p.cellIndex >= 0 && InList(cellSets, p)
      ensures shadowColor == old(shadowColor) && shadowAlpha == old(shadowAlpha) && additionalCells == old(additionalCells)
    {
      assert cellSets[j].Holds(p);
      var ci := CellIndex(p);
      p.cellIndex := ci;
      p.inInventory := true;
      needRedraw := true;
    }

    /**
     * put_object(p, pos): the first set whose put_object(p, pos) succeeds
     * takes p, which is then recorded; false, and nothing changed, when no
     * set takes it.
     */
    method PutObjectAt(p: GameObject, pos: Vec2) returns (ok: bool)
      modifies this, p
      ensures var j := AcceptingAtFrom(old(cellSets), 0, p, pos);
        ok == j.Some? &&
        (ok ==> cellSets == old(cellSets)[j.value := old(cellSets)[j.value].PutObjectAt(p, pos).1])
      ensures ok ==> needRedraw && p.inInventory && p.cellIndex == GlobalIndex(cellSets, p) && InList(cellSets, p)
      ensures !ok ==> cellSets == old(cellSets) && needRedraw == old(needRedraw)
      ensures !ok ==> p.cellIndex == old(p.cellIndex) && p.inInventory == old(p.inInventory)
      ensures shadowColor == old(shadowColor) && shadowAlpha == old(shadowAlpha) && additionalCells == old(additionalCells)
    {
      var i := 0;
      while i < |cellSets|
        invariant 0 <= i <= |cellSets|
        invariant AcceptingAtFrom(cellSets, i, p, pos) == AcceptingAtFrom(cellSets, 0, p, pos)
        invariant cellSets == old(cellSets) && needRedraw == old(needRedraw)
        invariant p.inInventory == old(p.inInventory) && p.cellIndex == old(p.cellIndex)
        invariant shadowColor == old(shadowColor) && shadowAlpha == old(shadowAlpha) && additionalCells == old(additionalCells)
      {
        var r := cellSets[i].PutObjectAt(p, pos);
        if r.0 {
          ghost var k := cellSets[i].Addressed(pos);
          cellSets := cellSets[i := r.1];
          RecordPlaced(p, i, k);
          return true;
        }
        i := i + 1;
      }
      return false;
    }

    /**
     * The fallback of put_object(p): the first set with a cell that takes
     * p puts it in its first such cell, which is then recorded; false, and
     * nothing changed, when no set has one.
     */
    method PutObjectInFirstSet(p: GameObject) returns (ok: bool)
      modifies this, p
      ensures var j := AcceptingFrom(old(cellSets), 0, p);
        ok == j.Some? &&
        (ok ==> cellSets == PlacedIn(old(cellSets), j.value, FirstFit(old(cellSets)[j.value].cells, p.inventoryType), p))
      ensures ok ==> needRedraw && p.inInventory && p.cellIndex == GlobalIndex(cellSets, p) && InList(cellSets, p)
      ensures !ok ==> cellSets == old(cellSets) && needRedraw == old(needRedraw)
      ensures !ok ==> p.cellIndex == old(p.cellIndex) && p.inInventory == old(p.inInventory)
      ensures shadowColor == old(shadowColor) && shadowAlpha == old(shadowAlpha) && additionalCells == old(additionalCells)
    {
      var i := 0;
      while i < |cellSets|
        invariant 0 <= i <= |cellSets|
        invariant AcceptingFrom(cellSets, i, p) == AcceptingFrom(cellSets, 0, p)
        invariant cellSets == old(cellSets) && needRedraw == old(needRedraw)
        invariant p.inInventory == old(p.inInventory) && p.cellIndex == old(p.cellIndex)
        invariant shadowColor == old(shadowColor) && shadowAlpha == old(shadowAlpha) && additionalCells == old(additionalCells)
      {
        var ok', s := cellSets[i].PutObject(p);
        if ok' {
          ghost var k := FirstFit(cellSets[i].cells, p.inventoryType);
          cellSets := cellSets[i := s];
          RecordPlaced(p, i, k);
          return true;
        }
        i := i + 1;
      }
      return false;
    }

    /**
     * put_object(p): first the position of the cell p remembers, when it
     * remembers one; then the first set with a cell that takes p. On
     * success p is in the inventory, remembers the number of the first
     * cell holding it, and a redraw is due; on failure nothing changes.
     */
    method PutObject(p: GameObject) returns (ok: bool)
      requires RowsNonEmpty(cellSets)
      modifies this, p
      ensures ok <==> ((old(p.cellIndex) != -1 &&
        AcceptingAtFrom(old(cellSets), 0, p, PositionOf(old(cellSets), old(p.cellIndex))).Some?) ||
        AcceptingFrom(old(cellSets), 0, p).Some?)
      ensures var pos := PositionOf(old(cellSets), old(p.cellIndex));
        var at := AcceptingAtFrom(old(cellSets), 0, p, pos);
        old(p.cellIndex) != -1 && at.Some? ==>
          cellSets == old(cellSets)[at.value := old(cellSets)[at.value].PutObjectAt(p, pos).1]
      ensures var at := AcceptingAtFrom(old(cellSets), 0, p, PositionOf(old(cellSets), old(p.cellIndex)));
        var first := AcceptingFrom(old(cellSets), 0, p);
        !(old(p.cellIndex) != -1 && at.Some?) && first.Some? ==>
          cellSets == PlacedIn(old(cellSets), first.value, FirstFit(old(cellSets)[first.value].cells, p.inventoryType), p)
      ensures ok ==> needRedraw && p.inInventory && p.cellIndex == GlobalIndex(cellSets, p) && InList(cellSets, p)
      ensures !ok ==> cellSets == old(cellSets) && needRedraw == old(needRedraw)
      ensures !ok ==> p.cellIndex == old(p.cellIndex) && p.inInventory == old(p.inInventory)
      ensures shadowColor == old(shadowColor) && shadowAlpha == old(shadowAlpha) && additionalCells == old(additionalCells)
    {
      if p.cellIndex != -1 {
        var pos := CellPosition(p.cellIndex);
        ok := PutObjectAt(p, pos);
        if ok {
          return;
        }
      }
      ok := PutObjectInFirstSet(p);
    }

    /**
     * remove_object(p): the first set holding p empties its first cell
     * holding p, p is no longer marked as in the inventory, and a redraw is
     * due; false, and nothing changed, when no set holds p.
     */
    method RemoveObject(p: GameObject) returns (ok: bool)
      modifies this, p
      ensures var j := HoldingFrom(old(cellSets), 0, p);
        ok == j.Some? && ok == InList(old(cellSets), p) &&
        (ok ==> cellSets == PlacedIn(old(cellSets), j.value, FirstHolding(old(cellSets)[j.value].cells, p), null))
      ensures ok ==> needRedraw && !p.inInventory && p.cellIndex == old(p.cellIndex)
      ensures !ok ==> cellSets == old(cellSets) && needRedraw == old(needRedraw) && p.inInventory == old(p.inInventory)
      ensures !ok ==> p.cellIndex == old(p.cellIndex)
      ensures shadowColor == old(shadowColor) && shadowAlpha == old(shadowAlpha) && additionalCells == old(additionalCells)
    {
      var i := 0;
      while i < |cellSets|
        invariant 0 <= i <= |cellSets|
        invariant HoldingFrom(cellSets, i, p) == HoldingFrom(cellSets, 0, p)
        invariant cellSets == old(cellSets) && needRedraw == old(needRedraw)
        invariant p.inInventory == old(p.inInventory) && p.cellIndex == old(p.cellIndex)
        invariant shadowColor == old(shadowColor) && shadowAlpha == old(shadowAlpha) && additionalCells == old(additionalCells)
      {
        var ok', s := cellSets[i].RemoveObject(p);
        if ok' {
          cellSets := cellSets[i := s];
          p.inInventory := false;
          needRedraw := true;
          return true;
        }
        i := i + 1;
      }
      return false;
    }

    /**
     * init: every set is initialised with the cell types and then takes the
     * inventory's additional cells; false when some set found no cell type.
     */
    method Init(types: seq<CellType>) returns (ok: bool)
      modifies this
      ensures ok <==> forall k :: 0 <= k < |old(cellSets)| ==> old(cellSets)[k].InitApplies(types)
      ensures |cellSets| == |old(cellSets)|
      ensures forall k :: 0 <= k < |cellSets| ==>
        cellSets[k] == old(cellSets)[k].Initialized(types).(additional := additionalCells)
      ensures needRedraw == old(needRedraw) && shadowColor == old(shadowColor)
      ensures shadowAlpha == old(shadowAlpha) && additionalCells == old(additionalCells)
    {
      ok := true;
      var sets := cellSets;
      var i := 0;
      while i < |sets|
        invariant 0 <= i <= |sets| && |sets| == |cellSets|
        invariant ok <==> forall k :: 0 <= k < i ==> cellSets[k].InitApplies(types)
        invariant forall k :: 0 <= k < i ==> sets[k] == cellSets[k].Initialized(types).(additional := additionalCells)
        invariant forall k :: i <= k < |sets| ==> sets[k] == cellSets[k]
        invariant cellSets == old(cellSets) && needRedraw == old(needRedraw)
        invariant shadowColor == old(shadowColor) && shadowAlpha == old(shadowAlpha) && additionalCells == old(additionalCells)
      {
        var applied, s := sets[i].Init(types);
        if !applied {
          ok := false;
        }
        sets := sets[i := s.(additional := additionalCells)];
        i := i + 1;
      }
      cellSets := sets;
    }

    /** scroll_left: every set scrolls left, and a redraw is due. */
    method ScrollLeft()
      requires AllValid(cellSets)
      modifies this
      ensures |cellSets| == |old(cellSets)| && AllValid(cellSets) && needRedraw
      ensures forall k :: 0 <= k < |cellSets| ==> cellSets[k] == old(cellSets)[k].ScrolledLeft()
      ensures shadowColor == old(shadowColor) && shadowAlpha == old(shadowAlpha) && additionalCells == old(additionalCells)
    {
      var sets := cellSets;
      var i := 0;
      while i < |sets|
        invariant cellSets == old(cellSets)
        invariant 0 <= i <= |sets| && |sets| == |cellSets|
        invariant forall k :: 0 <= k < i ==> sets[k] == cellSets[k].ScrolledLeft() && sets[k].Valid()
        invariant forall k :: i <= k < |sets| ==> sets[k] == cellSets[k]
        invariant shadowColor == old(shadowColor) && shadowAlpha == old(shadowAlpha) && additionalCells == old(additionalCells)
      {
        ScrollKeepsValid(sets[i]);
        var s := sets[i].ScrollLeft();
        sets := sets[i := s];
        i := i + 1;
      }
      cellSets := sets;
      needRedraw := true;
    }

    /** scroll_right: every set scrolls right, and a redraw is due. */
    method ScrollRight()
      requires AllValid(cellSets)
      modifies this
      ensures |cellSets| == |old(cellSets)| && AllValid(cellSets) && needRedraw
      ensures forall k :: 0 <= k < |cellSets| ==> cellSets[k] == old(cellSets)[k].ScrolledRight()
      ensures shadowColor == old(shadowColor) && shadowAlpha == old(shadowAlpha) && additionalCells == old(additionalCells)
    {
      var sets := cellSets;
      var i := 0;
      while i < |sets|
        invariant cellSets == old(cellSets)
        invariant 0 <= i <= |sets| && |sets| == |cellSets|
        invariant forall k :: 0 <= k < i ==> sets[k] == cellSets[k].ScrolledRight() && sets[k].Valid()
        invariant forall k :: i <= k < |sets| ==> sets[k] == cellSets[k]
        invariant shadowColor == old(shadowColor) && shadowAlpha == old(shadowAlpha) && additionalCells == old(additionalCells)
      {
        ScrollKeepsValid(sets[i]);
        var s := sets[i].ScrollRight();
        sets := sets[i := s];
        i := i + 1;
      }
      cellSets := sets;
      needRedraw := true;
    }

    /** scroll_up: every set scrolls up, and a redraw is due. */
    method ScrollUp()
      requires AllValid(cellSets)
      modifies this
      ensures |cellSets| == |old(cellSets)| && AllValid(cellSets) && needRedraw
      ensures forall k :: 0 <= k < |cellSets| ==> cellSets[k] == old(cellSets)[k].ScrolledUp()
      ensures shadowColor == old(shadowColor) && shadowAlpha == old(shadowAlpha) && additionalCells == old(additionalCells)
    {
      var sets := cellSets;
      var i := 0;
      while i < |sets|
        invariant cellSets == old(cellSets)
        invariant 0 <= i <= |sets| && |sets| == |cellSets|
        invariant forall k :: 0 <= k < i ==> sets[k] == cellSets[k].ScrolledUp() && sets[k].Valid()
        invariant forall k :: i <= k < |sets| ==> sets[k] == cellSets[k]
        invariant shadowColor == old(shadowColor) && shadowAlpha == old(shadowAlpha) && additionalCells == old(additionalCells)
      {
        ScrollKeepsValid(sets[i]);
        var s := sets[i].ScrollUp();
        sets := sets[i := s];
        i := i + 1;
      }
      cellSets := sets;
      needRedraw := true;
    }

    /** scroll_down: every set scrolls down, and a redraw is due. */
    method ScrollDown()
      requires AllValid(cellSets)
      modifies this
      ensures |cellSets| == |old(cellSets)| && AllValid(cellSets) && needRedraw
      ensures forall k :: 0 <= k < |cellSets| ==> cellSets[k] == old(cellSets)[k].ScrolledDown()
      ensures shadowColor == old(shadowColor) && shadowAlpha == old(shadowAlpha) && additionalCells == old(additionalCells)
    {
      var sets := cellSets;
      var i := 0;
      while i < |sets|
        invariant cellSets == old(cellSets)
        invariant 0 <= i <= |sets| && |sets| == |cellSets|
        invariant forall k :: 0 <= k < i ==> sets[k] == cellSets[k].ScrolledDown() && sets[k].Valid()
        invariant forall k :: i <= k < |sets| ==> sets[k] == cellSets[k]
        invariant shadowColor == old(shadowColor) && shadowAlpha == old(shadowAlpha) && additionalCells == old(additionalCells)
      {
        ScrollKeepsValid(sets[i]);
        var s := sets[i].ScrollDown();
        sets := sets[i := s];
        i := i + 1;
      }
      cellSets := sets;
      needRedraw := true;
    }

    /** post_redraw: the redraw is done. */
    method PostRedraw()
      modifies this
      ensures !needRedraw && cellSets == old(cellSets)
      ensures shadowColor == old(shadowColor) && shadowAlpha == old(shadowAlpha) && additionalCells == old(additionalCells)
    {
      needRedraw := false;
    }

    /** toggle_redraw. */
    method ToggleRedraw(state: bool)
      modifies this
      ensures needRedraw == state && cellSets == old(cellSets)
      ensures shadowColor == old(shadowColor) && shadowAlpha == old(shadowAlpha) && additionalCells == old(additionalCells)
    {
      needRedraw := state;
    }

    /** set_shadow_color: shadow_color() reads the colour back. */
    method SetShadowColor(color: U32)
      modifies this
      ensures ShadowColor() == color
      ensures cellSets == old(cellSets) && needRedraw == old(needRedraw)
      ensures shadowAlpha == old(shadowAlpha) && additionalCells == old(additionalCells)
    {
      shadowColor := color;
    }

    /** shadow_color. */
    function ShadowColor(): U32
      reads this
    {
      shadowColor
    }

    /** set_shadow_alpha: shadow_alpha() reads the alpha back. */
    method SetShadowAlpha(alpha: int)
      modifies this
      ensures ShadowAlpha() == alpha
      ensures cellSets == old(cellSets) && needRedraw == old(needRedraw)
      ensures shadowColor == old(shadowColor) && additionalCells == old(additionalCells)
    {
      shadowAlpha := alpha;
    }

    /** shadow_alpha. */
    function ShadowAlpha(): int
      reads this
    {
      shadowAlpha
    }

    /** set_additional_cells: additional_cells() reads the value back. */
    method SetAdditionalCells(v: Vec2)
      modifies this
      ensures AdditionalCells() == v
      ensures cellSets == old(cellSets) && needRedraw == old(needRedraw)
      ensures shadowColor == old(shadowColor) && shadowAlpha == old(shadowAlpha)
    {
      additionalCells := v;
    }

    /** additional_cells. */
    function AdditionalCells(): Vec2
      reads this
    {
      additionalCells
    }
  }

  /**
   * An object no set holds, put into the first set with a cell for it and
   * removed again, leaves every set as it was: remove_object finds it in
   * the set and cell put_object chose.
   */
  lemma RemoveUndoesPutInFirstSet(sets: seq<CellSet>, p: GameObject)
    requires !InList(sets, p) && AcceptingFrom(sets, 0, p).Some?
    ensures var j := AcceptingFrom(sets, 0, p).value; var k := FirstFit(sets[j].cells, p.inventoryType);
      var t := PlacedIn(sets, j, k, p);
      HoldingFrom(t, 0, p) == Some(j) && FirstHolding(t[j].cells, p) == k && PlacedIn(t, j, k, null) == sets
  {
    var j := AcceptingFrom(sets, 0, p).value;
    var k := FirstFit(sets[j].cells, p.inventoryType);
    var t := PlacedIn(sets, j, k, p);
    assert !sets[j].Holds(p);
    RemoveUndoesPut(sets[j], p);
    forall i | 0 <= i < j
      ensures !t[i].Holds(p)
    {
      assert t[i] == sets[i];
    }
    HoldingFromSkips(t, 0, j, p);
    assert t[j := t[j].WithObject(k, null)] == sets;
  }

  /** When no set before `j` holds `p` and set `j` does, the first holding set from `i` on is `j`. */
  lemma {:induction false} HoldingFromSkips(sets: seq<CellSet>, i: nat, j: nat, p: GameObject?)
    requires i <= j < |sets| && sets[j].Holds(p)
    requires forall k :: i <= k < j ==> !sets[k].Holds(p)
    ensures HoldingFrom(sets, i, p) == Some(j)
    decreases j - i
  {
    if i < j {
      HoldingFromSkips(sets, i + 1, j, p);
    }
  }

  /** Adding a set and removing the last set gives back the list. */
  lemma RemoveUndoesAdd(sets: seq<CellSet>, s: CellSet)
    ensures var t := sets + [s]; t[..|sets|] + t[|sets| + 1..] == sets
  {
    var t := sets + [s];
    assert t[..|sets|] == sets;
  }
}
