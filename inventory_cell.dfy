/**
 * qdInventoryCellSet: a rectangular block of inventory cells. The cells are
 * stored row by row, `size.x + additional.x` cells to a row and
 * `size.y + additional.y` rows; `size` cells by `size` rows are visible, and
 * `shift` says how far the visible window is scrolled into the additional
 * cells. A cell has the type of its cell type, the size of that type's
 * sprite, and may hold one game object.
 *
 * A cell set is held by value in the inventory's vector and copied by its
 * copy constructor, so it is a datatype here; its operations return the
 * updated set. qd_inventory_cell.h is not part of this model: a cell is
 * taken to be empty when it holds no object, its size is its sprite's size,
 * num_cells() is the number of cells, set_cell_type gives every cell the
 * type and its sprite and keeps the objects, and the other setters store
 * their value.
 */
module InventoryCells {
  import opened Wrappers

  /**
   * The part of qdGameObjectAnimated the inventory uses: its inventory
   * type, the cell index it remembers and its in-inventory flag. Objects
   * are compared by identity, as the source compares pointers.
   */
  class GameObject {
    const inventoryType: int
    var cellIndex: int
    var inInventory: bool
  }

  /** qdInventoryCellType: a cell type number and the size of its sprite. */
  datatype CellType = CellType(kind: int, spriteSize: Vec2)

  /** qdInventoryCell: its type, its sprite's size and the object it holds, if any. */
  datatype Cell = Cell(kind: int, size: Vec2, obj: GameObject?) {
    /** is_empty. */
    predicate IsEmpty() {
      obj == null
    }

    /** A cell that can take an object of inventory type `t`: empty and of that type. */
    predicate Takes(t: int) {
      IsEmpty() && kind == t
    }
  }

  /** The index of the first cell that takes an object of type `t`, or -1. */
  function FirstFit(cells: seq<Cell>, t: int): (k: int)
    ensures -1 <= k < |cells|
    ensures k >= 0 ==> cells[k].Takes(t)
    ensures forall j :: 0 <= j < (if k < 0 then |cells| else k) ==> !cells[j].Takes(t)
  {
    if |cells| == 0 then -1
    else if cells[0].Takes(t) then 0
    else
      var k := FirstFit(cells[1..], t);
      if k < 0 then -1 else k + 1
  }

  /** The index of the first cell holding `p`, or -1. */
  function FirstHolding(cells: seq<Cell>, p: GameObject?): (k: int)
    ensures -1 <= k < |cells|
    ensures k >= 0 ==> cells[k].obj == p
    ensures forall j :: 0 <= j < (if k < 0 then |cells| else k) ==> cells[j].obj != p
  {
    if |cells| == 0 then -1
    else if cells[0].obj == p then 0
    else
      var k := FirstHolding(cells[1..], p);
      if k < 0 then -1 else k + 1
  }

  /** The index of the first cell type of type `t`, or -1. */
  function FirstOfKind(types: seq<CellType>, t: int): (k: int)
    ensures -1 <= k < |types|
    ensures k >= 0 ==> types[k].kind == t
    ensures forall j :: 0 <= j < (if k < 0 then |types| else k) ==> types[j].kind != t
  {
    if |types| == 0 then -1
    else if types[0].kind == t then 0
    else
      var k := FirstOfKind(types[1..], t);
      if k < 0 then -1 else k + 1
  }

  datatype CellSet = CellSet(size: Vec2, screenPos: Vec2, additional: Vec2, shift: Vec2, cells: seq<Cell>) {

    /** The cells in a stored row: the visible ones and the additional ones. */
    function Width(): int {
      size.x + additional.x
    }

    /** The stored rows. */
    function Height(): int {
      size.y + additional.y
    }

    /**
     * The layout the constructor builds and scrolling keeps: non-negative
     * sizes, one cell per stored row and column, and the window shifted by
     * no more than the additional cells.
     */
    predicate Valid() {
      size.x >= 0 && size.y >= 0 && additional.x >= 0 && additional.y >= 0 &&
      |cells| == Width() * Height() &&
      0 <= shift.x <= additional.x && 0 <= shift.y <= additional.y
    }

    /** Whether some cell holds `p`. */
    predicate Holds(p: GameObject?) {
      exists k :: 0 <= k < |cells| && cells[k].obj == p
    }

    /** The set with cell `k` holding `p` and every other cell unchanged. */
    function WithObject(k: int, p: GameObject?): (s: CellSet)
      requires 0 <= k < |cells|
    {
      this.(cells := cells[k := cells[k].(obj := p)])
    }

    /**
     * put_object(p): the first empty cell of p's inventory type takes p;
     * false, and nothing changed, when there is none.
     */
    method PutObject(p: GameObject) returns (ok: bool, s: CellSet)
      ensures var k := FirstFit(cells, p.inventoryType);
        ok == (k >= 0) && s == if ok then WithObject(k, p) else this
    {
      var i := 0;
      while i < |cells|
        invariant 0 <= i <= |cells|
        invariant forall j :: 0 <= j < i ==> !cells[j].Takes(p.inventoryType)
      {
        if cells[i].IsEmpty() && cells[i].kind == p.inventoryType {
          return true, WithObject(i, p);
        }
        i := i + 1;
      }
      return false, this;
    }

    /** remove_object(p): the first cell holding p is emptied; false when no cell holds p. */
    method RemoveObject(p: GameObject?) returns (ok: bool, s: CellSet)
      ensures var k := FirstHolding(cells, p);
        ok == (k >= 0) && s == if ok then WithObject(k, null) else this
    {
      var i := 0;
      while i < |cells|
        invariant 0 <= i <= |cells|
        invariant forall j :: 0 <= j < i ==> cells[j].obj != p
      {
        if cells[i].obj == p {
          return true, WithObject(i, null);
        }
        i := i + 1;
      }
      return false, this;
    }

    /** is_object_in_list(p): whether some cell holds p. */
    method IsObjectInList(p: GameObject?) returns (b: bool)
      ensures b <==> Holds(p)
    {
      var i := 0;
      while i < |cells|
        invariant 0 <= i <= |cells|
        invariant forall j :: 0 <= j < i ==> cells[j].obj != p
      {
        if cells[i].obj == p {
          return true;
        }
        i := i + 1;
      }
      return false;
    }

    /** cell_index(obj): the index of the first cell holding obj, or -1. */
    method CellIndex(p: GameObject?) returns (k: int)
      ensures k == FirstHolding(cells, p)
      ensures k >= 0 <==> Holds(p)
    {
      k := 0;
      while k < |cells|
        invariant 0 <= k <= |cells|
        invariant forall j :: 0 <= j < k ==> cells[j].obj != p
      {
        if cells[k].obj == p {
          return;
        }
        k := k + 1;
      }
      return -1;
    }

    /** The point `pos` relative to the set, moved by half a cell as hit and get_object move it. */
    function Offset(pos: Vec2): Vec2
      requires |cells| > 0
    {
      var c := cells[0].size;
      Vec2(pos.x - screenPos.x + CDiv(c.x, 2), pos.y - screenPos.y + CDiv(c.y, 2))
    }

    /**
     * hit: false with no cells or a zero cell size; otherwise whether the
     * offset point lies in the box of the visible cells, measured with the
     * first cell's size.
     */
    predicate Hit(pos: Vec2)
      ensures Hit(pos) ==> |cells| > 0 && cells[0].size.x != 0 && cells[0].size.y != 0
      ensures Hit(pos) ==> 0 <= Offset(pos).x && 0 <= Offset(pos).y
    {
      if |cells| == 0 || cells[0].size.x == 0 || cells[0].size.y == 0 then false
      else
        var v := Offset(pos);
        0 <= v.x < size.x * cells[0].size.x && 0 <= v.y < size.y * cells[0].size.y
    }

    /**
     * The cell put_object(p, pos) and get_object(pos) address as the source
     * writes it: the visible column and row of the point, rows `size.x`
     * cells apart, moved by the shift with rows `Width()` cells apart.
     */
    function AddressedAsWritten(pos: Vec2): int
      requires Hit(pos)
    {
      var c := cells[0].size;
      var v := Offset(pos);
      CDiv(v.x, c.x) + CDiv(v.y, c.y) * size.x + shift.y * Width() + shift.x
    }

    /** The cell a point addresses with rows `Width()` cells apart throughout, as the drawing lays them out. */
    function Addressed(pos: Vec2): int
      requires Hit(pos)
    {
      var c := cells[0].size;
      var v := Offset(pos);
      (CDiv(v.y, c.y) + shift.y) * Width() + CDiv(v.x, c.x) + shift.x
    }

    /**
     * get_object(pos): the object of the addressed cell, or none when the
     * point misses the set or the index is out of range.
     */
    function GetObjectAt(pos: Vec2): (p: GameObject?)
      ensures p != null ==> Hit(pos) && Holds(p)
    {
      if !Hit(pos) then null
      else
        var k := Addressed(pos);
        if 0 <= k < |cells| then cells[k].obj else null
    }

    /**
     * put_object(p, pos): only when the point hits, the addressed index is
     * in range and that cell is empty and of p's type does the cell take
     * p; otherwise nothing changes.
     */
    function PutObjectAt(p: GameObject, pos: Vec2): (r: (bool, CellSet))
      ensures r.0 <==> Hit(pos) && 0 <= Addressed(pos) < |cells| && cells[Addressed(pos)].Takes(p.inventoryType)
      ensures r.0 ==> r.1 == WithObject(Addressed(pos), p)
      ensures !r.0 ==> r.1 == this
    {
      if !Hit(pos) then (false, this)
      else
        var k := Addressed(pos);
        if 0 <= k < |cells| && cells[k].IsEmpty() && cells[k].kind == p.inventoryType then (true, WithObject(k, p))
        else (false, this)
    }

    /**
     * cell_position(idx) as the source writes it: the column and row of
     * the index in rows `size.x` cells apart, scaled by the first cell's
     * size, moved by the set's position and back by the shift; (0,0) for an
     * index out of range.
     */
    function CellPositionAsWritten(idx: int): Vec2
      requires 0 <= idx < |cells| ==> size.x != 0
    {
      if 0 <= idx < |cells| then
        var c := cells[0].size;
        Vec2(CMod(idx, size.x) * c.x + screenPos.x - c.x * shift.x,
             CDiv(idx, size.x) * c.y + screenPos.y - c.y * shift.y)
      else Vec2(0, 0)
    }

    /** cell_position(idx) with rows `Width()` cells apart, as the drawing lays them out. */
    function CellPosition(idx: int): (r: Vec2)
      requires 0 <= idx < |cells| ==> Width() != 0
      ensures 0 <= idx < |cells| ==> r == DrawnPosition(CDiv(idx, Width()) - shift.y, CMod(idx, Width()) - shift.x)
      ensures !(0 <= idx < |cells|) ==> r == Vec2(0, 0)
    {
      if 0 <= idx < |cells| then
        var c := cells[0].size;
        assert (CMod(idx, Width()) - shift.x) * c.x == CMod(idx, Width()) * c.x - c.x * shift.x;
        assert (CDiv(idx, Width()) - shift.y) * c.y == CDiv(idx, Width()) * c.y - c.y * shift.y;
        Vec2(CMod(idx, Width()) * c.x + screenPos.x - c.x * shift.x,
             CDiv(idx, Width()) * c.y + screenPos.y - c.y * shift.y)
      else Vec2(0, 0)
    }

    /** The cell redraw draws in visible row `r`, column `c`: stored row shift.y + r, column shift.x + c. */
    function DrawnCell(r: int, c: int): int {
      (shift.y + r) * Width() + shift.x + c
    }

    /** Where redraw draws visible row `r`, column `c`: one cell size further per column and per row. */
    function DrawnPosition(r: int, c: int): Vec2
      requires |cells| > 0
    {
      Vec2(screenPos.x + c * cells[0].size.x, screenPos.y + r * cells[0].size.y)
    }

    /** The cell in stored row `i`, column `j` holds an object. */
    predicate Occupied(i: int, j: int)
      requires 0 <= i * Width() + j < |cells|
    {
      !cells[i * Width() + j].IsEmpty()
    }

    /** The rectangle of rows top..bottom and columns left..right lies inside the stored grid. */
    predicate RectInside(left: int, top: int, right: int, bottom: int) {
      Valid() && 0 <= left && 0 <= top && right < Width() && bottom < Height()
    }

    /** Some cell in the rectangle holds an object. */
    predicate HasObjectsIn(left: int, top: int, right: int, bottom: int)
      requires RectInside(left, top, right, bottom)
    {
      exists i, j :: top <= i <= bottom && left <= j <= right && InGrid(i, j) && Occupied(i, j)
    }

    /** Row `i`, column `j` is a stored cell. */
    predicate InGrid(i: int, j: int) {
      0 <= i < Height() && 0 <= j < Width() && 0 <= i * Width() + j < |cells|
    }

    /** has_rect_objects: whether a cell in the rectangle holds an object. */
    method HasRectObjects(left: int, top: int, right: int, bottom: int) returns (b: bool)
      requires RectInside(left, top, right, bottom)
      ensures b <==> HasObjectsIn(left, top, right, bottom)
    {
      var i := top;
      while i <= bottom
        invariant top <= i && (i <= bottom + 1 || i == top)
        invariant forall i', j :: top <= i' < i && left <= j <= right && InGrid(i', j) ==> !Occupied(i', j)
      {
        var j := left;
        while j <= right
          invariant left <= j && (j <= right + 1 || j == left)
          invariant forall i', j' :: top <= i' < i && left <= j' <= right && InGrid(i', j') ==> !Occupied(i', j')
          invariant forall j' :: left <= j' < j && InGrid(i, j') ==> !Occupied(i, j')
        {
          CellInGrid(this, i, j);
          if !cells[i * Width() + j].IsEmpty() {
            return true;
          }
          j := j + 1;
        }
        i := i + 1;
      }
      return false;
    }

    /**
     * The set after scroll_left: the window one column further left when
     * it is not at the left edge and a hidden cell on its left holds an
     * object. The wrap-around of the source never fires on a valid set.
     */
    function ScrolledLeft(): CellSet
      requires Valid()
    {
      if shift.x > 0 && HasObjectsIn(0, 0, shift.x - 1, Height() - 1)
      then this.(shift := Vec2(shift.x - 1, shift.y)) else this
    }

    /** The set after scroll_right: one column further right when a hidden cell on the right holds an object. */
    function ScrolledRight(): CellSet
      requires Valid()
    {
      if shift.x < additional.x && HasObjectsIn(shift.x + size.x, 0, Width() - 1, Height() - 1)
      then this.(shift := Vec2(shift.x + 1, shift.y)) else this
    }

    /** The set after scroll_up: one row further up when a hidden cell above holds an object. */
    function ScrolledUp(): CellSet
      requires Valid()
    {
      if shift.y > 0 && HasObjectsIn(0, 0, Width() - 1, shift.y - 1)
      then this.(shift := Vec2(shift.x, shift.y - 1)) else this
    }

    /** The set after scroll_down: one row further down when a hidden cell below holds an object. */
    function ScrolledDown(): CellSet
      requires Valid()
    {
      if shift.y < additional.y && HasObjectsIn(0, shift.y + size.y, Width() - 1, Height() - 1)
      then this.(shift := Vec2(shift.x, shift.y + 1)) else this
    }

    /** scroll_left: step the window one column left when a hidden cell on the left holds an object. */
    method ScrollLeft() returns (s: CellSet)
      requires Valid()
      ensures s == ScrolledLeft()
    {
      var b := HasRectObjects(0, 0, shift.x - 1, Height() - 1);
      if !b {
        return this;
      }
      var x := shift.x - 1;
      if x < 0 {
        x := additional.x;
      }
      s := this.(shift := Vec2(x, shift.y));
    }

    /** scroll_right: step the window one column right when a hidden cell on the right holds an object. */
    method ScrollRight() returns (s: CellSet)
      requires Valid()
      ensures s == ScrolledRight()
    {
      var b := HasRectObjects(shift.x + size.x, 0, Width() - 1, Height() - 1);
      if !b {
        return this;
      }
      var x := shift.x + 1;
      if x > additional.x {
        x := 0;
      }
      s := this.(shift := Vec2(x, shift.y));
    }

    /** scroll_up: step the window one row up when a hidden cell above holds an object. */
    method ScrollUp() returns (s: CellSet)
      requires Valid()
      ensures s == ScrolledUp()
    {
      var b := HasRectObjects(0, 0, Width() - 1, shift.y - 1);
      if !b {
        return this;
      }
      var y := shift.y - 1;
      if y < 0 {
        y := additional.y;
      }
      s := this.(shift := Vec2(shift.x, y));
    }

    /** scroll_down: step the window one row down when a hidden cell below holds an object. */
    method ScrollDown() returns (s: CellSet)
      requires Valid()
      ensures s == ScrolledDown()
    {
      var b := HasRectObjects(0, shift.y + size.y, Width() - 1, Height() - 1);
      if !b {
        return this;
      }
      var y := shift.y + 1;
      if y > additional.y {
        y := 0;
      }
      s := this.(shift := Vec2(shift.x, y));
    }

    /** set_cell_type: every cell takes the type and its sprite's size, and keeps its object. */
    function WithCellType(tp: CellType): (s: CellSet)
      ensures |s.cells| == |cells|
      ensures forall k :: 0 <= k < |cells| ==> s.cells[k] == Cell(tp.kind, tp.spriteSize, cells[k].obj)
    {
      this.(cells := seq(|cells|, k requires 0 <= k < |cells| => Cell(tp.kind, tp.spriteSize, cells[k].obj)))
    }

    /** Whether init finds a cell type for the set: it has cells and a type matches its first cell's. */
    predicate InitApplies(types: seq<CellType>) {
      |cells| > 0 && FirstOfKind(types, cells[0].kind) >= 0
    }

    /** The set after init: the first matching cell type applied, or the set unchanged. */
    function Initialized(types: seq<CellType>): CellSet {
      if InitApplies(types) then WithCellType(types[FirstOfKind(types, cells[0].kind)]) else this
    }

    /**
     * init: with no cells, false; otherwise the first cell type whose type
     * is the first cell's is applied to every cell, and false when there is
     * none.
     */
    method Init(types: seq<CellType>) returns (ok: bool, s: CellSet)
      ensures ok == InitApplies(types) && s == Initialized(types)
    {
      if |cells| == 0 {
        return false, this;
      }
      var i := 0;
      while i < |types|
        invariant 0 <= i <= |types|
        invariant forall j :: 0 <= j < i ==> types[j].kind != cells[0].kind
      {
        if types[i].kind == cells[0].kind {
          return true, WithCellType(types[i]);
        }
        i := i + 1;
      }
      return false, this;
    }
  }

  /**
   * Scrolling keeps a set valid and its cells in place, and moves the
   * window by at most one cell, along one axis only.
   */
  lemma {:induction false} ScrollKeepsValid(s: CellSet)
    requires s.Valid()
    ensures var l := s.ScrolledLeft(); l.Valid() && l.cells == s.cells && l.shift.y == s.shift.y && s.shift.x - 1 <= l.shift.x <= s.shift.x
    ensures var r := s.ScrolledRight(); r.Valid() && r.cells == s.cells && r.shift.y == s.shift.y && s.shift.x <= r.shift.x <= s.shift.x + 1
    ensures var u := s.ScrolledUp(); u.Valid() && u.cells == s.cells && u.shift.x == s.shift.x && s.shift.y - 1 <= u.shift.y <= s.shift.y
    ensures var d := s.ScrolledDown(); d.Valid() && d.cells == s.cells && d.shift.x == s.shift.x && s.shift.y <= d.shift.y <= s.shift.y + 1
  {
  }

  /** Scrolling left only happens when a cell left of the window holds an object, and then moves by one. */
  lemma ScrollLeftNeedsHiddenObject(s: CellSet)
    requires s.Valid()
    ensures s.ScrolledLeft() != s <==> exists i, j :: 0 <= i < s.Height() && 0 <= j < s.shift.x && s.InGrid(i, j) && s.Occupied(i, j)
  {
  }

  /** A stored row and column of a valid set index a cell. */
  lemma CellInGrid(s: CellSet, i: int, j: int)
    requires s.Valid() && 0 <= i < s.Height() && 0 <= j < s.Width()
    ensures 0 <= i * s.Width() + j < |s.cells| && s.InGrid(i, j)
  {
    var w, h := s.Width(), s.Height();
    MulLe(i, h - 1, w);
    MulAddOne(h - 1, w);
  }

  /** One more row of `w` cells. */
  lemma MulAddOne(a: int, w: int)
    ensures a * w + w == (a + 1) * w
  {
  }

  /** Multiplying by a non-negative number keeps the order. */
  lemma MulLe(a: int, b: int, c: int)
    requires a <= b && c >= 0
    ensures a * c <= b * c
  {
  }

  /** The default constructor: no cells, all sizes and the shift zero. */
  function EmptyCellSet(): (s: CellSet)
    ensures s.Valid() && |s.cells| == 0
  {
    CellSet(Vec2(0, 0), Vec2(0, 0), Vec2(0, 0), Vec2(0, 0), [])
  }

  /**
   * The constructor: position (x, y), `sx` by `sy` visible cells,
   * (addit_sx, addit_sy) additional cells, shift (0, 0), and
   * `(sx + addit_sx) * (sy + addit_sy)` empty cells of the given type.
   */
  function NewCellSet(x: int, y: int, sx: int, sy: int, ax: int, ay: int, tp: CellType): (s: CellSet)
    requires (sx + ax) * (sy + ay) >= 0
    ensures s.size == Vec2(sx, sy) && s.screenPos == Vec2(x, y) && s.additional == Vec2(ax, ay) && s.shift == Vec2(0, 0)
    ensures |s.cells| == (sx + ax) * (sy + ay)
    ensures forall k :: 0 <= k < |s.cells| ==> s.cells[k] == Cell(tp.kind, tp.spriteSize, null)
  {
    CellSet(Vec2(sx, sy), Vec2(x, y), Vec2(ax, ay), Vec2(0, 0),
      seq((sx + ax) * (sy + ay), _ => Cell(tp.kind, tp.spriteSize, null)))
  }

  /** A set built from non-negative sizes is valid and holds no object. */
  lemma NewCellSetValid(x: int, y: int, sx: int, sy: int, ax: int, ay: int, tp: CellType, p: GameObject)
    requires sx >= 0 && sy >= 0 && ax >= 0 && ay >= 0
    ensures var s := NewCellSet(x, y, sx, sy, ax, ay, tp); s.Valid() && !s.Holds(p) && !s.Holds(null) == (|s.cells| == 0)
  {
    var s := NewCellSet(x, y, sx, sy, ax, ay, tp);
    if |s.cells| > 0 {
      assert s.cells[0].obj == null;
    }
  }

  /**
   * Putting an object that no cell holds into its first fitting cell and
   * removing it again gives back the set: remove_object finds it in the
   * cell put_object chose, and cell_index reports that cell.
   */
  lemma RemoveUndoesPut(s: CellSet, p: GameObject)
    requires !s.Holds(p)
    requires FirstFit(s.cells, p.inventoryType) >= 0
    ensures var k := FirstFit(s.cells, p.inventoryType); var t := s.WithObject(k, p);
      t.Holds(p) && FirstHolding(t.cells, p) == k && t.WithObject(k, null) == s
  {
    var k := FirstFit(s.cells, p.inventoryType);
    var t := s.WithObject(k, p);
    assert t.cells[k].obj == p;
    assert t.cells[k := t.cells[k].(obj := null)] == s.cells;
  }

  /** An object put at a point is the object got back at that point. */
  lemma GetAfterPutAt(s: CellSet, p: GameObject, pos: Vec2)
    requires s.PutObjectAt(p, pos).0
    ensures s.PutObjectAt(p, pos).1.GetObjectAt(pos) == p
  {
  }

  // ---------------------------------------------------------------------
  // Arithmetic of the cell grid.

  /** The point half a cell into cell `a` lies in cell `a`. */
  lemma HalfCellDiv(a: nat, c: int)
    requires c > 0
    ensures CDiv(a * c + CDiv(c, 2), c) == a
    ensures a * c + CDiv(c, 2) < (a + 1) * c
  {
    var h := c / 2;
    assert 0 <= h < c;
    assert a * c <= a * c + h < a * c + c;
    DivBetween(a * c + h, c, a);
  }

  /** A number between q*c and (q+1)*c divides to q. */
  lemma DivBetween(x: int, c: int, q: int)
    requires c > 0 && q * c <= x < q * c + c
    ensures x / c == q
  {
    var d, m := x / c, x % c;
    assert x == d * c + m && 0 <= m < c;
    assert (q + 1) * c == q * c + c;
    assert (d + 1) * c == d * c + c;
    MulLtCancel(d, q + 1, c);
    MulLtCancel(q, d + 1, c);
  }

  /**
   * A point that hits a set with positive cell sizes falls in one of its
   * visible columns and rows.
   */
  lemma HitInVisibleCell(s: CellSet, pos: Vec2)
    requires s.Hit(pos) && s.cells[0].size.x > 0 && s.cells[0].size.y > 0
    ensures 0 <= CDiv(s.Offset(pos).x, s.cells[0].size.x) < s.size.x
    ensures 0 <= CDiv(s.Offset(pos).y, s.cells[0].size.y) < s.size.y
  {
    var v, c := s.Offset(pos), s.cells[0].size;
    DivBelow(v.x, c.x, s.size.x);
    DivBelow(v.y, c.y, s.size.y);
  }

  /** A number in [0, n*c) divides by c to a quotient in [0, n). */
  lemma DivBelow(v: int, c: int, n: int)
    requires c > 0 && 0 <= v < n * c
    ensures 0 <= v / c < n
  {
    var q := v / c;
    assert q * c <= v;
    if q >= n {
      MulLe(n, q, c);
    }
  }

  /** A smaller product by the same positive number has the smaller factor. */
  lemma MulLtCancel(a: int, b: int, c: int)
    requires c > 0 && a * c < b * c
    ensures a < b
  {
  }

  /**
   * With the rows `Width()` cells apart, the point where redraw draws a
   * visible cell hits the set and addresses exactly that cell, so
   * get_object returns that cell's object and put_object fills that cell.
   */
  lemma AddressesDrawnCell(s: CellSet, r: int, c: int)
    requires s.Valid() && |s.cells| > 0 && s.cells[0].size.x > 0 && s.cells[0].size.y > 0
    requires 0 <= r < s.size.y && 0 <= c < s.size.x
    ensures s.Hit(s.DrawnPosition(r, c)) && s.Addressed(s.DrawnPosition(r, c)) == s.DrawnCell(r, c)
    ensures 0 <= s.DrawnCell(r, c) < |s.cells|
    ensures s.GetObjectAt(s.DrawnPosition(r, c)) == s.cells[s.DrawnCell(r, c)].obj
  {
    var cx, cy := s.cells[0].size.x, s.cells[0].size.y;
    var pos := s.DrawnPosition(r, c);
    var v := s.Offset(pos);
    assert v == Vec2(c * cx + CDiv(cx, 2), r * cy + CDiv(cy, 2));
    HalfCellDiv(c, cx);
    HalfCellDiv(r, cy);
    MulLe(c + 1, s.size.x, cx);
    MulLe(r + 1, s.size.y, cy);
    CellInGrid(s, s.shift.y + r, s.shift.x + c);
  }

  /**
   * With the rows `Width()` cells apart, cell_position of a visible cell
   * is the point where redraw draws it, so putting an object back at the
   * position of its remembered cell addresses that cell.
   */
  lemma CellPositionIsDrawn(s: CellSet, idx: int)
    requires s.Valid() && 0 <= idx < |s.cells| && s.cells[0].size.x > 0 && s.cells[0].size.y > 0
    requires s.shift.y <= idx / s.Width() < s.shift.y + s.size.y
    requires s.shift.x <= idx % s.Width() < s.shift.x + s.size.x
    ensures s.CellPosition(idx) == s.DrawnPosition(idx / s.Width() - s.shift.y, idx % s.Width() - s.shift.x)
    ensures s.Hit(s.CellPosition(idx)) && s.Addressed(s.CellPosition(idx)) == idx
  {
    var w := s.Width();
    var cx, cy := s.cells[0].size.x, s.cells[0].size.y;
    var r, c := idx / w - s.shift.y, idx % w - s.shift.x;
    assert (idx % w - s.shift.x) * cx == idx % w * cx - cx * s.shift.x;
    assert (idx / w - s.shift.y) * cy == idx / w * cy - cy * s.shift.y;
    AddressesDrawnCell(s, r, c);
    assert s.DrawnCell(r, c) == idx / w * w + idx % w;
  }

  /**
   * The source's put_object(p, pos) and get_object(pos) take rows
   * `size.x` cells apart before the shift, and cell_position takes the
   * column and row modulo `size.x`, while redraw, scrolling and the
   * constructor lay rows out `size.x + additional.x` cells apart. With two
   * visible columns, one additional column and two rows, the cell drawn
   * first in the second row is cell 3, but a click there addresses cell 2
   * (a hidden cell of the first row), and cell_position(3) is where cell 4
   * is drawn.
   */
  lemma StrideAsWrittenMissesDrawnCell()
    ensures var s := CellSet(Vec2(2, 2), Vec2(0, 0), Vec2(1, 0), Vec2(0, 0), seq(6, _ => Cell(0, Vec2(10, 10), null)));
      s.Valid() && s.DrawnCell(1, 0) == 3 && s.Hit(s.DrawnPosition(1, 0)) &&
      s.AddressedAsWritten(s.DrawnPosition(1, 0)) == 2 && s.Addressed(s.DrawnPosition(1, 0)) == 3 &&
      s.CellPositionAsWritten(3) == s.DrawnPosition(1, 1) && s.CellPosition(3) == s.DrawnPosition(1, 0)
  {
    var s := CellSet(Vec2(2, 2), Vec2(0, 0), Vec2(1, 0), Vec2(0, 0), seq(6, _ => Cell(0, Vec2(10, 10), null)));
    assert s.cells[0].size == Vec2(10, 10);
    assert s.Offset(s.DrawnPosition(1, 0)) == Vec2(5, 15);
  }
}
