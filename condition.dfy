/**
 * qdCondition: one typed condition of a conditional object.
 *
 * A condition is held by value: a conditional object keeps a vector of
 * them and copies conditions in and out of it. The model therefore keeps a
 * condition as a datatype, and each member that updates it in place as a
 * function returning the updated condition (a `(bool, Condition)` pair when
 * the member also reports success).
 *
 * The dispatcher's verdict, the random roll of qd_rnd and the object lookup
 * of a condition object reference are parameters. The parameter slots
 * (qdConditionData) keep, per slot, a kind, the integer or float values it
 * has room for, and the string put into it, if any.
 */
module Conditions {
  import opened Wrappers

  /** qdCondition::ConditionType: every type set_type knows. */
  datatype ConditionType =
    | CondTrue | CondFalse
    | MouseClick | MouseObjectClick | ObjectInZone
    | PersonageWalkDirection | PersonageStaticDirection
    | Timer | MouseDialogClick | MinigameState
    | ObjectState | ObjectPrevState | ObjectNotInState
    | MouseZoneClick | MouseObjectZoneClick
    | ObjectStateWasActivated | ObjectStateWasNotActivated
    | ObjectsDistance | PersonageActive | ObjectStateWaiting | ObjectStateAnimationPhase
    | StateTimeGreaterThanValue | StateTimeGreaterThanStateTime | StateTimeInInterval
    | CounterGreaterThanValue | CounterLessThanValue | CounterGreaterThanCounter | CounterInInterval
    | ObjectOnPersonageWay | Keypress | AnyPersonageInZone
    | MouseRightClick | MouseRightObjectClick | MouseRightZoneClick | MouseRightObjectZoneClick
    | ObjectHidden | MouseHover | MouseObjectHover | MouseHoverZone | MouseObjectHoverZone
    | MouseClickFailed | MouseObjectClickFailed | MouseClickEvent | MouseRightClickEvent
    | MouseObjectClickEvent | MouseRightObjectClickEvent | MouseStatePhraseClick
    | ObjectIsCloser | AnimatedObjectIdleGreaterThanValue | AnimatedObjectsIntersectionalBounds

  /** The two "negative" types, which set_type stores as an inverted positive type. */
  predicate IsNegative(tp: ConditionType) {
    tp == ObjectNotInState || tp == ObjectStateWasNotActivated
  }

  /** The type set_type stores for `tp`. */
  function Canonical(tp: ConditionType): (r: ConditionType)
    ensures !IsNegative(r)
    ensures IsNegative(tp) || r == tp
  {
    match tp
    case ObjectNotInState => ObjectState
    case ObjectStateWasNotActivated => ObjectStateWasActivated
    case _ => tp
  }

  // ---------------------------------------------------------------------
  // Parameter slots and object slots.

  /** qdConditionData::data_t. */
  datatype DataKind = DataInt | DataFloat | DataString

  /** One parameter slot: its kind, the values it has room for, and its string once one is put. */
  datatype DataSlot = DataSlot(kind: DataKind, ints: seq<int>, floats: seq<real>, text: Option<string>)

  /** init_data(idx, kind, n): a fresh slot of `kind` with room for `n` values. */
  function InitData(kind: DataKind, n: nat): (d: DataSlot)
    ensures d.kind == kind
    ensures |d.ints| == (if kind == DataInt then n else 0)
    ensures |d.floats| == (if kind == DataFloat then n else 0)
  {
    DataSlot(kind, if kind == DataInt then seq(n, _ => 0) else [],
      if kind == DataFloat then seq(n, _ => 0.0) else [], None)
  }

  /** A string slot, as init_data(idx, DATA_STRING) makes it. */
  function StringSlot(): DataSlot {
    InitData(DataString, 0)
  }

  /** The named object a condition object slot refers to, as an identifier. */
  type ObjectId = nat

  /** qdConditionObjectReference: the object it resolved to, if any. */
  datatype ObjectRef = ObjectRef(obj: Option<ObjectId>)

  const NoObject: ObjectRef := ObjectRef(None)

  /** std::vector::resize on the object slots: keep a prefix, pad with empty references. */
  function Resize(refs: seq<ObjectRef>, n: nat): (r: seq<ObjectRef>)
    ensures |r| == n
    ensures forall i :: 0 <= i < n && i < |refs| ==> r[i] == refs[i]
    ensures forall i :: |refs| <= i < n ==> r[i] == NoObject
  {
    if n <= |refs| then refs[..n] else refs + seq(n - |refs|, _ => NoObject)
  }

  /**
   * The parameter slots set_type lays out for `tp`, or None when set_type
   * leaves data_ untouched. Every slot a resize creates is re-initialised
   * right after, so the layout does not depend on the previous slots.
   */
  function DataLayout(tp: ConditionType): Option<seq<DataSlot>> {
    match tp
    case MouseClick | MouseZoneClick | PersonageActive =>
      Some([StringSlot()])
    case MouseObjectClick | ObjectInZone | MinigameState | ObjectState | ObjectPrevState
      | ObjectNotInState | MouseObjectZoneClick | ObjectStateWasActivated
      | ObjectStateWasNotActivated | ObjectStateWaiting =>
      Some([StringSlot(), StringSlot()])
    case PersonageWalkDirection | PersonageStaticDirection =>
      Some([StringSlot(), InitData(DataFloat, 1)])
    case Timer =>
      Some([InitData(DataFloat, 2), InitData(DataInt, 2)])
    case ObjectsDistance =>
      Some([StringSlot(), StringSlot(), InitData(DataFloat, 1)])
    case ObjectStateAnimationPhase =>
      Some([StringSlot(), StringSlot(), InitData(DataFloat, 2)])
    case StateTimeGreaterThanValue | ObjectOnPersonageWay =>
      Some([InitData(DataFloat, 1)])
    case StateTimeInInterval =>
      Some([InitData(DataFloat, 2)])
    case CounterGreaterThanValue | CounterLessThanValue | Keypress
      | AnimatedObjectIdleGreaterThanValue =>
      Some([InitData(DataInt, 1)])
    case CounterInInterval =>
      Some([InitData(DataInt, 2)])
    case _ => None
  }

  /** The number of object slots set_type resizes to for `tp`, or None when it leaves them. */
  function ObjectSlots(tp: ConditionType): Option<nat> {
    match tp
    case MouseClick | PersonageWalkDirection | PersonageStaticDirection | MinigameState
      | MouseZoneClick | PersonageActive | StateTimeGreaterThanValue | StateTimeInInterval
      | CounterGreaterThanValue | CounterLessThanValue | CounterInInterval
      | AnyPersonageInZone | MouseRightClick | MouseRightZoneClick | ObjectHidden
      | MouseHover | MouseHoverZone | MouseObjectClickEvent | MouseRightObjectClickEvent
      | MouseStatePhraseClick | AnimatedObjectIdleGreaterThanValue =>
      Some(1)
    case MouseObjectClick | ObjectInZone | ObjectState | ObjectPrevState | ObjectNotInState
      | MouseObjectZoneClick | ObjectStateWasActivated | ObjectStateWasNotActivated
      | ObjectsDistance | ObjectStateWaiting | ObjectStateAnimationPhase
      | StateTimeGreaterThanStateTime | CounterGreaterThanCounter | ObjectOnPersonageWay
      | MouseRightObjectClick | MouseRightObjectZoneClick | MouseObjectHover
      | MouseObjectHoverZone | AnimatedObjectsIntersectionalBounds =>
      Some(2)
    case ObjectIsCloser =>
      Some(3)
    case _ => None
  }

  // ---------------------------------------------------------------------
  // The condition record.

  /**
   * A condition: its stored type, the conditional object that owns it, its
   * parameter and object slots, the inversion flag and the in-group mark.
   */
  datatype Condition = Condition(
    kind: ConditionType,
    owner: object?,
    data: seq<DataSlot>,
    objects: seq<ObjectRef>,
    inversed: bool,
    inGroup: bool)

  /** The default constructor: CONDITION_FALSE, not inverted, in no group, no slots. */
  function NewCondition(): (c: Condition)
    ensures c.kind == CondFalse && !c.inversed && !c.inGroup
    ensures c.data == [] && c.objects == []
  {
    Condition(CondFalse, null, [], [], false, false)
  }

  /** set_type: store the canonical type, invert for a negative type, lay out the slots. */
  function SetType(c: Condition, tp: ConditionType): (r: Condition)
    ensures r.kind == Canonical(tp) && !IsNegative(r.kind)
    ensures r.inversed == (c.inversed || IsNegative(tp))
    ensures r.owner == c.owner && r.inGroup == c.inGroup
  {
    var data := if DataLayout(tp).Some? then DataLayout(tp).value else c.data;
    var objects := if ObjectSlots(tp).Some? then Resize(c.objects, ObjectSlots(tp).value) else c.objects;
    c.(kind := Canonical(tp), data := data, objects := objects, inversed := c.inversed || IsNegative(tp))
  }

  /** The constructor qdCondition(tp): a default condition given type `tp`. */
  function ConditionOfType(tp: ConditionType): (c: Condition)
    ensures c.kind == Canonical(tp) && c.inversed == IsNegative(tp) && !c.inGroup
  {
    SetType(NewCondition(), tp)
  }

  /** The copy constructor: every field is copied except the in-group mark, which starts false. */
  function CopyOf(c: Condition): (r: Condition)
    ensures !r.inGroup
    ensures r.(inGroup := c.inGroup) == c
  {
    c.(inGroup := false)
  }

  /** operator=: every field is copied except the in-group mark, which the target keeps. */
  function Assign(target: Condition, src: Condition): (r: Condition)
    ensures r.inGroup == target.inGroup
    ensures r.(inGroup := src.inGroup) == src
  {
    if target == src then target else src.(inGroup := target.inGroup)
  }

  /** add_group_reference and remove_group_reference: set or clear the in-group mark. */
  function SetInGroup(c: Condition, inGroup: bool): (r: Condition)
    ensures r.inGroup == inGroup && r.(inGroup := c.inGroup) == c
  {
    c.(inGroup := inGroup)
  }

  // ---------------------------------------------------------------------
  // Slot access.

  /** get_value(idx, int&, vi): the stored integer (0 past the slot's room); the call always succeeds. */
  function GetInt(c: Condition, idx: nat, vi: nat): (r: int)
    requires idx < |c.data|
    ensures vi < |c.data[idx].ints| ==> r == c.data[idx].ints[vi]
    ensures vi >= |c.data[idx].ints| ==> r == 0
    ensures r != 0 ==> r in c.data[idx].ints
  {
    if vi < |c.data[idx].ints| then c.data[idx].ints[vi] else 0
  }

  /** get_value(idx, float&, vi): the stored float (0 past the slot's room); the call always succeeds. */
  function GetFloat(c: Condition, idx: nat, vi: nat): (r: real)
    requires idx < |c.data|
    ensures vi < |c.data[idx].floats| ==> r == c.data[idx].floats[vi]
    ensures vi >= |c.data[idx].floats| ==> r == 0.0
    ensures r != 0.0 ==> r in c.data[idx].floats
  {
    if vi < |c.data[idx].floats| then c.data[idx].floats[vi] else 0.0
  }

  /** put_value(idx, int, vi): store an integer; fails, changing nothing, past the slot's room. */
  function PutInt(c: Condition, idx: nat, val: int, vi: nat): (r: (bool, Condition))
    requires idx < |c.data|
    ensures r.0 <==> vi < |c.data[idx].ints|
    ensures !r.0 ==> r.1 == c
    ensures |r.1.data| == |c.data| && r.1.kind == c.kind
    ensures r.0 ==> GetInt(r.1, idx, vi) == val
  {
    if vi < |c.data[idx].ints| then
      var d := c.data[idx];
      (true, c.(data := c.data[idx := d.(ints := d.ints[vi := val])]))
    else (false, c)
  }

  /** put_value(idx, float, vi): store a float; fails, changing nothing, past the slot's room. */
  function PutFloat(c: Condition, idx: nat, val: real, vi: nat): (r: (bool, Condition))
    requires idx < |c.data|
    ensures r.0 <==> vi < |c.data[idx].floats|
    ensures !r.0 ==> r.1 == c
    ensures |r.1.data| == |c.data| && r.1.kind == c.kind
    ensures r.0 ==> GetFloat(r.1, idx, vi) == val
  {
    if vi < |c.data[idx].floats| then
      var d := c.data[idx];
      (true, c.(data := c.data[idx := d.(floats := d.floats[vi := val])]))
    else (false, c)
  }

  /** get_value(idx, const char*&): the slot's string, or none (the call returning false) while it holds none. */
  function GetString(c: Condition, idx: nat): (r: Option<string>)
    requires idx < |c.data|
    ensures r.Some? <==> c.data[idx].text.Some?
    ensures r.Some? ==> r.value == c.data[idx].text.value
  {
    c.data[idx].text
  }

  /**
   * put_value(idx, const char*): the slot takes the string, which
   * get_value then reads back; no other slot and no value changes.
   */
  function PutString(c: Condition, idx: nat, str: string): (r: (bool, Condition))
    requires idx < |c.data|
    ensures |r.1.data| == |c.data| && r.1.kind == c.kind && r.1.objects == c.objects
    ensures r.0 && GetString(r.1, idx) == Some(str)
    ensures forall j :: 0 <= j < |c.data| && j != idx ==> r.1.data[j] == c.data[j]
    ensures r.1.data[idx].kind == c.data[idx].kind
  {
    var d := c.data[idx];
    (true, c.(data := c.data[idx := d.(text := Some(str))]))
  }

  /** A string store leaves every integer and float as read before, and a second store replaces the first. */
  lemma PutStringFrame(c: Condition, idx: nat, str: string, str2: string, idx2: nat, vi: nat)
    requires idx < |c.data| && idx2 < |c.data|
    ensures GetInt(PutString(c, idx, str).1, idx2, vi) == GetInt(c, idx2, vi)
    ensures GetFloat(PutString(c, idx, str).1, idx2, vi) == GetFloat(c, idx2, vi)
    ensures PutString(PutString(c, idx, str).1, idx, str2) == PutString(c, idx, str2)
  {
    var once := PutString(c, idx, str).1;
    assert once.data[idx := once.data[idx].(text := Some(str2))] == c.data[idx := c.data[idx].(text := Some(str2))];
  }

  /** A slot fresh from init_data reads 0 at every index and holds no string. */
  lemma FreshSlotReadsZero(c: Condition, idx: nat, kind: DataKind, n: nat, vi: nat)
    requires idx < |c.data| && c.data[idx] == InitData(kind, n)
    ensures GetInt(c, idx, vi) == 0 && GetFloat(c, idx, vi) == 0.0 && GetString(c, idx) == None
  {
  }

  /** A stored integer is unaffected by a store to any other place. */
  lemma PutIntFrame(c: Condition, idx: nat, val: int, vi: nat, idx2: nat, vi2: nat)
    requires idx < |c.data| && idx2 < |c.data| && (idx2 != idx || vi2 != vi)
    ensures GetInt(PutInt(c, idx, val, vi).1, idx2, vi2) == GetInt(c, idx2, vi2)
    ensures GetFloat(PutInt(c, idx, val, vi).1, idx2, vi2) == GetFloat(c, idx2, vi2)
  {
  }

  /** A stored float is unaffected by a store to any other place. */
  lemma PutFloatFrame(c: Condition, idx: nat, val: real, vi: nat, idx2: nat, vi2: nat)
    requires idx < |c.data| && idx2 < |c.data| && (idx2 != idx || vi2 != vi)
    ensures GetFloat(PutFloat(c, idx, val, vi).1, idx2, vi2) == GetFloat(c, idx2, vi2)
    ensures GetInt(PutFloat(c, idx, val, vi).1, idx2, vi2) == GetInt(c, idx2, vi2)
  {
  }

  /** put_object: the slot refers to `obj` (None for a null pointer); nothing else changes. */
  function PutObject(c: Condition, idx: nat, obj: Option<ObjectId>): (r: Condition)
    requires idx < |c.objects|
    ensures |r.objects| == |c.objects| && r.objects[idx] == ObjectRef(obj)
    ensures forall i :: 0 <= i < |c.objects| && i != idx ==> r.objects[i] == c.objects[i]
    ensures r.(objects := c.objects) == c
  {
    c.(objects := c.objects[idx := ObjectRef(obj)])
  }

  /**
   * get_object: NULL for an index out of range; otherwise the slot's object,
   * first resolving an empty slot by the lookup whose result is `found`.
   */
  function GetObject(c: Condition, idx: int, found: Option<ObjectId>): (r: (Condition, Option<ObjectId>))
    ensures !(0 <= idx < |c.objects|) ==> r == (c, None)
    ensures 0 <= idx < |c.objects| && c.objects[idx].obj.Some? ==> r == (c, c.objects[idx].obj)
    ensures 0 <= idx < |c.objects| && c.objects[idx].obj.None? ==>
      r.1 == found && r.0 == PutObject(c, idx, found)
  {
    if 0 <= idx < |c.objects| then
      var c' := if c.objects[idx].obj.None? then PutObject(c, idx, found) else c;
      (c', c'.objects[idx].obj)
    else (c, None)
  }

  /** An object stored by put_object is what get_object returns. */
  lemma PutGetObject(c: Condition, idx: nat, obj: ObjectId, found: Option<ObjectId>)
    requires idx < |c.objects|
    ensures GetObject(PutObject(c, idx, Some(obj)), idx, found).1 == Some(obj)
  {
  }

  // ---------------------------------------------------------------------
  // check().

  /** The two static "successful click" flags. */
  datatype Clicks = Clicks(click: bool, objectClick: bool)

  /**
   * check(): the dispatcher's verdict on the condition (None when there is
   * no dispatcher) XOR the inversion flag; false without a dispatcher. A true
   * result sets the click flag matching the kind of condition.
   */
  function Check(c: Condition, verdict: Option<bool>, isClick: bool, isObjectClick: bool, clicks: Clicks): (r: (bool, Clicks))
    ensures r.0 <==> verdict.Some? && verdict.value != c.inversed
    ensures !r.0 ==> r.1 == clicks
    ensures r.0 ==> r.1.click == (clicks.click || isClick)
    ensures r.0 ==> r.1.objectClick == (clicks.objectClick || (!isClick && isObjectClick))
  {
    var result := if verdict.Some? then (if verdict.value then !c.inversed else c.inversed) else false;
    if !result then (false, clicks)
    else if isClick then (true, clicks.(click := true))
    else if isObjectClick then (true, clicks.(objectClick := true))
    else (true, clicks)
  }

  /** With a dispatcher, flipping the inversion flag flips the result of check(). */
  lemma CheckInversion(c: Condition, v: bool, isClick: bool, isObjectClick: bool, clicks: Clicks)
    ensures Check(c.(inversed := !c.inversed), Some(v), isClick, isObjectClick, clicks).0
      == !Check(c, Some(v), isClick, isObjectClick, clicks).0
  {
  }

  /**
   * A condition made with the negative type OBJECT_NOT_IN_STATE is stored as
   * OBJECT_STATE, inverted, and checks false when the predicate holds.
   */
  lemma NotInStateIsInvertedState(clicks: Clicks)
    ensures ConditionOfType(ObjectNotInState).kind == ObjectState
    ensures ConditionOfType(ObjectNotInState).inversed
    ensures !Check(ConditionOfType(ObjectNotInState), Some(true), false, false, clicks).0
    ensures ConditionOfType(ObjectNotInState) == ConditionOfType(ObjectState).(inversed := true)
  {
  }

  /** Setting a negative type is setting its positive type and inverting. */
  lemma SetTypeNegative(c: Condition, tp: ConditionType)
    requires IsNegative(tp)
    ensures SetType(c, tp) == SetType(c, Canonical(tp)).(inversed := true)
  {
  }

  // ---------------------------------------------------------------------
  // Slot counts per type.

  /** TIMER lays out a float slot and an int slot, two values each, and leaves the objects alone. */
  lemma TimerSlots(c: Condition)
    ensures var r := SetType(c, Timer);
      |r.data| == 2 && r.objects == c.objects &&
      r.data[0].kind == DataFloat && |r.data[0].floats| == 2 &&
      r.data[1].kind == DataInt && |r.data[1].ints| == 2
  {
  }

  /** OBJECTS_DISTANCE lays out three parameter slots and two object slots. */
  lemma ObjectsDistanceSlots(c: Condition)
    ensures var r := SetType(c, ObjectsDistance);
      |r.data| == 3 && |r.objects| == 2 && r.data[2].kind == DataFloat && |r.data[2].floats| == 1
  {
  }

  /** TRUE, FALSE and MOUSE_DIALOG_CLICK leave both slot arrays untouched. */
  lemma UntouchedSlots(c: Condition, tp: ConditionType)
    requires tp == CondTrue || tp == CondFalse || tp == MouseDialogClick
    ensures SetType(c, tp).data == c.data && SetType(c, tp).objects == c.objects
  {
  }

  /** Object slots that survive a resize keep their references. */
  lemma SetTypeKeepsObjects(c: Condition, tp: ConditionType, i: nat)
    requires i < |c.objects| && i < |SetType(c, tp).objects|
    ensures SetType(c, tp).objects[i] == c.objects[i]
  {
  }

  /** Setting the same type twice is setting it once. */
  lemma SetTypeIdempotent(c: Condition, tp: ConditionType)
    ensures SetType(SetType(c, tp), tp) == SetType(c, tp)
  {
    var r := SetType(c, tp);
    if ObjectSlots(tp).Some? {
      var n := ObjectSlots(tp).value;
      assert Resize(r.objects, n) == r.objects;
    }
  }

  // ---------------------------------------------------------------------
  // The TIMER condition.

  /** TIMER_PERIOD and TIMER_RND: the timer's float slot and its int slot. */
  const TimerPeriod: nat := 0
  const TimerRnd: nat := 1

  /** A TIMER condition whose slots have the room set_type gives them. */
  predicate TimerShaped(c: Condition) {
    c.kind == Timer && |c.data| >= 2 && |c.data[TimerPeriod].floats| >= 2 && |c.data[TimerRnd].ints| >= 2
  }

  /** The period, the elapsed time, the skip chance and the fired state of a timer. */
  function Period(c: Condition): real requires TimerShaped(c) { c.data[TimerPeriod].floats[0] }
  function Elapsed(c: Condition): real requires TimerShaped(c) { c.data[TimerPeriod].floats[1] }
  function Chance(c: Condition): int requires TimerShaped(c) { c.data[TimerRnd].ints[0] }
  function Fired(c: Condition): int requires TimerShaped(c) { c.data[TimerRnd].ints[1] }

  /** A condition just given the TIMER type has the timer's shape. */
  lemma SetTypeTimerShaped(c: Condition)
    ensures TimerShaped(SetType(c, Timer))
  {
  }

  /**
   * quant(dt) of a TIMER: add dt to the elapsed time; once it reaches the
   * period, subtract the period and set the fired state to 1, or to 0 when
   * the skip chance is nonzero and the roll of qd_rnd(100 - chance), passed
   * as `roll`, is nonzero; below the period the fired state is 0. Any other
   * type is untouched.
   */
  function Quant(c: Condition, dt: real, roll: int): (r: Condition)
    requires c.kind == Timer ==> |c.data| >= 2
    ensures c.kind != Timer ==> r == c
    ensures TimerShaped(c) ==> TimerShaped(r) && Period(r) == Period(c) && Chance(r) == Chance(c)
    ensures TimerShaped(c) ==> r.(data := c.data) == c
    ensures TimerShaped(c) ==>
      var due := Elapsed(c) + dt >= Period(c);
      Elapsed(r) == (if due then Elapsed(c) + dt - Period(c) else Elapsed(c) + dt) &&
      Fired(r) == (if due && (Chance(c) == 0 || roll == 0) then 1 else 0)
  {
    if c.kind != Timer then c
    else
      var period := GetFloat(c, TimerPeriod, 0);
      var timer := GetFloat(c, TimerPeriod, 1) + dt;
      var c1 := PutFloat(c, TimerPeriod, timer, 1).1;
      if timer >= period then
        var c2 := PutFloat(c1, TimerPeriod, timer - period, 1).1;
        var rnd := GetInt(c2, TimerRnd, 0);
        var state := if rnd != 0 && roll != 0 then 0 else 1;
        PutInt(c2, TimerRnd, state, 1).1
      else
        PutInt(c1, TimerRnd, 0, 1).1
  }

  /**
   * A timer whose elapsed time lies in [0, period) keeps it there when ticked
   * by at most one period.
   */
  lemma QuantKeepsPhase(c: Condition, dt: real, roll: int)
    requires TimerShaped(c) && 0.0 < Period(c)
    requires 0.0 <= Elapsed(c) < Period(c) && 0.0 <= dt <= Period(c)
    ensures 0.0 <= Elapsed(Quant(c, dt, roll)) < Period(Quant(c, dt, roll))
  {
  }

  /** A timer with a zero skip chance fires exactly when its elapsed time reaches the period. */
  lemma QuantFiresWhenDue(c: Condition, dt: real, roll: int)
    requires TimerShaped(c) && Chance(c) == 0
    ensures Fired(Quant(c, dt, roll)) == 1 <==> Elapsed(c) + dt >= Period(c)
  {
  }

  /**
   * A timer of period 1 with no skip chance, ticked by 0.4 three times,
   * fires on the third tick only, keeping 0.2 of elapsed time.
   */
  lemma TimerThreeTicks(c: Condition, roll: int)
    requires TimerShaped(c) && Period(c) == 1.0 && Elapsed(c) == 0.0 && Chance(c) == 0
    ensures var c1 := Quant(c, 0.4, roll);
      var c2 := Quant(c1, 0.4, roll);
      var c3 := Quant(c2, 0.4, roll);
      Fired(c1) == 0 && Fired(c2) == 0 && Fired(c3) == 1 && Elapsed(c3) == 0.2
  {
    var c1 := Quant(c, 0.4, roll);
    var c2 := Quant(c1, 0.4, roll);
    assert Elapsed(c1) == 0.4 && Period(c1) == 1.0 && Chance(c1) == 0;
    assert Elapsed(c2) == 0.8 && Period(c2) == 1.0 && Chance(c2) == 0;
  }

  /** init(): a TIMER has its elapsed time and fired state zeroed; any other type is untouched. */
  function Init(c: Condition): (r: (bool, Condition))
    requires c.kind == Timer ==> |c.data| >= 2
    ensures c.kind != Timer ==> r == (true, c)
    ensures TimerShaped(c) ==> r.0 && TimerShaped(r.1) && Elapsed(r.1) == 0.0 && Fired(r.1) == 0
    ensures TimerShaped(c) ==> Period(r.1) == Period(c) && Chance(r.1) == Chance(c)
    ensures r.1.(data := c.data) == c
  {
    if c.kind != Timer then (true, c)
    else
      var p1 := PutFloat(c, TimerPeriod, 0.0, 1);
      if !p1.0 then (false, p1.1)
      else
        var p2 := PutInt(p1.1, TimerRnd, 0, 1);
        if !p2.0 then (false, p2.1) else (true, p2.1)
  }

  // ---------------------------------------------------------------------
  // Save data.

  /** save_data: a TIMER writes its elapsed time and fired state; any other type writes nothing. */
  function SaveData(c: Condition): (s: seq<Token>)
    requires c.kind == Timer ==> |c.data| >= 2
    ensures c.kind != Timer ==> s == []
    ensures c.kind == Timer ==> |s| == 2 && s[0].Float32? && s[1].Int32?
  {
    if c.kind == Timer then [Float32(GetFloat(c, TimerPeriod, 1)), Int32(GetInt(c, TimerRnd, 1))] else []
  }

  /**
   * load_data: a TIMER reads its elapsed time and fired state, failing when
   * a store fails (or the stream does not hold a float then an integer); any
   * other type reads nothing. The result is (ok, condition, unread stream).
   */
  function LoadData(c: Condition, s: seq<Token>): (r: (bool, Condition, seq<Token>))
    requires c.kind == Timer ==> |c.data| >= 2
    ensures c.kind != Timer ==> r == (true, c, s)
    ensures r.1.(data := c.data) == c
  {
    if c.kind != Timer then (true, c, s)
    else if |s| < 2 || !s[0].Float32? || !s[1].Int32? then (false, c, s)
    else
      var p1 := PutFloat(c, TimerPeriod, s[0].f, 1);
      if !p1.0 then (false, p1.1, s[2..])
      else
        var p2 := PutInt(p1.1, TimerRnd, s[1].i, 1);
        (p2.0, p2.1, s[2..])
  }

  /**
   * What save_data writes, load_data reads back: the loading timer takes the
   * saved timer's elapsed time and fired state and keeps its own period and
   * chance, and the rest of the stream is left unread.
   */
  lemma SaveLoadRoundTrip(c: Condition, d: Condition, rest: seq<Token>)
    requires TimerShaped(c) && TimerShaped(d)
    ensures var r := LoadData(d, SaveData(c) + rest);
      r.0 && r.2 == rest && TimerShaped(r.1) &&
      Elapsed(r.1) == Elapsed(c) && Fired(r.1) == Fired(c) &&
      Period(r.1) == Period(d) && Chance(r.1) == Chance(d)
  {
    var s := SaveData(c) + rest;
    assert s[2..] == rest;
  }

  /** Loading a timer from its own save gives back the same timer. */
  lemma SaveLoadIdentity(c: Condition, rest: seq<Token>)
    requires TimerShaped(c)
    ensures LoadData(c, SaveData(c) + rest) == (true, c, rest)
  {
    SaveLoadRoundTrip(c, c, rest);
    var r := LoadData(c, SaveData(c) + rest);
    assert r.1.data[TimerPeriod] == c.data[TimerPeriod];
    assert r.1.data[TimerRnd] == c.data[TimerRnd];
    assert r.1.data == c.data;
  }
}
