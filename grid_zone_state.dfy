/**
 * qdGridZoneState: one of the two states (on or off) of a grid zone, a
 * conditional object whose trigger start switches its zone to that state.
 *
 * The state keeps its conditional-object part as a separate object (`base`),
 * and its owner as a reference to the zone.
 */
module GridZoneStates {
  import opened ConditionalObjects
  import opened ScriptTags

  /** ZONE_STATE_ON_NAME and ZONE_STATE_OFF_NAME. */
  const OnName: string := "Вкл"
  const OffName: string := "Выкл"

  /** qdGridZone, as far as its states touch it: whether it is on. */
  class GridZone {
    var state: bool

    /** set_state: the zone takes the given state. */
    method SetState(st: bool)
      modifies this
      ensures state == st
    {
      state := st;
    }
  }

  class GridZoneState {
    const base: ConditionalObject
    var state: bool
    var owner: GridZone?

    /** qdGridZoneState(st): store the state and name the object after it. */
    constructor(st: bool)
      ensures state == st && owner == null && fresh(base)
      ensures base.name == (if st then OnName else OffName)
      ensures base.conditions == [] && base.groups == [] && base.mode == Or
    {
      base := new ConditionalObject();
      state := st;
      owner := null;
      new;
      base.name := if st then OnName else OffName;
    }

    /** The copy constructor: the conditional-object part and the state are copied. */
    constructor Copy(other: GridZoneState)
      ensures state == other.state && owner == other.owner && fresh(base)
      ensures base.name == other.base.name && base.flags == other.base.flags
      ensures base.mode == other.base.mode && base.groups == other.base.groups
      ensures base.conditions == Marked(CopiedConditions(other.base.conditions), other.base.groups)
    {
      base := new ConditionalObject.Copy(other.base);
      state := other.state;
      owner := other.owner;
    }

    /** operator=: only the state is copied; conditions, name and owner stay. */
    method AssignFrom(other: GridZoneState)
      modifies this
      ensures state == other.state
      ensures owner == old(owner)
      ensures unchanged(base)
    {
      if other == this {
        return;
      }
      state := other.state;
    }

    /**
     * trigger_start: FAILED, changing nothing, without an owner zone;
     * otherwise the zone takes this state and the result is ACTIVATE.
     */
    method TriggerStart() returns (r: TriggerStartMode)
      modifies owner
      ensures owner == null ==> r == Failed
      ensures owner != null ==> r == Activate && owner.state == state
    {
      if owner == null {
        return Failed;
      }
      owner.SetState(state);
      return Activate;
    }
  }

  /**
   * save_script to a file stream as written: the state attribute, then `/>`
   * in both branches, so an object with conditions also gets a body and a
   * closing tag after an element it has already closed.
   */
  function StateScriptAsWritten(state: bool, hasConditions: bool): seq<Piece> {
    [Open("grid_zone_state"), Attr("state", Number(if state then 1 else 0))] +
    (if hasConditions then [SelfClose, Body, Close("grid_zone_state")] else [SelfClose])
  }

  /** With conditions, the element written as above is not well-formed. */
  lemma StateScriptAsWrittenBroken(state: bool)
    ensures !WellFormed(StateScriptAsWritten(state, true), "grid_zone_state")
  {
    var ps := StateScriptAsWritten(state, true);
    AttrEndAfter(ps, 1, 2);
  }

  /**
   * save_script corrected as the text-stream overload writes it: `>` before
   * the conditions and `/>` only when there are none.
   */
  function StateScript(state: bool, hasConditions: bool): seq<Piece> {
    [Open("grid_zone_state"), Attr("state", Number(if state then 1 else 0))] +
    (if hasConditions then [EndOpen, Body, Close("grid_zone_state")] else [SelfClose])
  }

  /** The corrected element is well-formed, and carries the state attribute in both cases. */
  lemma StateScriptWellFormed(state: bool, hasConditions: bool)
    ensures WellFormed(StateScript(state, hasConditions), "grid_zone_state")
    ensures StateScript(state, hasConditions)[1] == Attr("state", Number(if state then 1 else 0))
  {
    var attrs := [Attr("state", Number(if state then 1 else 0))];
    if hasConditions {
      ClosedWellFormed("grid_zone_state", attrs);
      assert StateScript(state, hasConditions) == [Open("grid_zone_state")] + attrs + [EndOpen, Body, Close("grid_zone_state")];
    } else {
      SelfClosedWellFormed("grid_zone_state", attrs);
      assert StateScript(state, hasConditions) == [Open("grid_zone_state")] + attrs + [SelfClose];
    }
  }
}
