/**
 * The records of the trigger graph: qdTriggerLink, a link to a trigger
 * element with a status, a type and an auto-restart flag, and the plain
 * fields of qdTriggerElement. Element activation and link propagation are
 * defined in qd_trigger_element.cpp and qd_trigger_chain.cpp, which are not
 * part of this model.
 */
module TriggerElements {
  import opened Wrappers

  /** qdTriggerLink::LinkStatus. */
  datatype LinkStatus = LinkInactive | LinkActive | LinkDone

  /** qdTriggerElement::ElementStatus. */
  datatype ElementStatus = ElInactive | ElWaiting | ElWorking | ElDone

  /** ROOT_ID and INVALID_ID: the reserved element ids. */
  const RootId: int := -1
  const InvalidId: int := -2

  /** The enumerator value of a link status. */
  function LinkOrdinal(s: LinkStatus): nat {
    match s
    case LinkInactive => 0
    case LinkActive => 1
    case LinkDone => 2
  }

  /** The link status an integer names when cast to LinkStatus, if it names one. */
  function LinkStatusOf(i: int): (r: Option<LinkStatus>)
    ensures r.Some? ==> LinkOrdinal(r.value) == i
  {
    if i == 0 then Some(LinkInactive)
    else if i == 1 then Some(LinkActive)
    else if i == 2 then Some(LinkDone)
    else None
  }

  /** The enumerator value of an element status. */
  function ElementOrdinal(s: ElementStatus): nat {
    match s
    case ElInactive => 0
    case ElWaiting => 1
    case ElWorking => 2
    case ElDone => 3
  }

  /** The element status an integer names when cast to ElementStatus, if it names one. */
  function ElementStatusOf(i: int): (r: Option<ElementStatus>)
    ensures r.Some? ==> ElementOrdinal(r.value) == i
  {
    if i == 0 then Some(ElInactive)
    else if i == 1 then Some(ElWaiting)
    else if i == 2 then Some(ElWorking)
    else if i == 3 then Some(ElDone)
    else None
  }

  /** A link status is exactly one of INACTIVE, ACTIVE, DONE, numbered 0 to 2. */
  lemma LinkStatusesExact(i: int)
    ensures LinkStatusOf(i).Some? <==> 0 <= i <= 2
    ensures forall s: LinkStatus :: LinkStatusOf(LinkOrdinal(s)) == Some(s)
  {
  }

  /**
   * Element statuses run INACTIVE, WAITING, WORKING, DONE in that order, and
   * the two reserved ids are distinct negative numbers.
   */
  lemma ElementStatusesOrdered(i: int)
    ensures ElementStatusOf(i).Some? <==> 0 <= i <= 3
    ensures forall s: ElementStatus :: ElementStatusOf(ElementOrdinal(s)) == Some(s)
    ensures ElementOrdinal(ElInactive) < ElementOrdinal(ElWaiting) < ElementOrdinal(ElWorking) < ElementOrdinal(ElDone)
    ensures RootId != InvalidId && RootId < 0 && InvalidId < 0
  {
  }

  /**
   * qdTriggerLink. An element keeps its links by value, so a link is a
   * record and each setter gives the updated record. Its constructors are
   * in qd_trigger_element.cpp, which is not part of this model.
   */
  datatype TriggerLink = TriggerLink(linkType: int, element: TriggerElement?, elementId: int, status: LinkStatus, autoRestart: bool)
  {
    /** set_status: only the status changes. */
    function SetStatus(st: LinkStatus): (r: TriggerLink)
      ensures r.status == st
      ensures r.linkType == linkType && r.element == element
      ensures r.elementId == elementId && r.autoRestart == autoRestart
    {
      this.(status := st)
    }

    /** set_type: only the type changes. */
    function SetType(t: int): (r: TriggerLink)
      ensures r.linkType == t
      ensures r.status == status && r.element == element
      ensures r.elementId == elementId && r.autoRestart == autoRestart
    {
      this.(linkType := t)
    }

    /** set_element: only the element changes. */
    function SetElement(el: TriggerElement?): (r: TriggerLink)
      ensures r.element == el
      ensures r.status == status && r.linkType == linkType
      ensures r.elementId == elementId && r.autoRestart == autoRestart
    {
      this.(element := el)
    }

    /**
     * set_element_ID: store the id only while the link has no element; the
     * first component says whether it did.
     */
    function SetElementId(id: int): (r: (bool, TriggerLink))
      ensures r.0 <==> element == null
      ensures r.1.elementId == (if r.0 then id else elementId)
      ensures r.1.status == status && r.1.linkType == linkType
      ensures r.1.element == element && r.1.autoRestart == autoRestart
    {
      if element == null then (true, this.(elementId := id)) else (false, this)
    }

    /** toggle_auto_restart: only the flag changes. */
    function ToggleAutoRestart(state: bool): (r: TriggerLink)
      ensures r.autoRestart == state
      ensures r.status == status && r.linkType == linkType
      ensures r.element == element && r.elementId == elementId
    {
      this.(autoRestart := state)
    }

    /** operator== with an element pointer: whether the link leads to that element. */
    predicate LeadsTo(e: TriggerElement?) {
      element == e
    }
  }

  /**
   * Comparing a link with an element ignores the link's type, status, id
   * and auto-restart flag: only set_element changes where a link leads.
   */
  lemma LeadsToIgnoresLinkState(l: TriggerLink, e: TriggerElement?, st: LinkStatus, t: int, id: int, flag: bool)
    ensures l.SetStatus(st).LeadsTo(e) == l.LeadsTo(e)
    ensures l.SetType(t).LeadsTo(e) == l.LeadsTo(e)
    ensures l.SetElementId(id).1.LeadsTo(e) == l.LeadsTo(e)
    ensures l.ToggleAutoRestart(flag).LeadsTo(e) == l.LeadsTo(e)
    ensures l.SetElement(e).LeadsTo(e)
  {
  }

  /**
   * Once a link has an element its id is fixed: set_element_ID is refused
   * and leaves the link as it is; on a link without one it is taken.
   */
  lemma ElementIdFixedOnceBound(l: TriggerLink, el: TriggerElement?, id: int)
    ensures el != null ==> l.SetElement(el).SetElementId(id) == (false, l.SetElement(el))
    ensures l.SetElement(null).SetElementId(id) == (true, l.(element := null, elementId := id))
  {
  }

  /**
   * qdTriggerElement: its id, status, debug-activity mark and link lists.
   * Its constructors are in qd_trigger_element.cpp, so the model gives the
   * class none.
   */
  class TriggerElement {
    var id: int
    var status: ElementStatus
    var isActive: bool
    var parents: seq<TriggerLink>
    var children: seq<TriggerLink>

    /** set_id. */
    method SetId(newId: int)
      modifies this
      ensures id == newId
      ensures status == old(status) && isActive == old(isActive)
      ensures parents == old(parents) && children == old(children)
    {
      id := newId;
    }

    /** make_active. */
    method MakeActive(v: bool)
      modifies this
      ensures isActive == v
      ensures id == old(id) && status == old(status)
      ensures parents == old(parents) && children == old(children)
    {
      isActive := v;
    }

    /** set_status, as the profiler's replay uses it: the element takes the status. */
    method SetStatus(st: ElementStatus)
      modifies this
      ensures status == st
      ensures id == old(id) && isActive == old(isActive)
      ensures parents == old(parents) && children == old(children)
    {
      status := st;
    }
  }
}
