/**
 * qdConditionalObject: a named object carrying a list of conditions and a
 * list of condition groups, combined under a global AND/OR mode.
 *
 * The object's fields are updated in place, so it is a class whose lists are
 * `seq` fields its methods reassign. The dispatcher that decides each
 * condition is a parameter: either absent or a function from the condition's
 * index to the predicate's truth.
 */
module ConditionalObjects {
  import opened Wrappers
  import opened Conditions

  /** CONDITIONS_AND / CONDITIONS_OR, for the object and for each group. */
  datatype Mode = And | Or

  /** qdConditionGroup: a mode and the indices of its member conditions. */
  datatype Group = Group(mode: Mode, members: seq<int>)

  /** trigger_start_mode: the two outcomes of starting a trigger. */
  datatype TriggerStartMode = Activate | Failed

  /** qdGameDispatcher as seen by check(): absent, or the predicate's truth per condition index. */
  datatype Dispatcher = NoDispatcher | Dispatcher(answer: nat -> bool)

  /** The verdict the dispatcher gives condition `i`. */
  function Verdict(d: Dispatcher, i: nat): Option<bool> {
    if d.Dispatcher? then Some(d.answer(i)) else None
  }

  /** check() on condition `i` of `cs`: the click flags it sets do not matter to the result. */
  predicate Holds(cs: seq<Condition>, d: Dispatcher, i: nat)
    requires i < |cs|
  {
    Check(cs[i], Verdict(d, i), false, false, Clicks(false, false)).0
  }

  /** Every index a group lists is a valid condition index. */
  predicate MembersValid(cs: seq<Condition>, g: Group) {
    forall k :: 0 <= k < |g.members| ==> 0 <= g.members[k] < |cs|
  }

  predicate GroupsValid(cs: seq<Condition>, gs: seq<Group>) {
    forall j :: 0 <= j < |gs| ==> MembersValid(cs, gs[j])
  }

  /** A group holds: AND groups when every member holds, OR groups when some member does. */
  predicate GroupHolds(cs: seq<Condition>, g: Group, d: Dispatcher)
    requires MembersValid(cs, g)
  {
    match g.mode
    case And => forall k :: 0 <= k < |g.members| ==> Holds(cs, d, g.members[k])
    case Or => exists k :: 0 <= k < |g.members| && Holds(cs, d, g.members[k])
  }

  /** The conditions outside every group, as marked, all hold / some holds. */
  predicate UngroupedAll(cs: seq<Condition>, d: Dispatcher) {
    forall i :: 0 <= i < |cs| && !cs[i].inGroup ==> Holds(cs, d, i)
  }

  predicate UngroupedSome(cs: seq<Condition>, d: Dispatcher) {
    exists i :: 0 <= i < |cs| && !cs[i].inGroup && Holds(cs, d, i)
  }

  predicate GroupsAll(cs: seq<Condition>, gs: seq<Group>, d: Dispatcher)
    requires GroupsValid(cs, gs)
  {
    forall j :: 0 <= j < |gs| ==> GroupHolds(cs, gs[j], d)
  }

  predicate GroupsSome(cs: seq<Condition>, gs: seq<Group>, d: Dispatcher)
    requires GroupsValid(cs, gs)
  {
    exists j :: 0 <= j < |gs| && GroupHolds(cs, gs[j], d)
  }

  /**
   * The verdict of check_conditions: true without conditions; in AND mode
   * every ungrouped condition and every group must hold; in OR mode one of
   * them must.
   */
  predicate ConditionsHold(mode: Mode, cs: seq<Condition>, gs: seq<Group>, d: Dispatcher)
    requires GroupsValid(cs, gs)
  {
    |cs| == 0 ||
    match mode
    case And => UngroupedAll(cs, d) && GroupsAll(cs, gs, d)
    case Or => UngroupedSome(cs, d) || GroupsSome(cs, gs, d)
  }

  // ---------------------------------------------------------------------
  // Evaluation order and the click flags.

  /**
   * is_click_condition() / is_object_click_condition(): decided by the
   * condition's type in qd_condition.h, which is not part of this model.
   */
  datatype ClickKinds = ClickKinds(isClick: ConditionType -> bool, isObjectClick: ConditionType -> bool)

  /** check() on condition `i`, given the click flags before it: its result and the flags after it. */
  function CheckAt(cs: seq<Condition>, d: Dispatcher, ck: ClickKinds, i: nat, clicks: Clicks): (bool, Clicks)
    requires i < |cs|
  {
    Check(cs[i], Verdict(d, i), ck.isClick(cs[i].kind), ck.isObjectClick(cs[i].kind), clicks)
  }

  /** A check decides the outcome: a failing one under AND, a holding one under OR. */
  predicate Decisive(m: Mode, ok: bool) {
    ok == (m == Or)
  }

  /**
   * check_group_conditions from member k on: each member is checked in
   * order, and the first decisive one ends the group with its result.
   */
  function GroupRun(cs: seq<Condition>, g: Group, d: Dispatcher, ck: ClickKinds, k: nat, clicks: Clicks): (bool, Clicks)
    requires MembersValid(cs, g) && k <= |g.members|
    decreases |g.members| - k
  {
    if k == |g.members| then (g.mode == And, clicks)
    else
      var res := CheckAt(cs, d, ck, g.members[k], clicks);
      if Decisive(g.mode, res.0) then res else GroupRun(cs, g, d, ck, k + 1, res.1)
  }

  /** check_conditions' loop over the groups from group j on, stopping at the first decisive group. */
  function GroupsRun(cs: seq<Condition>, gs: seq<Group>, m: Mode, d: Dispatcher, ck: ClickKinds, j: nat, clicks: Clicks): (bool, Clicks)
    requires GroupsValid(cs, gs) && j <= |gs|
    decreases |gs| - j
  {
    if j == |gs| then (m == And, clicks)
    else
      var res := GroupRun(cs, gs[j], d, ck, 0, clicks);
      if Decisive(m, res.0) then res else GroupsRun(cs, gs, m, d, ck, j + 1, res.1)
  }

  /**
   * check_conditions' loop over the conditions outside every group from
   * condition i on, stopping at the first decisive one; then the groups.
   */
  function UngroupedRun(cs: seq<Condition>, gs: seq<Group>, m: Mode, d: Dispatcher, ck: ClickKinds, i: nat, clicks: Clicks): (bool, Clicks)
    requires GroupsValid(cs, gs) && i <= |cs|
    decreases |cs| - i
  {
    if i == |cs| then GroupsRun(cs, gs, m, d, ck, 0, clicks)
    else if cs[i].inGroup then UngroupedRun(cs, gs, m, d, ck, i + 1, clicks)
    else
      var res := CheckAt(cs, d, ck, i, clicks);
      if Decisive(m, res.0) then res else UngroupedRun(cs, gs, m, d, ck, i + 1, res.1)
  }

  /** check_conditions: the click flags are cleared first; without conditions the result is true. */
  function ConditionsRun(m: Mode, cs: seq<Condition>, gs: seq<Group>, d: Dispatcher, ck: ClickKinds): (bool, Clicks)
    requires GroupsValid(cs, gs)
  {
    if |cs| == 0 then (true, Clicks(false, false)) else UngroupedRun(cs, gs, m, d, ck, 0, Clicks(false, false))
  }

  /**
   * The flags only go from false to true, and only a condition that holds
   * sets one: the click flag for a click condition, the object-click flag
   * for an object-click condition that is not a click condition.
   */
  predicate FlagsFrom(cs: seq<Condition>, d: Dispatcher, ck: ClickKinds, before: Clicks, after: Clicks) {
    (before.click ==> after.click) && (before.objectClick ==> after.objectClick) &&
    (after.click ==> before.click || exists i :: 0 <= i < |cs| && Holds(cs, d, i) && ck.isClick(cs[i].kind)) &&
    (after.objectClick ==>
      before.objectClick ||
      exists i :: 0 <= i < |cs| && Holds(cs, d, i) && !ck.isClick(cs[i].kind) && ck.isObjectClick(cs[i].kind))
  }

  /** Some group lists condition index `i`. */
  predicate InSomeGroup(gs: seq<Group>, i: int) {
    exists j, k :: 0 <= j < |gs| && 0 <= k < |gs[j].members| && gs[j].members[k] == i
  }

  /** The conditions with each in-group mark set exactly when some group lists it. */
  function Marked(cs: seq<Condition>, gs: seq<Group>): (r: seq<Condition>)
    ensures |r| == |cs|
    ensures forall i :: 0 <= i < |cs| ==> r[i] == SetInGroup(cs[i], InSomeGroup(gs, i))
  {
    seq(|cs|, i requires 0 <= i < |cs| => SetInGroup(cs[i], InSomeGroup(gs, i)))
  }

  /** The in-group marks agree with the groups. */
  predicate MarksConsistent(cs: seq<Condition>, gs: seq<Group>) {
    forall i :: 0 <= i < |cs| ==> (cs[i].inGroup <==> InSomeGroup(gs, i))
  }

  /** Re-marking makes the marks consistent and changes nothing else. */
  lemma MarkedConsistent(cs: seq<Condition>, gs: seq<Group>)
    ensures MarksConsistent(Marked(cs, gs), gs)
    ensures forall i :: 0 <= i < |cs| ==> Marked(cs, gs)[i].(inGroup := cs[i].inGroup) == cs[i]
  {
  }

  /** Conditions whose marks are already consistent are left as they are by re-marking. */
  lemma MarkedIdentity(cs: seq<Condition>, gs: seq<Group>)
    requires MarksConsistent(cs, gs)
    ensures Marked(cs, gs) == cs
  {
    var r := Marked(cs, gs);
    forall i | 0 <= i < |cs|
      ensures r[i] == cs[i]
    {
      assert cs[i].inGroup == InSomeGroup(gs, i);
    }
  }

  /** Conditions ready for init and quant: every TIMER has its two parameter slots. */
  predicate AllShaped(cs: seq<Condition>) {
    forall i :: 0 <= i < |cs| ==> (cs[i].kind == Timer ==> |cs[i].data| >= 2)
  }

  /** The vector copy constructor: every condition is copy-constructed, which clears its in-group mark. */
  function CopiedConditions(cs: seq<Condition>): (r: seq<Condition>)
    ensures |r| == |cs|
    ensures forall i :: 0 <= i < |cs| ==> r[i] == CopyOf(cs[i])
  {
    seq(|cs|, i requires 0 <= i < |cs| => CopyOf(cs[i]))
  }

  // ---------------------------------------------------------------------
  // Properties of the verdict.

  /** Without conditions the verdict is true whatever the groups and the mode. */
  lemma NoConditionsHold(mode: Mode, gs: seq<Group>, d: Dispatcher)
    requires GroupsValid([], gs)
    ensures ConditionsHold(mode, [], gs, d)
  {
  }

  /** An empty AND group holds and an empty OR group does not. */
  lemma EmptyGroups(cs: seq<Condition>, d: Dispatcher)
    ensures GroupHolds(cs, Group(And, []), d)
    ensures !GroupHolds(cs, Group(Or, []), d)
  {
  }

  /** When there is something to evaluate, a true AND verdict implies a true OR verdict. */
  lemma AndImpliesOr(cs: seq<Condition>, gs: seq<Group>, d: Dispatcher, i: nat)
    requires GroupsValid(cs, gs) && i < |cs|
    requires !cs[i].inGroup || |gs| > 0
    requires ConditionsHold(And, cs, gs, d)
    ensures ConditionsHold(Or, cs, gs, d)
  {
    if !cs[i].inGroup {
      assert Holds(cs, d, i);
    } else {
      assert GroupHolds(cs, gs[0], d);
    }
  }

  /**
   * Three ungrouped conditions holding, holding and failing: the AND verdict
   * is false and the OR verdict true.
   */
  lemma AndOrExample(cs: seq<Condition>, d: Dispatcher)
    requires |cs| == 3 && forall i :: 0 <= i < 3 ==> !cs[i].inGroup
    requires Holds(cs, d, 0) && Holds(cs, d, 1) && !Holds(cs, d, 2)
    ensures !ConditionsHold(And, cs, [], d)
    ensures ConditionsHold(Or, cs, [], d)
  {
  }

  // ---------------------------------------------------------------------
  // The evaluation order gives the verdict, and the flags it leaves.

  /** A group's remaining members give its verdict, whatever the flags. */
  lemma {:induction false} GroupRunVerdict(cs: seq<Condition>, g: Group, d: Dispatcher, ck: ClickKinds, k: nat, clicks: Clicks)
    requires MembersValid(cs, g) && k <= |g.members|
    ensures GroupRun(cs, g, d, ck, k, clicks).0 == match g.mode
      case And => forall m :: k <= m < |g.members| ==> Holds(cs, d, g.members[m])
      case Or => exists m :: k <= m < |g.members| && Holds(cs, d, g.members[m])
    decreases |g.members| - k
  {
    if k < |g.members| {
      var res := CheckAt(cs, d, ck, g.members[k], clicks);
      assert res.0 == Holds(cs, d, g.members[k]);
      GroupRunVerdict(cs, g, d, ck, k + 1, res.1);
    }
  }

  /** The remaining groups give the verdict of the group loop. */
  lemma {:induction false} GroupsRunVerdict(cs: seq<Condition>, gs: seq<Group>, m: Mode, d: Dispatcher, ck: ClickKinds, j: nat, clicks: Clicks)
    requires GroupsValid(cs, gs) && j <= |gs|
    ensures GroupsRun(cs, gs, m, d, ck, j, clicks).0 == match m
      case And => forall n :: j <= n < |gs| ==> GroupHolds(cs, gs[n], d)
      case Or => exists n :: j <= n < |gs| && GroupHolds(cs, gs[n], d)
    decreases |gs| - j
  {
    if j < |gs| {
      var res := GroupRun(cs, gs[j], d, ck, 0, clicks);
      GroupRunVerdict(cs, gs[j], d, ck, 0, clicks);
      assert res.0 == GroupHolds(cs, gs[j], d);
      GroupsRunVerdict(cs, gs, m, d, ck, j + 1, res.1);
    }
  }

  /** The remaining ungrouped conditions and the groups give the verdict of the condition loop. */
  lemma {:induction false} UngroupedRunVerdict(cs: seq<Condition>, gs: seq<Group>, m: Mode, d: Dispatcher, ck: ClickKinds, i: nat, clicks: Clicks)
    requires GroupsValid(cs, gs) && i <= |cs|
    ensures UngroupedRun(cs, gs, m, d, ck, i, clicks).0 == match m
      case And => (forall n :: i <= n < |cs| && !cs[n].inGroup ==> Holds(cs, d, n)) && GroupsAll(cs, gs, d)
      case Or => (exists n :: i <= n < |cs| && !cs[n].inGroup && Holds(cs, d, n)) || GroupsSome(cs, gs, d)
    decreases |cs| - i
  {
    if i == |cs| {
      GroupsRunVerdict(cs, gs, m, d, ck, 0, clicks);
    } else if cs[i].inGroup {
      UngroupedRunVerdict(cs, gs, m, d, ck, i + 1, clicks);
    } else {
      var res := CheckAt(cs, d, ck, i, clicks);
      assert res.0 == Holds(cs, d, i);
      UngroupedRunVerdict(cs, gs, m, d, ck, i + 1, res.1);
    }
  }

  /** Checking in the source's order, stopping early, gives exactly the verdict ConditionsHold states. */
  lemma RunVerdict(m: Mode, cs: seq<Condition>, gs: seq<Group>, d: Dispatcher, ck: ClickKinds)
    requires GroupsValid(cs, gs)
    ensures ConditionsRun(m, cs, gs, d, ck).0 == ConditionsHold(m, cs, gs, d)
  {
    if |cs| > 0 {
      UngroupedRunVerdict(cs, gs, m, d, ck, 0, Clicks(false, false));
    }
  }

  /** One check() keeps the flags set and sets one only for a condition that holds. */
  lemma CheckAtFlags(cs: seq<Condition>, d: Dispatcher, ck: ClickKinds, i: nat, clicks: Clicks)
    requires i < |cs|
    ensures FlagsFrom(cs, d, ck, clicks, CheckAt(cs, d, ck, i, clicks).1)
  {
    var res := CheckAt(cs, d, ck, i, clicks);
    if res.0 {
      assert Holds(cs, d, i);
    }
  }

  lemma FlagsFromTrans(cs: seq<Condition>, d: Dispatcher, ck: ClickKinds, a: Clicks, b: Clicks, c: Clicks)
    requires FlagsFrom(cs, d, ck, a, b) && FlagsFrom(cs, d, ck, b, c)
    ensures FlagsFrom(cs, d, ck, a, c)
  {
  }

  lemma {:induction false} GroupRunFlags(cs: seq<Condition>, g: Group, d: Dispatcher, ck: ClickKinds, k: nat, clicks: Clicks)
    requires MembersValid(cs, g) && k <= |g.members|
    ensures FlagsFrom(cs, d, ck, clicks, GroupRun(cs, g, d, ck, k, clicks).1)
    decreases |g.members| - k
  {
    if k < |g.members| {
      var res := CheckAt(cs, d, ck, g.members[k], clicks);
      CheckAtFlags(cs, d, ck, g.members[k], clicks);
      if !Decisive(g.mode, res.0) {
        GroupRunFlags(cs, g, d, ck, k + 1, res.1);
        FlagsFromTrans(cs, d, ck, clicks, res.1, GroupRun(cs, g, d, ck, k + 1, res.1).1);
      }
    }
  }

  lemma {:induction false} GroupsRunFlags(cs: seq<Condition>, gs: seq<Group>, m: Mode, d: Dispatcher, ck: ClickKinds, j: nat, clicks: Clicks)
    requires GroupsValid(cs, gs) && j <= |gs|
    ensures FlagsFrom(cs, d, ck, clicks, GroupsRun(cs, gs, m, d, ck, j, clicks).1)
    decreases |gs| - j
  {
    if j < |gs| {
      var res := GroupRun(cs, gs[j], d, ck, 0, clicks);
      GroupRunFlags(cs, gs[j], d, ck, 0, clicks);
      if !Decisive(m, res.0) {
        GroupsRunFlags(cs, gs, m, d, ck, j + 1, res.1);
        FlagsFromTrans(cs, d, ck, clicks, res.1, GroupsRun(cs, gs, m, d, ck, j + 1, res.1).1);
      }
    }
  }

  lemma {:induction false} UngroupedRunFlags(cs: seq<Condition>, gs: seq<Group>, m: Mode, d: Dispatcher, ck: ClickKinds, i: nat, clicks: Clicks)
    requires GroupsValid(cs, gs) && i <= |cs|
    ensures FlagsFrom(cs, d, ck, clicks, UngroupedRun(cs, gs, m, d, ck, i, clicks).1)
    decreases |cs| - i
  {
    if i == |cs| {
      GroupsRunFlags(cs, gs, m, d, ck, 0, clicks);
    } else if cs[i].inGroup {
      UngroupedRunFlags(cs, gs, m, d, ck, i + 1, clicks);
    } else {
      var res := CheckAt(cs, d, ck, i, clicks);
      CheckAtFlags(cs, d, ck, i, clicks);
      if !Decisive(m, res.0) {
        UngroupedRunFlags(cs, gs, m, d, ck, i + 1, res.1);
        FlagsFromTrans(cs, d, ck, clicks, res.1, UngroupedRun(cs, gs, m, d, ck, i + 1, res.1).1);
      }
    }
  }

  /**
   * After check_conditions a click flag is set only when some condition of
   * that kind holds, since both flags are cleared first.
   */
  lemma RunFlags(m: Mode, cs: seq<Condition>, gs: seq<Group>, d: Dispatcher, ck: ClickKinds)
    requires GroupsValid(cs, gs)
    ensures FlagsFrom(cs, d, ck, Clicks(false, false), ConditionsRun(m, cs, gs, d, ck).1)
  {
    if |cs| > 0 {
      UngroupedRunFlags(cs, gs, m, d, ck, 0, Clicks(false, false));
    }
  }

  /**
   * When the AND loop over the ungrouped conditions passes condition n, n
   * was checked and held, so a click condition there leaves the click flag set.
   */
  lemma {:induction false} AndRunSetsClick(cs: seq<Condition>, gs: seq<Group>, d: Dispatcher, ck: ClickKinds, i: nat, clicks: Clicks, n: nat)
    requires GroupsValid(cs, gs) && i <= n < |cs| && !cs[n].inGroup && ck.isClick(cs[n].kind)
    requires UngroupedRun(cs, gs, And, d, ck, i, clicks).0
    ensures UngroupedRun(cs, gs, And, d, ck, i, clicks).1.click
    decreases |cs| - i
  {
    if cs[i].inGroup {
      AndRunSetsClick(cs, gs, d, ck, i + 1, clicks, n);
    } else {
      var res := CheckAt(cs, d, ck, i, clicks);
      if i == n {
        UngroupedRunFlags(cs, gs, And, d, ck, i + 1, res.1);
      } else {
        AndRunSetsClick(cs, gs, d, ck, i + 1, res.1, n);
      }
    }
  }

  /**
   * In AND mode a true verdict means every ungrouped condition was checked
   * and held, so any click condition among them leaves the click flag set.
   */
  lemma AndVerdictSetsClick(cs: seq<Condition>, gs: seq<Group>, d: Dispatcher, ck: ClickKinds, n: nat)
    requires GroupsValid(cs, gs) && n < |cs| && !cs[n].inGroup && ck.isClick(cs[n].kind)
    requires ConditionsRun(And, cs, gs, d, ck).0
    ensures ConditionsRun(And, cs, gs, d, ck).1.click
  {
    AndRunSetsClick(cs, gs, d, ck, 0, Clicks(false, false), n);
  }

  // ---------------------------------------------------------------------
  // The object.

  class ConditionalObject {
    /** The qdNamedObject part: the name and the flags. */
    var name: string
    var flags: int
    var mode: Mode
    var conditions: seq<Condition>
    var groups: seq<Group>

    /** The default constructor: OR mode, no conditions, no groups. */
    constructor()
      ensures mode == Or && conditions == [] && groups == []
      ensures name == "" && flags == 0
    {
      name := "";
      flags := 0;
      mode := Or;
      conditions := [];
      groups := [];
    }

    /**
     * The copy constructor, corrected: the conditions are copied (which
     * clears their in-group marks) and then re-marked from the copied groups.
     */
    constructor Copy(other: ConditionalObject)
      ensures name == other.name && flags == other.flags && mode == other.mode
      ensures groups == other.groups
      ensures conditions == Marked(CopiedConditions(other.conditions), other.groups)
    {
      name := other.name;
      flags := other.flags;
      mode := other.mode;
      groups := other.groups;
      conditions := Marked(CopiedConditions(other.conditions), other.groups);
    }

    /**
     * operator=: a no-op on self; otherwise copy the named part, the mode,
     * the conditions and the groups, with the conditions' in-group marks
     * recomputed from the copied groups.
     */
    method AssignFrom(other: ConditionalObject)
      modifies this
      ensures other == this ==> unchanged(this)
      ensures other != this ==> name == other.name && flags == other.flags && mode == other.mode
      ensures other != this ==> groups == other.groups
      ensures other != this ==> conditions == Marked(CopiedConditions(other.conditions), other.groups)
    {
      if other == this {
        return;
      }
      name := other.name;
      flags := other.flags;
      mode := other.mode;
      groups := other.groups;
      conditions := Marked(CopiedConditions(other.conditions), other.groups);
    }

    /** has_conditions(): the object has a condition to check. */
    predicate HasConditions()
      reads this
      ensures HasConditions() <==> conditions != []
    {
      |conditions| > 0
    }

    /** add_condition: append a copy owned by this object and return its index. */
    method AddCondition(c: Condition) returns (idx: int)
      modifies this
      ensures conditions == old(conditions) + [CopyOf(c).(owner := this)]
      ensures idx == |conditions| - 1
      ensures groups == old(groups) && mode == old(mode)
      ensures name == old(name) && flags == old(flags)
    {
      conditions := conditions + [CopyOf(c).(owner := this)];
      idx := |conditions| - 1;
    }

    /** update_condition: assign `p` over condition `num` and make this object its owner. */
    method UpdateCondition(num: int, p: Condition) returns (ok: bool)
      requires 0 <= num < |conditions|
      modifies this
      ensures ok
      ensures conditions == old(conditions)[num := Assign(old(conditions)[num], p).(owner := this)]
      ensures groups == old(groups) && mode == old(mode)
      ensures name == old(name) && flags == old(flags)
    {
      conditions := conditions[num := Assign(conditions[num], p).(owner := this)];
      ok := true;
    }

    /**
     * remove_conditon: erase condition `idx` and pass `idx` to every group's
     * remove_condition, whose effect on a group is `removeFrom`.
     */
    method RemoveCondition(idx: int, removeFrom: (Group, int) -> Group) returns (ok: bool)
      requires 0 <= idx < |conditions|
      modifies this
      ensures ok
      ensures conditions == old(conditions)[..idx] + old(conditions)[idx + 1..]
      ensures |groups| == |old(groups)|
      ensures forall j :: 0 <= j < |groups| ==> groups[j] == removeFrom(old(groups)[j], idx)
      ensures mode == old(mode) && name == old(name) && flags == old(flags)
    {
      conditions := conditions[..idx] + conditions[idx + 1..];
      var j := 0;
      while j < |groups|
        invariant 0 <= j <= |groups| == |old(groups)|
        invariant forall m :: 0 <= m < j ==> groups[m] == removeFrom(old(groups)[m], idx)
        invariant forall m :: j <= m < |groups| ==> groups[m] == old(groups)[m]
        invariant conditions == old(conditions)[..idx] + old(conditions)[idx + 1..]
        invariant mode == old(mode) && name == old(name) && flags == old(flags)
      {
        groups := groups[j := removeFrom(groups[j], idx)];
        j := j + 1;
      }
      ok := true;
    }

    /**
     * check_group_conditions: check the members in order, each with its
     * click kind, stopping at the first decisive one.
     */
    method CheckGroupConditions(g: Group, d: Dispatcher, ck: ClickKinds, clicks: Clicks) returns (r: bool, clicks': Clicks)
      requires MembersValid(conditions, g)
      ensures (r, clicks') == GroupRun(conditions, g, d, ck, 0, clicks)
      ensures r == GroupHolds(conditions, g, d)
    {
      GroupRunVerdict(conditions, g, d, ck, 0, clicks);
      clicks' := clicks;
      var k := 0;
      while k < |g.members|
        invariant 0 <= k <= |g.members|
        invariant GroupRun(conditions, g, d, ck, 0, clicks) == GroupRun(conditions, g, d, ck, k, clicks')
      {
        var i := g.members[k];
        var res := Check(conditions[i], Verdict(d, i), ck.isClick(conditions[i].kind), ck.isObjectClick(conditions[i].kind), clicks');
        clicks' := res.1;
        if Decisive(g.mode, res.0) {
          return res.0, clicks';
        }
        k := k + 1;
      }
      r := g.mode == And;
    }

    /** check_conditions in AND mode, once there are conditions. */
    method CheckAll(d: Dispatcher, ck: ClickKinds, clicks: Clicks) returns (r: bool, clicks': Clicks)
      requires GroupsValid(conditions, groups)
      ensures (r, clicks') == UngroupedRun(conditions, groups, And, d, ck, 0, clicks)
      ensures r == (UngroupedAll(conditions, d) && GroupsAll(conditions, groups, d))
    {
      UngroupedRunVerdict(conditions, groups, And, d, ck, 0, clicks);
      clicks' := clicks;
      var i := 0;
      while i < |conditions|
        invariant 0 <= i <= |conditions|
        invariant UngroupedRun(conditions, groups, And, d, ck, 0, clicks) == UngroupedRun(conditions, groups, And, d, ck, i, clicks')
      {
        if !conditions[i].inGroup {
          var res := Check(conditions[i], Verdict(d, i), ck.isClick(conditions[i].kind), ck.isObjectClick(conditions[i].kind), clicks');
          clicks' := res.1;
          if !res.0 {
            return false, clicks';
          }
        }
        i := i + 1;
      }
      var j := 0;
      while j < |groups|
        invariant 0 <= j <= |groups|
        invariant UngroupedRun(conditions, groups, And, d, ck, 0, clicks) == GroupsRun(conditions, groups, And, d, ck, j, clicks')
      {
        var ok;
        ok, clicks' := CheckGroupConditions(groups[j], d, ck, clicks');
        if !ok {
          return false, clicks';
        }
        j := j + 1;
      }
      r := true;
    }

    /** check_conditions in OR mode, once there are conditions. */
    method CheckAny(d: Dispatcher, ck: ClickKinds, clicks: Clicks) returns (r: bool, clicks': Clicks)
      requires GroupsValid(conditions, groups)
      ensures (r, clicks') == UngroupedRun(conditions, groups, Or, d, ck, 0, clicks)
      ensures r == (UngroupedSome(conditions, d) || GroupsSome(conditions, groups, d))
    {
      UngroupedRunVerdict(conditions, groups, Or, d, ck, 0, clicks);
      clicks' := clicks;
      var i := 0;
      while i < |conditions|
        invariant 0 <= i <= |conditions|
        invariant UngroupedRun(conditions, groups, Or, d, ck, 0, clicks) == UngroupedRun(conditions, groups, Or, d, ck, i, clicks')
      {
        if !conditions[i].inGroup {
          var res := Check(conditions[i], Verdict(d, i), ck.isClick(conditions[i].kind), ck.isObjectClick(conditions[i].kind), clicks');
          clicks' := res.1;
          if res.0 {
            return true, clicks';
          }
        }
        i := i + 1;
      }
      var j := 0;
      while j < |groups|
        invariant 0 <= j <= |groups|
        invariant UngroupedRun(conditions, groups, Or, d, ck, 0, clicks) == GroupsRun(conditions, groups, Or, d, ck, j, clicks')
      {
        var ok;
        ok, clicks' := CheckGroupConditions(groups[j], d, ck, clicks');
        if ok {
          return true, clicks';
        }
        j := j + 1;
      }
      r := false;
    }

    /**
     * check_conditions: clear the click flags, then true without conditions,
     * else the AND or OR loop; the flags it returns are the ones check() set.
     */
    method CheckConditions(d: Dispatcher, ck: ClickKinds) returns (r: bool, clicks: Clicks)
      requires GroupsValid(conditions, groups)
      ensures (r, clicks) == ConditionsRun(mode, conditions, groups, d, ck)
      ensures r == ConditionsHold(mode, conditions, groups, d)
      ensures FlagsFrom(conditions, d, ck, Clicks(false, false), clicks)
      ensures |conditions| == 0 ==> r && clicks == Clicks(false, false)
    {
      RunVerdict(mode, conditions, groups, d, ck);
      RunFlags(mode, conditions, groups, d, ck);
      clicks := Clicks(false, false);
      if |conditions| == 0 {
        return true, clicks;
      }
      match mode
      case And =>
        r, clicks := CheckAll(d, ck, clicks);
      case Or =>
        r, clicks := CheckAny(d, ck, clicks);
    }

    /** std::find over one group's members. */
    static method GroupContains(members: seq<int>, x: int) returns (found: bool)
      ensures found <==> exists k :: 0 <= k < |members| && members[k] == x
    {
      var k := 0;
      while k < |members|
        invariant 0 <= k <= |members|
        invariant forall m :: 0 <= m < k ==> members[m] != x
      {
        if members[k] == x {
          return true;
        }
        k := k + 1;
      }
      return false;
    }

    /** is_condition_in_group: whether some group lists the index. */
    method IsConditionInGroup(idx: int) returns (r: bool)
      ensures r <==> InSomeGroup(groups, idx)
    {
      var j := 0;
      while j < |groups|
        invariant 0 <= j <= |groups|
        invariant forall m, k :: 0 <= m < j && 0 <= k < |groups[m].members| ==> groups[m].members[k] != idx
      {
        var found := GroupContains(groups[j].members, idx);
        if found {
          return true;
        }
        j := j + 1;
      }
      return false;
    }

    /** The loop both group edits end with: re-mark every condition from the groups. */
    method RefreshGroupMarks()
      modifies this
      ensures conditions == Marked(old(conditions), groups)
      ensures groups == old(groups) && mode == old(mode)
      ensures name == old(name) && flags == old(flags)
    {
      var i := 0;
      while i < |conditions|
        invariant 0 <= i <= |conditions| == |old(conditions)|
        invariant forall m :: 0 <= m < i ==> conditions[m] == SetInGroup(old(conditions)[m], InSomeGroup(groups, m))
        invariant forall m :: i <= m < |conditions| ==> conditions[m] == old(conditions)[m]
        invariant groups == old(groups) && mode == old(mode)
        invariant name == old(name) && flags == old(flags)
      {
        var inGroup := IsConditionInGroup(i);
        conditions := conditions[i := SetInGroup(conditions[i], inGroup)];
        i := i + 1;
      }
    }

    /** add_condition_group: append a group and return its index. */
    method AddConditionGroup(g: Group) returns (idx: int)
      modifies this
      ensures groups == old(groups) + [g] && idx == |groups| - 1
      ensures conditions == old(conditions) && mode == old(mode)
      ensures name == old(name) && flags == old(flags)
    {
      groups := groups + [g];
      idx := |groups| - 1;
    }

    /** update_condition_group: replace group `num`, then re-mark every condition. */
    method UpdateConditionGroup(num: int, g: Group) returns (ok: bool)
      requires 0 <= num < |groups|
      modifies this
      ensures ok
      ensures groups == old(groups)[num := g]
      ensures conditions == Marked(old(conditions), groups)
      ensures MarksConsistent(conditions, groups)
      ensures mode == old(mode) && name == old(name) && flags == old(flags)
    {
      groups := groups[num := g];
      RefreshGroupMarks();
      MarkedConsistent(old(conditions), groups);
      ok := true;
    }

    /** remove_conditon_group: erase group `idx`, then re-mark every condition. */
    method RemoveConditionGroup(idx: int) returns (ok: bool)
      requires 0 <= idx < |groups|
      modifies this
      ensures ok
      ensures groups == old(groups)[..idx] + old(groups)[idx + 1..]
      ensures conditions == Marked(old(conditions), groups)
      ensures MarksConsistent(conditions, groups)
      ensures mode == old(mode) && name == old(name) && flags == old(flags)
    {
      groups := groups[..idx] + groups[idx + 1..];
      RefreshGroupMarks();
      MarkedConsistent(old(conditions), groups);
      ok := true;
    }

    /** init: initialise every condition, with no early exit; true when all succeeded. */
    method Init() returns (r: bool)
      requires AllShaped(conditions)
      modifies this
      ensures r <==> forall i :: 0 <= i < |old(conditions)| ==> Conditions.Init(old(conditions)[i]).0
      ensures |conditions| == |old(conditions)|
      ensures forall i :: 0 <= i < |conditions| ==> conditions[i] == Conditions.Init(old(conditions)[i]).1
      ensures groups == old(groups) && mode == old(mode)
      ensures name == old(name) && flags == old(flags)
    {
      r := true;
      var i := 0;
      while i < |conditions|
        invariant 0 <= i <= |conditions| == |old(conditions)|
        invariant r <==> forall m :: 0 <= m < i ==> Conditions.Init(old(conditions)[m]).0
        invariant forall m :: 0 <= m < i ==> conditions[m] == Conditions.Init(old(conditions)[m]).1
        invariant forall m :: i <= m < |conditions| ==> conditions[m] == old(conditions)[m]
        invariant groups == old(groups) && mode == old(mode)
        invariant name == old(name) && flags == old(flags)
      {
        var res := Conditions.Init(conditions[i]);
        conditions := conditions[i := res.1];
        if !res.0 {
          r := false;
        }
        i := i + 1;
      }
    }

    /** conditions_quant: tick every condition; `roll(i)` is the qd_rnd result condition `i` would draw. */
    method ConditionsQuant(dt: real, roll: nat -> int)
      requires AllShaped(conditions)
      modifies this
      ensures |conditions| == |old(conditions)|
      ensures forall i :: 0 <= i < |conditions| ==> conditions[i] == Quant(old(conditions)[i], dt, roll(i))
      ensures groups == old(groups) && mode == old(mode)
      ensures name == old(name) && flags == old(flags)
    {
      var i := 0;
      while i < |conditions|
        invariant 0 <= i <= |conditions| == |old(conditions)|
        invariant forall m :: 0 <= m < i ==> conditions[m] == Quant(old(conditions)[m], dt, roll(m))
        invariant forall m :: i <= m < |conditions| ==> conditions[m] == old(conditions)[m]
        invariant groups == old(groups) && mode == old(mode)
        invariant name == old(name) && flags == old(flags)
      {
        conditions := conditions[i := Quant(conditions[i], dt, roll(i))];
        i := i + 1;
      }
    }
  }

  // ---------------------------------------------------------------------
  // Copying a conditional object.

  /**
   * The copy constructor as written clears the in-group marks, so a copy
   * evaluates grouped conditions at the top level as well: an OR object whose
   * only group is AND{0, 1}, with condition 0 holding and condition 1 (the
   * same condition, inverted) not, is false, and its copy true. The
   * dispatcher gives every condition the same verdict.
   */
  lemma CopyLosesGroupMarks(c: Condition, d: Dispatcher)
    requires c.inGroup && !c.inversed
    requires d == Dispatcher(i => true)
    ensures var cs := [c, c.(inversed := true)];
      var gs := [Group(And, [0, 1])];
      MarksConsistent(cs, gs) &&
      !ConditionsHold(Or, cs, gs, d) && ConditionsHold(Or, CopiedConditions(cs), gs, d)
  {
    var cs := [c, c.(inversed := true)];
    var gs := [Group(And, [0, 1])];
    assert gs[0].members[0] == 0 && gs[0].members[1] == 1;
    assert InSomeGroup(gs, 0) && InSomeGroup(gs, 1);
    assert !Holds(cs, d, 1);
    assert Holds(CopiedConditions(cs), d, 0);
    assert !CopiedConditions(cs)[0].inGroup;
  }

  /** The corrected copy of an object whose marks are consistent has the same conditions and verdict. */
  lemma CorrectedCopyKeepsVerdict(mode: Mode, cs: seq<Condition>, gs: seq<Group>, d: Dispatcher)
    requires GroupsValid(cs, gs) && MarksConsistent(cs, gs)
    ensures Marked(CopiedConditions(cs), gs) == cs
    ensures ConditionsHold(mode, Marked(CopiedConditions(cs), gs), gs, d) == ConditionsHold(mode, cs, gs, d)
  {
    var r := Marked(CopiedConditions(cs), gs);
    forall i | 0 <= i < |cs|
      ensures r[i] == cs[i]
    {
      assert cs[i].inGroup == InSomeGroup(gs, i);
    }
  }
}
