/**
 * qdGameEnd: a conditional object whose trigger start registers it as the
 * game's ending with the game dispatcher. It also names the interface
 * screen shown at the end.
 */
module GameEnds {
  import opened ConditionalObjects
  import opened ScriptTags

  /** qdGameDispatcher, as far as a game end touches it: the registered game end. */
  class GameDispatcher {
    var gameEnd: GameEnd?

    /** set_game_end: remember the game end. */
    method SetGameEnd(p: GameEnd)
      modifies this
      ensures gameEnd == p
    {
      gameEnd := p;
    }
  }

  class GameEnd {
    const base: ConditionalObject
    var interfaceScreen: string

    /** The default constructor: an empty conditional object and no end screen. */
    constructor()
      ensures fresh(base) && base.conditions == [] && base.groups == [] && base.mode == Or
      ensures interfaceScreen == ""
    {
      base := new ConditionalObject();
      interfaceScreen := "";
    }

    /** The copy constructor: the conditional-object part and the interface screen are copied. */
    constructor Copy(other: GameEnd)
      ensures fresh(base) && interfaceScreen == other.interfaceScreen
      ensures base.name == other.base.name && base.flags == other.base.flags
      ensures base.mode == other.base.mode && base.groups == other.base.groups
      ensures base.conditions == Marked(CopiedConditions(other.base.conditions), other.base.groups)
    {
      base := new ConditionalObject.Copy(other.base);
      interfaceScreen := other.interfaceScreen;
    }

    /** operator=: a no-op on self; otherwise copy the conditional-object part and the interface screen. */
    method AssignFrom(other: GameEnd)
      requires other == this || other.base != base
      modifies this, base
      ensures other == this ==> unchanged(this) && unchanged(base)
      ensures other != this ==> interfaceScreen == other.interfaceScreen
      ensures other != this ==> base.name == other.base.name && base.flags == other.base.flags
      ensures other != this ==> base.mode == other.base.mode && base.groups == other.base.groups
      ensures other != this ==> base.conditions == Marked(CopiedConditions(old(other.base.conditions)), old(other.base.groups))
    {
      if other == this {
        return;
      }
      base.AssignFrom(other.base);
      interfaceScreen := other.interfaceScreen;
    }

    /**
     * trigger_start: with a dispatcher (`dp`, null when there is none),
     * register this object as the game end and ACTIVATE; without one, FAILED.
     */
    method TriggerStart(dp: GameDispatcher?) returns (r: TriggerStartMode)
      modifies dp
      ensures dp == null ==> r == Failed
      ensures dp != null ==> r == Activate && dp.gameEnd == this
    {
      if dp == null {
        return Failed;
      }
      dp.SetGameEnd(this);
      return Activate;
    }
  }

  /** The attributes save_script writes: name, flags and end screen, in that order. */
  function EndAttrs(name: string, flags: int, screen: string): (attrs: seq<Piece>)
    ensures forall k :: 0 <= k < |attrs| ==> attrs[k].Attr?
  {
    (if name != "" then [Attr("name", Text(name))] else []) +
    (if flags != 0 then [Attr("flags", Number(flags))] else []) +
    (if screen != "" then [Attr("end_screen", Text(screen))] else [])
  }

  /** Each attribute is written exactly when it is present, nonzero or non-empty. */
  lemma EndAttrsSelection(name: string, flags: int, screen: string)
    ensures Attr("name", Text(name)) in EndAttrs(name, flags, screen) <==> name != ""
    ensures Attr("flags", Number(flags)) in EndAttrs(name, flags, screen) <==> flags != 0
    ensures Attr("end_screen", Text(screen)) in EndAttrs(name, flags, screen) <==> screen != ""
  {
    var n: seq<Piece> := if name != "" then [Attr("name", Text(name))] else [];
    var f: seq<Piece> := if flags != 0 then [Attr("flags", Number(flags))] else [];
    var s: seq<Piece> := if screen != "" then [Attr("end_screen", Text(screen))] else [];
    assert EndAttrs(name, flags, screen) == n + f + s;
  }

  /**
   * save_script as written: the attributes, then `>`, the conditions and
   * `</game_end>` when there are conditions, and nothing at all when there
   * are none, which leaves the opening tag unterminated.
   */
  function EndScriptAsWritten(name: string, flags: int, screen: string, hasConditions: bool): seq<Piece> {
    [Open("game_end")] + EndAttrs(name, flags, screen) +
    (if hasConditions then [EndOpen, Body, Close("game_end")] else [])
  }

  /** Without conditions, the element written as above is not well-formed. */
  lemma EndScriptAsWrittenBroken(name: string, flags: int, screen: string)
    ensures !WellFormed(EndScriptAsWritten(name, flags, screen, false), "game_end")
  {
    var ps := EndScriptAsWritten(name, flags, screen, false);
    var e := AttrEnd(ps, 1);
    assert e == |ps|;
  }

  /** save_script corrected: `/>` ends the element when there are no conditions. */
  function EndScript(name: string, flags: int, screen: string, hasConditions: bool): seq<Piece> {
    [Open("game_end")] + EndAttrs(name, flags, screen) +
    (if hasConditions then [EndOpen, Body, Close("game_end")] else [SelfClose])
  }

  /** The corrected element is well-formed. */
  lemma EndScriptWellFormed(name: string, flags: int, screen: string, hasConditions: bool)
    ensures WellFormed(EndScript(name, flags, screen, hasConditions), "game_end")
  {
    var attrs := EndAttrs(name, flags, screen);
    if hasConditions {
      ClosedWellFormed("game_end", attrs);
    } else {
      SelfClosedWellFormed("game_end", attrs);
    }
  }
}
