/**
 * The shape of the XML elements the save_script members write, as tokens:
 * an opening tag, attributes, then either a self-closing end or a body and
 * a closing tag. Only the element structure is kept; the text layout
 * (indentation, quoting, line ends) is not.
 */
module ScriptTags {

  /** An attribute value: text, a number, a decimal number or a pair of numbers. */
  datatype AttrValue = Text(s: string) | Number(n: int) | Decimal(r: real) | Pair(a: int, b: int)

  /**
   * One piece of written script: `<tag`, ` key="value"`, `>`, `/>`, the
   * nested conditions, `</tag>`.
   */
  datatype Piece =
    | Open(tag: string)
    | Attr(key: string, value: AttrValue)
    | EndOpen
    | SelfClose
    | Body
    | Close(tag: string)

  /** The first position at or after `i` that does not hold an attribute. */
  function AttrEnd(ps: seq<Piece>, i: nat): (r: nat)
    requires i <= |ps|
    ensures i <= r <= |ps|
    ensures forall k :: i <= k < r ==> ps[k].Attr?
    ensures r < |ps| ==> !ps[r].Attr?
    decreases |ps| - i
  {
    if i < |ps| && ps[i].Attr? then AttrEnd(ps, i + 1) else i
  }

  /** Every piece is nested content. */
  predicate AllBody(ps: seq<Piece>) {
    forall k :: 0 <= k < |ps| ==> ps[k] == Body
  }

  /**
   * A well-formed element named `tag`: the opening tag, its attributes, and
   * then either `/>` alone or `>`, nested content and the matching `</tag>`.
   */
  predicate WellFormed(ps: seq<Piece>, tag: string) {
    |ps| >= 1 && ps[0] == Open(tag) &&
    var e := AttrEnd(ps, 1);
    ps[e..] == [SelfClose] ||
    (e + 2 <= |ps| && ps[e] == EndOpen && ps[|ps| - 1] == Close(tag) && AllBody(ps[e + 1..|ps| - 1]))
  }

  /** An opening tag, attributes, and `/>` make a well-formed element. */
  lemma SelfClosedWellFormed(tag: string, attrs: seq<Piece>)
    requires forall k :: 0 <= k < |attrs| ==> attrs[k].Attr?
    ensures WellFormed([Open(tag)] + attrs + [SelfClose], tag)
  {
    var ps := [Open(tag)] + attrs + [SelfClose];
    AttrEndAfter(ps, 1, 1 + |attrs|);
    assert ps[1 + |attrs|..] == [SelfClose];
  }

  /** An opening tag, attributes, `>`, a body and the closing tag make a well-formed element. */
  lemma ClosedWellFormed(tag: string, attrs: seq<Piece>)
    requires forall k :: 0 <= k < |attrs| ==> attrs[k].Attr?
    ensures WellFormed([Open(tag)] + attrs + [EndOpen, Body, Close(tag)], tag)
  {
    var ps := [Open(tag)] + attrs + [EndOpen, Body, Close(tag)];
    var e := 1 + |attrs|;
    AttrEndAfter(ps, 1, e);
    assert ps[e + 1..|ps| - 1] == [Body];
  }

  /** Where the attributes run from `i` to `e`, the scan stops at `e`. */
  lemma {:induction false} AttrEndAfter(ps: seq<Piece>, i: nat, e: nat)
    requires i <= e < |ps| && !ps[e].Attr?
    requires forall k :: i <= k < e ==> ps[k].Attr?
    ensures AttrEnd(ps, i) == e
    decreases e - i
  {
    if i < e {
      AttrEndAfter(ps, i + 1, e);
    }
  }
}
