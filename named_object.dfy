/**
 * qdNamedObjectBase: an object's name. The stored name is a string, and
 * name() presents an empty one as NULL; set_name takes a C string that may
 * be NULL.
 */
module NamedObjects {
  import opened Wrappers

  class NamedObject {
    var name: string

    /** The name as name() returns it: none when the stored name is empty. */
    function Name(): (r: Option<string>)
      reads this
      ensures r.None? <==> name == ""
      ensures r.Some? ==> r.value == name && r.value != ""
    {
      if name != "" then Some(name) else None
    }

    /** set_name: a non-null string is stored, NULL clears the name. */
    method SetName(p: Option<string>)
      modifies this
      ensures name == (if p.Some? then p.value else "")
    {
      if p.Some? {
        name := p.value;
      } else {
        name := "";
      }
    }
  }

  /**
   * After set_name, name() gives the string set when it is non-empty, and
   * none when it is NULL or empty.
   */
  method SetThenGet(o: NamedObject, p: Option<string>) returns (r: Option<string>)
    modifies o
    ensures p.Some? && p.value != "" ==> r == p
    ensures p.None? || p.value == "" ==> r.None?
  {
    o.SetName(p);
    r := o.Name();
  }
}
