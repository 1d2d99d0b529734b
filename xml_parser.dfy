/**
 * The XML script parser's tag-format registry: a map from tag names to tag
 * formats that the script reader consults, and the size of the parser's
 * data pool. Parsing itself is not part of this model.
 */
module XmlParsers {
  import opened Wrappers

  /** The character the data pool's new entries start as (std::vector value-initialises them). */
  const PoolFill: char := '\0'

  /** The pool resized to `n` entries: the first entries kept, new ones filled. */
  function Resized(pool: seq<char>, n: nat): (r: seq<char>)
    ensures |r| == n
    ensures forall i :: 0 <= i < n && i < |pool| ==> r[i] == pool[i]
    ensures forall i :: |pool| <= i < n ==> r[i] == PoolFill
  {
    if n <= |pool| then pool[..n] else pool + seq(n - |pool|, i => PoolFill)
  }

  /** A map grows by one entry when a new key goes in. */
  lemma InsertGrows<T>(m: map<string, T>, k: string, v: T)
    requires k !in m
    ensures |m[k := v]| == |m| + 1
  {
    assert m[k := v].Keys == m.Keys + {k};
  }

  class Parser<Tag> {
    var tagFormats: map<string, Tag>
    var dataPool: seq<char>

    /** resize_data_pool: the pool has `n` entries and keeps its first ones. */
    method ResizeDataPool(n: nat)
      modifies this
      ensures dataPool == Resized(old(dataPool), n)
      ensures tagFormats == old(tagFormats)
    {
      if n <= |dataPool| {
        dataPool := dataPool[..n];
      } else {
        dataPool := dataPool + seq(n - |dataPool|, i => PoolFill);
      }
    }

    /**
     * register_tag_format: a name already registered keeps its format and
     * the call returns false; otherwise the name is registered with the
     * format and the number of formats grows by one.
     */
    method RegisterTagFormat(name: string, tg: Tag) returns (ok: bool)
      modifies this
      ensures ok <==> name !in old(tagFormats)
      ensures tagFormats == if ok then old(tagFormats)[name := tg] else old(tagFormats)
      ensures NumTagFormats() == old(NumTagFormats()) + (if ok then 1 else 0)
      ensures dataPool == old(dataPool)
    {
      if name in tagFormats {
        return false;
      }
      InsertGrows(tagFormats, name, tg);
      tagFormats := tagFormats[name := tg];
      return true;
    }

    /** get_tag_format: the registered format, or none. */
    function GetTagFormat(name: string): (r: Option<Tag>)
      reads this
      ensures r.Some? <==> name in tagFormats
      ensures r.Some? ==> r.value == tagFormats[name]
    {
      if name in tagFormats then Some(tagFormats[name]) else None
    }

    /** num_tag_formats. */
    function NumTagFormats(): (n: nat)
      reads this
      ensures n == |tagFormats.Keys|
      ensures n == 0 <==> tagFormats == map[]
    {
      |tagFormats|
    }
  }

  /**
   * Registering a new name and then looking it up gives its format, and
   * every other name's lookup is as before; registering a name twice keeps
   * the first format.
   */
  lemma RegisterThenGet<Tag>(m: map<string, Tag>, name: string, tg: Tag, other: string)
    requires name !in m && other != name
    ensures m[name := tg][name] == tg
    ensures (other in m[name := tg]) == (other in m)
    ensures other in m ==> m[name := tg][other] == m[other]
  {
  }
}
