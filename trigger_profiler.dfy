/**
 * qdTriggerProfiler: a log of trigger status changes. Each record names a
 * trigger chain by its position in the dispatcher's chain list, an element
 * of that chain, possibly one of the element's links, and the status the
 * element or link took. The log is saved to and loaded from a work file of
 * little-endian 32-bit words, and `evolve` replays a prefix of it onto the
 * trigger graph.
 *
 * The dispatcher's chain list is a parameter (`None` when there is no
 * dispatcher); a chain is known by an identifier standing for its address.
 * The trigger graph is a map from targets (an element, or a parent or child
 * link of an element) to statuses, and which targets exist in a chain is a
 * parameter, since search_element and find_*_link are not part of this model.
 */
module TriggerProfilers {
  import opened Wrappers

  /** The record events, in the order of qdTriggerProfilerRecord::event_t. */
  const ElementStatusUpdate: int := 0
  const ParentLinkStatusUpdate: int := 1
  const ChildLinkStatusUpdate: int := 2

  const Two31: int := 0x8000_0000

  /** A value that fits a signed 32-bit integer. */
  predicate IsI32(x: int) {
    -Two31 <= x < Two31
  }

  /** The 32-bit word writeSint32LE/writeUint32LE store for `x` (two's complement). */
  function ToWord(x: int): U32 {
    x % Two32
  }

  /** The value readSint32LE returns for a stored word. */
  function Signed(w: U32): (r: int)
    ensures IsI32(r) && ToWord(r) == w
  {
    if w >= Two31 then w - Two32 else w
  }

  /** Writing a signed 32-bit value and reading it back as signed gives it back. */
  lemma SignedToWord(x: int)
    requires IsI32(x)
    ensures Signed(ToWord(x)) == x
  {
    if x < 0 {
      assert ToWord(x) == x + Two32;
    }
  }

  /** qdTriggerProfilerRecord: time, event, trigger position, element id, link id, status. */
  datatype Record = Record(time: int, event: int, triggerId: int, elementId: int, linkId: int, status: int)

  /** The default record: time 0, an element status update, all ids and the status 0. */
  const DefaultRecord: Record := Record(0, ElementStatusUpdate, 0, 0, 0, 0)

  /** A record whose fields fit their 32-bit fields: time unsigned, the rest signed. */
  predicate Fits(r: Record) {
    0 <= r.time < Two32 && IsI32(r.event) && IsI32(r.triggerId) &&
    IsI32(r.elementId) && IsI32(r.linkId) && IsI32(r.status)
  }

  /** save: time, event, trigger, element, link, status, one word each. */
  function SaveRecord(r: Record): (s: seq<U32>)
    ensures |s| == 6
  {
    [ToWord(r.time), ToWord(r.event), ToWord(r.triggerId), ToWord(r.elementId), ToWord(r.linkId), ToWord(r.status)]
  }

  /**
   * The word at position `i` of a file. A read past the end of the file
   * yields 0 in this model.
   */
  function WordAt(f: seq<U32>, i: int): U32 {
    if 0 <= i < |f| then f[i] else 0
  }

  /** load: the six fields from position `p`, the time unsigned and the rest signed. */
  function LoadRecord(f: seq<U32>, p: int): (r: Record)
    ensures Fits(r)
  {
    Record(WordAt(f, p), Signed(WordAt(f, p + 1)), Signed(WordAt(f, p + 2)),
           Signed(WordAt(f, p + 3)), Signed(WordAt(f, p + 4)), Signed(WordAt(f, p + 5)))
  }

  /** load after save gives back every field of a record that fits its fields. */
  lemma RecordRoundTrip(r: Record, f: seq<U32>, p: nat)
    requires Fits(r)
    requires p + 6 <= |f| && f[p..p + 6] == SaveRecord(r)
    ensures LoadRecord(f, p) == r
  {
    assert f[p] == f[p..p + 6][0];
    assert f[p + 1] == f[p..p + 6][1];
    assert f[p + 2] == f[p..p + 6][2];
    assert f[p + 3] == f[p..p + 6][3];
    assert f[p + 4] == f[p..p + 6][4];
    assert f[p + 5] == f[p..p + 6][5];
    SignedToWord(r.event);
    SignedToWord(r.triggerId);
    SignedToWord(r.elementId);
    SignedToWord(r.linkId);
    SignedToWord(r.status);
  }

  /** The default record is saved as six zero words, and six zero words load as it. */
  lemma DefaultRecordZeros()
    ensures SaveRecord(DefaultRecord) == [0, 0, 0, 0, 0, 0]
    ensures LoadRecord([0, 0, 0, 0, 0, 0], 0) == DefaultRecord
  {
  }

  /** The words save_to_work_file writes for the records after the count. */
  function Images(rs: seq<Record>): (s: seq<U32>)
    ensures |s| == 6 * |rs|
  {
    if |rs| == 0 then [] else Images(rs[..|rs| - 1]) + SaveRecord(rs[|rs| - 1])
  }

  /** The work file: the record count, then each record. */
  function WorkFileImage(rs: seq<Record>): seq<U32> {
    [ToWord(|rs|)] + Images(rs)
  }

  /** The records load_from_work_file reads: the signed count, then that many records. */
  function ParseWorkFile(f: seq<U32>): (rs: seq<Record>)
    ensures forall k :: 0 <= k < |rs| ==> rs[k] == LoadRecord(f, 1 + 6 * k)
  {
    var n := Signed(WordAt(f, 0));
    if n <= 0 then [] else seq(n, k => LoadRecord(f, 1 + 6 * k))
  }

  /** Record `k` of the images sits at words 6k to 6k+6. */
  lemma {:induction false} ImagesAt(rs: seq<Record>, k: nat)
    requires k < |rs|
    ensures Images(rs)[6 * k..6 * k + 6] == SaveRecord(rs[k])
    decreases |rs|
  {
    var init := rs[..|rs| - 1];
    assert Images(rs) == Images(init) + SaveRecord(rs[|rs| - 1]);
    if k < |rs| - 1 {
      ImagesAt(init, k);
      assert Images(rs)[6 * k..6 * k + 6] == Images(init)[6 * k..6 * k + 6];
    } else {
      assert Images(rs)[6 * k..6 * k + 6] == SaveRecord(rs[|rs| - 1]);
    }
  }

  /**
   * Parsing the words save_to_work_file writes for a log gives the log
   * back, when the records fit their fields and their number fits a signed
   * 32-bit count. (The source writes those words to a stream it never
   * opens, so this is about the words, not a file on disk.)
   */
  lemma {:induction false} WorkFileRoundTrip(rs: seq<Record>)
    requires forall k :: 0 <= k < |rs| ==> Fits(rs[k])
    requires |rs| < Two31
    ensures ParseWorkFile(WorkFileImage(rs)) == rs
  {
    var f := WorkFileImage(rs);
    assert WordAt(f, 0) == |rs|;
    var out := ParseWorkFile(f);
    assert |out| == |rs|;
    forall k | 0 <= k < |rs|
      ensures out[k] == rs[k]
    {
      ImagesAt(rs, k);
      assert f[1 + 6 * k..1 + 6 * k + 6] == Images(rs)[6 * k..6 * k + 6];
      RecordRoundTrip(rs[k], f, 1 + 6 * k);
    }
  }

  /** The position of the first occurrence of `x` in `list`, or the list's length. */
  function IndexOf(list: seq<nat>, x: nat): (r: nat)
    ensures r <= |list|
    ensures r < |list| ==> list[r] == x
    ensures forall k :: 0 <= k < r ==> list[k] != x
    ensures r == |list| <==> x !in list
  {
    if |list| == 0 then 0
    else if list[0] == x then 0
    else 1 + IndexOf(list[1..], x)
  }

  /**
   * The trigger position a new record stores: with a dispatcher, the
   * position of the chain in its list (the list length when absent); without
   * one, 0.
   */
  function TriggerIndex(chains: Option<seq<nat>>, trigger: nat): nat {
    if chains.None? then 0 else IndexOf(chains.value, trigger)
  }

  /**
   * get_record_trigger: step through the list `id` times, stopping at its
   * end, and return the chain reached. A negative position reaches the first
   * chain; a position at or past the end reaches none.
   */
  function TriggerAt(chains: Option<seq<nat>>, id: int): (r: Option<nat>)
    ensures chains.None? ==> r.None?
    ensures chains.Some? && 0 <= id < |chains.value| ==> r == Some(chains.value[id])
    ensures chains.Some? && id >= |chains.value| ==> r.None?
  {
    if chains.None? then None
    else
      var p := if id < 0 then 0 else id;
      if p < |chains.value| then Some(chains.value[p]) else None
  }

  /**
   * A record made for a chain in the dispatcher's list leads back to that
   * chain; one made for a chain not in the list leads to none.
   */
  lemma TriggerIndexRecovers(chains: seq<nat>, trigger: nat)
    ensures trigger in chains ==> TriggerAt(Some(chains), TriggerIndex(Some(chains), trigger)) == Some(trigger)
    ensures trigger !in chains ==> TriggerAt(Some(chains), TriggerIndex(Some(chains), trigger)).None?
  {
  }

  /**
   * The record constructor with a trigger: the given fields, and the
   * trigger's position found by walking the dispatcher's list.
   */
  method NewRecord(tm: U32, ev: int, trigger: nat, chains: Option<seq<nat>>, elId: int, lnkId: int, st: int)
    returns (r: Record)
    ensures r.time == tm && r.event == ev && r.elementId == elId && r.linkId == lnkId && r.status == st
    ensures chains.None? ==> r.triggerId == 0
    ensures chains.Some? ==> 0 <= r.triggerId <= |chains.value|
    ensures chains.Some? && r.triggerId < |chains.value| ==> chains.value[r.triggerId] == trigger
    ensures chains.Some? ==> forall k :: 0 <= k < r.triggerId ==> chains.value[k] != trigger
    ensures r.triggerId == TriggerIndex(chains, trigger)
  {
    var id := 0;
    if chains.Some? {
      var list := chains.value;
      while id < |list| && list[id] != trigger
        invariant 0 <= id <= |list|
        invariant forall k :: 0 <= k < id ==> list[k] != trigger
      {
        id := id + 1;
      }
      assert id == IndexOf(list, trigger) by {
        IndexOfUnique(list, trigger, id);
      }
    }
    r := Record(tm, ev, id, elId, lnkId, st);
  }

  /** The first occurrence is unique: a position with the element and none before it is IndexOf. */
  lemma IndexOfUnique(list: seq<nat>, x: nat, i: nat)
    requires i <= |list|
    requires i < |list| ==> list[i] == x
    requires forall k :: 0 <= k < i ==> list[k] != x
    ensures i == IndexOf(list, x)
  {
  }

  /** What a record changes in the trigger graph: an element, or a parent or child link of one. */
  datatype Target =
    | ElementTarget(chain: nat, element: int)
    | LinkTarget(chain: nat, element: int, child: bool, link: int)

  /**
   * get_record_element: the record's element in the record's chain, if the
   * chain is found and holds it (`present` says which targets exist).
   */
  function RecordElement(rec: Record, chains: Option<seq<nat>>, present: Target -> bool): (r: Option<Target>)
    ensures r.Some? ==> r.value.ElementTarget? && r.value.element == rec.elementId && present(r.value)
    ensures r.Some? <==> TriggerAt(chains, rec.triggerId).Some? && present(ElementTarget(TriggerAt(chains, rec.triggerId).value, rec.elementId))
  {
    match TriggerAt(chains, rec.triggerId)
    case None => None
    case Some(c) =>
      if present(ElementTarget(c, rec.elementId)) then Some(ElementTarget(c, rec.elementId)) else None
  }

  /**
   * get_record_link: the element's child link for a child-link event, its
   * parent link for any other event, if the element and the link exist.
   */
  function RecordLink(rec: Record, chains: Option<seq<nat>>, present: Target -> bool): (r: Option<Target>)
    ensures r.Some? ==> r.value.LinkTarget? && present(r.value) && r.value.link == rec.linkId
    ensures r.Some? ==> (r.value.child <==> rec.event == ChildLinkStatusUpdate)
    ensures r.Some? ==> RecordElement(rec, chains, present) == Some(ElementTarget(r.value.chain, r.value.element))
  {
    match RecordElement(rec, chains, present)
    case None => None
    case Some(e) =>
      var l := LinkTarget(e.chain, e.element, rec.event == ChildLinkStatusUpdate, rec.linkId);
      if present(l) then Some(l) else None
  }

  /** The target one step of evolve writes: elements for status updates, links for link updates, none for other events. */
  function RecordTarget(rec: Record, chains: Option<seq<nat>>, present: Target -> bool): Option<Target> {
    if rec.event == ElementStatusUpdate then RecordElement(rec, chains, present)
    else if rec.event == ParentLinkStatusUpdate || rec.event == ChildLinkStatusUpdate then RecordLink(rec, chains, present)
    else None
  }

  /** The trigger graph's statuses after applying records [0, m) to `world`. */
  function Applied(rs: seq<Record>, m: nat, chains: Option<seq<nat>>, present: Target -> bool, world: map<Target, int>): map<Target, int>
    requires m <= |rs|
  {
    if m == 0 then world
    else
      var w := Applied(rs, m - 1, chains, present, world);
      match RecordTarget(rs[m - 1], chains, present)
      case None => w
      case Some(t) => w[t := rs[m - 1].status]
  }

  /**
   * A target no record in [0, m) writes keeps its status from `world`
   * (including being absent from it).
   */
  lemma {:induction false} AppliedUntouched(rs: seq<Record>, m: nat, chains: Option<seq<nat>>, present: Target -> bool, world: map<Target, int>, t: Target)
    requires m <= |rs|
    requires forall j :: 0 <= j < m ==> RecordTarget(rs[j], chains, present) != Some(t)
    ensures t in Applied(rs, m, chains, present, world) <==> t in world
    ensures t in world ==> Applied(rs, m, chains, present, world)[t] == world[t]
  {
    if m > 0 {
      AppliedUntouched(rs, m - 1, chains, present, world, t);
    }
  }

  /**
   * The last write wins: when record j writes target t and no later record
   * in [0, m) does, t has record j's status after the first m records.
   */
  lemma {:induction false} AppliedLastWriteWins(rs: seq<Record>, m: nat, chains: Option<seq<nat>>, present: Target -> bool, world: map<Target, int>, j: nat, t: Target)
    requires j < m <= |rs|
    requires RecordTarget(rs[j], chains, present) == Some(t)
    requires forall i :: j < i < m ==> RecordTarget(rs[i], chains, present) != Some(t)
    ensures t in Applied(rs, m, chains, present, world)
    ensures Applied(rs, m, chains, present, world)[t] == rs[j].status
  {
    if m - 1 > j {
      AppliedLastWriteWins(rs, m - 1, chains, present, world, j, t);
    }
  }

  /** Without a dispatcher no record finds its chain, so replay changes nothing. */
  lemma {:induction false} AppliedNoDispatcher(rs: seq<Record>, m: nat, present: Target -> bool, world: map<Target, int>)
    requires m <= |rs|
    ensures Applied(rs, m, None, present, world) == world
  {
    if m > 0 {
      AppliedNoDispatcher(rs, m - 1, present, world);
    }
  }

  /** The trigger profiler: its log, the work file name and its two mode flags. */
  class TriggerProfiler {
    var records: seq<Record>
    var workFile: string
    var loggingEnabled: bool
    var readOnly: bool

    /** The constructor: an empty log, logging off, read-only, work file "trigger_profiler.dat". */
    constructor()
      ensures records == [] && workFile == "trigger_profiler.dat"
      ensures !loggingEnabled && readOnly
    {
      records := [];
      workFile := "trigger_profiler.dat";
      loggingEnabled := false;
      readOnly := true;
    }

    /** set_work_file: a given name replaces the work file name; none clears it. */
    method SetWorkFile(fname: Option<string>)
      modifies this
      ensures workFile == (if fname.Some? then fname.value else "")
      ensures records == old(records) && loggingEnabled == old(loggingEnabled) && readOnly == old(readOnly)
    {
      if fname.Some? {
        workFile := fname.value;
      } else {
        workFile := "";
      }
    }

    /** save_to_work_file: the words its writes produce, the record count and then each record. */
    method SaveToWorkFile() returns (file: seq<U32>)
      ensures file == WorkFileImage(records)
    {
      file := [ToWord(|records|)];
      var i := 0;
      while i < |records|
        invariant 0 <= i <= |records|
        invariant file == [ToWord(|records|)] + Images(records[..i])
      {
        assert records[..i + 1][..i] == records[..i];
        file := file + SaveRecord(records[i]);
        i := i + 1;
      }
      assert records[..i] == records;
    }

    /**
     * load_from_work_file: clear the log; if the file opens (`file` is its
     * words), read the count, size the log to it and load each record in
     * place.
     */
    method LoadFromWorkFile(file: Option<seq<U32>>) returns (ok: bool)
      modifies this
      ensures ok <==> file.Some?
      ensures records == (if file.Some? then ParseWorkFile(file.value) else [])
      ensures workFile == old(workFile) && loggingEnabled == old(loggingEnabled) && readOnly == old(readOnly)
    {
      records := [];
      if file.None? {
        return false;
      }
      var f := file.value;
      var size := Signed(WordAt(f, 0));
      var n := if size <= 0 then 0 else size;
      records := seq(n, _ => DefaultRecord);
      var i := 0;
      while i < n
        invariant 0 <= i <= n && |records| == n
        invariant forall k :: 0 <= k < i ==> records[k] == LoadRecord(f, 1 + 6 * k)
        invariant workFile == old(workFile) && loggingEnabled == old(loggingEnabled) && readOnly == old(readOnly)
      {
        records := records[i := LoadRecord(f, 1 + 6 * i)];
        i := i + 1;
      }
      assert records == ParseWorkFile(f);
      return true;
    }

    /** get_record_trigger, walking the chain list as the source does. */
    method GetRecordTrigger(rec: Record, chains: Option<seq<nat>>) returns (r: Option<nat>)
      ensures r == TriggerAt(chains, rec.triggerId)
    {
      if chains.None? {
        return None;
      }
      var list := chains.value;
      var pos := 0;
      var i := 0;
      while i < rec.triggerId
        invariant 0 <= pos <= |list|
        invariant i <= 0 ==> pos == 0
        invariant 0 < i ==> i <= rec.triggerId && pos == if i < |list| then i else |list|
      {
        if pos < |list| {
          pos := pos + 1;
        }
        i := i + 1;
      }
      if pos < |list| {
        return Some(list[pos]);
      }
      return None;
    }

    /**
     * evolve: reset the triggers when there is a dispatcher (`reset` is the
     * reset graph), then apply records 0 to `num` in order.
     */
    method Evolve(num: nat, chains: Option<seq<nat>>, present: Target -> bool, world: map<Target, int>, reset: map<Target, int>)
      returns (w: map<Target, int>)
      requires num < |records|
      ensures chains.None? ==> w == world
      ensures chains.Some? ==> w == Applied(records, num + 1, chains, present, reset)
    {
      if chains.None? {
        AppliedNoDispatcher(records, num + 1, present, world);
      }
      w := if chains.Some? then reset else world;
      var i := 0;
      while i <= num
        invariant 0 <= i <= num + 1
        invariant w == Applied(records, i, chains, present, if chains.Some? then reset else world)
      {
        var rec := records[i];
        if rec.event == ElementStatusUpdate {
          var t := RecordElement(rec, chains, present);
          if t.Some? {
            w := w[t.value := rec.status];
          }
        } else if rec.event == ParentLinkStatusUpdate || rec.event == ChildLinkStatusUpdate {
          var t := RecordLink(rec, chains, present);
          if t.Some? {
            w := w[t.value := rec.status];
          }
        }
        i := i + 1;
      }
    }
  }
}
