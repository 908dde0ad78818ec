/**
 * The insertion-ordered dictionary (`OrderedDict`) a node keeps its rendered
 * children in, keyed by each child's `source_id`.
 */
module ChildTable {
  import opened Wrappers
  import opened Records

  datatype Entry = Entry(key: string, value: Record)

  /** Entries in insertion order. */
  type Table = seq<Entry>

  function Keys(t: Table): (ks: seq<string>)
    ensures |ks| == |t| && forall i :: 0 <= i < |t| ==> ks[i] == t[i].key
  {
    seq(|t|, i requires 0 <= i < |t| => t[i].key)
  }

  /** `list(tree_nodes.values())`. */
  function Values(t: Table): (vs: seq<Record>)
    ensures |vs| == |t| && forall i :: 0 <= i < |t| ==> vs[i] == t[i].value
  {
    seq(|t|, i requires 0 <= i < |t| => t[i].value)
  }

  /** No key is stored twice, as in any dictionary. */
  ghost predicate DistinctKeys(t: Table)
  {
    forall i, j :: 0 <= i < j < |t| ==> t[i].key != t[j].key
  }

  /** None of the first `n` entries carries the key `k`. */
  predicate AbsentBefore(t: Table, k: string, n: int)
  {
    forall j :: 0 <= j < n && j < |t| ==> t[j].key != k
  }

  /** No entry carries the key `k`. */
  predicate Absent(t: Table, k: string)
  {
    AbsentBefore(t, k, |t|)
  }

  /** Where the entry for `k` sits, if there is one: the first entry carrying it. */
  function IndexOf(t: Table, k: string): (r: Option<nat>)
    ensures r.None? ==> Absent(t, k)
    ensures r.Some? ==> r.value < |t| && t[r.value].key == k && AbsentBefore(t, k, r.value)
  {
    if t == [] then None
    else if t[0].key == k then Some(0)
    else
      match IndexOf(t[1..], k)
      case None => None
      case Some(i) => Some(i + 1)
  }

  /** `tree_nodes.get(k)`: the value stored under `k`, or nothing when no entry carries it. */
  function Lookup(t: Table, k: string): (r: Option<Record>)
    ensures r.None? <==> Absent(t, k)
    ensures r.Some? ==> exists i :: 0 <= i < |t| && t[i] == Entry(k, r.value)
  {
    match IndexOf(t, k)
    case None => None
    case Some(i) => Some(t[i].value)
  }

  /** `tree_nodes[k] = v`. */
  function Put(t: Table, k: string, v: Record): Table
  {
    if t == [] then [Entry(k, v)]
    else if t[0].key == k then [Entry(k, v)] + t[1..]
    else [t[0]] + Put(t[1..], k, v)
  }

  /** A key not yet present is appended after every existing entry. */
  lemma {:induction false} PutNewKey(t: Table, k: string, v: Record)
    requires Absent(t, k)
    ensures Put(t, k, v) == t + [Entry(k, v)]
  {
    if t != [] {
      PutNewKey(t[1..], k, v);
      assert t == [t[0]] + t[1..];
    }
  }

  /** A key already present keeps its position; only its value changes, and no other entry does. */
  lemma {:induction false} PutExistingKey(t: Table, k: string, v: Record, p: nat)
    requires IndexOf(t, k) == Some(p)
    ensures Put(t, k, v) == t[p := Entry(k, v)]
  {
    if t[0].key != k {
      PutExistingKey(t[1..], k, v, p - 1);
      assert t == [t[0]] + t[1..];
    }
  }

  /** `add_node` once the child has been rendered: a `None` rendering is not stored. */
  function AddRendered(t: Table, child: Option<Record>): Table
  {
    match child
    case None => t
    case Some(v) => Put(t, v.sourceId, v)
  }

  /**
   * What `add_node` promises: an unrendered child leaves the table as it is;
   * a rendered one is found under its own id afterwards, appended when the id
   * is new and replacing the old value in place when it is not, and every
   * other id keeps its value.
   */
  lemma AddRenderedSpec(t: Table, child: Option<Record>)
    ensures child.None? ==> AddRendered(t, child) == t
    ensures child.Some? ==> Lookup(AddRendered(t, child), child.value.sourceId) == child
    ensures forall k :: (child.None? || k != child.value.sourceId) ==> Lookup(AddRendered(t, child), k) == Lookup(t, k)
    ensures child.Some? && Absent(t, child.value.sourceId) ==>
              AddRendered(t, child) == t + [Entry(child.value.sourceId, child.value)]
    ensures child.Some? && IndexOf(t, child.value.sourceId).Some? ==>
              AddRendered(t, child) == t[IndexOf(t, child.value.sourceId).value := Entry(child.value.sourceId, child.value)]
  {
    if child.Some? {
      var v := child.value;
      PutLookup(t, v.sourceId, v, v.sourceId);
      forall k | k != v.sourceId ensures Lookup(Put(t, v.sourceId, v), k) == Lookup(t, k) {
        PutLookup(t, v.sourceId, v, k);
      }
      match IndexOf(t, v.sourceId)
      case None => PutNewKey(t, v.sourceId, v);
      case Some(p) => PutExistingKey(t, v.sourceId, v, p);
    }
  }

  /** Adding the rendered records `rs` one after the other. */
  function AddAll(t: Table, rs: seq<Record>): (r: Table)
    decreases |rs|
  {
    if rs == [] then t
    else Put(AddAll(t, rs[..|rs| - 1]), rs[|rs| - 1].sourceId, rs[|rs| - 1])
  }

  /** Adding one more record of a sequence is one more `Put`. */
  lemma AddAllPrefix(t: Table, rs: seq<Record>, k: nat)
    requires k < |rs|
    ensures AddAll(t, rs[..k + 1]) == Put(AddAll(t, rs[..k]), rs[k].sourceId, rs[k])
  {
    assert rs[..k + 1][..k] == rs[..k];
  }

  /** The first entry carrying `k` is the one `IndexOf` finds. */
  lemma IndexOfFirst(t: Table, k: string, i: nat)
    requires i < |t| && t[i].key == k && AbsentBefore(t, k, i)
    ensures IndexOf(t, k) == Some(i)
  {
  }

  /** Storing under a new key: `PutLookup` when `k` was absent. */
  lemma PutLookupNew(t: Table, k: string, v: Record, k': string)
    requires Absent(t, k)
    ensures Lookup(Put(t, k, v), k) == Some(v)
    ensures k' != k ==> Lookup(Put(t, k, v), k') == Lookup(t, k')
  {
    var r := Put(t, k, v);
    PutNewKey(t, k, v);
    IndexOfFirst(r, k, |t|);
    if k' != k {
      match IndexOf(t, k')
      case None =>
      case Some(i) => IndexOfFirst(r, k', i);
    }
  }

  /** Storing under a present key: `PutLookup` when `k` sat at index `p`. */
  lemma PutLookupExisting(t: Table, k: string, v: Record, p: nat, k': string)
    requires IndexOf(t, k) == Some(p)
    ensures Lookup(Put(t, k, v), k) == Some(v)
    ensures k' != k ==> Lookup(Put(t, k, v), k') == Lookup(t, k')
  {
    var r := Put(t, k, v);
    PutExistingKey(t, k, v, p);
    IndexOfFirst(r, k, p);
    if k' != k {
      match IndexOf(t, k')
      case None => assert Absent(r, k');
      case Some(i) => IndexOfFirst(r, k', i);
    }
  }

  /**
   * After `tree_nodes[k] = v` the key `k` maps to `v`, and every other key
   * maps to what it mapped to before.
   */
  lemma PutLookup(t: Table, k: string, v: Record, k': string)
    ensures Lookup(Put(t, k, v), k) == Some(v)
    ensures k' != k ==> Lookup(Put(t, k, v), k') == Lookup(t, k')
  {
    match IndexOf(t, k)
    case None => PutLookupNew(t, k, v, k');
    case Some(p) => PutLookupExisting(t, k, v, p, k');
  }

  /** Storing into a table whose keys are distinct keeps them distinct. */
  lemma PutDistinctKeys(t: Table, k: string, v: Record)
    requires DistinctKeys(t)
    ensures DistinctKeys(Put(t, k, v))
  {
    match IndexOf(t, k)
    case None => PutNewKey(t, k, v);
    case Some(p) => PutExistingKey(t, k, v, p);
  }

  /** The `source_id`s of the records, in order. */
  function SourceIds(rs: seq<Record>): (ids: seq<string>)
    ensures |ids| == |rs| && forall i :: 0 <= i < |rs| ==> ids[i] == rs[i].sourceId
  {
    seq(|rs|, i requires 0 <= i < |rs| => rs[i].sourceId)
  }

  /** No two records share a `source_id`. */
  ghost predicate DistinctIds(rs: seq<Record>)
  {
    forall i, j :: 0 <= i < j < |rs| ==> rs[i].sourceId != rs[j].sourceId
  }

  /** The entries records are stored under: each record keyed by its own `source_id`. */
  function Entries(rs: seq<Record>): (t: Table)
    ensures |t| == |rs| && forall i :: 0 <= i < |rs| ==> t[i] == Entry(rs[i].sourceId, rs[i])
  {
    seq(|rs|, i requires 0 <= i < |rs| => Entry(rs[i].sourceId, rs[i]))
  }

  /**
   * Records with distinct ids, added to a table holding none of them, are
   * appended after the existing entries, in the order they were added.
   */
  lemma {:induction false} AddAllDistinct(t: Table, rs: seq<Record>)
    requires DistinctIds(rs)
    requires forall i :: 0 <= i < |rs| ==> Absent(t, rs[i].sourceId)
    ensures AddAll(t, rs) == t + Entries(rs)
    decreases |rs|
  {
    if rs != [] {
      var init := rs[..|rs| - 1];
      var last := rs[|rs| - 1];
      AddAllDistinct(t, init);
      var before := t + Entries(init);
      assert Absent(before, last.sourceId) by {
        forall j | 0 <= j < |before| ensures before[j].key != last.sourceId {
          if j >= |t| {
            assert before[j] == Entries(init)[j - |t|];
          }
        }
      }
      PutNewKey(before, last.sourceId, last);
      assert Entries(rs) == Entries(init) + [Entry(last.sourceId, last)];
    }
  }

  /** Hence the rendered children of such a table are the old ones followed by the records. */
  lemma AddAllDistinctValues(t: Table, rs: seq<Record>)
    requires DistinctIds(rs)
    requires forall i :: 0 <= i < |rs| ==> Absent(t, rs[i].sourceId)
    ensures Values(AddAll(t, rs)) == Values(t) + rs
    ensures Keys(AddAll(t, rs)) == Keys(t) + SourceIds(rs)
  {
    AddAllDistinct(t, rs);
  }

  /** The last of the records with id `k`, if any. */
  function LastWithId(rs: seq<Record>, k: string): (r: Option<Record>)
    ensures r.None? <==> k !in SourceIds(rs)
    ensures r.Some? ==> r.value in rs && r.value.sourceId == k
    decreases |rs|
  {
    if rs == [] then None
    else if rs[|rs| - 1].sourceId == k then Some(rs[|rs| - 1])
    else
      var r := LastWithId(rs[..|rs| - 1], k);
      assert SourceIds(rs) == SourceIds(rs[..|rs| - 1]) + [rs[|rs| - 1].sourceId];
      r
  }

  /**
   * Last write wins: after adding `rs`, the entry for an id holds the last
   * record with that id; an id none of them carries keeps its old entry.
   */
  lemma {:induction false} AddAllLastWins(t: Table, rs: seq<Record>, k: string)
    ensures Lookup(AddAll(t, rs), k) == if k in SourceIds(rs) then LastWithId(rs, k) else Lookup(t, k)
    decreases |rs|
  {
    if rs != [] {
      var init := rs[..|rs| - 1];
      var last := rs[|rs| - 1];
      AddAllLastWins(t, init, k);
      PutLookup(AddAll(t, init), last.sourceId, last, k);
      assert SourceIds(rs) == SourceIds(init) + [last.sourceId];
    }
  }

  /** A table built by adding records to one without repeated keys never stores a key twice. */
  lemma {:induction false} AddAllDistinctKeys(t: Table, rs: seq<Record>)
    requires DistinctKeys(t)
    ensures DistinctKeys(AddAll(t, rs))
    decreases |rs|
  {
    if rs != [] {
      AddAllDistinctKeys(t, rs[..|rs| - 1]);
      PutDistinctKeys(AddAll(t, rs[..|rs| - 1]), rs[|rs| - 1].sourceId, rs[|rs| - 1]);
    }
  }
}
