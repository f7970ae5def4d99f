/** The parameter buffer of the camera HAL: pending parameters threaded through a table
    by parameter id, as a singly linked list kept in ascending order of id.
 */
module ParmBatch {

  // Number of parameter ids (cam_intf_parm_type_t), also the end-of-list link.
  const CAM_INTF_PARM_MAX := 127
  const CAM_INTF_PARM_HAL_VERSION := 0
  const CAM_HAL_V1 := 1

  const NO_ERROR := 0
  const BAD_VALUE := -22

  type Byte = b: int | 0 <= b < 256
  type ParmId = p: int | 0 <= p < CAM_INTF_PARM_MAX
  type Int32 = n: int | -0x8000_0000 <= n < 0x8000_0000

  /** The abstract batch: for each flagged id, the bytes of its entry. */
  type Batch = map<ParmId, seq<Byte>>

  function Zeros(n: nat): (r: seq<Byte>)
    ensures |r| == n
  {
    seq(n, _ => 0)
  }

  /** What memcpy of `value` leaves in an entry that held `entry`. */
  function Overlay(entry: seq<Byte>, value: seq<Byte>): (r: seq<Byte>)
    requires |value| <= |entry|
    ensures |r| == |entry| && value <= r
  {
    value + entry[|value|..]
  }

  // ---------- 32-bit values in memory (little endian, two's complement) ----------

  function Le32(n: Int32): (r: seq<Byte>)
    ensures |r| == 4
  {
    var u := if n < 0 then n + 0x1_0000_0000 else n;
    [u % 0x100, u / 0x100 % 0x100, u / 0x1_0000 % 0x100, u / 0x100_0000]
  }

  function ReadLe32(bytes: seq<Byte>): (n: Int32)
    requires |bytes| >= 4
  {
    var b0: int, b1: int, b2: int, b3: int := bytes[0], bytes[1], bytes[2], bytes[3];
    var u := b0 + 0x100 * b1 + 0x1_0000 * b2 + 0x100_0000 * b3;
    if u >= 0x8000_0000 then u - 0x1_0000_0000 else u
  }

  /** Reading an entry back as an int32 gives the int32 that was copied into it. */
  lemma Le32RoundTrip(n: Int32, entry: seq<Byte>)
    requires |entry| >= 4
    ensures ReadLe32(Overlay(entry, Le32(n))) == n
  {
    var u := if n < 0 then n + 0x1_0000_0000 else n;
    var hi := u / 0x100;
    assert u == 0x100 * hi + u % 0x100;
    assert hi == 0x100 * (hi / 0x100) + hi % 0x100;
    assert u / 0x1_0000 == hi / 0x100;
    assert u / 0x100_0000 == hi / 0x1_0000;
  }

  // ---------- the abstract operations ----------

  datatype BatchOp = SetOp(id: ParmId, value: seq<Byte>) | GetOp(getId: ParmId)
  {
    function Id(): ParmId { if SetOp? then id else getId }
  }

  /** The entry an id holds: its bytes when flagged, the zeroes left by memset otherwise. */
  function Entry(b: Batch, id: ParmId, size: nat): (r: seq<Byte>)
  {
    if id in b then b[id] else Zeros(size)
  }

  predicate Sized(b: Batch, size: nat) {
    forall id <- b :: |b[id]| == size
  }

  function InitialBatch(size: nat): (b: Batch)
    requires size >= 4
    ensures Sized(b, size)
  {
    map[CAM_INTF_PARM_HAL_VERSION := Overlay(Zeros(size), Le32(CAM_HAL_V1))]
  }

  /** An oversized value still flags the id, but leaves the entry as it was. */
  function ApplyOp(b: Batch, op: BatchOp, size: nat): (r: Batch)
    requires Sized(b, size)
    ensures Sized(r, size)
    ensures r.Keys == b.Keys + {op.Id()}
  {
    var flagged := b[op.Id() := Entry(b, op.Id(), size)];
    if op.SetOp? && |op.value| <= size then
      flagged[op.id := Overlay(flagged[op.id], op.value)]
    else
      flagged
  }

  function ApplyAll(ops: seq<BatchOp>, size: nat): (b: Batch)
    requires size >= 4
    ensures Sized(b, size)
  {
    if ops == [] then InitialBatch(size)
    else ApplyOp(ApplyAll(ops[..|ops| - 1], size), ops[|ops| - 1], size)
  }

  /** The flagged ids are exactly HAL_VERSION and the ids added. */
  lemma {:induction false} FlaggedIds(ops: seq<BatchOp>, size: nat)
    requires size >= 4
    ensures ApplyAll(ops, size).Keys ==
            {CAM_INTF_PARM_HAL_VERSION as ParmId} + set i | 0 <= i < |ops| :: ops[i].Id()
  {
    if ops != [] {
      var init := ops[..|ops| - 1];
      FlaggedIds(init, size);
      hide ApplyOp, ApplyAll;
      ApplyAllKeys(ops, size);
      assert forall i | 0 <= i < |init| :: init[i] == ops[i];
    }
  }

  lemma ApplyAllKeys(ops: seq<BatchOp>, size: nat)
    requires size >= 4 && ops != []
    ensures ApplyAll(ops, size).Keys == ApplyAll(ops[..|ops| - 1], size).Keys + {ops[|ops| - 1].Id()}
  {
  }

  /** Each id holds the last value written to it, whatever was staged for other ids since. */
  lemma {:induction false} LastWriteWins(ops: seq<BatchOp>, size: nat, w: nat)
    requires size >= 4
    requires w < |ops| && ops[w].SetOp? && |ops[w].value| <= size
    requires forall i | w < i < |ops| ::
      ops[i].Id() == ops[w].id ==> ops[i].GetOp? || |ops[i].value| > size
    ensures ops[w].id in ApplyAll(ops, size)
    ensures ops[w].value <= ApplyAll(ops, size)[ops[w].id]
  {
    var last := |ops| - 1;
    if w < last {
      var init := ops[..last];
      assert init[w] == ops[w];
      LastWriteWins(init, size, w);
    }
  }

  /** Byte i of the entry of an id: the one of the last value that fitted and reached so far, and zero if
      there is none; HAL_VERSION starts with the version, 1.
   */
  function ByteOf(ops: seq<BatchOp>, size: nat, id: ParmId, i: nat): Byte
    requires 4 <= size && i < size
  {
    if ops == [] then if id == CAM_INTF_PARM_HAL_VERSION && i == 0 then 1 else 0
    else
      var op := ops[|ops| - 1];
      if op.SetOp? && op.id == id && i < |op.value| <= size then op.value[i]
      else ByteOf(ops[..|ops| - 1], size, id, i)
  }

  lemma {:induction false} EntryBytes(ops: seq<BatchOp>, size: nat, id: ParmId, i: nat)
    requires 4 <= size && i < size && id in ApplyAll(ops, size)
    ensures ApplyAll(ops, size)[id][i] == ByteOf(ops, size, id, i)
  {
    if ops == [] {
      VersionBytes(size);
    } else {
      var init, op := ops[..|ops| - 1], ops[|ops| - 1];
      OpBytes(ApplyAll(init, size), op, size, id, i);
      if id in ApplyAll(init, size) {
        EntryBytes(init, size, id, i);
      } else {
        NotYet(init, size, id, i);
      }
      hide ApplyOp;
    }
  }

  /** An id that was never added has had nothing written to it. */
  lemma {:induction false} NotYet(ops: seq<BatchOp>, size: nat, id: ParmId, i: nat)
    requires 4 <= size && i < size && id !in ApplyAll(ops, size)
    ensures ByteOf(ops, size, id, i) == 0
  {
    if ops != [] {
      NotYet(ops[..|ops| - 1], size, id, i);
    }
  }

  lemma OpBytes(b: Batch, op: BatchOp, size: nat, id: ParmId, i: nat)
    requires Sized(b, size) && i < size && id in ApplyOp(b, op, size)
    ensures ApplyOp(b, op, size)[id][i] ==
            if op.SetOp? && op.id == id && i < |op.value| <= size then op.value[i]
            else if id in b then b[id][i] else 0
  {
  }

  lemma VersionBytes(size: nat)
    requires size >= 4
    ensures InitialBatch(size).Keys == {CAM_INTF_PARM_HAL_VERSION as ParmId}
    ensures forall i | 0 <= i < size ::
              InitialBatch(size)[CAM_INTF_PARM_HAL_VERSION][i] == if i == 0 then 1 else 0
  {
  }

  // ---------- the linked list ----------

  predicate Ascending(ids: seq<int>) {
    forall i, j | 0 <= i < j < |ids| :: ids[i] < ids[j]
  }

  function SetOf(ids: seq<ParmId>): set<ParmId> {
    set id | id in ids
  }

  /** The link stored in the k-th node of the list. */
  function LinkAfter(ids: seq<ParmId>, k: nat): int {
    if k + 1 < |ids| then ids[k + 1] else CAM_INTF_PARM_MAX
  }

  ghost predicate Linked(first: int, next: seq<int>, ids: seq<ParmId>) {
    && |next| == CAM_INTF_PARM_MAX
    && Ascending(ids)
    && first == (if ids == [] then CAM_INTF_PARM_MAX else ids[0])
    && forall k | 0 <= k < |ids| :: next[ids[k]] == LinkAfter(ids, k)
  }

  /** The ascending listing of a set of ids is unique, so the order of a walk carries no
      information beyond the set it visits. */
  lemma {:induction false} AscendingUnique(s: seq<ParmId>, t: seq<ParmId>)
    requires Ascending(s) && Ascending(t) && SetOf(s) == SetOf(t)
    ensures s == t
  {
    assert s != [] ==> s[0] in SetOf(t);
    assert t != [] ==> t[0] in SetOf(s);
    if s != [] {
      forall id ensures id in s[1..] <==> id in t[1..] {
        assert id in SetOf(s) <==> id in SetOf(t);
      }
      AscendingUnique(s[1..], t[1..]);
    }
  }

  function InsertAfter(ids: seq<ParmId>, k: nat, position: ParmId): (r: seq<ParmId>)
    requires k < |ids|
    ensures SetOf(r) == SetOf(ids) + {position}
  {
    assert ids == ids[..k + 1] + ids[k + 1..];
    ids[..k + 1] + [position] + ids[k + 1..]
  }

  lemma InsertAfterAscending(ids: seq<ParmId>, k: nat, position: ParmId)
    requires Ascending(ids)
    requires k < |ids| && ids[k] < position < LinkAfter(ids, k)
    ensures Ascending(InsertAfter(ids, k, position))
    ensures position !in ids
  {
  }

  lemma InsertAfterLinks(ids: seq<ParmId>, k: nat, position: ParmId, j: nat)
    requires k < |ids| && j <= |ids|
    ensures var r := InsertAfter(ids, k, position);
            if j <= k then r[j] == ids[j] && LinkAfter(r, j) == (if j < k then LinkAfter(ids, j) else position)
            else if j == k + 1 then r[j] == position && LinkAfter(r, j) == LinkAfter(ids, k)
            else r[j] == ids[j - 1] && LinkAfter(r, j) == LinkAfter(ids, j - 1)
  {
  }

  /** Redirecting one link and setting another slots an id into the list. */
  lemma SpliceKeepsLinked(first: int, next: seq<int>, ids: seq<ParmId>, k: nat, position: ParmId)
    requires Linked(first, next, ids)
    requires k < |ids| && ids[k] < position < LinkAfter(ids, k)
    ensures Linked(first, next[ids[k] := position][position := next[ids[k]]], InsertAfter(ids, k, position))
    ensures position !in ids
  {
    InsertAfterAscending(ids, k, position);
    var r := InsertAfter(ids, k, position);
    forall j | 0 <= j < |r|
      ensures next[ids[k] := position][position := next[ids[k]]][r[j]] == LinkAfter(r, j)
    {
      InsertAfterLinks(ids, k, position, j);
    }
    InsertAfterLinks(ids, k, position, 0);
  }

  lemma PrependKeepsLinked(first: int, next: seq<int>, ids: seq<ParmId>, position: ParmId)
    requires Linked(first, next, ids) && position < first
    ensures Linked(position, next[position := first], [position] + ids)
    ensures position !in ids
  {
    var r := [position] + ids;
    hide LinkAfter;
    forall j | 1 <= j < |r| ensures next[position := first][r[j]] == LinkAfter(r, j) {
      LinkBehind(position, ids, j);
    }
    LinkBefore(position, ids);
  }

  lemma LinkBehind(position: ParmId, ids: seq<ParmId>, j: nat)
    requires 1 <= j <= |ids|
    ensures LinkAfter([position] + ids, j) == LinkAfter(ids, j - 1)
  {
  }

  lemma LinkBefore(position: ParmId, ids: seq<ParmId>)
    ensures LinkAfter([position] + ids, 0) == if ids == [] then CAM_INTF_PARM_MAX else ids[0]
  {
  }

  ghost predicate Holds(data: seq<seq<Byte>>, b: Batch, size: nat) {
    && Sized(b, size)
    && |data| == CAM_INTF_PARM_MAX
    && forall id: ParmId :: data[id] == Entry(b, id, size)
  }

  lemma WriteKeepsHolds(data: seq<seq<Byte>>, b: Batch, size: nat, id: ParmId, value: seq<Byte>)
    requires Holds(data, b, size) && id in b && |value| <= size
    ensures data[id] == b[id]
    ensures Holds(data[id := Overlay(b[id], value)], b[id := Overlay(b[id], value)], size)
  {
  }

  class ParmBuffer {
    const entrySize: nat          // sizeof(parm_type_t)
    var first: int                // first_flagged_entry
    const next: array<int>        // entry[i].next_flagged_entry
    const data: array<seq<Byte>>  // entry[i].data
    ghost var ids: seq<ParmId>    // the list, in the order its links give
    ghost var contents: Batch     // the plain map that the linked table stands for

    ghost predicate Valid()
      reads this, next, data
    {
      && entrySize >= 4
      && Linked(first, next[..], ids)
      && contents.Keys == SetOf(ids)
      && Holds(data[..], contents, entrySize)
    }

    // A buffer of unspecified contents: only initBatchUpdate makes it usable.
    constructor (entrySize: nat)
      requires entrySize >= 4
      ensures this.entrySize == entrySize
      ensures fresh(next) && fresh(data)
      ensures next.Length == data.Length == CAM_INTF_PARM_MAX
    {
      this.entrySize := entrySize;
      first, ids, contents := 0, [], map[];
      next := new int[CAM_INTF_PARM_MAX];
      data := new seq<Byte>[CAM_INTF_PARM_MAX];
    }

    method InitBatchUpdate()
      requires entrySize >= 4 && next.Length == data.Length == CAM_INTF_PARM_MAX
      modifies this, next, data
      ensures Valid() && contents == InitialBatch(entrySize)
    {
      for i := 0 to CAM_INTF_PARM_MAX
        invariant forall k | 0 <= k < i :: next[k] == 0 && data[k] == Zeros(entrySize)
      {
        next[i], data[i] := 0, Zeros(entrySize);
      }
      first, ids, contents := CAM_INTF_PARM_MAX, [], map[];
      var _ := AddSetParmEntryToBatch(CAM_INTF_PARM_HAL_VERSION, Le32(CAM_HAL_V1));
    }

    ghost predicate ListValid()
      reads this, next
    {
      Linked(first, next[..], ids)
    }

    /** Search for the node after which `position` belongs. Links of entries off the list
        are 0, not MAX, so the search relies on visiting only nodes of the list. */
    method FindSlot(position: ParmId) returns (current: ParmId, ghost k: nat)
      requires ListValid() && first < position
      ensures current < position <= next[current]
      ensures k < |ids| && current == ids[k] && next[current] == LinkAfter(ids, k)
    {
      current, k := first, 0;
      while position > next[current]
        invariant 0 <= k < |ids| && current == ids[k] < position
        decreases CAM_INTF_PARM_MAX - current
      {
        current := next[current];
        k := k + 1;
      }
    }

    method Link(position: ParmId)
      requires ListValid()
      modifies this`first, this`ids, next
      ensures ListValid() && SetOf(ids) == old(SetOf(ids)) + {position}
    {
      ghost var links := next[..];
      if position == first {
        assert position == ids[0];
      } else if position < first {
        PrependKeepsLinked(first, links, ids, position);
        next[position] := first;
        assert next[..] == links[position := first];
        first := position;
        ids := [position] + ids;
      } else {
        var current, k := FindSlot(position);
        if position != next[current] {
          SpliceKeepsLinked(first, links, ids, k, position);
          var link := next[current];
          next[current] := position;
          next[position] := link;
          assert next[..] == links[current := position][position := link];
          ids := InsertAfter(ids, k, position);
        } else {
          assert position == ids[k + 1];
        }
      }
    }

    method Flag(position: ParmId)
      requires Valid()
      modifies this, next
      ensures Valid() && contents == ApplyOp(old(contents), GetOp(position), entrySize)
    {
      Link(position);
      contents := ApplyOp(contents, GetOp(position), entrySize);
      assert data[..] == old(data[..]);
    }

    // memcpy(POINTER_OF(id, table), value, |value|)
    method CopyIntoEntry(id: ParmId, value: seq<Byte>)
      requires Valid() && id in contents && |value| <= entrySize
      modifies this`contents, data
      ensures Valid() && contents == old(contents)[id := Overlay(old(contents)[id], value)]
    {
      WriteKeepsHolds(data[..], contents, entrySize, id, value);
      data[id] := Overlay(data[id], value);
      assert data[..] == old(data[..])[id := Overlay(contents[id], value)];
      contents := contents[id := Overlay(contents[id], value)];
      assert next[..] == old(next[..]);
    }

    method AddSetParmEntryToBatch(paramType: ParmId, paramValue: seq<Byte>) returns (rc: int)
      requires Valid()
      modifies this, next, data
      ensures Valid()
      ensures contents == ApplyOp(old(contents), SetOp(paramType, paramValue), entrySize)
      ensures rc == if |paramValue| > entrySize then BAD_VALUE else NO_ERROR
    {
      rc := AddGetParmEntryToBatch(paramType);
      if |paramValue| > entrySize {
        return BAD_VALUE;
      }
      CopyIntoEntry(paramType, paramValue);
    }

    method AddGetParmEntryToBatch(paramType: ParmId) returns (rc: int)
      requires Valid()
      modifies this, next
      ensures Valid()
      ensures contents == ApplyOp(old(contents), GetOp(paramType), entrySize)
      ensures rc == NO_ERROR
    {
      Flag(paramType);
      return NO_ERROR;
    }

    // first_flagged_entry < CAM_INTF_PARM_MAX
    method AnyFlagged() returns (any: bool)
      requires Valid()
      ensures any <==> contents != map[]
    {
      any := first < CAM_INTF_PARM_MAX;
      assert ids != [] ==> ids[0] in contents.Keys;
    }

    method ReadEntry(id: ParmId) returns (bytes: seq<Byte>)
      requires Valid() && id in contents
      ensures bytes == contents[id]
    {
      bytes := data[id];
      assert bytes == data[..][id];
    }

    /** Follow the links from the first entry, as a reader of the buffer does. */
    method Walk() returns (visited: seq<ParmId>)
      requires Valid()
      ensures Ascending(visited) && SetOf(visited) == contents.Keys
    {
      visited := [];
      var current := first;
      while current != CAM_INTF_PARM_MAX
        invariant |visited| <= |ids| && visited == ids[..|visited|]
        invariant current == if |visited| < |ids| then ids[|visited|] else CAM_INTF_PARM_MAX
        decreases CAM_INTF_PARM_MAX - current
      {
        visited := visited + [current];
        current := next[current];
      }
      assert visited == ids;
    }

    /** A whole batch: the links always end at MAX, ascend, and carry the abstract map. */
    method RunBatch(ops: seq<BatchOp>) returns (visited: seq<ParmId>)
      requires entrySize >= 4 && next.Length == data.Length == CAM_INTF_PARM_MAX
      modifies this, next, data
      ensures Valid() && contents == ApplyAll(ops, entrySize)
      ensures Ascending(visited)
      ensures SetOf(visited) ==
              {CAM_INTF_PARM_HAL_VERSION as ParmId} + set i | 0 <= i < |ops| :: ops[i].Id()
    {
      InitBatchUpdate();
      for i := 0 to |ops|
        invariant Valid() && contents == ApplyAll(ops[..i], entrySize)
      {
        assert ops[..i + 1][..i] == ops[..i];
        match ops[i]
        case SetOp(id, value) => var _ := AddSetParmEntryToBatch(id, value);
        case GetOp(id) => var _ := AddGetParmEntryToBatch(id);
      }
      assert ops[..|ops|] == ops;
      FlaggedIds(ops, entrySize);
      visited := Walk();
    }
  }
}
