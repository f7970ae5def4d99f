/** Getting and giving back the buffers of a stream. */
module StreamBuffers {

  const INVALID_OPERATION := -38
  const NO_MEMORY := -12

  const MAX_FRAMES := 64 // MM_CAMERA_MAX_NUM_FRAMES

  /** cam_frame_len_offset_t: a frame and its planes. */
  datatype PlaneLayout = PlaneLayout(length: nat, offset: nat)
  datatype FrameLayout = FrameLayout(frameLen: nat, planes: seq<PlaneLayout>)

  /** mm_camera_buf_def_t; start is the plane's reserved[0]. */
  datatype Plane = Plane(length: nat, userptr: int, dataOffset: nat, start: nat)
  datatype BufDef = BufDef(fd: int, frameLen: nat, bufIdx: nat, planes: seq<Plane>)

  /** How long the first i planes are together. */
  function LengthBefore(planes: seq<PlaneLayout>, i: nat): nat
    requires i <= |planes|
  {
    if i == 0 then 0 else LengthBefore(planes, i - 1) + planes[i - 1].length
  }

  /** The source takes the fd of plane i > 0 from the i-th buffer, not from the buffer being defined. */
  function PlaneOf(fds: seq<int>, layout: FrameLayout, index: nat, i: nat): Plane
    requires i < |layout.planes| <= |fds| && index < |fds|
  {
    Plane(layout.planes[i].length, if i == 0 then fds[index] else fds[i], layout.planes[i].offset,
          LengthBefore(layout.planes, i))
  }

  function Def(fds: seq<int>, layout: FrameLayout, index: nat): BufDef
    requires |layout.planes| <= |fds| && index < |fds|
  {
    BufDef(fds[index], layout.frameLen, index,
           seq(|layout.planes|, i requires 0 <= i < |layout.planes| => PlaneOf(fds, layout, index, i)))
  }

  /** Every buffer has an fd of its own; entries without a buffer have 0. */
  predicate OwnFds(fds: seq<int>, count: nat) {
    && |fds| == MAX_FRAMES && count <= MAX_FRAMES
    && (forall i | 0 <= i < count :: fds[i] > 0)
    && (forall i, j | 0 <= i < j < count :: fds[i] != fds[j])
    && (forall i | count <= i < MAX_FRAMES :: fds[i] == 0)
  }

  predicate OneFd(d: BufDef) {
    forall i | 0 <= i < |d.planes| :: d.planes[i].userptr == d.fd
  }

  /** The planes of a buffer all refer to the buffer itself only if there is just one, or for the
      buffer that happens to be number 1 of frames with two.
   */
  lemma OneFdIff(fds: seq<int>, count: nat, layout: FrameLayout, index: nat)
    requires OwnFds(fds, count) && index < count && 1 <= |layout.planes| <= MAX_FRAMES
    ensures OneFd(Def(fds, layout, index)) <==> |layout.planes| == 1 || (|layout.planes| == 2 && index == 1)
  {
    var d := Def(fds, layout, index);
    hide LengthBefore;
    if |layout.planes| >= 2 {
      assert d.planes[1].userptr == fds[1];
    }
    if |layout.planes| >= 3 {
      assert d.planes[2].userptr == fds[2];
    }
  }

  /** What a definition says of its buffer: number, descriptor and frame length, and of each plane the
      length and offset of the layout; plane 0 starts the frame, with the buffer's own descriptor.
   */
  lemma DefinitionIs(fds: seq<int>, layout: FrameLayout, index: nat, i: nat)
    requires i < |layout.planes| <= |fds| && index < |fds|
    ensures var d := Def(fds, layout, index);
            && d.bufIdx == index && d.fd == fds[index] && d.frameLen == layout.frameLen
            && |d.planes| == |layout.planes|
            && d.planes[i].length == layout.planes[i].length && d.planes[i].dataOffset == layout.planes[i].offset
            && d.planes[0].start == 0 && d.planes[0].userptr == fds[index]
            && (i + 1 < |d.planes| ==> d.planes[i + 1].start == d.planes[i].start + d.planes[i].length)
  {
  }

  /** No plane reaches into a later one, and all of them end within their total length. */
  lemma {:induction false} PlanesDisjoint(fds: seq<int>, layout: FrameLayout, index: nat, i: nat, j: nat)
    requires |layout.planes| <= |fds| && index < |fds| && i < j <= |layout.planes|
    ensures var planes := Def(fds, layout, index).planes;
            planes[i].start + planes[i].length <=
            if j < |planes| then planes[j].start else LengthBefore(layout.planes, |planes|)
  {
    if i < j - 1 {
      PlanesDisjoint(fds, layout, index, i, j - 1);
    }
  }

  /** Two buffers of two planes: plane 1 of buffer 0 has the descriptor of buffer 1. */
  lemma OtherBuffersFd(fds: seq<int>, layout: FrameLayout)
    requires OwnFds(fds, 2) && |layout.planes| == 2
    ensures var d := Def(fds, layout, 0);
            d.fd == fds[0] && d.planes[1].userptr == fds[1] && !OneFd(d)
  {
    hide LengthBefore;
    assert Def(fds, layout, 0).planes[1].userptr == fds[1];
  }

  /** QCameraMemory. A memory that is not live has been deallocated and deleted. */
  class StreamMemory {
    const fds: seq<int> // mMemInfo[].fd
    const count: nat
    ghost var live: bool

    ghost predicate Valid() { |fds| == MAX_FRAMES && count <= MAX_FRAMES }

    constructor (fds: seq<int>, count: nat)
      requires |fds| == MAX_FRAMES && count <= MAX_FRAMES
      ensures this.fds == fds && this.count == count && live && Valid()
    {
      this.fds, this.count, live := fds, count, true;
    }

    method GetBufDef(layout: FrameLayout, index: nat) returns (d: BufDef)
      requires Valid() && index < count && 1 <= |layout.planes| <= MAX_FRAMES
      ensures d == Def(fds, layout, index)
    {
      var planes := [Plane(layout.planes[0].length, fds[index], layout.planes[0].offset, 0)];
      for i := 1 to |layout.planes|
        invariant |planes| == i && forall j | 0 <= j < i :: planes[j] == PlaneOf(fds, layout, index, j)
      {
        planes := planes + [Plane(layout.planes[i].length, fds[i], layout.planes[i].offset,
                                  planes[i - 1].start + planes[i - 1].length)];
      }
      d := BufDef(fds[index], layout.frameLen, index, planes);
    }

    method DeallocateAndDelete()
      requires live
      modifies this
      ensures !live
    {
      live := false;
    }
  }

  /** The buffers below n whose call was refused. */
  function Refused(rcs: seq<int>, n: nat): (r: set<nat>)
    requires n <= |rcs|
    ensures forall j: nat :: j in r <==> j < n && rcs[j] < 0
  {
    set j: nat | j < n && rcs[j] < 0
  }

  function Below(n: nat): (r: set<nat>)
    ensures forall j: nat :: j in r <==> j < n
  {
    if n == 0 then {} else Below(n - 1) + {n - 1}
  }

  /** The number of calls before the first that is refused. */
  function Accepted(rcs: seq<int>): (k: nat)
    ensures k <= |rcs| && (k < |rcs| ==> rcs[k] < 0)
    ensures forall j | 0 <= j < k :: rcs[j] >= 0
  {
    if rcs == [] || rcs[0] < 0 then 0 else 1 + Accepted(rcs[1..])
  }

  /** mm_camera_map_unmap_ops_tbl_t of one stream. An accepted call maps or unmaps the buffer, a
      refused one changes nothing.
   */
  class MapOps {
    ghost var mapped: set<nat>

    method Map(i: nat, rc: int)
      modifies this
      ensures mapped == if rc < 0 then old(mapped) else old(mapped) + {i}
    {
      if rc >= 0 { mapped := mapped + {i}; }
    }

    method Unmap(i: nat, rc: int)
      modifies this
      ensures mapped == if rc < 0 then old(mapped) else old(mapped) - {i}
    {
      if rc >= 0 { mapped := mapped - {i}; }
    }

    /** Unmaps the first n buffers, heedless of refusals; the outcome is the last one's. */
    method UnmapFirst(n: nat, rcs: seq<int>) returns (rc: int)
      requires n <= |rcs|
      modifies this
      ensures mapped == old(mapped) - (Below(n) - Refused(rcs, n))
      ensures rc == if n == 0 then 0 else rcs[n - 1]
    {
      rc := 0;
      for i := 0 to n
        invariant mapped == old(mapped) - (Below(i) - Refused(rcs, i))
        invariant rc == if i == 0 then 0 else rcs[i - 1]
      {
        Unmap(i, rcs[i]);
        rc := rcs[i];
      }
    }
  }

  /** What the surroundings answer during one getBufs: the memory, if there is enough; for each
      buffer whether mapping it, and unmapping it again, is accepted; whether the two arrays can be
      allocated; and what getRegFlags returns.
   */
  datatype Answers = Answers(memory: StreamMemory?, numBufs: nat, mapRcs: seq<int>, unmapRcs: seq<int>,
                             flagsFit: bool, defsFit: bool, regRc: int, flags: seq<bool>)
  {
    ghost predicate Possible()
      reads if memory == null then {} else {memory}
    {
      && |mapRcs| == |unmapRcs| == |flags| == numBufs
      && (memory != null ==> memory.live && memory.Valid() && memory.count == numBufs)
    }

    predicate AllGranted() {
      memory != null && Accepted(mapRcs) == numBufs && flagsFit && defsFit && regRc >= 0
    }

    /** How many buffers are mapped before getBufs succeeds or rolls back. */
    function Reached(): nat { Accepted(mapRcs) }
  }

  class QCameraStream {
    var streamBufs: StreamMemory?
    var numBufs: nat
    var bufDefs: array?<BufDef>

    /** All or nothing, as far as the surroundings let it: it succeeds exactly when everything it
        asks for is granted, and then exactly the buffers 0..numBufs-1 are mapped and defined.
        Otherwise the memory is released and only what could not be unmapped stays mapped.
     */
    method GetBufs(ops: MapOps?, layout: FrameLayout, a: Answers)
      returns (rc: int, flags: seq<bool>, bufs: array?<BufDef>)
      requires a.Possible() && 1 <= |layout.planes| <= MAX_FRAMES
      requires ops != null ==> ops.mapped !! Below(a.numBufs)
      modifies this, ops, a.memory
      ensures rc == 0 <==> ops != null && a.AllGranted()
      ensures ops == null ==>
                rc == INVALID_OPERATION
                && streamBufs == old(streamBufs) && bufDefs == old(bufDefs) && numBufs == old(numBufs)
      ensures ops != null ==> numBufs == (if a.memory == null then old(numBufs) else a.numBufs)
      ensures ops != null && rc == 0 ==>
                && ops.mapped == old(ops.mapped) + Below(numBufs)
                && streamBufs == a.memory && a.memory.live
                && bufs == bufDefs && bufDefs != null && fresh(bufDefs) && flags == a.flags
                && bufDefs.Length == numBufs
                && forall i | 0 <= i < numBufs :: bufDefs[i] == Def(a.memory.fds, layout, i)
      ensures ops != null && rc != 0 ==>
                && ops.mapped == old(ops.mapped)
                                 + (if a.memory == null then {} else Refused(a.unmapRcs, a.Reached()))
                && streamBufs == null && (a.memory != null ==> !a.memory.live)
                && (bufDefs == null || bufDefs == old(bufDefs))
                && rc == (if a.memory == null || (a.Reached() == a.numBufs && !a.flagsFit) then NO_MEMORY
                          else INVALID_OPERATION)
    {
      hide Def, Below, Refused;
      rc, flags, bufs := 0, [], null;
      if ops == null { return INVALID_OPERATION, [], null; }
      streamBufs := a.memory;
      if streamBufs == null { return NO_MEMORY, [], null; }
      numBufs := a.numBufs;

      var i := 0;
      while i < numBufs
        invariant 0 <= i <= numBufs && numBufs == a.numBufs && streamBufs == a.memory && a.memory.live
        invariant bufDefs == old(bufDefs)
        invariant forall j | 0 <= j < i :: a.mapRcs[j] >= 0
        invariant ops.mapped == old(ops.mapped) + Below(i)
      {
        ops.Map(i, a.mapRcs[i]);
        if a.mapRcs[i] < 0 {
          AcceptedIs(a.mapRcs, i);
          RollBack(ops, i, a.unmapRcs);
          return INVALID_OPERATION, [], null;
        }
        i := i + 1;
      }
      AcceptedIs(a.mapRcs, i);
      if !a.flagsFit {
        RollBack(ops, numBufs, a.unmapRcs);
        return NO_MEMORY, [], null;
      }
      if !a.defsFit {
        bufDefs := null;
        RollBack(ops, numBufs, a.unmapRcs);
        return INVALID_OPERATION, [], null;
      }
      bufDefs := GetBufDefs(layout);
      if a.regRc < 0 {
        RollBack(ops, numBufs, a.unmapRcs);
        bufDefs := null;
        return INVALID_OPERATION, [], null;
      }
      return 0, a.flags, bufDefs;
    }

    /** mBufDefs, one definition for each buffer. */
    method GetBufDefs(layout: FrameLayout) returns (defs: array<BufDef>)
      requires streamBufs != null && streamBufs.Valid() && numBufs <= streamBufs.count
      requires 1 <= |layout.planes| <= MAX_FRAMES
      ensures fresh(defs) && defs.Length == numBufs
      ensures forall i | 0 <= i < numBufs :: defs[i] == Def(streamBufs.fds, layout, i)
    {
      hide Def;
      defs := new BufDef[numBufs](_ => BufDef(0, 0, 0, []));
      for i := 0 to numBufs
        invariant forall j | 0 <= j < i :: defs[j] == Def(streamBufs.fds, layout, j)
      {
        defs[i] := streamBufs.GetBufDef(layout, i);
      }
    }

    method RollBack(ops: MapOps, n: nat, rcs: seq<int>)
      requires n <= |rcs| && streamBufs != null && streamBufs.live
      modifies ops, streamBufs, this`streamBufs
      ensures ops.mapped == old(ops.mapped) - (Below(n) - Refused(rcs, n))
      ensures streamBufs == null && !old(streamBufs).live
    {
      var _ := ops.UnmapFirst(n, rcs);
      streamBufs.DeallocateAndDelete();
      streamBufs := null;
    }

    /** Unmaps exactly what getBufs mapped, but for refusals, of which only the last buffer's is
        reported. mStreamBufs still points at the memory, which is gone.
     */
    method PutBufs(ops: MapOps, rcs: seq<int>) returns (rc: int)
      requires streamBufs != null && streamBufs.live && |rcs| == numBufs
      modifies ops, streamBufs, this`bufDefs
      ensures ops.mapped == old(ops.mapped) - (Below(numBufs) - Refused(rcs, numBufs))
      ensures rc == if numBufs == 0 then 0 else rcs[numBufs - 1]
      ensures bufDefs == null && !streamBufs.live
    {
      rc := ops.UnmapFirst(numBufs, rcs);
      bufDefs := null;
      streamBufs.DeallocateAndDelete();
    }
  }

  lemma {:induction false} AcceptedIs(rcs: seq<int>, k: nat)
    requires k <= |rcs| && (forall j | 0 <= j < k :: rcs[j] >= 0) && (k < |rcs| ==> rcs[k] < 0)
    ensures Accepted(rcs) == k
  {
  }

  /** Everything is unmapped again exactly when no refusal came, which the outcome does not tell. */
  lemma NothingStaysMappedIff(before: set<nat>, n: nat, rcs: seq<int>)
    requires n == |rcs| && before !! Below(n)
    ensures (before + Below(n)) - (Below(n) - Refused(rcs, n)) == before <==> forall j | 0 <= j < n :: rcs[j] >= 0
  {
    var after := (before + Below(n)) - (Below(n) - Refused(rcs, n));
    forall j | 0 <= j < n ensures j in after <==> rcs[j] < 0 {
      assert j in Below(n) && j !in before;
    }
    if after == before {
      forall j | 0 <= j < n ensures rcs[j] >= 0 {
        assert j !in after;
      }
    }
  }

  /** getBufs and then putBufs. When getBufs has failed there is nothing to put back. */
  method GetThenPut(stream: QCameraStream, ops: MapOps, layout: FrameLayout, a: Answers, rcs: seq<int>)
    returns (got: bool, rc: int)
    requires a.Possible() && |rcs| == a.numBufs > 0 && 1 <= |layout.planes| <= MAX_FRAMES
    requires ops.mapped !! Below(a.numBufs)
    modifies stream, ops, a.memory
    ensures got <==> a.AllGranted()
    ensures got ==> (ops.mapped == old(ops.mapped) <==> forall j | 0 <= j < a.numBufs :: rcs[j] >= 0)
    ensures got ==>
              ((rc >= 0 <==> ops.mapped == old(ops.mapped)) <==>
                rcs[a.numBufs - 1] < 0 || forall j | 0 <= j < a.numBufs :: rcs[j] >= 0)
    ensures !got ==>
              (ops.mapped == old(ops.mapped) <==>
                a.memory == null || forall j | 0 <= j < a.Reached() :: a.unmapRcs[j] >= 0)
  {
    ghost var before := ops.mapped;
    var flags, bufs;
    rc, flags, bufs := stream.GetBufs(ops, layout, a);
    got := rc == 0;
    if got {
      rc := stream.PutBufs(ops, rcs);
      NothingStaysMappedIff(before, a.numBufs, rcs);
    } else if a.memory != null {
      NothingAddedIff(before, a.numBufs, a.unmapRcs, a.Reached());
    }
  }

  lemma NothingAddedIff(before: set<nat>, count: nat, rcs: seq<int>, n: nat)
    requires n <= |rcs| == count && before !! Below(count)
    ensures before + Refused(rcs, n) == before <==> forall j | 0 <= j < n :: rcs[j] >= 0
  {
    forall j: nat | j < n ensures j !in before {
      assert j in Below(count);
    }
    if j: nat :| j < n && rcs[j] < 0 {
      assert j in before + Refused(rcs, n);
    }
  }

  /** Two buffers, of which the first cannot be unmapped: putBufs reports success all the same. */
  method ReportedAsUnmapped(stream: QCameraStream, ops: MapOps, layout: FrameLayout, a: Answers) returns (rc: int)
    requires a.Possible() && a.AllGranted() && a.numBufs == 2 && 1 <= |layout.planes| <= MAX_FRAMES
    requires ops.mapped == {}
    modifies stream, ops, a.memory
    ensures rc == 0 && ops.mapped == {0}
  {
    var rcs := [-1, 0];
    var got, flags, bufs := stream.GetBufs(ops, layout, a);
    rc := stream.PutBufs(ops, rcs);
    assert Below(2) == {0, 1} && Refused(rcs, 2) == {0};
  }
}
