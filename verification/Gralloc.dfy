/** The preview memory object: a table of window buffers with an ownership flag for each. */
module Gralloc {
  import opened PreviewOwnership

  const MM_CAMERA_MAX_NUM_FRAMES := 64
  const NO_ERROR := 0
  const INVALID_OPERATION := -38
  const UNKNOWN_ERROR := -2147483648
  const BAD_INDEX := -75

  /** The native window, seen through the buffers it holds and those that were cancelled. */
  class PreviewWindow {
    var held: set<Handle>
    var cancelled: seq<Handle>

    method EnqueueBuffer(h: Handle, ok: bool)
      modifies this`held
      ensures held == if ok then old(held) + {h} else old(held)
    {
      if ok { held := held + {h}; }
    }

    method CancelBuffer(h: Handle)
      modifies this
      ensures held == old(held) + {h} && cancelled == old(cancelled) + [h]
    {
      held, cancelled := held + {h}, cancelled + [h];
    }

    method DequeueBuffer(answer: DequeueAnswer)
      requires answer.Dequeued? ==> answer.handle in held
      modifies this`held
      ensures held == if answer.Dequeued? then old(held) - {answer.handle} else old(held)
    {
      if answer.Dequeued? { held := held - {answer.handle}; }
    }
  }

  /** How getting the cnt-th buffer goes: the window refuses, ION cannot be opened, ION cannot
      import the buffer, or all is well. */
  datatype AllocAnswer = Refused | NoIonDevice(h1: Handle) | NoIonImport(h2: Handle) | Mapped(h3: Handle)
  {
    predicate GaveBuffer() { !Refused? }

    function Given(): Handle
      requires GaveBuffer()
    {
      match this
      case NoIonDevice(h) => h
      case NoIonImport(h) => h
      case Mapped(h) => h
    }
  }

  /** Queries made before the first buffer is taken. */
  datatype SetupAnswer = NoMinimum | MinimumThenFailure(failMin: nat) | Ready(min: nat)

  /** The answers for one allocation: each buffer comes from the window, and is not one that
      has been taken before. Answers stop at the first failure. */
  ghost predicate AnswersOk(answers: seq<AllocAnswer>, held: set<Handle>, count: nat) {
    && |answers| <= count
    && (forall i | 0 <= i < |answers| - 1 :: answers[i].Mapped?)
    && (|answers| < count ==> answers != [] && !answers[|answers| - 1].Mapped?)
    && (forall i | 0 <= i < |answers| && answers[i].GaveBuffer() :: answers[i].Given() in held)
    && (forall i, j | 0 <= i < j < |answers| && answers[i].GaveBuffer() && answers[j].GaveBuffer() ::
          answers[i].Given() != answers[j].Given())
  }

  function GivenHandles(answers: seq<AllocAnswer>): (r: seq<Handle>)
    requires forall a | a in answers :: a.Mapped?
    ensures |r| == |answers| && forall i | 0 <= i < |r| :: r[i] == answers[i].h3
  {
    seq<Handle>(|answers|, i requires 0 <= i < |answers| => answers[i].h3)
  }

  lemma GivenDistinct(answers: seq<AllocAnswer>, held: set<Handle>, count: nat)
    requires AnswersOk(answers, held, count) && forall a | a in answers :: a.Mapped?
    ensures Distinct(GivenHandles(answers))
  {
    forall i, j | 0 <= i < j < |answers| ensures GivenHandles(answers)[i] != GivenHandles(answers)[j] {
      assert answers[i].Mapped? && answers[j].Mapped?;
      assert answers[i].Given() != answers[j].Given();
    }
  }

  /** The buffer an allocation that fails in ION forgets. */
  function Forgotten(answers: seq<AllocAnswer>): set<Handle> {
    if answers == [] then {}
    else match answers[|answers| - 1]
      case NoIonDevice(h) => {h}
      case NoIonImport(h) => {h}
      case _ => {}
  }

  predicate EndsInIon(answers: seq<AllocAnswer>) {
    answers != [] && (answers[|answers| - 1].NoIonDevice? || answers[|answers| - 1].NoIonImport?)
  }

  /** What an allocation forgets is missing from the window exactly if it comes to an end in ION. */
  lemma ForgottenIff(answers: seq<AllocAnswer>, held: set<Handle>, count: nat)
    requires AnswersOk(answers, held, count)
    ensures held - Forgotten(answers) == held <==> !EndsInIon(answers)
  {
    if EndsInIon(answers) {
      var last := answers[|answers| - 1];
      assert last.GaveBuffer() && last.Given() in Forgotten(answers) && last.Given() in held;
    }
  }

  /** A window with one buffer, and no ION: the buffer is in nobody's hands. */
  method BufferForgotten(memory: QCameraGrallocMemory) returns (ret: int, overrun: bool)
    requires memory.Valid() && memory.mBufferCount == 0 && memory.windowSet && memory.mWindow.held == {7}
    modifies memory`mMinUndequeuedBuffers, memory`mBufferCount
    modifies memory.mBufferHandle, memory.mLocalFlag, memory.mWindow
    ensures ret == UNKNOWN_ERROR && !overrun && memory.mBufferCount == 0 && memory.mWindow.held == {}
  {
    var answers := [NoIonDevice(7)];
    assert Forgotten(answers) == {7} && answers[0] in answers;
    ret, overrun := memory.Allocate(1, Ready(0), answers);
  }

  function Handles65(): (s: seq<AllocAnswer>)
    ensures |s| == 65 && forall i | 0 <= i < 65 :: s[i] == Mapped(i)
  {
    seq(65, i requires 0 <= i < 65 => Mapped(i))
  }

  /** A window with 65 buffers, all asked for: the last one is taken behind the tables. */
  method TablesOverrun(memory: QCameraGrallocMemory) returns (ret: int, overrun: bool)
    requires memory.Valid() && memory.mBufferCount == 0 && memory.windowSet
    requires forall i: nat | i < 65 :: i in memory.mWindow.held
    modifies memory`mMinUndequeuedBuffers, memory`mBufferCount
    modifies memory.mBufferHandle, memory.mLocalFlag, memory.mWindow
    ensures overrun
  {
    ret, overrun := memory.Allocate(62, Ready(3), Handles65());
  }

  class QCameraGrallocMemory {
    const mBufferHandle: array<Handle>
    const mLocalFlag: array<bool>      // true for BUFFER_OWNED
    const mWindow: PreviewWindow
    var windowSet: bool                // whether mWindow is not NULL
    var mMinUndequeuedBuffers: nat
    var mBufferCount: nat

    ghost predicate Valid()
      reads this
    {
      && mBufferHandle.Length == mLocalFlag.Length == MM_CAMERA_MAX_NUM_FRAMES
      && mBufferCount <= MM_CAMERA_MAX_NUM_FRAMES
    }

    ghost function Handles(): seq<Handle>
      requires Valid()
      reads this, mLocalFlag, mBufferHandle
    {
      mBufferHandle[..mBufferCount]
    }

    ghost function Owned(): seq<bool>
      requires Valid()
      reads this, mLocalFlag
    {
      mLocalFlag[..mBufferCount]
    }

    constructor (window: PreviewWindow)
      ensures Valid() && mWindow == window && windowSet && mBufferCount == 0
      ensures fresh(mBufferHandle) && fresh(mLocalFlag)
    {
      mWindow, windowSet := window, true;
      mMinUndequeuedBuffers, mBufferCount := 0, 0;
      mBufferHandle := new Handle[MM_CAMERA_MAX_NUM_FRAMES];
      mLocalFlag := new bool[MM_CAMERA_MAX_NUM_FRAMES](_ => false);
    }

    /** Send one buffer to the display and take an older one back. */
    method DisplayBuffer(index: nat, enqueued: bool, answer: DequeueAnswer) returns (dequeuedIdx: int)
      requires Valid() && index < mBufferCount
      requires answer.Dequeued? ==>
                 answer.handle in mWindow.held + if mLocalFlag[index] && enqueued then {mBufferHandle[index]} else {}
      modifies mLocalFlag, mWindow`held
      ensures Valid()
      ensures !old(mLocalFlag[index]) ==>
                dequeuedIdx == INVALID_OPERATION && Owned() == old(Owned()) && mWindow.held == old(mWindow.held)
      ensures old(mLocalFlag[index]) ==>
                var s := State(Handles(), old(Owned()), old(mWindow.held), {}, {});
                var s' := Dequeue(Enqueue(s, index, enqueued), answer);
                Owned() == s'.owned && mWindow.held == s'.window
      ensures old(mLocalFlag[index]) ==>
                dequeuedIdx == if answer.Dequeued? && IndexOf(Handles(), answer.handle) >= 0
                               then IndexOf(Handles(), answer.handle) else BAD_INDEX
    {
      dequeuedIdx := BAD_INDEX;
      if !mLocalFlag[index] {
        return INVALID_OPERATION;
      }
      mWindow.EnqueueBuffer(mBufferHandle[index], enqueued);
      if enqueued {
        mLocalFlag[index] := false;
      }
      assert Owned() == if enqueued then old(Owned())[index := false] else old(Owned());
      ghost var owned := Owned();
      mWindow.DequeueBuffer(answer);
      if answer.Dequeued? {
        var i := 0;
        while i < mBufferCount && mBufferHandle[i] != answer.handle
          invariant i <= mBufferCount
          invariant forall k | 0 <= k < i :: mBufferHandle[k] != answer.handle
        {
          i := i + 1;
        }
        FirstIndex(Handles(), answer.handle, i);
        if i < mBufferCount {
          mLocalFlag[i] := true;
          assert Owned() == owned[i := true];
          dequeuedIdx := i;
        }
      }
    }

    /** Take `count` buffers for the HAL and the minimum the window wants to keep. The tables have
        room for 64, which is not checked: overrun says that a buffer was taken behind them.
     */
    method Allocate(count: nat, setup: SetupAnswer, answers: seq<AllocAnswer>) returns (ret: int, overrun: bool)
      requires Valid() && mBufferCount == 0
      requires windowSet && setup.Ready? ==> AnswersOk(answers, mWindow.held, count + setup.min)
      modifies this`mMinUndequeuedBuffers, this`mBufferCount, mBufferHandle, mLocalFlag, mWindow
      ensures Valid()
      ensures overrun == (windowSet && setup.Ready? && |answers| > MM_CAMERA_MAX_NUM_FRAMES)
      ensures !overrun ==>
                ret == if !windowSet then INVALID_OPERATION
                       else if setup.Ready? && forall a | a in answers :: a.Mapped? then NO_ERROR
                       else UNKNOWN_ERROR
      ensures !overrun && ret == NO_ERROR ==>
                && |answers| == count + setup.min && mMinUndequeuedBuffers == setup.min
                && Handles() == GivenHandles(answers) && Distinct(Handles())
                && Owned() == Allocated(Handles(), setup.min).owned
                && mWindow.held ==
                     (old(mWindow.held) - set h | h in Handles()) + Allocated(Handles(), setup.min).window
      ensures !overrun && ret != NO_ERROR ==> mBufferCount == 0
      ensures !overrun && ret != NO_ERROR ==>
                mWindow.held == old(mWindow.held) - if windowSet && setup.Ready? then Forgotten(answers) else {}
      // a failed allocation leaves the window as it was, unless it fails in ION
      ensures !overrun && ret != NO_ERROR ==>
                (mWindow.held == old(mWindow.held) <==> !(windowSet && setup.Ready? && EndsInIon(answers)))
    {
      overrun := false;
      if !windowSet {
        return INVALID_OPERATION, false;
      }
      match setup
      case NoMinimum => ret := UNKNOWN_ERROR;
      case MinimumThenFailure(min) =>
        mMinUndequeuedBuffers := min;
        ret := UNKNOWN_ERROR;
      case Ready(min) =>
        mMinUndequeuedBuffers := min;
        ForgottenIff(answers, mWindow.held, count + min);
        ret, overrun := TakeBuffers(count + min, answers);
        if overrun { return; }
        if ret == NO_ERROR {
          GivenDistinct(answers, old(mWindow.held), count + min);
          mBufferCount := count + min;
          ReturnMinimum(min);
        }
    }

    method TakeBuffers(total: nat, answers: seq<AllocAnswer>) returns (ret: int, overrun: bool)
      requires Valid()
      requires AnswersOk(answers, mWindow.held, total)
      modifies mBufferHandle, mLocalFlag, mWindow
      ensures overrun == (|answers| > MM_CAMERA_MAX_NUM_FRAMES)
      ensures !overrun ==> ret == if forall a | a in answers :: a.Mapped? then NO_ERROR else UNKNOWN_ERROR
      ensures !overrun && ret == NO_ERROR ==>
                && |answers| == total <= MM_CAMERA_MAX_NUM_FRAMES && mBufferHandle[..total] == GivenHandles(answers)
                && (forall i | 0 <= i < total :: mLocalFlag[i])
                && mWindow.held == old(mWindow.held) - set h | h in mBufferHandle[..total]
      ensures !overrun && ret != NO_ERROR ==> mWindow.held == old(mWindow.held) - Forgotten(answers)
    {
      ghost var before := mWindow.held;
      for cnt := 0 to total
        invariant cnt <= |answers| && cnt <= MM_CAMERA_MAX_NUM_FRAMES
        invariant forall i | 0 <= i < cnt ::
          answers[i].Mapped? && mBufferHandle[i] == answers[i].h3 && mLocalFlag[i]
        invariant mWindow.held == before - set h | h in mBufferHandle[..cnt]
      {
        assert cnt < |answers|;
        if cnt == MM_CAMERA_MAX_NUM_FRAMES { return UNKNOWN_ERROR, true; }
        var a := answers[cnt];
        assert a.GaveBuffer() ==> a.Given() in before && a.Given() !in mBufferHandle[..cnt];
        mWindow.DequeueBuffer(if a.GaveBuffer() then Dequeued(a.Given()) else Failed);
        mLocalFlag[cnt] := a.GaveBuffer();
        if a.GaveBuffer() {
          ghost var taken := mBufferHandle[..cnt];
          mBufferHandle[cnt] := a.Given();
          assert mBufferHandle[..cnt + 1] == taken + [a.Given()];
        }
        if !a.Mapped? {
          assert cnt == |answers| - 1;
          Rollback(cnt);
          return UNKNOWN_ERROR, false;
        }
      }
      assert |answers| == total;
      return NO_ERROR, false;
    }

    // give the first `cnt` buffers back
    method Rollback(cnt: nat)
      requires Valid() && cnt <= MM_CAMERA_MAX_NUM_FRAMES
      requires forall i | 0 <= i < cnt :: mLocalFlag[i]
      modifies mBufferHandle, mLocalFlag, mWindow
      ensures mWindow.held == old(mWindow.held) + set h | h in old(mBufferHandle[..cnt])
      ensures mWindow.cancelled == old(mWindow.cancelled) + old(mBufferHandle[..cnt])
      ensures forall i | 0 <= i < cnt :: !mLocalFlag[i]
    {
      ghost var handles := mBufferHandle[..cnt];
      for i := 0 to cnt
        invariant mWindow.held == old(mWindow.held) + set h | h in handles[..i]
        invariant mWindow.cancelled == old(mWindow.cancelled) + handles[..i]
        invariant forall k | 0 <= k < i :: !mLocalFlag[k]
        invariant forall k | i <= k < cnt :: mLocalFlag[k] && mBufferHandle[k] == handles[k]
      {
        if mLocalFlag[i] {
          mWindow.CancelBuffer(mBufferHandle[i]);
        }
        mLocalFlag[i] := false;
        mBufferHandle[i] := 0;
        assert handles[..i + 1] == handles[..i] + [handles[i]];
      }
      assert handles[..cnt] == handles;
    }

    // cancel the buffers the window wants to keep
    method ReturnMinimum(min: nat)
      requires Valid() && min <= mBufferCount
      modifies mLocalFlag, mWindow
      ensures mWindow.held == old(mWindow.held) + set h | h in mBufferHandle[..min]
      ensures mWindow.cancelled == old(mWindow.cancelled) + mBufferHandle[..min]
      ensures forall i | 0 <= i < min :: !mLocalFlag[i]
      ensures forall i | min <= i < MM_CAMERA_MAX_NUM_FRAMES :: mLocalFlag[i] == old(mLocalFlag[i])
    {
      for i := 0 to min
        invariant mWindow.held == old(mWindow.held) + set h | h in mBufferHandle[..i]
        invariant mWindow.cancelled == old(mWindow.cancelled) + mBufferHandle[..i]
        invariant forall k | 0 <= k < i :: !mLocalFlag[k]
        invariant forall k | i <= k < MM_CAMERA_MAX_NUM_FRAMES :: mLocalFlag[k] == old(mLocalFlag[k])
      {
        mWindow.CancelBuffer(mBufferHandle[i]);
        mLocalFlag[i] := false;
        assert mBufferHandle[..i + 1] == mBufferHandle[..i] + [mBufferHandle[i]];
      }
    }

    method Deallocate()
      requires Valid()
      modifies this`mBufferCount, mLocalFlag, mWindow
      ensures Valid() && mBufferCount == 0
      ensures var cancels := if windowSet then Cancels(old(Handles()), old(Owned())) else [];
              && mWindow.cancelled == old(mWindow.cancelled) + cancels
              && mWindow.held == old(mWindow.held) + set h | h in cancels
      ensures forall i | 0 <= i < old(mBufferCount) :: !mLocalFlag[i]
    {
      ghost var handles, owned := Handles(), Owned();
      for cnt := 0 to mBufferCount
        invariant mBufferCount == old(mBufferCount)
        invariant var cancels := if windowSet then Cancels(handles[..cnt], owned[..cnt]) else [];
          && mWindow.cancelled == old(mWindow.cancelled) + cancels
          && mWindow.held == old(mWindow.held) + set h | h in cancels
        invariant forall k | 0 <= k < cnt :: !mLocalFlag[k]
        invariant forall k | cnt <= k < mBufferCount :: mLocalFlag[k] == owned[k]
      {
        CancelsStep(handles, owned, cnt);
        if mLocalFlag[cnt] && windowSet {
          mWindow.CancelBuffer(mBufferHandle[cnt]);
        }
        mLocalFlag[cnt] := false;
      }
      assert handles[..mBufferCount] == handles && owned[..mBufferCount] == owned;
      mBufferCount := 0;
    }

    method GetRegFlags(regFlags: array<int>) returns (rc: int)
      requires Valid() && mMinUndequeuedBuffers <= mBufferCount <= regFlags.Length
      modifies regFlags
      ensures forall i | 0 <= i < mBufferCount :: regFlags[i] == if RegFlag(i, mMinUndequeuedBuffers) then 1 else 0
      ensures rc == NO_ERROR
    {
      var i := 0;
      while i < mMinUndequeuedBuffers
        invariant i <= mMinUndequeuedBuffers
        invariant forall k | 0 <= k < i :: regFlags[k] == 0
      {
        regFlags[i] := 0;
        i := i + 1;
      }
      while i < mBufferCount
        invariant mMinUndequeuedBuffers <= i <= mBufferCount
        invariant forall k | 0 <= k < i :: regFlags[k] == if RegFlag(k, mMinUndequeuedBuffers) then 1 else 0
      {
        regFlags[i] := 1;
        i := i + 1;
      }
      return NO_ERROR;
    }
  }

  /** The preview stream, with the buffers its memory object describes. */
  class PreviewStream {
    const memory: QCameraGrallocMemory
    const mNumBufs: nat
    const hasBufDefs: bool             // whether mBufDefs is not NULL
    ghost var driver: set<nat>
    ghost var hal: set<nat>

    ghost predicate Valid()
      reads this, memory, memory.mLocalFlag, memory.mBufferHandle, memory.mWindow
    {
      && memory.Valid() && mNumBufs == memory.mBufferCount && hasBufDefs
      && Consistent(Abs())
    }

    ghost function Abs(): State
      requires memory.Valid()
      reads this, memory, memory.mLocalFlag, memory.mBufferHandle, memory.mWindow
    {
      State(memory.Handles(), memory.Owned(), memory.mWindow.held, driver, hal)
    }

    constructor (memory: QCameraGrallocMemory)
      requires memory.Valid() && memory.mMinUndequeuedBuffers <= memory.mBufferCount
      requires Distinct(memory.Handles())
      requires var s := Allocated(memory.Handles(), memory.mMinUndequeuedBuffers);
               memory.Owned() == s.owned && memory.mWindow.held == s.window
      ensures this.memory == memory && Valid()
      ensures Abs() == Allocated(memory.Handles(), memory.mMinUndequeuedBuffers)
    {
      this.memory, mNumBufs, hasBufDefs := memory, memory.mBufferCount, true;
      // the driver is given the buffers whose registration flag is set
      driver := set i | 0 <= i < memory.mBufferCount && RegFlag(i, memory.mMinUndequeuedBuffers);
      hal := {};
      AllocatedConsistent(memory.Handles(), memory.mMinUndequeuedBuffers);
    }

    method BufDone(index: int, queued: bool) returns (rc: int)
      requires memory.Valid() && mNumBufs == memory.mBufferCount && hasBufDefs && 0 <= index
      modifies this
      ensures memory.Valid() && Abs() == PreviewOwnership.BufDone(old(Abs()), index, queued)
      ensures rc == if index >= mNumBufs then BAD_INDEX else if queued then NO_ERROR else UNKNOWN_ERROR
    {
      if index >= mNumBufs || !hasBufDefs {
        return BAD_INDEX;
      }
      if queued {
        hal, driver := hal - {index}, driver + {index};
        return NO_ERROR;
      }
      return UNKNOWN_ERROR;
    }

    /** preview_stream_cb_routine */
    method PreviewStreamCb(idx: nat, running: bool, enqueued: bool, answer: DequeueAnswer, queued: bool)
      requires Valid() && idx in driver
      requires Allowed(Abs(), Frame(idx, running, enqueued, answer, queued))
      modifies this, memory.mLocalFlag, memory.mWindow`held
      ensures Valid() && Abs() == Next(old(Abs()), Frame(idx, running, enqueued, answer, queued))
    {
      FrameKeeps(Abs(), Frame(idx, running, enqueued, answer, queued));
      driver, hal := driver - {idx}, hal + {idx};
      ghost var s1 := Abs();
      if !running {
        var _ := BufDone(idx, queued);
        return;
      }
      assert s1.owned[idx];
      var dequeuedIdx := memory.DisplayBuffer(idx, enqueued, answer);
      if enqueued { hal := hal - {idx}; }
      if answer.Dequeued? && dequeuedIdx >= 0 { hal := hal + {dequeuedIdx}; }
      assert Abs() == Dequeue(Enqueue(s1, idx, enqueued), answer);
      if dequeuedIdx < 0 || dequeuedIdx >= memory.mBufferCount {
        // no buffer to return
      } else {
        var _ := BufDone(dequeuedIdx, queued);
      }
    }
  }

  lemma CancelsStep(handles: seq<Handle>, owned: seq<bool>, i: nat)
    requires i < |handles| == |owned|
    ensures Cancels(handles[..i + 1], owned[..i + 1]) ==
            Cancels(handles[..i], owned[..i]) + if owned[i] then [handles[i]] else []
  {
    assert handles[..i + 1][..i] == handles[..i] && owned[..i + 1][..i] == owned[..i];
  }

  lemma {:induction false} FirstIndex(handles: seq<Handle>, h: Handle, i: nat)
    requires i <= |handles| && forall k | 0 <= k < i :: handles[k] != h
    requires i < |handles| ==> handles[i] == h
    ensures IndexOf(handles, h) == if i < |handles| then i else -1
  {
    if i > 0 {
      FirstIndex(handles[1..], h, i - 1);
    }
  }
}
