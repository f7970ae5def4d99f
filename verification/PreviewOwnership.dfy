/** Who holds each preview buffer: the driver, the HAL, or the display window. The HAL tracks
    it with one flag per buffer and a table of handles.
 */
module PreviewOwnership {
  import opened Common

  type Handle = nat

  datatype DequeueAnswer = Failed | NullHandle | Dequeued(handle: Handle)

  datatype State = State(
    handles: seq<Handle>,   // mBufferHandle[0..mBufferCount]
    owned: seq<bool>,       // mLocalFlag[0..mBufferCount]
    window: set<Handle>,    // held by the window
    driver: set<nat>,       // queued to the driver, by index
    hal: set<nat>)          // in the hands of the HAL, by index

  function IndexOf(handles: seq<Handle>, h: Handle): (i: int)
    ensures -1 <= i < |handles|
    ensures i >= 0 ==> handles[i] == h
    ensures i == -1 ==> h !in handles
  {
    if handles == [] then -1
    else if handles[0] == h then 0
    else
      var i := IndexOf(handles[1..], h);
      if i == -1 then -1 else i + 1
  }

  predicate Distinct(handles: seq<Handle>) {
    forall i, j | 0 <= i < j < |handles| :: handles[i] != handles[j]
  }

  /** Each buffer is with exactly one of the three, and the flag says which side of the window
      it is on. */
  ghost predicate Consistent(s: State) {
    && |s.owned| == |s.handles| && Distinct(s.handles)
    && (forall h | h in s.window :: h in s.handles)
    && (forall i | i in s.driver :: i < |s.handles|)
    && (forall i | i in s.hal :: i < |s.handles|)
    && forall i | 0 <= i < |s.handles| ::
         && (s.owned[i] <==> s.handles[i] !in s.window)
         && (s.owned[i] <==> i in s.driver + s.hal)
         && (i !in s.driver || i !in s.hal)
  }

  // ---------- steps ----------

  /** displayBuffer: hand one buffer to the window, take another one back. The answers are the
      window's; it can only give a buffer that it holds. */
  predicate WindowOk(s: State, index: nat, enqueued: bool, answer: DequeueAnswer) {
    index < |s.handles| && (answer.Dequeued? ==>
      answer.handle in s.window + if enqueued then {s.handles[index]} else {})
  }

  function Enqueue(s: State, index: nat, ok: bool): State
    requires index < |s.handles| == |s.owned|
  {
    if ok then
      s.(owned := s.owned[index := false], window := s.window + {s.handles[index]}, hal := s.hal - {index})
    else s
  }

  function Dequeue(s: State, answer: DequeueAnswer): State
    requires |s.owned| == |s.handles|
  {
    if !answer.Dequeued? then s
    else
      var i := IndexOf(s.handles, answer.handle);
      var s1 := s.(window := s.window - {answer.handle});
      if i >= 0 then s1.(owned := s.owned[i := true], hal := s.hal + {i}) else s1
  }

  function DequeuedIndex(s: State, answer: DequeueAnswer): int {
    if answer.Dequeued? then IndexOf(s.handles, answer.handle) else -1
  }

  function BufDone(s: State, index: int, ok: bool): State {
    if 0 <= index < |s.handles| && ok then s.(hal := s.hal - {index}, driver := s.driver + {index}) else s
  }

  datatype Event =
    | Frame(index: nat, running: bool, enqueued: bool, answer: DequeueAnswer, queued: bool)
    | Stopped    // the stream stops: the driver lets go of its buffers

  /** preview_stream_cb_routine: a frame comes in; show it and return an older buffer, or
      return it at once when the preview is not running. */
  function FrameStep(s: State, index: nat, running: bool, enqueued: bool, answer: DequeueAnswer, queued: bool): State
    requires index < |s.handles| == |s.owned|
  {
    var s1 := s.(driver := s.driver - {index}, hal := s.hal + {index});
    if !running then BufDone(s1, index, queued)
    else
      var s2 := Dequeue(Enqueue(s1, index, enqueued), answer);
      BufDone(s2, DequeuedIndex(s1, answer), queued)
  }

  function Next(s: State, e: Event): State {
    match e
    case Frame(index, running, enqueued, answer, queued) =>
      if index < |s.handles| == |s.owned| && index in s.driver
      then FrameStep(s, index, running, enqueued, answer, queued)
      else s
    case Stopped => s.(driver := {}, hal := s.hal + s.driver)
  }

  ghost predicate Allowed(s: State, e: Event) {
    e.Frame? && e.running ==> WindowOk(s, e.index, e.enqueued, e.answer)
  }

  // ---------- the invariant ----------

  lemma EnqueueKeeps(s: State, index: nat, ok: bool)
    requires Consistent(s) && index in s.hal
    ensures Consistent(Enqueue(s, index, ok))
  {
  }

  lemma DequeueKeeps(s: State, answer: DequeueAnswer)
    requires Consistent(s) && (answer.Dequeued? ==> answer.handle in s.window)
    ensures Consistent(Dequeue(s, answer))
    ensures answer.Dequeued? ==>
              0 <= DequeuedIndex(s, answer) < |s.handles| && DequeuedIndex(s, answer) in Dequeue(s, answer).hal
  {
  }

  lemma BufDoneKeeps(s: State, index: int, ok: bool)
    requires Consistent(s) && (0 <= index < |s.handles| ==> index in s.hal)
    ensures Consistent(BufDone(s, index, ok))
  {
  }

  /** A frame leaves every buffer in one place, and the guard in displayBuffer against buffers
      that are not owned does not fire. */
  lemma FrameKeeps(s: State, e: Event)
    requires Consistent(s) && Allowed(s, e) && e.Frame? && e.index in s.driver
    ensures Consistent(Next(s, e))
    ensures s.owned[e.index]
  {
    var s1 := s.(driver := s.driver - {e.index}, hal := s.hal + {e.index});
    assert Consistent(s1);
    hide Consistent;
    if e.running {
      EnqueueKeeps(s1, e.index, e.enqueued);
      DequeueKeeps(Enqueue(s1, e.index, e.enqueued), e.answer);
      var s2 := Dequeue(Enqueue(s1, e.index, e.enqueued), e.answer);
      BufDoneKeeps(s2, DequeuedIndex(s1, e.answer), e.queued);
    } else {
      BufDoneKeeps(s1, e.index, e.queued);
    }
  }

  function Run(start: State, t: Trace<Event>): State {
    match t
    case Begin => start
    case Then(before, e) => Next(Run(start, before), e)
  }

  ghost predicate RunAllowed(start: State, t: Trace<Event>) {
    match t
    case Begin => true
    case Then(before, e) => RunAllowed(start, before) && Allowed(Run(start, before), e)
  }

  /** In every run each buffer stays with exactly one of driver, HAL and window. */
  lemma {:induction false} RunConsistent(start: State, t: Trace<Event>)
    requires Consistent(start) && RunAllowed(start, t)
    ensures Consistent(Run(start, t)) && Run(start, t).handles == start.handles
  {
    if t.Then? {
      RunConsistent(start, t.before);
      var s := Run(start, t.before);
      if t.event.Frame? && t.event.index in s.driver {
        FrameKeeps(s, t.event);
      }
    }
  }

  // ---------- where a frame goes ----------

  /** With the preview running, the frame goes to the window if the window takes it, the buffer that the
      window gives leaves it and goes to the driver if the stream takes that, and no other buffer moves.
   */
  lemma ShownFrameMoves(s: State, e: Event)
    requires Consistent(s) && Allowed(s, e) && e.Frame? && e.index in s.driver && e.running
    ensures var s' := Next(s, e);
            && s'.handles == s.handles
            && s'.window == s.window + (if e.enqueued then {s.handles[e.index]} else {})
                            - (if e.answer.Dequeued? then {e.answer.handle} else {})
            && (forall i | 0 <= i < |s.handles| ::
                  i in s'.driver <==>
                    || (i in s.driver && i != e.index)
                    || (e.answer == Dequeued(s.handles[i]) && e.queued))
            && (forall i | i in s'.driver :: i < |s.handles|)
  {
    var s1 := s.(driver := s.driver - {e.index}, hal := s.hal + {e.index});
    assert Consistent(s1);
    hide Consistent;
    var i := DequeuedIndex(s1, e.answer);
    if e.answer.Dequeued? {
      BackFromWindow(s1, e.index, e.enqueued, e.answer);
      OnlyIndex(s1, e.answer.handle, i);
    }
    hide IndexOf, WindowOk;
  }

  lemma OnlyIndex(s: State, h: Handle, i: int)
    requires Consistent(s) && i == IndexOf(s.handles, h) >= 0
    ensures forall k | 0 <= k < |s.handles| :: s.handles[k] == h <==> k == i
  {
    hide IndexOf;
  }

  /** With the preview not running, the frame goes straight back, if the stream takes it. */
  lemma UnshownFrameMoves(s: State, e: Event)
    requires Consistent(s) && e.Frame? && e.index in s.driver && !e.running
    ensures var s' := Next(s, e);
            && s'.handles == s.handles && s'.owned == s.owned && s'.window == s.window
            && s'.driver == if e.queued then s.driver else s.driver - {e.index}
  {
  }

  /** A frame the driver does not have is not delivered, and a stream that stops takes all from it. */
  lemma OtherMoves(s: State, e: Event)
    ensures e.Frame? && e.index !in s.driver ==> Next(s, e) == s
    ensures e.Stopped? ==> Next(s, e) == s.(driver := {}, hal := s.hal + s.driver)
  {
  }

  /** Two buffers, all goes well: frame 1 is shown, and buffer 0 goes to the driver. */
  lemma FrameIsShown()
    ensures var s, e := Allocated([10, 11], 1), Frame(1, true, true, Dequeued(10), true);
            Next(s, e).window == {11} && Next(s, e).driver == {0} && Next(s, e).hal == {}
  {
    var s, e := Allocated([10, 11], 1), Frame(1, true, true, Dequeued(10), true);
    AllocatedConsistent([10, 11], 1);
    assert s.handles[0] == 10 && s.handles[1] == 11 && RegFlag(1, 1);
    assert 10 in s.window;
    assert s.driver == {1} && s.window == {10};
    ShownFrameMoves(s, e);
    FrameLeavesNothingIff(s, e);
  }

  // ---------- buffers nobody returns ----------

  /** Whether a frame ends with as many buffers outside the HAL as before: the window takes it, and
      whatever the window or the callback gives back the stream takes in turn.
   */
  predicate GivenOn(e: Event)
    requires e.Frame?
  {
    if e.running then e.enqueued && (e.answer.Dequeued? ==> e.queued) else e.queued
  }

  /** The callback leaves no buffer with the HAL exactly when neither the window nor the stream
      refuses one.
   */
  lemma FrameLeavesNothingIff(s: State, e: Event)
    requires Consistent(s) && Allowed(s, e) && e.Frame? && e.index in s.driver
    ensures Next(s, e).hal == s.hal <==> GivenOn(e)
    ensures s.hal <= Next(s, e).hal
  {
    var s1 := s.(driver := s.driver - {e.index}, hal := s.hal + {e.index});
    assert Consistent(s1) && s1.hal - {e.index} == s.hal;
    hide Consistent;
    if e.running {
      ShownLeavesNothingIff(s1, e.index, e.enqueued, e.answer, e.queued);
    }
  }

  lemma ShownLeavesNothingIff(s: State, index: nat, enqueued: bool, answer: DequeueAnswer, queued: bool)
    requires Consistent(s) && index in s.hal && WindowOk(s, index, enqueued, answer)
    ensures var s' := BufDone(Dequeue(Enqueue(s, index, enqueued), answer), DequeuedIndex(s, answer), queued);
            && (s'.hal == s.hal - {index} <==> enqueued && (answer.Dequeued? ==> queued))
            && s.hal - {index} <= s'.hal
  {
    if answer.Dequeued? {
      BackFromWindow(s, index, enqueued, answer);
    }
    hide Consistent, IndexOf;
  }

  /** A buffer that comes back from the window was not with the HAL, or is the one just shown. */
  lemma BackFromWindow(s: State, index: nat, enqueued: bool, answer: DequeueAnswer)
    requires Consistent(s) && index in s.hal && WindowOk(s, index, enqueued, answer) && answer.Dequeued?
    ensures var i := DequeuedIndex(s, answer);
            0 <= i < |s.handles| && (i in s.hal ==> i == index && enqueued)
  {
    var i := IndexOf(s.handles, answer.handle);
    assert answer.handle in s.handles;
  }

  /** Frames the driver delivers, in a run that starts from a given state. */
  ghost predicate AlwaysGivenOn(start: State, t: Trace<Event>) {
    match t
    case Begin => true
    case Then(before, e) =>
      AlwaysGivenOn(start, before) &&
      if e.Frame? then e.index in Run(start, before).driver ==> GivenOn(e) else Run(start, before).driver == {}
  }

  lemma StepKeepsHal(s: State, e: Event)
    requires Consistent(s) && Allowed(s, e)
    ensures s.hal <= Next(s, e).hal
    ensures Next(s, e).hal == s.hal <==>
            if e.Frame? then e.index in s.driver ==> GivenOn(e) else s.driver == {}
  {
    if e.Frame? {
      if e.index in s.driver {
        FrameLeavesNothingIff(s, e);
      }
    } else {
      assert forall i | i in s.driver :: i !in s.hal;
    }
  }

  /** What is with the HAL stays there: over any run its buffers only grow in number ... */
  lemma {:induction false} HalKeeps(start: State, t: Trace<Event>, later: Trace<Event>)
    requires Consistent(start) && RunAllowed(start, t.Followed(later))
    ensures RunAllowed(start, t) && Run(start, t).hal <= Run(start, t.Followed(later)).hal
  {
    if later.Then? {
      HalKeeps(start, t, later.before);
      RunConsistent(start, t.Followed(later.before));
      StepKeepsHal(Run(start, t.Followed(later.before)), later.event);
    }
  }

  /** ... and they stay the same exactly when every frame is given on, and the stream is stopped
      only with no buffer left in the driver.
   */
  lemma {:induction false} HalUnchangedIff(start: State, t: Trace<Event>)
    requires Consistent(start) && RunAllowed(start, t)
    ensures start.hal <= Run(start, t).hal
    ensures Run(start, t).hal == start.hal <==> AlwaysGivenOn(start, t)
  {
    if t.Then? {
      HalUnchangedIff(start, t.before);
      RunConsistent(start, t.before);
      StepKeepsHal(Run(start, t.before), t.event);
    }
  }

  /** Two buffers, one of them with the window. The window takes frame 1 and gives buffer 0 back,
      which the stream refuses: buffer 0 stays with the HAL.
   */
  lemma OlderBufferStays()
    ensures var s, e := Allocated([10, 11], 1), Frame(1, true, true, Dequeued(10), false);
            Consistent(s) && Allowed(s, e) && e.index in s.driver && Next(s, e).hal == {0}
  {
    var s := Allocated([10, 11], 1);
    AllocatedConsistent([10, 11], 1);
    assert s.handles[0] == 10 && s.handles[1] == 11 && RegFlag(1, 1);
    assert IndexOf([10, 11], 10) == 0;
    assert 10 in s.window;
    assert s.driver == {1};
  }

  /** The window refuses frame 1, which stays with the HAL. */
  lemma RefusedFrameStays()
    ensures var s, e := Allocated([10, 11], 1), Frame(1, true, false, Failed, true);
            Consistent(s) && Allowed(s, e) && e.index in s.driver && Next(s, e).hal == {1}
  {
    AllocatedConsistent([10, 11], 1);
    assert Allocated([10, 11], 1).handles[1] == 11 && RegFlag(1, 1);
  }

  // ---------- allocation and teardown ----------

  /** What getRegFlags reports for a buffer: 1 if the driver is to have it from the start. */
  predicate RegFlag(i: nat, min: nat) { i >= min }

  /** After a successful allocation: the first `min` buffers are back with the window, and the
      driver starts with the others, as getRegFlags tells it. */
  function Allocated(handles: seq<Handle>, min: nat): State
    requires min <= |handles|
  {
    State(handles, seq(|handles|, i => i >= min), set i | 0 <= i < min :: handles[i],
          set i | 0 <= i < |handles| && RegFlag(i, min), {})
  }

  lemma AllocatedConsistent(handles: seq<Handle>, min: nat)
    requires min <= |handles| && Distinct(handles)
    ensures Consistent(Allocated(handles, min))
    ensures forall i | 0 <= i < |handles| :: Allocated(handles, min).owned[i] <==> RegFlag(i, min)
  {
  }

  /** Of the buffers allocated the first min are with the window, and the others with the driver. */
  lemma AllocatedIs(handles: seq<Handle>, min: nat, i: nat)
    requires min <= |handles| && Distinct(handles) && i < |handles|
    ensures var s := Allocated(handles, min);
            && s.handles == handles && s.hal == {}
            && (handles[i] in s.window <==> i < min) && (i in s.driver <==> i >= min) && (s.owned[i] <==> i >= min)
            && (forall h | h in s.window :: h in handles)
  {
  }

  /** The buffers cancelled at the end: those that are flagged. */
  function Cancels(handles: seq<Handle>, owned: seq<bool>): seq<Handle>
    requires |owned| == |handles|
  {
    if handles == [] then []
    else
      var n := |handles| - 1;
      Cancels(handles[..n], owned[..n]) + if owned[n] then [handles[n]] else []
  }

  /** Each flagged buffer is cancelled once, and no other. */
  lemma {:induction false} CancelledOnce(handles: seq<Handle>, owned: seq<bool>, h: Handle)
    requires |owned| == |handles| && Distinct(handles)
    ensures Times(Cancels(handles, owned), h) ==
            if exists i | 0 <= i < |handles| :: handles[i] == h && owned[i] then 1 else 0
  {
    if handles != [] {
      var n := |handles| - 1;
      CancelledOnce(handles[..n], owned[..n], h);
      TimesAppend(Cancels(handles[..n], owned[..n]), if owned[n] then [handles[n]] else [], h);
      if i :| 0 <= i < n && handles[..n][i] == h && owned[..n][i] {
        assert handles[i] == h && owned[i];
      }
      if i :| 0 <= i < |handles| && handles[i] == h && owned[i] {
        assert i < n ==> handles[..n][i] == h && owned[..n][i];
      }
    }
  }

  lemma {:induction false} OccursIff(s: seq<Handle>, h: Handle)
    ensures h in s <==> Times(s, h) > 0
  {
    if s != [] {
      OccursIff(s[1..], h);
    }
  }

  /** Tearing down gives every buffer back, whatever happened before: each that the window does not have
      is cancelled once, and no other.
   */
  lemma TeardownReturnsAll(handles: seq<Handle>, min: nat, t: Trace<Event>, h: Handle)
    requires min <= |handles| && Distinct(handles) && RunAllowed(Allocated(handles, min), t)
    ensures var s := Run(Allocated(handles, min), t);
            && |s.owned| == |s.handles|
            && Times(Cancels(s.handles, s.owned), h) == (if h in handles && h !in s.window then 1 else 0)
            && (h in s.window || h in Cancels(s.handles, s.owned) <==> h in handles)
  {
    AllocatedConsistent(handles, min);
    RunConsistent(Allocated(handles, min), t);
    var s := Run(Allocated(handles, min), t);
    CancelledOnce(s.handles, s.owned, h);
    OccursIff(Cancels(s.handles, s.owned), h);
    hide Cancels, Times, Run, Allocated;
    if i :| 0 <= i < |handles| && handles[i] == h {
      assert s.handles[i] == h;
    }
  }
}
