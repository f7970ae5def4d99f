/** When the post-processor joins reprocessed frames with the wrong sources: exactly while frames
    still wait for the answers of a reprocess channel that was replaced.
 */
module PipelinePairing {
  import opened Common
  import opened Queues
  import opened Pipeline
  import opened PipelineFrames
  import opened PipelineProtocol

  /** Whether a reprocess channel was replaced while it owed answers, with no STOP taken up since. */
  predicate Owing(t: Trace<Event>) {
    match t
    case Begin => false
    case Then(before, e) => StillOwing(Run(before), e, Owing(before))
  }

  predicate StillOwing(s: State, e: Event, owing: bool) {
    !ProcessesStop(s, e) && (owing || Restarts(s, e))
  }

  /** The backend answers for the tail of the ongoing queue; in front of it are the frames nobody
      answers for any more.
   */
  predicate Mirrors(s: State, owing: bool) {
    var d := |s.ongoingPP.items| - |s.backend|;
    d >= 0 && s.ongoingPP.items[d..] == s.backend && (d > 0 <==> owing)
  }

  lemma MirrorsSame(s: State, s': State, owing: bool)
    requires Mirrors(s, owing) && s'.ongoingPP == s.ongoingPP && s'.backend == s.backend
    ensures Mirrors(s', owing)
  {
  }

  lemma StartMirrors(s: State, needReproc: bool, channelOk: bool, owing: bool)
    requires Mirrors(s, owing)
    ensures Mirrors(StartCall(s, needReproc, channelOk), owing || (needReproc && s.backend != []))
  {
  }

  lemma PPPhaseMirrors(s: State, alloc: bool, accepted: bool, owing: bool)
    requires Uniform(s) && Mirrors(s, owing)
    ensures Mirrors(PPPhase(s, alloc, accepted), owing)
  {
    if s.inputPP.Head().Some? {
      var frame := s.inputPP.Head().value;
      var d := |s.ongoingPP.items| - |s.backend|;
      assert (s.ongoingPP.items + [frame])[d..] == s.backend + [frame];
    }
  }

  lemma DrainMirrors(s: State)
    ensures var s' := DrainPP(DrainRaw(DrainJpeg(s))); s'.ongoingPP == s.ongoingPP && s'.backend == s.backend
  {
  }

  lemma DoNextMirrors(s: State, a: Answers, owing: bool)
    requires Uniform(s) && Mirrors(s, owing)
    ensures Mirrors(WorkerDoNext(s, a), owing)
  {
    hide JpegPhase, RawPhase, PPPhase, DrainPP, DrainRaw, DrainJpeg, Uniform, Mirrors;
    if s.active {
      var s1 := JpegPhase(s, a.encode);
      JpegPhaseFrame(s, a.encode);
      JpegPhaseUniform(s, a.encode);
      MirrorsSame(s, s1, owing);
      RawPhaseFrame(s1, a.raw);
      RawPhaseUniform(s1, a.raw);
      MirrorsSame(s1, RawPhase(s1, a.raw), owing);
      PPPhaseMirrors(RawPhase(s1, a.raw), a.ppAlloc, a.reprocess, owing);
    } else {
      DrainMirrors(s);
      MirrorsSame(s, DrainPP(DrainRaw(DrainJpeg(s))), owing);
    }
  }

  lemma StopMirrors(s: State)
    requires Uniform(s)
    ensures Mirrors(WorkerStop(s), false)
  {
  }

  lemma WorkerMirrors(s: State, a: Answers, owing: bool)
    requires Uniform(s) && Mirrors(s, owing)
    ensures Mirrors(WorkerStep(s, a), StillOwing(s, Worker(a), owing))
  {
    hide WorkerDoNext, WorkerStop, Uniform, Mirrors;
    if s.cmds != [] && s.running {
      var s1 := s.(cmds := s.cmds[1..]);
      SendUniform(s, s.cmds[1..]);
      MirrorsSame(s, s1, owing);
      match s.cmds[0]
      case DoNextJob => DoNextMirrors(s1, a, owing);
      case StopProc => StopMirrors(s1);
      case _ => MirrorsSame(s, WorkerStep(s, a), owing);
    }
  }

  lemma PPResultMirrors(s: State, reproc: Frame, toRaw: bool, alloc: bool, owing: bool)
    requires Uniform(s) && Mirrors(s, owing) && s.backend != []
    ensures Mirrors(PPResultCall(s, reproc, toRaw, alloc), owing)
  {
    hide Uniform;
    assert s.ongoingPP.active by { OngoingActive(s); }
    var d := |s.ongoingPP.items| - |s.backend|;
    assert s.ongoingPP.items[1..][d..] == s.backend[1..];
    assert Mirrors(TakeAnswered(s), owing);
    hide Mirrors;
    MirrorsSame(TakeAnswered(s), PPResultCall(s, reproc, toRaw, alloc), owing);
  }

  lemma OngoingActive(s: State)
    requires Uniform(s) && s.ongoingPP.items != []
    ensures s.ongoingPP.active && s.inputJpeg.active
  {
  }

  lemma OtherCallsMirror(s: State, e: Event)
    requires e.ProcessData? || e.ProcessRaw? || e.JpegEvent? || e.Stop? || e.Deinit?
    ensures Next(s, e).ongoingPP == s.ongoingPP && Next(s, e).backend == s.backend
  {
    if e.ProcessData? {
      hide JpegEventCall;
    } else if e.JpegEvent? {
      hide DataCall;
    } else {
      hide DataCall, JpegEventCall;
    }
    hide WorkerStep, PPResultCall, StartCall;
  }

  lemma StepMirrors(s: State, e: Event, owing: bool)
    requires Uniform(s) && Mirrors(s, owing) && BackendOk(s, e)
    ensures Mirrors(Next(s, e), StillOwing(s, e, owing))
  {
    hide WorkerStep, PPResultCall, JpegEventCall, DataCall, StartCall, EnqueueRaw, Uniform, Mirrors;
    match e
    case Worker(a) => WorkerMirrors(s, a, owing);
    case PPResult(reproc, toRaw, alloc) => PPResultMirrors(s, reproc, toRaw, alloc, owing);
    case Start(needReproc, channelOk) => StartMirrors(s, needReproc, channelOk, owing);
    case _ =>
      OtherCallsMirror(s, e);
      MirrorsSame(s, Next(s, e), owing);
  }

  lemma {:induction false} RunMirrors(t: Trace<Event>)
    requires BackendInOrder(t)
    ensures Mirrors(Run(t), Owing(t))
  {
    if t.Then? {
      RunMirrors(t.before);
      RunUniform(t.before);
      StepMirrors(Run(t.before), t.event, Owing(t.before));
    }
  }

  // ---------- the jobs ----------

  /** A result that becomes a JPEG job. */
  predicate Joins(e: Event) { e.PPResult? && !e.toRaw && e.ppJobAlloc }

  /** Every super buffer is handed in at most once. */
  ghost predicate FramesDiffer(t: Trace<Event>) {
    forall f :: Times(ArrivedIn(t), f) <= 1
  }

  lemma {:induction false} TimesAt<T>(s: seq<T>, i: nat)
    requires i < |s|
    ensures Times(s, s[i]) >= 1
  {
    if i > 0 {
      TimesAt(s[1..], i - 1);
    }
  }

  lemma TwiceIsTwo<T>(s: seq<T>, d: nat)
    requires 0 < d < |s| && s[0] == s[d]
    ensures Times(s, s[0]) >= 2
  {
    TimesAt(s[1..], d - 1);
  }

  lemma JobBuilt(s: State, e: Event)
    requires Uniform(s) && Joins(e) && s.ongoingPP.items != []
    ensures Next(s, e).inputJpeg.items == s.inputJpeg.items + [JpegJob(0, e.reproc, Some(s.ongoingPP.items[0]))]
  {
    OngoingActive(s);
    hide Uniform;
  }

  /** The frames in front of those the backend answers for are others than the one it answers. */
  lemma FrontDiffers(t: Trace<Event>)
    requires FramesDiffer(t) && Mirrors(Run(t), true) && Run(t).backend != []
    ensures Run(t).ongoingPP.items[0] != Run(t).backend[0]
  {
    var s := Run(t);
    var d := |s.ongoingPP.items| - |s.backend|;
    assert s.ongoingPP.items[d] == s.backend[0];
    RunConserves(t, s.ongoingPP.items[0]);
    if s.ongoingPP.items[0] == s.ongoingPP.items[d] {
      TwiceIsTwo(s.ongoingPP.items, d);
    }
    hide Run, Times, ArrivedIn, DroppedIn;
  }

  function LastJob(s: State): JpegJob
    requires s.inputJpeg.items != []
  {
    s.inputJpeg.items[|s.inputJpeg.items| - 1]
  }

  /** A reprocessed frame is joined with the frame it was made from exactly when no frame waits for
      the answers of a channel that was replaced.
   */
  lemma JoinsRightIff(t: Trace<Event>, e: Event)
    requires BackendInOrder(Then(t, e)) && Joins(e) && FramesDiffer(t)
    ensures var s' := Run(Then(t, e));
            s'.inputJpeg.items != [] && (JobPaired(LastJob(s')) <==> !Owing(t))
  {
    RunMirrors(t);
    RunUniform(t);
    JobBuilt(Run(t), e);
    if Owing(t) {
      FrontDiffers(t);
    }
    hide Next, Uniform, Run, Owing;
  }

  /** Every job built in the course of a run. */
  ghost predicate AllJoinedRight(t: Trace<Event>) {
    match t
    case Begin => true
    case Then(before, e) =>
      AllJoinedRight(before) && (Joins(e) ==> Run(t).inputJpeg.items != [] && JobPaired(LastJob(Run(t))))
  }

  ghost predicate NoneJoinedWhileOwing(t: Trace<Event>) {
    match t
    case Begin => true
    case Then(before, e) => NoneJoinedWhileOwing(before) && (Joins(e) ==> !Owing(before))
  }

  /** Every job of a run joins a frame with its own source exactly when none is built while frames
      wait for the answers of a channel that was replaced.
   */
  lemma {:induction false} AllJoinedRightIff(t: Trace<Event>)
    requires BackendInOrder(t) && FramesDiffer(t)
    ensures AllJoinedRight(t) <==> NoneJoinedWhileOwing(t)
  {
    if t.Then? {
      FramesDifferBefore(t.before, t.event);
      AllJoinedRightIff(t.before);
      if Joins(t.event) {
        hide Run, Owing, LastJob;
        JoinsRightIff(t.before, t.event);
      }
    }
  }

  lemma FramesDifferBefore(t: Trace<Event>, e: Event)
    requires FramesDiffer(Then(t, e))
    ensures FramesDiffer(t)
  {
    hide Times;
    forall f ensures Times(ArrivedIn(t), f) <= 1 {
      TimesAppend(ArrivedIn(t), Arriving(e), f);
      assert Times(ArrivedIn(Then(t, e)), f) <= 1;
    }
  }

  /** Without a restart nothing is ever owing. */
  lemma {:induction false} NeverOwing(t: Trace<Event>)
    requires NeverRestarts(t)
    ensures !Owing(t)
  {
    if t.Then? {
      NeverOwing(t.before);
    }
  }
}
