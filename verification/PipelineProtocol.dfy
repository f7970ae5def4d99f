/** Three more protocol properties of the post-processor, over every run: no wake-up is lost,
    one JPEG job is outstanding, and reprocessed frames meet the frame they were made from.
 */
module PipelineProtocol {
  import opened Common
  import opened Queues
  import opened Pipeline

  // ---------- wake-ups ----------

  /** The number of DO_NEXT_JOB commands waiting for the worker. */
  function Pending(cmds: seq<Cmd>): nat {
    if cmds == [] then 0 else (if cmds[0].DoNextJob? then 1 else 0) + Pending(cmds[1..])
  }

  lemma {:induction false} PendingAppend(cmds: seq<Cmd>, c: Cmd)
    ensures Pending(cmds + [c]) == Pending(cmds) + if c.DoNextJob? then 1 else 0
  {
    if cmds != [] {
      assert (cmds + [c])[1..] == cmds[1..] + [c];
      PendingAppend(cmds[1..], c);
    }
  }

  /** Every frame waiting for reprocessing or raw delivery has a command of its own. A waiting
      JPEG job has one too while the worker is inactive; while it is active, one command is
      enough, and none is needed while a job is being encoded. */
  ghost predicate Awake(s: State) {
    && |s.inputPP.items| <= Pending(s.cmds)
    && |s.inputRaw.items| <= Pending(s.cmds)
    && if s.active then s.inputJpeg.items != [] && s.ongoingJpeg.items == [] ==> Pending(s.cmds) > 0
       else |s.inputJpeg.items| <= Pending(s.cmds)
  }

  /** The one way to lose a wake-up: the encoder refuses a job while others wait behind it and
      no further command is on its way. No command is sent on that path. */
  ghost predicate Stalls(s: State, e: Event) {
    && e.Worker? && s.running && s.cmds != [] && s.cmds[0].DoNextJob? && s.active
    && s.ongoingJpeg.items == [] && |s.inputJpeg.items| > 1
    && !e.answers.encode.Started?
    && Pending(s.cmds) == 1
  }

  lemma StartAwake(s: State, needReproc: bool, channelOk: bool)
    requires Awake(s)
    ensures Awake(StartCall(s, needReproc, channelOk))
  {
    PendingAppend(s.cmds, StartProc);
  }

  lemma PriorityAwake(s: State, c: Cmd)
    requires Awake(s) && !c.DoNextJob?
    ensures Awake(s.(cmds := [c] + s.cmds))
  {
    assert ([c] + s.cmds)[1..] == s.cmds;
  }

  lemma RawCallAwake(s: State, frame: Frame)
    requires Awake(s)
    ensures Awake(EnqueueRaw(s, frame))
  {
    PendingAppend(s.cmds, DoNextJob);
  }

  lemma JpegEventAwake(s: State, jobId: nat)
    requires Awake(s)
    ensures Awake(JpegEventCall(s, jobId))
  {
    PendingAppend(s.cmds, DoNextJob);
  }

  lemma DataAwake(s: State, frame: Frame, needReprocess: bool, nv16: bool, alloc: bool)
    requires Awake(s)
    ensures Awake(DataCall(s, frame, needReprocess, nv16, alloc))
  {
    PendingAppend(s.cmds, DoNextJob);
    PendingAppend(s.cmds + [DoNextJob], DoNextJob);
  }

  lemma PPResultAwake(s: State, reproc: Frame, toRaw: bool, alloc: bool)
    requires Awake(s)
    ensures Awake(PPResultCall(s, reproc, toRaw, alloc))
  {
    var s1 := TakeAnswered(s);
    assert Awake(s1);
    if s.ongoingPP.Head().Some? {
      var src := s.ongoingPP.Head().value;
      assert Awake(Release(s1, [src]));
      hide TakeAnswered, Pending;
      RawCallAwake(Release(s1, [src]), reproc);
      PendingAppend(s1.cmds, DoNextJob);
    }
  }

  /** What the worker's active branch does, as the wake-ups see it. */
  lemma ActiveWorkerFrame(s: State, a: Answers)
    requires s.active
    ensures var s', s1 := WorkerDoNext(s, a), JpegPhase(s, a.encode);
            && s'.cmds == s.cmds && s'.active
            && s'.inputPP == s.inputPP.DropHead() && s'.inputRaw == s.inputRaw.DropHead()
            && s'.inputJpeg == s1.inputJpeg && s'.ongoingJpeg == s1.ongoingJpeg && s'.encoder == s1.encoder
  {
    hide JpegPhase, RawPhase, PPPhase;
    var s1 := JpegPhase(s, a.encode);
    JpegPhaseFrame(s, a.encode);
    RawPhaseFrame(s1, a.raw);
    PPPhaseFrame(RawPhase(s1, a.raw), a.ppAlloc, a.reprocess);
  }

  lemma JpegPhaseQueues(s: State, o: EncodeOutcome)
    requires Uniform(s)
    ensures var s' := JpegPhase(s, o);
            if s.ongoingJpeg.items != [] || s.inputJpeg.items == [] then
              s'.inputJpeg == s.inputJpeg && s'.ongoingJpeg == s.ongoingJpeg && s'.encoder == s.encoder
            else
              && s'.inputJpeg == s.inputJpeg.DropHead()
              && s'.ongoingJpeg.items ==
                   (if o.Started? then [s.inputJpeg.items[0].(jobId := o.jobId)] else [])
              && s'.encoder == if o.Started? then s.encoder + {o.jobId} else s.encoder
  {
  }

  lemma ActiveWorkerAwake(s: State, a: Answers)
    requires Uniform(s) && s.active
    requires |s.inputPP.items| <= Pending(s.cmds) + 1 && |s.inputRaw.items| <= Pending(s.cmds) + 1
    ensures Awake(WorkerDoNext(s, a)) <==>
            !(s.ongoingJpeg.items == [] && |s.inputJpeg.items| > 1 && !a.encode.Started? && Pending(s.cmds) == 0)
  {
    hide Pending, WorkerDoNext, JpegPhase;
    ActiveWorkerFrame(s, a);
    JpegPhaseQueues(s, a.encode);
  }

  lemma IdleWorkerAwake(s: State, a: Answers)
    requires Uniform(s) && !s.active
    requires |s.inputPP.items| <= Pending(s.cmds) + 1 && |s.inputRaw.items| <= Pending(s.cmds) + 1
    requires |s.inputJpeg.items| <= Pending(s.cmds) + 1
    ensures Awake(WorkerDoNext(s, a))
  {
    hide Pending;
  }

  lemma StopAwake(s: State)
    requires Uniform(s)
    ensures Awake(WorkerStop(s))
  {
  }

  lemma WorkerAwake(s: State, a: Answers)
    requires Uniform(s) && Awake(s)
    ensures Awake(WorkerStep(s, a)) <==> !Stalls(s, Worker(a))
  {
    hide WorkerDoNext;
    if s.cmds != [] && s.running {
      var s1 := s.(cmds := s.cmds[1..]);
      if s.cmds[0].DoNextJob? {
        if s.active { ActiveWorkerAwake(s1, a); } else { IdleWorkerAwake(s1, a); }
      } else if s.cmds[0].StopProc? {
        StopAwake(s1);
      }
      hide WorkerStop;
    }
  }

  /** A step keeps the worker awake exactly when it is not the stalling one. */
  lemma AwakeStep(s: State, e: Event)
    requires Uniform(s) && Awake(s)
    ensures Awake(Next(s, e)) <==> !Stalls(s, e)
  {
    hide Awake, Uniform, WorkerStep, DataCall, PPResultCall, JpegEventCall, EnqueueRaw, StartCall;
    match e
    case Worker(a) => WorkerAwake(s, a);
    case ProcessData(frame, needReprocess, nv16, alloc) => DataAwake(s, frame, needReprocess, nv16, alloc);
    case PPResult(reproc, toRaw, alloc) => PPResultAwake(s, reproc, toRaw, alloc);
    case JpegEvent(jobId) => JpegEventAwake(s, jobId);
    case ProcessRaw(frame) => RawCallAwake(s, frame);
    case Start(needReproc, channelOk) => StartAwake(s, needReproc, channelOk);
    case Stop => PriorityAwake(s, StopProc);
    case Deinit => PriorityAwake(s, Exit);
  }

  ghost predicate NeverStalls(t: Trace<Event>) {
    match t
    case Begin => true
    case Then(before, e) => NeverStalls(before) && !Stalls(Run(before), e)
  }

  /** No wake-up is ever lost in a run without the stalling step. */
  lemma {:induction false} NoLostWakeUp(t: Trace<Event>)
    requires NeverStalls(t)
    ensures Awake(Run(t))
    ensures Run(t).active && Run(t).inputJpeg.items != [] && Run(t).ongoingJpeg.items == [] ==>
              DoNextJob in Run(t).cmds
  {
    if t.Then? {
      NoLostWakeUp(t.before);
      RunUniform(t.before);
      AwakeStep(Run(t.before), t.event);
    }
    PendingMember(Run(t).cmds);
  }

  /** An active worker with a waiting job and an idle encoder has a command on its way. */
  predicate WakeOk(s: State) {
    s.active && s.inputJpeg.items != [] && s.ongoingJpeg.items == [] ==> DoNextJob in s.cmds
  }

  predicate AlwaysWakeOk(t: Trace<Event>) {
    match t
    case Begin => WakeOk(Initial)
    case Then(before, e) => AlwaysWakeOk(before) && WakeOk(Run(t))
  }

  lemma {:induction false} NonePending(cmds: seq<Cmd>)
    ensures Pending(cmds) == 0 <==> DoNextJob !in cmds
  {
    if cmds != [] {
      NonePending(cmds[1..]);
    }
  }

  /** The stalling step does lose the wake-up. */
  lemma StallBreaks(s: State, e: Event)
    requires Uniform(s) && Stalls(s, e)
    ensures !WakeOk(Next(s, e))
  {
    var s1 := s.(cmds := s.cmds[1..]);
    NonePending(s1.cmds);
    hide WorkerDoNext, JpegPhase;
    ActiveWorkerFrame(s1, e.answers);
    JpegPhaseQueues(s1, e.answers.encode);
  }

  /** No wake-up is lost in the whole of a run exactly when it has no stalling step. */
  lemma {:induction false} AlwaysWakeOkIff(t: Trace<Event>)
    ensures AlwaysWakeOk(t) <==> NeverStalls(t)
  {
    if t.Then? {
      AlwaysWakeOkIff(t.before);
      RunUniform(t.before);
      hide Run, Next, Stalls;
      if NeverStalls(t) {
        NoLostWakeUp(t);
      } else if NeverStalls(t.before) {
        RunLast(t.before, t.event);
        StallBreaks(Run(t.before), t.event);
      }
    }
  }

  lemma RunLast(t: Trace<Event>, e: Event)
    ensures Run(Then(t, e)) == Next(Run(t), e)
  {
  }

  lemma {:induction false} PendingMember(cmds: seq<Cmd>)
    ensures Pending(cmds) > 0 ==> DoNextJob in cmds
  {
    if cmds != [] {
      PendingMember(cmds[1..]);
    }
  }

  /** An active post-processor with nothing to do but JPEG jobs, and no command waiting. */
  ghost predicate Settled(s: State) {
    && Uniform(s) && s.inputPP.active && s.inputPP.items == [] && s.inputRaw.items == []
    && s.active && s.running && s.cmds == []
  }

  lemma PictureArrives(s: State, frame: Frame, a: Answers)
    requires Settled(s) && a.encode.Started?
    requires s.ongoingJpeg.items == [] ==> s.inputJpeg.items == []
    ensures var s' := Next(Next(s, ProcessData(frame, false, false, true)), Worker(a));
            && Settled(s')
            && s'.ongoingJpeg.items ==
                 (if s.ongoingJpeg.items == [] then [JpegJob(a.encode.jobId, frame, None)] else s.ongoingJpeg.items)
            && |s'.inputJpeg.items| == |s.inputJpeg.items| + if s.ongoingJpeg.items == [] then 0 else 1
  {
    PictureQueued(s, frame);
    var s1 := Next(s, ProcessData(frame, false, false, true));
    hide JpegPhase, WorkerDoNext, DataCall;
    DoNextTaken(s1, a);
    ActiveWorkerFrame(s1.(cmds := []), a);
    ActiveWorkerSettled(s1.(cmds := []), a);
    JpegPhaseQueues(s1.(cmds := []), a.encode);
  }

  lemma PictureQueued(s: State, frame: Frame)
    requires Settled(s)
    ensures Next(s, ProcessData(frame, false, false, true)) ==
            s.(inputJpeg := Queue(s.inputJpeg.items + [JpegJob(0, frame, None)], true), cmds := [DoNextJob])
  {
  }

  lemma DoNextTaken(s: State, a: Answers)
    requires s.running && s.cmds == [DoNextJob]
    ensures Next(s, Worker(a)) == WorkerDoNext(s.(cmds := []), a)
  {
    assert s.cmds[1..] == [];
    hide WorkerDoNext;
  }

  lemma ActiveWorkerSettled(s: State, a: Answers)
    requires Settled(s)
    ensures Settled(WorkerDoNext(s, a))
  {
    WorkerDoNextUniform(s, a);
    hide JpegPhase, RawPhase, PPPhase, Uniform;
    JpegPhaseFrame(s, a.encode);
    RawPhaseFrame(JpegPhase(s, a.encode), a.raw);
    PPPhaseFrame(RawPhase(JpegPhase(s, a.encode), a.raw), a.ppAlloc, a.reprocess);
  }

  lemma EventFreesEncoder(s: State, id: nat)
    requires Settled(s) && |s.ongoingJpeg.items| == 1 && id != 0
    ensures var s' := Next(s, JpegEvent(id));
            && Uniform(s') && s'.active && s'.running && s'.cmds == [DoNextJob]
            && s'.inputJpeg == s.inputJpeg && s'.ongoingJpeg.items == []
  {
  }

  lemma RefusalStalls(s: State, id: nat, a: Answers)
    requires Settled(s) && |s.ongoingJpeg.items| == 1 && |s.inputJpeg.items| > 1
    requires id != 0 && !a.encode.Started?
    ensures var s' := Next(Next(s, JpegEvent(id)), Worker(a));
            s'.active && s'.cmds == [] && s'.inputJpeg.items != [] && s'.ongoingJpeg.items == []
  {
    EventFreesEncoder(s, id);
    var s1 := Next(s, JpegEvent(id));
    hide JpegPhase, WorkerDoNext, JpegEventCall, Settled, Next;
    var s2 := s1.(cmds := []);
    DoNextTaken(s1, a);
    ActiveWorkerFrame(s2, a);
    JpegPhaseQueues(s2, a.encode);
  }

  function OneMore(t: Trace<Event>, frame: Frame, a: Answers): Trace<Event> {
    Then(Then(t, ProcessData(frame, false, false, true)), Worker(a))
  }

  /** Three pictures; the encoder takes the first and refuses the second. */
  function ThreePictures(taken: Answers): Trace<Event> {
    OneMore(OneMore(OneMore(Then(Then(Begin, Start(false, true)), Worker(taken)),
                            Camera(1), taken), Camera(2), taken), Camera(3), taken)
  }

  function StallingRun(taken: Answers, refused: Answers): Trace<Event>
    requires taken.encode.Started?
  {
    Then(Then(ThreePictures(taken), JpegEvent(taken.encode.jobId)), Worker(refused))
  }

  lemma OneMoreArrives(t: Trace<Event>, frame: Frame, a: Answers)
    requires Settled(Run(t)) && a.encode.Started?
    requires Run(t).ongoingJpeg.items == [] ==> Run(t).inputJpeg.items == []
    ensures var s, s' := Run(t), Run(OneMore(t, frame, a));
            && Settled(s')
            && |s'.ongoingJpeg.items| == (if s.ongoingJpeg.items == [] then 1 else |s.ongoingJpeg.items|)
            && |s'.inputJpeg.items| == |s.inputJpeg.items| + if s.ongoingJpeg.items == [] then 0 else 1
  {
    hide Settled, Next;
    PictureArrives(Run(t), frame, a);
  }

  lemma ThreePicturesWait(a: Answers)
    requires a.encode.Started?
    ensures var s := Run(ThreePictures(a));
            Settled(s) && |s.ongoingJpeg.items| == 1 && |s.inputJpeg.items| == 2
  {
    var t := Then(Then(Begin, Start(false, true)), Worker(a));
    assert Run(t.before).cmds == [StartProc];
    assert Settled(Run(t)) && Run(t).ongoingJpeg.items == [] && Run(t).inputJpeg.items == [];
    hide Settled, Run, OneMore;
    OneMoreArrives(t, Camera(1), a);
    OneMoreArrives(OneMore(t, Camera(1), a), Camera(2), a);
    OneMoreArrives(OneMore(OneMore(t, Camera(1), a), Camera(2), a), Camera(3), a);
  }

  /** The stalling step happens: the worker is active, a job waits, no job is being encoded
      and no command is on its way. */
  lemma StallHappens(taken: Answers, refused: Answers)
    requires taken.encode.Started? && taken.encode.jobId != 0 && !refused.encode.Started?
    ensures var s := Run(StallingRun(taken, refused));
            s.active && s.cmds == [] && s.inputJpeg.items != [] && s.ongoingJpeg.items == []
  {
    hide Settled, Next, ThreePictures;
    ThreePicturesWait(taken);
    RefusalStalls(Run(ThreePictures(taken)), taken.encode.jobId, refused);
  }

  // ---------- one JPEG job ----------

  /** What the encoder is trusted with: start_job gives new, non-zero ids, and an event is
      about a job that was started and neither reported nor aborted. */
  ghost predicate EncoderOk(s: State, e: Event) {
    && (e.JpegEvent? ==> e.evtJob in s.encoder)
    && (e.Worker? && e.answers.encode.Started? ==>
          e.answers.encode.jobId != 0 && e.answers.encode.jobId !in s.encoder)
  }

  /** At most one job is being encoded, and it is the only one the encoder knows. */
  ghost predicate OneJob(s: State) {
    || (s.ongoingJpeg.items == [] && s.encoder == {})
    || (|s.ongoingJpeg.items| == 1 && s.ongoingJpeg.items[0].jobId != 0
        && s.encoder == {s.ongoingJpeg.items[0].jobId})
  }

  lemma WorkerKeepsOneJob(s: State, a: Answers)
    requires Uniform(s) && OneJob(s) && EncoderOk(s, Worker(a))
    ensures OneJob(WorkerDoNext(s, a))
  {
    if s.active {
      hide JpegPhase, WorkerDoNext;
      ActiveWorkerFrame(s, a);
      JpegPhaseQueues(s, a.encode);
    }
  }

  lemma WorkerStepKeepsOneJob(s: State, a: Answers)
    requires Uniform(s) && OneJob(s) && EncoderOk(s, Worker(a))
    ensures OneJob(WorkerStep(s, a))
  {
    if s.cmds != [] && s.cmds[0].DoNextJob? {
      WorkerKeepsOneJob(s.(cmds := s.cmds[1..]), a);
    }
    hide WorkerDoNext, Uniform;
  }

  lemma OneJobStep(s: State, e: Event)
    requires Uniform(s) && OneJob(s) && EncoderOk(s, e)
    ensures OneJob(Next(s, e))
  {
    hide WorkerStep, DataCall, EnqueueRaw, PPResultCall, StartCall;
    if e.Worker? {
      WorkerStepKeepsOneJob(s, e.answers);
    } else if !e.JpegEvent? {
      OtherCallsKeepJobs(s, e);
    }
  }

  lemma OtherCallsKeepJobs(s: State, e: Event)
    requires !e.Worker? && !e.JpegEvent?
    ensures Next(s, e).ongoingJpeg == s.ongoingJpeg && Next(s, e).encoder == s.encoder
  {
    if e.ProcessData? {
      hide WorkerStep, PPResultCall;
    } else if e.PPResult? {
      hide DataCall, WorkerStep;
    } else {
      hide DataCall, WorkerStep, PPResultCall;
    }
  }

  ghost predicate EncoderKeepsContract(t: Trace<Event>) {
    match t
    case Begin => true
    case Then(before, e) => EncoderKeepsContract(before) && EncoderOk(Run(before), e)
  }

  /** The head of the ongoing queue is the job any event is about. */
  lemma {:induction false} EventFindsItsJob(t: Trace<Event>, jobId: nat)
    requires EncoderKeepsContract(t)
    ensures |Run(t).ongoingJpeg.items| <= 1
    ensures jobId in Run(t).encoder ==>
              Run(t).ongoingJpeg.Head().Some? && Run(t).ongoingJpeg.Head().value.jobId == jobId
  {
    RunOneJob(t);
    RunUniform(t);
  }

  lemma {:induction false} RunOneJob(t: Trace<Event>)
    requires EncoderKeepsContract(t)
    ensures OneJob(Run(t))
  {
    if t.Then? {
      RunOneJob(t.before);
      RunUniform(t.before);
      OneJobStep(Run(t.before), t.event);
    }
  }

  // ---------- pairing ----------

  /** The backend answers accepted requests in order, each with a frame made from its source. */
  ghost predicate BackendOk(s: State, e: Event) {
    e.PPResult? ==> s.backend != [] && e.reproc.Reprocessed? && e.reproc.source == s.backend[0]
  }

  predicate JobPaired(j: JpegJob) {
    j.reprocSrc.Some? ==> j.src.Reprocessed? && j.src.source == j.reprocSrc.value
  }

  /** The ongoing queue mirrors the backend, and every job built so far is paired. */
  ghost predicate Paired(s: State) {
    && s.ongoingPP.items == s.backend
    && (forall j | j in s.inputJpeg.items :: JobPaired(j))
    && (forall j | j in s.ongoingJpeg.items :: JobPaired(j))
  }

  /** start() replacing a reprocess channel that still owes answers. */
  predicate Restarts(s: State, e: Event) {
    e.Start? && e.needReproc && s.backend != []
  }

  lemma PPPhasePaired(s: State, alloc: bool, accepted: bool)
    requires Uniform(s) && Paired(s)
    ensures Paired(PPPhase(s, alloc, accepted))
  {
  }

  lemma WorkerPaired(s: State, a: Answers)
    requires Uniform(s) && Paired(s)
    ensures Paired(WorkerDoNext(s, a))
  {
    if s.active {
      hide JpegPhase, RawPhase, PPPhase, Uniform;
      var s1 := JpegPhase(s, a.encode);
      JpegPhaseFrame(s, a.encode);
      JpegPhaseQueues(s, a.encode);
      JpegPhaseUniform(s, a.encode);
      assert s.inputJpeg.items != [] ==> s.inputJpeg.items[0] in s.inputJpeg.items;
      assert Paired(s1);
      RawPhaseFrame(s1, a.raw);
      RawPhaseUniform(s1, a.raw);
      PPPhasePaired(RawPhase(s1, a.raw), a.ppAlloc, a.reprocess);
    }
  }

  lemma PPResultPaired(s: State, reproc: Frame, toRaw: bool, alloc: bool)
    requires Uniform(s) && Paired(s) && BackendOk(s, PPResult(reproc, toRaw, alloc))
    ensures Paired(PPResultCall(s, reproc, toRaw, alloc))
  {
  }

  lemma CommandsPaired(s: State, e: Event)
    requires Paired(s) && (e.Start? || e.Stop? || e.Deinit?)
    ensures Paired(Next(s, e)) <==> !Restarts(s, e)
  {
  }

  lemma JpegEventPaired(s: State, jobId: nat)
    requires Paired(s)
    ensures Paired(JpegEventCall(s, jobId))
  {
  }

  lemma DataPaired(s: State, frame: Frame, needReprocess: bool, nv16: bool, alloc: bool)
    requires Paired(s)
    ensures Paired(DataCall(s, frame, needReprocess, nv16, alloc))
  {
  }

  lemma WorkerStepPaired(s: State, a: Answers)
    requires Uniform(s) && Paired(s)
    ensures Paired(WorkerStep(s, a))
  {
    if s.cmds != [] && s.cmds[0].DoNextJob? {
      WorkerPaired(s.(cmds := s.cmds[1..]), a);
    }
    hide WorkerDoNext;
  }

  /** A step keeps the pairing exactly when it does not replace a channel that owes answers. */
  lemma PairedStep(s: State, e: Event)
    requires Uniform(s) && Paired(s) && BackendOk(s, e)
    ensures Paired(Next(s, e)) <==> !Restarts(s, e)
  {
    hide WorkerStep, PPResultCall, JpegEventCall, DataCall, StartCall, Uniform;
    match e
    case Worker(a) => WorkerStepPaired(s, a);
    case PPResult(reproc, toRaw, alloc) => PPResultPaired(s, reproc, toRaw, alloc);
    case JpegEvent(jobId) => JpegEventPaired(s, jobId);
    case ProcessData(frame, needReprocess, nv16, alloc) => DataPaired(s, frame, needReprocess, nv16, alloc);
    case ProcessRaw(frame) =>
    case _ => CommandsPaired(s, e);
  }

  ghost predicate BackendInOrder(t: Trace<Event>) {
    match t
    case Begin => true
    case Then(before, e) => BackendInOrder(before) && BackendOk(Run(before), e)
  }

  ghost predicate NeverRestarts(t: Trace<Event>) {
    match t
    case Begin => true
    case Then(before, e) => NeverRestarts(before) && !Restarts(Run(before), e)
  }

  /** Refused requests notwithstanding, every JPEG job built from a reprocessed frame joins it
      with the frame it was made from. */
  lemma {:induction false} PairedRun(t: Trace<Event>)
    requires BackendInOrder(t) && NeverRestarts(t)
    ensures Paired(Run(t))
  {
    if t.Then? {
      PairedRun(t.before);
      RunUniform(t.before);
      PairedStep(Run(t.before), t.event);
    }
  }

  function ChannelStarted(t: Trace<Event>, a: Answers): Trace<Event> {
    Then(Then(t, Start(true, true)), Worker(a))
  }

  function Submitted(t: Trace<Event>, frame: Frame, a: Answers): Trace<Event> {
    Then(Then(t, ProcessData(frame, true, false, true)), Worker(a))
  }

  // A reprocess channel is started, takes one frame, and is replaced before it answers.
  function RestartedRun(a: Answers): Trace<Event> {
    var first := Submitted(ChannelStarted(Begin, a), Camera(1), a);
    var second := Submitted(ChannelStarted(first, a), Camera(2), a);
    Then(second, PPResult(Reprocessed(3, Camera(2)), false, true))
  }

  lemma ChannelStartedState(t: Trace<Event>, a: Answers)
    requires Run(t).cmds == [] && Run(t).running && BackendInOrder(t)
    ensures Run(ChannelStarted(t, a)) ==
            Run(t).(active := true, needNewSess := true, reprocChannel := true, backend := [])
    ensures BackendInOrder(ChannelStarted(t, a))
  {
  }

  lemma FrameGoesToBackend(s: State, frame: Frame, a: Answers)
    requires Uniform(s) && s.inputPP == Queue([], true) && s.inputRaw.items == []
    requires s.inputJpeg.items == [] && s.active && s.running && s.cmds == [] && s.reprocChannel
    requires a.ppAlloc && a.reprocess
    ensures Next(Next(s, ProcessData(frame, true, false, true)), Worker(a)) ==
            s.(ongoingPP := Queue(s.ongoingPP.items + [frame], true), backend := s.backend + [frame])
  {
  }

  lemma SubmittedState(t: Trace<Event>, frame: Frame, a: Answers)
    requires var s := Run(t);
             Uniform(s) && s.inputPP == Queue([], true) && s.inputRaw.items == [] &&
             s.inputJpeg.items == [] && s.active && s.running && s.cmds == [] && s.reprocChannel
    requires a.ppAlloc && a.reprocess && BackendInOrder(t)
    ensures Run(Submitted(t, frame, a)) ==
            Run(t).(ongoingPP := Queue(Run(t).ongoingPP.items + [frame], true), backend := Run(t).backend + [frame])
    ensures BackendInOrder(Submitted(t, frame, a))
  {
    hide Next;
    FrameGoesToBackend(Run(t), frame, a);
  }

  /** The pairing does break on a restart: frame 1's source joins frame 2's result, although
      the backend kept its contract. */
  lemma RestartBreaksPairing(a: Answers)
    requires a.ppAlloc && a.reprocess
    ensures BackendInOrder(RestartedRun(a))
    ensures Run(RestartedRun(a)).inputJpeg.items ==
            [JpegJob(0, Reprocessed(3, Camera(2)), Some(Camera(1)))]
  {
    var t1 := ChannelStarted(Begin, a);
    ChannelStartedState(Begin, a);
    var t2 := Submitted(t1, Camera(1), a);
    SubmittedState(t1, Camera(1), a);
    assert [] + [Camera(1)] == [Camera(1)] && [] + [Camera(2)] == [Camera(2)];
    var t3 := ChannelStarted(t2, a);
    ChannelStartedState(t2, a);
    var t4 := Submitted(t3, Camera(2), a);
    SubmittedState(t3, Camera(2), a);
    hide ChannelStarted, Submitted;
    assert Run(t4).backend == [Camera(2)] && Run(t4).ongoingPP == Queue([Camera(1), Camera(2)], true);
    assert RestartedRun(a) == Then(t4, PPResult(Reprocessed(3, Camera(2)), false, true));
  }
}
