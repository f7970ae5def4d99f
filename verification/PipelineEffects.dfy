/** What each event does to the post-processor, told from the event and the state alone, and what
    becomes of a reprocess request over a whole run.
 */
module PipelineEffects {
  import opened Common
  import opened Queues
  import opened Pipeline
  import opened PipelineFrames
  import opened PipelineProtocol

  // ---------- the worker, running jobs ----------

  /** A job is handed to the encoder when it is idle and one waits. */
  predicate TakesJob(s: State) { s.ongoingJpeg.items == [] && s.inputJpeg.items != [] }

  /** A reprocess request is made and accepted. */
  predicate AcceptsRequest(s: State, a: Answers) { a.ppAlloc && s.reprocChannel && a.reprocess }

  /** The frames of a job: the one it was reprocessed from, if any, and then the frame itself. */
  lemma JobFramesAre(j: JpegJob)
    ensures JobFrames(j) == if j.reprocSrc.Some? then [j.reprocSrc.value, j.src] else [j.src]
  {
  }

  /** Reprocessing: the head of the input is submitted, and is with the backend and in the ongoing
      queue exactly if the request is accepted; otherwise it is released and both are as before.
   */
  lemma ReprocessEffect(s: State, a: Answers)
    requires Uniform(s) && RunsJobs(s) && s.inputPP.items != []
    ensures var s', f := Next(s, Worker(a)), s.inputPP.items[0];
            && s'.inputPP.items == s.inputPP.items[1..]
            && if AcceptsRequest(s, a) then
                 s'.ongoingPP.items == s.ongoingPP.items + [f] && s'.backend == s.backend + [f]
               else
                 && s'.ongoingPP == s.ongoingPP && s'.backend == s.backend
                 && s'.released != [] && s'.released[|s'.released| - 1] == f
  {
    var s0 := s.(cmds := s.cmds[1..]);
    assert Uniform(s0);
    hide Uniform, JpegPhase, RawPhase;
    var s1 := JpegPhase(s0, a.encode);
    JpegPhaseFrame(s0, a.encode);
    JpegPhaseUniform(s0, a.encode);
    RawPhaseFrame(s1, a.raw);
    RawPhaseUniform(s1, a.raw);
    hide PPPhase;
    PPPhaseEffect(RawPhase(s1, a.raw), a);
  }

  lemma PPPhaseEffect(s: State, a: Answers)
    requires Uniform(s)
    ensures var s' := PPPhase(s, a.ppAlloc, a.reprocess);
            if s.inputPP.items == [] then s' == s
            else
              var f := s.inputPP.items[0];
              && s'.inputPP.items == s.inputPP.items[1..]
              && if AcceptsRequest(s, a) then
                   && s'.ongoingPP.items == s.ongoingPP.items + [f] && s'.backend == s.backend + [f]
                   && s'.released == s.released
                 else
                   && s'.ongoingPP == s.ongoingPP && s'.backend == s.backend
                   && s'.released == s.released + [f]
  {
    if s.inputPP.items != [] {
      var f := s.inputPP.items[0];
      assert (s.ongoingPP.items + [f])[..|s.ongoingPP.items|] == s.ongoingPP.items;
    }
  }

  /** Without a frame to reprocess, both are as before. */
  lemma NoReprocessEffect(s: State, a: Answers)
    requires Uniform(s) && RunsJobs(s) && s.inputPP.items == []
    ensures var s' := Next(s, Worker(a));
            s'.inputPP.items == [] && s'.ongoingPP == s.ongoingPP && s'.backend == s.backend
  {
    var s0 := s.(cmds := s.cmds[1..]);
    assert Uniform(s0);
    hide Uniform, JpegPhase, RawPhase, PPPhase;
    var s1 := JpegPhase(s0, a.encode);
    JpegPhaseFrame(s0, a.encode);
    JpegPhaseUniform(s0, a.encode);
    RawPhaseFrame(s1, a.raw);
    RawPhaseUniform(s1, a.raw);
    PPPhaseEffect(RawPhase(s1, a.raw), a);
  }

  /** JPEG: an idle encoder is given the head of the input, under its id, if it starts; a session is
      made only when one is needed, and kept even if the job then does not start.
   */
  lemma JpegEffect(s: State, a: Answers)
    requires Uniform(s) && RunsJobs(s)
    ensures var s', o := Next(s, Worker(a)), a.encode;
            if !TakesJob(s) then
              && s'.inputJpeg == s.inputJpeg && s'.ongoingJpeg == s.ongoingJpeg && s'.encoder == s.encoder
              && s'.needNewSess == s.needNewSess && s'.session == s.session
            else
              && s'.inputJpeg.items == s.inputJpeg.items[1..]
              && s'.ongoingJpeg.items == (if o.Started? then [s.inputJpeg.items[0].(jobId := o.jobId)] else [])
              && s'.encoder == (if o.Started? then s.encoder + {o.jobId} else s.encoder)
              && s'.needNewSess == (s.needNewSess && o.NotReady?)
              && s'.session == (if !s.needNewSess || o.NotReady? then s.session
                                else if o.Started? then o.newSession else o.session)
  {
    var s0 := s.(cmds := s.cmds[1..]);
    assert Uniform(s0);
    JpegPhaseQueues(s0, a.encode);
    JpegPhaseSession(s0, a.encode);
    hide Uniform, JpegPhase, RawPhase, PPPhase;
    var s1 := JpegPhase(s0, a.encode);
    var s2 := RawPhase(s1, a.raw);
    RawPhaseFrame(s1, a.raw);
    RawPhaseSession(s1, a.raw);
    PPPhaseFrame(s2, a.ppAlloc, a.reprocess);
    PPPhaseSession(s2, a.ppAlloc, a.reprocess);
  }

  lemma JpegPhaseSession(s: State, o: EncodeOutcome)
    requires Uniform(s)
    ensures var s' := JpegPhase(s, o);
            if !TakesJob(s) then s'.needNewSess == s.needNewSess && s'.session == s.session
            else
              && s'.needNewSess == (s.needNewSess && o.NotReady?)
              && s'.session == (if !s.needNewSess || o.NotReady? then s.session
                                else if o.Started? then o.newSession else o.session)
  {
  }

  lemma RawPhaseSession(s: State, o: RawOutcome)
    ensures RawPhase(s, o).needNewSess == s.needNewSess && RawPhase(s, o).session == s.session
  {
  }

  lemma PPPhaseSession(s: State, alloc: bool, accepted: bool)
    ensures PPPhase(s, alloc, accepted).needNewSess == s.needNewSess
    ensures PPPhase(s, alloc, accepted).session == s.session
    ensures PPPhase(s, alloc, accepted).handedOff == s.handedOff
  {
  }

  /** Raw: the head of the input goes to the notifier if it is passed on. */
  lemma RawEffect(s: State, a: Answers)
    requires Uniform(s) && RunsJobs(s)
    ensures var s' := Next(s, Worker(a));
            if s.inputRaw.items == [] then s'.inputRaw == s.inputRaw && s'.handedOff == s.handedOff
            else
              && s'.inputRaw.items == s.inputRaw.items[1..]
              && s'.handedOff == s.handedOff + if a.raw.RawPassedOn? then [s.inputRaw.items[0]] else []
  {
    var s0 := s.(cmds := s.cmds[1..]);
    assert Uniform(s0);
    hide JpegPhase, RawPhase, PPPhase;
    var s1 := JpegPhase(s0, a.encode);
    var s2 := RawPhase(s1, a.raw);
    JpegPhaseFrame(s0, a.encode);
    JpegPhaseReleases(s0, a.encode);
    RawPhaseReleases(s1, a.raw);
    PPPhaseFrame(s2, a.ppAlloc, a.reprocess);
    PPPhaseSession(s2, a.ppAlloc, a.reprocess);
  }

  lemma JpegPhaseReleases(s: State, o: EncodeOutcome)
    requires Uniform(s)
    ensures JpegPhase(s, o).released == s.released + GivenUp(s, o) && JpegPhase(s, o).handedOff == s.handedOff
  {
  }

  /** The frames of a job that does not start. */
  function GivenUp(s: State, o: EncodeOutcome): seq<Frame> {
    if TakesJob(s) && !o.Started? then JobFrames(s.inputJpeg.items[0]) else []
  }

  lemma RawPhaseReleases(s: State, o: RawOutcome)
    requires s.inputRaw.active || s.inputRaw.items == []
    ensures var s' := RawPhase(s, o);
            if s.inputRaw.items == [] then s' == s
            else
              && s'.inputRaw.items == s.inputRaw.items[1..]
              && s'.released == s.released + (if o.RawError? then [s.inputRaw.items[0]] else [])
              && s'.handedOff == s.handedOff + if o.RawPassedOn? then [s.inputRaw.items[0]] else []
  {
  }

  /** What is released: the frames of a job that does not start, a raw frame in error, and a frame
      whose request is not accepted, in this order, and nothing else.
   */
  lemma ReleaseEffect(s: State, a: Answers)
    requires Uniform(s) && RunsJobs(s)
    ensures Next(s, Worker(a)).released ==
            s.released + GivenUp(s, a.encode)
            + (if s.inputRaw.items != [] && a.raw.RawError? then [s.inputRaw.items[0]] else [])
            + (if s.inputPP.items != [] && !AcceptsRequest(s, a) then [s.inputPP.items[0]] else [])
  {
    var s0 := s.(cmds := s.cmds[1..]);
    assert Uniform(s0);
    assert s.inputRaw.active || s.inputRaw.items == [];
    hide Uniform, JpegPhase, RawPhase, PPPhase, GivenUp;
    var s1 := JpegPhase(s0, a.encode);
    var s2 := RawPhase(s1, a.raw);
    JpegPhaseFrame(s0, a.encode);
    JpegPhaseUniform(s0, a.encode);
    JpegPhaseReleases(s0, a.encode);
    RawPhaseFrame(s1, a.raw);
    RawPhaseUniform(s1, a.raw);
    RawPhaseReleases(s1, a.raw);
    PPPhaseEffect(s2, a);
    assert GivenUp(s0, a.encode) == GivenUp(s, a.encode) by { GivenUpSame(s, s0, a.encode); }
  }

  lemma GivenUpSame(s: State, s0: State, o: EncodeOutcome)
    requires s0.inputJpeg == s.inputJpeg && s0.ongoingJpeg == s.ongoingJpeg
    ensures GivenUp(s0, o) == GivenUp(s, o)
  {
  }

  /** And what no command touches while it runs jobs. */
  lemma RunningEffect(s: State, a: Answers)
    requires RunsJobs(s)
    ensures var s' := Next(s, Worker(a));
            && s'.cmds == s.cmds[1..] && s'.running && s'.active
            && s'.reprocChannel == s.reprocChannel
  {
    var s0 := s.(cmds := s.cmds[1..]);
    hide JpegPhase, RawPhase, PPPhase;
    JpegPhaseFrame(s0, a.encode);
    RawPhaseFrame(JpegPhase(s0, a.encode), a.raw);
    PPPhaseFrame(RawPhase(JpegPhase(s0, a.encode), a.raw), a.ppAlloc, a.reprocess);
    PPPhaseChannel(RawPhase(JpegPhase(s0, a.encode), a.raw), a.ppAlloc, a.reprocess);
  }

  lemma PPPhaseChannel(s: State, alloc: bool, accepted: bool)
    ensures PPPhase(s, alloc, accepted).reprocChannel == s.reprocChannel
  {
  }

  // ---------- the worker's other commands ----------

  /** Inactive, a DO_NEXT_JOB gives one buffer of each kind back, and does no more. */
  lemma IdleEffect(s: State, a: Answers)
    requires Uniform(s) && s.running && !s.active && s.cmds != [] && s.cmds[0].DoNextJob?
    ensures Next(s, Worker(a)) ==
            s.(cmds := s.cmds[1..],
               inputJpeg := Behind(s.inputJpeg), inputRaw := Behind(s.inputRaw), inputPP := Behind(s.inputPP),
               released := s.released
                 + (if s.inputJpeg.items == [] then [] else JobFrames(s.inputJpeg.items[0]))
                 + First(s.inputRaw.items) + First(s.inputPP.items))
  {
    var s1 := s.(cmds := s.cmds[1..]);
    assert Uniform(s1);
    DrainsAre(s1);
    hide DrainJpeg, DrainRaw, DrainPP, JobFrames, Uniform;
  }

  lemma DrainsAre(s: State)
    requires Uniform(s)
    ensures DrainPP(DrainRaw(DrainJpeg(s))) ==
            s.(inputJpeg := Behind(s.inputJpeg), inputRaw := Behind(s.inputRaw), inputPP := Behind(s.inputPP),
               released := s.released
                 + (if s.inputJpeg.items == [] then [] else JobFrames(s.inputJpeg.items[0]))
                 + First(s.inputRaw.items) + First(s.inputPP.items))
  {
    var s1 := DrainJpeg(s);
    DrainJpegIs(s);
    DrainRawIs(s1);
    DrainPPIs(DrainRaw(s1));
    hide DrainJpeg, DrainRaw, DrainPP, JobFrames, Behind, First;
  }

  lemma DrainJpegIs(s: State)
    requires s.inputJpeg.active || s.inputJpeg.items == []
    ensures DrainJpeg(s) ==
            s.(inputJpeg := Behind(s.inputJpeg),
               released := s.released + if s.inputJpeg.items == [] then [] else JobFrames(s.inputJpeg.items[0]))
  {
    hide JobFrames;
  }

  lemma DrainRawIs(s: State)
    requires s.inputRaw.active || s.inputRaw.items == []
    ensures DrainRaw(s) == s.(inputRaw := Behind(s.inputRaw), released := s.released + First(s.inputRaw.items))
  {
  }

  lemma DrainPPIs(s: State)
    requires s.inputPP.active || s.inputPP.items == []
    ensures DrainPP(s) == s.(inputPP := Behind(s.inputPP), released := s.released + First(s.inputPP.items))
  {
  }

  function First<T(==)>(s: seq<T>): seq<T> { if s == [] then [] else [s[0]] }

  function Behind<T(==)>(q: Queue<T>): Queue<T> { if q.items == [] then q else Queue(q.items[1..], q.active) }

  /** START makes the worker active and calls for a new session. */
  lemma StartEffect(s: State, a: Answers)
    requires s.running && s.cmds != [] && s.cmds[0].StartProc?
    ensures Next(s, Worker(a)) == s.(cmds := s.cmds[1..], active := true, needNewSess := true)
  {
    hide WorkerDoNext, WorkerStop;
  }

  /** The jobs of the encoder that are not those of a queue. */
  function NotAmong(encoder: set<nat>, jobs: seq<JpegJob>): set<nat> {
    set id | id in encoder && forall j | j in jobs :: j.jobId != id
  }

  /** STOP aborts the jobs the encoder has, ends the session, deletes the reprocess channel, and gives
      everything back: first what the encoder had, then what waited for the backend's answers, for the
      encoder, for the backend, and raw.
   */
  lemma StopEffect(s: State, a: Answers)
    requires Uniform(s) && s.running && s.cmds != [] && s.cmds[0].StopProc?
    ensures Next(s, Worker(a)) ==
            s.(cmds := s.cmds[1..], active := false, needNewSess := true, session := 0,
               reprocChannel := false, backend := [],
               encoder := NotAmong(s.encoder, s.ongoingJpeg.items),
               inputPP := Queue([], false), ongoingPP := Queue([], false), inputJpeg := Queue([], false),
               ongoingJpeg := Queue([], true), inputRaw := Queue([], false),
               released := s.released + JobsFrames(s.ongoingJpeg.items) + s.ongoingPP.items
                 + JobsFrames(s.inputJpeg.items) + s.inputPP.items + s.inputRaw.items)
  {
    assert JobsFrames([]) == [];
    hide WorkerDoNext, JobsFrames;
    var s' := Next(s, Worker(a));
    assert s'.encoder == NotAmong(s.encoder, s.ongoingJpeg.items);
  }

  /** EXIT ends the worker: from then on its turns change nothing. */
  lemma ExitEffect(s: State, a: Answers)
    requires s.running && s.cmds != [] && s.cmds[0].Exit?
    ensures Next(s, Worker(a)) == s.(cmds := s.cmds[1..], running := false)
  {
    hide WorkerDoNext, WorkerStop;
  }

  lemma NoTurn(s: State, a: Answers)
    requires !s.running || s.cmds == []
    ensures Next(s, Worker(a)) == s
  {
  }

  // ---------- the calls of other threads ----------

  /** A frame that needs reprocessing goes to the backend's input, an NV16 frame to the raw input, and
      any other becomes a JPEG job; the worker is told, of a raw frame twice.
   */
  lemma DataEffect(s: State, frame: Frame, needReprocess: bool, nv16: bool, alloc: bool)
    requires Uniform(s) && s.inputPP.active
    ensures Next(s, ProcessData(frame, needReprocess, nv16, alloc)) ==
            if needReprocess then
              s.(inputPP := Queue(s.inputPP.items + [frame], true), cmds := s.cmds + [DoNextJob])
            else if nv16 then
              s.(inputRaw := Queue(s.inputRaw.items + [frame], true), cmds := s.cmds + [DoNextJob, DoNextJob])
            else if alloc then
              s.(inputJpeg := Queue(s.inputJpeg.items + [JpegJob(0, frame, None)], true), cmds := s.cmds + [DoNextJob])
            else s
  {
    hide WorkerStep, PPResultCall, JpegEventCall, StartCall;
    assert s.cmds + [DoNextJob] + [DoNextJob] == s.cmds + [DoNextJob, DoNextJob];
  }

  lemma RawCallEffect(s: State, frame: Frame)
    requires Uniform(s) && s.inputPP.active
    ensures Next(s, ProcessRaw(frame)) ==
            s.(inputRaw := Queue(s.inputRaw.items + [frame], true), cmds := s.cmds + [DoNextJob])
  {
    hide WorkerStep, PPResultCall, JpegEventCall, StartCall, DataCall;
  }

  /** A result answers the oldest request: it becomes a JPEG job with that request's frame; or, raw, it
      goes to the raw input and the request's frame is released.
   */
  lemma ResultEffect(s: State, reproc: Frame, toRaw: bool, alloc: bool)
    requires Uniform(s) && s.ongoingPP.items != []
    ensures var src := s.ongoingPP.items[0];
            var s1 := s.(ongoingPP := Queue(s.ongoingPP.items[1..], true),
                         backend := if s.backend == [] then [] else s.backend[1..]);
            Next(s, PPResult(reproc, toRaw, alloc)) ==
            if toRaw then
              s1.(inputRaw := Queue(s.inputRaw.items + [reproc], true), released := s.released + [src],
                  cmds := s.cmds + [DoNextJob])
            else if alloc then
              s1.(inputJpeg := Queue(s.inputJpeg.items + [JpegJob(0, reproc, Some(src))], true),
                  cmds := s.cmds + [DoNextJob])
            else s1
  {
    hide WorkerStep, JpegEventCall, StartCall, DataCall;
  }

  /** A result without a request is of no effect but on the backend. */
  lemma StrayResultEffect(s: State, reproc: Frame, toRaw: bool, alloc: bool)
    requires s.ongoingPP.items == []
    ensures Next(s, PPResult(reproc, toRaw, alloc)) == s.(backend := if s.backend == [] then [] else s.backend[1..])
  {
    hide WorkerStep, JpegEventCall, StartCall, DataCall, Deliver;
  }

  /** The end of a JPEG job: it leaves the encoder and the ongoing queue, its frames are released, and
      the worker is told.
   */
  lemma JpegEventEffect(s: State, jobId: nat)
    requires Uniform(s) && jobId != 0 && s.ongoingJpeg.items != []
    ensures Next(s, JpegEvent(jobId)) ==
            s.(encoder := s.encoder - {jobId}, ongoingJpeg := Queue(s.ongoingJpeg.items[1..], true),
               released := s.released + JobFrames(s.ongoingJpeg.items[0]), cmds := s.cmds + [DoNextJob])
  {
    hide WorkerStep, PPResultCall, StartCall, DataCall, JobFrames;
  }

  /** An event about no job only tells the worker. */
  lemma NoJobEffect(s: State, jobId: nat)
    requires jobId == 0 || s.ongoingJpeg.items == []
    ensures Next(s, JpegEvent(jobId)) == s.(encoder := s.encoder - {jobId}, cmds := s.cmds + [DoNextJob])
  {
    hide WorkerStep, PPResultCall, StartCall, DataCall;
  }

  /** start(): an old reprocess channel goes, with the requests it owes; START is sent unless a new
      channel is needed and cannot be made. stop() and deinit() go first.
   */
  lemma ControlEffect(s: State, needReproc: bool, channelOk: bool)
    ensures Next(s, Start(needReproc, channelOk)) ==
            if !needReproc then s.(cmds := s.cmds + [StartProc])
            else if channelOk then s.(reprocChannel := true, backend := [], cmds := s.cmds + [StartProc])
            else s.(reprocChannel := false, backend := [])
    ensures Next(s, Stop) == s.(cmds := [StopProc] + s.cmds)
    ensures Next(s, Deinit) == s.(cmds := [Exit] + s.cmds)
  {
    hide WorkerStep, PPResultCall, DataCall, JpegEventCall;
  }

  // ---------- requests over a run ----------

  /** The frame a step submits for reprocessing, if any. */
  function Submitting(s: State, e: Event): seq<Frame> {
    if e.Worker? && RunsJobs(s) && s.inputPP.items != [] then [s.inputPP.items[0]] else []
  }

  predicate Accepting(s: State, e: Event) { e.Worker? && AcceptsRequest(s, e.answers) }

  /** The frames submitted in a run and accepted, and those refused, each in order. */
  function AcceptedIn(t: Trace<Event>): seq<Frame> {
    match t
    case Begin => []
    case Then(before, e) =>
      AcceptedIn(before) + if Accepting(Run(before), e) then Submitting(Run(before), e) else []
  }

  function RefusedIn(t: Trace<Event>): seq<Frame> {
    match t
    case Begin => []
    case Then(before, e) =>
      RefusedIn(before) + if Accepting(Run(before), e) then [] else Submitting(Run(before), e)
  }

  /** The end of a sequence. */
  predicate Ends<T(==)>(s: seq<T>, tail: seq<T>) { |tail| <= |s| && s[|s| - |tail|..] == tail }

  /** A queue that x has joined, if not empty, or that has been emptied or lost its head. */
  predicate Moved<T(==)>(q: seq<T>, x: seq<T>, q': seq<T>) {
    q' == q + x || (x == [] && q' == []) || (x == [] && q != [] && q' == q[1..])
  }

  lemma EndsMoved<T>(s: seq<T>, q: seq<T>, x: seq<T>, q': seq<T>)
    requires Ends(s, q) && Moved(q, x, q')
    ensures Ends(s + x, q')
  {
    if q' == q + x {
      assert (s + x)[|s| - |q|..] == s[|s| - |q|..] + x;
    } else {
      assert s + x == s;
      if q' != [] {
        assert s[|s| - |q|..][1..] == q[1..];
      }
    }
  }

  lemma QueuedEffect(s: State, e: Event)
    requires Uniform(s)
    ensures Moved(s.ongoingPP.items, if Accepting(s, e) then Submitting(s, e) else [], Next(s, e).ongoingPP.items)
  {
    match e
    case Worker(a) =>
      if s.running && s.cmds != [] {
        match s.cmds[0]
        case StartProc => StartEffect(s, a);
        case StopProc => StopEffect(s, a);
        case Exit => ExitEffect(s, a);
        case DoNextJob =>
          if s.active {
            RequestEffect(s, a);
          } else {
            IdleEffect(s, a);
          }
      } else {
        NoTurn(s, a);
      }
    case PPResult(reproc, toRaw, alloc) =>
      if s.ongoingPP.items != [] {
        ResultEffect(s, reproc, toRaw, alloc);
      } else {
        StrayResultEffect(s, reproc, toRaw, alloc);
      }
    case _ => OngoingUntouched(s, e);
    hide Next, Uniform;
  }

  lemma RequestEffect(s: State, a: Answers)
    requires Uniform(s) && RunsJobs(s)
    ensures Next(s, Worker(a)).ongoingPP.items ==
            s.ongoingPP.items + if AcceptsRequest(s, a) then Submitting(s, Worker(a)) else []
  {
    hide Next, Uniform;
    if s.inputPP.items != [] {
      ReprocessEffect(s, a);
    } else {
      NoReprocessEffect(s, a);
    }
  }

  lemma OngoingUntouched(s: State, e: Event)
    requires !e.Worker? && !e.PPResult?
    ensures Next(s, e).ongoingPP == s.ongoingPP
  {
    hide WorkerStep, PPResultCall;
  }

  /** The ongoing queue only ever holds frames that were submitted and accepted: the last of them, in
      the order of submission.
   */
  lemma {:induction false} OngoingIsAccepted(t: Trace<Event>)
    ensures Ends(AcceptedIn(t), Run(t).ongoingPP.items)
  {
    if t.Then? {
      var s := Run(t.before);
      OngoingIsAccepted(t.before);
      RunUniform(t.before);
      QueuedEffect(s, t.event);
      var x := if Accepting(s, t.event) then Submitting(s, t.event) else [];
      EndsMoved(AcceptedIn(t.before), s.ongoingPP.items, x, Next(s, t.event).ongoingPP.items);
      hide Next, Uniform, Submitting, Accepting, Ends, Moved;
    }
  }

  lemma ReleasesMore(s: State, e: Event)
    requires Uniform(s)
    ensures s.released <= Next(s, e).released
    ensures Submitting(s, e) != [] && !Accepting(s, e) ==>
              |Next(s, e).released| > |s.released|
              && Next(s, e).released[|Next(s, e).released| - 1] == Submitting(s, e)[0]
  {
    hide Next, Uniform, Submitting, Accepting;
    match e
    case Worker(a) => WorkerReleasesMore(s, a);
    case _ =>
      NotSubmitting(s, e);
      match e
      case PPResult(reproc, toRaw, alloc) => ResultReleases(s, reproc, toRaw, alloc);
      case JpegEvent(jobId) => JpegEventReleases(s, jobId);
      case _ => ReleasedUntouched(s, e);
  }

  lemma NotSubmitting(s: State, e: Event)
    requires !e.Worker?
    ensures Submitting(s, e) == []
  {
  }

  lemma ResultReleases(s: State, reproc: Frame, toRaw: bool, alloc: bool)
    requires Uniform(s)
    ensures s.released <= Next(s, PPResult(reproc, toRaw, alloc)).released
  {
    hide Next;
    if s.ongoingPP.items != [] {
      ResultEffect(s, reproc, toRaw, alloc);
    } else {
      StrayResultEffect(s, reproc, toRaw, alloc);
    }
  }

  lemma WorkerReleasesMore(s: State, a: Answers)
    requires Uniform(s)
    ensures var e := Worker(a);
            var released := Next(s, e).released;
            && s.released <= released
            && (Submitting(s, e) != [] && !Accepting(s, e) ==>
                  |released| > |s.released| && released[|released| - 1] == Submitting(s, e)[0])
  {
    hide Next, Uniform, JobsFrames, JobFrames, GivenUp;
    if !s.running || s.cmds == [] {
      NoTurn(s, a);
    } else {
      match s.cmds[0]
      case StartProc => StartEffect(s, a);
      case StopProc => StopEffect(s, a);
      case Exit => ExitEffect(s, a);
      case DoNextJob =>
        if s.active {
          ReleaseEffect(s, a);
        } else {
          IdleEffect(s, a);
        }
    }
  }

  lemma JpegEventReleases(s: State, jobId: nat)
    ensures s.released <= Next(s, JpegEvent(jobId)).released
  {
    hide JobFrames;
  }

  lemma ReleasedUntouched(s: State, e: Event)
    requires !e.Worker? && !e.PPResult? && !e.JpegEvent?
    ensures Next(s, e).released == s.released
  {
    hide WorkerStep, PPResultCall, JpegEventCall;
  }

  lemma TimesGrow(a: seq<Frame>, b: seq<Frame>, f: Frame)
    requires a <= b
    ensures Times(a, f) <= Times(b, f)
    ensures |b| > |a| && b[|b| - 1] == f ==> Times(a, f) < Times(b, f)
  {
    hide Times;
    var more := b[|a|..];
    assert b == a + more;
    TimesAppend(a, more, f);
    if |b| > |a| && b[|b| - 1] == f {
      TimesLast(more, f);
    }
  }

  lemma TimesLast(s: seq<Frame>, f: Frame)
    requires s != [] && s[|s| - 1] == f
    ensures Times(s, f) > 0
  {
    OneTime(f);
    hide Times;
    assert s == s[..|s| - 1] + [f];
    TimesAppend(s[..|s| - 1], [f], f);
  }

  lemma OneTime(f: Frame)
    ensures Times([f], f) == 1
  {
  }

  lemma RefusedStep(s: State, e: Event, refused: seq<Frame>, f: Frame)
    requires Uniform(s) && Times(refused, f) <= Times(s.released, f)
    ensures Times(refused + if Accepting(s, e) then [] else Submitting(s, e), f) <= Times(Next(s, e).released, f)
  {
    hide Next, Uniform, Submitting, Accepting, Times;
    ReleasesMore(s, e);
    TimesGrow(s.released, Next(s, e).released, f);
    AtMostOne(s, e, f);
    TimesAppend(refused, if Accepting(s, e) then [] else Submitting(s, e), f);
  }

  lemma AtMostOne(s: State, e: Event, f: Frame)
    ensures Times([], f) == 0
    ensures Times(Submitting(s, e), f) == if Submitting(s, e) != [] && Submitting(s, e)[0] == f then 1 else 0
  {
    OneTime(f);
  }

  /** Every frame that was submitted and refused has been released, once for each time. */
  lemma {:induction false} RefusedIsReleased(t: Trace<Event>, f: Frame)
    ensures Times(RefusedIn(t), f) <= Times(Run(t).released, f)
  {
    if t.Then? {
      RefusedIsReleased(t.before, f);
      RunUniform(t.before);
      RefusedStep(Run(t.before), t.event, RefusedIn(t.before), f);
      hide Next, Uniform, Submitting, Accepting, Times;
    }
  }
}
