/** The post-processor as a transition system. A frame passes through at most five queues,
    from the camera to reprocessing, JPEG encoding or raw delivery; a worker thread is driven
    by commands. Each call, encoder event, reprocess result and worker command is one step.
 */
module Pipeline {
  import opened Common
  import opened Queues

  /** A super buffer. `source` records which frame a reprocessed one was made from. */
  datatype Frame = Camera(id: nat) | Reprocessed(rid: nat, source: Frame)

  datatype JpegJob = JpegJob(jobId: nat, src: Frame, reprocSrc: Option<Frame>)

  datatype State = State(
    inputPP: Queue<Frame>,
    ongoingPP: Queue<Frame>,
    inputJpeg: Queue<JpegJob>,
    ongoingJpeg: Queue<JpegJob>,
    inputRaw: Queue<Frame>,
    cmds: seq<Cmd>,
    running: bool,
    active: bool,
    needNewSess: bool,
    session: nat,
    reprocChannel: bool,
    // the surroundings
    encoder: set<nat>,           // jobs the encoder has started and not yet reported or aborted
    backend: seq<Frame>,         // reprocess requests accepted and not yet answered
    released: seq<Frame>,        // frames given back with releaseSuperBuf and freed, in order
    handedOff: seq<Frame>)       // raw frames the notifier will give back

  const Initial: State :=
    State(Queue([], true), Queue([], true), Queue([], true), Queue([], true), Queue([], true),
          [], true, false, true, 0, false, {}, [], [], [])

  datatype EncodeOutcome =
    | NotReady                              // encodeData fails before a session exists
    | SessionOnly(session: nat)             // the session is made if needed, start_job fails
    | Started(newSession: nat, jobId: nat)

  datatype RawOutcome = RawError | RawPassedOn | RawDropped

  /** What the calls made by the worker while it runs one command return. */
  datatype Answers = Answers(encode: EncodeOutcome, raw: RawOutcome, ppAlloc: bool, reprocess: bool)

  datatype Event =
    | Start(needReproc: bool, channelOk: bool)
    | Stop
    | Deinit
    | ProcessData(frame: Frame, needReprocess: bool, nv16: bool, alloc: bool)
    | ProcessRaw(raw: Frame)
    | PPResult(reproc: Frame, toRaw: bool, ppJobAlloc: bool)
    | JpegEvent(evtJob: nat)
    | Worker(answers: Answers)

  // ---------- frames held by jobs and queues ----------

  /** The frames of a job, in the order releaseJpegJobData gives them back. */
  function JobFrames(j: JpegJob): seq<Frame> {
    (if j.reprocSrc.Some? then [j.reprocSrc.value] else []) + [j.src]
  }

  function JobsFrames(js: seq<JpegJob>): seq<Frame> {
    if js == [] then [] else JobFrames(js[0]) + JobsFrames(js[1..])
  }

  function JobIds(js: seq<JpegJob>): set<nat> {
    set j | j in js :: j.jobId
  }

  function Release(s: State, frames: seq<Frame>): State {
    s.(released := s.released + frames)
  }

  // ---------- the steps ----------

  function SendDoNext(s: State): State { s.(cmds := s.cmds + [DoNextJob]) }

  function StartCall(s: State, needReproc: bool, channelOk: bool): State {
    // an old reprocess channel is deleted together with its unanswered requests
    var s1 := if needReproc then s.(reprocChannel := channelOk, backend := []) else s;
    if needReproc && !channelOk then s1 else s1.(cmds := s1.cmds + [StartProc])
  }

  function EnqueueRaw(s: State, frame: Frame): State {
    SendDoNext(s.(inputRaw := s.inputRaw.Enqueue(frame)))
  }

  function DataCall(s: State, frame: Frame, needReprocess: bool, nv16: bool, alloc: bool): State {
    if needReprocess then SendDoNext(s.(inputPP := s.inputPP.Enqueue(frame)))
    else if nv16 then SendDoNext(EnqueueRaw(s, frame))
    else if !alloc then s
    else SendDoNext(s.(inputJpeg := s.inputJpeg.Enqueue(JpegJob(0, frame, None))))
  }

  /** The request at the head of the ongoing queue, and of the backend's, has its answer. */
  function TakeAnswered(s: State): State {
    s.(ongoingPP := s.ongoingPP.DropHead(), backend := if s.backend == [] then [] else s.backend[1..])
  }

  function Deliver(s: State, src: Frame, reproc: Frame, toRaw: bool, alloc: bool): State {
    if toRaw then EnqueueRaw(Release(s, [src]), reproc)
    else if !alloc then s
    else SendDoNext(s.(inputJpeg := s.inputJpeg.Enqueue(JpegJob(0, reproc, Some(src)))))
  }

  function PPResultCall(s: State, reproc: Frame, toRaw: bool, alloc: bool): State {
    if s.ongoingPP.Head().None? then TakeAnswered(s)
    else Deliver(TakeAnswered(s), s.ongoingPP.Head().value, reproc, toRaw, alloc)
  }

  function JpegEventCall(s: State, jobId: nat): State {
    var s1 := s.(encoder := s.encoder - {jobId});
    if jobId == 0 || s.ongoingJpeg.Head().None? then SendDoNext(s1)
    else
      SendDoNext(Release(s1.(ongoingJpeg := s.ongoingJpeg.DropHead()),
                         JobFrames(s.ongoingJpeg.Head().value)))
  }

  function WorkerStop(s: State): State {
    State(
      s.inputPP.Flushed(), s.ongoingPP.Flushed(), s.inputJpeg.Flushed(), Queue([], true), s.inputRaw.Flushed(),
      s.cmds, s.running, false, true, 0, false,
      s.encoder - JobIds(s.ongoingJpeg.items), [],
      s.released + JobsFrames(s.ongoingJpeg.items)
        + s.ongoingPP.FlushedItems() + JobsFrames(s.inputJpeg.FlushedItems())
        + s.inputPP.FlushedItems() + s.inputRaw.FlushedItems(),
      s.handedOff)
  }

  function WithSession(s: State, session: nat): State {
    if s.needNewSess then s.(session := session, needNewSess := false) else s
  }

  function JpegPhase(s: State, outcome: EncodeOutcome): State {
    if s.ongoingJpeg.items != [] || s.inputJpeg.Head().None? then s
    else
      var job := s.inputJpeg.Head().value;
      var s1 := s.(inputJpeg := s.inputJpeg.DropHead());
      match outcome
      case NotReady => Release(s1, JobFrames(job))
      case SessionOnly(session) => Release(WithSession(s1, session), JobFrames(job))
      case Started(session, jobId) =>
        WithSession(s1, session).(ongoingJpeg := s1.ongoingJpeg.Enqueue(job.(jobId := jobId)),
                                  encoder := s1.encoder + {jobId})
  }

  function RawPhase(s: State, outcome: RawOutcome): State {
    if s.inputRaw.Head().None? then s
    else
      var frame := s.inputRaw.Head().value;
      var s1 := s.(inputRaw := s.inputRaw.DropHead());
      match outcome
      case RawError => Release(s1, [frame])
      case RawPassedOn => s1.(handedOff := s1.handedOff + [frame])
      case RawDropped => s1
  }

  function PPPhase(s: State, alloc: bool, accepted: bool): State {
    if s.inputPP.Head().None? then s
    else
      var frame := s.inputPP.Head().value;
      var s1 := s.(inputPP := s.inputPP.DropHead());
      if !alloc || !s.reprocChannel then Release(s1, [frame])
      else
        var s2 := s1.(ongoingPP := s1.ongoingPP.Enqueue(frame));
        if accepted then s2.(backend := s2.backend + [frame])
        // a refused request is taken back from the tail
        else Release(s2.(ongoingPP := s2.ongoingPP.DropTail()), [frame])
  }

  function DrainJpeg(s: State): State {
    if s.inputJpeg.Head().None? then s
    else Release(s.(inputJpeg := s.inputJpeg.DropHead()), JobFrames(s.inputJpeg.Head().value))
  }

  function DrainRaw(s: State): State {
    if s.inputRaw.Head().None? then s
    else Release(s.(inputRaw := s.inputRaw.DropHead()), [s.inputRaw.Head().value])
  }

  function DrainPP(s: State): State {
    if s.inputPP.Head().None? then s
    else Release(s.(inputPP := s.inputPP.DropHead()), [s.inputPP.Head().value])
  }

  function WorkerDoNext(s: State, a: Answers): State {
    if s.active then PPPhase(RawPhase(JpegPhase(s, a.encode), a.raw), a.ppAlloc, a.reprocess)
    else DrainPP(DrainRaw(DrainJpeg(s)))
  }

  function WorkerStep(s: State, a: Answers): State {
    if s.cmds == [] || !s.running then s
    else
      var s1 := s.(cmds := s.cmds[1..]);
      match s.cmds[0]
      case StartProc => s1.(active := true, needNewSess := true)
      case StopProc => WorkerStop(s1)
      case DoNextJob => WorkerDoNext(s1, a)
      case Exit => s1.(running := false)
  }

  function Next(s: State, e: Event): State {
    match e
    case Start(needReproc, channelOk) => StartCall(s, needReproc, channelOk)
    case Stop => s.(cmds := [StopProc] + s.cmds)      // sent with priority
    case Deinit => s.(cmds := [Exit] + s.cmds)        // likewise
    case ProcessData(frame, needReprocess, nv16, alloc) => DataCall(s, frame, needReprocess, nv16, alloc)
    case ProcessRaw(frame) => EnqueueRaw(s, frame)
    case PPResult(reproc, toRaw, alloc) => PPResultCall(s, reproc, toRaw, alloc)
    case JpegEvent(jobId) => JpegEventCall(s, jobId)
    case Worker(answers) => WorkerStep(s, answers)
  }

  function Run(t: Trace<Event>): State {
    match t
    case Begin => Initial
    case Then(before, e) => Next(Run(before), e)
  }

  // ---------- the queues live and die together ----------

  /** Four queues are flushed, hence deactivated, by the first STOP; nothing revives them. */
  ghost predicate Uniform(s: State) {
    && s.inputPP.active == s.ongoingPP.active == s.inputJpeg.active == s.inputRaw.active
    && s.ongoingJpeg.active
    && (!s.inputPP.active ==>
          s.inputPP.items == [] && s.ongoingPP.items == [] && s.inputJpeg.items == [] && s.inputRaw.items == [])
  }

  /** Whether a step is the worker taking up a STOP. */
  predicate ProcessesStop(s: State, e: Event) {
    e.Worker? && s.running && s.cmds != [] && s.cmds[0].StopProc?
  }

  // What each phase of the worker leaves alone.

  lemma JpegPhaseFrame(s: State, o: EncodeOutcome)
    ensures var s' := JpegPhase(s, o);
            && s'.inputPP == s.inputPP && s'.ongoingPP == s.ongoingPP && s'.inputRaw == s.inputRaw
            && s'.cmds == s.cmds && s'.running == s.running && s'.active == s.active
            && s'.reprocChannel == s.reprocChannel && s'.backend == s.backend
  {
  }

  lemma RawPhaseFrame(s: State, o: RawOutcome)
    ensures var s' := RawPhase(s, o);
            && s'.inputRaw == s.inputRaw.DropHead()
            && s'.inputPP == s.inputPP && s'.ongoingPP == s.ongoingPP
            && s'.inputJpeg == s.inputJpeg && s'.ongoingJpeg == s.ongoingJpeg
            && s'.cmds == s.cmds && s'.running == s.running && s'.active == s.active
            && s'.reprocChannel == s.reprocChannel && s'.backend == s.backend && s'.encoder == s.encoder
  {
  }

  lemma PPPhaseFrame(s: State, alloc: bool, accepted: bool)
    ensures var s' := PPPhase(s, alloc, accepted);
            && s'.inputPP == s.inputPP.DropHead()
            && s'.inputRaw == s.inputRaw && s'.inputJpeg == s.inputJpeg && s'.ongoingJpeg == s.ongoingJpeg
            && s'.cmds == s.cmds && s'.running == s.running && s'.active == s.active
            && s'.encoder == s.encoder
  {
  }

  lemma JpegPhaseUniform(s: State, o: EncodeOutcome)
    requires Uniform(s)
    ensures Uniform(JpegPhase(s, o)) && JpegPhase(s, o).inputPP.active == s.inputPP.active
  {
  }

  lemma PPPhaseUniform(s: State, alloc: bool, accepted: bool)
    requires Uniform(s)
    ensures Uniform(PPPhase(s, alloc, accepted)) && PPPhase(s, alloc, accepted).inputPP.active == s.inputPP.active
  {
  }

  lemma RawPhaseUniform(s: State, o: RawOutcome)
    requires Uniform(s)
    ensures Uniform(RawPhase(s, o)) && RawPhase(s, o).inputPP.active == s.inputPP.active
  {
  }

  lemma DrainUniform(s: State)
    requires Uniform(s)
    ensures Uniform(DrainPP(DrainRaw(DrainJpeg(s))))
    ensures DrainPP(DrainRaw(DrainJpeg(s))).inputPP.active == s.inputPP.active
  {
  }

  lemma WorkerDoNextUniform(s: State, a: Answers)
    requires Uniform(s)
    ensures Uniform(WorkerDoNext(s, a)) && WorkerDoNext(s, a).inputPP.active == s.inputPP.active
  {
    hide JpegPhase, RawPhase, PPPhase, DrainJpeg, DrainRaw, DrainPP, Uniform;
    JpegPhaseUniform(s, a.encode);
    RawPhaseUniform(JpegPhase(s, a.encode), a.raw);
    PPPhaseUniform(RawPhase(JpegPhase(s, a.encode), a.raw), a.ppAlloc, a.reprocess);
    DrainUniform(s);
  }

  lemma WorkerUniform(s: State, a: Answers)
    requires Uniform(s)
    ensures Uniform(WorkerStep(s, a))
    ensures WorkerStep(s, a).inputPP.active == (s.inputPP.active && !ProcessesStop(s, Worker(a)))
  {
    hide WorkerDoNext;
    if s.cmds != [] {
      WorkerDoNextUniform(s.(cmds := s.cmds[1..]), a);
    }
  }

  lemma DataCallUniform(s: State, frame: Frame, needReprocess: bool, nv16: bool, alloc: bool)
    requires Uniform(s)
    ensures Uniform(DataCall(s, frame, needReprocess, nv16, alloc))
    ensures DataCall(s, frame, needReprocess, nv16, alloc).inputPP.active == s.inputPP.active
  {
  }

  lemma DeliverUniform(s: State, src: Frame, reproc: Frame, toRaw: bool, alloc: bool)
    requires Uniform(s)
    ensures Uniform(Deliver(s, src, reproc, toRaw, alloc))
    ensures Deliver(s, src, reproc, toRaw, alloc).inputPP.active == s.inputPP.active
  {
  }

  lemma PPResultUniform(s: State, reproc: Frame, toRaw: bool, alloc: bool)
    requires Uniform(s)
    ensures Uniform(PPResultCall(s, reproc, toRaw, alloc))
    ensures PPResultCall(s, reproc, toRaw, alloc).inputPP.active == s.inputPP.active
  {
    hide Deliver;
    assert Uniform(TakeAnswered(s));
    if s.ongoingPP.Head().Some? {
      DeliverUniform(TakeAnswered(s), s.ongoingPP.Head().value, reproc, toRaw, alloc);
    }
  }

  lemma StartUniform(s: State, needReproc: bool, channelOk: bool)
    requires Uniform(s)
    ensures Uniform(StartCall(s, needReproc, channelOk))
    ensures StartCall(s, needReproc, channelOk).inputPP.active == s.inputPP.active
  {
  }

  lemma RawUniform(s: State, frame: Frame)
    requires Uniform(s)
    ensures Uniform(EnqueueRaw(s, frame)) && EnqueueRaw(s, frame).inputPP.active == s.inputPP.active
  {
  }

  lemma JpegEventUniform(s: State, jobId: nat)
    requires Uniform(s)
    ensures Uniform(JpegEventCall(s, jobId)) && JpegEventCall(s, jobId).inputPP.active == s.inputPP.active
  {
  }

  lemma SendUniform(s: State, cmds: seq<Cmd>)
    requires Uniform(s)
    ensures Uniform(s.(cmds := cmds))
  {
  }

  lemma NextKeepsUniform(s: State, e: Event)
    requires Uniform(s)
    ensures Uniform(Next(s, e))
    ensures Next(s, e).inputPP.active == (s.inputPP.active && !ProcessesStop(s, e))
  {
    hide WorkerStep, DataCall, PPResultCall, Uniform, StartCall, EnqueueRaw, JpegEventCall;
    match e
    case Worker(answers) => WorkerUniform(s, answers);
    case ProcessData(frame, needReprocess, nv16, alloc) => DataCallUniform(s, frame, needReprocess, nv16, alloc);
    case PPResult(reproc, toRaw, alloc) => PPResultUniform(s, reproc, toRaw, alloc);
    case Start(needReproc, channelOk) => StartUniform(s, needReproc, channelOk);
    case ProcessRaw(frame) => RawUniform(s, frame);
    case JpegEvent(jobId) => JpegEventUniform(s, jobId);
    case Stop => SendUniform(s, [StopProc] + s.cmds);
    case Deinit => SendUniform(s, [Exit] + s.cmds);
  }

  lemma {:induction false} RunUniform(t: Trace<Event>)
    ensures Uniform(Run(t))
  {
    if t.Then? {
      RunUniform(t.before);
      NextKeepsUniform(Run(t.before), t.event);
    }
  }
}
