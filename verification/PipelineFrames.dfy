/** Conservation of frames over every run of the post-processor. */
module PipelineFrames {
  import opened Common
  import opened Queues
  import opened Pipeline

  // The accounting is done for one frame at a time.

  /** Occurrences of a frame in the five queues. */
  function Held(s: State, f: Frame): nat {
    Times(s.inputPP.items, f) + Times(s.ongoingPP.items, f) + Times(s.inputRaw.items, f)
    + Times(JobsFrames(s.inputJpeg.items), f) + Times(JobsFrames(s.ongoingJpeg.items), f)
  }

  /** Occurrences of a frame anywhere the post-processor can still account for. */
  function Tracked(s: State, f: Frame): nat {
    Held(s, f) + Times(s.released, f) + Times(s.handedOff, f)
  }

  /** Frames handed in by one step. */
  function Arriving(e: Event): seq<Frame> {
    match e
    case ProcessData(frame, _, _, _) => [frame]
    case ProcessRaw(frame) => [frame]
    case PPResult(reproc, _, _) => [reproc]
    case _ => []
  }

  /** Whether the worker's next command is DO_NEXT_JOB, run while active. */
  predicate RunsJobs(s: State) {
    s.running && s.cmds != [] && s.cmds[0].DoNextJob? && s.active
  }

  /** Frames one step drops: neither kept, nor given back, nor passed on. Each case is a
      guard a caller could check: a queue already flushed, an allocation that fails, a
      reprocess result nobody waits for, a raw frame the notifier does not take. */
  function Dropped(s: State, e: Event): seq<Frame> {
    match e
    case ProcessData(frame, needReprocess, nv16, alloc) =>
      if s.inputPP.active && (needReprocess || nv16 || alloc) then [] else [frame]
    case ProcessRaw(frame) => if s.inputPP.active then [] else [frame]
    case PPResult(reproc, toRaw, alloc) =>
      if s.ongoingPP.Head().None? then [reproc]
      else if toRaw || alloc then []
      else [reproc, s.ongoingPP.Head().value]
    case Worker(a) => if RunsJobs(s) then DroppedRaw(s, a.raw) else []
    case _ => []
  }

  function DroppedRaw(s: State, outcome: RawOutcome): seq<Frame> {
    if outcome.RawDropped? && s.inputRaw.Head().Some? then [s.inputRaw.Head().value] else []
  }

  // ---------- one step ----------

  lemma JobsFramesAppend(js: seq<JpegJob>, j: JpegJob, f: Frame)
    ensures Times(JobsFrames(js + [j]), f) == Times(JobsFrames(js), f) + Times(JobFrames(j), f)
  {
    if js == [] {
      assert js + [j] == [j] && JobsFrames([j]) == JobFrames(j) + JobsFrames([]);
      assert JobFrames(j) + [] == JobFrames(j);
    } else {
      assert (js + [j])[0] == js[0] && (js + [j])[1..] == js[1..] + [j];
      JobsFramesAppend(js[1..], j, f);
      TimesAppend(JobFrames(js[0]), JobsFrames(js[1..] + [j]), f);
      TimesAppend(JobFrames(js[0]), JobsFrames(js[1..]), f);
    }
  }

  lemma JobsHeadSplits(q: Queue<JpegJob>, f: Frame)
    ensures q.Head().Some? ==>
              Times(JobsFrames(q.items), f) ==
              Times(JobFrames(q.Head().value), f) + Times(JobsFrames(q.DropHead().items), f)
  {
    if q.Head().Some? {
      TimesAppend(JobFrames(q.items[0]), JobsFrames(q.items[1..]), f);
    }
  }

  lemma HeadSplits(q: Queue<Frame>, f: Frame)
    ensures q.Head().Some? ==> Times(q.items, f) == Times([q.Head().value], f) + Times(q.DropHead().items, f)
  {
  }

  lemma ReleaseTracks(s: State, frames: seq<Frame>, f: Frame)
    ensures Tracked(Release(s, frames), f) == Tracked(s, f) + Times(frames, f)
  {
    TimesAppend(s.released, frames, f);
  }

  lemma JpegPhaseConserves(s: State, o: EncodeOutcome, f: Frame)
    requires Uniform(s)
    ensures Tracked(JpegPhase(s, o), f) == Tracked(s, f)
    ensures JpegPhase(s, o).inputRaw == s.inputRaw
  {
    hide Times, JobsFrames;
    JobsHeadSplits(s.inputJpeg, f);
    if s.ongoingJpeg.items == [] && s.inputJpeg.Head().Some? {
      var job := s.inputJpeg.Head().value;
      if o.Started? {
        var started := job.(jobId := o.jobId);
        JobsFramesAppend(s.ongoingJpeg.items, started, f);
        assert JobFrames(started) == JobFrames(job);
      } else {
        TimesAppend(s.released, JobFrames(job), f);
      }
    }
  }

  lemma RawPhaseConserves(s: State, o: RawOutcome, f: Frame)
    requires Uniform(s)
    ensures Tracked(s, f) == Tracked(RawPhase(s, o), f) + Times(DroppedRaw(s, o), f)
  {
    assert Times([], f) == 0;
    hide Times, JobsFrames;
    HeadSplits(s.inputRaw, f);
    if s.inputRaw.Head().Some? {
      TimesAppend(s.released, [s.inputRaw.Head().value], f);
      TimesAppend(s.handedOff, [s.inputRaw.Head().value], f);
    }
  }

  lemma PPPhaseConserves(s: State, alloc: bool, accepted: bool, f: Frame)
    requires Uniform(s)
    ensures Tracked(PPPhase(s, alloc, accepted), f) == Tracked(s, f)
  {
    hide Times, JobsFrames;
    HeadSplits(s.inputPP, f);
    if s.inputPP.Head().Some? {
      var frame := s.inputPP.Head().value;
      TimesAppend(s.released, [frame], f);
      TimesAppend(s.ongoingPP.items, [frame], f);
      assert (s.ongoingPP.items + [frame])[..|s.ongoingPP.items|] == s.ongoingPP.items;
    }
  }

  lemma DrainJpegConserves(s: State, f: Frame)
    ensures Tracked(DrainJpeg(s), f) == Tracked(s, f)
  {
    hide Times, JobsFrames;
    JobsHeadSplits(s.inputJpeg, f);
    if s.inputJpeg.Head().Some? {
      TimesAppend(s.released, JobFrames(s.inputJpeg.Head().value), f);
    }
  }

  lemma DrainRawConserves(s: State, f: Frame)
    ensures Tracked(DrainRaw(s), f) == Tracked(s, f)
  {
    hide Times, JobsFrames;
    HeadSplits(s.inputRaw, f);
    if s.inputRaw.Head().Some? {
      TimesAppend(s.released, [s.inputRaw.Head().value], f);
    }
  }

  lemma DrainPPConserves(s: State, f: Frame)
    ensures Tracked(DrainPP(s), f) == Tracked(s, f)
  {
    hide Times, JobsFrames;
    HeadSplits(s.inputPP, f);
    if s.inputPP.Head().Some? {
      TimesAppend(s.released, [s.inputPP.Head().value], f);
    }
  }

  /** Once STOP has run, every frame that was in a queue has been released. */
  lemma StopReleasesAll(s: State, f: Frame)
    requires Uniform(s)
    ensures Held(WorkerStop(s), f) == 0
    ensures Times(WorkerStop(s).released, f) == Times(s.released, f) + Held(s, f)
    ensures Tracked(WorkerStop(s), f) == Tracked(s, f)
  {
    var r1 := s.released + JobsFrames(s.ongoingJpeg.items);
    var r2 := r1 + s.ongoingPP.FlushedItems();
    var r3 := r2 + JobsFrames(s.inputJpeg.FlushedItems());
    var r4 := r3 + s.inputPP.FlushedItems();
    assert Times([], f) == 0 && JobsFrames([]) == [];
    hide Times, JobsFrames;
    TimesAppend(s.released, JobsFrames(s.ongoingJpeg.items), f);
    TimesAppend(r1, s.ongoingPP.FlushedItems(), f);
    TimesAppend(r2, JobsFrames(s.inputJpeg.FlushedItems()), f);
    TimesAppend(r3, s.inputPP.FlushedItems(), f);
    TimesAppend(r4, s.inputRaw.FlushedItems(), f);
  }

  lemma WorkerDoNextConserves(s: State, a: Answers, f: Frame)
    requires Uniform(s)
    ensures Tracked(s, f) ==
            Tracked(WorkerDoNext(s, a), f) + Times(if s.active then DroppedRaw(s, a.raw) else [], f)
  {
    assert Times([], f) == 0;
    hide JpegPhase, RawPhase, PPPhase, DrainJpeg, DrainRaw, DrainPP, Uniform, Tracked, Times;
    if s.active {
      JpegPhaseConserves(s, a.encode, f);
      JpegPhaseUniform(s, a.encode);
      var s1 := JpegPhase(s, a.encode);
      RawPhaseConserves(s1, a.raw, f);
      RawPhaseUniform(s1, a.raw);
      PPPhaseConserves(RawPhase(s1, a.raw), a.ppAlloc, a.reprocess, f);
    } else {
      DrainJpegConserves(s, f);
      DrainRawConserves(DrainJpeg(s), f);
      DrainPPConserves(DrainRaw(DrainJpeg(s)), f);
    }
  }

  /** Tracking depends on the queues and the two logs alone. */
  lemma ControlIsNotTracked(s: State, t: State, f: Frame)
    requires t == s.(cmds := t.cmds, running := t.running, active := t.active, needNewSess := t.needNewSess,
                     reprocChannel := t.reprocChannel, backend := t.backend)
    ensures Tracked(t, f) == Tracked(s, f)
  {
  }

  lemma WorkerConserves(s: State, a: Answers, f: Frame)
    requires Uniform(s)
    ensures Tracked(s, f) == Tracked(WorkerStep(s, a), f) + Times(Dropped(s, Worker(a)), f)
  {
    assert Times([], f) == 0;
    hide WorkerDoNext, WorkerStop, Times, Tracked;
    if s.cmds != [] && s.running {
      var s1 := s.(cmds := s.cmds[1..]);
      ControlIsNotTracked(s, s1, f);
      match s.cmds[0]
      case DoNextJob => WorkerDoNextConserves(s1, a, f);
      case StopProc => StopReleasesAll(s1, f);
      case _ => ControlIsNotTracked(s, WorkerStep(s, a), f);
    }
  }

  lemma RawCallConserves(s: State, frame: Frame, f: Frame)
    requires Uniform(s)
    ensures Tracked(s, f) + Times([frame], f) ==
            Tracked(EnqueueRaw(s, frame), f) + Times(if s.inputRaw.active then [] else [frame], f)
  {
    assert Times([], f) == 0;
    hide Times, JobsFrames;
    TimesAppend(s.inputRaw.items, [frame], f);
  }

  lemma JpegCallConserves(s: State, job: JpegJob, f: Frame)
    ensures Tracked(s, f) + Times(JobFrames(job), f) ==
            Tracked(SendDoNext(s.(inputJpeg := s.inputJpeg.Enqueue(job))), f)
            + Times(if s.inputJpeg.active then [] else JobFrames(job), f)
  {
    assert Times([], f) == 0;
    hide Times, JobsFrames;
    JobsFramesAppend(s.inputJpeg.items, job, f);
  }

  lemma PPCallConserves(s: State, frame: Frame, f: Frame)
    ensures Tracked(s, f) + Times([frame], f) ==
            Tracked(SendDoNext(s.(inputPP := s.inputPP.Enqueue(frame))), f)
            + Times(if s.inputPP.active then [] else [frame], f)
  {
    assert Times([], f) == 0;
    hide Times, JobsFrames;
    TimesAppend(s.inputPP.items, [frame], f);
  }

  lemma DataCallConserves(s: State, frame: Frame, needReprocess: bool, nv16: bool, alloc: bool, f: Frame)
    requires Uniform(s)
    ensures Tracked(s, f) + Times([frame], f) ==
            Tracked(DataCall(s, frame, needReprocess, nv16, alloc), f)
            + Times(Dropped(s, ProcessData(frame, needReprocess, nv16, alloc)), f)
  {
    var job := JpegJob(0, frame, None);
    assert JobFrames(job) == [frame];
    assert s.inputPP.active == s.inputRaw.active == s.inputJpeg.active;
    assert Tracked(SendDoNext(EnqueueRaw(s, frame)), f) == Tracked(EnqueueRaw(s, frame), f);
    hide Times, JobsFrames, Tracked, EnqueueRaw, SendDoNext, JobFrames;
    if needReprocess {
      PPCallConserves(s, frame, f);
    } else if nv16 {
      RawCallConserves(s, frame, f);
    } else if alloc {
      JpegCallConserves(s, job, f);
    }
  }

  lemma PairTimes(a: Frame, b: Frame, f: Frame)
    ensures Times([a, b], f) == Times([a], f) + Times([b], f)
  {
  }

  lemma TakeAnsweredTracks(s: State, f: Frame)
    requires Uniform(s)
    ensures Uniform(TakeAnswered(s))
    ensures Tracked(s, f) == Tracked(TakeAnswered(s), f) +
              if s.ongoingPP.Head().Some? then Times([s.ongoingPP.Head().value], f) else 0
  {
  }

  lemma DeliverConserves(s: State, src: Frame, reproc: Frame, toRaw: bool, alloc: bool, f: Frame)
    requires Uniform(s) && s.inputJpeg.active
    ensures Tracked(s, f) + Times([reproc], f) + Times([src], f) ==
            Tracked(Deliver(s, src, reproc, toRaw, alloc), f)
            + Times(if toRaw || alloc then [] else [reproc, src], f)
  {
    assert Times([], f) == 0;
    PairTimes(reproc, src, f);
    PairTimes(src, reproc, f);
    if toRaw {
      assert Uniform(Release(s, [src])) && s.inputRaw.active;
      hide Times, Tracked, EnqueueRaw;
      ReleaseTracks(s, [src], f);
      RawCallConserves(Release(s, [src]), reproc, f);
    } else if alloc {
      var job := JpegJob(0, reproc, Some(src));
      assert JobFrames(job) == [src, reproc];
      hide Times, Tracked;
      JpegCallConserves(s, job, f);
    }
  }

  lemma PPResultConserves(s: State, reproc: Frame, toRaw: bool, alloc: bool, f: Frame)
    requires Uniform(s)
    ensures Tracked(s, f) + Times([reproc], f) ==
            Tracked(PPResultCall(s, reproc, toRaw, alloc), f) + Times(Dropped(s, PPResult(reproc, toRaw, alloc)), f)
  {
    hide Times, Tracked, Deliver;
    TakeAnsweredTracks(s, f);
    if s.ongoingPP.Head().Some? {
      DeliverConserves(TakeAnswered(s), s.ongoingPP.Head().value, reproc, toRaw, alloc, f);
    }
  }

  lemma JpegEventConserves(s: State, jobId: nat, f: Frame)
    requires Uniform(s)
    ensures Tracked(JpegEventCall(s, jobId), f) == Tracked(s, f)
  {
    hide Times, JobsFrames;
    JobsHeadSplits(s.ongoingJpeg, f);
    if s.ongoingJpeg.Head().Some? {
      TimesAppend(s.released, JobFrames(s.ongoingJpeg.Head().value), f);
    }
  }

  lemma SendsOnly(s: State, e: Event, f: Frame)
    requires e.Start? || e.Stop? || e.Deinit?
    ensures Tracked(Next(s, e), f) == Tracked(s, f)
  {
    hide Tracked;
    ControlIsNotTracked(s, Next(s, e), f);
  }

  /** One step accounts for every frame it had or was given. */
  lemma StepConserves(s: State, e: Event, f: Frame)
    requires Uniform(s)
    ensures Tracked(s, f) + Times(Arriving(e), f) == Tracked(Next(s, e), f) + Times(Dropped(s, e), f)
  {
    assert Times([], f) == 0;
    assert s.inputRaw.active == s.inputPP.active;
    hide WorkerStep, DataCall, PPResultCall, JpegEventCall, EnqueueRaw, StartCall, Times, Tracked;
    match e
    case Worker(answers) => WorkerConserves(s, answers, f);
    case ProcessData(frame, needReprocess, nv16, alloc) => DataCallConserves(s, frame, needReprocess, nv16, alloc, f);
    case PPResult(reproc, toRaw, alloc) => PPResultConserves(s, reproc, toRaw, alloc, f);
    case JpegEvent(jobId) => JpegEventConserves(s, jobId, f);
    case ProcessRaw(frame) => RawCallConserves(s, frame, f);
    case _ => SendsOnly(s, e, f);
  }

  // ---------- every run ----------

  function ArrivedIn(t: Trace<Event>): seq<Frame> {
    match t
    case Begin => []
    case Then(before, e) => ArrivedIn(before) + Arriving(e)
  }

  function DroppedIn(t: Trace<Event>): seq<Frame> {
    match t
    case Begin => []
    case Then(before, e) => DroppedIn(before) + Dropped(Run(before), e)
  }

  /** Over any run, each frame handed in is held, released, passed on or dropped, once for
      each time it was handed in. */
  lemma {:induction false} RunConserves(t: Trace<Event>, f: Frame)
    ensures Tracked(Run(t), f) + Times(DroppedIn(t), f) == Times(ArrivedIn(t), f)
  {
    if t.Then? {
      var before, e := t.before, t.event;
      RunConserves(before, f);
      RunUniform(before);
      hide Times, Tracked, Next, Dropped, Arriving;
      StepConserves(Run(before), e, f);
      TimesAppend(ArrivedIn(before), Arriving(e), f);
      TimesAppend(DroppedIn(before), Dropped(Run(before), e), f);
    }
  }

  /** A frame handed in once is in exactly one place, and is never released twice. */
  lemma OnePlace(t: Trace<Event>, f: Frame)
    requires Times(ArrivedIn(t), f) == 1
    ensures var s := Run(t);
            Held(s, f) + Times(s.released, f) + Times(s.handedOff, f) + Times(DroppedIn(t), f) == 1
    ensures Times(Run(t).released, f) == 1 ==> Held(Run(t), f) == 0
  {
    hide Times, Run, ArrivedIn, DroppedIn;
    RunConserves(t, f);
  }

  ghost predicate NeverDrops(t: Trace<Event>) {
    match t
    case Begin => true
    case Then(before, e) => NeverDrops(before) && Dropped(Run(before), e) == []
  }

  lemma {:induction false} NeverDropsMeansNoneDropped(t: Trace<Event>)
    ensures NeverDrops(t) <==> DroppedIn(t) == []
  {
    if t.Then? {
      NeverDropsMeansNoneDropped(t.before);
    }
  }

  lemma SomeTimes(frames: seq<Frame>)
    ensures frames != [] ==> Times(frames, frames[0]) > 0
    ensures frames == [] ==> forall f :: Times(frames, f) == 0
  {
  }

  /** Whether the worker has taken up a STOP in the course of a run. */
  predicate StopSeen(t: Trace<Event>) {
    match t
    case Begin => false
    case Then(before, e) => StopSeen(before) || ProcessesStop(Run(before), e)
  }

  /** The queues are active exactly until the first STOP is taken up. */
  lemma {:induction false} ActiveUntilStop(t: Trace<Event>)
    ensures Run(t).inputPP.active <==> !StopSeen(t)
  {
    if t.Then? {
      ActiveUntilStop(t.before);
      RunUniform(t.before);
      NextKeepsUniform(Run(t.before), t.event);
    }
  }

  /** What it takes for an event to lose no frame: no STOP has been taken up before a frame is
      handed in, its job can be allocated, a reprocess result answers a request, and a raw frame is
      passed on or refused with an error.
   */
  predicate Safe(t: Trace<Event>, e: Event) {
    match e
    case ProcessData(_, needReprocess, nv16, alloc) => !StopSeen(t) && (needReprocess || nv16 || alloc)
    case ProcessRaw(_) => !StopSeen(t)
    case PPResult(_, toRaw, alloc) => Run(t).ongoingPP.items != [] && (toRaw || alloc)
    case Worker(a) => a.raw.RawDropped? && RunsJobs(Run(t)) ==> Run(t).inputRaw.items == []
    case _ => true
  }

  ghost predicate AlwaysSafe(t: Trace<Event>) {
    match t
    case Begin => true
    case Then(before, e) => AlwaysSafe(before) && Safe(before, e)
  }

  lemma SafeIff(t: Trace<Event>, e: Event)
    ensures Safe(t, e) <==> Dropped(Run(t), e) == []
  {
    ActiveUntilStop(t);
    RunUniform(t);
    hide Run, StopSeen;
  }

  lemma {:induction false} AlwaysSafeIff(t: Trace<Event>)
    ensures AlwaysSafe(t) <==> NeverDrops(t)
  {
    if t.Then? {
      AlwaysSafeIff(t.before);
      SafeIff(t.before, t.event);
    }
  }

  /** No frame is ever unaccounted for if and only if every event of the run is safe: in particular
      no frame is handed in once the worker has taken up a STOP.
   */
  lemma NothingLostIff(t: Trace<Event>)
    ensures (forall f :: Tracked(Run(t), f) == Times(ArrivedIn(t), f)) <==> AlwaysSafe(t)
  {
    AlwaysSafeIff(t);
    NeverDropsMeansNoneDropped(t);
    SomeTimes(DroppedIn(t));
    hide Times, Run, ArrivedIn, DroppedIn, NeverDrops, Tracked, AlwaysSafe;
    forall f ensures Tracked(Run(t), f) + Times(DroppedIn(t), f) == Times(ArrivedIn(t), f) {
      RunConserves(t, f);
    }
    if DroppedIn(t) != [] {
      assert Tracked(Run(t), DroppedIn(t)[0]) != Times(ArrivedIn(t), DroppedIn(t)[0]);
    }
  }

  // ---------- after the first STOP ----------

  ghost predicate Dead(s: State) {
    Uniform(s) && !s.inputPP.active && s.ongoingJpeg.items == []
  }

  /** Processing STOP empties every queue, releases what they held, and kills the pipeline. */
  lemma StopKills(s: State, a: Answers)
    requires Uniform(s) && s.running && s.cmds != [] && s.cmds[0].StopProc?
    ensures Dead(Next(s, Worker(a)))
    ensures forall f :: Held(Next(s, Worker(a)), f) == 0
    ensures forall f :: Times(Next(s, Worker(a)).released, f) == Times(s.released, f) + Held(s, f)
  {
    var s1 := s.(cmds := s.cmds[1..]);
    forall f
      ensures Held(WorkerStop(s1), f) == 0
      ensures Times(WorkerStop(s1).released, f) == Times(s.released, f) + Held(s, f)
    {
      StopReleasesAll(s1, f);
    }
  }

  lemma NextKeepsDead(s: State, e: Event)
    requires Dead(s)
    ensures Dead(Next(s, e)) && Dropped(s, e) == Arriving(e)
  {
    NextKeepsUniform(s, e);
    if e.Worker? && s.running && s.cmds != [] && s.cmds[0].DoNextJob? {
      DeadWorkerIdles(s.(cmds := s.cmds[1..]), e.answers);
    }
  }

  lemma DeadWorkerIdles(s: State, a: Answers)
    requires Dead(s)
    ensures WorkerDoNext(s, a) == s
  {
  }

  /** From then on nothing is ever held, and every frame handed in, in any later session, is
      dropped: the queues are never made active again. */
  lemma {:induction false} DeadForGood(t: Trace<Event>, later: Trace<Event>)
    requires Dead(Run(t))
    ensures Dead(Run(t.Followed(later)))
    ensures DroppedIn(t.Followed(later)) == DroppedIn(t) + ArrivedIn(later)
  {
    if later.Then? {
      DeadForGood(t, later.before);
      NextKeepsDead(Run(t.Followed(later.before)), later.event);
    }
  }

  /** A second session loses its first picture. */
  lemma SecondSessionLosesFrame(a: Answers)
    ensures var stopped := Then(Then(Begin, Stop), Worker(a));
            var restarted := Then(Then(stopped, Start(false, true)), Worker(a));
            var t := Then(restarted, ProcessData(Camera(1), false, false, true));
            Run(t).active && DroppedIn(t) == [Camera(1)] && ArrivedIn(t) == [Camera(1)]
  {
    var t1 := Then(Begin, Stop);
    var t2 := Then(t1, Worker(a));
    var t3 := Then(t2, Start(false, true));
    var t4 := Then(t3, Worker(a));
    assert Run(t1) == Initial.(cmds := [StopProc]);
    StopKills(Run(t1), a);
    assert Run(t2).cmds == [] && Run(t2).running;
    NextKeepsDead(Run(t2), t3.event);
    assert Run(t3).cmds == [StartProc] && Run(t3).running;
    NextKeepsDead(Run(t3), t4.event);
    assert Run(t4).active;
    NextKeepsDead(Run(t4), ProcessData(Camera(1), false, false, true));
    assert DroppedIn(t1) == [] && DroppedIn(t2) == [] && DroppedIn(t3) == [] && DroppedIn(t4) == [];
    assert ArrivedIn(t1) == [] && ArrivedIn(t2) == [] && ArrivedIn(t3) == [] && ArrivedIn(t4) == [];
  }
}
