/** The post-processor object: five queues, a command queue and the worker's local variables.
    Every method is a step of Pipeline, so the properties proved there are properties of any
    interleaving of these methods. What the outside world answers comes in as parameters.
 */
module PostProc {
  import opened Common
  import opened Queues
  import opened Pipeline
  import opened EncodeInput

  const NO_ERROR := 0
  const BAD_VALUE := -22
  const NO_MEMORY := -12
  const UNKNOWN_ERROR := -2147483648

  class QCameraPostProcessor {
    const m_inputPPQ: QCameraQueue<Frame>
    const m_ongoingPPQ: QCameraQueue<Frame>
    const m_inputJpegQ: QCameraQueue<JpegJob>
    const m_ongoingJpegQ: QCameraQueue<JpegJob>
    const m_inputRawQ: QCameraQueue<Frame>
    const cmd_queue: QCameraQueue<Cmd>
    var running: bool
    var is_active: bool
    var needNewSess: bool
    var mJpegSessionId: nat
    var m_pReprocChannel: bool       // whether there is a reprocess channel
    // the surroundings
    ghost var encoder: set<nat>
    ghost var backend: seq<Frame>
    ghost var released: seq<Frame>
    ghost var handedOff: seq<Frame>

    ghost predicate Valid()
      reads this, cmd_queue, m_ongoingJpegQ
    {
      && m_inputPPQ != m_ongoingPPQ && m_inputPPQ != m_inputRawQ && m_ongoingPPQ != m_inputRawQ
      && m_inputJpegQ != m_ongoingJpegQ
      && cmd_queue.active && m_ongoingJpegQ.active
    }

    ghost function Repr(): set<object> {
      {this, m_inputPPQ, m_ongoingPPQ, m_inputJpegQ, m_ongoingJpegQ, m_inputRawQ, cmd_queue}
    }

    ghost function Abs(): State
      reads Repr()
    {
      State(m_inputPPQ.Abs(), m_ongoingPPQ.Abs(), m_inputJpegQ.Abs(), m_ongoingJpegQ.Abs(), m_inputRawQ.Abs(),
            cmd_queue.items, running, is_active, needNewSess, mJpegSessionId, m_pReprocChannel,
            encoder, backend, released, handedOff)
    }

    constructor ()
      ensures Valid() && Abs() == Initial && fresh(Repr())
    {
      m_inputPPQ := new QCameraQueue<Frame>();
      m_ongoingPPQ := new QCameraQueue<Frame>();
      m_inputJpegQ := new QCameraQueue<JpegJob>();
      m_ongoingJpegQ := new QCameraQueue<JpegJob>();
      m_inputRawQ := new QCameraQueue<Frame>();
      cmd_queue := new QCameraQueue<Cmd>();
      running, is_active, needNewSess, mJpegSessionId, m_pReprocChannel := true, false, true, 0, false;
      encoder, backend, released, handedOff := {}, [], [], [];
    }

    method SendCmd(cmd: Cmd, priority: bool)
      requires Valid()
      modifies cmd_queue
      ensures Valid()
      ensures Abs() == old(Abs()).(cmds := if priority then [cmd] + old(Abs()).cmds else old(Abs()).cmds + [cmd])
    {
      if priority {
        var _ := cmd_queue.EnqueueWithPriority(cmd);
      } else {
        var _ := cmd_queue.Enqueue(cmd);
      }
    }

    method ReleaseSuperBuf(frame: Frame)
      modifies this`released
      ensures released == old(released) + [frame]
    {
      released := released + [frame];
    }

    method ReleaseJpegJobData(job: JpegJob)
      modifies this`released
      ensures released == old(released) + JobFrames(job)
    {
      if job.reprocSrc.Some? {
        ReleaseSuperBuf(job.reprocSrc.value);
      }
      ReleaseSuperBuf(job.src);
    }

    // ---------- calls from other threads ----------

    method Start(needReprocess: bool, channelOk: bool) returns (rc: int)
      requires Valid()
      modifies this, cmd_queue
      ensures Valid() && Abs() == StartCall(old(Abs()), needReprocess, channelOk)
      ensures rc == if needReprocess && !channelOk then UNKNOWN_ERROR else NO_ERROR
    {
      if needReprocess {
        if m_pReprocChannel {
          m_pReprocChannel := false;
        }
        backend := [];
        if !channelOk {
          return UNKNOWN_ERROR;
        }
        m_pReprocChannel := true;
      }
      SendCmd(StartProc, false);
      return NO_ERROR;
    }

    method Stop()
      requires Valid()
      modifies cmd_queue
      ensures Valid() && Abs() == Next(old(Abs()), Event.Stop)
    {
      SendCmd(StopProc, true);
    }

    method Deinit()
      requires Valid()
      modifies cmd_queue
      ensures Valid() && Abs() == Next(old(Abs()), Event.Deinit)
    {
      SendCmd(Exit, true);
    }

    method ProcessRawData(frame: Frame) returns (rc: int)
      requires Valid()
      modifies m_inputRawQ, cmd_queue
      ensures Valid() && Abs() == EnqueueRaw(old(Abs()), frame)
      ensures rc == NO_ERROR
    {
      var _ := m_inputRawQ.Enqueue(frame);
      SendCmd(DoNextJob, false);
      return NO_ERROR;
    }

    method ProcessData(frame: Frame, needReprocess: bool, nv16: bool, alloc: bool) returns (rc: int)
      requires Valid()
      modifies m_inputPPQ, m_inputRawQ, m_inputJpegQ, cmd_queue
      ensures Valid() && Abs() == DataCall(old(Abs()), frame, needReprocess, nv16, alloc)
      ensures rc == if needReprocess || nv16 || alloc then NO_ERROR else NO_MEMORY
    {
      if needReprocess {
        var _ := m_inputPPQ.Enqueue(frame);
      } else if nv16 {
        var _ := ProcessRawData(frame);
      } else {
        if !alloc {
          return NO_MEMORY;
        }
        var _ := m_inputJpegQ.Enqueue(JpegJob(0, frame, None));
      }
      SendCmd(DoNextJob, false);
      return NO_ERROR;
    }

    method ProcessPPData(frame: Frame, nv16: bool, alloc: bool) returns (rc: int)
      requires Valid()
      modifies this`backend, this`released, m_ongoingPPQ, m_inputRawQ, m_inputJpegQ, cmd_queue
      ensures Valid() && Abs() == PPResultCall(old(Abs()), frame, nv16, alloc)
      ensures rc == if old(m_ongoingPPQ.Abs().Head().None?) then BAD_VALUE
                    else if nv16 || alloc then NO_ERROR else NO_MEMORY
    {
      var job := m_ongoingPPQ.Dequeue(true);
      backend := if backend == [] then [] else backend[1..];
      if job.None? {
        return BAD_VALUE;
      }
      if nv16 {
        ReleaseSuperBuf(job.value);
        rc := ProcessRawData(frame);
        return;
      }
      if !alloc {
        return NO_MEMORY;
      }
      var _ := m_inputJpegQ.Enqueue(JpegJob(0, frame, Some(job.value)));
      SendCmd(DoNextJob, false);
      return NO_ERROR;
    }

    method FindJpegJobByJobId(jobId: nat) returns (job: Option<JpegJob>)
      requires Valid()
      modifies m_ongoingJpegQ
      ensures Valid()
      ensures job == if jobId == 0 then None else old(m_ongoingJpegQ.Abs()).Head()
      ensures m_ongoingJpegQ.Abs() ==
              if jobId == 0 then old(m_ongoingJpegQ.Abs()) else old(m_ongoingJpegQ.Abs()).DropHead()
    {
      if jobId == 0 {
        return None;
      }
      job := m_ongoingJpegQ.Dequeue(true);
    }

    method ProcessJpegEvt(jobId: nat) returns (found: bool)
      requires Valid()
      modifies this`encoder, this`released, m_ongoingJpegQ, cmd_queue
      ensures Valid() && Abs() == JpegEventCall(old(Abs()), jobId)
      ensures found == (jobId != 0 && old(m_ongoingJpegQ.items) != [])
    {
      encoder := encoder - {jobId};
      var job := FindJpegJobByJobId(jobId);
      if job.Some? {
        ReleaseJpegJobData(job.value);
      }
      SendCmd(DoNextJob, false);
      found := job.Some?;
    }

    // ---------- the worker thread ----------

    /** Hand a job to the encoder, if everything for it is there. The caller's copy of the job has its
        id on success.
     */
    method EncodeData(job: JpegJob, call: Call, thumbnailNeeded: bool) returns (ok: bool, sent: JpegJob)
      modifies this`needNewSess, this`mJpegSessionId, this`encoder
      ensures var outcome := OutcomeOf(call, old(needNewSess));
              && ok == outcome.Started?
              && sent == (if outcome.Started? then job.(jobId := outcome.jobId) else job)
              && encoder == (if outcome.Started? then old(encoder) + {outcome.jobId} else old(encoder))
              && if outcome.NotReady? || !old(needNewSess) then
                   needNewSess == old(needNewSess) && mJpegSessionId == old(mJpegSessionId)
                 else
                   !needNewSess && mJpegSessionId == call.session
    {
      hide OutcomeOf, Complete, LastOf;
      ok, sent := false, job;
      var outcome, frames := Gather(call, needNewSess, thumbnailNeeded);
      OutcomeSession(call, needNewSess);
      if outcome.NotReady? {
        return;
      }
      if needNewSess {
        mJpegSessionId := call.session;
        needNewSess := false;
      }
      if outcome.Started? {
        encoder := encoder + {outcome.jobId};
        ok, sent := true, job.(jobId := outcome.jobId);
      }
    }

    /** The queue holds the job by reference: taking the last one out and putting it back stands for
        the id that the source writes into it.
     */
    method EncodeJob(job: JpegJob, call: Call, thumbnailNeeded: bool)
      requires Valid() && m_ongoingJpegQ.items == []
      modifies this`needNewSess, this`mJpegSessionId, this`encoder, this`released, m_ongoingJpegQ
      ensures Valid()
      ensures var outcome := OutcomeOf(call, old(needNewSess));
              && (if outcome.Started? then
                    && m_ongoingJpegQ.items == [job.(jobId := outcome.jobId)]
                    && encoder == old(encoder) + {outcome.jobId} && released == old(released)
                  else
                    m_ongoingJpegQ.items == [] && encoder == old(encoder) && released == old(released) + JobFrames(job))
              && if outcome.NotReady? || !old(needNewSess) then
                   needNewSess == old(needNewSess) && mJpegSessionId == old(mJpegSessionId)
                 else
                   !needNewSess && mJpegSessionId == call.session
    {
      hide JobFrames, OutcomeOf;
      var _ := m_ongoingJpegQ.Enqueue(job);
      var ok, sent := EncodeData(job, call, thumbnailNeeded);
      var _ := m_ongoingJpegQ.Dequeue(false);
      if ok {
        var _ := m_ongoingJpegQ.Enqueue(sent);
      } else {
        ReleaseJpegJobData(job);
      }
    }

    method DoJpeg(call: Call, thumbnailNeeded: bool)
      requires Valid()
      modifies this`needNewSess, this`mJpegSessionId, this`encoder, this`released, m_inputJpegQ, m_ongoingJpegQ
      ensures Valid() && Abs() == JpegPhase(old(Abs()), OutcomeOf(call, old(needNewSess)))
    {
      hide JobFrames, OutcomeOf;
      OutcomeSession(call, needNewSess);
      var idle := m_ongoingJpegQ.IsEmpty();
      if idle {
        var job := m_inputJpegQ.Dequeue(true);
        if job.Some? {
          EncodeJob(job.value, call, thumbnailNeeded);
        }
      }
    }

    method DoRaw(outcome: RawOutcome)
      requires Valid()
      modifies this`released, this`handedOff, m_inputRawQ
      ensures Valid() && Abs() == RawPhase(old(Abs()), outcome)
    {
      var frame := m_inputRawQ.Dequeue(true);
      if frame.Some? {
        match outcome
        case RawError => ReleaseSuperBuf(frame.value);
        case RawPassedOn => handedOff := handedOff + [frame.value];
        case RawDropped =>
      }
    }

    method DoReprocess(alloc: bool, accepted: bool)
      requires Valid()
      modifies this`released, this`backend, m_inputPPQ, m_ongoingPPQ
      ensures Valid() && Abs() == PPPhase(old(Abs()), alloc, accepted)
    {
      var frame := m_inputPPQ.Dequeue(true);
      if frame.Some? {
        var failed := true;
        if alloc && m_pReprocChannel {
          var _ := m_ongoingPPQ.Enqueue(frame.value);
          if accepted {
            backend := backend + [frame.value];
            failed := false;
          } else {
            var _ := m_ongoingPPQ.Dequeue(false);
          }
        }
        if failed {
          ReleaseSuperBuf(frame.value);
        }
      }
    }

    // not active: give one buffer of each kind back
    method Drain()
      requires Valid()
      modifies this`released, m_inputJpegQ, m_inputRawQ, m_inputPPQ
      ensures Valid() && Abs() == DrainPP(DrainRaw(DrainJpeg(old(Abs()))))
    {
      var job := m_inputJpegQ.Dequeue(true);
      if job.Some? {
        ReleaseJpegJobData(job.value);
      }
      assert Abs() == DrainJpeg(old(Abs()));
      var raw := m_inputRawQ.Dequeue(true);
      if raw.Some? {
        ReleaseSuperBuf(raw.value);
      }
      assert Abs() == DrainRaw(DrainJpeg(old(Abs())));
      var pp := m_inputPPQ.Dequeue(true);
      if pp.Some? {
        ReleaseSuperBuf(pp.value);
      }
    }

    method ReleaseFrames(nodes: seq<Frame>)
      modifies this`released
      ensures released == old(released) + nodes
    {
      for i := 0 to |nodes|
        invariant released == old(released) + nodes[..i]
      {
        ReleaseSuperBuf(nodes[i]);
        assert nodes[..i + 1] == nodes[..i] + [nodes[i]];
      }
      assert nodes[..|nodes|] == nodes;
    }

    method ReleaseJobs(nodes: seq<JpegJob>)
      modifies this`released
      ensures released == old(released) + JobsFrames(nodes)
    {
      for i := 0 to |nodes|
        invariant released == old(released) + JobsFrames(nodes[..i])
      {
        ReleaseJpegJobData(nodes[i]);
        JobsFramesSnoc(nodes[..i], nodes[i]);
        assert nodes[..i + 1] == nodes[..i] + [nodes[i]];
      }
      assert nodes[..|nodes|] == nodes;
    }

    // abort and release whatever is being encoded
    method AbortOngoing()
      requires Valid()
      modifies this`released, this`encoder, m_ongoingJpegQ
      ensures Valid() && m_ongoingJpegQ.Abs() == Queue([], true)
      ensures released == old(released) + JobsFrames(old(m_ongoingJpegQ.items))
      ensures encoder == old(encoder) - JobIds(old(m_ongoingJpegQ.items))
    {
      hide JobsFrames, JobIds, JobFrames, Upcoming;
      var job := NextOngoing();
      while job.Some?
        invariant m_ongoingJpegQ.active && (job.None? ==> m_ongoingJpegQ.items == [])
        invariant released + JobsFrames(Upcoming(job, m_ongoingJpegQ.items)) ==
                  old(released + JobsFrames(m_ongoingJpegQ.items))
        invariant encoder - JobIds(Upcoming(job, m_ongoingJpegQ.items)) == old(encoder - JobIds(m_ongoingJpegQ.items))
        decreases |m_ongoingJpegQ.items|, job.Some?
      {
        AbortStep(released, encoder, job.value, m_ongoingJpegQ.items);
        encoder := encoder - {job.value.jobId};
        ReleaseJpegJobData(job.value);
        job := NextOngoing();
      }
      AllAborted(released, encoder);
    }

    method NextOngoing() returns (job: Option<JpegJob>)
      requires m_ongoingJpegQ.active
      modifies m_ongoingJpegQ
      ensures m_ongoingJpegQ.active && Upcoming(job, m_ongoingJpegQ.items) == old(m_ongoingJpegQ.items)
      ensures if job.Some? then |m_ongoingJpegQ.items| < |old(m_ongoingJpegQ.items)| else m_ongoingJpegQ.items == []
    {
      job := m_ongoingJpegQ.Dequeue(true);
    }

    method FlushQueues()
      requires Valid()
      modifies this`released, m_inputPPQ, m_ongoingPPQ, m_inputJpegQ, m_inputRawQ
      ensures Valid()
      ensures m_inputPPQ.Abs() == old(m_inputPPQ.Abs()).Flushed()
      ensures m_ongoingPPQ.Abs() == old(m_ongoingPPQ.Abs()).Flushed()
      ensures m_inputJpegQ.Abs() == old(m_inputJpegQ.Abs()).Flushed()
      ensures m_inputRawQ.Abs() == old(m_inputRawQ.Abs()).Flushed()
      ensures released == old(released)
                + old(m_ongoingPPQ.Abs()).FlushedItems() + JobsFrames(old(m_inputJpegQ.Abs()).FlushedItems())
                + old(m_inputPPQ.Abs()).FlushedItems() + old(m_inputRawQ.Abs()).FlushedItems()
    {
      var ongoing := m_ongoingPPQ.Flush();
      ReleaseFrames(ongoing);
      var jobs := m_inputJpegQ.Flush();
      ReleaseJobs(jobs);
      var inputs := m_inputPPQ.Flush();
      ReleaseFrames(inputs);
      var raws := m_inputRawQ.Flush();
      ReleaseFrames(raws);
    }

    // everything but the flushing
    method EndSession()
      requires Valid()
      modifies this, m_ongoingJpegQ
      ensures Valid()
      ensures Abs() == old(Abs()).(
                ongoingJpeg := Queue([], true), active := false, needNewSess := true, session := 0,
                reprocChannel := false, backend := [],
                encoder := old(encoder) - JobIds(old(m_ongoingJpegQ.items)),
                released := old(released) + JobsFrames(old(m_ongoingJpegQ.items)))
    {
      hide JobsFrames, JobIds;
      is_active := false;
      AbortOngoing();
      if 0 < mJpegSessionId {
        mJpegSessionId := 0;
      }
      needNewSess := true;
      m_pReprocChannel, backend := false, [];
    }

    method DoStop()
      requires Valid()
      modifies this, m_inputPPQ, m_ongoingPPQ, m_inputJpegQ, m_ongoingJpegQ, m_inputRawQ
      ensures Valid() && Abs() == WorkerStop(old(Abs()))
    {
      hide JobsFrames, JobIds;
      EndSession();
      FlushQueues();
    }

    /** a.encode is what the call to the encoder comes to. */
    method DoNext(a: Answers, call: Call, thumbnailNeeded: bool)
      requires Valid() && a.encode == OutcomeOf(call, needNewSess)
      modifies this, m_inputPPQ, m_ongoingPPQ, m_inputJpegQ, m_ongoingJpegQ, m_inputRawQ
      ensures Valid() && Abs() == WorkerDoNext(old(Abs()), a)
    {
      hide JpegPhase, RawPhase, PPPhase, DrainJpeg, DrainRaw, DrainPP, OutcomeOf;
      if is_active {
        JpegPhaseFrame(Abs(), a.encode);
        DoJpeg(call, thumbnailNeeded);
        DoRaw(a.raw);
        DoReprocess(a.ppAlloc, a.reprocess);
      } else {
        Drain();
      }
    }

    /** One turn of dataProcessRoutine: take a command, if there is one, and carry it out. */
    method DataProcessStep(a: Answers, call: Call, thumbnailNeeded: bool)
      requires Valid() && a.encode == OutcomeOf(call, needNewSess)
      modifies Repr()
      ensures Valid() && Abs() == Next(old(Abs()), Worker(a))
    {
      hide WorkerDoNext, WorkerStop, OutcomeOf;
      if running {
        var cmd := cmd_queue.Dequeue(true);
        if cmd.Some? {
          match cmd.value
          case StartProc => is_active, needNewSess := true, true;
          case StopProc => DoStop();
          case DoNextJob => DoNext(a, call, thumbnailNeeded);
          case Exit => running := false;
        }
      }
    }
  }

  lemma {:induction false} JobsFramesJoin(a: seq<JpegJob>, b: seq<JpegJob>)
    ensures JobsFrames(a + b) == JobsFrames(a) + JobsFrames(b)
  {
    if a == [] {
      assert a + b == b;
    } else {
      assert (a + b)[0] == a[0] && (a + b)[1..] == a[1..] + b;
      JobsFramesJoin(a[1..], b);
    }
  }

  /** A job just taken from a queue, and those behind it. */
  function Upcoming(job: Option<JpegJob>, rest: seq<JpegJob>): seq<JpegJob> {
    if job.Some? then [job.value] + rest else rest
  }

  lemma AbortStep(released: seq<Frame>, encoder: set<nat>, job: JpegJob, rest: seq<JpegJob>)
    ensures (released + JobFrames(job)) + JobsFrames(rest) == released + JobsFrames(Upcoming(Some(job), rest))
    ensures (encoder - {job.jobId}) - JobIds(rest) == encoder - JobIds(Upcoming(Some(job), rest))
  {
    assert Upcoming(Some(job), rest)[1..] == rest;
    hide JobFrames;
  }

  lemma AllAborted(released: seq<Frame>, encoder: set<nat>)
    ensures released + JobsFrames(Upcoming(None, [])) == released && encoder - JobIds(Upcoming(None, [])) == encoder
  {
  }

  lemma JobsFramesSnoc(jobs: seq<JpegJob>, job: JpegJob)
    ensures JobsFrames(jobs + [job]) == JobsFrames(jobs) + JobFrames(job)
  {
    JobsFramesJoin(jobs, [job]);
    assert JobsFrames([job]) == JobFrames(job) + JobsFrames([job][1..]);
  }
}
