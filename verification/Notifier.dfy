/** The callback notifier object. Every method is a step of SnapshotCount. */
module Notifier {
  import opened Common
  import opened Queues
  import opened SnapshotCount

  const NO_ERROR := 0
  const UNKNOWN_ERROR := -2147483648

  class QCameraCbNotifier {
    const mDataQ: QCameraQueue<Callback>
    const cmd_queue: QCameraQueue<Cmd>
    var running: bool
    var isSnapshotActive: bool
    var numOfSnapshotExpected: Uint32
    var numOfSnapshotRcvd: Uint32
    ghost var delivered: nat
    ghost var doneEvents: nat
    ghost var releases: seq<Callback>

    ghost predicate Valid()
      reads cmd_queue
    {
      cmd_queue.active
    }

    ghost function Abs(): State
      reads this, mDataQ, cmd_queue
    {
      State(mDataQ.Abs(), cmd_queue.items, running, isSnapshotActive, numOfSnapshotExpected,
            numOfSnapshotRcvd, delivered, doneEvents, releases)
    }

    constructor ()
      ensures Valid() && Abs() == Initial
    {
      mDataQ := new QCameraQueue<Callback>();
      cmd_queue := new QCameraQueue<Cmd>();
      running, isSnapshotActive, numOfSnapshotExpected, numOfSnapshotRcvd := true, false, 0, 0;
      delivered, doneEvents, releases := 0, 0, [];
    }

    method NotifyCallback(cb: Callback) returns (rc: int)
      requires Valid()
      modifies mDataQ, cmd_queue
      ensures Valid() && Abs() == Next(old(Abs()), Event.NotifyCallback(cb))
      ensures rc == if old(mDataQ.active) then NO_ERROR else UNKNOWN_ERROR
    {
      var ok := mDataQ.Enqueue(cb);
      if ok {
        var _ := cmd_queue.Enqueue(DoNextJob);
      } else {
        return UNKNOWN_ERROR;
      }
      return NO_ERROR;
    }

    method StartSnapshots()
      requires Valid()
      modifies cmd_queue
      ensures Valid() && Abs() == Next(old(Abs()), Event.StartSnapshots)
    {
      var _ := cmd_queue.EnqueueWithPriority(StartProc);
    }

    method StopSnapshots()
      requires Valid()
      modifies cmd_queue
      ensures Valid() && Abs() == Next(old(Abs()), Event.StopSnapshots)
    {
      var _ := cmd_queue.EnqueueWithPriority(StopProc);
    }

    /** Ends the thread. */
    method ExitThread()
      requires Valid()
      modifies cmd_queue
      ensures Valid() && Abs() == Next(old(Abs()), Event.ExitThread)
    {
      var _ := cmd_queue.EnqueueWithPriority(Exit);
    }

    method RunRelease(cb: Callback)
      modifies this`releases
      ensures releases == old(releases) + ReleaseOf(cb)
    {
      if cb.hasRelease {
        releases := releases + [cb];
      }
    }

    // releaseNotifications on each flushed node
    method RunReleases(nodes: seq<Callback>)
      modifies this`releases
      ensures releases == old(releases) + Matching(nodes, NeedsRelease())
    {
      for i := 0 to |nodes|
        invariant releases == old(releases) + Matching(nodes[..i], NeedsRelease())
      {
        RunRelease(nodes[i]);
        assert nodes[..i + 1][..i] == nodes[..i];
      }
      assert nodes[..|nodes|] == nodes;
    }

    method CountSnapshot()
      modifies this`numOfSnapshotRcvd, this`delivered, this`doneEvents
      ensures Abs() == Count(old(Abs()))
    {
      numOfSnapshotRcvd := (numOfSnapshotRcvd + 1) % UINT32;
      if numOfSnapshotExpected > 0 && numOfSnapshotExpected == numOfSnapshotRcvd {
        doneEvents := doneEvents + 1;
      }
      delivered := delivered + 1;
    }

    method DoNext(enabled: bool, hasDataCb: bool)
      modifies this, mDataQ
      ensures Abs() == Deliver(old(Abs()), enabled, hasDataCb)
    {
      var cb := mDataQ.Dequeue(true);
      if cb.Some? {
        if enabled {
          match cb.value.kind
          case Snapshot =>
            if isSnapshotActive && hasDataCb {
              CountSnapshot();
            }
          case _ =>
        }
        RunRelease(cb.value);
      }
    }

    method DoStop()
      modifies this, mDataQ
      ensures Abs() == StopStep(old(Abs()))
    {
      var flushed := mDataQ.FlushNodes(IsSnapshot());
      RunReleases(flushed);
      isSnapshotActive := false;
      numOfSnapshotExpected, numOfSnapshotRcvd := 0, 0;
      delivered, doneEvents := 0, 0;
    }

    method DoExit()
      modifies this, mDataQ
      ensures Abs() == ExitStep(old(Abs()))
    {
      var flushed := mDataQ.Flush();
      RunReleases(flushed);
      running := false;
    }

    /** One turn of cbNotifyRoutine. */
    method CbNotifyStep(enabled: bool, hasDataCb: bool, expected: Uint32)
      requires Valid()
      modifies this, mDataQ, cmd_queue
      ensures Valid() && Abs() == Next(old(Abs()), Worker(enabled, hasDataCb, expected))
    {
      hide Deliver, StopStep, ExitStep;
      if running {
        var cmd := cmd_queue.Dequeue(true);
        if cmd.Some? {
          match cmd.value
          case StartProc =>
            isSnapshotActive := true;
            numOfSnapshotExpected, numOfSnapshotRcvd := expected, 0;
            delivered, doneEvents := 0, 0;
          case StopProc => DoStop();
          case DoNextJob => DoNext(enabled, hasDataCb);
          case Exit => DoExit();
        }
      }
    }
  }
}
