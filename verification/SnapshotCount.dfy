/** The callback thread as a transition system: it drains a queue of notifications for the
    application and tells the HAL when the expected number of snapshots has been delivered.
 */
module SnapshotCount {
  import opened Common
  import opened Queues

  const UINT32 := 0x1_0000_0000

  type Uint32 = n: int | 0 <= n < UINT32

  datatype Kind = Notify | Data | DataTimestamp | Snapshot | Other

  datatype Callback = Callback(id: nat, kind: Kind, hasRelease: bool)

  datatype State = State(
    dataQ: Queue<Callback>,
    cmds: seq<Cmd>,
    running: bool,
    isSnapshotActive: bool,
    numOfSnapshotExpected: Uint32,
    numOfSnapshotRcvd: Uint32,
    // what has been seen from outside
    delivered: nat,           // snapshots delivered since the last processed START or STOP
    doneEvents: nat,          // SNAPSHOT_DONE events sent since then
    releases: seq<Callback>)  // runs of release callbacks

  const Initial := State(Queue([], true), [], true, false, 0, 0, 0, 0, [])

  datatype Event =
    | NotifyCallback(cb: Callback)
    | StartSnapshots
    | StopSnapshots
    | ExitThread
    | Worker(enabled: bool, hasDataCb: bool, expected: Uint32)

  /** matchSnapshotNotifications */
  function IsSnapshot(): Callback -> bool { (cb: Callback) => cb.kind.Snapshot? }

  function NeedsRelease(): Callback -> bool { (cb: Callback) => cb.hasRelease }

  function ReleaseOf(cb: Callback): seq<Callback> { if cb.hasRelease then [cb] else [] }

  function Count(s: State): State {
    var rcvd := (s.numOfSnapshotRcvd + 1) % UINT32;
    s.(numOfSnapshotRcvd := rcvd, delivered := s.delivered + 1,
       doneEvents := s.doneEvents +
         if s.numOfSnapshotExpected > 0 && s.numOfSnapshotExpected == rcvd then 1 else 0)
  }

  function Deliver(s: State, enabled: bool, hasDataCb: bool): State {
    if s.dataQ.Head().None? then s
    else
      var cb := s.dataQ.Head().value;
      var s1 := if enabled && cb.kind.Snapshot? && s.isSnapshotActive && hasDataCb then Count(s) else s;
      s1.(dataQ := s.dataQ.DropHead(), releases := s.releases + ReleaseOf(cb))
  }

  function StopStep(s: State): State {
    var flushed := if s.dataQ.active then Matching(s.dataQ.items, IsSnapshot()) else [];
    var kept := if s.dataQ.active then Matching(s.dataQ.items, Not(IsSnapshot())) else s.dataQ.items;
    s.(dataQ := Queue(kept, s.dataQ.active), isSnapshotActive := false,
       numOfSnapshotExpected := 0, numOfSnapshotRcvd := 0, delivered := 0, doneEvents := 0,
       releases := s.releases + Matching(flushed, NeedsRelease()))
  }

  function ExitStep(s: State): State {
    s.(dataQ := s.dataQ.Flushed(), running := false,
       releases := s.releases + Matching(s.dataQ.FlushedItems(), NeedsRelease()))
  }

  function WorkerStep(s: State, enabled: bool, hasDataCb: bool, expected: Uint32): State {
    if s.cmds == [] || !s.running then s
    else
      var s1 := s.(cmds := s.cmds[1..]);
      match s.cmds[0]
      case StartProc =>
        s1.(isSnapshotActive := true, numOfSnapshotExpected := expected, numOfSnapshotRcvd := 0,
            delivered := 0, doneEvents := 0)
      case StopProc => StopStep(s1)
      case DoNextJob => Deliver(s1, enabled, hasDataCb)
      case Exit => ExitStep(s1)
  }

  /** A refused notification sends no command and stays with the caller. */
  function NotifyStep(s: State, cb: Callback): State {
    if s.dataQ.active then s.(dataQ := s.dataQ.Enqueue(cb), cmds := s.cmds + [DoNextJob]) else s
  }

  function Next(s: State, e: Event): State {
    match e
    case NotifyCallback(cb) => NotifyStep(s, cb)
    case StartSnapshots => s.(cmds := [StartProc] + s.cmds)
    case StopSnapshots => s.(cmds := [StopProc] + s.cmds)
    case ExitThread => s.(cmds := [Exit] + s.cmds)
    case Worker(enabled, hasDataCb, expected) => WorkerStep(s, enabled, hasDataCb, expected)
  }

  function Run(t: Trace<Event>): State {
    match t
    case Begin => Initial
    case Then(before, e) => Next(Run(before), e)
  }

  // ---------- counting ----------

  /** How many SNAPSHOT_DONE events `delivered` snapshots call for: one when the expected
      number is reached, and, the counter being 32 bits wide, one each time it comes round. */
  function DoneFor(expected: Uint32, delivered: nat): nat {
    if expected == 0 || delivered < expected then 0 else (delivered - expected) / UINT32 + 1
  }

  ghost predicate Counted(s: State) {
    && s.numOfSnapshotRcvd == s.delivered % UINT32
    && s.doneEvents == DoneFor(s.numOfSnapshotExpected, s.delivered)
  }

  lemma DivStep(a: nat)
    ensures (a + 1) / UINT32 == a / UINT32 + if (a + 1) % UINT32 == 0 then 1 else 0
  {
  }

  lemma ModEqual(n: nat, e: Uint32)
    requires n >= e
    ensures n % UINT32 == e <==> (n - e) % UINT32 == 0
  {
  }

  lemma DoneForStep(e: Uint32, n: nat)
    ensures DoneFor(e, n + 1) == DoneFor(e, n) + if e > 0 && (n + 1) % UINT32 == e then 1 else 0
  {
    if e > 0 && n + 1 >= e {
      ModEqual(n + 1, e);
      if n + 1 > e {
        DivStep(n - e);
      }
    }
  }

  lemma ModNext(n: nat)
    ensures (n % UINT32 + 1) % UINT32 == (n + 1) % UINT32
  {
  }

  lemma CountStep(s: State)
    requires Counted(s)
    ensures Counted(Count(s))
  {
    hide DoneFor;
    DoneForStep(s.numOfSnapshotExpected, s.delivered);
    ModNext(s.delivered);
  }

  lemma WorkerCounts(s: State, enabled: bool, hasDataCb: bool, expected: Uint32)
    requires Counted(s)
    ensures Counted(WorkerStep(s, enabled, hasDataCb, expected))
  {
    if s.cmds != [] {
      var s1 := s.(cmds := s.cmds[1..]);
      assert Counted(s1);
      CountStep(s1);
      assert Counted(Deliver(s1, enabled, hasDataCb)) by { hide DoneFor, Count; }
      assert Counted(StopStep(s1)) && Counted(ExitStep(s1)) by { hide Matching; }
      hide Deliver, StopStep, ExitStep;
    }
  }

  /** At every point of every run, the number of SNAPSHOT_DONE events since the last START is
      exactly the number called for by the snapshots delivered since. */
  lemma {:induction false} DoneEventsExact(t: Trace<Event>)
    ensures Counted(Run(t))
  {
    if t.Then? {
      var s, e := Run(t.before), t.event;
      DoneEventsExact(t.before);
      if e.Worker? {
        WorkerCounts(s, e.enabled, e.hasDataCb, e.expected);
      }
      hide WorkerStep, DoneFor;
    }
  }

  /** Hence SNAPSHOT_DONE comes once, on the expected snapshot, until 2^32 more have followed. */
  lemma DoneOnceIff(t: Trace<Event>)
    ensures var s := Run(t);
            s.doneEvents <= 1 <==>
              s.numOfSnapshotExpected == 0 || s.delivered < s.numOfSnapshotExpected + UINT32
    ensures var s := Run(t);
            s.doneEvents >= 1 <==> s.numOfSnapshotExpected > 0 && s.delivered >= s.numOfSnapshotExpected
  {
    DoneEventsExact(t);
  }

  // ---------- what is counted ----------

  predicate Takes(s: State, e: Event, cmd: Cmd) { e.Worker? && s.running && s.cmds != [] && s.cmds[0] == cmd }

  /** The worker takes a notification about a snapshot off the queue and passes it on: its message is
      enabled and there is someone to pass it to.
   */
  predicate PassesSnapshot(s: State, e: Event) {
    && Takes(s, e, DoNextJob) && e.enabled && e.hasDataCb
    && s.dataQ.active && s.dataQ.items != [] && s.dataQ.items[0].kind == Snapshot
  }

  /** Whether the last START or STOP taken up was a START, and what was expected then. */
  function SessionOf(t: Trace<Event>): Option<Uint32> {
    match t
    case Begin => None
    case Then(before, e) =>
      if Takes(Run(before), e, StartProc) then Some(e.expected)
      else if Takes(Run(before), e, StopProc) then None
      else SessionOf(before)
  }

  /** The snapshots passed on since then, in a session that a START began. */
  function PassedIn(t: Trace<Event>): nat {
    match t
    case Begin => 0
    case Then(before, e) =>
      if Takes(Run(before), e, StartProc) || Takes(Run(before), e, StopProc) then 0
      else PassedIn(before) + if SessionOf(before).Some? && PassesSnapshot(Run(before), e) then 1 else 0
  }

  function Expected(session: Option<Uint32>): Uint32 { if session.Some? then session.value else 0 }

  predicate HoldsCount(s: State, session: Option<Uint32>, passed: nat) {
    && s.isSnapshotActive == session.Some? && s.numOfSnapshotExpected == Expected(session)
    && s.delivered == passed
  }

  lemma WorkerHoldsCount(s: State, e: Event, session: Option<Uint32>, passed: nat)
    requires e.Worker? && HoldsCount(s, session, passed)
    ensures var s' := Next(s, e);
            if Takes(s, e, StartProc) then HoldsCount(s', Some(e.expected), 0)
            else if Takes(s, e, StopProc) then HoldsCount(s', None, 0)
            else HoldsCount(s', session, passed + if session.Some? && PassesSnapshot(s, e) then 1 else 0)
  {
  }

  /** The session, the number expected and the snapshots counted are those the run tells. */
  lemma {:induction false} CountsPassed(t: Trace<Event>)
    ensures HoldsCount(Run(t), SessionOf(t), PassedIn(t))
  {
    if t.Then? {
      CountsPassed(t.before);
      if t.event.Worker? {
        WorkerHoldsCount(Run(t.before), t.event, SessionOf(t.before), PassedIn(t.before));
      }
      hide WorkerStep, PassesSnapshot, Expected;
    }
  }

  /** So SNAPSHOT_DONE has been sent as often as the snapshots passed on since START call for. */
  lemma DoneIsCalledFor(t: Trace<Event>)
    ensures Run(t).doneEvents == DoneFor(Expected(SessionOf(t)), PassedIn(t))
  {
    CountsPassed(t);
    DoneEventsExact(t);
    hide DoneFor, Run, SessionOf, PassedIn;
  }

  /** Preview data is passed on without being counted. */
  lemma DataIsNotCounted(s: State, e: Event)
    requires Takes(s, e, DoNextJob) && s.dataQ.active && s.dataQ.items != [] && s.dataQ.items[0].kind != Snapshot
    ensures var s' := Next(s, e);
            && s'.delivered == s.delivered && s'.doneEvents == s.doneEvents
            && s'.numOfSnapshotRcvd == s.numOfSnapshotRcvd && s'.dataQ.items == s.dataQ.items[1..]
  {
  }

  // ---------- what each event does to the queue ----------

  lemma NotifyEffect(s: State, cb: Callback)
    ensures Next(s, NotifyCallback(cb)) ==
            if s.dataQ.active
            then s.(dataQ := Queue(s.dataQ.items + [cb], true), cmds := s.cmds + [DoNextJob]) else s
    ensures Next(s, StartSnapshots) == s.(cmds := [StartProc] + s.cmds)
    ensures Next(s, StopSnapshots) == s.(cmds := [StopProc] + s.cmds)
    ensures Next(s, ExitThread) == s.(cmds := [Exit] + s.cmds)
  {
    hide WorkerStep;
  }

  /** A notification taken off the queue has its release callback run, last, whatever else becomes of it. */
  lemma DeliverEffect(s: State, e: Event)
    requires Takes(s, e, DoNextJob) && s.dataQ.active && s.dataQ.items != []
    ensures var s', cb := Next(s, e), s.dataQ.items[0];
            && s'.dataQ == Queue(s.dataQ.items[1..], true) && s'.cmds == s.cmds[1..] && s'.running
            && s'.releases == s.releases + (if cb.hasRelease then [cb] else [])
            && s'.isSnapshotActive == s.isSnapshotActive && s'.numOfSnapshotExpected == s.numOfSnapshotExpected
  {
    hide StopStep, ExitStep;
  }

  /** STOP flushes the notifications about snapshots, in order, and leaves the others, in order. */
  lemma {:induction false} StopEffect(s: State, e: Event, i: nat)
    requires Takes(s, e, StopProc) && s.dataQ.active && i < |s.dataQ.items|
    ensures var s' := Next(s, e);
            && s'.dataQ.active && s'.cmds == s.cmds[1..] && s'.running
            && s'.dataQ.items == Matching(s.dataQ.items, Not(IsSnapshot()))
            && s'.releases == s.releases + Matching(Matching(s.dataQ.items, IsSnapshot()), NeedsRelease())
            && (s.dataQ.items[i] in s'.dataQ.items <==> s.dataQ.items[i].kind != Snapshot)
            && (forall cb | cb in s'.dataQ.items :: cb in s.dataQ.items && cb.kind != Snapshot)
            && (forall cb | cb in s'.releases[|s.releases|..] :: cb.hasRelease && cb.kind == Snapshot)
  {
    var items := s.dataQ.items;
    MatchingHas(items, IsSnapshot());
    MatchingHas(items, Not(IsSnapshot()));
    MatchingHas(Matching(items, IsSnapshot()), NeedsRelease());
    hide Matching, Deliver, ExitStep;
  }

  /** EXIT ends the thread, and runs the release callbacks of all that is queued, in order. */
  lemma ExitEffect(s: State, e: Event)
    requires Takes(s, e, Exit) && s.dataQ.active
    ensures var s' := Next(s, e);
            && !s'.running && s'.dataQ == Queue([], false) && s'.cmds == s.cmds[1..]
            && s'.releases == s.releases + Matching(s.dataQ.items, NeedsRelease())
            && (forall cb | cb in s.dataQ.items && cb.hasRelease :: cb in s'.releases)
  {
    MatchingHas(s.dataQ.items, NeedsRelease());
    hide Matching, Deliver, StopStep;
  }

  lemma {:induction false} MatchingHas<T(!new)>(s: seq<T>, p: T -> bool)
    ensures forall x :: x in Matching(s, p) <==> x in s && p(x)
  {
    if s != [] {
      MatchingHas(s[..|s| - 1], p);
      assert s == s[..|s| - 1] + [s[|s| - 1]];
    }
  }

  /** A run that starts, with one snapshot expected, and then delivers n of them. */
  function Snapshots(n: nat): Trace<Event> {
    if n == 0 then Then(Then(Begin, StartSnapshots), Worker(true, true, 1))
    else Then(Then(Snapshots(n - 1), NotifyCallback(Callback(0, Snapshot, false))), Worker(true, true, 1))
  }

  lemma {:induction false} SnapshotsDelivered(n: nat)
    ensures var s := Run(Snapshots(n));
            && s.dataQ == Queue([], true) && s.cmds == [] && s.running && s.isSnapshotActive
            && s.numOfSnapshotExpected == 1 && s.delivered == n
  {
    if n > 0 {
      SnapshotsDelivered(n - 1);
      OneMore(Run(Snapshots(n - 1)));
    }
  }

  lemma OneMore(s: State)
    requires s.dataQ == Queue([], true) && s.cmds == [] && s.running && s.isSnapshotActive
    ensures var s' := Next(Next(s, NotifyCallback(Callback(0, Snapshot, false))), Worker(true, true, 1));
            && s'.dataQ == s.dataQ && s'.cmds == s.cmds && s'.running && s'.isSnapshotActive
            && s'.numOfSnapshotExpected == s.numOfSnapshotExpected && s'.delivered == s.delivered + 1
  {
    var s1 := Next(s, NotifyCallback(Callback(0, Snapshot, false)));
    assert s1.cmds == [DoNextJob] && s1.dataQ.items == [Callback(0, Snapshot, false)];
    assert s1.cmds[1..] == [] && s1.dataQ.items[1..] == [];
  }

  /** One snapshot is expected; the 2^32 + 1st after START brings a second SNAPSHOT_DONE. */
  lemma DoneTwice()
    ensures Run(Snapshots(1)).doneEvents == 1
    ensures Run(Snapshots(UINT32 + 1)).doneEvents == 2
  {
    hide Snapshots, Run;
    SnapshotsDelivered(1);
    SnapshotsDelivered(UINT32 + 1);
    DoneEventsExact(Snapshots(1));
    DoneEventsExact(Snapshots(UINT32 + 1));
  }

  // ---------- release callbacks ----------

  /** Notifications that notifyCallback took over. */
  function AcceptedIn(t: Trace<Event>): seq<Callback> {
    match t
    case Begin => []
    case Then(before, e) =>
      AcceptedIn(before) + if e.NotifyCallback? && Run(before).dataQ.active then [e.cb] else []
  }

  function Tracked(s: State, cb: Callback): nat {
    Times(s.dataQ.items, cb) + Times(s.releases, cb)
  }

  lemma StopReleases(s: State, cb: Callback)
    requires cb.hasRelease
    ensures Tracked(StopStep(s), cb) == Tracked(s, cb)
  {
    var flushed := if s.dataQ.active then Matching(s.dataQ.items, IsSnapshot()) else [];
    MatchingSplits(s.dataQ.items, IsSnapshot(), cb);
    MatchingSplits(s.dataQ.items, Not(IsSnapshot()), cb);
    MatchingSplits(flushed, NeedsRelease(), cb);
    TimesAppend(s.releases, Matching(flushed, NeedsRelease()), cb);
  }

  lemma ExitReleases(s: State, cb: Callback)
    requires cb.hasRelease
    ensures Tracked(ExitStep(s), cb) == Tracked(s, cb)
  {
    MatchingSplits(s.dataQ.FlushedItems(), NeedsRelease(), cb);
    TimesAppend(s.releases, Matching(s.dataQ.FlushedItems(), NeedsRelease()), cb);
  }

  lemma DeliverReleases(s: State, enabled: bool, hasDataCb: bool, cb: Callback)
    requires cb.hasRelease
    ensures Tracked(Deliver(s, enabled, hasDataCb), cb) == Tracked(s, cb)
  {
    if s.dataQ.Head().Some? {
      var head := s.dataQ.Head().value;
      assert s.dataQ.items == [head] + s.dataQ.DropHead().items;
      TimesAppend([head], s.dataQ.DropHead().items, cb);
      TimesAppend(s.releases, ReleaseOf(head), cb);
      assert Times(ReleaseOf(head), cb) == Times([head], cb);
    }
  }

  lemma WorkerReleases(s: State, enabled: bool, hasDataCb: bool, expected: Uint32, cb: Callback)
    requires cb.hasRelease
    ensures Tracked(WorkerStep(s, enabled, hasDataCb, expected), cb) == Tracked(s, cb)
  {
    hide StopStep, ExitStep, Deliver;
    if s.cmds != [] && s.running {
      var s1 := s.(cmds := s.cmds[1..]);
      match s.cmds[0]
      case StartProc =>
      case StopProc => StopReleases(s1, cb);
      case DoNextJob => DeliverReleases(s1, enabled, hasDataCb, cb);
      case Exit => ExitReleases(s1, cb);
    }
  }

  /** Every notification taken over is still queued or has had its release callback run, once
      for each time it was taken over: delivered, disabled, flushed by STOP or by EXIT alike. */
  lemma {:induction false} ReleasedOnce(t: Trace<Event>, cb: Callback)
    requires cb.hasRelease
    ensures Tracked(Run(t), cb) == Times(AcceptedIn(t), cb)
  {
    if t.Then? {
      var s, e := Run(t.before), t.event;
      ReleasedOnce(t.before, cb);
      assert AcceptedIn(t.before) + [] == AcceptedIn(t.before);
      hide WorkerStep, Times;
      match e
      case NotifyCallback(new_) =>
        TimesAppend(s.dataQ.items, [new_], cb);
        TimesAppend(AcceptedIn(t.before), [new_], cb);
      case Worker(enabled, hasDataCb, expected) => WorkerReleases(s, enabled, hasDataCb, expected, cb);
      case _ =>
    }
  }
}
