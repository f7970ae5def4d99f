/** Reprocess channels: one reprocess stream for each source stream that is not metadata, found
    again by the handle of its source.
 */
module Channel {
  import opened Common

  const MAX_STREAM_NUM_IN_BUNDLE := 4
  const BAD_VALUE := -22
  const NO_MEMORY := -12

  datatype StreamType = Preview | Snapshot | NonZslSnapshot | Video | Metadata | OfflineProc | OtherType

  datatype Feature = Cac | Rotation | OtherFeature(bit: nat)
  datatype Angle = Rotate0 | Rotate90 | Rotate180 | Rotate270

  /** cam_pp_feature_config_t */
  datatype Config = Config(features: set<Feature>, rotation: Angle)

  datatype Dim = Dim(width: int, height: int)

  /** reprocess_config: the stream whose frames are reprocessed, and how. */
  datatype Input = Input(serverId: nat, kind: StreamType, config: Config)

  /** A stream with its cam_stream_info_t. */
  datatype Stream = Stream(handle: nat, serverId: nat, kind: StreamType, fmt: int, dim: Dim, burst: nat,
                           input: Option<Input>)
  {
    predicate IsOriginalTypeOf(t: StreamType) {
      kind == OfflineProc && input.Some? && input.value.kind == t
    }

    predicate FromSnapshot() {
      kind == Snapshot || kind == NonZslSnapshot || IsOriginalTypeOf(Snapshot) || IsOriginalTypeOf(NonZslSnapshot)
    }
  }

  type Failure = rc: int | rc != 0 witness -1

  /** What the surroundings answer when a stream is to be added. */
  datatype Answer = NoInfoBuffer | NoStream | InitFails(rc: Failure) | Made(handle: nat, serverId: nat)

  // ---------- what the streams should be ----------

  function ReprocOf(src: Stream, config: Config, burst: nat, a: Answer): (s: Stream)
    requires a.Made?
    ensures s.kind == OfflineProc && s.input.Some? && s.input.value.serverId == src.serverId
  {
    var turned := Rotation in config.features && config.rotation in {Rotate90, Rotate270};
    Stream(a.handle, a.serverId, OfflineProc, src.fmt,
           if turned then Dim(src.dim.height, src.dim.width) else src.dim,
           burst,
           Some(Input(src.serverId, src.kind,
                      if src.FromSnapshot() then config else config.(features := config.features - {Cac}))))
  }

  /** A reprocess stream takes over the format of its source, its dimensions turned exactly for a
      rotation by 90 or 270 degrees, and every feature but CAC, which only snapshots keep.
   */
  lemma ReprocStreamIs(src: Stream, config: Config, burst: nat, a: Answer)
    requires a.Made?
    ensures var s := ReprocOf(src, config, burst, a);
            && s.handle == a.handle && s.serverId == a.serverId && s.kind == OfflineProc
            && s.fmt == src.fmt && s.burst == burst
            && s.dim.width == (if Turned(config) then src.dim.height else src.dim.width)
            && s.dim.height == (if Turned(config) then src.dim.width else src.dim.height)
            && s.input.Some? && s.input.value.serverId == src.serverId && s.input.value.kind == src.kind
            && s.input.value.config.rotation == config.rotation
            && (forall f :: f in s.input.value.config.features <==>
                  f in config.features && (f == Cac ==> OfSnapshot(src)))
  {
  }

  predicate Turned(config: Config) {
    Rotation in config.features && (config.rotation == Rotate90 || config.rotation == Rotate270)
  }

  /** A snapshot stream, or the reprocess stream of one. */
  predicate OfSnapshot(s: Stream) {
    || s.kind == Snapshot || s.kind == NonZslSnapshot
    || (s.kind == OfflineProc && s.input.Some? && s.input.value.kind in {Snapshot, NonZslSnapshot})
  }

  predicate Reprocessed(s: Option<Stream>) { s.Some? && s.value.kind != Metadata }

  /** The streams added for a source, the handles noted for them, and the outcome. overrun says that
      a handle was written behind the end of the table, which has as much room as the channel.
   */
  datatype Built = Built(streams: seq<Option<Stream>>, handles: seq<nat>, rc: int, overrun: bool)

  function Build(src: seq<Option<Stream>>, config: Config, burst: nat, answers: seq<Answer>, room: nat): (b: Built)
    requires |answers| == |src|
    ensures |b.streams| == |b.handles| <= |src| && |b.streams| <= room
    ensures b.overrun ==> b.rc == BAD_VALUE && |b.streams| == room
    ensures b.rc == 0 ==> forall i | 0 <= i < |src| && Reprocessed(src[i]) :: answers[i].Made?
  {
    if src == [] then Built([], [], 0, false)
    else
      var n := |src| - 1;
      var b := Build(src[..n], config, burst, answers[..n], room);
      if b.rc != 0 || !Reprocessed(src[n]) then b
      else if answers[n].NoInfoBuffer? then b.(rc := NO_MEMORY)
      else if |b.streams| == room then b.(rc := BAD_VALUE, overrun := true)
      else
        match answers[n]
        case NoStream => b.(rc := NO_MEMORY)
        case InitFails(rc) => b.(rc := rc)
        case Made(_, _) =>
          Built(b.streams + [Some(ReprocOf(src[n].value, config, burst, answers[n]))],
                b.handles + [src[n].value.handle], 0, false)
  }

  /** The first place of a handle, or the length. */
  function FirstIndex(handles: seq<nat>, h: nat): (k: nat)
    ensures k <= |handles| && (k < |handles| ==> handles[k] == h)
    ensures forall j | 0 <= j < k :: handles[j] != h
  {
    if handles == [] then 0
    else
      var n := |handles| - 1;
      var k := FirstIndex(handles[..n], h);
      if k < n then k else if handles[n] == h then n else n + 1
  }

  function Find(handles: seq<nat>, streams: seq<Option<Stream>>, h: nat): Option<Stream>
    requires |handles| == |streams|
  {
    var k := FirstIndex(handles, h);
    if k < |handles| then streams[k] else None
  }

  // ---------- looking up what was added ----------

  /** How many streams are reprocessed before the i-th. */
  function Slot(src: seq<Option<Stream>>, i: nat): (k: nat)
    requires i <= |src|
    ensures k <= i
  {
    if i == 0 then 0 else Slot(src, i - 1) + if Reprocessed(src[i - 1]) then 1 else 0
  }

  lemma {:induction false} SlotPrefix(src: seq<Option<Stream>>, n: nat, i: nat)
    requires i <= n <= |src|
    ensures Slot(src[..n], i) == Slot(src, i)
  {
    if i > 0 {
      SlotPrefix(src, n, i - 1);
    }
  }

  /** What was added for each source, in the order of the sources. */
  lemma {:induction false} BuiltAt(src: seq<Option<Stream>>, config: Config, burst: nat, answers: seq<Answer>,
                                   room: nat, i: nat)
    requires |answers| == |src| && Build(src, config, burst, answers, room).rc == 0
    requires i < |src| && Reprocessed(src[i])
    ensures var b := Build(src, config, burst, answers, room);
            && Slot(src, i) < |b.handles| && b.handles[Slot(src, i)] == src[i].value.handle
            && answers[i].Made?
            && b.streams[Slot(src, i)] == Some(ReprocOf(src[i].value, config, burst, answers[i]))
  {
    hide ReprocOf, Slot;
    var n := |src| - 1;
    SlotPrefix(src, n, i);
    if i < n {
      BuiltAt(src[..n], config, burst, answers[..n], room, i);
    } else {
      BuiltCount(src[..n], config, burst, answers[..n], room);
    }
  }

  lemma {:induction false} BuiltCount(src: seq<Option<Stream>>, config: Config, burst: nat, answers: seq<Answer>,
                                      room: nat)
    requires |answers| == |src| && Build(src, config, burst, answers, room).rc == 0
    ensures |Build(src, config, burst, answers, room).handles| == Slot(src, |src|)
  {
    hide ReprocOf;
    if src != [] {
      var n := |src| - 1;
      SlotPrefix(src, n, n);
      BuiltCount(src[..n], config, burst, answers[..n], room);
    }
  }

  /** No stream is added, and no handle noted, but for a source that is not metadata; this holds of
      a call that fails half-way, too.
   */
  lemma {:induction false} BuiltFrom(src: seq<Option<Stream>>, config: Config, burst: nat, answers: seq<Answer>,
                                     room: nat, k: nat)
    requires |answers| == |src| && k < |Build(src, config, burst, answers, room).streams|
    ensures exists i | 0 <= i < |src| ::
              && Reprocessed(src[i]) && answers[i].Made?
              && Build(src, config, burst, answers, room).handles[k] == src[i].value.handle
              && Build(src, config, burst, answers, room).streams[k] ==
                 Some(ReprocOf(src[i].value, config, burst, answers[i]))
  {
    hide ReprocOf;
    var n := |src| - 1;
    var b := Build(src[..n], config, burst, answers[..n], room);
    if k < |b.streams| {
      BuiltFrom(src[..n], config, burst, answers[..n], room, k);
      var i :| 0 <= i < n && Reprocessed(src[..n][i]) && answers[..n][i].Made?
               && b.handles[k] == src[..n][i].value.handle
               && b.streams[k] == Some(ReprocOf(src[..n][i].value, config, burst, answers[..n][i]));
      assert src[..n][i] == src[i] && answers[..n][i] == answers[i];
    }
  }

  /** The i-th stream of a source is the first for which there is no room, and comes that far. */
  predicate OverrunsAt(src: seq<Option<Stream>>, answers: seq<Answer>, room: nat, i: nat)
    requires |answers| == |src| && i < |src|
  {
    && Reprocessed(src[i]) && Slot(src, i) == room && !answers[i].NoInfoBuffer?
    && forall j | 0 <= j < i && Reprocessed(src[j]) :: answers[j].Made?
  }

  /** The handle table is overrun exactly when there is such a stream: when the source has more
      streams to reprocess than there is room for, and nothing fails before.
   */
  lemma {:induction false} OverrunIff(src: seq<Option<Stream>>, config: Config, burst: nat,
                                      answers: seq<Answer>, room: nat)
    requires |answers| == |src|
    ensures Build(src, config, burst, answers, room).overrun <==>
            exists i | 0 <= i < |src| :: OverrunsAt(src, answers, room, i)
  {
    hide ReprocOf;
    if src != [] {
      var n := |src| - 1;
      var b := Build(src[..n], config, burst, answers[..n], room);
      OverrunIff(src[..n], config, burst, answers[..n], room);
      forall i | 0 <= i < n
        ensures OverrunsAt(src[..n], answers[..n], room, i) <==> OverrunsAt(src, answers, room, i)
      {
        SlotPrefix(src, n, i);
        assert forall j | 0 <= j <= i :: src[..n][j] == src[j] && answers[..n][j] == answers[j];
      }
      hide OverrunsAt;
      LastOverruns(src, config, burst, answers, room);
    }
  }

  lemma LastOverruns(src: seq<Option<Stream>>, config: Config, burst: nat, answers: seq<Answer>, room: nat)
    requires |answers| == |src| > 0
    ensures var n := |src| - 1;
            Build(src, config, burst, answers, room).overrun <==>
            Build(src[..n], config, burst, answers[..n], room).overrun || OverrunsAt(src, answers, room, n)
  {
    var n := |src| - 1;
    if Build(src[..n], config, burst, answers[..n], room).rc == 0 {
      EarlierMade(src, config, burst, answers, room);
    } else {
      NotBehindFailure(src, config, burst, answers, room);
      hide OverrunsAt, ReprocOf;
    }
  }

  lemma EarlierMade(src: seq<Option<Stream>>, config: Config, burst: nat, answers: seq<Answer>, room: nat)
    requires |answers| == |src| > 0
    requires Build(src[..|src| - 1], config, burst, answers[..|src| - 1], room).rc == 0
    ensures Build(src, config, burst, answers, room).overrun <==> OverrunsAt(src, answers, room, |src| - 1)
  {
    var n := |src| - 1;
    BuiltCount(src[..n], config, burst, answers[..n], room);
    SlotPrefix(src, n, n);
    forall j | 0 <= j < n && Reprocessed(src[j]) ensures answers[j].Made? {
      assert Reprocessed(src[..n][j]) && answers[..n][j] == answers[j];
    }
    hide ReprocOf, Slot;
  }

  lemma NotBehindFailure(src: seq<Option<Stream>>, config: Config, burst: nat, answers: seq<Answer>, room: nat)
    requires |answers| == |src| > 0
    requires Build(src[..|src| - 1], config, burst, answers[..|src| - 1], room).rc != 0
    ensures !OverrunsAt(src, answers, room, |src| - 1)
  {
    var n := |src| - 1;
    FailedBefore(src[..n], config, burst, answers[..n], room);
    SlotPrefix(src, n, n);
    hide Build, Slot;
    if j :| 0 <= j < n && Reprocessed(src[..n][j]) && !answers[..n][j].Made? {
      assert Reprocessed(src[j]) && !answers[j].Made?;
    }
  }

  /** A failure has a cause: an answer that was not a stream, or want of room. */
  lemma {:induction false} FailedBefore(src: seq<Option<Stream>>, config: Config, burst: nat,
                                        answers: seq<Answer>, room: nat)
    requires |answers| == |src| && Build(src, config, burst, answers, room).rc != 0
    ensures (exists j | 0 <= j < |src| :: Reprocessed(src[j]) && !answers[j].Made?) || Slot(src, |src|) > room
  {
    hide ReprocOf;
    var n := |src| - 1;
    SlotPrefix(src, n, n);
    var b := Build(src[..n], config, burst, answers[..n], room);
    if b.rc != 0 {
      FailedBefore(src[..n], config, burst, answers[..n], room);
      if j :| 0 <= j < n && Reprocessed(src[..n][j]) && !answers[..n][j].Made? {
        assert src[j] == src[..n][j] && answers[j] == answers[..n][j];
      }
    } else {
      BuiltCount(src[..n], config, burst, answers[..n], room);
    }
  }

  /** A full channel is asked to reprocess one stream more. */
  lemma OverrunHappens(stream: Stream, config: Config, burst: nat)
    requires stream.kind != Metadata
    ensures Build([Some(stream)], config, burst, [Made(9, 9)], 0) == Built([], [], BAD_VALUE, true)
  {
    assert Build([Some(stream)][..0], config, burst, [Made(9, 9)][..0], 0) == Built([], [], 0, false);
  }

  /** The code with which the call ends at a stream that is not made; full says that there is no room for it. */
  function CodeOf(a: Answer, full: bool): int {
    match a
    case NoInfoBuffer => NO_MEMORY
    case NoStream => if full then BAD_VALUE else NO_MEMORY
    case InitFails(rc) => if full then BAD_VALUE else rc
    case Made(_, _) => if full then BAD_VALUE else 0
  }

  /** Every stream before the i-th that is to be reprocessed is made, and has room. */
  predicate MadeBefore(src: seq<Option<Stream>>, answers: seq<Answer>, room: nat, i: nat)
    requires |answers| == |src| && i <= |src|
  {
    forall j | 0 <= j < i && Reprocessed(src[j]) :: answers[j].Made? && Slot(src, j) < room
  }

  /** The i-th stream is the first that is not made, and rc the code of that. */
  predicate FailsAt(src: seq<Option<Stream>>, answers: seq<Answer>, room: nat, rc: int, i: nat)
    requires |answers| == |src| && i < |src|
  {
    && MadeBefore(src, answers, room, i) && Reprocessed(src[i])
    && (!answers[i].Made? || Slot(src, i) == room) && rc == CodeOf(answers[i], Slot(src, i) == room)
  }

  /** The outcome is that of the first stream that is not made for want of memory, or of room, or
      because it fails to start; 0 if all are made.
   */
  lemma {:induction false} OutcomeIs(src: seq<Option<Stream>>, config: Config, burst: nat, answers: seq<Answer>,
                                     room: nat)
    requires |answers| == |src|
    ensures var rc := Build(src, config, burst, answers, room).rc;
            if rc == 0 then MadeBefore(src, answers, room, |src|)
            else exists i | 0 <= i < |src| :: FailsAt(src, answers, room, rc, i)
  {
    if src != [] {
      var n := |src| - 1;
      OutcomeIs(src[..n], config, burst, answers[..n], room);
      LastOutcome(src, config, burst, answers, room);
      hide Build, FailsAt, MadeBefore;
      var rc := Build(src[..n], config, burst, answers[..n], room).rc;
      if rc != 0 {
        var i :| 0 <= i < n && FailsAt(src[..n], answers[..n], room, rc, i);
        FailsPrefix(src, answers, room, rc, n, i);
      } else {
        MadePrefix(src, answers, room, n, n);
        NextOutcome(src, answers, room);
      }
    }
  }

  lemma MadePrefix(src: seq<Option<Stream>>, answers: seq<Answer>, room: nat, n: nat, i: nat)
    requires |answers| == |src| && i <= n <= |src|
    ensures MadeBefore(src[..n], answers[..n], room, i) <==> MadeBefore(src, answers, room, i)
  {
    forall j | 0 <= j < i
      ensures src[..n][j] == src[j] && answers[..n][j] == answers[j] && Slot(src[..n], j) == Slot(src, j)
    {
      SlotPrefix(src, n, j);
    }
    hide Slot, Reprocessed;
  }

  lemma FailsPrefix(src: seq<Option<Stream>>, answers: seq<Answer>, room: nat, rc: int, n: nat, i: nat)
    requires |answers| == |src| && i < n <= |src| && FailsAt(src[..n], answers[..n], room, rc, i)
    ensures FailsAt(src, answers, room, rc, i)
  {
    MadePrefix(src, answers, room, n, i);
    SlotPrefix(src, n, i);
    hide MadeBefore, Slot, Reprocessed, CodeOf;
  }

  /** The last stream fails, or all are made. */
  lemma NextOutcome(src: seq<Option<Stream>>, answers: seq<Answer>, room: nat)
    requires |answers| == |src| > 0 && MadeBefore(src, answers, room, |src| - 1) && Slot(src, |src| - 1) <= room
    ensures var n := |src| - 1;
            if Fails(src, answers, room)
            then FailsAt(src, answers, room, CodeOf(answers[n], Slot(src, n) == room), n)
            else MadeBefore(src, answers, room, |src|)
  {
    hide Slot, CodeOf;
  }

  predicate Fails(src: seq<Option<Stream>>, answers: seq<Answer>, room: nat)
    requires |answers| == |src| > 0
  {
    var n := |src| - 1;
    Reprocessed(src[n]) && (!answers[n].Made? || Slot(src, n) == room)
  }

  lemma LastOutcome(src: seq<Option<Stream>>, config: Config, burst: nat, answers: seq<Answer>, room: nat)
    requires |answers| == |src| > 0
    ensures var n := |src| - 1;
            var before := Build(src[..n], config, burst, answers[..n], room).rc;
            var rc := Build(src, config, burst, answers, room).rc;
            if before != 0 then rc == before
            else
              && Slot(src, n) <= room
              && (rc != 0 <==> Fails(src, answers, room))
              && (rc != 0 ==> rc == CodeOf(answers[n], Slot(src, n) == room))
  {
    var n := |src| - 1;
    if Build(src[..n], config, burst, answers[..n], room).rc == 0 {
      BuiltCount(src[..n], config, burst, answers[..n], room);
      SlotPrefix(src, n, n);
    }
    hide ReprocOf, Slot, Reprocessed;
  }

  predicate DistinctHandles(src: seq<Option<Stream>>) {
    forall i, j | 0 <= i < j < |src| && src[i].Some? && src[j].Some? :: src[i].value.handle != src[j].value.handle
  }

  /** Every source that is not metadata finds the stream that was built from it, and a metadata
      source finds none.
   */
  lemma FindsItsOwn(src: seq<Option<Stream>>, config: Config, burst: nat, answers: seq<Answer>, room: nat, i: nat)
    requires |answers| == |src| && Build(src, config, burst, answers, room).rc == 0
    requires DistinctHandles(src) && i < |src| && src[i].Some?
    ensures var b := Build(src, config, burst, answers, room);
            if src[i].value.kind == Metadata then Find(b.handles, b.streams, src[i].value.handle) == None
            else answers[i].Made?
                 && Find(b.handles, b.streams, src[i].value.handle)
                    == Some(ReprocOf(src[i].value, config, burst, answers[i]))
  {
    hide ReprocOf, Build, Slot;
    var b := Build(src, config, burst, answers, room);
    var k := FirstIndex(b.handles, src[i].value.handle);
    if k < |b.handles| {
      BuiltFrom(src, config, burst, answers, room, k);
    }
    if src[i].value.kind != Metadata {
      BuiltAt(src, config, burst, answers, room, i);
    }
  }

  /** Where a source handle is, among streams some of which may be missing, or the length. */
  function StreamIndex(streams: seq<Option<Stream>>, h: nat): (i: nat)
    ensures i <= |streams|
    ensures i < |streams| ==> streams[i].Some? && streams[i].value.handle == h
    ensures forall j | 0 <= j < i :: streams[j].Some? ==> streams[j].value.handle != h
  {
    if streams == [] then 0
    else
      var n := |streams| - 1;
      var i := StreamIndex(streams[..n], h);
      if i < n then i else if streams[n].Some? && streams[n].value.handle == h then n else n + 1
  }

  /** The reprocess stream for any handle whatever: the one built from the source of that handle,
      and none if there is no such source or it is metadata.
   */
  function StreamFor(src: seq<Option<Stream>>, config: Config, burst: nat, answers: seq<Answer>, room: nat,
                     h: nat): Option<Stream>
    requires |answers| == |src| && Build(src, config, burst, answers, room).rc == 0
  {
    var i := StreamIndex(src, h);
    if i < |src| && Reprocessed(src[i]) then Some(ReprocOf(src[i].value, config, burst, answers[i])) else None
  }

  lemma FindsByHandle(src: seq<Option<Stream>>, config: Config, burst: nat, answers: seq<Answer>, room: nat, h: nat)
    requires |answers| == |src| && Build(src, config, burst, answers, room).rc == 0 && DistinctHandles(src)
    ensures var b := Build(src, config, burst, answers, room);
            Find(b.handles, b.streams, h) == StreamFor(src, config, burst, answers, room, h)
  {
    hide ReprocOf, Build;
    var b, i := Build(src, config, burst, answers, room), StreamIndex(src, h);
    if i < |src| {
      FindsItsOwn(src, config, burst, answers, room, i);
    } else if FirstIndex(b.handles, h) < |b.handles| {
      BuiltFrom(src, config, burst, answers, room, FirstIndex(b.handles, h));
    }
  }

  // ---------- sending a frame to be reprocessed ----------

  /** A buffer of a frame, and a reprocess request. */
  datatype Buf = Buf(streamId: nat, bufIdx: nat, frameIdx: nat)
  datatype Meta = Meta(serverId: nat, bufIdx: nat)
  datatype Request = Request(stream: Stream, bufIdx: nat, frameIdx: nat, meta: Option<Meta>)

  datatype Sending = Sending(requests: seq<Request>, rc: int)

  /** The metadata that goes along: that of the first metadata buffer in the frame. */
  function MetaOf(src: seq<Option<Stream>>, bufs: seq<Buf>): Option<Meta> {
    if bufs == [] then None
    else
      var n := |bufs| - 1;
      var before, i := MetaOf(src, bufs[..n]), StreamIndex(src, bufs[n].streamId);
      if before.None? && i < |src| && src[i].value.kind == Metadata
      then Some(Meta(src[i].value.serverId, bufs[n].bufIdx))
      else before
  }

  predicate IsMeta(src: seq<Option<Stream>>, buf: Buf) {
    StreamIndex(src, buf.streamId) < |src| && src[StreamIndex(src, buf.streamId)].value.kind == Metadata
  }

  /** The metadata sent along is that of the first buffer of a metadata stream, if there is one. */
  lemma {:induction false} MetaIsFirst(src: seq<Option<Stream>>, bufs: seq<Buf>)
    ensures MetaOf(src, bufs).None? <==> forall k | 0 <= k < |bufs| :: !IsMeta(src, bufs[k])
    ensures MetaOf(src, bufs).Some? ==>
              exists j | 0 <= j < |bufs| ::
                && IsMeta(src, bufs[j]) && (forall k | 0 <= k < j :: !IsMeta(src, bufs[k]))
                && MetaOf(src, bufs).value ==
                   Meta(src[StreamIndex(src, bufs[j].streamId)].value.serverId, bufs[j].bufIdx)
  {
    hide StreamIndex;
    if bufs != [] {
      var n := |bufs| - 1;
      MetaIsFirst(src, bufs[..n]);
      assert forall k | 0 <= k < n :: bufs[..n][k] == bufs[k];
      if MetaOf(src, bufs[..n]).Some? {
        var j :| 0 <= j < n && IsMeta(src, bufs[..n][j]) && (forall k | 0 <= k < j :: !IsMeta(src, bufs[..n][k]))
                 && MetaOf(src, bufs[..n]).value ==
                    Meta(src[StreamIndex(src, bufs[..n][j].streamId)].value.serverId, bufs[..n][j].bufIdx);
        assert IsMeta(src, bufs[j]) && forall k | 0 <= k < j :: !IsMeta(src, bufs[k]);
      } else if IsMeta(src, bufs[n]) {
        assert forall k | 0 <= k < n :: !IsMeta(src, bufs[k]);
      }
    }
  }

  /** The requests for the buffers, up to and including the first that is refused; rcs are the
      backend's answers.
   */
  function Sent(handles: seq<nat>, streams: seq<Option<Stream>>, bufs: seq<Buf>, meta: Option<Meta>, rcs: seq<int>)
    : Sending
    requires |rcs| == |bufs| && |handles| == |streams|
  {
    if bufs == [] then Sending([], 0)
    else
      var n := |bufs| - 1;
      var before := Sent(handles, streams, bufs[..n], meta, rcs[..n]);
      var s := Find(handles, streams, bufs[n].streamId);
      if before.rc != 0 || !Reprocessed(s) then before
      else Sending(before.requests + [Request(s.value, bufs[n].bufIdx, bufs[n].frameIdx, meta)], rcs[n])
  }

  /** How many of the first n buffers come from a stream that is reprocessed. */
  function Sendable(src: seq<Option<Stream>>, bufs: seq<Buf>, n: nat): nat
    requires n <= |bufs|
  {
    if n == 0 then 0
    else
      var i := StreamIndex(src, bufs[n - 1].streamId);
      Sendable(src, bufs, n - 1) + if i < |src| && Reprocessed(src[i]) then 1 else 0
  }

  lemma {:induction false} SendablePrefix(src: seq<Option<Stream>>, bufs: seq<Buf>, m: nat, n: nat)
    requires n <= m <= |bufs|
    ensures Sendable(src, bufs[..m], n) == Sendable(src, bufs, n)
  {
    if n > 0 {
      SendablePrefix(src, bufs, m, n - 1);
    }
  }

  /** A frame sent through the streams of its source: unless a request is refused, there are
      exactly as many requests as buffers of reprocessed streams ...
   */
  lemma {:induction false} OneRequestEach(src: seq<Option<Stream>>, config: Config, burst: nat,
                                         answers: seq<Answer>, room: nat,
                                       bufs: seq<Buf>, meta: Option<Meta>, rcs: seq<int>)
    requires |answers| == |src| && Build(src, config, burst, answers, room).rc == 0 && DistinctHandles(src)
    requires |rcs| == |bufs|
    requires var b := Build(src, config, burst, answers, room); Sent(b.handles, b.streams, bufs, meta, rcs).rc == 0
    ensures var b := Build(src, config, burst, answers, room);
            |Sent(b.handles, b.streams, bufs, meta, rcs).requests| == Sendable(src, bufs, |bufs|)
  {
    hide ReprocOf, Build, Find;
    if bufs != [] {
      var n := |bufs| - 1;
      OneRequestEach(src, config, burst, answers, room, bufs[..n], meta, rcs[..n]);
      FindsByHandle(src, config, burst, answers, room, bufs[n].streamId);
      SendablePrefix(src, bufs, n, n);
    }
  }

  /** ... and each buffer's own request, in its turn, goes to the stream built from the one the
      buffer is of.
   */
  lemma {:induction false} RoutesBuffer(src: seq<Option<Stream>>, config: Config, burst: nat, answers: seq<Answer>,
                                        room: nat,
                                       bufs: seq<Buf>, meta: Option<Meta>, rcs: seq<int>, j: nat)
    requires |answers| == |src| && Build(src, config, burst, answers, room).rc == 0 && DistinctHandles(src)
    requires |rcs| == |bufs|
    requires var b := Build(src, config, burst, answers, room); Sent(b.handles, b.streams, bufs, meta, rcs).rc == 0
    requires j < |bufs|
    requires StreamIndex(src, bufs[j].streamId) < |src| && Reprocessed(src[StreamIndex(src, bufs[j].streamId)])
    ensures var b, i := Build(src, config, burst, answers, room), StreamIndex(src, bufs[j].streamId);
            var requests := Sent(b.handles, b.streams, bufs, meta, rcs).requests;
            && Sendable(src, bufs, j) < |requests|
            && requests[Sendable(src, bufs, j)] ==
               Request(ReprocOf(src[i].value, config, burst, answers[i]), bufs[j].bufIdx, bufs[j].frameIdx, meta)
  {
    hide ReprocOf, Build, Find, StreamIndex;
    var n := |bufs| - 1;
    SendablePrefix(src, bufs, n, j);
    if j < n {
      RoutesBuffer(src, config, burst, answers, room, bufs[..n], meta, rcs[..n], j);
    } else {
      FindsByHandle(src, config, burst, answers, room, bufs[n].streamId);
      OneRequestEach(src, config, burst, answers, room, bufs[..n], meta, rcs[..n]);
    }
  }

  /** Whether a buffer goes to some reprocess stream. */
  predicate Sends(handles: seq<nat>, streams: seq<Option<Stream>>, buf: Buf)
    requires |handles| == |streams|
  {
    Reprocessed(Find(handles, streams, buf.streamId))
  }

  lemma {:induction false} SentSome(handles: seq<nat>, streams: seq<Option<Stream>>, bufs: seq<Buf>,
                                    meta: Option<Meta>, rcs: seq<int>)
    requires |rcs| == |bufs| && |handles| == |streams|
    ensures Sent(handles, streams, bufs, meta, rcs).requests != [] <==>
            exists j | 0 <= j < |bufs| :: Sends(handles, streams, bufs[j])
    ensures Sent(handles, streams, bufs, meta, rcs).rc != 0 ==> Sent(handles, streams, bufs, meta, rcs).requests != []
  {
    hide Find;
    if bufs != [] {
      var n := |bufs| - 1;
      SentSome(handles, streams, bufs[..n], meta, rcs[..n]);
      assert forall j | 0 <= j < n :: bufs[..n][j] == bufs[j];
    }
  }

  /** When a frame is refused, the buffer refused is the last one sent, and the requests before it
      were accepted: there are some exactly if an earlier buffer goes to a reprocess stream, too.
   */
  lemma {:induction false} RefusedBehindAccepted(handles: seq<nat>, streams: seq<Option<Stream>>, bufs: seq<Buf>,
                                                 meta: Option<Meta>, rcs: seq<int>) returns (j: nat)
    requires |rcs| == |bufs| && |handles| == |streams| && Sent(handles, streams, bufs, meta, rcs).rc != 0
    ensures j < |bufs| && Sends(handles, streams, bufs[j])
    ensures var sent := Sent(handles, streams, bufs, meta, rcs);
            var accepted := Sent(handles, streams, bufs[..j], meta, rcs[..j]);
            && sent.rc == rcs[j] && accepted.rc == 0
            && |sent.requests| == |accepted.requests| + 1 && accepted.requests <= sent.requests
            && (|sent.requests| > 1 <==> exists i | 0 <= i < j :: Sends(handles, streams, bufs[i]))
  {
    hide Find, Sends;
    var n := |bufs| - 1;
    var before := Sent(handles, streams, bufs[..n], meta, rcs[..n]);
    if before.rc != 0 {
      j := RefusedBehindAccepted(handles, streams, bufs[..n], meta, rcs[..n]);
      assert bufs[..n][..j] == bufs[..j] && rcs[..n][..j] == rcs[..j];
      assert forall i | 0 <= i <= j :: bufs[..n][i] == bufs[i];
    } else {
      j := n;
      assert Sends(handles, streams, bufs[n]) by { LastSends(handles, streams, bufs, meta, rcs); }
      SentSome(handles, streams, bufs[..n], meta, rcs[..n]);
      assert forall i | 0 <= i < n :: bufs[..n][i] == bufs[i];
    }
  }

  lemma LastSends(handles: seq<nat>, streams: seq<Option<Stream>>, bufs: seq<Buf>, meta: Option<Meta>, rcs: seq<int>)
    requires |rcs| == |bufs| > 0 && |handles| == |streams| && Sent(handles, streams, bufs, meta, rcs).rc != 0
    requires Sent(handles, streams, bufs[..|bufs| - 1], meta, rcs[..|bufs| - 1]).rc == 0
    ensures Sends(handles, streams, bufs[|bufs| - 1])
  {
    hide Find;
  }

  // ---------- the channels ----------

  class QCameraChannel {
    const streams: array<Option<Stream>>
    var numStreams: nat

    ghost predicate Valid()
      reads this
    {
      streams.Length == MAX_STREAM_NUM_IN_BUNDLE && numStreams <= MAX_STREAM_NUM_IN_BUNDLE
    }

    ghost function Streams(): (s: seq<Option<Stream>>)
      reads this, streams
      requires Valid()
      ensures |s| == numStreams
    {
      streams[..numStreams]
    }

    constructor ()
      ensures Valid() && Streams() == [] && fresh(streams)
    {
      streams := new Option<Stream>[MAX_STREAM_NUM_IN_BUNDLE](_ => None);
      numStreams := 0;
    }

    /** answer is what making and initialising the stream comes to. */
    method AddStream(stream: Stream, answer: Answer) returns (rc: int)
      requires Valid() && !answer.NoInfoBuffer?
      modifies this, streams
      ensures Valid()
      ensures rc == if old(numStreams) >= MAX_STREAM_NUM_IN_BUNDLE then BAD_VALUE
                    else if answer.NoStream? then NO_MEMORY else if answer.InitFails? then answer.rc else 0
      ensures Streams() == old(Streams()) + if rc == 0 then [Some(stream)] else []
    {
      if numStreams >= MAX_STREAM_NUM_IN_BUNDLE { return BAD_VALUE; }
      if answer.NoStream? { return NO_MEMORY; }
      if answer.InitFails? { return answer.rc; }
      streams[numStreams] := Some(stream);
      numStreams := numStreams + 1;
      return 0;
    }

    method GetStreamByHandle(h: nat) returns (s: Option<Stream>)
      requires Valid()
      ensures s == var i := StreamIndex(Streams(), h); if i < numStreams then streams[i] else None
    {
      var i := 0;
      while i < numStreams
        invariant i <= numStreams && forall j | 0 <= j < i :: streams[j].Some? ==> streams[j].value.handle != h
      {
        if streams[i].Some? && streams[i].value.handle == h { return streams[i]; }
        i := i + 1;
      }
      return None;
    }

    method GetStreamByIndex(index: nat) returns (s: Option<Stream>)
      requires Valid()
      ensures s == if index < numStreams then streams[index] else None
    {
      if index < numStreams { return streams[index]; }
      return None;
    }
  }

  /** The inherited part is the field channel. */
  class QCameraReprocessChannel {
    const channel: QCameraChannel
    const srcStreamHandles: array<nat>
    var source: QCameraChannel?

    ghost predicate Valid()
      reads this, channel
    {
      channel.Valid() && srcStreamHandles.Length == MAX_STREAM_NUM_IN_BUNDLE
    }

    ghost function Handles(): (s: seq<nat>)
      reads this, channel, srcStreamHandles
      requires Valid()
      ensures |s| == channel.numStreams
    {
      srcStreamHandles[..channel.numStreams]
    }

    constructor ()
      ensures Valid() && fresh(channel) && fresh(channel.streams) && fresh(srcStreamHandles)
      ensures channel.Streams() == [] && source == null
    {
      channel := new QCameraChannel();
      srcStreamHandles := new nat[MAX_STREAM_NUM_IN_BUNDLE](_ => 0);
      source := null;
    }

    method ClearHandles()
      requires Valid()
      modifies srcStreamHandles
      ensures forall j | 0 <= j < MAX_STREAM_NUM_IN_BUNDLE :: srcStreamHandles[j] == 0
    {
      for k := 0 to srcStreamHandles.Length
        invariant forall j | 0 <= j < k :: srcStreamHandles[j] == 0
      {
        srcStreamHandles[k] := 0;
      }
    }

    /** Notes the source handle, then adds the stream; the handle of a stream that was not added
        stays beyond those in use. With the channel full, the handle goes behind the table.
     */
    method AddOne(s: Stream, config: Config, burst: nat, answer: Answer) returns (rc: int, overrun: bool)
      requires Valid()
      modifies channel, channel.streams, srcStreamHandles
      ensures Valid()
      ensures overrun == (!answer.NoInfoBuffer? && old(channel.numStreams) == MAX_STREAM_NUM_IN_BUNDLE)
      ensures rc == if overrun then BAD_VALUE else match answer
                                                   case NoInfoBuffer => NO_MEMORY
                                                   case NoStream => NO_MEMORY
                                                   case InitFails(e) => e
                                                   case Made(_, _) => 0
      ensures rc != 0 ==> channel.Streams() == old(channel.Streams()) && Handles() == old(Handles())
      ensures rc == 0 ==>
                && channel.Streams() == old(channel.Streams()) + [Some(ReprocOf(s, config, burst, answer))]
                && Handles() == old(Handles()) + [s.handle]
    {
      hide ReprocOf;
      if answer.NoInfoBuffer? { return NO_MEMORY, false; }
      var stream := s;
      if answer.Made? { stream := ReprocOf(s, config, burst, answer); }
      overrun := channel.numStreams == MAX_STREAM_NUM_IN_BUNDLE;
      if !overrun { srcStreamHandles[channel.numStreams] := s.handle; }
      rc := channel.AddStream(stream, answer);
    }

    /** answers holds one answer for each stream of the source. */
    method AddReprocStreamsFromSource(src: QCameraChannel, config: Config, burst: nat, answers: seq<Answer>)
      returns (rc: int, overrun: bool)
      requires Valid() && src.Valid() && src != channel && src.streams != channel.streams
      requires |answers| == src.numStreams
      modifies this`source, channel, channel.streams, srcStreamHandles
      ensures Valid()
      ensures var b := Build(src.Streams(), config, burst, answers, old(MAX_STREAM_NUM_IN_BUNDLE - channel.numStreams));
              && rc == b.rc && overrun == b.overrun
              && channel.Streams() == old(channel.Streams()) + b.streams
              && Handles() == Zeros(old(channel.numStreams)) + b.handles
      ensures source == if rc == 0 then src else old(source)
    {
      hide ReprocOf, Build, BuildTo, Zeros;
      rc, overrun := 0, false;
      ghost var n0, ss, all := channel.numStreams, src.Streams(), channel.Streams();
      ghost var room := MAX_STREAM_NUM_IN_BUNDLE - n0;
      BuildStart(ss, config, burst, answers, room);
      ClearHandles();
      ZerosAre(Handles());
      var i := 0;
      while i < src.numStreams
        invariant 0 <= i <= src.numStreams && Valid() && src.Valid() && src.Streams() == ss && |answers| == |ss|
        invariant rc == 0 && BuildTo(ss, config, burst, answers, room, i).rc == 0
        invariant !overrun && channel.numStreams == n0 + |BuildTo(ss, config, burst, answers, room, i).streams|
        invariant channel.Streams() == all + BuildTo(ss, config, burst, answers, room, i).streams
        invariant Handles() == Zeros(n0) + BuildTo(ss, config, burst, answers, room, i).handles
        invariant source == old(source)
      {
        var s := src.GetStreamByIndex(i);
        BuildStep(ss, config, burst, answers, room, i);
        ghost var b := BuildTo(ss, config, burst, answers, room, i);
        if s.Some? && s.value.kind != Metadata {
          rc, overrun := AddOne(s.value, config, burst, answers[i]);
          if rc != 0 { return; }
          Regroup(all, b.streams, [Some(ReprocOf(s.value, config, burst, answers[i]))]);
          Regroup(Zeros(n0), b.handles, [s.value.handle]);
        }
        i := i + 1;
      }
      BuildWhole(ss, config, burst, answers, room);
      source := src;
    }

    method GetStreamBySourceHandle(h: nat) returns (s: Option<Stream>)
      requires Valid()
      ensures s == Find(Handles(), channel.Streams(), h)
    {
      var i := 0;
      while i < channel.numStreams
        invariant i <= channel.numStreams && forall j | 0 <= j < i :: srcStreamHandles[j] != h
      {
        if srcStreamHandles[i] == h { return channel.streams[i]; }
        i := i + 1;
      }
      return None;
    }

    /** rcs holds the backend's answer to the request for each buffer, if one is made. */
    method DoReprocess(bufs: seq<Buf>, rcs: seq<int>) returns (rc: int, requests: seq<Request>)
      requires Valid() && (source != null ==> source.Valid()) && |rcs| == |bufs|
      ensures channel.numStreams < 1 || source == null ==> rc == -1 && requests == []
      ensures channel.numStreams >= 1 && source != null ==>
                Sending(requests, rc)
                == Sent(Handles(), channel.Streams(), bufs, MetaOf(source.Streams(), bufs), rcs)
    {
      rc, requests := 0, [];
      if channel.numStreams < 1 { return -1, []; }
      if source == null { return -1, []; }
      var meta := FindMeta(bufs);
      hide MetaOf, Find, Sent;
      SentStart(Handles(), channel.Streams(), bufs, meta, rcs);
      var i := 0;
      while i < |bufs|
        invariant 0 <= i <= |bufs|
        invariant rc == 0
        invariant Sending(requests, 0) == Sent(Handles(), channel.Streams(), bufs[..i], meta, rcs[..i])
      {
        SentStep(Handles(), channel.Streams(), bufs, meta, rcs, i);
        var s := GetStreamBySourceHandle(bufs[i].streamId);
        if s.Some? && s.value.kind != Metadata {
          requests := requests + [Request(s.value, bufs[i].bufIdx, bufs[i].frameIdx, meta)];
          rc := rcs[i];
          if rc != 0 {
            SentStops(Handles(), channel.Streams(), bufs, meta, rcs, i + 1);
            return;
          }
        }
        i := i + 1;
      }
      assert bufs[..i] == bufs && rcs[..i] == rcs;
    }

    method FindMeta(bufs: seq<Buf>) returns (meta: Option<Meta>)
      requires source != null && source.Valid()
      ensures meta == MetaOf(source.Streams(), bufs)
    {
      var i := 0;
      while i < |bufs|
        invariant 0 <= i <= |bufs| && MetaOf(source.Streams(), bufs[..i]) == None
      {
        assert bufs[..i + 1][..i] == bufs[..i];
        var s := source.GetStreamByHandle(bufs[i].streamId);
        if s.Some? && s.value.kind == Metadata {
          MetaStops(source.Streams(), bufs, i + 1);
          return Some(Meta(s.value.serverId, bufs[i].bufIdx));
        }
        i := i + 1;
      }
      assert bufs[..i] == bufs;
      return None;
    }
  }

  lemma {:induction false} MetaStops(src: seq<Option<Stream>>, bufs: seq<Buf>, n: nat)
    requires n <= |bufs| && MetaOf(src, bufs[..n]).Some?
    ensures MetaOf(src, bufs) == MetaOf(src, bufs[..n])
  {
    var m := |bufs| - 1;
    if n <= m {
      assert bufs[..m][..n] == bufs[..n];
      MetaStops(src, bufs[..m], n);
    } else {
      assert bufs[..n] == bufs;
    }
  }

  lemma SentStart(handles: seq<nat>, streams: seq<Option<Stream>>, bufs: seq<Buf>, meta: Option<Meta>, rcs: seq<int>)
    requires |rcs| == |bufs| && |handles| == |streams|
    ensures Sent(handles, streams, bufs[..0], meta, rcs[..0]) == Sending([], 0)
  {
  }

  lemma SentStep(handles: seq<nat>, streams: seq<Option<Stream>>, bufs: seq<Buf>, meta: Option<Meta>,
                 rcs: seq<int>, i: nat)
    requires |rcs| == |bufs| && |handles| == |streams| && i < |bufs|
    ensures var before := Sent(handles, streams, bufs[..i], meta, rcs[..i]);
            var s := Find(handles, streams, bufs[i].streamId);
            Sent(handles, streams, bufs[..i + 1], meta, rcs[..i + 1]) ==
            if before.rc != 0 || !Reprocessed(s) then before
            else Sending(before.requests + [Request(s.value, bufs[i].bufIdx, bufs[i].frameIdx, meta)], rcs[i])
  {
    hide Find;
    assert bufs[..i + 1][..i] == bufs[..i] && rcs[..i + 1][..i] == rcs[..i];
  }

  lemma {:induction false} SentStops(handles: seq<nat>, streams: seq<Option<Stream>>, bufs: seq<Buf>,
                                     meta: Option<Meta>,
                                     rcs: seq<int>, n: nat)
    requires |rcs| == |bufs| && |handles| == |streams| && n <= |bufs|
    requires Sent(handles, streams, bufs[..n], meta, rcs[..n]).rc != 0
    ensures Sent(handles, streams, bufs, meta, rcs) == Sent(handles, streams, bufs[..n], meta, rcs[..n])
  {
    hide Find;
    var m := |bufs| - 1;
    if n <= m {
      assert bufs[..m][..n] == bufs[..n] && rcs[..m][..n] == rcs[..n];
      SentStops(handles, streams, bufs[..m], meta, rcs[..m], n);
    } else {
      assert bufs[..n] == bufs && rcs[..n] == rcs;
    }
  }

  /** Streams that were in the channel before are found under no handle but 0 any more, because the
      whole table was cleared; the new ones are found as if they were alone.
   */
  lemma {:induction false} FindBehindZeros(before: seq<Option<Stream>>, handles: seq<nat>,
                                           streams: seq<Option<Stream>>, h: nat)
    requires |handles| == |streams|
    ensures h != 0 ==> Find(Zeros(|before|) + handles, before + streams, h) == Find(handles, streams, h)
    ensures h == 0 && |before| > 0 ==> Find(Zeros(|before|) + handles, before + streams, h) == before[0]
  {
    var k := FirstIndex(Zeros(|before|) + handles, h);
    var j := FirstIndex(handles, h);
    if h != 0 {
      assert j < |handles| ==> (Zeros(|before|) + handles)[|before| + j] == h;
      assert k < |handles| + |before| ==> k >= |before| && handles[k - |before|] == h;
    } else if |before| > 0 {
      assert (Zeros(|before|) + handles)[0] == 0;
    }
  }

  function Zeros(n: nat): (s: seq<nat>)
    ensures |s| == n
  {
    seq(n, _ => 0)
  }

  lemma Regroup<T>(a: seq<T>, b: seq<T>, c: seq<T>)
    ensures (a + b) + c == a + (b + c)
  {
  }

  lemma ZerosAre(s: seq<nat>)
    requires forall j | 0 <= j < |s| :: s[j] == 0
    ensures s == Zeros(|s|)
  {
  }

  function BuildTo(src: seq<Option<Stream>>, config: Config, burst: nat, answers: seq<Answer>, room: nat, n: nat): Built
    requires |answers| == |src| && n <= |src|
  {
    Build(src[..n], config, burst, answers[..n], room)
  }

  lemma BuildStart(src: seq<Option<Stream>>, config: Config, burst: nat, answers: seq<Answer>, room: nat)
    requires |answers| == |src|
    ensures BuildTo(src, config, burst, answers, room, 0) == Built([], [], 0, false)
  {
  }

  lemma BuildWhole(src: seq<Option<Stream>>, config: Config, burst: nat, answers: seq<Answer>, room: nat)
    requires |answers| == |src|
    ensures BuildTo(src, config, burst, answers, room, |src|) == Build(src, config, burst, answers, room)
  {
    assert src[..|src|] == src && answers[..|src|] == answers;
  }

  /** What one source adds; a failure ends it all. */
  lemma BuildStep(src: seq<Option<Stream>>, config: Config, burst: nat, answers: seq<Answer>, room: nat, i: nat)
    requires |answers| == |src| && i < |src|
    requires BuildTo(src, config, burst, answers, room, i).rc == 0
    ensures var b := BuildTo(src, config, burst, answers, room, i);
            var c := BuildTo(src, config, burst, answers, room, i + 1);
            if !Reprocessed(src[i]) then c == b
            else if answers[i].NoInfoBuffer? then Build(src, config, burst, answers, room) == b.(rc := NO_MEMORY)
            else if |b.streams| == room then
              Build(src, config, burst, answers, room) == b.(rc := BAD_VALUE, overrun := true)
            else
              match answers[i]
              case NoStream => Build(src, config, burst, answers, room) == b.(rc := NO_MEMORY)
              case InitFails(e) => Build(src, config, burst, answers, room) == b.(rc := e)
              case Made(_, _) =>
                c == Built(b.streams + [Some(ReprocOf(src[i].value, config, burst, answers[i]))],
                           b.handles + [src[i].value.handle], 0, false)
  {
    assert src[..i + 1][..i] == src[..i] && answers[..i + 1][..i] == answers[..i];
    hide ReprocOf;
    if BuildTo(src, config, burst, answers, room, i + 1).rc != 0 {
      BuildStops(src, config, burst, answers, room, i + 1);
    }
  }

  lemma {:induction false} BuildStops(src: seq<Option<Stream>>, config: Config, burst: nat, answers: seq<Answer>,
                                      room: nat, n: nat)
    requires |answers| == |src| && n <= |src| && BuildTo(src, config, burst, answers, room, n).rc != 0
    ensures Build(src, config, burst, answers, room) == BuildTo(src, config, burst, answers, room, n)
  {
    hide ReprocOf;
    var m := |src| - 1;
    if n <= m {
      assert src[..m][..n] == src[..n] && answers[..m][..n] == answers[..n];
      BuildStops(src[..m], config, burst, answers[..m], room, n);
    } else {
      BuildWhole(src, config, burst, answers, room);
    }
  }
}
