/** What encodeData gathers before it starts a JPEG job: the frames to encode, and whether all is
    there. The post-processor model only needs to know how it ends, an EncodeOutcome.
 */
module EncodeInput {
  import opened Common
  import opened Pipeline

  /** What the stream of a buffer is, or was before reprocessing; None for an unknown stream. */
  datatype Role = SnapshotRole | PreviewRole | OtherRole

  datatype Buf = Buf(role: Option<Role>, hasMemory: bool, metadata: bool)

  /** What is found, and what the encoder answers. */
  datatype Call = Call(
    channelFound: bool,
    bufs: seq<Buf>,          // of the frame to encode
    srcBufs: seq<Buf>,       // of the frame it was reprocessed from, if any
    clientOpen: bool,
    sessionMade: bool,
    session: nat,
    startJob: Option<nat>)   // the id of the job, if it starts

  /** Which buffers are encoded: indices into bufs, and for the metadata perhaps into srcBufs. */
  datatype Meta = NoMeta | InFrame(i: nat) | InSource(j: nat)
  datatype Job = Job(main: nat, thumb: Option<nat>, meta: Meta)

  /** The last buffer of a role. */
  function LastOf(bufs: seq<Buf>, role: Role): (i: Option<nat>)
    ensures i.Some? ==> i.value < |bufs| && bufs[i.value].role == Some(role)
    ensures forall k | (if i.Some? then i.value + 1 else 0) <= k < |bufs| :: bufs[k].role != Some(role)
  {
    if bufs == [] then None
    else if bufs[|bufs| - 1].role == Some(role) then Some(|bufs| - 1)
    else LastOf(bufs[..|bufs| - 1], role)
  }

  /** The first metadata buffer. */
  function FirstMeta(bufs: seq<Buf>): (i: Option<nat>)
    ensures i.Some? ==> i.value < |bufs| && bufs[i.value].metadata
    ensures forall k | 0 <= k < (if i.Some? then i.value else |bufs|) :: !bufs[k].metadata
  {
    if bufs == [] then None
    else
      var before := FirstMeta(bufs[..|bufs| - 1]);
      if before.Some? then before else if bufs[|bufs| - 1].metadata then Some(|bufs| - 1) else None
  }

  function MetaOf(c: Call): Meta {
    if FirstMeta(c.bufs).Some? then InFrame(FirstMeta(c.bufs).value)
    else if FirstMeta(c.srcBufs).Some? then InSource(FirstMeta(c.srcBufs).value)
    else NoMeta
  }

  /** Everything up to the session is there. */
  predicate Complete(c: Call, needNewSess: bool) {
    && c.channelFound && c.clientOpen && (needNewSess ==> c.sessionMade)
    && LastOf(c.bufs, SnapshotRole).Some? && c.bufs[LastOf(c.bufs, SnapshotRole).value].hasMemory
  }

  function OutcomeOf(c: Call, needNewSess: bool): EncodeOutcome {
    if !Complete(c, needNewSess) then NotReady
    else if c.startJob.None? then SessionOnly(c.session)
    else Started(c.session, c.startJob.value)
  }

  /** A job is not ready exactly if its channel, the encoder, a session that is needed, or a snapshot
      buffer is missing, or the last snapshot buffer has no memory; otherwise it starts exactly if the
      encoder takes it.
   */
  lemma OutcomeIff(c: Call, needNewSess: bool)
    ensures var o := OutcomeOf(c, needNewSess);
            && (o.NotReady? <==>
                 || !c.channelFound || !c.clientOpen || (needNewSess && !c.sessionMade)
                 || !exists i | 0 <= i < |c.bufs| ::
                      && c.bufs[i].role == Some(SnapshotRole) && c.bufs[i].hasMemory
                      && forall k | i < k < |c.bufs| :: c.bufs[k].role != Some(SnapshotRole))
            && (!o.NotReady? ==> (o.Started? <==> c.startJob.Some?))
            && (o.Started? ==> o.jobId == c.startJob.value && o.newSession == c.session)
            && (o.SessionOnly? ==> o.session == c.session)
  {
    var last := LastOf(c.bufs, SnapshotRole);
    hide LastOf;
    if last.Some? {
      assert forall k | last.value < k < |c.bufs| :: c.bufs[k].role != Some(SnapshotRole);
    }
  }

  /** The gathering: both loops over the frame, and the search for metadata. */
  method Gather(c: Call, needNewSess: bool, thumbnailNeeded: bool) returns (outcome: EncodeOutcome, job: Option<Job>)
    ensures outcome == OutcomeOf(c, needNewSess) && (job.Some? <==> Complete(c, needNewSess))
    ensures job.Some? ==>
              && Some(job.value.main) == LastOf(c.bufs, SnapshotRole)
              && job.value.thumb == (if !thumbnailNeeded then None
                                     else if LastOf(c.bufs, PreviewRole).Some? then LastOf(c.bufs, PreviewRole)
                                     else Some(job.value.main))
              && job.value.meta == MetaOf(c)
  {
    if !c.channelFound { return NotReady, None; }
    var main, thumb: Option<nat> := None, None;
    for i := 0 to |c.bufs|
      invariant main == LastOf(c.bufs[..i], SnapshotRole) && thumb == LastOf(c.bufs[..i], PreviewRole)
    {
      assert c.bufs[..i + 1][..i] == c.bufs[..i];
      if c.bufs[i].role == Some(SnapshotRole) {
        main := Some(i);
      } else if c.bufs[i].role == Some(PreviewRole) {
        thumb := Some(i);
      }
    }
    assert c.bufs[..|c.bufs|] == c.bufs;
    if main.None? { return NotReady, None; }
    if !c.bufs[main.value].hasMemory { return NotReady, None; }
    if !c.clientOpen { return NotReady, None; }
    if needNewSess && !c.sessionMade { return NotReady, None; }

    var meta := NoMeta;
    var found := FindMeta(c.bufs);
    if found.Some? {
      meta := InFrame(found.value);
    } else {
      found := FindMeta(c.srcBufs);
      if found.Some? { meta := InSource(found.value); }
    }
    // without a preview buffer the main one is its own thumbnail
    if thumb.None? { thumb := main; }
    job := Some(Job(main.value, if thumbnailNeeded then thumb else None, meta));
    outcome := if c.startJob.None? then SessionOnly(c.session) else Started(c.session, c.startJob.value);
  }

  method FindMeta(bufs: seq<Buf>) returns (i: Option<nat>)
    ensures i == FirstMeta(bufs)
  {
    for k := 0 to |bufs|
      invariant FirstMeta(bufs[..k]) == None
    {
      assert bufs[..k + 1][..k] == bufs[..k];
      if bufs[k].metadata {
        FirstMetaStays(bufs, k + 1);
        return Some(k);
      }
    }
    assert bufs[..|bufs|] == bufs;
    return None;
  }

  lemma {:induction false} FirstMetaStays(bufs: seq<Buf>, n: nat)
    requires n <= |bufs| && FirstMeta(bufs[..n]).Some?
    ensures FirstMeta(bufs) == FirstMeta(bufs[..n])
  {
    if n < |bufs| {
      assert bufs[..|bufs| - 1][..n] == bufs[..n];
      FirstMetaStays(bufs[..|bufs| - 1], n);
    } else {
      assert bufs[..n] == bufs;
    }
  }

  /** The session of an outcome is the one that was made. */
  lemma OutcomeSession(c: Call, needNewSess: bool)
    ensures var o := OutcomeOf(c, needNewSess);
            && (o.SessionOnly? ==> o.session == c.session)
            && (o.Started? ==> o.newSession == c.session)
  {
    hide Complete;
  }

  /** Each outcome the post-processor model allows for does come about. */
  lemma OutcomeComesAbout(o: EncodeOutcome, needNewSess: bool)
    ensures exists c :: OutcomeOf(c, needNewSess) == o
  {
    var bufs := [Buf(Some(SnapshotRole), true, false)];
    assert LastOf(bufs, SnapshotRole) == Some(0);
    var c := match o
      case NotReady => Call(false, bufs, [], true, true, 0, None)
      case SessionOnly(session) => Call(true, bufs, [], true, true, session, None)
      case Started(session, id) => Call(true, bufs, [], true, true, session, Some(id));
    assert OutcomeOf(c, needNewSess) == o;
  }
}
