/** The two-phase commit of camera parameters, as a transition system: settings are staged
    in a string map and, beside it, in the parameter batch; the string map is merged only
    when the backend accepts the batch.
 */
module ParameterCommit {
  import opened Common
  import opened ParmBatch

  const NAME_NOT_FOUND: Int32 := -2
  const CAM_INTF_PARM_RECORDING_HINT: ParmId := 39
  const CAM_INTF_PARM_ZSL_MODE: ParmId := 42
  const KEY_QC_ZSL := "zsl"
  const KEY_RECORDING_HINT := "recording-hint"

  // ---------- name tables ----------

  /** A QCameraMap array: descriptions and the enum values they stand for. */
  type NameTable = seq<(string, Int32)>

  const ON_OFF_MODES_MAP: NameTable := [("off", 0), ("on", 1)]
  const TRUE_FALSE_MODES_MAP: NameTable := [("false", 0), ("true", 1)]

  function Lookup(table: NameTable, name: string): Int32 {
    if table == [] then NAME_NOT_FOUND
    else if table[0].0 == name then table[0].1
    else Lookup(table[1..], name)
  }

  /** A lookup gives the value of the first entry of that name, or NAME_NOT_FOUND. */
  lemma {:induction false} LookupIsFirstMatch(table: NameTable, name: string, i: nat)
    requires i <= |table| && forall j | 0 <= j < i :: table[j].0 != name
    requires i < |table| ==> table[i].0 == name
    ensures Lookup(table, name) == if i < |table| then table[i].1 else NAME_NOT_FOUND
  {
    if i > 0 {
      assert table[1..][i - 1..] == table[i..];
      LookupIsFirstMatch(table[1..], name, i - 1);
    }
  }

  method LookupAttr(table: NameTable, name: string) returns (value: Int32)
    ensures value == Lookup(table, name)
  {
    for i := 0 to |table|
      invariant forall j | 0 <= j < i :: table[j].0 != name
    {
      if table[i].0 == name {
        LookupIsFirstMatch(table, name, i);
        return table[i].1;
      }
    }
    LookupIsFirstMatch(table, name, |table|);
    return NAME_NOT_FOUND;
  }

  // ---------- state ----------

  /** A setting whose staged value is one int32 found by name: effect, white balance, ISO. */
  datatype EnumParam = EnumParam(key: string, id: ParmId, table: NameTable)

  /** A boolean mode kept beside the maps: its current value and the pending one. */
  datatype Mode = Mode(current: bool, pending: bool)

  datatype State = State(
    committed: map<string, string>,  // the parameter object's own map
    staged: map<string, string>,     // m_tempMap
    batch: Batch,                    // m_pParamBuf
    accepted: Batch,                 // what the backend last accepted for each id
    zsl: Mode,
    hint: Mode)

  // The HAL is built with DEFAULT_ZSL_MODE_ON.
  const ZSL_DEFAULT := true
  const HINT_DEFAULT := false

  function Initial(size: nat): State
    requires size >= 4
  {
    State(map[KEY_QC_ZSL := "on"], map[], InitialBatch(size), map[],
          Mode(ZSL_DEFAULT, ZSL_DEFAULT), Mode(HINT_DEFAULT, HINT_DEFAULT))
  }

  datatype Event =
    | Init                                            // initBatchUpdate
    | SetEnum(param: EnumParam, name: Option<string>) // setEffect(const char *) and its like
    | SetEnumFromUser(uparam: EnumParam, uname: Option<string>)
    | SetZsl(zname: Option<string>)
    | SetHint(hname: Option<string>)
    | UpdateHintValue(value: Int32)                   // setRecordingHintValue on its own
    | Commit(answer: int)                             // what set_parms returns

  ghost predicate Wf(s: State, size: nat) {
    Sized(s.batch, size) && Sized(s.accepted, size)
  }

  function Stage(s: State, id: ParmId, value: Int32, size: nat): (r: State)
    requires size >= 4 && Sized(s.batch, size)
    ensures Sized(r.batch, size)
  {
    s.(batch := ApplyOp(s.batch, SetOp(id, Le32(value)), size))
  }

  function StageEnum(s: State, p: EnumParam, name: Option<string>, size: nat): State
    requires size >= 4 && Sized(s.batch, size)
  {
    if name.Some? && Lookup(p.table, name.value) != NAME_NOT_FOUND then
      Stage(s.(staged := s.staged[p.key := name.value]), p.id, Lookup(p.table, name.value), size)
    else s
  }

  /** Settings equal to the committed string are not staged again. */
  predicate Changed(s: State, key: string, name: Option<string>) {
    name.Some? && (key in s.committed ==> s.committed[key] != name.value)
  }

  function StageHintValue(s: State, value: Int32, size: nat): State
    requires size >= 4 && Sized(s.batch, size)
  {
    Stage(s.(hint := Mode(s.hint.current, value > 0)), CAM_INTF_PARM_RECORDING_HINT, value, size)
  }

  function Next(s: State, e: Event, size: nat): State
    requires size >= 4 && Sized(s.batch, size)
  {
    match e
    case Init => s.(staged := map[], batch := InitialBatch(size))
    case SetEnum(p, name) => StageEnum(s, p, name, size)
    case SetEnumFromUser(p, name) => if Changed(s, p.key, name) then StageEnum(s, p, name, size) else s
    case SetZsl(name) =>
      if Changed(s, KEY_QC_ZSL, name) && Lookup(ON_OFF_MODES_MAP, name.value) != NAME_NOT_FOUND then
        var value := Lookup(ON_OFF_MODES_MAP, name.value);
        // the string goes straight into the committed map
        Stage(s.(committed := s.committed[KEY_QC_ZSL := name.value], zsl := Mode(s.zsl.current, value > 0)),
              CAM_INTF_PARM_ZSL_MODE, value, size)
      else s
    case SetHint(name) =>
      if Changed(s, KEY_RECORDING_HINT, name) && Lookup(TRUE_FALSE_MODES_MAP, name.value) != NAME_NOT_FOUND then
        StageHintValue(s.(staged := s.staged[KEY_RECORDING_HINT := name.value]),
                       Lookup(TRUE_FALSE_MODES_MAP, name.value), size)
      else s
    case UpdateHintValue(value) => StageHintValue(s, value, size)
    case Commit(answer) =>
      if s.batch != map[] && answer != NO_ERROR then s
      else s.(committed := s.committed + s.staged, staged := map[], accepted := s.accepted + s.batch,
              zsl := Mode(s.zsl.pending, s.zsl.pending), hint := Mode(s.hint.pending, s.hint.pending))
  }

  lemma NextKeepsWf(s: State, e: Event, size: nat)
    requires size >= 4 && Wf(s, size)
    ensures Wf(Next(s, e, size), size)
    ensures CAM_INTF_PARM_HAL_VERSION in s.batch ==> CAM_INTF_PARM_HAL_VERSION in Next(s, e, size).batch
  {
  }

  ghost function Run(es: seq<Event>, size: nat): (s: State)
    requires size >= 4
    ensures Wf(s, size)
  {
    if es == [] then Initial(size)
    else
      var before := Run(es[..|es| - 1], size);
      NextKeepsWf(before, es[|es| - 1], size);
      Next(before, es[|es| - 1], size)
  }

  // ---------- agreement of strings and backend values ----------

  /** The settings the agreement is about: each has a key, an id and a table of its own. */
  ghost predicate Registry(reg: set<EnumParam>) {
    && (forall p, q | p in reg && q in reg && p != q :: p.key != q.key && p.id != q.id)
    && (forall p | p in reg :: p.key !in {KEY_QC_ZSL, KEY_RECORDING_HINT})
    && (forall p | p in reg ::
          p.id !in {CAM_INTF_PARM_HAL_VERSION, CAM_INTF_PARM_ZSL_MODE, CAM_INTF_PARM_RECORDING_HINT})
  }

  ghost predicate UsesOnly(reg: set<EnumParam>, e: Event) {
    (e.SetEnum? ==> e.param in reg) && (e.SetEnumFromUser? ==> e.uparam in reg)
  }

  /** The string decodes, through the setting's table, to the int32 stored in the entry. */
  predicate Decodes(p: EnumParam, text: string, entry: seq<Byte>) {
    && Lookup(p.table, text) != NAME_NOT_FOUND
    && |entry| >= 4 && Lookup(p.table, text) == ReadLe32(entry)
  }

  ghost predicate Agrees(s: State, p: EnumParam) {
    && (p.key in s.staged ==> p.id in s.batch && Decodes(p, s.staged[p.key], s.batch[p.id]))
    && (p.id in s.batch && p.key !in s.staged ==>
          p.key in s.committed && Decodes(p, s.committed[p.key], s.batch[p.id]))
    && (p.key in s.committed <==> p.id in s.accepted)
    && (p.key in s.committed ==> Decodes(p, s.committed[p.key], s.accepted[p.id]))
  }

  lemma StageEnumAgrees(s: State, p: EnumParam, q: EnumParam, name: Option<string>, size: nat)
    requires size >= 4 && Wf(s, size)
    requires Agrees(s, q) && (p == q || (p.key != q.key && p.id != q.id))
    ensures Agrees(StageEnum(s, p, name, size), q)
  {
    if name.Some? && Lookup(p.table, name.value) != NAME_NOT_FOUND && p == q {
      Le32RoundTrip(Lookup(p.table, name.value), Entry(s.batch, p.id, size));
    }
  }

  lemma NextKeepsAgreement(s: State, e: Event, reg: set<EnumParam>, q: EnumParam, size: nat)
    requires size >= 4 && Wf(s, size) && Registry(reg) && UsesOnly(reg, e)
    requires q in reg && Agrees(s, q)
    ensures Agrees(Next(s, e, size), q)
  {
    match e
    case SetEnum(p, name) => StageEnumAgrees(s, p, q, name, size);
    case SetEnumFromUser(p, name) => StageEnumAgrees(s, p, q, name, size);
    case _ =>
  }

  lemma {:induction false} RunAgrees(es: seq<Event>, reg: set<EnumParam>, q: EnumParam, size: nat)
    requires size >= 4 && Registry(reg) && q in reg
    requires forall e | e in es :: UsesOnly(reg, e)
    ensures Agrees(Run(es, size), q)
  {
    if es != [] {
      var before := es[..|es| - 1];
      RunAgrees(before, reg, q, size);
      NextKeepsAgreement(Run(before, size), es[|es| - 1], reg, q, size);
    }
  }

  /** After any sequence of stagings and commits, a setting has a committed string exactly
      when the backend has accepted a value for it, and the string decodes to that value. */
  lemma CommittedIsAccepted(es: seq<Event>, reg: set<EnumParam>, q: EnumParam, size: nat)
    requires size >= 4 && Registry(reg) && q in reg
    requires forall e | e in es :: UsesOnly(reg, e)
    ensures var s := Run(es, size);
            (q.key in s.committed <==> q.id in s.accepted) &&
            (q.key in s.committed ==>
               Lookup(q.table, s.committed[q.key]) == ReadLe32(s.accepted[q.id]))
  {
    RunAgrees(es, reg, q, size);
  }

  /** The batch always flags HAL_VERSION, so no commit bypasses the backend. */
  lemma {:induction false} BackendAlwaysAsked(es: seq<Event>, size: nat)
    requires size >= 4
    ensures CAM_INTF_PARM_HAL_VERSION in Run(es, size).batch
  {
    if es != [] {
      var before := es[..|es| - 1];
      BackendAlwaysAsked(before, size);
      NextKeepsWf(Run(before, size), es[|es| - 1], size);
    }
  }

  /** A commit the backend refuses changes nothing at all. */
  lemma FailedCommitChangesNothing(es: seq<Event>, answer: int, size: nat)
    requires size >= 4 && answer != NO_ERROR
    ensures Run(es + [Commit(answer)], size) == Run(es, size)
  {
    BackendAlwaysAsked(es, size);
    assert (es + [Commit(answer)])[..|es|] == es;
  }

  // ---------- the two modes with a pending flag ----------

  /** What the backend was last told about a mode; it starts with the default. */
  function AcceptedMode(s: State, id: ParmId, initial: bool): bool {
    if id in s.accepted && |s.accepted[id]| >= 4 then ReadLe32(s.accepted[id]) > 0 else initial
  }

  ghost predicate PendingMatches(b: Batch, id: ParmId, pending: bool) {
    id in b ==> |b[id]| >= 4 && pending == (ReadLe32(b[id]) > 0)
  }

  ghost predicate PendingMatchesBatch(s: State) {
    && PendingMatches(s.batch, CAM_INTF_PARM_ZSL_MODE, s.zsl.pending)
    && PendingMatches(s.batch, CAM_INTF_PARM_RECORDING_HINT, s.hint.pending)
  }

  lemma StageKeepsPending(s: State, id: ParmId, value: Int32, size: nat, q: ParmId, pending: bool)
    requires size >= 4 && Sized(s.batch, size)
    requires if q == id then pending == (value > 0) else PendingMatches(s.batch, q, pending)
    ensures PendingMatches(Stage(s, id, value, size).batch, q, pending)
  {
  }

  lemma StageHintKeepsPending(s: State, value: Int32, size: nat)
    requires size >= 4 && Sized(s.batch, size) && PendingMatchesBatch(s)
    ensures PendingMatchesBatch(StageHintValue(s, value, size))
  {
  }

  lemma StageEnumKeepsPending(s: State, p: EnumParam, name: Option<string>, size: nat)
    requires size >= 4 && Sized(s.batch, size) && PendingMatchesBatch(s)
    requires p.id !in {CAM_INTF_PARM_ZSL_MODE, CAM_INTF_PARM_RECORDING_HINT}
    ensures PendingMatchesBatch(StageEnum(s, p, name, size))
  {
  }

  lemma NextKeepsPending(s: State, e: Event, reg: set<EnumParam>, size: nat)
    requires size >= 4 && Wf(s, size) && Registry(reg) && UsesOnly(reg, e)
    requires PendingMatchesBatch(s)
    ensures PendingMatchesBatch(Next(s, e, size))
  {
    match e
    case SetEnum(p, name) => StageEnumKeepsPending(s, p, name, size);
    case SetEnumFromUser(p, name) => StageEnumKeepsPending(s, p, name, size);
    case SetZsl(name) =>
      if name.Some? {
        var value := Lookup(ON_OFF_MODES_MAP, name.value);
        StageKeepsPending(s, CAM_INTF_PARM_ZSL_MODE, value, size, CAM_INTF_PARM_ZSL_MODE, value > 0);
        StageKeepsPending(s, CAM_INTF_PARM_ZSL_MODE, value, size, CAM_INTF_PARM_RECORDING_HINT, s.hint.pending);
      }
    case SetHint(name) =>
      if name.Some? {
        StageHintKeepsPending(s.(staged := s.staged[KEY_RECORDING_HINT := name.value]),
                              Lookup(TRUE_FALSE_MODES_MAP, name.value), size);
      }
    case UpdateHintValue(value) => StageHintKeepsPending(s, value, size);
    case _ =>
  }

  lemma {:induction false} RunPendingMatchesBatch(es: seq<Event>, reg: set<EnumParam>, size: nat)
    requires size >= 4 && Registry(reg) && forall e | e in es :: UsesOnly(reg, e)
    ensures PendingMatchesBatch(Run(es, size))
  {
    if es != [] {
      var before := es[..|es| - 1];
      RunPendingMatchesBatch(before, reg, size);
      NextKeepsPending(Run(before, size), es[|es| - 1], reg, size);
    }
  }

  /** A successful commit leaves a mode equal to what the backend accepted exactly when the batch
      carries that mode, or the mode pending is the one the backend had accepted before; whether they
      agreed until then makes no difference.
   */
  lemma ModeAgreesIff(es: seq<Event>, reg: set<EnumParam>, size: nat)
    requires size >= 4 && Registry(reg) && forall e | e in es :: UsesOnly(reg, e)
    ensures var s, s' := Run(es, size), Run(es + [Commit(NO_ERROR)], size);
            (s'.zsl.current == AcceptedMode(s', CAM_INTF_PARM_ZSL_MODE, ZSL_DEFAULT) <==>
              CAM_INTF_PARM_ZSL_MODE in s.batch ||
              s.zsl.pending == AcceptedMode(s, CAM_INTF_PARM_ZSL_MODE, ZSL_DEFAULT)) &&
            (s'.hint.current == AcceptedMode(s', CAM_INTF_PARM_RECORDING_HINT, HINT_DEFAULT) <==>
              CAM_INTF_PARM_RECORDING_HINT in s.batch ||
              s.hint.pending == AcceptedMode(s, CAM_INTF_PARM_RECORDING_HINT, HINT_DEFAULT))
  {
    RunPendingMatchesBatch(es, reg, size);
    assert (es + [Commit(NO_ERROR)])[..|es|] == es;
  }

  /** The committed ZSL string always names the pending mode, not the current one. */
  ghost predicate ZslStringPending(s: State) {
    && KEY_QC_ZSL in s.committed && KEY_QC_ZSL !in s.staged
    && Lookup(ON_OFF_MODES_MAP, s.committed[KEY_QC_ZSL]) != NAME_NOT_FOUND
    && (Lookup(ON_OFF_MODES_MAP, s.committed[KEY_QC_ZSL]) > 0 <==> s.zsl.pending)
  }

  lemma NextKeepsZslString(s: State, e: Event, reg: set<EnumParam>, size: nat)
    requires size >= 4 && Wf(s, size) && Registry(reg) && UsesOnly(reg, e) && ZslStringPending(s)
    ensures ZslStringPending(Next(s, e, size))
  {
    hide Lookup, ApplyOp, InitialBatch;
  }

  lemma {:induction false} RunZslString(es: seq<Event>, reg: set<EnumParam>, size: nat)
    requires size >= 4 && Registry(reg) && forall e | e in es :: UsesOnly(reg, e)
    ensures ZslStringPending(Run(es, size))
  {
    if es != [] {
      var before := es[..|es| - 1];
      RunZslString(before, reg, size);
      NextKeepsZslString(Run(before, size), es[|es| - 1], reg, size);
    } else {
      InitialZslString(size);
    }
  }

  lemma InitialZslString(size: nat)
    requires size >= 4
    ensures ZslStringPending(Initial(size))
  {
    assert ON_OFF_MODES_MAP[0].0 != "on" by { assert |ON_OFF_MODES_MAP[0].0| == 3; }
    LookupIsFirstMatch(ON_OFF_MODES_MAP, "on", 1);
  }

  /** The committed ZSL string names the mode the backend accepted exactly when the mode pending is
      that one.
   */
  lemma ZslStringAgreesIff(es: seq<Event>, reg: set<EnumParam>, size: nat)
    requires size >= 4 && Registry(reg) && forall e | e in es :: UsesOnly(reg, e)
    ensures var s := Run(es, size);
            var accepted := AcceptedMode(s, CAM_INTF_PARM_ZSL_MODE, ZSL_DEFAULT);
            && KEY_QC_ZSL in s.committed
            && ((Lookup(ON_OFF_MODES_MAP, s.committed[KEY_QC_ZSL]) > 0 <==> accepted) <==> s.zsl.pending == accepted)
            && (s.zsl.current == accepted ==>
                 ((Lookup(ON_OFF_MODES_MAP, s.committed[KEY_QC_ZSL]) > 0 <==> accepted) <==>
                   s.zsl.pending == s.zsl.current))
  {
    RunZslString(es, reg, size);
  }

  /** The failing case: switch ZSL off, let the backend refuse, commit an unrelated batch.
      The HAL now believes ZSL is off, and already said so in its committed string before
      the refusal, while the backend was never told. */
  lemma ZslDivergesAfterRefusal(size: nat)
    requires size >= 4
    ensures var es := [SetZsl(Some("off")), Commit(-1), Init, Commit(NO_ERROR)];
            var s := Run(es, size);
            !s.zsl.current && KEY_QC_ZSL in s.committed && s.committed[KEY_QC_ZSL] == "off" &&
            CAM_INTF_PARM_ZSL_MODE !in s.accepted
    ensures Run([SetZsl(Some("off")), Commit(-1)], size).committed != Initial(size).committed
  {
    var a := [SetZsl(Some("off"))];
    var b := a + [Commit(-1)];
    var c := b + [Init];
    var d := c + [Commit(NO_ERROR)];
    assert a[..0] == [] && b[..1] == a && c[..2] == b && d[..3] == c;
    assert "off" != "on" by { assert |"off"| == 3; }
    assert Lookup(ON_OFF_MODES_MAP, "off") == 0;
    assert Run(a, size).committed[KEY_QC_ZSL] == "off";
    assert CAM_INTF_PARM_HAL_VERSION in Run(a, size).batch;
    assert Run(b, size) == Run(a, size);
    assert d == [SetZsl(Some("off")), Commit(-1), Init, Commit(NO_ERROR)];
  }

  /** The same with the recording hint, but its string is staged and goes with the refused batch. */
  lemma HintDivergesAfterRefusal(size: nat)
    requires size >= 4
    ensures var es := [SetHint(Some("true")), Commit(-1), Init, Commit(NO_ERROR)];
            var s := Run(es, size);
            s.hint.current && CAM_INTF_PARM_RECORDING_HINT !in s.accepted && KEY_RECORDING_HINT !in s.committed
  {
    var a := [SetHint(Some("true"))];
    var b := a + [Commit(-1)];
    var c := b + [Init];
    var d := c + [Commit(NO_ERROR)];
    assert a[..0] == [] && b[..1] == a && c[..2] == b && d[..3] == c;
    assert |KEY_RECORDING_HINT| == 14 && |KEY_QC_ZSL| == 3;
    TrueIsOne();
    hide Lookup;
    assert Run(a, size).hint.pending && Run(a, size).committed == Initial(size).committed;
    assert CAM_INTF_PARM_HAL_VERSION in Run(a, size).batch;
    assert Run(b, size) == Run(a, size);
    assert d == [SetHint(Some("true")), Commit(-1), Init, Commit(NO_ERROR)];
  }

  lemma TrueIsOne()
    ensures Lookup(TRUE_FALSE_MODES_MAP, "true") == 1
  {
    assert TRUE_FALSE_MODES_MAP[0].0 != "true" by { assert |TRUE_FALSE_MODES_MAP[0].0| == 5; }
    LookupIsFirstMatch(TRUE_FALSE_MODES_MAP, "true", 1);
  }
}
