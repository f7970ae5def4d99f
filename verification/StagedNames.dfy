/** Which names, values and modes a run of stagings and commits ends up with, told from the events
    alone.
 */
module StagedNames {
  import opened Common
  import opened ParmBatch
  import opened ParameterCommit

  /** A name that stands for a value in a table. */
  predicate Known(table: NameTable, name: Option<string>) {
    name.Some? && Lookup(table, name.value) != NAME_NOT_FOUND
  }

  // ---------- settings ----------

  /** The name staged for a setting and not yet committed, and the one last committed. */
  datatype Names = Names(pending: Option<string>, committed: Option<string>)

  /** A known name replaces the one that was pending; the user's only if it is not the committed one. A
      new batch drops what is pending, an accepted commit commits it, and a refused one leaves it.
   */
  function After(n: Names, e: Event, q: EnumParam): Names {
    match e
    case Init => n.(pending := None)
    case SetEnum(p, name) => if p == q && Known(q.table, name) then n.(pending := name) else n
    case SetEnumFromUser(p, name) =>
      if p == q && Known(q.table, name) && name != n.committed then n.(pending := name) else n
    case Commit(answer) =>
      if answer == NO_ERROR then Names(None, if n.pending.Some? then n.pending else n.committed) else n
    case _ => n
  }

  function NamesOf(es: seq<Event>, q: EnumParam): Names {
    if es == [] then Names(None, None) else After(NamesOf(es[..|es| - 1], q), es[|es| - 1], q)
  }

  function Get(m: map<string, string>, key: string): Option<string> {
    if key in m then Some(m[key]) else None
  }

  /** A state holds these names for a setting, and their values in the batch and with the backend. */
  ghost predicate Holds(s: State, q: EnumParam, n: Names) {
    && Get(s.staged, q.key) == n.pending && Get(s.committed, q.key) == n.committed
    && (n.pending.Some? ==> q.id in s.batch && Decodes(q, n.pending.value, s.batch[q.id]))
    && (n.pending.None? && q.id in s.batch ==> n.committed.Some? && Decodes(q, n.committed.value, s.batch[q.id]))
    && (n.committed.Some? ==> q.id in s.accepted && Decodes(q, n.committed.value, s.accepted[q.id]))
    && (n.committed.None? ==> q.id !in s.accepted)
  }

  lemma StagesName(s: State, q: EnumParam, name: string, size: nat, n: Names)
    requires size >= 4 && Wf(s, size) && Known(q.table, Some(name)) && Holds(s, q, n)
    ensures Holds(StageEnum(s, q, Some(name), size), q, n.(pending := Some(name)))
  {
    Le32RoundTrip(Lookup(q.table, name), Entry(s.batch, q.id, size));
    hide ReadLe32, Le32, Lookup;
  }

  lemma StagesOther(s: State, p: EnumParam, q: EnumParam, name: Option<string>, size: nat, n: Names)
    requires size >= 4 && Wf(s, size) && Holds(s, q, n) && p.key != q.key && p.id != q.id
    ensures Holds(StageEnum(s, p, name, size), q, n)
  {
    hide Decodes, Lookup;
  }

  lemma StagesUnknown(s: State, p: EnumParam, name: Option<string>, size: nat)
    requires size >= 4 && Wf(s, size) && !Known(p.table, name)
    ensures StageEnum(s, p, name, size) == s
  {
  }

  lemma StageEnumHolds(s: State, p: EnumParam, q: EnumParam, name: Option<string>, size: nat, n: Names)
    requires size >= 4 && Wf(s, size) && Holds(s, q, n) && (p == q || (p.key != q.key && p.id != q.id))
    ensures Holds(StageEnum(s, p, name, size), q,
                  if p == q && Known(q.table, name) then n.(pending := name) else n)
  {
    hide Holds, StageEnum;
    if p != q {
      StagesOther(s, p, q, name, size, n);
    } else if Known(q.table, name) {
      StagesName(s, q, name.value, size, n);
    } else {
      StagesUnknown(s, p, name, size);
    }
  }

  lemma CommitHolds(s: State, answer: int, q: EnumParam, size: nat, n: Names)
    requires size >= 4 && Wf(s, size) && Holds(s, q, n) && CAM_INTF_PARM_HAL_VERSION in s.batch
    ensures Holds(Next(s, Commit(answer), size), q, After(n, Commit(answer), q))
  {
    hide Decodes;
  }

  /** Stagings of the two modes, and new batches, concern no setting but drop what is pending. */
  lemma OtherHolds(s: State, e: Event, q: EnumParam, size: nat, n: Names)
    requires size >= 4 && Wf(s, size) && Holds(s, q, n)
    requires e.Init? || e.SetZsl? || e.SetHint? || e.UpdateHintValue?
    requires q.key !in {KEY_QC_ZSL, KEY_RECORDING_HINT}
    requires q.id !in {CAM_INTF_PARM_HAL_VERSION, CAM_INTF_PARM_ZSL_MODE, CAM_INTF_PARM_RECORDING_HINT}
    ensures Holds(Next(s, e, size), q, After(n, e, q))
  {
    hide Decodes, Lookup, StageEnum;
  }

  lemma NextHolds(s: State, e: Event, reg: set<EnumParam>, q: EnumParam, size: nat, n: Names)
    requires size >= 4 && Wf(s, size) && Registry(reg) && UsesOnly(reg, e) && q in reg && Holds(s, q, n)
    requires CAM_INTF_PARM_HAL_VERSION in s.batch
    ensures Holds(Next(s, e, size), q, After(n, e, q))
  {
    match e
    case SetEnum(p, name) => StageEnumHolds(s, p, q, name, size, n);
    case SetEnumFromUser(p, name) =>
      StageEnumHolds(s, p, q, name, size, n);
      ChangedIs(s, p, q, name, n);
      hide Holds, StageEnum, Known, Changed;
    case Commit(answer) => CommitHolds(s, answer, q, size, n);
    case _ => OtherHolds(s, e, q, size, n);
  }

  lemma ChangedIs(s: State, p: EnumParam, q: EnumParam, name: Option<string>, n: Names)
    requires Holds(s, q, n)
    ensures p == q && Known(q.table, name) ==> (Changed(s, p.key, name) <==> name != n.committed)
  {
    hide Decodes, Lookup;
  }

  lemma InitialHolds(q: EnumParam, size: nat)
    requires size >= 4 && q.key != KEY_QC_ZSL && q.id != CAM_INTF_PARM_HAL_VERSION
    ensures Holds(Initial(size), q, Names(None, None))
  {
  }

  /** After any run the staged and the committed string of a setting are the names so told, and what the
      backend accepted last reads back as the value of the committed one.
   */
  lemma {:induction false} RunHolds(es: seq<Event>, reg: set<EnumParam>, q: EnumParam, size: nat)
    requires size >= 4 && Registry(reg) && q in reg && forall e | e in es :: UsesOnly(reg, e)
    ensures Holds(Run(es, size), q, NamesOf(es, q))
  {
    if es == [] {
      InitialHolds(q, size);
    } else {
      var before := es[..|es| - 1];
      RunHolds(before, reg, q, size);
      BackendAlwaysAsked(before, size);
      hide Holds, After, Next;
      NextHolds(Run(before, size), es[|es| - 1], reg, q, size, NamesOf(before, q));
    }
  }

  lemma CommittedIsLastNamed(es: seq<Event>, reg: set<EnumParam>, q: EnumParam, size: nat)
    requires size >= 4 && Registry(reg) && q in reg && forall e | e in es :: UsesOnly(reg, e)
    ensures var s, name := Run(es, size), NamesOf(es, q).committed;
            && (q.key in s.committed <==> name.Some?) && (q.id in s.accepted <==> name.Some?)
            && (name.Some? ==>
                 && s.committed[q.key] == name.value && |s.accepted[q.id]| >= 4
                 && ReadLe32(s.accepted[q.id]) == Lookup(q.table, name.value))
  {
    RunHolds(es, reg, q, size);
    hide Lookup, ReadLe32;
  }

  // ---------- the two modes ----------

  /** A mode: its pending and its current value, whether the batch carries it, and what the backend was
      last told.
   */
  datatype Switch = Switch(pending: bool, current: bool, inBatch: bool, accepted: bool)

  function Told(w: Switch, value: bool): Switch { w.(pending := value, inBatch := true) }

  function Renewed(w: Switch): Switch { w.(inBatch := false) }

  function Accepted(w: Switch): Switch {
    w.(current := w.pending, accepted := if w.inBatch then w.pending else w.accepted)
  }

  /** The ZSL string and switch, and the names and the switch of the recording hint. */
  datatype Modes = Modes(zslName: string, zsl: Switch, hintNames: Names, hint: Switch)

  function ModesAfter(m: Modes, e: Event): Modes {
    match e
    case Init =>
      m.(zsl := Renewed(m.zsl), hint := Renewed(m.hint), hintNames := m.hintNames.(pending := None))
    case SetZsl(name) =>
      if Known(ON_OFF_MODES_MAP, name) && name.value != m.zslName
      then m.(zslName := name.value, zsl := Told(m.zsl, Lookup(ON_OFF_MODES_MAP, name.value) > 0))
      else m
    case SetHint(name) =>
      if Known(TRUE_FALSE_MODES_MAP, name) && name != m.hintNames.committed
      then m.(hintNames := m.hintNames.(pending := name),
              hint := Told(m.hint, Lookup(TRUE_FALSE_MODES_MAP, name.value) > 0))
      else m
    case UpdateHintValue(value) => m.(hint := Told(m.hint, value > 0))
    case Commit(answer) =>
      if answer != NO_ERROR then m
      else m.(zsl := Accepted(m.zsl), hint := Accepted(m.hint),
              hintNames := Names(None, if m.hintNames.pending.Some? then m.hintNames.pending
                                       else m.hintNames.committed))
    case _ => m
  }

  function ModesOf(es: seq<Event>): Modes {
    if es == [] then
      Modes("on", Switch(ZSL_DEFAULT, ZSL_DEFAULT, false, ZSL_DEFAULT), Names(None, None),
            Switch(HINT_DEFAULT, HINT_DEFAULT, false, HINT_DEFAULT))
    else ModesAfter(ModesOf(es[..|es| - 1]), es[|es| - 1])
  }

  ghost predicate HoldsSwitch(s: State, mode: Mode, id: ParmId, initial: bool, w: Switch) {
    && mode == Mode(w.current, w.pending)
    && (id in s.batch <==> w.inBatch)
    && (id in s.batch ==> |s.batch[id]| >= 4 && (ReadLe32(s.batch[id]) > 0 <==> w.pending))
    && (id in s.accepted ==> |s.accepted[id]| >= 4)
    && AcceptedMode(s, id, initial) == w.accepted
  }

  ghost predicate HoldsModes(s: State, m: Modes) {
    && Get(s.committed, KEY_QC_ZSL) == Some(m.zslName) && KEY_QC_ZSL !in s.staged
    && Get(s.staged, KEY_RECORDING_HINT) == m.hintNames.pending
    && Get(s.committed, KEY_RECORDING_HINT) == m.hintNames.committed
    && HoldsSwitch(s, s.zsl, CAM_INTF_PARM_ZSL_MODE, ZSL_DEFAULT, m.zsl)
    && HoldsSwitch(s, s.hint, CAM_INTF_PARM_RECORDING_HINT, HINT_DEFAULT, m.hint)
  }

  lemma KeysDiffer()
    ensures KEY_QC_ZSL != KEY_RECORDING_HINT
  {
    assert |KEY_QC_ZSL| == 3 && |KEY_RECORDING_HINT| == 14;
  }

  /** Staging an int32 for a mode. */
  lemma StagesMode(s: State, mode: Mode, id: ParmId, initial: bool, w: Switch, value: Int32, size: nat)
    requires size >= 4 && Wf(s, size) && HoldsSwitch(s, mode, id, initial, w)
    ensures HoldsSwitch(Stage(s, id, value, size), Mode(mode.current, value > 0), id, initial, Told(w, value > 0))
  {
    Le32RoundTrip(value, Entry(s.batch, id, size));
    hide ReadLe32, Le32;
  }

  lemma StagesElse(s: State, mode: Mode, id: ParmId, initial: bool, w: Switch, other: ParmId, value: Int32, size: nat)
    requires size >= 4 && Wf(s, size) && HoldsSwitch(s, mode, id, initial, w) && other != id
    ensures HoldsSwitch(Stage(s, other, value, size), mode, id, initial, w)
  {
    hide ReadLe32, Le32;
  }

  /** A switch depends on the batch and the backend only. */
  lemma SameSwitch(s: State, s': State, mode: Mode, id: ParmId, initial: bool, w: Switch)
    requires HoldsSwitch(s, mode, id, initial, w) && s'.batch == s.batch && s'.accepted == s.accepted
    ensures HoldsSwitch(s', mode, id, initial, w)
  {
  }

  lemma ZslHolds(s: State, name: Option<string>, size: nat, m: Modes)
    requires size >= 4 && Wf(s, size) && HoldsModes(s, m)
    ensures HoldsModes(Next(s, SetZsl(name), size), ModesAfter(m, SetZsl(name)))
  {
    KeysDiffer();
    if Known(ON_OFF_MODES_MAP, name) && name.value != m.zslName {
      var value := Lookup(ON_OFF_MODES_MAP, name.value);
      hide Lookup, HoldsSwitch, Told, Stage;
      var s1 := s.(committed := s.committed[KEY_QC_ZSL := name.value], zsl := Mode(s.zsl.current, value > 0));
      SameSwitch(s, s1, s.zsl, CAM_INTF_PARM_ZSL_MODE, ZSL_DEFAULT, m.zsl);
      SameSwitch(s, s1, s.hint, CAM_INTF_PARM_RECORDING_HINT, HINT_DEFAULT, m.hint);
      StagesMode(s1, s.zsl, CAM_INTF_PARM_ZSL_MODE, ZSL_DEFAULT, m.zsl, value, size);
      StagesElse(s1, s.hint, CAM_INTF_PARM_RECORDING_HINT, HINT_DEFAULT, m.hint, CAM_INTF_PARM_ZSL_MODE, value, size);
      StageOnlyBatch(s1, CAM_INTF_PARM_ZSL_MODE, value, size);
    }
    hide Lookup, HoldsSwitch, Told, Stage;
  }

  lemma StageOnlyBatch(s: State, id: ParmId, value: Int32, size: nat)
    requires size >= 4 && Wf(s, size)
    ensures Stage(s, id, value, size) == s.(batch := Stage(s, id, value, size).batch)
  {
  }

  lemma HintValueHolds(s: State, value: Int32, size: nat, m: Modes)
    requires size >= 4 && Wf(s, size) && HoldsModes(s, m)
    ensures HoldsModes(StageHintValue(s, value, size), m.(hint := Told(m.hint, value > 0)))
  {
    hide HoldsSwitch, Told, Stage;
    var s1 := s.(hint := Mode(s.hint.current, value > 0));
    SameSwitch(s, s1, s.zsl, CAM_INTF_PARM_ZSL_MODE, ZSL_DEFAULT, m.zsl);
    SameSwitch(s, s1, s.hint, CAM_INTF_PARM_RECORDING_HINT, HINT_DEFAULT, m.hint);
    StagesMode(s1, s.hint, CAM_INTF_PARM_RECORDING_HINT, HINT_DEFAULT, m.hint, value, size);
    StagesElse(s1, s.zsl, CAM_INTF_PARM_ZSL_MODE, ZSL_DEFAULT, m.zsl, CAM_INTF_PARM_RECORDING_HINT, value, size);
    StageOnlyBatch(s1, CAM_INTF_PARM_RECORDING_HINT, value, size);
  }

  lemma HintHolds(s: State, name: Option<string>, size: nat, m: Modes)
    requires size >= 4 && Wf(s, size) && HoldsModes(s, m)
    ensures HoldsModes(Next(s, SetHint(name), size), ModesAfter(m, SetHint(name)))
  {
    KeysDiffer();
    hide HoldsSwitch, Told, Lookup, StageHintValue;
    if Known(TRUE_FALSE_MODES_MAP, name) && name != m.hintNames.committed {
      var s1 := s.(staged := s.staged[KEY_RECORDING_HINT := name.value]);
      SameSwitch(s, s1, s.zsl, CAM_INTF_PARM_ZSL_MODE, ZSL_DEFAULT, m.zsl);
      SameSwitch(s, s1, s.hint, CAM_INTF_PARM_RECORDING_HINT, HINT_DEFAULT, m.hint);
      var m1 := m.(hintNames := m.hintNames.(pending := name));
      HintValueHolds(s1, Lookup(TRUE_FALSE_MODES_MAP, name.value), size, m1);
    }
  }

  lemma CommitSwitch(s: State, s': State, mode: Mode, id: ParmId, initial: bool, w: Switch)
    requires HoldsSwitch(s, mode, id, initial, w) && s'.batch == s.batch && s'.accepted == s.accepted + s.batch
    ensures HoldsSwitch(s', Mode(mode.pending, mode.pending), id, initial, Accepted(w))
  {
    hide ReadLe32;
  }

  lemma CommitModes(s: State, answer: int, size: nat, m: Modes)
    requires size >= 4 && Wf(s, size) && HoldsModes(s, m) && CAM_INTF_PARM_HAL_VERSION in s.batch
    ensures HoldsModes(Next(s, Commit(answer), size), ModesAfter(m, Commit(answer)))
  {
    hide HoldsSwitch, Accepted;
    if answer == NO_ERROR {
      var s' := Next(s, Commit(answer), size);
      CommitSwitch(s, s', s.zsl, CAM_INTF_PARM_ZSL_MODE, ZSL_DEFAULT, m.zsl);
      CommitSwitch(s, s', s.hint, CAM_INTF_PARM_RECORDING_HINT, HINT_DEFAULT, m.hint);
    }
  }

  lemma InitModes(s: State, size: nat, m: Modes)
    requires size >= 4 && Wf(s, size) && HoldsModes(s, m)
    ensures HoldsModes(Next(s, Init, size), ModesAfter(m, Init))
  {
    hide ReadLe32;
  }

  lemma EnumModes(s: State, p: EnumParam, name: Option<string>, size: nat, m: Modes)
    requires size >= 4 && Wf(s, size) && HoldsModes(s, m)
    requires p.key !in {KEY_QC_ZSL, KEY_RECORDING_HINT}
    requires p.id !in {CAM_INTF_PARM_ZSL_MODE, CAM_INTF_PARM_RECORDING_HINT}
    ensures HoldsModes(StageEnum(s, p, name, size), m)
  {
    hide HoldsSwitch, Stage, Lookup;
    if Known(p.table, name) {
      var value := Lookup(p.table, name.value);
      var s1 := s.(staged := s.staged[p.key := name.value]);
      SameSwitch(s, s1, s.zsl, CAM_INTF_PARM_ZSL_MODE, ZSL_DEFAULT, m.zsl);
      SameSwitch(s, s1, s.hint, CAM_INTF_PARM_RECORDING_HINT, HINT_DEFAULT, m.hint);
      StagesElse(s1, s.zsl, CAM_INTF_PARM_ZSL_MODE, ZSL_DEFAULT, m.zsl, p.id, value, size);
      StagesElse(s1, s.hint, CAM_INTF_PARM_RECORDING_HINT, HINT_DEFAULT, m.hint, p.id, value, size);
      StageOnlyBatch(s1, p.id, value, size);
    }
  }

  lemma NextModes(s: State, e: Event, reg: set<EnumParam>, size: nat, m: Modes)
    requires size >= 4 && Wf(s, size) && Registry(reg) && UsesOnly(reg, e) && HoldsModes(s, m)
    requires CAM_INTF_PARM_HAL_VERSION in s.batch
    ensures HoldsModes(Next(s, e, size), ModesAfter(m, e))
  {
    match e
    case Init => InitModes(s, size, m);
    case SetEnum(p, name) => EnumModes(s, p, name, size, m);
    case SetEnumFromUser(p, name) => EnumModes(s, p, name, size, m);
    case SetZsl(name) => ZslHolds(s, name, size, m);
    case SetHint(name) => HintHolds(s, name, size, m);
    case UpdateHintValue(value) => HintValueHolds(s, value, size, m);
    case Commit(answer) => CommitModes(s, answer, size, m);
    hide HoldsModes, StageEnum, Changed, StageHintValue, Stage, Known;
  }

  lemma InitialModes(size: nat)
    requires size >= 4
    ensures HoldsModes(Initial(size), ModesOf([]))
  {
    KeysDiffer();
    assert ON_OFF_MODES_MAP[0].0 != "on" by { assert |ON_OFF_MODES_MAP[0].0| == 3; }
    hide Lookup, ReadLe32;
  }

  /** After any run both modes, their strings, and what the backend was last told of them are as the
      events tell.
   */
  lemma {:induction false} RunModes(es: seq<Event>, reg: set<EnumParam>, size: nat)
    requires size >= 4 && Registry(reg) && forall e | e in es :: UsesOnly(reg, e)
    ensures HoldsModes(Run(es, size), ModesOf(es))
  {
    if es == [] {
      InitialModes(size);
    } else {
      var before := es[..|es| - 1];
      RunModes(before, reg, size);
      BackendAlwaysAsked(before, size);
      hide HoldsModes, ModesAfter, Next;
      NextModes(Run(before, size), es[|es| - 1], reg, size, ModesOf(before));
    }
  }
}
