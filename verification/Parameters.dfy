/** The parameter object of the camera HAL: its maps, its parameter buffer and the backend
    it commits to. Every method is the corresponding step of ParameterCommit.
 */
module Parameters {
  import opened Common
  import opened ParmBatch
  import opened ParameterCommit

  /** The entries read while visiting `ids` in turn. */
  function ReadAlong(accepted: Batch, b: Batch, ids: seq<ParmId>): (r: Batch)
    requires SetOf(ids) <= b.Keys
    ensures r.Keys == accepted.Keys + SetOf(ids)
    ensures forall id | id in r :: r[id] == if id in ids then b[id] else accepted[id]
  {
    if ids == [] then accepted
    else
      assert ids == ids[..|ids| - 1] + [ids[|ids| - 1]];
      ReadAlong(accepted, b, ids[..|ids| - 1])[ids[|ids| - 1] := b[ids[|ids| - 1]]]
  }

  lemma ReadAlongNone(accepted: Batch, b: Batch)
    ensures SetOf([]) <= b.Keys && ReadAlong(accepted, b, []) == accepted
  {
  }

  lemma ReadAlongSnoc(accepted: Batch, b: Batch, ids: seq<ParmId>, i: nat)
    requires i < |ids| && SetOf(ids) <= b.Keys
    ensures ids[i] in b && SetOf(ids[..i]) <= b.Keys && SetOf(ids[..i + 1]) <= b.Keys
    ensures ReadAlong(accepted, b, ids[..i + 1]) == ReadAlong(accepted, b, ids[..i])[ids[i] := b[ids[i]]]
  {
    assert ids[i] in SetOf(ids);
    assert ids[..i + 1][..i] == ids[..i];
  }

  lemma ReadAlongAll(accepted: Batch, b: Batch, ids: seq<ParmId>)
    requires SetOf(ids) == b.Keys
    ensures ReadAlong(accepted, b, ids) == accepted + b
  {
  }

  lemma CommitIs(s: State, answer: int, size: nat)
    requires size >= 4 && Sized(s.batch, size)
    ensures Next(s, Commit(answer), size) ==
            if s.batch != map[] && answer != NO_ERROR then s
            else State(s.committed + s.staged, map[], s.batch, s.accepted + s.batch,
                       Mode(s.zsl.pending, s.zsl.pending), Mode(s.hint.pending, s.hint.pending))
  {
  }

  /** The camera daemon's side of the shared buffer. */
  class Backend {
    var accepted: Batch

    constructor ()
      ensures accepted == map[]
    {
      accepted := map[];
    }

    method TakeOver(buffer: ParmBuffer)
      requires buffer.Valid()
      modifies this
      ensures accepted == old(accepted) + buffer.contents
    {
      var flagged := buffer.Walk();
      ghost var before := accepted;
      hide ReadAlong, SetOf, Ascending;
      ReadAlongNone(before, buffer.contents);
      for i := 0 to |flagged|
        invariant SetOf(flagged[..i]) <= buffer.contents.Keys
        invariant accepted == ReadAlong(before, buffer.contents, flagged[..i])
      {
        ReadAlongSnoc(before, buffer.contents, flagged, i);
        var bytes := buffer.ReadEntry(flagged[i]);
        accepted := accepted[flagged[i] := bytes];
      }
      assert flagged[..|flagged|] == flagged;
      ReadAlongAll(before, buffer.contents, flagged);
    }

    /** Read the buffer along its links; on a refusal nothing is taken over. */
    method SetParms(buffer: ParmBuffer, answer: int) returns (rc: int)
      requires buffer.Valid()
      modifies this
      ensures rc == answer
      ensures accepted == if answer == NO_ERROR then old(accepted) + buffer.contents else old(accepted)
    {
      rc := answer;
      if answer == NO_ERROR {
        TakeOver(buffer);
      }
    }
  }

  class QCameraParameters {
    const m_pParamBuf: ParmBuffer
    const backend: Backend
    var mMap: map<string, string>
    var m_tempMap: map<string, string>
    var m_bZslMode: bool
    var m_bZslMode_new: bool
    var m_bRecordingHint: bool
    var m_bRecordingHint_new: bool

    ghost predicate Valid()
      reads this, m_pParamBuf, m_pParamBuf.next, m_pParamBuf.data
    {
      m_pParamBuf.Valid()
    }

    ghost function Size(): nat { m_pParamBuf.entrySize }

    ghost function Abs(): State
      reads this, m_pParamBuf, backend
    {
      State(mMap, m_tempMap, m_pParamBuf.contents, backend.accepted,
            Mode(m_bZslMode, m_bZslMode_new), Mode(m_bRecordingHint, m_bRecordingHint_new))
    }

    constructor (entrySize: nat)
      requires entrySize >= 4
      ensures Valid() && Size() == entrySize && Abs() == Initial(entrySize)
      ensures fresh(m_pParamBuf) && fresh(m_pParamBuf.next) && fresh(m_pParamBuf.data) && fresh(backend)
    {
      m_pParamBuf := new ParmBuffer(entrySize);
      backend := new Backend();
      mMap, m_tempMap := map[KEY_QC_ZSL := "on"], map[];
      m_bZslMode, m_bZslMode_new := ZSL_DEFAULT, ZSL_DEFAULT;
      m_bRecordingHint, m_bRecordingHint_new := HINT_DEFAULT, HINT_DEFAULT;
      new;
      m_pParamBuf.InitBatchUpdate();
    }

    method InitBatchUpdate() returns (rc: int)
      requires Valid()
      modifies this`m_tempMap, m_pParamBuf, m_pParamBuf.next, m_pParamBuf.data
      ensures Valid() && Abs() == Next(old(Abs()), Init, Size())
      ensures rc == NO_ERROR
    {
      m_tempMap := map[];
      m_pParamBuf.InitBatchUpdate();
      return NO_ERROR;
    }

    method UpdateParamEntry(key: string, value: string)
      modifies this`m_tempMap
      ensures m_tempMap == old(m_tempMap)[key := value]
    {
      m_tempMap := m_tempMap[key := value];
    }

    // AddSetParmEntryToBatch of one int32
    method StageEntry(id: ParmId, value: Int32) returns (rc: int)
      requires Valid()
      modifies m_pParamBuf, m_pParamBuf.next, m_pParamBuf.data
      ensures Valid() && Abs() == Stage(old(Abs()), id, value, Size())
      ensures rc == NO_ERROR
    {
      rc := m_pParamBuf.AddSetParmEntryToBatch(id, Le32(value));
    }

    // setEffect(const char *) and the setters of the same form
    method SetEnum(p: EnumParam, name: Option<string>) returns (rc: int)
      requires Valid()
      modifies this`m_tempMap, m_pParamBuf, m_pParamBuf.next, m_pParamBuf.data
      ensures Valid() && Abs() == Next(old(Abs()), Event.SetEnum(p, name), Size())
      ensures rc == if name.Some? && Lookup(p.table, name.value) != NAME_NOT_FOUND then NO_ERROR else BAD_VALUE
    {
      if name.Some? {
        var value := LookupAttr(p.table, name.value);
        if value != NAME_NOT_FOUND {
          UpdateParamEntry(p.key, name.value);
          rc := StageEntry(p.id, value);
          return;
        }
      }
      return BAD_VALUE;
    }

    // setEffect(const QCameraParameters &): the user's string, if it differs from the current one
    method SetEnumFromUser(p: EnumParam, name: Option<string>) returns (rc: int)
      requires Valid()
      modifies this`m_tempMap, m_pParamBuf, m_pParamBuf.next, m_pParamBuf.data
      ensures Valid() && Abs() == Next(old(Abs()), Event.SetEnumFromUser(p, name), Size())
      ensures rc == if name.Some? && !(p.key in mMap && mMap[p.key] == name.value)
                       && Lookup(p.table, name.value) == NAME_NOT_FOUND then BAD_VALUE else NO_ERROR
    {
      if name.Some? {
        if p.key !in mMap || mMap[p.key] != name.value {
          rc := SetEnum(p, name);
          return;
        }
      }
      return NO_ERROR;
    }

    method SetZslMode(name: Option<string>) returns (rc: int)
      requires Valid()
      modifies this`mMap, this`m_bZslMode_new, m_pParamBuf, m_pParamBuf.next, m_pParamBuf.data
      ensures Valid() && Abs() == Next(old(Abs()), SetZsl(name), Size())
      ensures rc == if name.Some? && !(KEY_QC_ZSL in old(mMap) && old(mMap)[KEY_QC_ZSL] == name.value)
                       && Lookup(ON_OFF_MODES_MAP, name.value) == NAME_NOT_FOUND then BAD_VALUE else NO_ERROR
    {
      if name.Some? {
        if KEY_QC_ZSL !in mMap || mMap[KEY_QC_ZSL] != name.value {
          var value := LookupAttr(ON_OFF_MODES_MAP, name.value);
          if value == NAME_NOT_FOUND {
            return BAD_VALUE;
          }
          mMap := mMap[KEY_QC_ZSL := name.value];
          m_bZslMode_new := value > 0;
          rc := StageEntry(CAM_INTF_PARM_ZSL_MODE, value);
          return;
        }
      }
      return NO_ERROR;
    }

    method SetRecordingHintValue(value: Int32) returns (rc: int)
      requires Valid()
      modifies this`m_bRecordingHint_new, m_pParamBuf, m_pParamBuf.next, m_pParamBuf.data
      ensures Valid() && Abs() == StageHintValue(old(Abs()), value, Size())
    {
      var newValue := value > 0;
      if m_bRecordingHint != newValue {
        m_bRecordingHint_new := newValue;
      } else {
        m_bRecordingHint_new := m_bRecordingHint;
      }
      rc := StageEntry(CAM_INTF_PARM_RECORDING_HINT, value);
    }

    method SetRecordingHint(name: Option<string>) returns (rc: int)
      requires Valid()
      modifies this`m_tempMap, this`m_bRecordingHint_new, m_pParamBuf, m_pParamBuf.next, m_pParamBuf.data
      ensures Valid() && Abs() == Next(old(Abs()), SetHint(name), Size())
      ensures rc == if name.Some? && !(KEY_RECORDING_HINT in mMap && mMap[KEY_RECORDING_HINT] == name.value)
                       && Lookup(TRUE_FALSE_MODES_MAP, name.value) == NAME_NOT_FOUND then BAD_VALUE else NO_ERROR
    {
      if name.Some? {
        if KEY_RECORDING_HINT !in mMap || mMap[KEY_RECORDING_HINT] != name.value {
          var value := LookupAttr(TRUE_FALSE_MODES_MAP, name.value);
          if value == NAME_NOT_FOUND {
            return BAD_VALUE;
          }
          UpdateParamEntry(KEY_RECORDING_HINT, name.value);
          var _ := SetRecordingHintValue(value);
        }
      }
      return NO_ERROR;
    }

    method CommitParamChanges() returns (rc: int)
      modifies this
      ensures mMap == old(mMap) + old(m_tempMap) && m_tempMap == map[]
      ensures m_bZslMode == m_bZslMode_new == old(m_bZslMode_new)
      ensures m_bRecordingHint == m_bRecordingHint_new == old(m_bRecordingHint_new)
      ensures rc == NO_ERROR
    {
      var keys := m_tempMap.Keys;
      ghost var done: set<string> := {};
      while keys != {}
        invariant keys !! done && keys + done == m_tempMap.Keys
        invariant m_tempMap == old(m_tempMap)
        invariant mMap == old(mMap) + (map k | k in done :: m_tempMap[k])
        invariant m_bZslMode_new == old(m_bZslMode_new) && m_bRecordingHint_new == old(m_bRecordingHint_new)
        decreases keys
      {
        var k :| k in keys;
        mMap := mMap[k := m_tempMap[k]];
        keys, done := keys - {k}, done + {k};
      }
      assert (map k | k in done :: m_tempMap[k]) == m_tempMap;
      m_tempMap := map[];
      m_bRecordingHint := m_bRecordingHint_new;
      m_bZslMode := m_bZslMode_new;
      return NO_ERROR;
    }

    method CommitSetBatch(answer: int) returns (rc: int)
      requires Valid()
      modifies this, backend
      ensures Valid() && Abs() == Next(old(Abs()), Commit(answer), Size())
      ensures rc == if old(Abs()).batch != map[] then answer else NO_ERROR
    {
      CommitIs(Abs(), answer, Size());
      hide Next;
      rc := NO_ERROR;
      var anyFlagged := m_pParamBuf.AnyFlagged();
      if anyFlagged {
        rc := backend.SetParms(m_pParamBuf, answer);
      }
      if rc == NO_ERROR {
        rc := CommitParamChanges();
      }
    }
  }
}
