module MultiKeyProofs {
  import opened Options
  import opened Text
  import opened MultiKey

  // ---------- Renumbering on deletion ----------

  lemma {:induction false} WithoutKeyIndices(keys: seq<string>, info: Info, index: int)
    ensures IndicesBelow(WithoutKey(keys, info, index).info, |WithoutKey(keys, info, index).keys|)
  {
    if keys == [] {
    } else {
      WithoutKeyIndices(keys[..|keys| - 1], info, index);
    }
  }

  lemma RecordsPrefix(keys: seq<string>, info: Info)
    requires keys != []
    ensures Records(keys, info)
         == Records(keys[..|keys| - 1], info) + [RecordAt(keys[|keys| - 1], info, |keys| - 1)]
  {
  }

  lemma RecordsExtend(keys: seq<string>, info: Info, key: string, info': Info)
    requires forall i | 0 <= i < |keys| :: RecordAt(keys[i], info', i) == RecordAt(keys[i], info, i)
    ensures Records(keys + [key], info') == Records(keys, info) + [RecordAt(key, info', |keys|)]
  {
  }

  lemma KeptKey(keys: seq<string>, info: Info, index: int)
    requires keys != [] && |keys| - 1 != index
    ensures var i := |keys| - 1;
            var r, kept := WithoutKey(keys[..i], info, index), WithoutKey(keys, info, index);
            Records(kept.keys, kept.info) == Records(r.keys, r.info) + [RecordAt(keys[i], info, i)]
  {
    var i := |keys| - 1;
    var r, kept := WithoutKey(keys[..i], info, index), WithoutKey(keys, info, index);
    WithoutKeyIndices(keys[..i], info, index);
    RecordsExtend(r.keys, r.info, keys[i], kept.info);
    assert RecordAt(keys[i], kept.info, |r.keys|) == RecordAt(keys[i], info, i);
  }

  lemma RemoveLast(recs: seq<Rec>, last: Rec, index: int)
    ensures RemoveAt(recs + [last], index) == if index == |recs| then recs else RemoveAt(recs, index) + [last]
  {
  }

  /** Deleting one key removes one record; all others keep their order and metadata. */
  lemma {:induction false} WithoutKeyRecords(keys: seq<string>, info: Info, index: int)
    ensures var kept := WithoutKey(keys, info, index);
            Records(kept.keys, kept.info) == RemoveAt(Records(keys, info), index)
  {
    if keys == [] {
    } else {
      var i := |keys| - 1;
      WithoutKeyRecords(keys[..i], info, index);
      RecordsPrefix(keys, info);
      RemoveLast(Records(keys[..i], info), RecordAt(keys[i], info, i), index);
      if i != index { KeptKey(keys, info, index); }
    }
  }

  lemma {:induction false} WithoutDisabledIndices(keys: seq<string>, info: Info)
    ensures IndicesBelow(WithoutDisabled(keys, info).info, |WithoutDisabled(keys, info).keys|)
  {
    if keys == [] {
    } else {
      WithoutDisabledIndices(keys[..|keys| - 1], info);
    }
  }

  lemma SurvivingKey(keys: seq<string>, info: Info)
    requires keys != [] && StatusAt(info, |keys| - 1) != AUTO_DISABLED
    ensures var i := |keys| - 1;
            var r, kept := WithoutDisabled(keys[..i], info), WithoutDisabled(keys, info);
            Records(kept.keys, kept.info) == Records(r.keys, r.info) + [Forget(RecordAt(keys[i], info, i))]
  {
    var i := |keys| - 1;
    var r, kept := WithoutDisabled(keys[..i], info), WithoutDisabled(keys, info);
    WithoutDisabledIndices(keys[..i], info);
    RecordsExtend(r.keys, r.info, keys[i], kept.info);
    assert RecordAt(keys[i], kept.info, |r.keys|) == Forget(RecordAt(keys[i], info, i));
  }

  lemma SurvivorsExtend(recs: seq<Rec>, last: Rec)
    ensures ForgetRecords(Survivors(recs + [last]))
         == ForgetRecords(Survivors(recs)) + if last.status == AUTO_DISABLED then [] else [Forget(last)]
  {
    assert (recs + [last])[..|recs|] == recs;
  }

  /** Deleting the disabled keys keeps exactly the records that are not automatically disabled, in
      order; but an enabled key forgets its disable time and reason. */
  lemma {:induction false} WithoutDisabledRecords(keys: seq<string>, info: Info)
    ensures var kept := WithoutDisabled(keys, info);
            Records(kept.keys, kept.info) == ForgetRecords(Survivors(Records(keys, info)))
  {
    if keys == [] {
    } else {
      var i := |keys| - 1;
      WithoutDisabledRecords(keys[..i], info);
      RecordsPrefix(keys, info);
      SurvivorsExtend(Records(keys[..i], info), RecordAt(keys[i], info, i));
      if StatusAt(info, i) != AUTO_DISABLED { SurvivingKey(keys, info); }
    }
  }

  lemma ForgetIdentity(recs: seq<Rec>)
    ensures ForgetRecords(recs) == recs <==> Tidy(recs)
  {
    if ForgetRecords(recs) == recs {
      forall i | 0 <= i < |recs| ensures !Untidy(recs[i]) {
        assert ForgetRecords(recs)[i] == recs[i];
      }
    }
  }

  /** The renumbered maps show exactly the surviving records if and only if no surviving enabled
      key had a disable time or reason. */
  lemma DeleteDisabledExact(keys: seq<string>, info: Info)
    ensures var kept := WithoutDisabled(keys, info);
            var survivors := Survivors(Records(keys, info));
            Records(kept.keys, kept.info) == survivors <==> Tidy(survivors)
  {
    WithoutDisabledRecords(keys, info);
    ForgetIdentity(Survivors(Records(keys, info)));
  }

  // ---------- Storing the keys as text ----------

  lemma {:induction false} TrimLeftConcat(s: string, t: string)
    requires TrimLeft(Space, s) != ""
    ensures TrimLeft(Space, s + t) == TrimLeft(Space, s) + t
  {
    if s != [] && IsSpace(s[0]) {
      assert (s + t)[1..] == s[1..] + t;
      TrimLeftConcat(s[1..], t);
    }
  }

  lemma {:induction false} TrimRightNonEmpty(s: string)
    requires s != [] && !IsSpace(s[0])
    ensures TrimRight(Space, s) != [] && TrimRight(Space, s)[0] == s[0]
  {
    if IsSpace(s[|s| - 1]) {
      TrimRightNonEmpty(s[..|s| - 1]);
    }
  }

  lemma TrimSpaceHead(s: string)
    requires TrimLeft(Space, s) != ""
    ensures TrimSpace(s) != "" && TrimSpace(s)[0] == TrimLeft(Space, s)[0]
  {
    TrimLeftShape(Space, s);
    TrimRightNonEmpty(TrimLeft(Space, s));
  }

  lemma {:induction false} TrimLeftBlank(s: string, t: string)
    requires TrimLeft(Space, s) == ""
    ensures TrimLeft(Space, s + ['\n'] + t) == TrimLeft(Space, t)
  {
    if s == [] {
      assert (s + ['\n'] + t)[1..] == t;
    } else {
      assert (s + ['\n'] + t)[1..] == s[1..] + ['\n'] + t;
      TrimLeftBlank(s[1..], t);
    }
  }

  lemma TrimSpaceBlank(s: string)
    requires TrimLeft(Space, s) == ""
    ensures TrimSpace(s) == ""
  {
  }

  /** The text of plain keys does not look like a JSON array. */
  lemma {:induction false} JoinedHead(keys: seq<string>)
    requires keys != [] && PlainKeys(keys)
    ensures var left := TrimLeft(Space, Join(keys, '\n')); left == "" || left[0] != '['
  {
    assert PlainKey(keys[0]);
    if TrimLeft(Space, keys[0]) != "" { TrimSpaceHead(keys[0]); }
    if |keys| == 1 {
    } else {
      var rest := Join(keys[1..], '\n');
      if TrimLeft(Space, keys[0]) == "" {
        JoinedHead(keys[1..]);
        TrimLeftBlank(keys[0], rest);
      } else {
        assert Join(keys, '\n') == keys[0] + (['\n'] + rest);
        TrimLeftConcat(keys[0], ['\n'] + rest);
      }
    }
  }

  /** Plain keys are read back from the text they are stored as. */
  lemma PlainKeysReadBack(json: Json, keys: seq<string>)
    requires PlainKeys(keys)
    ensures ReadsBack(json, keys)
  {
    if keys == [] {
    } else {
      assert PlainKey(keys[0]) && PlainKey(keys[|keys| - 1]);
      JoinedHead(keys);
      var text := Join(keys, '\n');
      if TrimLeft(Space, text) == "" { TrimSpaceBlank(text); } else { TrimSpaceHead(text); }
    }
  }

  /** Exactly which keys are read back from the text they are stored as. */
  lemma KeysReadBackExact(json: Json, keys: seq<string>)
    ensures KeysOf(json, Join(keys, '\n')) == keys <==> ReadsBack(json, keys)
  {
    var text := Join(keys, '\n');
    if keys == [] || ("[" <= TrimSpace(text) && json(TrimSpace(text)).Some?) {
    } else if ReadsBack(json, keys) {
      ReadBack(keys, '\n');
    } else if KeysOf(json, text) == keys {
      var trimmed := Trim(Only('\n'), text);
      SplitFree(trimmed, '\n');
      TrimShape(Only('\n'), text);
      OuterEmpty(trimmed, keys);
    }
  }

  /** If a text whose ends are no newlines splits into parts of which an outer one is empty, the
      text is empty. */
  lemma OuterEmpty(s: string, parts: seq<string>)
    requires Trimmed(Only('\n'), s) && Split(s, '\n') == parts && (parts[0] == "" || parts[|parts| - 1] == "")
    ensures s == "" && parts == [""]
  {
    if s != "" {
      SplitHead(s);
      SplitLast(s);
    }
  }

  lemma SplitHead(s: string)
    requires s != "" && s[0] != '\n'
    ensures Split(s, '\n')[0] != ""
  {
  }

  lemma {:induction false} SplitLast(s: string)
    requires s != "" && s[|s| - 1] != '\n'
    ensures var r := Split(s, '\n'); r[|r| - 1] != ""
  {
    if |s| > 1 {
      SplitLast(s[1..]);
    }
  }

  // ---------- Saving ----------

  lemma CountIsKeys(json: Json, text: string)
    ensures KeysOf(json, text) == [] || CountKeys(json, text) == |KeysOf(json, text)|
  {
  }

  /** Saving shows the maps as they were given, and leaves a row that fits. */
  lemma SavedRecords(json: Json, stored: Row, row: Row)
    ensures var text := if row.text != "" then row.text else stored.text;
            && Saved(json, stored, row).text == text
            && RecordsOf(json, Saved(json, stored, row)) == Records(KeysOf(json, text), row.info)
            && Fits(json, Saved(json, stored, row))
  {
    CountIsKeys(json, if row.text != "" then row.text else stored.text);
  }

  lemma KeysInRecords(keys: seq<string>, info: Info)
    ensures KeysIn(Records(keys, info)) == keys
  {
  }

  lemma JoinedEmpty(keys: seq<string>)
    requires keys != [] && Join(keys, '\n') == ""
    ensures keys == [""]
  {
  }

  /** The row with these keys as its new text. */
  function Stored(json: Json, row: Row, kept: Kept): Row {
    Saved(json, row, Row(Join(kept.keys, '\n'), |kept.keys|, kept.info))
  }

  /** Storing fewer keys as a new text shows these keys, with their maps, if and only if they are
      read back. */
  lemma StoredKeys(json: Json, row: Row, kept: Kept)
    requires kept.keys != [] && |kept.keys| != |KeysOf(json, row.text)|
    ensures KeysOf(json, Stored(json, row, kept).text) == kept.keys <==> ReadsBack(json, kept.keys)
  {
    KeysReadBackExact(json, kept.keys);
    if Join(kept.keys, '\n') == "" { JoinedEmpty(kept.keys); }
  }

  lemma StoredKept(json: Json, row: Row, kept: Kept)
    requires kept.keys != [] && |kept.keys| != |KeysOf(json, row.text)|
    ensures RecordsOf(json, Stored(json, row, kept)) == Records(kept.keys, kept.info) <==> ReadsBack(json, kept.keys)
  {
    var r := Stored(json, row, kept);
    StoredKeys(json, row, kept);
    SavedRecords(json, row, Row(Join(kept.keys, '\n'), |kept.keys|, kept.info));
    KeysInRecords(kept.keys, kept.info);
    KeysInRecords(KeysOf(json, r.text), kept.info);
  }

  // ---------- Actions that leave the text alone ----------

  /** A changed map shows as the given records. */
  lemma SavedInfo(json: Json, row: Row, info: Info)
    ensures var r := Saved(json, row, row.(info := info));
            Fits(json, r) && RecordsOf(json, r) == Records(KeysOf(json, row.text), info)
  {
    SavedRecords(json, row, row.(info := info));
  }

  lemma RecordReplaced(keys: seq<string>, info: Info, info': Info, i: nat)
    requires i < |keys|
    requires forall j | 0 <= j < |keys| && j != i :: RecordAt(keys[j], info', j) == RecordAt(keys[j], info, j)
    ensures Records(keys, info') == Records(keys, info)[i := RecordAt(keys[i], info', i)]
  {
  }

  lemma {:induction false} DisabledAllStatus(status: map<int, int>, size: int, i: int)
    ensures var after := DisabledAll(status, size);
            && (i in after <==> i in status || 0 <= i < size)
            && (i in after ==>
                  after[i] == if 0 <= i < size && (i in status ==> status[i] == ENABLED) then MANUALLY_DISABLED
                              else status[i])
    decreases size
  {
    if size <= 0 {
    } else {
      DisabledAllStatus(status, size - 1, i);
    }
  }

  function Disabled(info: Info, size: int): Info {
    info.(status := DisabledAll(info.status, size))
  }

  lemma DisabledAt(keys: seq<string>, info: Info, size: int, i: nat)
    requires i < |keys|
    ensures RecordAt(keys[i], Disabled(info, size), i)
         == if i < size then Disable(RecordAt(keys[i], info, i)) else RecordAt(keys[i], info, i)
  {
    DisabledAllStatus(info.status, size, i);
  }

  /** Disabling below the size disables all keys if and only if all others are disabled. */
  lemma DisabledAllRecords(keys: seq<string>, info: Info, size: int)
    ensures Records(keys, Disabled(info, size)) == DisableRecords(Records(keys, info))
       <==> forall i | 0 <= i < |keys| && i >= size :: Records(keys, info)[i].status != ENABLED
  {
    var all, after := DisableRecords(Records(keys, info)), Records(keys, Disabled(info, size));
    forall i | 0 <= i < |keys|
      ensures after[i] == all[i] <==> (i >= size ==> Records(keys, info)[i].status != ENABLED)
    {
      DisabledAt(keys, info, size, i);
    }
  }

  lemma AllEnabled(keys: seq<string>, info: Info)
    ensures Records(keys, NO_INFO) == EnableRecords(Records(keys, info))
  {
  }

  lemma {:induction false} FirstIndexIsFirstRecord(keys: seq<string>, recs: seq<Rec>, key: string)
    requires |recs| == |keys| && forall i | 0 <= i < |keys| :: recs[i].key == keys[i]
    ensures FirstRecord(recs, key) == FirstIndex(keys, key) && -1 <= FirstIndex(keys, key) < |keys|
  {
    if keys == [] {
    } else {
      FirstIndexIsFirstRecord(keys[1..], recs[1..], key);
    }
  }

  predicate KeepsText(action: Action) {
    !action.DeleteKey? && !action.DeleteDisabledKeys?
  }

  lemma OneKeyAction(json: Json, row: Row, action: Action)
    requires action.DisableKey? || action.EnableKey?
    ensures RecordsOf(json, After(json, row, action)) == AfterOnRecords(RecordsOf(json, row), action)
       <==> SizeAllows(json, row.size, RecordsOf(json, row), action)
  {
    var keys, i := KeysOf(json, row.text), action.index;
    var info := if action.DisableKey? then row.info.(status := row.info.status[i := MANUALLY_DISABLED])
                else Info(row.info.status - {i}, row.info.time - {i}, row.info.reason - {i});
    SavedInfo(json, row, info);
    if 0 <= i < |keys| {
      RecordReplaced(keys, row.info, info, i);
    } else {
      assert Records(keys, info) == Records(keys, row.info);
    }
  }

  lemma AutomaticAction(json: Json, row: Row, action: Action)
    requires action.AutoDisable? || action.AutoEnable?
    ensures RecordsOf(json, After(json, row, action)) == AfterOnRecords(RecordsOf(json, row), action)
  {
    var keys := KeysOf(json, row.text);
    FirstIndexIsFirstRecord(keys, RecordsOf(json, row), action.key);
    var i := FirstIndex(keys, action.key);
    if i != -1 { RecordReplaced(keys, row.info, After(json, row, action).info, i); }
  }

  lemma AllKeysAction(json: Json, row: Row, action: Action)
    requires action.EnableAllKeys? || action.DisableAllKeys?
    ensures RecordsOf(json, After(json, row, action)) == AfterOnRecords(RecordsOf(json, row), action)
       <==> SizeAllows(json, row.size, RecordsOf(json, row), action)
  {
    var keys := KeysOf(json, row.text);
    AllEnabled(keys, row.info);
    DisabledAllRecords(keys, row.info, row.size);
    SavedInfo(json, row, NO_INFO);
    SavedInfo(json, row, Disabled(row.info, row.size));
  }

  // ---------- Deletions ----------

  /** Storing the same keys anew. */
  lemma StoredAnew(json: Json, row: Row, kept: Kept)
    requires kept.keys != [] && kept.keys == KeysOf(json, row.text)
    ensures RecordsOf(json, Stored(json, row, kept)) == Records(kept.keys, kept.info)
       <==> ReadsBack(json, kept.keys) || kept.keys == [""]
  {
    var r := Stored(json, row, kept);
    KeysReadBackExact(json, kept.keys);
    SavedRecords(json, row, Row(Join(kept.keys, '\n'), |kept.keys|, kept.info));
    KeysInRecords(kept.keys, kept.info);
    KeysInRecords(KeysOf(json, r.text), kept.info);
    if Join(kept.keys, '\n') == "" { JoinedEmpty(kept.keys); }
  }

  lemma DeleteKeyBelow(json: Json, row: Row, index: int)
    requires 0 <= index < row.size
    ensures RecordsOf(json, After(json, row, DeleteKey(index)))
       == AfterOnRecords(RecordsOf(json, row), DeleteKey(index))
       <==> && Readable(json, RecordsOf(json, row), DeleteKey(index))
            && SizeAllows(json, row.size, RecordsOf(json, row), DeleteKey(index))
  {
    var keys, recs := KeysOf(json, row.text), RecordsOf(json, row);
    var kept := WithoutKey(keys, row.info, index);
    WithoutKeyRecords(keys, row.info, index);
    KeysInRecords(kept.keys, kept.info);
    assert |kept.keys| == |Records(kept.keys, kept.info)| == |RemoveAt(recs, index)|;
    if kept.keys != [] {
      if index < |keys| {
        StoredKept(json, row, kept);
      } else {
        KeysInRecords(keys, row.info);
        StoredAnew(json, row, kept);
      }
    }
  }

  lemma DeleteKeyAction(json: Json, row: Row, index: int)
    ensures RecordsOf(json, After(json, row, DeleteKey(index)))
       == AfterOnRecords(RecordsOf(json, row), DeleteKey(index))
       <==> && Readable(json, RecordsOf(json, row), DeleteKey(index))
            && SizeAllows(json, row.size, RecordsOf(json, row), DeleteKey(index))
  {
    if 0 <= index < row.size {
      DeleteKeyBelow(json, row, index);
    } else {
      var recs := RecordsOf(json, row);
      assert |AfterOnRecords(recs, DeleteKey(index))| == |recs| <==> !(0 <= index < |recs| && |recs| > 1);
    }
  }

  lemma {:induction false} SurvivorsAll(recs: seq<Rec>)
    ensures |Survivors(recs)| <= |recs| && (|Survivors(recs)| == |recs| ==> Survivors(recs) == recs)
  {
    if recs == [] {
    } else {
      SurvivorsAll(recs[..|recs| - 1]);
      assert recs == recs[..|recs| - 1] + [recs[|recs| - 1]];
    }
  }

  lemma EmptyMap<T>(m: map<int, T>)
    requires forall i :: i !in m
    ensures m == map[]
  {
    var none: map<int, T> := map[];
    assert forall i :: i in m <==> i in none;
  }

  lemma NoKeysNoInfo(info: Info)
    requires IndicesBelow(info, 0)
    ensures info == NO_INFO
  {
    EmptyMap(info.status);
    EmptyMap(info.time);
    EmptyMap(info.reason);
  }

  lemma NoneSurvives(json: Json, row: Row)
    requires Survivors(RecordsOf(json, row)) == [] && RecordsOf(json, row) != []
    ensures RecordsOf(json, After(json, row, DeleteDisabledKeys)) == EnableRecords(RecordsOf(json, row))
  {
    var keys := KeysOf(json, row.text);
    var kept := WithoutDisabled(keys, row.info);
    KeysOfSurvivors(keys, row.info);
    WithoutDisabledIndices(keys, row.info);
    NoKeysNoInfo(kept.info);
    SavedRecords(json, row, Row("", 0, kept.info));
    AllEnabled(keys, row.info);
  }

  lemma SomeAreDeleted(json: Json, row: Row)
    requires 0 < |Survivors(RecordsOf(json, row))| < |RecordsOf(json, row)|
    ensures var left := Survivors(RecordsOf(json, row));
            (RecordsOf(json, After(json, row, DeleteDisabledKeys)) == ForgetRecords(left)
             <==> ReadsBack(json, KeysIn(left)))
  {
    var keys := KeysOf(json, row.text);
    var kept := WithoutDisabled(keys, row.info);
    KeysOfSurvivors(keys, row.info);
    WithoutDisabledRecords(keys, row.info);
    assert |kept.keys| == |Survivors(RecordsOf(json, row))| < |keys|;
    StoredKept(json, row, kept);
    assert After(json, row, DeleteDisabledKeys) == Stored(json, row, kept);
  }

  lemma NoneIsDeleted(json: Json, row: Row)
    requires |Survivors(RecordsOf(json, row))| == |RecordsOf(json, row)|
    ensures After(json, row, DeleteDisabledKeys) == row
  {
    KeysOfSurvivors(KeysOf(json, row.text), row.info);
  }

  lemma DeleteDisabledAction(json: Json, row: Row)
    ensures RecordsOf(json, After(json, row, DeleteDisabledKeys))
         == AfterOnRecords(RecordsOf(json, row), DeleteDisabledKeys)
       <==> Readable(json, RecordsOf(json, row), DeleteDisabledKeys)
  {
    var recs := RecordsOf(json, row);
    SurvivorsAll(recs);
    if |Survivors(recs)| == |recs| {
      NoneIsDeleted(json, row);
    } else if Survivors(recs) == [] {
      NoneSurvives(json, row);
    } else {
      SomeAreDeleted(json, row);
    }
  }

  // ---------- Every action, and every sequence of them ----------

  /** For every row, whatever its text, size and maps: an action is the same action on a plain list of
      records if and only if the keys that it stores as a new text are read back and the stored
      size allows it. */
  lemma ActionRefines(json: Json, row: Row, action: Action)
    ensures RecordsOf(json, After(json, row, action)) == AfterOnRecords(RecordsOf(json, row), action)
       <==> Readable(json, RecordsOf(json, row), action) && SizeAllows(json, row.size, RecordsOf(json, row), action)
  {
    match action
    case DisableKey(_) => OneKeyAction(json, row, action);
    case EnableKey(_) => OneKeyAction(json, row, action);
    case EnableAllKeys => AllKeysAction(json, row, action);
    case DisableAllKeys => AllKeysAction(json, row, action);
    case DeleteKey(index) => DeleteKeyAction(json, row, index);
    case DeleteDisabledKeys => DeleteDisabledAction(json, row);
    case AutoDisable(_, _, _) => AutomaticAction(json, row, action);
    case AutoEnable(_) => AutomaticAction(json, row, action);
  }

  /** A size that is right allows every action, and every action keeps it right.  A wrong size is put
      right by the first action that is saved; the automatic ones leave it. */
  lemma SizeOfAction(json: Json, row: Row, action: Action)
    ensures Fits(json, row) ==> SizeAllows(json, row.size, RecordsOf(json, row), action)
    ensures Fits(json, row) ==> Fits(json, After(json, row, action))
    ensures !action.AutoDisable? && !action.AutoEnable? && After(json, row, action) != row ==>
              Fits(json, After(json, row, action))
    ensures action.AutoDisable? || action.AutoEnable? ==> After(json, row, action).size == row.size
  {
    var keys := KeysOf(json, row.text);
    match action
    case DisableKey(i) => SavedInfo(json, row, row.info.(status := row.info.status[i := MANUALLY_DISABLED]));
    case EnableKey(i) => SavedInfo(json, row, Info(row.info.status - {i}, row.info.time - {i}, row.info.reason - {i}));
    case EnableAllKeys => SavedInfo(json, row, NO_INFO);
    case DisableAllKeys => SavedInfo(json, row, Disabled(row.info, row.size));
    case DeleteKey(index) =>
      var kept := WithoutKey(keys, row.info, index);
      SavedRecords(json, row, Row(Join(kept.keys, '\n'), |kept.keys|, kept.info));
    case DeleteDisabledKeys =>
      var kept := WithoutDisabled(keys, row.info);
      SavedRecords(json, row, Row(Join(kept.keys, '\n'), |kept.keys|, kept.info));
    case _ =>
  }

  function AfterAll(json: Json, row: Row, actions: seq<Action>): Row {
    if actions == [] then row else After(json, AfterAll(json, row, actions[..|actions| - 1]), actions[|actions| - 1])
  }

  function AfterAllOnRecords(recs: seq<Rec>, actions: seq<Action>): seq<Rec> {
    if actions == [] then recs
    else AfterOnRecords(AfterAllOnRecords(recs, actions[..|actions| - 1]), actions[|actions| - 1])
  }

  /** After each of the actions, the stored channel is the plain list. */
  predicate Refines(json: Json, row: Row, actions: seq<Action>) {
    && RecordsOf(json, AfterAll(json, row, actions)) == AfterAllOnRecords(RecordsOf(json, row), actions)
    && (actions == [] || Refines(json, row, actions[..|actions| - 1]))
  }

  /** Each of the actions can be stored, as seen from the plain list. */
  predicate AllReadable(json: Json, recs: seq<Rec>, actions: seq<Action>) {
    actions == [] ||
    var before := actions[..|actions| - 1];
    AllReadable(json, recs, before) && Readable(json, AfterAllOnRecords(recs, before), actions[|actions| - 1])
  }

  /** Each of the actions is allowed by the size that is stored when it comes. */
  predicate AllSized(json: Json, row: Row, actions: seq<Action>) {
    actions == [] ||
    var before := actions[..|actions| - 1];
    && AllSized(json, row, before)
    && SizeAllows(json, AfterAll(json, row, before).size, AfterAllOnRecords(RecordsOf(json, row), before),
       actions[|actions| - 1])
  }

  /** From every row and over every sequence of actions, the stored channel stays the plain list if and
      only if each list of keys that is stored on the way is read back and each action is allowed
      by the stored size. */
  lemma {:induction false} RunRefines(json: Json, row: Row, actions: seq<Action>)
    ensures Refines(json, row, actions)
       <==> AllReadable(json, RecordsOf(json, row), actions) && AllSized(json, row, actions)
  {
    if actions == [] {
    } else {
      var before, last := actions[..|actions| - 1], actions[|actions| - 1];
      RunRefines(json, row, before);
      ActionRefines(json, AfterAll(json, row, before), last);
    }
  }

  /** From a row whose size is right, the size stays right, so that only the keys matter. */
  lemma {:induction false} FittingRunRefines(json: Json, row: Row, actions: seq<Action>)
    requires Fits(json, row)
    ensures Fits(json, AfterAll(json, row, actions))
    ensures Refines(json, row, actions) <==> AllReadable(json, RecordsOf(json, row), actions)
  {
    if actions == [] {
    } else {
      var before, last := actions[..|actions| - 1], actions[|actions| - 1];
      FittingRunRefines(json, row, before);
      SizeOfAction(json, AfterAll(json, row, before), last);
      ActionRefines(json, AfterAll(json, row, before), last);
    }
  }

  lemma {:induction false} SurvivorsAre(recs: seq<Rec>, k: nat)
    requires k < |Survivors(recs)|
    ensures Survivors(recs)[k] in recs && Survivors(recs)[k].status != AUTO_DISABLED
  {
    var rest := recs[..|recs| - 1];
    if k < |Survivors(rest)| {
      SurvivorsAre(rest, k);
    } else {
      assert Survivors(recs)[k] == recs[|recs| - 1];
    }
  }

  lemma PlainSurvivors(recs: seq<Rec>)
    requires PlainKeys(KeysIn(recs))
    ensures PlainKeys(KeysIn(Survivors(recs)))
  {
    var keys, left := KeysIn(recs), Survivors(recs);
    forall k | 0 <= k < |left| ensures PlainKey(KeysIn(left)[k]) {
      SurvivorsAre(recs, k);
      var i :| 0 <= i < |recs| && left[k] == recs[i];
      assert PlainKey(keys[i]);
    }
  }

  lemma PlainRemoved(recs: seq<Rec>, index: int)
    requires PlainKeys(KeysIn(recs))
    ensures PlainKeys(KeysIn(RemoveAt(recs, index)))
  {
    var keys, left := KeysIn(recs), RemoveAt(recs, index);
    forall k | 0 <= k < |left| ensures PlainKey(KeysIn(left)[k]) {
      assert PlainKey(keys[if 0 <= index < |recs| && k >= index then k + 1 else k]);
    }
  }

  lemma PlainAction(json: Json, recs: seq<Rec>, action: Action)
    requires PlainKeys(KeysIn(recs))
    ensures Readable(json, recs, action) && PlainKeys(KeysIn(AfterOnRecords(recs, action)))
  {
    PlainSurvivors(recs);
    PlainKeysReadBack(json, KeysIn(Survivors(recs)));
    var keys, after := KeysIn(recs), AfterOnRecords(recs, action);
    if action.DeleteKey? {
      PlainRemoved(recs, action.index);
      PlainKeysReadBack(json, KeysIn(RemoveAt(recs, action.index)));
    } else if action.DeleteDisabledKeys? {
      assert KeysIn(ForgetRecords(Survivors(recs))) == KeysIn(Survivors(recs));
      assert KeysIn(EnableRecords(recs)) == keys;
    } else {
      assert KeysIn(after) == keys;
    }
  }

  /** A channel of plain keys, which are not empty, contain no newline and do not begin with a
      bracket, is the plain list after every sequence of actions. */
  lemma {:induction false} PlainRunRefines(json: Json, row: Row, actions: seq<Action>)
    requires Fits(json, row) && PlainKeys(KeysOf(json, row.text))
    ensures Refines(json, row, actions)
    ensures PlainKeys(KeysIn(AfterAllOnRecords(RecordsOf(json, row), actions)))
  {
    KeysInRecords(KeysOf(json, row.text), row.info);
    PlainRun(json, RecordsOf(json, row), actions);
    FittingRunRefines(json, row, actions);
  }

  lemma {:induction false} PlainRun(json: Json, recs: seq<Rec>, actions: seq<Action>)
    requires PlainKeys(KeysIn(recs))
    ensures AllReadable(json, recs, actions) && PlainKeys(KeysIn(AfterAllOnRecords(recs, actions)))
  {
    if actions == [] {
    } else {
      var before, last := actions[..|actions| - 1], actions[|actions| - 1];
      PlainRun(json, recs, before);
      PlainAction(json, AfterAllOnRecords(recs, before), last);
    }
  }

  // ---------- Map indices ----------

  lemma KeepsIndices(json: Json, row: Row, action: Action)
    requires Fits(json, row) && KeysOf(json, row.text) != [] && IndicesBelow(row.info, |KeysOf(json, row.text)|)
             && KeepsText(action)
    ensures After(json, row, action).text == row.text
    ensures IndicesBelow(After(json, row, action).info, |KeysOf(json, row.text)|)
  {
    var keys := KeysOf(json, row.text);
    if action.DisableAllKeys? {
      forall i | i in DisabledAll(row.info.status, row.size) ensures 0 <= i < |keys| {
        DisabledAllStatus(row.info.status, row.size, i);
      }
    } else if action.AutoDisable? || action.AutoEnable? {
      FirstIndexIsFirstRecord(keys, RecordsOf(json, row), action.key);
    }
  }

  lemma {:induction false} StoredIndices(json: Json, row: Row, kept: Kept)
    requires kept.keys != [] && IndicesBelow(kept.info, |kept.keys|)
    requires RecordsOf(json, Stored(json, row, kept)) == Records(kept.keys, kept.info)
    ensures var r := Stored(json, row, kept);
            KeysOf(json, r.text) == kept.keys && IndicesBelow(r.info, |kept.keys|)
  {
    var r := Stored(json, row, kept);
    KeysInRecords(KeysOf(json, r.text), r.info);
    KeysInRecords(kept.keys, kept.info);
  }

  /** An action that can be stored leaves no map entry without its key. */
  lemma IndicesAction(json: Json, row: Row, action: Action)
    requires Fits(json, row) && KeysOf(json, row.text) != [] && IndicesBelow(row.info, |KeysOf(json, row.text)|)
    requires Readable(json, RecordsOf(json, row), action)
    ensures var r := After(json, row, action);
            KeysOf(json, r.text) != [] && IndicesBelow(r.info, |KeysOf(json, r.text)|)
  {
    var keys := KeysOf(json, row.text);
    if KeepsText(action) {
      KeepsIndices(json, row, action);
    } else {
      ActionRefines(json, row, action);
      SizeOfAction(json, row, action);
      SurvivorsAll(RecordsOf(json, row));
      if action.DeleteKey? {
        var kept := WithoutKey(keys, row.info, action.index);
        WithoutKeyIndices(keys, row.info, action.index);
        WithoutKeyRecords(keys, row.info, action.index);
        assert |kept.keys| == |Records(kept.keys, kept.info)|;
        if 0 <= action.index < row.size && kept.keys != [] { StoredIndices(json, row, kept); }
      } else {
        var kept := WithoutDisabled(keys, row.info);
        WithoutDisabledIndices(keys, row.info);
        WithoutDisabledRecords(keys, row.info);
        assert |kept.keys| == |Records(kept.keys, kept.info)|;
        if kept.keys == [] {
          NoKeysNoInfo(kept.info);
        } else if |kept.keys| < |keys| {
          StoredIndices(json, row, kept);
        }
      }
    }
  }

  // ---------- Tidiness ----------

  /** No action leaves a disable time or reason at an enabled key, except the automatic enable. */
  lemma TidyAction(recs: seq<Rec>, action: Action)
    requires Tidy(recs) && !action.AutoEnable?
    ensures Tidy(AfterOnRecords(recs, action))
  {
    var left := Survivors(recs);
    forall k | 0 <= k < |left| ensures !Untidy(left[k]) {
      SurvivorsAre(recs, k);
    }
  }

  /** A key that was disabled and enabled automatically keeps its disable time and reason. */
  lemma ReenabledKeyIsUntidy(json: Json, row: Row, key: string, reason: string, now: int)
    requires key in KeysOf(json, row.text)
    ensures var recs := RecordsOf(json, AfterAll(json, row, [AutoDisable(key, reason, now), AutoEnable(key)]));
            var i := FirstIndex(KeysOf(json, row.text), key);
            0 <= i < |recs| && recs[i] == Rec(key, ENABLED, Some(now), Some(reason)) && Untidy(recs[i])
  {
    FirstIndexOf(KeysOf(json, row.text), key);
    var actions := [AutoDisable(key, reason, now), AutoEnable(key)];
    assert actions[..1] == [AutoDisable(key, reason, now)] && actions[..1][..0] == [];
    assert AfterAll(json, row, actions[..1]) == After(json, row, AutoDisable(key, reason, now));
  }

  lemma {:induction false} FirstIndexOf(keys: seq<string>, key: string)
    requires key in keys
    ensures 0 <= FirstIndex(keys, key) < |keys| && keys[FirstIndex(keys, key)] == key
  {
    if keys[0] == key {
    } else {
      FirstIndexOf(keys[1..], key);
    }
  }

  // ---------- Where the actions do not do what they are called ----------

  /** `delete_disabled_keys` leaves exactly the records that are not automatically disabled if and
      only if there is nothing to delete, or something is left, the keys left are read back and
      no enabled one of them has a disable time or reason. */
  lemma DeletesDisabledExactly(json: Json, row: Row)
    ensures var recs := RecordsOf(json, row);
            var left := Survivors(recs);
            (RecordsOf(json, After(json, row, DeleteDisabledKeys)) == left
             <==> left == recs || (left != [] && ReadsBack(json, KeysIn(left)) && Tidy(left)))
  {
    var recs := RecordsOf(json, row);
    var left := Survivors(recs);
    SurvivorsAll(recs);
    if |left| == |recs| {
      NoneIsDeleted(json, row);
    } else if left == [] {
      AllDisabledAreEnabled(json, row);
      assert |EnableRecords(recs)| == |recs|;
    } else {
      SomeSurvive(json, row);
    }
  }

  lemma SomeSurvive(json: Json, row: Row)
    requires 0 < |Survivors(RecordsOf(json, row))| < |RecordsOf(json, row)|
    ensures var left := Survivors(RecordsOf(json, row));
            (RecordsOf(json, After(json, row, DeleteDisabledKeys)) == left
             <==> ReadsBack(json, KeysIn(left)) && Tidy(left))
  {
    SomeAreDeleted(json, row);
    ForgetIdentity(Survivors(RecordsOf(json, row)));
    DeletedKeys(json, row);
  }

  lemma KeysOfSurvivors(keys: seq<string>, info: Info)
    ensures WithoutDisabled(keys, info).keys == KeysIn(Survivors(Records(keys, info)))
  {
    var kept, left := WithoutDisabled(keys, info), Survivors(Records(keys, info));
    WithoutDisabledRecords(keys, info);
    KeysInRecords(kept.keys, kept.info);
    assert KeysIn(left) == KeysIn(ForgetRecords(left));
  }

  /** If the keys left are not read back, other keys are. */
  lemma DeletedKeys(json: Json, row: Row)
    requires 0 < |Survivors(RecordsOf(json, row))| < |RecordsOf(json, row)|
    ensures var left := KeysIn(Survivors(RecordsOf(json, row)));
            KeysIn(RecordsOf(json, After(json, row, DeleteDisabledKeys))) == left ==> ReadsBack(json, left)
  {
    var keys := KeysOf(json, row.text);
    var kept := WithoutDisabled(keys, row.info);
    KeysOfSurvivors(keys, row.info);
    assert |kept.keys| == |Survivors(RecordsOf(json, row))| < |keys|;
    StoredKeys(json, row, kept);
    var after := After(json, row, DeleteDisabledKeys);
    assert after == Stored(json, row, kept);
    KeysInRecords(KeysOf(json, after.text), after.info);
  }

  /** If every key is automatically disabled, all keys stay, and all of them are enabled. */
  lemma AllDisabledAreEnabled(json: Json, row: Row)
    requires Survivors(RecordsOf(json, row)) == []
    ensures RecordsOf(json, After(json, row, DeleteDisabledKeys)) == EnableRecords(RecordsOf(json, row))
  {
    if RecordsOf(json, row) == [] {
      NoneIsDeleted(json, row);
    } else {
      NoneSurvives(json, row);
    }
  }
}
