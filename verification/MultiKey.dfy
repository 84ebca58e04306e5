/** Multi-key channels (controller/channel.go, lines 1436-1907, and model/channel.go).

    The keys of a channel are one text.  Status, disable time and disable reason of the keys are
    kept apart from them, in three sparse maps from key indices, which have to be renumbered
    whenever a key is deleted. */
module MultiKey {
  import opened Options
  import opened Text

  const ENABLED := 1
  const MANUALLY_DISABLED := 2
  const AUTO_DISABLED := 3

  /** The maps of `ChannelInfo`; a nil map is the empty map. */
  datatype Info = Info(status: map<int, int>, time: map<int, int>, reason: map<int, string>)

  const NO_INFO := Info(map[], map[], map[])

  /** The stored channel. */
  datatype Row = Row(text: string, size: int, info: Info)

  /** Parses a JSON array into its raw elements; left uninterpreted. */
  type Json = string -> Option<seq<string>>

  /** `Channel.GetKeys` (model/channel.go, lines 175-197). */
  function KeysOf(json: Json, text: string): seq<string> {
    if text == "" then []
    else
      var trimmed := TrimSpace(text);
      if "[" <= trimmed && json(trimmed).Some? then json(trimmed).value
      else Split(Trim(Only('\n'), text), '\n')
  }

  function CountKeys(json: Json, text: string): nat {
    if text == "" then 0
    else
      var trimmed := TrimSpace(text);
      if "[" <= trimmed && json(trimmed).Some? && json(trimmed).value != [] then |json(trimmed).value|
      else |Split(Trim(Only('\n'), text), '\n')|
  }

  /** `Channel.Update` (model/channel.go, lines 526-573): the number of keys is recomputed and
      surplus statuses are dropped.  GORM's `Updates` with a struct skips fields that are
      zero, so an empty key text leaves the stored text as it is. */
  function Saved(json: Json, stored: Row, row: Row): Row {
    var text := if row.text != "" then row.text else stored.text;
    var size := CountKeys(json, text);
    Row(text, size, row.info.(status := map i | i in row.info.status && i < size :: row.info.status[i]))
  }

  function StatusAt(info: Info, i: int): int {
    if i in info.status then info.status[i] else ENABLED
  }

  // ---------- The loops that renumber ----------

  datatype Kept = Kept(keys: seq<string>, info: Info)

  /** Lines 1775-1801: all keys but the one at `index`. */
  function WithoutKey(keys: seq<string>, info: Info, index: int): Kept {
    if keys == [] then Kept([], NO_INFO)
    else
      var i := |keys| - 1;
      var r := WithoutKey(keys[..i], info, index);
      if i == index then r
      else
        var j := |r.keys|;
        Kept(r.keys + [keys[i]],
             Info(if i in info.status && info.status[i] != ENABLED then r.info.status[j := info.status[i]]
                  else r.info.status,
                  if i in info.time then r.info.time[j := info.time[i]] else r.info.time,
                  if i in info.reason then r.info.reason[j := info.reason[i]] else r.info.reason))
  }

  /** Lines 1839-1869: all keys that are not automatically disabled. */
  function WithoutDisabled(keys: seq<string>, info: Info): Kept {
    if keys == [] then Kept([], NO_INFO)
    else
      var i := |keys| - 1;
      var r := WithoutDisabled(keys[..i], info);
      var status := StatusAt(info, i);
      if status == AUTO_DISABLED then r
      else
        var j := |r.keys|;
        Kept(r.keys + [keys[i]],
             if status == ENABLED then r.info
             else Info(r.info.status[j := status],
                       if i in info.time then r.info.time[j := info.time[i]] else r.info.time,
                       if i in info.reason then r.info.reason[j := info.reason[i]] else r.info.reason))
  }

  // ---------- The actions ----------

  datatype Action =
    | DisableKey(index: int)
    | EnableKey(index: int)
    | EnableAllKeys
    | DisableAllKeys
    | DeleteKey(index: int)
    | DeleteDisabledKeys
    // `handlerMultiKeyUpdate` (model/channel.go, lines 641-680)
    | AutoDisable(key: string, reason: string, now: int)
    | AutoEnable(key: string)

  function FirstIndex(keys: seq<string>, key: string): (r: int)
    ensures -1 <= r < |keys|
  {
    if keys == [] then -1
    else if keys[0] == key then 0
    else if FirstIndex(keys[1..], key) == -1 then -1 else 1 + FirstIndex(keys[1..], key)
  }

  function DisabledAll(status: map<int, int>, size: int): map<int, int> {
    if size <= 0 then status
    else
      var before := DisabledAll(status, size - 1);
      var i := size - 1;
      if (if i in status then status[i] else ENABLED) == ENABLED then before[i := MANUALLY_DISABLED] else before
  }

  /** The indices of the enabled keys. */
  function EnabledBelow(info: Info, size: int): set<int> {
    set i | 0 <= i < size && StatusAt(info, i) == ENABLED
  }

  /** What an action leaves in the database.  A request that is refused changes nothing. */
  function After(json: Json, row: Row, action: Action): Row {
    var keys := KeysOf(json, row.text);
    match action
    case DisableKey(index) =>
      if 0 <= index < row.size then
        Saved(json, row, row.(info := row.info.(status := row.info.status[index := MANUALLY_DISABLED])))
      else row
    case EnableKey(index) =>
      if 0 <= index < row.size then
        var info := Info(row.info.status - {index}, row.info.time - {index}, row.info.reason - {index});
        Saved(json, row, row.(info := info))
      else row
    case EnableAllKeys => Saved(json, row, row.(info := NO_INFO))
    case DisableAllKeys =>
      var status := DisabledAll(row.info.status, row.size);
      if status == row.info.status then row
      else Saved(json, row, row.(info := row.info.(status := status)))
    case DeleteKey(index) =>
      var kept := WithoutKey(keys, row.info, index);
      if !(0 <= index < row.size) || kept.keys == [] then row
      else Saved(json, row, Row(Join(kept.keys, '\n'), |kept.keys|, kept.info))
    case DeleteDisabledKeys =>
      var kept := WithoutDisabled(keys, row.info);
      if |kept.keys| == |keys| then row
      else Saved(json, row, Row(Join(kept.keys, '\n'), |kept.keys|, kept.info))
    case AutoDisable(key, reason, now) =>
      var i := FirstIndex(keys, key);
      if i == -1 then row
      else
        row.(info := Info(row.info.status[i := AUTO_DISABLED], row.info.time[i := now], row.info.reason[i := reason]))
    case AutoEnable(key) =>
      var i := FirstIndex(keys, key);
      if i == -1 then row else row.(info := row.info.(status := row.info.status - {i}))
  }

  // ---------- The plain list of records it stands for ----------

  datatype Rec = Rec(key: string, status: int, time: Option<int>, reason: Option<string>)

  function RecordAt(key: string, info: Info, i: int): Rec {
    Rec(key, StatusAt(info, i), Lookup(info.time, i), Lookup(info.reason, i))
  }

  function Records(keys: seq<string>, info: Info): seq<Rec> {
    seq(|keys|, i requires 0 <= i < |keys| => RecordAt(keys[i], info, i))
  }

  function RecordsOf(json: Json, row: Row): seq<Rec> {
    Records(KeysOf(json, row.text), row.info)
  }

  function KeysIn(recs: seq<Rec>): seq<string> {
    seq(|recs|, i requires 0 <= i < |recs| => recs[i].key)
  }

  function RemoveAt(recs: seq<Rec>, index: int): seq<Rec> {
    if 0 <= index < |recs| then recs[..index] + recs[index + 1..] else recs
  }

  function Enabled(rec: Rec): Rec {
    Rec(rec.key, ENABLED, None, None)
  }

  /** The records whose status is not "automatically disabled". */
  function Survivors(recs: seq<Rec>): seq<Rec> {
    if recs == [] then []
    else Survivors(recs[..|recs| - 1]) + (if recs[|recs| - 1].status == AUTO_DISABLED then [] else [recs[|recs| - 1]])
  }

  /** What a record loses in `delete_disabled_keys`: the metadata of an enabled key. */
  function Forget(rec: Rec): Rec {
    if rec.status == ENABLED then Enabled(rec) else rec
  }

  function ForgetRecords(recs: seq<Rec>): seq<Rec> {
    seq(|recs|, i requires 0 <= i < |recs| => Forget(recs[i]))
  }

  function EnableRecords(recs: seq<Rec>): seq<Rec> {
    seq(|recs|, i requires 0 <= i < |recs| => Enabled(recs[i]))
  }

  function Disable(rec: Rec): Rec {
    if rec.status == ENABLED then rec.(status := MANUALLY_DISABLED) else rec
  }

  function DisableRecords(recs: seq<Rec>): seq<Rec> {
    seq(|recs|, i requires 0 <= i < |recs| => Disable(recs[i]))
  }

  function FirstRecord(recs: seq<Rec>, key: string): int {
    if recs == [] then -1
    else if recs[0].key == key then 0
    else if FirstRecord(recs[1..], key) == -1 then -1 else 1 + FirstRecord(recs[1..], key)
  }

  function EnabledRecords(keys: seq<string>): seq<Rec> {
    seq(|keys|, i requires 0 <= i < |keys| => Rec(keys[i], ENABLED, None, None))
  }

  /** The same actions on a list of records.  The last key cannot be deleted.  When every key is
      automatically disabled, deleting the disabled keys deletes none and enables all. */
  function AfterOnRecords(recs: seq<Rec>, action: Action): seq<Rec> {
    match action
    case DisableKey(index) =>
      if 0 <= index < |recs| then recs[index := recs[index].(status := MANUALLY_DISABLED)] else recs
    case EnableKey(index) => if 0 <= index < |recs| then recs[index := Enabled(recs[index])] else recs
    case EnableAllKeys => EnableRecords(recs)
    case DisableAllKeys => DisableRecords(recs)
    case DeleteKey(index) => if |recs| > 1 then RemoveAt(recs, index) else recs
    case DeleteDisabledKeys =>
      var left := Survivors(recs);
      if |left| == |recs| then recs else if left == [] then EnableRecords(recs) else ForgetRecords(left)
    case AutoDisable(key, reason, now) =>
      var i := FirstRecord(recs, key);
      if 0 <= i < |recs| then recs[i := Rec(recs[i].key, AUTO_DISABLED, Some(now), Some(reason))] else recs
    case AutoEnable(key) =>
      var i := FirstRecord(recs, key);
      if 0 <= i < |recs| then recs[i := recs[i].(status := ENABLED)] else recs
  }

  // ---------- Which lists can be stored ----------

  /** The keys are read back from the text they are stored as: if this text is a JSON array, that
      has to be the array of the keys; otherwise no key contains a newline, and the outer ones
      are not empty. */
  predicate ReadsBack(json: Json, keys: seq<string>) {
    keys == [] ||
    var text := TrimSpace(Join(keys, '\n'));
    if "[" <= text && json(text).Some? then json(text).value == keys
    else Free(keys, '\n') && keys[0] != "" && keys[|keys| - 1] != ""
  }

  /** What the action has to store as a new text is read back. */
  predicate Readable(json: Json, recs: seq<Rec>, action: Action) {
    match action
    case DeleteKey(index) => 0 <= index < |recs| && |recs| > 1 ==> ReadsBack(json, KeysIn(RemoveAt(recs, index)))
    case DeleteDisabledKeys => |Survivors(recs)| < |recs| ==> ReadsBack(json, KeysIn(Survivors(recs)))
    case _ => true
  }

  /** What an action does although the stored size may be wrong: an index beyond it is refused, the
      keys beyond it are not disabled, and an index below it without a key stores all keys anew. */
  predicate SizeAllows(json: Json, size: int, recs: seq<Rec>, action: Action) {
    match action
    case DisableKey(index) => 0 <= index < |recs| && index >= size ==> recs[index].status == MANUALLY_DISABLED
    case EnableKey(index) => 0 <= index < |recs| && index >= size ==> recs[index] == Enabled(recs[index])
    case DisableAllKeys => forall i | 0 <= i < |recs| && i >= size :: recs[i].status != ENABLED
    case DeleteKey(index) =>
      && (0 <= index < |recs| && |recs| > 1 ==> index < size)
      && (0 < |recs| <= index < size ==> ReadsBack(json, KeysIn(recs)) || KeysIn(recs) == [""])
    case _ => true
  }

  /** The stored size is the number of keys.  (`Channel.Update` counts one key in the text of an
      empty JSON array, in which `GetKeys` finds none.) */
  predicate Fits(json: Json, row: Row) {
    KeysOf(json, row.text) == [] || row.size == |KeysOf(json, row.text)|
  }

  ghost predicate IndicesBelow(info: Info, size: int) {
    && (forall i | i in info.status :: 0 <= i < size)
    && (forall i | i in info.time :: 0 <= i < size)
    && (forall i | i in info.reason :: 0 <= i < size)
  }

  /** A key that is read back wherever it stands. */
  predicate PlainKey(key: string) {
    key != "" && '\n' !in key && !("[" <= TrimSpace(key))
  }

  ghost predicate PlainKeys(keys: seq<string>) {
    forall k | 0 <= k < |keys| :: PlainKey(keys[k])
  }

  /** An enabled record that carries a disable time or reason. */
  predicate Untidy(rec: Rec) {
    rec.status == ENABLED && (rec.time.Some? || rec.reason.Some?)
  }

  ghost predicate Tidy(recs: seq<Rec>) {
    forall i | 0 <= i < |recs| :: !Untidy(recs[i])
  }
}
