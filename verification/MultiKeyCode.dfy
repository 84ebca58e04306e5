/** `ManageMultiKeys` as the source runs it (controller/channel.go, lines 1480-1898). */
module MultiKeyCode {
  import opened Options
  import opened Text
  import opened MultiKey

  /** One line of the answer to `get_key_status`. */
  datatype KeyStatus = KeyStatus(index: int, status: int, time: int, reason: string, preview: string)

  function Preview(key: string): string {
    if |key| > 10 then key[..10] + "..." else key
  }

  function Shown(key: string, info: Info, i: int): KeyStatus {
    var status := StatusAt(info, i);
    KeyStatus(i, status,
              if status != ENABLED && i in info.time then info.time[i] else 0,
              if status != ENABLED && i in info.reason then info.reason[i] else "",
              Preview(key))
  }

  function AllShown(keys: seq<string>, info: Info): seq<KeyStatus> {
    if keys == [] then []
    else AllShown(keys[..|keys| - 1], info) + [Shown(keys[|keys| - 1], info, |keys| - 1)]
  }

  function Matching(all: seq<KeyStatus>, filter: Option<int>): seq<KeyStatus> {
    if all == [] then []
    else
      var last := all[|all| - 1];
      Matching(all[..|all| - 1], filter) + (if filter.None? || last.status == filter.value then [last] else [])
  }

  function CountStatus(all: seq<KeyStatus>, status: int): nat {
    if all == [] then 0
    else CountStatus(all[..|all| - 1], status) + (if all[|all| - 1].status == status then 1 else 0)
  }

  /** The page numbers and bounds computed in lines 1557-1577. */
  function TotalPages(total: nat, pageSize: int): int
    requires pageSize > 0
  {
    var pages := (total + pageSize - 1) / pageSize;
    if pages == 0 then 1 else pages
  }

  function ServedPage(total: nat, page: int, pageSize: int): int
    requires pageSize > 0
  {
    var asked := if page <= 0 then 1 else page;
    if asked > TotalPages(total, pageSize) then TotalPages(total, pageSize) else asked
  }

  function PageOf(list: seq<KeyStatus>, page: int, pageSize: int): seq<KeyStatus>
    requires pageSize > 0 && page > 0
  {
    var start := (page - 1) * pageSize;
    var end := if start + pageSize > |list| then |list| else start + pageSize;
    if 0 <= start < |list| then list[start..end] else []
  }

  datatype StatusReply = StatusReply(
    keys: seq<KeyStatus>, total: nat, page: int, pageSize: int, totalPages: int,
    enabled: nat, manual: nat, auto: nat)

  lemma TotalPagesPositive(total: nat, pageSize: int)
    requires pageSize > 0
    ensures TotalPages(total, pageSize) >= 1
  {
    assert (total + pageSize - 1) / pageSize >= 0;
  }

  /** Lines 1494-1542: the status of every key, and the three counts. */
  method CollectStatus(keys: seq<string>, info: Info)
    returns (all: seq<KeyStatus>, enabled: nat, manual: nat, auto: nat)
    ensures all == AllShown(keys, info)
    ensures enabled == CountStatus(all, ENABLED) && manual == CountStatus(all, MANUALLY_DISABLED)
    ensures auto == CountStatus(all, AUTO_DISABLED)
  {
    all, enabled, manual, auto := [], 0, 0, 0;
    for i := 0 to |keys|
      invariant all == AllShown(keys[..i], info)
      invariant enabled == CountStatus(all, ENABLED) && manual == CountStatus(all, MANUALLY_DISABLED)
      invariant auto == CountStatus(all, AUTO_DISABLED)
    {
      var status := StatusAt(info, i);
      if status == 1 { enabled := enabled + 1; }
      else if status == 2 { manual := manual + 1; }
      else if status == 3 { auto := auto + 1; }
      assert keys[..i + 1][..i] == keys[..i];
      assert (all + [Shown(keys[i], info, i)])[..|all|] == all;
      all := all + [Shown(keys[i], info, i)];
    }
    assert keys[..|keys|] == keys;
  }

  /** Lines 1545-1554 */
  method FilterStatus(all: seq<KeyStatus>, filter: Option<int>) returns (list: seq<KeyStatus>)
    ensures list == Matching(all, filter)
  {
    list := [];
    for i := 0 to |all|
      invariant list == Matching(all[..i], filter)
    {
      assert all[..i + 1][..i] == all[..i];
      if filter.None? || all[i].status == filter.value { list := list + [all[i]]; }
    }
    assert all[..|all|] == all;
  }

  /** The loop of lines 1831-1869: the keys that are not automatically disabled, renumbered. */
  method CollectSurvivors(keys: seq<string>, info: Info) returns (kept: Kept, deleted: nat)
    ensures kept == WithoutDisabled(keys, info) && deleted == |keys| - |kept.keys|
  {
    var remaining: seq<string> := [];
    var status: map<int, int>, time: map<int, int>, reason: map<int, string> := map[], map[], map[];
    var newIndex := 0;
    deleted := 0;
    for i := 0 to |keys|
      invariant Kept(remaining, Info(status, time, reason)) == WithoutDisabled(keys[..i], info)
      invariant newIndex == |remaining| && deleted + |remaining| == i
    {
      assert keys[..i + 1][..i] == keys[..i];
      var current := StatusAt(info, i);
      if current == AUTO_DISABLED {
        deleted := deleted + 1;
      } else {
        remaining := remaining + [keys[i]];
        if current != ENABLED {
          status := status[newIndex := current];
          if i in info.time { time := time[newIndex := info.time[i]]; }
          if i in info.reason { reason := reason[newIndex := info.reason[i]]; }
        }
        newIndex := newIndex + 1;
      }
    }
    assert keys[..|keys|] == keys;
    return Kept(remaining, Info(status, time, reason)), deleted;
  }

  class MultiKeyChannel {
    var row: Row
    const json: Json

    constructor (row: Row, json: Json)
      ensures this.row == row && this.json == json
    {
      this.row, this.json := row, json;
    }

    /** `get_key_status` */
    method GetKeyStatus(page: int, pageSize: int, filter: Option<int>) returns (reply: StatusReply)
      ensures var size := if pageSize <= 0 then 50 else pageSize;
              var all := AllShown(KeysOf(json, row.text), row.info);
              var list := Matching(all, filter);
              var served := ServedPage(|list|, page, size);
              && served > 0
              && reply == StatusReply(PageOf(list, served, size), |list|, served, size, TotalPages(|list|, size),
                                      CountStatus(all, ENABLED), CountStatus(all, MANUALLY_DISABLED),
                                      CountStatus(all, AUTO_DISABLED))
    {
      var size := if pageSize <= 0 then 50 else pageSize;
      var all, enabled, manual, auto := CollectStatus(KeysOf(json, row.text), row.info);
      var list := FilterStatus(all, filter);
      var totalPages := TotalPages(|list|, size);
      TotalPagesPositive(|list|, size);
      var served := if page <= 0 then 1 else page;
      if served > totalPages { served := totalPages; }
      return StatusReply(PageOf(list, served, size), |list|, served, size, totalPages, enabled, manual, auto);
    }

    /** `disable_key`; `saved` says whether the database accepts the write. */
    method DisableKey(index: Option<int>, saved: bool) returns (ok: bool)
      modifies this`row
      ensures row == if saved && index.Some? then After(json, old(row), Action.DisableKey(index.value)) else old(row)
      ensures ok <==> saved && index.Some? && 0 <= index.value < old(row).size
    {
      if index.None? || index.value < 0 || index.value >= row.size { return false; }
      var next := row.(info := row.info.(status := row.info.status[index.value := MANUALLY_DISABLED]));
      if saved { row := Saved(json, row, next); }
      return saved;
    }

    /** `enable_key` */
    method EnableKey(index: Option<int>, saved: bool) returns (ok: bool)
      modifies this`row
      ensures row == if saved && index.Some? then After(json, old(row), Action.EnableKey(index.value)) else old(row)
      ensures ok <==> saved && index.Some? && 0 <= index.value < old(row).size
    {
      if index.None? || index.value < 0 || index.value >= row.size { return false; }
      var i := index.value;
      var next := row.(info := Info(row.info.status - {i}, row.info.time - {i}, row.info.reason - {i}));
      if saved { row := Saved(json, row, next); }
      return saved;
    }

    /** `enable_all_keys` */
    method EnableAllKeys(saved: bool) returns (ok: bool, count: nat)
      modifies this`row
      ensures row == if saved then After(json, old(row), Action.EnableAllKeys) else old(row)
      ensures ok == saved && count == |old(row).info.status|
    {
      count := |row.info.status|;
      if saved { row := Saved(json, row, row.(info := NO_INFO)); }
      return saved, count;
    }

    /** `disable_all_keys`: refused when there is no enabled key. */
    method DisableAllKeys(saved: bool) returns (ok: bool, count: nat)
      modifies this`row
      ensures row == if saved then After(json, old(row), Action.DisableAllKeys) else old(row)
      ensures count == |EnabledBelow(old(row).info, old(row).size)| && (ok <==> saved && count > 0)
    {
      var status := row.info.status;
      count := 0;
      var n := if row.size < 0 then 0 else row.size;
      for i := 0 to n
        invariant status == DisabledAll(row.info.status, i)
        invariant forall j | j !in row.info.status && j >= i :: j !in status
        invariant forall j | j in row.info.status && j >= i :: j in status && status[j] == row.info.status[j]
        invariant count == 0 <==> status == row.info.status
        invariant count == |EnabledBelow(row.info, i)|
        invariant count > 0 ==>
                    exists j | 0 <= j < i ::
                      && j in status && status[j] == MANUALLY_DISABLED
                      && (j in row.info.status ==> row.info.status[j] == ENABLED)
      {
        var current := if i in status then status[i] else ENABLED;
        if current == ENABLED {
          status := status[i := MANUALLY_DISABLED];
          count := count + 1;
          assert i in status && status[i] == MANUALLY_DISABLED
                 && (i in row.info.status ==> row.info.status[i] == ENABLED);
          assert EnabledBelow(row.info, i + 1) == EnabledBelow(row.info, i) + {i};
        } else {
          assert EnabledBelow(row.info, i + 1) == EnabledBelow(row.info, i);
        }
      }
      assert EnabledBelow(row.info, n) == EnabledBelow(row.info, row.size);
      if count == 0 { return false, 0; }
      if saved { row := Saved(json, row, row.(info := row.info.(status := status))); }
      return saved, count;
    }

    /** `delete_key`: the last key is not deleted. */
    method DeleteKey(index: Option<int>, saved: bool) returns (ok: bool)
      modifies this`row
      ensures row == if saved && index.Some? then After(json, old(row), Action.DeleteKey(index.value)) else old(row)
      ensures ok <==> && saved && index.Some? && 0 <= index.value < old(row).size
                      && WithoutKey(KeysOf(json, old(row).text), old(row).info, index.value).keys != []
    {
      if index.None? || index.value < 0 || index.value >= row.size { return false; }
      var keys := KeysOf(json, row.text);
      var remaining: seq<string> := [];
      var status: map<int, int>, time: map<int, int>, reason: map<int, string> := map[], map[], map[];
      var newIndex := 0;
      for i := 0 to |keys|
        invariant Kept(remaining, Info(status, time, reason)) == WithoutKey(keys[..i], row.info, index.value)
        invariant newIndex == |remaining|
      {
        assert keys[..i + 1][..i] == keys[..i];
        if i != index.value {
          remaining := remaining + [keys[i]];
          if i in row.info.status && row.info.status[i] != ENABLED { status := status[newIndex := row.info.status[i]]; }
          if i in row.info.time { time := time[newIndex := row.info.time[i]]; }
          if i in row.info.reason { reason := reason[newIndex := row.info.reason[i]]; }
          newIndex := newIndex + 1;
        }
      }
      assert keys[..|keys|] == keys;
      if |remaining| == 0 { return false; }
      if saved { row := Saved(json, row, Row(Join(remaining, '\n'), |remaining|, Info(status, time, reason))); }
      return saved;
    }

    /** `delete_disabled_keys` */
    method DeleteDisabledKeys(saved: bool) returns (ok: bool, deleted: nat)
      modifies this`row
      ensures row == if saved then After(json, old(row), Action.DeleteDisabledKeys) else old(row)
      ensures deleted == |KeysOf(json, old(row).text)|
              - |WithoutDisabled(KeysOf(json, old(row).text), old(row).info).keys|
      ensures ok <==> saved && deleted > 0
    {
      var kept;
      kept, deleted := CollectSurvivors(KeysOf(json, row.text), row.info);
      if deleted == 0 { return false, 0; }
      if saved { row := Saved(json, row, Row(Join(kept.keys, '\n'), |kept.keys|, kept.info)); }
      return saved, deleted;
    }

    /** `handlerMultiKeyUpdate` (model/channel.go, lines 641-680), which finds the key by its text. */
    method HandleUpdate(key: string, enable: bool, reason: string, now: int)
      modifies this`row
      ensures row == After(json, old(row), if enable then AutoEnable(key) else AutoDisable(key, reason, now))
    {
      var keys := KeysOf(json, row.text);
      var keyIndex := -1;
      var i := 0;
      while i < |keys| && keyIndex == -1
        invariant 0 <= i <= |keys|
        invariant keyIndex == -1 ==>
                    FirstIndex(keys, key) ==
                      if FirstIndex(keys[i..], key) == -1 then -1 else i + FirstIndex(keys[i..], key)
        invariant keyIndex != -1 ==> keyIndex == FirstIndex(keys, key)
      {
        assert keys[i..][0] == keys[i] && keys[i..][1..] == keys[i + 1..];
        if keys[i] == key { keyIndex := i; }
        i := i + 1;
      }
      if keyIndex < 0 { return; }
      if enable {
        row := row.(info := row.info.(status := row.info.status - {keyIndex}));
      } else {
        var info := row.info;
        row := row.(info := Info(info.status[keyIndex := AUTO_DISABLED], info.time[keyIndex := now],
                                 info.reason[keyIndex := reason]));
      }
    }
  }
}
