/** The pages of `get_key_status`. */
module KeyPagesProofs {
  import opened Options
  import opened MultiKey
  import opened MultiKeyCode

  lemma PagesCover(total: nat, pageSize: int)
    requires pageSize > 0
    ensures var pages := TotalPages(total, pageSize);
            pages >= 1 && pages * pageSize >= total && (pages - 1) * pageSize < (if total == 0 then 1 else total)
  {
    var n := total + pageSize - 1;
    assert n == (n / pageSize) * pageSize + n % pageSize && 0 <= n % pageSize < pageSize;
    if total == 0 {
      assert n / pageSize == 0;
    }
  }

  /** Pages 1 to `pages`, one after the other. */
  function Pages(list: seq<KeyStatus>, pageSize: int, pages: nat): seq<KeyStatus>
    requires pageSize > 0
  {
    if pages == 0 then [] else Pages(list, pageSize, pages - 1) + PageOf(list, pages, pageSize)
  }

  lemma {:induction false} PagesArePrefix(list: seq<KeyStatus>, pageSize: int, pages: nat)
    requires pageSize > 0
    ensures pages * pageSize >= 0
    ensures Pages(list, pageSize, pages) == if pages * pageSize <= |list| then list[..pages * pageSize] else list
  {
    if pages == 0 {
    } else {
      PagesArePrefix(list, pageSize, pages - 1);
      assert pages * pageSize == (pages - 1) * pageSize + pageSize;
    }
  }

  /** Reading pages 1 to `TotalPages` one after the other gives the filtered list, exactly once
      each and in order; a page number beyond the last is served as the last page. */
  lemma PagesAreTheList(list: seq<KeyStatus>, pageSize: int, page: int)
    requires pageSize > 0
    ensures TotalPages(|list|, pageSize) >= 1
    ensures Pages(list, pageSize, TotalPages(|list|, pageSize)) == list
    ensures page > TotalPages(|list|, pageSize) ==> ServedPage(|list|, page, pageSize) == TotalPages(|list|, pageSize)
    ensures 1 <= page <= TotalPages(|list|, pageSize) ==> ServedPage(|list|, page, pageSize) == page
    ensures page <= 0 ==> ServedPage(|list|, page, pageSize) == 1
    ensures list != [] && 1 <= page <= TotalPages(|list|, pageSize) ==> PageOf(list, page, pageSize) != []
  {
    PagesCover(|list|, pageSize);
    PagesArePrefix(list, pageSize, TotalPages(|list|, pageSize));
    if list != [] && 1 <= page <= TotalPages(|list|, pageSize) {
      var last := TotalPages(|list|, pageSize);
      assert (page - 1) * pageSize <= (last - 1) * pageSize by { MulMonotone(page - 1, last - 1, pageSize); }
      assert (page - 1) * pageSize >= 0 by { MulMonotone(0, page - 1, pageSize); }
    }
  }

  lemma MulMonotone(a: int, b: int, c: int)
    requires a <= b && c >= 0
    ensures a * c <= b * c
  {
  }

  /** Every key is counted once if its status is one of the three. */
  lemma {:induction false} CountsAddUp(all: seq<KeyStatus>)
    requires forall i | 0 <= i < |all| :: all[i].status in {ENABLED, MANUALLY_DISABLED, AUTO_DISABLED}
    ensures CountStatus(all, ENABLED) + CountStatus(all, MANUALLY_DISABLED) + CountStatus(all, AUTO_DISABLED) == |all|
  {
    if all == [] {
    } else {
      CountsAddUp(all[..|all| - 1]);
    }
  }

  lemma {:induction false} AllShownAt(keys: seq<string>, info: Info, i: nat)
    requires i < |keys|
    ensures |AllShown(keys, info)| == |keys| && AllShown(keys, info)[i] == Shown(keys[i], info, i)
  {
    if |keys| > 1 {
      AllShownAt(keys[..|keys| - 1], info, if i < |keys| - 1 then i else 0);
    }
  }

  /** The line tells the record: its status and, only if it is not enabled, its time and reason as far as
      there are any; of a key of more than ten characters it shows the first ten and an ellipsis. */
  predicate Tells(line: KeyStatus, rec: Rec) {
    && line.status == rec.status
    && line.time == (if rec.status != 1 && rec.time.Some? then rec.time.value else 0)
    && line.reason == (if rec.status != 1 && rec.reason.Some? then rec.reason.value else "")
    && (|rec.key| <= 10 ==> line.preview == rec.key)
    && (|rec.key| > 10 ==> |line.preview| == 13 && line.preview[..10] == rec.key[..10] && line.preview[10..] == "...")
  }

  /** The list that is paged has one line for each record of the channel, in order. */
  lemma StatusTellsRecords(json: Json, row: Row, i: nat)
    requires i < |RecordsOf(json, row)|
    ensures var all := AllShown(KeysOf(json, row.text), row.info);
            |all| == |RecordsOf(json, row)| && all[i].index == i && Tells(all[i], RecordsOf(json, row)[i])
  {
    AllShownAt(KeysOf(json, row.text), row.info, i);
  }

  /** The total of a filtered list is the count of that status. */
  lemma {:induction false} MatchingCount(all: seq<KeyStatus>, status: int)
    ensures |Matching(all, Some(status))| == CountStatus(all, status)
    ensures forall k | 0 <= k < |Matching(all, Some(status))| :: Matching(all, Some(status))[k].status == status
    ensures Matching(all, None) == all
  {
    if all == [] {
    } else {
      MatchingCount(all[..|all| - 1], status);
      assert all == all[..|all| - 1] + [all[|all| - 1]];
    }
  }
}
