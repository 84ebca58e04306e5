/** The usage counters of request-body storages (common/body_storage.go, lines 37-72, 100-196 and
    241-303; common/disk_cache_config.go, lines 108-134 and 170-177). */
module BodyAccounting {

  datatype Config = Config(enabled: bool, threshold: int, max: int)

  datatype Stats = Stats(files: int, diskBytes: int, buffers: int, memoryBytes: int, diskHits: int, memoryHits: int)

  /** A storage that was handed out. */
  datatype Storage = Storage(disk: bool, size: nat, open: bool)

  datatype Cache = Cache(stats: Stats, storages: seq<Storage>)

  const EMPTY := Cache(Stats(0, 0, 0, 0, 0, 0), [])

  /** `IsDiskCacheAvailable` */
  predicate Available(cfg: Config, s: Stats, size: int) {
    cfg.enabled && s.diskBytes + size <= cfg.max
  }

  function Opened(c: Cache, disk: bool, size: nat): Cache {
    var s := c.stats;
    Cache(if disk then s.(files := s.files + 1, diskBytes := s.diskBytes + size)
          else s.(buffers := s.buffers + 1, memoryBytes := s.memoryBytes + size),
          c.storages + [Storage(disk, size, true)])
  }

  datatype Op =
    | Create(size: nat, diskOk: bool)
    | CreateFromReader(body: nat, contentLength: int, maxBytes: nat, diskOk: bool, readOk: bool)
    | Close(index: nat)

  /** `CreateBodyStorage`: falls back to memory if the disk fails. */
  function Created(cfg: Config, c: Cache, size: nat, diskOk: bool): Cache {
    Opened(c, cfg.enabled && size >= cfg.threshold && Available(cfg, c.stats, size) && diskOk, size)
  }

  predicate StreamsToDisk(cfg: Config, c: Cache, contentLength: int) {
    cfg.enabled && contentLength > 0 && contentLength >= cfg.threshold && Available(cfg, c.stats, contentLength)
  }

  /** `CreateBodyStorageFromReader`: `body` is the true length; an error leaves everything as it was. */
  function CreatedFromReader(cfg: Config, c: Cache, op: Op): Cache
    requires op.CreateFromReader?
  {
    if StreamsToDisk(cfg, c, op.contentLength) then
      if !op.diskOk || !op.readOk || op.body > op.maxBytes then c
      else
        var next := Opened(c, true, op.body);
        next.(stats := next.stats.(diskHits := next.stats.diskHits + 1))
    else if !op.readOk || op.body > op.maxBytes then c
    else
      var next := Created(cfg, c, op.body, op.diskOk);
      if next.storages[|next.storages| - 1].disk then next.(stats := next.stats.(diskHits := next.stats.diskHits + 1))
      else next.(stats := next.stats.(memoryHits := next.stats.memoryHits + 1))
  }

  /** `DecrementDiskFiles` stores 0 when a counter would become negative. */
  function Clamped(x: int): int {
    if x < 0 then 0 else x
  }

  /** `Close`; only the first one counts. */
  function ClosedAt(c: Cache, k: nat): Cache {
    if k < |c.storages| && c.storages[k].open then
      var st, s := c.storages[k], c.stats;
      Cache(if st.disk then s.(files := Clamped(s.files - 1), diskBytes := Clamped(s.diskBytes - st.size))
            else s.(buffers := s.buffers - 1, memoryBytes := s.memoryBytes - st.size),
            c.storages[k := st.(open := false)])
    else c
  }

  function After(cfg: Config, c: Cache, op: Op): Cache {
    match op
    case Create(size, diskOk) => Created(cfg, c, size, diskOk)
    case CreateFromReader(_, _, _, _, _) => CreatedFromReader(cfg, c, op)
    case Close(k) => ClosedAt(c, k)
  }

  function AfterAll(cfg: Config, c: Cache, ops: seq<Op>): Cache {
    if ops == [] then c else After(cfg, AfterAll(cfg, c, ops[..|ops| - 1]), ops[|ops| - 1])
  }

  /** The global counters and the storages that were handed out. */
  class BodyCache {
    var stats: Stats
    var storages: seq<Storage>

    ghost function Value(): Cache
      reads this
    {
      Cache(stats, storages)
    }

    constructor ()
      ensures Value() == EMPTY
    {
      stats, storages := EMPTY.stats, [];
    }

    method NewMemoryStorage(size: nat)
      modifies this
      ensures Value() == Opened(old(Value()), false, size)
    {
      stats := stats.(buffers := stats.buffers + 1, memoryBytes := stats.memoryBytes + size);
      storages := storages + [Storage(false, size, true)];
    }

    method NewDiskStorage(size: nat)
      modifies this
      ensures Value() == Opened(old(Value()), true, size)
    {
      stats := stats.(files := stats.files + 1, diskBytes := stats.diskBytes + size);
      storages := storages + [Storage(true, size, true)];
    }

    method CreateBodyStorage(cfg: Config, size: nat, diskOk: bool) returns (disk: bool)
      modifies this
      ensures Value() == Created(cfg, old(Value()), size, diskOk)
      ensures disk == storages[|storages| - 1].disk
    {
      if cfg.enabled && size >= cfg.threshold && Available(cfg, stats, size) {
        if diskOk {
          NewDiskStorage(size);
          return true;
        }
      }
      NewMemoryStorage(size);
      return false;
    }

    method CreateBodyStorageFromReader(cfg: Config, body: nat, contentLength: int, maxBytes: nat, diskOk: bool,
                                       readOk: bool)
      returns (ok: bool)
      modifies this
      ensures Value() == After(cfg, old(Value()), CreateFromReader(body, contentLength, maxBytes, diskOk, readOk))
      ensures ok <==> Value() != old(Value())
    {
      if cfg.enabled && contentLength > 0 && contentLength >= cfg.threshold && Available(cfg, stats, contentLength) {
        if !diskOk || !readOk { return false; }
        var written := if body <= maxBytes then body else maxBytes + 1;
        if written > maxBytes { return false; }
        NewDiskStorage(written);
        stats := stats.(diskHits := stats.diskHits + 1);
        return true;
      }
      if !readOk || body > maxBytes { return false; }
      var disk := CreateBodyStorage(cfg, body, diskOk);
      if disk {
        stats := stats.(diskHits := stats.diskHits + 1);
      } else {
        stats := stats.(memoryHits := stats.memoryHits + 1);
      }
      return true;
    }

    method CloseStorage(k: nat)
      modifies this
      ensures Value() == ClosedAt(old(Value()), k)
    {
      if k < |storages| && storages[k].open {
        var st := storages[k];
        storages := storages[k := st.(open := false)];
        if st.disk {
          stats := stats.(files := Clamped(stats.files - 1));
          stats := stats.(diskBytes := Clamped(stats.diskBytes - st.size));
        } else {
          stats := stats.(buffers := stats.buffers - 1, memoryBytes := stats.memoryBytes - st.size);
        }
      }
    }
  }

  // ---------- Where a body goes ----------

  /** A body of `size` bytes is to go to disk: the cache is on, the body is not below the threshold and
      fits into what is left. */
  predicate DiskBound(cfg: Config, c: Cache, size: int) {
    cfg.enabled && size >= cfg.threshold && size <= cfg.max - c.stats.diskBytes
  }

  /** A body that is at hand is always stored, on disk if it is to go there and the disk works. */
  lemma StoredWhere(cfg: Config, c: Cache, size: nat, diskOk: bool)
    ensures Created(cfg, c, size, diskOk).storages ==
            c.storages + [Storage(DiskBound(cfg, c, size) && diskOk, size, true)]
  {
  }

  /** Whether the announced length sends a stream to disk without a way back to memory. */
  predicate Streamed(cfg: Config, c: Cache, contentLength: int) {
    contentLength > 0 && DiskBound(cfg, c, contentLength)
  }

  /** A stream is stored exactly if it can be read, is not too long and, if its announced length sends
      it to disk, the disk works; then with its true length, and it counts as one hit. */
  lemma StreamStoredWhere(cfg: Config, c: Cache, op: Op)
    requires op.CreateFromReader?
    ensures var next := CreatedFromReader(cfg, c, op);
            var stored := op.readOk && op.body <= op.maxBytes
                          && (Streamed(cfg, c, op.contentLength) ==> op.diskOk);
            var disk := op.diskOk && (Streamed(cfg, c, op.contentLength) || DiskBound(cfg, c, op.body));
            && (!stored ==> next == c)
            && (stored ==>
                  && next.storages == c.storages + [Storage(disk, op.body, true)]
                  && next.stats.diskHits == c.stats.diskHits + (if disk then 1 else 0)
                  && next.stats.memoryHits == c.stats.memoryHits + (if disk then 0 else 1))
  {
  }

  // ---------- The counters are exact ----------

  function OpenCount(ss: seq<Storage>, disk: bool): nat {
    if ss == [] then 0
    else OpenCount(ss[..|ss| - 1], disk) + (if ss[|ss| - 1].open && ss[|ss| - 1].disk == disk then 1 else 0)
  }

  function OpenBytes(ss: seq<Storage>, disk: bool): nat {
    if ss == [] then 0
    else OpenBytes(ss[..|ss| - 1], disk)
         + (if ss[|ss| - 1].open && ss[|ss| - 1].disk == disk then ss[|ss| - 1].size else 0)
  }

  predicate Exact(c: Cache) {
    && c.stats.files == OpenCount(c.storages, true) && c.stats.diskBytes == OpenBytes(c.storages, true)
    && c.stats.buffers == OpenCount(c.storages, false) && c.stats.memoryBytes == OpenBytes(c.storages, false)
  }

  lemma {:induction false} CloseCounts(ss: seq<Storage>, k: nat, disk: bool)
    requires k < |ss| && ss[k].open
    ensures var ss' := ss[k := ss[k].(open := false)];
            && OpenCount(ss', disk) == OpenCount(ss, disk) - (if ss[k].disk == disk then 1 else 0)
            && OpenBytes(ss', disk) == OpenBytes(ss, disk) - (if ss[k].disk == disk then ss[k].size else 0)
  {
    var n := |ss| - 1;
    var shut := ss[k].(open := false);
    if k == n {
      assert ss[k := shut][..n] == ss[..n];
    } else {
      assert ss[k := shut][..n] == ss[..n][k := shut];
      CloseCounts(ss[..n], k, disk);
    }
  }

  lemma OpenedExact(c: Cache, disk: bool, size: nat)
    requires Exact(c)
    ensures Exact(Opened(c, disk, size))
  {
    var ss := c.storages + [Storage(disk, size, true)];
    assert ss[..|ss| - 1] == c.storages;
  }

  /** The values that `DecrementDiskFiles` would store without its clamp. */
  predicate ClampFires(c: Cache, k: nat) {
    k < |c.storages| && c.storages[k].open && c.storages[k].disk
    && (c.stats.files - 1 < 0 || c.stats.diskBytes - c.storages[k].size < 0)
  }

  lemma ClosedExact(c: Cache, k: nat)
    requires Exact(c)
    ensures !ClampFires(c, k) && Exact(ClosedAt(c, k))
  {
    if k < |c.storages| && c.storages[k].open {
      CloseCounts(c.storages, k, true);
      CloseCounts(c.storages, k, false);
    }
  }

  lemma AfterExact(cfg: Config, c: Cache, op: Op)
    requires Exact(c)
    ensures Exact(After(cfg, c, op))
  {
    match op
    case Create(size, diskOk) =>
      OpenedExact(c, cfg.enabled && size >= cfg.threshold && Available(cfg, c.stats, size) && diskOk, size);
    case CreateFromReader(body, _, _, _, _) =>
      OpenedExact(c, true, body);
      OpenedExact(c, false, body);
    case Close(k) => ClosedExact(c, k);
  }

  /** In every run of creations and (repeated) closes, under any configuration, the counters are the
      number and total size of the open storages, and the clamp at zero never acts. */
  lemma {:induction false} CountersAreExact(cfg: Config, ops: seq<Op>, k: nat)
    ensures Exact(AfterAll(cfg, EMPTY, ops)) && !ClampFires(AfterAll(cfg, EMPTY, ops), k)
  {
    if ops == [] {
    } else {
      CountersAreExact(cfg, ops[..|ops| - 1], k);
      AfterExact(cfg, AfterAll(cfg, EMPTY, ops[..|ops| - 1]), ops[|ops| - 1]);
    }
    ClosedExact(AfterAll(cfg, EMPTY, ops), k);
  }

  // ---------- The limit ----------

  ghost predicate Honest(op: Op) {
    op.CreateFromReader? ==> op.body <= op.contentLength || op.contentLength <= 0
  }

  /** With honest content lengths the disk usage never exceeds its limit. */
  lemma {:induction false} LimitIsKept(cfg: Config, ops: seq<Op>)
    requires cfg.max >= 0 && forall k | 0 <= k < |ops| :: Honest(ops[k])
    ensures AfterAll(cfg, EMPTY, ops).stats.diskBytes <= cfg.max
  {
    if ops == [] {
    } else {
      LimitIsKept(cfg, ops[..|ops| - 1]);
    }
  }

  /** Exactly when a body that is streamed to disk breaks the limit: when its true length does not fit
      into what was left, which the declared length did. */
  lemma StreamedBodyAndLimit(cfg: Config, c: Cache, op: Op)
    requires op.CreateFromReader? && StreamsToDisk(cfg, c, op.contentLength)
    requires op.diskOk && op.readOk && op.body <= op.maxBytes
    ensures After(cfg, c, op).stats.diskBytes <= cfg.max <==> op.body <= cfg.max - c.stats.diskBytes
    ensures op.contentLength <= cfg.max - c.stats.diskBytes
  {
  }
}
