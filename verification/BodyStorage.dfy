/** Reusable request bodies (common/body_storage.go): a storage in memory over Go's `bytes.Reader`,
    and one on disk over an `os.File`.  Callers see only the common interface. */
module BodyStorage {
  import opened Bytes

  datatype Op = Read(n: nat) | Seek(offset: int, whence: int) | Bytes | Close

  /** What an operation returns. */
  datatype Reply = Data(bytes: seq<Byte>) | Eof | Position(pos: nat) | BadSeek | Closed | Done

  /** What a storage is to its callers. */
  datatype Body = Body(data: seq<Byte>, pos: nat, closed: bool)

  const SEEK_START := 0
  const SEEK_CURRENT := 1
  const SEEK_END := 2

  /** The position that a seek asks for; none if `whence` is not one of the three. */
  function Target(b: Body, offset: int, whence: int): int {
    if whence == SEEK_START then offset
    else if whence == SEEK_CURRENT then b.pos + offset
    else if whence == SEEK_END then |b.data| + offset
    else -1
  }

  function Min(a: int, b: int): int {
    if a < b then a else b
  }

  /** At most `n` bytes from the position on. */
  function Chunk(b: Body, n: nat): seq<Byte>
    requires b.pos <= |b.data|
  {
    b.data[b.pos..Min(b.pos + n, |b.data|)]
  }

  function Seeked(b: Body, offset: int, whence: int): (Body, Reply) {
    var to := Target(b, offset, whence);
    if to < 0 then (b, BadSeek) else (b.(pos := to), Position(to))
  }

  /** `memoryStorage`; `bytes.Reader.Read` looks for the end before it looks at the buffer. */
  function InMemory(b: Body, op: Op): (Body, Reply) {
    if op.Close? then (b.(closed := true), Done)
    else if b.closed then (b, Closed)
    else match op
      case Read(n) =>
        if b.pos >= |b.data| then (b, Eof) else (b.(pos := b.pos + |Chunk(b, n)|), Data(Chunk(b, n)))
      case Seek(offset, whence) => Seeked(b, offset, whence)
      case Bytes => (b, Data(b.data))
  }

  /** `diskStorage`; `os.File.Read` returns at once when the buffer is empty. */
  function OnDisk(b: Body, op: Op): (Body, Reply) {
    if op.Close? then (b.(closed := true), Done)
    else if b.closed then (b, Closed)
    else match op
      case Read(n) =>
        if n == 0 then (b, Data([]))
        else if b.pos >= |b.data| then (b, Eof)
        else (b.(pos := b.pos + |Chunk(b, n)|), Data(Chunk(b, n)))
      case Seek(offset, whence) => Seeked(b, offset, whence)
      case Bytes => (b, Data(b.data))
  }

  /** An open file, `os.File`. */
  class File {
    var content: seq<Byte>
    var offset: nat

    constructor (content: seq<Byte>)
      ensures this.content == content && offset == 0
    {
      this.content, offset := content, 0;
    }

    method Read(n: nat) returns (r: Reply)
      modifies this`offset
      ensures r == if n == 0 then Data([]) else if old(offset) >= |content| then Eof
                   else Data(content[old(offset)..Min(old(offset) + n, |content|)])
      ensures offset == old(offset) + (if r.Data? then |r.bytes| else 0)
    {
      if n == 0 { return Data([]); }
      if offset >= |content| { return Eof; }
      var end := Min(offset + n, |content|);
      r := Data(content[offset..end]);
      offset := end;
    }

    method Seek(to: int, whence: int) returns (r: Reply)
      modifies this`offset
      ensures var target := Target(Body(content, old(offset), false), to, whence);
              if target < 0 then r == BadSeek && offset == old(offset) else r == Position(target) && offset == target
    {
      var target := if whence == SEEK_START then to else if whence == SEEK_CURRENT then offset + to
                    else if whence == SEEK_END then |content| + to else -1;
      if target < 0 { return BadSeek; }
      offset := target;
      return Position(target);
    }
  }

  class DiskStorage {
    const file: File
    const size: nat
    var closed: bool

    ghost predicate Valid()
      reads this, file
    {
      size == |file.content|
    }

    ghost function Value(): Body
      reads this, file
    {
      Body(file.content, file.offset, closed)
    }

    constructor (data: seq<Byte>)
      ensures Valid() && Value() == Body(data, 0, false) && fresh(file)
    {
      file := new File(data);
      size := |data|;
      closed := false;
    }

    method Read(n: nat) returns (r: Reply)
      requires Valid()
      modifies file`offset
      ensures Valid() && (Value(), r) == OnDisk(old(Value()), Op.Read(n))
    {
      if closed { return Closed; }
      r := file.Read(n);
    }

    method Seek(offset: int, whence: int) returns (r: Reply)
      requires Valid()
      modifies file`offset
      ensures Valid() && (Value(), r) == OnDisk(old(Value()), Op.Seek(offset, whence))
    {
      if closed { return Closed; }
      r := file.Seek(offset, whence);
    }

    /** Lines 198-230: remember the position, read everything, restore it. */
    method Bytes() returns (r: Reply)
      requires Valid()
      modifies file`offset
      ensures Valid() && (Value(), r) == OnDisk(old(Value()), Op.Bytes)
    {
      if closed { return Closed; }
      var current := file.Seek(0, SEEK_CURRENT);
      var start := file.Seek(0, SEEK_START);
      r := file.Read(size);
      assert file.content[0..size] == file.content;
      var back := file.Seek(current.pos, SEEK_START);
    }

    method Close() returns (r: Reply)
      requires Valid()
      modifies this`closed
      ensures Valid() && (Value(), r) == OnDisk(old(Value()), Op.Close)
    {
      closed := true;
      return Done;
    }
  }

  class MemoryStorage {
    const data: seq<Byte>
    var pos: nat
    var closed: bool

    ghost function Value(): Body
      reads this
    {
      Body(data, pos, closed)
    }

    constructor (data: seq<Byte>)
      ensures Value() == Body(data, 0, false)
    {
      this.data, pos, closed := data, 0, false;
    }

    method Read(n: nat) returns (r: Reply)
      modifies this`pos
      ensures (Value(), r) == InMemory(old(Value()), Op.Read(n))
    {
      if closed { return Closed; }
      if pos >= |data| { return Eof; }
      var end := Min(pos + n, |data|);
      r := Data(data[pos..end]);
      pos := end;
    }

    method Seek(offset: int, whence: int) returns (r: Reply)
      modifies this`pos
      ensures (Value(), r) == InMemory(old(Value()), Op.Seek(offset, whence))
    {
      if closed { return Closed; }
      var to := if whence == SEEK_START then offset else if whence == SEEK_CURRENT then pos + offset
                else if whence == SEEK_END then |data| + offset else -1;
      if to < 0 { return BadSeek; }
      pos := to;
      return Position(to);
    }

    method Bytes() returns (r: Reply)
      ensures (Value(), r) == InMemory(old(Value()), Op.Bytes)
    {
      if closed { return Closed; }
      return Data(data);
    }

    method Close() returns (r: Reply)
      modifies this`closed
      ensures (Value(), r) == InMemory(old(Value()), Op.Close)
    {
      closed := true;
      return Done;
    }
  }

  // ---------- Indistinguishable, almost ----------

  /** Reading nothing from an open body that is read to its end. */
  predicate EmptyReadAtEnd(b: Body, op: Op) {
    op == Read(0) && !b.closed && b.pos >= |b.data|
  }

  function MemoryRun(b: Body, ops: seq<Op>): (Body, seq<Reply>) {
    if ops == [] then (b, [])
    else
      var (before, replies) := MemoryRun(b, ops[..|ops| - 1]);
      var (after, reply) := InMemory(before, ops[|ops| - 1]);
      (after, replies + [reply])
  }

  function DiskRun(b: Body, ops: seq<Op>): (Body, seq<Reply>) {
    if ops == [] then (b, [])
    else
      var (before, replies) := DiskRun(b, ops[..|ops| - 1]);
      var (after, reply) := OnDisk(before, ops[|ops| - 1]);
      (after, replies + [reply])
  }

  lemma SameStep(b: Body, op: Op)
    ensures InMemory(b, op).0 == OnDisk(b, op).0
    ensures InMemory(b, op).1 == OnDisk(b, op).1 <==> !EmptyReadAtEnd(b, op)
  {
  }

  lemma {:induction false} SameStates(b: Body, ops: seq<Op>)
    ensures MemoryRun(b, ops).0 == DiskRun(b, ops).0
    ensures |MemoryRun(b, ops).1| == |DiskRun(b, ops).1| == |ops|
  {
    if ops == [] {
    } else {
      var before := ops[..|ops| - 1];
      SameStates(b, before);
      SameStep(MemoryRun(b, before).0, ops[|ops| - 1]);
    }
  }

  /** Over every sequence of operations on the same bytes, both storages are in the same state
      throughout, and their k-th replies are equal exactly if the k-th operation is not an empty
      read at the end. */
  lemma {:induction false} SameReplies(b: Body, ops: seq<Op>, k: nat)
    requires k < |ops|
    ensures MemoryRun(b, ops).0 == DiskRun(b, ops).0
    ensures |MemoryRun(b, ops).1| == |DiskRun(b, ops).1| == |ops|
    ensures MemoryRun(b, ops).1[k] == DiskRun(b, ops).1[k] <==> !EmptyReadAtEnd(MemoryRun(b, ops[..k]).0, ops[k])
  {
    var before := ops[..|ops| - 1];
    SameStates(b, ops);
    SameStates(b, before);
    if k == |ops| - 1 {
      SameStep(MemoryRun(b, before).0, ops[k]);
    } else {
      SameReplies(b, before, k);
      assert before[..k] == ops[..k];
    }
  }

  /** No operation changes the bytes, and only `Close` closes. */
  lemma {:induction false} BytesNeverChange(b: Body, ops: seq<Op>)
    ensures DiskRun(b, ops).0.data == b.data
    ensures b.closed ==> DiskRun(b, ops).0.closed
    ensures !b.closed && Close !in ops ==> !DiskRun(b, ops).0.closed
  {
    if ops == [] {
    } else {
      BytesNeverChange(b, ops[..|ops| - 1]);
    }
  }

  // ---------- Retries ----------

  datatype Kind = Memory | Disk

  function Do(kind: Kind, b: Body, op: Op): (Body, Reply) {
    if kind == Memory then InMemory(b, op) else OnDisk(b, op)
  }

  function RunOn(kind: Kind, b: Body, ops: seq<Op>): (Body, seq<Reply>) {
    if kind == Memory then MemoryRun(b, ops) else DiskRun(b, ops)
  }

  /** Where a seek leads, counted from the start (0), the position (1) or the end (2). */
  ghost predicate Leads(b: Body, offset: int, whence: int, to: int) {
    && to >= 0
    && (|| (whence == 0 && to == offset)
        || (whence == 1 && to - b.pos == offset)
        || (whence == 2 && to - |b.data| == offset))
  }

  /** A seek moves to where it leads, and is refused exactly if it leads nowhere. */
  lemma SeekExactly(kind: Kind, b: Body, offset: int, whence: int, to: nat)
    requires !b.closed
    ensures Leads(b, offset, whence, to) <==> Do(kind, b, Seek(offset, whence)).1 == Position(to)
    ensures Leads(b, offset, whence, to) ==> Do(kind, b, Seek(offset, whence)).0 == Body(b.data, to, false)
    ensures (forall k :: !Leads(b, offset, whence, k)) ==> Do(kind, b, Seek(offset, whence)) == (b, BadSeek)
  {
    var k := Target(b, offset, whence);
    if k >= 0 { assert Leads(b, offset, whence, k); }
  }

  /** A read delivers as many of the bytes behind the position as are asked for and there. */
  lemma ReadExactly(kind: Kind, b: Body, n: nat)
    requires !b.closed && n > 0
    ensures b.pos >= |b.data| ==> Do(kind, b, Read(n)) == (b, Eof)
    ensures b.pos + n <= |b.data| ==> Do(kind, b, Read(n)) == (b.(pos := b.pos + n), Data(b.data[b.pos..b.pos + n]))
    ensures b.pos < |b.data| < b.pos + n ==> Do(kind, b, Read(n)) == (b.(pos := |b.data|), Data(b.data[b.pos..]))
  {
    if b.pos < |b.data| { assert b.data[b.pos..] == b.data[b.pos..|b.data|]; }
  }

  /** The whole content can be had at any position, without moving; a closed storage refuses everything. */
  lemma WholeOrClosed(kind: Kind, b: Body, op: Op)
    ensures !b.closed ==> Do(kind, b, Bytes) == (b, Data(b.data))
    ensures b.closed && op != Close ==> Do(kind, b, op) == (b, Closed)
    ensures Do(kind, b, Close) == (Body(b.data, b.pos, true), Done)
  {
  }

  function Delivered(reply: Reply): seq<Byte> {
    if reply.Data? then reply.bytes else []
  }

  /** What reads of the given sizes deliver together. */
  function ReadPieces(kind: Kind, b: Body, sizes: seq<nat>): seq<Byte>
    decreases |sizes|
  {
    if sizes == [] then []
    else
      var (next, reply) := Do(kind, b, Read(sizes[0]));
      Delivered(reply) + ReadPieces(kind, next, sizes[1..])
  }

  function Sum(sizes: seq<nat>): nat {
    if sizes == [] then 0 else sizes[0] + Sum(sizes[1..])
  }

  lemma ReadPiece(kind: Kind, b: Body, n: nat)
    requires !b.closed && b.pos <= |b.data|
    ensures var (next, reply) := Do(kind, b, Read(n));
            && next == Body(b.data, Min(b.pos + n, |b.data|), false)
            && Delivered(reply) == b.data[b.pos..next.pos]
  {
  }

  lemma Adjacent(s: seq<Byte>, i: nat, j: nat, k: nat)
    requires i <= j <= k <= |s|
    ensures s[i..j] + s[j..k] == s[i..k]
  {
  }

  lemma {:induction false} PiecesAreTheRest(kind: Kind, b: Body, sizes: seq<nat>)
    requires !b.closed && b.pos <= |b.data|
    ensures ReadPieces(kind, b, sizes) == b.data[b.pos..Min(b.pos + Sum(sizes), |b.data|)]
    decreases |sizes|
  {
    if sizes == [] {
    } else {
      var next := Do(kind, b, Read(sizes[0])).0;
      ReadPiece(kind, b, sizes[0]);
      PiecesAreTheRest(kind, next, sizes[1..]);
      Adjacent(b.data, b.pos, next.pos, Min(b.pos + Sum(sizes), |b.data|));
    }
  }

  lemma OpenThroughout(kind: Kind, data: seq<Byte>, ops: seq<Op>)
    requires Close !in ops
    ensures var b := RunOn(kind, Body(data, 0, false), ops).0; b.data == data && !b.closed
  {
    BytesNeverChange(Body(data, 0, false), ops);
    SameStates(Body(data, 0, false), ops);
  }

  /** `GetRequestBody` on a request whose body has been stored (common/gin.go, lines 38-45). */
  function GetAgain(kind: Kind, b: Body): (Body, Reply) {
    Do(kind, b, Seek(0, SEEK_START))
  }

  /** In memory and on disk: whatever earlier attempts have read or sought, as long as none has closed
      the storage, the next attempt reads the original body from its beginning, in pieces of any
      sizes, and all of it once the sizes suffice. */
  lemma EveryAttemptSeesTheBody(kind: Kind, data: seq<Byte>, ops: seq<Op>, sizes: seq<nat>)
    requires Close !in ops
    ensures var (again, reply) := GetAgain(kind, RunOn(kind, Body(data, 0, false), ops).0);
            && reply == Position(0) && again == Body(data, 0, false)
            && ReadPieces(kind, again, sizes) == data[..Min(Sum(sizes), |data|)]
            && (Sum(sizes) >= |data| ==> ReadPieces(kind, again, sizes) == data)
  {
    OpenThroughout(kind, data, ops);
    PiecesAreTheRest(kind, Body(data, 0, false), sizes);
  }
}

/** The stored body of a request (common/gin.go, lines 36-106). */
module RequestBody {
  import opened Options
  import opened Bytes
  import opened BodyStorage

  /** A `BodyStorage` interface value. */
  datatype Handle = OnDiskHandle(disk: DiskStorage) | InMemoryHandle(memory: MemoryStorage)

  ghost function Objects(h: Handle): set<object> {
    match h
    case OnDiskHandle(d) => {d, d.file}
    case InMemoryHandle(m) => {m}
  }

  ghost function BodyOf(h: Handle): Body
    reads Objects(h)
  {
    match h
    case OnDiskHandle(d) => d.Value()
    case InMemoryHandle(m) => m.Value()
  }

  ghost predicate ValidHandle(h: Handle)
    reads Objects(h)
  {
    h.OnDiskHandle? ==> h.disk.Valid()
  }

  /** How a storage can be created: streamed to disk while it is read, or, once it has been read, on
      disk or in memory; whether the disk and the reader work. */
  datatype Conditions = Conditions(stream: bool, toDisk: bool, diskOk: bool, readOk: bool)

  /** The reader is open and works, the body is not too large, and if it is streamed, so does the disk. */
  predicate Readable(reader: Option<seq<Byte>>, maxBytes: nat, how: Conditions) {
    reader.Some? && how.readOk && |reader.value| <= maxBytes && (how.stream ==> how.diskOk)
  }

  class RequestContext {
    var stored: Option<Handle>
    var cached: Option<seq<Byte>>  // bytes kept under the older key
    var reader: Option<seq<Byte>>  // what the request's own reader delivers; none once it is closed

    ghost predicate Valid()
      reads this, if stored.Some? then Objects(stored.value) else {}
    {
      stored.Some? ==> this !in Objects(stored.value) && ValidHandle(stored.value)
    }

    constructor (body: seq<Byte>)
      ensures Valid() && stored.None? && cached.None? && reader == Some(body)
    {
      stored, cached, reader := None, None, Some(body);
    }

    /** `CreateBodyStorage`: on disk, or in memory if that is preferred or the disk fails. */
    method Create(data: seq<Byte>, how: Conditions) returns (h: Handle)
      ensures fresh(Objects(h)) && ValidHandle(h) && BodyOf(h) == Body(data, 0, false)
      ensures h.OnDiskHandle? <==> how.toDisk && how.diskOk
    {
      if how.toDisk && how.diskOk {
        var d := new DiskStorage(data);
        return OnDiskHandle(d);
      }
      var m := new MemoryStorage(data);
      return InMemoryHandle(m);
    }

    /** `CreateBodyStorageFromReader`; the reader is closed in any case. */
    method CreateFromReader(maxBytes: nat, how: Conditions) returns (r: Option<Handle>)
      modifies this`reader
      ensures reader.None?
      ensures r.Some? <==> Readable(old(reader), maxBytes, how)
      ensures r.Some? ==> fresh(Objects(r.value)) && ValidHandle(r.value)
      ensures r.Some? ==> BodyOf(r.value) == Body(old(reader).value, 0, false)
    {
      var body := reader;
      reader := None;
      if body.None? || !how.readOk { return None; }
      if how.stream {
        if !how.diskOk || |body.value| > maxBytes { return None; }
        var d := new DiskStorage(body.value);
        return Some(OnDiskHandle(d));
      }
      if |body.value| > maxBytes { return None; }
      var h := Create(body.value, how);
      return Some(h);
    }

    /** `GetRequestBody`: the first call moves the body into a storage, from the older cache or from
        the reader; later calls rewind the storage. */
    method GetRequestBody(maxBytes: nat, how: Conditions) returns (r: Option<Handle>)
      requires Valid()
      modifies this, if stored.Some? then Objects(stored.value) else {}
      ensures Valid() && (r.Some? ==> r == stored) && cached == old(cached)
      ensures old(stored).Some? ==>
                && stored == old(stored) && reader == old(reader)
                && (r.Some? <==> !old(BodyOf(stored.value)).closed)
                && (r.Some? ==> BodyOf(r.value) == old(BodyOf(stored.value)).(pos := 0))
      ensures old(stored).None? && cached.Some? ==>
                && r.Some? && reader == old(reader)
                && BodyOf(r.value) == Body(cached.value, 0, false) && fresh(Objects(r.value))
      ensures old(stored).None? && cached.None? ==>
                && reader.None?
                && (r.Some? <==> Readable(old(reader), maxBytes, how))
                && (r.Some? ==> BodyOf(r.value) == Body(old(reader).value, 0, false) && fresh(Objects(r.value)))
                && (r.None? ==> stored.None?)
    {
      if stored.Some? {
        var reply;
        match stored.value {
          case OnDiskHandle(d) => reply := d.Seek(0, SEEK_START);
          case InMemoryHandle(m) => reply := m.Seek(0, SEEK_START);
        }
        return if reply.Position? then stored else None;
      }
      if cached.Some? {
        var h := Create(cached.value, how);
        stored := Some(h);
        return stored;
      }
      stored := CreateFromReader(maxBytes, how);
      return stored;
    }

    /** `CleanupBodyStorage` */
    method Cleanup()
      requires Valid()
      modifies this, if stored.Some? then Objects(stored.value) else {}
      ensures Valid() && stored.None? && cached == old(cached) && reader == old(reader)
      ensures old(stored).Some? ==> BodyOf(old(stored).value) == old(BodyOf(stored.value)).(closed := true)
    {
      if stored.Some? {
        match stored.value {
          case OnDiskHandle(d) => var _ := d.Close();
          case InMemoryHandle(m) => var _ := m.Close();
        }
        stored := None;
      }
    }
  }
}
