/** The page scanner of `getOpusDuration` (common/audio.go, lines 196-254): it walks the pages of
    an Ogg stream (section 6 of RFC 3533) and takes the largest granule position as the length
    of the Opus track in samples of 48 kHz (section 4 of RFC 7845).  Where a page does not begin, it
    moves on by one byte. */
module OpusScanner {
  import opened Bytes

  const HEADER := 27
  const CAPTURE: seq<Byte> := [0x4F, 0x67, 0x67, 0x53]  // "OggS"

  // ---------- Numbers on the wire ----------

  /** Little-endian, unsigned. */
  function FromLE(bs: seq<Byte>): nat {
    if bs == [] then 0 else bs[0] + 256 * FromLE(bs[1..])
  }

  function ToLE(v: nat, n: nat): seq<Byte> {
    if n == 0 then [] else [v % 256] + ToLE(v / 256, n - 1)
  }

  // ---------- The scan ----------

  predicate PageAt(data: seq<Byte>, pos: nat) {
    pos + HEADER <= |data| && data[pos..pos + 4] == CAPTURE
  }

  function GranuleAt(data: seq<Byte>, pos: nat): int
    requires PageAt(data, pos)
  {
    Signed(FromLE(data[pos + 6..pos + 14]))
  }

  function Sum(table: seq<Byte>): nat {
    if table == [] then 0 else table[0] + Sum(table[1..])
  }

  /** The sum of a segment table is made up of its entries. */
  lemma {:induction false} SumOfEntries(table: seq<Byte>, more: seq<Byte>, entry: Byte)
    ensures Sum(table + more) == Sum(table) + Sum(more) && Sum([entry]) == entry && Sum([]) == 0
  {
    if table == [] {
      assert table + more == more;
    } else {
      assert (table + more)[1..] == table[1..] + more;
      SumOfEntries(table[1..], more, entry);
    }
    assert [entry][1..] == [];
  }

  /** Eight bytes, the lowest first. */
  lemma EightBytes(b: seq<Byte>)
    requires |b| == 8
    ensures FromLE(b) ==
              b[0] as int + b[1] as int * 0x100 + b[2] as int * 0x1_0000 + b[3] as int * 0x100_0000
              + b[4] as int * 0x1_0000_0000 + b[5] as int * 0x100_0000_0000 + b[6] as int * 0x1_0000_0000_0000
              + b[7] as int * 0x100_0000_0000_0000
  {
    Shift(b, 0);
    Shift(b, 1);
    Shift(b, 2);
    Shift(b, 3);
    Shift(b, 4);
    Shift(b, 5);
    Shift(b, 6);
    Shift(b, 7);
    assert b[0..] == b && b[8..] == [];
  }

  lemma Shift(b: seq<Byte>, i: nat)
    requires i < |b|
    ensures FromLE(b[i..]) == b[i] + 256 * FromLE(b[i + 1..])
  {
    assert b[i..][1..] == b[i + 1..];
  }

  /** Just behind the page at `pos`; none if its segment table is cut off. */
  function Behind(data: seq<Byte>, pos: nat): (next: int)
    requires PageAt(data, pos)
    ensures next == -1 || next >= pos + HEADER
  {
    var segments := data[pos + 26];
    if pos + HEADER + segments > |data| then -1
    else pos + HEADER + segments + Sum(data[pos + HEADER..pos + HEADER + segments])
  }

  /** The positions at which the scan recognizes a page header, from `pos` on. */
  function Headers(data: seq<Byte>, pos: nat): seq<nat>
    decreases |data| - pos
  {
    if pos + HEADER > |data| then []
    else if !PageAt(data, pos) then Headers(data, pos + 1)
    else [pos] + (if Behind(data, pos) == -1 then [] else Headers(data, Behind(data, pos)))
  }

  ghost predicate AllPages(data: seq<Byte>, at: seq<nat>) {
    forall k | 0 <= k < |at| :: PageAt(data, at[k])
  }

  /** The largest of `best` and the granule positions of the given pages. */
  ghost function Peak(data: seq<Byte>, at: seq<nat>, best: int): int
    requires AllPages(data, at)
  {
    if at == [] then best
    else
      assert AllPages(data, at[1..]) by {
        forall k | 0 <= k < |at[1..]| ensures PageAt(data, at[1..][k]) { assert at[1..][k] == at[k + 1]; }
      }
      var g := GranuleAt(data, at[0]);
      Peak(data, at[1..], if g > best then g else best)
  }

  lemma {:induction false} HeadersArePages(data: seq<Byte>, pos: nat)
    ensures AllPages(data, Headers(data, pos))
    decreases |data| - pos
  {
    if pos + HEADER <= |data| {
      if !PageAt(data, pos) {
        HeadersArePages(data, pos + 1);
      } else if Behind(data, pos) != -1 {
        HeadersArePages(data, Behind(data, pos));
      }
    }
  }

  function Max(a: int, b: int): int {
    if a > b then a else b
  }

  /** What a scan that stands at `pos` and has seen `best` will return. */
  ghost function PeakFrom(data: seq<Byte>, pos: nat, best: int): int {
    HeadersArePages(data, pos);
    Peak(data, Headers(data, pos), best)
  }

  /** For any bytes: the result is an upper bound of the granule positions visited, and attained. */
  lemma {:induction false} PeakIsLargest(data: seq<Byte>, at: seq<nat>, best: int)
    requires AllPages(data, at)
    ensures Peak(data, at, best) >= best && forall k | 0 <= k < |at| :: Peak(data, at, best) >= GranuleAt(data, at[k])
    ensures Peak(data, at, best) == best || exists k :: 0 <= k < |at| && Peak(data, at, best) == GranuleAt(data, at[k])
  {
    if at == [] {
    } else {
      var rest, g := at[1..], GranuleAt(data, at[0]);
      assert AllPages(data, rest) by { assert forall k | 0 <= k < |rest| :: rest[k] == at[k + 1]; }
      PeakIsLargest(data, rest, Max(g, best));
      forall k | 0 <= k < |at| ensures Peak(data, at, best) >= GranuleAt(data, at[k]) {
        if k > 0 { assert at[k] == rest[k - 1]; }
      }
    }
  }

  lemma PageStep(data: seq<Byte>, pos: nat, best: int)
    requires PageAt(data, pos)
    ensures PeakFrom(data, pos, best)
         == if Behind(data, pos) == -1 then Max(GranuleAt(data, pos), best)
            else PeakFrom(data, Behind(data, pos), Max(GranuleAt(data, pos), best))
  {
    var rest := if Behind(data, pos) == -1 then [] else Headers(data, Behind(data, pos));
    var at := Headers(data, pos);
    HeadersArePages(data, pos);
    assert at == [pos] + rest;
    assert at[0] == pos && at[1..] == rest;
    assert AllPages(data, rest);
    assert Peak(data, at, best) == Peak(data, rest, Max(GranuleAt(data, pos), best));
  }

  lemma SliceOfSlice(data: seq<Byte>, a: nat, b: nat, c: nat, d: nat)
    requires a <= b <= |data| && c <= d <= b - a
    ensures data[a..b][c..d] == data[a + c..a + d]
  {
    forall i | 0 <= i < d - c ensures data[a..b][c..d][i] == data[a + c..a + d][i] {
      assert data[a..b][c..d][i] == data[a..b][c + i] == data[a + c + i];
    }
  }

  lemma HeaderBytes(data: seq<Byte>, pos: nat)
    requires pos + HEADER <= |data|
    ensures var buf := data[pos..pos + HEADER];
            && (buf[0..4] == CAPTURE <==> PageAt(data, pos))
            && buf[6..14] == data[pos + 6..pos + 14] && buf[26] == data[pos + 26]
  {
    SliceOfSlice(data, pos, pos + HEADER, 0, 4);
    SliceOfSlice(data, pos, pos + HEADER, 6, 14);
  }

  method PageSize(table: seq<Byte>) returns (size: nat)
    ensures size == Sum(table)
  {
    size := 0;
    for i := 0 to |table|
      invariant size + Sum(table[i..]) == Sum(table)
    {
      size := size + table[i];
      assert table[i..][1..] == table[i + 1..];
    }
  }

  lemma NoPageStep(data: seq<Byte>, pos: nat, best: int)
    requires pos + HEADER <= |data| && !PageAt(data, pos)
    ensures PeakFrom(data, pos, best) == PeakFrom(data, pos + 1, best)
  {
  }

  lemma EndStep(data: seq<Byte>, pos: nat, best: int)
    requires pos + HEADER > |data|
    ensures PeakFrom(data, pos, best) == best
  {
  }

  /** What is read of a page whose header has been recognized; nothing follows if its segment table is
      cut off. */
  method ReadHeader(data: seq<Byte>, pos: nat) returns (granule: int, next: int)
    requires PageAt(data, pos)
    ensures granule == GranuleAt(data, pos) && next == Behind(data, pos)
  {
    HeaderBytes(data, pos);
    var buf := data[pos..pos + HEADER];
    granule := Signed(FromLE(buf[6..14]));
    var segments := buf[26];
    var table := pos + HEADER;
    if |data| - table < segments { return granule, -1; }  // io.ReadFull fails
    var size := PageSize(data[table..table + segments]);
    next := table + segments + size;
  }

  /** The loop of the source.  `Read` fills its buffer unless the input ends, and seeking beyond
      the end is no error. */
  method LastGranule(data: seq<Byte>) returns (best: int)
    ensures best == PeakFrom(data, 0, 0)
  {
    var pos: nat := 0;
    best := 0;
    while true
      invariant PeakFrom(data, pos, best) == PeakFrom(data, 0, 0)
      decreases |data| - pos
    {
      if |data| - pos < HEADER {                       // EOF, or too short for a header
        EndStep(data, pos, best);
        break;
      }
      if data[pos..pos + 4] != CAPTURE {
        NoPageStep(data, pos, best);
        pos := pos + HEADER - 26;
        continue;
      }
      PageStep(data, pos, best);
      var granule, next := ReadHeader(data, pos);
      if granule > best { best := granule; }
      if next == -1 { break; }
      pos := next;
    }
  }

  method GetOpusDuration(data: seq<Byte>) returns (duration: real)
    ensures duration == PeakFrom(data, 0, 0) as real / 48000.0
  {
    var best := LastGranule(data);
    return best as real / 48000.0;
  }

  // ---------- Streams of pages ----------

  /** A page as section 6 of RFC 3533 lays it out: `head` is the version and type, `ids` the serial
      number, sequence number and checksum. */
  datatype Page = Page(head: seq<Byte>, granule: int, ids: seq<Byte>, table: seq<Byte>, payload: seq<Byte>)

  predicate WellFormed(p: Page) {
    |p.head| == 2 && |p.ids| == 12 && -TWO63 <= p.granule < TWO63 && |p.table| <= 255 && |p.payload| == Sum(p.table)
  }

  function Encode(p: Page): seq<Byte>
    requires WellFormed(p)
  {
    CAPTURE + p.head + ToLE(Unsigned(p.granule), 8) + p.ids + [|p.table|] + p.table + p.payload
  }

  /** A stretch of a stream: bytes that belong to no page, or a page and its bytes. */
  datatype Stretch = Noise(bytes: seq<Byte>) | Framed(bytes: seq<Byte>, page: Page)

  predicate Formed(s: Stretch) {
    s.Framed? ==> WellFormed(s.page) && s.bytes == Encode(s.page)
  }

  predicate AllFormed(ss: seq<Stretch>) {
    ss == [] || (Formed(ss[0]) && AllFormed(ss[1..]))
  }

  function StreamOf(ss: seq<Stretch>): seq<Byte> {
    if ss == [] then [] else ss[0].bytes + StreamOf(ss[1..])
  }

  function PagesIn(ss: seq<Stretch>): seq<Page> {
    if ss == [] then [] else (if ss[0].Framed? then [ss[0].page] else []) + PagesIn(ss[1..])
  }

  /** Where the pages begin when the first stretch begins at `pos`. */
  function Starts(ss: seq<Stretch>, pos: nat): seq<nat> {
    if ss == [] then []
    else (if ss[0].Framed? then [pos] else []) + Starts(ss[1..], pos + |ss[0].bytes|)
  }

  /** The largest granule position, but at least `best`. */
  function Largest(ps: seq<Page>, best: int): int {
    if ps == [] then best else Largest(ps[1..], Max(ps[0].granule, best))
  }
}

module OpusScannerProofs {
  import opened Bytes
  import opened OpusScanner

  lemma {:induction false} ToLELength(v: nat, n: nat)
    ensures |ToLE(v, n)| == n
  {
    if n == 0 {
    } else {
      ToLELength(v / 256, n - 1);
    }
  }

  function Pow256(n: nat): nat {
    if n == 0 then 1 else 256 * Pow256(n - 1)
  }

  lemma {:induction false} LERoundTrip(v: nat, n: nat)
    requires v < Pow256(n)
    ensures FromLE(ToLE(v, n)) == v
  {
    if n == 0 {
    } else {
      LERoundTrip(v / 256, n - 1);
      assert ToLE(v, n)[1..] == ToLE(v / 256, n - 1);
    }
  }

  /** The eight bytes written for a granule position are read back as the same signed number. */
  lemma GranuleRoundTrip(g: int)
    requires -TWO63 <= g < TWO63
    ensures |ToLE(Unsigned(g), 8)| == 8 && Signed(FromLE(ToLE(Unsigned(g), 8))) == g
  {
    ToLELength(Unsigned(g), 8);
    assert Pow256(4) == 0x1_0000_0000;
    assert Pow256(8) == TWO64;
    LERoundTrip(Unsigned(g), 8);
  }

  lemma PageLayout(p: Page)
    requires WellFormed(p)
    ensures var e := Encode(p);
            && |e| == 27 + |p.table| + |p.payload| && |ToLE(Unsigned(p.granule), 8)| == 8
            && e[0..4] == CAPTURE && e[6..14] == ToLE(Unsigned(p.granule), 8) && e[26] == |p.table|
            && e[27..27 + |p.table|] == p.table
  {
    GranuleRoundTrip(p.granule);
  }

  /** Reading a well-formed page that stands at `pos`: its header is recognized, its granule
      position read, and its end computed, whatever the payload contains. */
  lemma ReadPage(data: seq<Byte>, pos: nat, p: Page)
    requires WellFormed(p) && pos + |Encode(p)| <= |data| && data[pos..pos + |Encode(p)|] == Encode(p)
    ensures PageAt(data, pos) && GranuleAt(data, pos) == p.granule && Behind(data, pos) == pos + |Encode(p)|
  {
    PageLayout(p);
    GranuleRoundTrip(p.granule);
    var end := pos + |Encode(p)|;
    assert data[pos + 26] == data[pos..end][26];
    SliceOfSlice(data, pos, end, 0, 4);
    SliceOfSlice(data, pos, end, 6, 14);
    SliceOfSlice(data, pos, end, 27, 27 + |p.table|);
  }

  /** No page seems to begin in `data[from..to]`. */
  ghost predicate Quiet(data: seq<Byte>, from: nat, to: nat) {
    forall i | from <= i < to :: !PageAt(data, i)
  }

  lemma {:induction false} SkipQuiet(data: seq<Byte>, from: nat, to: nat)
    requires from <= to <= |data| && Quiet(data, from, to)
    ensures Headers(data, from) == Headers(data, to)
    decreases |data| - from
  {
    if from < to {
      SkipQuiet(data, from + 1, to);
    }
  }

  /** The stretches stand in `data` from `pos` to its end, one behind the other, and no page seems to
      begin in the noise. */
  ghost predicate Laid(data: seq<Byte>, pos: nat, ss: seq<Stretch>)
    decreases |ss|
  {
    if ss == [] then pos == |data|
    else
      var next := pos + |ss[0].bytes|;
      && next <= |data| && data[pos..next] == ss[0].bytes
      && (ss[0].Noise? ==> Quiet(data, pos, next))
      && Laid(data, next, ss[1..])
  }

  lemma VisitPage(data: seq<Byte>, pos: nat)
    requires PageAt(data, pos) && Behind(data, pos) != -1
    ensures Headers(data, pos) == [pos] + Headers(data, Behind(data, pos))
  {
  }

  /** What the scan makes of a stretch that stands in `data[pos..next]`. */
  ghost predicate ReadsAs(data: seq<Byte>, pos: nat, s: Stretch, next: nat) {
    match s
    case Noise(_) => pos <= next <= |data| && Quiet(data, pos, next)
    case Framed(_, p) => PageAt(data, pos) && GranuleAt(data, pos) == p.granule && Behind(data, pos) == next
  }

  lemma ReadStretch(data: seq<Byte>, pos: nat, s: Stretch, next: nat)
    requires Formed(s) && next == pos + |s.bytes| <= |data| && data[pos..next] == s.bytes
    requires s.Noise? ==> Quiet(data, pos, next)
    ensures ReadsAs(data, pos, s, next)
  {
    if s.Framed? { ReadPage(data, pos, s.page); }
  }

  ghost predicate AllRead(data: seq<Byte>, pos: nat, ss: seq<Stretch>)
    decreases |ss|
  {
    if ss == [] then pos == |data|
    else ReadsAs(data, pos, ss[0], pos + |ss[0].bytes|) && AllRead(data, pos + |ss[0].bytes|, ss[1..])
  }

  lemma {:induction false} LaidIsRead(data: seq<Byte>, pos: nat, ss: seq<Stretch>)
    requires AllFormed(ss) && Laid(data, pos, ss)
    ensures AllRead(data, pos, ss)
    decreases |ss|
  {
    if ss == [] {
    } else {
      ReadStretch(data, pos, ss[0], pos + |ss[0].bytes|);
      LaidIsRead(data, pos + |ss[0].bytes|, ss[1..]);
    }
  }

  ghost predicate Visits(data: seq<Byte>, pos: nat, at: seq<nat>) {
    Headers(data, pos) == at
  }

  lemma VisitFirst(data: seq<Byte>, pos: nat, s: Stretch, next: nat, rest: seq<nat>)
    requires ReadsAs(data, pos, s, next) && Visits(data, next, rest)
    ensures Visits(data, pos, (if s.Framed? then [pos] else []) + rest)
  {
    if s.Noise? {
      SkipQuiet(data, pos, next);
    } else {
      VisitPage(data, pos);
    }
  }

  /** The scan of stretches visits exactly the headers of the pages. */
  lemma {:induction false} VisitStretches(data: seq<Byte>, pos: nat, ss: seq<Stretch>)
    requires AllRead(data, pos, ss)
    ensures Visits(data, pos, Starts(ss, pos))
    decreases |ss|
  {
    if ss == [] {
    } else {
      var next := pos + |ss[0].bytes|;
      VisitStretches(data, next, ss[1..]);
      VisitFirst(data, pos, ss[0], next, Starts(ss[1..], next));
    }
  }

  lemma {:induction false} PeakOfStretches(data: seq<Byte>, pos: nat, ss: seq<Stretch>, best: int)
    requires AllRead(data, pos, ss)
    ensures AllPages(data, Starts(ss, pos)) && Peak(data, Starts(ss, pos), best) == Largest(PagesIn(ss), best)
    decreases |ss|
  {
    if ss == [] {
    } else {
      var next := pos + |ss[0].bytes|;
      if ss[0].Noise? {
        PeakOfStretches(data, next, ss[1..], best);
        assert Starts(ss, pos) == Starts(ss[1..], next) && PagesIn(ss) == PagesIn(ss[1..]);
      } else {
        PeakOfStretches(data, next, ss[1..], Max(ss[0].page.granule, best));
        PeakCons(data, pos, Starts(ss[1..], next), best);
        assert PagesIn(ss)[1..] == PagesIn(ss[1..]);
      }
    }
  }

  lemma PeakCons(data: seq<Byte>, pos: nat, rest: seq<nat>, best: int)
    requires PageAt(data, pos) && AllPages(data, rest)
    ensures AllPages(data, [pos] + rest)
    ensures Peak(data, [pos] + rest, best) == Peak(data, rest, Max(GranuleAt(data, pos), best))
  {
    assert ([pos] + rest)[1..] == rest;
  }

  /** No page seems to begin in the noise of the stretches, the first of which begins at `pos`. */
  ghost predicate QuietNoise(data: seq<Byte>, pos: nat, ss: seq<Stretch>)
    decreases |ss|
  {
    if ss == [] then true
    else
      var next := pos + |ss[0].bytes|;
      (ss[0].Noise? ==> Quiet(data, pos, next)) && QuietNoise(data, next, ss[1..])
  }

  lemma FirstOf(data: seq<Byte>, pos: nat, s: seq<Byte>, rest: seq<Byte>)
    requires pos <= |data| && data[pos..] == s + rest
    ensures pos + |s| <= |data| && data[pos..pos + |s|] == s && data[pos + |s|..] == rest
  {
    assert data[pos..pos + |s|] == data[pos..][..|s|];
    assert data[pos + |s|..] == data[pos..][|s|..];
  }

  lemma {:induction false} StreamIsLaid(data: seq<Byte>, pos: nat, ss: seq<Stretch>)
    requires pos <= |data| && data[pos..] == StreamOf(ss) && QuietNoise(data, pos, ss)
    ensures Laid(data, pos, ss)
    decreases |ss|
  {
    if ss == [] {
    } else {
      FirstOf(data, pos, ss[0].bytes, StreamOf(ss[1..]));
      StreamIsLaid(data, pos + |ss[0].bytes|, ss[1..]);
    }
  }

  /** The scan of a stream of well-formed pages with any payload, between, before and behind which
      there may be noise in which no page seems to begin.  It visits exactly the headers of the
      pages and returns the largest of 0 and their granule positions. */
  lemma ScanStream(data: seq<Byte>, ss: seq<Stretch>)
    requires AllFormed(ss) && data == StreamOf(ss) && QuietNoise(data, 0, ss)
    ensures Headers(data, 0) == Starts(ss, 0)
    ensures PeakFrom(data, 0, 0) == Largest(PagesIn(ss), 0)
  {
    assert data[0..] == data;
    StreamIsLaid(data, 0, ss);
    LaidIsRead(data, 0, ss);
    VisitStretches(data, 0, ss);
    PeakOfStretches(data, 0, ss, 0);
  }

  /** `Largest` is the largest: an upper bound that is attained. */
  lemma {:induction false} LargestIsLargest(ps: seq<Page>, best: int)
    ensures Largest(ps, best) >= best && forall k | 0 <= k < |ps| :: Largest(ps, best) >= ps[k].granule
    ensures Largest(ps, best) == best || exists k :: 0 <= k < |ps| && Largest(ps, best) == ps[k].granule
  {
    if ps == [] {
    } else {
      LargestIsLargest(ps[1..], Max(ps[0].granule, best));
      forall k | 0 <= k < |ps| ensures Largest(ps, best) >= ps[k].granule {
        if k > 0 { assert ps[1..][k - 1] == ps[k]; }
      }
      if Largest(ps, best) != best && Largest(ps, best) != ps[0].granule {
        var k :| 0 <= k < |ps[1..]| && Largest(ps, best) == ps[1..][k].granule;
        assert ps[k + 1].granule == Largest(ps, best);
      }
    }
  }
}
