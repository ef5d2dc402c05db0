/** The heuristic search for the native-function table: the first 64 consecutive
    code pointers in a writable segment (UE4SS/src/UE4SSProgram.cpp). */
module NativesScan {
  import opened Text

  type Byte = n: nat | n < 256

  /** One more than the largest address. */
  const ADDRESSES: nat := 0x1_0000_0000_0000_0000

  const MIN_ENTRIES: nat := 64
  const PTR_SIZE: nat := 8

  /** A program header with the memory it describes. */
  datatype Header = Header(load: bool, executable: bool, writable: bool, start: nat, bytes: seq<Byte>)

  datatype ExecRange = ExecRange(start: nat, end: nat)

  datatype WritableSeg = WritableSeg(start: nat, bytes: seq<Byte>)

  // ----- what counts as an entry, and as a table -----

  function LittleEndian(bytes: seq<Byte>): nat {
    if bytes == [] then 0 else bytes[0] + 256 * LittleEndian(bytes[1..])
  }

  predicate InRange(r: ExecRange, ptr: nat) { r.start <= ptr < r.end }

  predicate IsCode(ranges: seq<ExecRange>, ptr: nat) {
    exists r <- ranges :: InRange(r, ptr)
  }

  /** Word `k` of the memory exists and points into code. */
  predicate IsEntry(bytes: seq<Byte>, ranges: seq<ExecRange>, k: nat) {
    && PTR_SIZE * k + PTR_SIZE <= |bytes|
    && var word := LittleEndian(bytes[PTR_SIZE * k..PTR_SIZE * k + PTR_SIZE]);
       0x10000 <= word <= 0x7fffffffffff && IsCode(ranges, word)
  }

  predicate IsTable(bytes: seq<Byte>, ranges: seq<ExecRange>, k: nat) {
    forall j :: k <= j < k + MIN_ENTRIES ==> IsEntry(bytes, ranges, j)
  }

  lemma NoTableOver(bytes: seq<Byte>, ranges: seq<ExecRange>, k: nat, gap: nat)
    requires k <= gap < k + MIN_ENTRIES && !IsEntry(bytes, ranges, gap)
    ensures !IsTable(bytes, ranges, k)
  {}

  lemma TablesNeedRoom(bytes: seq<Byte>, ranges: seq<ExecRange>, k: nat)
    requires |bytes| < PTR_SIZE * (k + MIN_ENTRIES)
    ensures forall j :: k <= j ==> !IsTable(bytes, ranges, j)
  {
    forall j | k <= j ensures !IsTable(bytes, ranges, j) {
      NoTableOver(bytes, ranges, j, j + MIN_ENTRIES - 1);
    }
  }

  // ----- the simple search -----

  /** The first table at or after word `k`, trying every start. */
  function FirstTable(bytes: seq<Byte>, ranges: seq<ExecRange>, k: nat): (r: Option<nat>)
    ensures r.Some? ==> k <= r.value && IsTable(bytes, ranges, r.value)
    ensures r.Some? ==> forall j :: k <= j < r.value ==> !IsTable(bytes, ranges, j)
    ensures r.None? ==> forall j :: k <= j ==> !IsTable(bytes, ranges, j)
    decreases |bytes| - k
  {
    if IsTable(bytes, ranges, k) then Some(k)
    else if k >= |bytes| then
      TablesNeedRoom(bytes, ranges, k);
      None
    else FirstTable(bytes, ranges, k + 1)
  }

  function AddressOf(start: nat, table: Option<nat>): Option<nat> {
    match table { case Some(k) => Some(start + PTR_SIZE * k) case None => None }
  }

  /** The first table of the first writable loaded segment that has one. */
  function Located(headers: seq<Header>, ranges: seq<ExecRange>): Option<nat> {
    if headers == [] then None
    else
      var h := headers[0];
      var table := FirstTable(h.bytes, ranges, 0);
      if h.load && h.writable && table.Some? then AddressOf(h.start, table) else Located(headers[1..], ranges)
  }

  // ----- the operations -----

  predicate Keeps(h: Header) { h.load && h.writable && |h.bytes| > 0x100 }

  function ExecRanges(headers: seq<Header>): seq<ExecRange> {
    if headers == [] then []
    else
      var h := headers[|headers| - 1];
      ExecRanges(headers[..|headers| - 1])
        + (if h.load && h.executable then [ExecRange(h.start, (h.start + |h.bytes|) % ADDRESSES)] else [])
  }

  function WritableSegs(headers: seq<Header>): seq<WritableSeg> {
    if headers == [] then []
    else
      var h := headers[|headers| - 1];
      WritableSegs(headers[..|headers| - 1]) + (if Keeps(h) then [WritableSeg(h.start, h.bytes)] else [])
  }

  method CollectSegments(headers: seq<Header>) returns (ranges: seq<ExecRange>, segments: seq<WritableSeg>)
    ensures ranges == ExecRanges(headers) && segments == WritableSegs(headers)
  {
    ranges, segments := [], [];
    for i := 0 to |headers|
      invariant ranges == ExecRanges(headers[..i]) && segments == WritableSegs(headers[..i])
    {
      var h := headers[i];
      assert headers[..i + 1][..i] == headers[..i];
      if h.load {
        if h.executable { ranges := ranges + [ExecRange(h.start, (h.start + |h.bytes|) % ADDRESSES)]; }
        if h.writable {
          if |h.bytes| > 0x100 { segments := segments + [WritableSeg(h.start, h.bytes)]; }
        }
      }
    }
    assert headers[..|headers|] == headers;
  }

  method IsExecutable(ranges: seq<ExecRange>, ptr: nat) returns (r: bool)
    ensures r == IsCode(ranges, ptr)
  {
    for i := 0 to |ranges|
      invariant forall j :: 0 <= j < i ==> !InRange(ranges[j], ptr)
    {
      if ranges[i].start <= ptr < ranges[i].end {
        assert InRange(ranges[i], ptr);
        return true;
      }
    }
    return false;
  }

  /** One pass with a counter finds what the simple search finds. */
  method ScanSegment(bytes: seq<Byte>, ranges: seq<ExecRange>) returns (found: Option<nat>)
    ensures found == AddressOf(0, FirstTable(bytes, ranges, 0))
  {
    var consecutive, runStart, offset := 0, 0, 0;
    ghost var k := 0;
    while offset + PTR_SIZE <= |bytes|
      invariant offset == PTR_SIZE * k
      invariant consecutive < MIN_ENTRIES && consecutive <= k
      invariant consecutive > 0 ==> runStart == PTR_SIZE * (k - consecutive)
      invariant forall j :: k - consecutive <= j < k ==> IsEntry(bytes, ranges, j)
      invariant consecutive < k ==> !IsEntry(bytes, ranges, k - consecutive - 1)
      invariant forall j :: 0 <= j <= k - MIN_ENTRIES ==> !IsTable(bytes, ranges, j)
      decreases |bytes| - offset
    {
      var word := LittleEndian(bytes[offset..offset + PTR_SIZE]);
      var executable := IsExecutable(ranges, word);
      if word >= 0x10000 && word <= 0x7fffffffffff && executable {
        assert IsEntry(bytes, ranges, k);
        if consecutive == 0 { runStart := offset; }
        consecutive := consecutive + 1;
        if consecutive >= MIN_ENTRIES {
          assert IsTable(bytes, ranges, k + 1 - MIN_ENTRIES);
          return Some(runStart);
        }
        if k + 1 >= MIN_ENTRIES {
          NoTableOver(bytes, ranges, k + 1 - MIN_ENTRIES, k - consecutive);
        }
      } else {
        assert !IsEntry(bytes, ranges, k);
        consecutive := 0;
        if k + 1 >= MIN_ENTRIES { NoTableOver(bytes, ranges, k + 1 - MIN_ENTRIES, k); }
      }
      offset := offset + PTR_SIZE;
      k := k + 1;
    }
    TablesNeedRoom(bytes, ranges, if k < MIN_ENTRIES then 0 else k + 1 - MIN_ENTRIES);
    return None;
  }

  /** What the counter pass returns over the collected segments. */
  function LocatedIn(segments: seq<WritableSeg>, ranges: seq<ExecRange>): Option<nat> {
    if segments == [] then None
    else
      var table := FirstTable(segments[0].bytes, ranges, 0);
      if table.Some? then AddressOf(segments[0].start, table) else LocatedIn(segments[1..], ranges)
  }

  /** A segment cannot lie at the null address, which is how "not found" is written. */
  method FindNatives(headers: seq<Header>) returns (addr: nat)
    requires forall h <- headers :: h.start > 0
    ensures var located := Located(headers, ExecRanges(headers));
            addr == (match located case Some(a) => a case None => 0)
    ensures addr != 0
       <==> exists h <- headers :: h.load && h.writable && FirstTable(h.bytes, ExecRanges(headers), 0).Some?
  {
    var ranges, segments := CollectSegments(headers);
    StartsArePositive(headers);
    addr := 0;
    var i := 0;
    while i < |segments|
      invariant i <= |segments|
      invariant addr == 0 && LocatedIn(segments, ranges) == LocatedIn(segments[i..], ranges)
    {
      var seg := segments[i];
      assert segments[i..][1..] == segments[i + 1..];
      i := i + 1;
      if |seg.bytes| < MIN_ENTRIES * PTR_SIZE {
        TablesNeedRoom(seg.bytes, ranges, 0);
        continue;
      }
      var found := ScanSegment(seg.bytes, ranges);
      if found.Some? {
        addr := seg.start + found.value;
      }
      if addr != 0 { break; }
    }
    FiltersLoseNothing(headers, ranges);
    LocatedIff(headers, ranges);
  }

  lemma {:induction false} StartsArePositive(headers: seq<Header>)
    requires forall h <- headers :: h.start > 0
    ensures forall s <- WritableSegs(headers) :: s.start > 0
  {
    if headers != [] { StartsArePositive(headers[..|headers| - 1]); }
  }

  // ----- the size filters are harmless -----

  lemma {:induction false} LocatedInAppend(a: seq<WritableSeg>, b: seq<WritableSeg>, ranges: seq<ExecRange>)
    ensures LocatedIn(a + b, ranges)
         == if LocatedIn(a, ranges).Some? then LocatedIn(a, ranges) else LocatedIn(b, ranges)
  {
    if a == [] {
      assert a + b == b;
    } else {
      assert (a + b)[1..] == a[1..] + b;
      LocatedInAppend(a[1..], b, ranges);
    }
  }

  lemma {:induction false} LocatedAppend(a: seq<Header>, b: seq<Header>, ranges: seq<ExecRange>)
    ensures Located(a + b, ranges)
         == if Located(a, ranges).Some? then Located(a, ranges) else Located(b, ranges)
  {
    if a == [] {
      assert a + b == b;
    } else {
      assert (a + b)[1..] == a[1..] + b;
      LocatedAppend(a[1..], b, ranges);
    }
  }

  /** Neither the 0x100-byte nor the 512-byte filter hides a table. */
  lemma {:induction false} FiltersLoseNothing(headers: seq<Header>, ranges: seq<ExecRange>)
    ensures LocatedIn(WritableSegs(headers), ranges) == Located(headers, ranges)
  {
    if headers != [] {
      var front, h := headers[..|headers| - 1], headers[|headers| - 1];
      FiltersLoseNothing(front, ranges);
      assert headers == front + [h];
      LocatedAppend(front, [h], ranges);
      var kept := if Keeps(h) then [WritableSeg(h.start, h.bytes)] else [];
      LocatedInAppend(WritableSegs(front), kept, ranges);
      if |h.bytes| <= 0x100 { TablesNeedRoom(h.bytes, ranges, 0); }
    }
  }

  lemma {:induction false} LocatedIff(headers: seq<Header>, ranges: seq<ExecRange>)
    requires forall h <- headers :: h.start > 0
    ensures Located(headers, ranges).Some?
       <==> exists h <- headers :: h.load && h.writable && FirstTable(h.bytes, ranges, 0).Some?
    ensures Located(headers, ranges).Some? ==> Located(headers, ranges).value > 0
  {
    if headers != [] {
      LocatedIff(headers[1..], ranges);
      assert headers == [headers[0]] + headers[1..];
    }
  }

  // ----- the same in bytes and addresses -----

  function ByteAt(bytes: seq<Byte>, o: nat): nat
    requires o < |bytes|
  {
    bytes[o]
  }

  /** The eight bytes at `o`, the lowest first, as one address. */
  function AddressAt(bytes: seq<Byte>, o: nat): nat
    requires o + 8 <= |bytes|
  {
    ByteAt(bytes, o) + 0x100 * ByteAt(bytes, o + 1)
      + 0x1_0000 * ByteAt(bytes, o + 2) + 0x100_0000 * ByteAt(bytes, o + 3)
      + 0x1_0000_0000 * ByteAt(bytes, o + 4) + 0x100_0000_0000 * ByteAt(bytes, o + 5)
      + 0x1_0000_0000_0000 * ByteAt(bytes, o + 6) + 0x100_0000_0000_0000 * ByteAt(bytes, o + 7)
  }

  /** The address lies in a loaded executable segment, whose end may wrap. */
  predicate InCode(h: Header, a: nat) {
    h.load && h.executable && h.start <= a < (h.start + |h.bytes|) % 0x1_0000_0000_0000_0000
  }

  predicate PointsToCode(headers: seq<Header>, bytes: seq<Byte>, o: nat) {
    && o + 8 <= |bytes|
    && 0x10000 <= AddressAt(bytes, o) <= 0x7fffffffffff
    && exists h <- headers :: InCode(h, AddressAt(bytes, o))
  }

  /** Sixty-four pointers into code start at the aligned offset `8 * k`. */
  predicate HoldsTable(headers: seq<Header>, bytes: seq<Byte>, k: nat) {
    forall j :: k <= j < k + 64 ==> PointsToCode(headers, bytes, 8 * j)
  }

  lemma LittleEndianStep(bytes: seq<Byte>, o: nat, n: nat)
    requires n > 0 && o + n <= |bytes|
    ensures LittleEndian(bytes[o..o + n]) == bytes[o] + 256 * LittleEndian(bytes[o + 1..o + 1 + (n - 1)])
  {
    assert bytes[o..o + n][1..] == bytes[o + 1..o + 1 + (n - 1)];
  }

  lemma AddressIs(bytes: seq<Byte>, o: nat)
    requires o + 8 <= |bytes|
    ensures LittleEndian(bytes[o..o + 8]) == AddressAt(bytes, o)
  {
    LittleEndianStep(bytes, o, 8);
    LittleEndianStep(bytes, o + 1, 7);
    LittleEndianStep(bytes, o + 2, 6);
    LittleEndianStep(bytes, o + 3, 5);
    LittleEndianStep(bytes, o + 4, 4);
    LittleEndianStep(bytes, o + 5, 3);
    LittleEndianStep(bytes, o + 6, 2);
    LittleEndianStep(bytes, o + 7, 1);
  }

  lemma {:induction false} CodeIs(headers: seq<Header>, a: nat)
    ensures IsCode(ExecRanges(headers), a) <==> exists h <- headers :: InCode(h, a)
  {
    if headers != [] {
      var front, last := headers[..|headers| - 1], headers[|headers| - 1];
      CodeIs(front, a);
      assert headers == front + [last];
      var range := ExecRange(last.start, (last.start + |last.bytes|) % ADDRESSES);
      if last.load && last.executable {
        assert ExecRanges(headers) == ExecRanges(front) + [range];
        assert InRange(range, a) <==> InCode(last, a);
      } else {
        assert ExecRanges(headers) == ExecRanges(front);
      }
    }
  }

  lemma EntryIs(headers: seq<Header>, bytes: seq<Byte>, j: nat)
    ensures IsEntry(bytes, ExecRanges(headers), j) <==> PointsToCode(headers, bytes, 8 * j)
  {
    if 8 * j + 8 <= |bytes| {
      AddressIs(bytes, 8 * j);
      CodeIs(headers, AddressAt(bytes, 8 * j));
    }
  }

  lemma TableIs(headers: seq<Header>, bytes: seq<Byte>, k: nat)
    ensures IsTable(bytes, ExecRanges(headers), k) <==> HoldsTable(headers, bytes, k)
  {
    if IsTable(bytes, ExecRanges(headers), k) {
      forall j | k <= j < k + 64 ensures PointsToCode(headers, bytes, 8 * j) { EntryIs(headers, bytes, j); }
    }
    if HoldsTable(headers, bytes, k) {
      forall j | k <= j < k + 64 ensures IsEntry(bytes, ExecRanges(headers), j) {
        assert PointsToCode(headers, bytes, 8 * j);
        EntryIs(headers, bytes, j);
      }
    }
  }

  predicate HasTable(headers: seq<Header>, h: Header, k: nat) {
    h.load && h.writable && HoldsTable(headers, h.bytes, k)
  }

  /** Table `k` of segment `i` is the first: none before it in the segment, none
      in the segments before. */
  ghost predicate IsFirstTable(headers: seq<Header>, i: nat, k: nat) {
    && i < |headers| && HasTable(headers, headers[i], k)
    && (forall j: nat :: j < k ==> !HasTable(headers, headers[i], j))
    && forall m: nat, j: nat :: m < i ==> !HasTable(headers, headers[m], j)
  }

  lemma FirstTableIs(all: seq<Header>, h: Header)
    ensures var r := FirstTable(h.bytes, ExecRanges(all), 0); h.load && h.writable ==>
      && (r.Some? ==> HasTable(all, h, r.value) && forall j: nat :: j < r.value ==> !HasTable(all, h, j))
      && (r.None? ==> forall j: nat :: !HasTable(all, h, j))
  {
    forall j: nat ensures IsTable(h.bytes, ExecRanges(all), j) <==> HoldsTable(all, h.bytes, j) {
      TableIs(all, h.bytes, j);
    }
  }

  lemma {:induction false} LocatedFrom(all: seq<Header>, m: nat) returns (i: nat, k: nat)
    requires m <= |all| && Located(all[m..], ExecRanges(all)).Some?
    ensures m <= i < |all| && HasTable(all, all[i], k)
    ensures forall j: nat :: j < k ==> !HasTable(all, all[i], j)
    ensures forall n: nat, j: nat :: m <= n < i ==> !HasTable(all, all[n], j)
    ensures Located(all[m..], ExecRanges(all)) == Some(all[i].start + 8 * k)
    decreases |all| - m
  {
    var r := FirstTable(all[m].bytes, ExecRanges(all), 0);
    FirstTableIs(all, all[m]);
    assert all[m..][1..] == all[m + 1..];
    if all[m].load && all[m].writable && r.Some? {
      i, k := m, r.value;
    } else {
      i, k := LocatedFrom(all, m + 1);
    }
  }

  lemma {:induction false} NothingLocated(all: seq<Header>, m: nat)
    requires m <= |all| && Located(all[m..], ExecRanges(all)).None?
    ensures forall n: nat, j: nat :: m <= n < |all| ==> !HasTable(all, all[n], j)
    decreases |all| - m
  {
    if m < |all| {
      FirstTableIs(all, all[m]);
      assert all[m..][1..] == all[m + 1..];
      NothingLocated(all, m + 1);
    }
  }

  /** What is located, in bytes and addresses: the first aligned run of sixty-four
      pointers into loaded executable segments, in the first loaded writable
      segment that has one. */
  lemma LocatesFirstTable(headers: seq<Header>) returns (i: nat, k: nat)
    ensures var located := Located(headers, ExecRanges(headers));
      && (located.Some? ==> IsFirstTable(headers, i, k) && located.value == headers[i].start + 8 * k)
      && (located.None? ==> forall n: nat, j: nat :: n < |headers| ==> !HasTable(headers, headers[n], j))
  {
    assert headers[0..] == headers;
    i, k := 0, 0;
    if Located(headers, ExecRanges(headers)).Some? {
      i, k := LocatedFrom(headers, 0);
    } else {
      NothingLocated(headers, 0);
    }
  }
}
