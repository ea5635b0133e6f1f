/**
 Searches in the writable memory of a client (crates/ro-tools-linux/src/proc_memory.rs).

 A region is read chunk by chunk; a read returns all requested bytes or nothing. The byte search
 carries the end of one chunk over to the next, the word scan looks at aligned words only.
 */
module MemoryScan {
  import opened Basics

  const SCAN_CHUNK_SIZE: nat := 1024 * 1024
  const MAX_SCAN_CANDIDATES: nat := 2_000_000
  const ADDRESS_SPACE_END: nat := 0x1_0000_0000

  datatype Bounds = Bounds(lo: nat, hi: nat)

  /** A writable region clipped to the 32-bit address space, as parse_writable_regions yields it. */
  type Region = b: Bounds | b.lo < b.hi <= ADDRESS_SPACE_END witness Bounds(0, 1)

  /** The client: its bytes, and which reads (address, length) go through. */
  datatype Target = Target(memory: nat -> byte, readable: (nat, nat) -> bool)

  datatype ScanError = EmptyNeedle | NoRegions | TooManyMatches | NothingReadable

  // ---------------------------------------------------------------- the simple search

  function Min(a: nat, b: nat): (m: nat) { if a < b then a else b }

  /** The bytes of the chunk that starts at `address`. */
  function ChunkLength(r: Region, address: nat): (n: nat)
    requires address < r.hi
  {
    Min(r.hi - address, SCAN_CHUNK_SIZE)
  }

  /** The start of the chunk that holds address `x`. */
  function ChunkStart(r: Region, x: nat): (a: nat)
    requires r.lo <= x
    ensures r.lo <= a <= x
  {
    r.lo + (x - r.lo) / SCAN_CHUNK_SIZE * SCAN_CHUNK_SIZE
  }

  predicate ReadableAt(t: Target, r: Region, x: nat)
    requires r.lo <= x < r.hi
  {
    var start := ChunkStart(r, x);
    t.readable(start, ChunkLength(r, start))
  }

  /** The needle stands at `a`, inside the region, in consecutive readable chunks. */
  predicate Hit(t: Target, r: Region, needle: seq<byte>, a: nat)
  {
    && r.lo <= a && a + |needle| <= r.hi
    && forall j :: 0 <= j < |needle| ==> t.memory(a + j) == needle[j] && ReadableAt(t, r, a + j)
  }

  /** All hits at addresses from `lo` up to, not including, `hi`, in order. */
  function Hits(t: Target, r: Region, needle: seq<byte>, lo: nat, hi: nat): (s: seq<nat>)
  {
    if hi <= lo then [] else Hits(t, r, needle, lo, hi - 1) + if Hit(t, r, needle, hi - 1) then [hi - 1] else []
  }

  /** The simple search: every address of every region. */
  function AllHits(t: Target, regions: seq<Region>, needle: seq<byte>): (s: seq<nat>)
  {
    if regions == [] then []
    else
      var init, last := regions[..|regions| - 1], regions[|regions| - 1];
      AllHits(t, init, needle) + Hits(t, last, needle, last.lo, last.hi)
  }

  /** Some chunk that starts before `to` can be read; `minimum` is the least number of bytes that counts. */
  ghost predicate SomeChunk(t: Target, r: Region, to: nat, minimum: nat)
    requires to <= r.hi
  {
    exists x :: r.lo <= x < to && ChunkStart(r, x) == x && ChunkLength(r, x) >= minimum
                && t.readable(x, ChunkLength(r, x))
  }

  ghost predicate SomeChunks(t: Target, regions: seq<Region>, minimum: nat)
  {
    exists i :: 0 <= i < |regions| && SomeChunk(t, regions[i], regions[i].hi, minimum)
  }

  predicate Increasing(s: seq<nat>)
  {
    forall i, j :: 0 <= i < j < |s| ==> s[i] < s[j]
  }

  lemma {:induction false} HitsFacts(t: Target, r: Region, needle: seq<byte>, lo: nat, hi: nat)
    ensures Increasing(Hits(t, r, needle, lo, hi))
    ensures forall a :: a in Hits(t, r, needle, lo, hi) <==> lo <= a < hi && Hit(t, r, needle, a)
    decreases hi
  {
    hide Hit;
    if lo < hi {
      HitsFacts(t, r, needle, lo, hi - 1);
      var init := Hits(t, r, needle, lo, hi - 1);
      assert forall i :: 0 <= i < |init| ==> init[i] in init;
    }
  }

  lemma {:induction false} HitsSplit(t: Target, r: Region, needle: seq<byte>, lo: nat, mid: nat, hi: nat)
    requires lo <= mid <= hi
    ensures Hits(t, r, needle, lo, hi) == Hits(t, r, needle, lo, mid) + Hits(t, r, needle, mid, hi)
    decreases hi
  {
    hide Hit;
    if mid < hi {
      HitsSplit(t, r, needle, lo, mid, hi - 1);
    }
  }

  lemma {:induction false} NoHits(t: Target, r: Region, needle: seq<byte>, lo: nat, hi: nat)
    requires forall a :: lo <= a < hi ==> !Hit(t, r, needle, a)
    ensures Hits(t, r, needle, lo, hi) == []
    decreases hi
  {
    hide Hit;
    if lo < hi {
      NoHits(t, r, needle, lo, hi - 1);
    }
  }

  // ---------------------------------------------------------------- the window search in one buffer

  predicate StandsAt(haystack: seq<byte>, needle: seq<byte>, o: nat)
  {
    o + |needle| <= |haystack| && haystack[o..o + |needle|] == needle
  }

  /** The offsets below `k` where the needle stands. */
  function Offsets(haystack: seq<byte>, needle: seq<byte>, k: nat): (s: seq<nat>)
  {
    if k == 0 then [] else Offsets(haystack, needle, k - 1) + if StandsAt(haystack, needle, k - 1) then [k - 1] else []
  }

  function FindAllSubslices(haystack: seq<byte>, needle: seq<byte>): (s: seq<nat>)
  {
    if needle == [] || |needle| > |haystack| then [] else Offsets(haystack, needle, |haystack| - |needle| + 1)
  }

  function Shifted(s: seq<nat>, d: nat): (r: seq<nat>)
  {
    seq(|s|, i requires 0 <= i < |s| => s[i] + d)
  }

  /** Where a buffer shows the hits of a stretch of memory, its offsets are those hits. */
  lemma {:induction false} OffsetsAreHits(t: Target, r: Region, needle: seq<byte>, haystack: seq<byte>, base: nat, k: nat)
    requires forall o :: 0 <= o < k ==> (StandsAt(haystack, needle, o) <==> Hit(t, r, needle, base + o))
    ensures Shifted(Offsets(haystack, needle, k), base) == Hits(t, r, needle, base, base + k)
  {
    hide Hit, StandsAt;
    if k > 0 {
      OffsetsAreHits(t, r, needle, haystack, base, k - 1);
      var init := Offsets(haystack, needle, k - 1);
      if StandsAt(haystack, needle, k - 1) {
        assert Shifted(init + [k - 1], base) == Shifted(init, base) + [base + k - 1];
      }
    }
  }

  // ---------------------------------------------------------------- chunks

  /** A chunk starts at `address`. */
  ghost predicate AtChunk(r: Region, address: nat)
  {
    r.lo <= address < r.hi && (address - r.lo) % SCAN_CHUNK_SIZE == 0
  }

  lemma ChunkOf(r: Region, address: nat, x: nat)
    requires AtChunk(r, address) && address <= x
    requires x < address + SCAN_CHUNK_SIZE
    ensures ChunkStart(r, x) == address
  {
  }

  function Bytes(t: Target, from: nat, to: nat): (s: seq<byte>)
    requires from <= to
    ensures |s| == to - from
  {
    seq(to - from, i requires 0 <= i < to - from => t.memory(from + i))
  }

  /** Every address of the stretch is readable. */
  ghost predicate AllReadable(t: Target, r: Region, from: nat, to: nat)
  {
    r.lo <= from && to <= r.hi && forall x :: from <= x < to ==> ReadableAt(t, r, x)
  }

  /** In a readable stretch the needle stands in the bytes exactly where it is a hit. */
  lemma StandsIsHit(t: Target, r: Region, needle: seq<byte>, from: nat, to: nat, o: nat)
    requires from <= to && AllReadable(t, r, from, to) && o + |needle| <= to - from
    ensures StandsAt(Bytes(t, from, to), needle, o) <==> Hit(t, r, needle, from + o)
  {
    hide ReadableAt;
    var s := Bytes(t, from, to);
    if StandsAt(s, needle, o) {
      forall j | 0 <= j < |needle|
        ensures t.memory(from + o + j) == needle[j] && ReadableAt(t, r, from + o + j)
      {
        assert s[o..o + |needle|][j] == s[o + j] == t.memory(from + (o + j));
      }
    }
    if Hit(t, r, needle, from + o) {
      assert forall j :: 0 <= j < |needle| ==> s[o + j] == t.memory(from + (o + j)) == t.memory((from + o) + j) == needle[j];
    }
  }

  // ---------------------------------------------------------------- the chunked search

  /** Where the search stands in a region: `overlap` is the readable end before `address`. */
  ghost predicate Overlapping(t: Target, r: Region, needle: seq<byte>, address: nat, overlap: seq<byte>)
  {
    && r.lo <= address <= r.hi
    && |overlap| <= |needle| - 1 && |overlap| <= address - r.lo
    && overlap == Bytes(t, address - |overlap|, address)
    && AllReadable(t, r, address - |overlap|, address)
    && (|overlap| < |needle| - 1 && r.lo < address - |overlap| ==> !ReadableAt(t, r, address - |overlap| - 1))
  }

  function EndOf(address: nat, r: Region, n: nat): (a: nat)
    requires r.lo <= address
  {
    if address < r.lo + n then r.lo else address - n + 1
  }

  lemma HitIsReadable(t: Target, r: Region, needle: seq<byte>, a: nat, j: nat)
    requires Hit(t, r, needle, a) && j < |needle|
    ensures ReadableAt(t, r, a + j)
  {
    hide ReadableAt;
    assert t.memory(a + j) == needle[j];
  }

  lemma NotAHit(t: Target, r: Region, needle: seq<byte>, a: nat, j: nat)
    requires j < |needle| && r.lo <= a + j < r.hi && !ReadableAt(t, r, a + j)
    ensures !Hit(t, r, needle, a)
  {
    hide ReadableAt;
    if Hit(t, r, needle, a) {
      HitIsReadable(t, r, needle, a, j);
    }
  }

  /** A hit that ends after `address` cannot start before the carried bytes. */
  lemma NoHitBefore(t: Target, r: Region, needle: seq<byte>, address: nat, overlap: seq<byte>, a: nat)
    requires needle != [] && Overlapping(t, r, needle, address, overlap)
    requires EndOf(address, r, |needle|) <= a < address - |overlap|
    ensures !Hit(t, r, needle, a)
  {
    hide Bytes, AllReadable;
    var base := address - |overlap|;
    NotAHit(t, r, needle, a, base - 1 - a);
  }

  /** All addresses of a chunk are readable, or none. */
  lemma ChunkIsReadable(t: Target, r: Region, address: nat)
    requires AtChunk(r, address)
    ensures forall x :: address <= x < address + ChunkLength(r, address) ==>
              (ReadableAt(t, r, x) <==> t.readable(address, ChunkLength(r, address)))
  {
    forall x | address <= x < address + ChunkLength(r, address)
      ensures ReadableAt(t, r, x) <==> t.readable(address, ChunkLength(r, address))
    {
      ChunkOf(r, address, x);
    }
  }

  lemma BytesAppend(t: Target, a: nat, b: nat, c: nat)
    requires a <= b <= c
    ensures Bytes(t, a, b) + Bytes(t, b, c) == Bytes(t, a, c)
    ensures Bytes(t, a, c)[b - a..] == Bytes(t, b, c)
  {
  }

  /** After a readable chunk the carried and the read bytes are one readable stretch. */
  lemma Combined(t: Target, r: Region, needle: seq<byte>, address: nat, overlap: seq<byte>, next: nat)
    requires Overlapping(t, r, needle, address, overlap)
    requires AtChunk(r, address) && next == address + ChunkLength(r, address)
    requires t.readable(address, ChunkLength(r, address))
    ensures overlap + Bytes(t, address, next) == Bytes(t, address - |overlap|, next)
    ensures AllReadable(t, r, address - |overlap|, next)
  {
    ChunkIsReadable(t, r, address);
    hide ReadableAt, Bytes, AtChunk;
    BytesAppend(t, address - |overlap|, address, next);
  }

  /** The last bytes of a readable stretch are what the next chunk needs. */
  lemma NextOverlap(t: Target, r: Region, needle: seq<byte>, address: nat, overlap: seq<byte>, next: nat)
    requires needle != [] && Overlapping(t, r, needle, address, overlap)
    requires address < next <= r.hi && AllReadable(t, r, address - |overlap|, next)
    ensures var combined := Bytes(t, address - |overlap|, next);
            Overlapping(t, r, needle, next, combined[|combined| - Min(|needle| - 1, |combined|)..])
  {
    hide ReadableAt, Bytes;
    var base := address - |overlap|;
    var keep := Min(|needle| - 1, next - base);
    BytesAppend(t, base, next - keep, next);
    assert keep < |needle| - 1 ==> next - keep == base && |overlap| < |needle| - 1;
    assert AllReadable(t, r, next - keep, next);
  }

  lemma OffsetsInStretch(t: Target, r: Region, needle: seq<byte>, base: nat, next: nat)
    requires needle != [] && base <= next && AllReadable(t, r, base, next) && |needle| <= next - base
    ensures Shifted(FindAllSubslices(Bytes(t, base, next), needle), base)
            == Hits(t, r, needle, base, next - |needle| + 1)
  {
    hide Hit, Bytes, StandsAt, Offsets, Hits, Shifted, AllReadable;
    var k := next - base - |needle| + 1;
    forall o | 0 <= o < k
      ensures StandsAt(Bytes(t, base, next), needle, o) <==> Hit(t, r, needle, base + o)
    {
      StandsIsHit(t, r, needle, base, next, o);
    }
    OffsetsAreHits(t, r, needle, Bytes(t, base, next), base, k);
  }

  lemma NothingEarlier(t: Target, r: Region, needle: seq<byte>, address: nat, overlap: seq<byte>, to: nat)
    requires needle != [] && Overlapping(t, r, needle, address, overlap) && to <= address - |overlap|
    ensures Hits(t, r, needle, EndOf(address, r, |needle|), to) == []
  {
    assert r.lo <= address;
    hide Hit, Hits, Overlapping;
    forall a | EndOf(address, r, |needle|) <= a < to
      ensures !Hit(t, r, needle, a)
    {
      NoHitBefore(t, r, needle, address, overlap, a);
    }
    NoHits(t, r, needle, EndOf(address, r, |needle|), to);
  }

  lemma EndOfFacts(r: Region, address: nat, next: nat, n: nat, base: nat)
    requires n > 0 && r.lo <= base <= address < next && address - base < n
    ensures EndOf(address, r, n) <= base
    ensures next - base < n ==> EndOf(next, r, n) <= base
    ensures next - base >= n ==> EndOf(next, r, n) == next - n + 1 > base
  {
  }

  /** The matches of a readable chunk are the hits that end in it. */
  lemma NewHits(t: Target, r: Region, needle: seq<byte>, address: nat, overlap: seq<byte>, next: nat)
    requires needle != [] && Overlapping(t, r, needle, address, overlap)
    requires address < next <= r.hi && AllReadable(t, r, address - |overlap|, next)
    ensures Shifted(FindAllSubslices(Bytes(t, address - |overlap|, next), needle), address - |overlap|)
            == Hits(t, r, needle, EndOf(address, r, |needle|), EndOf(next, r, |needle|))
  {
    var n, base := |needle|, address - |overlap|;
    assert |overlap| <= n - 1 && r.lo <= base;
    EndOfFacts(r, address, next, n, base);
    hide Hit, Hits, Bytes, AllReadable, Overlapping, Offsets, EndOf;
    var from, to := EndOf(address, r, n), EndOf(next, r, n);
    if n > next - base {
      NothingEarlier(t, r, needle, address, overlap, to);
      assert FindAllSubslices(Bytes(t, base, next), needle) == [];
    } else {
      OffsetsInStretch(t, r, needle, base, next);
      NothingEarlier(t, r, needle, address, overlap, base);
      HitsSplit(t, r, needle, from, base, to);
      assert [] + Hits(t, r, needle, base, to) == Hits(t, r, needle, base, to);
    }
  }

  /** A chunk that cannot be read ends no hit. */
  lemma UnreadableChunk(t: Target, r: Region, needle: seq<byte>, address: nat, next: nat)
    requires needle != [] && AtChunk(r, address) && next == address + ChunkLength(r, address)
    requires !t.readable(address, ChunkLength(r, address))
    ensures Hits(t, r, needle, EndOf(address, r, |needle|), EndOf(next, r, |needle|)) == []
    ensures Overlapping(t, r, needle, next, [])
  {
    ChunkIsReadable(t, r, address);
    assert Bytes(t, next, next) == [];
    hide ReadableAt, AtChunk, Hits, Bytes;
    var from, to := EndOf(address, r, |needle|), EndOf(next, r, |needle|);
    forall a | from <= a < to
      ensures !Hit(t, r, needle, a)
    {
      var j := |needle| - 1;
      assert address <= a + j < next;
      NotAHit(t, r, needle, a, j);
    }
    NoHits(t, r, needle, from, to);
  }

  /** A chunk boundary leads to the next, or to the end of the region. */
  lemma NextChunk(r: Region, address: nat)
    requires AtChunk(r, address)
    ensures var next := address + ChunkLength(r, address);
            address < next <= r.hi && (next < r.hi ==> AtChunk(r, next)) && ChunkStart(r, address) == address
  {
    ChunkOf(r, address, address);
  }

  /** The matches pushed one by one, until there are too many. */
  method PushAll(matches: seq<nat>, offsets: seq<nat>, base: nat) returns (r: Option<seq<nat>>)
    requires |matches| <= MAX_SCAN_CANDIDATES
    ensures r == if |matches| + |offsets| > MAX_SCAN_CANDIDATES then None else Some(matches + Shifted(offsets, base))
  {
    var pushed := matches;
    for i := 0 to |offsets|
      invariant pushed == matches + Shifted(offsets, base)[..i]
      invariant |pushed| <= MAX_SCAN_CANDIDATES
    {
      pushed := pushed + [base + offsets[i]];
      if |pushed| > MAX_SCAN_CANDIDATES {
        return None;
      }
    }
    assert Shifted(offsets, base)[..|offsets|] == Shifted(offsets, base);
    return Some(pushed);
  }

  lemma SomeChunkStep(t: Target, r: Region, address: nat, minimum: nat)
    requires AtChunk(r, address)
    ensures var next := address + ChunkLength(r, address);
            SomeChunk(t, r, next, minimum) <==>
              SomeChunk(t, r, address, minimum)
              || (t.readable(address, ChunkLength(r, address)) && ChunkLength(r, address) >= minimum)
  {
    var next := address + ChunkLength(r, address);
    NextChunk(r, address);
    if SomeChunk(t, r, next, minimum) {
      var x :| r.lo <= x < next && ChunkStart(r, x) == x && ChunkLength(r, x) >= minimum
               && t.readable(x, ChunkLength(r, x));
      if x > address {
        ChunkOf(r, address, x);
      }
    }
  }

  /** One read of the byte search. */
  method SearchChunk(t: Target, r: Region, needle: seq<byte>, address: nat, overlap: seq<byte>, matches: seq<nat>)
    returns (found: Option<seq<nat>>, overlap': seq<byte>)
    requires needle != [] && |matches| <= MAX_SCAN_CANDIDATES
    requires AtChunk(r, address) && Overlapping(t, r, needle, address, overlap)
    ensures var next := address + ChunkLength(r, address);
            var hits := Hits(t, r, needle, EndOf(address, r, |needle|), EndOf(next, r, |needle|));
            && found == (if |matches| + |hits| > MAX_SCAN_CANDIDATES then None else Some(matches + hits))
            && (found.Some? ==> Overlapping(t, r, needle, next, overlap'))
  {
    hide Hit, Hits, Bytes, Overlapping, AllReadable, ReadableAt, AtChunk, FindAllSubslices;
    NextChunk(r, address);
    var requested := ChunkLength(r, address);
    if t.readable(address, requested) {
      var buffer := Bytes(t, address, address + requested);
      var combined := overlap + buffer;
      ghost var next := address + requested;
      CarriedFits(t, r, needle, address, overlap);
      Combined(t, r, needle, address, overlap, next);
      NewHits(t, r, needle, address, overlap, next);
      NextOverlap(t, r, needle, address, overlap, next);
      found := PushAll(matches, FindAllSubslices(combined, needle), address - |overlap|);
      var keep := Min(|needle| - 1, |combined|);
      overlap' := combined[|combined| - keep..];
    } else {
      UnreadableChunk(t, r, needle, address, address + requested);
      assert matches + [] == matches;
      found := Some(matches);
      overlap' := [];
    }
  }

  lemma CarriedFits(t: Target, r: Region, needle: seq<byte>, address: nat, overlap: seq<byte>)
    requires Overlapping(t, r, needle, address, overlap)
    ensures |overlap| <= address
  {
  }

  lemma SearchStart(t: Target, r: Region, needle: seq<byte>)
    requires needle != []
    ensures Overlapping(t, r, needle, r.lo, []) && AtChunk(r, r.lo)
    ensures Hits(t, r, needle, r.lo, EndOf(r.lo, r, |needle|)) == []
  {
    assert Bytes(t, r.lo, r.lo) == [];
  }

  lemma SearchEnd(t: Target, r: Region, needle: seq<byte>)
    requires needle != []
    ensures Hits(t, r, needle, r.lo, EndOf(r.hi, r, |needle|)) == Hits(t, r, needle, r.lo, r.hi)
  {
    var end := EndOf(r.hi, r, |needle|);
    HitsSplit(t, r, needle, r.lo, end, r.hi);
    NoHits(t, r, needle, end, r.hi);
    hide Hits;
    assert Hits(t, r, needle, r.lo, end) + [] == Hits(t, r, needle, r.lo, end);
  }

  lemma EndOfGrows(r: Region, address: nat, next: nat, n: nat)
    requires r.lo <= address <= next <= r.hi && n > 0
    ensures r.lo <= EndOf(address, r, n) <= EndOf(next, r, n) <= r.hi
  {
  }

  /** The inner loop of the byte search: one region, chunk by chunk. */
  method SearchRegion(t: Target, r: Region, needle: seq<byte>, matches: seq<nat>)
    returns (found: Option<seq<nat>>, success: bool)
    requires needle != [] && |matches| <= MAX_SCAN_CANDIDATES
    ensures var hits := Hits(t, r, needle, r.lo, r.hi);
            found == if |matches| + |hits| > MAX_SCAN_CANDIDATES then None else Some(matches + hits)
    ensures found.Some? ==> (success <==> SomeChunk(t, r, r.hi, 1))
  {
    hide Hit, Hits, Overlapping, AtChunk, EndOf, ChunkLength, SomeChunk;
    var n := |needle|;
    var overlap: seq<byte> := [];
    var address := r.lo;
    var pushed := matches;
    success := false;
    SearchStart(t, r, needle);
    NoChunkYet(t, r);
    SearchEnd(t, r, needle);
    while address < r.hi
      invariant r.lo <= address <= r.hi && (address < r.hi ==> AtChunk(r, address))
      invariant Overlapping(t, r, needle, address, overlap)
      invariant |pushed| <= MAX_SCAN_CANDIDATES
      invariant pushed == matches + Hits(t, r, needle, r.lo, EndOf(address, r, n))
      invariant success <==> SomeChunk(t, r, address, 1)
      decreases r.hi - address
    {
      var requested := ChunkLength(r, address);
      ghost var next := address + requested;
      NextChunk(r, address);
      SomeChunkStep(t, r, address, 1);
      EndOfGrows(r, address, next, n);
      EndOfGrows(r, next, r.hi, n);
      HitsSplit(t, r, needle, r.lo, EndOf(address, r, n), EndOf(next, r, n));
      HitsSplit(t, r, needle, r.lo, EndOf(next, r, n), EndOf(r.hi, r, n));
      var more;
      more, overlap := SearchChunk(t, r, needle, address, overlap, pushed);
      if more.None? {
        return None, success;
      }
      success := success || t.readable(address, requested);
      Assoc(matches, Hits(t, r, needle, r.lo, EndOf(address, r, n)),
            Hits(t, r, needle, EndOf(address, r, n), EndOf(next, r, n)));
      pushed := more.value;
      address := address + requested;
    }
    return Some(pushed), success;
  }

  lemma NoChunkYet(t: Target, r: Region)
    ensures !SomeChunk(t, r, r.lo, 1) && !SomeChunk(t, r, r.lo, 4)
  {
  }

  // ---------------------------------------------------------------- the whole byte search

  function Insert(s: seq<nat>, x: nat): (r: seq<nat>)
    ensures forall y :: y in r <==> y in s || y == x
  {
    if s == [] || x < s[0] then [x] + s
    else if x == s[0] then s
    else [s[0]] + Insert(s[1..], x)
  }

  /** Sorted without repetitions. */
  function SortDedup(s: seq<nat>): (r: seq<nat>)
    ensures forall y :: y in r <==> y in s
  {
    if s == [] then []
    else
      assert s == s[..|s| - 1] + [s[|s| - 1]];
      Insert(SortDedup(s[..|s| - 1]), s[|s| - 1])
  }

  lemma {:induction false} InsertIncreasing(s: seq<nat>, x: nat)
    requires Increasing(s)
    ensures Increasing(Insert(s, x))
  {
    if s != [] && x > s[0] {
      InsertIncreasing(s[1..], x);
      var rest := Insert(s[1..], x);
      assert forall i :: 0 <= i < |rest| ==> rest[i] in rest;
      assert forall y :: y in s[1..] ==> y > s[0];
    }
  }

  lemma {:induction false} SortDedupIncreasing(s: seq<nat>)
    ensures Increasing(SortDedup(s))
  {
    if s != [] {
      SortDedupIncreasing(s[..|s| - 1]);
      InsertIncreasing(SortDedup(s[..|s| - 1]), s[|s| - 1]);
    }
  }

  lemma {:induction false} InsertLast(s: seq<nat>, x: nat)
    requires Increasing(s) && (s != [] ==> s[|s| - 1] < x)
    ensures Insert(s, x) == s + [x]
  {
    if s != [] {
      assert s[0] < x;
      InsertLast(s[1..], x);
    }
  }

  lemma {:induction false} SortDedupSorted(s: seq<nat>)
    requires Increasing(s)
    ensures SortDedup(s) == s
  {
    if s != [] {
      var init := s[..|s| - 1];
      SortDedupSorted(init);
      InsertLast(init, s[|s| - 1]);
    }
  }

  lemma AllHitsSnoc(t: Target, regions: seq<Region>, needle: seq<byte>, n: nat)
    requires n < |regions|
    ensures AllHits(t, regions[..n + 1], needle)
            == AllHits(t, regions[..n], needle) + Hits(t, regions[n], needle, regions[n].lo, regions[n].hi)
  {
    assert regions[..n + 1][..n] == regions[..n];
  }

  lemma {:induction false} AllHitsGrow(t: Target, regions: seq<Region>, needle: seq<byte>, n: nat)
    requires n <= |regions|
    ensures |AllHits(t, regions[..n], needle)| <= |AllHits(t, regions, needle)|
    decreases |regions| - n
  {
    if n == |regions| {
      assert regions[..n] == regions;
    } else {
      AllHitsSnoc(t, regions, needle, n);
      AllHitsGrow(t, regions, needle, n + 1);
    }
  }

  /** What the byte search answers, said by the simple search. */
  ghost function SearchAnswer(t: Target, regions: seq<Region>, needle: seq<byte>): (r: Result<seq<nat>, ScanError>)
  {
    if needle == [] then Err(EmptyNeedle)
    else if regions == [] then Err(NoRegions)
    else if |AllHits(t, regions, needle)| > MAX_SCAN_CANDIDATES then Err(TooManyMatches)
    else if !SomeChunks(t, regions, 1) then Err(NothingReadable)
    else Ok(SortDedup(AllHits(t, regions, needle)))
  }

  method FindAllWritableBytes(t: Target, regions: seq<Region>, needle: seq<byte>) returns (r: Result<seq<nat>, ScanError>)
    ensures r == SearchAnswer(t, regions, needle)
  {
    hide Hits, AllHits, SomeChunk, SortDedup;
    if needle == [] {
      return Err(EmptyNeedle);
    }
    if regions == [] {
      return Err(NoRegions);
    }
    var matches: seq<nat> := [];
    var successful := false;
    NothingFound(t, regions, needle);
    for n := 0 to |regions|
      invariant matches == AllHits(t, regions[..n], needle) && |matches| <= MAX_SCAN_CANDIDATES
      invariant successful <==> exists i :: 0 <= i < n && SomeChunk(t, regions[i], regions[i].hi, 1)
    {
      AllHitsSnoc(t, regions, needle, n);
      AllHitsGrow(t, regions, needle, n + 1);
      var found, success := SearchRegion(t, regions[n], needle, matches);
      if found.None? {
        return Err(TooManyMatches);
      }
      matches := found.value;
      successful := successful || success;
    }
    assert regions[..|regions|] == regions;
    if !successful {
      return Err(NothingReadable);
    }
    return Ok(SortDedup(matches));
  }

  lemma NothingFound(t: Target, regions: seq<Region>, needle: seq<byte>)
    ensures AllHits(t, regions[..0], needle) == [] && AllWords(t, regions[..0], needle) == []
  {
  }

  /** The simple search finds exactly the addresses where the needle stands in some region. */
  lemma {:induction false} AllHitsMembers(t: Target, regions: seq<Region>, needle: seq<byte>)
    requires needle != []
    ensures forall a :: a in AllHits(t, regions, needle) <==>
                        exists i :: 0 <= i < |regions| && Hit(t, regions[i], needle, a)
  {
    if regions != [] {
      var init, last := regions[..|regions| - 1], regions[|regions| - 1];
      AllHitsMembers(t, init, needle);
      HitsFacts(t, last, needle, last.lo, last.hi);
      assert forall a: nat :: Hit(t, last, needle, a) ==> last.lo <= a < last.hi;
      hide Hit, Hits, AllHits;
      var front, back := AllHits(t, init, needle), Hits(t, last, needle, last.lo, last.hi);
      forall a
        ensures a in front + back <==> exists i :: 0 <= i < |regions| && Hit(t, regions[i], needle, a)
      {
        if a in front {
          var i :| 0 <= i < |init| && Hit(t, init[i], needle, a);
          assert Hit(t, regions[i], needle, a);
        } else if a in back {
          assert Hit(t, regions[|regions| - 1], needle, a);
        }
        if i :| 0 <= i < |regions| && Hit(t, regions[i], needle, a) {
          assert i < |init| ==> Hit(t, init[i], needle, a);
        }
      }
      AllHitsSplit(t, regions, needle);
    }
  }

  lemma AllHitsSplit(t: Target, regions: seq<Region>, needle: seq<byte>)
    requires regions != []
    ensures var init, last := regions[..|regions| - 1], regions[|regions| - 1];
            AllHits(t, regions, needle) == AllHits(t, init, needle) + Hits(t, last, needle, last.lo, last.hi)
  {
  }

  /** The answer of the byte search: strictly increasing, and every place where the needle stands. */
  lemma SearchIsExact(t: Target, regions: seq<Region>, needle: seq<byte>)
    requires SearchAnswer(t, regions, needle).Ok?
    ensures var found := SearchAnswer(t, regions, needle).value;
            && Increasing(found)
            && forall a :: a in found <==> exists i :: 0 <= i < |regions| && Hit(t, regions[i], needle, a)
  {
    SortDedupIncreasing(AllHits(t, regions, needle));
    AllHitsMembers(t, regions, needle);
  }

  // ---------------------------------------------------------------- the word scan

  /** An aligned word inside one readable chunk. */
  predicate WordHit(t: Target, r: Region, needle: seq<byte>, a: nat)
  {
    && a % 4 == 0 && r.lo <= a < r.hi && |needle| == 4
    && a + 4 <= ChunkStart(r, a) + ChunkLength(r, ChunkStart(r, a))
    && ReadableAt(t, r, a)
    && Bytes(t, a, a + 4) == needle
  }

  function Words(t: Target, r: Region, needle: seq<byte>, lo: nat, hi: nat): (s: seq<nat>)
  {
    if hi <= lo then [] else Words(t, r, needle, lo, hi - 1) + if WordHit(t, r, needle, hi - 1) then [hi - 1] else []
  }

  function AllWords(t: Target, regions: seq<Region>, needle: seq<byte>): (s: seq<nat>)
  {
    if regions == [] then []
    else
      var init, last := regions[..|regions| - 1], regions[|regions| - 1];
      AllWords(t, init, needle) + Words(t, last, needle, last.lo, last.hi)
  }

  lemma {:induction false} WordsSplit(t: Target, r: Region, needle: seq<byte>, lo: nat, mid: nat, hi: nat)
    requires lo <= mid <= hi
    ensures Words(t, r, needle, lo, hi) == Words(t, r, needle, lo, mid) + Words(t, r, needle, mid, hi)
    decreases hi
  {
    hide WordHit;
    if mid < hi {
      WordsSplit(t, r, needle, lo, mid, hi - 1);
    }
  }

  predicate AlignedAt(start: nat, bytes: seq<byte>, needle: seq<byte>, o: nat)
  {
    (start + o) % 4 == 0 && StandsAt(bytes, needle, o)
  }

  /** The offsets below `k` where the needle stands at an aligned address. */
  function AlignedOffsets(start: nat, bytes: seq<byte>, needle: seq<byte>, k: nat): (s: seq<nat>)
  {
    if k == 0 then []
    else AlignedOffsets(start, bytes, needle, k - 1) + if AlignedAt(start, bytes, needle, k - 1) then [k - 1] else []
  }

  lemma {:induction false} NothingAligned(start: nat, bytes: seq<byte>, needle: seq<byte>, k: nat, k': nat)
    requires k <= k' && forall o :: k <= o < k' ==> !AlignedAt(start, bytes, needle, o)
    ensures AlignedOffsets(start, bytes, needle, k') == AlignedOffsets(start, bytes, needle, k)
  {
    hide AlignedAt;
    if k < k' {
      NothingAligned(start, bytes, needle, k, k' - 1);
    }
  }

  lemma {:induction false} AlignedAreWords(t: Target, r: Region, needle: seq<byte>, bytes: seq<byte>, base: nat, k: nat)
    requires forall o :: 0 <= o < k ==> (AlignedAt(base, bytes, needle, o) <==> WordHit(t, r, needle, base + o))
    ensures Shifted(AlignedOffsets(base, bytes, needle, k), base) == Words(t, r, needle, base, base + k)
  {
    hide WordHit, AlignedAt;
    if k > 0 {
      AlignedAreWords(t, r, needle, bytes, base, k - 1);
      var init := AlignedOffsets(base, bytes, needle, k - 1);
      if AlignedAt(base, bytes, needle, k - 1) {
        assert Shifted(init + [k - 1], base) == Shifted(init, base) + [base + k - 1];
      }
    }
  }

  lemma ShiftedSnoc(s: seq<nat>, x: nat, d: nat)
    ensures Shifted(s + [x], d) == Shifted(s, d) + [d + x]
  {
  }

  /** How far the next aligned address is. */
  function AlignmentOf(start: nat): (n: nat)
    ensures n < 4
  {
    (4 - start % 4) % 4
  }

  lemma AlignmentAligns(start: nat)
    ensures (start + AlignmentOf(start)) % 4 == 0
  {
  }

  lemma NotYetAligned(start: nat, bytes: seq<byte>, needle: seq<byte>, o: nat)
    requires o < AlignmentOf(start)
    ensures !AlignedAt(start, bytes, needle, o)
  {
    hide StandsAt;
    assert (start + o) % 4 != 0;
  }

  lemma NothingBelowAlignment(start: nat, bytes: seq<byte>, needle: seq<byte>, k: nat)
    requires k <= AlignmentOf(start)
    ensures Shifted(AlignedOffsets(start, bytes, needle, k), start) == []
  {
    hide AlignedAt, AlignmentOf;
    forall o | 0 <= o < k
      ensures !AlignedAt(start, bytes, needle, o)
    {
      NotYetAligned(start, bytes, needle, o);
    }
    NothingAligned(start, bytes, needle, 0, k);
  }

  lemma BeforeAlignment(start: nat, bytes: seq<byte>, needle: seq<byte>)
    requires |needle| == 4
    ensures Shifted(AlignedOffsets(start, bytes, needle, AlignmentOf(start)), start) == []
    ensures |bytes| < AlignmentOf(start) + 4 ==> Shifted(AlignedOffsets(start, bytes, needle, |bytes|), start) == []
  {
    hide *;
    NothingBelowAlignment(start, bytes, needle, AlignmentOf(start));
    if |bytes| <= AlignmentOf(start) {
      NothingBelowAlignment(start, bytes, needle, |bytes|);
    } else if |bytes| < AlignmentOf(start) + 4 {
      TooShort(start, bytes, needle, AlignmentOf(start));
    }
  }

  /** The aligned words of one chunk, in steps of four. */
  method ScanAlignedChunk(start: nat, bytes: seq<byte>, needle: seq<byte>, output: seq<nat>) returns (out: seq<nat>)
    requires |needle| == 4
    ensures out == output + Shifted(AlignedOffsets(start, bytes, needle, |bytes|), start)
  {
    hide AlignedOffsets, StandsAt, Shifted, AlignmentOf;
    out := output;
    var alignment := AlignmentOf(start);
    AlignmentAligns(start);
    BeforeAlignment(start, bytes, needle);
    if |bytes| < alignment + 4 {
      return;
    }
    var offset := alignment;
    while offset + 4 <= |bytes|
      invariant offset <= |bytes| && (start + offset) % 4 == 0
      invariant out == output + Shifted(AlignedOffsets(start, bytes, needle, offset), start)
      decreases |bytes| - offset
    {
      AlignedStep(start, bytes, needle, offset);
      ShiftedSnoc(AlignedOffsets(start, bytes, needle, offset), offset, start);
      if bytes[offset..offset + 4] == needle {
        Assoc(output, Shifted(AlignedOffsets(start, bytes, needle, offset), start), [start + offset]);
        out := out + [start + offset];
      }
      offset := offset + 4;
    }
    TooShort(start, bytes, needle, offset);
  }

  lemma AlignedStep(start: nat, bytes: seq<byte>, needle: seq<byte>, k: nat)
    requires |needle| == 4 && k + 4 <= |bytes| && (start + k) % 4 == 0
    ensures var before := AlignedOffsets(start, bytes, needle, k);
            AlignedOffsets(start, bytes, needle, k + 4) == if bytes[k..k + 4] == needle then before + [k] else before
  {
    NothingAligned(start, bytes, needle, k + 1, k + 4);
  }

  lemma TooShort(start: nat, bytes: seq<byte>, needle: seq<byte>, k: nat)
    requires |needle| == 4 && k <= |bytes| < k + 4
    ensures AlignedOffsets(start, bytes, needle, |bytes|) == AlignedOffsets(start, bytes, needle, k)
  {
    NothingAligned(start, bytes, needle, k, |bytes|);
  }

  /** In a readable chunk the aligned places of the needle are the word hits. */
  lemma AlignedIsWord(t: Target, r: Region, needle: seq<byte>, address: nat, next: nat, o: nat)
    requires AtChunk(r, address) && next == address + ChunkLength(r, address) && |needle| == 4
    requires t.readable(address, ChunkLength(r, address)) && address + o < next
    ensures AlignedAt(address, Bytes(t, address, next), needle, o) <==> WordHit(t, r, needle, address + o)
  {
    ChunkOf(r, address, address + o);
    var s := Bytes(t, address, next);
    if o + 4 <= |s| {
      assert s[o..o + 4] == Bytes(t, address + o, address + o + 4);
    }
  }

  lemma ChunkWords(t: Target, r: Region, needle: seq<byte>, address: nat, next: nat)
    requires AtChunk(r, address) && next == address + ChunkLength(r, address) && |needle| == 4
    ensures t.readable(address, ChunkLength(r, address)) ==>
              Shifted(AlignedOffsets(address, Bytes(t, address, next), needle, next - address), address)
              == Words(t, r, needle, address, next)
    ensures !t.readable(address, ChunkLength(r, address)) || next - address < 4 ==>
              Words(t, r, needle, address, next) == []
  {
    NextChunk(r, address);
    assert address < r.hi;
    hide WordHit, AlignedAt, Words, AlignedOffsets, Bytes, Shifted, AtChunk;
    if t.readable(address, ChunkLength(r, address)) {
      forall o | 0 <= o < next - address
        ensures AlignedAt(address, Bytes(t, address, next), needle, o) <==> WordHit(t, r, needle, address + o)
      {
        AlignedIsWord(t, r, needle, address, next, o);
      }
      AlignedAreWords(t, r, needle, Bytes(t, address, next), address, next - address);
    }
    if !t.readable(address, ChunkLength(r, address)) || next - address < 4 {
      forall a | address <= a < next
        ensures !WordHit(t, r, needle, a)
      {
        NotAWord(t, r, needle, address, next, a);
      }
      NoWords(t, r, needle, address, next);
    }
  }

  lemma NotAWord(t: Target, r: Region, needle: seq<byte>, address: nat, next: nat, a: nat)
    requires AtChunk(r, address) && next == address + ChunkLength(r, address) && address <= a < next
    requires !t.readable(address, ChunkLength(r, address)) || next - address < 4
    ensures !WordHit(t, r, needle, a)
  {
    ChunkOf(r, address, a);
  }

  lemma {:induction false} NoWords(t: Target, r: Region, needle: seq<byte>, lo: nat, hi: nat)
    requires forall a :: lo <= a < hi ==> !WordHit(t, r, needle, a)
    ensures Words(t, r, needle, lo, hi) == []
    decreases hi
  {
    hide WordHit;
    if lo < hi {
      NoWords(t, r, needle, lo, hi - 1);
    }
  }

  /** The inner loop of the word scan. */
  method ScanRegion(t: Target, r: Region, needle: seq<byte>, candidates: seq<nat>)
    returns (found: Option<seq<nat>>, success: bool)
    requires |needle| == 4 && |candidates| <= MAX_SCAN_CANDIDATES
    ensures var words := Words(t, r, needle, r.lo, r.hi);
            found == if |candidates| + |words| > MAX_SCAN_CANDIDATES then None else Some(candidates + words)
    ensures found.Some? ==> (success <==> SomeChunk(t, r, r.hi, 4))
  {
    hide WordHit, Words, AtChunk, Bytes, AlignedOffsets, Shifted, SomeChunk, ChunkLength;
    var address := r.lo;
    var pushed := candidates;
    success := false;
    NoChunkYet(t, r);
    ScanStart(t, r, needle);
    while address < r.hi
      invariant r.lo <= address <= r.hi && (address < r.hi ==> AtChunk(r, address))
      invariant |pushed| <= MAX_SCAN_CANDIDATES
      invariant pushed == candidates + Words(t, r, needle, r.lo, address)
      invariant success <==> SomeChunk(t, r, address, 4)
      decreases r.hi - address
    {
      var requested := ChunkLength(r, address);
      ghost var next := address + requested;
      NextChunk(r, address);
      SomeChunkStep(t, r, address, 4);
      ChunkWords(t, r, needle, address, next);
      WordsSplit(t, r, needle, r.lo, address, next);
      WordsSplit(t, r, needle, r.lo, next, r.hi);
      Assoc(candidates, Words(t, r, needle, r.lo, address), Words(t, r, needle, address, next));
      if t.readable(address, requested) && requested >= 4 {
        success := true;
        pushed := ScanAlignedChunk(address, Bytes(t, address, address + requested), needle, pushed);
        if |pushed| > MAX_SCAN_CANDIDATES {
          return None, success;
        }
      }
      address := address + requested;
    }
    return Some(pushed), success;
  }

  lemma ScanStart(t: Target, r: Region, needle: seq<byte>)
    ensures AtChunk(r, r.lo) && Words(t, r, needle, r.lo, r.lo) == []
  {
  }

  lemma AllWordsSnoc(t: Target, regions: seq<Region>, needle: seq<byte>, n: nat)
    requires n < |regions|
    ensures AllWords(t, regions[..n + 1], needle)
            == AllWords(t, regions[..n], needle) + Words(t, regions[n], needle, regions[n].lo, regions[n].hi)
  {
    assert regions[..n + 1][..n] == regions[..n];
  }

  lemma {:induction false} AllWordsGrow(t: Target, regions: seq<Region>, needle: seq<byte>, n: nat)
    requires n <= |regions|
    ensures |AllWords(t, regions[..n], needle)| <= |AllWords(t, regions, needle)|
    decreases |regions| - n
  {
    if n == |regions| {
      assert regions[..n] == regions;
    } else {
      AllWordsSnoc(t, regions, needle, n);
      AllWordsGrow(t, regions, needle, n + 1);
    }
  }

  /** The number that four bytes stand for, the low byte first. */
  function WordOf(b0: byte, b1: byte, b2: byte, b3: byte): (n: nat)
  {
    b0 as nat + 256 * b1 as nat + 65536 * b2 as nat + 16777216 * b3 as nat
  }

  function LittleEndian(value: nat): (s: seq<byte>)
    requires value < ADDRESS_SPACE_END
    ensures |s| == 4 && WordOf(s[0], s[1], s[2], s[3]) == value
  {
    var q1 := value / 256;
    var q2 := q1 / 256;
    var q3 := q2 / 256;
    assert value == value % 256 + 256 * (q1 % 256 + 256 * (q2 % 256 + 256 * q3));
    [(value % 256) as byte, (q1 % 256) as byte, (q2 % 256) as byte, q3 as byte]
  }

  /** What the word scan answers. */
  ghost function ScanAnswer(t: Target, regions: seq<Region>, value: nat): (r: Result<seq<nat>, ScanError>)
    requires value < ADDRESS_SPACE_END
  {
    var needle := LittleEndian(value);
    if regions == [] then Err(NoRegions)
    else if |AllWords(t, regions, needle)| > MAX_SCAN_CANDIDATES then Err(TooManyMatches)
    else if !SomeChunks(t, regions, 4) then Err(NothingReadable)
    else Ok(AllWords(t, regions, needle))
  }

  method ScanWritableU32(t: Target, regions: seq<Region>, value: nat) returns (r: Result<seq<nat>, ScanError>)
    requires value < ADDRESS_SPACE_END
    ensures r == ScanAnswer(t, regions, value)
  {
    hide Words, AllWords, SomeChunk, LittleEndian;
    if regions == [] {
      return Err(NoRegions);
    }
    var needle := LittleEndian(value);
    var candidates: seq<nat> := [];
    var successful := false;
    NothingFound(t, regions, needle);
    for n := 0 to |regions|
      invariant candidates == AllWords(t, regions[..n], needle) && |candidates| <= MAX_SCAN_CANDIDATES
      invariant successful <==> exists i :: 0 <= i < n && SomeChunk(t, regions[i], regions[i].hi, 4)
    {
      AllWordsSnoc(t, regions, needle, n);
      AllWordsGrow(t, regions, needle, n + 1);
      var found, success := ScanRegion(t, regions[n], needle, candidates);
      if found.None? {
        return Err(TooManyMatches);
      }
      candidates := found.value;
      successful := successful || success;
    }
    assert regions[..|regions|] == regions;
    if !successful {
      return Err(NothingReadable);
    }
    return Ok(candidates);
  }

  // ---------------------------------------------------------------- the two searches agree

  function Aligned(s: seq<nat>): (r: seq<nat>)
    ensures |r| <= |s|
  {
    if s == [] then [] else Aligned(s[..|s| - 1]) + if s[|s| - 1] % 4 == 0 then [s[|s| - 1]] else []
  }

  lemma {:induction false} AlignedAppend(a: seq<nat>, b: seq<nat>)
    ensures Aligned(a + b) == Aligned(a) + Aligned(b)
  {
    if b == [] {
      assert a + b == a;
    } else {
      AlignedAppend(a, b[..|b| - 1]);
      assert (a + b)[..|a + b| - 1] == a + b[..|b| - 1];
    }
  }

  ghost predicate WordAligned(r: Region)
  {
    r.lo % 4 == 0 && r.hi % 4 == 0
  }

  lemma ChunkStartIsChunk(r: Region, a: nat)
    requires r.lo <= a < r.hi
    ensures AtChunk(r, ChunkStart(r, a)) && a < ChunkStart(r, a) + SCAN_CHUNK_SIZE
  {
  }

  lemma ChunkIsWordAligned(r: Region, c: nat)
    requires WordAligned(r) && AtChunk(r, c)
    ensures c % 4 == 0 && (c + ChunkLength(r, c)) % 4 == 0
  {
    var q := (c - r.lo) / SCAN_CHUNK_SIZE;
    assert c == r.lo + 4 * (262144 * q);
    AddWords(r.lo, 262144 * q);
    AddWords(c, 262144);
    assert ChunkLength(r, c) == r.hi - c || ChunkLength(r, c) == 4 * 262144;
  }

  lemma AddWords(a: nat, n: nat)
    requires a % 4 == 0
    ensures (a + 4 * n) % 4 == 0
  {
  }

  lemma NextWord(a: nat, b: nat)
    requires a % 4 == 0 && b % 4 == 0 && a < b
    ensures a + 4 <= b
  {
  }

  /** In a word-aligned region an aligned word lies in one chunk. */
  lemma WordInOneChunk(r: Region, a: nat)
    requires WordAligned(r) && a % 4 == 0 && r.lo <= a < r.hi
    ensures var c := ChunkStart(r, a);
            a + 4 <= c + ChunkLength(r, c) <= r.hi && forall x :: a <= x < a + 4 ==> ChunkStart(r, x) == c
  {
    hide ChunkStart, WordAligned;
    var c := ChunkStart(r, a);
    ChunkStartIsChunk(r, a);
    ChunkIsWordAligned(r, c);
    assert a < c + ChunkLength(r, c) <= r.hi;
    NextWord(a, c + ChunkLength(r, c));
    hide AtChunk;
    forall x | a <= x < a + 4
      ensures ChunkStart(r, x) == c
    {
      ChunkOf(r, c, x);
    }
  }

  lemma WordIsHit(t: Target, r: Region, needle: seq<byte>, a: nat)
    requires WordAligned(r) && WordHit(t, r, needle, a)
    ensures Hit(t, r, needle, a)
  {
    WordFits(t, r, needle, a);
    hide WordHit, WordAligned, ReadableAt;
    forall j | 0 <= j < |needle|
      ensures t.memory(a + j) == needle[j] && ReadableAt(t, r, a + j)
    {
      ByteOfWord(t, r, needle, a, j);
    }
    forall x | a <= x < a + |needle|
      ensures ReadableAt(t, r, x)
    {
      ByteOfWord(t, r, needle, a, x - a);
    }
  }

  lemma WordFits(t: Target, r: Region, needle: seq<byte>, a: nat)
    requires WordAligned(r) && WordHit(t, r, needle, a)
    ensures r.lo <= a && |needle| == 4 && a + 4 <= r.hi
  {
    hide ChunkStart, ChunkLength, Bytes, ReadableAt;
    WordInOneChunk(r, a);
  }

  lemma ByteOfWord(t: Target, r: Region, needle: seq<byte>, a: nat, j: nat)
    requires WordAligned(r) && WordHit(t, r, needle, a) && j < 4
    ensures r.lo <= a + j < r.hi && |needle| == 4 && t.memory(a + j) == needle[j] && ReadableAt(t, r, a + j)
  {
    WordFits(t, r, needle, a);
    assert Bytes(t, a, a + 4)[j] == t.memory(a + j);
    hide ChunkStart, ChunkLength, ReadableAt, WordAligned, Bytes;
    WordInOneChunk(r, a);
    SameChunk(t, r, a, a + j);
  }

  lemma SameChunk(t: Target, r: Region, a: nat, b: nat)
    requires r.lo <= a < r.hi && r.lo <= b < r.hi && ChunkStart(r, b) == ChunkStart(r, a)
    ensures ReadableAt(t, r, b) <==> ReadableAt(t, r, a)
  {
    hide ChunkStart, ChunkLength;
  }

  lemma HitIsWord(t: Target, r: Region, needle: seq<byte>, a: nat)
    requires WordAligned(r) && |needle| == 4 && a % 4 == 0 && Hit(t, r, needle, a)
    ensures WordHit(t, r, needle, a)
  {
    WordInOneChunk(r, a);
    HitIsReadable(t, r, needle, a, 0);
    hide ReadableAt, ChunkStart, ChunkLength, WordAligned;
    var s := Bytes(t, a, a + 4);
    forall j | 0 <= j < 4
      ensures s[j] == needle[j]
    {
      assert t.memory(a + j) == needle[j];
    }
  }

  lemma WordIsAlignedHit(t: Target, r: Region, needle: seq<byte>, a: nat)
    requires WordAligned(r) && |needle| == 4
    ensures WordHit(t, r, needle, a) <==> a % 4 == 0 && Hit(t, r, needle, a)
  {
    assert WordHit(t, r, needle, a) ==> a % 4 == 0;
    hide Hit, WordHit;
    if WordHit(t, r, needle, a) {
      WordIsHit(t, r, needle, a);
    }
    if a % 4 == 0 && Hit(t, r, needle, a) {
      HitIsWord(t, r, needle, a);
    }
  }

  lemma AlignedSnoc(s: seq<nat>, x: nat)
    ensures Aligned(s + [x]) == if x % 4 == 0 then Aligned(s) + [x] else Aligned(s)
  {
    assert (s + [x])[..|s|] == s;
  }

  lemma HitsUnfold(t: Target, r: Region, needle: seq<byte>, lo: nat, hi: nat)
    requires lo < hi
    ensures var hits := Hits(t, r, needle, lo, hi - 1);
            Hits(t, r, needle, lo, hi) == if Hit(t, r, needle, hi - 1) then hits + [hi - 1] else hits
    ensures var words := Words(t, r, needle, lo, hi - 1);
            Words(t, r, needle, lo, hi) == if WordHit(t, r, needle, hi - 1) then words + [hi - 1] else words
  {
    hide Hit, WordHit;
  }

  lemma {:induction false} WordsAreAlignedHits(t: Target, r: Region, needle: seq<byte>, lo: nat, hi: nat)
    requires WordAligned(r) && |needle| == 4
    ensures Words(t, r, needle, lo, hi) == Aligned(Hits(t, r, needle, lo, hi))
    decreases hi
  {
    hide WordHit, Hit, WordAligned;
    if lo < hi {
      WordsAreAlignedHits(t, r, needle, lo, hi - 1);
      NextWordIsAlignedHit(t, r, needle, lo, hi);
    } else {
      assert Aligned([]) == [];
    }
  }

  lemma NextWordIsAlignedHit(t: Target, r: Region, needle: seq<byte>, lo: nat, hi: nat)
    requires WordAligned(r) && |needle| == 4 && lo < hi
    requires Words(t, r, needle, lo, hi - 1) == Aligned(Hits(t, r, needle, lo, hi - 1))
    ensures Words(t, r, needle, lo, hi) == Aligned(Hits(t, r, needle, lo, hi))
  {
    hide *;
    WordIsAlignedHit(t, r, needle, hi - 1);
    AlignedSnoc(Hits(t, r, needle, lo, hi - 1), hi - 1);
    HitsUnfold(t, r, needle, lo, hi);
  }

  lemma {:induction false} AllWordsAreAlignedHits(t: Target, regions: seq<Region>, needle: seq<byte>)
    requires forall i :: 0 <= i < |regions| ==> WordAligned(regions[i])
    requires |needle| == 4
    ensures AllWords(t, regions, needle) == Aligned(AllHits(t, regions, needle))
  {
    hide Hits, Words, WordAligned;
    if regions != [] {
      var init, last := regions[..|regions| - 1], regions[|regions| - 1];
      AllWordsAreAlignedHits(t, init, needle);
      WordsAreAlignedHits(t, last, needle, last.lo, last.hi);
      AlignedAppend(AllHits(t, init, needle), Hits(t, last, needle, last.lo, last.hi));
    }
  }

  ghost predicate Ascending(regions: seq<Region>)
  {
    forall i, j :: 0 <= i < j < |regions| ==> regions[i].hi <= regions[j].lo
  }

  lemma {:induction false} AscendingHits(t: Target, regions: seq<Region>, needle: seq<byte>)
    requires Ascending(regions)
    ensures Increasing(AllHits(t, regions, needle))
    ensures forall a :: a in AllHits(t, regions, needle) ==> exists i :: 0 <= i < |regions| && a < regions[i].hi
  {
    hide Hit, Hits;
    if regions != [] {
      var init, last := regions[..|regions| - 1], regions[|regions| - 1];
      AscendingHits(t, init, needle);
      HitsFacts(t, last, needle, last.lo, last.hi);
      AppendIncreasing(AllHits(t, init, needle), Hits(t, last, needle, last.lo, last.hi), last.lo);
      assert regions[|regions| - 1] == last;
    }
  }

  lemma AppendIncreasing(a: seq<nat>, b: seq<nat>, mid: nat)
    requires Increasing(a) && Increasing(b)
    requires (forall x :: x in a ==> x < mid) && forall x :: x in b ==> mid <= x
    ensures Increasing(a + b)
  {
    assert forall i :: 0 <= i < |a| ==> a[i] in a;
    assert forall i :: 0 <= i < |b| ==> b[i] in b;
  }

  lemma ChunksHoldWords(t: Target, r: Region)
    requires WordAligned(r)
    ensures SomeChunk(t, r, r.hi, 1) <==> SomeChunk(t, r, r.hi, 4)
  {
    if SomeChunk(t, r, r.hi, 1) {
      var x :| r.lo <= x < r.hi && ChunkStart(r, x) == x && ChunkLength(r, x) >= 1 && t.readable(x, ChunkLength(r, x));
      ChunkStartIsChunk(r, x);
      ChunkIsWordAligned(r, x);
      NextWord(x, x + ChunkLength(r, x));
    }
  }

  /**
   For word-aligned regions in address order, as the kernel lists them, the word scan returns
   exactly the aligned hits of the byte search for the value's bytes, whatever can be read.
   */
  lemma ScansAgree(t: Target, regions: seq<Region>, value: nat)
    requires value < ADDRESS_SPACE_END
    requires Ascending(regions) && forall i :: 0 <= i < |regions| ==> WordAligned(regions[i])
    requires |AllHits(t, regions, LittleEndian(value))| <= MAX_SCAN_CANDIDATES
    ensures var bytes, words := SearchAnswer(t, regions, LittleEndian(value)), ScanAnswer(t, regions, value);
            if bytes.Ok? then words == Ok(Aligned(bytes.value)) else words == bytes
  {
    var needle := LittleEndian(value);
    AllWordsAreAlignedHits(t, regions, needle);
    AscendingHits(t, regions, needle);
    SortDedupSorted(AllHits(t, regions, needle));
    hide AllHits, AllWords, SomeChunk, WordAligned, LittleEndian, Aligned, SortDedup;
    forall i | 0 <= i < |regions|
      ensures SomeChunk(t, regions[i], regions[i].hi, 1) <==> SomeChunk(t, regions[i], regions[i].hi, 4)
    {
      ChunksHoldWords(t, regions[i]);
    }
  }

  // ---------------------------------------------------------------- the word scan without its needle

  /** The aligned word at `a` lies in one readable chunk of the region and has this value. */
  ghost predicate HoldsWord(t: Target, r: Region, value: nat, a: nat)
  {
    && a % 4 == 0 && r.lo <= a < r.hi
    && a + 4 <= ChunkStart(r, a) + ChunkLength(r, ChunkStart(r, a))
    && ReadableAt(t, r, a)
    && WordOf(t.memory(a), t.memory(a + 1), t.memory(a + 2), t.memory(a + 3)) == value
  }

  /** Four bytes are determined by the number they stand for. */
  lemma WordIsUnique(a0: byte, a1: byte, a2: byte, a3: byte, b0: byte, b1: byte, b2: byte, b3: byte)
    requires WordOf(a0, a1, a2, a3) == WordOf(b0, b1, b2, b3)
    ensures a0 == b0 && a1 == b1 && a2 == b2 && a3 == b3
  {
    var a, b := a2 as nat + 256 * a3 as nat, b2 as nat + 256 * b3 as nat;
    LowByte(a0, a1 as nat + 256 * a, b0, b1 as nat + 256 * b);
    LowByte(a1, a, b1, b);
    LowByte(a2, a3 as nat, b2, b3 as nat);
  }

  lemma LowByte(a: byte, x: nat, b: byte, y: nat)
    requires a as nat + 256 * x == b as nat + 256 * y
    ensures a == b && x == y
  {
  }

  lemma WordHitIsValue(t: Target, r: Region, value: nat, a: nat)
    requires value < ADDRESS_SPACE_END
    ensures WordHit(t, r, LittleEndian(value), a) <==> HoldsWord(t, r, value, a)
  {
    hide LittleEndian, ChunkStart, ChunkLength, ReadableAt;
    var needle, s := LittleEndian(value), Bytes(t, a, a + 4);
    assert s[0] == t.memory(a) && s[1] == t.memory(a + 1) && s[2] == t.memory(a + 2) && s[3] == t.memory(a + 3);
    hide Bytes;
    if WordOf(s[0], s[1], s[2], s[3]) == value {
      WordIsUnique(s[0], s[1], s[2], s[3], needle[0], needle[1], needle[2], needle[3]);
      assert s == needle;
    }
  }

  lemma {:induction false} WordsMembers(t: Target, r: Region, needle: seq<byte>, lo: nat, hi: nat)
    ensures forall a :: a in Words(t, r, needle, lo, hi) <==> lo <= a < hi && WordHit(t, r, needle, a)
    ensures Increasing(Words(t, r, needle, lo, hi))
    decreases hi
  {
    hide WordHit;
    if lo < hi {
      WordsMembers(t, r, needle, lo, hi - 1);
      var init := Words(t, r, needle, lo, hi - 1);
      AppendIncreasing(init, if WordHit(t, r, needle, hi - 1) then [hi - 1] else [], hi - 1);
    }
  }

  ghost predicate SomewhereHolds(t: Target, regions: seq<Region>, value: nat, a: nat)
  {
    exists i :: 0 <= i < |regions| && HoldsWord(t, regions[i], value, a)
  }

  lemma {:induction false} AllWordsMembers(t: Target, regions: seq<Region>, value: nat)
    requires value < ADDRESS_SPACE_END
    ensures forall a :: a in AllWords(t, regions, LittleEndian(value)) <==> SomewhereHolds(t, regions, value, a)
  {
    hide Words, LittleEndian, HoldsWord;
    if regions != [] {
      var init, last := regions[..|regions| - 1], regions[|regions| - 1];
      AllWordsMembers(t, init, value);
      assert regions == init + [last];
      forall a
        ensures a in Words(t, last, LittleEndian(value), last.lo, last.hi) <==> HoldsWord(t, last, value, a)
      {
        WordsMembers(t, last, LittleEndian(value), last.lo, last.hi);
        WordHitIsValue(t, last, value, a);
        WordInRegion(t, last, value, a);
      }
      forall a
        ensures SomewhereHolds(t, regions, value, a) <==> SomewhereHolds(t, init, value, a) || HoldsWord(t, last, value, a)
      {
        OneRegionMore(t, init, last, value, a);
      }
    }
  }

  lemma WordInRegion(t: Target, r: Region, value: nat, a: nat)
    ensures HoldsWord(t, r, value, a) ==> r.lo <= a < r.hi
  {
  }

  lemma OneRegionMore(t: Target, init: seq<Region>, last: Region, value: nat, a: nat)
    ensures SomewhereHolds(t, init + [last], value, a) <==> SomewhereHolds(t, init, value, a) || HoldsWord(t, last, value, a)
  {
    hide HoldsWord;
    var all := init + [last];
    assert all[|init|] == last && forall i :: 0 <= i < |init| ==> all[i] == init[i];
    if SomewhereHolds(t, init, value, a) {
      var i :| 0 <= i < |init| && HoldsWord(t, init[i], value, a);
      assert HoldsWord(t, all[i], value, a);
    }
    if HoldsWord(t, last, value, a) {
      assert HoldsWord(t, all[|init|], value, a);
    }
  }

  /**
   The word scan returns an address exactly if it is aligned and the word there, read low byte
   first in one readable chunk of a region, has the value sought; in increasing order when the
   regions are.
   */
  lemma WordScanIsExact(t: Target, regions: seq<Region>, value: nat)
    requires value < ADDRESS_SPACE_END && ScanAnswer(t, regions, value).Ok?
    ensures forall a :: a in ScanAnswer(t, regions, value).value <==> SomewhereHolds(t, regions, value, a)
    ensures Ascending(regions) ==> Increasing(ScanAnswer(t, regions, value).value)
  {
    AllWordsMembers(t, regions, value);
    if Ascending(regions) {
      AscendingWords(t, regions, LittleEndian(value));
    }
    hide AllWords, SomewhereHolds, LittleEndian, Increasing;
  }

  lemma {:induction false} AscendingWords(t: Target, regions: seq<Region>, needle: seq<byte>)
    requires Ascending(regions)
    ensures Increasing(AllWords(t, regions, needle))
    ensures forall a :: a in AllWords(t, regions, needle) ==> exists i :: 0 <= i < |regions| && a < regions[i].hi
  {
    hide WordHit, Words;
    if regions != [] {
      var init, last := regions[..|regions| - 1], regions[|regions| - 1];
      AscendingWords(t, init, needle);
      WordsMembers(t, last, needle, last.lo, last.hi);
      AppendIncreasing(AllWords(t, init, needle), Words(t, last, needle, last.lo, last.hi), last.lo);
      assert regions[|regions| - 1] == last;
    }
  }

  /** Both scans answer, unless there is nothing to seek, no region, too much, or nothing that can be read. */
  lemma ScansAnswerIff(t: Target, regions: seq<Region>, needle: seq<byte>, value: nat)
    requires value < ADDRESS_SPACE_END
    ensures SearchAnswer(t, regions, needle).Ok? <==>
            needle != [] && regions != [] && SomeChunks(t, regions, 1) && |AllHits(t, regions, needle)| <= MAX_SCAN_CANDIDATES
    ensures ScanAnswer(t, regions, value).Ok? <==>
            regions != [] && SomeChunks(t, regions, 4) && |AllWords(t, regions, LittleEndian(value))| <= MAX_SCAN_CANDIDATES
  {
  }
}
