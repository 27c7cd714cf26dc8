/** One byte of a page bitmap. */
module Bits {

  function Bit(b: bv8, i: nat): bool
    requires i < 8
  {
    (b >> i) & 1 == 1
  }

  function Set(b: bv8, i: nat): (r: bv8)
    requires i < 8
  {
    b | (1 << i)
  }

  function Clear(b: bv8, i: nat): (r: bv8)
    requires i < 8
  {
    b & !(1 << i)
  }

  lemma {:induction false} SetBit(b: bv8, i: nat, j: nat)
    requires i < 8 && j < 8
    ensures Bit(Set(b, i), j) <==> i == j || Bit(b, j)
  {
    hide Bit;
    Eight(b, 1 << i, j);
    OneBit(i, j);
  }

  lemma {:induction false} ClearBit(b: bv8, i: nat, j: nat)
    requires i < 8 && j < 8
    ensures Bit(Clear(b, i), j) <==> i != j && Bit(b, j)
  {
    hide Bit;
    Eight(b, 1 << i, j);
    OneBit(i, j);
  }

  lemma {:induction false} OneBit(i: nat, j: nat)
    requires i < 8 && j < 8
    ensures Bit(1 << i, j) <==> i == j
  {
    if i == 0 {} else if i == 1 {} else if i == 2 {} else if i == 3 {}
    else if i == 4 {} else if i == 5 {} else if i == 6 {} else {}
    if j == 0 {} else if j == 1 {} else if j == 2 {} else if j == 3 {}
    else if j == 4 {} else if j == 5 {} else if j == 6 {} else {}
  }

  /** Bit `j` of a union or difference is decided by bit `j` of the mask. */
  lemma {:induction false} Eight(b: bv8, mask: bv8, j: nat)
    requires j < 8
    ensures Bit(b | mask, j) <==> Bit(b, j) || Bit(mask, j)
    ensures Bit(b & !mask, j) <==> Bit(b, j) && !Bit(mask, j)
  {
    if j == 0 {} else if j == 1 {} else if j == 2 {} else if j == 3 {}
    else if j == 4 {} else if j == 5 {} else if j == 6 {} else {}
  }
}

/** Page allocator (kernel/memory/pmm.c) at the level of one flag per page: true is used. */
module PmmSpec {
  import opened Arithmetic
  import opened Options

  const WORD: nat := 0x1_0000_0000_0000_0000
  const PAGE: nat := 4096
  const LOW_END: nat := 0x10_0000
  const FIRST: nat := LOW_END / PAGE

  datatype Pmm = Pmm(used: seq<bool>, free: nat)

  function CountFree(used: seq<bool>): (n: nat) {
    if used == [] then 0
    else CountFree(used[..|used| - 1]) + if used[|used| - 1] then 0 else 1
  }

  ghost predicate Inv(s: Pmm) {
    s.free == CountFree(s.used)
  }

  lemma {:induction false} CountOne(used: seq<bool>, p: nat, v: bool)
    requires p < |used|
    ensures CountFree(used[p := v]) == CountFree(used) + (if v then 0 else 1) - (if used[p] then 0 else 1)
  {
    var n := |used| - 1;
    var t := used[p := v];
    if p == n {
      assert t[..n] == used[..n];
    } else {
      assert t[..n] == used[..n][p := v];
      CountOne(used[..n], p, v);
    }
  }

  lemma {:induction false} CountPositive(used: seq<bool>, p: nat)
    requires p < |used| && !used[p]
    ensures CountFree(used) > 0
  {
    CountOne(used, p, true);
  }

  /** Pages `first <= p < last` that exist, set to `v`. */
  function Mark(used: seq<bool>, first: nat, last: nat, v: bool): (r: seq<bool>)
    ensures |r| == |used|
    ensures forall p :: 0 <= p < |used| ==> r[p] == if first <= p < last then v else used[p]
  {
    seq(|used|, p requires 0 <= p < |used| => if first <= p < last then v else used[p])
  }

  lemma {:induction false} MarkNext(used: seq<bool>, first: nat, p: nat, v: bool)
    requires first <= p < |used|
    ensures Mark(used, first, p + 1, v) == Mark(used, first, p, v)[p := v]
  {
  }

  // ---- Ranges ---------------------------------------------------------------------

  /** `reserve_range`: first and last page, with 64-bit additions. */
  function FirstPage(start: nat): (p: nat) {
    start / PAGE
  }

  function LastPage(start: nat, size: nat): (p: nat) {
    ((start + size) % WORD + PAGE - 1) % WORD / PAGE
  }

  predicate Covered(p: nat, start: nat, size: nat) {
    size != 0 && FirstPage(start) <= p < LastPage(start, size)
  }

  /** Does the page share a byte with `[start, start + size)`? */
  predicate Overlaps(p: nat, start: nat, size: nat) {
    p * PAGE < start + size && start < p * PAGE + PAGE && size != 0
  }

  predicate AllCovered(start: nat, size: nat) {
    forall p :: 0 <= p < WORD / PAGE ==> (Covered(p, start, size) <==> Overlaps(p, start, size))
  }

  lemma {:induction false} CoveredPage(p: nat, start: nat, size: nat)
    requires start < WORD && size < WORD && start + size + PAGE - 1 < WORD
    ensures Covered(p, start, size) <==> Overlaps(p, start, size)
  {
  }

  /** The pages `reserve_range` takes are exactly those the range touches if and only if the
   *  end, rounded up, stays below 2^64. */
  lemma {:induction false} CoversExactly(start: nat, size: nat)
    requires start < WORD && 0 < size < WORD
    ensures AllCovered(start, size) <==> start + size + PAGE - 1 < WORD
  {
    if start + size + PAGE - 1 < WORD {
      forall p | 0 <= p < WORD / PAGE ensures Covered(p, start, size) <==> Overlaps(p, start, size) {
        CoveredPage(p, start, size);
      }
    } else {
      var f := FirstPage(start);
      assert Overlaps(f, start, size);
      if Covered(f, start, size) {
        assert start + size >= WORD;
        assert LastPage(start, size) == f + 1;
        assert f + 1 < WORD / PAGE;
        assert Overlaps(f + 1, start, size) && !Covered(f + 1, start, size);
      }
    }
  }

  // ---- Start-up -------------------------------------------------------------------

  datatype Desc = Desc(ram: bool, conventional: bool, start: nat, pages: nat)

  datatype Range = Range(start: nat, size: nat)

  function DescEnd(d: Desc): (e: nat) {
    (d.start + d.pages * PAGE) % WORD
  }

  /** One past the highest RAM address of the first `k` descriptors. */
  function Highest(descs: seq<Desc>, k: nat): (h: nat)
    requires k <= |descs|
  {
    if k == 0 then 0
    else
      var h := Highest(descs, k - 1);
      if descs[k - 1].ram && DescEnd(descs[k - 1]) > h then DescEnd(descs[k - 1]) else h
  }

  lemma {:induction false} HighestFits(descs: seq<Desc>, k: nat)
    requires k <= |descs|
    ensures Highest(descs, k) < WORD
  {
    if k > 0 {
      HighestFits(descs, k - 1);
    }
  }

  function TotalPages(descs: seq<Desc>): (n: nat) {
    Highest(descs, |descs|) / PAGE
  }

  function BitmapBytes(total: nat): (n: nat) {
    (total + 7) / 8
  }

  function BitmapPages(total: nat): (n: nat) {
    (BitmapBytes(total) + PAGE - 1) / PAGE
  }

  /** The first conventional region above 1 MiB that can hold the bitmap. */
  function BitmapHome(descs: seq<Desc>, k: nat, need: nat): (r: Option<nat>)
    requires k <= |descs|
    decreases |descs| - k
  {
    if k == |descs| then None
    else if descs[k].conventional && descs[k].pages >= need && descs[k].start >= LOW_END then Some(descs[k].start)
    else BitmapHome(descs, k + 1, need)
  }

  /** No RAM descriptor ends above the highest address, and one ends there, or there is none. */
  ghost predicate IsHighest(descs: seq<Desc>, k: nat, h: nat)
    requires k <= |descs|
  {
    && (forall i :: 0 <= i < k && descs[i].ram ==> DescEnd(descs[i]) <= h)
    && (h == 0 || exists i :: 0 <= i < k && descs[i].ram && DescEnd(descs[i]) == h)
  }

  lemma {:induction false} HighestExact(descs: seq<Desc>, k: nat)
    requires k <= |descs|
    ensures IsHighest(descs, k, Highest(descs, k))
  {
    if k > 0 {
      HighestExact(descs, k - 1);
      var h := Highest(descs, k - 1);
      if Highest(descs, k) == h && h != 0 {
        var i :| 0 <= i < k - 1 && descs[i].ram && DescEnd(descs[i]) == h;
        assert descs[i].ram && DescEnd(descs[i]) == Highest(descs, k);
      }
    }
  }

  /** The bitmap's pages hold one bit for each page, and no page less would. */
  lemma {:induction false} BitmapFits(total: nat)
    ensures total <= BitmapPages(total) * PAGE * 8
    ensures total > 0 ==> (BitmapPages(total) - 1) * PAGE * 8 < total
  {
  }

  /** A conventional region at or above 1 MiB with room for `need` pages. */
  predicate Suits(d: Desc, need: nat) {
    d.conventional && d.pages >= need && d.start >= 0x10_0000
  }

  /** The home of the bitmap is the start of the first region that suits; there is none exactly
   *  when no region does. */
  lemma {:induction false} HomeExact(descs: seq<Desc>, k: nat, need: nat)
    requires k <= |descs|
    ensures BitmapHome(descs, k, need) == None <==> forall i :: k <= i < |descs| ==> !Suits(descs[i], need)
    ensures BitmapHome(descs, k, need).Some? ==>
      exists i: nat :: IsHome(descs, k, need, i) && BitmapHome(descs, k, need).value == descs[i].start
    decreases |descs| - k
  {
    if k < |descs| {
      if Suits(descs[k], need) {
        assert IsHome(descs, k, need, k);
      } else {
        HomeExact(descs, k + 1, need);
        if BitmapHome(descs, k + 1, need).Some? {
          var i: nat :| IsHome(descs, k + 1, need, i) && BitmapHome(descs, k + 1, need).value == descs[i].start;
          assert IsHome(descs, k, need, i);
        }
      }
    }
  }

  predicate IsHome(descs: seq<Desc>, k: nat, need: nat, i: nat) {
    k <= i < |descs| && Suits(descs[i], need) && forall j :: k <= j < i ==> !Suits(descs[j], need)
  }

  /** Start-up panics exactly when no region suits the bitmap of all RAM. */
  lemma {:induction false} InitPanics(descs: seq<Desc>, given: seq<Range>)
    ensures Init(descs, given) == None <==>
      forall i :: 0 <= i < |descs| ==> !Suits(descs[i], BitmapPages(TotalPages(descs)))
  {
    hide FreeAll;
    hide ReserveAll;
    hide Highest;
    HomeExact(descs, 0, BitmapPages(TotalPages(descs)));
  }

  predicate InDesc(p: nat, d: Desc) {
    d.conventional && d.start / PAGE <= p < (d.start / PAGE + d.pages) % WORD
  }

  /** Free the conventional memory of the first `k` descriptors. */
  function FreeAll(used: seq<bool>, descs: seq<Desc>, k: nat): (r: seq<bool>)
    requires k <= |descs|
    ensures |r| == |used|
  {
    if k == 0 then used
    else
      var u := FreeAll(used, descs, k - 1);
      var d := descs[k - 1];
      if d.conventional then Mark(u, d.start / PAGE, (d.start / PAGE + d.pages) % WORD, false) else u
  }

  function ReserveAll(used: seq<bool>, ranges: seq<Range>, k: nat): (r: seq<bool>)
    requires k <= |ranges|
    ensures |r| == |used|
  {
    if k == 0 then used
    else
      var u := ReserveAll(used, ranges, k - 1);
      var g := ranges[k - 1];
      if g.size == 0 then u else Mark(u, FirstPage(g.start), LastPage(g.start, g.size), true)
  }

  lemma {:induction false} FreeAllIs(used: seq<bool>, descs: seq<Desc>, k: nat, p: nat)
    requires k <= |descs| && p < |used|
    ensures FreeAll(used, descs, k)[p] <==> used[p] && forall i :: 0 <= i < k ==> !InDesc(p, descs[i])
  {
    if k > 0 {
      FreeAllIs(used, descs, k - 1, p);
    }
  }

  lemma {:induction false} ReserveAllIs(used: seq<bool>, ranges: seq<Range>, k: nat, p: nat)
    requires k <= |ranges| && p < |used|
    ensures ReserveAll(used, ranges, k)[p] <==>
      used[p] || exists i :: 0 <= i < k && Covered(p, ranges[i].start, ranges[i].size)
  {
    if k > 0 {
      ReserveAllIs(used, ranges, k - 1, p);
    }
  }

  function AllUsed(n: nat): (r: seq<bool>)
    ensures |r| == n && forall p :: 0 <= p < n ==> r[p]
  {
    if n == 0 then [] else AllUsed(n - 1) + [true]
  }

  /** What is reserved again after conventional memory is freed: the low megabyte, the given
   *  ranges and the bitmap itself. */
  function Reserved(given: seq<Range>, home: nat, total: nat): (r: seq<Range>) {
    [Range(0, LOW_END)] + given + [Range(home, BitmapPages(total) * PAGE)]
  }

  /** `pmm_init`; `None` is the panic when no region can hold the bitmap. */
  function Init(descs: seq<Desc>, given: seq<Range>): (r: Option<Pmm>) {
    var total := TotalPages(descs);
    match BitmapHome(descs, 0, BitmapPages(total))
    case None => None
    case Some(home) =>
      var ranges := Reserved(given, home, total);
      var used := ReserveAll(FreeAll(AllUsed(total), descs, |descs|), ranges, |ranges|);
      Some(Pmm(used, CountFree(used)))
  }

  lemma {:induction false} CountAllUsed(n: nat)
    ensures CountFree(AllUsed(n)) == 0
  {
    if n > 0 {
      assert AllUsed(n)[..n - 1] == AllUsed(n - 1);
      CountAllUsed(n - 1);
    }
  }

  /** After start-up a page is free exactly when some conventional descriptor contains it and
   *  no reserved range covers it; no page of the low megabyte or of the bitmap is. */
  lemma {:induction false} InitExact(descs: seq<Desc>, given: seq<Range>, p: nat)
    requires Init(descs, given).Some? && p < TotalPages(descs)
    ensures var s := Init(descs, given).value;
      var home := BitmapHome(descs, 0, BitmapPages(TotalPages(descs))).value;
      && Inv(s) && |s.used| == TotalPages(descs)
      && (!s.used[p] <==>
            && (exists i :: 0 <= i < |descs| && InDesc(p, descs[i]))
            && (forall i :: 0 <= i < |given| ==> !Covered(p, given[i].start, given[i].size))
            && p >= FIRST && !Covered(p, home, BitmapPages(TotalPages(descs)) * PAGE))
  {
    var total := TotalPages(descs);
    var home := BitmapHome(descs, 0, BitmapPages(total)).value;
    var ranges := Reserved(given, home, total);
    assert ranges[0] == Range(0, LOW_END) && ranges[|ranges| - 1] == Range(home, BitmapPages(total) * PAGE);
    assert forall i :: 0 <= i < |given| ==> ranges[i + 1] == given[i];
    assert forall i :: 1 <= i < |ranges| - 1 ==> ranges[i] == given[i - 1];
    assert Covered(p, 0, LOW_END) <==> p < FIRST;
    FreeAllIs(AllUsed(total), descs, |descs|, p);
    ReserveAllIs(FreeAll(AllUsed(total), descs, |descs|), ranges, |ranges|, p);
    hide Covered;
  }

  // ---- Allocation -----------------------------------------------------------------

  predicate RunFree(used: seq<bool>, p: nat, n: nat) {
    p + n <= |used| && forall i :: p <= i < p + n ==> !used[i]
  }

  /** The lowest free run of `n` pages at or above `p`. */
  function FindRun(used: seq<bool>, p: nat, n: nat): (r: Option<nat>)
    ensures r.Some? ==> p <= r.value && RunFree(used, r.value, n)
    ensures r.Some? ==> forall q :: p <= q < r.value ==> !RunFree(used, q, n)
    ensures r == None ==> forall q :: p <= q ==> !RunFree(used, q, n)
    decreases if p <= |used| then |used| - p + 1 else 0
  {
    if p + n > |used| then None
    else if RunFree(used, p, n) then Some(p)
    else FindRun(used, p + 1, n)
  }

  /** Every run that starts at or before a used page and is long enough to reach it can be
   *  skipped. */
  lemma {:induction false} Skip(used: seq<bool>, p: nat, n: nat, k: nat)
    requires p <= k < p + n && k < |used| && used[k]
    ensures FindRun(used, p, n) == FindRun(used, k + 1, n)
  {
    forall q | p <= q <= k ensures !RunFree(used, q, n) {}
  }

  /** `pmm_alloc_contig`: the lowest run above 1 MiB, and failure only if there is none. */
  function AllocContig(s: Pmm, n: nat): (r: (Pmm, Option<nat>)) {
    if n == 0 then (s, None)
    else
      match FindRun(s.used, FIRST, n)
      case None => (s, None)
      case Some(p) =>
        var used := Mark(s.used, p, p + n, true);
        (Pmm(used, CountFree(used)), Some(p * PAGE))
  }

  /** `pmm_free_page`; `None` is a panic. */
  function FreePage(s: Pmm, addr: nat): (r: Option<Pmm>) {
    if addr == 0 || addr % PAGE != 0 || addr < LOW_END || addr / PAGE >= |s.used| || !s.used[addr / PAGE] then None
    else Some(Pmm(s.used[addr / PAGE := false], s.free + 1))
  }

  function FreeContig(s: Pmm, addr: nat, n: nat): (r: Option<Pmm>)
    decreases n
  {
    if n == 0 then Some(s)
    else
      match FreePage(s, addr)
      case None => None
      case Some(t) => FreeContig(t, addr + PAGE, n - 1)
  }

  lemma {:induction false} CountMark(used: seq<bool>, first: nat, n: nat)
    requires RunFree(used, first, n)
    ensures CountFree(Mark(used, first, first + n, true)) == CountFree(used) - n
  {
    if n == 0 {
      assert Mark(used, first, first, true) == used;
    } else {
      CountMark(used, first, n - 1);
      MarkNext(used, first, first + n - 1, true);
      CountOne(Mark(used, first, first + n - 1, true), first + n - 1, true);
    }
  }

  /** An allocation takes the lowest `n` free pages in a row and nothing else, and the counter
   *  drops by exactly that; it fails only if there is no such row. */
  lemma {:induction false} AllocFacts(s: Pmm, n: nat)
    requires Inv(s)
    ensures var (t, r) := AllocContig(s, n);
      && Inv(t) && |t.used| == |s.used|
      && (r == None ==> t == s && (n == 0 || forall q :: FIRST <= q ==> !RunFree(s.used, q, n)))
      && (r.Some? ==>
            var p := r.value / PAGE;
            && r.value == p * PAGE && p >= FIRST && RunFree(s.used, p, n) && t.free == s.free - n
            && (forall q :: FIRST <= q < p ==> !RunFree(s.used, q, n))
            && (forall q :: 0 <= q < |s.used| ==> t.used[q] == (s.used[q] || p <= q < p + n)))
  {
    hide CountFree;
    hide Mark;
    if n != 0 && FindRun(s.used, FIRST, n).Some? {
      var p := FindRun(s.used, FIRST, n).value;
      CountMark(s.used, p, n);
    }
  }

  lemma {:induction false} FreePageKeeps(s: Pmm, addr: nat)
    requires Inv(s) && FreePage(s, addr).Some?
    ensures Inv(FreePage(s, addr).value)
  {
    CountOne(s.used, addr / PAGE, false);
  }

  predicate RunUsed(used: seq<bool>, p: nat, n: nat) {
    p + n <= |used| && forall i :: p <= i < p + n ==> used[i]
  }

  lemma {:induction false} RunUsedNext(used: seq<bool>, p: nat, n: nat)
    requires n > 0 && p < |used| && used[p]
    ensures RunUsed(used, p, n) <==> RunUsed(used[p := false], p + 1, n - 1)
  {
    var t := used[p := false];
    assert forall i :: p < i < |used| ==> t[i] == used[i];
    if RunUsed(t, p + 1, n - 1) {
      forall i | p <= i < p + n ensures used[i] {
        assert i > p ==> t[i];
      }
    }
  }

  /** `pmm_free_contig` goes through exactly when the address is a page boundary at or above 1 MiB
   *  and all the pages exist and are in use; it then frees exactly those, and counts them. In all
   *  other cases it panics. */
  lemma {:induction false} FreeExact(s: Pmm, addr: nat, n: nat)
    requires Inv(s)
    ensures var r := FreeContig(s, addr, n);
      && (r.Some? <==> n == 0 || (addr % PAGE == 0 && addr >= 0x10_0000 && RunUsed(s.used, addr / PAGE, n)))
      && (r.Some? ==>
            var p, t := addr / PAGE, r.value;
            && Inv(t) && t.free == s.free + n && |t.used| == |s.used|
            && forall q :: 0 <= q < |s.used| ==> t.used[q] == (s.used[q] && !(p <= q < p + n)))
    decreases n
  {
    hide CountFree;
    if n > 0 && FreePage(s, addr).Some? {
      var t := FreePage(s, addr).value;
      FreePageKeeps(s, addr);
      FreeExact(t, addr + PAGE, n - 1);
      var p := addr / PAGE;
      assert (addr + PAGE) / PAGE == p + 1;
      RunUsedNext(s.used, p, n);
    } else if n > 0 && RunUsed(s.used, addr / PAGE, n) {
      assert s.used[addr / PAGE];
    }
  }

  /** Freeing a run page by page restores it. */
  lemma {:induction false} FreeRestores(s: Pmm, used: seq<bool>, p: nat, n: nat)
    requires Inv(s) && RunFree(used, p, n) && p >= FIRST && s.used == Mark(used, p, p + n, true)
    ensures FreeContig(s, p * PAGE, n) == Some(Pmm(used, CountFree(used)))
    decreases n
  {
    hide CountFree;
    hide Mark;
    if n == 0 {
      assert s.used == used;
    } else {
      var t := FreePage(s, p * PAGE).value;
      FreePageKeeps(s, p * PAGE);
      assert t.used == Mark(used, p + 1, p + 1 + (n - 1), true);
      FreeRestores(t, used, p + 1, n - 1);
    }
  }

  /** Allocate then free is the identity, for every state and every size that fits. */
  lemma {:induction false} AllocFreeRoundTrip(s: Pmm, n: nat)
    requires Inv(s) && AllocContig(s, n).1.Some?
    ensures var (t, r) := AllocContig(s, n); FreeContig(t, r.value, n) == Some(s)
  {
    var p := FindRun(s.used, FIRST, n).value;
    FreeRestores(AllocContig(s, n).0, s.used, p, n);
  }

  predicate GuardAgrees(p: nat, count: nat, total: nat) {
    (p + count) % WORD <= total <==> p + count <= total
  }

  /** The first evaluation of the search guard is right. */
  predicate GuardStarts(total: nat, count: nat) {
    FIRST + count < WORD || FIRST + count - WORD > total
  }

  /** The search guard with 64-bit addition is right at the first page exactly when `GuardStarts`
   *  holds, and then at every page the search can reach. Otherwise the search begins although
   *  no run of that length can exist. */
  lemma {:induction false} GuardExact(total: nat, count: nat)
    requires total <= WORD / PAGE && 0 < count < WORD
    ensures GuardAgrees(FIRST, count, total) <==> GuardStarts(total, count)
    ensures GuardStarts(total, count) && FIRST + count <= total ==>
      forall p: nat :: p <= total + 1 ==> GuardAgrees(p, count, total)
    ensures !GuardStarts(total, count) ==> (FIRST + count) % WORD <= total < FIRST + count
  {
  }

  // ---- Whole runs -----------------------------------------------------------------

  /** Allocate `n` pages, or give back the run that starts at page `p`. */
  datatype Op = Take(n: nat) | Give(p: nat)

  /** The runs handed out and not returned: first page to length. */
  type Ledger = map<nat, nat>

  /** A run that is not in the ledger is not given back. */
  function Step(s: Pmm, held: Ledger, op: Op): (r: (Pmm, Ledger)) {
    match op
    case Take(n) =>
      var (t, r) := AllocContig(s, n);
      (t, if r.Some? then held[r.value / PAGE := n] else held)
    case Give(p) =>
      if p !in held then (s, held)
      else
        match FreeContig(s, p * PAGE, held[p])
        case None => (s, held)
        case Some(t) => (t, held - {p})
  }

  ghost predicate InRun(held: Ledger, p: nat, q: nat) {
    p in held && p <= q < p + held[p]
  }

  ghost predicate Owned(held: Ledger, q: nat) {
    exists p :: InRun(held, p, q)
  }

  /** The runs lie above 1 MiB in pages that were free at the start, and do not overlap. */
  ghost predicate Runs(start: Pmm, held: Ledger) {
    && (forall p :: p in held ==> FIRST <= p && held[p] > 0 && RunFree(start.used, p, held[p]))
    && (forall p, r :: p in held && r in held && p < r ==> p + held[p] <= r)
  }

  /** A page is in use exactly when it was at the start or lies in a run handed out since. */
  ghost predicate Accounts(start: Pmm, s: Pmm, held: Ledger) {
    && Inv(start) && Inv(s) && |s.used| == |start.used| && Runs(start, held)
    && forall q :: 0 <= q < |s.used| ==> (s.used[q] <==> start.used[q] || Owned(held, q))
  }

  lemma {:induction false} TakeAccounts(start: Pmm, s: Pmm, held: Ledger, n: nat)
    requires Accounts(start, s, held)
    ensures var (t, h) := Step(s, held, Take(n)); Accounts(start, t, h)
  {
    hide CountFree;
    hide AllocContig;
    AllocFacts(s, n);
    var (t, r) := AllocContig(s, n);
    if r.Some? && n > 0 {
      var p := r.value / PAGE;
      var h := held[p := n];
      RunOwns(held, p, p);
      forall q | q in held ensures q + held[q] <= p || p + n <= q {
        RunOwns(held, q, p);
        RunOwns(held, q, q);
      }
      forall q | 0 <= q < |t.used| ensures t.used[q] <==> start.used[q] || Owned(h, q) {
        OwnedAdd(held, p, n, q);
      }
    } else if r.Some? {
      NoEmptyRun(s);
    }
  }

  lemma {:induction false} NoEmptyRun(s: Pmm)
    ensures AllocContig(s, 0).1 == None
  {
  }

  lemma {:induction false} RunOwns(held: Ledger, p: nat, q: nat)
    ensures p in held && p <= q < p + held[p] ==> Owned(held, q)
  {
    assert p in held && p <= q < p + held[p] ==> InRun(held, p, q);
  }

  /** A page of one run lies in no other. */
  lemma {:induction false} OneOwner(start: Pmm, held: Ledger, p: nat, q: nat)
    requires Runs(start, held) && InRun(held, p, q)
    ensures !Owned(held - {p}, q)
  {
    forall r ensures !InRun(held - {p}, r, q) {}
  }

  lemma {:induction false} OwnedAdd(held: Ledger, p: nat, n: nat, q: nat)
    requires p !in held
    ensures Owned(held[p := n], q) <==> Owned(held, q) || p <= q < p + n
  {
    var h := held[p := n];
    if Owned(held, q) {
      var r :| InRun(held, r, q);
      assert InRun(h, r, q);
    }
    if p <= q < p + n {
      assert InRun(h, p, q);
    }
    if Owned(h, q) {
      var r :| InRun(h, r, q);
      assert r == p || InRun(held, r, q);
    }
  }

  lemma {:induction false} GiveAccounts(start: Pmm, s: Pmm, held: Ledger, p: nat)
    requires Accounts(start, s, held) && p in held
    ensures FreeContig(s, p * PAGE, held[p]).Some?
    ensures Accounts(start, FreeContig(s, p * PAGE, held[p]).value, held - {p})
  {
    hide CountFree;
    hide FreeContig;
    var n := held[p];
    var used := Mark(s.used, p, p + n, false);
    forall q | p <= q < p + n ensures s.used[q] {
      assert InRun(held, p, q);
    }
    assert s.used == Mark(used, p, p + n, true);
    FreeRestores(s, used, p, n);
    var h := held - {p};
    assert h[p := n] == held;
    forall q | 0 <= q < |used| ensures used[q] <==> start.used[q] || Owned(h, q) {
      OwnedAdd(h, p, n, q);
      if p <= q < p + n {
        OneOwner(start, held, p, q);
      }
    }
  }

  lemma {:induction false} StepAccounts(start: Pmm, s: Pmm, held: Ledger, op: Op)
    requires Accounts(start, s, held)
    ensures var (t, h) := Step(s, held, op); Accounts(start, t, h)
  {
    hide Accounts;
    hide FreeContig;
    hide AllocContig;
    match op
    case Take(n) => TakeAccounts(start, s, held, n);
    case Give(p) =>
      if p in held {
        GiveAccounts(start, s, held, p);
      }
  }

  function Run(s: Pmm, held: Ledger, ops: seq<Op>): (r: (Pmm, Ledger))
    decreases |ops|
  {
    if ops == [] then (s, held)
    else
      var (t, h) := Step(s, held, ops[0]);
      Run(t, h, ops[1..])
  }

  lemma {:induction false} RunAccounts(start: Pmm, s: Pmm, held: Ledger, ops: seq<Op>)
    requires Accounts(start, s, held)
    ensures var (t, h) := Run(s, held, ops); Accounts(start, t, h)
    decreases |ops|
  {
    hide Accounts;
    hide Step;
    if ops != [] {
      StepAccounts(start, s, held, ops[0]);
      var (t, h) := Step(s, held, ops[0]);
      RunAccounts(start, t, h, ops[1..]);
    }
  }

  /** In every run the runs handed out never overlap, come from pages that were free and are
   *  what the bitmap has gained; once all are returned, in any order, bitmap and counter are
   *  what they were. */
  lemma {:induction false} RunConserves(s: Pmm, ops: seq<Op>)
    requires Inv(s)
    ensures var (t, h) := Run(s, map[], ops);
      Accounts(s, t, h) && (h == map[] ==> t == s)
  {
    hide CountFree;
    hide Run;
    RunAccounts(s, s, map[], ops);
    var (t, h) := Run(s, map[], ops);
    if h == map[] {
      assert t.used == s.used;
    }
  }
}

/** The page allocator as the kernel keeps it: a bitmap, eight pages to the byte. */
module PageAllocator {
  import opened Bits
  import opened Options
  import opened PmmSpec

  /** Step 1 of start-up: pages below the highest RAM address. */
  method CountPages(descs: seq<Desc>) returns (n: nat)
    ensures n == TotalPages(descs)
    ensures exists h: nat :: IsHighest(descs, |descs|, h) && n == h / PAGE
  {
    HighestExact(descs, |descs|);
    var highest := 0;
    for i := 0 to |descs|
      invariant highest == Highest(descs, i)
    {
      if descs[i].ram {
        var end := (descs[i].start + descs[i].pages * PAGE) % WORD;
        if end > highest {
          highest := end;
        }
      }
    }
    n := highest / PAGE;
  }

  /** Step 2: a home for the bitmap. */
  method FindHome(descs: seq<Desc>, need: nat) returns (r: Option<nat>)
    ensures r == BitmapHome(descs, 0, need)
    ensures r == None <==> forall i :: 0 <= i < |descs| ==> !Suits(descs[i], need)
    ensures r.Some? ==> exists i: nat :: IsHome(descs, 0, need, i) && r.value == descs[i].start
  {
    HomeExact(descs, 0, need);
    for i := 0 to |descs|
      invariant BitmapHome(descs, i, need) == BitmapHome(descs, 0, need)
    {
      if descs[i].conventional && descs[i].pages >= need && descs[i].start >= LOW_END {
        return Some(descs[i].start);
      }
    }
    r := None;
  }

  class PmmObject {
    const bitmap: array<bv8>
    const total: nat
    var free: nat
    ghost var used: seq<bool>

    ghost predicate Valid()
      reads this, bitmap
    {
      |used| == total && Mirrors() && free == CountFree(used) && total <= WORD / PAGE
    }

    /** The flags are the bits of the bitmap. */
    ghost predicate Mirrors()
      reads `used, bitmap
    {
      && |used| == total && total <= 8 * bitmap.Length
      && forall p :: 0 <= p < total ==> used[p] == Bit(bitmap[p / 8], p % 8)
    }

    ghost function Abs(): Pmm
      reads this
    {
      Pmm(used, free)
    }

    /** Step 3: every page used. */
    constructor (n: nat)
      requires n <= WORD / PAGE
      ensures Mirrors() && total == n && used == AllUsed(total) && free == 0 && fresh(bitmap)
    {
      total := n;
      bitmap := new bv8[BitmapBytes(n)](i => 0xFF);
      free := 0;
      used := AllUsed(n);
      new;
      forall p | 0 <= p < total ensures used[p] == Bit(bitmap[p / 8], p % 8) {
        AllOnes(p % 8);
      }
    }

    method BitTest(p: nat) returns (b: bool)
      requires Mirrors() && p < total
      ensures b == used[p]
    {
      b := Bit(bitmap[p / 8], p % 8);
    }

    method BitSet(p: nat)
      requires Mirrors() && p < total
      modifies bitmap, `used
      ensures Mirrors() && used == old(used)[p := true]
    {
      ghost var was := bitmap[p / 8];
      bitmap[p / 8] := Set(bitmap[p / 8], p % 8);
      used := used[p := true];
      forall q | 0 <= q < total ensures used[q] == Bit(bitmap[q / 8], q % 8) {
        if q / 8 == p / 8 {
          SetBit(was, p % 8, q % 8);
        }
      }
    }

    method BitClear(p: nat)
      requires Mirrors() && p < total
      modifies bitmap, `used
      ensures Mirrors() && used == old(used)[p := false]
    {
      ghost var was := bitmap[p / 8];
      bitmap[p / 8] := Clear(bitmap[p / 8], p % 8);
      used := used[p := false];
      forall q | 0 <= q < total ensures used[q] == Bit(bitmap[q / 8], q % 8) {
        if q / 8 == p / 8 {
          ClearBit(was, p % 8, q % 8);
        }
      }
    }

    /** `reserve_range`. */
    method ReserveRange(start: nat, size: nat)
      requires Valid()
      modifies bitmap, `used, `free
      ensures Valid()
      ensures used == if size == 0 then old(used) else Mark(old(used), FirstPage(start), LastPage(start, size), true)
    {
      hide PmmObject.Mirrors;
      hide CountFree;
      hide Mark;
      if size == 0 {
        return;
      }
      var p := FirstPage(start);
      var last := LastPage(start, size);
      assert Mark(used, p, p, true) == used;
      while p < last && p < total
        invariant Valid() && FirstPage(start) <= p && (p > FirstPage(start) ==> p <= last && p <= total)
        invariant used == Mark(old(used), FirstPage(start), p, true)
      {
        MarkNext(old(used), FirstPage(start), p, true);
        CountOne(used, p, true);
        var b := BitTest(p);
        if !b {
          CountPositive(used, p);
          BitSet(p);
          if free > 0 {
            free := free - 1;
          }
        }
        p := p + 1;
      }
      assert used == Mark(old(used), FirstPage(start), last, true);
    }

    /** Step 4 of start-up for one descriptor. */
    method FreeDesc(d: Desc)
      requires Valid()
      modifies bitmap, `used, `free
      ensures Valid()
      ensures used ==
        if d.conventional then Mark(old(used), d.start / PAGE, (d.start / PAGE + d.pages) % WORD, false) else old(used)
    {
      hide PmmObject.Mirrors;
      hide CountFree;
      hide Mark;
      if !d.conventional {
        return;
      }
      var first := d.start / PAGE;
      var p := first;
      var last := (first + d.pages) % WORD;
      assert Mark(used, p, p, false) == used;
      while p < last && p < total
        invariant Valid() && first <= p && (p > first ==> p <= last && p <= total)
        invariant used == Mark(old(used), first, p, false)
      {
        MarkNext(old(used), first, p, false);
        CountOne(used, p, false);
        var b := BitTest(p);
        if b {
          BitClear(p);
          free := free + 1;
        }
        p := p + 1;
      }
      assert used == Mark(old(used), first, last, false);
    }

    /** Steps 4 and 5: free the conventional memory, then reserve. */
    method Start(descs: seq<Desc>, given: seq<Range>, home: nat)
      requires Mirrors() && used == AllUsed(total) && free == 0 && total == TotalPages(descs)
      requires BitmapHome(descs, 0, BitmapPages(total)) == Some(home)
      modifies bitmap, `used, `free
      ensures Valid() && Some(Abs()) == Init(descs, given)
    {
      hide CountFree;
      hide PmmObject.Mirrors;
      hide Highest;
      hide Mark;
      CountAllUsed(total);
      HighestFits(descs, |descs|);
      for i := 0 to |descs|
        invariant Valid() && used == FreeAll(AllUsed(total), descs, i)
      {
        FreeDesc(descs[i]);
      }
      ghost var freed := used;
      var ranges := Reserved(given, home, total);
      for i := 0 to |ranges|
        invariant Valid() && used == ReserveAll(freed, ranges, i)
      {
        ReserveRange(ranges[i].start, ranges[i].size);
      }
    }

    /** `pmm_alloc_page`: the lowest free page above 1 MiB. */
    method AllocPage() returns (r: Option<nat>)
      requires Valid()
      modifies bitmap, `used, `free
      ensures Valid() && (Abs(), r) == AllocContig(old(Abs()), 1)
    {
      hide PmmObject.Mirrors;
      hide CountFree;
      var p := FIRST;
      while p < total
        invariant p >= FIRST && Valid() && used == old(used)
        invariant FindRun(used, p, 1) == FindRun(used, FIRST, 1)
      {
        var b := BitTest(p);
        if !b {
          Take(p, 1);
          return Some(p * PAGE);
        }
        Skip(used, p, 1, p);
        p := p + 1;
      }
      r := None;
    }

    /** `pmm_alloc_contig`: search with skip-ahead past the page that broke the run. */
    method AllocPages(count: nat) returns (r: Option<nat>)
      requires Valid() && count < WORD && GuardStarts(total, count)
      modifies bitmap, `used, `free
      ensures Valid() && (Abs(), r) == AllocContig(old(Abs()), count)
    {
      hide PmmObject.Mirrors;
      hide CountFree;
      if count == 0 {
        return None;
      }
      if count == 1 {
        r := AllocPage();
        return;
      }
      GuardExact(total, count);
      var p := FIRST;
      while (p + count) % WORD <= total
        invariant p >= FIRST && Valid() && used == old(used) && (p > FIRST ==> FIRST + count <= total && p <= total + 1)
        invariant GuardAgrees(p, count, total)
        invariant FindRun(used, p, count) == FindRun(used, FIRST, count)
        decreases total + 1 - p
      {
        var run := Extent(p, count);
        if run == count {
          Take(p, count);
          return Some(p * PAGE);
        }
        Skip(used, p, count, p + run);
        p := p + run + 1;
        assert GuardAgrees(p, count, total);
      }
      r := None;
    }

    /** Free pages from `p` on, up to `count`. */
    method Extent(p: nat, count: nat) returns (run: nat)
      requires Mirrors() && p + count <= total
      ensures run <= count && (run == count <==> RunFree(used, p, count))
      ensures run < count ==> used[p + run]
    {
      run := 0;
      while run < count
        invariant run <= count && forall i :: p <= i < p + run ==> !used[i]
      {
        var b := BitTest(p + run);
        if b {
          return;
        }
        run := run + 1;
      }
    }

    method Take(p: nat, count: nat)
      requires Valid() && RunFree(used, p, count)
      modifies bitmap, `used, `free
      ensures Valid() && used == Mark(old(used), p, p + count, true)
    {
      hide PmmObject.Mirrors;
      hide CountFree;
      hide Mark;
      CountMark(used, p, count);
      assert Mark(used, p, p, true) == used;
      for i := 0 to count
        invariant Mirrors() && used == Mark(old(used), p, p + i, true) && free == old(free)
      {
        MarkNext(old(used), p, p + i, true);
        BitSet(p + i);
      }
      free := free - count;
    }

    /** `pmm_free_page`; `ok` is false where the kernel panics. */
    method ReleasePage(addr: nat) returns (ok: bool)
      requires Valid()
      modifies bitmap, `used, `free
      ensures Valid() && ok == FreePage(old(Abs()), addr).Some?
      ensures Some(Abs()) == if ok then FreePage(old(Abs()), addr) else Some(old(Abs()))
    {
      if addr == 0 || addr % PAGE != 0 || addr < LOW_END {
        return false;
      }
      var page := addr / PAGE;
      if page >= total {
        return false;
      }
      var b := BitTest(page);
      if !b {
        return false;
      }
      FreePageKeeps(Abs(), addr);
      BitClear(page);
      free := free + 1;
      ok := true;
    }
  }

  lemma {:induction false} AllOnes(j: nat)
    requires j < 8
    ensures Bit(0xFF, j)
  {
    if j == 0 {} else if j == 1 {} else if j == 2 {} else if j == 3 {}
    else if j == 4 {} else if j == 5 {} else if j == 6 {} else {}
  }
}
