/** First-fit coalescing heap (kernel/memory/heap.c).
 *
 *  The heap is the list of blocks that tile the arena, from low to high addresses.
 *  Sizes are in bytes and cover header and payload.
 */
module HeapSpec {

  const ARENA: nat := 2 * 1024 * 1024
  const HEADER: nat := 16
  const MIN_BLOCK: nat := 32
  const WORD: nat := 0x1_0000_0000_0000_0000

  datatype Block = Block(size: nat, free: bool)

  type Blocks = seq<Block>

  function Sum(bs: Blocks): nat {
    if bs == [] then 0 else bs[0].size + Sum(bs[1..])
  }

  function InUse(bs: Blocks): nat {
    if bs == [] then 0 else (if bs[0].free then 0 else bs[0].size) + InUse(bs[1..])
  }

  predicate Sized(bs: Blocks) {
    forall i :: 0 <= i < |bs| ==> bs[i].size % 16 == 0 && bs[i].size >= MIN_BLOCK
  }

  predicate NoAdjacentFree(bs: Blocks) {
    forall i :: 0 <= i < |bs| - 1 ==> !(bs[i].free && bs[i + 1].free)
  }

  /** The blocks tile the arena, are well sized, and no two free ones touch. */
  ghost predicate Inv(bs: Blocks) {
    Sum(bs) == ARENA && Sized(bs) && NoAdjacentFree(bs)
  }

  /** Block sizes by block address, for the allocated blocks at and above `base`. */
  ghost function Live(bs: Blocks, base: nat): map<nat, nat> {
    if bs == [] then map[]
    else
      var rest := Live(bs[1..], base + bs[0].size);
      if bs[0].free then rest else rest[base := bs[0].size]
  }

  /** Does byte `x` lie in a free block? */
  ghost predicate FreeByte(bs: Blocks, base: nat, x: nat) {
    bs != [] && x >= base &&
    if x < base + bs[0].size then bs[0].free else FreeByte(bs[1..], base + bs[0].size, x)
  }

  // ---- Operations ---------------------------------------------------------------

  /** Block size for a request, in 64-bit arithmetic. */
  function Need(size: nat): nat {
    (HEADER + size + 15) % WORD / 16 * 16
  }

  /** Index of the lowest free block of at least `need` bytes; the list length if none. */
  function FirstFit(bs: Blocks, need: nat): (i: nat)
    ensures i <= |bs|
    ensures i < |bs| ==> bs[i].free && bs[i].size >= need
    ensures forall j :: 0 <= j < i ==> !(bs[j].free && bs[j].size >= need)
  {
    if bs == [] then 0
    else if bs[0].free && bs[0].size >= need then 0
    else 1 + FirstFit(bs[1..], need)
  }

  /** The blocks that replace the chosen free block. */
  function Carve(b: Block, need: nat): (r: Blocks)
    requires b.size >= need
  {
    if b.size - need >= HEADER + 16 then [Block(need, false), Block(b.size - need, true)]
    else [Block(b.size, false)]
  }

  function Alloc(bs: Blocks, i: nat, need: nat): (r: Blocks)
    requires i < |bs| && bs[i].size >= need
  {
    bs[..i] + Carve(bs[i], need) + bs[i + 1..]
  }

  /** Merge every run of adjacent free blocks, left to right. */
  function Merge(bs: Blocks): (r: Blocks)
    decreases |bs|
  {
    if |bs| < 2 then bs
    else if bs[0].free && bs[1].free then Merge([Block(bs[0].size + bs[1].size, true)] + bs[2..])
    else [bs[0]] + Merge(bs[1..])
  }

  function Release(bs: Blocks, i: nat): (r: Blocks)
    requires i < |bs|
  {
    Merge(bs[i := Block(bs[i].size, true)])
  }

  // ---- Sums and live blocks over concatenation --------------------------------------

  lemma {:induction false} SumAppend(a: Blocks, b: Blocks)
    ensures Sum(a + b) == Sum(a) + Sum(b)
    ensures InUse(a + b) == InUse(a) + InUse(b)
  {
    if a == [] {
      assert a + b == b;
    } else {
      SumAppend(a[1..], b);
      assert (a + b)[1..] == a[1..] + b;
    }
  }

  lemma {:induction false} LiveAppend(a: Blocks, b: Blocks, base: nat)
    requires Sized(a)
    ensures Live(a + b, base) == Live(a, base) + Live(b, base + Sum(a))
  {
    if a == [] {
      assert a + b == b;
    } else {
      LiveAppend(a[1..], b, base + a[0].size);
      assert (a + b)[1..] == a[1..] + b;
      LiveBounds(b, base + Sum(a));
    }
  }

  /** Live blocks lie inside the span of the list. */
  lemma {:induction false} LiveBounds(bs: Blocks, base: nat)
    ensures forall o :: o in Live(bs, base) ==> base <= o && o + Live(bs, base)[o] <= base + Sum(bs)
  {
    if bs != [] {
      LiveBounds(bs[1..], base + bs[0].size);
    }
  }

  /** Live blocks never overlap. */
  lemma {:induction false} LiveDisjoint(bs: Blocks, base: nat, o: nat, p: nat)
    requires Sized(bs) && o in Live(bs, base) && p in Live(bs, base) && o < p
    ensures o + Live(bs, base)[o] <= p
  {
    LiveBounds(bs[1..], base + bs[0].size);
    if o != base || bs[0].free {
      LiveDisjoint(bs[1..], base + bs[0].size, o, p);
    }
  }

  // ---- Coalescing -------------------------------------------------------------------

  /** Coalescing changes no live block and no total, and leaves no adjacent free pair. */
  lemma {:induction false} MergeFacts(bs: Blocks, base: nat)
    requires Sized(bs)
    ensures Sized(Merge(bs)) && NoAdjacentFree(Merge(bs))
    ensures Sum(Merge(bs)) == Sum(bs) && InUse(Merge(bs)) == InUse(bs)
    ensures Live(Merge(bs), base) == Live(bs, base)
    ensures bs != [] ==> Merge(bs) != [] && Merge(bs)[0].free == bs[0].free
    decreases |bs|
  {
    if |bs| >= 2 {
      if bs[0].free && bs[1].free {
        var m := Block(bs[0].size + bs[1].size, true);
        MergeFacts([m] + bs[2..], base);
        assert ([m] + bs[2..])[1..] == bs[2..] == bs[1..][1..];
      } else {
        MergeFacts(bs[1..], base + bs[0].size);
        var r := Merge(bs[1..]);
        assert ([bs[0]] + r)[1..] == r;
        forall i | 0 <= i < |r| ensures !([bs[0]] + r)[i].free || !([bs[0]] + r)[i + 1].free {
          if i > 0 {
            assert !(r[i - 1].free && r[i].free);
          }
        }
      }
    }
  }

  /** Which bytes are free is not changed by coalescing either. */
  lemma {:induction false} MergeFreeBytes(bs: Blocks, base: nat, x: nat)
    requires Sized(bs)
    ensures FreeByte(Merge(bs), base, x) == FreeByte(bs, base, x)
    decreases |bs|
  {
    if |bs| >= 2 {
      if bs[0].free && bs[1].free {
        var m := Block(bs[0].size + bs[1].size, true);
        MergeFreeBytes([m] + bs[2..], base, x);
        assert ([m] + bs[2..])[1..] == bs[2..] == bs[1..][1..];
      } else {
        MergeFreeBytes(bs[1..], base + bs[0].size, x);
        assert ([bs[0]] + Merge(bs[1..]))[1..] == Merge(bs[1..]);
      }
    }
  }

  // ---- Allocation -------------------------------------------------------------------

  /** The rounded block size covers header and request exactly when the 64-bit
   *  addition does not wrap; a wrapped request asks for less than a minimal block. */
  lemma {:induction false} NeedCoversRequest(size: nat)
    requires 0 < size < WORD
    ensures Need(size) >= HEADER + size <==> size + 31 < WORD
    ensures size + 31 < WORD <==> Need(size) >= MIN_BLOCK
    ensures Need(size) % 16 == 0
    ensures size + 31 < WORD ==> Need(size) < HEADER + size + 16
  {
  }

  /** Sums and live blocks of a list in three pieces. */
  lemma {:induction false} Pieces(pre: Blocks, mid: Blocks, post: Blocks)
    requires Sized(pre) && Sized(mid) && Sized(post)
    ensures var bs, o, e := pre + mid + post, Sum(pre), Sum(pre) + Sum(mid);
            && Sum(bs) == e + Sum(post) && InUse(bs) == InUse(pre) + InUse(mid) + InUse(post)
            && Live(bs, 0) == Live(pre, 0) + Live(mid, o) + Live(post, e)
            && (forall k :: k in Live(pre, 0) ==> k < o)
            && (forall k :: k in Live(post, e) ==> e <= k)
  {
    SumAppend(pre + mid, post);
    SumAppend(pre, mid);
    assert Sized(pre + mid);
    LiveAppend(pre + mid, post, 0);
    LiveAppend(pre, mid, 0);
    LivePositive(pre, 0);
    LiveBounds(post, Sum(pre) + Sum(mid));
  }

  lemma {:induction false} CarveFacts(b: Block, need: nat, o: nat)
    requires b.size % 16 == 0 && b.size >= need && need % 16 == 0 && need >= MIN_BLOCK
    ensures var c := Carve(b, need);
            && Sized(c) && Sum(c) == b.size && InUse(c) == c[0].size && Live(c, o) == map[o := c[0].size]
            && need <= c[0].size < need + MIN_BLOCK
  {
    var c := Carve(b, need);
    FreeSingle(c[0], o);
    if |c| == 2 {
      assert c == [c[0]] + [c[1]];
      FreeSingle(c[1], o + need);
      SumAppend([c[0]], [c[1]]);
      LiveAppend([c[0]], [c[1]], o);
    }
  }

  /** Handing out the block at `i` adds exactly that block to the live ones and keeps
   *  the arena tiled without adjacent free blocks. */
  lemma {:induction false} AllocFacts(bs: Blocks, i: nat, need: nat)
    requires Inv(bs) && i < |bs| && bs[i].free && bs[i].size >= need
    requires need % 16 == 0 && need >= MIN_BLOCK
    ensures var r, o, got := Alloc(bs, i, need), Sum(bs[..i]), Carve(bs[i], need)[0].size;
            && Inv(r)
            && o !in Live(bs, 0) && Live(r, 0) == Live(bs, 0)[o := got]
            && need <= got < need + MIN_BLOCK
            && InUse(r) == InUse(bs) + got
  {
    hide Live;
    hide InUse;
    hide Carve;
    var pre, post, c := bs[..i], bs[i + 1..], Carve(bs[i], need);
    CarveFacts(bs[i], need, Sum(pre));
    FreeSingle(bs[i], Sum(pre));
    assert bs == pre + [bs[i]] + post;
    Pieces(pre, [bs[i]], post);
    Pieces(pre, c, post);
    forall k | 0 <= k < |Alloc(bs, i, need)| - 1
      ensures !(Alloc(bs, i, need)[k].free && Alloc(bs, i, need)[k + 1].free)
    {
      AllocNeighbours(bs, i, need, k);
    }
  }

  lemma {:induction false} FreeSingle(b: Block, o: nat)
    ensures Sum([b]) == b.size
    ensures b.free ==> InUse([b]) == 0 && Live([b], o) == map[]
    ensures !b.free ==> InUse([b]) == b.size && Live([b], o) == map[o := b.size]
  {
    assert [b][1..] == [];
  }

  lemma {:induction false} AllocNeighbours(bs: Blocks, i: nat, need: nat, k: nat)
    requires NoAdjacentFree(bs) && i < |bs| && bs[i].free && bs[i].size >= need
    requires k + 1 < |Alloc(bs, i, need)|
    ensures !(Alloc(bs, i, need)[k].free && Alloc(bs, i, need)[k + 1].free)
  {
    var r, n := Alloc(bs, i, need), |Carve(bs[i], need)|;
    if k + 1 < i {
      assert r[k] == bs[k] && r[k + 1] == bs[k + 1];
    } else if k >= i + n {
      assert r[k] == bs[k - n + 1] && r[k + 1] == bs[k - n + 2];
    } else if k == i + n - 1 {
      assert r[k + 1] == bs[i + 1];
    }
  }

  lemma {:induction false} LivePositive(bs: Blocks, base: nat)
    requires Sized(bs)
    ensures forall o :: o in Live(bs, base) ==> o < base + Sum(bs) && Live(bs, base)[o] >= MIN_BLOCK
  {
    if bs != [] {
      assert Sized(bs[1..]);
      LivePositive(bs[1..], base + bs[0].size);
    }
  }

  /** First fit fails only when no contiguous run of `need` free bytes exists anywhere. */
  lemma {:induction false} FailMeansNoRun(bs: Blocks, base: nat, need: nat, a: nat)
    requires NoAdjacentFree(bs) && need > 0 && a >= base
    requires forall i :: 0 <= i < |bs| ==> bs[i].size > 0 && !(bs[i].free && bs[i].size >= need)
    ensures exists x :: a <= x < a + need && !FreeByte(bs, base, x)
    decreases |bs|
  {
    if bs == [] {
      assert !FreeByte(bs, base, a);
    } else {
      var e := base + bs[0].size;
      if a >= e {
        assert NoAdjacentFree(bs[1..]) by {
          assert forall i :: 0 <= i < |bs| - 1 ==> bs[1..][i] == bs[i + 1];
        }
        FailMeansNoRun(bs[1..], e, need, a);
        var x :| a <= x < a + need && !FreeByte(bs[1..], e, x);
        assert !FreeByte(bs, base, x);
      } else if !bs[0].free {
        assert !FreeByte(bs, base, a);
      } else {
        assert |bs| > 1 ==> !bs[1..][0].free;
        assert !FreeByte(bs[1..], e, e);
        assert !FreeByte(bs, base, e);
      }
    }
  }

  /** A wrapped request of one granule that takes a minimal block whole. */
  predicate Snug(b: Block, need: nat) {
    need == 16 && b.size == MIN_BLOCK
  }

  /** In any heap, an allocation leaves a well-formed heap exactly when the request did not
   *  wrap or happens to take a minimal block whole. Otherwise a wrapped one leaves a block too
   *  small to hold its own header and payload. */
  lemma {:induction false} WrapBreaksHeap(bs: Blocks, size: nat)
    requires Inv(bs) && 0 < size < WORD && FirstFit(bs, Need(size)) < |bs|
    ensures var i := FirstFit(bs, Need(size));
      Inv(Alloc(bs, i, Need(size))) <==> size + 31 < WORD || Snug(bs[i], Need(size))
  {
    NeedCoversRequest(size);
    var i := FirstFit(bs, Need(size));
    if size + 31 < WORD {
      AllocFacts(bs, i, Need(size));
    } else if Snug(bs[i], Need(size)) {
      AllocFacts(bs, i, MIN_BLOCK);
    } else {
      WrappedBlock(bs, i, Need(size));
    }
  }

  /** What a wrapped request leaves: a block of less than 32 bytes, even of none. */
  lemma {:induction false} WrappedBlock(bs: Blocks, i: nat, need: nat)
    requires i < |bs| && Sized(bs) && need <= bs[i].size && need < MIN_BLOCK && need % 16 == 0 && !Snug(bs[i], need)
    ensures !Sized(Alloc(bs, i, need))
  {
    var r := Alloc(bs, i, need);
    assert r[i] == Carve(bs[i], need)[0];
  }

  // ---- Release ----------------------------------------------------------------------

  /** Freeing a live block removes exactly that block from the live ones. */
  lemma {:induction false} ReleaseFacts(bs: Blocks, i: nat)
    requires Inv(bs) && i < |bs| && !bs[i].free
    ensures var r, o := Release(bs, i), Sum(bs[..i]);
            && Inv(r)
            && o in Live(bs, 0) && Live(bs, 0)[o] == bs[i].size
            && Live(r, 0) == Live(bs, 0) - {o}
            && InUse(r) == InUse(bs) - bs[i].size
  {
    hide Live;
    hide InUse;
    hide Merge;
    var pre, post, f := bs[..i], bs[i + 1..], Block(bs[i].size, true);
    var u := bs[i := f];
    assert bs == pre + [bs[i]] + post && u == pre + [f] + post;
    FreeSingle(bs[i], Sum(pre));
    FreeSingle(f, Sum(pre));
    Pieces(pre, [bs[i]], post);
    Pieces(pre, [f], post);
    MergeFacts(u, 0);
  }

  lemma {:induction false} MergeNothing(bs: Blocks)
    requires NoAdjacentFree(bs)
    ensures Merge(bs) == bs
  {
    if |bs| >= 2 {
      assert !(bs[0].free && bs[0 + 1].free);
      assert forall i :: 0 <= i < |bs| - 1 ==> bs[1..][i] == bs[i + 1];
      MergeNothing(bs[1..]);
    }
  }

  /** When nothing is live the heap is one free block spanning the arena. */
  lemma {:induction false} AllFreed(bs: Blocks)
    requires Inv(bs) && Live(bs, 0) == map[]
    ensures bs == [Block(ARENA, true)]
  {
    assert |bs| < 2 || !(bs[0].free && bs[0 + 1].free);
    AllFree(bs, 0);
    assert Sum(bs[1..]) == 0;
  }

  lemma {:induction false} AllFree(bs: Blocks, base: nat)
    requires Sized(bs) && Live(bs, base) == map[]
    ensures forall i :: 0 <= i < |bs| ==> bs[i].free
  {
    if bs != [] {
      assert bs[0].free || base in Live(bs, base);
      AllFree(bs[1..], base + bs[0].size);
      assert forall i :: 0 < i < |bs| ==> bs[i] == bs[1..][i - 1];
    }
  }

  // ---- Whole runs -------------------------------------------------------------------

  datatype Op = Malloc(size: nat) | Free(o: nat)

  /** The block that starts at a live address. */
  ghost function IndexOf(bs: Blocks, base: nat, o: nat): (i: nat)
    requires Sized(bs) && o in Live(bs, base)
    ensures i < |bs| && !bs[i].free && base + Sum(bs[..i]) == o
  {
    if o == base && !bs[0].free then 0
    else
      var i := 1 + IndexOf(bs[1..], base + bs[0].size, o);
      assert bs[..i][1..] == bs[1..][..i - 1];
      i
  }

  /** A request that fits is served by first fit; a free of anything but a live block
   *  is ignored. */
  ghost function Step(bs: Blocks, op: Op): (r: Blocks)
    requires Inv(bs) && (op.Malloc? ==> op.size + 31 < WORD)
  {
    match op
    case Malloc(size) =>
      var i := FirstFit(bs, Need(size));
      if size == 0 || i == |bs| then bs else Alloc(bs, i, Need(size))
    case Free(o) => if o in Live(bs, 0) then Release(bs, IndexOf(bs, 0, o)) else bs
  }

  /** `need` contiguous free bytes start at `a`. */
  ghost predicate FreeRun(bs: Blocks, need: nat, a: nat) {
    forall x :: a <= x < a + need ==> FreeByte(bs, 0, x)
  }

  /** `r` has exactly one live block more, `n` bytes at `o`. */
  ghost predicate Adds(bs: Blocks, r: Blocks, o: nat, n: nat) {
    o !in Live(bs, 0) && Live(r, 0) == Live(bs, 0)[o := n]
  }

  /** What a step does to the live blocks: an allocation adds one at a fresh place big
   *  enough for the request, or fails because no run of free bytes is; a free removes
   *  the one it names. */
  lemma {:induction false} StepFacts(bs: Blocks, op: Op)
    requires Inv(bs) && (op.Malloc? ==> op.size + 31 < WORD)
    ensures Inv(Step(bs, op))
    ensures op.Free? ==> Live(Step(bs, op), 0) == Live(bs, 0) - {op.o}
    ensures op.Malloc? && Step(bs, op) != bs ==>
              exists o, n :: n >= HEADER + op.size && Adds(bs, Step(bs, op), o, n)
    ensures op.Malloc? && op.size > 0 && Step(bs, op) == bs ==>
              forall a: nat :: !FreeRun(bs, Need(op.size), a)
  {
    match op
    case Malloc(size) =>
      if size > 0 {
        NeedCoversRequest(size);
        var i := FirstFit(bs, Need(size));
        if i < |bs| {
          AllocFacts(bs, i, Need(size));
          assert Adds(bs, Step(bs, op), Sum(bs[..i]), Carve(bs[i], Need(size))[0].size);
        } else {
          forall a: nat ensures !FreeRun(bs, Need(size), a) {
            FailMeansNoRun(bs, 0, Need(size), a);
          }
        }
      }
    case Free(o) =>
      if o in Live(bs, 0) {
        ReleaseFacts(bs, IndexOf(bs, 0, o));
      }
  }

  ghost predicate Requests(ops: seq<Op>) {
    forall i :: 0 <= i < |ops| && ops[i].Malloc? ==> ops[i].size + 31 < WORD
  }

  ghost function Run(bs: Blocks, ops: seq<Op>): (r: Blocks)
    requires Inv(bs) && Requests(ops)
    ensures Inv(r)
    decreases |ops|
  {
    if ops == [] then bs
    else
      StepFacts(bs, ops[0]);
      Run(Step(bs, ops[0]), ops[1..])
  }

  /** After any run that leaves nothing allocated, in whatever order blocks were freed,
   *  the heap is what `heap_init` made it. */
  lemma {:induction false} FreedInAnyOrder(ops: seq<Op>)
    requires Requests(ops) && Inv([Block(ARENA, true)])
    requires Live(Run([Block(ARENA, true)], ops), 0) == map[]
    ensures Run([Block(ARENA, true)], ops) == [Block(ARENA, true)]
  {
    AllFreed(Run([Block(ARENA, true)], ops));
  }
}

/** The heap as the kernel runs it: block headers inside the arena, rewritten in place.
 *  The arena is an array of 16-byte granules; every granule can be read as a header. */
module Heap {
  import opened HeapSpec

  const MAGIC: nat := 0x484E5848

  datatype Header = Header(size: nat, free: bool, magic: nat)

  ghost predicate Matches(h: Header, b: Block) {
    h.size == b.size && h.free == b.free && (h.magic == MAGIC <==> !b.free)
  }

  /** The headers found by walking the arena from byte `o` are those of `bs`. */
  ghost predicate Walk(m: seq<Header>, o: nat, bs: Blocks)
    decreases |bs|
  {
    bs == [] || (o % 16 == 0 && o / 16 < |m| && Matches(m[o / 16], bs[0]) && Walk(m, o + bs[0].size, bs[1..]))
  }

  lemma {:induction false} WalkSplit(m: seq<Header>, o: nat, a: Blocks, b: Blocks)
    ensures Walk(m, o, a + b) <==> Walk(m, o, a) && Walk(m, o + Sum(a), b)
    decreases |a|
  {
    if a == [] {
      assert a + b == b;
    } else {
      assert (a + b)[1..] == a[1..] + b;
      WalkSplit(m, o + a[0].size, a[1..], b);
    }
  }

  /** Writing a granule outside the walked span leaves the walk alone. */
  lemma {:induction false} WalkFrame(m: seq<Header>, m': seq<Header>, o: nat, bs: Blocks, lo: nat, hi: nat)
    requires Walk(m, o, bs) && |m| == |m'|
    requires forall g :: 0 <= g < |m| && !(lo <= 16 * g < hi) ==> m'[g] == m[g]
    requires hi <= o || o + Sum(bs) <= lo
    requires forall i :: 0 <= i < |bs| ==> bs[i].size > 0
    ensures Walk(m', o, bs)
    decreases |bs|
  {
    if bs != [] {
      WalkFrame(m, m', o + bs[0].size, bs[1..], lo, hi);
    }
  }

  /** Rewriting the span of the middle blocks replaces them by whatever now walks there. */
  lemma {:induction false} WalkReplace(m: seq<Header>, m': seq<Header>, pre: Blocks, mid: Blocks,
        mid': Blocks, post: Blocks)
    requires Walk(m, 0, pre + mid + post) && |m| == |m'|
    requires Sum(mid) == Sum(mid') && Walk(m', Sum(pre), mid')
    requires forall g :: 0 <= g < |m| && !(Sum(pre) <= 16 * g < Sum(pre) + Sum(mid)) ==> m'[g] == m[g]
    requires forall i :: 0 <= i < |pre| ==> pre[i].size > 0
    requires forall i :: 0 <= i < |post| ==> post[i].size > 0
    ensures Walk(m', 0, pre + mid' + post)
  {
    hide Walk;
    hide Sum;
    var lo, hi := Sum(pre), Sum(pre) + Sum(mid);
    WalkSplit(m, 0, pre + mid, post);
    WalkSplit(m, 0, pre, mid);
    SumAppend(pre, mid);
    SumAppend(pre, mid');
    WalkFrame(m, m', 0, pre, lo, hi);
    WalkFrame(m, m', hi, post, lo, hi);
    WalkSplit(m', 0, pre, mid');
    WalkSplit(m', 0, pre + mid', post);
  }

  lemma {:induction false} MergeStep(bs: Blocks)
    requires bs != [] && (|bs| >= 2 ==> !(bs[0].free && bs[1].free))
    ensures Merge(bs) == [bs[0]] + Merge(bs[1..])
  {
    if |bs| == 1 {
      assert bs[1..] == [] && bs == [bs[0]];
    }
  }

  lemma {:induction false} MergeAbsorb(x: Block, y: Block, post: Blocks)
    requires x.free && y.free
    ensures Merge([x, y] + post) == Merge([Block(x.size + y.size, true)] + post)
  {
    assert ([x, y] + post)[2..] == post;
  }

  /** The granules `m` are an arena tiled by `bs`. */
  ghost predicate Tiling(m: seq<Header>, bs: Blocks) {
    |m| == ARENA / 16 && Sum(bs) == ARENA && Sized(bs) && Walk(m, 0, bs)
  }

  lemma {:induction false} SizedAppend(a: Blocks, b: Blocks)
    ensures Sized(a + b) <==> Sized(a) && Sized(b)
  {
    if Sized(a + b) {
      forall i | 0 <= i < |a| ensures a[i] == (a + b)[i] {}
      forall i | 0 <= i < |b| ensures b[i] == (a + b)[|a| + i] {}
    }
  }

  lemma {:induction false} TilingTotals(m: seq<Header>, bs: Blocks)
    requires Tiling(m, bs)
    ensures |m| == ARENA / 16 && Sum(bs) == ARENA && Sized(bs)
  {
  }

  /** The pieces of a tiling are walked where the sums say. */
  lemma {:induction false} PieceAt(m: seq<Header>, pre: Blocks, mid: Blocks, post: Blocks)
    requires Tiling(m, pre + mid + post)
    ensures Walk(m, Sum(pre), mid) && Sum(pre) + Sum(mid) + Sum(post) == ARENA
    ensures Sized(pre) && Sized(mid) && Sized(post)
  {
    hide Walk;
    hide Sum;
    hide Sized;
    WalkSplit(m, 0, pre + mid, post);
    WalkSplit(m, 0, pre, mid);
    SumAppend(pre + mid, post);
    SumAppend(pre, mid);
    SizedAppend(pre + mid, post);
    SizedAppend(pre, mid);
  }

  /** Rewriting headers inside the span of the middle piece. */
  lemma {:induction false} Retile(m: seq<Header>, m': seq<Header>, pre: Blocks, mid: Blocks, mid': Blocks, post: Blocks)
    requires Tiling(m, pre + mid + post) && |m| == |m'|
    requires Sum(mid) == Sum(mid') && Sized(mid') && Walk(m', Sum(pre), mid')
    requires forall g :: 0 <= g < |m| && !(Sum(pre) <= 16 * g < Sum(pre) + Sum(mid)) ==> m'[g] == m[g]
    ensures Tiling(m', pre + mid' + post)
  {
    hide Walk;
    hide Sum;
    PieceAt(m, pre, mid, post);
    WalkReplace(m, m', pre, mid, mid', post);
    SumAppend(pre + mid', post);
    SumAppend(pre, mid');
    SizedAppend(pre + mid', post);
    SizedAppend(pre, mid');
  }

  lemma {:induction false} Pair(x: Block, y: Block)
    ensures Sum([x, y]) == x.size + y.size
    ensures forall m, o: nat :: Walk(m, o, [x, y]) <==> Walk(m, o, [x]) && Walk(m, o + x.size, [y])
  {
    assert [x, y] == [x] + [y];
    Single(x);
    Single(y);
    SumAppend([x], [y]);
    forall m, o: nat ensures Walk(m, o, [x, y]) <==> Walk(m, o, [x]) && Walk(m, o + x.size, [y]) {
      WalkSplit(m, o, [x], [y]);
    }
  }

  lemma {:induction false} Single(x: Block)
    ensures Sum([x]) == x.size
    ensures forall m, o: nat :: Walk(m, o, [x]) <==> o % 16 == 0 && o / 16 < |m| && Matches(m[o / 16], x)
  {
    assert [x][1..] == [];
  }

  /** What `b->size += n->size` does to the tiling. */
  lemma {:induction false} AbsorbRetiles(m: seq<Header>, pre: Blocks, x: Block, y: Block, post: Blocks)
    requires Tiling(m, pre + [x, y] + post) && x.free && y.free
    ensures var b := Sum(pre);
            && b / 16 < |m| && (b + x.size) / 16 < |m|
            && Matches(m[b / 16], x) && Matches(m[(b + x.size) / 16], y)
            && Tiling(m[b / 16 := m[b / 16].(size := x.size + y.size)], pre + [Block(x.size + y.size, true)] + post)
  {
    hide Walk;
    hide Sum;
    PieceAt(m, pre, [x, y], post);
    Pair(x, y);
    Single(x);
    Single(y);
    var b := Sum(pre);
    var m' := m[b / 16 := m[b / 16].(size := x.size + y.size)];
    var xy := Block(x.size + y.size, true);
    Single(xy);
    assert Sized([x, y]) ==> [x, y][0] == x && [x, y][1] == y;
    Retile(m, m', pre, [x, y], [xy], post);
  }

  /** What the walk finds at the end of `pre`. */
  lemma {:induction false} NextBlock(m: seq<Header>, pre: Blocks, rest: Blocks)
    requires Tiling(m, pre + rest)
    ensures Sum(pre) <= ARENA && (Sum(pre) == ARENA <==> rest == [])
    ensures rest != [] ==> Sum(pre) / 16 < |m| && Matches(m[Sum(pre) / 16], rest[0]) && rest[0].size >= MIN_BLOCK
    ensures rest != [] ==> Sum(pre + [rest[0]]) == Sum(pre) + rest[0].size && pre + rest == pre + [rest[0]] + rest[1..]
  {
    SumAppend(pre, rest);
    if rest != [] {
      assert pre + rest == pre + [rest[0]] + rest[1..];
      PieceAt(m, pre, [rest[0]], rest[1..]);
      Single(rest[0]);
      SumAppend(pre, [rest[0]]);
      assert [rest[0]][0].size >= MIN_BLOCK;
    }
  }

  /** The granules after an allocation carved `need` bytes out of block `x`. */
  function Carved(m: seq<Header>, b: nat, size: nat, need: nat): seq<Header>
    requires b / 16 < |m| && b + size <= 16 * |m| && need <= size
  {
    if size - need >= HEADER + 16 then
      m[(b + need) / 16 := Header(size - need, true, 0)][b / 16 := Header(need, false, MAGIC)]
    else m[b / 16 := Header(size, false, MAGIC)]
  }

  lemma {:induction false} CarveRetiles(m: seq<Header>, pre: Blocks, x: Block, post: Blocks, need: nat)
    requires Tiling(m, pre + [x] + post) && need % 16 == 0 && MIN_BLOCK <= need <= x.size
    ensures Sum(pre) / 16 < |m| && Sum(pre) + x.size <= 16 * |m| && Sum(pre) % 16 == 0
    ensures Tiling(Carved(m, Sum(pre), x.size, need), pre + Carve(x, need) + post)
  {
    hide Sum;
    hide Walk;
    PieceAt(m, pre, [x], post);
    Single(x);
    assert [x][0].size % 16 == 0;
    var b, c := Sum(pre), Carve(x, need);
    var m' := Carved(m, b, x.size, need);
    Single(c[0]);
    if |c| == 2 {
      Single(c[1]);
      Pair(c[0], c[1]);
      assert c == [c[0], c[1]];
    }
    CarveFacts(x, need, 0);
    Retile(m, m', pre, [x], c, post);
  }

  lemma {:induction false} FreeRetiles(m: seq<Header>, pre: Blocks, x: Block, post: Blocks)
    requires Tiling(m, pre + [x] + post)
    ensures Sum(pre) / 16 < |m| && Matches(m[Sum(pre) / 16], x)
    ensures Tiling(m[Sum(pre) / 16 := Header(x.size, true, 0)], pre + [Block(x.size, true)] + post)
  {
    hide Sum;
    hide Walk;
    PieceAt(m, pre, [x], post);
    Single(x);
    Single(Block(x.size, true));
    assert [x][0].size % 16 == 0 && [x][0].size >= MIN_BLOCK;
    Retile(m, m[Sum(pre) / 16 := Header(x.size, true, 0)], pre, [x], [Block(x.size, true)], post);
  }

  /** Storing into a live payload rewrites no header. */
  lemma {:induction false} PayloadRetiles(m: seq<Header>, pre: Blocks, x: Block, post: Blocks, g: nat, h: Header)
    requires Tiling(m, pre + [x] + post) && Sum(pre) < 16 * g < Sum(pre) + x.size && g < |m|
    ensures Tiling(m[g := h], pre + [x] + post)
  {
    hide Sum;
    hide Walk;
    PieceAt(m, pre, [x], post);
    Single(x);
    Retile(m, m[g := h], pre, [x], [x], post);
  }

  lemma {:induction false} FirstFitSkip(bs: Blocks, need: nat)
    requires bs != [] && !(bs[0].free && bs[0].size >= need)
    ensures FirstFit(bs, need) == 1 + FirstFit(bs[1..], need)
  {
  }

  lemma {:induction false} Nothing()
    ensures Sum([]) == 0 && Merge([]) == []
  {
  }

  /** A granule that carries the magic is a live header, or its last write was a store by the
   *  owner of a payload. */
  ghost predicate Marked(m: seq<Header>, bs: Blocks, stored: set<nat>) {
    forall g :: 0 <= g < |m| && m[g].magic == MAGIC ==> 16 * g in Live(bs, 0) || g in stored
  }

  ghost predicate SameMagic(m: seq<Header>, n: seq<Header>) {
    |m| == |n| && forall g :: 0 <= g < |m| ==> m[g].magic == n[g].magic
  }

  /** The granules that handing out `need` bytes of the block at `b` writes. */
  ghost function Written(b: nat, size: nat, need: nat): set<nat> {
    if size - need >= HEADER + 16 then {b / 16, (b + need) / 16} else {b / 16}
  }

  lemma {:induction false} MarkedCarve(m: seq<Header>, bs: Blocks, stored: set<nat>, b: nat,
        size: nat, need: nat, r: Blocks)
    requires Marked(m, bs, stored) && b % 16 == 0 && b / 16 < |m| && b + size <= 16 * |m| && need <= size
    requires forall o :: o in Live(bs, 0) || o == b ==> o in Live(r, 0)
    ensures Marked(Carved(m, b, size, need), r, stored - Written(b, size, need))
  {
    hide Live;
  }

  /** The block that covers byte `a`. */
  lemma {:induction false} Covering(bs: Blocks, base: nat, a: nat) returns (i: nat)
    requires base <= a < base + Sum(bs)
    ensures i < |bs| && base + Sum(bs[..i]) <= a < base + Sum(bs[..i]) + bs[i].size
  {
    if a < base + bs[0].size {
      i := 0;
      assert Sum(bs[..0]) == 0;
    } else {
      var k := Covering(bs[1..], base + bs[0].size, a);
      i := k + 1;
      assert bs[..i][1..] == bs[1..][..k];
    }
  }

  /** A granule that carries the magic and is no live header is no header at all: rewriting
   *  it leaves the tiling alone. */
  lemma {:induction false} ForgedRetiles(m: seq<Header>, bs: Blocks, g: nat, h: Header)
    requires Tiling(m, bs) && g < |m| && m[g].magic == MAGIC && 16 * g !in Live(bs, 0)
    ensures Tiling(m[g := h], bs)
  {
    hide Sum;
    hide Walk;
    hide Live;
    TilingTotals(m, bs);
    var i := Covering(bs, 0, 16 * g);
    var pre, x, post := bs[..i], bs[i], bs[i + 1..];
    assert bs == pre + [x] + post;
    PieceAt(m, pre, [x], post);
    Single(x);
    if Sum(pre) == 16 * g && !x.free {
      IsLive(bs, i);
    }
    PayloadRetiles(m, pre, x, post, g, h);
  }

  lemma {:induction false} IsLive(bs: Blocks, i: nat)
    requires Sized(bs) && i < |bs| && !bs[i].free
    ensures Sum(bs[..i]) in Live(bs, 0)
  {
    hide Live;
    var pre, post := bs[..i], bs[i + 1..];
    assert bs == pre + [bs[i]] + post;
    FreeSingle(bs[i], Sum(pre));
    SizedAppend(pre + [bs[i]], post);
    SizedAppend(pre, [bs[i]]);
    Pieces(pre, [bs[i]], post);
  }

  class HeapObject {
    const mem: array<Header>
    var inUse: nat
    var allocCount: nat
    var freeCount: nat
    var highWater: nat
    ghost var blocks: Blocks
    /** Granules whose last write was a store into a payload. */
    ghost var stored: set<nat>

    ghost predicate Valid()
      reads mem, `blocks, `stored
    {
      Tiling(mem[..], blocks) && NoAdjacentFree(blocks) && Marked(mem[..], blocks, stored)
    }

    /** The statistics agree with the blocks. */
    ghost predicate Counted()
      reads `blocks, `inUse, `allocCount, `freeCount, `highWater
    {
      && inUse == InUse(blocks) && inUse <= highWater
      && allocCount - freeCount == |Live(blocks, 0)|
    }

    constructor ()
      ensures Valid() && Counted() && fresh(mem) && blocks == [Block(ARENA, true)] && stored == {}
    {
      mem := new Header[ARENA / 16](i => Header(0, false, 0));
      inUse, allocCount, freeCount, highWater := 0, 0, 0, 0;
      blocks := [Block(ARENA, true)];
      stored := {};
      new;
      mem[0] := Header(ARENA, true, 0);
      assert blocks[1..] == [];
    }

    /** The inner loop: absorb free neighbours while the block at `b` is free. */
    method MergeAt(b: nat, ghost pre: Blocks, ghost rest: Blocks) returns (ghost r: Blocks)
      requires Tiling(mem[..], pre + rest) && b == Sum(pre) && rest != []
      modifies mem
      ensures Tiling(mem[..], pre + r) && r != [] && Merge(r) == Merge(rest)
      ensures |r| >= 2 ==> !(r[0].free && r[1].free)
      ensures SameMagic(old(mem[..]), mem[..])
      ensures |rest| < 2 || !(rest[0].free && rest[1].free) ==> r == rest && mem[..] == old(mem[..])
    {
      hide Merge;
      hide Tiling;
      hide Sum;
      r := rest;
      NextBlock(mem[..], pre, r);
      if mem[b / 16].free {
        var n := b + mem[b / 16].size;
        NextBlock(mem[..], pre + [r[0]], r[1..]);
        while n < ARENA && mem[n / 16].free
          invariant Tiling(mem[..], pre + r) && r != [] && Merge(r) == Merge(rest)
          invariant b / 16 < mem.Length && r[0].free && n == b + r[0].size
          invariant n <= ARENA && (n < ARENA <==> |r| >= 2)
          invariant n < ARENA ==> n / 16 < mem.Length && mem[n / 16].free == r[1].free
          invariant SameMagic(old(mem[..]), mem[..])
          invariant |rest| < 2 || !(rest[0].free && rest[1].free) ==> r == rest && mem[..] == old(mem[..])
          decreases ARENA - n
        {
          ghost var m, x, y, post := mem[..], r[0], r[1], r[2..];
          assert r == [x, y] + post && pre + r == pre + [x, y] + post;
          AbsorbRetiles(m, pre, x, y, post);
          mem[b / 16] := mem[b / 16].(size := mem[b / 16].size + mem[n / 16].size);
          assert mem[..] == m[b / 16 := m[b / 16].(size := x.size + y.size)];
          MergeAbsorb(x, y, post);
          r := [Block(x.size + y.size, true)] + post;
          assert pre + r == pre + [Block(x.size + y.size, true)] + post;
          NextBlock(mem[..], pre, r);
          NextBlock(mem[..], pre + [r[0]], r[1..]);
          n := b + mem[b / 16].size;
        }
      }
    }

    method Coalesce()
      requires Tiling(mem[..], blocks)
      modifies this`blocks, mem
      ensures Tiling(mem[..], blocks) && blocks == Merge(old(blocks))
      ensures SameMagic(old(mem[..]), mem[..])
      ensures NoAdjacentFree(old(blocks)) ==> mem[..] == old(mem[..])
    {
      hide Merge;
      hide Tiling;
      hide Sum;
      var b := 0;
      ghost var pre, rest: Blocks := [], blocks;
      assert [] + rest == rest;
      Nothing();
      NextBlock(mem[..], pre, rest);
      while b < ARENA
        invariant Tiling(mem[..], pre + rest) && b == Sum(pre) && (b < ARENA <==> rest != []) && b <= ARENA
        invariant pre + Merge(rest) == Merge(old(blocks)) && SameMagic(old(mem[..]), mem[..])
        invariant NoAdjacentFree(old(blocks)) ==> mem[..] == old(mem[..]) && pre + rest == old(blocks)
        decreases ARENA - b
      {
        NotAdjacent(old(blocks), pre, rest);
        rest := MergeAt(b, pre, rest);
        NextBlock(mem[..], pre, rest);
        MergeStep(rest);
        assert pre + ([rest[0]] + Merge(rest[1..])) == (pre + [rest[0]]) + Merge(rest[1..]);
        b := b + mem[b / 16].size;
        pre, rest := pre + [rest[0]], rest[1..];
        NextBlock(mem[..], pre, rest);
      }
      Nothing();
      assert pre + [] == pre;
      blocks := pre + rest;
    }

    /** Write the headers of an allocated block and, if it pays, of the leftover. */
    method SplitHeaders(b: nat, need: nat)
      requires b % 16 == 0 && need % 16 == 0 && b / 16 < mem.Length
      requires need <= mem[b / 16].size && b + mem[b / 16].size <= 16 * mem.Length
      modifies mem
      ensures mem[..] == Carved(old(mem[..]), b, old(mem[b / 16].size), need)
      ensures mem[b / 16].size == Carve(Block(old(mem[b / 16].size), true), need)[0].size
    {
      var size := mem[b / 16].size;
      if size - need >= HEADER + 16 {
        mem[(b + need) / 16] := Header(size - need, true, 0);
        mem[b / 16] := mem[b / 16].(size := need);
      }
      mem[b / 16] := mem[b / 16].(free := false, magic := MAGIC);
    }

    /** Hand out the free block at `b`, splitting it if the leftover can hold a block. */
    method Take(b: nat, need: nat, ghost pre: Blocks, ghost rest: Blocks)
      requires Valid() && blocks == pre + rest && b == Sum(pre) && rest != []
      requires rest[0].free && rest[0].size >= need && need % 16 == 0
      requires b / 16 < mem.Length && Matches(mem[b / 16], rest[0])
      modifies this, mem
      ensures blocks == Alloc(old(blocks), |pre|, need)
      ensures Valid() <==> need >= MIN_BLOCK || Snug(rest[0], need)
      ensures Valid() ==>
        && (old(Counted()) ==> Counted()) && stored <= old(stored)
        && b !in old(Live(blocks, 0)) && b in Live(blocks, 0) && Live(blocks, 0)[b] >= need
    {
      hide Tiling;
      hide Live;
      hide InUse;
      hide Sum;
      hide Carved;
      hide Carve;
      hide Marked;
      ghost var x, post, m := rest[0], rest[1..], mem[..];
      assert pre + rest == pre + [x] + post;
      assert blocks[..|pre|] == pre && blocks[|pre|] == x && blocks[|pre| + 1..] == post;
      TilingTotals(m, blocks);
      HeaderAt(m, pre, x, post);
      ghost var fits := need >= MIN_BLOCK || Snug(x, need);
      ghost var n := if need >= MIN_BLOCK then need else MIN_BLOCK;
      if fits {
        SameCarve(m, b, x, need, n);
        CarveRetiles(m, pre, x, post, n);
        AllocFacts(blocks, |pre|, n);
        MarkedCarve(m, blocks, stored, b, x.size, need, Alloc(blocks, |pre|, n));
      } else {
        WrappedBlock(blocks, |pre|, need);
      }
      SplitHeaders(b, need);
      allocCount := allocCount + 1;
      inUse := inUse + mem[b / 16].size;
      if inUse > highWater {
        highWater := inUse;
      }
      blocks := pre + Carve(x, need) + post;
      stored := stored - Written(b, x.size, need);
      if !fits {
        NotTiled(mem[..], blocks);
      }
    }

    /** The first-fit search. */
    method FindFit(need: nat) returns (b: nat, ghost i: nat)
      requires Tiling(mem[..], blocks)
      ensures i == FirstFit(blocks, need) && b <= ARENA
      ensures b == ARENA <==> i == |blocks|
      ensures b < ARENA ==> b == Sum(blocks[..i]) && b / 16 < mem.Length && Matches(mem[b / 16], blocks[i])
    {
      hide Tiling;
      hide Sum;
      hide FirstFit;
      b := 0;
      ghost var pre, rest: Blocks := [], blocks;
      assert [] + rest == rest;
      Nothing();
      NextBlock(mem[..], pre, rest);
      while b < ARENA
        invariant Tiling(mem[..], pre + rest) && pre + rest == blocks && b == Sum(pre) && b <= ARENA
        invariant b < ARENA <==> rest != []
        invariant rest != [] ==> b / 16 < mem.Length && Matches(mem[b / 16], rest[0]) && rest[0].size >= MIN_BLOCK
        invariant FirstFit(blocks, need) == |pre| + FirstFit(rest, need)
        decreases ARENA - b
      {
        if mem[b / 16].free && mem[b / 16].size >= need {
          FirstFitHere(rest, need);
          i := |pre|;
          assert blocks[..i] == pre;
          return;
        }
        FirstFitSkip(rest, need);
        NextBlock(mem[..], pre, rest);
        b := b + mem[b / 16].size;
        pre, rest := pre + [rest[0]], rest[1..];
        NextBlock(mem[..], pre, rest);
      }
      NoFit(need);
      i := |pre|;
    }

    /** `kmalloc`: the payload address, or 0 for a NULL result (nothing requested, or the
     *  out-of-memory stop). A request whose rounding wraps is served, and breaks the heap. */
    method Kmalloc(size: nat) returns (p: nat)
      requires Valid() && size < WORD
      modifies this, mem
      ensures Inv(old(blocks))
      ensures var i := FirstFit(old(blocks), Need(size));
        && (p == 0 <==> size == 0 || i == |old(blocks)|)
        && (p == 0 ==> blocks == old(blocks) && mem[..] == old(mem[..]))
        && (p != 0 ==> blocks == Alloc(old(blocks), i, Need(size)) && p == Sum(old(blocks)[..i]) + HEADER)
        && (Valid() <==> p == 0 || size + 31 < WORD || Snug(old(blocks)[i], Need(size)))
      ensures size + 31 < WORD ==> blocks == Step(old(blocks), Malloc(size))
      ensures Valid() ==> (old(Counted()) ==> Counted()) && stored <= old(stored)
      ensures p != 0 && Valid() ==> p >= HEADER && p - HEADER !in old(Live(blocks, 0)) && p - HEADER in Live(blocks, 0)
      ensures p != 0 && size + 31 < WORD ==> Live(blocks, 0)[p - HEADER] >= HEADER + size
    {
      hide Tiling;
      hide Sum;
      hide Live;
      hide InUse;
      hide Marked;
      TilingTotals(mem[..], blocks);
      if size == 0 {
        return 0;
      }
      NeedCoversRequest(size);
      var b, i := FindFit(Need(size));
      if b == ARENA {
        return 0;
      }
      assert blocks == blocks[..i] + blocks[i..];
      Take(b, Need(size), blocks[..i], blocks[i..]);
      p := b + HEADER;
    }

    /** A pointer whose header granule holds the magic although no block starts there. */
    ghost predicate Forged(p: int)
      reads mem, `blocks, `stored
    {
      && HEADER <= p < ARENA && p - HEADER !in Live(blocks, 0)
      && (p - HEADER) / 16 < mem.Length && mem[(p - HEADER) / 16].magic == MAGIC
      && (p - HEADER) / 16 in stored
    }

    /** `kfree`: `p` is an address relative to the arena. The guard lets exactly the live
     *  pointers through and those whose header granule was last written by the owner of a
     *  payload, with the magic. Such a stale free changes that granule and the statistics. */
    method Kfree(p: int) returns (ghost accepted: bool)
      requires Valid() && (HEADER <= p < ARENA ==> p % 16 == 0)
      modifies this, mem
      ensures Valid() && Inv(old(blocks)) && stored <= old(stored)
      ensures accepted <==> HEADER <= p < ARENA && (p - HEADER in old(Live(blocks, 0)) || old(Forged(p)))
      ensures HEADER <= p && p - HEADER in old(Live(blocks, 0)) ==>
        blocks == Step(old(blocks), Free(p - HEADER)) && (old(Counted()) ==> Counted())
      ensures !accepted ==> blocks == old(blocks) && mem[..] == old(mem[..]) && (old(Counted()) ==> Counted())
      ensures old(Forged(p)) ==>
        var g := (p - HEADER) / 16;
        && blocks == old(blocks) && mem[..] == old(mem[..])[g := old(mem[g]).(free := true, magic := 0)]
        && (old(Counted()) ==> !Counted())
    {
      hide Tiling;
      hide Sum;
      hide Live;
      hide InUse;
      hide Merge;
      accepted := false;
      TilingTotals(mem[..], blocks);
      LiveHeader(mem[..], blocks, p);
      if p < HEADER || p >= ARENA {
        return;
      }
      var b := p - HEADER;
      if mem[b / 16].magic != MAGIC {
        return;
      }
      accepted := true;
      assert 16 * (b / 16) == b;
      ghost var m := mem[..];
      ghost var freed := AfterMark(m, blocks, b);
      MarkFacts(m, blocks, stored, b);
      mem[b / 16] := mem[b / 16].(free := true, magic := 0);
      assert mem[..] == m[b / 16 := m[b / 16].(free := true, magic := 0)];
      if inUse >= mem[b / 16].size {
        inUse := inUse - mem[b / 16].size;
      }
      freeCount := freeCount + 1;
      blocks, stored := freed, stored - {b / 16};
      ghost var now := mem[..];
      Coalesce();
      MagicKept(now, mem[..], blocks, stored);
    }

    /** The owner of a live block stores into its payload. */
    method StorePayload(g: nat, h: Header, ghost o: nat)
      requires Valid() && g < mem.Length && o in Live(blocks, 0) && o < 16 * g < o + Live(blocks, 0)[o]
      modifies mem, `stored
      ensures Valid() && blocks == old(blocks) && mem[..] == old(mem[..])[g := h] && stored == old(stored) + {g}
    {
      hide Tiling;
      TilingTotals(mem[..], blocks);
      ghost var i := IndexOf(blocks, 0, o);
      assert blocks == blocks[..i] + [blocks[i]] + blocks[i + 1..];
      ReleaseFacts(blocks, i);
      PayloadRetiles(mem[..], blocks[..i], blocks[i], blocks[i + 1..], g, h);
      ghost var m := mem[..];
      mem[g] := h;
      stored := stored + {g};
      assert mem[..] == m[g := h];
    }
  }

  /** The blocks after `kfree` has rewritten the granule it was given: the live block is free,
   *  or nothing has changed. */
  ghost function AfterMark(m: seq<Header>, bs: Blocks, b: nat): (r: Blocks)
    requires Tiling(m, bs)
  {
    if b in Live(bs, 0) then var i := IndexOf(bs, 0, b); bs[i := Block(bs[i].size, true)] else bs
  }

  ghost function Unmark(m: seq<Header>, b: nat): (r: seq<Header>)
    requires b / 16 < |m|
  {
    m[b / 16 := m[b / 16].(free := true, magic := 0)]
  }

  lemma {:induction false} MarkFacts(m: seq<Header>, bs: Blocks, stored: set<nat>, b: nat)
    requires Tiling(m, bs) && NoAdjacentFree(bs) && Marked(m, bs, stored)
    requires b % 16 == 0 && b / 16 < |m| && m[b / 16].magic == MAGIC
    ensures var r := AfterMark(m, bs, b);
      && Tiling(Unmark(m, b), r) && NoAdjacentFree(Merge(r)) && Marked(Unmark(m, b), Merge(r), stored - {b / 16})
      && (b in Live(bs, 0) ==>
            && Inv(bs) && Merge(r) == Step(bs, Free(b))
            && InUse(bs) == InUse(Merge(r)) + m[b / 16].size && |Live(Merge(r), 0)| == |Live(bs, 0)| - 1)
      && (b !in Live(bs, 0) ==> r == bs && Merge(r) == bs)
  {
    if b in Live(bs, 0) {
      MarkLive(m, bs, stored, b);
    } else {
      ForgedRetiles(m, bs, b / 16, m[b / 16].(free := true, magic := 0));
      MergeNothing(bs);
    }
  }

  lemma {:induction false} MarkLive(m: seq<Header>, bs: Blocks, stored: set<nat>, b: nat)
    requires Tiling(m, bs) && NoAdjacentFree(bs) && Marked(m, bs, stored)
    requires b % 16 == 0 && b / 16 < |m| && m[b / 16].magic == MAGIC && b in Live(bs, 0)
    ensures var r := AfterMark(m, bs, b);
      && Tiling(Unmark(m, b), r) && NoAdjacentFree(Merge(r)) && Marked(Unmark(m, b), Merge(r), stored - {b / 16})
      && Inv(bs) && Merge(r) == Step(bs, Free(b))
      && InUse(bs) == InUse(Merge(r)) + m[b / 16].size && |Live(Merge(r), 0)| == |Live(bs, 0)| - 1
  {
    hide Tiling;
    hide Sum;
    hide Live;
    hide InUse;
    hide Merge;
    TilingTotals(m, bs);
    var i := IndexOf(bs, 0, b);
    var pre, x, post := bs[..i], bs[i], bs[i + 1..];
    assert bs == pre + [x] + post && bs[i := Block(x.size, true)] == pre + [Block(x.size, true)] + post;
    FreeRetiles(m, pre, x, post);
    assert Unmark(m, b) == m[b / 16 := Header(x.size, true, 0)];
    ReleaseFacts(bs, i);
  }

  lemma {:induction false} MagicKept(m: seq<Header>, n: seq<Header>, bs: Blocks, stored: set<nat>)
    requires Marked(m, bs, stored) && SameMagic(m, n)
    ensures Marked(n, bs, stored)
  {
  }

  lemma {:induction false} NotAdjacent(bs: Blocks, pre: Blocks, rest: Blocks)
    ensures NoAdjacentFree(bs) && bs == pre + rest && |rest| >= 2 ==> !(rest[0].free && rest[1].free)
  {
    if NoAdjacentFree(bs) && bs == pre + rest && |rest| >= 2 {
      var k := |pre|;
      assert bs[k] == rest[0] && bs[k + 1] == rest[1];
    }
  }

  /** A snug request carves like one for the whole block. */
  lemma {:induction false} SameCarve(m: seq<Header>, b: nat, x: Block, need: nat, n: nat)
    requires need == n || (Snug(x, need) && n == MIN_BLOCK)
    requires need <= x.size && n <= x.size && b / 16 < |m| && b + x.size <= 16 * |m|
    ensures Carve(x, need) == Carve(x, n) && Carved(m, b, x.size, need) == Carved(m, b, x.size, n)
  {
  }

  lemma {:induction false} NotTiled(m: seq<Header>, bs: Blocks)
    requires !Sized(bs)
    ensures !Tiling(m, bs)
  {
  }

  /** What a tiling says about one block's header. */
  lemma {:induction false} HeaderAt(m: seq<Header>, pre: Blocks, x: Block, post: Blocks)
    requires Tiling(m, pre + [x] + post)
    ensures Sum(pre) % 16 == 0 && Sum(pre) / 16 < |m| && Sum(pre) + x.size <= 16 * |m|
  {
    hide Sum;
    hide Walk;
    PieceAt(m, pre, [x], post);
    Single(x);
  }

  /** A live address is inside the arena and its header carries the magic. */
  lemma {:induction false} LiveHeader(m: seq<Header>, bs: Blocks, p: int)
    requires Tiling(m, bs)
    ensures HEADER <= p && p - HEADER in Live(bs, 0) ==> p < ARENA && m[(p - HEADER) / 16].magic == MAGIC
  {
    if HEADER <= p && p - HEADER in Live(bs, 0) {
      var i := IndexOf(bs, 0, p - HEADER);
      assert bs == bs[..i] + [bs[i]] + bs[i + 1..];
      PieceAt(m, bs[..i], [bs[i]], bs[i + 1..]);
      Single(bs[i]);
      assert [bs[i]][0].size >= MIN_BLOCK;
    }
  }

  lemma {:induction false} FirstFitHere(bs: Blocks, need: nat)
    requires bs != [] && bs[0].free && bs[0].size >= need
    ensures FirstFit(bs, need) == 0
  {
  }

  lemma {:induction false} NoFit(need: nat)
    ensures FirstFit([], need) == 0
  {
  }

  lemma {:induction false} FirstTwo()
    ensures Inv([Block(ARENA, true)]) && Live([Block(ARENA, true)], 0) == map[]
    ensures forall need: nat :: need <= ARENA ==> FirstFit([Block(ARENA, true)], need) == 0
    ensures Need(16) == 32 && Need(100) == 128
    ensures var one := Alloc([Block(ARENA, true)], 0, 32);
      && Inv(one) && Live(one, 0) == map[0 := 32] && FirstFit(one, 32) == 1 && Sum(one[..1]) == 32
      && |one| == 2 && one[1].size >= 32 && Live(Alloc(one, 1, 32), 0) == map[0 := 32, 32 := 32]
    ensures Live(Alloc([Block(ARENA, true)], 0, 128), 0) == map[0 := 128]
  {
    hide Live;
    var init := [Block(ARENA, true)];
    FreeSingle(init[0], 0);
    AllocFacts(init, 0, 32);
    AllocFacts(init, 0, 128);
    assert init[..0] == [] && Sum([]) == 0;
    var one := Alloc(init, 0, 32);
    assert one == [Block(32, false), Block(ARENA - 32, true)];
    assert one[..1] == [Block(32, false)];
    FreeSingle(one[0], 0);
    assert FirstFit(one, 32) == 1;
    AllocFacts(one, 1, 32);
  }

  lemma {:induction false} ValidInv(h: HeapObject)
    requires h.Valid()
    ensures Inv(h.blocks) && h.mem.Length == ARENA / 16
  {
  }

  /** Two blocks are handed out and both returned; `q` points to the second. */
  method TwoReturned() returns (h: HeapObject, q: nat)
    ensures fresh(h) && fresh(h.mem) && h.Valid() && h.Counted() && h.blocks == [Block(ARENA, true)] && q == 48
  {
    hide HeapObject.Valid;
    hide HeapObject.Counted;
    hide Live;
    hide Alloc;
    hide Inv;
    hide Step;
    hide Sum;
    hide FirstFit;
    FirstTwo();
    h := new HeapObject();
    var p := h.Kmalloc(16);
    assert h.blocks == Alloc([Block(ARENA, true)], 0, 32);
    q := h.Kmalloc(16);
    ValidInv(h);
    StepFacts(h.blocks, Free(32));
    ghost var _ := h.Kfree(q);
    ValidInv(h);
    StepFacts(h.blocks, Free(0));
    ghost var _ := h.Kfree(p);
    ValidInv(h);
    AllFreed(h.blocks);
  }

  /** A stale free that the guard accepts: a larger block is placed over both, its owner stores
   *  the magic where the second header was, and the second pointer is freed again. */
  method StaleFree() returns (h: HeapObject, ghost accepted: bool)
    ensures fresh(h) && h.Valid() && accepted && !h.Counted() && Live(h.blocks, 0) == map[0 := 128]
  {
    hide HeapObject.Valid;
    hide HeapObject.Counted;
    hide Live;
    hide Alloc;
    hide Inv;
    hide Step;
    hide Sum;
    hide FirstFit;
    FirstTwo();
    var q;
    h, q := TwoReturned();
    var r := h.Kmalloc(100);
    ValidInv(h);
    h.StorePayload(2, Header(0, false, MAGIC), 0);
    accepted := h.Kfree(q);
  }
}
