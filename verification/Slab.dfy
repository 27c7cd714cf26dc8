/** Slab and size-class allocator (kernel/memory/slab.c).
 *
 *  Memory is a map from addresses to 64-bit words; a word nobody has written is absent and
 *  holds no magic number. The allocator writes the first word of a slot (a free-list link
 *  while the slot is free, a header while it is live), the headers of slabs and of large
 *  runs; the page count of a large run is kept apart. Everybody else may store into the
 *  payloads of live allocations and outside the runs held; `stored` are the addresses last
 *  written that way. Page runs come from outside; a run on offer that overlaps one still held
 *  is never given.
 */
module SlabSpec {
  import opened Arithmetic
  import opened Lists
  import opened Options

  const WORD: nat := 0x1_0000_0000_0000_0000
  const HALF: nat := 0x1_0000_0000
  const PAGE: nat := 4096
  const SLAB_HDR: nat := 48
  const HDR: nat := 16
  const MIN_OBJS: nat := 8
  const MAGIC: nat := 0x4B4D454D
  const CLASSES: nat := 9
  const LARGE: nat := 0xFFFF

  // ---- The shape of a cache -------------------------------------------------------

  /** Slot size, pages of a slab and slots of a slab. */
  datatype Shape = Shape(slot: nat, pages: nat, objs: nat)

  function RoundUp(n: nat, a: nat): (r: nat)
    requires a > 0
    ensures n <= r < n + a && r % a == 0
  {
    DivFacts(n + a - 1, a);
    ModUnique((n + a - 1) / a * a, a, (n + a - 1) / a, 0);
    (n + a - 1) / a * a
  }

  /** `cache_slot_size`. */
  function SlotSize(objSize: nat, align: nat, redzone: bool): (s: nat)
    requires align > 0
    ensures s >= objSize + (if redzone then 8 else 0) && s >= 8 && s % align == 0
  {
    var body := objSize + if redzone then 8 else 0;
    RoundUp(if body < 8 then 8 else body, align)
  }

  /** Whole pages for the slab header and eight slots. */
  function PagesFor(slot: nat): (n: nat)
    ensures SLAB_HDR + slot * MIN_OBJS <= n * PAGE && n > 0
  {
    RoundUp(SLAB_HDR + slot * MIN_OBJS, PAGE) / PAGE
  }

  function ShapeOf(slot: nat): (s: Shape)
    requires slot > 0
  {
    Shape(slot, PagesFor(slot), (PagesFor(slot) * PAGE - SLAB_HDR) / slot)
  }

  predicate GoodShape(s: Shape) {
    s.slot > 0 && s.pages > 0 && s.objs >= MIN_OBJS && SLAB_HDR + s.objs * s.slot <= s.pages * PAGE
  }

  /** Whatever the slot size, a slab has room for its slots and has at least eight. */
  lemma {:induction false} ShapeGood(slot: nat)
    requires slot > 0
    ensures GoodShape(ShapeOf(slot))
  {
    var room: nat := PagesFor(slot) * PAGE - SLAB_HDR;
    var n := room / slot;
    DivFacts(room, slot);
    MulMono(n + 1, MIN_OBJS, slot);
    Distribute(n, 1, slot);
  }

  /** It has as few pages as hold eight slots, and as many slots as its pages hold. */
  lemma {:induction false} ShapeTight(slot: nat)
    requires slot > 0
    ensures var s := ShapeOf(slot);
      && SLAB_HDR + MIN_OBJS * slot > (s.pages - 1) * PAGE
      && SLAB_HDR + (s.objs + 1) * slot > s.pages * PAGE
  {
    var room: nat := PagesFor(slot) * PAGE - SLAB_HDR;
    DivFacts(room, slot);
    Distribute(room / slot, 1, slot);
    DivFacts(RoundUp(SLAB_HDR + slot * MIN_OBJS, PAGE), PAGE);
  }

  /** A slot is the least multiple of the alignment that holds the object, its redzone and a link. */
  lemma {:induction false} SlotLeast(objSize: nat, align: nat, redzone: bool, m: nat)
    requires align > 0 && m % align == 0 && m >= 8 && m >= objSize + (if redzone then 8 else 0)
    ensures SlotSize(objSize, align, redzone) <= m
  {
    var body := objSize + if redzone then 8 else 0;
    var need := if body < 8 then 8 else body;
    var s := RoundUp(need, align);
    if m < s {
      DivFacts(m, align);
      DivFacts(s, align);
      var i, j := m / align, s / align;
      if i < j {
        MulMono(i + 1, j, align);
        Distribute(i, 1, align);
      } else {
        MulMono(j, i, align);
      }
    }
  }

  // ---- Slots of a slab ------------------------------------------------------------

  function SlotAt(base: nat, slot: nat, i: nat): (a: nat) {
    base + SLAB_HDR + i * slot
  }

  /** Slots are aligned to 16 whatever the slab, when the slot size is. */
  lemma {:induction false} SlotAligned(base: nat, slot: nat, i: nat)
    requires base % PAGE == 0 && slot % 16 == 0
    ensures SlotAt(base, slot, i) % 16 == 0
  {
    var k := slot / 16;
    assert i * slot == i * k * 16;
  }

  /** The objects of a slab have the alignment asked for exactly when it divides the size of
   *  the slab header, since the first object follows the header directly. */
  lemma {:induction false} AlignedIff(base: nat, slot: nat, align: nat, i: nat)
    requires align > 0 && base % align == 0 && slot % align == 0
    ensures SlotAt(base, slot, i) % align == 0 <==> SLAB_HDR % align == 0
  {
    DivFacts(base, align);
    DivFacts(slot, align);
    var p, q := base / align, slot / align;
    assert i * slot == i * (q * align) == i * q * align;
    Distribute(p, i * q, align);
    var m := p + i * q;
    DivFacts(SLAB_HDR, align);
    Distribute(m, SLAB_HDR / align, align);
    ModUnique(SlotAt(base, slot, i), align, m + SLAB_HDR / align, SLAB_HDR % align);
  }

  /** The first `n` slots. */
  function SlabSlots(base: nat, slot: nat, n: nat): (s: set<nat>) {
    if n == 0 then {} else SlabSlots(base, slot, n - 1) + {SlotAt(base, slot, n - 1)}
  }

  /** `a` is one of the first `n` slots. */
  ghost predicate SlotIn(a: nat, base: nat, slot: nat, n: nat) {
    exists i: nat :: i < n && a == SlotAt(base, slot, i)
  }

  lemma {:induction false} SlabSlotsAre(base: nat, slot: nat, n: nat, a: nat)
    ensures a in SlabSlots(base, slot, n) <==> SlotIn(a, base, slot, n)
  {
    if n > 0 {
      SlabSlotsAre(base, slot, n - 1, a);
      if SlotIn(a, base, slot, n - 1) {
        var i: nat :| i < n - 1 && a == SlotAt(base, slot, i);
        assert i < n;
      }
      if a == SlotAt(base, slot, n - 1) {
        assert n - 1 < n;
      }
    }
  }

  /** Slots lie one after another, behind the header and within the slab. */
  lemma {:induction false} SlotRange(base: nat, s: Shape, i: nat)
    requires GoodShape(s) && i < s.objs
    ensures base + SLAB_HDR <= SlotAt(base, s.slot, i)
    ensures SlotAt(base, s.slot, i) + s.slot <= base + s.pages * PAGE
  {
    MulMono(i + 1, s.objs, s.slot);
    Distribute(i, 1, s.slot);
  }

  lemma {:induction false} SlotApart(base: nat, slot: nat, i: nat, j: nat)
    requires i < j
    ensures SlotAt(base, slot, i) + slot <= SlotAt(base, slot, j)
  {
    MulMono(i + 1, j, slot);
    Distribute(i, 1, slot);
  }

  lemma {:induction false} SlabSlotsCount(base: nat, slot: nat, n: nat)
    requires slot > 0
    ensures |SlabSlots(base, slot, n)| == n
  {
    if n > 0 {
      SlabSlotsCount(base, slot, n - 1);
      SlabSlotsAre(base, slot, n - 1, SlotAt(base, slot, n - 1));
      if SlotIn(SlotAt(base, slot, n - 1), base, slot, n - 1) {
        var i: nat :| i < n - 1 && SlotAt(base, slot, n - 1) == SlotAt(base, slot, i);
        SlotApart(base, slot, i, n - 1);
      }
    }
  }

  // ---- One cache ------------------------------------------------------------------

  /** Slabs and free slots, most recent first; `live` are the slots handed out. */
  datatype Cache = Cache(shape: Shape, slabs: seq<nat>, free: seq<nat>, live: set<nat>)

  function SlotsOf(slabs: seq<nat>, s: Shape): (r: set<nat>) {
    if slabs == [] then {} else SlabSlots(slabs[0], s.slot, s.objs) + SlotsOf(slabs[1..], s)
  }

  /** No two slabs overlap. */
  ghost predicate Spread(slabs: seq<nat>, s: Shape) {
    forall i, j :: 0 <= i < j < |slabs| ==>
      slabs[i] + s.pages * PAGE <= slabs[j] || slabs[j] + s.pages * PAGE <= slabs[i]
  }

  /** Free and live slots partition the slots of the slabs. */
  ghost predicate CacheInv(c: Cache) {
    && GoodShape(c.shape) && Spread(c.slabs, c.shape)
    && NoDup(c.free)
    && (forall a :: a in SlotsOf(c.slabs, c.shape) <==> a in c.free || a in c.live)
    && (forall a :: a in c.live ==> a !in c.free)
  }

  /** `a` lies in slab `base`. */
  predicate Inside(a: nat, base: nat, s: Shape) {
    base + SLAB_HDR <= a && a + s.slot <= base + s.pages * PAGE
  }

  lemma {:induction false} SlotHome(slabs: seq<nat>, s: Shape, a: nat) returns (k: nat, i: nat)
    requires GoodShape(s) && a in SlotsOf(slabs, s)
    ensures k < |slabs| && i < s.objs && a == SlotAt(slabs[k], s.slot, i) && Inside(a, slabs[k], s)
  {
    if a in SlabSlots(slabs[0], s.slot, s.objs) {
      SlabSlotsAre(slabs[0], s.slot, s.objs, a);
      k := 0;
      i :| i < s.objs && a == SlotAt(slabs[0], s.slot, i);
      SlotRange(slabs[0], s, i);
    } else {
      k, i := SlotHome(slabs[1..], s, a);
      k := k + 1;
    }
  }

  lemma {:induction false} SlotsOfCount(slabs: seq<nat>, s: Shape)
    requires GoodShape(s) && Spread(slabs, s)
    ensures |SlotsOf(slabs, s)| == |slabs| * s.objs
  {
    if slabs != [] {
      var t := slabs[1..];
      assert Spread(t, s) by {
        forall i, j | 0 <= i < j < |t|
          ensures t[i] + s.pages * PAGE <= t[j] || t[j] + s.pages * PAGE <= t[i]
        {
          assert t[i] == slabs[i + 1] && t[j] == slabs[j + 1];
        }
      }
      SlotsOfCount(t, s);
      SlabSlotsCount(slabs[0], s.slot, s.objs);
      var head := SlabSlots(slabs[0], s.slot, s.objs);
      forall a | a in head ensures a !in SlotsOf(t, s) {
        SlabSlotsAre(slabs[0], s.slot, s.objs, a);
        var i: nat :| i < s.objs && a == SlotAt(slabs[0], s.slot, i);
        SlotRange(slabs[0], s, i);
        if a in SlotsOf(t, s) {
          var k, j := SlotHome(t, s, a);
        }
      }
      assert |head + SlotsOf(t, s)| == |head| + |SlotsOf(t, s)|;
      Distribute(1, |t|, s.objs);
    }
  }

  /** Conservation: every slot of every slab is free or live, and counted once. */
  lemma {:induction false} Conservation(c: Cache)
    requires CacheInv(c)
    ensures |c.free| + |c.live| == |c.slabs| * c.shape.objs
  {
    SlotsOfCount(c.slabs, c.shape);
    var all := SlotsOf(c.slabs, c.shape);
    assert forall a :: a in c.free <==> a in all - c.live;
    NoDupLength(c.free, all - c.live);
    assert c.live <= all;
    assert |all - c.live| == |all| - |c.live|;
  }

  /** Push the slots of a new slab, first slot first. */
  function Thread(base: nat, slot: nat, n: nat, free: seq<nat>): (r: seq<nat>) {
    if n == 0 then free else [SlotAt(base, slot, n - 1)] + Thread(base, slot, n - 1, free)
  }

  function Grow(c: Cache, base: nat): (r: Cache) {
    c.(slabs := [base] + c.slabs, free := Thread(base, c.shape.slot, c.shape.objs, c.free))
  }

  function Take(c: Cache): (r: Cache)
    requires c.free != []
  {
    c.(free := c.free[1..], live := c.live + {c.free[0]})
  }

  function Give(c: Cache, a: nat): (r: Cache) {
    c.(free := [a] + c.free, live := c.live - {a})
  }

  lemma {:induction false} ThreadFacts(base: nat, slot: nat, n: nat, free: seq<nat>)
    requires slot > 0 && NoDup(free) && forall a :: a in free ==> a !in SlabSlots(base, slot, n)
    ensures NoDup(Thread(base, slot, n, free))
    ensures forall a :: a in Thread(base, slot, n, free) <==> a in free || a in SlabSlots(base, slot, n)
  {
    if n > 0 {
      ThreadFacts(base, slot, n - 1, free);
      var a := SlotAt(base, slot, n - 1);
      SlabSlotsAre(base, slot, n - 1, a);
      if SlotIn(a, base, slot, n - 1) {
        var i: nat :| i < n - 1 && a == SlotAt(base, slot, i);
        SlotApart(base, slot, i, n - 1);
      }
      NoDupConcat([a], Thread(base, slot, n - 1, free));
    }
  }

  ghost predicate Clear(slabs: seq<nat>, s: Shape, base: nat) {
    forall i :: 0 <= i < |slabs| ==>
      slabs[i] + s.pages * PAGE <= base || base + s.pages * PAGE <= slabs[i]
  }

  lemma {:induction false} GrowKeeps(c: Cache, base: nat)
    requires CacheInv(c) && Clear(c.slabs, c.shape, base)
    ensures CacheInv(Grow(c, base))
  {
    var s := c.shape;
    var more := SlabSlots(base, s.slot, s.objs);
    forall a | a in SlotsOf(c.slabs, s) ensures a !in more {
      SlabSlotsAre(base, s.slot, s.objs, a);
      if a in more {
        var i: nat :| i < s.objs && a == SlotAt(base, s.slot, i);
        SlotRange(base, s, i);
        var k, j := SlotHome(c.slabs, s, a);
      }
    }
    ThreadFacts(base, s.slot, s.objs, c.free);
    var g := [base] + c.slabs;
    assert g[1..] == c.slabs;
    assert Spread(g, s) by {
      forall i, j | 0 <= i < j < |g|
        ensures g[i] + s.pages * PAGE <= g[j] || g[j] + s.pages * PAGE <= g[i]
      {
      }
    }
  }

  lemma {:induction false} TakeKeeps(c: Cache)
    requires CacheInv(c) && c.free != []
    ensures CacheInv(Take(c)) && c.free[0] !in c.live && c.free[0] in SlotsOf(c.slabs, c.shape)
  {
    TailFacts(c.free);
  }

  lemma {:induction false} GiveKeeps(c: Cache, a: nat)
    requires CacheInv(c) && a in c.live
    ensures CacheInv(Give(c, a))
  {
    NoDupConcat([a], c.free);
  }

  // ---- The size classes -----------------------------------------------------------

  function Usable(k: nat): (n: nat)
    requires k < CLASSES
    ensures n > 0 && n % 16 == 0
  {
    [16, 32, 64, 128, 256, 512, 1024, 2048, 4096][k]
  }

  /** The slot of a class: usable bytes behind a 16-byte header. */
  function ClassShape(k: nat): (s: Shape)
    requires k < CLASSES
    ensures GoodShape(s) && s.slot == Usable(k) + HDR && s.slot % 16 == 0
  {
    ShapeGood(SlotSize(Usable(k) + HDR, 16, false));
    ShapeOf(SlotSize(Usable(k) + HDR, 16, false))
  }

  /** `size_to_class`: the smallest class that fits. */
  function ClassFor(size: nat, from: nat): (r: Option<nat>)
    requires from <= CLASSES
    ensures r.Some? ==> from <= r.value < CLASSES && size <= Usable(r.value)
    ensures r.Some? ==> forall k :: from <= k < r.value ==> Usable(k) < size
    ensures r == None ==> forall k :: from <= k < CLASSES ==> Usable(k) < size
    decreases CLASSES - from
  {
    if from == CLASSES then None else if size <= Usable(from) then Some(from) else ClassFor(size, from + 1)
  }

  /** Pages of a large allocation; the rounding addition is 64-bit. */
  function LargePages(total: nat): (n: nat) {
    (total + PAGE - 1) % WORD / PAGE
  }

  // ---- The general allocator ------------------------------------------------------

  /** A page run and the class it serves, or `LARGE`. */
  datatype Run = Run(pages: nat, owner: nat)

  datatype Kmem = Kmem(caches: seq<Cache>, held: map<nat, Run>, word: map<nat, nat>, count: map<nat, nat>,
                       stored: set<nat>)

  function Header(owner: nat): (w: nat) {
    MAGIC + owner * HALF
  }

  /** First word of the header: magic in the low half, class in the next 16 bits. */
  function MagicOf(w: nat): nat { w % HALF }

  function OwnerOf(w: nat): nat { w / HALF % 0x1_0000 }

  lemma {:induction false} HeaderFields(owner: nat)
    requires owner < 0x1_0000
    ensures MagicOf(Header(owner)) == MAGIC && OwnerOf(Header(owner)) == owner
  {
    ModUnique(Header(owner), HALF, owner, MAGIC);
  }

  /** The free list is threaded through the first words of its slots. */
  ghost predicate Linked(word: map<nat, nat>, free: seq<nat>) {
    forall i :: 0 <= i < |free| ==>
      free[i] in word && word[free[i]] == After(free, i)
  }

  function After(free: seq<nat>, i: nat): nat {
    if i + 1 < |free| then free[i + 1] else 0
  }

  predicate Apart(a: nat, m: nat, b: nat, n: nat) {
    a + m * PAGE <= b || b + n * PAGE <= a
  }

  /** Runs held from the page allocator: page-aligned, not at address zero, disjoint. */
  ghost predicate RunsApart(held: map<nat, Run>) {
    && (forall b :: b in held ==> b % PAGE == 0 && b > 0 && held[b].pages > 0)
    && (forall a, b :: a in held && b in held && a != b ==> Apart(a, held[a].pages, b, held[b].pages))
  }

  ghost predicate Owned(s: Kmem, k: nat)
    requires k < |s.caches|
  {
    && (forall b :: b in s.caches[k].slabs <==> b in s.held && s.held[b].owner == k)
    && (forall b :: b in s.held && s.held[b].owner == k ==> s.held[b].pages == s.caches[k].shape.pages)
  }

  ghost predicate ClassInv(s: Kmem, k: nat)
    requires k < |s.caches| && k < CLASSES
  {
    var c := s.caches[k];
    && c.shape == ClassShape(k) && CacheInv(c) && Owned(s, k)
    && Linked(s.word, c.free)
    && (forall a :: a in c.live ==> a in s.word && s.word[a] == Header(k))
  }

  ghost predicate LargeInv(s: Kmem) {
    forall b :: b in s.held && s.held[b].owner == LARGE ==>
      && b in s.word && s.word[b] == Header(LARGE)
      && b in s.count && s.count[b] == s.held[b].pages
  }

  /** The allocation whose header is at `a` is live and belongs to `owner`. */
  predicate LiveAs(s: Kmem, a: nat, owner: nat)
    requires |s.caches| == CLASSES
  {
    || (owner == LARGE && a in s.held && s.held[a].owner == LARGE)
    || (owner < CLASSES && a in s.caches[owner].live)
  }

  /** The magic number is in the headers of live allocations, and where somebody stored it. */
  ghost predicate Tagged(s: Kmem)
    requires |s.caches| == CLASSES
  {
    forall a :: a in s.word && MagicOf(s.word[a]) == MAGIC ==> LiveAs(s, a, OwnerOf(s.word[a])) || a in s.stored
  }

  /** Nobody but the allocator writes a slot's first word or the start of a run. */
  ghost predicate StoredApart(s: Kmem) {
    && (forall a :: a in s.stored ==> a !in s.held)
    && (forall k, a :: 0 <= k < |s.caches| && a in SlotsOf(s.caches[k].slabs, s.caches[k].shape) ==> a !in s.stored)
  }

  ghost predicate Inv(s: Kmem) {
    && |s.caches| == CLASSES && RunsApart(s.held)
    && (forall b :: b in s.held ==> s.held[b].owner < CLASSES || s.held[b].owner == LARGE)
    && (forall k :: 0 <= k < CLASSES ==> ClassInv(s, k))
    && LargeInv(s) && Tagged(s) && StoredApart(s)
  }

  function EmptyCaches(n: nat): (cs: seq<Cache>)
    requires n <= CLASSES
    ensures |cs| == n && forall k :: 0 <= k < n ==> cs[k] == Cache(ClassShape(k), [], [], {})
  {
    if n == 0 then [] else EmptyCaches(n - 1) + [Cache(ClassShape(n - 1), [], [], {})]
  }

  function Init(): (s: Kmem) {
    Kmem(EmptyCaches(CLASSES), map[], map[], map[], {})
  }

  /** Can the page allocator's answer be used? */
  ghost predicate Fresh(held: map<nat, Run>, base: nat, n: nat) {
    && base % PAGE == 0 && base > 0
    && forall b :: b in held ==> Apart(b, held[b].pages, base, n)
  }

  /** Memory after the slots of a new slab have been pushed on a free list. */
  function ThreadWords(word: map<nat, nat>, base: nat, slot: nat, n: nat, free: seq<nat>): (w: map<nat, nat>) {
    if n == 0 then word
    else
      var rest := Thread(base, slot, n - 1, free);
      ThreadWords(word, base, slot, n - 1, free)[SlotAt(base, slot, n - 1) := if rest == [] then 0 else rest[0]]
  }

  /** The words of a slab's own header. */
  function SlabHeader(base: nat): (r: set<nat>) {
    {base, base + 8, base + 16, base + 24, base + 32, base + 40}
  }

  function GrowClass(s: Kmem, k: nat, base: nat): (r: Kmem)
    requires k < |s.caches|
  {
    var c := s.caches[k];
    s.(caches := s.caches[k := Grow(c, base)],
       held := s.held[base := Run(c.shape.pages, k)],
       word := ThreadWords(s.word - SlabHeader(base), base, c.shape.slot, c.shape.objs, c.free),
       stored := s.stored - SlabHeader(base) - SlabSlots(base, c.shape.slot, c.shape.objs))
  }

  /** Pop a slot of a class and write its header. */
  function TakeSlot(s: Kmem, k: nat): (r: (Kmem, nat))
    requires k < |s.caches| && s.caches[k].free != []
  {
    var a := s.caches[k].free[0];
    (s.(caches := s.caches[k := Take(s.caches[k])],
        word := (s.word - {a + 8})[a := Header(k)], stored := s.stored - {a + 8}),
     a + HDR)
  }

  /** Keep a run of `n` pages as a large allocation. */
  function HoldLarge(s: Kmem, b: nat, n: nat): (r: Kmem) {
    s.(held := s.held[b := Run(n, LARGE)], word := (s.word - {b + 8})[b := Header(LARGE)], count := s.count[b := n],
       stored := s.stored - {b, b + 8})
  }

  /** `kmem_alloc`; `offer` is what the page allocator would return if asked. */
  ghost function Alloc(s: Kmem, size: nat, offer: Option<nat>): (r: (Kmem, Option<nat>))
    requires |s.caches| == CLASSES && forall k :: 0 <= k < CLASSES ==> s.caches[k].shape == ClassShape(k)
  {
    if size == 0 then (s, None)
    else
      match ClassFor(size, 0)
      case Some(k) =>
        if s.caches[k].free != [] then var (t, p) := TakeSlot(s, k); (t, Some(p))
        else if offer.Some? && Fresh(s.held, offer.value, s.caches[k].shape.pages) then
          var g := GrowClass(s, k, offer.value);
          if g.caches[k].free == [] then (g, None) else var (t, p) := TakeSlot(g, k); (t, Some(p))
        else (s, None)
      case None =>
        if size + HDR >= WORD then (s, None)
        else
          var n := LargePages(size + HDR);
          if n == 0 || offer == None || !Fresh(s.held, offer.value, n) then (s, None)
          else
            (HoldLarge(s, offer.value, n), Some(offer.value + HDR))
  }

  /** The header of a large run after it was freed. */
  function DropLarge(s: Kmem, b: nat): (r: Kmem)
    requires b in s.word && s.word[b] >= MAGIC
  {
    s.(held := s.held - {b}, word := s.word[b := s.word[b] - MAGIC], stored := s.stored - {b})
  }

  /** Push a slot back on its class's list. */
  function GiveSlot(s: Kmem, k: nat, a: nat): (r: Kmem)
    requires k < |s.caches|
  {
    var c := s.caches[k];
    s.(caches := s.caches[k := Give(c, a)], word := s.word[a := if c.free == [] then 0 else c.free[0]],
       stored := s.stored - {a})
  }

  predicate HasMagic(s: Kmem, a: nat) {
    a in s.word && MagicOf(s.word[a]) == MAGIC
  }

  lemma {:induction false} MagicBound(w: nat)
    requires MagicOf(w) == MAGIC
    ensures w >= MAGIC
  {
  }

  /** `kmem_free`: the new state and whether the pointer was accepted. A header that names no
   *  class makes the code read past its tables; the state after that is not modelled. */
  function Free(s: Kmem, p: nat): (r: (Kmem, bool))
    requires |s.caches| == CLASSES
  {
    if p < HDR || !HasMagic(s, p - HDR) then (s, false)
    else
      var a: nat := p - HDR;
      var owner := OwnerOf(s.word[a]);
      MagicBound(s.word[a]);
      if owner == LARGE then (DropLarge(s, a), true)
      else if owner < CLASSES then (GiveSlot(s, owner, a), true)
      else (s, true)
  }

  /** A store by anybody else. */
  function Store(s: Kmem, a: nat, w: nat): (r: Kmem) {
    s.(word := s.word[a := w], stored := s.stored + {a})
  }

  // ---- Where slots lie ------------------------------------------------------------

  /** A link word never looks like a header: slots are 16-aligned and the magic number is not. */
  lemma {:induction false} LinkIsNoHeader(w: nat)
    requires w % 16 == 0
    ensures MagicOf(w) != MAGIC
  {
  }

  /** A slot lies strictly inside a run of its own class, at a 16-aligned address. */
  lemma {:induction false} SlotRun(s: Kmem, k: nat, a: nat) returns (b: nat)
    requires Inv(s) && k < CLASSES && a in SlotsOf(s.caches[k].slabs, s.caches[k].shape)
    ensures b in s.held && s.held[b].owner == k && b < a && a + s.caches[k].shape.slot <= b + s.held[b].pages * PAGE
    ensures a % 16 == 0 && a < b + s.held[b].pages * PAGE
  {
    var c := s.caches[k];
    assert ClassInv(s, k);
    var i, j := SlotHome(c.slabs, c.shape, a);
    b := c.slabs[i];
    assert b in c.slabs;
    SlotAligned(b, c.shape.slot, j);
  }

  lemma {:induction false} SameRun(held: map<nat, Run>, b: nat, d: nat, a: nat)
    requires RunsApart(held) && b in held && d in held
    requires b <= a < b + held[b].pages * PAGE && d <= a < d + held[d].pages * PAGE
    ensures b == d
  {
    assert b != d ==> Apart(b, held[b].pages, d, held[d].pages);
  }

  /** Classes share no slot, and no slot is the start of a run. */
  lemma {:induction false} SlotsApart(s: Kmem, k: nat, j: nat, a: nat)
    requires Inv(s) && k < CLASSES && j < CLASSES
    requires a in SlotsOf(s.caches[k].slabs, s.caches[k].shape)
    ensures a !in s.held
    ensures a in SlotsOf(s.caches[j].slabs, s.caches[j].shape) ==> j == k
  {
    hide ClassInv;
    hide LargeInv;
    hide Tagged;
    var b := SlotRun(s, k, a);
    if a in s.held {
      SameRun(s.held, b, a, a);
    }
    if a in SlotsOf(s.caches[j].slabs, s.caches[j].shape) {
      var d := SlotRun(s, j, a);
      SameRun(s.held, b, d, a);
    }
  }

  /** Members of a class's free list and live set are its slots. */
  lemma {:induction false} MembersAreSlots(s: Kmem, k: nat, a: nat)
    requires Inv(s) && k < CLASSES && (a in s.caches[k].free || a in s.caches[k].live)
    ensures a in SlotsOf(s.caches[k].slabs, s.caches[k].shape)
  {
    assert ClassInv(s, k);
  }

  // ---- Writing one word -----------------------------------------------------------

  /** A class none of whose slots is written keeps its part of the invariant. */
  lemma {:induction false} ClassFrame(s: Kmem, t: Kmem, j: nat)
    requires Inv(s) && j < CLASSES && |t.caches| == CLASSES && t.caches[j] == s.caches[j]
    requires forall b :: b in t.held && t.held[b].owner == j <==> b in s.held && s.held[b].owner == j
    requires forall b :: b in t.held && t.held[b].owner == j ==> t.held[b] == s.held[b]
    requires forall a :: a in SlotsOf(s.caches[j].slabs, s.caches[j].shape) && a in s.word ==>
      a in t.word && t.word[a] == s.word[a]
    ensures ClassInv(t, j)
  {
    hide CacheInv;
    hide Linked;
    assert ClassInv(s, j);
    var c := s.caches[j];
    CacheMembers(c);
    LinkedIn(s.word, c.free);
    LinkedFrame(s.word, t.word, c.free);
  }

  lemma {:induction false} CacheMembers(c: Cache)
    requires CacheInv(c)
    ensures forall a :: a in c.free || a in c.live <==> a in SlotsOf(c.slabs, c.shape)
    ensures NoDup(c.free) && forall a :: a in c.live ==> a !in c.free
  {
  }

  lemma {:induction false} LinkedIn(word: map<nat, nat>, free: seq<nat>)
    requires Linked(word, free)
    ensures forall a :: a in free ==> a in word
  {
  }

  lemma {:induction false} LinkedFrame(word: map<nat, nat>, now: map<nat, nat>, free: seq<nat>)
    requires Linked(word, free) && forall a :: a in free ==> a in now && now[a] == word[a]
    ensures Linked(now, free)
  {
    forall i | 0 <= i < |free| ensures free[i] in free {}
  }

  lemma {:induction false} LinkedPush(word: map<nat, nat>, free: seq<nat>, a: nat)
    requires Linked(word, free) && a !in free
    ensures Linked(word[a := if free == [] then 0 else free[0]], [a] + free)
  {
    var l := [a] + free;
    var now := word[a := if free == [] then 0 else free[0]];
    forall i | 0 <= i < |l| ensures l[i] in now && now[l[i]] == After(l, i) {
      if i > 0 {
        assert l[i] == free[i - 1] && free[i - 1] in free && After(l, i) == After(free, i - 1);
      }
    }
  }

  lemma {:induction false} LinkedPop(word: map<nat, nat>, free: seq<nat>, w: nat)
    requires Linked(word, free) && NoDup(free) && free != []
    ensures Linked(word[free[0] := w], free[1..])
  {
    TailFacts(free);
    hide NoDup;
    var l := free[1..];
    forall i | 0 <= i < |l|
      ensures l[i] in word && word[l[i]] == After(l, i)
    {
      assert l[i] == free[i + 1] && After(free, i + 1) == After(l, i);
    }
    assert Linked(word, l);
    LinkedFrame(word, word[free[0] := w], l);
  }

  // ---- Every operation keeps the invariant ----------------------------------------

  lemma {:induction false} TakeSlotClass(s: Kmem, k: nat)
    requires Inv(s) && k < CLASSES && s.caches[k].free != []
    ensures ClassInv(TakeSlot(s, k).0, k)
  {
    hide CacheInv;
    hide Linked;
    hide RunsApart;
    hide StoredApart;
    hide Tagged;
    hide LargeInv;
    hide NoDup;
    hide Take;
    assert ClassInv(s, k);
    TakeKeeps(s.caches[k]);
    TakeLinked(s, k);
    TakeOwned(s, k);
    TakeLiveWords(s, k);
  }

  lemma {:induction false} TakeOwned(s: Kmem, k: nat)
    requires k < |s.caches| && s.caches[k].free != [] && Owned(s, k)
    ensures var t := TakeSlot(s, k).0; Owned(t, k) && t.caches[k] == Take(s.caches[k])
    ensures TakeSlot(s, k).0.caches[k].shape == s.caches[k].shape
  {
  }

  lemma {:induction false} TakeLiveWords(s: Kmem, k: nat)
    requires Inv(s) && k < CLASSES && s.caches[k].free != []
    ensures var t := TakeSlot(s, k).0;
      forall a :: a in t.caches[k].live ==> a in t.word && t.word[a] == Header(k)
  {
    hide CacheInv;
    hide Linked;
    hide RunsApart;
    hide StoredApart;
    hide Tagged;
    hide LargeInv;
    hide Owned;
    assert ClassInv(s, k);
    var c := s.caches[k];
    CacheMembers(c);
    assert c.free[0] in c.free;
    forall a | a in c.live ensures a != c.free[0] + 8 {
      SecondWord(s, k, c.free[0], k, a);
    }
  }

  lemma {:induction false} TakeLinked(s: Kmem, k: nat)
    requires Inv(s) && k < CLASSES && s.caches[k].free != []
    ensures var t := TakeSlot(s, k).0; Linked(t.word, t.caches[k].free)
  {
    hide CacheInv;
    hide Linked;
    hide RunsApart;
    hide StoredApart;
    hide Tagged;
    hide LargeInv;
    hide Owned;
    hide NoDup;
    assert ClassInv(s, k);
    var c := s.caches[k];
    CacheMembers(c);
    LinkedPop(s.word, c.free, Header(k));
    TailFacts(c.free);
    LinkedIn(s.word, c.free);
    forall a | a in c.free ensures a != c.free[0] + 8 {
      SecondWord(s, k, c.free[0], k, a);
    }
    LinkedFrame(s.word[c.free[0] := Header(k)], TakeSlot(s, k).0.word, c.free[1..]);
  }

  /** The second word of a slot is no slot, of any class. */
  lemma {:induction false} SecondWord(s: Kmem, k: nat, h: nat, j: nat, a: nat)
    requires Inv(s) && k < CLASSES && h in SlotsOf(s.caches[k].slabs, s.caches[k].shape)
    requires j < CLASSES && a in SlotsOf(s.caches[j].slabs, s.caches[j].shape)
    ensures a != h + 8
  {
    hide Inv;
    hide SlotsOf;
    BasicInv(s);
    var b := SlotRun(s, k, h);
    var d := SlotRun(s, j, a);
  }

  lemma {:induction false} TakeSlotKeeps(s: Kmem, k: nat)
    requires Inv(s) && k < CLASSES && s.caches[k].free != []
    ensures var (t, p) := TakeSlot(s, k);
      && Inv(t) && t.held == s.held
      && p >= HDR && LiveAs(t, p - HDR, k) && !LiveAs(s, p - HDR, k)
      && p - HDR in SlotsOf(s.caches[k].slabs, s.caches[k].shape)
  {
    hide ClassInv;
    hide RunsApart;
    hide StoredApart;
    var t := TakeSlot(s, k).0;
    var a := s.caches[k].free[0];
    HeadSlot(s, k);
    TakeSlotClass(s, k);
    SlotsApart(s, k, k, a);
    forall j | 0 <= j < CLASSES ensures ClassInv(t, j) {
      if j != k {
        SlotsApart(s, k, j, a);
        forall x | x in SlotsOf(s.caches[j].slabs, s.caches[j].shape) ensures x != a + 8 {
          SecondWord(s, k, a, j, x);
        }
        ClassFrame(s, t, j);
      }
    }
    HeaderFields(k);
    TakeLarge(s, k);
    assert Tagged(t);
    TakeStored(s, k);
  }

  lemma {:induction false} TakeLarge(s: Kmem, k: nat)
    requires Inv(s) && k < CLASSES && s.caches[k].free != []
    ensures LargeInv(TakeSlot(s, k).0)
  {
    hide ClassInv;
    hide RunsApart;
    hide Tagged;
    hide StoredApart;
    hide SlotsOf;
    var a := s.caches[k].free[0];
    HeadSlot(s, k);
    SlotsApart(s, k, k, a);
    NotABase(s, k, a);
  }

  /** The second word of a slot starts no run. */
  lemma {:induction false} NotABase(s: Kmem, k: nat, a: nat)
    requires Inv(s) && k < CLASSES && a in SlotsOf(s.caches[k].slabs, s.caches[k].shape)
    ensures a + 8 !in s.held
  {
    hide SlotsOf;
    hide Tagged;
    hide StoredApart;
    hide LargeInv;
    var d := SlotRun(s, k, a);
    assert ClassInv(s, k);
    var x: nat := a + 8;
    if x in s.held {
      SameRunOwn(s.held, d, x);
    }
  }

  lemma {:induction false} TakeStored(s: Kmem, k: nat)
    requires StoredApart(s) && k < |s.caches| && s.caches[k].free != []
    ensures StoredApart(TakeSlot(s, k).0)
  {
    var t := TakeSlot(s, k).0;
    assert forall j :: 0 <= j < |s.caches| ==>
      t.caches[j].slabs == s.caches[j].slabs && t.caches[j].shape == s.caches[j].shape;
  }

  lemma {:induction false} HeadSlot(s: Kmem, k: nat)
    requires Inv(s) && k < CLASSES && s.caches[k].free != []
    ensures s.caches[k].free[0] in SlotsOf(s.caches[k].slabs, s.caches[k].shape)
    ensures s.caches[k].free[0] !in s.caches[k].live
  {
    assert ClassInv(s, k);
    TakeKeeps(s.caches[k]);
  }

  // ---- Growing a class ------------------------------------------------------------

  lemma {:induction false} HeldMore(held: map<nat, Run>, base: nat, run: Run)
    requires RunsApart(held) && Fresh(held, base, run.pages) && run.pages > 0
    ensures base !in held && RunsApart(held[base := run])
  {
    if base in held {
      assert false;
    }
  }

  /** What growing writes lies in the new slab. */
  ghost predicate NewWord(base: nat, s: Shape, a: nat) {
    a in SlabHeader(base) || a in SlabSlots(base, s.slot, s.objs)
  }

  lemma {:induction false} NewWordIn(base: nat, s: Shape, a: nat)
    requires GoodShape(s) && NewWord(base, s, a)
    ensures base <= a < base + s.pages * PAGE
  {
    if a in SlabSlots(base, s.slot, s.objs) {
      SlabSlotsAre(base, s.slot, s.objs, a);
      var i: nat :| i < s.objs && a == SlotAt(base, s.slot, i);
      SlotRange(base, s, i);
    }
  }

  /** Addresses inside held runs are not written when a new slab is set up. */
  lemma {:induction false} NewSlotsApart(held: map<nat, Run>, base: nat, s: Shape, b: nat, a: nat)
    requires Fresh(held, base, s.pages) && GoodShape(s) && b in held && b <= a < b + held[b].pages * PAGE
    ensures !NewWord(base, s, a)
  {
    hide NewWord;
    if NewWord(base, s, a) {
      NewWordIn(base, s, a);
    }
  }

  /** The pushes write the new slots only, with aligned links. */
  lemma {:induction false} ThreadWordsFacts(word: map<nat, nat>, base: nat, slot: nat, n: nat, free: seq<nat>)
    requires base % PAGE == 0 && slot % 16 == 0 && forall a :: a in free ==> a % 16 == 0
    ensures var w := ThreadWords(word, base, slot, n, free);
      && (forall a :: a !in SlabSlots(base, slot, n) ==> (a in w <==> a in word) && (a in w ==> w[a] == word[a]))
      && (forall a :: a in SlabSlots(base, slot, n) ==> a in w && w[a] % 16 == 0)
    ensures forall a :: a in Thread(base, slot, n, free) ==> a % 16 == 0
  {
    hide SlotAt;
    if n > 0 {
      ThreadWordsFacts(word, base, slot, n - 1, free);
      SlotAligned(base, slot, n - 1);
      var rest := Thread(base, slot, n - 1, free);
      assert rest != [] ==> rest[0] in rest;
    }
  }

  lemma {:induction false} ThreadLinked(word: map<nat, nat>, base: nat, slot: nat, n: nat, free: seq<nat>)
    requires slot > 0 && NoDup(free) && forall a :: a in free ==> a !in SlabSlots(base, slot, n)
    requires Linked(word, free)
    ensures Linked(ThreadWords(word, base, slot, n, free), Thread(base, slot, n, free))
  {
    hide SlotAt;
    hide Linked;
    hide NoDup;
    if n > 0 {
      ThreadLinked(word, base, slot, n - 1, free);
      ThreadFacts(base, slot, n - 1, free);
      var a := SlotAt(base, slot, n - 1);
      NotEarlier(base, slot, n - 1);
      LinkedPush(ThreadWords(word, base, slot, n - 1, free), Thread(base, slot, n - 1, free), a);
    }
  }

  lemma {:induction false} NotEarlier(base: nat, slot: nat, n: nat)
    requires slot > 0
    ensures SlotAt(base, slot, n) !in SlabSlots(base, slot, n)
  {
    SlabSlotsAre(base, slot, n, SlotAt(base, slot, n));
    if SlotIn(SlotAt(base, slot, n), base, slot, n) {
      var i: nat :| i < n && SlotAt(base, slot, n) == SlotAt(base, slot, i);
      SlotApart(base, slot, i, n);
    }
  }

  /** What growing needs to know about the class it grows. */
  lemma {:induction false} GrowFacts(s: Kmem, k: nat, base: nat)
    requires Inv(s) && k < CLASSES && Fresh(s.held, base, s.caches[k].shape.pages)
    ensures var c := s.caches[k];
      && GoodShape(c.shape) && c.shape.slot % 16 == 0 && Clear(c.slabs, c.shape, base) && base % PAGE == 0
      && forall a :: a in c.free ==> a % 16 == 0 && !NewWord(base, c.shape, a)
  {
    hide NewWord;
    assert ClassInv(s, k);
    var c := s.caches[k];
    forall i | 0 <= i < |c.slabs|
      ensures c.slabs[i] + c.shape.pages * PAGE <= base || base + c.shape.pages * PAGE <= c.slabs[i]
    {
      assert c.slabs[i] in c.slabs;
      assert Apart(c.slabs[i], s.held[c.slabs[i]].pages, base, c.shape.pages);
    }
    forall a | a in c.free ensures a % 16 == 0 && !NewWord(base, c.shape, a) {
      MembersAreSlots(s, k, a);
      var b := SlotRun(s, k, a);
      NewSlotsApart(s.held, base, c.shape, b, a);
    }
  }

  lemma {:induction false} GrowOwned(s: Kmem, k: nat, base: nat)
    requires k < |s.caches| && Owned(s, k) && base !in s.held
    ensures Owned(GrowClass(s, k, base), k)
  {
    hide ThreadWords;
    hide Thread;
    var t := GrowClass(s, k, base);
    assert t.caches[k].slabs == [base] + s.caches[k].slabs;
  }

  /** Growing leaves every word alone but those of the new slab's header and slots. */
  lemma {:induction false} GrowWords(s: Kmem, k: nat, base: nat, a: nat)
    requires k < |s.caches| && GoodShape(s.caches[k].shape) && s.caches[k].shape.slot % 16 == 0 && base % PAGE == 0
    requires forall x :: x in s.caches[k].free ==> x % 16 == 0
    ensures var t := GrowClass(s, k, base);
      && (!NewWord(base, s.caches[k].shape, a) ==>
            && (a in t.word <==> a in s.word) && (a in s.word ==> t.word[a] == s.word[a])
            && (a in t.stored <==> a in s.stored))
      && (NewWord(base, s.caches[k].shape, a) ==> !HasMagic(t, a) && a !in t.stored)
  {
    hide Thread;
    hide ThreadWords;
    hide SlabHeader;
    var c := s.caches[k];
    ThreadWordsFacts(s.word - SlabHeader(base), base, c.shape.slot, c.shape.objs, c.free);
    if a in SlabSlots(base, c.shape.slot, c.shape.objs) {
      LinkIsNoHeader(GrowClass(s, k, base).word[a]);
    }
  }

  lemma {:induction false} GrowLive(s: Kmem, k: nat, base: nat, a: nat)
    requires Inv(s) && k < CLASSES && Fresh(s.held, base, s.caches[k].shape.pages) && a in s.caches[k].live
    ensures a in GrowClass(s, k, base).word && GrowClass(s, k, base).word[a] == Header(k)
  {
    hide CacheInv;
    hide Linked;
    hide RunsApart;
    hide GrowClass;
    hide NewWord;
    hide Tagged;
    hide StoredApart;
    var c := s.caches[k];
    assert ClassInv(s, k);
    GrowFacts(s, k, base);
    MembersAreSlots(s, k, a);
    var b := SlotRun(s, k, a);
    NewSlotsApart(s.held, base, c.shape, b, a);
    GrowWords(s, k, base, a);
  }

  lemma {:induction false} GrowLinked(s: Kmem, k: nat, base: nat)
    requires Inv(s) && k < CLASSES && Fresh(s.held, base, s.caches[k].shape.pages)
    ensures var t := GrowClass(s, k, base); Linked(t.word, t.caches[k].free)
  {
    hide CacheInv;
    hide Linked;
    hide RunsApart;
    hide Owned;
    hide Fresh;
    hide SlabHeader;
    hide Tagged;
    hide StoredApart;
    var c := s.caches[k];
    GrowFacts(s, k, base);
    assert ClassInv(s, k);
    CacheMembers(c);
    LinkedIn(s.word, c.free);
    LinkedFrame(s.word, s.word - SlabHeader(base), c.free);
    ThreadLinked(s.word - SlabHeader(base), base, c.shape.slot, c.shape.objs, c.free);
  }

  lemma {:induction false} GrowClassOwn(s: Kmem, k: nat, base: nat)
    requires Inv(s) && k < CLASSES && Fresh(s.held, base, s.caches[k].shape.pages)
    ensures ClassInv(GrowClass(s, k, base), k)
  {
    hide CacheInv;
    hide Linked;
    hide RunsApart;
    hide Owned;
    hide Fresh;
    hide ThreadWords;
    hide Thread;
    hide Tagged;
    hide StoredApart;
    var c := s.caches[k];
    var t := GrowClass(s, k, base);
    GrowFacts(s, k, base);
    assert ClassInv(s, k);
    GrowKeeps(c, base);
    GrowLinked(s, k, base);
    HeldMore(s.held, base, Run(c.shape.pages, k));
    GrowOwned(s, k, base);
    forall a | a in c.live ensures a in t.word && t.word[a] == Header(k) {
      GrowLive(s, k, base, a);
    }
  }

  lemma {:induction false} GrowClassKeeps(s: Kmem, k: nat, base: nat)
    requires Inv(s) && k < CLASSES && Fresh(s.held, base, s.caches[k].shape.pages)
    ensures Inv(GrowClass(s, k, base)) && GrowClass(s, k, base).caches[k].free != []
    ensures forall a, o :: LiveAs(GrowClass(s, k, base), a, o) <==> LiveAs(s, a, o)
  {
    hide ClassInv;
    hide RunsApart;
    hide Fresh;
    hide Tagged;
    hide StoredApart;
    hide LargeInv;
    hide ThreadWords;
    hide NewWord;
    var c := s.caches[k];
    var t := GrowClass(s, k, base);
    GrowFacts(s, k, base);
    GrowClassOwn(s, k, base);
    HeldMore(s.held, base, Run(c.shape.pages, k));
    forall j | 0 <= j < CLASSES ensures ClassInv(t, j) {
      if j != k {
        forall a | a in SlotsOf(s.caches[j].slabs, s.caches[j].shape) && a in s.word
          ensures a in t.word && t.word[a] == s.word[a]
        {
          var b := SlotRun(s, j, a);
          NewSlotsApart(s.held, base, c.shape, b, a);
          GrowWords(s, k, base, a);
        }
        ClassFrame(s, t, j);
      }
    }
    GrowTagged(s, k, base);
    GrowLarge(s, k, base);
    GrowStored(s, k, base);
  }

  lemma {:induction false} GrowTagged(s: Kmem, k: nat, base: nat)
    requires Inv(s) && k < CLASSES && Fresh(s.held, base, s.caches[k].shape.pages)
    ensures Tagged(GrowClass(s, k, base))
  {
    hide ClassInv;
    hide RunsApart;
    hide ThreadWords;
    hide Thread;
    hide NewWord;
    hide StoredApart;
    var c := s.caches[k];
    var t := GrowClass(s, k, base);
    GrowFacts(s, k, base);
    HeldMore(s.held, base, Run(c.shape.pages, k));
    forall a | HasMagic(t, a) ensures LiveAs(t, a, OwnerOf(t.word[a])) || a in t.stored {
      GrowWords(s, k, base, a);
      assert LiveAs(s, a, OwnerOf(s.word[a])) || a in s.stored;
    }
  }

  lemma {:induction false} GrowLarge(s: Kmem, k: nat, base: nat)
    requires Inv(s) && k < CLASSES && Fresh(s.held, base, s.caches[k].shape.pages)
    ensures LargeInv(GrowClass(s, k, base))
  {
    hide ClassInv;
    hide ThreadWords;
    hide Thread;
    hide NewWord;
    hide StoredApart;
    hide Tagged;
    var c := s.caches[k];
    var t := GrowClass(s, k, base);
    GrowFacts(s, k, base);
    HeldMore(s.held, base, Run(c.shape.pages, k));
    forall b | b in t.held && t.held[b].owner == LARGE
      ensures b in t.word && t.word[b] == Header(LARGE) && b in t.count && t.count[b] == t.held[b].pages
    {
      NewSlotsApart(s.held, base, c.shape, b, b);
      GrowWords(s, k, base, b);
    }
  }

  lemma {:induction false} GrowStored(s: Kmem, k: nat, base: nat)
    requires StoredApart(s) && k < |s.caches|
    ensures StoredApart(GrowClass(s, k, base))
  {
    hide ThreadWords;
    hide Thread;
    var c := s.caches[k];
    var t := GrowClass(s, k, base);
    assert t.caches[k].slabs == [base] + c.slabs && ([base] + c.slabs)[1..] == c.slabs;
    forall j, a | 0 <= j < |t.caches| && a in SlotsOf(t.caches[j].slabs, t.caches[j].shape) ensures a !in t.stored {
      assert j != k ==> t.caches[j] == s.caches[j];
    }
  }

  // ---- Large runs and freeing -----------------------------------------------------

  lemma {:induction false} HoldLargeKeeps(s: Kmem, b: nat, n: nat)
    requires Inv(s) && n > 0 && Fresh(s.held, b, n)
    ensures Inv(HoldLarge(s, b, n)) && LiveAs(HoldLarge(s, b, n), b, LARGE) && !LiveAs(s, b, LARGE)
  {
    hide ClassInv;
    hide RunsApart;
    hide Fresh;
    hide StoredApart;
    hide LargeInv;
    hide SlotsOf;
    var t := HoldLarge(s, b, n);
    HeldMore(s.held, b, Run(n, LARGE));
    forall j | 0 <= j < CLASSES ensures ClassInv(t, j) {
      forall a | a in SlotsOf(s.caches[j].slabs, s.caches[j].shape) ensures a != b && a != b + 8 {
        var d := SlotRun(s, j, a);
        OutsideFresh(s.held, b, n, d, a);
      }
      ClassFrame(s, t, j);
    }
    HeaderFields(LARGE);
    assert Tagged(t);
    HoldLargeOthers(s, b, n);
    assert StoredApart(t) by { HoldStored(s, b, n); }
  }

  lemma {:induction false} HoldStored(s: Kmem, b: nat, n: nat)
    requires StoredApart(s)
    ensures StoredApart(HoldLarge(s, b, n))
  {
  }

  lemma {:induction false} HoldLargeOthers(s: Kmem, b: nat, n: nat)
    requires Inv(s) && n > 0 && Fresh(s.held, b, n)
    ensures LargeInv(HoldLarge(s, b, n))
  {
    hide ClassInv;
    hide Fresh;
    hide StoredApart;
    hide Tagged;
    forall d | d in s.held ensures d != b && d != b + 8 {
      OutsideFresh(s.held, b, n, d, d);
    }
  }

  lemma {:induction false} OutsideFresh(held: map<nat, Run>, b: nat, n: nat, d: nat, a: nat)
    requires Fresh(held, b, n) && n > 0 && d in held && d <= a < d + held[d].pages * PAGE
    ensures a != b && a != b + 8
  {
    assert Apart(d, held[d].pages, b, n);
  }

  lemma {:induction false} FreeLargeKeeps(s: Kmem, b: nat)
    requires Inv(s) && LiveAs(s, b, LARGE)
    ensures b in s.word && s.word[b] == Header(LARGE)
    ensures Inv(DropLarge(s, b)) && !LiveAs(DropLarge(s, b), b, LARGE)
  {
    hide ClassInv;
    hide StoredApart;
    hide SlotsOf;
    var t := DropLarge(s, b);
    assert RunsApart(t.held);
    forall j | 0 <= j < CLASSES ensures ClassInv(t, j) {
      forall a | a in SlotsOf(s.caches[j].slabs, s.caches[j].shape) ensures a != b {
        SlotsApart(s, j, j, a);
      }
      ClassFrame(s, t, j);
    }
    ModUnique(t.word[b], HALF, LARGE, 0);
    assert StoredApart(t) by { DropStored(s, b); }
  }

  lemma {:induction false} DropStored(s: Kmem, b: nat)
    requires StoredApart(s) && b in s.word && s.word[b] >= MAGIC
    ensures StoredApart(DropLarge(s, b))
  {
  }

  lemma {:induction false} GiveSlotClass(s: Kmem, k: nat, a: nat)
    requires Inv(s) && k < CLASSES && a in s.caches[k].live
    ensures ClassInv(GiveSlot(s, k, a), k) && a in s.word && s.word[a] == Header(k)
    ensures a !in s.caches[k].free
  {
    hide CacheInv;
    hide Linked;
    assert ClassInv(s, k);
    var c := s.caches[k];
    CacheMembers(c);
    GiveKeeps(c, a);
    LinkedPush(s.word, c.free, a);
    var t := GiveSlot(s, k, a);
    assert t.caches[k] == Give(c, a);
    assert Owned(t, k);
  }

  lemma {:induction false} GiveSlotKeeps(s: Kmem, k: nat, a: nat)
    requires Inv(s) && k < CLASSES && a in s.caches[k].live
    ensures Inv(GiveSlot(s, k, a)) && !LiveAs(GiveSlot(s, k, a), a, k) && a in s.word && s.word[a] == Header(k)
  {
    hide ClassInv;
    hide RunsApart;
    hide StoredApart;
    var c := s.caches[k];
    var t := GiveSlot(s, k, a);
    MembersAreSlots(s, k, a);
    GiveSlotClass(s, k, a);
    SlotsApart(s, k, k, a);
    forall j | 0 <= j < CLASSES ensures ClassInv(t, j) {
      if j != k {
        SlotsApart(s, k, j, a);
        ClassFrame(s, t, j);
      }
    }
    LinkAligned(s, k);
    LinkIsNoHeader(t.word[a]);
    assert LargeInv(t);
    assert Tagged(t);
    assert StoredApart(t) by { GiveStored(s, k, a); }
  }

  lemma {:induction false} GiveStored(s: Kmem, k: nat, a: nat)
    requires StoredApart(s) && k < |s.caches|
    ensures StoredApart(GiveSlot(s, k, a))
  {
    var t := GiveSlot(s, k, a);
    assert forall j :: 0 <= j < |s.caches| ==>
      t.caches[j].slabs == s.caches[j].slabs && t.caches[j].shape == s.caches[j].shape;
  }

  /** The word a push writes: the old head of the list, or zero. */
  lemma {:induction false} LinkAligned(s: Kmem, k: nat)
    requires Inv(s) && k < CLASSES
    ensures s.caches[k].free != [] ==> s.caches[k].free[0] % 16 == 0
  {
    if s.caches[k].free != [] {
      HeadSlot(s, k);
      var b := SlotRun(s, k, s.caches[k].free[0]);
    }
  }

  // ---- Main results ---------------------------------------------------------------

  lemma {:induction false} InitInv()
    ensures Inv(Init())
  {
    var s := Init();
    forall k | 0 <= k < CLASSES ensures ClassInv(s, k) {
      assert s.caches[k] == Cache(ClassShape(k), [], [], {});
    }
  }

  /** Usable bytes behind the header of a live allocation. */
  function Room(s: Kmem, a: nat, owner: nat): (n: int)
    requires |s.caches| == CLASSES && LiveAs(s, a, owner)
  {
    if owner < CLASSES then Usable(owner) else s.held[a].pages * PAGE - HDR
  }

  /** What a successful allocation returns: a header that was not live, now is, and has room
   *  for the request. */
  ghost predicate Served(s: Kmem, t: Kmem, p: nat, size: nat)
    requires |s.caches| == CLASSES && |t.caches| == CLASSES
  {
    exists o: nat :: o <= LARGE && ServedAs(s, t, p, size, o)
  }

  predicate ServedAs(s: Kmem, t: Kmem, p: nat, size: nat, owner: nat)
    requires |s.caches| == CLASSES && |t.caches| == CLASSES
  {
    && p >= HDR && LiveAs(t, p - HDR, owner) && !LiveAs(s, p - HDR, owner)
    && size <= Room(t, p - HDR, owner)
  }

  lemma {:induction false} LargeRoom(total: nat)
    requires total < WORD && LargePages(total) > 0
    ensures total <= LargePages(total) * PAGE
  {
    if total + PAGE - 1 < WORD {
      DivFacts(total + PAGE - 1, PAGE);
    }
  }

  lemma {:induction false} CachesShaped(s: Kmem)
    requires Inv(s)
    ensures forall k :: 0 <= k < CLASSES ==> s.caches[k].shape == ClassShape(k)
  {
    forall k | 0 <= k < CLASSES ensures s.caches[k].shape == ClassShape(k) {
      assert ClassInv(s, k);
    }
  }

  lemma {:induction false} AllocSlot(s: Kmem, k: nat, size: nat)
    requires Inv(s) && k < CLASSES && s.caches[k].free != [] && size <= Usable(k)
    ensures var (t, p) := TakeSlot(s, k);
      Inv(t) && ServedAs(s, t, p, size, k)
  {
    hide Inv;
    hide TakeSlot;
    BasicInv(s);
    BasicInv(TakeSlot(s, k).0);
    TakeSlotKeeps(s, k);
  }

  lemma {:induction false} BasicInv(s: Kmem)
    ensures Inv(s) ==> |s.caches| == CLASSES
  {
  }

  lemma {:induction false} AllocGrown(s: Kmem, k: nat, size: nat, base: nat)
    requires Inv(s) && k < CLASSES && size <= Usable(k) && Fresh(s.held, base, s.caches[k].shape.pages)
    ensures var g := GrowClass(s, k, base);
      g.caches[k].free != [] &&
      var (t, p) := TakeSlot(g, k);
      Inv(t) && ServedAs(s, t, p, size, k)
  {
    hide Inv;
    hide TakeSlot;
    hide LiveAs;
    BasicInv(s);
    BasicInv(GrowClass(s, k, base));
    GrowClassKeeps(s, k, base);
    AllocSlot(GrowClass(s, k, base), k, size);
  }

  lemma {:induction false} AllocLarge(s: Kmem, size: nat, base: nat)
    requires Inv(s) && size + HDR < WORD && LargePages(size + HDR) > 0
    requires Fresh(s.held, base, LargePages(size + HDR))
    ensures var t := HoldLarge(s, base, LargePages(size + HDR));
      Inv(t) && ServedAs(s, t, base + HDR, size, LARGE)
  {
    hide ClassInv;
    hide Fresh;
    HoldLargeKeeps(s, base, LargePages(size + HDR));
    LargeRoom(size + HDR);
  }

  /** `kmem_alloc` keeps the invariant, and what it returns was not live, is now, and has
   *  room for the request. */
  lemma {:induction false} AllocKeeps(s: Kmem, size: nat, offer: Option<nat>)
    requires Inv(s)
    ensures |s.caches| == CLASSES && forall k :: 0 <= k < CLASSES ==> s.caches[k].shape == ClassShape(k)
    ensures var (t, r) := Alloc(s, size, offer);
      Inv(t) && (r.Some? ==> Served(s, t, r.value, size))
  {
    hide Inv;
    hide TakeSlot;
    hide ThreadWords;
    hide Grow;
    hide ServedAs;
    BasicInv(s);
    CachesShaped(s);
    if size != 0 {
      match ClassFor(size, 0)
      case Some(k) =>
        if s.caches[k].free != [] {
          AllocSlot(s, k, size);
        } else if offer.Some? && Fresh(s.held, offer.value, s.caches[k].shape.pages) {
          AllocGrown(s, k, size, offer.value);
          var (t, p) := TakeSlot(GrowClass(s, k, offer.value), k);
          BasicInv(t);
          assert Alloc(s, size, offer) == (t, Some(p)) && ServedAs(s, t, p, size, k);
        }
      case None =>
        if size + HDR < WORD && LargePages(size + HDR) > 0 && offer.Some?
           && Fresh(s.held, offer.value, LargePages(size + HDR)) {
          AllocLarge(s, size, offer.value);
        }
    }
  }

  /** The class a request of this size is served from. */
  predicate Smallest(size: nat, k: nat) {
    k < CLASSES && size <= Usable(k) && forall j :: 0 <= j < k ==> Usable(j) < size
  }

  ghost predicate HasSlot(s: Kmem, k: nat, offer: Option<nat>)
    requires |s.caches| == CLASSES && k < CLASSES
  {
    s.caches[k].free != [] || (offer.Some? && Fresh(s.held, offer.value, ClassShape(k).pages))
  }

  /** Whether a request can be met: a slot of its class is free, or the offered run can be used
   *  for the pages it needs, whose byte count must not wrap. */
  ghost predicate CanServe(s: Kmem, size: nat, offer: Option<nat>)
    requires |s.caches| == CLASSES
  {
    if size <= 4096 then
      size > 0 && exists k: nat :: Smallest(size, k) && HasSlot(s, k, offer)
    else
      && size + HDR + PAGE - 1 < WORD && offer.Some?
      && Fresh(s.held, offer.value, (size + HDR + PAGE - 1) / PAGE)
  }

  lemma {:induction false} ClassIsSmallest(size: nat)
    ensures ClassFor(size, 0) == None <==> size > 4096
    ensures forall k: nat :: ClassFor(size, 0) == Some(k) <==> Smallest(size, k)
  {
    var r := ClassFor(size, 0);
    assert Usable(8) == 4096;
    assert r == None ==> Usable(8) < size;
    assert r.Some? ==> Usable(r.value) <= 4096 && Smallest(size, r.value);
  }

  lemma {:induction false} PagesIff(size: nat)
    requires size > 4096
    ensures size + HDR < WORD && LargePages(size + HDR) > 0 <==> size + HDR + PAGE - 1 < WORD
    ensures size + HDR + PAGE - 1 < WORD ==> LargePages(size + HDR) == (size + HDR + PAGE - 1) / PAGE
  {
    var m := size + HDR + PAGE - 1;
    if m >= WORD && size + HDR < WORD {
      ModUnique(m, WORD, 1, m - WORD);
    }
  }

  /** `kmem_alloc` succeeds exactly when the request can be met, with a slot of the smallest class
   *  that has room or with a run of its own, and failing it changes nothing. */
  lemma {:induction false} AllocSucceedsIff(s: Kmem, size: nat, offer: Option<nat>)
    requires Inv(s)
    ensures |s.caches| == CLASSES && forall k :: 0 <= k < CLASSES ==> s.caches[k].shape == ClassShape(k)
    ensures var (t, r) := Alloc(s, size, offer);
      && |t.caches| == CLASSES
      && (r.Some? <==> CanServe(s, size, offer))
      && (r == None ==> t == s)
      && (r.Some? && size > 4096 ==> ServedAs(s, t, r.value, size, LARGE))
      && (forall k: nat :: r.Some? && Smallest(size, k) ==> ServedAs(s, t, r.value, size, k))
  {
    hide Inv;
    hide TakeSlot;
    hide ThreadWords;
    hide Grow;
    hide ServedAs;
    hide Fresh;
    hide Smallest;
    hide LargePages;
    BasicInv(s);
    CachesShaped(s);
    ClassIsSmallest(size);
    if size != 0 {
      match ClassFor(size, 0)
      case Some(k) =>
        if s.caches[k].free != [] {
          AllocSlot(s, k, size);
          BasicInv(TakeSlot(s, k).0);
        } else if offer.Some? && Fresh(s.held, offer.value, s.caches[k].shape.pages) {
          AllocGrown(s, k, size, offer.value);
          BasicInv(TakeSlot(GrowClass(s, k, offer.value), k).0);
        }
      case None =>
        PagesIff(size);
        if size + HDR < WORD && LargePages(size + HDR) > 0 && offer.Some?
           && Fresh(s.held, offer.value, LargePages(size + HDR)) {
          AllocLarge(s, size, offer.value);
        }
    }
  }

  ghost predicate Live(s: Kmem, a: nat)
    requires |s.caches| == CLASSES
  {
    exists o: nat :: o <= LARGE && LiveAs(s, a, o)
  }

  /** The word at `a` was last written by somebody else, who stored the magic number there. */
  predicate Forged(s: Kmem, a: nat) {
    a in s.stored && HasMagic(s, a)
  }

  /** A pointer is accepted by `kmem_free` exactly when it is live, and then no longer is, or
   *  when its header word is forged. A slot of a size class never is. */
  lemma {:induction false} FreeExact(s: Kmem, p: nat)
    requires Inv(s)
    ensures var (t, ok) := Free(s, p);
      && (ok <==> p >= HDR && (Live(s, p - HDR) || Forged(s, p - HDR)))
      && (p >= HDR && Live(s, p - HDR) ==> Inv(t) && !Live(t, p - HDR) && !Forged(s, p - HDR))
      && (!ok ==> t == s)
  {
    hide ClassInv;
    hide RunsApart;
    hide StoredApart;
    hide LargeInv;
    if p >= HDR {
      var a: nat := p - HDR;
      if Live(s, a) {
        var o: nat :| o <= LARGE && LiveAs(s, a, o);
        FreeLive(s, a, o);
        NotStored(s, a, o);
      } else if HasMagic(s, a) {
        TaggedOwner(s, a);
      }
    }
  }

  lemma {:induction false} TaggedOwner(s: Kmem, a: nat)
    requires Inv(s) && HasMagic(s, a)
    ensures Live(s, a) || a in s.stored
    ensures a !in s.stored ==> OwnerOf(s.word[a]) == LARGE || OwnerOf(s.word[a]) < CLASSES
  {
    hide ClassInv;
    hide RunsApart;
    hide StoredApart;
    hide LargeInv;
    var o := OwnerOf(s.word[a]);
    assert a in s.stored || LiveAs(s, a, o);
  }

  /** Nobody else writes the header of a live allocation. */
  lemma {:induction false} NotStored(s: Kmem, a: nat, o: nat)
    requires Inv(s) && LiveAs(s, a, o)
    ensures a !in s.stored
  {
    hide ClassInv;
    hide RunsApart;
    if o < CLASSES {
      MembersAreSlots(s, o, a);
    }
  }

  /** Accepting a forged header of a size class puts something on its free list that is no slot
   *  of it. */
  lemma {:induction false} ForgedBreaks(s: Kmem, p: nat)
    requires Inv(s) && p >= HDR && Forged(s, p - HDR) && OwnerOf(s.word[p - HDR]) < CLASSES
    ensures Free(s, p).1 && !Inv(Free(s, p).0)
  {
    hide RunsApart;
    hide LargeInv;
    hide Tagged;
    var a: nat := p - HDR;
    var k := OwnerOf(s.word[a]);
    var t := Free(s, p).0;
    var c := t.caches[k];
    assert c.free[0] == a && a in c.free;
    assert a !in SlotsOf(c.slabs, c.shape);
    assert !CacheInv(c);
    assert !ClassInv(t, k);
  }

  lemma {:induction false} FreeLive(s: Kmem, a: nat, o: nat)
    requires Inv(s) && LiveAs(s, a, o)
    ensures Free(s, a + HDR).1 && Inv(Free(s, a + HDR).0) && !Live(Free(s, a + HDR).0, a)
  {
    hide ClassInv;
    hide RunsApart;
    hide Tagged;
    hide LargeInv;
    hide StoredApart;
    HeaderFields(o);
    var t := Free(s, a + HDR).0;
    if o == LARGE {
      FreeLargeKeeps(s, a);
    } else {
      GiveSlotKeeps(s, o, a);
    }
    forall j: nat | j <= LARGE ensures !LiveAs(t, a, j) {
      OneOwner(s, a, o, j);
    }
  }

  /** A header belongs to one owner only. */
  lemma {:induction false} OneOwner(s: Kmem, a: nat, o: nat, j: nat)
    requires Inv(s) && LiveAs(s, a, o)
    ensures LiveAs(s, a, j) ==> j == o
  {
    hide ClassInv;
    hide RunsApart;
    hide Tagged;
    hide LargeInv;
    if o < CLASSES {
      MembersAreSlots(s, o, a);
      SlotsApart(s, o, o, a);
      if j < CLASSES && a in s.caches[j].live {
        MembersAreSlots(s, j, a);
        SlotsApart(s, o, j, a);
      }
    } else if j < CLASSES && a in s.caches[j].live {
      MembersAreSlots(s, j, a);
      SlotsApart(s, j, j, a);
    }
  }

  // ---- Live allocations do not overlap --------------------------------------------

  /** Bytes from the header of a live allocation to its end. */
  function Extent(s: Kmem, a: nat, owner: nat): (n: int)
    requires |s.caches| == CLASSES && LiveAs(s, a, owner)
  {
    HDR + Room(s, a, owner)
  }

  /** The run a live allocation lies in, and which slot of it, if it is a slot. */
  lemma {:induction false} Place(s: Kmem, a: nat, o: nat) returns (b: nat, i: nat)
    requires Inv(s) && LiveAs(s, a, o)
    ensures b in s.held && s.held[b].owner == o && b <= a && a + Extent(s, a, o) <= b + s.held[b].pages * PAGE
    ensures o == LARGE ==> a == b
    ensures o < CLASSES ==> a == SlotAt(b, Extent(s, a, o), i)
  {
    hide CacheInv;
    hide Linked;
    hide RunsApart;
    i := 0;
    if o == LARGE {
      b := a;
    } else {
      var c := s.caches[o];
      assert ClassInv(s, o);
      MembersAreSlots(s, o, a);
      var k, j := SlotHome(c.slabs, c.shape, a);
      b, i := c.slabs[k], j;
      assert b in c.slabs;
    }
  }

  /** Any two live allocations, of any classes or large, are disjoint from header to end. */
  lemma {:induction false} LiveDisjoint(s: Kmem, a: nat, o: nat, a': nat, o': nat)
    requires Inv(s) && LiveAs(s, a, o) && LiveAs(s, a', o') && a != a'
    ensures a + Extent(s, a, o) <= a' || a' + Extent(s, a', o') <= a
  {
    hide ClassInv;
    var b, i := Place(s, a, o);
    var b', i' := Place(s, a', o');
    if b != b' {
      assert Apart(b, s.held[b].pages, b', s.held[b'].pages);
    } else if o < CLASSES {
      SlotApart(b, Extent(s, a, o), i, i + 1);
      if i < i' {
        SlotApart(b, Extent(s, a, o), i, i');
      } else {
        assert i != i';
        SlotApart(b, Extent(s, a, o), i', i);
      }
    }
  }

  /** In every class, free and live slots make up all slots of its slabs. */
  lemma {:induction false} ClassConserved(s: Kmem, k: nat)
    requires Inv(s) && k < CLASSES
    ensures var c := s.caches[k];
      |c.free| + |c.live| == |c.slabs| * ClassShape(k).objs && ClassShape(k).objs >= MIN_OBJS
  {
    assert ClassInv(s, k);
    Conservation(s.caches[k]);
  }

  // ---- Whole runs -----------------------------------------------------------------

  /** The address lies in no run held. */
  ghost predicate Outside(held: map<nat, Run>, a: nat) {
    forall b :: b in held ==> a < b || b + held[b].pages * PAGE <= a
  }

  /** The word at `a` lies in the payload of the live allocation with header `h`. */
  predicate InPayload(s: Kmem, a: nat, h: nat, o: nat)
    requires |s.caches| == CLASSES
  {
    LiveAs(s, h, o) && h + HDR <= a && a + 8 <= h + Extent(s, h, o)
  }

  /** Somebody other than the allocator may write the word at `a`. */
  ghost predicate Storable(s: Kmem, a: nat)
    requires |s.caches| == CLASSES
  {
    a % 8 == 0 && (Outside(s.held, a) || exists h: nat, o: nat :: InPayload(s, a, h, o))
  }

  /** Such a word is neither a slot's first word nor the start of a run. */
  lemma {:induction false} PayloadApart(s: Kmem, a: nat, h: nat, o: nat, k: nat)
    requires Inv(s) && InPayload(s, a, h, o) && k < CLASSES
    ensures a !in s.held && a !in SlotsOf(s.caches[k].slabs, s.caches[k].shape)
  {
    hide ClassInv;
    hide RunsApart;
    hide LargeInv;
    hide Tagged;
    hide StoredApart;
    hide SlotsOf;
    var b, i := Place(s, h, o);
    HeldApart(s);
    if a in s.held {
      SameRunOwn(s.held, b, a);
    }
    if a in SlotsOf(s.caches[k].slabs, s.caches[k].shape) {
      var d, j := SlotPlace(s, k, a);
      SameRun(s.held, b, d, a);
      if i < j {
        SlotApart(b, Extent(s, h, o), i, j);
      } else if j < i {
        SlotApart(b, Extent(s, h, o), j, i);
      }
    }
  }

  lemma {:induction false} SameRunOwn(held: map<nat, Run>, b: nat, a: nat)
    requires RunsApart(held) && b in held && a in held && b <= a < b + held[b].pages * PAGE
    ensures a == b
  {
    SameRun(held, b, a, a);
  }

  /** The run and the position of a slot. */
  lemma {:induction false} SlotPlace(s: Kmem, k: nat, a: nat) returns (b: nat, i: nat)
    requires Inv(s) && k < CLASSES && a in SlotsOf(s.caches[k].slabs, s.caches[k].shape)
    ensures b in s.held && s.held[b].owner == k && b <= a < b + s.held[b].pages * PAGE
    ensures a == SlotAt(b, HDR + Usable(k), i)
  {
    hide CacheInv;
    hide Linked;
    hide RunsApart;
    hide Tagged;
    hide StoredApart;
    assert ClassInv(s, k);
    CachesGood(s, k);
    var c := s.caches[k];
    var n, j := SlotHome(c.slabs, c.shape, a);
    b, i := c.slabs[n], j;
    assert b in c.slabs;
  }

  lemma {:induction false} CachesGood(s: Kmem, k: nat)
    requires Inv(s) && k < CLASSES
    ensures GoodShape(s.caches[k].shape)
  {
    assert ClassInv(s, k);
  }

  lemma {:induction false} StorableApart(s: Kmem, a: nat)
    requires Inv(s) && Storable(s, a)
    ensures a !in s.held
    ensures forall k :: 0 <= k < CLASSES ==> a !in SlotsOf(s.caches[k].slabs, s.caches[k].shape)
  {
    hide ClassInv;
    hide LargeInv;
    hide Tagged;
    hide StoredApart;
    hide SlotsOf;
    forall k | 0 <= k < CLASSES ensures a !in s.held && a !in SlotsOf(s.caches[k].slabs, s.caches[k].shape) {
      if Outside(s.held, a) {
        HeldApart(s);
        if a in SlotsOf(s.caches[k].slabs, s.caches[k].shape) {
          var b := SlotRun(s, k, a);
        }
      } else {
        var h: nat, o: nat :| InPayload(s, a, h, o);
        PayloadApart(s, a, h, o, k);
      }
    }
  }

  /** Leave a word as `v` says; a word nobody has written stays unwritten. */
  function Put(s: Kmem, a: nat, v: Option<nat>): (r: Kmem) {
    match v
    case None => s.(word := s.word - {a}, stored := s.stored - {a})
    case Some(w) => Store(s, a, w)
  }

  /** Stores by others keep the invariant. */
  lemma {:induction false} PutKeeps(s: Kmem, a: nat, v: Option<nat>)
    requires Inv(s) && Storable(s, a)
    ensures Inv(Put(s, a, v))
  {
    hide ClassInv;
    hide RunsApart;
    hide SlotsOf;
    hide Storable;
    var t := Put(s, a, v);
    StorableApart(s, a);
    forall j | 0 <= j < CLASSES ensures ClassInv(t, j) {
      ClassFrame(s, t, j);
    }
    assert Tagged(t);
  }

  datatype Op = DoAlloc(size: nat, offer: Option<nat>) | DoFree(p: nat) | DoStore(a: nat, w: nat)

  /** Stores stay in live payloads or outside the allocator's runs, and no pointer with a forged
   *  header is freed. */
  ghost predicate Proper(s: Kmem, op: Op)
    requires |s.caches| == CLASSES
  {
    match op
    case DoAlloc(size, offer) => true
    case DoFree(p) => p < HDR || !Forged(s, p - HDR)
    case DoStore(a, w) => Storable(s, a)
  }

  ghost function Step(s: Kmem, op: Op): (r: (Kmem, Option<nat>))
    requires Inv(s) && Proper(s, op)
    ensures Inv(r.0)
  {
    match op
    case DoAlloc(size, offer) => AllocKeeps(s, size, offer); Alloc(s, size, offer)
    case DoFree(p) => FreeExact(s, p); (Free(s, p).0, None)
    case DoStore(a, w) => PutKeeps(s, a, Some(w)); (Store(s, a, w), None)
  }

  ghost predicate ProperRun(s: Kmem, ops: seq<Op>)
    requires Inv(s)
    decreases |ops|
  {
    ops != [] ==> Proper(s, ops[0]) && ProperRun(Step(s, ops[0]).0, ops[1..])
  }

  ghost function Execute(s: Kmem, ops: seq<Op>): (r: Kmem)
    requires Inv(s) && ProperRun(s, ops)
    ensures Inv(r)
    decreases |ops|
  {
    if ops == [] then s else Execute(Step(s, ops[0]).0, ops[1..])
  }

  lemma {:induction false} TakeOnly(s: Kmem, k: nat, a: nat)
    requires |s.caches| == CLASSES && k < CLASSES && s.caches[k].free != [] && !Live(s, a)
    ensures var (t, p) := TakeSlot(s, k); Live(t, a) ==> p == a + HDR
  {
    var (t, p) := TakeSlot(s, k);
    forall o: nat | o <= LARGE && LiveAs(t, a, o) ensures LiveAs(s, a, o) || p == a + HDR {}
  }

  /** An allocation makes nothing else live. */
  lemma {:induction false} AllocOnly(s: Kmem, size: nat, offer: Option<nat>, a: nat)
    requires Inv(s) && !Live(s, a)
    ensures var (t, r) := Step(s, DoAlloc(size, offer)); Live(t, a) ==> r == Some(a + HDR)
  {
    hide Inv;
    hide TakeSlot;
    hide GrowClass;
    BasicInv(s);
    AllocKeeps(s, size, offer);
    if size != 0 {
      match ClassFor(size, 0)
      case Some(k) =>
        if s.caches[k].free != [] {
          TakeOnly(s, k, a);
        } else if offer.Some? && Fresh(s.held, offer.value, s.caches[k].shape.pages) {
          var g := GrowClass(s, k, offer.value);
          GrowClassKeeps(s, k, offer.value);
          BasicInv(g);
          TakeOnly(g, k, a);
        }
      case None =>
        var t := Alloc(s, size, offer).0;
        forall o: nat | o <= LARGE && LiveAs(t, a, o)
          ensures LiveAs(s, a, o) || (offer.Some? && offer.value == a && t.held != s.held) {}
    }
  }

  lemma {:induction false} FreeOnly(s: Kmem, p: nat, a: nat)
    requires Inv(s) && Proper(s, DoFree(p)) && !Live(s, a)
    ensures !Live(Step(s, DoFree(p)).0, a)
  {
    hide ClassInv;
    hide RunsApart;
    hide Tagged;
    hide LargeInv;
    hide StoredApart;
    var t := Free(s, p).0;
    forall o: nat | o <= LARGE && LiveAs(t, a, o) ensures LiveAs(s, a, o) {}
  }

  /** A live allocation is untouched: same owner, same room. */
  predicate Same(s: Kmem, t: Kmem, a: nat, o: nat)
    requires |s.caches| == CLASSES && |t.caches| == CLASSES && LiveAs(s, a, o)
  {
    LiveAs(t, a, o) && Room(t, a, o) == Room(s, a, o)
  }

  lemma {:induction false} TakeSame(s: Kmem, k: nat, a: nat, o: nat)
    requires |s.caches| == CLASSES && k < CLASSES && s.caches[k].free != [] && LiveAs(s, a, o)
    ensures Same(s, TakeSlot(s, k).0, a, o)
  {
  }

  lemma {:induction false} GrowSame(s: Kmem, k: nat, base: nat, a: nat, o: nat)
    requires |s.caches| == CLASSES && k < CLASSES && base !in s.held && LiveAs(s, a, o)
    ensures Same(s, GrowClass(s, k, base), a, o)
  {
    hide Thread;
    hide ThreadWords;
  }

  /** What is live stays live, with the same owner and room, through an allocation. */
  lemma {:induction false} AllocKeepsLive(s: Kmem, size: nat, offer: Option<nat>, a: nat, o: nat)
    requires Inv(s) && LiveAs(s, a, o)
    ensures Same(s, Step(s, DoAlloc(size, offer)).0, a, o)
  {
    hide Inv;
    hide TakeSlot;
    hide GrowClass;
    BasicInv(s);
    AllocKeeps(s, size, offer);
    HeldApart(s);
    if size != 0 {
      match ClassFor(size, 0)
      case Some(k) =>
        if s.caches[k].free != [] {
          TakeSame(s, k, a, o);
        } else if offer.Some? && Fresh(s.held, offer.value, s.caches[k].shape.pages) {
          var g := GrowClass(s, k, offer.value);
          HeldMore(s.held, offer.value, Run(s.caches[k].shape.pages, k));
          GrowClassKeeps(s, k, offer.value);
          BasicInv(g);
          GrowSame(s, k, offer.value, a, o);
          TakeSame(g, k, a, o);
        }
      case None =>
        if size + HDR < WORD && LargePages(size + HDR) > 0 && offer.Some?
           && Fresh(s.held, offer.value, LargePages(size + HDR)) {
          HeldMore(s.held, offer.value, Run(LargePages(size + HDR), LARGE));
        }
    }
  }

  lemma {:induction false} HeldApart(s: Kmem)
    requires Inv(s)
    ensures RunsApart(s.held) && forall k :: 0 <= k < CLASSES ==> s.caches[k].shape.pages > 0
  {
    CachesShaped(s);
  }

  /** And through a free of any other pointer. */
  lemma {:induction false} FreeKeepsLive(s: Kmem, p: nat, a: nat, o: nat)
    requires Inv(s) && Proper(s, DoFree(p)) && LiveAs(s, a, o) && p != a + HDR
    ensures Same(s, Step(s, DoFree(p)).0, a, o)
  {
    hide Inv;
    BasicInv(s);
    FreeExact(s, p);
  }

  // ---- Resizing -------------------------------------------------------------------

  /** `kmem_alloc_size`: zero for a pointer whose header has no magic number. */
  function AllocSize(s: Kmem, p: nat): (n: int) {
    if p < HDR || !HasMagic(s, p - HDR) then 0
    else
      var a: nat := p - HDR;
      var owner := OwnerOf(s.word[a]);
      if owner == LARGE then (if a in s.count then s.count[a] * PAGE - HDR else 0)
      else if owner < CLASSES then Usable(owner)
      else 0
  }

  function Peek(s: Kmem, a: nat): (v: Option<nat>) {
    if a in s.word then Some(s.word[a]) else None
  }

  /** `memcpy` of `n` words, from low to high addresses. */
  function CopyTo(s: Kmem, from: nat, to: nat, n: nat): (r: Kmem)
    ensures r.caches == s.caches && r.held == s.held && r.count == s.count
  {
    if n == 0 then s
    else
      var t := CopyTo(s, from, to, n - 1);
      Put(t, to + 8 * (n - 1), Peek(t, from + 8 * (n - 1)))
  }

  /** `kmem_realloc` of a non-null pointer. */
  ghost function Realloc(s: Kmem, p: nat, size: nat, offer: Option<nat>): (r: (Kmem, Option<nat>))
    requires Inv(s) && Proper(s, DoFree(p))
  {
    if size == 0 then (Step(s, DoFree(p)).0, None)
    else if AllocSize(s, p) >= size then (s, Some(p))
    else
      var (t, r) := Step(s, DoAlloc(size, offer));
      if r == None then (t, None)
      else (Free(CopyTo(t, p, r.value, if AllocSize(s, p) > 0 then AllocSize(s, p) / 8 else 0), p).0, r)
  }

  lemma {:induction false} SizeIsRoom(s: Kmem, a: nat, o: nat)
    requires Inv(s) && LiveAs(s, a, o)
    ensures AllocSize(s, a + HDR) == Room(s, a, o) && Room(s, a, o) % 8 == 0 && Room(s, a, o) > 0 && a % 8 == 0
  {
    hide Inv;
    BasicInv(s);
    LiveHeader(s, a, o);
    HeaderFields(o);
  }

  /** The header of a live allocation. */
  lemma {:induction false} LiveHeader(s: Kmem, a: nat, o: nat)
    requires Inv(s) && LiveAs(s, a, o)
    ensures a in s.word && s.word[a] == Header(o) && a % 8 == 0 && o < 0x1_0000
    ensures o == LARGE ==> a in s.count && s.count[a] == s.held[a].pages > 0
  {
    hide Tagged;
    hide StoredApart;
    hide CacheInv;
    hide Linked;
    hide RunsApart;
    hide SlotsOf;
    if o < CLASSES {
      assert ClassInv(s, o);
      MembersAreSlots(s, o, a);
      var b := SlotRun(s, o, a);
      WordAligned(a, 2);
    } else {
      HeldAligned(s.held, a);
    }
  }

  lemma {:induction false} HeldAligned(held: map<nat, Run>, a: nat)
    requires RunsApart(held) && a in held
    ensures a % 8 == 0 && held[a].pages > 0
  {
    WordAligned(a, 512);
  }

  lemma {:induction false} WordAligned(a: nat, k: nat)
    requires k > 0 && a % (8 * k) == 0
    ensures a % 8 == 0
  {
    var q := a / (8 * k);
    DivFacts(a, 8 * k);
    Assoc(q, k, 8);
    assert k * 8 == 8 * k;
    ModUnique(a, 8, q * k, 0);
  }

  /** Copying from one place to another that it does not overlap. */
  lemma {:induction false} CopyFacts(s: Kmem, from: nat, to: nat, n: nat, x: nat)
    requires from + 8 * n <= to || to + 8 * n <= from
    ensures var t := CopyTo(s, from, to, n);
      && (x < to || to + 8 * n <= x ==> Peek(t, x) == Peek(s, x) && (x in t.stored <==> x in s.stored))
      && (x < n ==> Peek(t, to + 8 * x) == Peek(s, from + 8 * x))
  {
    if n > 0 {
      CopyFacts(s, from, to, n - 1, x);
      CopyFacts(s, from, to, n - 1, from + 8 * (n - 1));
    }
  }

  /** Copying into a live payload keeps the invariant. */
  lemma {:induction false} CopyKeeps(s: Kmem, from: nat, to: nat, n: nat)
    requires Inv(s) && forall i: nat :: i < n ==> Storable(s, WordAt(to, i))
    ensures var t := CopyTo(s, from, to, n);
      Inv(t)
  {
    hide Inv;
    hide Storable;
    if n > 0 {
      var t := CopyTo(s, from, to, n - 1);
      CopyKeeps(s, from, to, n - 1);
      BasicInv(s);
      BasicInv(t);
      SameStorable(s, t, WordAt(to, n - 1));
      PutKeeps(t, to + 8 * (n - 1), Peek(t, from + 8 * (n - 1)));
    }
  }

  function WordAt(base: nat, i: nat): (a: nat) {
    base + 8 * i
  }

  lemma {:induction false} SameStorable(s: Kmem, t: Kmem, a: nat)
    requires |s.caches| == CLASSES && t.caches == s.caches && t.held == s.held
    ensures Storable(t, a) <==> Storable(s, a)
  {
    forall h: nat, o: nat ensures InPayload(t, a, h, o) <==> InPayload(s, a, h, o) {}
  }

  /** An allocation writes no word of a live payload. */
  lemma {:induction false} AllocKeepsWords(s: Kmem, size: nat, offer: Option<nat>, x: nat, a: nat, o: nat)
    requires Inv(s) && InPayload(s, x, a, o)
    ensures Peek(Step(s, DoAlloc(size, offer)).0, x) == Peek(s, x)
  {
    hide Inv;
    hide TakeSlot;
    hide GrowClass;
    BasicInv(s);
    CachesShaped(s);
    AllocKeeps(s, size, offer);
    if size != 0 {
      match ClassFor(size, 0)
      case Some(k) =>
        if s.caches[k].free != [] {
          TakeKeepsWords(s, k, x, a, o);
        } else if offer.Some? && Fresh(s.held, offer.value, s.caches[k].shape.pages) {
          var g := GrowClass(s, k, offer.value);
          GrowClassKeeps(s, k, offer.value);
          BasicInv(g);
          GrowKeepsWords(s, k, offer.value, x, a, o);
          TakeKeepsWords(g, k, x, a, o);
        }
      case None =>
        if size + HDR < WORD && LargePages(size + HDR) > 0 && offer.Some?
           && Fresh(s.held, offer.value, LargePages(size + HDR)) {
          var b, i := Place(s, a, o);
          OutsideFresh(s.held, offer.value, LargePages(size + HDR), b, x);
        }
    }
  }

  lemma {:induction false} TakeKeepsWords(s: Kmem, k: nat, x: nat, a: nat, o: nat)
    requires Inv(s) && InPayload(s, x, a, o) && k < CLASSES && s.caches[k].free != []
    ensures Peek(TakeSlot(s, k).0, x) == Peek(s, x)
  {
    hide Inv;
    BasicInv(s);
    TakeSlotKeeps(s, k);
    var (t, p) := TakeSlot(s, k);
    TakeSame(s, k, a, o);
    OneOwner(t, p - HDR, k, o);
    LiveDisjoint(t, a, o, p - HDR, k);
  }

  lemma {:induction false} GrowKeepsWords(s: Kmem, k: nat, base: nat, x: nat, a: nat, o: nat)
    requires Inv(s) && InPayload(s, x, a, o) && k < CLASSES && Fresh(s.held, base, s.caches[k].shape.pages)
    ensures var g := GrowClass(s, k, base);
      |g.caches| == CLASSES && Peek(g, x) == Peek(s, x) && InPayload(g, x, a, o)
  {
    hide Inv;
    hide NewWord;
    BasicInv(s);
    HeldApart(s);
    GrowFacts(s, k, base);
    var b, i := Place(s, a, o);
    NewSlotsApart(s.held, base, s.caches[k].shape, b, x);
    HeldMore(s.held, base, Run(s.caches[k].shape.pages, k));
    GrowSame(s, k, base, a, o);
    GrowWords(s, k, base, x);
  }

  /** Resizing a live allocation gives a live one with room for the new size, holding what the
   *  old one held, and no longer the old one, unless it is the same; failing, it leaves the old
   *  one as it was. */
  lemma {:induction false} ReallocExact(s: Kmem, a: nat, o: nat, size: nat, offer: Option<nat>)
    requires Inv(s) && LiveAs(s, a, o) && size > 0
    ensures Proper(s, DoFree(a + HDR))
    ensures var (t, r) := Realloc(s, a + HDR, size, offer);
      && Inv(t)
      && (r == None ==> t == s)
      && (r == Some(a + HDR) <==> size <= Room(s, a, o))
      && (r == Some(a + HDR) ==> t == s)
      && (size > Room(s, a, o) ==> (r.Some? <==> CanServe(s, size, offer)))
      && (r.Some? && r.value != a + HDR ==>
            && r.value >= HDR && Live(t, r.value - HDR) && !Live(s, r.value - HDR) && !Live(t, a)
            && AllocSize(t, r.value) >= size
            && forall i: nat :: 8 * i < Room(s, a, o) ==> Peek(t, WordAt(r.value, i)) == Peek(s, WordAt(a + HDR, i)))
  {
    hide Inv;
    hide Step;
    hide LiveAs;
    hide Room;
    hide AllocSize;
    hide CanServe;
    BasicInv(s);
    NotStored(s, a, o);
    SizeIsRoom(s, a, o);
    StepServesIff(s, size, offer);
    if AllocSize(s, a + HDR) < size {
      Moved(s, a, o, size, offer);
    }
  }

  lemma {:induction false} StepServesIff(s: Kmem, size: nat, offer: Option<nat>)
    requires Inv(s)
    ensures |s.caches| == CLASSES
    ensures var (t, r) := Step(s, DoAlloc(size, offer));
      (r.Some? <==> CanServe(s, size, offer)) && (r == None ==> t == s)
  {
    hide Inv;
    hide Alloc;
    hide CanServe;
    AllocSucceedsIff(s, size, offer);
  }

  /** Resizing to zero frees: the old allocation is no longer live and nothing is returned. */
  lemma {:induction false} ReallocZero(s: Kmem, a: nat, o: nat, offer: Option<nat>)
    requires Inv(s) && LiveAs(s, a, o)
    ensures Proper(s, DoFree(a + HDR))
    ensures var (t, r) := Realloc(s, a + HDR, 0, offer); Inv(t) && r == None && !Live(t, a)
  {
    hide Inv;
    hide Free;
    BasicInv(s);
    NotStored(s, a, o);
    OwnerRange(s, a, o);
    FreeExact(s, a + HDR);
  }

  /** Whatever the new size and the outcome, every other live allocation stays live with the same
   *  room. */
  lemma {:induction false} ReallocOthers(s: Kmem, a: nat, o: nat, size: nat, offer: Option<nat>, b: nat, q: nat)
    requires Inv(s) && LiveAs(s, a, o) && LiveAs(s, b, q) && a != b
    ensures Proper(s, DoFree(a + HDR))
    ensures |Realloc(s, a + HDR, size, offer).0.caches| == CLASSES
    ensures Same(s, Realloc(s, a + HDR, size, offer).0, b, q)
  {
    hide Inv;
    hide Step;
    hide LiveAs;
    hide AllocSize;
    BasicInv(s);
    NotStored(s, a, o);
    SizeIsRoom(s, a, o);
    if size == 0 {
      FreeKeepsLive(s, a + HDR, b, q);
      BasicInv(Step(s, DoFree(a + HDR)).0);
    } else if AllocSize(s, a + HDR) < size {
      MovedOthers(s, a, o, size, offer, b, q);
    }
  }

  lemma {:induction false} MovedOthers(s: Kmem, a: nat, o: nat, size: nat, offer: Option<nat>, b: nat, q: nat)
    requires Inv(s) && LiveAs(s, a, o) && LiveAs(s, b, q) && a != b && size > AllocSize(s, a + HDR) == Room(s, a, o)
    ensures var (t, r) := Step(s, DoAlloc(size, offer));
      && |t.caches| == CLASSES && Same(s, t, b, q)
      && (r.Some? ==>
            var v := Free(CopyTo(t, a + HDR, r.value, Room(s, a, o) / 8), a + HDR).0;
            |v.caches| == CLASSES && Same(s, v, b, q))
  {
    hide Inv;
    hide Step;
    hide LiveAs;
    hide AllocSize;
    hide CopyTo;
    BasicInv(s);
    AllocKeepsLive(s, size, offer, a, o);
    AllocKeepsLive(s, size, offer, b, q);
    AllocServed(s, size, offer);
    var (t, r) := Step(s, DoAlloc(size, offer));
    BasicInv(t);
    if r.Some? {
      var k: nat :| k <= LARGE && ServedAs(s, t, r.value, size, k);
      DeadBefore(s, size, offer, r.value - HDR, k);
      OneOwner(t, r.value - HDR, k, o);
      CopyOthers(t, a, o, r.value - HDR, k, b, q);
    }
  }

  lemma {:induction false} CopyOthers(t: Kmem, a: nat, o: nat, c: nat, k: nat, b: nat, q: nat)
    requires Inv(t) && LiveAs(t, a, o) && LiveAs(t, c, k) && LiveAs(t, b, q) && a != c && a != b
    requires Room(t, a, o) < Room(t, c, k)
    ensures var n := Room(t, a, o) / 8;
      n >= 0 &&
      var v := Free(CopyTo(t, a + HDR, c + HDR, n), a + HDR).0;
      |v.caches| == CLASSES && Same(t, v, b, q)
  {
    hide Inv;
    hide LiveAs;
    hide AllocSize;
    hide CopyTo;
    hide Free;
    BasicInv(t);
    SizeIsRoom(t, a, o);
    SizeIsRoom(t, c, k);
    LiveDisjoint(t, a, o, c, k);
    var n := Room(t, a, o) / 8;
    PayloadStorable(t, c, k, n, c + HDR);
    CopyKeeps(t, a + HDR, c + HDR, n);
    var u := CopyTo(t, a + HDR, c + HDR, n);
    BasicInv(u);
    SameLive(t, u, a, o);
    SameLive(t, u, b, q);
    NotStored(u, a, o);
    FreeKeepsLive(u, a + HDR, b, q);
    BasicInv(Step(u, DoFree(a + HDR)).0);
  }

  /** What an allocation returns was not live under any owner. */
  lemma {:induction false} DeadBefore(s: Kmem, size: nat, offer: Option<nat>, b: nat, q: nat)
    requires Inv(s) && Inv(Step(s, DoAlloc(size, offer)).0)
    requires LiveAs(Step(s, DoAlloc(size, offer)).0, b, q) && !LiveAs(s, b, q)
    ensures !Live(s, b)
  {
    hide Inv;
    hide Step;
    BasicInv(s);
    BasicInv(Step(s, DoAlloc(size, offer)).0);
    forall o: nat | o <= LARGE && LiveAs(s, b, o) ensures false {
      AllocKeepsLive(s, size, offer, b, o);
      OneOwner(Step(s, DoAlloc(size, offer)).0, b, q, o);
    }
  }

  /** The moving case. */
  lemma {:induction false} Moved(s: Kmem, a: nat, o: nat, size: nat, offer: Option<nat>)
    requires Inv(s) && LiveAs(s, a, o) && size > AllocSize(s, a + HDR) == Room(s, a, o)
    ensures var (t, r) := Step(s, DoAlloc(size, offer));
      && Same(s, t, a, o)
      && (r.Some? ==>
            var v := Free(CopyTo(t, a + HDR, r.value, Room(s, a, o) / 8), a + HDR).0;
            && Inv(v) && r.value >= HDR && r.value != a + HDR && !Live(s, r.value - HDR)
            && Live(v, r.value - HDR) && !Live(v, a) && AllocSize(v, r.value) >= size
            && forall i: nat :: 8 * i < Room(s, a, o) ==> Peek(v, WordAt(r.value, i)) == Peek(s, WordAt(a + HDR, i)))
  {
    hide Inv;
    hide Step;
    hide LiveAs;
    hide AllocSize;
    hide CopyTo;
    BasicInv(s);
    AllocKeepsLive(s, size, offer, a, o);
    AllocServed(s, size, offer);
    var (t, r) := Step(s, DoAlloc(size, offer));
    BasicInv(t);
    if r.Some? {
      var q: nat :| q <= LARGE && ServedAs(s, t, r.value, size, q);
      DeadBefore(s, size, offer, r.value - HDR, q);
      OneOwner(t, r.value - HDR, q, o);
      CopyMoves(t, a, o, r.value - HDR, q, size);
      forall i: nat | 8 * i < Room(s, a, o) ensures Peek(t, WordAt(a + HDR, i)) == Peek(s, WordAt(a + HDR, i)) {
        SizeIsRoom(s, a, o);
        AllocKeepsWords(s, size, offer, WordAt(a + HDR, i), a, o);
      }
    }
  }

  /** Copy the payload of one live allocation into a larger one and free the first. */
  lemma {:induction false} CopyMoves(t: Kmem, a: nat, o: nat, b: nat, q: nat, size: nat)
    requires Inv(t) && LiveAs(t, a, o) && LiveAs(t, b, q) && a != b && Room(t, a, o) < size <= Room(t, b, q)
    ensures var n := Room(t, a, o) / 8;
      n >= 0 &&
      var v := Free(CopyTo(t, a + HDR, b + HDR, n), a + HDR).0;
      && Inv(v) && Live(v, b) && !Live(v, a) && AllocSize(v, b + HDR) >= size
      && forall i: nat :: 8 * i < Room(t, a, o) ==> Peek(v, WordAt(b + HDR, i)) == Peek(t, WordAt(a + HDR, i))
  {
    hide Inv;
    hide LiveAs;
    hide AllocSize;
    hide CopyTo;
    BasicInv(t);
    SizeIsRoom(t, a, o);
    SizeIsRoom(t, b, q);
    LiveDisjoint(t, a, o, b, q);
    var n := Room(t, a, o) / 8;
    PayloadStorable(t, b, q, n, b + HDR);
    CopyKeeps(t, a + HDR, b + HDR, n);
    var u := CopyTo(t, a + HDR, b + HDR, n);
    BasicInv(u);
    SameLive(t, u, a, o);
    SameLive(t, u, b, q);
    FreeMoved(u, a, o, b, q);
    forall i: nat | 8 * i < Room(t, a, o)
      ensures Peek(Free(u, a + HDR).0, WordAt(b + HDR, i)) == Peek(t, WordAt(a + HDR, i))
    {
      CopyFacts(t, a + HDR, b + HDR, n, i);
      FreeKeepsWords(u, a + HDR, WordAt(b + HDR, i));
    }
  }

  lemma {:induction false} PayloadStorable(t: Kmem, b: nat, q: nat, n: nat, p: nat)
    requires Inv(t) && LiveAs(t, b, q) && 8 * n <= Room(t, b, q) && p == b + HDR
    ensures forall i: nat :: i < n ==> Storable(t, WordAt(p, i))
  {
    hide Inv;
    BasicInv(t);
    SizeIsRoom(t, b, q);
    forall i: nat | i < n ensures Storable(t, WordAt(p, i)) {
      assert InPayload(t, WordAt(p, i), b, q);
    }
  }

  lemma {:induction false} SameLive(s: Kmem, t: Kmem, a: nat, o: nat)
    requires |s.caches| == CLASSES && LiveAs(s, a, o) && t.caches == s.caches && t.held == s.held
    ensures LiveAs(t, a, o) && Room(t, a, o) == Room(s, a, o)
  {
  }

  lemma {:induction false} FreeMoved(u: Kmem, a: nat, o: nat, b: nat, q: nat)
    requires Inv(u) && LiveAs(u, a, o) && LiveAs(u, b, q) && a != b
    ensures var v := Free(u, a + HDR).0;
      Inv(v) && Live(v, b) && !Live(v, a) && AllocSize(v, b + HDR) == Room(u, b, q)
  {
    hide Inv;
    hide LiveAs;
    hide AllocSize;
    hide Free;
    BasicInv(u);
    OwnerRange(u, a, o);
    OwnerRange(u, b, q);
    NotStored(u, a, o);
    FreeExact(u, a + HDR);
    FreeKeepsLive(u, a + HDR, b, q);
    var v := Free(u, a + HDR).0;
    BasicInv(v);
    SizeIsRoom(v, b, q);
  }

  lemma {:induction false} FreeKeepsWords(u: Kmem, p: nat, x: nat)
    requires |u.caches| == CLASSES && p >= HDR && x != p - HDR
    ensures Peek(Free(u, p).0, x) == Peek(u, x)
  {
  }

  lemma {:induction false} AllocServed(s: Kmem, size: nat, offer: Option<nat>)
    requires Inv(s)
    ensures var (t, r) := Step(s, DoAlloc(size, offer)); r.Some? ==> Served(s, t, r.value, size)
  {
    hide Inv;
    hide Alloc;
    hide Served;
    BasicInv(s);
    AllocKeeps(s, size, offer);
  }

  lemma {:induction false} OwnerRange(s: Kmem, a: nat, o: nat)
    requires |s.caches| == CLASSES && LiveAs(s, a, o)
    ensures o <= LARGE
  {
  }

  // ---- Double frees over whole runs -------------------------------------------------

  /** Does the run hand out this address? */
  ghost predicate Returns(s: Kmem, ops: seq<Op>, p: nat)
    requires Inv(s) && ProperRun(s, ops)
    decreases |ops|
  {
    ops != [] && (Step(s, ops[0]).1 == Some(p) || Returns(Step(s, ops[0]).0, ops[1..], p))
  }

  lemma {:induction false} StillDead(s: Kmem, op: Op, a: nat)
    requires Inv(s) && Proper(s, op) && !Live(s, a) && Step(s, op).1 != Some(a + HDR)
    ensures !Live(Step(s, op).0, a)
  {
    hide Inv;
    hide Proper;
    hide Alloc;
    hide Free;
    BasicInv(s);
    match op
    case DoAlloc(size, offer) => AllocOnly(s, size, offer, a);
    case DoFree(p) => FreeOnly(s, p, a);
    case DoStore(b, w) =>
      forall o: nat | o <= LARGE ensures !LiveAs(Store(s, b, w), a, o) {
        assert !LiveAs(s, a, o);
      }
  }

  /** Slabs are never given back: a slot stays a slot. */
  ghost predicate IsSlot(s: Kmem, a: nat) {
    exists k :: 0 <= k < |s.caches| && a in SlotsOf(s.caches[k].slabs, s.caches[k].shape)
  }

  lemma {:induction false} StillSlot(s: Kmem, op: Op, a: nat)
    requires Inv(s) && Proper(s, op) && IsSlot(s, a)
    ensures IsSlot(Step(s, op).0, a)
  {
    hide Inv;
    hide SlotsOf;
    BasicInv(s);
    var k :| 0 <= k < |s.caches| && a in SlotsOf(s.caches[k].slabs, s.caches[k].shape);
    var t := Step(s, op).0;
    match op
    case DoAlloc(size, offer) =>
      AllocKeeps(s, size, offer);
      AllocSlots(s, size, offer, k, a);
    case DoFree(p) => assert a in SlotsOf(t.caches[k].slabs, t.caches[k].shape);
    case DoStore(b, w) => assert a in SlotsOf(t.caches[k].slabs, t.caches[k].shape);
  }

  lemma {:induction false} AllocSlots(s: Kmem, size: nat, offer: Option<nat>, k: nat, a: nat)
    requires Inv(s) && k < CLASSES && a in SlotsOf(s.caches[k].slabs, s.caches[k].shape)
    ensures var t := Step(s, DoAlloc(size, offer)).0;
      k < |t.caches| && a in SlotsOf(t.caches[k].slabs, t.caches[k].shape)
  {
    hide Inv;
    hide TakeSlot;
    hide GrowClass;
    hide SlotsOf;
    BasicInv(s);
    AllocKeeps(s, size, offer);
    if size != 0 {
      match ClassFor(size, 0)
      case Some(j) =>
        if s.caches[j].free != [] {
          TakeSlots(s, j, k);
        } else if offer.Some? && Fresh(s.held, offer.value, s.caches[j].shape.pages) {
          GrowSlots(s, j, offer.value, k, a);
          GrowClassKeeps(s, j, offer.value);
          BasicInv(GrowClass(s, j, offer.value));
          TakeSlots(GrowClass(s, j, offer.value), j, k);
        }
      case None =>
    }
  }

  lemma {:induction false} TakeSlots(s: Kmem, j: nat, k: nat)
    requires j < |s.caches| && k < |s.caches| && s.caches[j].free != []
    ensures var t := TakeSlot(s, j).0;
      |t.caches| == |s.caches| && t.caches[k].slabs == s.caches[k].slabs && t.caches[k].shape == s.caches[k].shape
  {
  }

  lemma {:induction false} GrowSlots(s: Kmem, j: nat, base: nat, k: nat, a: nat)
    requires j < |s.caches| && k < |s.caches| && a in SlotsOf(s.caches[k].slabs, s.caches[k].shape)
    ensures var t := GrowClass(s, j, base);
      |t.caches| == |s.caches| && a in SlotsOf(t.caches[k].slabs, t.caches[k].shape)
  {
    hide ThreadWords;
    hide Thread;
    assert ([base] + s.caches[j].slabs)[1..] == s.caches[j].slabs;
  }

  /** The words an allocation writes, apart from first words of slots that exist already. */
  ghost function AllocWrites(s: Kmem, size: nat, offer: Option<nat>): (r: set<nat>)
    requires Inv(s)
  {
    BasicInv(s);
    if size == 0 then {}
    else
      match ClassFor(size, 0)
      case Some(k) =>
        if s.caches[k].free != [] then {s.caches[k].free[0] + 8}
        else if offer.Some? && Fresh(s.held, offer.value, s.caches[k].shape.pages) then
          CachesGood(s, k);
          var c := s.caches[k];
          SlabHeader(offer.value) + SlabSlots(offer.value, c.shape.slot, c.shape.objs)
          + {SlotAt(offer.value, c.shape.slot, c.shape.objs - 1) + 8}
        else {}
      case None =>
        if size + HDR < WORD && LargePages(size + HDR) > 0 && offer.Some?
           && Fresh(s.held, offer.value, LargePages(size + HDR))
        then {offer.value, offer.value + 8} else {}
  }

  /** Does the operation store the magic number at `a`? */
  predicate Forges(op: Op, a: nat) {
    op.DoStore? && op.a == a && MagicOf(op.w) == MAGIC
  }

  /** Does the operation write `a` otherwise? */
  ghost predicate Overwrites(s: Kmem, op: Op, a: nat)
    requires Inv(s)
  {
    match op
    case DoAlloc(size, offer) => a in AllocWrites(s, size, offer)
    case DoFree(p) => false
    case DoStore(b, w) => b == a
  }

  /** A word is forged after a step exactly when the step forges it, or it was and the step does
   *  not overwrite it. */
  lemma {:induction false} ForgedStep(s: Kmem, op: Op, a: nat)
    requires Inv(s) && Proper(s, op)
    ensures Forged(Step(s, op).0, a) <==> Forges(op, a) || (Forged(s, a) && !Overwrites(s, op, a))
  {
    hide Inv;
    BasicInv(s);
    match op
    case DoAlloc(size, offer) =>
      hide TakeSlot;
      hide GrowClass;
      AllocKeeps(s, size, offer);
      AllocForged(s, size, offer, a);
    case DoFree(p) => FreeForged(s, p, a);
    case DoStore(b, w) =>
  }

  lemma {:induction false} FreeForged(s: Kmem, p: nat, a: nat)
    requires Inv(s) && Proper(s, DoFree(p))
    ensures Forged(Free(s, p).0, a) <==> Forged(s, a)
  {
    hide Inv;
    BasicInv(s);
    FreeExact(s, p);
    if p >= HDR && Live(s, p - HDR) {
      var o: nat :| o <= LARGE && LiveAs(s, p - HDR, o);
      NotStored(s, p - HDR, o);
    }
  }

  lemma {:induction false} AllocForged(s: Kmem, size: nat, offer: Option<nat>, a: nat)
    requires Inv(s)
    ensures Forged(Step(s, DoAlloc(size, offer)).0, a) <==> Forged(s, a) && a !in AllocWrites(s, size, offer)
  {
    hide Inv;
    hide TakeSlot;
    hide GrowClass;
    hide Forged;
    BasicInv(s);
    CachesShaped(s);
    AllocKeeps(s, size, offer);
    if size != 0 {
      match ClassFor(size, 0)
      case Some(k) =>
        if s.caches[k].free != [] {
          TakeForged(s, k, a);
        } else if offer.Some? && Fresh(s.held, offer.value, s.caches[k].shape.pages) {
          var g := GrowClass(s, k, offer.value);
          GrowClassKeeps(s, k, offer.value);
          BasicInv(g);
          TakeForged(g, k, a);
          GrowForged(s, k, offer.value, a);
        }
      case None => HoldForged(s, size, offer, a);
    }
  }

  lemma {:induction false} HoldForged(s: Kmem, size: nat, offer: Option<nat>, a: nat)
    requires Inv(s) && size != 0 && ClassFor(size, 0) == None
    ensures Forged(Step(s, DoAlloc(size, offer)).0, a) <==> Forged(s, a) && a !in AllocWrites(s, size, offer)
  {
    hide Inv;
    BasicInv(s);
    AllocKeeps(s, size, offer);
  }

  lemma {:induction false} TakeForged(s: Kmem, k: nat, a: nat)
    requires Inv(s) && k < CLASSES && s.caches[k].free != []
    ensures Forged(TakeSlot(s, k).0, a) <==> Forged(s, a) && a != s.caches[k].free[0] + 8
  {
    hide ClassInv;
    hide RunsApart;
    hide LargeInv;
    hide Tagged;
    HeadSlot(s, k);
  }

  lemma {:induction false} GrowForged(s: Kmem, k: nat, base: nat, a: nat)
    requires Inv(s) && k < CLASSES && Fresh(s.held, base, s.caches[k].shape.pages)
    ensures var g := GrowClass(s, k, base);
      && (Forged(g, a) <==> Forged(s, a) && !NewWord(base, s.caches[k].shape, a))
      && g.caches[k].free != [] && s.caches[k].shape.objs > 0
      && g.caches[k].free[0] == SlotAt(base, s.caches[k].shape.slot, s.caches[k].shape.objs - 1)
  {
    hide Inv;
    hide NewWord;
    hide ThreadWords;
    BasicInv(s);
    GrowFacts(s, k, base);
    GrowWords(s, k, base, a);
  }

  /** Is the last write to `a` in the run a store of the magic number? `was` says so of what was
   *  there before. */
  ghost predicate LastForges(s: Kmem, ops: seq<Op>, a: nat, was: bool)
    requires Inv(s) && ProperRun(s, ops)
    decreases |ops|
  {
    if ops == [] then was
    else LastForges(Step(s, ops[0]).0, ops[1..], a, Forges(ops[0], a) || (was && !Overwrites(s, ops[0], a)))
  }

  /** A freed pointer that has not been handed out again is accepted by a later free exactly when
   *  the last write to its header word is a store of the magic number by somebody else. A
   *  pointer into a size class never is. */
  lemma {:induction false} DoubleFreeExact(s: Kmem, ops: seq<Op>, p: nat)
    requires Inv(s) && ProperRun(s, ops) && p >= HDR && !Live(s, p - HDR) && !Returns(s, ops, p)
    ensures var e := Execute(s, ops);
      && |e.caches| == CLASSES
      && (Free(e, p).1 <==> LastForges(s, ops, p - HDR, Forged(s, p - HDR)))
      && (!Free(e, p).1 ==> Free(e, p).0 == e)
      && (IsSlot(s, p - HDR) ==> !Free(e, p).1)
    decreases |ops|
  {
    hide Inv;
    BasicInv(s);
    if ops == [] {
      FreeExact(s, p);
      SlotNotForged(s, p - HDR);
    } else {
      hide Step;
      hide Free;
      hide Proper;
      hide Forged;
      hide Overwrites;
      hide IsSlot;
      BasicInv(Step(s, ops[0]).0);
      StillDead(s, ops[0], p - HDR);
      if IsSlot(s, p - HDR) {
        StillSlot(s, ops[0], p - HDR);
      }
      ForgedStep(s, ops[0], p - HDR);
      DoubleFreeExact(Step(s, ops[0]).0, ops[1..], p);
    }
  }

  lemma {:induction false} LargeRequest(size: nat)
    requires size > 4096
    ensures ClassFor(size, 0) == None
  {
    assert forall k :: 0 <= k < CLASSES ==> Usable(k) <= 4096;
  }

  /** A large request on an allocator that holds nothing. */
  lemma {:induction false} FirstLarge(s: Kmem, size: nat, base: nat, n: nat)
    requires Inv(s) && s.held == map[] && size > 4096 && size + HDR + PAGE < WORD && n == LargePages(size + HDR)
    requires base % PAGE == 0 && base > 0
    ensures var (t, r) := Step(s, DoAlloc(size, Some(base)));
      n > 0 && t == HoldLarge(s, base, n) && r == Some(base + HDR)
  {
    hide Inv;
    hide ClassFor;
    BasicInv(s);
    AllocKeeps(s, size, Some(base));
    LargeRequest(size);
    assert Fresh(s.held, base, n);
  }

  /** A large pointer is freed, a larger run is placed over it, its owner stores the magic number
   *  where the header was, and the pointer is freed again: accepted, although it was never
   *  handed out a second time. */
  lemma {:induction false} StaleLargeFree(base: nat)
    requires base % PAGE == 0 && base > 0
    ensures Inv(Init())
    ensures var p := base + PAGE + HDR;
      var (s, r) := Step(Init(), DoAlloc(5000, Some(base + PAGE)));
      var ops := [DoFree(p), DoAlloc(20000, Some(base)), DoStore(base + PAGE, MAGIC)];
      && r == Some(p) && ProperRun(s, ops) && !Returns(s, ops, p)
      && |Execute(s, ops).caches| == CLASSES && Free(Execute(s, ops), p).1 && !Inv(Free(Execute(s, ops), p).0)
  {
    hide Inv;
    hide Step;
    hide Storable;
    hide ProperRun;
    hide Execute;
    hide Returns;
    hide Free;
    hide Forged;
    hide Init;
    var b, p := base + PAGE, base + PAGE + HDR;
    var ops := [DoFree(p), DoAlloc(20000, Some(base)), DoStore(b, MAGIC)];
    var s, t := StaleStart(base);
    var u, v := StaleStore(base, t);
    ThreeSteps(s, t, u, v, ops, p);
    BasicInv(v);
    ForgedBreaks(v, p);
  }

  lemma {:induction false} StaleStart(base: nat) returns (s: Kmem, t: Kmem)
    requires base % PAGE == 0 && base > 0
    ensures var p: nat := base + PAGE + HDR;
      && Inv(Init()) && Step(Init(), DoAlloc(5000, Some(base + PAGE))) == (s, Some(p))
      && Inv(s) && Proper(s, DoFree(p)) && Step(s, DoFree(p)).0 == t && Step(s, DoFree(p)).1 == None
      && Inv(t) && t.held == map[]
  {
    hide Inv;
    hide Step;
    hide LargePages;
    hide Init;
    hide HoldLarge;
    hide Proper;
    InitInv();
    NothingHeld();
    TwoPages();
    var b: nat := base + PAGE;
    FirstLarge(Init(), 5000, b, 2);
    s := HoldLarge(Init(), b, 2);
    FreeFirst(s, b, 2);
    t := Step(s, DoFree(b + HDR)).0;
  }

  lemma {:induction false} NothingHeld()
    ensures Init().held == map[]
  {
  }

  lemma {:induction false} TwoPages()
    ensures LargePages(5000 + HDR) == 2 && LargePages(20000 + HDR) == 5
  {
  }

  lemma {:induction false} StaleStore(base: nat, t: Kmem) returns (u: Kmem, v: Kmem)
    requires base % PAGE == 0 && base > 0 && Inv(t) && t.held == map[]
    ensures var b, q: nat := base + PAGE, base + HDR;
      && Step(t, DoAlloc(20000, Some(base))) == (u, Some(q))
      && Inv(u) && Proper(u, DoStore(b, MAGIC))
      && Step(u, DoStore(b, MAGIC)).0 == v && Step(u, DoStore(b, MAGIC)).1 == None
      && Inv(v) && Forged(v, b) && OwnerOf(v.word[b]) == 0
  {
    hide Inv;
    hide LargePages;
    hide Storable;
    hide Alloc;
    TwoPages();
    FirstLarge(t, 20000, base, 5);
    u := HoldLarge(t, base, 5);
    BasicInv(u);
    var b := base + PAGE;
    LargeStorable(u, b, base);
    v := Store(u, b, MAGIC);
    assert Step(u, DoStore(b, MAGIC)).0 == v;
    ModUnique(MAGIC, HALF, 0, MAGIC);
  }

  lemma {:induction false} LargeStorable(u: Kmem, a: nat, h: nat)
    requires |u.caches| == CLASSES && InPayload(u, a, h, LARGE) && a % PAGE == 0
    ensures Storable(u, a)
  {
    WordAligned(a, 512);
  }

  lemma {:induction false} FreeFirst(s: Kmem, b: nat, n: nat)
    requires Inv(s) && s == HoldLarge(Init(), b, n) && n > 0
    ensures Proper(s, DoFree(b + HDR)) && Step(s, DoFree(b + HDR)).0.held == map[]
    ensures Step(s, DoFree(b + HDR)).1 == None
  {
    hide Inv;
    BasicInv(s);
    HeaderFields(LARGE);
    assert LiveAs(s, b, LARGE);
    NotStored(s, b, LARGE);
  }

  lemma {:induction false} ThreeSteps(s: Kmem, t: Kmem, u: Kmem, v: Kmem, ops: seq<Op>, p: nat)
    requires |ops| == 3 && Inv(s) && Proper(s, ops[0]) && Step(s, ops[0]).0 == t && Step(s, ops[0]).1 != Some(p)
    requires Inv(t) && Proper(t, ops[1]) && Step(t, ops[1]).0 == u && Step(t, ops[1]).1 != Some(p)
    requires Inv(u) && Proper(u, ops[2]) && Step(u, ops[2]).0 == v && Step(u, ops[2]).1 != Some(p)
    ensures ProperRun(s, ops) && Execute(s, ops) == v && !Returns(s, ops, p)
  {
    hide Inv;
    hide Step;
    hide Proper;
    assert ops[1..][1..] == ops[2..] && ops[2..][1..] == [];
    assert ProperRun(v, []) && Execute(v, []) == v && !Returns(v, [], p);
    assert ProperRun(u, ops[2..]) && Execute(u, ops[2..]) == v && !Returns(u, ops[2..], p);
    assert ProperRun(t, ops[1..]) && Execute(t, ops[1..]) == v && !Returns(t, ops[1..], p);
  }

  lemma {:induction false} SlotNotForged(s: Kmem, a: nat)
    requires Inv(s)
    ensures IsSlot(s, a) ==> !Forged(s, a)
  {
  }
}

/** The allocator as the kernel runs it: list heads and words of memory, the free lists
 *  threaded through the free slots. The ghost model says what is live and which runs are
 *  held. */
module Slab {
  import opened Arithmetic
  import opened Lists
  import opened Options
  import opened SlabSpec

  function First(free: seq<nat>): nat {
    if free == [] then 0 else free[0]
  }

  /** Slots are never at address zero, so a null head means an empty list. */
  lemma {:induction false} NullIffEmpty(s: Kmem, k: nat)
    requires Inv(s) && k < CLASSES
    ensures First(s.caches[k].free) == 0 <==> s.caches[k].free == []
    ensures s.caches[k].free != [] ==>
      First(s.caches[k].free) in s.word && s.word[First(s.caches[k].free)] == First(s.caches[k].free[1..])
  {
    if s.caches[k].free != [] {
      HeadSlot(s, k);
      var b := SlotRun(s, k, s.caches[k].free[0]);
      assert ClassInv(s, k);
    }
  }

  /** Pages the page allocator is asked for by a request of this size. */
  function PagesNeeded(size: nat): (n: nat) {
    match ClassFor(size, 0)
    case Some(k) => ClassShape(k).pages
    case None => LargePages(size + HDR)
  }

  class KmemObject {
    const head: array<nat>
    var word: map<nat, nat>
    var count: map<nat, nat>
    ghost var model: Kmem

    /** The fields are those of the model. */
    ghost predicate Mirrors()
      reads this, head
    {
      && |model.caches| == CLASSES && word == model.word && count == model.count
      && head.Length == CLASSES
      && forall k :: 0 <= k < CLASSES ==> head[k] == First(model.caches[k].free)
    }

    ghost predicate Valid()
      reads this, head
    {
      Inv(model) && Mirrors()
    }

    constructor ()
      ensures Valid() && model == SlabSpec.Init() && fresh(head)
    {
      head := new nat[CLASSES](i => 0);
      word, count := map[], map[];
      model := SlabSpec.Init();
      InitInv();
    }

    /** `size_to_class`: the smallest class with room. */
    static method SizeToClass(size: nat) returns (r: Option<nat>)
      ensures r == ClassFor(size, 0)
    {
      for k := 0 to CLASSES
        invariant ClassFor(size, 0) == ClassFor(size, k)
      {
        if size <= Usable(k) {
          return Some(k);
        }
      }
      r := None;
    }

    /** `cache_grow`: thread every slot of a new slab onto the free list. */
    method CacheGrow(k: nat, base: nat)
      requires Valid() && k < CLASSES && Fresh(model.held, base, model.caches[k].shape.pages)
      modifies this, head
      ensures Valid() && model == GrowClass(old(model), k, base) && model.caches[k].free != []
    {
      hide Inv;
      hide Fresh;
      BasicInv(model);
      GrowClassKeeps(model, k, base);
      CachesShaped(model);
      var s := ClassShape(k);
      ghost var free := model.caches[k].free;
      word := word - SlabHeader(base);
      ghost var was := word;
      var i := 0;
      while i < s.objs
        invariant 0 <= i <= s.objs && model == old(model) && count == model.count
        invariant word == ThreadWords(was, base, s.slot, i, free)
        invariant head[k] == First(Thread(base, s.slot, i, free))
        invariant forall j :: 0 <= j < CLASSES && j != k ==> head[j] == First(model.caches[j].free)
      {
        var slot: nat := SlotAt(base, s.slot, i);
        word := word[slot := head[k]];
        head[k] := slot;
        i := i + 1;
      }
      model := GrowClass(model, k, base);
    }

    /** Pop a slot and write its header. */
    method TakeHead(k: nat) returns (p: nat)
      requires Valid() && k < CLASSES && model.caches[k].free != []
      modifies this, head
      ensures Valid() && (model, p) == TakeSlot(old(model), k)
    {
      hide Inv;
      BasicInv(model);
      NullIffEmpty(model, k);
      TakeSlotKeeps(model, k);
      var slot: nat := head[k];
      head[k] := word[slot];
      word := (word - {slot + 8})[slot := Header(k)];
      p := slot + HDR;
      model := TakeSlot(model, k).0;
    }

    /** `kmem_alloc`; `offer` is the page allocator's answer for the pages this size needs. */
    method KmemAlloc(size: nat, offer: Option<nat>) returns (r: Option<nat>)
      requires Valid() && (offer.Some? ==> Fresh(model.held, offer.value, PagesNeeded(size)))
      modifies this, head
      ensures Valid() && (model, r) == Step(old(model), DoAlloc(size, offer))
      ensures r.Some? <==> CanServe(old(model), size, offer)
    {
      hide Inv;
      hide GrowClass;
      hide TakeSlot;
      hide CanServe;
      hide Fresh;
      hide Served;
      BasicInv(model);
      StepServesIff(model, size, offer);
      AllocKeeps(model, size, offer);
      if size == 0 {
        return None;
      }
      var cls := SizeToClass(size);
      match cls
      case Some(k) =>
        NullIffEmpty(model, k);
        if head[k] == 0 {
          if offer == None {
            return None;
          }
          CacheGrow(k, offer.value);
        }
        var p := TakeHead(k);
        r := Some(p);
      case None =>
        if size + HDR >= WORD {
          return None;
        }
        var n := LargePages(size + HDR);
        if n == 0 || offer == None {
          return None;
        }
        var b := offer.value;
        HoldLargeKeeps(model, b, n);
        word := (word - {b + 8})[b := Header(LARGE)];
        count := count[b := n];
        model := HoldLarge(model, b, n);
        r := Some(b + HDR);
    }

    /** `kmem_free`; `ok` tells whether the magic number was found. */
    method KmemFree(p: nat) returns (ok: bool)
      requires Valid()
      modifies this, head
      ensures Mirrors() && (model, ok) == Free(old(model), p)
      ensures Proper(old(model), DoFree(p)) ==> Valid()
    {
      hide Inv;
      BasicInv(model);
      FreeExact(model, p);
      if p < HDR {
        return false;
      }
      var a: nat := p - HDR;
      if a !in word || MagicOf(word[a]) != MAGIC {
        return false;
      }
      MagicBound(word[a]);
      var owner := OwnerOf(word[a]);
      if owner == LARGE {
        var w: nat := word[a] - MAGIC;
        word := word[a := w];
      } else if owner < CLASSES {
        word := word[a := head[owner]];
        head[owner] := a;
      }
      model := Free(model, p).0;
      ok := true;
    }

    /** Somebody stores into a payload, or outside the allocator's runs. */
    method StoreWord(a: nat, v: Option<nat>)
      requires Valid() && Storable(model, a)
      modifies `word, `model
      ensures Valid() && model == Put(old(model), a, v)
    {
      hide Inv;
      BasicInv(model);
      PutKeeps(model, a, v);
      match v {
        case None => word := word - {a};
        case Some(w) => word := word[a := w];
      }
      model := Put(model, a, v);
    }

    /** `kmem_alloc_size`. */
    method KmemSize(p: nat) returns (n: int)
      requires Valid()
      ensures n == AllocSize(model, p)
    {
      if p < HDR {
        return 0;
      }
      var a: nat := p - HDR;
      if a !in word || MagicOf(word[a]) != MAGIC {
        return 0;
      }
      var owner := OwnerOf(word[a]);
      if owner == LARGE {
        return if a in count then count[a] * PAGE - HDR else 0;
      }
      n := if owner < CLASSES then Usable(owner) else 0;
    }

    /** The copy: `n` words from `from` to `to`. */
    method CopyPayload(from: nat, to: nat, n: nat)
      requires Valid() && forall i: nat :: i < n ==> Storable(model, WordAt(to, i))
      modifies `word, `model
      ensures Valid() && model == CopyTo(old(model), from, to, n)
    {
      hide Inv;
      hide Storable;
      BasicInv(model);
      for i := 0 to n
        invariant Valid() && model == CopyTo(old(model), from, to, i)
      {
        var x := from + 8 * i;
        BasicInv(model);
        SameStorable(old(model), model, WordAt(to, i));
        StoreWord(WordAt(to, i), if x in word then Some(word[x]) else None);
      }
    }

    /** `kmem_realloc` of a non-null pointer that is not forged. */
    method KmemRealloc(p: nat, size: nat, offer: Option<nat>) returns (r: Option<nat>)
      requires Valid() && (offer.Some? ==> Fresh(model.held, offer.value, PagesNeeded(size)))
      requires Proper(model, DoFree(p))
      modifies this, head
      ensures Valid() && (model, r) == Realloc(old(model), p, size, offer)
      ensures 0 < size <= AllocSize(old(model), p) ==> r == Some(p) && model == old(model)
      ensures r.Some? <==> size > 0 && (size <= AllocSize(old(model), p) || CanServe(old(model), size, offer))
    {
      hide CanServe;
      hide Inv;
      hide Alloc;
      hide Free;
      hide AllocSize;
      hide Proper;
      BasicInv(model);
      if size == 0 {
        var _ := KmemFree(p);
        return None;
      }
      var have := KmemSize(p);
      if have >= size {
        return Some(p);
      }
      ghost var was := model;
      r := KmemAlloc(size, offer);
      if r.Some? {
        ReallocSteps(was, p, size, offer);
        CopyPayload(p, r.value, if have > 0 then have / 8 else 0);
        var _ := KmemFree(p);
      }
    }
  }

  /** The copy of a resize stays in the new payload, and the free after it is proper. */
  lemma {:induction false} ReallocSteps(s: Kmem, p: nat, size: nat, offer: Option<nat>)
    requires Inv(s) && Proper(s, DoFree(p)) && size > 0 && AllocSize(s, p) < size
    requires Step(s, DoAlloc(size, offer)).1.Some?
    ensures var (t, r) := Step(s, DoAlloc(size, offer));
      var n := if AllocSize(s, p) > 0 then AllocSize(s, p) / 8 else 0;
      && Inv(t) && |t.caches| == CLASSES
      && (forall i: nat :: i < n ==> Storable(t, WordAt(r.value, i)))
      && Proper(CopyTo(t, p, r.value, n), DoFree(p))
  {
    hide Inv;
    hide Step;
    hide AllocSize;
    hide CopyTo;
    hide Storable;
    BasicInv(s);
    AllocServed(s, size, offer);
    var (t, r) := Step(s, DoAlloc(size, offer));
    BasicInv(t);
    var q: nat :| q <= LARGE && ServedAs(s, t, r.value, size, q);
    var n := if AllocSize(s, p) > 0 then AllocSize(s, p) / 8 else 0;
    PayloadStorable(t, r.value - HDR, q, n, r.value);
    if p >= HDR {
      NotForgedAfter(s, p, size, offer, t, r.value, q, n);
    }
  }

  lemma {:induction false} NotForgedAfter(s: Kmem, p: nat, size: nat, offer: Option<nat>,
        t: Kmem, to: nat, q: nat, n: nat)
    requires Inv(s) && p >= HDR && !Forged(s, p - HDR) && (t, Some(to)) == Step(s, DoAlloc(size, offer))
    requires |t.caches| == CLASSES && to >= HDR && LiveAs(t, to - HDR, q) && size <= Room(t, to - HDR, q)
    requires AllocSize(s, p) < size && n == (if AllocSize(s, p) > 0 then AllocSize(s, p) / 8 else 0)
    ensures !Forged(CopyTo(t, p, to, n), p - HDR)
  {
    hide Inv;
    hide Step;
    hide CopyTo;
    BasicInv(s);
    AllocForged(s, size, offer, p - HDR);
    if n > 0 {
      TaggedOwner(s, p - HDR);
      var o: nat :| o <= LARGE && LiveAs(s, p - HDR, o);
      SizeIsRoom(s, p - HDR, o);
      AllocKeepsLive(s, size, offer, p - HDR, o);
      OneOwner(t, to - HDR, q, o);
      LiveDisjoint(t, p - HDR, o, to - HDR, q);
      CopyFacts(t, p, to, n, p - HDR);
    } else {
      NoCopy(t, p, to);
    }
  }

  lemma {:induction false} NoCopy(s: Kmem, from: nat, to: nat)
    ensures CopyTo(s, from, to, 0) == s
  {
  }
}
