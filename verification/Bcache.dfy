/** Buffer cache (kernel/fs/bcache.c): pinned block buffers over a backing device.
 *
 *  Buffers are named by their block number. What memory and the device answer to one
 *  operation is part of the operation; a failed write leaves the device's block as it was,
 *  and the code ignores it. Writing a buffer's bytes and marking it dirty is one step.
 */
module BcacheSpec {
  import opened Lists
  import opened Options

  type Block = seq<nat>

  datatype Buf = Buf(data: Block, dirty: bool, pins: nat)

  /** `lru` most recent first; `peak` is the largest number of buffers ever pinned at once. */
  datatype Cache = Cache(capacity: nat, blockSize: nat, hasIo: bool, lru: seq<nat>,
                         bufs: map<nat, Buf>, disk: map<nat, Block>, peak: nat)

  /** Answers to the write of a reclaimed buffer, the two allocations, the device read and the
   *  index insertion. */
  datatype Answer = Answer(write: bool, buffer: bool, data: bool, read: bool, index: bool)

  function Zeros(n: nat): (s: Block) {
    if n == 0 then [] else Zeros(n - 1) + [0]
  }

  function OnDisk(c: Cache, b: nat): Block {
    if b in c.disk then c.disk[b] else Zeros(c.blockSize)
  }

  /** The block's contents as users of the cache see them. */
  function View(c: Cache, b: nat): Block {
    if b in c.bufs then c.bufs[b].data else OnDisk(c, b)
  }

  ghost function Pinned(c: Cache): (s: set<nat>) {
    set b | b in c.bufs && c.bufs[b].pins > 0
  }

  function Max(a: nat, b: nat): nat {
    if a < b then b else a
  }

  ghost predicate WellFormed(c: Cache) {
    && 0 < c.capacity && NoDup(c.lru)
    && (forall b :: b in c.lru <==> b in c.bufs)
    && |c.lru| <= Max(c.capacity, c.peak)
    && |Pinned(c)| <= c.peak
  }

  function Init(capacity: nat, blockSize: nat, hasIo: bool, disk: map<nat, Block>): (c: Cache)
    ensures c.capacity == if capacity > 0 then capacity else 16
  {
    Cache(if capacity == 0 then 16 else capacity, blockSize, hasIo, [], map[], disk, 0)
  }

  /** `flush_buf`; `ok` is the device's answer. */
  function Flush(c: Cache, b: nat, ok: bool): (r: Cache) {
    if b in c.bufs && c.bufs[b].dirty && c.hasIo then
      c.(disk := if ok then c.disk[b := c.bufs[b].data] else c.disk, bufs := c.bufs[b := c.bufs[b].(dirty := false)])
    else c
  }

  /** Flush, unlink and free. */
  function Drop(c: Cache, b: nat, ok: bool): (r: Cache) {
    var f := Flush(c, b, ok);
    f.(lru := Without(f.lru, b), bufs := f.bufs - {b})
  }

  /** The unpinned buffer nearest the least recent end. */
  function Victim(lru: seq<nat>, bufs: map<nat, Buf>): (r: Option<nat>)
    ensures r.Some? ==> r.value in lru && r.value in bufs && bufs[r.value].pins == 0
    ensures r == None ==> forall b :: b in lru && b in bufs ==> bufs[b].pins > 0
  {
    if lru == [] then None
    else
      var b := lru[|lru| - 1];
      if b in bufs && bufs[b].pins == 0 then Some(b) else Victim(lru[..|lru| - 1], bufs)
  }

  /** The victim is the least recently used of the unpinned: everything behind it is pinned. */
  lemma {:induction false} VictimOldest(lru: seq<nat>, bufs: map<nat, Buf>, i: nat)
    requires i < |lru| && lru[i] in bufs && bufs[lru[i]].pins == 0
    ensures var v := Victim(lru, bufs);
      v.Some? && exists k :: i <= k < |lru| && lru[k] == v.value && bufs[v.value].pins == 0
  {
    var n := |lru| - 1;
    if !(lru[n] in bufs && bufs[lru[n]].pins == 0) {
      assert i < n && lru[..n][i] == lru[i];
      VictimOldest(lru[..n], bufs, i);
      var k :| i <= k < n && lru[..n][k] == Victim(lru[..n], bufs).value;
      assert lru[k] == Victim(lru, bufs).value;
    }
  }

  function Reclaim(c: Cache, ok: bool): (r: Cache) {
    match Victim(c.lru, c.bufs)
    case None => c
    case Some(b) => Drop(c, b, ok)
  }

  function Touch(c: Cache, b: nat): (r: Cache) {
    c.(lru := [b] + Without(c.lru, b))
  }

  ghost function Counted(c: Cache): (r: Cache) {
    c.(peak := Max(c.peak, |Pinned(c)|))
  }

  function Pin(c: Cache, b: nat): (r: Cache)
    requires b in c.bufs
  {
    c.(bufs := c.bufs[b := c.bufs[b].(pins := c.bufs[b].pins + 1)])
  }

  function Load(c: Cache, b: nat, data: Block): (r: Cache) {
    c.(lru := [b] + c.lru, bufs := c.bufs[b := Buf(data, false, 1)])
  }

  /** What a miss reads: the device's block, or zeros when there is no device or it fails. */
  function Filled(c: Cache, b: nat, read: bool): Block {
    if c.hasIo && read then OnDisk(c, b) else Zeros(c.blockSize)
  }

  /** `bcache_bread`: the new state and whether a pinned buffer was returned. */
  ghost function Bread(c: Cache, b: nat, ans: Answer): (r: (Cache, bool)) {
    if b in c.bufs then (Counted(Touch(Pin(c, b), b)), true)
    else
      var d := if |c.lru| >= c.capacity then Reclaim(c, ans.write) else c;
      if !ans.buffer || !ans.data || !ans.index then (d, false)
      else (Counted(Load(d, b, Filled(d, b, ans.read))), true)
  }

  function Brelse(c: Cache, b: nat): (r: Cache) {
    if b in c.bufs && c.bufs[b].pins > 0 then c.(bufs := c.bufs[b := c.bufs[b].(pins := c.bufs[b].pins - 1)])
    else c
  }

  /** Somebody with a pointer to a resident buffer stores into it and marks it dirty. */
  function Modify(c: Cache, b: nat, data: Block): (r: Cache) {
    if b in c.bufs then c.(bufs := c.bufs[b := c.bufs[b].(data := data, dirty := true)])
    else c
  }

  /** `oks` are the blocks whose write succeeds. */
  function SyncUpTo(c: Cache, oks: set<nat>, k: nat): (r: (Cache, nat))
    requires k <= |c.lru|
    ensures r.0.lru == c.lru
  {
    if k == 0 then (c, 0)
    else
      var (d, n) := SyncUpTo(c, oks, k - 1);
      var b := c.lru[k - 1];
      (Flush(d, b, b in oks), if b in d.bufs && d.bufs[b].dirty then n + 1 else n)
  }

  function Sync(c: Cache, oks: set<nat>): (r: (Cache, nat)) {
    SyncUpTo(c, oks, |c.lru|)
  }

  // ---- Structure, pins and residency ----------------------------------------------

  lemma {:induction false} PinnedUnpin(c: Cache, d: Cache)
    requires forall b :: b in d.bufs && d.bufs[b].pins > 0 ==> b in c.bufs && c.bufs[b].pins > 0
    ensures |Pinned(d)| <= |Pinned(c)|
  {
    SubsetSize(Pinned(d), Pinned(c));
  }

  lemma {:induction false} SubsetSize(a: set<nat>, b: set<nat>)
    requires a <= b
    ensures |a| <= |b|
  {
    assert b == a + (b - a);
  }

  lemma {:induction false} DropKeeps(c: Cache, b: nat, ok: bool)
    requires WellFormed(c) && b in c.bufs
    ensures WellFormed(Drop(c, b, ok)) && |Drop(c, b, ok).lru| == |c.lru| - 1
  {
    WithoutFacts(c.lru, b);
    PinnedUnpin(c, Drop(c, b, ok));
  }

  lemma {:induction false} CountedKeeps(c: Cache)
    requires 0 < c.capacity && NoDup(c.lru) && forall b :: b in c.lru <==> b in c.bufs
    requires |c.lru| <= Max(c.capacity, Max(c.peak, |Pinned(c)|))
    ensures WellFormed(Counted(c))
  {
    assert Pinned(Counted(c)) == Pinned(c);
  }

  /** If nothing can be reclaimed, everything resident is pinned. */
  lemma {:induction false} AllPinned(c: Cache)
    requires WellFormed(c) && Victim(c.lru, c.bufs) == None
    ensures |Pinned(c)| == |c.lru|
  {
    NoDupLength(c.lru, Pinned(c));
  }

  lemma {:induction false} LoadKeeps(c: Cache, b: nat, data: Block)
    requires WellFormed(c) && b !in c.bufs
    requires |c.lru| < Max(c.capacity, c.peak) || |Pinned(c)| == |c.lru|
    ensures WellFormed(Counted(Load(c, b, data)))
  {
    var d := Load(c, b, data);
    NoDupConcat([b], c.lru);
    assert Pinned(d) == Pinned(c) + {b};
    CountedKeeps(d);
  }

  lemma {:induction false} BreadKeeps(c: Cache, b: nat, ans: Answer)
    requires WellFormed(c)
    ensures WellFormed(Bread(c, b, ans).0)
  {
    if b in c.bufs {
      WithoutFacts(c.lru, b);
      NoDupConcat([b], Without(c.lru, b));
      CountedKeeps(Touch(Pin(c, b), b));
    } else {
      ReclaimKeeps(c, ans.write);
      var d := if |c.lru| >= c.capacity then Reclaim(c, ans.write) else c;
      LoadKeeps(d, b, Filled(d, b, ans.read));
    }
  }

  /** A buffer returned is the most recent, resident and pinned once more; on a hit its contents
   *  stay and the others keep their order. */
  lemma {:induction false} BreadOrder(c: Cache, b: nat, ans: Answer, x: nat, y: nat)
    requires WellFormed(c)
    ensures var (d, ok) := Bread(c, b, ans);
      && (b in c.bufs ==> ok)
      && (ok ==> d.lru != [] && d.lru[0] == b && b in d.bufs
                 && d.bufs[b].pins == (if b in c.bufs then c.bufs[b].pins else 0) + 1)
      && (b in c.bufs ==> d.bufs == c.bufs[b := c.bufs[b].(pins := c.bufs[b].pins + 1)] && |d.lru| == |c.lru|)
      && (b in c.bufs && x != b && y != b ==> (Ahead(d.lru, x, y) <==> Ahead(c.lru, x, y)))
  {
    if b in c.bufs {
      ToFront(c.lru, b, x, y);
    }
  }

  /** Reclaiming makes room unless everything is pinned. */
  lemma {:induction false} ReclaimKeeps(c: Cache, ok: bool)
    requires WellFormed(c)
    ensures var r := Reclaim(c, ok);
      && WellFormed(r)
      && (forall b :: b in r.bufs ==> b in c.bufs)
      && r.capacity == c.capacity && r.peak == c.peak
      && (|r.lru| < |c.lru| || |Pinned(r)| == |r.lru|)
  {
    match Victim(c.lru, c.bufs)
    case None => AllPinned(c);
    case Some(v) => DropKeeps(c, v, ok);
  }

  datatype Op =
    | DoBread(blk: nat, ans: Answer)
    | DoBrelse(blk: nat)
    | DoModify(blk: nat, data: Block)
    | DoSync(oks: set<nat>)

  ghost function Step(c: Cache, op: Op): (r: Cache) {
    match op
    case DoBread(b, ans) => Bread(c, b, ans).0
    case DoBrelse(b) => Brelse(c, b)
    case DoModify(b, data) => Modify(c, b, data)
    case DoSync(oks) => Sync(c, oks).0
  }

  lemma {:induction false} FlushKeeps(c: Cache, b: nat, ok: bool)
    requires WellFormed(c)
    ensures WellFormed(Flush(c, b, ok))
  {
    PinnedUnpin(c, Flush(c, b, ok));
  }

  lemma {:induction false} SyncKeeps(c: Cache, oks: set<nat>, k: nat)
    requires WellFormed(c) && k <= |c.lru|
    ensures WellFormed(SyncUpTo(c, oks, k).0)
  {
    if k > 0 {
      SyncKeeps(c, oks, k - 1);
      FlushKeeps(SyncUpTo(c, oks, k - 1).0, c.lru[k - 1], c.lru[k - 1] in oks);
    }
  }

  lemma {:induction false} StepKeeps(c: Cache, op: Op)
    requires WellFormed(c)
    ensures WellFormed(Step(c, op))
  {
    match op
    case DoBread(b, ans) => BreadKeeps(c, b, ans);
    case DoBrelse(b) => PinnedUnpin(c, Brelse(c, b));
    case DoModify(b, data) => PinnedUnpin(c, Modify(c, b, data));
    case DoSync(oks) => SyncKeeps(c, oks, |c.lru|);
  }

  // ---- Pins are the outstanding reads ---------------------------------------------

  /** Reads not yet released, block by block. */
  ghost function Held(held: multiset<nat>, c: Cache, op: Op): (r: multiset<nat>) {
    match op
    case DoBread(b, ans) => if Bread(c, b, ans).1 then held + multiset{b} else held
    case DoBrelse(b) => held - multiset{b}
    case _ => held
  }

  ghost predicate PinsAre(c: Cache, held: multiset<nat>) {
    forall b :: held[b] == if b in c.bufs then c.bufs[b].pins else 0
  }

  lemma {:induction false} ReclaimPins(c: Cache, ok: bool, held: multiset<nat>)
    requires WellFormed(c) && PinsAre(c, held)
    ensures PinsAre(Reclaim(c, ok), held)
  {
  }

  /** What a sync of the first `k` buffers makes of block `x`: a listed dirty buffer is clean,
   *  and on the device if its write succeeded; nothing else changes. */
  lemma {:induction false} SyncFacts(c: Cache, oks: set<nat>, k: nat, x: nat)
    requires k <= |c.lru|
    ensures var d := SyncUpTo(c, oks, k).0;
      && d.hasIo == c.hasIo && (x in d.bufs <==> x in c.bufs)
      && (x in c.bufs ==>
            d.bufs[x] == c.bufs[x].(dirty := c.bufs[x].dirty && !(c.hasIo && x in c.lru[..k])))
      && OnDisk(d, x) == (if x in c.bufs && c.bufs[x].dirty && c.hasIo && x in c.lru[..k] && x in oks
                          then c.bufs[x].data else OnDisk(c, x))
  {
    if k > 0 {
      SyncFacts(c, oks, k - 1, x);
      assert c.lru[..k] == c.lru[..k - 1] + [c.lru[k - 1]];
    }
  }

  lemma {:induction false} BreadPins(c: Cache, b: nat, ans: Answer, held: multiset<nat>)
    requires WellFormed(c) && PinsAre(c, held)
    ensures PinsAre(Bread(c, b, ans).0, if Bread(c, b, ans).1 then held + multiset{b} else held)
  {
    hide WellFormed;
    hide Reclaim;
    if b !in c.bufs {
      ReclaimKeeps(c, ans.write);
      ReclaimPins(c, ans.write, held);
    }
  }

  /** A buffer's pin count is the number of its reads not yet released, so a buffer with a
   *  read outstanding is resident whatever else happens. */
  lemma {:induction false} StepPins(c: Cache, op: Op, held: multiset<nat>)
    requires WellFormed(c) && PinsAre(c, held)
    ensures PinsAre(Step(c, op), Held(held, c, op))
  {
    hide WellFormed;
    hide Bread;
    match op
    case DoBread(b, ans) => BreadPins(c, b, ans, held);
    case DoBrelse(b) =>
    case DoModify(b, data) =>
    case DoSync(oks) =>
      forall b ensures held[b] == if b in Sync(c, oks).0.bufs then Sync(c, oks).0.bufs[b].pins else 0 {
        SyncFacts(c, oks, |c.lru|, b);
      }
  }

  // ---- Contents -------------------------------------------------------------------

  /** Every block reads the same in both. */
  ghost predicate SameView(c: Cache, d: Cache) {
    forall b :: View(c, b) == View(d, b)
  }

  /** Dropping a buffer keeps every block's contents exactly when the buffer's contents are
   *  on the device afterwards: it was dirty and written, or they are there already. */
  lemma {:induction false} DropView(c: Cache, b: nat, ok: bool)
    requires b in c.bufs
    ensures SameView(c, Drop(c, b, ok)) <==>
      (c.bufs[b].dirty && c.hasIo && ok) || c.bufs[b].data == OnDisk(c, b)
  {
    var d := Drop(c, b, ok);
    assert View(d, b) == OnDisk(d, b);
    forall x | x != b ensures View(c, x) == View(d, x) {}
  }

  /** Every buffer that is not dirty holds what the device holds. */
  ghost predicate CleanAgrees(c: Cache) {
    forall b :: b in c.bufs && !c.bufs[b].dirty ==> c.bufs[b].data == OnDisk(c, b)
  }

  /** The buffer is dirty and holds something the device does not. */
  predicate Differs(c: Cache, b: nat)
    requires b in c.bufs
  {
    c.bufs[b].dirty && c.bufs[b].data != OnDisk(c, b)
  }

  /** Reclaiming makes a write that matters, and it fails. */
  predicate ReclaimLoses(c: Cache, ok: bool) {
    var v := Victim(c.lru, c.bufs);
    v.Some? && Differs(c, v.value) && !ok
  }

  lemma {:induction false} ReclaimView(c: Cache, ok: bool)
    requires WellFormed(c) && CleanAgrees(c) && c.hasIo
    ensures CleanAgrees(Reclaim(c, ok))
    ensures SameView(c, Reclaim(c, ok)) <==> !ReclaimLoses(c, ok)
    ensures forall b :: b !in c.bufs ==> OnDisk(Reclaim(c, ok), b) == OnDisk(c, b)
    ensures ReclaimLoses(c, ok) ==>
      var v := Victim(c.lru, c.bufs).value;
      v in c.bufs && v !in Reclaim(c, ok).bufs && OnDisk(Reclaim(c, ok), v) != View(c, v)
  {
    if Victim(c.lru, c.bufs).Some? {
      DropView(c, Victim(c.lru, c.bufs).value, ok);
    }
  }

  /** The sync makes no write that matters and fails. */
  predicate NoneLost(c: Cache, oks: set<nat>) {
    forall b :: b in c.bufs && Differs(c, b) ==> b in oks
  }

  /** After a sync with a device nothing is dirty and no block reads differently, whatever the
   *  writes answered. The device holds every block's contents, and clean buffers agree with
   *  it, exactly when no write that matters failed. */
  lemma {:induction false} SyncExact(c: Cache, oks: set<nat>)
    requires WellFormed(c) && CleanAgrees(c) && c.hasIo
    ensures var d := Sync(c, oks).0;
      && SameView(c, d) && (forall b :: b in d.bufs ==> !d.bufs[b].dirty)
      && ((forall b :: OnDisk(d, b) == View(c, b)) <==> NoneLost(c, oks))
      && (CleanAgrees(d) <==> NoneLost(c, oks))
  {
    hide SyncUpTo;
    hide OnDisk;
    var d := Sync(c, oks).0;
    assert c.lru[..|c.lru|] == c.lru;
    forall b
      ensures b in d.bufs <==> b in c.bufs
      ensures b in c.bufs ==> d.bufs[b] == c.bufs[b].(dirty := false)
      ensures OnDisk(d, b) == if b in c.bufs && c.bufs[b].dirty && b in oks then c.bufs[b].data else OnDisk(c, b)
    {
      SyncFacts(c, oks, |c.lru|, b);
    }
    forall b ensures View(d, b) == View(c, b) {}
    if !NoneLost(c, oks) {
      var b :| b in c.bufs && Differs(c, b) && b !in oks;
      assert OnDisk(d, b) != View(c, b) && b in d.bufs;
    }
  }

  ghost function DirtyAmong(c: Cache, k: nat): (s: set<nat>)
    requires k <= |c.lru|
  {
    set x | x in c.lru[..k] && x in c.bufs && c.bufs[x].dirty
  }

  lemma {:induction false} SyncCountsTo(c: Cache, oks: set<nat>, k: nat)
    requires WellFormed(c) && k <= |c.lru|
    ensures SyncUpTo(c, oks, k).1 == |DirtyAmong(c, k)|
  {
    hide WellFormed;
    hide Flush;
    hide DirtyAmong;
    if k == 0 {
      assert DirtyAmong(c, 0) == {} by { NoneDirty(c); }
    } else {
      SyncCountsTo(c, oks, k - 1);
      DirtyNext(c, k - 1);
      SyncFacts(c, oks, k - 1, c.lru[k - 1]);
    }
  }

  lemma {:induction false} NoneDirty(c: Cache)
    ensures DirtyAmong(c, 0) == {}
  {
  }

  lemma {:induction false} DirtyNext(c: Cache, k: nat)
    requires WellFormed(c) && k < |c.lru|
    ensures c.lru[k] in c.bufs && c.lru[k] !in c.lru[..k]
    ensures |DirtyAmong(c, k + 1)| == |DirtyAmong(c, k)| + if c.bufs[c.lru[k]].dirty then 1 else 0
  {
    var b := c.lru[k];
    assert b in c.lru && b !in c.lru[..k];
    assert c.lru[..k + 1] == c.lru[..k] + [b];
    if c.bufs[b].dirty {
      assert DirtyAmong(c, k + 1) == DirtyAmong(c, k) + {b};
    } else {
      assert DirtyAmong(c, k + 1) == DirtyAmong(c, k);
    }
  }

  /** The result of a sync is the number of dirty buffers. */
  lemma {:induction false} SyncCounts(c: Cache, oks: set<nat>)
    requires WellFormed(c)
    ensures Sync(c, oks).1 == |set b | b in c.bufs && c.bufs[b].dirty|
  {
    SyncCountsTo(c, oks, |c.lru|);
    assert c.lru[..|c.lru|] == c.lru;
    assert DirtyAmong(c, |c.lru|) == set b | b in c.bufs && c.bufs[b].dirty;
  }

  /** A miss that has to reclaim loses the victim's contents. */
  predicate BreadLoses(c: Cache, b: nat, ans: Answer) {
    b !in c.bufs && |c.lru| >= c.capacity && ReclaimLoses(c, ans.write)
  }

  /** A miss that gets its memory and whose device read fails, on a block that is not zeros. */
  predicate BreadZeroes(c: Cache, b: nat, ans: Answer) {
    && b !in c.bufs && ans.buffer && ans.data && ans.index
    && !ans.read && OnDisk(c, b) != Zeros(c.blockSize)
  }

  /** A read changes what users see exactly when it misses and either the write of the buffer it
   *  reclaims fails, or it gets its memory and the device fails on a block that is not all
   *  zeros: the buffer then holds zeros. */
  lemma {:induction false} BreadView(c: Cache, b: nat, ans: Answer)
    requires WellFormed(c) && CleanAgrees(c) && c.hasIo
    ensures SameView(c, Bread(c, b, ans).0) && CleanAgrees(Bread(c, b, ans).0) <==>
      !BreadLoses(c, b, ans) && !BreadZeroes(c, b, ans)
  {
    if b !in c.bufs {
      MissView(c, b, ans);
    }
  }

  lemma {:induction false} MissView(c: Cache, b: nat, ans: Answer)
    requires WellFormed(c) && CleanAgrees(c) && c.hasIo && b !in c.bufs
    ensures SameView(c, Bread(c, b, ans).0) && CleanAgrees(Bread(c, b, ans).0) <==>
      !BreadLoses(c, b, ans) && !BreadZeroes(c, b, ans)
  {
    hide Reclaim;
    hide WellFormed;
    hide ReclaimLoses;
    var d := if |c.lru| >= c.capacity then Reclaim(c, ans.write) else c;
    ReclaimView(c, ans.write);
    ReclaimKeeps(c, ans.write);
    ReclaimDevice(c, ans.write);
    LoadView(d, b, Filled(d, b, ans.read));
    var e := Counted(Load(d, b, Filled(d, b, ans.read)));
    if BreadLoses(c, b, ans) {
      StillLost(c, b, ans);
    } else {
      assert SameView(c, e) <==> SameView(d, e);
    }
  }

  lemma {:induction false} StillLost(c: Cache, b: nat, ans: Answer)
    requires WellFormed(c) && CleanAgrees(c) && c.hasIo && BreadLoses(c, b, ans)
    ensures !SameView(c, Bread(c, b, ans).0)
  {
    hide WellFormed;
    ReclaimView(c, ans.write);
    var v := Victim(c.lru, c.bufs).value;
    var e := Bread(c, b, ans).0;
    assert OnDisk(e, v) == OnDisk(Reclaim(c, ans.write), v);
    assert View(e, v) != View(c, v);
  }

  lemma {:induction false} ReclaimDevice(c: Cache, ok: bool)
    ensures Reclaim(c, ok).hasIo == c.hasIo && Reclaim(c, ok).blockSize == c.blockSize
  {
  }

  lemma {:induction false} LoadView(c: Cache, b: nat, data: Block)
    requires CleanAgrees(c) && b !in c.bufs
    ensures var e := Counted(Load(c, b, data));
      && (SameView(c, e) <==> data == OnDisk(c, b))
      && (CleanAgrees(e) <==> data == OnDisk(c, b))
  {
    var e := Counted(Load(c, b, data));
    assert View(e, b) == data && View(c, b) == OnDisk(c, b);
    assert e.bufs[b].data == data && !e.bufs[b].dirty;
  }

  // ---- Whole runs -----------------------------------------------------------------

  /** The reference: a block store that only a modification of a resident buffer changes. The
   *  buffer of a block with a read outstanding is always resident. */
  ghost function Stored(f: nat -> Block, c: Cache, op: Op): (g: nat -> Block) {
    match op
    case DoModify(b, data) => if b in c.bufs then x => if x == b then data else f(x) else f
    case _ => f
  }

  ghost predicate Shows(c: Cache, f: nat -> Block) {
    forall b: nat :: View(c, b) == f(b)
  }

  /** The device fails on nothing that matters. */
  predicate Serves(c: Cache, op: Op) {
    match op
    case DoBread(b, ans) => !BreadLoses(c, b, ans) && !BreadZeroes(c, b, ans)
    case DoSync(oks) => NoneLost(c, oks)
    case _ => true
  }

  ghost predicate Inv(c: Cache, held: multiset<nat>, f: nat -> Block) {
    WellFormed(c) && CleanAgrees(c) && c.hasIo && PinsAre(c, held) && Shows(c, f)
  }

  lemma {:induction false} StepRefines(c: Cache, op: Op, held: multiset<nat>, f: nat -> Block)
    requires Inv(c, held, f) && Serves(c, op)
    ensures Inv(Step(c, op), Held(held, c, op), Stored(f, c, op))
  {
    hide WellFormed;
    hide PinsAre;
    hide CleanAgrees;
    hide Shows;
    hide Held;
    StepKeeps(c, op);
    StepPins(c, op, held);
    ShownRefines(c, op, f);
  }

  lemma {:induction false} ShownRefines(c: Cache, op: Op, f: nat -> Block)
    requires WellFormed(c) && CleanAgrees(c) && c.hasIo && Shows(c, f) && Serves(c, op)
    ensures var d := Step(c, op); CleanAgrees(d) && d.hasIo && Shows(d, Stored(f, c, op))
  {
    hide WellFormed;
    hide Bread;
    hide Sync;
    match op
    case DoBread(b, ans) =>
      BreadView(c, b, ans);
      BreadDevice(c, b, ans);
    case DoBrelse(b) =>
    case DoModify(b, data) =>
    case DoSync(oks) => SyncRefines(c, oks, f);
  }

  lemma {:induction false} SyncRefines(c: Cache, oks: set<nat>, f: nat -> Block)
    requires WellFormed(c) && CleanAgrees(c) && c.hasIo && Shows(c, f) && NoneLost(c, oks)
    ensures var d := Sync(c, oks).0; CleanAgrees(d) && d.hasIo && Shows(d, f)
  {
    hide WellFormed;
    SyncExact(c, oks);
    SyncFacts(c, oks, |c.lru|, 0);
  }

  /** A step that the device does not serve makes some block read differently, or leaves a clean
   *  buffer that differs from the device. */
  lemma {:induction false} StepLoses(c: Cache, op: Op, held: multiset<nat>, f: nat -> Block)
    requires Inv(c, held, f) && !Serves(c, op)
    ensures !Inv(Step(c, op), Held(held, c, op), Stored(f, c, op))
  {
    hide WellFormed;
    hide Bread;
    match op
    case DoBread(b, ans) =>
      BreadView(c, b, ans);
      if !SameView(c, Bread(c, b, ans).0) {
        var x :| View(c, x) != View(Bread(c, b, ans).0, x);
      }
    case DoSync(oks) => SyncExact(c, oks);
    case _ =>
  }

  lemma {:induction false} BreadDevice(c: Cache, b: nat, ans: Answer)
    ensures Bread(c, b, ans).0.hasIo == c.hasIo
  {
    ReclaimDevice(c, ans.write);
  }

  /** The device serves every operation of the run. */
  ghost predicate ServesAll(c: Cache, ops: seq<Op>)
    decreases |ops|
  {
    ops != [] ==> Serves(c, ops[0]) && ServesAll(Step(c, ops[0]), ops[1..])
  }

  ghost function Run(c: Cache, ops: seq<Op>): (r: Cache)
    decreases |ops|
  {
    if ops == [] then c else Run(Step(c, ops[0]), ops[1..])
  }

  ghost function HeldAfter(held: multiset<nat>, c: Cache, ops: seq<Op>): (r: multiset<nat>)
    decreases |ops|
  {
    if ops == [] then held else HeldAfter(Held(held, c, ops[0]), Step(c, ops[0]), ops[1..])
  }

  ghost function StoredAfter(f: nat -> Block, c: Cache, ops: seq<Op>): (g: nat -> Block)
    decreases |ops|
  {
    if ops == [] then f else StoredAfter(Stored(f, c, ops[0]), Step(c, ops[0]), ops[1..])
  }

  /** The invariant holds after every operation of the run. */
  ghost predicate Throughout(c: Cache, ops: seq<Op>, held: multiset<nat>, f: nat -> Block)
    decreases |ops|
  {
    && Inv(c, held, f)
    && (ops != [] ==> Throughout(Step(c, ops[0]), ops[1..], Held(held, c, ops[0]), Stored(f, c, ops[0])))
  }

  /** In every run: pin counts are the outstanding reads, no buffer with one is ever dropped, at
   *  most max(capacity, peak pinned) buffers are resident, and every block reads as the last
   *  modification left it, through any number of reclaims, exactly when the device serves the
   *  run. */
  lemma {:induction false} RunRefines(c: Cache, ops: seq<Op>, held: multiset<nat>, f: nat -> Block)
    requires Inv(c, held, f)
    ensures Throughout(c, ops, held, f) <==> ServesAll(c, ops)
    ensures ServesAll(c, ops) ==> Inv(Run(c, ops), HeldAfter(held, c, ops), StoredAfter(f, c, ops))
    decreases |ops|
  {
    hide Inv;
    hide Step;
    hide Held;
    hide Stored;
    hide Serves;
    if ops != [] {
      var d, h, g := Step(c, ops[0]), Held(held, c, ops[0]), Stored(f, c, ops[0]);
      if Serves(c, ops[0]) {
        StepRefines(c, ops[0], held, f);
        RunRefines(d, ops[1..], h, g);
      } else {
        StepLoses(c, ops[0], held, f);
        assert !Throughout(d, ops[1..], h, g);
      }
    }
  }
}

/** The buffer cache as the kernel keeps it. The peak is ghost. */
module Bcache {
  import opened Lists
  import opened Options
  import opened BcacheSpec

  lemma {:induction false} InList(c: Cache, b: nat)
    requires WellFormed(c) && b in c.bufs
    ensures |[b] + Without(c.lru, b)| == |c.lru|
  {
    WithoutFacts(c.lru, b);
  }

  lemma {:induction false} Listed(c: Cache)
    requires WellFormed(c)
    ensures forall b :: b in c.lru ==> b in c.bufs
  {
  }

  lemma {:induction false} PinKeeps(c: Cache, b: nat)
    requires WellFormed(c) && b in c.bufs
    ensures WellFormed(Counted(Touch(Pin(c, b), b)))
  {
    hide WellFormed;
    BreadKeeps(c, b, Answer(true, true, true, true, true));
  }

  lemma {:induction false} Bounded(c: Cache)
    requires WellFormed(c)
    ensures |c.lru| <= Max(c.capacity, c.peak)
  {
  }

  class BcacheObject {
    const capacity: nat
    const blockSize: nat
    const hasIo: bool
    var lru: seq<nat>
    var bufs: map<nat, Buf>
    var disk: map<nat, Block>
    var resident: nat
    ghost var peak: nat

    ghost function Abs(): Cache
      reads this
    {
      Cache(capacity, blockSize, hasIo, lru, bufs, disk, peak)
    }

    ghost predicate Valid()
      reads this
    {
      WellFormed(Abs()) && resident == |lru|
    }

    constructor (capacity: nat, blockSize: nat, hasIo: bool, disk: map<nat, Block>)
      ensures Valid() && Abs() == Init(capacity, blockSize, hasIo, disk)
    {
      this.capacity := if capacity == 0 then 16 else capacity;
      this.blockSize := blockSize;
      this.hasIo := hasIo;
      this.disk := disk;
      lru, bufs, resident, peak := [], map[], 0, 0;
    }

    /** Write the block to the device if dirty; `ok` is the device's answer, which is ignored. */
    method FlushBuf(b: nat, ok: bool)
      requires Valid() && b in bufs
      modifies `disk, `bufs
      ensures Valid() && Abs() == Flush(old(Abs()), b, ok)
    {
      FlushKeeps(Abs(), b, ok);
      if bufs[b].dirty && hasIo {
        if ok {
          disk := disk[b := bufs[b].data];
        }
        bufs := bufs[b := bufs[b].(dirty := false)];
      }
    }

    /** Unlink, remove from the index, write back if dirty and free. */
    method DropBlock(b: nat, ok: bool)
      requires Valid() && b in bufs
      modifies this
      ensures Valid() && Abs() == Drop(old(Abs()), b, ok)
    {
      hide WellFormed;
      DropKeeps(Abs(), b, ok);
      FlushBuf(b, ok);
      lru := Without(lru, b);
      bufs := bufs - {b};
      resident := resident - 1;
    }

    /** Walk from the least recent end to the first unpinned buffer and drop it. */
    method ReclaimOne(ok: bool)
      requires Valid()
      modifies this
      ensures Valid() && Abs() == Reclaim(old(Abs()), ok)
    {
      hide WellFormed;
      hide Drop;
      var k := |lru|;
      assert lru[..k] == lru;
      Listed(Abs());
      while k > 0
        invariant k <= |lru| && Abs() == old(Abs()) && resident == old(resident)
        invariant Victim(lru[..k], bufs) == Victim(lru, bufs)
      {
        var b := lru[k - 1];
        assert b in lru && lru[..k][k - 1] == b && lru[..k][..k - 1] == lru[..k - 1];
        if bufs[b].pins == 0 {
          DropBlock(b, ok);
          return;
        }
        k := k - 1;
      }
    }

    /** A hit: pin and move to the front. */
    method PinBlock(b: nat)
      requires Valid() && b in bufs
      modifies `bufs, `lru, `peak
      ensures Valid() && Abs() == Counted(Touch(Pin(old(Abs()), b), b))
    {
      hide WellFormed;
      PinKeeps(Abs(), b);
      InList(Abs(), b);
      bufs := bufs[b := bufs[b].(pins := bufs[b].pins + 1)];
      lru := Without(lru, b);
      lru := [b] + lru;
      peak := Max(peak, |Pinned(Abs())|);
    }

    method LoadBlock(b: nat, data: Block)
      requires Valid() && b !in bufs && (|lru| < Max(capacity, peak) || |Pinned(Abs())| == |lru|)
      modifies `bufs, `lru, `resident, `peak
      ensures Valid() && Abs() == Counted(Load(old(Abs()), b, data))
    {
      LoadKeeps(Abs(), b, data);
      hide WellFormed;
      lru := [b] + lru;
      bufs := bufs[b := Buf(data, false, 1)];
      resident := resident + 1;
      peak := Max(peak, |Pinned(Abs())|);
    }

    method BreadBlock(b: nat, ans: Answer) returns (ok: bool)
      requires Valid()
      modifies this
      ensures Valid() && (Abs(), ok) == Bread(old(Abs()), b, ans)
    {
      if b in bufs {
        PinBlock(b);
        return true;
      }
      ReclaimKeeps(Abs(), ans.write);
      Bounded(Abs());
      hide WellFormed;
      hide Reclaim;
      hide Counted;
      if resident >= capacity {
        ReclaimOne(ans.write);
      }
      if !ans.buffer || !ans.data || !ans.index {
        return false;
      }
      var data := if hasIo && ans.read then (if b in disk then disk[b] else Zeros(blockSize)) else Zeros(blockSize);
      assert data == Filled(Abs(), b, ans.read);
      LoadBlock(b, data);
      ok := true;
    }

    method BrelseBlock(b: nat)
      requires Valid() && b in bufs
      modifies `bufs
      ensures Valid() && Abs() == Brelse(old(Abs()), b)
    {
      StepKeeps(Abs(), DoBrelse(b));
      if bufs[b].pins > 0 {
        bufs := bufs[b := bufs[b].(pins := bufs[b].pins - 1)];
      }
    }

    /** A store into a resident block and `bcache_mark_dirty`. */
    method ModifyBlock(b: nat, data: Block)
      requires Valid() && b in bufs
      modifies `bufs
      ensures Valid() && Abs() == Modify(old(Abs()), b, data)
    {
      StepKeeps(Abs(), DoModify(b, data));
      hide WellFormed;
      bufs := bufs[b := bufs[b].(data := data)];
      bufs := bufs[b := bufs[b].(dirty := true)];
      assert bufs == old(bufs)[b := old(bufs)[b].(data := data, dirty := true)];
    }

    method SyncAll(oks: set<nat>) returns (n: nat)
      requires Valid()
      modifies `disk, `bufs
      ensures Valid() && (Abs(), n) == Sync(old(Abs()), oks)
    {
      hide WellFormed;
      hide Flush;
      n := 0;
      for k := 0 to |lru|
        invariant Valid() && lru == old(lru) && (Abs(), n) == SyncUpTo(old(Abs()), oks, k)
      {
        Listed(Abs());
        assert lru[k] in lru;
        if bufs[lru[k]].dirty {
          n := n + 1;
        }
        FlushBuf(lru[k], lru[k] in oks);
      }
    }
  }
}
