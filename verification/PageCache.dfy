/** Write-back LRU page cache with read-ahead (kernel/fs/pagecache.c).
 *
 *  The cache is an index from page number to page, an LRU list of the same page
 *  numbers (most recent first) and the backing object. The environment answers
 *  every allocation and every backing read and write; `tick` counts the questions
 *  asked, so an execution is a function of the environment. A failed backing write
 *  leaves the backing page as it was; the code ignores its result.
 */
module PageCacheSpec {
  import opened Arithmetic
  import opened Lists

  const PAGE_SIZE: nat := 4096
  const MAX_KEY: nat := 0xF_FFFF_FFFF
  const WORD: nat := 0x1_0000_0000_0000_0000
  const DEFAULT_CAPACITY: nat := 16
  const COUNTER: nat := 0x1_0000_0000

  type Byte = b: int | 0 <= b < 256
  type Block = s: seq<Byte> | |s| == PAGE_SIZE witness Zeros(PAGE_SIZE)

  function Zeros(n: nat): (s: seq<Byte>)
    ensures |s| == n && forall i :: 0 <= i < n ==> s[i] == 0
  {
    seq(n, i => 0)
  }

  datatype Env = Env(hasRead: bool, hasWrite: bool, allocOk: nat -> bool, readOk: nat -> bool,
                     writeOk: nat -> bool)

  datatype Page = Page(data: Block, dirty: bool)

  datatype Cache = Cache(order: seq<nat>, pages: map<nat, Page>, disk: map<nat, Block>,
                         capacity: nat, readahead: nat, tick: nat)

  /** Index and LRU list name the same pages, each once, and fit the capacity. */
  predicate WellFormed(c: Cache) {
    && 1 <= c.capacity < COUNTER && c.readahead < COUNTER - 1
    && NoDup(c.order)
    && (forall p :: p in c.order ==> p in c.pages)
    && (forall p :: p in c.pages ==> p in c.order)
    && |c.order| <= c.capacity
    && (forall p :: p in c.pages ==> p <= MAX_KEY)
  }

  /** The page content the backing object holds. */
  function OnDisk(disk: map<nat, Block>, p: nat): Block {
    if p in disk then disk[p] else Zeros(PAGE_SIZE)
  }

  /** The page content a reader of the cache is entitled to see. */
  function View(c: Cache, p: nat): Block {
    if p in c.pages then c.pages[p].data else OnDisk(c.disk, p)
  }

  /** The cached object as one flat array of bytes. */
  function Flat(c: Cache, o: nat): Byte {
    View(c, o / PAGE_SIZE)[o % PAGE_SIZE]
  }

  ghost predicate SameView(c: Cache, d: Cache) {
    forall p: nat :: View(c, p) == View(d, p)
  }

  /** A clean page holds what the backing object holds. */
  ghost predicate CleanAgrees(c: Cache) {
    forall p :: p in c.pages && !c.pages[p].dirty ==> c.pages[p].data == OnDisk(c.disk, p)
  }

  ghost predicate Inv(c: Cache) {
    WellFormed(c) && CleanAgrees(c)
  }

  /** The write callback is present and every backing write succeeds. */
  ghost predicate Writes(env: Env) {
    env.hasWrite && forall n :: env.writeOk(n)
  }

  /** Both callbacks are present and every backing read and write succeeds. */
  ghost predicate Reliable(env: Env) {
    env.hasRead && Writes(env) && forall n :: env.readOk(n)
  }

  // ---- Operations ---------------------------------------------------------------

  function Init(disk: map<nat, Block>, capacity: nat, readahead: nat): (c: Cache)
    requires capacity < COUNTER && readahead < COUNTER - 1
    ensures Inv(c) && c.order == [] && c.disk == disk && c.readahead == readahead
    ensures c.capacity == if capacity > 0 then capacity else 16
  {
    Cache([], map[], disk, if capacity == 0 then DEFAULT_CAPACITY else capacity, readahead, 0)
  }

  /** Hand a dirty page to the write callback. */
  function WriteBack(env: Env, c: Cache, p: nat): (d: Cache)
    requires p in c.pages
  {
    if c.pages[p].dirty && env.hasWrite then
      c.(disk := if env.writeOk(c.tick) then c.disk[p := c.pages[p].data] else c.disk, tick := c.tick + 1)
    else c
  }

  /** Unlink a page from both structures and release it, writing it back if dirty. */
  function Drop(env: Env, c: Cache, p: nat): (d: Cache)
    requires p in c.pages
  {
    WriteBack(env, c, p).(order := Without(c.order, p), pages := c.pages - {p})
  }

  function EvictLru(env: Env, c: Cache): (d: Cache)
    requires WellFormed(c)
  {
    if c.order == [] then c else Drop(env, c, c.order[|c.order| - 1])
  }

  /** Evict from the LRU end until a page fits. */
  function MakeRoom(env: Env, c: Cache): (d: Cache)
    requires WellFormed(c)
    ensures WellFormed(d) && |d.order| < d.capacity
    decreases |c.order|
  {
    if |c.order| < c.capacity then c
    else
      EvictLruKeeps(env, c);
      MakeRoom(env, EvictLru(env, c))
  }

  /** What the fill step puts in a fresh page. */
  function Fill(env: Env, c: Cache, p: nat, n: nat): (data: Block) {
    if env.hasRead && env.readOk(n) then OnDisk(c.disk, p) else Zeros(PAGE_SIZE)
  }

  function Insert(c: Cache, p: nat, page: Page): (d: Cache) {
    c.(order := [p] + c.order, pages := c.pages[p := page])
  }

  /** Allocate and fill a page; the flag tells whether a page was returned. */
  function AllocAndFill(env: Env, c: Cache, p: nat): (r: (Cache, bool))
    requires WellFormed(c) && p !in c.pages
  {
    var d := MakeRoom(env, c);
    if !env.allocOk(d.tick) then (d.(tick := d.tick + 1), false)
    else if !env.allocOk(d.tick + 1) then (d.(tick := d.tick + 2), false)
    else
      var page := Page(Fill(env, d, p, d.tick + 2), false);
      if p > MAX_KEY || !env.allocOk(d.tick + 3) then (d.(tick := d.tick + 4), false)
      else (Insert(d.(tick := d.tick + 4), p, page), true)
  }

  /** Prefetch pages p + i .. p + readahead (64-bit page-number arithmetic). */
  function ReadAhead(env: Env, c: Cache, p: nat, i: nat): (d: Cache)
    requires WellFormed(c)
    decreases c.readahead + 1 - i
  {
    if i > c.readahead then c
    else
      var next := (p + i) % WORD;
      if next in c.pages then ReadAhead(env, c, p, i + 1)
      else
        AllocAndFillKeeps(env, c, next);
        ReadAhead(env, AllocAndFill(env, c, next).0, p, i + 1)
  }

  /** Fetch a page; the flag tells whether a page pointer was returned. */
  function Get(env: Env, c: Cache, p: nat): (r: (Cache, bool))
    requires WellFormed(c)
  {
    if p in c.pages then (c.(order := [p] + Without(c.order, p)), true)
    else
      AllocAndFillKeeps(env, c, p);
      var (d, ok) := AllocAndFill(env, c, p);
      (ReadAhead(env, d, p, 1), ok)
  }

  function Min(a: nat, b: nat): nat { if a < b then a else b }

  /** The largest piece of a transfer that stays inside one page. */
  function Chunk(off: nat, len: nat): (n: nat)
    ensures n <= len && off % PAGE_SIZE + n <= PAGE_SIZE && (len > 0 ==> n > 0)
  {
    Min(PAGE_SIZE - off % PAGE_SIZE, len)
  }

  /** Bytes delivered before success (all `len`) or the first page that failed. */
  function Read(env: Env, c: Cache, off: nat, len: nat): (r: (Cache, bool, seq<Byte>))
    requires WellFormed(c) && c.readahead < c.capacity
    ensures WellFormed(r.0) && r.0.readahead == c.readahead && r.0.capacity == c.capacity
    decreases len
  {
    if len == 0 then (c, true, [])
    else
      var p := off / PAGE_SIZE;
      GetKeeps(env, c, p);
      var (d, ok) := Get(env, c, p);
      if !ok then (d, false, [])
      else
        var n := Chunk(off, len);
        var bytes := d.pages[p].data[off % PAGE_SIZE..off % PAGE_SIZE + n];
        var (e, ok', rest) := Read(env, d, off + n, len - n);
        (e, ok', bytes + rest)
  }

  /** Copy bytes into a resident page and mark it dirty. */
  function Store(c: Cache, p: nat, at: nat, bytes: seq<Byte>): (d: Cache)
    requires p in c.pages && at + |bytes| <= PAGE_SIZE
  {
    var data := c.pages[p].data;
    c.(pages := c.pages[p := Page(data[..at] + bytes + data[at + |bytes|..], true)])
  }

  /** The last component counts the bytes taken before success or failure. */
  function Write(env: Env, c: Cache, off: nat, buf: seq<Byte>): (r: (Cache, bool, nat))
    requires WellFormed(c) && c.readahead < c.capacity
    ensures WellFormed(r.0) && r.0.readahead == c.readahead && r.0.capacity == c.capacity
    decreases |buf|
  {
    if buf == [] then (c, true, 0)
    else
      var p := off / PAGE_SIZE;
      GetKeeps(env, c, p);
      var (d, ok) := Get(env, c, p);
      if !ok then (d, false, 0)
      else
        var n := Chunk(off, |buf|);
        var (e, ok', done) := Write(env, Store(d, p, off % PAGE_SIZE, buf[..n]), off + n, buf[n..]);
        (e, ok', n + done)
  }

  function MarkDirty(c: Cache, p: nat): (d: Cache) {
    if p in c.pages then c.(pages := c.pages[p := c.pages[p].(dirty := true)]) else c
  }

  /** Write one listed page back if it is dirty. */
  function SyncPage(env: Env, c: Cache, n: nat, p: nat): (r: (Cache, nat))
    requires p in c.pages
  {
    if c.pages[p].dirty && env.hasWrite then
      (WriteBack(env, c, p).(pages := c.pages[p := c.pages[p].(dirty := false)]), n + 1)
    else (c, n)
  }

  /** The state and the write-back count after the first `k` list nodes. */
  function SyncUpTo(env: Env, c: Cache, k: nat): (r: (Cache, nat))
    requires WellFormed(c) && k <= |c.order|
    ensures r.0.order == c.order && r.0.pages.Keys == c.pages.Keys
    ensures r.0.readahead == c.readahead && r.0.capacity == c.capacity
  {
    if k == 0 then (c, 0)
    else
      var (d, n) := SyncUpTo(env, c, k - 1);
      assert c.order[k - 1] in c.order;
      SyncPage(env, d, n, c.order[k - 1])
  }

  function Sync(env: Env, c: Cache): (r: (Cache, nat))
    requires WellFormed(c)
  {
    SyncUpTo(env, c, |c.order|)
  }

  function Evict(env: Env, c: Cache, p: nat): (d: Cache) {
    if p in c.pages then Drop(env, c, p) else c
  }

  // ---- The two structures stay in step ----------------------------------------

  lemma {:induction false} DropKeeps(env: Env, c: Cache, p: nat)
    requires WellFormed(c) && p in c.pages
    ensures WellFormed(Drop(env, c, p))
    ensures |Drop(env, c, p).order| == |c.order| - 1
  {
    WithoutFacts(c.order, p);
  }

  lemma {:induction false} EvictLruKeeps(env: Env, c: Cache)
    requires WellFormed(c) && |c.order| > 0
    ensures WellFormed(EvictLru(env, c))
    ensures EvictLru(env, c).order == c.order[..|c.order| - 1]
  {
    var k := |c.order| - 1;
    assert c.order[k] in c.order;
    DropKeeps(env, c, c.order[k]);
    WithoutAt(c.order, k);
    assert c.order[..k] + c.order[k + 1..] == c.order[..k];
  }

  /** At most one page is evicted, and it is the least recently used one. */
  lemma {:induction false} MakeRoomOrder(env: Env, c: Cache)
    requires WellFormed(c)
    ensures var d := MakeRoom(env, c);
            && d.order == c.order[..if |c.order| < c.capacity then |c.order| else c.capacity - 1]
            && d.capacity == c.capacity && d.readahead == c.readahead
            && d.pages.Keys <= c.pages.Keys
            && d == if |c.order| < c.capacity then c else EvictLru(env, c)
  {
    if |c.order| >= c.capacity {
      EvictLruKeeps(env, c);
      var d := EvictLru(env, c);
      assert MakeRoom(env, c) == MakeRoom(env, d) == d;
    }
  }

  lemma {:induction false} InsertKeeps(c: Cache, p: nat, page: Page)
    requires WellFormed(c) && p !in c.pages && p <= MAX_KEY && |c.order| < c.capacity
    ensures WellFormed(Insert(c, p, page))
  {
    var d := Insert(c, p, page);
    forall i, j | 0 <= i < j < |d.order| ensures d.order[i] != d.order[j] {
      assert d.order[j] == c.order[j - 1] && d.order[j] in c.order;
    }
    assert d.order[0] == p;
    forall q | q in c.order ensures q in d.order {
      var k :| 0 <= k < |c.order| && c.order[k] == q;
      assert d.order[k + 1] == q;
    }
  }

  lemma {:induction false} TickKeeps(c: Cache, t: nat)
    requires WellFormed(c)
    ensures WellFormed(c.(tick := t))
  {
  }

  lemma {:induction false} AllocAndFillKeeps(env: Env, c: Cache, p: nat)
    requires WellFormed(c) && p !in c.pages
    ensures var (d, ok) := AllocAndFill(env, c, p);
            && WellFormed(d) && d.capacity == c.capacity && d.readahead == c.readahead
            && (ok ==> d.order == [p] + MakeRoom(env, c).order && p <= MAX_KEY)
            && (!ok ==> d.order == MakeRoom(env, c).order)
  {
    hide MakeRoom;
    hide EvictLru;
    hide WellFormed;
    hide Fill;
    MakeRoomOrder(env, c);
    var m := MakeRoom(env, c);
    var d := AllocAndFill(env, c, p).0;
    TickKeeps(m, d.tick);
    if p <= MAX_KEY {
      InsertKeeps(m.(tick := d.tick), p, Page(Fill(env, m, p, m.tick + 2), false));
    }
  }

  /** `p` is one of the `n` most recently used pages. */
  ghost predicate Recent(order: seq<nat>, p: nat, n: nat) {
    exists k :: 0 <= k < n && k < |order| && order[k] == p
  }

  /** One prefetch pushes a recent page back by at most one position. */
  lemma {:induction false} FillKeepsRecent(env: Env, c: Cache, next: nat, p: nat, n: nat)
    requires WellFormed(c) && next !in c.pages
    requires Recent(c.order, p, n) && n < c.capacity
    ensures Recent(AllocAndFill(env, c, next).0.order, p, n + 1)
  {
    hide AllocAndFill;
    hide WellFormed;
    hide MakeRoom;
    hide EvictLru;
    AllocAndFillKeeps(env, c, next);
    MakeRoomOrder(env, c);
    var (d, ok) := AllocAndFill(env, c, next);
    var m := MakeRoom(env, c).order;
    var k :| 0 <= k < n && k < |c.order| && c.order[k] == p;
    assert m[k] == p;
    assert d.order[if ok then k + 1 else k] == p;
  }

  /** Read-ahead never frees the page just fetched while it may insert fewer pages
   *  than the cache holds. */
  lemma {:induction false} ReadAheadKeeps(env: Env, c: Cache, p: nat, i: nat)
    requires WellFormed(c) && 1 <= i
    ensures var d := ReadAhead(env, c, p, i);
            && WellFormed(d) && d.capacity == c.capacity && d.readahead == c.readahead
            && (c.readahead < c.capacity && i <= c.readahead + 1 && Recent(c.order, p, i) ==> p in d.pages)
    decreases c.readahead + 1 - i
  {
    hide AllocAndFill;
    hide MakeRoom;
    if i <= c.readahead {
      var next := (p + i) % WORD;
      if next in c.pages {
        ReadAheadKeeps(env, c, p, i + 1);
      } else {
        AllocAndFillKeeps(env, c, next);
        var d := AllocAndFill(env, c, next).0;
        if c.readahead < c.capacity && Recent(c.order, p, i) {
          FillKeepsRecent(env, c, next, p, i);
        }
        ReadAheadKeeps(env, d, p, i + 1);
      }
    } else if Recent(c.order, p, i) {
      assert p in c.order;
    }
  }

  /** `pagecache_get` keeps the structures in step, and a returned page is resident. */
  lemma {:induction false} GetKeeps(env: Env, c: Cache, p: nat)
    requires WellFormed(c)
    ensures var (d, ok) := Get(env, c, p);
            && WellFormed(d) && d.capacity == c.capacity && d.readahead == c.readahead
            && (ok && c.readahead < c.capacity ==> p in d.pages)
  {
    hide AllocAndFill;
    hide ReadAhead;
    hide MakeRoom;
    if p in c.pages {
      WithoutFacts(c.order, p);
    } else {
      AllocAndFillKeeps(env, c, p);
      var (d, ok) := AllocAndFill(env, c, p);
      ReadAheadKeeps(env, d, p, 1);
      if ok {
        assert d.order[0] == p;
      }
    }
  }

  // ---- The logical contents -----------------------------------------------------

  /** Releasing a page leaves the view alone exactly when its content is on disk
   *  afterwards: it was written back, or nothing was there to write. */
  lemma {:induction false} DropView(env: Env, c: Cache, p: nat)
    requires WellFormed(c) && p in c.pages
    ensures SameView(c, Drop(env, c, p)) <==>
            (c.pages[p].dirty && env.hasWrite && env.writeOk(c.tick)) || c.pages[p].data == OnDisk(c.disk, p)
    ensures CleanAgrees(c) ==> CleanAgrees(Drop(env, c, p))
  {
    var d := Drop(env, c, p);
    assert forall q: nat :: q != p ==> View(c, q) == View(d, q);
    assert View(c, p) == c.pages[p].data;
  }

  lemma {:induction false} MakeRoomView(env: Env, c: Cache)
    requires Inv(c) && Writes(env)
    ensures Inv(MakeRoom(env, c)) && SameView(c, MakeRoom(env, c))
  {
    MakeRoomOrder(env, c);
    if |c.order| >= c.capacity {
      var p := c.order[|c.order| - 1];
      assert p in c.order;
      EvictLruKeeps(env, c);
      DropView(env, c, p);
    }
  }

  /** Bringing a page in is invisible exactly when the fill found its content. */
  lemma {:induction false} InsertView(c: Cache, p: nat, page: Page)
    requires WellFormed(c) && p !in c.pages
    ensures SameView(c, Insert(c, p, page)) <==> page.data == OnDisk(c.disk, p)
    ensures CleanAgrees(c) && page.data == OnDisk(c.disk, p) ==> CleanAgrees(Insert(c, p, page))
  {
    var d := Insert(c, p, page);
    assert View(d, p) == page.data && View(c, p) == OnDisk(c.disk, p);
    assert forall q: nat :: q != p ==> View(c, q) == View(d, q);
  }

  lemma {:induction false} TickView(c: Cache, t: nat)
    requires Inv(c)
    ensures Inv(c.(tick := t)) && SameView(c, c.(tick := t))
  {
  }

  lemma {:induction false} AllocAndFillView(env: Env, c: Cache, p: nat)
    requires Inv(c) && Reliable(env) && p !in c.pages
    ensures Inv(AllocAndFill(env, c, p).0) && SameView(c, AllocAndFill(env, c, p).0)
  {
    hide MakeRoom;
    hide EvictLru;
    hide View;
    hide SameView;
    hide WellFormed;
    AllocAndFillKeeps(env, c, p);
    MakeRoomView(env, c);
    MakeRoomOrder(env, c);
    var m := MakeRoom(env, c);
    var (d, ok) := AllocAndFill(env, c, p);
    var t := m.(tick := d.tick);
    TickView(m, d.tick);
    SameViewTrans(c, m, t);
    if ok {
      InsertView(t, p, Page(OnDisk(m.disk, p), false));
      SameViewTrans(c, t, d);
    }
  }

  lemma {:induction false} ReadAheadView(env: Env, c: Cache, p: nat, i: nat)
    requires Inv(c) && Reliable(env)
    ensures Inv(ReadAhead(env, c, p, i)) && SameView(c, ReadAhead(env, c, p, i))
    decreases c.readahead + 1 - i
  {
    hide AllocAndFill;
    hide CleanAgrees;
    hide View;
    if i <= c.readahead {
      var next := (p + i) % WORD;
      var d := if next in c.pages then c else AllocAndFill(env, c, next).0;
      if next !in c.pages {
        AllocAndFillKeeps(env, c, next);
        AllocAndFillView(env, c, next);
      }
      ReadAheadView(env, d, p, i + 1);
      SameViewTrans(c, d, ReadAhead(env, c, p, i));
    }
  }

  lemma {:induction false} ReorderView(c: Cache, order: seq<nat>)
    requires CleanAgrees(c)
    ensures CleanAgrees(c.(order := order)) && SameView(c, c.(order := order))
  {
  }

  /** Fetching a page, with whatever it evicts and prefetches, changes no byte. */
  lemma {:induction false} GetView(env: Env, c: Cache, p: nat)
    requires Inv(c) && Reliable(env)
    ensures Inv(Get(env, c, p).0) && SameView(c, Get(env, c, p).0)
  {
    hide AllocAndFill;
    hide ReadAhead;
    hide CleanAgrees;
    GetKeeps(env, c, p);
    if p in c.pages {
      ReorderView(c, [p] + Without(c.order, p));
    } else {
      AllocAndFillKeeps(env, c, p);
      AllocAndFillView(env, c, p);
      var d := AllocAndFill(env, c, p).0;
      ReadAheadView(env, d, p, 1);
      SameViewTrans(c, d, Get(env, c, p).0);
    }
  }

  /** A fetch fails exactly when the page is not there and its number does not fit the index or one
   *  of its three allocations fails: the page, its data, or the index node. */
  lemma {:induction false} GetFails(env: Env, c: Cache, p: nat)
    requires WellFormed(c)
    ensures var n := MakeRoom(env, c).tick;
      !Get(env, c, p).1 <==>
        p !in c.pages && (p > MAX_KEY || !env.allocOk(n) || !env.allocOk(n + 1) || !env.allocOk(n + 3))
  {
    hide MakeRoom;
    hide ReadAhead;
  }

  /** Without a read callback, or when reads fail, a page that is fetched holds zeros, whatever is
   *  on the backing object; when they succeed it holds what is there. It is clean either way. */
  lemma {:induction false} FilledWith(env: Env, c: Cache, p: nat)
    requires WellFormed(c) && p !in c.pages && AllocAndFill(env, c, p).1
    ensures var d := AllocAndFill(env, c, p).0;
      && p in d.pages && !d.pages[p].dirty
      && (!env.hasRead || (forall n :: !env.readOk(n)) ==> d.pages[p].data == Zeros(PAGE_SIZE))
      && (env.hasRead && (forall n :: env.readOk(n)) ==> d.pages[p].data == OnDisk(d.disk, p))
  {
    hide MakeRoom;
  }

  // ---- Refinement of a flat byte array ------------------------------------------

  lemma {:induction false} PageOffset(off: nat, k: nat, n: nat)
    requires k < n && off % PAGE_SIZE + n <= PAGE_SIZE
    ensures (off + k) / PAGE_SIZE == off / PAGE_SIZE
    ensures (off + k) % PAGE_SIZE == off % PAGE_SIZE + k
  {
  }

  lemma {:induction false} SameFlat(c: Cache, d: Cache, o: nat)
    requires SameView(c, d)
    ensures Flat(c, o) == Flat(d, o)
  {
    assert View(c, o / PAGE_SIZE) == View(d, o / PAGE_SIZE);
  }

  lemma {:induction false} SameViewTrans(c: Cache, d: Cache, e: Cache)
    requires SameView(c, d) && SameView(d, e)
    ensures SameView(c, e)
  {
    hide View;
    forall q: nat ensures View(c, q) == View(e, q) {
      assert View(c, q) == View(d, q);
    }
  }

  lemma {:induction false} LoadedByte(c: Cache, d: Cache, off: nat, n: nat, k: nat)
    requires SameView(c, d) && off / PAGE_SIZE in d.pages
    requires off % PAGE_SIZE + n <= PAGE_SIZE && k < n
    ensures d.pages[off / PAGE_SIZE].data[off % PAGE_SIZE..off % PAGE_SIZE + n][k] == Flat(c, off + k)
  {
    PageOffset(off, k, n);
    SameFlat(c, d, off + k);
  }

  /** A read delivers the flat array's bytes, all of them unless it reports failure,
   *  and changes none. */
  lemma {:induction false} ReadRefinesFlat(env: Env, c: Cache, off: nat, len: nat)
    requires Inv(c) && Reliable(env) && c.readahead < c.capacity
    ensures var (d, ok, out) := Read(env, c, off, len);
            && Inv(d) && SameView(c, d)
            && |out| <= len && (ok <==> |out| == len)
            && forall k :: 0 <= k < |out| ==> out[k] == Flat(c, off + k)
    decreases len
  {
    hide Get;
    hide WellFormed;
    hide CleanAgrees;
    hide View;
    hide Reliable;
    hide Flat;
    if len > 0 {
      var p := off / PAGE_SIZE;
      GetKeeps(env, c, p);
      GetView(env, c, p);
      var (d, ok) := Get(env, c, p);
      if ok {
        var n := Chunk(off, len);
        ReadRefinesFlat(env, d, off + n, len - n);
        var (e, ok', rest) := Read(env, d, off + n, len - n);
        SameViewTrans(c, d, e);
        var bytes := d.pages[p].data[off % PAGE_SIZE..off % PAGE_SIZE + n];
        assert Read(env, c, off, len) == (e, ok', bytes + rest);
        forall k | 0 <= k < n + |rest| ensures (bytes + rest)[k] == Flat(c, off + k) {
          if k < n {
            LoadedByte(c, d, off, n, k);
          } else {
            assert rest[k - n] == Flat(d, off + n + (k - n));
            SameFlat(c, d, off + k);
          }
        }
      }
    }
  }

  lemma {:induction false} StoreView(c: Cache, p: nat, at: nat, bytes: seq<Byte>)
    requires Inv(c) && p in c.pages && at + |bytes| <= PAGE_SIZE
    ensures Inv(Store(c, p, at, bytes))
    ensures Store(c, p, at, bytes).capacity == c.capacity && Store(c, p, at, bytes).readahead == c.readahead
    ensures forall q: nat :: q != p ==> View(Store(c, p, at, bytes), q) == View(c, q)
    ensures forall k :: 0 <= k < PAGE_SIZE ==>
              View(Store(c, p, at, bytes), p)[k] == if at <= k < at + |bytes| then bytes[k - at] else View(c, p)[k]
  {
  }

  /** A write changes exactly the flat array's bytes it reports as taken, and takes
   *  all of them unless it reports failure. */
  lemma {:induction false} WriteRefinesFlat(env: Env, c: Cache, off: nat, buf: seq<Byte>)
    requires Inv(c) && Reliable(env) && c.readahead < c.capacity
    ensures var (d, ok, done) := Write(env, c, off, buf);
            && Inv(d)
            && done <= |buf| && (ok <==> done == |buf|)
            && forall o: nat :: Flat(d, o) == if off <= o < off + done then buf[o - off] else Flat(c, o)
    decreases |buf|
  {
    hide Get;
    hide WellFormed;
    hide CleanAgrees;
    hide View;
    hide Flat;
    hide Store;
    if buf != [] {
      var p := off / PAGE_SIZE;
      GetKeeps(env, c, p);
      GetView(env, c, p);
      var (d, ok) := Get(env, c, p);
      if ok {
        var n := Chunk(off, |buf|);
        var s := Store(d, p, off % PAGE_SIZE, buf[..n]);
        StoreView(d, p, off % PAGE_SIZE, buf[..n]);
        WriteRefinesFlat(env, s, off + n, buf[n..]);
        forall o: nat ensures Flat(s, o) == if off <= o < off + n then buf[o - off] else Flat(c, o) {
          StoredByte(c, d, off, buf[..n], o);
        }
        var (e, ok', rest) := Write(env, s, off + n, buf[n..]);
        forall o: nat
          ensures Flat(e, o) == if off <= o < off + n + rest then buf[o - off] else Flat(c, o)
        {
          assert Flat(e, o) == if off + n <= o < off + n + rest then buf[n..][o - off - n] else Flat(s, o);
        }
      } else {
        forall o: nat ensures Flat(d, o) == Flat(c, o) {
          SameFlat(c, d, o);
        }
      }
    }
  }

  lemma {:induction false} StoredByte(c: Cache, d: Cache, off: nat, bytes: seq<Byte>, o: nat)
    requires Inv(d) && SameView(c, d) && off / PAGE_SIZE in d.pages
    requires off % PAGE_SIZE + |bytes| <= PAGE_SIZE
    ensures Flat(Store(d, off / PAGE_SIZE, off % PAGE_SIZE, bytes), o) ==
            if off <= o < off + |bytes| then bytes[o - off] else Flat(c, o)
  {
    var p, at := off / PAGE_SIZE, off % PAGE_SIZE;
    var q, k := o / PAGE_SIZE, o % PAGE_SIZE;
    StoreView(d, p, at, bytes);
    assert View(c, q) == View(d, q);
    if off <= o < off + |bytes| {
      PageOffset(off, o - off, |bytes|);
    } else if q == p {
      assert o == p * PAGE_SIZE + k && off == p * PAGE_SIZE + at;
    }
  }

  // ---- Write-back -----------------------------------------------------------------

  /** Dirty pages among the first `k` of the list; the write of page `k` asks question
   *  `tick + DirtyFirst(c, k)`. */
  function DirtyFirst(c: Cache, k: nat): (n: nat)
    requires WellFormed(c) && k <= |c.order|
  {
    if k == 0 then 0
    else
      assert c.order[k - 1] in c.order;
      DirtyFirst(c, k - 1) + if c.pages[c.order[k - 1]].dirty then 1 else 0
  }

  /** The sync hands page `k` of the list to the write callback, and the write succeeds. */
  ghost predicate Wrote(env: Env, c: Cache, k: nat)
    requires WellFormed(c) && k < |c.order| && c.order[k] in c.pages
  {
    c.pages[c.order[k]].dirty && env.writeOk(c.tick + DirtyFirst(c, k))
  }

  /** The list names resident pages only. */
  ghost predicate Listed(c: Cache, d: Cache) {
    && WellFormed(c) && d.pages.Keys == c.pages.Keys && d.order == c.order
    && forall j :: 0 <= j < |c.order| ==> c.order[j] in c.pages
  }

  /** What a sync that has visited the first `k` pages has settled. */
  ghost predicate Synced(env: Env, c: Cache, d: Cache, k: nat)
    requires Listed(c, d) && k <= |c.order|
  {
    && d.tick == c.tick + DirtyFirst(c, k)
    && (forall j :: 0 <= j < |c.order| ==>
          d.pages[c.order[j]] == if j < k then Page(c.pages[c.order[j]].data, false) else c.pages[c.order[j]])
    && (forall j :: 0 <= j < |c.order| ==>
          OnDisk(d.disk, c.order[j]) ==
            if j < k && Wrote(env, c, j) then c.pages[c.order[j]].data else OnDisk(c.disk, c.order[j]))
    && (forall p :: p !in c.pages ==> OnDisk(d.disk, p) == OnDisk(c.disk, p))
  }

  lemma {:induction false} SyncPageSettles(env: Env, c: Cache, d: Cache, n: nat, k: nat)
    requires env.hasWrite && Listed(c, d) && k < |c.order| && Synced(env, c, d, k)
    ensures Listed(c, SyncPage(env, d, n, c.order[k]).0) && Synced(env, c, SyncPage(env, d, n, c.order[k]).0, k + 1)
    ensures SyncPage(env, d, n, c.order[k]).1 - n == DirtyFirst(c, k + 1) - DirtyFirst(c, k)
  {
    hide WellFormed;
    hide DirtyFirst;
    DirtyNext(c, k);
    Distinct(c);
    var p := c.order[k];
    var e := SyncPage(env, d, n, p).0;
    assert d.pages[p] == c.pages[p];
  }

  lemma {:induction false} DirtyNext(c: Cache, k: nat)
    requires WellFormed(c) && k < |c.order| && c.order[k] in c.pages
    ensures DirtyFirst(c, k + 1) == DirtyFirst(c, k) + if c.pages[c.order[k]].dirty then 1 else 0
  {
  }

  lemma {:induction false} Distinct(c: Cache)
    requires WellFormed(c)
    ensures NoDup(c.order)
  {
  }

  lemma {:induction false} SyncUpToFacts(env: Env, c: Cache, k: nat)
    requires WellFormed(c) && k <= |c.order| && env.hasWrite
    ensures Listed(c, SyncUpTo(env, c, k).0) && Synced(env, c, SyncUpTo(env, c, k).0, k)
    ensures SyncUpTo(env, c, k).1 == DirtyFirst(c, k)
  {
    hide Synced;
    hide SyncPage;
    hide DirtyFirst;
    if k > 0 {
      SyncUpToFacts(env, c, k - 1);
      var (d, n) := SyncUpTo(env, c, k - 1);
      assert c.order[k - 1] in c.order;
      SyncPageSettles(env, c, d, n, k - 1);
    } else {
      NothingSynced(env, c);
    }
  }

  lemma {:induction false} NothingSynced(env: Env, c: Cache)
    requires WellFormed(c)
    ensures Listed(c, SyncUpTo(env, c, 0).0) && Synced(env, c, SyncUpTo(env, c, 0).0, 0) && DirtyFirst(c, 0) == 0
  {
    forall j | 0 <= j < |c.order| ensures c.order[j] in c.pages {
      assert c.order[j] in c.order;
    }
  }

  /** The pages at the first `k` positions of the list that are dirty. */
  ghost function DirtyAmong(c: Cache, k: nat): (r: set<nat>)
    requires k <= |c.order|
  {
    set j | 0 <= j < k && c.order[j] in c.pages && c.pages[c.order[j]].dirty :: c.order[j]
  }

  lemma {:induction false} DirtyCount(c: Cache, k: nat)
    requires WellFormed(c) && k <= |c.order|
    ensures DirtyFirst(c, k) == |DirtyAmong(c, k)|
  {
    hide DirtyAmong;
    if k > 0 {
      DirtyCount(c, k - 1);
      assert c.order[k - 1] in c.order;
      DirtyAdds(c, k);
    } else {
      NoneDirty(c);
    }
  }

  lemma {:induction false} NoneDirty(c: Cache)
    ensures DirtyAmong(c, 0) == {}
  {
  }

  lemma {:induction false} DirtyAdds(c: Cache, k: nat)
    requires NoDup(c.order) && 0 < k <= |c.order| && c.order[k - 1] in c.pages
    ensures var p := c.order[k - 1];
      p !in DirtyAmong(c, k - 1) && DirtyAmong(c, k) == DirtyAmong(c, k - 1) + if c.pages[p].dirty then {p} else {}
  {
    var p := c.order[k - 1];
    forall j | 0 <= j < k - 1 ensures c.order[j] != p {}
  }

  /** A dirty page whose content is not on the backing object. */
  predicate Differs(c: Cache, p: nat)
    requires p in c.pages
  {
    c.pages[p].dirty && c.pages[p].data != OnDisk(c.disk, p)
  }

  /** No write that mattered fails: every dirty page that differs from the backing object is
   *  written with success. */
  ghost predicate NoneLost(env: Env, c: Cache)
    requires WellFormed(c)
  {
    forall j :: 0 <= j < |c.order| && c.order[j] in c.pages && Differs(c, c.order[j]) ==> Wrote(env, c, j)
  }

  /** After `pagecache_sync` every page is clean, no content moved and the result counts the
   *  dirty pages, whatever the writes answered. The backing object is the logical view, and
   *  clean pages agree with it, exactly when no write that mattered failed. */
  lemma {:induction false} SyncExact(env: Env, c: Cache)
    requires Inv(c) && env.hasWrite
    ensures var (d, n) := Sync(env, c);
            && WellFormed(d) && SameView(c, d)
            && (forall p :: p in d.pages ==> !d.pages[p].dirty)
            && n == |set p | p in c.pages && c.pages[p].dirty|
            && ((forall p: nat :: OnDisk(d.disk, p) == View(c, p)) <==> NoneLost(env, c))
            && (CleanAgrees(d) <==> NoneLost(env, c))
  {
    hide SyncUpTo;
    hide DirtyFirst;
    SyncUpToFacts(env, c, |c.order|);
    DirtyCount(c, |c.order|);
    assert DirtyAmong(c, |c.order|) == set p | p in c.pages && c.pages[p].dirty;
    SyncedView(env, c, Sync(env, c).0);
  }

  lemma {:induction false} SyncedView(env: Env, c: Cache, d: Cache)
    requires CleanAgrees(c) && Listed(c, d) && Synced(env, c, d, |c.order|)
    ensures SameView(c, d) && forall p :: p in d.pages ==> !d.pages[p].dirty
    ensures (forall p: nat :: OnDisk(d.disk, p) == View(c, p)) <==> NoneLost(env, c)
    ensures CleanAgrees(d) <==> NoneLost(env, c)
  {
    hide Wrote;
    hide DirtyFirst;
    forall p | p in c.pages ensures d.pages[p] == Page(c.pages[p].data, false) {
      var j :| 0 <= j < |c.order| && c.order[j] == p;
    }
    forall p: nat ensures View(d, p) == View(c, p) {}
    if NoneLost(env, c) {
      forall p: nat ensures OnDisk(d.disk, p) == View(c, p) {
        if p in c.pages {
          var j :| 0 <= j < |c.order| && c.order[j] == p;
          WroteDirty(env, c, j);
        }
      }
    } else {
      var j :| 0 <= j < |c.order| && c.order[j] in c.pages && Differs(c, c.order[j]) && !Wrote(env, c, j);
      assert OnDisk(d.disk, c.order[j]) != View(c, c.order[j]);
    }
  }

  lemma {:induction false} WroteDirty(env: Env, c: Cache, j: nat)
    requires WellFormed(c) && j < |c.order| && c.order[j] in c.pages
    ensures Wrote(env, c, j) ==> c.pages[c.order[j]].dirty
  {
  }

  /** With reliable writes nothing is lost. */
  lemma {:induction false} SyncReliable(env: Env, c: Cache)
    requires Inv(c) && Writes(env)
    ensures NoneLost(env, c) && Inv(Sync(env, c).0) && SameView(c, Sync(env, c).0)
  {
    SyncExact(env, c);
  }

  // ---- Whole runs -----------------------------------------------------------------

  datatype Op =
    | GetPage(p: nat)
    | ReadAt(off: nat, len: nat)
    | WriteAt(off: nat, buf: seq<Byte>)
    | Dirty(p: nat)
    | SyncAll
    | EvictPage(p: nat)

  datatype Out = Done | Data(ok: bool, bytes: seq<Byte>) | Taken(ok: bool, n: nat)

  ghost function Step(env: Env, c: Cache, op: Op): (r: (Cache, Out))
    requires WellFormed(c) && c.readahead < c.capacity
  {
    match op
    case GetPage(p) => (Get(env, c, p).0, Done)
    case ReadAt(off, len) => var (d, ok, bytes) := Read(env, c, off, len); (d, Data(ok, bytes))
    case WriteAt(off, buf) => var (d, ok, n) := Write(env, c, off, buf); (d, Taken(ok, n))
    case Dirty(p) => (MarkDirty(c, p), Done)
    case SyncAll => (Sync(env, c).0, Done)
    case EvictPage(p) => (Evict(env, c, p), Done)
  }

  ghost function Splice(f: nat -> Byte, off: nat, bytes: seq<Byte>): (g: nat -> Byte) {
    (o: nat) => if off <= o < off + |bytes| then bytes[o - off] else f(o)
  }

  /** One operation of a plain byte array that produced the observed output. */
  ghost predicate FlatStep(f: nat -> Byte, op: Op, out: Out, g: nat -> Byte) {
    match op
    case ReadAt(off, len) =>
      && out.Data? && |out.bytes| <= len && (out.ok <==> |out.bytes| == len)
      && (forall k :: 0 <= k < |out.bytes| ==> out.bytes[k] == f(off + k))
      && (forall o: nat :: g(o) == f(o))
    case WriteAt(off, buf) =>
      && out.Taken? && out.n <= |buf| && (out.ok <==> out.n == |buf|)
      && (forall o: nat :: g(o) == Splice(f, off, buf[..out.n])(o))
    case _ => forall o: nat :: g(o) == f(o)
  }

  ghost predicate Agrees(c: Cache, f: nat -> Byte) {
    forall o: nat :: f(o) == Flat(c, o)
  }

  ghost function AsFlat(c: Cache): (f: nat -> Byte)
    ensures Agrees(c, f)
  {
    (o: nat) => Flat(c, o)
  }

  lemma {:induction false} MarkDirtyView(c: Cache, p: nat)
    requires Inv(c)
    ensures Inv(MarkDirty(c, p)) && SameView(c, MarkDirty(c, p))
    ensures MarkDirty(c, p).order == c.order && MarkDirty(c, p).pages.Keys == c.pages.Keys
    ensures forall q :: q in c.pages ==> MarkDirty(c, p).pages[q].dirty == (q == p || c.pages[q].dirty)
  {
  }

  lemma {:induction false} SameViewFlat(c: Cache, d: Cache, f: nat -> Byte)
    requires SameView(c, d) && Agrees(c, f)
    ensures forall o: nat :: Flat(d, o) == f(o)
  {
    hide Flat;
    forall o: nat ensures Flat(d, o) == f(o) {
      SameFlat(c, d, o);
    }
  }

  /** Every cache operation is an operation of the flat array. */
  lemma {:induction false} StepRefines(env: Env, c: Cache, op: Op, f: nat -> Byte)
    requires Inv(c) && Reliable(env) && c.readahead < c.capacity && Agrees(c, f)
    ensures var (d, out) := Step(env, c, op);
            && Inv(d) && d.readahead == c.readahead && d.capacity == c.capacity
            && FlatStep(f, op, out, AsFlat(d))
  {
    hide Get;
    hide Read;
    hide Write;
    hide Flat;
    hide View;
    hide WellFormed;
    hide CleanAgrees;
    hide Sync;
    hide MarkDirty;
    var d := Step(env, c, op).0;
    match op
    case GetPage(p) => GetKeeps(env, c, p); GetView(env, c, p); SameViewFlat(c, d, f);
    case ReadAt(off, len) => ReadRefinesFlat(env, c, off, len); SameViewFlat(c, d, f);
    case WriteAt(off, buf) => WriteRefinesFlat(env, c, off, buf);
    case Dirty(p) => MarkDirtyView(c, p); MarkDirtyKeeps(c, p); SameViewFlat(c, d, f);
    case SyncAll => SyncKeeps(env, c); SyncReliable(env, c); SameViewFlat(c, d, f);
    case EvictPage(p) => EvictView(env, c, p); SameViewFlat(c, d, f);
  }

  lemma {:induction false} MarkDirtyKeeps(c: Cache, p: nat)
    ensures MarkDirty(c, p).capacity == c.capacity && MarkDirty(c, p).readahead == c.readahead
  {
  }

  lemma {:induction false} SyncKeeps(env: Env, c: Cache)
    requires WellFormed(c)
    ensures Sync(env, c).0.capacity == c.capacity && Sync(env, c).0.readahead == c.readahead
  {
  }

  lemma {:induction false} EvictView(env: Env, c: Cache, p: nat)
    requires Inv(c) && Writes(env)
    ensures Inv(Evict(env, c, p)) && SameView(c, Evict(env, c, p))
    ensures p !in Evict(env, c, p).pages
  {
    if p in c.pages {
      DropKeeps(env, c, p);
      DropView(env, c, p);
    }
  }

  ghost function Run(env: Env, c: Cache, ops: seq<Op>): (r: (Cache, seq<Out>))
    requires Inv(c) && Reliable(env) && c.readahead < c.capacity
    decreases |ops|
  {
    if ops == [] then (c, [])
    else
      StepRefines(env, c, ops[0], AsFlat(c));
      var (d, out) := Step(env, c, ops[0]);
      var (e, outs) := Run(env, d, ops[1..]);
      (e, [out] + outs)
  }

  /** A plain byte array starting as `f` can produce these outputs and end as `g`. */
  ghost predicate FlatRun(f: nat -> Byte, ops: seq<Op>, outs: seq<Out>, g: nat -> Byte)
    decreases |ops|
  {
    if ops == [] then outs == [] && forall o: nat :: g(o) == f(o)
    else
      && outs != []
      && exists h: nat -> Byte :: FlatStep(f, ops[0], outs[0], h) && FlatRun(h, ops[1..], outs[1..], g)
  }

  /** In every run of every length, the cache is indistinguishable from a byte array:
   *  reads return the last bytes written, whatever was evicted or prefetched. */
  lemma {:induction false} RunRefinesFlat(env: Env, c: Cache, ops: seq<Op>)
    requires Inv(c) && Reliable(env) && c.readahead < c.capacity
    ensures var (d, outs) := Run(env, c, ops);
            && Inv(d) && |d.order| <= d.capacity
            && FlatRun(AsFlat(c), ops, outs, AsFlat(d))
    decreases |ops|
  {
    if ops != [] {
      var (m, out) := Step(env, c, ops[0]);
      StepRefines(env, c, ops[0], AsFlat(c));
      RunRefinesFlat(env, m, ops[1..]);
      var (d, outs) := Run(env, m, ops[1..]);
      assert Run(env, c, ops) == (d, [out] + outs);
      assert ([out] + outs)[1..] == outs;
      assert FlatStep(AsFlat(c), ops[0], out, AsFlat(m));
    }
  }

  // ---- Recency --------------------------------------------------------------------

  /** A hit makes its page the most recent and leaves the others in their order; a page fetched
   *  has at most the prefetched ones before it. */
  lemma {:induction false} GetOrder(env: Env, c: Cache, p: nat, x: nat, y: nat)
    requires WellFormed(c)
    ensures var (d, ok) := Get(env, c, p);
      && (p in c.pages ==> ok && d == c.(order := d.order) && |d.order| == |c.order| && d.order[0] == p)
      && (p in c.pages && x != p && y != p ==> (Ahead(d.order, x, y) <==> Ahead(c.order, x, y)))
      && (ok && c.readahead < c.capacity ==> Recent(d.order, p, 1 + c.readahead))
  {
    hide AllocAndFill;
    hide ReadAhead;
    hide MakeRoom;
    if p in c.pages {
      ToFront(c.order, p, x, y);
    } else {
      AllocAndFillKeeps(env, c, p);
      var (d, ok) := AllocAndFill(env, c, p);
      if ok && c.readahead < c.capacity {
        assert d.order[0] == p;
        ReadAheadRecent(env, d, p, 1, p, 1);
      }
    }
  }

  /** A prefetch pushes a recent page back by at most one place for each page it looks at. */
  lemma {:induction false} ReadAheadRecent(env: Env, c: Cache, q: nat, i: nat, p: nat, n: nat)
    requires WellFormed(c) && 1 <= i <= c.readahead + 1 && Recent(c.order, p, n)
    requires n + (c.readahead + 1 - i) <= c.capacity
    ensures Recent(ReadAhead(env, c, q, i).order, p, n + (c.readahead + 1 - i))
    decreases c.readahead + 1 - i
  {
    hide AllocAndFill;
    hide MakeRoom;
    hide Recent;
    if i <= c.readahead {
      var next := (q + i) % WORD;
      if next in c.pages {
        RecentMore(c.order, p, n);
        ReadAheadRecent(env, c, q, i + 1, p, n + 1);
      } else {
        AllocAndFillKeeps(env, c, next);
        FillKeepsRecent(env, c, next, p, n);
        ReadAheadRecent(env, AllocAndFill(env, c, next).0, q, i + 1, p, n + 1);
      }
    }
  }

  lemma {:induction false} RecentMore(order: seq<nat>, p: nat, n: nat)
    requires Recent(order, p, n)
    ensures Recent(order, p, n + 1)
  {
  }

  lemma {:induction false} GetRecent(env: Env, c: Cache, q: nat, p: nat, n: nat)
    requires WellFormed(c) && Recent(c.order, p, n) && n + 1 + c.readahead <= c.capacity
    ensures Recent(Get(env, c, q).0.order, p, n + 1 + c.readahead)
  {
    hide AllocAndFill;
    hide ReadAhead;
    hide MakeRoom;
    if q in c.pages {
      var i :| 0 <= i < n && i < |c.order| && c.order[i] == p;
      var d := Get(env, c, q).0;
      if q == p {
        assert d.order[0] == p;
      } else {
        WithoutShifts(c.order, q, i);
        var w := Without(c.order, q);
        assert d.order == [q] + w;
        assert i < |w| && w[i] == p ==> d.order[i + 1] == p;
        assert 0 < i <= |w| && w[i - 1] == p ==> d.order[i] == p;
      }
    } else {
      AllocAndFillKeeps(env, c, q);
      FillKeepsRecent(env, c, q, p, n);
      ReadAheadRecent(env, AllocAndFill(env, c, q).0, q, 1, p, n + 1);
    }
  }

  /** The most places a page can fall in a transfer of `len` bytes: for each page it passes
   *  through, that page and the prefetched ones. */
  function Turnover(off: nat, len: nat, readahead: nat): (n: nat)
    decreases len
  {
    if len == 0 then 0
    else 1 + readahead + Turnover(off + Chunk(off, len), len - Chunk(off, len), readahead)
  }

  /** It is one page and the prefetched ones for each page between the first byte and the last. */
  lemma {:induction false} TurnoverPages(off: nat, len: nat, readahead: nat)
    requires len > 0
    ensures Turnover(off, len, readahead) ==
      ((off + len - 1) / PAGE_SIZE - off / PAGE_SIZE + 1) * (1 + readahead)
    decreases len
  {
    var n := Chunk(off, len);
    var next, last := off + n, off + len - 1;
    if n < len {
      TurnoverPages(next, len - n, readahead);
      assert next / PAGE_SIZE == off / PAGE_SIZE + 1;
      var m := last / PAGE_SIZE - next / PAGE_SIZE + 1;
      assert (m + 1) * (1 + readahead) == m * (1 + readahead) + (1 + readahead);
    } else {
      assert last / PAGE_SIZE == off / PAGE_SIZE;
      assert Turnover(next, 0, readahead) == 0;
    }
  }

  lemma {:induction false} ReadRecent(env: Env, c: Cache, off: nat, len: nat, p: nat, n: nat)
    requires WellFormed(c) && c.readahead < c.capacity && Recent(c.order, p, n)
    requires n + Turnover(off, len, c.readahead) <= c.capacity
    ensures Recent(Read(env, c, off, len).0.order, p, n + Turnover(off, len, c.readahead))
    decreases len
  {
    hide Get;
    hide Recent;
    hide WellFormed;
    if len > 0 {
      var q, m := off / PAGE_SIZE, Chunk(off, len);
      GetKeeps(env, c, q);
      GetRecent(env, c, q, p, n);
      var (d, ok) := Get(env, c, q);
      if ok {
        ReadRecent(env, d, off + m, len - m, p, n + 1 + c.readahead);
      } else {
        RecentUpTo(d.order, p, n + 1 + c.readahead, n + Turnover(off, len, c.readahead));
      }
    }
  }

  lemma {:induction false} RecentUpTo(order: seq<nat>, p: nat, n: nat, m: nat)
    requires Recent(order, p, n) && n <= m
    ensures Recent(order, p, m)
  {
  }

  lemma {:induction false} WriteRecent(env: Env, c: Cache, off: nat, buf: seq<Byte>, p: nat, n: nat)
    requires WellFormed(c) && c.readahead < c.capacity && Recent(c.order, p, n)
    requires n + Turnover(off, |buf|, c.readahead) <= c.capacity
    ensures Recent(Write(env, c, off, buf).0.order, p, n + Turnover(off, |buf|, c.readahead))
    decreases |buf|
  {
    hide Get;
    hide Recent;
    if buf != [] {
      var q, m := off / PAGE_SIZE, Chunk(off, |buf|);
      GetKeeps(env, c, q);
      GetRecent(env, c, q, p, n);
      var (d, ok) := Get(env, c, q);
      if ok {
        var e := Store(d, q, off % PAGE_SIZE, buf[..m]);
        assert WellFormed(e);
        WriteRecent(env, e, off + m, buf[m..], p, n + 1 + c.readahead);
      } else {
        RecentUpTo(d.order, p, n + 1 + c.readahead, n + Turnover(off, |buf|, c.readahead));
      }
    }
  }

  function Falls(op: Op, readahead: nat): (n: nat) {
    match op
    case GetPage(_) => 1 + readahead
    case ReadAt(off, len) => Turnover(off, len, readahead)
    case WriteAt(off, buf) => Turnover(off, |buf|, readahead)
    case _ => 0
  }

  function FallsAll(ops: seq<Op>, readahead: nat): (n: nat) {
    if ops == [] then 0 else Falls(ops[0], readahead) + FallsAll(ops[1..], readahead)
  }

  lemma {:induction false} StepRecent(env: Env, c: Cache, op: Op, p: nat, n: nat)
    requires WellFormed(c) && c.readahead < c.capacity && Recent(c.order, p, n) && op != EvictPage(p)
    requires n + Falls(op, c.readahead) <= c.capacity
    ensures Recent(Step(env, c, op).0.order, p, n + Falls(op, c.readahead))
  {
    hide Get;
    hide Read;
    hide Write;
    match op
    case GetPage(q) => GetRecent(env, c, q, p, n);
    case ReadAt(off, len) => ReadRecent(env, c, off, len, p, n);
    case WriteAt(off, buf) => WriteRecent(env, c, off, buf, p, n);
    case Dirty(q) =>
    case SyncAll =>
    case EvictPage(q) =>
      var i :| 0 <= i < n && i < |c.order| && c.order[i] == p;
      WithoutShifts(c.order, q, i);
  }

  /** Retention: a page among the `n` most recent is still resident after any operations that do
   *  not evict it by name and pass through, prefetching included, at most `capacity - n` pages. */
  lemma {:induction false} Retained(env: Env, c: Cache, ops: seq<Op>, p: nat, n: nat)
    requires Inv(c) && Reliable(env) && c.readahead < c.capacity && Recent(c.order, p, n)
    requires EvictPage(p) !in ops && n + FallsAll(ops, c.readahead) <= c.capacity
    ensures var d := Run(env, c, ops).0;
      p in d.pages && Recent(d.order, p, n + FallsAll(ops, c.readahead))
    decreases |ops|
  {
    hide Step;
    hide Falls;
    hide AsFlat;
    hide FlatStep;
    if ops != [] {
      StepRefines(env, c, ops[0], AsFlat(c));
      StepRecent(env, c, ops[0], p, n);
      Retained(env, Step(env, c, ops[0]).0, ops[1..], p, n + Falls(ops[0], c.readahead));
    }
  }

  // ---- When transfers succeed ------------------------------------------------------

  lemma {:induction false} GetSucceeds(env: Env, c: Cache, p: nat)
    requires WellFormed(c) && forall n :: env.allocOk(n)
    ensures Get(env, c, p).1 <==> p <= MAX_KEY
  {
    hide MakeRoom;
    hide ReadAhead;
  }

  /** With memory available a read or write succeeds exactly when its range, if not empty,
   *  ends at or below the largest page the index can hold. */
  lemma {:induction false} ReadSucceeds(env: Env, c: Cache, off: nat, len: nat)
    requires WellFormed(c) && c.readahead < c.capacity && forall n :: env.allocOk(n)
    ensures Read(env, c, off, len).1 <==> len == 0 || off + len <= (MAX_KEY + 1) * PAGE_SIZE
    decreases len
  {
    hide Get;
    if len > 0 {
      var p := off / PAGE_SIZE;
      GetKeeps(env, c, p);
      GetSucceeds(env, c, p);
      if Get(env, c, p).1 {
        ReadSucceeds(env, Get(env, c, p).0, off + Chunk(off, len), len - Chunk(off, len));
      }
    }
  }

  lemma {:induction false} WriteSucceeds(env: Env, c: Cache, off: nat, buf: seq<Byte>)
    requires WellFormed(c) && c.readahead < c.capacity && forall n :: env.allocOk(n)
    ensures Write(env, c, off, buf).1 <==> buf == [] || off + |buf| <= (MAX_KEY + 1) * PAGE_SIZE
    decreases |buf|
  {
    hide Get;
    if buf != [] {
      var p := off / PAGE_SIZE;
      var n := Chunk(off, |buf|);
      GetKeeps(env, c, p);
      GetSucceeds(env, c, p);
      if Get(env, c, p).1 {
        WriteSucceeds(env, Store(Get(env, c, p).0, p, off % PAGE_SIZE, buf[..n]), off + n, buf[n..]);
      }
    }
  }

  // ---- When read-ahead ends ---------------------------------------------------------

  /** The 32-bit counter of the read-ahead loop after `k` turns from `i`. */
  function Turns(i: nat, k: nat): (r: nat)
    decreases k
  {
    if k == 0 then i else Turns((i + 1) % COUNTER, k - 1)
  }

  lemma {:induction false} TurnsAre(i: nat, k: nat)
    requires i < COUNTER
    ensures Turns(i, k) == (i + k) % COUNTER
    decreases k
  {
    if k > 0 {
      TurnsAre((i + 1) % COUNTER, k - 1);
      AddMod(i + 1, k - 1, COUNTER);
    }
  }

  /** The loop leaves a window of `readahead` pages, of any 32-bit size, exactly when the window
   *  is not the largest: then the counter wraps before it can pass the bound. */
  lemma {:induction false} ReadAheadEnds(readahead: nat)
    requires readahead < COUNTER
    ensures (exists k: nat :: Turns(1, k) > readahead) <==> readahead < COUNTER - 1
  {
    if readahead < COUNTER - 1 {
      TurnsAre(1, readahead);
      assert Turns(1, readahead) > readahead;
    } else {
      forall k: nat ensures Turns(1, k) <= readahead {
        TurnsAre(1, k);
      }
    }
  }

  // ---- When the returned page survives its own read-ahead ------------------------

  /** Pages p + i - 1, p + i - 2, … as far as the capacity reaches. */
  ghost predicate Descending(c: Cache, p: nat, i: nat) {
    && |c.order| == Min(i, c.capacity)
    && forall j :: 0 <= j < |c.order| ==> c.order[j] == p + i - 1 - j
  }

  lemma {:induction false} FillSucceeds(env: Env, c: Cache, p: nat)
    requires WellFormed(c) && p !in c.pages && p <= MAX_KEY && forall n :: env.allocOk(n)
    ensures AllocAndFill(env, c, p).1
  {
  }

  lemma {:induction false} FillDescends(env: Env, c: Cache, p: nat, i: nat)
    requires WellFormed(c) && Descending(c, p, i) && 1 <= i && p + i <= MAX_KEY
    requires forall n :: env.allocOk(n)
    ensures p + i !in c.pages && Descending(AllocAndFill(env, c, p + i).0, p, i + 1)
  {
    hide AllocAndFill;
    hide MakeRoom;
    hide EvictLru;
    assert p + i !in c.order;
    AllocAndFillKeeps(env, c, p + i);
    FillSucceeds(env, c, p + i);
    MakeRoomOrder(env, c);
  }

  lemma {:induction false} ReadAheadDescends(env: Env, c: Cache, p: nat, i: nat)
    requires WellFormed(c) && Descending(c, p, i) && 1 <= i <= c.readahead + 1
    requires p + c.readahead <= MAX_KEY && forall n :: env.allocOk(n)
    ensures Descending(ReadAhead(env, c, p, i), p, c.readahead + 1)
    ensures WellFormed(ReadAhead(env, c, p, i)) && ReadAhead(env, c, p, i).capacity == c.capacity
    decreases c.readahead + 1 - i
  {
    hide AllocAndFill;
    hide WellFormed;
    if i <= c.readahead {
      assert (p + i) % WORD == p + i;
      FillDescends(env, c, p, i);
      AllocAndFillKeeps(env, c, p + i);
      ReadAheadDescends(env, AllocAndFill(env, c, p + i).0, p, i + 1);
    }
  }

  /** On a fresh cache with memory available, a page `pagecache_get` returns is still
   *  resident if and only if the read-ahead window is smaller than the capacity. */
  lemma {:induction false} FreshGetResident(env: Env, c: Cache, p: nat)
    requires WellFormed(c) && c.order == []
    requires p + c.readahead <= MAX_KEY && forall n :: env.allocOk(n)
    ensures Get(env, c, p).1
    ensures p in Get(env, c, p).0.pages <==> c.readahead < c.capacity
  {
    hide AllocAndFill;
    hide ReadAhead;
    hide MakeRoom;
    assert p !in c.pages;
    AllocAndFillKeeps(env, c, p);
    FillSucceeds(env, c, p);
    MakeRoomOrder(env, c);
    var d := AllocAndFill(env, c, p).0;
    ReadAheadDescends(env, d, p, 1);
    var e := ReadAhead(env, d, p, 1);
    if c.readahead < c.capacity {
      assert e.order[c.readahead] == p;
    } else {
      assert p !in e.order;
    }
  }
}

/** The cache as the kernel runs it: loops over fields updated in place, each method
 *  tied to the operation above that it implements. */
module PageCache {
  import opened Lists
  import opened Options
  import opened PageCacheSpec

  class PageCacheObject {
    const env: Env
    var order: seq<nat>
    var pages: map<nat, Page>
    var disk: map<nat, Block>
    var capacity: nat
    var readahead: nat
    var resident: nat
    var tick: nat

    ghost function State(): Cache
      reads this
    {
      Cache(order, pages, disk, capacity, readahead, tick)
    }

    ghost predicate Valid()
      reads this
    {
      WellFormed(State()) && resident == |order|
    }

    constructor (env: Env, disk: map<nat, Block>, capacity: nat, readahead: nat)
      requires capacity < COUNTER && readahead < COUNTER - 1
      ensures Valid() && State() == Init(disk, capacity, readahead) && this.env == env
    {
      this.env := env;
      this.order, this.pages, this.disk := [], map[], disk;
      this.capacity := if capacity == 0 then DEFAULT_CAPACITY else capacity;
      this.readahead := readahead;
      this.resident, this.tick := 0, 0;
    }

    /** Hand a dirty page to the write callback; its answer is ignored. */
    method StoreBack(p: nat)
      requires p in pages
      modifies `disk, `tick
      ensures State() == WriteBack(env, old(State()), p)
    {
      if pages[p].dirty && env.hasWrite {
        if env.writeOk(tick) {
          disk := disk[p := pages[p].data];
        }
        tick := tick + 1;
      }
    }

    method ReleasePage(p: nat)
      requires Valid() && p in pages
      modifies this
      ensures Valid() && State() == Drop(env, old(State()), p)
    {
      DropKeeps(env, State(), p);
      order := Without(order, p);
      StoreBack(p);
      pages := pages - {p};
      resident := resident - 1;
    }

    method EvictOne()
      requires Valid()
      modifies this
      ensures Valid() && State() == EvictLru(env, old(State()))
    {
      if order != [] {
        assert order[|order| - 1] in order;
        ReleasePage(order[|order| - 1]);
      }
    }

    method MakeSpace()
      requires Valid()
      modifies this
      ensures Valid() && State() == MakeRoom(env, old(State()))
    {
      hide WellFormed;
      hide EvictLru;
      while resident >= capacity
        invariant Valid()
        invariant MakeRoom(env, State()) == MakeRoom(env, old(State()))
        decreases resident
      {
        Nonempty(State());
        EvictLruKeeps(env, State());
        EvictOne();
      }
    }

    method Populate(p: nat) returns (ok: bool)
      requires Valid() && p !in pages
      modifies this
      ensures Valid() && (State(), ok) == AllocAndFill(env, old(State()), p)
    {
      hide MakeRoom;
      hide WellFormed;
      AllocAndFillKeeps(env, State(), p);
      MakeSpace();
      if !env.allocOk(tick) {
        tick := tick + 1;
        return false;
      }
      if !env.allocOk(tick + 1) {
        tick := tick + 2;
        return false;
      }
      var data := Zeros(PAGE_SIZE);
      if env.hasRead && env.readOk(tick + 2) {
        data := OnDisk(disk, p);
      }
      tick := tick + 4;
      if p > MAX_KEY || !env.allocOk(tick - 1) {
        return false;
      }
      pages := pages[p := Page(data, false)];
      order := [p] + order;
      resident := resident + 1;
      return true;
    }

    /** Move a resident page to the most recently used end. */
    method Touch(p: nat)
      requires Valid() && p in pages
      modifies this
      ensures Valid() && State() == old(State()).(order := [p] + Without(old(order), p))
    {
      GetKeeps(env, State(), p);
      WithoutFacts(order, p);
      order := [p] + Without(order, p);
    }

    /** `pagecache_get`; `None` is the NULL result. */
    method GetPage(p: nat) returns (r: Option<nat>)
      requires Valid()
      modifies this
      ensures Valid() && (State(), r.Some?) == Get(env, old(State()), p)
      ensures r.Some? ==> r.value == p
      ensures r.Some? && readahead < capacity ==> p in pages
    {
      hide AllocAndFill;
      hide WellFormed;
      GetKeeps(env, State(), p);
      if p in pages {
        Touch(p);
        return Some(p);
      }
      AllocAndFillKeeps(env, State(), p);
      var ok := Populate(p);
      var i := 1;
      while i <= readahead
        invariant Valid() && 1 <= i <= readahead + 1
        invariant readahead == old(readahead)
        invariant ReadAhead(env, State(), p, i) == Get(env, old(State()), p).0
        decreases readahead + 1 - i
      {
        var next := (p + i) % WORD;
        if next !in pages {
          AllocAndFillKeeps(env, State(), next);
          var prefetched := Populate(next);
        }
        i := i + 1;
      }
      r := if ok then Some(p) else None;
    }

    method ReadAt(off: nat, len: nat) returns (ok: bool, out: seq<Byte>)
      requires Valid() && readahead < capacity
      modifies this
      ensures Valid() && (State(), ok, out) == Read(env, old(State()), off, len)
    {
      hide Get;
      hide WellFormed;
      out := [];
      var offset: nat, rest: nat := off, len;
      assert forall tail: seq<Byte> :: [] + tail == tail;
      while rest > 0
        invariant Valid() && readahead < capacity && offset + rest == off + len
        invariant var (d, k, tail) := Read(env, State(), offset, rest);
                  Read(env, old(State()), off, len) == (d, k, out + tail)
        decreases rest
      {
        var p := offset / PAGE_SIZE;
        var at := offset % PAGE_SIZE;
        var n := Chunk(offset, rest);
        GetKeeps(env, State(), p);
        ghost var tail := Read(env, State(), offset, rest).2;
        var page := GetPage(p);
        if page.None? {
          assert tail == [] && out + [] == out;
          return false, out;
        }
        var bytes := pages[p].data[at..at + n];
        ghost var tail' := Read(env, State(), offset + n, rest - n).2;
        assert out + tail == (out + bytes) + tail';
        out := out + bytes;
        offset, rest := offset + n, rest - n;
      }
      assert out + [] == out;
      ok := true;
    }

    method StorePage(p: nat, at: nat, bytes: seq<Byte>)
      requires Valid() && p in pages && at + |bytes| <= PAGE_SIZE
      modifies this
      ensures Valid() && State() == Store(old(State()), p, at, bytes)
    {
      var data := pages[p].data;
      pages := pages[p := Page(data[..at] + bytes + data[at + |bytes|..], true)];
    }

    method WriteAt(off: nat, buf: seq<Byte>) returns (ok: bool, ghost taken: nat)
      requires Valid() && readahead < capacity
      modifies this
      ensures Valid() && (State(), ok, taken) == Write(env, old(State()), off, buf)
    {
      hide Get;
      hide Store;
      hide WellFormed;
      var offset: nat, rest := off, buf;
      taken := 0;
      while rest != []
        invariant Valid() && readahead < capacity
        invariant var (d, k, more) := Write(env, State(), offset, rest);
                  Write(env, old(State()), off, buf) == (d, k, taken + more)
        decreases |rest|
      {
        var p := offset / PAGE_SIZE;
        var at := offset % PAGE_SIZE;
        var n := Chunk(offset, |rest|);
        GetKeeps(env, State(), p);
        var page := GetPage(p);
        if page.None? {
          return false, taken;
        }
        StorePage(p, at, rest[..n]);
        offset, rest := offset + n, rest[n..];
        taken := taken + n;
      }
      ok := true;
    }

    method SetDirty(p: nat)
      requires Valid()
      modifies this
      ensures Valid() && State() == MarkDirty(old(State()), p)
    {
      if p in pages {
        pages := pages[p := pages[p].(dirty := true)];
      }
    }

    method WriteBackOne(p: nat, count: nat) returns (n: nat)
      requires Valid() && p in order
      modifies this
      ensures Valid() && order == old(order)
      ensures (State(), n) == SyncPage(env, old(State()), count, p)
    {
      n := count;
      if pages[p].dirty && env.hasWrite {
        StoreBack(p);
        pages := pages[p := pages[p].(dirty := false)];
        n := n + 1;
      }
    }

    method WriteBackAll() returns (n: nat)
      requires Valid()
      modifies this
      ensures Valid() && (State(), n) == Sync(env, old(State()))
    {
      hide SyncPage;
      n := 0;
      var k := 0;
      while k < |order|
        invariant Valid() && 0 <= k <= |order| && order == old(order)
        invariant (State(), n) == SyncUpTo(env, old(State()), k)
      {
        n := WriteBackOne(order[k], n);
        k := k + 1;
      }
    }

    method EvictPage(p: nat)
      requires Valid()
      modifies this
      ensures Valid() && State() == Evict(env, old(State()), p)
    {
      if p in pages {
        ReleasePage(p);
      }
    }
  }

  lemma {:induction false} Nonempty(c: Cache)
    requires WellFormed(c)
    ensures c.capacity > 0
  {
  }
}
