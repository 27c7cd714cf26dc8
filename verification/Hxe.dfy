/** HXE1 executables: the writer (tools/mkhxe.py) and the kernel loader
 *  (kernel/user/user_loader.c with the mapping and copying of user_address_space.c).
 *
 *  An address space is the permission of each mapped page and the value of each mapped
 *  byte; `frames` is how many page frames the page allocator can still give.
 */
module HxeSpec {
  import opened Options

  const WORD: nat := 0x1_0000_0000_0000_0000
  const PAGE: nat := 4096
  const MAGIC: nat := 0x31455848
  const VERSION: nat := 1
  const HDR: nat := 32
  const REC: nat := 40
  const BASE: nat := 0x40_0000
  const TOP: nat := 0x8000_0000_0000

  type Byte = x: int | 0 <= x < 256

  // ---- Little-endian words --------------------------------------------------------

  function Pow256(k: nat): (n: nat)
    ensures n > 0
  {
    if k == 0 then 1 else 256 * Pow256(k - 1)
  }

  function Le(n: nat, k: nat): (s: seq<Byte>)
    ensures |s| == k
    decreases k
  {
    if k == 0 then [] else [n % 256] + Le(n / 256, k - 1)
  }

  function UnLe(s: seq<Byte>): (n: nat) {
    if s == [] then 0 else s[0] + 256 * UnLe(s[1..])
  }

  lemma {:induction false} LeRoundTrip(n: nat, k: nat)
    requires n < Pow256(k)
    ensures UnLe(Le(n, k)) == n
    decreases k
  {
    if k > 0 {
      assert Le(n, k)[1..] == Le(n / 256, k - 1);
      LeRoundTrip(n / 256, k - 1);
    }
  }

  lemma {:induction false} WordFits(n: nat)
    ensures n < WORD <==> n < Pow256(8)
  {
    assert Pow256(1) == 256 && Pow256(2) == 0x1_0000 && Pow256(3) == 0x100_0000 && Pow256(4) == 0x1_0000_0000;
    assert Pow256(5) == 0x100_0000_0000 && Pow256(6) == 0x1_0000_0000_0000;
    assert Pow256(7) == 0x100_0000_0000_0000;
  }

  /** A table of 64-bit words. */
  function Words(ws: seq<nat>): (s: seq<Byte>)
    ensures |s| == 8 * |ws|
  {
    if ws == [] then [] else Le(ws[0], 8) + Words(ws[1..])
  }

  /** The word at a byte offset of an image, zero past its end. */
  function WordAt(img: seq<Byte>, o: nat): (n: nat) {
    if o + 8 <= |img| then UnLe(img[o..o + 8]) else 0
  }

  lemma {:induction false} WordsAt(ws: seq<nat>, rest: seq<Byte>, i: nat)
    requires i < |ws| && forall j :: 0 <= j < |ws| ==> ws[j] < WORD
    ensures WordAt(Words(ws) + rest, 8 * i) == ws[i]
    decreases i
  {
    hide UnLe;
    hide Le;
    var tail := ws[1..];
    var t := Words(tail) + rest;
    assert Words(ws) + rest == Le(ws[0], 8) + t;
    if i == 0 {
      assert (Le(ws[0], 8) + t)[0..8] == Le(ws[0], 8);
      WordFits(ws[0]);
      LeRoundTrip(ws[0], 8);
    } else {
      assert forall j :: 0 <= j < |tail| ==> tail[j] == ws[j + 1];
      WordsAt(tail, rest, i - 1);
      WordShift(Le(ws[0], 8), t, 8 * (i - 1));
    }
  }

  lemma {:induction false} WordShift(a: seq<Byte>, b: seq<Byte>, o: nat)
    ensures WordAt(a + b, |a| + o) == WordAt(b, o)
  {
    hide UnLe;
    if o + 8 <= |b| {
      assert (a + b)[|a| + o..|a| + o + 8] == b[o..o + 8];
    }
  }

  // ---- The writer -----------------------------------------------------------------

  /** A PT_LOAD program header. */
  datatype Seg = Seg(vaddr: nat, memsz: nat, filesz: nat, offset: nat, flags: nat)

  function PageDown(x: nat): nat { x / PAGE * PAGE }

  function PageUp(x: nat): nat { (x + PAGE - 1) / PAGE * PAGE }

  /** R, W and X move from bits 2, 1 and 0 to bits 0, 1 and 2. */
  function HxeFlags(pf: nat): (f: nat) {
    pf / 4 % 2 + 2 * (pf / 2 % 2) + 4 * (pf % 2)
  }

  predicate SegOk(s: Seg) {
    s.filesz <= s.memsz && s.vaddr >= BASE && s.vaddr + s.memsz <= TOP
  }

  /** Neighbours do not share a page. */
  predicate Adjacent(segs: seq<Seg>) {
    forall i :: 1 <= i < |segs| ==> PageUp(segs[i - 1].vaddr + segs[i - 1].memsz) <= PageDown(segs[i].vaddr)
  }

  predicate Enters(s: Seg, entry: nat) {
    s.flags % 2 == 1 && s.vaddr <= entry < s.vaddr + s.memsz
  }

  /** What mkhxe checks of the sorted segments before writing. */
  predicate Validated(segs: seq<Seg>, entry: nat) {
    && (forall i :: 0 <= i < |segs| ==> SegOk(segs[i]))
    && Adjacent(segs)
    && exists i :: 0 <= i < |segs| && Enters(segs[i], entry)
  }

  /** A Python slice: bounds past the end are cut. */
  function Slice(data: seq<Byte>, a: nat, b: nat): (s: seq<Byte>) {
    var lo := if a < |data| then a else |data|;
    var hi := if b < |data| then b else |data|;
    if lo <= hi then data[lo..hi] else []
  }

  function Record(s: Seg, cursor: nat): (ws: seq<nat>) {
    [s.vaddr, s.memsz, s.filesz, if s.filesz > 0 then cursor else 0, HxeFlags(s.flags)]
  }

  function Records(segs: seq<Seg>, cursor: nat): (ws: seq<nat>)
    ensures |ws| == 5 * |segs|
  {
    if segs == [] then [] else Record(segs[0], cursor) + Records(segs[1..], cursor + segs[0].filesz)
  }

  function Blobs(segs: seq<Seg>, data: seq<Byte>): (s: seq<Byte>) {
    if segs == [] then []
    else Slice(data, segs[0].offset, segs[0].offset + segs[0].filesz) + Blobs(segs[1..], data)
  }

  function Header(n: nat, entry: nat): (ws: seq<nat>)
    ensures |ws| == 4
  {
    [MAGIC + VERSION * 0x1_0000_0000, entry, n, HDR]
  }

  function Build(segs: seq<Seg>, entry: nat, data: seq<Byte>): (img: seq<Byte>) {
    Words(Header(|segs|, entry) + Records(segs, HDR + REC * |segs|)) + Blobs(segs, data)
  }

  /** The writer, on segments already sorted; `None` is its exit with an error. */
  function Mkhxe(segs: seq<Seg>, entry: nat, data: seq<Byte>): (r: Option<seq<Byte>>) {
    if Validated(segs, entry) then Some(Build(segs, entry, data)) else None
  }

  // ---- The loader -----------------------------------------------------------------

  datatype Rec = Rec(vaddr: nat, memsz: nat, filesz: nat, foff: nat, flags: nat)

  function RecAt(img: seq<Byte>, o: nat): (r: Rec) {
    Rec(WordAt(img, o), WordAt(img, o + 8), WordAt(img, o + 16), WordAt(img, o + 24), WordAt(img, o + 32))
  }

  function Table(img: seq<Byte>, o: nat, n: nat): (rs: seq<Rec>)
    ensures |rs| == n
  {
    if n == 0 then [] else Table(img, o, n - 1) + [RecAt(img, o + REC * (n - 1))]
  }

  function End(r: Rec): nat { (r.vaddr + r.memsz) % WORD }

  predicate RecOk(r: Rec, size: nat) {
    && r.filesz <= r.memsz
    && r.vaddr < TOP && End(r) <= TOP && End(r) >= r.vaddr && r.vaddr >= BASE
    && (r.filesz != 0 ==> (r.foff + r.filesz) % WORD <= size && (r.foff + r.filesz) % WORD >= r.foff)
  }

  predicate Overlap(r: Rec, q: Rec) {
    PageDown(r.vaddr) < PageUp(End(q)) && PageDown(q.vaddr) < PageUp(End(r))
  }

  predicate Executable(r: Rec, entry: nat) {
    r.flags / 4 % 2 == 1 && r.vaddr <= entry < End(r)
  }

  predicate TableOk(rs: seq<Rec>, size: nat, entry: nat) {
    && (forall i :: 0 <= i < |rs| ==> RecOk(rs[i], size))
    && (forall i, j :: 0 <= j < i < |rs| ==> !Overlap(rs[i], rs[j]))
    && exists i :: 0 <= i < |rs| && Executable(rs[i], entry)
  }

  predicate HeaderOk(img: seq<Byte>) {
    && |img| >= HDR
    && WordAt(img, 0) % 0x1_0000_0000 == MAGIC && WordAt(img, 0) / 0x1_0000_0000 == VERSION
    && WordAt(img, 24) >= HDR && WordAt(img, 16) != 0
    && (WordAt(img, 24) + WordAt(img, 16) * REC % WORD) % WORD <= |img|
  }

  datatype Space = Space(perm: map<nat, bool>, mem: map<nat, Byte>, frames: nat)

  function ZeroPage(p: nat): (m: map<nat, Byte>) {
    map a: nat | p * PAGE <= a < p * PAGE + PAGE && Within(a, p * PAGE, PAGE) :: 0
  }

  predicate Within(a: nat, lo: nat, n: nat) {
    lo <= a < lo + n
  }

  /** Map zeroed pages `p` up to `last`. */
  function MapPages(sp: Space, p: nat, last: nat, writable: bool): (r: (Space, bool))
    decreases last - p
  {
    if p >= last then (sp, true)
    else if sp.frames == 0 then (sp, false)
    else MapPages(Space(sp.perm[p := writable], sp.mem + ZeroPage(p), sp.frames - 1), p + 1, last, writable)
  }

  /** `user_map_range` on a page-aligned address. */
  function MapRange(sp: Space, va: nat, size: nat, writable: bool): (r: (Space, bool)) {
    var end := (va + PageUp(size)) % WORD;
    if end <= va || end > TOP then (sp, false) else MapPages(sp, va / PAGE, end / PAGE, writable)
  }

  predicate AllMapped(sp: Space, va: nat, n: nat) {
    forall a: nat :: va <= a < va + n && Within(a, va, n) ==> a / PAGE in sp.perm
  }

  /** `user_copy_to_space`; `None` when it meets an unmapped page. */
  function Copy(sp: Space, va: nat, bytes: seq<Byte>): (r: Option<Space>) {
    if AllMapped(sp, va, |bytes|) then Some(sp.(mem := sp.mem + Chunk(va, bytes, 0, |bytes|))) else None
  }

  /** `n` of the bytes to be placed at `va`, from position `from` on. */
  function Chunk(va: nat, bytes: seq<Byte>, from: nat, n: nat): (m: map<nat, Byte>)
    requires from + n <= |bytes|
  {
    var lo := va + from;
    map a: nat | lo <= a < lo + n && Within(a, lo, n) :: bytes[a - va]
  }

  function FileBytes(img: seq<Byte>, r: Rec): (s: seq<Byte>) {
    Slice(img, r.foff, r.foff + r.filesz)
  }

  function LoadRec(sp: Space, img: seq<Byte>, r: Rec): (t: Option<Space>) {
    var va := PageDown(r.vaddr);
    var upTo := PageUp(End(r));
    if upTo < va then None
    else
      var (m, ok) := MapRange(sp, va, upTo - va, r.flags / 2 % 2 == 1);
      if !ok then None else if r.filesz == 0 then Some(m) else Copy(m, r.vaddr, FileBytes(img, r))
  }

  function LoadAll(sp: Space, img: seq<Byte>, rs: seq<Rec>, k: nat): (t: Option<Space>)
    requires k <= |rs|
  {
    if k == 0 then Some(sp)
    else
      match LoadAll(sp, img, rs, k - 1)
      case None => None
      case Some(m) => LoadRec(m, img, rs[k - 1])
  }

  /** `user_loader_load`: the populated space and the entry point. */
  function Load(sp: Space, img: seq<Byte>): (r: Option<(Space, nat)>) {
    if !HeaderOk(img) then None
    else
      var rs := Table(img, WordAt(img, 24), WordAt(img, 16));
      var entry := WordAt(img, 8);
      if !TableOk(rs, |img|, entry) then None
      else
        match LoadAll(sp, img, rs, |rs|)
        case None => None
        case Some(t) => Some((t, entry))
  }

  /** Readable, writable and executable are the same before and after, and nothing else is set. */
  lemma {:induction false} FlagsKept(pf: nat)
    ensures var f := HxeFlags(pf);
      && f < 8
      && (f % 2 == 1 <==> pf / 4 % 2 == 1) && (f / 2 % 2 == 1 <==> pf / 2 % 2 == 1)
      && (f / 4 % 2 == 1 <==> pf % 2 == 1)
  {
    var r, w, x := pf / 4 % 2, pf / 2 % 2, pf % 2;
    assert HxeFlags(pf) == r + 2 * w + 4 * x;
  }

  /** The header check passes exactly for images of at least 32 bytes that begin with the characters
   *  "HXE1" and the version 1, give a header size of at least 32 and some segments, and whose
   *  table, in 64-bit arithmetic, ends inside the image. */
  lemma {:induction false} HeaderIff(img: seq<Byte>)
    ensures HeaderOk(img) <==>
      && |img| >= 32 && img[..8] == [0x48, 0x58, 0x45, 0x31, 1, 0, 0, 0]
      && WordAt(img, 24) >= 32 && WordAt(img, 16) > 0
      && (WordAt(img, 24) + WordAt(img, 16) * 40 % WORD) % WORD <= |img|
  {
    hide UnLe;
    if |img| >= 32 {
      var b := img[..8];
      assert img[0..8] == b;
      MagicBytes(b);
    }
  }

  lemma {:induction false} MagicBytes(b: seq<Byte>)
    requires |b| == 8
    ensures UnLe(b) % 0x1_0000_0000 == MAGIC && UnLe(b) / 0x1_0000_0000 == VERSION <==>
      b == [0x48, 0x58, 0x45, 0x31, 1, 0, 0, 0]
  {
    hide UnLe;
    UnLeFour(b[4..]);
    UnLeFour(b[..4]);
    UnLeSplit(b);
    assert b == b[..4] + b[4..];
  }

  lemma {:induction false} UnLeFour(s: seq<Byte>)
    requires |s| == 4
    ensures UnLe(s) ==
      s[0] as int + 0x100 * (s[1] as int) + 0x1_0000 * (s[2] as int) + 0x100_0000 * (s[3] as int)
  {
    assert UnLe(s) == s[0] + 256 * UnLe(s[1..]);
    assert UnLe(s[1..]) == s[1] + 256 * UnLe(s[1..][1..]) && s[1..][1..] == s[2..];
    assert UnLe(s[2..]) == s[2] + 256 * UnLe(s[2..][1..]) && s[2..][1..] == s[3..];
    assert UnLe(s[3..]) == s[3] + 256 * UnLe(s[3..][1..]) && s[3..][1..] == [];
  }

  lemma {:induction false} UnLeSplit(b: seq<Byte>)
    requires |b| == 8
    ensures UnLe(b) == UnLe(b[..4]) + 0x1_0000_0000 * UnLe(b[4..])
  {
    UnLeTake(b, 4);
    assert Pow256(4) == 0x1_0000_0000;
  }

  lemma {:induction false} UnLeTake(b: seq<Byte>, k: nat)
    requires k <= |b|
    ensures UnLe(b) == UnLe(b[..k]) + Pow256(k) * UnLe(b[k..])
    decreases k
  {
    if k == 0 {
      assert b[0..] == b && b[..0] == [];
    } else {
      var t := b[1..];
      UnLeTake(t, k - 1);
      assert t[..k - 1] == b[..k][1..] && t[k - 1..] == b[k..];
      assert 256 * (Pow256(k - 1) * UnLe(b[k..])) == Pow256(k) * UnLe(b[k..]);
    }
  }

  // ---- Mapping and copying --------------------------------------------------------

  /** Pages a segment occupies. */
  function FirstPg(r: Rec): nat { r.vaddr / PAGE }

  function LastPg(r: Rec): nat { (r.vaddr + r.memsz + PAGE - 1) / PAGE }

  predicate PageOf(r: Rec, p: nat) {
    FirstPg(r) <= p < LastPg(r)
  }

  function Writable(r: Rec): bool { r.flags / 2 % 2 == 1 }

  lemma {:induction false} MapPagesFacts(sp: Space, p: nat, last: nat, w: bool, q: nat, a: nat)
    requires p <= last
    ensures var (t, ok) := MapPages(sp, p, last, w);
      && (ok <==> sp.frames >= last - p)
      && (ok ==> t.frames == sp.frames - (last - p))
      && (ok && p <= q < last ==> q in t.perm && t.perm[q] == w)
      && (ok && !(p <= q < last) ==> (q in t.perm <==> q in sp.perm) && (q in t.perm ==> t.perm[q] == sp.perm[q]))
      && (ok && p <= a / PAGE < last ==> a in t.mem && t.mem[a] == 0)
      && (ok && !(p <= a / PAGE < last) ==> (a in t.mem <==> a in sp.mem) && (a in t.mem ==> t.mem[a] == sp.mem[a]))
    decreases last - p
  {
    if p < last && sp.frames > 0 {
      var n := Space(sp.perm[p := w], sp.mem + ZeroPage(p), sp.frames - 1);
      MapPagesFacts(n, p + 1, last, w, q, a);
      assert a in ZeroPage(p) <==> a / PAGE == p;
    }
  }

  /** `user_map_range` succeeds exactly when the range, rounded up to pages in 64-bit arithmetic, is
   *  not empty, does not wrap, ends inside user space, and there are frames for it. */
  lemma {:induction false} MapRangeIff(sp: Space, va: nat, size: nat, w: bool)
    requires va % PAGE == 0 && va < WORD && size + PAGE <= WORD
    ensures MapRange(sp, va, size, w).1 <==>
      size > 0 && va + PageUp(size) <= 0x8000_0000_0000 && sp.frames >= PageUp(size) / PAGE
  {
    hide MapPages;
    var end := (va + PageUp(size)) % WORD;
    if va < end <= TOP {
      MapPagesFacts(sp, va / PAGE, end / PAGE, w, 0, 0);
    }
  }

  /** What the loader leaves at address `a` of a segment's pages. */
  function Want(img: seq<Byte>, r: Rec, a: nat): (b: Byte) {
    var bytes := FileBytes(img, r);
    if r.vaddr <= a < r.vaddr + |bytes| then bytes[a - r.vaddr] else 0
  }

  ghost predicate PagesLoaded(t: Space, r: Rec) {
    forall p: nat :: PageOf(r, p) ==> p in t.perm && t.perm[p] == Writable(r)
  }

  ghost predicate BytesLoaded(t: Space, img: seq<Byte>, r: Rec) {
    forall a: nat :: PageOf(r, a / PAGE) ==> a in t.mem && t.mem[a] == Want(img, r, a)
  }

  /** A record the loader has accepted: its end does not wrap. */
  predicate Plain(img: seq<Byte>, r: Rec) {
    && r.vaddr + r.memsz <= TOP && r.filesz <= r.memsz
    && (r.filesz > 0 ==> r.foff + r.filesz <= |img|)
  }

  lemma {:induction false} MapRangeIs(sp: Space, img: seq<Byte>, r: Rec)
    requires Plain(img, r)
    ensures var va := PageDown(r.vaddr);
      var upTo := PageUp(End(r));
      && End(r) == r.vaddr + r.memsz && upTo >= va
      && MapRange(sp, va, upTo - va, Writable(r))
         == (if FirstPg(r) < LastPg(r) then MapPages(sp, FirstPg(r), LastPg(r), Writable(r)) else (sp, false))
  {
    hide MapPages;
    var va := PageDown(r.vaddr);
    var upTo := PageUp(End(r));
    WholePages(FirstPg(r), LastPg(r));
    assert upTo == LastPg(r) * PAGE && va == FirstPg(r) * PAGE;
  }

  lemma {:induction false} WholePages(p: nat, q: nat)
    requires p <= q
    ensures PageUp(q * PAGE - p * PAGE) == q * PAGE - p * PAGE
    ensures q * PAGE / PAGE == q && p * PAGE / PAGE == p
  {
  }

  /** Loading one segment succeeds exactly when it has a page and there are frames for all. */
  lemma {:induction false} LoadRecFacts(sp: Space, img: seq<Byte>, r: Rec)
    requires Plain(img, r)
    ensures LoadRec(sp, img, r).Some? <==> FirstPg(r) < LastPg(r) && sp.frames >= LastPg(r) - FirstPg(r)
    ensures LoadRec(sp, img, r).Some? ==>
      var t := LoadRec(sp, img, r).value;
      && t.frames == sp.frames - (LastPg(r) - FirstPg(r))
      && PagesLoaded(t, r) && BytesLoaded(t, img, r)
  {
    hide MapPages;
    hide MapRange;
    hide PagesLoaded;
    hide BytesLoaded;
    hide Zeroed;
    hide Copy;
    MapRangeIs(sp, img, r);
    if FirstPg(r) < LastPg(r) {
      var (m, ok) := MapPages(sp, FirstPg(r), LastPg(r), Writable(r));
      MapPagesFacts(sp, FirstPg(r), LastPg(r), Writable(r), 0, 0);
      if ok {
        MapPagesAll(sp, r);
        CopyFacts(m, img, r);
      }
    }
  }

  ghost predicate Zeroed(m: Space, r: Rec) {
    forall a: nat :: PageOf(r, a / PAGE) ==> a in m.mem && m.mem[a] == 0
  }

  lemma {:induction false} MapPagesAll(sp: Space, r: Rec)
    requires FirstPg(r) <= LastPg(r) && sp.frames >= LastPg(r) - FirstPg(r)
    ensures var m := MapPages(sp, FirstPg(r), LastPg(r), Writable(r)).0;
      PagesLoaded(m, r) && Zeroed(m, r)
  {
    hide MapPages;
    var m := MapPages(sp, FirstPg(r), LastPg(r), Writable(r)).0;
    forall q: nat | PageOf(r, q) ensures q in m.perm && m.perm[q] == Writable(r) {
      MapPagesFacts(sp, FirstPg(r), LastPg(r), Writable(r), q, 0);
    }
    forall a: nat | PageOf(r, a / PAGE) ensures a in m.mem && m.mem[a] == 0 {
      MapPagesFacts(sp, FirstPg(r), LastPg(r), Writable(r), 0, a);
    }
  }

  lemma {:induction false} CopyFacts(m: Space, img: seq<Byte>, r: Rec)
    requires Plain(img, r) && PagesLoaded(m, r) && Zeroed(m, r)
    ensures r.filesz == 0 ==> BytesLoaded(m, img, r)
    ensures r.filesz > 0 ==> Copy(m, r.vaddr, FileBytes(img, r)).Some?
    ensures r.filesz > 0 ==> var t := Copy(m, r.vaddr, FileBytes(img, r)).value;
      t.frames == m.frames && t.perm == m.perm && PagesLoaded(t, r) && BytesLoaded(t, img, r)
  {
    if r.filesz > 0 {
      var bytes := FileBytes(img, r);
      assert |bytes| == r.filesz;
      forall a: nat | r.vaddr <= a < r.vaddr + |bytes| ensures a / PAGE in m.perm {
        assert PageOf(r, a / PAGE);
      }
    }
  }

  // ---- Loading all segments -------------------------------------------------------

  /** Loading a segment leaves the pages of the others alone. */
  lemma {:induction false} LoadRecKeeps(m: Space, img: seq<Byte>, r: Rec, q: Rec)
    requires Plain(img, r) && LoadRec(m, img, r).Some? && (LastPg(q) <= FirstPg(r) || LastPg(r) <= FirstPg(q))
    requires PagesLoaded(m, q) && BytesLoaded(m, img, q)
    ensures var t := LoadRec(m, img, r).value; PagesLoaded(t, q) && BytesLoaded(t, img, q)
  {
    hide Want;
    forall p: nat | PageOf(q, p)
      ensures p in LoadRec(m, img, r).value.perm && LoadRec(m, img, r).value.perm[p] == Writable(q)
    {
      LoadRecElse(m, img, r, p, p * PAGE);
    }
    forall a: nat | PageOf(q, a / PAGE)
      ensures a in LoadRec(m, img, r).value.mem && LoadRec(m, img, r).value.mem[a] == Want(img, q, a)
    {
      LoadRecElse(m, img, r, a / PAGE, a);
    }
  }

  /** Outside its pages a load changes nothing. */
  lemma {:induction false} LoadRecElse(m: Space, img: seq<Byte>, r: Rec, p: nat, a: nat)
    requires Plain(img, r) && LoadRec(m, img, r).Some? && !PageOf(r, p) && a / PAGE == p
    ensures var t := LoadRec(m, img, r).value;
      && (p in t.perm <==> p in m.perm) && (p in t.perm ==> t.perm[p] == m.perm[p])
      && (a in t.mem <==> a in m.mem) && (a in t.mem ==> t.mem[a] == m.mem[a])
  {
    hide MapPages;
    hide MapRange;
    MapRangeIs(m, img, r);
    LoadRecFacts(m, img, r);
    MapPagesFacts(m, FirstPg(r), LastPg(r), Writable(r), p, a);
    assert r.vaddr <= a < r.vaddr + r.filesz ==> PageOf(r, p);
  }

  /** No two segments share a page. */
  predicate Disjoint(rs: seq<Rec>) {
    forall i, j :: 0 <= i < |rs| && 0 <= j < |rs| && i != j ==>
      LastPg(rs[i]) <= FirstPg(rs[j]) || LastPg(rs[j]) <= FirstPg(rs[i])
  }

  function PagesNeeded(rs: seq<Rec>, k: nat): (n: nat)
    requires k <= |rs|
  {
    if k == 0 then 0
    else
      var r := rs[k - 1];
      PagesNeeded(rs, k - 1) + if LastPg(r) >= FirstPg(r) then LastPg(r) - FirstPg(r) else 0
  }

  ghost predicate AllPlain(img: seq<Byte>, rs: seq<Rec>) {
    forall i :: 0 <= i < |rs| ==> Plain(img, rs[i])
  }

  predicate NoneEmpty(rs: seq<Rec>, k: nat)
    requires k <= |rs|
  {
    forall i :: 0 <= i < k ==> FirstPg(rs[i]) < LastPg(rs[i])
  }

  /** The first `k` segments load exactly when none of them is without a page and there are
   *  frames for all their pages. */
  lemma {:induction false} LoadAllIff(sp: Space, img: seq<Byte>, rs: seq<Rec>, k: nat)
    requires AllPlain(img, rs) && k <= |rs|
    ensures LoadAll(sp, img, rs, k).Some? <==> NoneEmpty(rs, k) && sp.frames >= PagesNeeded(rs, k)
    ensures LoadAll(sp, img, rs, k).Some? ==> LoadAll(sp, img, rs, k).value.frames == sp.frames - PagesNeeded(rs, k)
  {
    hide LoadRec;
    hide Plain;
    hide PagesLoaded;
    hide BytesLoaded;
    if k > 0 {
      LoadAllIff(sp, img, rs, k - 1);
      if LoadAll(sp, img, rs, k - 1).Some? {
        LoadRecFacts(LoadAll(sp, img, rs, k - 1).value, img, rs[k - 1]);
      }
    }
  }

  lemma {:induction false} LoadAllHolds(sp: Space, img: seq<Byte>, rs: seq<Rec>, k: nat, i: nat)
    requires AllPlain(img, rs) && Disjoint(rs) && i < k <= |rs| && LoadAll(sp, img, rs, k).Some?
    ensures var t := LoadAll(sp, img, rs, k).value; PagesLoaded(t, rs[i]) && BytesLoaded(t, img, rs[i])
  {
    hide LoadRec;
    hide Plain;
    hide PagesLoaded;
    hide BytesLoaded;
    var m := LoadAll(sp, img, rs, k - 1).value;
    LoadRecFacts(m, img, rs[k - 1]);
    if i < k - 1 {
      LoadAllHolds(sp, img, rs, k - 1, i);
      LoadRecKeeps(m, img, rs[k - 1], rs[i]);
    }
  }

  /** Pages of no segment keep their permission and their bytes. */
  lemma {:induction false} LoadAllElse(sp: Space, img: seq<Byte>, rs: seq<Rec>, k: nat, p: nat, a: nat)
    requires AllPlain(img, rs) && k <= |rs| && LoadAll(sp, img, rs, k).Some? && a / PAGE == p
    requires forall i :: 0 <= i < k ==> !PageOf(rs[i], p)
    ensures var t := LoadAll(sp, img, rs, k).value;
      && (p in t.perm <==> p in sp.perm) && (p in t.perm ==> t.perm[p] == sp.perm[p])
      && (a in t.mem <==> a in sp.mem) && (a in t.mem ==> t.mem[a] == sp.mem[a])
  {
    hide LoadRec;
    hide Plain;
    hide PageOf;
    if k > 0 {
      LoadRecElse(LoadAll(sp, img, rs, k - 1).value, img, rs[k - 1], p, a);
      LoadAllElse(sp, img, rs, k - 1, p, a);
    }
  }

  // ---- Every image ----------------------------------------------------------------

  lemma {:induction false} WordBound(img: seq<Byte>, o: nat)
    ensures WordAt(img, o) < WORD
  {
    if o + 8 <= |img| {
      UnLeBound(img[o..o + 8]);
      WordFits(UnLe(img[o..o + 8]));
    }
  }

  lemma {:induction false} UnLeBound(s: seq<Byte>)
    ensures UnLe(s) < Pow256(|s|)
  {
    if s != [] {
      UnLeBound(s[1..]);
    }
  }

  /** The size check of the header keeps the whole segment table inside the image exactly when
   *  the sum it compares does not wrap. */
  lemma {:induction false} TableInside(img: seq<Byte>)
    requires HeaderOk(img) && |img| < WORD
    ensures (forall i: nat :: i < WordAt(img, 16) ==> RecordEnd(img, i) <= |img|)
            <==> WordAt(img, 24) + WordAt(img, 16) * REC < WORD
  {
    hide WordAt;
    var off, n := WordAt(img, 24), WordAt(img, 16);
    if off + n * REC < WORD {
      forall i: nat | i < n ensures RecordEnd(img, i) <= |img| {}
    } else {
      assert RecordEnd(img, n - 1) > |img|;
    }
  }

  /** Where record `i` of the table ends. */
  function RecordEnd(img: seq<Byte>, i: nat): (o: nat) {
    WordAt(img, 24) + REC * (i + 1)
  }

  /** With a wrapped sum a table far outside the image passes the check. */
  lemma {:induction false} WrappedTable()
    ensures var img := Words([MAGIC + VERSION * 0x1_0000_0000, BASE, 1, WORD - REC]);
      HeaderOk(img) && RecordEnd(img, 0) == WORD > |img|
  {
    hide Words;
    hide WordAt;
    var ws := [MAGIC + VERSION * 0x1_0000_0000, BASE, 1, WORD - REC];
    assert Words(ws) + [] == Words(ws);
    WordsAt(ws, [], 0);
    WordsAt(ws, [], 1);
    WordsAt(ws, [], 2);
    WordsAt(ws, [], 3);
  }

  /** The fields of a record are 64-bit. */
  predicate Words64(r: Rec) {
    r.vaddr < WORD && r.memsz < WORD && r.filesz < WORD && r.foff < WORD
  }

  lemma {:induction false} AcceptedPlain(img: seq<Byte>, r: Rec)
    requires RecOk(r, |img|) && Words64(r) && |img| < WORD
    ensures Plain(img, r) && BASE <= r.vaddr && End(r) == r.vaddr + r.memsz
    ensures BASE / PAGE <= FirstPg(r) <= LastPg(r) <= TOP / PAGE
  {
  }

  lemma {:induction false} AcceptedDisjoint(img: seq<Byte>, rs: seq<Rec>, entry: nat)
    requires |img| < WORD && TableOk(rs, |img|, entry) && forall i :: 0 <= i < |rs| ==> Words64(rs[i])
    ensures AllPlain(img, rs) && Disjoint(rs)
  {
    hide RecOk;
    hide Words64;
    hide Plain;
    hide Overlap;
    hide LastPg;
    hide FirstPg;
    forall i | 0 <= i < |rs| ensures Plain(img, rs[i]) {
      AcceptedPlain(img, rs[i]);
    }
    forall i, j | 0 <= j < i < |rs| ensures LastPg(rs[i]) <= FirstPg(rs[j]) || LastPg(rs[j]) <= FirstPg(rs[i]) {
      PagesApart(img, rs[i], rs[j]);
    }
  }

  lemma {:induction false} PagesApart(img: seq<Byte>, r: Rec, q: Rec)
    requires RecOk(r, |img|) && RecOk(q, |img|) && Words64(r) && Words64(q) && |img| < WORD && !Overlap(r, q)
    ensures LastPg(r) <= FirstPg(q) || LastPg(q) <= FirstPg(r)
  {
    AcceptedPlain(img, r);
    AcceptedPlain(img, q);
  }

  /** Safety of the loader for every segment table it accepts, wherever that was read from: it
   *  copies only bytes of the image, no two segments share a page, each segment's pages hold
   *  its bytes and zeros, and no page outside the user image range changes. */
  lemma {:induction false} AcceptedSafe(sp: Space, t: Space, img: seq<Byte>, rs: seq<Rec>, entry: nat, i: nat, a: nat)
    requires |img| < WORD && TableOk(rs, |img|, entry) && forall i :: 0 <= i < |rs| ==> Words64(rs[i])
    requires LoadAll(sp, img, rs, |rs|) == Some(t) && i < |rs|
    ensures rs[i].filesz > 0 ==> rs[i].foff + rs[i].filesz <= |img|
    ensures Disjoint(rs) && PagesLoaded(t, rs[i]) && BytesLoaded(t, img, rs[i])
    ensures a < BASE || a >= TOP ==>
      && (a / PAGE in t.perm <==> a / PAGE in sp.perm)
      && (a / PAGE in t.perm ==> t.perm[a / PAGE] == sp.perm[a / PAGE])
      && (a in t.mem <==> a in sp.mem) && (a in t.mem ==> t.mem[a] == sp.mem[a])
  {
    hide LoadAll;
    hide RecOk;
    hide Overlap;
    hide PagesLoaded;
    hide BytesLoaded;
    hide Disjoint;
    AcceptedDisjoint(img, rs, entry);
    LoadAllHolds(sp, img, rs, |rs|, i);
    assert Plain(img, rs[i]);
    if a < BASE || a >= TOP {
      forall j | 0 <= j < |rs| ensures !PageOf(rs[j], a / PAGE) {
        AcceptedPlain(img, rs[j]);
      }
      LoadAllElse(sp, img, rs, |rs|, a / PAGE, a);
    }
  }

  lemma {:induction false} TableWords(img: seq<Byte>, o: nat, n: nat)
    ensures forall i :: 0 <= i < n ==> Words64(Table(img, o, n)[i])
  {
    if n > 0 {
      TableWords(img, o, n - 1);
      var at := o + REC * (n - 1);
      WordBound(img, at);
      WordBound(img, at + 8);
      WordBound(img, at + 16);
      WordBound(img, at + 24);
    }
  }

  /** The same for the loader as a whole, on every image it accepts. */
  lemma {:induction false} LoadSafe(sp: Space, t: Space, img: seq<Byte>, entry: nat, i: nat, a: nat)
    requires |img| < WORD && Load(sp, img) == Some((t, entry)) && i < WordAt(img, 16)
    ensures var rs := Table(img, WordAt(img, 24), WordAt(img, 16));
      && (rs[i].filesz > 0 ==> rs[i].foff + rs[i].filesz <= |img|)
      && Disjoint(rs) && PagesLoaded(t, rs[i]) && BytesLoaded(t, img, rs[i])
      && exists j :: 0 <= j < |rs| && Executable(rs[j], entry)
    ensures img[..8] == [0x48, 0x58, 0x45, 0x31, 1, 0, 0, 0]
    ensures a < BASE || a >= TOP ==>
      && (a / PAGE in t.perm <==> a / PAGE in sp.perm)
      && (a / PAGE in t.perm ==> t.perm[a / PAGE] == sp.perm[a / PAGE])
      && (a in t.mem <==> a in sp.mem) && (a in t.mem ==> t.mem[a] == sp.mem[a])
  {
    hide Table;
    hide WordAt;
    hide HeaderOk;
    hide RecOk;
    hide Overlap;
    hide LoadAll;
    hide Disjoint;
    hide PagesLoaded;
    hide BytesLoaded;
    HeaderIff(img);
    var rs := Table(img, WordAt(img, 24), WordAt(img, 16));
    TableWords(img, WordAt(img, 24), WordAt(img, 16));
    AcceptedSafe(sp, t, img, rs, entry, i, a);
  }

  // ---- What the loader reads in a written image -----------------------------------

  /** File bytes of the first `i` segments. */
  function FileSum(segs: seq<Seg>, i: nat): (n: nat)
    requires i <= |segs|
  {
    if i == 0 then 0 else FileSum(segs, i - 1) + segs[i - 1].filesz
  }

  lemma {:induction false} FileSumTail(segs: seq<Seg>, i: nat)
    requires 0 < i <= |segs|
    ensures FileSum(segs, i) == segs[0].filesz + FileSum(segs[1..], i - 1)
  {
    if i > 1 {
      FileSumTail(segs, i - 1);
      assert segs[1..][i - 2] == segs[i - 1];
    }
  }

  lemma {:induction false} RecordsAt(segs: seq<Seg>, cursor: nat, i: nat, j: nat)
    requires i < |segs| && j < 5
    ensures Records(segs, cursor)[5 * i + j] == Record(segs[i], cursor + FileSum(segs, i))[j]
    decreases i
  {
    if i > 0 {
      RecordsAt(segs[1..], cursor + segs[0].filesz, i - 1, j);
      FileSumTail(segs, i);
      assert segs[1..][i - 1] == segs[i];
      assert Records(segs, cursor)[5 * i + j] == Records(segs[1..], cursor + segs[0].filesz)[5 * (i - 1) + j];
    }
  }

  predicate SegInFile(s: Seg, data: seq<Byte>) {
    s.filesz > 0 ==> s.offset + s.filesz <= |data|
  }

  /** Every segment's bytes lie within the ELF file; mkhxe does not check this. */
  predicate InFile(segs: seq<Seg>, data: seq<Byte>) {
    forall i :: 0 <= i < |segs| ==> SegInFile(segs[i], data)
  }

  lemma {:induction false} SliceLength(s: Seg, data: seq<Byte>)
    ensures |Slice(data, s.offset, s.offset + s.filesz)| <= s.filesz
    ensures |Slice(data, s.offset, s.offset + s.filesz)| == s.filesz <==> SegInFile(s, data)
  {
  }

  lemma {:induction false} InFileTail(segs: seq<Seg>, data: seq<Byte>)
    requires segs != []
    ensures InFile(segs, data) <==> SegInFile(segs[0], data) && InFile(segs[1..], data)
  {
    var tail := segs[1..];
    assert forall k :: 0 <= k < |tail| ==> tail[k] == segs[k + 1];
    if SegInFile(segs[0], data) && InFile(tail, data) {
      forall i | 0 <= i < |segs| ensures SegInFile(segs[i], data) {
        assert i > 0 ==> tail[i - 1] == segs[i];
      }
    }
  }

  /** The blobs are as long as the table says exactly when no slice was cut short. */
  lemma {:induction false} BlobsLength(segs: seq<Seg>, data: seq<Byte>)
    ensures |Blobs(segs, data)| <= FileSum(segs, |segs|)
    ensures |Blobs(segs, data)| == FileSum(segs, |segs|) <==> InFile(segs, data)
  {
    hide Slice;
    hide InFile;
    hide FileSum;
    if segs == [] {
      EmptyFile(data);
    } else {
      BlobsLength(segs[1..], data);
      SliceLength(segs[0], data);
      InFileTail(segs, data);
      FileSumTail(segs, |segs|);
    }
  }

  lemma {:induction false} EmptyFile(data: seq<Byte>)
    ensures FileSum([], 0) == 0 && InFile([], data)
  {
  }

  lemma {:induction false} BlobAt(segs: seq<Seg>, data: seq<Byte>, i: nat)
    requires InFile(segs, data) && i < |segs| && segs[i].filesz > 0
    ensures FileSum(segs, i) + segs[i].filesz <= |Blobs(segs, data)| && segs[i].offset + segs[i].filesz <= |data|
    ensures Blobs(segs, data)[FileSum(segs, i)..FileSum(segs, i) + segs[i].filesz]
         == data[segs[i].offset..segs[i].offset + segs[i].filesz]
    decreases i
  {
    hide Slice;
    var head := Slice(data, segs[0].offset, segs[0].offset + segs[0].filesz);
    var tail := segs[1..];
    var rest := Blobs(tail, data);
    assert SegInFile(segs[0], data);
    SliceLength(segs[0], data);
    if i == 0 {
      SliceIn(data, segs[0].offset, segs[0].filesz);
      assert (head + rest)[0..|head|] == head;
    } else {
      InFileTail(segs, data);
      assert tail[i - 1] == segs[i];
      BlobAt(tail, data, i - 1);
      FileSumTail(segs, i);
      CatSlice(head, rest, FileSum(tail, i - 1), segs[i].filesz);
    }
  }

  /** The last segment with file bytes; the sums after it do not grow. */
  lemma {:induction false} LastWithBytes(segs: seq<Seg>, k: nat) returns (i: nat)
    requires k <= |segs| && FileSum(segs, k) > 0
    ensures i < k && segs[i].filesz > 0 && FileSum(segs, i) + segs[i].filesz == FileSum(segs, k)
  {
    if segs[k - 1].filesz > 0 {
      i := k - 1;
    } else {
      i := LastWithBytes(segs, k - 1);
    }
  }

  lemma {:induction false} SliceIn(data: seq<Byte>, a: nat, n: nat)
    requires a + n <= |data|
    ensures Slice(data, a, a + n) == data[a..a + n]
  {
  }

  lemma {:induction false} CatSlice(head: seq<Byte>, rest: seq<Byte>, lo: nat, n: nat)
    requires lo + n <= |rest|
    ensures (head + rest)[|head| + lo..|head| + lo + n] == rest[lo..lo + n]
  {
  }

  /** The ELF header has a 16-bit segment count. */
  predicate Few(segs: seq<Seg>) {
    0 < |segs| < 0x1_0000
  }

  lemma {:induction false} FileSumBound(segs: seq<Seg>, i: nat)
    requires i <= |segs| && forall k :: 0 <= k < |segs| ==> SegOk(segs[k])
    ensures FileSum(segs, i) <= i * TOP
  {
    if i > 0 {
      FileSumBound(segs, i - 1);
    }
  }

  /** Every word of the table fits 64 bits. */
  lemma {:induction false} TableFits(segs: seq<Seg>, entry: nat, w: nat)
    requires Few(segs) && Validated(segs, entry) && w < 4 + 5 * |segs|
    ensures (Header(|segs|, entry) + Records(segs, HDR + REC * |segs|))[w] < WORD
  {
    hide Records;
    if w >= 4 {
      var i, j := (w - 4) / 5, (w - 4) % 5;
      RecordsAt(segs, HDR + REC * |segs|, i, j);
      FileSumBound(segs, i);
      assert SegOk(segs[i]);
    } else {
      var k :| 0 <= k < |segs| && Enters(segs[k], entry);
      assert SegOk(segs[k]);
    }
  }

  lemma {:induction false} ImageWord(segs: seq<Seg>, entry: nat, data: seq<Byte>, w: nat)
    requires Few(segs) && Validated(segs, entry) && w < 4 + 5 * |segs|
    ensures WordAt(Build(segs, entry, data), 8 * w) == (Header(|segs|, entry) + Records(segs, HDR + REC * |segs|))[w]
  {
    hide Records;
    hide Header;
    hide Validated;
    var ws := Header(|segs|, entry) + Records(segs, HDR + REC * |segs|);
    forall j | 0 <= j < |ws| ensures ws[j] < WORD {
      TableFits(segs, entry, j);
    }
    WordsAt(ws, Blobs(segs, data), w);
  }

  /** The record the loader should find for segment `i`. */
  function Expected(segs: seq<Seg>, i: nat): (r: Rec)
    requires i < |segs|
  {
    var s := segs[i];
    Rec(s.vaddr, s.memsz, s.filesz, if s.filesz > 0 then HDR + REC * |segs| + FileSum(segs, i) else 0,
        HxeFlags(s.flags))
  }

  lemma {:induction false} ImageRec(segs: seq<Seg>, entry: nat, data: seq<Byte>, i: nat)
    requires Few(segs) && Validated(segs, entry) && i < |segs|
    ensures RecAt(Build(segs, entry, data), HDR + REC * i) == Expected(segs, i)
  {
    hide Build;
    hide Records;
    hide WordAt;
    hide Validated;
    var ws := Header(|segs|, entry) + Records(segs, HDR + REC * |segs|);
    forall j | 0 <= j < 5
      ensures WordAt(Build(segs, entry, data), HDR + REC * i + 8 * j)
           == Record(segs[i], HDR + REC * |segs| + FileSum(segs, i))[j]
    {
      ImageWord(segs, entry, data, 4 + 5 * i + j);
      RecordsAt(segs, HDR + REC * |segs|, i, j);
      assert ws[4 + 5 * i + j] == Records(segs, HDR + REC * |segs|)[5 * i + j];
      assert 8 * (4 + 5 * i + j) == HDR + REC * i + 8 * j;
    }
    var img := Build(segs, entry, data);
    var o := HDR + REC * i;
    assert WordAt(img, o + 8 * 0) == WordAt(img, o) && WordAt(img, o + 8 * 1) == WordAt(img, o + 8);
    assert WordAt(img, o + 8 * 2) == WordAt(img, o + 16) && WordAt(img, o + 8 * 3) == WordAt(img, o + 24);
    assert WordAt(img, o + 8 * 4) == WordAt(img, o + 32);
  }

  lemma {:induction false} TableIs(img: seq<Byte>, o: nat, n: nat, i: nat)
    requires i < n
    ensures Table(img, o, n)[i] == RecAt(img, o + REC * i)
  {
    if i < n - 1 {
      TableIs(img, o, n - 1, i);
    }
  }

  ghost function Recs(segs: seq<Seg>, k: nat): (rs: seq<Rec>)
    requires k <= |segs|
    ensures |rs| == k && forall i :: 0 <= i < k ==> rs[i] == Expected(segs, i)
  {
    if k == 0 then [] else Recs(segs, k - 1) + [Expected(segs, k - 1)]
  }

  lemma {:induction false} HeaderReadsBack(segs: seq<Seg>, entry: nat, data: seq<Byte>)
    requires Few(segs) && Validated(segs, entry)
    ensures var img := Build(segs, entry, data);
      HeaderOk(img) && WordAt(img, 8) == entry && WordAt(img, 16) == |segs| && WordAt(img, 24) == HDR
  {
    hide Records;
    hide WordAt;
    hide Validated;
    hide HeaderOk;
    hide Build;
    var ws := Header(|segs|, entry) + Records(segs, HDR + REC * |segs|);
    ImageWord(segs, entry, data, 0);
    ImageWord(segs, entry, data, 1);
    ImageWord(segs, entry, data, 2);
    ImageWord(segs, entry, data, 3);
    assert ws[0] == MAGIC + VERSION * 0x1_0000_0000 && ws[1] == entry && ws[2] == |segs| && ws[3] == HDR;
    ImageSize(segs, entry, data);
    HeaderPasses(Build(segs, entry, data), |segs|);
  }

  lemma {:induction false} HeaderPasses(img: seq<Byte>, n: nat)
    requires 0 < n < 0x1_0000 && |img| >= HDR + REC * n && WordAt(img, 0) == MAGIC + VERSION * 0x1_0000_0000
    requires WordAt(img, 16) == n && WordAt(img, 24) == HDR
    ensures HeaderOk(img)
  {
    hide WordAt;
  }

  /** The loader reads back the header and exactly the records written. */
  lemma {:induction false} ImageReadsBack(segs: seq<Seg>, entry: nat, data: seq<Byte>)
    requires Few(segs) && Validated(segs, entry)
    ensures var img := Build(segs, entry, data);
      && HeaderOk(img) && WordAt(img, 8) == entry && WordAt(img, 16) == |segs| && WordAt(img, 24) == HDR
      && Table(img, HDR, |segs|) == Recs(segs, |segs|)
  {
    hide Build;
    hide HeaderOk;
    hide WordAt;
    hide Validated;
    hide Expected;
    HeaderReadsBack(segs, entry, data);
    var img := Build(segs, entry, data);
    forall i | 0 <= i < |segs| ensures Table(img, HDR, |segs|)[i] == Expected(segs, i) {
      TableIs(img, HDR, |segs|, i);
      ImageRec(segs, entry, data, i);
    }
  }

  // ---- What the writer accepts ----------------------------------------------------

  lemma {:induction false} Chained(segs: seq<Seg>, i: nat, j: nat)
    requires (forall k :: 0 <= k < |segs| ==> SegOk(segs[k])) && Adjacent(segs) && i < j < |segs|
    ensures PageUp(segs[i].vaddr + segs[i].memsz) <= PageDown(segs[j].vaddr)
    decreases j
  {
    assert PageUp(segs[j - 1].vaddr + segs[j - 1].memsz) <= PageDown(segs[j].vaddr);
    if i < j - 1 {
      Chained(segs, i, j - 1);
    }
  }

  /** The pages of one segment end before those of the other begin. */
  predicate Clear(s: Seg, t: Seg) {
    PageUp(s.vaddr + s.memsz) <= PageDown(t.vaddr)
  }

  /** The place a stable sort by address gives a segment: behind those not above it. */
  function Slot(segs: seq<Seg>, x: Seg): (i: nat)
    ensures i <= |segs| && (forall k :: 0 <= k < i ==> segs[k].vaddr <= x.vaddr)
    ensures i < |segs| ==> segs[i].vaddr > x.vaddr
  {
    if segs == [] || segs[0].vaddr > x.vaddr then 0 else 1 + Slot(segs[1..], x)
  }

  function Inserted(segs: seq<Seg>, x: Seg): (r: seq<Seg>) {
    var i := Slot(segs, x);
    segs[..i] + [x] + segs[i..]
  }

  /** The segments in the order in which they are checked and written. */
  function SortSegs(segs: seq<Seg>): (r: seq<Seg>) {
    if segs == [] then [] else Inserted(SortSegs(segs[..|segs| - 1]), segs[|segs| - 1])
  }

  predicate ByAddress(segs: seq<Seg>) {
    forall i, j :: 0 <= i < j < |segs| ==> segs[i].vaddr <= segs[j].vaddr
  }

  lemma {:induction false} InsertedAt(segs: seq<Seg>, x: Seg, k: nat)
    ensures |Inserted(segs, x)| == |segs| + 1
    ensures var i := Slot(segs, x);
      k <= |segs| ==> Inserted(segs, x)[k] == if k < i then segs[k] else if k == i then x else segs[k - 1]
  {
  }

  lemma {:induction false} InsertedFacts(segs: seq<Seg>, x: Seg)
    requires ByAddress(segs)
    ensures ByAddress(Inserted(segs, x))
  {
    hide Inserted;
    hide Slot;
    var r := Inserted(segs, x);
    forall a, b | 0 <= a < b < |r| ensures r[a].vaddr <= r[b].vaddr {
      InsertedAt(segs, x, a);
      InsertedAt(segs, x, b);
    }
  }

  lemma {:induction false} InsertedMembers(segs: seq<Seg>, x: Seg)
    ensures multiset(Inserted(segs, x)) == multiset(segs) + multiset{x}
  {
    var i := Slot(segs, x);
    assert segs == segs[..i] + segs[i..];
  }

  lemma {:induction false} SortFacts(segs: seq<Seg>)
    ensures ByAddress(SortSegs(segs)) && multiset(SortSegs(segs)) == multiset(segs)
  {
    hide Inserted;
    if segs != [] {
      var n := |segs| - 1;
      SortFacts(segs[..n]);
      InsertedFacts(SortSegs(segs[..n]), segs[n]);
      InsertedMembers(SortSegs(segs[..n]), segs[n]);
      assert segs == segs[..n] + [segs[n]];
    }
  }

  lemma {:induction false} SortMembers(segs: seq<Seg>)
    ensures forall s :: s in SortSegs(segs) <==> s in segs
  {
    SortFacts(segs);
    forall s ensures s in SortSegs(segs) <==> s in segs {
      assert s in SortSegs(segs) <==> s in multiset(SortSegs(segs));
      assert s in segs <==> s in multiset(segs);
    }
  }

  /** Every segment is clear of every one that comes after it. */
  predicate AllClear(segs: seq<Seg>) {
    forall i, j :: 0 <= i < j < |segs| ==> Clear(segs[i], segs[j])
  }

  /** The same of segments in any order: of two, the one that starts lower, or was given first,
   *  is clear of the other. */
  predicate ApartAsGiven(segs: seq<Seg>) {
    forall i, j :: 0 <= i < j < |segs| ==> ClearPair(segs[i], segs[j])
  }

  predicate ClearPair(s: Seg, t: Seg) {
    if s.vaddr <= t.vaddr then Clear(s, t) else Clear(t, s)
  }

  lemma {:induction false} InsertedClear(segs: seq<Seg>, x: Seg)
    requires ByAddress(segs)
    ensures AllClear(Inserted(segs, x)) <==> AllClear(segs) && forall s :: s in segs ==> ClearPair(s, x)
  {
    hide Clear;
    hide Inserted;
    hide ClearPair;
    var r := Inserted(segs, x);
    InsertedAt(segs, x, 0);
    if AllClear(r) {
      forall a, b | 0 <= a < b < |segs| ensures Clear(segs[a], segs[b]) {
        FromInserted(segs, x, a, b);
      }
      forall s | s in segs ensures ClearPair(s, x) {
        var k :| 0 <= k < |segs| && segs[k] == s;
        PairFromInserted(segs, x, k);
      }
    }
    if AllClear(segs) && forall s :: s in segs ==> ClearPair(s, x) {
      forall a, b | 0 <= a < b < |r| ensures Clear(r[a], r[b]) {
        InsertedPair(segs, x, a, b);
      }
    }
  }

  lemma {:induction false} FromInserted(segs: seq<Seg>, x: Seg, a: nat, b: nat)
    requires AllClear(Inserted(segs, x)) && a < b < |segs|
    ensures Clear(segs[a], segs[b])
  {
    hide Clear;
    hide Inserted;
    var i := Slot(segs, x);
    var a', b' := if a < i then a else a + 1, if b < i then b else b + 1;
    InsertedAt(segs, x, a');
    InsertedAt(segs, x, b');
    assert Clear(Inserted(segs, x)[a'], Inserted(segs, x)[b']);
  }

  lemma {:induction false} PairFromInserted(segs: seq<Seg>, x: Seg, k: nat)
    requires ByAddress(segs) && AllClear(Inserted(segs, x)) && k < |segs|
    ensures ClearPair(segs[k], x)
  {
    hide Clear;
    hide Inserted;
    var i := Slot(segs, x);
    var k' := if k < i then k else k + 1;
    InsertedAt(segs, x, k');
    InsertedAt(segs, x, i);
    var r := Inserted(segs, x);
    if k < i {
      assert Clear(r[k'], r[i]);
    } else {
      assert Clear(r[i], r[k']);
      assert i < k ==> segs[i].vaddr <= segs[k].vaddr;
    }
  }

  lemma {:induction false} InsertedPair(segs: seq<Seg>, x: Seg, a: nat, b: nat)
    requires ByAddress(segs) && AllClear(segs) && a < b <= |segs| && |Inserted(segs, x)| == |segs| + 1
    requires forall s :: s in segs ==> ClearPair(s, x)
    ensures Clear(Inserted(segs, x)[a], Inserted(segs, x)[b])
  {
    hide Clear;
    hide Inserted;
    var i := Slot(segs, x);
    InsertedAt(segs, x, a);
    InsertedAt(segs, x, b);
    if b == i {
      assert ClearPair(segs[a], x);
    } else if a == i {
      assert ClearPair(segs[b - 1], x);
      assert i < b - 1 ==> segs[i].vaddr <= segs[b - 1].vaddr;
    } else {
      assert Clear(segs[if a < i then a else a - 1], segs[if b < i then b else b - 1]);
    }
  }

  lemma {:induction false} SortClear(segs: seq<Seg>)
    ensures AllClear(SortSegs(segs)) <==> ApartAsGiven(segs)
  {
    hide ClearPair;
    hide Inserted;
    hide ByAddress;
    if segs != [] {
      var n := |segs| - 1;
      var front, x := segs[..n], segs[n];
      SortClear(front);
      SortFacts(front);
      SortMembers(front);
      InsertedClear(SortSegs(front), x);
      assert forall i :: 0 <= i < n ==> front[i] == segs[i] && segs[i] in front;
      assert (forall s :: s in front ==> ClearPair(s, x)) <==> forall i :: 0 <= i < n ==> ClearPair(segs[i], x);
      ApartMore(segs);
    }
  }

  lemma {:induction false} ApartMore(segs: seq<Seg>)
    requires segs != []
    ensures var n := |segs| - 1;
      ApartAsGiven(segs) <==> ApartAsGiven(segs[..n]) && forall i :: 0 <= i < n ==> ClearPair(segs[i], segs[n])
  {
    hide ClearPair;
    var n := |segs| - 1;
    assert forall i :: 0 <= i < n ==> segs[..n][i] == segs[i];
    if ApartAsGiven(segs[..n]) && forall i :: 0 <= i < n ==> ClearPair(segs[i], segs[n]) {
      forall i, j | 0 <= i < j < |segs| ensures ClearPair(segs[i], segs[j]) {
        assert j < n ==> ClearPair(segs[..n][i], segs[..n][j]);
      }
    }
    if ApartAsGiven(segs) {
      forall i, j | 0 <= i < j < n ensures ClearPair(segs[..n][i], segs[..n][j]) {
        assert ClearPair(segs[i], segs[j]);
      }
    }
  }

  lemma {:induction false} ValidatedIff(segs: seq<Seg>, entry: nat)
    ensures Validated(segs, entry) <==>
      && (forall s :: s in segs ==> SegOk(s)) && AllClear(segs) && exists s :: s in segs && Enters(s, entry)
  {
    hide Enters;
    if Validated(segs, entry) {
      hide SegOk;
      forall i, j | 0 <= i < j < |segs| ensures Clear(segs[i], segs[j]) {
        Chained(segs, i, j);
      }
    }
    if AllClear(segs) {
      forall i | 1 <= i < |segs| ensures Clear(segs[i - 1], segs[i]) {}
    }
  }

  /** The writer accepts a list of segments, in whatever order they are given, exactly when each
   *  has no more file bytes than memory and lies between the image base and the top of user
   *  space, of every two the pages of one end before those of the other begin, and the entry
   *  point is inside an executable one. */
  lemma {:induction false} WriterAccepts(segs: seq<Seg>, entry: nat, data: seq<Byte>)
    ensures Mkhxe(SortSegs(segs), entry, data).Some? <==>
      && (forall i :: 0 <= i < |segs| ==>
            segs[i].filesz <= segs[i].memsz && segs[i].vaddr >= 0x40_0000
            && segs[i].vaddr + segs[i].memsz <= 0x8000_0000_0000)
      && ApartAsGiven(segs)
      && exists i :: 0 <= i < |segs| && segs[i].flags % 2 == 1
                     && segs[i].vaddr <= entry < segs[i].vaddr + segs[i].memsz
  {
    hide AllClear;
    hide ApartAsGiven;
    hide SortSegs;
    hide Validated;
    hide Build;
    var r := SortSegs(segs);
    ValidatedIff(r, entry);
    SortMembers(segs);
    SortClear(segs);
    assert (forall s :: s in segs ==> SegOk(s)) <==> forall i :: 0 <= i < |segs| ==> SegOk(segs[i]);
    if exists s :: s in segs && Enters(s, entry) {
      var s :| s in segs && Enters(s, entry);
      var i :| 0 <= i < |segs| && segs[i] == s;
      assert segs[i].flags % 2 == 1;
    }
    if i :| 0 <= i < |segs| && segs[i].flags % 2 == 1 && segs[i].vaddr <= entry < segs[i].vaddr + segs[i].memsz {
      assert segs[i] in segs && Enters(segs[i], entry);
    }
  }

  // ---- Round trip -----------------------------------------------------------------

  /** Checking neighbours of the sorted list is enough for the loader's pairwise check. */
  lemma {:induction false} NeighboursSuffice(segs: seq<Seg>, i: nat, j: nat)
    requires (forall k :: 0 <= k < |segs| ==> SegOk(segs[k])) && Adjacent(segs) && i < j < |segs|
    ensures !Overlap(Expected(segs, j), Expected(segs, i))
    ensures LastPg(Expected(segs, i)) <= FirstPg(Expected(segs, j))
  {
    Chained(segs, i, j);
    assert SegOk(segs[i]) && SegOk(segs[j]);
  }

  lemma {:induction false} ExpectedPlain(segs: seq<Seg>, entry: nat, data: seq<Byte>, i: nat)
    requires Few(segs) && Validated(segs, entry) && InFile(segs, data) && i < |segs|
    ensures Plain(Build(segs, entry, data), Expected(segs, i))
  {
    hide Records;
    hide Blobs;
    SegsOk(segs, entry, i);
    if segs[i].filesz > 0 {
      BlobAt(segs, data, i);
    }
    ImageSize(segs, entry, data);
  }

  /** Without wrap-around the loader's check of a record comes down to its start. */
  lemma {:induction false} PlainRecOk(img: seq<Byte>, r: Rec)
    requires Plain(img, r) && r.vaddr >= BASE && r.foff + r.filesz < WORD
    ensures RecOk(r, |img|) <==> r.vaddr < TOP
  {
  }

  lemma {:induction false} ExpectedOk(segs: seq<Seg>, entry: nat, data: seq<Byte>, i: nat)
    requires Few(segs) && Validated(segs, entry) && InFile(segs, data) && i < |segs|
    ensures RecOk(Expected(segs, i), |Build(segs, entry, data)|) <==> segs[i].vaddr < TOP
  {
    hide Build;
    hide RecOk;
    hide Plain;
    ExpectedPlain(segs, entry, data, i);
    SegsOk(segs, entry, i);
    FileSumBound(segs, i);
    PlainRecOk(Build(segs, entry, data), Expected(segs, i));
  }

  lemma {:induction false} ImageSize(segs: seq<Seg>, entry: nat, data: seq<Byte>)
    ensures |Build(segs, entry, data)| == HDR + REC * |segs| + |Blobs(segs, data)|
  {
  }

  lemma {:induction false} ExpectedEnters(segs: seq<Seg>, i: nat, entry: nat)
    requires i < |segs| && SegOk(segs[i])
    ensures Enters(segs[i], entry) ==> Executable(Expected(segs, i), entry)
    ensures Writable(Expected(segs, i)) <==> segs[i].flags / 2 % 2 == 1
  {
  }

  /** A slice that was cut short makes the last record with file bytes end past the image. */
  lemma {:induction false} CutShort(segs: seq<Seg>, entry: nat, data: seq<Byte>) returns (i: nat)
    requires Few(segs) && Validated(segs, entry) && !InFile(segs, data)
    ensures i < |segs| && !RecOk(Expected(segs, i), |Build(segs, entry, data)|)
  {
    hide Build;
    hide Blobs;
    hide FileSum;
    hide InFile;
    BlobsLength(segs, data);
    ImageSize(segs, entry, data);
    i := LastWithBytes(segs, |segs|);
    FileSumBound(segs, |segs|);
    SegsOk(segs, entry, i);
  }

  /** The loader's checks accept a written image exactly when no slice of the ELF file was cut
   *  short and no segment starts at the very top of user space. */
  lemma {:induction false} WrittenChecks(segs: seq<Seg>, entry: nat, data: seq<Byte>)
    requires Few(segs) && Validated(segs, entry)
    ensures var rs := Recs(segs, |segs|);
      && (InFile(segs, data) ==> AllPlain(Build(segs, entry, data), rs)) && Disjoint(rs)
      && (TableOk(rs, |Build(segs, entry, data)|, entry) <==>
            InFile(segs, data) && forall i :: 0 <= i < |segs| ==> segs[i].vaddr < TOP)
  {
    hide Build;
    hide Expected;
    hide Plain;
    hide RecOk;
    hide Overlap;
    hide Executable;
    hide FirstPg;
    hide LastPg;
    hide Enters;
    hide InFile;
    var rs := Recs(segs, |segs|);
    if InFile(segs, data) {
      forall i | 0 <= i < |segs|
        ensures Plain(Build(segs, entry, data), rs[i])
        ensures RecOk(rs[i], |Build(segs, entry, data)|) <==> segs[i].vaddr < TOP
      {
        ExpectedPlain(segs, entry, data, i);
        ExpectedOk(segs, entry, data, i);
      }
    } else {
      var i := CutShort(segs, entry, data);
      assert !RecOk(rs[i], |Build(segs, entry, data)|);
    }
    forall i, j | 0 <= i < j < |segs| ensures !Overlap(rs[j], rs[i]) && LastPg(rs[i]) <= FirstPg(rs[j]) {
      NeighboursSuffice(segs, i, j);
    }
    var k :| 0 <= k < |segs| && Enters(segs[k], entry);
    ExpectedEnters(segs, k, entry);
    assert Executable(rs[k], entry);
  }

  /** A segment of size zero on a page boundary occupies no page. */
  predicate HasPage(s: Seg) {
    s.memsz > 0 || s.vaddr % PAGE != 0
  }

  lemma {:induction false} HasPageIff(segs: seq<Seg>, i: nat)
    requires i < |segs| && SegOk(segs[i])
    ensures HasPage(segs[i]) <==> FirstPg(Expected(segs, i)) < LastPg(Expected(segs, i))
    ensures HasPage(segs[i]) ==> segs[i].vaddr < TOP
  {
  }

  /** The loader accepts what mkhxe writes exactly when the segments' bytes lie in the ELF file,
   *  every segment has a page and there are frames for all of them; it reports the entry. */
  lemma {:induction false} LoadsIff(sp: Space, segs: seq<Seg>, entry: nat, data: seq<Byte>)
    requires Few(segs) && Validated(segs, entry)
    ensures var r := Load(sp, Build(segs, entry, data));
      && (r.Some? <==>
            && InFile(segs, data)
            && (forall i :: 0 <= i < |segs| ==> HasPage(segs[i]))
            && sp.frames >= PagesNeeded(Recs(segs, |segs|), |segs|))
      && (r.Some? ==> r.value.1 == entry)
      && (r.Some? ==> LoadAll(sp, Build(segs, entry, data), Recs(segs, |segs|), |segs|) == Some(r.value.0))
  {
    hide Build;
    hide HeaderOk;
    hide WordAt;
    hide TableOk;
    hide LoadRec;
    hide Disjoint;
    hide AllPlain;
    hide Table;
    hide Recs;
    hide LoadAll;
    hide PagesNeeded;
    hide HasPage;
    hide InFile;
    var img := Build(segs, entry, data);
    var rs := Recs(segs, |segs|);
    ImageReadsBack(segs, entry, data);
    WrittenChecks(segs, entry, data);
    if InFile(segs, data) {
      LoadAllIff(sp, img, rs, |rs|);
    }
    forall i | 0 <= i < |segs|
      ensures HasPage(segs[i]) <==> FirstPg(rs[i]) < LastPg(rs[i])
      ensures HasPage(segs[i]) ==> segs[i].vaddr < TOP
    {
      assert SegOk(segs[i]);
      HasPageIff(segs, i);
    }
  }

  lemma {:induction false} BlobInImage(segs: seq<Seg>, entry: nat, data: seq<Byte>, lo: nat, n: nat)
    requires lo + n <= |Blobs(segs, data)|
    ensures var at := HDR + REC * |segs| + lo;
      && at + n <= |Build(segs, entry, data)|
      && Build(segs, entry, data)[at..at + n] == Blobs(segs, data)[lo..lo + n]
  {
    hide Records;
    hide Blobs;
    CatSlice(Words(Header(|segs|, entry) + Records(segs, HDR + REC * |segs|)), Blobs(segs, data), lo, n);
  }

  /** The bytes the loader copies for segment `i` are the ELF file's. */
  lemma {:induction false} FileBytesAre(segs: seq<Seg>, entry: nat, data: seq<Byte>, i: nat)
    requires Few(segs) && Validated(segs, entry) && InFile(segs, data) && i < |segs|
    ensures segs[i].filesz <= segs[i].memsz && SegInFile(segs[i], data)
    ensures FileBytes(Build(segs, entry, data), Expected(segs, i))
         == if segs[i].filesz > 0 then data[segs[i].offset..segs[i].offset + segs[i].filesz] else []
  {
    hide Build;
    hide Blobs;
    hide FileSum;
    hide Slice;
    hide Validated;
    var img := Build(segs, entry, data);
    var r := Expected(segs, i);
    var n := segs[i].filesz;
    SegsOk(segs, entry, i);
    ExpectedPlain(segs, entry, data, i);
    if n > 0 {
      BlobAt(segs, data, i);
      BlobInImage(segs, entry, data, FileSum(segs, i), n);
      SliceIn(img, r.foff, n);
    } else {
      SliceIn(img, 0, 0);
    }
  }

  /** Memory after a written image has been loaded: every byte of every segment is its file
   *  byte, or zero past the file bytes. */
  lemma {:induction false} LoadedBytes(sp: Space, t: Space, segs: seq<Seg>, entry: nat, data: seq<Byte>, i: nat, k: nat)
    requires Few(segs) && Validated(segs, entry) && i < |segs| && k < segs[i].memsz
    requires Load(sp, Build(segs, entry, data)) == Some((t, entry))
    ensures segs[i].vaddr + k in t.mem && SegInFile(segs[i], data)
    ensures k < segs[i].filesz ==> t.mem[segs[i].vaddr + k] == data[segs[i].offset + k]
    ensures k >= segs[i].filesz ==> t.mem[segs[i].vaddr + k] == 0
  {
    hide Build;
    hide Load;
    hide LoadAll;
    hide Validated;
    hide AllPlain;
    hide Disjoint;
    hide PagesLoaded;
    hide BytesLoaded;
    hide PagesNeeded;
    hide FileBytes;
    var img := Build(segs, entry, data);
    var rs := Recs(segs, |segs|);
    LoadsIff(sp, segs, entry, data);
    WrittenChecks(segs, entry, data);
    LoadAllHolds(sp, img, rs, |rs|, i);
    FileBytesAre(segs, entry, data, i);
    LoadedByte(t, img, rs[i], k);
  }

  lemma {:induction false} LoadedByte(t: Space, img: seq<Byte>, r: Rec, k: nat)
    requires BytesLoaded(t, img, r) && k < r.memsz
    ensures r.vaddr + k in t.mem
    ensures t.mem[r.vaddr + k] == if k < |FileBytes(img, r)| then FileBytes(img, r)[k] else 0
  {
    hide FileBytes;
    assert PageOf(r, (r.vaddr + k) / PAGE);
  }

  /** The pages the segments touch are mapped, each writable exactly when its segment is;
   *  every other page keeps its permission. */
  lemma {:induction false} LoadedPages(sp: Space, t: Space, segs: seq<Seg>, entry: nat, data: seq<Byte>, p: nat)
    requires Few(segs) && Validated(segs, entry)
    requires Load(sp, Build(segs, entry, data)) == Some((t, entry))
    ensures forall i :: 0 <= i < |segs| && PageOf(Expected(segs, i), p) ==>
      p in t.perm && t.perm[p] == (segs[i].flags / 2 % 2 == 1)
    ensures (forall i :: 0 <= i < |segs| ==> !PageOf(Expected(segs, i), p)) ==>
      (p in t.perm <==> p in sp.perm) && (p in t.perm ==> t.perm[p] == sp.perm[p])
  {
    hide Build;
    hide Load;
    hide LoadAll;
    hide Validated;
    hide PageOf;
    hide Expected;
    hide InFile;
    var img := Build(segs, entry, data);
    var rs := Recs(segs, |segs|);
    LoadsIff(sp, segs, entry, data);
    WrittenChecks(segs, entry, data);
    forall i | 0 <= i < |segs| && PageOf(Expected(segs, i), p)
      ensures p in t.perm && t.perm[p] == (segs[i].flags / 2 % 2 == 1)
    {
      LoadAllHolds(sp, img, rs, |rs|, i);
      SegsOk(segs, entry, i);
      ExpectedEnters(segs, i, entry);
      assert PageOf(rs[i], p);
    }
    if forall i :: 0 <= i < |segs| ==> !PageOf(Expected(segs, i), p) {
      PageStart(p);
      LoadAllElse(sp, img, rs, |rs|, p, p * PAGE);
    }
  }

  lemma {:induction false} PageStart(p: nat)
    ensures p * PAGE / PAGE == p
  {
  }

  lemma {:induction false} SegsOk(segs: seq<Seg>, entry: nat, i: nat)
    requires Validated(segs, entry) && i < |segs|
    ensures SegOk(segs[i])
  {
  }
}

/** The writer's loops and the loader working on an address space in place. */
module Hxe {
  import opened HxeSpec
  import opened Options

  /** mkhxe after parsing and sorting: validate, then lay out table and blobs. */
  method WriteImage(segs: seq<Seg>, entry: nat, data: seq<Byte>) returns (r: Option<seq<Byte>>)
    ensures r == Mkhxe(segs, entry, data)
  {
    var ok := Validate(segs, entry);
    if !ok {
      return None;
    }
    var table, blobs := Layout(segs, data);
    r := Some(Words(Header(|segs|, entry) + table) + blobs);
  }

  method Validate(segs: seq<Seg>, entry: nat) returns (ok: bool)
    ensures ok == Validated(segs, entry)
    ensures ok <==>
      (forall s :: s in segs ==> SegOk(s)) && AllClear(segs) && exists s :: s in segs && Enters(s, entry)
  {
    hide AllClear;
    ValidatedIff(segs, entry);
    for i := 0 to |segs|
      invariant forall k :: 0 <= k < i ==> SegOk(segs[k])
    {
      if segs[i].filesz > segs[i].memsz || segs[i].vaddr < BASE || segs[i].vaddr + segs[i].memsz > TOP {
        assert !SegOk(segs[i]);
        return false;
      }
    }
    var i := 1;
    while i < |segs|
      invariant 1 <= i
      invariant forall k :: 1 <= k < i && k < |segs| ==>
        PageUp(segs[k - 1].vaddr + segs[k - 1].memsz) <= PageDown(segs[k].vaddr)
    {
      if PageUp(segs[i - 1].vaddr + segs[i - 1].memsz) > PageDown(segs[i].vaddr) {
        return false;
      }
      i := i + 1;
    }
    for i := 0 to |segs|
      invariant forall k :: 0 <= k < i ==> !Enters(segs[k], entry)
    {
      if segs[i].flags % 2 == 1 && segs[i].vaddr <= entry < segs[i].vaddr + segs[i].memsz {
        assert Enters(segs[i], entry);
        return true;
      }
    }
    ok := false;
  }

  method Layout(segs: seq<Seg>, data: seq<Byte>) returns (table: seq<nat>, blobs: seq<Byte>)
    ensures table == Records(segs, HDR + REC * |segs|) && blobs == Blobs(segs, data)
  {
    hide Records;
    hide Blobs;
    hide Record;
    hide Slice;
    table, blobs := [], [];
    var cursor: nat := HDR + REC * |segs|;
    assert segs[0..] == segs;
    for i := 0 to |segs|
      invariant table + Records(segs[i..], cursor) == Records(segs, HDR + REC * |segs|)
      invariant blobs + Blobs(segs[i..], data) == Blobs(segs, data)
    {
      var s := segs[i];
      OneSegment(segs[i..], segs[i + 1..], data, cursor);
      table := table + Record(s, cursor);
      blobs := blobs + Slice(data, s.offset, s.offset + s.filesz);
      cursor := cursor + s.filesz;
    }
    NoSegment(data, cursor);
  }

  lemma {:induction false} OneSegment(segs: seq<Seg>, rest: seq<Seg>, data: seq<Byte>, cursor: nat)
    requires segs != [] && rest == segs[1..]
    ensures Records(segs, cursor) == Record(segs[0], cursor) + Records(rest, cursor + segs[0].filesz)
    ensures Blobs(segs, data) == Slice(data, segs[0].offset, segs[0].offset + segs[0].filesz) + Blobs(rest, data)
  {
  }

  lemma {:induction false} NoSegment(data: seq<Byte>, cursor: nat)
    ensures Records([], cursor) == [] && Blobs([], data) == []
  {
  }

  class UserSpace {
    var perm: map<nat, bool>
    var mem: map<nat, Byte>
    var frames: nat

    ghost function Abs(): Space
      reads this
    {
      Space(perm, mem, frames)
    }

    /** The loop of `user_map_range`: one zeroed frame per page. */
    method MapRegion(va: nat, size: nat, writable: bool) returns (ok: bool)
      requires va % PAGE == 0 && va + PageUp(size) < WORD
      modifies this
      ensures (Abs(), ok) == MapRange(old(Abs()), va, size, writable)
    {
      var end := va + PageUp(size);
      if end <= va || end > TOP {
        return false;
      }
      var p, last := va / PAGE, end / PAGE;
      ghost var all := MapPages(Abs(), p, last, writable);
      while p < last
        invariant MapPages(Abs(), p, last, writable) == all
        decreases last - p
      {
        if frames == 0 {
          return false;
        }
        perm := perm[p := writable];
        mem := mem + ZeroPage(p);
        frames := frames - 1;
        p := p + 1;
      }
      ok := true;
    }

    /** The loop of `user_copy_to_space`: up to a page at a time. */
    method CopyIn(va: nat, bytes: seq<Byte>) returns (ok: bool)
      modifies `mem
      ensures ok == Copy(old(Abs()), va, bytes).Some?
      ensures ok ==> Some(Abs()) == Copy(old(Abs()), va, bytes)
    {
      hide Chunk;
      var done := 0;
      NoChunk(mem, va, bytes);
      while done < |bytes|
        invariant 0 <= done <= |bytes| && perm == old(perm) && frames == old(frames)
        invariant AllMapped(Abs(), va, done) && mem == old(mem) + Chunk(va, bytes, 0, done)
      {
        var cur := va + done;
        if cur / PAGE !in perm {
          assert Within(cur, va, |bytes|);
          return false;
        }
        var n := PAGE - cur % PAGE;
        if n > |bytes| - done {
          n := |bytes| - done;
        }
        SamePage(perm, va, done, n);
        NextChunk(old(mem), va, bytes, done, n);
        mem := mem + Chunk(va, bytes, done, n);
        done := done + n;
      }
      assert AllMapped(old(Abs()), va, |bytes|);
      ok := true;
    }

    /** `user_loader_load`: check everything, then map, zero and copy each segment. */
    method LoadImage(img: seq<Byte>) returns (ok: bool, entry: nat)
      modifies this
      ensures ok == Load(old(Abs()), img).Some?
      ensures ok ==> Load(old(Abs()), img) == Some((Abs(), entry))
    {
      hide WordAt;
      hide Table;
      hide TableOk;
      hide LoadRec;
      entry := 0;
      if !HeaderOk(img) {
        return false, 0;
      }
      var rs := Table(img, WordAt(img, 24), WordAt(img, 16));
      entry := WordAt(img, 8);
      ok := CheckTable(rs, |img|, entry);
      if !ok {
        return;
      }
      for i := 0 to |rs|
        invariant LoadAll(old(Abs()), img, rs, i) == Some(Abs())
      {
        ok := LoadSegment(img, rs, i, entry);
        if !ok {
          LoadAllFails(old(Abs()), img, rs, i + 1, |rs|);
          return;
        }
      }
      ok := true;
    }

    method LoadSegment(img: seq<Byte>, rs: seq<Rec>, i: nat, ghost entry: nat) returns (ok: bool)
      requires i < |rs| && TableOk(rs, |img|, entry)
      modifies this
      ensures ok == LoadRec(old(Abs()), img, rs[i]).Some?
      ensures ok ==> LoadRec(old(Abs()), img, rs[i]) == Some(Abs())
    {
      hide MapRange;
      hide Copy;
      var r := rs[i];
      assert RecOk(r, |img|);
      var va := PageDown(r.vaddr);
      var upTo := PageUp(End(r));
      SpanFits(r, |img|);
      ok := MapRegion(va, upTo - va, r.flags / 2 % 2 == 1);
      if ok && r.filesz != 0 {
        ok := CopyIn(r.vaddr, FileBytes(img, r));
      }
    }
  }

  lemma {:induction false} SpanFits(r: Rec, size: nat)
    requires RecOk(r, size)
    ensures PageDown(r.vaddr) % PAGE == 0 && PageUp(End(r)) >= PageDown(r.vaddr)
    ensures PageDown(r.vaddr) + PageUp(PageUp(End(r)) - PageDown(r.vaddr)) < WORD
  {
  }

  /** Once a segment fails to load, so does the image. */
  lemma {:induction false} LoadAllFails(sp: Space, img: seq<Byte>, rs: seq<Rec>, k: nat, n: nat)
    requires k <= n <= |rs| && LoadAll(sp, img, rs, k) == None
    ensures LoadAll(sp, img, rs, n) == None
  {
    if k < n {
      LoadAllFails(sp, img, rs, k, n - 1);
    }
  }

  /** The loader's checks of the segment table, before anything is mapped. */
  method CheckTable(rs: seq<Rec>, size: nat, entry: nat) returns (ok: bool)
    ensures ok == TableOk(rs, size, entry)
  {
    hide RecOk;
    hide Overlap;
    for i := 0 to |rs|
      invariant forall k :: 0 <= k < i ==> RecOk(rs[k], size)
      invariant forall k, j :: 0 <= j < k < i ==> !Overlap(rs[k], rs[j])
    {
      if !RecOk(rs[i], size) {
        return false;
      }
      for j := 0 to i
        invariant forall m :: 0 <= m < j ==> !Overlap(rs[i], rs[m])
      {
        if Overlap(rs[i], rs[j]) {
          return false;
        }
      }
    }
    for i := 0 to |rs|
      invariant forall k :: 0 <= k < i ==> !Executable(rs[k], entry)
    {
      if Executable(rs[i], entry) {
        return true;
      }
    }
    ok := false;
  }

  lemma {:induction false} NoChunk(mem: map<nat, Byte>, va: nat, bytes: seq<Byte>)
    ensures mem + Chunk(va, bytes, 0, 0) == mem
  {
  }

  lemma {:induction false} NextChunk(mem: map<nat, Byte>, va: nat, bytes: seq<Byte>, done: nat, n: nat)
    requires done + n <= |bytes|
    ensures mem + Chunk(va, bytes, 0, done) + Chunk(va, bytes, done, n) == mem + Chunk(va, bytes, 0, done + n)
  {
  }

  /** A chunk that stays within one mapped page extends the mapped part. */
  lemma {:induction false} SamePage(perm: map<nat, bool>, va: nat, done: nat, n: nat)
    requires (va + done) / PAGE in perm && n <= PAGE - (va + done) % PAGE
    requires forall a: nat :: va <= a < va + done && Within(a, va, done) ==> a / PAGE in perm
    ensures forall a: nat :: va <= a < va + (done + n) && Within(a, va, done + n) ==> a / PAGE in perm
  {
    forall a: nat | va <= a < va + (done + n) ensures a / PAGE in perm {
      if a < va + done {
        assert Within(a, va, done);
      } else {
        assert a / PAGE == (va + done) / PAGE;
      }
    }
  }
}
