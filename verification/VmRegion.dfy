/** Ordered region map of an address space (kernel/memory/vmregion.c).
 *
 *  Addresses are 64-bit numbers. The meaning of a region list is what it maps at each
 *  address.
 */
module VmRegionSpec {
  import opened Options

  const PAGE: nat := 4096
  const WORD: nat := 0x1_0000_0000_0000_0000

  datatype Attr = Attr(prot: nat, flags: nat, name: nat)

  datatype Region = Region(start: nat, end: nat, attr: Attr)

  type Regions = seq<Region>

  /** PAGE_ALIGN_UP in 64-bit arithmetic. */
  function AlignUp(x: nat): (r: nat) {
    (x + PAGE - 1) % WORD / PAGE * PAGE
  }

  /** Regions are page-aligned, non-empty and inside [base, limit). */
  predicate Within(rs: Regions, base: nat, limit: nat) {
    forall i :: 0 <= i < |rs| ==>
      && base <= rs[i].start < rs[i].end <= limit
      && rs[i].start % PAGE == 0 && rs[i].end % PAGE == 0
  }

  predicate Ordered(rs: Regions) {
    forall i, j :: 0 <= i < j < |rs| ==> rs[i].end <= rs[j].start
  }

  /** What the list maps at address `a`. */
  function At(rs: Regions, a: nat): (r: Option<Attr>) {
    if rs == [] then None
    else if rs[0].start <= a < rs[0].end then Some(rs[0].attr)
    else At(rs[1..], a)
  }

  /** The region that holds address `a`. */
  function Owner(rs: Regions, a: nat): (r: Option<Region>)
    ensures r.Some? ==> r.value.start <= a < r.value.end && r.value in rs
  {
    if rs == [] then None
    else if rs[0].start <= a < rs[0].end then Some(rs[0])
    else Owner(rs[1..], a)
  }

  function AttrOf(o: Option<Region>): (r: Option<Attr>) {
    match o case None => None case Some(r) => Some(r.attr)
  }

  function Bytes(rs: Regions): (n: int) {
    if rs == [] then 0 else rs[0].end - rs[0].start + Bytes(rs[1..])
  }

  // ---- Operations ---------------------------------------------------------------

  predicate Aligned(start: nat, end: nat) {
    start % PAGE == 0 && end % PAGE == 0 && start < end
  }

  predicate Overlaps(rs: Regions, start: nat, end: nat) {
    exists i :: 0 <= i < |rs| && start < rs[i].end && rs[i].start < end
  }

  /** The place of a new region: before the first that starts later. */
  function Place(rs: Regions, r: Region): (s: Regions) {
    if rs == [] || rs[0].start > r.start then [r] + rs else [rs[0]] + Place(rs[1..], r)
  }

  /** What remains of one region after removing [start, end). A hole needs a new region
   *  for the right part; without memory for it that part is lost. */
  function Cut(r: Region, start: nat, end: nat, memory: bool): (s: Regions) {
    if end <= r.start || start >= r.end then [r]
    else if start <= r.start && end >= r.end then []
    else if start > r.start && end < r.end then
      if memory then [r.(end := start), r.(start := end)] else [r.(end := start)]
    else if start <= r.start then [r.(start := end)]
    else [r.(end := start)]
  }

  function CutAll(rs: Regions, start: nat, end: nat, memory: bool): (s: Regions) {
    if rs == [] then [] else Cut(rs[0], start, end, memory) + CutAll(rs[1..], start, end, memory)
  }

  function Max(a: nat, b: nat): nat { if a > b then a else b }

  function Min(a: nat, b: nat): nat { if a < b then a else b }

  /** Bytes of [start, end) that the list maps. */
  function Covered(rs: Regions, start: nat, end: nat): (n: int) {
    if rs == [] then 0
    else
      var lo, hi := Max(rs[0].start, start), Min(rs[0].end, end);
      (if lo < hi then hi - lo else 0) + Covered(rs[1..], start, end)
  }

  /** The gap search from `cursor`, with the source's 64-bit sums; 0 is "none". */
  function Search(rs: Regions, limit: nat, cursor: nat, size: nat): (r: nat) {
    if rs == [] then if (cursor + size) % WORD <= limit then cursor else 0
    else if rs[0].end <= cursor then Search(rs[1..], limit, cursor, size)
    else if rs[0].start >= (cursor + size) % WORD then cursor
    else Search(rs[1..], limit, rs[0].end, size)
  }

  function FindFree(rs: Regions, base: nat, limit: nat, hint: nat, size: nat): (r: nat) {
    var n := AlignUp(size);
    if n == 0 then 0 else Search(rs, limit, if hint < base then base else AlignUp(hint), n)
  }

  // ---- List facts -------------------------------------------------------------------

  lemma {:induction false} Tail(rs: Regions, base: nat, limit: nat)
    requires Within(rs, base, limit) && Ordered(rs) && rs != []
    ensures Within(rs[1..], base, limit) && Ordered(rs[1..])
    ensures forall i :: 0 <= i < |rs| - 1 ==> rs[0].end <= rs[1..][i].start
  {
    assert forall i :: 0 <= i < |rs| - 1 ==> rs[1..][i] == rs[i + 1];
  }

  /** Mapped means covered by some region. */
  lemma {:induction false} AtIff(rs: Regions, a: nat)
    ensures At(rs, a).Some? <==> exists i :: 0 <= i < |rs| && rs[i].start <= a < rs[i].end
  {
    if rs != [] {
      AtIff(rs[1..], a);
      if At(rs[1..], a).Some? {
        var i :| 0 <= i < |rs| - 1 && rs[1..][i].start <= a < rs[1..][i].end;
        assert rs[i + 1] == rs[1..][i];
      }
      forall i | 0 <= i < |rs| && rs[i].start <= a < rs[i].end ensures At(rs, a).Some? {
        assert i > 0 ==> rs[1..][i - 1] == rs[i];
      }
    }
  }

  lemma {:induction false} AtOwner(rs: Regions, a: nat)
    ensures At(rs, a) == AttrOf(Owner(rs, a))
  {
    if rs != [] {
      AtOwner(rs[1..], a);
    }
  }

  /** Below the first region nothing is mapped. */
  lemma {:induction false} NothingBelow(rs: Regions, a: nat)
    requires StartFrom(rs, a + 1)
    ensures At(rs, a) == None
  {
    AtIff(rs, a);
  }

  lemma {:induction false} OwnerAppend(s: Regions, t: Regions, a: nat)
    ensures Owner(s + t, a) == if Owner(s, a).Some? then Owner(s, a) else Owner(t, a)
  {
    if s == [] {
      assert s + t == t;
    } else {
      assert (s + t)[1..] == s[1..] + t;
      OwnerAppend(s[1..], t, a);
    }
  }

  lemma {:induction false} BytesAppend(s: Regions, t: Regions)
    ensures Bytes(s + t) == Bytes(s) + Bytes(t)
  {
    if s == [] {
      assert s + t == t;
    } else {
      assert (s + t)[1..] == s[1..] + t;
      BytesAppend(s[1..], t);
    }
  }

  ghost function Interval(lo: nat, hi: nat): (s: set<nat>)
    ensures forall a :: a in s <==> lo <= a < hi
    ensures lo <= hi ==> |s| == hi - lo
    decreases hi - lo
  {
    if lo >= hi then {} else {lo} + Interval(lo + 1, hi)
  }

  ghost function Mapped(rs: Regions, lo: nat, hi: nat): (s: set<nat>) {
    set a | a in Interval(lo, hi) && At(rs, a).Some?
  }

  lemma {:induction false} SplitMapped(rs: Regions, base: nat, limit: nat, lo: nat, hi: nat)
    requires Within(rs, base, limit) && Ordered(rs) && rs != []
    ensures var mine := Interval(Max(rs[0].start, lo), Min(rs[0].end, hi));
            Mapped(rs, lo, hi) == mine + Mapped(rs[1..], lo, hi) && mine !! Mapped(rs[1..], lo, hi)
  {
    Tail(rs, base, limit);
    var mine := Interval(Max(rs[0].start, lo), Min(rs[0].end, hi));
    forall a | a in mine ensures At(rs[1..], a) == None {
      assert forall i :: 0 <= i < |rs| - 1 ==> rs[1..][i] == rs[i + 1];
      NothingBelow(rs[1..], a);
    }
  }

  /** The byte count of a range is the number of its mapped addresses. */
  lemma {:induction false} CoveredAreAddresses(rs: Regions, base: nat, limit: nat, lo: nat, hi: nat)
    requires Within(rs, base, limit) && Ordered(rs)
    ensures Covered(rs, lo, hi) == |Mapped(rs, lo, hi)|
  {
    hide At;
    if rs == [] {
      EmptyMaps(lo, hi);
    } else {
      Tail(rs, base, limit);
      CoveredAreAddresses(rs[1..], base, limit, lo, hi);
      SplitMapped(rs, base, limit, lo, hi);
    }
  }

  lemma {:induction false} EmptyMaps(lo: nat, hi: nat)
    ensures Mapped([], lo, hi) == {}
  {
  }

  /** The whole range holds all bytes. */
  lemma {:induction false} CoveredWhole(rs: Regions, base: nat, limit: nat)
    requires Within(rs, base, limit) && Ordered(rs)
    ensures Covered(rs, base, limit) == Bytes(rs)
  {
    if rs != [] {
      Tail(rs, base, limit);
      CoveredWhole(rs[1..], base, limit);
    }
  }

  // ---- Insertion --------------------------------------------------------------------

  lemma {:induction false} PlaceShape(rs: Regions, r: Region)
    ensures Bytes(Place(rs, r)) == Bytes(rs) + (r.end - r.start) && |Place(rs, r)| == |rs| + 1
    ensures forall x :: x in Place(rs, r) <==> x == r || x in rs
  {
    if rs == [] || rs[0].start > r.start {
      assert ([r] + rs)[1..] == rs;
    } else {
      PlaceShape(rs[1..], r);
      assert rs == [rs[0]] + rs[1..];
      assert ([rs[0]] + Place(rs[1..], r))[1..] == Place(rs[1..], r);
    }
  }

  lemma {:induction false} PlaceOrdered(rs: Regions, r: Region, base: nat, limit: nat)
    requires Within(rs, base, limit) && Ordered(rs) && r.start < r.end && !Overlaps(rs, r.start, r.end)
    ensures Ordered(Place(rs, r))
  {
    if rs != [] {
      assert !(r.start < rs[0].end && rs[0].start < r.end);
      Tail(rs, base, limit);
      if rs[0].start > r.start {
        forall i | 0 <= i < |rs| ensures r.end <= rs[i].start {
          assert i > 0 ==> rs[0].end <= rs[i].start;
        }
      } else {
        assert forall i :: 0 <= i < |rs| - 1 ==> rs[1..][i] == rs[i + 1];
        PlaceOrdered(rs[1..], r, base, limit);
        PlaceShape(rs[1..], r);
        var p := Place(rs[1..], r);
        forall i | 0 <= i < |p| ensures rs[0].end <= p[i].start {
          assert p[i] in p;
        }
      }
    }
  }

  lemma {:induction false} PlaceOwner(rs: Regions, r: Region, a: nat)
    requires !Overlaps(rs, r.start, r.end)
    ensures Owner(Place(rs, r), a) == if r.start <= a < r.end then Some(r) else Owner(rs, a)
  {
    if rs == [] || rs[0].start > r.start {
      assert ([r] + rs)[1..] == rs;
    } else {
      assert forall i :: 0 <= i < |rs| - 1 ==> rs[1..][i] == rs[i + 1];
      assert !(r.start < rs[0].end && rs[0].start < r.end);
      PlaceOwner(rs[1..], r, a);
      assert ([rs[0]] + Place(rs[1..], r))[1..] == Place(rs[1..], r);
    }
  }

  lemma {:induction false} PlaceWithin(rs: Regions, r: Region, base: nat, limit: nat)
    requires Within(rs, base, limit) && Within([r], base, limit)
    ensures Within(Place(rs, r), base, limit)
  {
    PlaceShape(rs, r);
    var p := Place(rs, r);
    assert [r][0] == r;
    forall i | 0 <= i < |p|
      ensures base <= p[i].start < p[i].end <= limit && p[i].start % PAGE == 0 && p[i].end % PAGE == 0
    {
      assert p[i] in p;
    }
  }

  // ---- Removal ----------------------------------------------------------------------

  /** The range lies strictly inside one region, so removing it makes a hole. */
  predicate Punches(rs: Regions, start: nat, end: nat) {
    exists i :: 0 <= i < |rs| && rs[i].start < start && end < rs[i].end
  }

  /** Where the pages end that a removal of [start, end) loses if it cannot record the right
   *  part of a hole. */
  function HoleEnd(rs: Regions, start: nat, end: nat): (e: nat)
    ensures end <= e
  {
    if rs == [] then end
    else if rs[0].start < start && end < rs[0].end then rs[0].end
    else HoleEnd(rs[1..], start, end)
  }

  function GoneEnd(rs: Regions, start: nat, end: nat, memory: bool): (e: nat) {
    if memory then end else HoleEnd(rs, start, end)
  }

  lemma {:induction false} HoleEndIs(rs: Regions, base: nat, limit: nat, start: nat, end: nat)
    requires Within(rs, base, limit) && Ordered(rs) && start < end
    ensures HoleEnd(rs, start, end) > end <==> Punches(rs, start, end)
    ensures forall i :: 0 <= i < |rs| && rs[i].start < start && end < rs[i].end ==> HoleEnd(rs, start, end) == rs[i].end
  {
    if rs != [] {
      Tail(rs, base, limit);
      assert forall i :: 0 <= i < |rs| - 1 ==> rs[1..][i] == rs[i + 1];
      HoleEndIs(rs[1..], base, limit, start, end);
      forall i | 0 < i < |rs| && rs[i].start < start && end < rs[i].end
        ensures HoleEnd(rs, start, end) == rs[i].end
      {
        assert rs[0].end <= rs[i].start && rs[1..][i - 1] == rs[i];
      }
      if HoleEnd(rs[1..], start, end) > end {
        var i :| 0 <= i < |rs| - 1 && rs[1..][i].start < start && end < rs[1..][i].end;
        assert rs[i + 1] == rs[1..][i];
      }
    }
  }

  /** What a removal makes of the region `o` that holds `a`: nothing inside the range; its left
   *  part is cut at `start`; its right part begins at `end`, or is lost if a hole needs memory. */
  function CutOwner(o: Option<Region>, a: nat, start: nat, end: nat, memory: bool): (r: Option<Region>) {
    if o == None || start <= a < end then None
    else
      var x := o.value;
      if end <= x.start || x.end <= start then o
      else if a < start then Some(x.(end := start))
      else if memory || start <= x.start then Some(x.(start := end))
      else None
  }

  lemma {:induction false} Single(r: Region, a: nat)
    ensures Owner([r], a) == if r.start <= a < r.end then Some(r) else None
    ensures Bytes([r]) == r.end - r.start
  {
    assert [r][1..] == [];
  }

  lemma {:induction false} CutStarts(r: Region, start: nat, end: nat, memory: bool)
    requires r.start < r.end
    ensures forall x :: x in Cut(r, start, end, memory) ==> r.start <= x.start < x.end <= r.end
  {
  }

  lemma {:induction false} CutSingle(r: Region, start: nat, end: nat, memory: bool, a: nat)
    requires start < end && r.start < r.end
    ensures Owner(Cut(r, start, end, memory), a) ==
            if r.start <= a < r.end then CutOwner(Some(r), a, start, end, memory) else None
  {
    Single(r, a);
    Single(r.(end := start), a);
    Single(r.(start := end), a);
    OwnerAppend([r.(end := start)], [r.(start := end)], a);
    assert [r.(end := start)] + [r.(start := end)] == [r.(end := start), r.(start := end)];
  }

  lemma {:induction false} NobodyBelow(rs: Regions, a: nat)
    requires StartFrom(rs, a + 1)
    ensures Owner(rs, a) == None
  {
    NothingBelow(rs, a);
    AtOwner(rs, a);
  }

  /** Removal, address by address. */
  lemma {:induction false} CutAllOwner(rs: Regions, base: nat, limit: nat, start: nat, end: nat, memory: bool, a: nat)
    requires Within(rs, base, limit) && Ordered(rs) && start < end
    ensures Owner(CutAll(rs, start, end, memory), a) == CutOwner(Owner(rs, a), a, start, end, memory)
  {
    hide Ordered;
    if rs != [] {
      Tail(rs, base, limit);
      var rest := CutAll(rs[1..], start, end, memory);
      CutAllOwner(rs[1..], base, limit, start, end, memory, a);
      CutSingle(rs[0], start, end, memory, a);
      OwnerAppend(Cut(rs[0], start, end, memory), rest, a);
      if rs[0].start <= a < rs[0].end {
        KeepsStarts(rs[1..], start, end, memory, rs[0].end);
        NobodyBelow(rest, a);
      }
    }
  }

  /** A hole without memory loses exactly the pages to the right of it, up to the end of the
   *  region; with memory or without a hole exactly the range goes. */
  lemma {:induction false} CutAllAt(rs: Regions, base: nat, limit: nat, start: nat, end: nat, memory: bool, a: nat)
    requires Within(rs, base, limit) && Ordered(rs) && start < end
    ensures At(CutAll(rs, start, end, memory), a) ==
            if start <= a < GoneEnd(rs, start, end, memory) then None else At(rs, a)
  {
    CutAllOwner(rs, base, limit, start, end, memory, a);
    AtOwner(rs, a);
    AtOwner(CutAll(rs, start, end, memory), a);
    HoleOwner(rs, base, limit, start, end, a);
  }

  /** The lost pages are those of the region the hole is in. */
  lemma {:induction false} HoleOwner(rs: Regions, base: nat, limit: nat, start: nat, end: nat, a: nat)
    requires Within(rs, base, limit) && Ordered(rs) && start < end
    ensures end <= a < HoleEnd(rs, start, end) <==>
            end <= a && Owner(rs, a).Some? && Owner(rs, a).value.start < start
  {
    HoleEndIs(rs, base, limit, start, end);
    if end <= a && Owner(rs, a).Some? && Owner(rs, a).value.start < start {
      var i :| 0 <= i < |rs| && rs[i] == Owner(rs, a).value;
      assert rs[i].start < start && end < rs[i].end;
    }
    if end <= a < HoleEnd(rs, start, end) {
      var i :| 0 <= i < |rs| && rs[i].start < start && end < rs[i].end;
      OwnerIs(rs, base, limit, i, a);
    }
  }

  lemma {:induction false} OwnerIs(rs: Regions, base: nat, limit: nat, i: nat, a: nat)
    requires Within(rs, base, limit) && Ordered(rs) && i < |rs| && rs[i].start <= a < rs[i].end
    ensures Owner(rs, a) == Some(rs[i])
  {
    if i > 0 {
      Tail(rs, base, limit);
      assert rs[0].end <= rs[i].start && rs[1..][i - 1] == rs[i];
      OwnerIs(rs[1..], base, limit, i - 1, a);
    }
  }

  predicate StartFrom(rs: Regions, lo: nat) {
    forall i :: 0 <= i < |rs| ==> lo <= rs[i].start < rs[i].end
  }

  lemma {:induction false} KeepsStarts(rs: Regions, start: nat, end: nat, memory: bool, lo: nat)
    requires StartFrom(rs, lo)
    ensures StartFrom(CutAll(rs, start, end, memory), lo)
  {
    if rs != [] {
      assert forall i :: 0 <= i < |rs| - 1 ==> rs[1..][i] == rs[i + 1];
      KeepsStarts(rs[1..], start, end, memory, lo);
      CutStarts(rs[0], start, end, memory);
      var x: Regions := Cut(rs[0], start, end, memory);
      var y: Regions := CutAll(rs[1..], start, end, memory);
      forall i | 0 <= i < |x + y| ensures lo <= (x + y)[i].start < (x + y)[i].end {
        if i < |x| {
          assert x[i] in x;
        }
      }
    }
  }

  /** `vm_map_remove` removes exactly the pages of the range, and keeps the attributes of
   *  every other page, if and only if it has memory for the hole it may have to punch. */
  lemma {:induction false} RemoveIsSubtraction(rs: Regions, base: nat, limit: nat, start: nat, end: nat, memory: bool)
    requires Within(rs, base, limit) && Ordered(rs) && start < end
    ensures (forall a: nat :: At(CutAll(rs, start, end, memory), a) == if start <= a < end then None else At(rs, a))
            <==> memory || !Punches(rs, start, end)
  {
    hide Punches;
    hide CutAll;
    HoleEndIs(rs, base, limit, start, end);
    forall a: nat
      ensures At(CutAll(rs, start, end, memory), a) ==
              if start <= a < GoneEnd(rs, start, end, memory) then None else At(rs, a)
    {
      CutAllAt(rs, base, limit, start, end, memory, a);
    }
    if !memory && Punches(rs, start, end) {
      HoleOwner(rs, base, limit, start, end, end);
      AtOwner(rs, end);
    }
  }

  /** The list stays ordered, aligned and in range. */
  lemma {:induction false} CutAllOrdered(rs: Regions, base: nat, limit: nat, start: nat, end: nat, memory: bool)
    requires Within(rs, base, limit) && Ordered(rs) && Aligned(start, end)
    ensures Within(CutAll(rs, start, end, memory), base, limit) && Ordered(CutAll(rs, start, end, memory))
  {
    if rs != [] {
      Tail(rs, base, limit);
      CutAllOrdered(rs[1..], base, limit, start, end, memory);
      KeepsStarts(rs[1..], start, end, memory, rs[0].end);
      CutOrdered(rs[0], base, limit, start, end, memory);
      JoinOrdered(Cut(rs[0], start, end, memory), CutAll(rs[1..], start, end, memory), base, limit, rs[0].end);
    }
  }

  lemma {:induction false} CutOrdered(r: Region, base: nat, limit: nat, start: nat, end: nat, memory: bool)
    requires base <= r.start < r.end <= limit && r.start % PAGE == 0 && r.end % PAGE == 0 && Aligned(start, end)
    ensures var c := Cut(r, start, end, memory);
            Within(c, base, limit) && Ordered(c) && (forall i :: 0 <= i < |c| ==> c[i].end <= r.end)
  {
  }

  lemma {:induction false} JoinOrdered(x: Regions, y: Regions, base: nat, limit: nat, mid: nat)
    requires Within(x, base, limit) && Within(y, base, limit) && Ordered(x) && Ordered(y)
    requires forall i :: 0 <= i < |x| ==> x[i].end <= mid
    requires StartFrom(y, mid)
    ensures Within(x + y, base, limit) && Ordered(x + y)
  {
  }

  lemma {:induction false} CutBytes(r: Region, start: nat, end: nat, memory: bool)
    requires r.start < r.end && start < end
    ensures var lo, hi := Max(r.start, start), Min(r.end, end);
            Bytes(Cut(r, start, end, memory)) == (r.end - r.start) - (if lo < hi then hi - lo else 0)
              - (if !memory && r.start < start && end < r.end then r.end - end else 0)
  {
    var left, right := r.(end := start), r.(start := end);
    Single(r, 0);
    Single(left, 0);
    Single(right, 0);
    BytesAppend([left], [right]);
    assert [left] + [right] == [left, right];
  }

  /** The bytes that disappear are those the range covered, plus the lost right part when
   *  a hole could not be recorded. */
  lemma {:induction false} CutAllBytes(rs: Regions, base: nat, limit: nat, start: nat, end: nat, memory: bool)
    requires Within(rs, base, limit) && Ordered(rs) && start < end
    ensures Bytes(CutAll(rs, start, end, memory)) ==
            Bytes(rs) - Covered(rs, start, end) - (GoneEnd(rs, start, end, memory) - end)
  {
    hide Cut;
    if rs != [] {
      Tail(rs, base, limit);
      CutAllBytes(rs[1..], base, limit, start, end, memory);
      CutBytes(rs[0], start, end, memory);
      BytesAppend(Cut(rs[0], start, end, memory), CutAll(rs[1..], start, end, memory));
      if rs[0].start < start && end < rs[0].end {
        assert !Punches(rs[1..], start, end);
        HoleEndIs(rs[1..], base, limit, start, end);
      }
    }
  }

  // ---- Free-gap search --------------------------------------------------------------

  /** `size` unmapped bytes below the limit start at `c`. */
  ghost predicate Fits(rs: Regions, limit: nat, c: nat, size: nat) {
    c + size <= limit && forall a: nat :: c <= a < c + size ==> At(rs, a) == None
  }

  /** `r` is the least fitting address at or above `cursor`, or 0 if there is none. */
  ghost predicate LeastFit(rs: Regions, limit: nat, cursor: nat, size: nat, r: nat) {
    && (forall c: nat :: cursor <= c && (r == 0 || c < r) ==> !Fits(rs, limit, c, size))
    && (r != 0 ==> cursor <= r && Fits(rs, limit, r, size))
  }

  /** A region that ends above the cursor and starts before cursor + size blocks every
   *  address up to its end. */
  lemma {:induction false} Blocked(rs: Regions, limit: nat, i: nat, c: nat, size: nat)
    requires i < |rs| && rs[i].start < rs[i].end && c < rs[i].end && rs[i].start < c + size && size > 0
    ensures !Fits(rs, limit, c, size)
  {
    var a := Max(c, rs[i].start);
    AtIff(rs, a);
    assert c <= a < c + size && At(rs, a) != None;
  }

  lemma {:induction false} FitsSuffix(rs: Regions, limit: nat, c: nat, size: nat)
    requires rs != [] && rs[0].end <= c
    ensures Fits(rs, limit, c, size) <==> Fits(rs[1..], limit, c, size)
  {
    forall a: nat | c <= a < c + size ensures At(rs, a) == At(rs[1..], a) {}
  }

  /** Where the search cursor ends up if no gap stops it. */
  function LastCursor(rs: Regions, cursor: nat): (c: nat)
    ensures cursor <= c
  {
    if rs == [] then cursor else LastCursor(rs[1..], Max(cursor, rs[0].end))
  }

  lemma {:induction false} LastCursorBound(rs: Regions, base: nat, limit: nat, cursor: nat)
    requires Within(rs, base, limit)
    ensures LastCursor(rs, cursor) == cursor || LastCursor(rs, cursor) <= limit
  {
    if rs != [] {
      assert forall i :: 0 <= i < |rs| - 1 ==> rs[1..][i] == rs[i + 1];
      LastCursorBound(rs[1..], base, limit, Max(cursor, rs[0].end));
    }
  }

  /** Skipping a region that lies below the cursor, or jumping past one that is in the
   *  way, changes nothing about the least fit. */
  lemma {:induction false} LeastFitStep(rs: Regions, base: nat, limit: nat, cursor: nat, next: nat, size: nat, r: nat)
    requires Within(rs, base, limit) && rs != [] && size > 0 && cursor <= next
    requires rs[0].end <= next
    requires next == cursor || cursor + size > limit || rs[0].start < cursor + size
    requires next > cursor ==> next == rs[0].end
    ensures LeastFit(rs, limit, cursor, size, r) <==> LeastFit(rs[1..], limit, next, size, r)
    ensures SomeFit(rs, limit, cursor, size) <==> SomeFit(rs[1..], limit, next, size)
  {
    forall c: nat | next <= c ensures Fits(rs, limit, c, size) <==> Fits(rs[1..], limit, c, size) {
      FitsSuffix(rs, limit, c, size);
    }
    forall c: nat | cursor <= c < next ensures !Fits(rs, limit, c, size) {
      if c + size <= limit {
        Blocked(rs, limit, 0, c, size);
      }
    }
  }

  ghost predicate SomeFit(rs: Regions, limit: nat, cursor: nat, size: nat) {
    exists c: nat :: cursor <= c && Fits(rs, limit, c, size)
  }

  /** The last sum that the search forms wraps to something within the limit. */
  ghost predicate Wraps(rs: Regions, limit: nat, cursor: nat, size: nat) {
    var sum := LastCursor(rs, cursor) + size;
    sum >= WORD && sum % WORD <= limit
  }

  /** The search returns the least fitting address at or above the cursor if and only if
   *  one exists or the last sum does not wrap, and the address is not 0, which says "none". */
  lemma {:induction false} SearchExact(rs: Regions, base: nat, limit: nat, cursor: nat, size: nat)
    requires Within(rs, base, limit) && Ordered(rs) && limit < WORD && cursor < WORD && 0 < size < WORD
    ensures LeastFit(rs, limit, cursor, size, Search(rs, limit, cursor, size)) <==>
              && (SomeFit(rs, limit, cursor, size) || !Wraps(rs, limit, cursor, size))
              && !(cursor == 0 && Fits(rs, limit, 0, size))
  {
    hide LeastFit;
    hide SomeFit;
    hide Fits;
    if rs == [] {
      NoRegions(limit, cursor, size);
    } else {
      Tail(rs, base, limit);
      if rs[0].end <= cursor {
        SearchExact(rs[1..], base, limit, cursor, size);
        LeastFitStep(rs, base, limit, cursor, cursor, size, Search(rs, limit, cursor, size));
      } else if rs[0].start >= (cursor + size) % WORD {
        LastCursorBound(rs, base, limit, cursor);
        GapHere(rs, base, limit, cursor, size);
      } else {
        SearchExact(rs[1..], base, limit, rs[0].end, size);
        LeastFitStep(rs, base, limit, cursor, rs[0].end, size, Search(rs, limit, cursor, size));
        if cursor == 0 && size <= limit {
          Blocked(rs, limit, 0, 0, size);
        } else {
          TooLarge(rs, limit, size);
        }
      }
    }
  }

  lemma {:induction false} TooLarge(rs: Regions, limit: nat, size: nat)
    requires size > 0
    ensures Fits(rs, limit, 0, size) ==> size <= limit
  {
  }

  lemma {:induction false} NoRegions(limit: nat, cursor: nat, size: nat)
    requires limit < WORD && cursor < WORD && 0 < size < WORD
    ensures LeastFit([], limit, cursor, size, Search([], limit, cursor, size)) <==>
              && (SomeFit([], limit, cursor, size) || !Wraps([], limit, cursor, size))
              && !(cursor == 0 && Fits([], limit, 0, size))
  {
    assert Fits([], limit, cursor, size) <==> cursor + size <= limit;
  }

  /** The gap below the next region: large enough, unless the sum that says so wrapped. */
  lemma {:induction false} GapHere(rs: Regions, base: nat, limit: nat, cursor: nat, size: nat)
    requires Within(rs, base, limit) && Ordered(rs) && rs != [] && limit < WORD && cursor < WORD && 0 < size < WORD
    requires rs[0].end > cursor && rs[0].start >= (cursor + size) % WORD
    ensures LeastFit(rs, limit, cursor, size, cursor) <==> 0 < cursor && cursor + size < WORD
    ensures SomeFit(rs, limit, cursor, size) <==> cursor + size < WORD
    ensures cursor == 0 ==> Fits(rs, limit, 0, size)
    ensures LastCursor(rs, cursor) > cursor
  {
    if cursor + size < WORD {
      forall a: nat | cursor <= a < cursor + size ensures At(rs, a) == None {
        forall i | 0 <= i < |rs| ensures a + 1 <= rs[i].start < rs[i].end {
          assert i > 0 ==> rs[0].end <= rs[i].start;
        }
        NothingBelow(rs, a);
      }
      assert Fits(rs, limit, cursor, size);
    }
  }

  /** Rounding up to a page without a word size. */
  function RoundUp(x: nat): (r: nat)
    ensures x <= r < x + PAGE && r % PAGE == 0
  {
    (x + PAGE - 1) / PAGE * PAGE
  }

  /** When the search for `size` bytes from `from` answers right, both rounded up without a
   *  word size. A start rounded past the last word makes the code search from 0 instead. */
  ghost predicate Answers(rs: Regions, limit: nat, from: nat, size: nat) {
    if size == 0 || size >= WORD then true
    else if from < WORD then
      && (SomeFit(rs, limit, from, size) || !Wraps(rs, limit, from, size))
      && !(from == 0 && Fits(rs, limit, 0, size))
    else Fits(rs, limit, 0, size) || (!SomeFit(rs, limit, 0, size) && !Wraps(rs, limit, 0, size))
  }

  /** `vm_map_find_free` returns the least fitting page address at or above hint and base, and
   *  0 exactly if none fits, if and only if `Answers` holds. An insert there is then valid. */
  lemma {:induction false} FindFreeExact(rs: Regions, base: nat, limit: nat, hint: nat, size: nat)
    requires Within(rs, base, limit) && Ordered(rs)
    requires base < WORD && limit < WORD && hint < WORD && size < WORD
    ensures var r, n, from :=
              FindFree(rs, base, limit, hint, size), RoundUp(size), if hint < base then base else RoundUp(hint);
            && ((if size == 0 then r == 0 else LeastFit(rs, limit, from, n, r)) <==> Answers(rs, limit, from, n))
            && (r != 0 && base % PAGE == 0 && Answers(rs, limit, from, n) ==>
                  Aligned(r, r + n) && base <= r && r + n <= limit && !Overlaps(rs, r, r + n))
  {
    hide LeastFit;
    hide SomeFit;
    hide Fits;
    hide Wraps;
    hide Search;
    hide Overlaps;
    var r, n, from := FindFree(rs, base, limit, hint, size), RoundUp(size), if hint < base then base else RoundUp(hint);
    AlignUpFacts(size);
    AlignUpFacts(hint);
    if n == 0 {
      assert r == 0;
    } else if n >= WORD {
      NoneFits(rs, limit, from, n);
    } else if from < WORD {
      SearchExact(rs, base, limit, from, n);
      if r != 0 && Answers(rs, limit, from, n) {
        FitIsFree(rs, base, limit, from, n, r);
        if base % PAGE == 0 {
          SearchAligned(rs, base, limit, from, n);
        }
      }
    } else {
      NoneFits(rs, limit, from, n);
      SearchExact(rs, base, limit, 0, n);
      FromZero(rs, base, limit, n);
    }
  }

  /** Nothing of a whole word's size, or that starts past the last word, fits. */
  lemma {:induction false} NoneFits(rs: Regions, limit: nat, from: nat, size: nat)
    requires limit < WORD && (size >= WORD || from >= WORD)
    ensures forall r: nat :: LeastFit(rs, limit, from, size, r) <==> r == 0
  {
  }

  /** The search from 0 answers 0 in the two cases of `Answers`. */
  lemma {:induction false} FromZero(rs: Regions, base: nat, limit: nat, size: nat)
    requires Within(rs, base, limit) && Ordered(rs) && limit < WORD && 0 < size < WORD
    ensures Search(rs, limit, 0, size) == 0 <==>
            Fits(rs, limit, 0, size) || (!SomeFit(rs, limit, 0, size) && !Wraps(rs, limit, 0, size))
  {
    SearchExact(rs, base, limit, 0, size);
    if Fits(rs, limit, 0, size) {
      FitsAtZero(rs, base, limit, size);
    } else if !SomeFit(rs, limit, 0, size) && Wraps(rs, limit, 0, size) {
      assert !LeastFit(rs, limit, 0, size, Search(rs, limit, 0, size));
    }
  }

  lemma {:induction false} FitsAtZero(rs: Regions, base: nat, limit: nat, size: nat)
    requires Within(rs, base, limit) && limit < WORD && 0 < size < WORD && Fits(rs, limit, 0, size)
    ensures Search(rs, limit, 0, size) == 0
  {
    if rs != [] && rs[0].start < size {
      Blocked(rs, limit, 0, 0, size);
    }
  }

  lemma {:induction false} AlignUpFacts(x: nat)
    requires x < WORD
    ensures AlignUp(x) == if RoundUp(x) < WORD then RoundUp(x) else 0
    ensures x == 0 <==> RoundUp(x) == 0
  {
  }

  lemma {:induction false} FitIsFree(rs: Regions, base: nat, limit: nat, cursor: nat, size: nat, r: nat)
    requires Within(rs, base, limit) && size > 0 && r != 0 && LeastFit(rs, limit, cursor, size, r)
    ensures cursor <= r && r + size <= limit && !Overlaps(rs, r, r + size)
  {
    forall i | 0 <= i < |rs| ensures !(r < rs[i].end && rs[i].start < r + size) {
      if r < rs[i].end && rs[i].start < r + size {
        Blocked(rs, limit, i, r, size);
      }
    }
  }

  lemma {:induction false} SearchAligned(rs: Regions, base: nat, limit: nat, cursor: nat, size: nat)
    requires Within(rs, base, limit) && cursor % PAGE == 0
    ensures Search(rs, limit, cursor, size) % PAGE == 0
  {
    if rs != [] {
      assert forall i :: 0 <= i < |rs| - 1 ==> rs[1..][i] == rs[i + 1];
      SearchAligned(rs[1..], base, limit, cursor, size);
      SearchAligned(rs[1..], base, limit, rs[0].end, size);
    }
  }

  /** The sums can wrap: on an empty map a huge request is answered with an address where
   *  it does not fit, and a hint in the last page makes the search start at address 0. */
  lemma {:induction false} FindFreeWraps()
    ensures FindFree([], PAGE, 0x8000_0000_0000, PAGE, WORD - PAGE) == PAGE
    ensures !Fits([], 0x8000_0000_0000, PAGE, WORD - PAGE)
    ensures forall base: nat, rs: Regions, limit: nat {:trigger FindFree(rs, base, limit, WORD - 1, PAGE)} ::
              base < WORD - PAGE ==> FindFree(rs, base, limit, WORD - 1, PAGE) == Search(rs, limit, 0, PAGE)
  {
  }

  // ---- Whole runs -------------------------------------------------------------------

  /** `memory` answers the allocation of a region, if the operation needs one. */
  datatype Op =
    | Map(start: nat, end: nat, attr: Attr, memory: bool)
    | Unmap(start: nat, end: nat, memory: bool)

  /** One operation on the list. */
  function Step(rs: Regions, base: nat, limit: nat, op: Op): (r: Regions) {
    match op
    case Map(s, e, attr, memory) =>
      if Aligned(s, e) && base <= s && e <= limit && !Overlaps(rs, s, e) && memory
      then Place(rs, Region(s, e, attr)) else rs
    case Unmap(s, e, memory) => if Aligned(s, e) then CutAll(rs, s, e, memory) else rs
  }

  /** A table that says for each address which region holds it. */
  type Table = nat -> Option<Region>

  /** The same operation on the table. */
  ghost function TableStep(f: Table, base: nat, limit: nat, op: Op): (g: Table) {
    match op
    case Map(s, e, attr, memory) =>
      if Aligned(s, e) && base <= s && e <= limit && (forall a: nat :: s <= a < e ==> f(a) == None) && memory
      then (a: nat) => if s <= a < e then Some(Region(s, e, attr)) else f(a) else f
    case Unmap(s, e, memory) =>
      if Aligned(s, e) then (a: nat) => CutOwner(f(a), a, s, e, memory) else f
  }

  ghost predicate Agrees(rs: Regions, f: Table) {
    forall a: nat :: Owner(rs, a) == f(a)
  }

  lemma {:induction false} OverlapIsMapped(rs: Regions, base: nat, limit: nat, s: nat, e: nat)
    requires Within(rs, base, limit) && s < e
    ensures Overlaps(rs, s, e) <==> exists a: nat :: s <= a < e && Owner(rs, a) != None
  {
    if Overlaps(rs, s, e) {
      var i :| 0 <= i < |rs| && s < rs[i].end && rs[i].start < e;
      var a := Max(s, rs[i].start);
      AtIff(rs, a);
      AtOwner(rs, a);
      assert s <= a < e && Owner(rs, a) != None;
    }
    forall a: nat | s <= a < e && Owner(rs, a) != None ensures Overlaps(rs, s, e) {
      AtIff(rs, a);
      AtOwner(rs, a);
    }
  }

  lemma {:induction false} MapRefines(rs: Regions, base: nat, limit: nat, s: nat, e: nat, attr: Attr, f: Table)
    requires Within(rs, base, limit) && Ordered(rs) && Agrees(rs, f) && Aligned(s, e) && base <= s && e <= limit
    ensures Overlaps(rs, s, e) <==> exists a: nat :: s <= a < e && f(a) != None
    ensures var r := Place(rs, Region(s, e, attr));
            !Overlaps(rs, s, e) ==>
              && Within(r, base, limit) && Ordered(r)
              && forall a: nat :: Owner(r, a) == if s <= a < e then Some(Region(s, e, attr)) else f(a)
  {
    hide Owner;
    OverlapIsMapped(rs, base, limit, s, e);
    if Overlaps(rs, s, e) {
      var a: nat :| s <= a < e && Owner(rs, a) != None;
      assert f(a) != None;
    } else {
      forall a: nat | s <= a < e ensures f(a) == None {
        assert Owner(rs, a) == None;
      }
      var r := Region(s, e, attr);
      PlaceOrdered(rs, r, base, limit);
      PlaceWithin(rs, r, base, limit);
      forall a: nat ensures Owner(Place(rs, r), a) == if s <= a < e then Some(r) else f(a) {
        PlaceOwner(rs, r, a);
      }
    }
  }

  lemma {:induction false} StepRefines(rs: Regions, base: nat, limit: nat, op: Op, f: Table)
    requires Within(rs, base, limit) && Ordered(rs) && Agrees(rs, f)
    ensures var r := Step(rs, base, limit, op);
            Within(r, base, limit) && Ordered(r) && Agrees(r, TableStep(f, base, limit, op))
  {
    hide Owner;
    hide CutOwner;
    hide Overlaps;
    match op
    case Map(s, e, attr, memory) =>
      if Aligned(s, e) && base <= s && e <= limit {
        MapRefines(rs, base, limit, s, e, attr, f);
      }
    case Unmap(s, e, memory) =>
      if Aligned(s, e) {
        CutAllOrdered(rs, base, limit, s, e, memory);
        forall a: nat ensures Owner(CutAll(rs, s, e, memory), a) == CutOwner(f(a), a, s, e, memory) {
          CutAllOwner(rs, base, limit, s, e, memory, a);
        }
      }
  }

  ghost function Run(rs: Regions, base: nat, limit: nat, ops: seq<Op>): (r: Regions) decreases |ops| {
    if ops == [] then rs else Run(Step(rs, base, limit, ops[0]), base, limit, ops[1..])
  }

  ghost function TableRun(f: Table, base: nat, limit: nat, ops: seq<Op>): (g: Table)
    decreases |ops|
  {
    if ops == [] then f else TableRun(TableStep(f, base, limit, ops[0]), base, limit, ops[1..])
  }

  /** After any run of maps and unmaps, with any answers to their allocations, the list is
   *  ordered and disjoint, every address lies in the region the table says, and the byte
   *  total is the number of mapped addresses. */
  lemma {:induction false} RunRefinesTable(rs: Regions, base: nat, limit: nat, ops: seq<Op>, f: Table)
    requires Within(rs, base, limit) && Ordered(rs) && Agrees(rs, f)
    ensures var r := Run(rs, base, limit, ops);
            && Within(r, base, limit) && Ordered(r)
            && Agrees(r, TableRun(f, base, limit, ops))
            && Bytes(r) == |Mapped(r, base, limit)|
    decreases |ops|
  {
    if ops == [] {
      CoveredWhole(rs, base, limit);
      CoveredAreAddresses(rs, base, limit, base, limit);
    } else {
      hide Step;
      hide TableStep;
      StepRefines(rs, base, limit, ops[0], f);
      RunRefinesTable(Step(rs, base, limit, ops[0]), base, limit, ops[1..], TableStep(f, base, limit, ops[0]));
    }
  }
}

/** The map as the kernel runs it: a list walked and edited in place. */
module VmRegion {
  import opened Options
  import opened VmRegionSpec

  lemma {:induction false} PlaceMiddle(pre: Regions, x: Region, y: Region, post: Regions)
    requires forall i :: 0 <= i < |pre| ==> pre[i].start <= y.start
    requires x.start <= y.start
    requires forall i :: 0 <= i < |post| ==> y.start < post[i].start
    ensures Place(pre + [x] + post, y) == pre + [x, y] + post
  {
    if pre == [] {
      assert pre + [x] + post == [x] + post && ([x] + post)[1..] == post;
      assert Place(post, y) == [y] + post;
      assert [x] + ([y] + post) == pre + [x, y] + post;
    } else {
      var rest := pre[1..] + [x] + post;
      assert (pre + [x] + post)[1..] == rest;
      PlaceMiddle(pre[1..], x, y, post);
      assert [pre[0]] + (pre[1..] + [x, y] + post) == pre + [x, y] + post;
    }
  }

  lemma {:induction false} CutAllSnoc(rs: Regions, r: Region, start: nat, end: nat, memory: bool)
    ensures CutAll(rs + [r], start, end, memory) == CutAll(rs, start, end, memory) + Cut(r, start, end, memory)
  {
    hide Cut;
    if rs == [] {
      assert rs + [r] == [r] && [r][1..] == [];
      assert Cut(r, start, end, memory) + [] == Cut(r, start, end, memory);
    } else {
      assert (rs + [r])[1..] == rs[1..] + [r];
      CutAllSnoc(rs[1..], r, start, end, memory);
    }
  }

  lemma {:induction false} CoveredSnoc(rs: Regions, r: Region, start: nat, end: nat)
    ensures Covered(rs + [r], start, end) == Covered(rs, start, end) + Covered([r], start, end)
  {
    if rs == [] {
      assert rs + [r] == [r];
    } else {
      assert (rs + [r])[1..] == rs[1..] + [r];
      CoveredSnoc(rs[1..], r, start, end);
    }
  }

  class VmMap {
    var regions: Regions
    const base: nat
    const limit: nat
    var regionCount: nat
    var totalMapped: int

    ghost predicate Valid()
      reads this
    {
      && Within(regions, base, limit) && Ordered(regions)
      && regionCount == |regions| && totalMapped == Bytes(regions)
    }

    constructor (base: nat, limit: nat)
      ensures Valid() && regions == [] && this.base == base && this.limit == limit
    {
      regions := [];
      this.base, this.limit := base, limit;
      regionCount, totalMapped := 0, 0;
    }

    method OverlapsRange(start: nat, end: nat) returns (yes: bool)
      ensures yes <==> Overlaps(regions, start, end)
    {
      for i := 0 to |regions|
        invariant forall j :: 0 <= j < i ==> !(start < regions[j].end && regions[j].start < end)
      {
        if start < regions[i].end && regions[i].start < end {
          return true;
        }
      }
      return false;
    }

    /** `vm_map_insert`; `memory` tells whether a region can be allocated. */
    method Insert(start: nat, end: nat, attr: Attr, memory: bool) returns (ok: bool)
      requires Valid()
      modifies this
      ensures Valid()
      ensures ok <==>
        Aligned(start, end) && base <= start && end <= limit && !Overlaps(old(regions), start, end) && memory
      ensures regions == if ok then Place(old(regions), Region(start, end, attr)) else old(regions)
    {
      if start % PAGE != 0 || end % PAGE != 0 || start >= end {
        return false;
      }
      if start < base || end > limit {
        return false;
      }
      var overlap := OverlapsRange(start, end);
      if overlap || !memory {
        return false;
      }
      var r := Region(start, end, attr);
      var pos := FindPlace(r);
      PlaceShape(regions, r);
      PlaceOrdered(regions, r, base, limit);
      PlaceWithin(regions, r, base, limit);
      regions := regions[..pos] + [r] + regions[pos..];
      regionCount := regionCount + 1;
      totalMapped := totalMapped + (end - start);
      ok := true;
    }

    /** The walk to the first region that starts later. */
    method FindPlace(r: Region) returns (pos: nat)
      ensures pos <= |regions| && Place(regions, r) == regions[..pos] + [r] + regions[pos..]
    {
      hide Place;
      pos := 0;
      ghost var pre, rest: Regions := [], regions;
      assert [] + rest == rest && [] + Place(rest, r) == Place(rest, r);
      while pos < |regions| && regions[pos].start <= r.start
        invariant pos == |pre| && regions == pre + rest
        invariant pre + Place(rest, r) == Place(regions, r)
        decreases |rest|
      {
        PlaceSkip(pre, rest, r);
        Advance(pre, rest);
        pre, rest := pre + [rest[0]], rest[1..];
        pos := pos + 1;
      }
      PlaceHere(pre, rest, r);
    }

    /** `vm_map_find`: the walk may stop at the first region past the address. */
    method Find(a: nat) returns (r: Option<Region>)
      requires Valid()
      ensures At(regions, a) == match r case None => None case Some(x) => Some(x.attr)
      ensures r.Some? ==> r.value in regions && r.value.start <= a < r.value.end
    {
      assert regions[0..] == regions;
      for i := 0 to |regions|
        invariant At(regions[i..], a) == At(regions, a)
      {
        assert regions[i..][1..] == regions[i + 1..];
        if regions[i].start <= a < regions[i].end {
          return Some(regions[i]);
        }
        if regions[i].start > a {
          assert StartFrom(regions[i..], a + 1) by {
            forall j | 0 <= j < |regions[i..]| ensures a + 1 <= regions[i..][j].start < regions[i..][j].end {
              assert regions[i..][j] == regions[i + j];
            }
          }
          NothingBelow(regions[i..], a);
          return None;
        }
      }
      return None;
    }

    /** `vm_map_find_free`. */
    method FindFreeGap(hint: nat, size: nat) returns (r: nat)
      requires Valid()
      ensures r == FindFree(regions, base, limit, hint, size)
    {
      var n := AlignUp(size);
      if n == 0 {
        return 0;
      }
      var cursor: nat := if hint < base then base else AlignUp(hint);
      assert regions[0..] == regions;
      for i := 0 to |regions|
        invariant Search(regions[i..], limit, cursor, n) == FindFree(regions, base, limit, hint, size)
      {
        assert regions[i..][1..] == regions[i + 1..];
        if regions[i].end > cursor {
          if regions[i].start >= (cursor + n) % WORD {
            return cursor;
          }
          cursor := regions[i].end;
        }
      }
      r := if (cursor + n) % WORD <= limit then cursor else 0;
    }

    /** Shrink region `i` to the left part and insert the right part. */
    method Punch(i: nat, start: nat, end: nat, memory: bool)
      requires Valid() && Aligned(start, end) && i < |regions|
      requires regions[i].start < start && end < regions[i].end
      modifies this
      ensures Valid()
      ensures regions == old(regions)[..i] + Cut(old(regions)[i], start, end, memory) + old(regions)[i + 1..]
    {
      hide Within;
      hide Ordered;
      hide Bytes;
      hide Place;
      hide Overlaps;
      ghost var rs := regions;
      var r := regions[i];
      Shrunk(rs, i, start, base, limit);
      RightPart(rs, i, start, end, base, limit);
      totalMapped := totalMapped - (r.end - r.start) + (start - r.start);
      regions := regions[i := r.(end := start)];
      assert regions == rs[..i] + [r.(end := start)] + rs[i + 1..];
      var ok := Insert(end, r.end, r.attr, memory);
    }

    /** One region of the removal loop: region `i` is replaced by what `Cut` leaves of it;
     *  `next` is the position of the region that followed it. */
    method CutOne(i: nat, start: nat, end: nat, memory: bool) returns (next: nat)
      requires Valid() && Aligned(start, end) && i < |regions|
      modifies this
      ensures Valid() && next == i + |Cut(old(regions)[i], start, end, memory)|
      ensures regions == old(regions)[..i] + Cut(old(regions)[i], start, end, memory) + old(regions)[i + 1..]
    {
      hide Within;
      hide Ordered;
      hide Bytes;
      ghost var rs := regions;
      var r := regions[i];
      Single(r, 0);
      Single(r.(start := end), 0);
      Single(r.(end := start), 0);
      NoBytes();
      ghost var pre, post, c := rs[..i], rs[i + 1..], Cut(r, start, end, memory);
      Replaced(rs, i, c, base, limit, start, end, memory);
      if end <= r.start || start >= r.end {
        assert pre + [r] + post == rs;
        return i + 1;
      }
      if start <= r.start && end >= r.end {
        totalMapped := totalMapped - (r.end - r.start);
        regions := regions[..i] + regions[i + 1..];
        regionCount := regionCount - 1;
        assert pre + [] + post == regions;
        return i;
      }
      if start > r.start && end < r.end {
        Punch(i, start, end, memory);
        return if memory then i + 2 else i + 1;
      }
      if start <= r.start {
        totalMapped := totalMapped - (end - r.start);
        regions := regions[i := r.(start := end)];
        assert regions == pre + [r.(start := end)] + post;
      } else {
        totalMapped := totalMapped - (r.end - start);
        regions := regions[i := r.(end := start)];
        assert regions == pre + [r.(end := start)] + post;
      }
      return i + 1;
    }

    /** `vm_map_remove`. */
    method Remove(start: nat, end: nat, memory: bool) returns (removed: int)
      requires Valid()
      modifies this
      ensures Valid()
      ensures Aligned(start, end) ==>
                && regions == CutAll(old(regions), start, end, memory)
                && removed == Covered(old(regions), start, end)
      ensures !Aligned(start, end) ==> regions == old(regions) && removed == 0
    {
      removed := 0;
      if start % PAGE != 0 || end % PAGE != 0 || start >= end {
        return;
      }
      hide Within;
      hide Ordered;
      hide Bytes;
      hide Cut;
      hide CutAll;
      hide Covered;
      Nowhere(start, end, memory);
      ghost var seen, done, rest: Regions := [], [], regions;
      var i := 0;
      assert [] + rest == rest;
      while i < |regions|
        invariant Valid() && i == |done| && regions == done + rest && seen + rest == old(regions)
        invariant done == CutAll(seen, start, end, memory) && removed == Covered(seen, start, end)
        decreases |rest|
      {
        var r := regions[i];
        InRange(regions, i, base, limit);
        CoveredOne(r, start, end);
        if !(end <= r.start || start >= r.end) {
          removed := removed + (Min(r.end, end) - Max(r.start, start));
        }
        CutAllSnoc(seen, r, start, end, memory);
        CoveredSnoc(seen, r, start, end);
        Advance(done, rest);
        i := CutOne(i, start, end, memory);
        Advance(seen, rest);
        seen, done, rest := seen + [r], done + Cut(r, start, end, memory), rest[1..];
      }
      assert seen + [] == seen && done + [] == done;
    }
  }

  lemma {:induction false} PlaceSkip(pre: Regions, rest: Regions, r: Region)
    requires rest != [] && rest[0].start <= r.start
    ensures pre + Place(rest, r) == (pre + [rest[0]]) + Place(rest[1..], r)
  {
    assert pre + ([rest[0]] + Place(rest[1..], r)) == (pre + [rest[0]]) + Place(rest[1..], r);
  }

  lemma {:induction false} PlaceHere(pre: Regions, rest: Regions, r: Region)
    requires rest == [] || rest[0].start > r.start
    ensures (pre + rest)[..|pre|] + [r] + (pre + rest)[|pre|..] == pre + Place(rest, r)
  {
    assert (pre + rest)[..|pre|] == pre && (pre + rest)[|pre|..] == rest;
    assert pre + [r] + rest == pre + ([r] + rest);
  }

  lemma {:induction false} Advance(a: Regions, b: Regions)
    requires b != []
    ensures (a + b)[|a|] == b[0] && (a + b)[..|a|] == a && (a + b)[|a| + 1..] == b[1..] && a + b == a + [b[0]] + b[1..]
  {
  }

  /** Replacing one region by what is cut from it keeps the list well formed. */
  lemma {:induction false} Replaced(rs: Regions, i: nat, c: Regions, base: nat, limit: nat,
        start: nat, end: nat, memory: bool)
    requires Within(rs, base, limit) && Ordered(rs) && i < |rs| && Aligned(start, end)
    requires c == Cut(rs[i], start, end, memory)
    ensures var r := rs[..i] + c + rs[i + 1..];
            Within(r, base, limit) && Ordered(r) && Bytes(r) == Bytes(rs) - (rs[i].end - rs[i].start) + Bytes(c)
  {
    var pre, post := rs[..i], rs[i + 1..];
    assert rs == pre + [rs[i]] + post;
    CutOrdered(rs[i], base, limit, start, end, memory);
    CutStarts(rs[i], start, end, memory);
    SplitOrdered(rs, i, base, limit);
    forall k | 0 <= k < |c| ensures rs[i].start <= c[k].start < c[k].end <= rs[i].end {
      assert c[k] in c;
    }
    assert StartFrom(c, rs[i].start);
    JoinOrdered(pre, c, base, limit, rs[i].start);
    JoinOrdered(pre + c, post, base, limit, rs[i].end);
    BytesAppend(pre + [rs[i]], post);
    BytesAppend(pre, [rs[i]]);
    BytesAppend(pre + c, post);
    BytesAppend(pre, c);
    Single(rs[i], 0);
  }

  lemma {:induction false} SplitOrdered(rs: Regions, i: nat, base: nat, limit: nat)
    requires Within(rs, base, limit) && Ordered(rs) && i < |rs|
    ensures Within(rs[..i], base, limit) && Ordered(rs[..i]) && Within(rs[i + 1..], base, limit) && Ordered(rs[i + 1..])
    ensures forall x :: x in rs[..i] ==> x.end <= rs[i].start
    ensures StartFrom(rs[i + 1..], rs[i].end)
  {
    var post := rs[i + 1..];
    forall k | 0 <= k < |post| ensures post[k] == rs[i + 1 + k] {}
  }

  lemma {:induction false} InRange(rs: Regions, i: nat, base: nat, limit: nat)
    requires Within(rs, base, limit) && i < |rs|
    ensures rs[i].start < rs[i].end
  {
  }

  lemma {:induction false} CoveredOne(r: Region, start: nat, end: nat)
    requires r.start < r.end && start < end
    ensures Covered([r], start, end) ==
            if end <= r.start || start >= r.end then 0 else Min(r.end, end) - Max(r.start, start)
  {
    assert [r][1..] == [];
  }

  lemma {:induction false} Nowhere(start: nat, end: nat, memory: bool)
    ensures CutAll([], start, end, memory) == [] && Covered([], start, end) == 0
  {
  }

  lemma {:induction false} NoBytes()
    ensures Bytes([]) == 0
  {
  }

  /** The list after the left part of a hole was cut. */
  lemma {:induction false} Shrunk(rs: Regions, i: nat, start: nat, base: nat, limit: nat)
    requires Within(rs, base, limit) && Ordered(rs) && i < |rs| && rs[i].start < start < rs[i].end && start % PAGE == 0
    ensures var r := rs[i := rs[i].(end := start)];
            Within(r, base, limit) && Ordered(r) && |r| == |rs| && Bytes(r) == Bytes(rs) - (rs[i].end - start)
  {
    var r := rs[i := rs[i].(end := start)];
    Replaced(rs, i, [rs[i].(end := start)], base, limit, start, rs[i].end, true);
    assert r == rs[..i] + [rs[i].(end := start)] + rs[i + 1..];
    Single(rs[i].(end := start), 0);
  }

  /** The right part of a hole is free to insert, directly after the left part. */
  lemma {:induction false} RightPart(rs: Regions, i: nat, start: nat, end: nat, base: nat, limit: nat)
    requires Within(rs, base, limit) && Ordered(rs) && i < |rs| && Aligned(start, end)
    requires rs[i].start < start && end < rs[i].end
    ensures var r := rs[i := rs[i].(end := start)];
            var right := rs[i].(start := end);
            && Aligned(end, rs[i].end) && base <= end && rs[i].end <= limit && !Overlaps(r, end, rs[i].end)
            && Place(r, right) == rs[..i] + [rs[i].(end := start), right] + rs[i + 1..]
  {
    var r := rs[i := rs[i].(end := start)];
    assert r == rs[..i] + [rs[i].(end := start)] + rs[i + 1..];
    SplitOrdered(rs, i, base, limit);
    PlaceMiddle(rs[..i], rs[i].(end := start), rs[i].(start := end), rs[i + 1..]);
    forall k | 0 <= k < |r| ensures !(end < r[k].end && r[k].start < rs[i].end) {
      if k < i {
        assert rs[k].end <= rs[i].start;
      } else if k > i {
        assert rs[i].end <= rs[k].start;
      }
    }
  }
}
