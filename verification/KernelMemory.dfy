/** The size-class allocator on top of the page allocator (kernel/memory/slab.c calling
 *  kernel/memory/pmm.c): the page runs it is given are the page allocator's own answers.
 */
module KernelMemory {
  import opened Options
  import P = PmmSpec
  import S = SlabSpec

  /** `ledger` records the runs the page allocator has handed out: first page to pages. */
  datatype System = System(kmem: S.Kmem, pmm: P.Pmm, ledger: P.Ledger)

  function PageOf(b: nat): (p: nat) {
    b / P.PAGE
  }

  function BaseOf(p: nat): (b: nat) {
    p * P.PAGE
  }

  lemma {:induction false} PageStart(p: nat)
    ensures PageOf(BaseOf(p)) == p && BaseOf(p) % S.PAGE == 0
  {
  }

  /** The runs the slab allocator holds are those the page allocator has handed out. */
  ghost predicate Agree(held: map<nat, S.Run>, ledger: P.Ledger) {
    && (forall b :: b in held ==> BaseOf(PageOf(b)) == b && PageOf(b) in ledger && ledger[PageOf(b)] == held[b].pages)
    && (forall p: nat :: p in ledger ==> BaseOf(p) in held)
  }

  /** Both allocators are consistent, and a page is in use exactly when it was at the start or
   *  lies in a run the slab allocator holds. */
  ghost predicate Inv(start: P.Pmm, y: System) {
    S.Inv(y.kmem) && P.Accounts(start, y.pmm, y.ledger) && Agree(y.kmem.held, y.ledger)
  }

  /** Pages a request makes the slab allocator ask for; 0 if it does not ask. */
  ghost function Asks(s: S.Kmem, size: nat): (n: nat)
    requires S.Inv(s)
  {
    S.BasicInv(s);
    if size == 0 then 0
    else
      match S.ClassFor(size, 0)
      case Some(k) => if s.caches[k].free == [] then s.caches[k].shape.pages else 0
      case None => if size + S.HDR < S.WORD then S.LargePages(size + S.HDR) else 0
  }

  ghost function Alloc(y: System, size: nat): (r: (System, Option<nat>))
    requires S.Inv(y.kmem)
  {
    var n := Asks(y.kmem, size);
    var (m, offer) := P.AllocContig(y.pmm, n);
    var (k, r) := S.Step(y.kmem, S.DoAlloc(size, offer));
    (System(k, m, if offer.Some? then y.ledger[PageOf(offer.value) := n] else y.ledger), r)
  }

  /** A large run goes back to the page allocator. */
  ghost function Free(y: System, p: nat): (z: System)
    requires S.Inv(y.kmem) && S.Proper(y.kmem, S.DoFree(p))
  {
    var k := S.Step(y.kmem, S.DoFree(p)).0;
    if p >= S.HDR && p - S.HDR in y.kmem.held && p - S.HDR !in k.held then
      var b: nat := p - S.HDR;
      match P.FreeContig(y.pmm, b, y.kmem.held[b].pages)
      case None => y.(kmem := k)
      case Some(m) => System(k, m, y.ledger - {PageOf(b)})
    else y.(kmem := k)
  }

  /** What the page allocator offers overlaps nothing held. */
  lemma {:induction false} OfferFresh(start: P.Pmm, y: System, n: nat)
    requires Inv(start, y) && P.AllocContig(y.pmm, n).1.Some?
    ensures n > 0 && S.Fresh(y.kmem.held, P.AllocContig(y.pmm, n).1.value, n)
  {
    hide S.Inv;
    hide P.AllocContig;
    hide P.CountFree;
    hide P.Accounts;
    hide P.RunFree;
    P.NoEmptyRun(y.pmm);
    OfferPage(y.pmm, n);
    var base := P.AllocContig(y.pmm, n).1.value;
    forall b | b in y.kmem.held ensures S.Apart(b, y.kmem.held[b].pages, base, n) {
      OfferApart(start, y.pmm, y.ledger, n, PageOf(b));
    }
  }

  lemma {:induction false} OfferApart(start: P.Pmm, m: P.Pmm, ledger: P.Ledger, n: nat, q: nat)
    requires P.Accounts(start, m, ledger) && P.AllocContig(m, n).1.Some? && q in ledger
    ensures S.Apart(BaseOf(q), ledger[q], P.AllocContig(m, n).1.value, n)
  {
    hide P.CountFree;
    hide P.AllocContig;
    P.AllocFacts(m, n);
    P.NoEmptyRun(m);
    RunsClash(start, m, ledger, P.AllocContig(m, n).1.value / P.PAGE, n, q);
  }

  /** A free run overlaps no run handed out. */
  lemma {:induction false} RunsClash(start: P.Pmm, m: P.Pmm, ledger: P.Ledger, p: nat, n: nat, q: nat)
    requires P.Accounts(start, m, ledger) && P.RunFree(m.used, p, n) && n > 0 && q in ledger
    ensures p + n <= q || q + ledger[q] <= p
  {
    var x := if p < q then q else p;
    var inRun := q <= x < q + ledger[q];
    if inRun {
      PageInUse(start, m, ledger, q, x);
      assert m.used[x];
    }
  }

  lemma {:induction false} PageInUse(start: P.Pmm, m: P.Pmm, ledger: P.Ledger, q: nat, x: nat)
    requires P.Accounts(start, m, ledger) && q in ledger && q <= x < q + ledger[q]
    ensures x < |m.used| && m.used[x]
  {
    P.RunOwns(ledger, q, x);
  }

  lemma {:induction false} AgreeMore(held: map<nat, S.Run>, ledger: P.Ledger, p: nat, run: S.Run)
    requires Agree(held, ledger)
    ensures Agree(held[BaseOf(p) := run], ledger[p := run.pages])
  {
    hide PageOf;
    hide BaseOf;
    PageStart(p);
  }

  lemma {:induction false} AgreeLess(held: map<nat, S.Run>, ledger: P.Ledger, b: nat)
    requires Agree(held, ledger) && b in held
    ensures Agree(held - {b}, ledger - {PageOf(b)})
  {
    hide PageOf;
    hide BaseOf;
    forall q: nat | q in ledger - {PageOf(b)} ensures BaseOf(q) in held - {b} {
      PageStart(q);
    }
  }

  /** Which run an allocation takes: exactly what it asked for, if it was offered that. */
  lemma {:induction false} AllocHolds(s: S.Kmem, size: nat, offer: Option<nat>)
    requires S.Inv(s) && (offer.Some? ==> Asks(s, size) > 0 && S.Fresh(s.held, offer.value, Asks(s, size)))
    ensures var t := S.Step(s, S.DoAlloc(size, offer)).0;
      && (offer == None ==> t.held == s.held)
      && (offer.Some? ==> exists o: nat :: t.held == s.held[offer.value := S.Run(Asks(s, size), o)])
  {
    hide S.Inv;
    hide S.ThreadWords;
    hide S.Thread;
    S.BasicInv(s);
    S.AllocKeeps(s, size, offer);
    if offer.Some? {
      var t := S.Step(s, S.DoAlloc(size, offer)).0;
      match S.ClassFor(size, 0)
      case Some(k) => assert t.held == s.held[offer.value := S.Run(Asks(s, size), k)];
      case None => assert t.held == s.held[offer.value := S.Run(Asks(s, size), S.LARGE)];
    }
  }

  /** Every allocation gets its pages from the page allocator, never a page in use, and the
   *  accounts of both stay balanced. */
  lemma {:induction false} AllocKeeps(start: P.Pmm, y: System, size: nat)
    requires Inv(start, y)
    ensures Inv(start, Alloc(y, size).0)
  {
    hide S.Inv;
    hide S.Step;
    hide P.AllocContig;
    hide P.Accounts;
    hide Agree;
    var n := Asks(y.kmem, size);
    var (m, offer) := P.AllocContig(y.pmm, n);
    P.TakeAccounts(start, y.pmm, y.ledger, n);
    if offer.Some? {
      OfferFresh(start, y, n);
      AllocHolds(y.kmem, size, offer);
      var o: nat :| S.Step(y.kmem, S.DoAlloc(size, offer)).0.held == y.kmem.held[offer.value := S.Run(n, o)];
      OfferPage(y.pmm, n);
      AgreeMore(y.kmem.held, y.ledger, PageOf(offer.value), S.Run(n, o));
    } else {
      AllocHolds(y.kmem, size, offer);
    }
  }

  lemma {:induction false} OfferPage(m: P.Pmm, n: nat)
    requires P.AllocContig(m, n).1.Some?
    ensures var a := P.AllocContig(m, n).1.value; a == BaseOf(PageOf(a)) && a % S.PAGE == 0 && a > 0
  {
    PageStart(P.FindRun(m.used, P.FIRST, n).value);
  }

  /** Freeing a large allocation gives exactly its pages back; the page allocator accepts them. */
  lemma {:induction false} FreeKeeps(start: P.Pmm, y: System, p: nat)
    requires Inv(start, y) && S.Proper(y.kmem, S.DoFree(p))
    ensures Inv(start, Free(y, p))
  {
    hide S.Inv;
    hide S.Proper;
    hide P.Accounts;
    hide P.FreeContig;
    hide Agree;
    S.BasicInv(y.kmem);
    FreeHolds(y.kmem, p);
    var k := S.Step(y.kmem, S.DoFree(p)).0;
    if p >= S.HDR && p - S.HDR in y.kmem.held && p - S.HDR !in k.held {
      var b: nat := p - S.HDR;
      HeldPage(y.kmem.held, y.ledger, b);
      P.GiveAccounts(start, y.pmm, y.ledger, PageOf(b));
      AgreeLess(y.kmem.held, y.ledger, b);
    }
  }

  lemma {:induction false} HeldPage(held: map<nat, S.Run>, ledger: P.Ledger, b: nat)
    requires Agree(held, ledger) && b in held
    ensures PageOf(b) in ledger && ledger[PageOf(b)] == held[b].pages && b == PageOf(b) * P.PAGE
  {
  }

  lemma {:induction false} FreeHolds(s: S.Kmem, p: nat)
    requires S.Inv(s) && S.Proper(s, S.DoFree(p))
    ensures var t := S.Step(s, S.DoFree(p)).0;
      if p >= S.HDR && p - S.HDR in s.held && p - S.HDR !in t.held then t.held == s.held - {p - S.HDR}
      else t.held == s.held
  {
    hide S.Inv;
    S.BasicInv(s);
  }

  // ---- Whole runs -----------------------------------------------------------------

  datatype Op = DoAlloc(size: nat) | DoFree(p: nat) | DoStore(a: nat, w: nat)

  ghost predicate Proper(y: System, op: Op)
    requires S.Inv(y.kmem)
  {
    S.BasicInv(y.kmem);
    match op
    case DoAlloc(size) => true
    case DoFree(p) => S.Proper(y.kmem, S.DoFree(p))
    case DoStore(a, w) => S.Proper(y.kmem, S.DoStore(a, w))
  }

  ghost function Step(start: P.Pmm, y: System, op: Op): (z: System)
    requires Inv(start, y) && Proper(y, op)
    ensures Inv(start, z)
  {
    match op
    case DoAlloc(size) => AllocKeeps(start, y, size); Alloc(y, size).0
    case DoFree(p) => FreeKeeps(start, y, p); Free(y, p)
    case DoStore(a, w) => y.(kmem := S.Step(y.kmem, S.DoStore(a, w)).0)
  }

  ghost predicate ProperRun(start: P.Pmm, y: System, ops: seq<Op>)
    requires Inv(start, y)
    decreases |ops|
  {
    ops != [] ==> Proper(y, ops[0]) && ProperRun(start, Step(start, y, ops[0]), ops[1..])
  }

  ghost function Execute(start: P.Pmm, y: System, ops: seq<Op>): (z: System)
    requires Inv(start, y) && ProperRun(start, y, ops)
    ensures Inv(start, z)
    decreases |ops|
  {
    if ops == [] then y else Execute(start, Step(start, y, ops[0]), ops[1..])
  }

  lemma {:induction false} InitInv(m: P.Pmm)
    requires P.Inv(m)
    ensures Inv(m, System(S.Init(), m, map[]))
  {
    hide S.Inv;
    S.InitInv();
    assert forall q :: !P.Owned(map[], q);
  }

  /** In every run the two allocators' accounts balance: a page is in use exactly when it was at
   *  the start or belongs to a run held; with nothing held the page allocator is as it was. */
  lemma {:induction false} PagesBalance(m: P.Pmm, ops: seq<Op>)
    requires P.Inv(m) && Inv(m, System(S.Init(), m, map[])) && ProperRun(m, System(S.Init(), m, map[]), ops)
    ensures var z := Execute(m, System(S.Init(), m, map[]), ops);
      && (forall q: nat :: q < |z.pmm.used| ==>
            (z.pmm.used[q] <==> (q < |m.used| && m.used[q]) || PageHeld(z.kmem.held, q)))
      && (z.kmem.held == map[] ==> z.pmm == m)
  {
    hide S.Inv;
    hide P.CountFree;
    hide ProperRun;
    hide Execute;
    var z := Execute(m, System(S.Init(), m, map[]), ops);
    forall q: nat | q < |z.pmm.used|
      ensures P.Owned(z.ledger, q) <==> PageHeld(z.kmem.held, q)
    {
      OwnedHeld(z.kmem.held, z.ledger, q);
    }
    if z.kmem.held == map[] {
      assert z.ledger == map[];
      assert z.pmm.used == m.used;
    }
  }

  ghost predicate HoldsPage(held: map<nat, S.Run>, b: nat, q: nat) {
    b in held && PageOf(b) <= q < PageOf(b) + held[b].pages
  }

  /** The page belongs to a run that is held. */
  ghost predicate PageHeld(held: map<nat, S.Run>, q: nat) {
    exists b: nat :: HoldsPage(held, b, q)
  }

  lemma {:induction false} OwnedHeld(held: map<nat, S.Run>, ledger: P.Ledger, q: nat)
    requires Agree(held, ledger)
    ensures P.Owned(ledger, q) <==> PageHeld(held, q)
  {
    hide PageOf;
    hide BaseOf;
    if P.Owned(ledger, q) {
      var p :| P.InRun(ledger, p, q);
      PageStart(p);
      assert HoldsPage(held, BaseOf(p), q);
    }
    forall b: nat | HoldsPage(held, b, q) ensures P.Owned(ledger, q) {
      assert P.InRun(ledger, PageOf(b), q);
    }
  }
}
