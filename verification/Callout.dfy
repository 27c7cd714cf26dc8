/** Timer callouts (kernel/time/callout.c): armed timers kept both in a list sorted by
 *  expiry and in a 256-bucket wheel.
 *
 *  Expiry times are 64-bit. A timer carries the number of its arming, which nothing
 *  decides on; it only lets "first armed first" be said. Callbacks do not touch the base.
 */
module CalloutSpec {
  import opened Arithmetic
  import opened Lists

  const WORD: nat := 0x1_0000_0000_0000_0000
  const WHEEL: nat := 256

  datatype Timer = Timer(expires: nat, period: nat, stamp: nat)

  datatype Base = Base(now: nat, sorted: seq<nat>, timers: map<nat, Timer>, wheel: seq<seq<nat>>, stamp: nat)

  datatype Fired = Fired(id: nat, expires: nat, stamp: nat)

  // ---- Order ----------------------------------------------------------------------

  /** Earlier expiry first, earlier arming first among equals. */
  predicate Before(t: Timer, u: Timer) {
    t.expires < u.expires || (t.expires == u.expires && t.stamp < u.stamp)
  }

  ghost predicate Sorted(ids: seq<nat>, timers: map<nat, Timer>) {
    && (forall i :: 0 <= i < |ids| ==> ids[i] in timers)
    && forall i, j :: 0 <= i < j < |ids| ==> Before(timers[ids[i]], timers[ids[j]])
  }

  ghost predicate WheelAgrees(wheel: seq<seq<nat>>, timers: map<nat, Timer>) {
    && |wheel| == WHEEL
    && (forall k :: 0 <= k < WHEEL ==> NoDup(wheel[k]))
    && (forall k, id :: 0 <= k < WHEEL ==> (id in wheel[k] <==> id in timers && timers[id].expires % WHEEL == k))
  }

  /** The list, the wheel and the armed timers agree. */
  ghost predicate Inv(b: Base) {
    && b.now < WORD
    && Sorted(b.sorted, b.timers) && NoDup(b.sorted)
    && (forall id :: id in b.sorted <==> id in b.timers)
    && (forall id :: id in b.timers ==>
          b.timers[id].expires < WORD && b.timers[id].period < WORD && b.timers[id].stamp < b.stamp)
    && WheelAgrees(b.wheel, b.timers)
  }

  // ---- Operations -----------------------------------------------------------------

  function EmptyWheel(n: nat): (w: seq<seq<nat>>)
    ensures |w| == n && forall k :: 0 <= k < n ==> w[k] == []
  {
    if n == 0 then [] else EmptyWheel(n - 1) + [[]]
  }

  function Init(): (b: Base) {
    Base(0, [], map[], EmptyWheel(WHEEL), 0)
  }

  /** Position of the first timer that expires strictly later. */
  function Place(ids: seq<nat>, timers: map<nat, Timer>, expires: nat): (i: nat)
    ensures i <= |ids|
  {
    if ids == [] then 0
    else if ids[0] in timers && timers[ids[0]].expires > expires then 0
    else 1 + Place(ids[1..], timers, expires)
  }

  /** `insert_sorted` of a timer that is in neither structure. */
  function Link(b: Base, id: nat, expires: nat, period: nat): (r: Base)
    requires |b.wheel| == WHEEL
  {
    var i := Place(b.sorted, b.timers, expires);
    var k := expires % WHEEL;
    b.(sorted := b.sorted[..i] + [id] + b.sorted[i..],
       timers := b.timers[id := Timer(expires, period, b.stamp)],
       wheel := b.wheel[k := b.wheel[k] + [id]],
       stamp := b.stamp + 1)
  }

  /** `unlink` of an armed timer. */
  function Unlink(b: Base, id: nat): (r: Base)
    requires |b.wheel| == WHEEL && id in b.timers
  {
    var k := b.timers[id].expires % WHEEL;
    b.(sorted := Without(b.sorted, id), timers := b.timers - {id}, wheel := b.wheel[k := Without(b.wheel[k], id)])
  }

  function Arm(b: Base, id: nat, delay: nat, period: nat): (r: Base)
    requires |b.wheel| == WHEEL
  {
    var c := if id in b.timers then Unlink(b, id) else b;
    Link(c, id, (b.now + delay) % WORD, period)
  }

  function Cancel(b: Base, id: nat): (r: Base)
    requires |b.wheel| == WHEEL
  {
    if id in b.timers then Unlink(b, id) else b
  }

  predicate Due(b: Base) {
    b.sorted != [] && b.sorted[0] in b.timers && b.timers[b.sorted[0]].expires <= b.now
  }

  /** One turn of the advance loop: detach the head, fire it, re-arm it if periodic. */
  function Fire(b: Base): (r: (Base, Fired))
    requires |b.wheel| == WHEEL && Due(b)
  {
    var id := b.sorted[0];
    var t := b.timers[id];
    var u := Unlink(b, id);
    (if t.period == 0 then u else Link(u, id, (t.expires + t.period) % WORD, t.period), Fired(id, t.expires, t.stamp))
  }

  // ---- Both structures stay in agreement ------------------------------------------

  lemma {:induction false} PlaceFacts(ids: seq<nat>, timers: map<nat, Timer>, expires: nat)
    requires Sorted(ids, timers)
    ensures var i := Place(ids, timers, expires);
      && (forall j :: 0 <= j < i ==> timers[ids[j]].expires <= expires)
      && (forall j :: i <= j < |ids| ==> timers[ids[j]].expires > expires)
  {
    if ids != [] {
      if timers[ids[0]].expires > expires {
        forall j | 0 < j < |ids| ensures timers[ids[j]].expires > expires {
          assert Before(timers[ids[0]], timers[ids[j]]);
        }
      } else {
        var t := ids[1..];
        assert forall j :: 0 <= j < |t| ==> t[j] == ids[j + 1];
        PlaceFacts(t, timers, expires);
        assert forall j :: 0 < j < |ids| ==> ids[j] == t[j - 1];
      }
    }
  }

  lemma {:induction false} InsertedSorted(ids: seq<nat>, timers: map<nat, Timer>, id: nat, t: Timer)
    requires Sorted(ids, timers) && NoDup(ids) && id !in ids
    requires forall j :: 0 <= j < |ids| ==> timers[ids[j]].stamp < t.stamp
    ensures var i := Place(ids, timers, t.expires);
      var r := ids[..i] + [id] + ids[i..];
      Sorted(r, timers[id := t]) && NoDup(r) && forall x :: x in r <==> x in ids || x == id
  {
    hide NoDup;
    hide Sorted;
    var i := Place(ids, timers, t.expires);
    SortedArmed(ids, timers);
    PlaceFacts(ids, timers, t.expires);
    SortedExtend(ids, timers, id, t);
    assert forall j :: 0 <= j < |ids| ==> ids[j] in ids;
    InsertAtSorted(ids, timers[id := t], id, i);
    SortedNoDup(ids[..i] + [id] + ids[i..], timers[id := t]);
    InsertedMembers(ids, id, i);
  }

  lemma {:induction false} SortedArmed(ids: seq<nat>, timers: map<nat, Timer>)
    requires Sorted(ids, timers)
    ensures forall i :: 0 <= i < |ids| ==> ids[i] in timers
  {
  }

  lemma {:induction false} SortedExtend(ids: seq<nat>, timers: map<nat, Timer>, id: nat, t: Timer)
    requires Sorted(ids, timers) && id !in ids
    ensures Sorted(ids, timers[id := t])
  {
  }

  lemma {:induction false} InsertedMembers(ids: seq<nat>, id: nat, i: nat)
    requires i <= |ids|
    ensures forall x :: x in ids[..i] + [id] + ids[i..] <==> x in ids || x == id
  {
    assert ids == ids[..i] + ids[i..];
  }

  lemma {:induction false} InsertAtSorted(ids: seq<nat>, timers: map<nat, Timer>, id: nat, i: nat)
    requires Sorted(ids, timers) && id in timers && i <= |ids|
    requires forall j :: 0 <= j < i ==> Before(timers[ids[j]], timers[id])
    requires forall j :: i <= j < |ids| ==> Before(timers[id], timers[ids[j]])
    ensures Sorted(ids[..i] + [id] + ids[i..], timers)
  {
    var r := ids[..i] + [id] + ids[i..];
    forall j | 0 <= j < |r| ensures r[j] == if j < i then ids[j] else if j == i then id else ids[j - 1] {}
  }

  lemma {:induction false} SortedNoDup(ids: seq<nat>, timers: map<nat, Timer>)
    requires Sorted(ids, timers)
    ensures NoDup(ids)
  {
    forall i, j | 0 <= i < j < |ids| ensures ids[i] != ids[j] {
      assert Before(timers[ids[i]], timers[ids[j]]);
    }
  }

  lemma {:induction false} LinkWheel(b: Base, id: nat, expires: nat, period: nat)
    requires WheelAgrees(b.wheel, b.timers) && id !in b.timers
    ensures WheelAgrees(Link(b, id, expires, period).wheel, Link(b, id, expires, period).timers)
  {
    var k := expires % WHEEL;
    NoDupConcat(b.wheel[k], [id]);
  }

  lemma {:induction false} LinkKeeps(b: Base, id: nat, expires: nat, period: nat)
    requires Inv(b) && id !in b.timers && expires < WORD && period < WORD
    ensures |b.wheel| == WHEEL && Inv(Link(b, id, expires, period))
    ensures var r := Link(b, id, expires, period);
      r.timers == b.timers[id := Timer(expires, period, b.stamp)] && r.now == b.now && r.stamp == b.stamp + 1
  {
    hide WheelAgrees;
    InsertedSorted(b.sorted, b.timers, id, Timer(expires, period, b.stamp));
    assert |b.wheel| == WHEEL by { WheelSize(b); }
    LinkWheel(b, id, expires, period);
  }

  lemma {:induction false} WheelSize(b: Base)
    requires Inv(b)
    ensures |b.wheel| == WHEEL
  {
  }

  lemma {:induction false} UnlinkWheel(b: Base, id: nat)
    requires WheelAgrees(b.wheel, b.timers) && id in b.timers
    ensures WheelAgrees(Unlink(b, id).wheel, Unlink(b, id).timers)
  {
    WithoutFacts(b.wheel[b.timers[id].expires % WHEEL], id);
  }

  lemma {:induction false} DropSorted(ids: seq<nat>, timers: map<nat, Timer>, k: nat)
    requires Sorted(ids, timers) && k < |ids|
    ensures Sorted(ids[..k] + ids[k + 1..], timers)
  {
    var r := ids[..k] + ids[k + 1..];
    forall j | 0 <= j < |r| ensures r[j] == (if j < k then ids[j] else ids[j + 1]) {}
    forall i, j | 0 <= i < j < |r| ensures Before(timers[r[i]], timers[r[j]]) {
      assert Before(timers[ids[if i < k then i else i + 1]], timers[ids[if j < k then j else j + 1]]);
    }
  }

  lemma {:induction false} UnlinkSorted(ids: seq<nat>, timers: map<nat, Timer>, id: nat)
    requires Sorted(ids, timers) && NoDup(ids) && id in ids
    ensures Sorted(Without(ids, id), timers - {id}) && NoDup(Without(ids, id))
    ensures forall x :: x in Without(ids, id) <==> x in ids && x != id
  {
    hide NoDup;
    hide Without;
    var k :| 0 <= k < |ids| && ids[k] == id;
    WithoutAt(ids, k);
    DropSorted(ids, timers, k);
    WithoutFacts(ids, id);
    SortedRestrict(Without(ids, id), timers, id);
  }

  lemma {:induction false} SortedRestrict(ids: seq<nat>, timers: map<nat, Timer>, id: nat)
    requires Sorted(ids, timers) && id !in ids
    ensures Sorted(ids, timers - {id})
  {
    forall j | 0 <= j < |ids| ensures ids[j] in timers - {id} {
      assert ids[j] in ids;
    }
  }

  lemma {:induction false} UnlinkKeeps(b: Base, id: nat)
    requires Inv(b) && id in b.timers
    ensures |b.wheel| == WHEEL && Inv(Unlink(b, id))
    ensures var r := Unlink(b, id); r.timers == b.timers - {id} && r.now == b.now && r.stamp == b.stamp
  {
    hide WheelAgrees;
    WheelSize(b);
    UnlinkSorted(b.sorted, b.timers, id);
    UnlinkWheel(b, id);
  }

  lemma {:induction false} ArmKeeps(b: Base, id: nat, delay: nat, period: nat)
    requires Inv(b) && period < WORD
    ensures |b.wheel| == WHEEL && Inv(Arm(b, id, delay, period))
    ensures Arm(b, id, delay, period).timers == b.timers[id := Timer((b.now + delay) % WORD, period, b.stamp)]
  {
    hide Sorted;
    WheelSize(b);
    if id in b.timers {
      UnlinkKeeps(b, id);
      LinkKeeps(Unlink(b, id), id, (b.now + delay) % WORD, period);
    } else {
      LinkKeeps(b, id, (b.now + delay) % WORD, period);
    }
  }

  /** The timer after it has fired once and been re-armed under the number `stamp`. */
  function Next(t: Timer, stamp: nat): (r: Timer) {
    Timer((t.expires + t.period) % WORD, t.period, stamp)
  }

  lemma {:induction false} FireKeeps(b: Base)
    requires Inv(b) && Due(b)
    ensures |b.wheel| == WHEEL
    ensures var (d, f) := Fire(b);
      var id := b.sorted[0];
      var t := b.timers[id];
      && Inv(d) && d.now == b.now && f == Fired(id, t.expires, t.stamp)
      && d.timers == (if t.period == 0 then b.timers - {id} else b.timers[id := Next(t, b.stamp)])
      && b.stamp <= d.stamp
  {
    hide Link;
    hide Unlink;
    WheelSize(b);
    var id := b.sorted[0];
    var t := b.timers[id];
    assert t.period < WORD;
    hide Inv;
    UnlinkKeeps(b, id);
    if t.period != 0 {
      LinkKeeps(Unlink(b, id), id, (t.expires + t.period) % WORD, t.period);
      assert (b.timers - {id})[id := Next(t, b.stamp)] == b.timers[id := Next(t, b.stamp)];
    }
  }

  // ---- How often one timer fires --------------------------------------------------

  /** Expiry after `k` re-armings; the addition wraps at 64 bits. */
  function Later(e: nat, p: nat, k: nat): (r: nat)
    decreases k
  {
    if k == 0 then e else Later((e + p) % WORD, p, k - 1)
  }

  /** The timer stops being due after finitely many firings. */
  ghost predicate Settles(t: Timer, now: nat) {
    t.expires > now || t.period == 0 || exists k: nat :: Later(t.expires, t.period, k) > now
  }

  function FirstPast(e: nat, p: nat, now: nat, k: nat): (n: nat)
    requires Later(e, p, k) > now
    ensures n <= k && Later(e, p, n) > now
    decreases k
  {
    if e > now then 0 else 1 + FirstPast((e + p) % WORD, p, now, k - 1)
  }

  lemma {:induction false} FirstPastSame(e: nat, p: nat, now: nat, j: nat, k: nat)
    requires Later(e, p, j) > now && Later(e, p, k) > now
    ensures FirstPast(e, p, now, j) == FirstPast(e, p, now, k)
    decreases j
  {
    if e <= now {
      FirstPastSame((e + p) % WORD, p, now, j - 1, k - 1);
    }
  }

  /** How many times the timer fires when the clock is advanced to `now`. */
  ghost function Shots(t: Timer, now: nat): (n: nat)
    requires Settles(t, now)
  {
    if t.expires > now then 0
    else if t.period == 0 then 1
    else var k: nat :| Later(t.expires, t.period, k) > now; FirstPast(t.expires, t.period, now, k)
  }

  lemma {:induction false} ShotsNext(t: Timer, now: nat, stamp: nat)
    requires t.expires <= now && t.period != 0
    ensures Settles(t, now) <==> Settles(Next(t, stamp), now)
    ensures Settles(t, now) ==> Shots(t, now) == 1 + Shots(Next(t, stamp), now)
  {
    var u := Next(t, stamp);
    if Settles(u, now) {
      var k: nat :| Later(u.expires, u.period, k) > now by {
        if u.expires > now {
          assert Later(u.expires, u.period, 0) > now;
        }
      }
      assert Later(t.expires, t.period, k + 1) > now;
    }
    if Settles(t, now) {
      var k: nat :| Later(t.expires, t.period, k) > now && Shots(t, now) == FirstPast(t.expires, t.period, now, k);
      assert Later(u.expires, u.period, k - 1) > now;
      assert FirstPast(t.expires, t.period, now, k) == 1 + FirstPast(u.expires, u.period, now, k - 1);
      if u.expires <= now {
        var j: nat :| Later(u.expires, u.period, j) > now && Shots(u, now) == FirstPast(u.expires, u.period, now, j);
        FirstPastSame(u.expires, u.period, now, k - 1, j);
      }
    }
  }

  /** No re-arming on the way to `now` wraps: the first expiry past `now` fits 64 bits. */
  predicate Straight(t: Timer, now: nat) {
    t.expires > now || t.period == 0 || Past(t.expires, t.period, now) < WORD
  }

  lemma {:induction false} DivStep(d: nat, p: nat)
    requires p > 0
    ensures d < p ==> d / p == 0
    ensures d >= p ==> d / p == (d - p) / p + 1
  {
    if d >= p {
      DivFacts(d - p, p);
      Distribute((d - p) / p, 1, p);
      ModUnique(d, p, (d - p) / p + 1, (d - p) % p);
    } else {
      ModUnique(d, p, 0, d);
    }
  }

  /** The first expiry past `now`, if the addition had no width. */
  function Past(e: nat, p: nat, now: nat): (r: nat)
    requires p > 0 && e <= now
  {
    e + ((now - e) / p + 1) * p
  }

  lemma {:induction false} PastNext(e: nat, p: nat, now: nat)
    requires p > 0 && e <= now
    ensures e + p > now ==> Past(e, p, now) == e + p
    ensures e + p <= now ==> Past(e, p, now) == Past(e + p, p, now) && Past(e, p, now) > e + p
  {
    var d: nat := now - e;
    DivStep(d, p);
    if d >= p {
      var q: nat := (d - p) / p;
      Distribute(q + 1, 1, p);
      Distribute(q, 1, p);
    }
  }

  lemma {:induction false} StraightNext(t: Timer, now: nat, stamp: nat)
    requires t.expires <= now < WORD && t.period != 0
    ensures Straight(t, now) <==> t.expires + t.period < WORD && Straight(Next(t, stamp), now)
  {
    hide Past;
    PastNext(t.expires, t.period, now);
  }

  /** A due periodic timer fires `(now - e) / period + 1` times exactly when no re-arming
   *  wraps. */
  lemma {:induction false} ShotsFormula(t: Timer, now: nat)
    requires t.expires <= now < WORD && 0 < t.period < WORD
    ensures Straight(t, now) ==> Settles(t, now)
    ensures Settles(t, now) ==>
      (Shots(t, now) == (now - t.expires) / t.period + 1 <==> Straight(t, now))
    decreases now - t.expires
  {
    hide Past;
    hide Settles;
    hide Shots;
    var u := Next(t, 0);
    var d: nat := now - t.expires;
    ShotsNext(t, now, 0);
    StraightNext(t, now, 0);
    DivStep(d, t.period);
    Unsettled(u, now);
    if t.expires + t.period < WORD {
      if u.expires <= now {
        ShotsFormula(u, now);
      }
    } else {
      assert u.expires < t.expires;
      if Settles(t, now) {
        MoreShots(u, t.expires, now);
      }
    }
  }

  lemma {:induction false} Unsettled(t: Timer, now: nat)
    ensures t.expires > now ==> Settles(t, now) && Shots(t, now) == 0
  {
  }

  /** From an earlier expiry, at least as many firings as the later one would have. */
  lemma {:induction false} MoreShots(u: Timer, e: nat, now: nat)
    requires u.period > 0 && Settles(u, now) && u.expires <= e <= now < WORD
    ensures Shots(u, now) >= (now - e) / u.period + 1
    decreases now - e
  {
    hide Settles;
    hide Shots;
    ShotsNext(u, now, 0);
    DivStep(now - e, u.period);
    if now - e >= u.period {
      MoreShots(Next(u, 0), e + u.period, now);
    }
  }

  // ---- Advancing the clock --------------------------------------------------------

  ghost predicate AllSettle(timers: map<nat, Timer>, now: nat) {
    forall id :: id in timers ==> Settles(timers[id], now)
  }

  /** Firings still to come. */
  ghost function Work(ids: seq<nat>, timers: map<nat, Timer>, now: nat): (n: nat)
    requires AllSettle(timers, now)
  {
    if ids == [] then 0
    else (if ids[0] in timers then Shots(timers[ids[0]], now) else 0) + Work(ids[1..], timers, now)
  }

  lemma {:induction false} WorkAgree(ids: seq<nat>, a: map<nat, Timer>, b: map<nat, Timer>, now: nat)
    requires AllSettle(a, now) && AllSettle(b, now)
    requires forall x :: x in ids ==> x in a && x in b && a[x] == b[x]
    ensures Work(ids, a, now) == Work(ids, b, now)
  {
    hide Shots;
    hide Settles;
    if ids != [] {
      assert ids[0] in ids;
      WorkAgree(ids[1..], a, b, now);
    }
  }

  lemma {:induction false} WorkInsert(ids: seq<nat>, timers: map<nat, Timer>, now: nat, id: nat, i: nat)
    requires AllSettle(timers, now) && id in timers && i <= |ids|
    ensures Work(ids[..i] + [id] + ids[i..], timers, now) == Work(ids, timers, now) + Shots(timers[id], now)
    decreases i
  {
    hide Shots;
    hide Settles;
    var r := ids[..i] + [id] + ids[i..];
    if i == 0 {
      assert r == [id] + ids;
    } else {
      assert r[1..] == ids[1..][..i - 1] + [id] + ids[1..][i - 1..];
      WorkInsert(ids[1..], timers, now, id, i - 1);
    }
  }

  /** Firing keeps everything settling, and uses up one firing. */
  lemma {:induction false} FireSettles(b: Base)
    requires Inv(b) && Due(b)
    ensures |b.wheel| == WHEEL
    ensures AllSettle(b.timers, b.now) <==> AllSettle(Fire(b).0.timers, b.now) && Settles(b.timers[b.sorted[0]], b.now)
  {
    var id := b.sorted[0];
    var t := b.timers[id];
    WheelSize(b);
    FireKeeps(b);
    hide Inv;
    hide Fire;
    hide Settles;
    var ts := Fire(b).0.timers;
    if t.period != 0 {
      ShotsNext(t, b.now, b.stamp);
      assert ts[id] == Next(t, b.stamp);
    }
    forall x | x in b.timers && x != id ensures x in ts && ts[x] == b.timers[x] {}
  }

  lemma {:induction false} HeadUnlinked(ids: seq<nat>)
    requires ids != []
    ensures Without(ids, ids[0]) == ids[1..]
  {
  }

  lemma {:induction false} InvBasics(b: Base)
    requires Inv(b)
    ensures |b.wheel| == WHEEL && NoDup(b.sorted) && forall x :: x in b.sorted <==> x in b.timers
  {
  }

  lemma {:induction false} RestArmed(b: Base)
    requires Inv(b) && b.sorted != []
    ensures forall x :: x in b.sorted[1..] ==> x in b.timers && x != b.sorted[0]
  {
    hide Inv;
    hide NoDup;
    InvBasics(b);
    TailFacts(b.sorted);
  }

  /** The fired head leaves the list, and comes back at some later place if periodic. */
  lemma {:induction false} FireSorted(b: Base, rest: seq<nat>) returns (i: nat)
    requires |b.wheel| == WHEEL && Due(b) && rest == b.sorted[1..]
    ensures i <= |rest|
    ensures b.timers[b.sorted[0]].period == 0 ==> Fire(b).0.sorted == rest
    ensures b.timers[b.sorted[0]].period != 0 ==> Fire(b).0.sorted == rest[..i] + [b.sorted[0]] + rest[i..]
  {
    hide Without;
    hide Place;
    var id := b.sorted[0];
    var t := b.timers[id];
    HeadUnlinked(b.sorted);
    var u := Unlink(b, id);
    assert u.sorted == rest;
    i := Place(rest, u.timers, (t.expires + t.period) % WORD);
  }

  lemma {:induction false} FireWork(b: Base)
    requires Inv(b) && Due(b) && AllSettle(b.timers, b.now)
    ensures |b.wheel| == WHEEL && AllSettle(Fire(b).0.timers, b.now)
    ensures Work(Fire(b).0.sorted, Fire(b).0.timers, b.now) == Work(b.sorted, b.timers, b.now) - 1
  {
    hide Inv;
    hide Shots;
    hide Settles;
    hide Fire;
    var id := b.sorted[0];
    var t := b.timers[id];
    var rest := b.sorted[1..];
    FireKeeps(b);
    FireSettles(b);
    var i := FireSorted(b, rest);
    RestArmed(b);
    var d := Fire(b).0;
    WorkAgree(rest, b.timers, d.timers, b.now);
    ShotsNow(t, b.now);
    if t.period != 0 {
      ShotsNext(t, b.now, b.stamp);
      WorkInsert(rest, d.timers, b.now, id, i);
    }
  }

  lemma {:induction false} ShotsNow(t: Timer, now: nat)
    requires t.expires <= now
    ensures t.period == 0 ==> Settles(t, now) && Shots(t, now) == 1
  {
  }

  /** `callout_advance` after the clock is set: final state and the firings in order. */
  ghost function Advance(b: Base): (r: (Base, seq<Fired>))
    requires Inv(b) && AllSettle(b.timers, b.now)
    decreases Work(b.sorted, b.timers, b.now)
  {
    if !Due(b) then (b, [])
    else
      FireKeeps(b);
      FireWork(b);
      var (c, f) := Fire(b);
      var (d, log) := Advance(c);
      (d, [f] + log)
  }

  function Fires(log: seq<Fired>, id: nat): (n: nat) {
    if log == [] then 0 else (if log[0].id == id then 1 else 0) + Fires(log[1..], id)
  }

  /** Nothing armed is due once the head is not. */
  lemma {:induction false} HeadEarliest(b: Base, id: nat)
    requires Inv(b) && id in b.timers
    ensures b.sorted != [] && b.sorted[0] in b.timers && b.timers[b.sorted[0]].expires <= b.timers[id].expires
    ensures id != b.sorted[0] ==> Before(b.timers[b.sorted[0]], b.timers[id])
  {
    assert id in b.sorted;
    var k :| 0 <= k < |b.sorted| && b.sorted[k] == id;
    assert k > 0 ==> Before(b.timers[b.sorted[0]], b.timers[b.sorted[k]]);
  }

  /** What an advance did to the timer `id`. */
  ghost predicate Outcome(b: Base, d: Base, log: seq<Fired>, id: nat)
    requires AllSettle(b.timers, b.now)
  {
    if id !in b.timers then Fires(log, id) == 0 && id !in d.timers
    else
      var t := b.timers[id];
      && Fires(log, id) == Shots(t, b.now)
      && (id in d.timers <==> t.period != 0 || t.expires > b.now)
      && (id in d.timers ==>
            && d.timers[id].expires > b.now && d.timers[id].period == t.period
            && d.timers[id].expires == Later(t.expires, t.period, Shots(t, b.now)))
  }

  lemma {:induction false} IdleOutcome(b: Base, id: nat)
    requires Inv(b) && AllSettle(b.timers, b.now) && !Due(b)
    ensures Outcome(b, b, [], id)
  {
    if id in b.timers {
      HeadEarliest(b, id);
    }
  }

  lemma {:induction false} FireOutcome(b: Base, d: Base, log: seq<Fired>, id: nat)
    requires Inv(b) && Due(b) && AllSettle(b.timers, b.now) && |b.wheel| == WHEEL
    requires Fire(b).0.now == b.now && AllSettle(Fire(b).0.timers, b.now) && Outcome(Fire(b).0, d, log, id)
    ensures Outcome(b, d, [Fire(b).1] + log, id)
  {
    hide Inv;
    hide Settles;
    hide Shots;
    hide Fire;
    FireKeeps(b);
    var (c, f) := Fire(b);
    var t := b.timers[b.sorted[0]];
    assert ([f] + log)[1..] == log;
    if id == b.sorted[0] {
      ShotsNow(t, b.now);
      if t.period != 0 {
        ShotsNext(t, b.now, b.stamp);
      }
    }
  }

  /** Every timer fires exactly as often as it alone would, one-shots at most once, and
   *  ends with its first expiry past the clock; the structures still agree. */
  lemma {:induction false} AdvanceFacts(b: Base, id: nat)
    requires Inv(b) && AllSettle(b.timers, b.now)
    ensures Inv(Advance(b).0) && Advance(b).0.now == b.now
    ensures Outcome(b, Advance(b).0, Advance(b).1, id)
    decreases Work(b.sorted, b.timers, b.now)
  {
    hide Outcome;
    hide Settles;
    hide Shots;
    if !Due(b) {
      IdleOutcome(b, id);
    } else {
      FireKeeps(b);
      FireWork(b);
      AdvanceFacts(Fire(b).0, id);
      FireOutcome(b, Advance(Fire(b).0).0, Advance(Fire(b).0).1, id);
    }
  }

  /** A cancelled timer is in neither structure; the others stay as they were. */
  lemma {:induction false} CancelExact(b: Base, id: nat)
    requires Inv(b)
    ensures |b.wheel| == WHEEL
    ensures var c := Cancel(b, id);
      && Inv(c) && c.now == b.now && c.timers == b.timers - {id}
      && id !in c.sorted && forall k :: 0 <= k < |c.wheel| ==> id !in c.wheel[k]
  {
    hide Unlink;
    WheelSize(b);
    if id in b.timers {
      UnlinkKeeps(b, id);
    }
  }

  /** It does not fire when the clock is advanced, however far, and is not armed afterwards; every
   *  other timer fires as often as it would have. */
  lemma {:induction false} CancelledSilent(b: Base, id: nat, clock: nat, x: nat)
    requires Inv(b) && clock < WORD && |b.wheel| == WHEEL && AllSettle(Cancel(b, id).timers, clock)
    ensures var c := Cancel(b, id).(now := clock);
      && Inv(c)
      && Fires(Advance(c).1, id) == 0 && id !in Advance(c).0.timers
      && (x != id && x in b.timers ==> Settles(b.timers[x], clock)
                                       && Fires(Advance(c).1, x) == Shots(b.timers[x], clock))
  {
    hide Settles;
    hide Shots;
    hide Cancel;
    hide Advance;
    hide Fires;
    CancelExact(b, id);
    var c := Cancel(b, id).(now := clock);
    assert Inv(c);
    hide Inv;
    AdvanceFacts(c, id);
    AdvanceFacts(c, x);
    assert x != id && x in b.timers ==> x in c.timers && c.timers[x] == b.timers[x];
  }

  // ---- Order of firing ------------------------------------------------------------

  predicate FiredBefore(f: Fired, g: Fired) {
    f.expires < g.expires || (f.expires == g.expires && f.stamp < g.stamp)
  }

  /** By expiry, and among equal expiries by order of arming. */
  ghost predicate InOrder(log: seq<Fired>) {
    forall i, j :: 0 <= i < j < |log| ==> FiredBefore(log[i], log[j])
  }

  ghost predicate AllStraight(timers: map<nat, Timer>, now: nat) {
    forall id :: id in timers ==> Straight(timers[id], now)
  }

  lemma {:induction false} InOrderCons(f: Fired, log: seq<Fired>)
    ensures InOrder([f] + log) <==> InOrder(log) && (log != [] ==> FiredBefore(f, log[0]))
  {
    var l := [f] + log;
    if InOrder(l) {
      forall i, j | 0 <= i < j < |log| ensures FiredBefore(log[i], log[j]) {
        assert FiredBefore(l[i + 1], l[j + 1]);
      }
      assert log != [] ==> FiredBefore(l[0], l[1]);
    } else if InOrder(log) && (log != [] ==> FiredBefore(f, log[0])) {
      forall i, j | 0 <= i < j < |l| ensures FiredBefore(l[i], l[j]) {
        if i == 0 && j > 1 {
          assert FiredBefore(log[0], log[j - 1]);
        }
      }
    }
  }

  /** The first firing of an advance is the head, if it is due. */
  lemma {:induction false} AdvanceHead(b: Base)
    requires Inv(b) && AllSettle(b.timers, b.now)
    ensures Advance(b).1 == [] <==> !Due(b)
    ensures Due(b) ==> var t := b.timers[b.sorted[0]];
      Advance(b).1[0] == Fired(b.sorted[0], t.expires, t.stamp)
  {
    hide Inv;
    hide Settles;
    hide Shots;
    if Due(b) {
      FireKeeps(b);
      FireWork(b);
    }
  }

  /** Straightness of the other timers is untouched; the fired one's is its next one's. */
  lemma {:induction false} FireStraight(b: Base)
    requires Inv(b) && Due(b) && |b.wheel| == WHEEL
    ensures var t := b.timers[b.sorted[0]];
      AllStraight(b.timers, b.now) <==>
        AllStraight(Fire(b).0.timers, b.now) && (t.period != 0 ==> t.expires + t.period < WORD)
  {
    var id := b.sorted[0];
    var t := b.timers[id];
    assert b.now < WORD;
    hide Inv;
    hide Fire;
    hide Straight;
    FireKeeps(b);
    var ts := Fire(b).0.timers;
    forall x | x in b.timers && x != id ensures x in ts && ts[x] == b.timers[x] {}
    if t.period != 0 {
      StraightNext(t, b.now, b.stamp);
      assert ts[id] == Next(t, b.stamp);
    } else {
      OneShotStraight(t, b.now);
      forall x | x in ts ensures x in b.timers && x != id && ts[x] == b.timers[x] {}
    }
  }

  lemma {:induction false} OneShotStraight(t: Timer, now: nat)
    requires t.period == 0 || t.expires > now
    ensures Straight(t, now)
  {
  }

  /** After a firing the new head comes later in the order, unless the re-arming wrapped:
   *  then it is due at once and earlier. */
  lemma {:induction false} HeadAfterFire(b: Base)
    requires Inv(b) && Due(b) && |b.wheel| == WHEEL
    ensures var (c, f) := Fire(b);
      var t := b.timers[b.sorted[0]];
      && Inv(c)
      && (t.period != 0 && t.expires + t.period >= WORD ==>
            Due(c) && c.timers[c.sorted[0]].expires < f.expires)
      && (t.period == 0 || t.expires + t.period < WORD ==>
            Due(c) ==> var u := c.timers[c.sorted[0]]; FiredBefore(f, Fired(c.sorted[0], u.expires, u.stamp)))
  {
    hide Inv;
    hide Fire;
    var id := b.sorted[0];
    var t := b.timers[id];
    TimerBounds(b, id);
    FireKeeps(b);
    var (c, f) := Fire(b);
    if t.period != 0 && t.expires + t.period >= WORD {
      assert c.timers[id].expires == t.expires + t.period - WORD;
      HeadEarliest(c, id);
    } else if Due(c) && c.sorted[0] != id {
      HeadEarliest(b, c.sorted[0]);
    }
  }

  lemma {:induction false} TimerBounds(b: Base, id: nat)
    requires Inv(b) && id in b.timers
    ensures b.timers[id].expires < WORD && b.timers[id].period < WORD && b.timers[id].stamp < b.stamp && b.now < WORD
  {
  }

  lemma {:induction false} IdleStraight(b: Base)
    requires Inv(b) && !Due(b)
    ensures AllStraight(b.timers, b.now)
  {
    hide Inv;
    forall id | id in b.timers ensures Straight(b.timers[id], b.now) {
      HeadEarliest(b, id);
    }
  }

  /** An advance fires in order of expiry, first armed first among equals, exactly when no
   *  due periodic timer's expiry wraps on the way. */
  lemma {:induction false} AdvanceOrder(b: Base)
    requires Inv(b) && AllSettle(b.timers, b.now)
    ensures InOrder(Advance(b).1) <==> AllStraight(b.timers, b.now)
    decreases Work(b.sorted, b.timers, b.now)
  {
    if !Due(b) {
      IdleStraight(b);
    } else {
      hide Inv;
      hide Settles;
      hide Shots;
      hide Fire;
      hide InOrder;
      hide AllStraight;
      FireKeeps(b);
      FireWork(b);
      var (c, f) := Fire(b);
      AdvanceOrder(c);
      AdvanceHead(c);
      FireStraight(b);
      HeadAfterFire(b);
      InOrderCons(f, Advance(c).1);
    }
  }

  // ---- Termination ----------------------------------------------------------------

  /** The loop after at most `n` turns. */
  function FireTimes(b: Base, n: nat): (r: Base)
    requires |b.wheel| == WHEEL
    decreases n
  {
    if n == 0 || !Due(b) then b
    else FireTimes(Fire(b).0, n - 1)
  }

  /** A timer that never passes the clock keeps the loop going for any number of turns. */
  lemma {:induction false} NeverEnds(b: Base, id: nat, n: nat)
    requires Inv(b) && id in b.timers && !Settles(b.timers[id], b.now)
    ensures |b.wheel| == WHEEL && Due(FireTimes(b, n))
    decreases n
  {
    hide Inv;
    hide Settles;
    hide Fire;
    WheelSize(b);
    HeadEarliest(b, id);
    var t := b.timers[id];
    UnsettledDue(t, b.now);
    assert Due(b);
    if n > 0 {
      FireKeeps(b);
      WheelSize(Fire(b).0);
      if id == b.sorted[0] {
        ShotsNext(t, b.now, b.stamp);
      }
      NeverEnds(Fire(b).0, id, n - 1);
    }
  }

  lemma {:induction false} UnsettledDue(t: Timer, now: nat)
    requires !Settles(t, now)
    ensures t.expires <= now && t.period != 0
  {
  }

  lemma {:induction false} Ends(b: Base)
    requires Inv(b) && AllSettle(b.timers, b.now)
    ensures |b.wheel| == WHEEL && FireTimes(b, |Advance(b).1|) == Advance(b).0 && !Due(Advance(b).0)
    decreases Work(b.sorted, b.timers, b.now)
  {
    hide Inv;
    hide Settles;
    hide Shots;
    hide Fire;
    WheelSize(b);
    if Due(b) {
      FireKeeps(b);
      FireWork(b);
      Ends(Fire(b).0);
    }
  }

  // ---- When a timer passes the clock ------------------------------------------------

  /** A periodic timer visits exactly the times congruent to its expiry modulo the largest
   *  power of two in its period. The greatest of them lies past the clock. */
  predicate Passes(t: Timer, now: nat) {
    t.expires > now || t.period == 0 || WORD - LowBit(t.period) + t.expires % LowBit(t.period) > now
  }

  predicate AllPass(timers: map<nat, Timer>, now: nat) {
    forall id :: id in timers ==> Passes(timers[id], now)
  }

  /** One re-arming keeps the residue of the expiry. */
  lemma {:induction false} ResidueKept(e: nat, q: nat, g: nat, w: nat)
    requires g > 0 && w > 0 && w * g == WORD
    ensures (e + q * g) % WORD % g == e % g
  {
    var x := e + q * g;
    var a, t := e / g, x / WORD;
    DivFacts(e, g);
    DivFacts(x, WORD);
    assert x % WORD == x - t * (w * g) == (a + q - t * w) * g + e % g by {
      Assoc(t, w, g);
      assert (a + q - t * w) * g == a * g + q * g - t * w * g;
    }
    var r := x % WORD;
    FactorNonNegative(a + q - t * w, g, e % g);
    ModUnique(r, g, a + q - t * w, e % g);
  }

  lemma {:induction false} LaterResidue(e: nat, p: nat, q: nat, g: nat, w: nat, k: nat)
    requires e < WORD && g > 0 && w > 0 && w * g == WORD && p == q * g
    ensures Later(e, p, k) % g == e % g && Later(e, p, k) < WORD
    decreases k
  {
    if k > 0 {
      ResidueKept(e, q, g, w);
      LaterResidue((e + p) % WORD, p, q, g, w, k - 1);
    }
  }

  lemma {:induction false} LaterIs(e: nat, p: nat, k: nat)
    requires e < WORD
    ensures Later(e, p, k) == (e + k * p) % WORD
    decreases k
  {
    if k > 0 {
      LaterIs((e + p) % WORD, p, k - 1);
      AddMod(e + p, (k - 1) * p, WORD);
      assert p + (k - 1) * p == k * p;
    }
  }

  /** No word with the residue of `e` lies above the top one. */
  lemma {:induction false} TopResidue(x: nat, g: nat, w: nat)
    requires x < WORD && g > 0 && w > 0 && w * g == WORD
    ensures x / g < w && x <= WORD - g + x % g
  {
    DivFacts(x, g);
    MulMono(w, x / g, g);
    MulMono(x / g, w - 1, g);
    assert (w - 1) * g == w * g - g;
  }

  /** The top word of the residue class is reached. */
  lemma {:induction false} TopReached(e: nat, p: nat, q: nat, m: nat, g: nat) returns (k: nat)
    requires e < WORD && g > 0 && Pow2(m) * g == WORD && p == q * g && q % 2 == 1
    ensures Later(e, p, k) == WORD - g + e % g
  {
    var w := Pow2(m);
    var a, r := e / g, e % g;
    DivFacts(e, g);
    TopResidue(e, g, w);
    var x, t := OddInverse(q, m);
    var d: nat := w - 1 - a;
    k := x * d;
    var s := t * d;
    assert a + k * q == w - 1 + s * w by { Turns(q, x, t, w, d); }
    assert e + k * p == s * WORD + (WORD - g + r) by {
      Assoc(k, q, g);
      Assoc(s, w, g);
      assert (a + k * q) * g == a * g + k * q * g;
      assert (w - 1 + s * w) * g == w * g - g + s * w * g;
    }
    LaterIs(e, p, k);
    ModUnique(e + k * p, WORD, s, WORD - g + r);
  }

  lemma {:induction false} Turns(q: nat, x: nat, t: nat, w: nat, d: nat)
    requires q * x == 1 + t * w
    ensures x * d * q == d + t * d * w
  {
    calc {
      x * d * q;
      q * x * d;
      (1 + t * w) * d;
      d + t * w * d;
      d + t * d * w;
    }
  }

  /** A timer settles exactly when `Passes` holds. */
  lemma {:induction false} SettlesIff(t: Timer, now: nat)
    requires t.expires < WORD && t.period < WORD
    ensures Settles(t, now) <==> Passes(t, now)
  {
    if t.period != 0 && t.expires <= now {
      var e, p, g := t.expires, t.period, LowBit(t.period);
      var q, n := LowBitFacts(p);
      WordIsPower();
      var m: nat := 64 - n;
      Pow2Add(m, n);
      var k0 := TopReached(e, p, q, m, g);
      forall k: nat ensures Later(e, p, k) <= WORD - g + e % g {
        LaterResidue(e, p, q, g, Pow2(m), k);
        TopResidue(Later(e, p, k), g, Pow2(m));
      }
    }
  }

  lemma {:induction false} WordIsPower()
    ensures Pow2(64) == WORD
  {
    assert Pow2(16) == 0x1_0000 by {
      assert Pow2(8) == 256;
      Pow2Add(8, 8);
    }
    assert Pow2(32) == 0x1_0000_0000 by { Pow2Add(16, 16); }
    Pow2Add(32, 32);
  }

  lemma {:induction false} AllPassIff(b: Base)
    requires Inv(b)
    ensures AllPass(b.timers, b.now) <==> AllSettle(b.timers, b.now)
  {
    hide Settles;
    hide Passes;
    forall id | id in b.timers ensures Settles(b.timers[id], b.now) <==> Passes(b.timers[id], b.now) {
      SettlesIff(b.timers[id], b.now);
    }
  }

  /** `callout_advance` returns exactly when every armed timer passes the clock. */
  lemma {:induction false} TerminatesIff(b: Base)
    requires Inv(b)
    ensures |b.wheel| == WHEEL
    ensures (exists n: nat :: !Due(FireTimes(b, n))) <==> AllPass(b.timers, b.now)
  {
    WheelSize(b);
    hide Inv;
    hide Settles;
    hide Passes;
    hide FireTimes;
    AllPassIff(b);
    if AllSettle(b.timers, b.now) {
      Ends(b);
    } else {
      var id :| id in b.timers && !Settles(b.timers[id], b.now);
      forall n: nat ensures Due(FireTimes(b, n)) {
        NeverEnds(b, id, n);
      }
    }
  }

  /** At the last 64-bit tick no due periodic timer can pass the clock. */
  lemma {:induction false} LastTick(t: Timer)
    requires t.expires < WORD && t.period != 0
    ensures !Settles(t, WORD - 1)
  {
    forall k: nat ensures Later(t.expires, t.period, k) < WORD {
      LaterBound(t.expires, t.period, k);
    }
  }

  lemma {:induction false} LaterBound(e: nat, p: nat, k: nat)
    requires e < WORD
    ensures Later(e, p, k) < WORD
    decreases k
  {
    if k > 0 {
      LaterBound((e + p) % WORD, p, k - 1);
    }
  }
}

/** The callout base as the kernel keeps it. Arming numbers are ghost. */
module Callouts {
  import opened Lists
  import opened CalloutSpec

  datatype Callout = Callout(expires: nat, period: nat, armed: bool, fireCount: nat)

  /** The armed timers. */
  ghost function Armed(cs: map<nat, Callout>, stamps: map<nat, nat>): (r: map<nat, Timer>) {
    map id | id in cs && cs[id].armed :: Timer(cs[id].expires, cs[id].period, if id in stamps then stamps[id] else 0)
  }

  lemma {:induction false} ArmedSet(cs: map<nat, Callout>, stamps: map<nat, nat>, id: nat, c: Callout, s: nat)
    requires c.armed
    ensures Armed(cs[id := c], stamps[id := s]) == Armed(cs, stamps)[id := Timer(c.expires, c.period, s)]
  {
  }

  lemma {:induction false} ArmedClear(cs: map<nat, Callout>, stamps: map<nat, nat>, id: nat, c: Callout)
    requires !c.armed
    ensures Armed(cs[id := c], stamps) == Armed(cs, stamps) - {id}
  {
  }

  lemma {:induction false} IsArmed(cs: map<nat, Callout>, stamps: map<nat, nat>, id: nat)
    requires id in cs && cs[id].armed
    ensures id in Armed(cs, stamps) && Armed(cs, stamps)[id].expires == cs[id].expires
    ensures Armed(cs, stamps)[id].period == cs[id].period
  {
  }

  lemma {:induction false} NotArmed(cs: map<nat, Callout>, stamps: map<nat, nat>, id: nat)
    requires id in cs && !cs[id].armed
    ensures id !in Armed(cs, stamps)
  {
  }

  /** Setting the clock touches neither structure. */
  lemma {:induction false} ClockKeeps(b: Base, clock: nat)
    requires Inv(b) && clock < WORD
    ensures Inv(b.(now := clock))
  {
  }

  /** The head of the list is an armed callout, and its fields are the head timer's. */
  lemma {:induction false} HeadKnown(b: Base, cs: map<nat, Callout>, stamps: map<nat, nat>)
    requires Inv(b) && b.timers == Armed(cs, stamps)
    ensures b.sorted != [] ==> b.sorted[0] in b.timers && b.sorted[0] in cs && cs[b.sorted[0]].armed
    ensures b.sorted != [] ==> b.timers[b.sorted[0]].expires == cs[b.sorted[0]].expires
    ensures b.sorted != [] ==> b.timers[b.sorted[0]].period == cs[b.sorted[0]].period
  {
  }

  class CalloutBase {
    const wheel: array<seq<nat>>
    var now: nat
    var sorted: seq<nat>
    var callouts: map<nat, Callout>
    var armedCount: nat
    ghost var stamps: map<nat, nat>
    ghost var stamp: nat

    ghost function Abs(): Base
      reads this, wheel
    {
      Base(now, sorted, Armed(callouts, stamps), wheel[..], stamp)
    }

    ghost predicate Valid()
      reads this, wheel
    {
      wheel.Length == WHEEL && Inv(Abs()) && armedCount == |sorted|
    }

    constructor ()
      ensures Valid() && Abs() == Init() && fresh(wheel)
    {
      wheel := new seq<nat>[WHEEL](i => []);
      now, sorted, callouts, armedCount := 0, [], map[], 0;
      stamps, stamp := map[], 0;
      new;
      assert wheel[..] == EmptyWheel(WHEEL);
    }

    /** The list walk of `insert_sorted`: the first callout that expires strictly later. */
    method FindPlace(expires: nat) returns (i: nat)
      requires Valid()
      ensures i == Place(sorted, Abs().timers, expires)
    {
      i := 0;
      ghost var timers := Abs().timers;
      assert sorted[0..] == sorted;
      while i < |sorted|
        invariant i <= |sorted| && i + Place(sorted[i..], timers, expires) == Place(sorted, timers, expires)
      {
        assert sorted[i] in timers;
        if callouts[sorted[i]].expires > expires {
          return;
        }
        assert sorted[i..][1..] == sorted[i + 1..];
        i := i + 1;
      }
    }

    /** Set the expiry, mark armed, enter the list and the wheel. */
    method LinkTimer(id: nat, expires: nat, period: nat)
      requires Valid() && id in callouts && !callouts[id].armed && expires < WORD && period < WORD
      modifies this, wheel
      ensures Valid() && Abs() == Link(old(Abs()), id, expires, period)
      ensures callouts == old(callouts)[id := old(callouts)[id].(expires := expires, period := period, armed := true)]
    {
      hide Inv;
      hide Armed;
      NotArmed(callouts, stamps, id);
      LinkKeeps(Abs(), id, expires, period);
      var i := FindPlace(expires);
      ghost var was := wheel[..];
      var c := callouts[id].(expires := expires, period := period, armed := true);
      ArmedSet(callouts, stamps, id, c, stamp);
      callouts := callouts[id := c];
      sorted := sorted[..i] + [id] + sorted[i..];
      var k := expires % WHEEL;
      wheel[k] := wheel[k] + [id];
      assert wheel[..] == was[k := was[k] + [id]];
      stamps, stamp := stamps[id := stamp], stamp + 1;
      armedCount := armedCount + 1;
    }

    /** Leave both structures and clear the armed flag. */
    method UnlinkTimer(id: nat)
      requires Valid() && id in callouts && callouts[id].armed
      modifies this, wheel
      ensures Valid() && Abs() == Unlink(old(Abs()), id)
      ensures callouts == old(callouts)[id := old(callouts)[id].(armed := false)]
    {
      hide Inv;
      hide Armed;
      IsArmed(callouts, stamps, id);
      UnlinkKeeps(Abs(), id);
      InvBasics(Abs());
      WithoutFacts(sorted, id);
      ghost var was := wheel[..];
      var k := callouts[id].expires % WHEEL;
      wheel[k] := Without(wheel[k], id);
      assert wheel[..] == was[k := Without(was[k], id)];
      sorted := Without(sorted, id);
      ArmedClear(callouts, stamps, id, callouts[id].(armed := false));
      callouts := callouts[id := callouts[id].(armed := false)];
      if armedCount > 0 {
        armedCount := armedCount - 1;
      }
    }

    method ArmPeriodic(id: nat, delay: nat, period: nat)
      requires Valid() && id in callouts && period < WORD
      modifies this, wheel
      ensures Valid() && Abs() == Arm(old(Abs()), id, delay, period)
    {
      hide Inv;
      hide Armed;
      hide Link;
      hide Unlink;
      if callouts[id].armed {
        IsArmed(callouts, stamps, id);
        UnlinkKeeps(Abs(), id);
        UnlinkTimer(id);
      } else {
        NotArmed(callouts, stamps, id);
      }
      LinkTimer(id, (now + delay) % WORD, period);
    }

    method CancelTimer(id: nat) returns (was: bool)
      requires Valid() && id in callouts
      modifies this, wheel
      ensures Valid() && Abs() == Cancel(old(Abs()), id) && was == (id in old(Abs()).timers)
      ensures id in callouts && !callouts[id].armed
      ensures id !in sorted && forall k :: 0 <= k < wheel.Length ==> id !in wheel[k]
    {
      CancelExact(Abs(), id);
      was := callouts[id].armed;
      if was {
        UnlinkTimer(id);
      }
    }

    /** One turn of the loop. */
    method FireHead()
      requires Valid() && Due(Abs())
      modifies this, wheel
      ensures Valid() && Abs() == Fire(old(Abs())).0
      ensures forall x :: x in callouts <==> x in old(callouts)
      ensures forall x :: x in callouts ==>
        callouts[x].fireCount == old(callouts)[x].fireCount + if x == old(sorted)[0] then 1 else 0
    {
      hide Inv;
      hide Link;
      hide Unlink;
      HeadKnown(Abs(), callouts, stamps);
      var id := sorted[0];
      var e, p := callouts[id].expires, callouts[id].period;
      TimerBounds(Abs(), id);
      UnlinkKeeps(Abs(), id);
      UnlinkTimer(id);
      label Detached:
      callouts := callouts[id := callouts[id].(fireCount := callouts[id].fireCount + 1)];
      assert Armed(callouts, stamps) == old@Detached(Armed(callouts, stamps));
      if p != 0 {
        LinkTimer(id, (e + p) % WORD, p);
      }
    }

    /** `callout_advance`; it returns only if every armed callout passes `clock`. */
    method AdvanceTo(clock: nat) returns (fired: nat, ghost log: seq<Fired>)
      requires Valid() && clock < WORD && AllPass(Abs().timers, clock)
      modifies this, wheel
      ensures AllSettle(old(Abs()).timers, clock)
      ensures Valid() && (Abs(), log) == Advance(old(Abs()).(now := clock)) && fired == |log|
      ensures forall x :: x in callouts <==> x in old(callouts)
      ensures forall x :: x in callouts ==> callouts[x].fireCount == old(callouts)[x].fireCount + Fires(log, x)
    {
      hide Inv;
      hide Armed;
      hide AllSettle;
      hide Fire;
      hide AllPass;
      ClockKeeps(Abs(), clock);
      AllPassIff(Abs().(now := clock));
      fired := 0;
      now := clock;
      ghost var (end, all) := Advance(Abs());
      log := all;
      ghost var rest := all;
      HeadKnown(Abs(), callouts, stamps);
      while sorted != [] && callouts[sorted[0]].expires <= clock
        invariant Valid() && now == clock && AllSettle(Abs().timers, clock) && Advance(Abs()) == (end, rest)
        invariant fired + |rest| == |all|
        invariant forall x :: x in callouts <==> x in old(callouts)
        invariant forall x :: x in callouts ==>
          callouts[x].fireCount + Fires(rest, x) == old(callouts)[x].fireCount + Fires(all, x)
        invariant sorted != [] ==> sorted[0] in callouts && sorted[0] in Abs().timers
        invariant sorted != [] ==> Abs().timers[sorted[0]].expires == callouts[sorted[0]].expires
        decreases Work(sorted, Abs().timers, clock)
      {
        FireKeeps(Abs());
        FireWork(Abs());
        assert rest == [Fire(Abs()).1] + rest[1..];
        FireHead();
        rest := rest[1..];
        fired := fired + 1;
        HeadKnown(Abs(), callouts, stamps);
      }
    }
  }
}
