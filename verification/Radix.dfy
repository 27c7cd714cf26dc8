/** 64-ary radix tree over 36-bit keys (kernel/lib/radix.c).
 *
 *  A node holds 64 slots and counts the used ones; slots of a level-0 node hold
 *  values, slots above hold nodes. Values are the non-NULL pointers stored.
 */
module RadixSpec {
  import opened Arithmetic
  import opened Options

  const FANOUT: nat := 64
  const LEVELS: nat := 6
  const MAX_KEY: nat := 0xF_FFFF_FFFF

  type Value = v: nat | v != 0 witness 1

  datatype Slot = Null | Val(v: Value) | Child(node: Node)

  datatype Node = Node(slots: seq<Slot>, used: nat)

  /** Keys below one slot of a level: 64 to the power `level`. */
  function Span(level: nat): (s: nat)
    ensures s > 0
  {
    if level == 0 then 1 else FANOUT * Span(level - 1)
  }

  /** `slot_index`: (key >> (level * 6)) & 63. */
  function SlotIndex(key: nat, level: nat): (i: nat)
    ensures i < FANOUT
  {
    key / Span(level) % FANOUT
  }

  function Used(slots: seq<Slot>): nat {
    if slots == [] then 0 else (if slots[0] == Null then 0 else 1) + Used(slots[1..])
  }

  /** A zeroed node. */
  function Empty(): (n: Node)
    ensures |n.slots| == FANOUT && forall i :: 0 <= i < FANOUT ==> n.slots[i] == Null
  {
    Node(seq(FANOUT, i => Null), 0)
  }

  /** Shape: 64 slots, an exact use count, values at the bottom and nodes above. */
  ghost predicate Shaped(n: Node, level: nat)
    decreases level
  {
    && |n.slots| == FANOUT && n.used == Used(n.slots)
    && forall i :: 0 <= i < FANOUT ==>
         || n.slots[i] == Null
         || (if level == 0 then n.slots[i].Val? else n.slots[i].Child? && Shaped(n.slots[i].node, level - 1))
  }

  /** No node below `n`, and not `n` itself, is empty. */
  ghost predicate Pruned(n: Node, level: nat)
    decreases level
  {
    && n.used >= 1
    && (level > 0 ==> forall i :: 0 <= i < |n.slots| && n.slots[i].Child? ==> Pruned(n.slots[i].node, level - 1))
  }

  // ---- Operations ---------------------------------------------------------------

  function Lookup(n: Node, level: nat, key: nat): (r: Option<Value>)
    requires Shaped(n, level)
    decreases level
  {
    var s := n.slots[SlotIndex(key, level)];
    if s == Null then None
    else if level == 0 then Some(s.v)
    else Lookup(s.node, level - 1, key)
  }

  function Put(n: Node, i: nat, s: Slot): (r: Node)
    requires i < |n.slots| && (s == Null ==> n.slots[i] != Null && n.used > 0)
  {
    Node(n.slots[i := s], if n.slots[i] == Null then n.used + 1 else if s == Null then n.used - 1 else n.used)
  }

  /** Insert below `n`. `avail` allocations can still succeed; the flag tells success. A
   *  failing insert leaves the nodes it has already created in place. */
  function Insert(n: Node, level: nat, key: nat, v: Value, avail: nat): (r: (Node, bool, nat))
    requires Shaped(n, level)
    decreases level
  {
    var i := SlotIndex(key, level);
    if level == 0 then (Put(n, i, Val(v)), true, avail)
    else if n.slots[i] == Null && avail == 0 then (n, false, 0)
    else
      EmptyShaped(level - 1);
      var left := if n.slots[i] == Null then avail - 1 else avail;
      var (c, ok, rest) := Insert(ChildAt(n, i), level - 1, key, v, left);
      (Put(n, i, Child(c)), ok, rest)
  }

  /** Remove below `n`; a child that becomes empty is unlinked. The caller disposes of
   *  `n` itself. */
  function Remove(n: Node, level: nat, key: nat): (r: (Node, Option<Value>))
    requires Shaped(n, level)
    decreases level
  {
    var i := SlotIndex(key, level);
    var s := n.slots[i];
    if s == Null then (n, None)
    else
      SlotUsed(n.slots, i, Null);
      if level == 0 then (Put(n, i, Null), Some(s.v))
      else
        var (c, v) := Remove(s.node, level - 1, key);
        if v == None then (n, None)
        else if c.used == 0 then (Put(n, i, Null), v)
        else (Put(n, i, Child(c)), v)
  }

  // ---- Slot counting and key arithmetic -----------------------------------------

  lemma {:induction false} UsedAppend(a: seq<Slot>, b: seq<Slot>)
    ensures Used(a + b) == Used(a) + Used(b)
  {
    if a == [] {
      assert a + b == b;
    } else {
      assert (a + b)[1..] == a[1..] + b;
      UsedAppend(a[1..], b);
    }
  }

  lemma {:induction false} SlotUsed(slots: seq<Slot>, i: nat, s: Slot)
    requires i < |slots|
    ensures slots[i] != Null ==> Used(slots) > 0
    ensures Used(slots[i := s]) == Used(slots) - (if slots[i] == Null then 0 else 1) + (if s == Null then 0 else 1)
  {
    var a, b := slots[..i], slots[i + 1..];
    assert slots == a + ([slots[i]] + b) && slots[i := s] == a + ([s] + b);
    UsedAppend(a, [slots[i]] + b);
    UsedAppend([slots[i]], b);
    UsedAppend(a, [s] + b);
    UsedAppend([s], b);
    assert [slots[i]][1..] == [] == [s][1..];
  }

  lemma {:induction false} NoneUsed(slots: seq<Slot>)
    ensures Used(slots) == 0 <==> forall i :: 0 <= i < |slots| ==> slots[i] == Null
  {
    if slots != [] {
      NoneUsed(slots[1..]);
      assert forall i :: 0 < i < |slots| ==> slots[i] == slots[1..][i - 1];
    }
  }

  lemma {:induction false} EmptyShaped(level: nat)
    ensures Shaped(Empty(), level)
  {
    NoneUsed(Empty().slots);
  }

  /** Two keys agree below a level when they agree modulo its span. */
  lemma {:induction false} DigitsDecide(j: nat, k: nat, level: nat)
    ensures j % (FANOUT * Span(level)) == k % (FANOUT * Span(level)) <==>
            SlotIndex(j, level) == SlotIndex(k, level) && j % Span(level) == k % Span(level)
  {
    var s := Span(level);
    DigitSplit(j, s);
    DigitSplit(k, s);
    if j / s % FANOUT == k / s % FANOUT && j % s == k % s {
    } else if j % (FANOUT * s) == k % (FANOUT * s) {
      DigitUnique(j % (FANOUT * s), s, j / s % FANOUT, j % s);
      DigitUnique(k % (FANOUT * s), s, k / s % FANOUT, k % s);
    }
  }

  lemma {:induction false} Regroup(t: nat, s: nat)
    ensures t * FANOUT * s == t * (FANOUT * s)
  {
  }

  lemma {:induction false} DigitSplit(j: nat, s: nat)
    requires s > 0
    ensures j % (FANOUT * s) == j / s % FANOUT * s + j % s
  {
    var q, r := j / s, j % s;
    var t, d := q / FANOUT, q % FANOUT;
    assert j == q * s + r;
    assert q == t * FANOUT + d;
    Distribute(t * FANOUT, d, s);
    Regroup(t, s);
    MulMono(d, FANOUT - 1, s);
    Distribute(FANOUT - 1, 1, s);
    ModUnique(j, FANOUT * s, t, d * s + r);
  }

  lemma {:induction false} DigitUnique(j: nat, s: nat, d: nat, r: nat)
    requires s > 0 && j == d * s + r && r < s
    ensures j / s == d && j % s == r
  {
    ModUnique(j, s, d, r);
  }

  // ---- The tree is a map ------------------------------------------------------------

  /** `j` and `k` are the same key as far as a node of this level can tell. */
  ghost predicate SameKey(j: nat, k: nat, level: nat) {
    j % (FANOUT * Span(level)) == k % (FANOUT * Span(level))
  }

  /** A node tells keys apart by its own digit and what its children see. */
  lemma {:induction false} KeyStep(j: nat, k: nat, level: nat)
    ensures SameKey(j, k, level) <==>
            SlotIndex(j, level) == SlotIndex(k, level) && (level == 0 || SameKey(j, k, level - 1))
  {
    DigitsDecide(j, k, level);
    assert Span(0) == 1 && j % 1 == k % 1;
  }

  lemma {:induction false} EmptyLookup(level: nat, j: nat)
    ensures Shaped(Empty(), level) && Lookup(Empty(), level, j) == None
  {
    EmptyShaped(level);
  }

  lemma {:induction false} PutShaped(n: Node, level: nat, i: nat, s: Slot)
    requires Shaped(n, level) && i < FANOUT && (s == Null ==> n.slots[i] != Null)
    requires s == Null || (if level == 0 then s.Val? else s.Child? && Shaped(s.node, level - 1))
    ensures n.slots[i] != Null ==> n.used > 0
    ensures Shaped(Put(n, i, s), level)
  {
    SlotUsed(n.slots, i, s);
  }

  lemma {:induction false} PutLookup(n: Node, level: nat, i: nat, c: Node, j: nat)
    requires Shaped(n, level) && level > 0 && i < FANOUT && Shaped(c, level - 1)
    ensures Shaped(Put(n, i, Child(c)), level)
    ensures Lookup(Put(n, i, Child(c)), level, j) ==
            if SlotIndex(j, level) == i then Lookup(c, level - 1, j) else Lookup(n, level, j)
  {
    hide SlotIndex;
    PutShaped(n, level, i, Child(c));
  }

  /** What a missing child answers. */
  function ChildAt(n: Node, i: nat): (c: Node)
    requires i < |n.slots| && (n.slots[i] == Null || n.slots[i].Child?)
  {
    if n.slots[i] == Null then Empty() else n.slots[i].node
  }

  lemma {:induction false} ChildLookup(n: Node, level: nat, j: nat)
    requires Shaped(n, level) && level > 0
    ensures var i := SlotIndex(j, level);
            && (n.slots[i] == Null || n.slots[i].Child?)
            && Shaped(ChildAt(n, i), level - 1)
            && Lookup(n, level, j) == Lookup(ChildAt(n, i), level - 1, j)
  {
    EmptyLookup(level - 1, j);
  }

  /** Inserting changes the answer for the inserted key only, and only on success. */
  lemma {:induction false} InsertLookup(n: Node, level: nat, k: nat, v: Value, avail: nat, j: nat)
    requires Shaped(n, level)
    ensures var (r, ok, _) := Insert(n, level, k, v, avail);
            && Shaped(r, level)
            && Lookup(r, level, j) == if ok && SameKey(j, k, level) then Some(v) else Lookup(n, level, j)
    decreases level
  {
    hide Span;
    hide SlotIndex;
    hide SameKey;
    var i := SlotIndex(k, level);
    KeyStep(j, k, level);
    if level == 0 {
      PutShaped(n, 0, i, Val(v));
    } else if n.slots[i] != Null || avail > 0 {
      ChildLookup(n, level, k);
      ChildLookup(n, level, j);
      var left := if n.slots[i] == Null then avail - 1 else avail;
      InsertLookup(ChildAt(n, i), level - 1, k, v, left, j);
      PutLookup(n, level, i, Insert(ChildAt(n, i), level - 1, k, v, left).0, j);
    }
  }

  /** Removing returns the stored value and forgets exactly that key. */
  lemma {:induction false} RemoveLookup(n: Node, level: nat, k: nat, j: nat)
    requires Shaped(n, level)
    ensures var (r, v) := Remove(n, level, k);
            && Shaped(r, level)
            && v == Lookup(n, level, k)
            && Lookup(r, level, j) == if SameKey(j, k, level) then None else Lookup(n, level, j)
    decreases level
  {
    hide Span;
    hide SlotIndex;
    hide SameKey;
    var i := SlotIndex(k, level);
    KeyStep(j, k, level);
    if n.slots[i] != Null {
      if level == 0 {
        PutShaped(n, 0, i, Null);
      } else {
        RemoveLookup(n.slots[i].node, level - 1, k, j);
        var (c, v) := Remove(n.slots[i].node, level - 1, k);
        if c.used == 0 {
          PutShaped(n, level, i, Null);
          NoneUsed(c.slots);
        } else {
          PutShaped(n, level, i, Child(c));
        }
        if v == None && SameKey(j, k, level) {
          SameKeyLookup(n.slots[i].node, level - 1, j, k);
        }
      }
    }
  }

  lemma {:induction false} SameKeyLookup(n: Node, level: nat, j: nat, k: nat)
    requires Shaped(n, level) && SameKey(j, k, level)
    ensures Lookup(n, level, j) == Lookup(n, level, k)
    decreases level
  {
    hide Span;
    hide SlotIndex;
    hide SameKey;
    KeyStep(j, k, level);
    var s := n.slots[SlotIndex(k, level)];
    if level > 0 && s != Null {
      SameKeyLookup(s.node, level - 1, j, k);
    }
  }

  // ---- Memory -----------------------------------------------------------------------

  /** Nodes missing on the path of `key` below `n`. */
  function MissingBelow(n: Node, level: nat, key: nat): (m: nat)
    requires Shaped(n, level)
    ensures m <= level
    decreases level
  {
    var s := n.slots[SlotIndex(key, level)];
    if level == 0 then 0 else if s == Null then level else MissingBelow(s.node, level - 1, key)
  }

  /** An insert below `n` succeeds exactly when every missing node can be allocated. */
  lemma {:induction false} InsertSucceeds(n: Node, level: nat, key: nat, v: Value, avail: nat)
    requires Shaped(n, level)
    ensures Insert(n, level, key, v, avail).1 <==> avail >= MissingBelow(n, level, key)
    decreases level
  {
    hide SlotIndex;
    hide Empty;
    hide Put;
    if level > 0 {
      var i := SlotIndex(key, level);
      EmptyShaped(level - 1);
      if n.slots[i] != Null || avail > 0 {
        InsertSucceeds(ChildAt(n, i), level - 1, key, v, if n.slots[i] == Null then avail - 1 else avail);
      }
      EmptyMissing(level - 1, key);
    }
  }

  lemma {:induction false} EmptyMissing(level: nat, key: nat)
    ensures Shaped(Empty(), level) && MissingBelow(Empty(), level, key) == level
  {
    EmptyShaped(level);
  }

  // ---- Pruning ----------------------------------------------------------------------

  /** An insert leaves an empty node behind exactly when there is memory for some but not
   *  all of the missing nodes. */
  lemma {:induction false} InsertPruned(n: Node, level: nat, k: nat, v: Value, avail: nat)
    requires Shaped(n, level) && Pruned(n, level)
    ensures Pruned(Insert(n, level, k, v, avail).0, level) <==> avail >= MissingBelow(n, level, k) || avail == 0
  {
    hide Insert;
    hide MissingBelow;
    InsertSucceeds(n, level, k, v, avail);
    FailurePruned(n, level, k, v, avail);
  }

  lemma {:induction false} FailurePruned(n: Node, level: nat, k: nat, v: Value, avail: nat)
    requires Shaped(n, level) && Pruned(n, level)
    ensures var (r, ok, _) := Insert(n, level, k, v, avail);
            Pruned(r, level) <==> ok || avail == 0
    decreases level
  {
    var i := SlotIndex(k, level);
    if level > 0 {
      if n.slots[i] == Null {
        if avail > 0 {
          InsertIntoEmpty(level - 1, k, v, avail - 1);
          var r := Insert(n, level, k, v, avail).0;
          assert r.slots[i].Child?;
        }
      } else {
        assert n.slots[i].Child?;
        FailurePruned(n.slots[i].node, level - 1, k, v, avail);
        var r := Insert(n, level, k, v, avail).0;
        assert r.slots[i].Child?;
      }
    }
  }

  lemma {:induction false} SingleChildPruned(i: nat, c: Node, level: nat)
    requires level > 0 && i < FANOUT
    ensures Pruned(Put(Empty(), i, Child(c)), level) <==> Pruned(c, level - 1)
  {
    var r := Put(Empty(), i, Child(c));
    assert r.slots[i] == Child(c);
  }

  lemma {:induction false} InsertIntoEmpty(level: nat, k: nat, v: Value, avail: nat)
    ensures Shaped(Empty(), level)
    ensures var (r, ok, _) := Insert(Empty(), level, k, v, avail);
            Pruned(r, level) <==> ok
    decreases level
  {
    hide SlotIndex;
    EmptyShaped(level);
    if level > 0 {
      hide Put;
      hide Pruned;
      hide Shaped;
      hide Empty;
      var i := SlotIndex(k, level);
      if avail > 0 {
        InsertIntoEmpty(level - 1, k, v, avail - 1);
        var (c, ok, rest) := Insert(Empty(), level - 1, k, v, avail - 1);
        SingleChildPruned(i, c, level);
        assert Insert(Empty(), level, k, v, avail) == (Put(Empty(), i, Child(c)), ok, rest);
      } else {
        EmptyNotPruned(level);
        assert Insert(Empty(), level, k, v, avail) == (Empty(), false, 0);
      }
    }
  }

  lemma {:induction false} EmptyNotPruned(level: nat)
    ensures !Pruned(Empty(), level)
  {
  }

  /** Removal prunes: no empty node survives, except that the top may become empty. */
  lemma {:induction false} RemovePruned(n: Node, level: nat, k: nat)
    requires Shaped(n, level) && Pruned(n, level)
    ensures var r := Remove(n, level, k).0;
            r.used == 0 || Pruned(r, level)
    decreases level
  {
    var i := SlotIndex(k, level);
    if level > 0 && n.slots[i] != Null {
      assert n.slots[i].Child?;
      RemovePruned(n.slots[i].node, level - 1, k);
    }
  }

  /** A pruned node holds an entry. */
  lemma {:induction false} PrunedHasEntry(n: Node, level: nat) returns (k: nat)
    requires Shaped(n, level) && Pruned(n, level)
    ensures k < FANOUT * Span(level) && Lookup(n, level, k).Some?
    decreases level
  {
    hide SameKey;
    hide Base;
    NoneUsed(n.slots);
    var i :| 0 <= i < |n.slots| && n.slots[i] != Null;
    if level == 0 {
      k := i;
      assert Span(0) == 1 && SlotIndex(k, 0) == i;
    } else {
      var low := PrunedHasEntry(n.slots[i].node, level - 1);
      k := Base(level, 0, i) + low;
      BaseFacts(level, 0, i);
      BaseFacts(level, 0, i + 1);
      BaseDigit(level, 0, i, k);
      LowKey(level, i, low);
      SameKeyLookup(n.slots[i].node, level - 1, k, low);
    }
    WholeBase(level);
  }

  lemma {:induction false} WholeBase(level: nat)
    ensures Base(level, 0, FANOUT) == FANOUT * Span(level)
  {
  }

  lemma {:induction false} LowKey(level: nat, i: nat, low: nat)
    requires level > 0 && low < Span(level)
    ensures SameKey(Base(level, 0, i) + low, low, level - 1)
  {
    ModUnique(Base(level, 0, i) + low, Span(level), i, low);
    ModIdentity(low, Span(level));
  }

  lemma {:induction false} ModIdentity(a: nat, m: nat)
    requires a < m
    ensures a % m == a
  {
    ModUnique(a, m, 0, a);
  }

  // ---- The whole tree ---------------------------------------------------------------

  datatype Tree = Tree(root: Option<Node>, count: nat)

  const TOP: nat := LEVELS - 1

  ghost predicate TreeShaped(t: Tree) {
    t.root.Some? ==> Shaped(t.root.value, TOP)
  }

  /** No empty node anywhere. */
  ghost predicate Tight(t: Tree) {
    t.root.Some? ==> Pruned(t.root.value, TOP)
  }

  function Find(t: Tree, key: nat): (r: Option<Value>)
    requires TreeShaped(t)
  {
    if key > MAX_KEY || t.root == None then None else Lookup(t.root.value, TOP, key)
  }

  /** The finite map the tree stands for. */
  ghost function Entries(t: Tree): (m: map<nat, Value>)
    requires TreeShaped(t)
  {
    map k: nat | k <= MAX_KEY && Find(t, k).Some? :: Find(t, k).value
  }

  ghost predicate Inv(t: Tree) {
    TreeShaped(t) && t.count == |Entries(t)|
  }

  /** `radix_insert`; a value of 0 is the NULL pointer, `avail` the allocations that can
   *  still succeed. */
  function InsertKey(t: Tree, key: nat, v: nat, avail: nat): (r: (Tree, bool))
    requires TreeShaped(t)
  {
    if key > MAX_KEY || v == 0 || (t.root == None && avail == 0) then (t, false)
    else
      EmptyShaped(TOP);
      var n := if t.root == None then Empty() else t.root.value;
      var left := if t.root == None then avail - 1 else avail;
      var (r, ok, _) := Insert(n, TOP, key, v, left);
      (Tree(Some(r), if ok && Lookup(n, TOP, key) == None then t.count + 1 else t.count), ok)
  }

  function RemoveKey(t: Tree, key: nat): (r: (Tree, Option<Value>))
    requires TreeShaped(t)
  {
    if key > MAX_KEY || t.root == None then (t, None)
    else
      var (r, v) := Remove(t.root.value, TOP, key);
      if v == None then (t, None)
      else (Tree(if r.used == 0 then None else Some(r), if t.count > 0 then t.count - 1 else 0), v)
  }

  lemma {:induction false} TopKeys(j: nat, k: nat)
    requires j <= MAX_KEY && k <= MAX_KEY
    ensures SameKey(j, k, TOP) <==> j == k
  {
    assert FANOUT * Span(TOP) == MAX_KEY + 1 by {
      assert Span(1) == 64 && Span(2) == 4096 && Span(3) == 262144;
    }
    ModIdentity(j, MAX_KEY + 1);
    ModIdentity(k, MAX_KEY + 1);
  }

  lemma {:induction false} InsertFind(t: Tree, key: nat, v: nat, avail: nat, j: nat)
    requires TreeShaped(t) && j <= MAX_KEY
    ensures var (r, ok) := InsertKey(t, key, v, avail);
            && TreeShaped(r)
            && (ok ==> key <= MAX_KEY && v != 0)
            && Find(r, j) == (if ok && j == key then Some(v) else Find(t, j))
            && r.count == (if ok && Find(t, key) == None then t.count + 1 else t.count)
  {
    hide Span;
    hide SameKey;
    hide Shaped;
    hide Insert;
    hide Lookup;
    hide Empty;
    if !(key > MAX_KEY || v == 0 || (t.root == None && avail == 0)) {
      var n := if t.root == None then Empty() else t.root.value;
      EmptyLookup(TOP, key);
      EmptyLookup(TOP, j);
      InsertLookup(n, TOP, key, v, if t.root == None then avail - 1 else avail, j);
      TopKeys(j, key);
    }
  }

  /** `radix_insert` is map update when it succeeds and changes no entry when it fails;
   *  it fails only for a bad key, a NULL value or want of memory. */
  lemma {:induction false} InsertRefines(t: Tree, key: nat, v: nat, avail: nat)
    requires Inv(t)
    ensures var (r, ok) := InsertKey(t, key, v, avail);
            && Inv(r)
            && (ok ==> key <= MAX_KEY && v != 0 && Entries(r) == Entries(t)[key := v])
            && (!ok ==> Entries(r) == Entries(t))
            && (ok <==> key <= MAX_KEY && v != 0 && avail >= Missing(t, key))
  {
    hide InsertKey;
    hide Find;
    hide TreeShaped;
    var (r, ok) := InsertKey(t, key, v, avail);
    InsertFind(t, key, v, avail, 0);
    EnoughMemory(t, key, v, avail);
    hide Missing;
    forall j: nat | j <= MAX_KEY ensures Find(r, j) == if ok && j == key then Some(v) else Find(t, j) {
      InsertFind(t, key, v, avail, j);
    }
    if ok {
      assert Entries(r) == Entries(t)[key := v];
    } else {
      assert Entries(r) == Entries(t);
    }
  }

  /** Nodes missing on the path of `key`, the root included. */
  function Missing(t: Tree, key: nat): (m: nat)
    requires TreeShaped(t)
    ensures m <= LEVELS
  {
    if t.root == None then LEVELS else MissingBelow(t.root.value, TOP, key)
  }

  /** `radix_insert` succeeds exactly for a key in range and a value, when every node missing
   *  on the key's path can be allocated; six always suffice. */
  lemma {:induction false} EnoughMemory(t: Tree, key: nat, v: nat, avail: nat)
    requires TreeShaped(t)
    ensures InsertKey(t, key, v, avail).1 <==> key <= MAX_KEY && v != 0 && avail >= Missing(t, key)
  {
    hide Insert;
    hide Lookup;
    hide MissingBelow;
    EmptyShaped(TOP);
    EmptyMissing(TOP, key);
    if v != 0 {
      if t.root.Some? {
        InsertSucceeds(t.root.value, TOP, key, v, avail);
      } else if avail > 0 {
        InsertSucceeds(Empty(), TOP, key, v, avail - 1);
      }
    }
  }

  lemma {:induction false} RemoveFind(t: Tree, key: nat, j: nat)
    requires TreeShaped(t) && j <= MAX_KEY
    ensures var (r, v) := RemoveKey(t, key);
            && TreeShaped(r)
            && v == Find(t, key)
            && Find(r, j) == (if j == key then None else Find(t, j))
            && (v.Some? ==> r.count == if t.count > 0 then t.count - 1 else 0)
            && (v.None? ==> r.count == t.count)
  {
    hide Span;
    hide SameKey;
    hide Remove;
    hide SlotIndex;
    if key <= MAX_KEY && t.root.Some? {
      var n := t.root.value;
      RemoveLookup(n, TOP, key, j);
      TopKeys(j, key);
      var r := Remove(n, TOP, key).0;
      if r.used == 0 {
        NoneUsed(r.slots);
      }
    }
  }

  /** `radix_remove` is map deletion and returns what was stored. */
  lemma {:induction false} RemoveRefines(t: Tree, key: nat)
    requires Inv(t)
    ensures var (r, v) := RemoveKey(t, key);
            && Inv(r)
            && v == Find(t, key)
            && Entries(r) == Entries(t) - {key}
  {
    hide RemoveKey;
    hide Find;
    hide TreeShaped;
    var (r, v) := RemoveKey(t, key);
    RemoveFind(t, key, 0);
    NotBeyond(t, key);
    forall j: nat | j <= MAX_KEY ensures Find(r, j) == if j == key then None else Find(t, j) {
      RemoveFind(t, key, j);
    }
    assert Entries(r) == Entries(t) - {key};
    assert v.Some? ==> key in Entries(t);
    assert v.None? ==> Entries(t) - {key} == Entries(t);
  }

  lemma {:induction false} NotBeyond(t: Tree, key: nat)
    requires TreeShaped(t)
    ensures key > MAX_KEY ==> Find(t, key) == None
  {
  }

  /** Without a half-done insert, the root is NULL exactly when the tree is empty. */
  lemma {:induction false} RootNullIffEmpty(t: Tree)
    requires Inv(t) && Tight(t)
    ensures t.root == None <==> Entries(t) == map[]
  {
    if t.root.Some? {
      var k := PrunedHasEntry(t.root.value, TOP);
      assert FANOUT * Span(TOP) == MAX_KEY + 1 by {
        assert Span(1) == 64 && Span(2) == 4096 && Span(3) == 262144;
      }
      assert k in Entries(t);
    }
  }

  /** Which operations keep the tree free of empty nodes: every removal, and every insert
   *  except one for which there is memory for some but not all of the missing nodes. */
  lemma {:induction false} TightKept(t: Tree, key: nat, v: nat, avail: nat)
    requires TreeShaped(t) && Tight(t)
    ensures Tight(RemoveKey(t, key).0)
    ensures Tight(InsertKey(t, key, v, avail).0) <==>
            avail >= Missing(t, key) || avail == 0 || key > MAX_KEY || v == 0
  {
    hide MissingBelow;
    hide Insert;
    hide Remove;
    hide Lookup;
    hide Pruned;
    hide Shaped;
    hide Empty;
    EmptyShaped(TOP);
    if t.root.Some? {
      RemovePruned(t.root.value, TOP, key);
      if v != 0 {
        InsertPruned(t.root.value, TOP, key, v, avail);
      }
    } else if avail > 0 && v != 0 {
      InsertIntoEmpty(TOP, key, v, avail - 1);
      EnoughMemory(t, key, v, avail);
    }
  }

  // ---- Whole runs -------------------------------------------------------------------

  datatype Op = Ins(key: nat, v: nat, avail: nat) | Del(key: nat)

  ghost function Run(t: Tree, ops: seq<Op>): (r: Tree)
    requires Inv(t)
    ensures Inv(r)
    decreases |ops|
  {
    if ops == [] then t
    else match ops[0]
      case Ins(k, v, a) => InsertRefines(t, k, v, a); Run(InsertKey(t, k, v, a).0, ops[1..])
      case Del(k) => RemoveRefines(t, k); Run(RemoveKey(t, k).0, ops[1..])
  }

  /** What each operation of the run reports: an insert its success. */
  ghost function Answers(t: Tree, ops: seq<Op>): (bs: seq<bool>)
    requires Inv(t)
    ensures |bs| == |ops|
    decreases |ops|
  {
    if ops == [] then []
    else match ops[0]
      case Ins(k, v, a) =>
        InsertRefines(t, k, v, a);
        [InsertKey(t, k, v, a).1] + Answers(InsertKey(t, k, v, a).0, ops[1..])
      case Del(k) =>
        RemoveRefines(t, k);
        [true] + Answers(RemoveKey(t, k).0, ops[1..])
  }

  /** The same run on a plain map, where an insert counts if it reported success. */
  ghost function MapRun(m: map<nat, Value>, ops: seq<Op>, answers: seq<bool>): (r: map<nat, Value>)
    requires |ops| == |answers|
    decreases |ops|
  {
    if ops == [] then m
    else match ops[0]
      case Ins(k, v, a) => MapRun(if answers[0] && v != 0 then m[k := v] else m, ops[1..], answers[1..])
      case Del(k) => MapRun(m - {k}, ops[1..], answers[1..])
  }

  /** After any run of inserts and removals, whatever memory there was, the tree is that map:
   *  lookups agree and the count is its size. */
  lemma {:induction false} RunRefinesMap(t: Tree, ops: seq<Op>)
    requires Inv(t)
    ensures var m := MapRun(Entries(t), ops, Answers(t, ops));
            Entries(Run(t, ops)) == m && Run(t, ops).count == |m|
    decreases |ops|
  {
    if ops != [] {
      var bs := Answers(t, ops);
      match ops[0]
      case Ins(k, v, a) =>
        InsertRefines(t, k, v, a);
        assert bs[1..] == Answers(InsertKey(t, k, v, a).0, ops[1..]);
        RunRefinesMap(InsertKey(t, k, v, a).0, ops[1..]);
      case Del(k) =>
        RemoveRefines(t, k);
        assert bs[1..] == Answers(RemoveKey(t, k).0, ops[1..]);
        RunRefinesMap(RemoveKey(t, k).0, ops[1..]);
    }
  }

  /** Every insert of the run that names a key in range and a value finds memory for all the
   *  nodes missing at that point, or for none. */
  ghost predicate Provisioned(t: Tree, ops: seq<Op>)
    requires Inv(t)
    decreases |ops|
  {
    if ops == [] then true
    else match ops[0]
      case Ins(k, v, a) =>
        InsertRefines(t, k, v, a);
        && (a >= Missing(t, k) || a == 0 || k > MAX_KEY || v == 0)
        && Provisioned(InsertKey(t, k, v, a).0, ops[1..])
      case Del(k) =>
        RemoveRefines(t, k);
        Provisioned(RemoveKey(t, k).0, ops[1..])
  }

  /** The tree is free of empty nodes before, during and after the run. */
  ghost predicate StaysTight(t: Tree, ops: seq<Op>)
    requires Inv(t)
    decreases |ops|
  {
    Tight(t) &&
    if ops == [] then true
    else match ops[0]
      case Ins(k, v, a) => InsertRefines(t, k, v, a); StaysTight(InsertKey(t, k, v, a).0, ops[1..])
      case Del(k) => RemoveRefines(t, k); StaysTight(RemoveKey(t, k).0, ops[1..])
  }

  /** Exactly then no node is ever left empty; and the root is NULL exactly when the map is
   *  empty. */
  lemma {:induction false} RunTight(t: Tree, ops: seq<Op>)
    requires Inv(t) && Tight(t)
    ensures StaysTight(t, ops) <==> Provisioned(t, ops)
    ensures Provisioned(t, ops) ==> (Run(t, ops).root == None <==> Entries(Run(t, ops)) == map[])
    decreases |ops|
  {
    if ops == [] {
      RootNullIffEmpty(t);
    } else {
      match ops[0]
      case Ins(k, v, a) =>
        InsertRefines(t, k, v, a);
        TightKept(t, k, v, a);
        if Tight(InsertKey(t, k, v, a).0) {
          RunTight(InsertKey(t, k, v, a).0, ops[1..]);
        }
      case Del(k) =>
        RemoveRefines(t, k);
        TightKept(t, k, 0, 0);
        RunTight(RemoveKey(t, k).0, ops[1..]);
    }
  }

  // ---- Iteration --------------------------------------------------------------------

  /** `foreach_rec` over slots `i` .. 63: the entries visited, in order. */
  function Visit(n: Node, level: nat, prefix: nat, i: nat): (r: seq<(nat, Value)>)
    requires Shaped(n, level) && i <= FANOUT
    decreases level, FANOUT - i
  {
    if i == FANOUT then []
    else
      var rest := Visit(n, level, prefix, i + 1);
      var key := prefix + i * Span(level);
      match n.slots[i]
      case Null => rest
      case Val(v) => [(key, v)] + rest
      case Child(c) => Visit(c, level - 1, key, 0) + rest
  }

  function Foreach(t: Tree): (r: seq<(nat, Value)>)
    requires TreeShaped(t)
  {
    if t.root == None then [] else Visit(t.root.value, TOP, 0, 0)
  }

  ghost predicate Ascending(l: seq<(nat, Value)>) {
    forall i, j :: 0 <= i < j < |l| ==> l[i].0 < l[j].0
  }

  /** All keys of `l` lie in [lo, hi). */
  ghost predicate Within(l: seq<(nat, Value)>, lo: nat, hi: nat) {
    forall i :: 0 <= i < |l| ==> lo <= l[i].0 < hi
  }

  lemma {:induction false} Chain(a: seq<(nat, Value)>, b: seq<(nat, Value)>, lo: nat, mid: nat, hi: nat)
    requires Ascending(a) && Ascending(b) && Within(a, lo, mid) && Within(b, mid, hi) && lo <= mid <= hi
    ensures Ascending(a + b) && Within(a + b, lo, hi)
    ensures forall e :: e in a + b <==> e in a || e in b
  {
    var c := a + b;
    forall i, j | 0 <= i < j < |c| ensures c[i].0 < c[j].0 {
      if i < |a| <= j {
        assert a[i].0 < mid <= b[j - |a|].0;
      }
    }
  }

  /** The first key under slot `i` of the `c`-th node of a level. */
  ghost function Base(level: nat, c: nat, i: nat): (k: nat) {
    (c * FANOUT + i) * Span(level)
  }

  lemma {:induction false} BaseFacts(level: nat, c: nat, i: nat)
    ensures Base(level, c, 0) + i * Span(level) == Base(level, c, i)
    ensures Base(level, c, i + 1) == Base(level, c, i) + Span(level)
    ensures level > 0 ==> Base(level - 1, c * FANOUT + i, 0) == Base(level, c, i)
    ensures level > 0 ==> Base(level - 1, c * FANOUT + i, FANOUT) == Base(level, c, i + 1)
    ensures i <= FANOUT ==> Base(level, c, i) <= Base(level, c, FANOUT)
  {
    var s := Span(level);
    assert (c * FANOUT + i) * s == c * FANOUT * s + i * s;
    assert (c * FANOUT + (i + 1)) * s == (c * FANOUT + i) * s + s;
    MulMono(c * FANOUT + i, c * FANOUT + FANOUT, s);
    if level > 0 {
      var t := Span(level - 1);
      assert ((c * FANOUT + i) * FANOUT + 0) * t == (c * FANOUT + i) * (FANOUT * t);
      assert ((c * FANOUT + i) * FANOUT + FANOUT) * t == (c * FANOUT + i + 1) * (FANOUT * t);
    }
  }

  lemma {:induction false} BaseDigit(level: nat, c: nat, i: nat, k: nat)
    requires i < FANOUT && Base(level, c, i) <= k < Base(level, c, i + 1)
    ensures SlotIndex(k, level) == i
  {
    BaseFacts(level, c, i);
    ModUnique(k, Span(level), c * FANOUT + i, k - Base(level, c, i));
    assert (c * FANOUT + i) % FANOUT == i;
  }

  ghost predicate VisitsExactly(l: seq<(nat, Value)>, n: Node, level: nat, lo: nat, hi: nat)
    requires Shaped(n, level)
  {
    forall k: nat, v: Value :: (k, v) in l <==> lo <= k < hi && Lookup(n, level, k) == Some(v)
  }

  /** `l` lists exactly the entries of `n` in [lo, hi), in ascending order. */
  ghost predicate Lists(l: seq<(nat, Value)>, n: Node, level: nat, lo: nat, hi: nat)
    requires Shaped(n, level)
  {
    Ascending(l) && Within(l, lo, hi) && VisitsExactly(l, n, level, lo, hi)
  }

  /** The entries under one slot. */
  function SlotEntries(n: Node, level: nat, key: nat, i: nat): (r: seq<(nat, Value)>)
    requires Shaped(n, level) && i < FANOUT
    decreases level, FANOUT - i, 0
  {
    match n.slots[i]
    case Null => []
    case Val(v) => [(key, v)]
    case Child(c) => Visit(c, level - 1, key, 0)
  }

  lemma {:induction false} SlotLists(n: Node, level: nat, c: nat, i: nat)
    requires Shaped(n, level) && i < FANOUT
    ensures Lists(SlotEntries(n, level, Base(level, c, i), i), n, level, Base(level, c, i), Base(level, c, i + 1))
    decreases level, 0
  {
    hide Visit;
    hide Base;
    hide SlotIndex;
    hide Span;
    var lo, hi := Base(level, c, i), Base(level, c, i + 1);
    var l := SlotEntries(n, level, lo, i);
    BaseFacts(level, c, i);
    if n.slots[i].Child? {
      VisitLists(n.slots[i].node, level - 1, c * FANOUT + i, 0);
    } else if n.slots[i].Val? {
      LeafSpan();
    }
    forall k: nat, v: Value ensures (k, v) in l <==> lo <= k < hi && Lookup(n, level, k) == Some(v) {
      if lo <= k < hi {
        BaseDigit(level, c, i, k);
      }
    }
  }

  lemma {:induction false} LeafSpan()
    ensures Span(0) == 1
  {
  }

  lemma {:induction false} VisitStep(n: Node, level: nat, prefix: nat, i: nat)
    requires Shaped(n, level) && i < FANOUT
    ensures Visit(n, level, prefix, i) ==
            SlotEntries(n, level, prefix + i * Span(level), i) + Visit(n, level, prefix, i + 1)
  {
    assert [] + Visit(n, level, prefix, i + 1) == Visit(n, level, prefix, i + 1);
  }

  lemma {:induction false} ListsJoin(a: seq<(nat, Value)>, b: seq<(nat, Value)>, n: Node, level: nat,
        lo: nat, mid: nat, hi: nat)
    requires Shaped(n, level) && lo <= mid <= hi && Lists(a, n, level, lo, mid) && Lists(b, n, level, mid, hi)
    ensures Lists(a + b, n, level, lo, hi)
  {
    hide Lookup;
    hide Shaped;
    Chain(a, b, lo, mid, hi);
  }

  /** From slot `i` on, the visit lists exactly the entries there. */
  lemma {:induction false} VisitLists(n: Node, level: nat, c: nat, i: nat)
    requires Shaped(n, level) && i <= FANOUT
    ensures Lists(Visit(n, level, Base(level, c, 0), i), n, level, Base(level, c, i), Base(level, c, FANOUT))
    decreases level, FANOUT - i, 2
  {
    if i == FANOUT {
      assert Visit(n, level, Base(level, c, 0), i) == [];
    } else {
      VisitMore(n, level, c, i);
    }
  }

  lemma {:induction false} VisitMore(n: Node, level: nat, c: nat, i: nat)
    requires Shaped(n, level) && i < FANOUT
    ensures Lists(Visit(n, level, Base(level, c, 0), i), n, level, Base(level, c, i), Base(level, c, FANOUT))
    decreases level, FANOUT - i, 1
  {
    hide Visit;
    hide Base;
    hide Span;
    hide Lists;
    hide SlotEntries;
    BaseFacts(level, c, i);
    BaseFacts(level, c, i + 1);
    SlotLists(n, level, c, i);
    VisitLists(n, level, c, i + 1);
    VisitStep(n, level, Base(level, c, 0), i);
    ListsJoin(SlotEntries(n, level, Base(level, c, i), i), Visit(n, level, Base(level, c, 0), i + 1), n, level,
              Base(level, c, i), Base(level, c, i + 1), Base(level, c, FANOUT));
  }

  /** `radix_foreach` visits each entry exactly once, in ascending key order. */
  lemma {:induction false} ForeachVisitsAll(t: Tree)
    requires Inv(t)
    ensures Ascending(Foreach(t))
    ensures forall k: nat, v: Value :: (k, v) in Foreach(t) <==> k in Entries(t) && Entries(t)[k] == v
  {
    hide Visit;
    hide Lookup;
    hide Base;
    if t.root.Some? {
      TopBase();
      VisitLists(t.root.value, TOP, 0, 0);
    }
  }

  lemma {:induction false} TopBase()
    ensures Base(TOP, 0, 0) == 0 && Base(TOP, 0, FANOUT) == MAX_KEY + 1
  {
    assert Span(1) == 64 && Span(2) == 4096 && Span(3) == 262144;
    assert Span(4) == 64 * Span(3) && Span(TOP) == 64 * Span(4);
  }
}
