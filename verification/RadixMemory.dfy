/** Positions along a key's path, at the level of tree values. */
module RadixPath {
  import opened Options
  import opened RadixSpec

  /** The path of `key` from a node of this level reaches a node of level `low`. */
  ghost predicate PathTo(n: Node, level: nat, key: nat, low: nat)
    requires Shaped(n, level)
    decreases level
  {
    low == level ||
    (low < level && n.slots[SlotIndex(key, level)].Child? &&
     PathTo(n.slots[SlotIndex(key, level)].node, level - 1, key, low))
  }

  ghost function SubAt(n: Node, level: nat, key: nat, low: nat): (m: Node)
    requires Shaped(n, level) && PathTo(n, level, key, low)
    ensures Shaped(m, low)
    decreases level
  {
    if low == level then n else SubAt(n.slots[SlotIndex(key, level)].node, level - 1, key, low)
  }

  /** The tree with the node at level `low` of the path replaced. */
  ghost function ReplaceAt(n: Node, level: nat, key: nat, low: nat, x: Node): (m: Node)
    requires Shaped(n, level) && PathTo(n, level, key, low) && Shaped(x, low)
    ensures Shaped(m, level)
    decreases level
  {
    if low == level then x
    else
      var i := SlotIndex(key, level);
      var c := ReplaceAt(n.slots[i].node, level - 1, key, low, x);
      SlotUsed(n.slots, i, Child(c));
      Node(n.slots[i := Child(c)], n.used)
  }

  lemma {:induction false} ReplaceFacts(n: Node, level: nat, key: nat, low: nat, x: Node)
    requires Shaped(n, level) && PathTo(n, level, key, low) && Shaped(x, low)
    ensures PathTo(ReplaceAt(n, level, key, low, x), level, key, low)
    ensures SubAt(ReplaceAt(n, level, key, low, x), level, key, low) == x
    ensures ReplaceAt(n, level, key, low, SubAt(n, level, key, low)) == n
    decreases level
  {
    if low < level {
      ReplaceFacts(n.slots[SlotIndex(key, level)].node, level - 1, key, low, x);
    }
  }

  lemma {:induction false} ReplaceTwice(n: Node, level: nat, key: nat, low: nat, x: Node, y: Node)
    requires Shaped(n, level) && PathTo(n, level, key, low) && Shaped(x, low) && Shaped(y, low)
    ensures PathTo(ReplaceAt(n, level, key, low, x), level, key, low)
    ensures ReplaceAt(ReplaceAt(n, level, key, low, x), level, key, low, y) == ReplaceAt(n, level, key, low, y)
    decreases level
  {
    ReplaceFacts(n, level, key, low, x);
    if low < level {
      var i := SlotIndex(key, level);
      ReplaceTwice(n.slots[i].node, level - 1, key, low, x, y);
    }
  }

  /** One more step down the path. */
  lemma {:induction false} PathDown(n: Node, level: nat, key: nat, low: nat)
    requires Shaped(n, level) && 0 < low && PathTo(n, level, key, low)
    requires SubAt(n, level, key, low).slots[SlotIndex(key, low)].Child?
    ensures PathTo(n, level, key, low - 1)
    ensures SubAt(n, level, key, low - 1) == SubAt(n, level, key, low).slots[SlotIndex(key, low)].node
    decreases level
  {
    if low < level {
      PathDown(n.slots[SlotIndex(key, level)].node, level - 1, key, low);
    }
  }

  /** Inserting works below any point of the existing path. */
  lemma {:induction false} InsertThrough(n: Node, level: nat, key: nat, v: Value, avail: nat, low: nat)
    requires Shaped(n, level) && PathTo(n, level, key, low)
    ensures var (x, ok, rest) := Insert(SubAt(n, level, key, low), low, key, v, avail);
            && Shaped(x, low)
            && Insert(n, level, key, v, avail) == (ReplaceAt(n, level, key, low, x), ok, rest)
    decreases level
  {
    hide SlotIndex;
    InsertLookup(SubAt(n, level, key, low), low, key, v, avail, 0);
    if low < level {
      var i := SlotIndex(key, level);
      InsertThrough(n.slots[i].node, level - 1, key, v, avail, low);
    }
  }

  /** Linking an empty node where the path ends costs one allocation and changes nothing
   *  else about the insert under way. */
  lemma {:induction false} LinkThenInsert(n: Node, level: nat, key: nat, v: Value, avail: nat, low: nat)
    requires Shaped(n, level) && 0 < low && PathTo(n, level, key, low) && avail > 0
    requires SubAt(n, level, key, low).slots[SlotIndex(key, low)] == Null
    ensures Shaped(Empty(), low - 1)
    ensures var x := Put(SubAt(n, level, key, low), SlotIndex(key, low), Child(Empty()));
            && Shaped(x, low)
            && Insert(ReplaceAt(n, level, key, low, x), level, key, v, avail - 1) == Insert(n, level, key, v, avail)
  {
    hide Insert;
    hide ReplaceAt;
    hide SubAt;
    hide PathTo;
    hide Empty;
    hide SlotIndex;
    hide Used;
    LinkLocal(SubAt(n, level, key, low), low, key, v, avail);
    InsertReplace(n, level, key, v, avail - 1, avail, low,
                  Put(SubAt(n, level, key, low), SlotIndex(key, low), Child(Empty())));
  }

  lemma {:induction false} InsertReplace(n: Node, level: nat, key: nat, v: Value, a: nat, b: nat, low: nat, x: Node)
    requires Shaped(n, level) && PathTo(n, level, key, low) && Shaped(x, low)
    requires Insert(x, low, key, v, a) == Insert(SubAt(n, level, key, low), low, key, v, b)
    ensures Insert(ReplaceAt(n, level, key, low, x), level, key, v, a) == Insert(n, level, key, v, b)
  {
    hide Insert;
    hide ReplaceAt;
    hide SubAt;
    hide Shaped;
    hide PathTo;
    ReplaceFacts(n, level, key, low, x);
    InsertThrough(n, level, key, v, b, low);
    InsertThrough(ReplaceAt(n, level, key, low, x), level, key, v, a, low);
    ReplaceTwice(n, level, key, low, x, Insert(x, low, key, v, a).0);
  }

  lemma {:induction false} LinkLocal(sub: Node, low: nat, key: nat, v: Value, avail: nat)
    requires Shaped(sub, low) && 0 < low && avail > 0 && sub.slots[SlotIndex(key, low)] == Null
    ensures Shaped(Empty(), low - 1)
    ensures var x := Put(sub, SlotIndex(key, low), Child(Empty()));
            Shaped(x, low) && Insert(x, low, key, v, avail - 1) == Insert(sub, low, key, v, avail)
  {
    hide SlotIndex;
    var i := SlotIndex(key, low);
    EmptyShaped(low - 1);
    PutShaped(sub, low, i, Child(Empty()));
    var c := Insert(Empty(), low - 1, key, v, avail - 1).0;
    var x := Put(sub, i, Child(Empty()));
    assert x.slots[i := Child(c)] == sub.slots[i := Child(c)];
  }

  /** The pruning loop standing at level `low` of the path: what it will still do to the
   *  nodes above. */
  ghost function TrimUp(n: Node, level: nat, key: nat, low: nat): (m: Node)
    requires Shaped(n, level) && PathTo(n, level, key, low)
    decreases level
  {
    if low == level then n
    else
      var i := SlotIndex(key, level);
      SlotUsed(n.slots, i, Null);
      var c := TrimUp(n.slots[i].node, level - 1, key, low);
      if c.used == 0 then Put(n, i, Null) else Node(n.slots[i := Child(c)], n.used)
  }

  /** Removing a stored key is clearing its leaf slot and pruning upwards. */
  lemma {:induction false} RemoveIsTrim(n: Node, level: nat, key: nat)
    requires Shaped(n, level) && PathTo(n, level, key, 0)
    requires SubAt(n, level, key, 0).slots[SlotIndex(key, 0)] != Null
    ensures var leaf := SubAt(n, level, key, 0);
            && leaf.used > 0 && Shaped(Put(leaf, SlotIndex(key, 0), Null), 0)
            && var x := ReplaceAt(n, level, key, 0, Put(leaf, SlotIndex(key, 0), Null));
            && PathTo(x, level, key, 0)
            && Remove(n, level, key) == (TrimUp(x, level, key, 0), Some(leaf.slots[SlotIndex(key, 0)].v))
    decreases level
  {
    hide SlotIndex;
    hide Used;
    var leaf := SubAt(n, level, key, 0);
    PutShaped(leaf, 0, SlotIndex(key, 0), Null);
    ReplaceFacts(n, level, key, 0, Put(leaf, SlotIndex(key, 0), Null));
    if level > 0 {
      var i := SlotIndex(key, level);
      RemoveIsTrim(n.slots[i].node, level - 1, key);
      var x := ReplaceAt(n, level, key, 0, Put(leaf, SlotIndex(key, 0), Null));
      assert x.slots[i].node == ReplaceAt(n.slots[i].node, level - 1, key, 0, Put(leaf, SlotIndex(key, 0), Null));
      var c := TrimUp(x.slots[i].node, level - 1, key, 0);
      assert x.slots[i := Null] == n.slots[i := Null] && x.slots[i := Child(c)] == n.slots[i := Child(c)];
    }
  }

  /** A path cut short ends the search. */
  lemma {:induction false} RemoveMissing(n: Node, level: nat, key: nat, low: nat)
    requires Shaped(n, level) && PathTo(n, level, key, low)
    requires SubAt(n, level, key, low).slots[SlotIndex(key, low)] == Null
    ensures Remove(n, level, key) == (n, None) && Lookup(n, level, key) == None
    decreases level
  {
    hide SlotIndex;
    if low < level {
      RemoveMissing(n.slots[SlotIndex(key, level)].node, level - 1, key, low);
    }
  }

  lemma {:induction false} LookupThrough(n: Node, level: nat, key: nat, low: nat)
    requires Shaped(n, level) && PathTo(n, level, key, low)
    ensures Lookup(n, level, key) == Lookup(SubAt(n, level, key, low), low, key)
    decreases level
  {
    hide SlotIndex;
    if low < level {
      LookupThrough(n.slots[SlotIndex(key, level)].node, level - 1, key, low);
    }
  }

  /** A non-empty node stops the pruning. */
  lemma {:induction false} TrimStops(n: Node, level: nat, key: nat, low: nat)
    requires Shaped(n, level) && PathTo(n, level, key, low) && SubAt(n, level, key, low).used != 0
    ensures TrimUp(n, level, key, low) == n
    decreases level
  {
    hide SlotIndex;
    if low < level {
      var i := SlotIndex(key, level);
      TrimStops(n.slots[i].node, level - 1, key, low);
      if low < level - 1 {
        SlotUsed(n.slots[i].node.slots, SlotIndex(key, level - 1), Null);
      }
    }
  }

  /** An empty node is unlinked from its parent, and pruning goes on from there. */
  lemma {:induction false} TrimClimbs(n: Node, level: nat, key: nat, low: nat)
    requires Shaped(n, level) && low < level && PathTo(n, level, key, low) && SubAt(n, level, key, low).used == 0
    ensures PathTo(n, level, key, low + 1)
    ensures var parent := SubAt(n, level, key, low + 1);
            && parent.slots[SlotIndex(key, low + 1)] != Null && parent.used > 0
            && Shaped(Put(parent, SlotIndex(key, low + 1), Null), low + 1)
            && var x := ReplaceAt(n, level, key, low + 1, Put(parent, SlotIndex(key, low + 1), Null));
            && PathTo(x, level, key, low + 1)
            && TrimUp(n, level, key, low) == TrimUp(x, level, key, low + 1)
    decreases level
  {
    hide SlotIndex;
    var i := SlotIndex(key, level);
    if low + 1 == level {
      PutShaped(n, level, i, Null);
    } else {
      TrimClimbs(n.slots[i].node, level - 1, key, low);
      var parent := SubAt(n, level, key, low + 1);
      ReplaceFacts(n, level, key, low + 1, Put(parent, SlotIndex(key, low + 1), Null));
      var x := ReplaceAt(n, level, key, low + 1, Put(parent, SlotIndex(key, low + 1), Null));
      assert x.slots[i := Null] == n.slots[i := Null];
    }
  }
}

/** The tree as it lies in memory: nodes at addresses, linked by address. */
module RadixMemory {
  import opened RadixSpec
  import opened RadixPath

  type Ptr = nat

  datatype Cell = Cell(slots: seq<nat>, used: nat)

  type Memory = map<Ptr, Cell>

  /** The addresses of the nodes below and including `p`. */
  ghost function Foot(m: Memory, p: Ptr, level: nat): (r: set<Ptr>)
    ensures p in r
    decreases level
  {
    {p} + if level == 0 || p !in m then {} else KidsFoot(m, m[p].slots, level)
  }

  ghost function KidsFoot(m: Memory, slots: seq<nat>, level: nat): (r: set<Ptr>)
    requires level > 0
    decreases level, 0
  {
    set i, q {:trigger q in Foot(m, slots[i], level - 1)} |
      0 <= i < |slots| && slots[i] != 0 && q in Foot(m, slots[i], level - 1) :: q
  }

  /** `p` is the root of a tree: all linked nodes exist and no two share one. */
  ghost predicate IsTree(m: Memory, p: Ptr, level: nat)
    decreases level
  {
    && p != 0 && p in m && |m[p].slots| == FANOUT
    && (level > 0 ==>
          var s := m[p].slots;
          && (forall i :: 0 <= i < FANOUT && s[i] != 0 ==> IsTree(m, s[i], level - 1) && p !in Foot(m, s[i], level - 1))
          && (forall i, j :: 0 <= i < j < FANOUT && s[i] != 0 && s[j] != 0 ==>
                Foot(m, s[i], level - 1) !! Foot(m, s[j], level - 1)))
  }

  ghost function SlotView(m: Memory, s: nat, level: nat): (r: Slot)
    requires s != 0 && level > 0 ==> IsTree(m, s, level - 1)
    decreases level, 0
  {
    if s == 0 then Null else if level == 0 then Val(s) else Child(View(m, s, level - 1))
  }

  /** The tree value stored at `p`. */
  ghost function View(m: Memory, p: Ptr, level: nat): (n: Node)
    requires IsTree(m, p, level)
    ensures |n.slots| == FANOUT && n.used == m[p].used
    ensures forall i :: 0 <= i < FANOUT ==> (n.slots[i] == Null <==> m[p].slots[i] == 0)
    decreases level, 1
  {
    Node(seq(FANOUT, i requires 0 <= i < FANOUT => SlotView(m, m[p].slots[i], level)), m[p].used)
  }

  lemma {:induction false} FootStep(m: Memory, p: Ptr, level: nat, i: nat, q: Ptr)
    requires p in m && level > 0 && i < |m[p].slots| && m[p].slots[i] != 0
    requires q in Foot(m, m[p].slots[i], level - 1)
    ensures q in Foot(m, p, level)
  {
  }

  lemma {:induction false} KidOf(m: Memory, p: Ptr, level: nat, q: Ptr) returns (i: nat)
    requires p in m && level > 0 && q in Foot(m, p, level) && q != p
    ensures i < |m[p].slots| && m[p].slots[i] != 0 && q in Foot(m, m[p].slots[i], level - 1)
  {
    assert q in KidsFoot(m, m[p].slots, level);
    i :| 0 <= i < |m[p].slots| && m[p].slots[i] != 0 && q in Foot(m, m[p].slots[i], level - 1);
  }

  lemma {:induction false} FootAllocated(m: Memory, p: Ptr, level: nat)
    requires IsTree(m, p, level)
    ensures Foot(m, p, level) <= m.Keys
    decreases level
  {
    if level > 0 {
      forall i | 0 <= i < FANOUT && m[p].slots[i] != 0
        ensures Foot(m, m[p].slots[i], level - 1) <= m.Keys
      {
        FootAllocated(m, m[p].slots[i], level - 1);
      }
    }
  }

  ghost predicate SameOn(m: Memory, m': Memory, s: set<Ptr>) {
    forall q :: q in s && q in m ==> q in m' && m'[q] == m[q]
  }

  /** Writes elsewhere leave a tree as it was. */
  lemma {:induction false} Frame(m: Memory, m': Memory, p: Ptr, level: nat)
    requires IsTree(m, p, level) && SameOn(m, m', Foot(m, p, level))
    ensures IsTree(m', p, level) && Foot(m', p, level) == Foot(m, p, level)
    ensures View(m', p, level) == View(m, p, level)
    decreases level
  {
    var s := m[p].slots;
    if level > 0 {
      forall i | 0 <= i < FANOUT && s[i] != 0
        ensures IsTree(m', s[i], level - 1) && Foot(m', s[i], level - 1) == Foot(m, s[i], level - 1)
        ensures View(m', s[i], level - 1) == View(m, s[i], level - 1)
      {
        forall q | q in Foot(m, s[i], level - 1) ensures q in Foot(m, p, level) {
          FootStep(m, p, level, i, q);
        }
        Frame(m, m', s[i], level - 1);
      }
      assert KidsFoot(m', s, level) == KidsFoot(m, s, level);
    }
    assert View(m', p, level).slots == View(m, p, level).slots;
  }

  /** The node at level `low` on the path of `key`. */
  ghost function PtrAt(m: Memory, p: Ptr, level: nat, key: nat, low: nat): (q: Ptr)
    requires IsTree(m, p, level) && Shaped(View(m, p, level), level) && PathTo(View(m, p, level), level, key, low)
    ensures IsTree(m, q, low) && View(m, q, low) == SubAt(View(m, p, level), level, key, low)
    ensures q in Foot(m, p, level)
    decreases level
  {
    if low == level then p
    else
      var i := SlotIndex(key, level);
      assert View(m, p, level).slots[i] == Child(View(m, m[p].slots[i], level - 1));
      PtrAt(m, m[p].slots[i], level - 1, key, low)
  }

  lemma {:induction false} PtrTop(m: Memory, p: Ptr, level: nat, key: nat, low: nat)
    requires IsTree(m, p, level) && Shaped(View(m, p, level), level) && PathTo(View(m, p, level), level, key, low)
    ensures low <= level && (low == level ==> PtrAt(m, p, level, key, low) == p)
  {
  }

  /** What a node on the path knows about its child on the path. */
  lemma {:induction false} PtrStep(m: Memory, p: Ptr, level: nat, key: nat, low: nat)
    requires IsTree(m, p, level) && Shaped(View(m, p, level), level) && PathTo(View(m, p, level), level, key, low)
    requires low < level
    ensures var i := SlotIndex(key, level);
            var c := m[p].slots[i];
            && c != 0 && IsTree(m, c, level - 1) && p !in Foot(m, c, level - 1)
            && Foot(m, c, level - 1) <= Foot(m, p, level)
            && Shaped(View(m, c, level - 1), level - 1) && PathTo(View(m, c, level - 1), level - 1, key, low)
            && View(m, p, level).slots[i] == Child(View(m, c, level - 1))
            && PtrAt(m, p, level, key, low) == PtrAt(m, c, level - 1, key, low)
  {
    var i := SlotIndex(key, level);
    assert View(m, p, level).slots[i] == SlotView(m, m[p].slots[i], level);
    KidFoot(m, p, level, i);
  }

  lemma {:induction false} FootMonotone(m: Memory, p: Ptr, level: nat, key: nat, low: nat)
    requires IsTree(m, p, level) && Shaped(View(m, p, level), level) && PathTo(View(m, p, level), level, key, low)
    ensures Foot(m, PtrAt(m, p, level, key, low), low) <= Foot(m, p, level)
    decreases level
  {
    hide PtrAt;
    hide View;
    hide PathTo;
    hide Foot;
    hide Shaped;
    if low < level {
      PtrStep(m, p, level, key, low);
      FootMonotone(m, m[p].slots[SlotIndex(key, level)], level - 1, key, low);
    } else {
      PtrTop(m, p, level, key, low);
    }
  }

  /** The writes of one step: below the node `n` on the path, or in `extra` memory. */
  ghost predicate LocalWrite(m: Memory, m': Memory, all: set<Ptr>, mine: set<Ptr>, extra: set<Ptr>) {
    extra !! all && SameOn(m, m', all - mine)
  }

  /** Rewriting the subtree at one node of the path rewrites the tree value there and
   *  nowhere else. */
  lemma {:induction false} Deep(m: Memory, m': Memory, p: Ptr, level: nat, key: nat, low: nat, extra: set<Ptr>)
    requires IsTree(m, p, level) && Shaped(View(m, p, level), level) && PathTo(View(m, p, level), level, key, low)
    requires var n := PtrAt(m, p, level, key, low);
             && IsTree(m', n, low) && Shaped(View(m', n, low), low)
             && Foot(m', n, low) <= Foot(m, n, low) + extra
             && LocalWrite(m, m', Foot(m, p, level), Foot(m, n, low), extra)
    ensures var n := PtrAt(m, p, level, key, low);
            && IsTree(m', p, level)
            && Foot(m', p, level) == Foot(m, p, level) - Foot(m, n, low) + Foot(m', n, low)
            && View(m', p, level) == ReplaceAt(View(m, p, level), level, key, low, View(m', n, low))
    decreases level
  {
    if low < level {
      DeepStep(m, m', p, level, key, low, extra);
    }
  }

  lemma {:induction false} DeepStep(m: Memory, m': Memory, p: Ptr, level: nat, key: nat, low: nat, extra: set<Ptr>)
    requires low < level
    requires IsTree(m, p, level) && Shaped(View(m, p, level), level) && PathTo(View(m, p, level), level, key, low)
    requires var n := PtrAt(m, p, level, key, low);
             && IsTree(m', n, low) && Shaped(View(m', n, low), low)
             && Foot(m', n, low) <= Foot(m, n, low) + extra
             && LocalWrite(m, m', Foot(m, p, level), Foot(m, n, low), extra)
    ensures var n := PtrAt(m, p, level, key, low);
            && IsTree(m', p, level)
            && Foot(m', p, level) == Foot(m, p, level) - Foot(m, n, low) + Foot(m', n, low)
            && View(m', p, level) == ReplaceAt(View(m, p, level), level, key, low, View(m', n, low))
    decreases level, 0
  {
    hide SlotIndex;
    hide PtrAt;
    hide View;
    hide PathTo;
    hide Foot;
    hide Shaped;
    var i, s := SlotIndex(key, level), m[p].slots;
    var n := PtrAt(m, p, level, key, low);
    PtrStep(m, p, level, key, low);
    FootMonotone(m, s[i], level - 1, key, low);
    assert LocalWrite(m, m', Foot(m, s[i], level - 1), Foot(m, n, low), extra);
    Deep(m, m', s[i], level - 1, key, low, extra);
    assert p in Foot(m, p, level) && p !in Foot(m, n, low);
    assert m'[p] == m[p];
    Siblings(m, m', p, level, i, Foot(m, n, low));
    Rebuild(m, m', p, level, i, Foot(m, n, low), Foot(m', n, low));
    ReplaceStep(View(m, p, level), level, key, low, View(m', n, low));
    ViewUsed(m, p, level);
  }

  lemma {:induction false} ViewUsed(m: Memory, p: Ptr, level: nat)
    requires IsTree(m, p, level)
    ensures View(m, p, level).used == m[p].used && |m[p].slots| == FANOUT
  {
  }

  lemma {:induction false} ReplaceStep(n: Node, level: nat, key: nat, low: nat, x: Node)
    requires Shaped(n, level) && PathTo(n, level, key, low) && Shaped(x, low) && low < level
    ensures var i := SlotIndex(key, level);
            && n.slots[i].Child? && Shaped(n.slots[i].node, level - 1) && PathTo(n.slots[i].node, level - 1, key, low)
            && ReplaceAt(n, level, key, low, x) ==
               Node(n.slots[i := Child(ReplaceAt(n.slots[i].node, level - 1, key, low, x))], n.used)
  {
  }

  /** The other children are out of reach of the writes. */
  lemma {:induction false} Siblings(m: Memory, m': Memory, p: Ptr, level: nat, i: nat, mine: set<Ptr>)
    requires level > 0 && IsTree(m, p, level) && i < FANOUT && m[p].slots[i] != 0
    requires mine <= Foot(m, m[p].slots[i], level - 1) && SameOn(m, m', Foot(m, p, level) - mine)
    ensures forall j :: 0 <= j < FANOUT && j != i && m[p].slots[j] != 0 ==>
              && IsTree(m', m[p].slots[j], level - 1)
              && Foot(m', m[p].slots[j], level - 1) == Foot(m, m[p].slots[j], level - 1)
              && View(m', m[p].slots[j], level - 1) == View(m, m[p].slots[j], level - 1)
              && Foot(m, m[p].slots[j], level - 1) <= Foot(m, p, level)
  {
    hide View;
    hide Foot;
    var s := m[p].slots;
    forall j | 0 <= j < FANOUT && j != i && s[j] != 0
      ensures IsTree(m', s[j], level - 1) && Foot(m', s[j], level - 1) == Foot(m, s[j], level - 1)
      ensures View(m', s[j], level - 1) == View(m, s[j], level - 1)
      ensures Foot(m, s[j], level - 1) <= Foot(m, p, level)
    {
      KidFoot(m, p, level, j);
      if j < i {
        assert Foot(m, s[j], level - 1) !! Foot(m, s[i], level - 1);
      } else {
        assert Foot(m, s[i], level - 1) !! Foot(m, s[j], level - 1);
      }
      Frame(m, m', s[j], level - 1);
    }
  }

  lemma {:induction false} KidFoot(m: Memory, p: Ptr, level: nat, i: nat)
    requires p in m && level > 0 && i < |m[p].slots| && m[p].slots[i] != 0
    ensures Foot(m, m[p].slots[i], level - 1) <= Foot(m, p, level)
  {
    forall q | q in Foot(m, m[p].slots[i], level - 1) ensures q in Foot(m, p, level) {
      FootStep(m, p, level, i, q);
    }
  }

  /** A node whose own cell is unchanged and one of whose children traded the cells
   *  `mine` for the cells `now`. */
  lemma {:induction false} Rebuild(m: Memory, m': Memory, p: Ptr, level: nat, i: nat, mine: set<Ptr>, now: set<Ptr>)
    requires level > 0 && IsTree(m, p, level) && p in m' && m'[p] == m[p] && i < FANOUT && m[p].slots[i] != 0
    requires IsTree(m', m[p].slots[i], level - 1)
    requires mine <= Foot(m, m[p].slots[i], level - 1) && now !! (Foot(m, p, level) - mine)
    requires Foot(m', m[p].slots[i], level - 1) == Foot(m, m[p].slots[i], level - 1) - mine + now
    requires forall j :: 0 <= j < FANOUT && j != i && m[p].slots[j] != 0 ==>
               && IsTree(m', m[p].slots[j], level - 1)
               && Foot(m', m[p].slots[j], level - 1) == Foot(m, m[p].slots[j], level - 1)
               && View(m', m[p].slots[j], level - 1) == View(m, m[p].slots[j], level - 1)
               && Foot(m, m[p].slots[j], level - 1) <= Foot(m, p, level)
    ensures IsTree(m', p, level) && Foot(m', p, level) == Foot(m, p, level) - mine + now
    ensures View(m', p, level) ==
            Node(View(m, p, level).slots[i := Child(View(m', m[p].slots[i], level - 1))], m[p].used)
  {
    hide View;
    RebuildTree(m, m', p, level, i, mine, now);
    RebuildFoot(m, m', p, level, i, mine, now);
    RebuildView(m, m', p, level, i);
  }

  lemma {:induction false} RebuildTree(m: Memory, m': Memory, p: Ptr, level: nat, i: nat, mine: set<Ptr>, now: set<Ptr>)
    requires level > 0 && IsTree(m, p, level) && p in m' && m'[p] == m[p] && i < FANOUT && m[p].slots[i] != 0
    requires IsTree(m', m[p].slots[i], level - 1)
    requires mine <= Foot(m, m[p].slots[i], level - 1) && now !! (Foot(m, p, level) - mine)
    requires Foot(m', m[p].slots[i], level - 1) == Foot(m, m[p].slots[i], level - 1) - mine + now
    requires forall j :: 0 <= j < FANOUT && j != i && m[p].slots[j] != 0 ==>
               && IsTree(m', m[p].slots[j], level - 1)
               && Foot(m', m[p].slots[j], level - 1) == Foot(m, m[p].slots[j], level - 1)
               && Foot(m, m[p].slots[j], level - 1) <= Foot(m, p, level)
    ensures IsTree(m', p, level)
  {
    var s := m[p].slots;
    assert p in Foot(m, p, level) && p !in mine;
    forall a, b | 0 <= a < b < FANOUT && s[a] != 0 && s[b] != 0
      ensures Foot(m', s[a], level - 1) !! Foot(m', s[b], level - 1)
    {
      assert Foot(m, s[a], level - 1) !! Foot(m, s[b], level - 1);
    }
  }

  lemma {:induction false} RebuildFoot(m: Memory, m': Memory, p: Ptr, level: nat, i: nat, mine: set<Ptr>, now: set<Ptr>)
    requires level > 0 && IsTree(m, p, level) && p in m' && m'[p] == m[p] && i < FANOUT && m[p].slots[i] != 0
    requires mine <= Foot(m, m[p].slots[i], level - 1)
    requires Foot(m', m[p].slots[i], level - 1) == Foot(m, m[p].slots[i], level - 1) - mine + now
    requires forall j :: 0 <= j < FANOUT && j != i && m[p].slots[j] != 0 ==>
               Foot(m', m[p].slots[j], level - 1) == Foot(m, m[p].slots[j], level - 1)
    ensures Foot(m', p, level) == Foot(m, p, level) - mine + now
  {
    var s := m[p].slots;
    forall q ensures q in Foot(m', p, level) <==> q in Foot(m, p, level) - mine + now {
      if q in Foot(m', p, level) && q != p {
        var j := KidOf(m', p, level, q);
        if j != i {
          FootStep(m, p, level, j, q);
          assert j < i || i < j;
        } else if q !in now {
          FootStep(m, p, level, i, q);
        }
      }
      if q in now {
        FootStep(m', p, level, i, q);
      } else if q in Foot(m, p, level) && q !in mine && q != p {
        var j := KidOf(m, p, level, q);
        FootStep(m', p, level, j, q);
      }
    }
  }

  lemma {:induction false} RebuildView(m: Memory, m': Memory, p: Ptr, level: nat, i: nat)
    requires level > 0 && IsTree(m, p, level) && IsTree(m', p, level) && m'[p] == m[p]
    requires i < FANOUT && m[p].slots[i] != 0
    requires forall j :: 0 <= j < FANOUT && j != i && m[p].slots[j] != 0 ==>
               View(m', m[p].slots[j], level - 1) == View(m, m[p].slots[j], level - 1)
    ensures View(m', p, level) ==
            Node(View(m, p, level).slots[i := Child(View(m', m[p].slots[i], level - 1))], m[p].used)
  {
    var s, v, v' := m[p].slots, View(m, p, level), View(m', p, level);
    forall j | 0 <= j < FANOUT
      ensures v'.slots[j] == if j == i then Child(View(m', s[i], level - 1)) else v.slots[j]
    {
      assert v.slots[j] == SlotView(m, s[j], level) && v'.slots[j] == SlotView(m', s[j], level);
    }
    assert v'.slots == v.slots[i := Child(View(m', s[i], level - 1))];
  }

  // ---- The three local writes -------------------------------------------------------

  /** The cell of a node after storing `x` in slot `i`. */
  function Stored(c: Cell, i: nat, x: nat): (r: Cell)
    requires i < |c.slots| && (x == 0 ==> c.used > 0)
  {
    Cell(c.slots[i := x], if c.slots[i] == 0 then c.used + 1 else if x == 0 then c.used - 1 else c.used)
  }

  function ZeroCell(): (c: Cell)
    ensures |c.slots| == FANOUT && c.used == 0 && forall i :: 0 <= i < FANOUT ==> c.slots[i] == 0
  {
    Cell(seq(FANOUT, i => 0), 0)
  }

  lemma {:induction false} ZeroNode(m: Memory, p: Ptr, level: nat)
    requires p != 0 && p in m && m[p] == ZeroCell()
    ensures IsTree(m, p, level) && Foot(m, p, level) == {p} && View(m, p, level) == Empty()
  {
    assert View(m, p, level).slots == Empty().slots;
  }

  /** Storing a value in, or clearing, a leaf slot. */
  lemma {:induction false} LeafWrite(m: Memory, p: Ptr, i: nat, x: nat)
    requires IsTree(m, p, 0) && i < FANOUT && (x == 0 ==> m[p].used > 0 && m[p].slots[i] != 0)
    ensures var m' := m[p := Stored(m[p], i, x)];
            && IsTree(m', p, 0) && Foot(m', p, 0) == Foot(m, p, 0)
            && View(m', p, 0) == Put(View(m, p, 0), i, if x == 0 then Null else Val(x))
  {
    var m' := m[p := Stored(m[p], i, x)];
    assert View(m', p, 0).slots == View(m, p, 0).slots[i := if x == 0 then Null else Val(x)];
  }

  /** Linking a fresh zeroed node into an empty slot. */
  lemma {:induction false} LinkWrite(m: Memory, p: Ptr, level: nat, i: nat, c: Ptr)
    requires IsTree(m, p, level) && level > 0 && i < FANOUT && m[p].slots[i] == 0 && c != 0 && c !in m
    ensures var m' := m[c := ZeroCell()][p := Stored(m[p], i, c)];
            && IsTree(m', p, level) && Foot(m', p, level) == Foot(m, p, level) + {c}
            && View(m', p, level) == Put(View(m, p, level), i, Child(Empty()))
  {
    hide View;
    hide Foot;
    var m' := m[c := ZeroCell()][p := Stored(m[p], i, c)];
    ZeroNode(m', c, level - 1);
    FootAllocated(m, p, level);
    SiblingsOf(m, m', p, level, i);
    forall j | 0 <= j < FANOUT && j != i && m[p].slots[j] != 0 ensures c !in Foot(m, m[p].slots[j], level - 1) {
      KidFoot(m, p, level, j);
    }
    SlotWriteTree(m, m', p, level, i);
    SlotWriteView(m, m', p, level, i);
    SlotWriteFoot(m, m', p, level, i);
    ViewUsed(m, p, level);
    ViewUsed(m', p, level);
    NullSlots(m, p, level, i);
  }

  lemma {:induction false} NullSlots(m: Memory, p: Ptr, level: nat, i: nat)
    requires IsTree(m, p, level) && i < FANOUT
    ensures |View(m, p, level).slots| == FANOUT && (View(m, p, level).slots[i] == Null <==> m[p].slots[i] == 0)
  {
  }

  /** A node stays a tree when one slot is cleared or given a tree of its own. */
  lemma {:induction false} SlotWriteTree(m: Memory, m': Memory, p: Ptr, level: nat, i: nat)
    requires IsTree(m, p, level) && level > 0 && i < FANOUT && p in m' && |m'[p].slots| == FANOUT
    requires forall j :: 0 <= j < FANOUT && j != i ==> m'[p].slots[j] == m[p].slots[j]
    requires forall j :: 0 <= j < FANOUT && j != i && m[p].slots[j] != 0 ==>
               && IsTree(m', m[p].slots[j], level - 1)
               && Foot(m', m[p].slots[j], level - 1) == Foot(m, m[p].slots[j], level - 1)
    requires var c := m'[p].slots[i];
             c != 0 ==>
               && IsTree(m', c, level - 1) && p !in Foot(m', c, level - 1)
               && forall j :: 0 <= j < FANOUT && j != i && m[p].slots[j] != 0 ==>
                    Foot(m', c, level - 1) !! Foot(m, m[p].slots[j], level - 1)
    ensures IsTree(m', p, level)
  {
    hide Foot;
    var s, s' := m[p].slots, m'[p].slots;
    forall a, b | 0 <= a < b < FANOUT && s'[a] != 0 && s'[b] != 0
      ensures Foot(m', s'[a], level - 1) !! Foot(m', s'[b], level - 1)
    {
      if a != i && b != i {
        assert Foot(m, s[a], level - 1) !! Foot(m, s[b], level - 1);
      }
    }
  }

  /** Unlinking and freeing the node in a slot, which holds nothing itself. */
  lemma {:induction false} UnlinkWrite(m: Memory, p: Ptr, level: nat, i: nat)
    requires IsTree(m, p, level) && level > 0 && i < FANOUT && m[p].slots[i] != 0 && m[p].used > 0
    requires Foot(m, m[p].slots[i], level - 1) == {m[p].slots[i]}
    ensures var m' := m[p := Stored(m[p], i, 0)] - {m[p].slots[i]};
            && IsTree(m', p, level) && Foot(m', p, level) == Foot(m, p, level) - {m[p].slots[i]}
            && View(m', p, level) == Put(View(m, p, level), i, Null)
  {
    hide View;
    hide Foot;
    var m' := m[p := Stored(m[p], i, 0)] - {m[p].slots[i]};
    assert m[p].slots[i] in Foot(m, m[p].slots[i], level - 1);
    SiblingsOf(m, m', p, level, i);
    SlotWriteTree(m, m', p, level, i);
    SlotWriteView(m, m', p, level, i);
    SlotWriteFoot(m, m', p, level, i);
    ViewUsed(m, p, level);
    ViewUsed(m', p, level);
    NullSlots(m, p, level, i);
  }

  /** Children other than slot `i` survive writes to the parent and to that child. */
  lemma {:induction false} SiblingsOf(m: Memory, m': Memory, p: Ptr, level: nat, i: nat)
    requires IsTree(m, p, level) && level > 0 && i < FANOUT
    requires forall q :: q in m && q != p && q != m[p].slots[i] ==> q in m' && m'[q] == m[q]
    requires m[p].slots[i] != 0 ==> Foot(m, m[p].slots[i], level - 1) == {m[p].slots[i]}
    ensures forall j :: 0 <= j < FANOUT && j != i && m[p].slots[j] != 0 ==>
              && IsTree(m', m[p].slots[j], level - 1)
              && Foot(m', m[p].slots[j], level - 1) == Foot(m, m[p].slots[j], level - 1)
              && View(m', m[p].slots[j], level - 1) == View(m, m[p].slots[j], level - 1)
  {
    var s := m[p].slots;
    forall j | 0 <= j < FANOUT && j != i && s[j] != 0
      ensures IsTree(m', s[j], level - 1) && Foot(m', s[j], level - 1) == Foot(m, s[j], level - 1)
      ensures View(m', s[j], level - 1) == View(m, s[j], level - 1)
    {
      FootAllocated(m, s[j], level - 1);
      assert s[i] != 0 ==> (if j < i then Foot(m, s[j], level - 1) !! Foot(m, s[i], level - 1)
                            else Foot(m, s[i], level - 1) !! Foot(m, s[j], level - 1));
      NoNullInside(m, s[j], level - 1);
      assert SameOn(m, m', Foot(m, s[j], level - 1));
      Frame(m, m', s[j], level - 1);
    }
  }

  lemma {:induction false} NoNullInside(m: Memory, p: Ptr, level: nat)
    requires IsTree(m, p, level)
    ensures 0 !in Foot(m, p, level)
    decreases level
  {
    if level > 0 && 0 in Foot(m, p, level) {
      var i := KidOf(m, p, level, 0);
      NoNullInside(m, m[p].slots[i], level - 1);
    }
  }

  lemma {:induction false} SlotWriteView(m: Memory, m': Memory, p: Ptr, level: nat, i: nat)
    requires IsTree(m, p, level) && IsTree(m', p, level) && level > 0 && i < FANOUT
    requires forall j :: 0 <= j < FANOUT && j != i ==> m'[p].slots[j] == m[p].slots[j]
    requires forall j :: 0 <= j < FANOUT && j != i && m[p].slots[j] != 0 ==>
               View(m', m[p].slots[j], level - 1) == View(m, m[p].slots[j], level - 1)
    ensures View(m', p, level).slots == View(m, p, level).slots[i := SlotView(m', m'[p].slots[i], level)]
  {
    var v, v' := View(m, p, level), View(m', p, level);
    forall j | 0 <= j < FANOUT
      ensures v'.slots[j] == if j == i then SlotView(m', m'[p].slots[i], level) else v.slots[j]
    {
      assert v.slots[j] == SlotView(m, m[p].slots[j], level) && v'.slots[j] == SlotView(m', m'[p].slots[j], level);
    }
  }

  lemma {:induction false} SlotWriteFoot(m: Memory, m': Memory, p: Ptr, level: nat, i: nat)
    requires IsTree(m, p, level) && IsTree(m', p, level) && level > 0 && i < FANOUT
    requires forall j :: 0 <= j < FANOUT && j != i ==> m'[p].slots[j] == m[p].slots[j]
    requires forall j :: 0 <= j < FANOUT && j != i && m[p].slots[j] != 0 ==>
               Foot(m', m[p].slots[j], level - 1) == Foot(m, m[p].slots[j], level - 1)
    ensures var gone := if m[p].slots[i] == 0 then {} else Foot(m, m[p].slots[i], level - 1);
            var come := if m'[p].slots[i] == 0 then {} else Foot(m', m'[p].slots[i], level - 1);
            Foot(m', p, level) == Foot(m, p, level) - gone + come
  {
    var s, s' := m[p].slots, m'[p].slots;
    var gone := if s[i] == 0 then {} else Foot(m, s[i], level - 1);
    var come := if s'[i] == 0 then {} else Foot(m', s'[i], level - 1);
    forall q ensures q in Foot(m', p, level) <==> q in Foot(m, p, level) - gone + come {
      if q in Foot(m', p, level) && q != p {
        var j := KidOf(m', p, level, q);
        if j != i {
          FootStep(m, p, level, j, q);
          assert j < i || i < j;
        }
      }
      if q in come {
        FootStep(m', p, level, i, q);
      } else if q in Foot(m, p, level) && q !in gone && q != p {
        var j := KidOf(m, p, level, q);
        FootStep(m', p, level, j, q);
      }
    }
  }
}

/** The tree as the kernel runs it: descents that create nodes, and removal that prunes
 *  them bottom-up, on nodes updated in place. */
module Radix {
  import opened Options
  import opened RadixMemory
  import opened RadixPath
  import opened RadixSpec

  /** Some address is unused. */
  lemma {:induction false} UnusedAddress(s: set<nat>) returns (p: nat)
    ensures p > 0 && p !in s && forall q :: q in s ==> q < p
  {
    if s == {} {
      p := 1;
    } else {
      var x :| x in s;
      var y := UnusedAddress(s - {x});
      p := if x < y then y else x + 1;
      assert s == s - {x} + {x};
    }
  }

  /** The memory holds one tree with exact use counts and nothing else. */
  ghost predicate Holds(m: Memory, root: Ptr) {
    root != 0 && IsTree(m, root, TOP) && Shaped(View(m, root, TOP), TOP) && m.Keys == Foot(m, root, TOP)
  }

  /** A descent for `key` stands at node `n` of this level. */
  ghost predicate Standing(m: Memory, root: Ptr, key: nat, level: nat, n: Ptr) {
    && Holds(m, root)
    && PathTo(View(m, root, TOP), TOP, key, level)
    && n == PtrAt(m, root, TOP, key, level)
  }

  ghost function TreeOf(m: Memory, root: Ptr): (n: Node)
    ensures Shaped(n, TOP)
    ensures Holds(m, root) ==> n == View(m, root, TOP)
  {
    if Holds(m, root) then View(m, root, TOP) else (EmptyShaped(TOP); Empty())
  }

  /** The tree the pruning loop will end with when it stands at level `low`. */
  ghost function Pending(m: Memory, root: Ptr, key: nat, low: nat): (n: Node) {
    if PathTo(TreeOf(m, root), TOP, key, low) then TrimUp(TreeOf(m, root), TOP, key, low) else Empty()
  }

  /** `path` records the nodes from level `low` up. */
  ghost predicate OnPath(m: Memory, root: Ptr, key: nat, low: nat, path: seq<Ptr>) {
    |path| == LEVELS && forall l :: low <= l <= TOP ==> Standing(m, root, key, l, path[l])
  }

  lemma {:induction false} StandAtRoot(m: Memory, root: Ptr, key: nat)
    requires Holds(m, root)
    ensures Standing(m, root, key, TOP, root)
  {
  }

  lemma {:induction false} StandingNode(m: Memory, root: Ptr, key: nat, level: nat, n: Ptr)
    requires Standing(m, root, key, level, n)
    ensures IsTree(m, n, level) && Shaped(View(m, n, level), level)
    ensures n in m && |m[n].slots| == FANOUT && n in Foot(m, root, TOP)
    ensures View(m, n, level) == SubAt(View(m, root, TOP), TOP, key, level)
    ensures Foot(m, n, level) <= Foot(m, root, TOP)
  {
    FootMonotone(m, root, TOP, key, level);
  }

  lemma {:induction false} DownStep(m: Memory, root: Ptr, key: nat, level: nat, n: Ptr)
    requires Standing(m, root, key, level, n) && level > 0
    requires n in m && SlotIndex(key, level) < |m[n].slots| && m[n].slots[SlotIndex(key, level)] != 0
    ensures Standing(m, root, key, level - 1, m[n].slots[SlotIndex(key, level)])
  {
    var t, i := View(m, root, TOP), SlotIndex(key, level);
    StandingNode(m, root, key, level, n);
    assert View(m, n, level).slots[i] == SlotView(m, m[n].slots[i], level);
    PathDown(t, TOP, key, level);
    PtrDown(m, root, TOP, key, level);
  }

  lemma {:induction false} PtrDown(m: Memory, p: Ptr, level: nat, key: nat, low: nat)
    requires IsTree(m, p, level) && Shaped(View(m, p, level), level) && 0 < low
    requires PathTo(View(m, p, level), level, key, low) && PathTo(View(m, p, level), level, key, low - 1)
    ensures var n := PtrAt(m, p, level, key, low);
            PtrAt(m, p, level, key, low - 1) == m[n].slots[SlotIndex(key, low)]
    decreases level
  {
    hide SlotIndex;
    hide View;
    hide Shaped;
    hide Foot;
    hide PtrAt;
    hide PathTo;
    PtrTop(m, p, level, key, low);
    PtrStep(m, p, level, key, low - 1);
    if low < level {
      PtrStep(m, p, level, key, low);
      PtrDown(m, m[p].slots[SlotIndex(key, level)], level - 1, key, low);
    } else {
      PtrTop(m, m[p].slots[SlotIndex(key, level)], level - 1, key, low - 1);
    }
  }

  /** A local write at the node the descent stands at. */
  lemma {:induction false} WriteHere(m: Memory, m': Memory, root: Ptr, key: nat, level: nat, n: Ptr, extra: set<Ptr>)
    requires Standing(m, root, key, level, n)
    requires IsTree(m', n, level) && Shaped(View(m', n, level), level)
    requires Foot(m', n, level) <= Foot(m, n, level) + extra && extra !! m.Keys
    requires m'.Keys == m.Keys - Foot(m, n, level) + Foot(m', n, level)
    requires forall q :: q in m && q !in Foot(m, n, level) ==> q in m' && m'[q] == m[q]
    ensures Standing(m', root, key, level, n)
    ensures View(m', root, TOP) == ReplaceAt(View(m, root, TOP), TOP, key, level, View(m', n, level))
  {
    hide View;
    hide Foot;
    hide PtrAt;
    hide PathTo;
    hide Shaped;
    Deep(m, m', root, TOP, key, level, extra);
    ReplaceFacts(View(m, root, TOP), TOP, key, level, View(m', n, level));
    SamePtr(m, m', root, TOP, key, level, Foot(m, n, level));
  }

  lemma {:induction false} SamePtr(m: Memory, m': Memory, p: Ptr, level: nat, key: nat, low: nat, mine: set<Ptr>)
    requires IsTree(m, p, level) && Shaped(View(m, p, level), level) && PathTo(View(m, p, level), level, key, low)
    requires IsTree(m', p, level) && Shaped(View(m', p, level), level) && PathTo(View(m', p, level), level, key, low)
    requires mine == Foot(m, PtrAt(m, p, level, key, low), low)
    requires SameOn(m, m', Foot(m, p, level) - mine)
    ensures PtrAt(m', p, level, key, low) == PtrAt(m, p, level, key, low)
    decreases level
  {
    hide View;
    hide Foot;
    hide Shaped;
    hide PathTo;
    hide PtrAt;
    PtrTop(m, p, level, key, low);
    PtrTop(m', p, level, key, low);
    if low < level {
      PtrStep(m, p, level, key, low);
      PtrStep(m', p, level, key, low);
      var c := m[p].slots[SlotIndex(key, level)];
      FootMonotone(m, c, level - 1, key, low);
      assert p in Foot(m, p, level) && m'[p] == m[p];
      SamePtr(m, m', c, level - 1, key, low, mine);
    }
  }

  lemma {:induction false} NodeSlot(m: Memory, n: Ptr, level: nat, key: nat)
    requires IsTree(m, n, level)
    ensures |View(m, n, level).slots| == |m[n].slots| == FANOUT && View(m, n, level).used == m[n].used
    ensures View(m, n, level).slots[SlotIndex(key, level)] == Null <==> m[n].slots[SlotIndex(key, level)] == 0
  {
  }

  /** The step that links a fresh node: the insert under way is unchanged, one allocation
   *  is spent, and the descent moves on to the new node. */
  lemma {:induction false} LinkStep(m: Memory, root: Ptr, key: nat, v: Value, left: nat, level: nat, n: Ptr, c: Ptr)
    requires Standing(m, root, key, level, n) && level > 0 && left > 0 && c != 0 && c !in m
    requires n in m && SlotIndex(key, level) < |m[n].slots| && m[n].slots[SlotIndex(key, level)] == 0
    ensures var i := SlotIndex(key, level);
            var m' := m[c := ZeroCell()][n := Stored(m[n], i, c)];
            && Standing(m', root, key, level, n) && m'[n].slots[i] == c
            && Insert(View(m', root, TOP), TOP, key, v, left - 1) == Insert(View(m, root, TOP), TOP, key, v, left)
            && Lookup(View(m', root, TOP), TOP, key) == Lookup(View(m, root, TOP), TOP, key)
  {
    hide View;
    hide Foot;
    hide PtrAt;
    hide PathTo;
    hide Shaped;
    hide Insert;
    hide Lookup;
    hide SlotIndex;
    hide SubAt;
    var i := SlotIndex(key, level);
    var m' := m[c := ZeroCell()][n := Stored(m[n], i, c)];
    StandingNode(m, root, key, level, n);
    NodeSlot(m, n, level, key);
    LinkWrite(m, n, level, i, c);
    LinkThenInsert(View(m, root, TOP), TOP, key, v, left, level);
    assert m'.Keys == m.Keys - Foot(m, n, level) + Foot(m', n, level);
    WriteHere(m, m', root, key, level, n, {c});
    LinkedLookup(m, m', root, key, level, n);
  }

  lemma {:induction false} LinkedLookup(m: Memory, m': Memory, root: Ptr, key: nat, level: nat, n: Ptr)
    requires level > 0 && Standing(m, root, key, level, n) && Standing(m', root, key, level, n)
    requires View(m, n, level).slots[SlotIndex(key, level)] == Null
    requires View(m', n, level).slots[SlotIndex(key, level)] == Child(Empty())
    ensures Lookup(View(m', root, TOP), TOP, key) == Lookup(View(m, root, TOP), TOP, key)
  {
    hide View;
    hide SlotIndex;
    LookupThrough(View(m, root, TOP), TOP, key, level);
    LookupThrough(View(m', root, TOP), TOP, key, level);
    EmptyLookup(level - 1, key);
  }

  /** Out of memory with the path cut short: the insert ends here and has done nothing. */
  lemma {:induction false} StuckStep(m: Memory, root: Ptr, key: nat, v: Value, level: nat, n: Ptr)
    requires Standing(m, root, key, level, n) && level > 0
    requires n in m && SlotIndex(key, level) < |m[n].slots| && m[n].slots[SlotIndex(key, level)] == 0
    ensures Insert(View(m, root, TOP), TOP, key, v, 0) == (View(m, root, TOP), false, 0)
  {
    StandingNode(m, root, key, level, n);
    NodeSlot(m, n, level, key);
    hide View;
    hide PtrAt;
    hide PathTo;
    hide SubAt;
    hide ReplaceAt;
    var t := View(m, root, TOP);
    InsertThrough(t, TOP, key, v, 0, level);
    ReplaceFacts(t, TOP, key, level, SubAt(t, TOP, key, level));
  }

  /** The final store of an insert. */
  lemma {:induction false} StoreStep(m: Memory, root: Ptr, key: nat, v: Value, left: nat, n: Ptr)
    requires Standing(m, root, key, 0, n) && n in m && SlotIndex(key, 0) < |m[n].slots|
    ensures var m' := m[n := Stored(m[n], SlotIndex(key, 0), v)];
            && Holds(m', root)
            && Insert(View(m, root, TOP), TOP, key, v, left) == (View(m', root, TOP), true, left)
            && (m[n].slots[SlotIndex(key, 0)] == 0 <==> Lookup(View(m, root, TOP), TOP, key) == None)
  {
    var i := SlotIndex(key, 0);
    var m' := m[n := Stored(m[n], i, v)];
    StandingNode(m, root, key, 0, n);
    NodeSlot(m, n, 0, key);
    LeafWrite(m, n, i, v);
    PutShaped(View(m, n, 0), 0, i, Val(v));
    hide View;
    hide PtrAt;
    hide PathTo;
    hide SubAt;
    hide ReplaceAt;
    assert m'.Keys == m.Keys - Foot(m, n, 0) + Foot(m', n, 0);
    WriteHere(m, m', root, key, 0, n, {});
    InsertThrough(View(m, root, TOP), TOP, key, v, left, 0);
    LookupThrough(View(m, root, TOP), TOP, key, 0);
  }

  lemma {:induction false} PathUp(n: Node, level: nat, key: nat, low: nat, l: nat)
    requires Shaped(n, level) && PathTo(n, level, key, low) && low <= l <= level
    ensures PathTo(n, level, key, l)
    decreases level
  {
    if l < level {
      PathUp(n.slots[SlotIndex(key, level)].node, level - 1, key, low, l);
    }
  }

  /** The node further up contains the node further down. */
  lemma {:induction false} FootNested(m: Memory, p: Ptr, level: nat, key: nat, low: nat, l: nat)
    requires IsTree(m, p, level) && Shaped(View(m, p, level), level) && PathTo(View(m, p, level), level, key, low)
    requires low <= l <= level && PathTo(View(m, p, level), level, key, l)
    ensures Foot(m, PtrAt(m, p, level, key, low), low) <= Foot(m, PtrAt(m, p, level, key, l), l)
    decreases level
  {
    hide View;
    hide Foot;
    hide Shaped;
    hide PathTo;
    hide PtrAt;
    if l == level {
      PtrTop(m, p, level, key, l);
      FootMonotone(m, p, level, key, low);
    } else {
      PtrStep(m, p, level, key, low);
      PtrStep(m, p, level, key, l);
      FootNested(m, m[p].slots[SlotIndex(key, level)], level - 1, key, low, l);
    }
  }

  /** A write at one node of the path leaves the path above it in place. */
  lemma {:induction false} PathAbove(m: Memory, m': Memory, root: Ptr, key: nat, low: nat, n: Ptr, l: nat, q: Ptr)
    requires Standing(m, root, key, low, n) && Standing(m', root, key, low, n) && low <= l <= TOP
    requires Standing(m, root, key, l, q)
    requires forall x :: x in m && x !in Foot(m, n, low) ==> x in m' && m'[x] == m[x]
    ensures Standing(m', root, key, l, q)
  {
    hide View;
    hide Foot;
    hide Shaped;
    hide PathTo;
    hide PtrAt;
    PathUp(View(m', root, TOP), TOP, key, low, l);
    FootNested(m, root, TOP, key, low, l);
    SamePtr(m, m', root, TOP, key, l, Foot(m, q, l));
  }

  /** Clearing the leaf slot of a stored key. */
  lemma {:induction false} ClearStep(m: Memory, root: Ptr, key: nat, n: Ptr)
    requires Standing(m, root, key, 0, n) && n in m && SlotIndex(key, 0) < |m[n].slots|
    requires m[n].slots[SlotIndex(key, 0)] != 0
    ensures m[n].used > 0
    ensures var m' := m[n := Stored(m[n], SlotIndex(key, 0), 0)];
            && Standing(m', root, key, 0, n)
            && Remove(TreeOf(m, root), TOP, key) == (Pending(m', root, key, 0), Some(m[n].slots[SlotIndex(key, 0)]))
  {
    var i := SlotIndex(key, 0);
    StandingNode(m, root, key, 0, n);
    NodeSlot(m, n, 0, key);
    assert View(m, n, 0).slots[i] == SlotView(m, m[n].slots[i], 0);
    SlotUsed(View(m, n, 0).slots, i, Null);
    LeafWrite(m, n, i, 0);
    PutShaped(View(m, n, 0), 0, i, Null);
    hide View;
    hide PtrAt;
    hide PathTo;
    hide SubAt;
    hide ReplaceAt;
    hide Remove;
    hide TrimUp;
    var m' := m[n := Stored(m[n], i, 0)];
    assert m'.Keys == m.Keys - Foot(m, n, 0) + Foot(m', n, 0);
    WriteHere(m, m', root, key, 0, n, {});
    RemoveIsTrim(View(m, root, TOP), TOP, key);
  }

  lemma {:induction false} EmptyFoot(m: Memory, p: Ptr, level: nat)
    requires IsTree(m, p, level) && Shaped(View(m, p, level), level) && m[p].used == 0
    ensures Foot(m, p, level) == {p}
  {
    NoneUsed(View(m, p, level).slots);
    assert forall i :: 0 <= i < FANOUT ==> m[p].slots[i] == 0;
  }

  /** One round of the pruning loop: an empty node leaves its parent and is freed. */
  lemma {:induction false} PruneStep(m: Memory, root: Ptr, key: nat, level: nat, cur: Ptr, parent: Ptr)
    requires level < TOP && Standing(m, root, key, level, cur) && Standing(m, root, key, level + 1, parent)
    requires cur in m && m[cur].used == 0
    ensures parent in m && m[parent].used > 0 && |m[parent].slots| == FANOUT
    ensures m[parent].slots[SlotIndex(key, level + 1)] == cur
    ensures var m' := m[parent := Stored(m[parent], SlotIndex(key, level + 1), 0)] - {cur};
            && Standing(m', root, key, level + 1, parent)
            && (forall x :: x in m && x !in Foot(m, parent, level + 1) ==> x in m' && m'[x] == m[x])
            && Pending(m', root, key, level + 1) == Pending(m, root, key, level)
  {
    hide View;
    hide PtrAt;
    hide PathTo;
    hide SubAt;
    hide ReplaceAt;
    hide TrimUp;
    hide SlotIndex;
    hide Foot;
    hide Shaped;
    var i := SlotIndex(key, level + 1);
    StandingNode(m, root, key, level, cur);
    StandingNode(m, root, key, level + 1, parent);
    NodeSlot(m, parent, level + 1, key);
    NodeSlot(m, cur, level, key);
    EmptyFoot(m, cur, level);
    TrimClimbs(View(m, root, TOP), TOP, key, level);
    PtrDown(m, root, TOP, key, level + 1);
    UnlinkWrite(m, parent, level + 1, i);
    var m' := m[parent := Stored(m[parent], i, 0)] - {cur};
    KidFoot(m, parent, level + 1, i);
    assert m'.Keys == m.Keys - Foot(m, parent, level + 1) + Foot(m', parent, level + 1);
    WriteHere(m, m', root, key, level + 1, parent, {});
  }

  class RadixTree {
    var mem: Memory
    var root: Ptr
    var count: nat

    /** The linked nodes form a tree with exact use counts, and no node is leaked. */
    ghost predicate Valid()
      reads this
    {
      if root == 0 then mem == map[] else Holds(mem, root)
    }

    ghost function Abs(): (t: Tree)
      requires Valid()
      reads this
      ensures TreeShaped(t)
    {
      Tree(if root == 0 then None else Some(View(mem, root, TOP)), count)
    }

    constructor ()
      ensures Valid() && Abs() == Tree(None, 0)
    {
      mem, root, count := map[], 0, 0;
    }

    /** `node_new`. */
    method NewNode() returns (p: Ptr)
      ensures p != 0 && p !in mem
    {
      ghost var q := UnusedAddress(mem.Keys);
      p :| p != 0 && p !in mem;
    }

    /** `radix_insert`; `avail` is how many node allocations can still succeed. */
    method Insert(key: nat, v: nat, avail: nat) returns (ok: bool)
      requires Valid()
      modifies this
      ensures Valid() && (Abs(), ok) == InsertKey(old(Abs()), key, v, avail)
    {
      hide View;
      hide RadixSpec.Insert;
      hide Lookup;
      hide IsTree;
      hide Foot;
      hide PathTo;
      hide PtrAt;
      hide Shaped;
      hide SlotIndex;
      hide Stored;
      if key > MAX_KEY || v == 0 {
        return false;
      }
      var left := avail;
      if root == 0 {
        if left == 0 {
          return false;
        }
        root := NewNode();
        mem := map[root := ZeroCell()];
        left := left - 1;
        NewTree(mem, root, key);
      }
      ghost var t := View(mem, root, TOP);
      var n, level: nat := root, TOP;
      StandAtRoot(mem, root, key);
      while level > 0
        invariant 0 <= level <= TOP && root != 0 && count == old(count) && Standing(mem, root, key, level, n)
        invariant RadixSpec.Insert(View(mem, root, TOP), TOP, key, v, left)
               == RadixSpec.Insert(t, TOP, key, v, if old(root) == 0 then avail - 1 else avail)
        invariant Lookup(View(mem, root, TOP), TOP, key) == Lookup(t, TOP, key)
      {
        StandingNode(mem, root, key, level, n);
        var i := SlotIndex(key, level);
        var child := mem[n].slots[i];
        if child == 0 {
          if left == 0 {
            StuckStep(mem, root, key, v, level, n);
            StandingHolds(mem, root, key, level, n);
            return false;
          }
          child := NewNode();
          LinkStep(mem, root, key, v, left, level, n, child);
          mem := mem[child := ZeroCell()][n := Stored(mem[n], i, child)];
          left := left - 1;
        }
        StandingNode(mem, root, key, level, n);
        DownStep(mem, root, key, level, n);
        n := child;
        level := level - 1;
      }
      StandingNode(mem, root, key, 0, n);
      StoreStep(mem, root, key, v, left, n);
      if mem[n].slots[SlotIndex(key, 0)] == 0 {
        count := count + 1;
      }
      mem := mem[n := Stored(mem[n], SlotIndex(key, 0), v)];
      ok := true;
    }

    method ClearLeaf(key: nat, path: array<Ptr>)
      requires OnPath(mem, root, key, 0, path[..]) && path[0] in mem
      requires SlotIndex(key, 0) < |mem[path[0]].slots| && mem[path[0]].slots[SlotIndex(key, 0)] != 0
      modifies `mem
      ensures OnPath(mem, root, key, 0, path[..])
      ensures RadixSpec.Remove(TreeOf(old(mem), root), TOP, key) ==
              (Pending(mem, root, key, 0), Some(old(mem)[path[0]].slots[SlotIndex(key, 0)]))
    {
      hide View;
      hide RadixSpec.Remove;
      hide Stored;
      hide SlotIndex;
      hide TrimUp;
      hide Foot;
      hide IsTree;
      hide PtrAt;
      hide PathTo;
      hide Shaped;
      var n := path[0];
      assert path[..][0] == n;
      ClearStep(mem, root, key, n);
      ghost var m := mem;
      NodeInFoot(m, n, 0);
      mem := mem[n := Stored(mem[n], SlotIndex(key, 0), 0)];
      ClimbPath(m, mem, root, key, 0, n, path[..]);
    }

    /** The pruning loop and the final check of the root. */
    method Prune(key: nat, path: array<Ptr>)
      requires OnPath(mem, root, key, 0, path[..])
      modifies `mem, `root
      ensures Valid()
      ensures var r := Pending(old(mem), old(root), key, 0);
              Abs().root == if r.used == 0 then None else Some(r)
    {
      hide View;
      hide Stored;
      hide SlotIndex;
      hide TrimUp;
      hide Foot;
      hide IsTree;
      hide PtrAt;
      hide PathTo;
      hide Shaped;
      hide Pending;
      var level: nat := 0;
      while level < TOP
        invariant 0 <= level <= TOP && root == old(root) && OnPath(mem, root, key, level, path[..])
        invariant Pending(mem, root, key, level) == Pending(old(mem), root, key, 0)
      {
        var cur, parent := path[level], path[level + 1];
        assert path[..][level] == cur && path[..][level + 1] == parent;
        StandingNode(mem, root, key, level, cur);
        if mem[cur].used != 0 {
          break;
        }
        PruneStep(mem, root, key, level, cur, parent);
        ghost var m := mem;
        mem := mem[parent := Stored(mem[parent], SlotIndex(key, level + 1), 0)] - {cur};
        ClimbPath(m, mem, root, key, level + 1, parent, path[..]);
        level := level + 1;
      }
      assert path[..][level] == path[level];
      PruneEnds(mem, root, key, level, path[level]);
      if mem[root].used == 0 {
        mem := mem - {root};
        root := 0;
      }
    }

    /** `radix_remove`; 0 is the NULL result. */
    method Remove(key: nat) returns (v: nat)
      requires Valid()
      modifies this
      ensures Valid()
      ensures Abs() == RemoveKey(old(Abs()), key).0
      ensures v == match RemoveKey(old(Abs()), key).1 case None => 0 case Some(x) => x
    {
      hide View;
      hide RadixSpec.Remove;
      hide IsTree;
      hide Foot;
      hide PathTo;
      hide PtrAt;
      hide Shaped;
      hide SlotIndex;
      hide Stored;
      hide TrimUp;
      if key > MAX_KEY || root == 0 {
        return 0;
      }
      ghost var t := View(mem, root, TOP);
      var path := new Ptr[LEVELS];
      var n, level: nat := root, TOP;
      StandAtRoot(mem, root, key);
      while level > 0
        invariant 0 <= level <= TOP && Standing(mem, root, key, level, n)
        invariant forall l :: level < l <= TOP ==> Standing(mem, root, key, l, path[l])
        invariant mem == old(mem) && root == old(root) && count == old(count)
      {
        StandingNode(mem, root, key, level, n);
        path[level] := n;
        var child := mem[n].slots[SlotIndex(key, level)];
        if child == 0 {
          MissStep(mem, root, key, level, n);
          return 0;
        }
        DownStep(mem, root, key, level, n);
        n := child;
        level := level - 1;
      }
      StandingNode(mem, root, key, 0, n);
      v := mem[n].slots[SlotIndex(key, 0)];
      if v == 0 {
        MissStep(mem, root, key, 0, n);
        return;
      }
      path[0] := n;
      assert OnPath(mem, root, key, 0, path[..]);
      ClearLeaf(key, path);
      count := if count > 0 then count - 1 else 0;
      Prune(key, path);
    }

    /** `radix_lookup`. */
    method LookupKey(key: nat) returns (v: nat)
      requires Valid()
      ensures v == match Find(Abs(), key) case None => 0 case Some(x) => x
    {
      hide View;
      hide Lookup;
      hide SlotIndex;
      if key > MAX_KEY || root == 0 {
        return 0;
      }
      var n := root;
      var level: nat := TOP;
      ghost var t := View(mem, root, TOP);
      while level > 0
        invariant 0 <= level <= TOP && IsTree(mem, n, level) && Shaped(View(mem, n, level), level)
        invariant Lookup(View(mem, n, level), level, key) == Lookup(t, TOP, key)
      {
        DescendLookup(mem, n, level, key);
        n := mem[n].slots[SlotIndex(key, level)];
        if n == 0 {
          return 0;
        }
        level := level - 1;
      }
      LeafLookup(mem, n, key);
      v := mem[n].slots[SlotIndex(key, 0)];
    }
  }

  lemma {:induction false} MissStep(m: Memory, root: Ptr, key: nat, level: nat, n: Ptr)
    requires Standing(m, root, key, level, n)
    requires n in m && SlotIndex(key, level) < |m[n].slots| && m[n].slots[SlotIndex(key, level)] == 0
    ensures Remove(View(m, root, TOP), TOP, key) == (View(m, root, TOP), None)
  {
    StandingNode(m, root, key, level, n);
    NodeSlot(m, n, level, key);
    hide View;
    RemoveMissing(View(m, root, TOP), TOP, key, level);
  }

  lemma {:induction false} NodeInFoot(m: Memory, p: Ptr, level: nat)
    ensures p in Foot(m, p, level)
  {
  }

  /** Writes at the node of level `low` keep the recorded path above it. */
  lemma {:induction false} ClimbPath(m: Memory, m': Memory, root: Ptr, key: nat, low: nat, n: Ptr, path: seq<Ptr>)
    requires low <= TOP && OnPath(m, root, key, low, path) && path[low] == n && Standing(m', root, key, low, n)
    requires forall x :: x in m && x !in Foot(m, n, low) ==> x in m' && m'[x] == m[x]
    ensures OnPath(m', root, key, low, path)
  {
    hide Standing;
    forall l | low <= l <= TOP ensures Standing(m', root, key, l, path[l]) {
      PathAbove(m, m', root, key, low, n, l, path[l]);
    }
  }

  /** Pruning ends at the top or at a node still in use; an empty root goes too. */
  lemma {:induction false} PruneEnds(m: Memory, root: Ptr, key: nat, level: nat, n: Ptr)
    requires Standing(m, root, key, level, n) && n in m && level <= TOP
    requires level == TOP || m[n].used != 0
    ensures Holds(m, root) && root in m && Pending(m, root, key, level) == View(m, root, TOP)
    ensures View(m, root, TOP).used == m[root].used
    ensures m[root].used == 0 ==> m - {root} == map[]
  {
    StandingNode(m, root, key, level, n);
    NodeSlot(m, n, level, key);
    hide View;
    if level < TOP {
      TrimStops(View(m, root, TOP), TOP, key, level);
    }
    NodeSlot(m, root, TOP, key);
    if m[root].used == 0 {
      EmptyFoot(m, root, TOP);
    }
  }

  lemma {:induction false} StandingHolds(m: Memory, root: Ptr, key: nat, level: nat, n: Ptr)
    requires Standing(m, root, key, level, n)
    ensures Holds(m, root)
  {
  }

  lemma {:induction false} NewTree(m: Memory, root: Ptr, key: nat)
    requires root != 0 && m == map[root := ZeroCell()]
    ensures Holds(m, root) && View(m, root, TOP) == Empty() && Lookup(Empty(), TOP, key) == None
  {
    ZeroNode(m, root, TOP);
    EmptyLookup(TOP, key);
  }

  lemma {:induction false} DescendLookup(m: Memory, n: Ptr, level: nat, key: nat)
    requires IsTree(m, n, level) && Shaped(View(m, n, level), level) && level > 0
    ensures var c := m[n].slots[SlotIndex(key, level)];
            && (c == 0 ==> Lookup(View(m, n, level), level, key) == None)
            && (c != 0 ==> IsTree(m, c, level - 1) && Shaped(View(m, c, level - 1), level - 1)
                           && Lookup(View(m, n, level), level, key) == Lookup(View(m, c, level - 1), level - 1, key))
  {
    var i := SlotIndex(key, level);
    assert View(m, n, level).slots[i] == SlotView(m, m[n].slots[i], level);
  }

  lemma {:induction false} LeafLookup(m: Memory, n: Ptr, key: nat)
    requires IsTree(m, n, 0) && Shaped(View(m, n, 0), 0)
    ensures var x := m[n].slots[SlotIndex(key, 0)];
            Lookup(View(m, n, 0), 0, key) == if x == 0 then None else Some(x)
  {
    var i := SlotIndex(key, 0);
    assert View(m, n, 0).slots[i] == SlotView(m, m[n].slots[i], 0);
  }
}
