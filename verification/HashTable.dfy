/** Chained hash table from 64-bit keys to values (kernel/lib/hashtable.c).
 *
 *  The bucket-choosing hash is a parameter: everything below holds for any hash. A chain
 *  of nodes is the sequence of its nodes from the bucket head.
 */
module HashTable {
  import opened Options

  datatype Node<V> = Node(key: nat, value: V)

  // ---- One bucket's chain ---------------------------------------------------------

  function Assoc<V>(chain: seq<Node<V>>, key: nat): (r: Option<V>) {
    if chain == [] then None
    else if chain[0].key == key then Some(chain[0].value)
    else Assoc(chain[1..], key)
  }

  predicate Distinct<V>(chain: seq<Node<V>>) {
    forall i, j :: 0 <= i < j < |chain| ==> chain[i].key != chain[j].key
  }

  lemma {:induction false} AssocAt<V>(chain: seq<Node<V>>, i: nat)
    requires Distinct(chain) && i < |chain|
    ensures Assoc(chain, chain[i].key) == Some(chain[i].value)
    decreases i
  {
    if i > 0 {
      assert chain[0].key != chain[i].key;
      var t := chain[1..];
      assert forall j, k :: 0 <= j < k < |t| ==> t[j] == chain[j + 1] && t[k] == chain[k + 1];
      AssocAt(t, i - 1);
    }
  }

  lemma {:induction false} AssocNone<V>(chain: seq<Node<V>>, key: nat)
    ensures Assoc(chain, key) == None <==> forall i :: 0 <= i < |chain| ==> chain[i].key != key
  {
    if chain != [] && chain[0].key != key {
      AssocNone(chain[1..], key);
      assert forall i :: 0 < i < |chain| ==> chain[i] == chain[1..][i - 1];
    }
  }

  /** Overwriting one node's value changes what its key finds and nothing else. */
  lemma {:induction false} AssocUpdate<V>(chain: seq<Node<V>>, i: nat, v: V, key: nat)
    requires Distinct(chain) && i < |chain|
    ensures var c := chain[i := Node(chain[i].key, v)];
      && Distinct(c)
      && Assoc(c, key) == if key == chain[i].key then Some(v) else Assoc(chain, key)
    decreases i
  {
    var c := chain[i := Node(chain[i].key, v)];
    assert forall j :: 0 <= j < |c| ==> c[j].key == chain[j].key;
    if i > 0 {
      var t := chain[1..];
      assert forall j, k :: 0 <= j < k < |t| ==> t[j] == chain[j + 1] && t[k] == chain[k + 1];
      AssocUpdate(t, i - 1, v, key);
      assert c[1..] == t[i - 1 := Node(chain[i].key, v)];
    } else {
      assert c[1..] == chain[1..];
    }
  }

  lemma {:induction false} UnlinkDistinct<V>(chain: seq<Node<V>>, i: nat)
    requires Distinct(chain) && i < |chain|
    ensures Distinct(chain[..i] + chain[i + 1..])
    ensures forall j :: 0 <= j < |chain| && j != i ==> chain[j].key != chain[i].key
  {
    var c := chain[..i] + chain[i + 1..];
    assert forall j :: 0 <= j < |c| ==> c[j] == if j < i then chain[j] else chain[j + 1];
  }

  /** Unlinking one node forgets its key and nothing else. */
  lemma {:induction false} AssocUnlink<V>(chain: seq<Node<V>>, i: nat, key: nat)
    requires Distinct(chain) && i < |chain|
    ensures var c := chain[..i] + chain[i + 1..];
      && Distinct(c)
      && Assoc(c, key) == if key == chain[i].key then None else Assoc(chain, key)
    decreases i
  {
    var c := chain[..i] + chain[i + 1..];
    UnlinkDistinct(chain, i);
    if i > 0 {
      var t := chain[1..];
      assert Distinct(t) by {
        assert forall j :: 0 <= j < |t| ==> t[j] == chain[j + 1];
      }
      AssocUnlink(t, i - 1, key);
      assert c[1..] == t[..i - 1] + t[i..];
    } else {
      assert c == chain[1..];
      AssocNone(c, chain[0].key);
    }
  }

  /** A new node in front adds its key and nothing else. */
  lemma {:induction false} AssocPrepend<V>(chain: seq<Node<V>>, key: nat, v: V, k: nat)
    requires Distinct(chain) && Assoc(chain, key) == None
    ensures var c := [Node(key, v)] + chain;
      && Distinct(c)
      && Assoc(c, k) == if k == key then Some(v) else Assoc(chain, k)
  {
    var c := [Node(key, v)] + chain;
    AssocNone(chain, key);
    assert c[1..] == chain;
    assert forall j :: 0 < j < |c| ==> c[j] == chain[j - 1];
  }

  // ---- The table ------------------------------------------------------------------

  predicate Homed<V>(chain: seq<Node<V>>, mix: nat -> nat, n: nat, b: nat)
    requires n > 0
  {
    forall i :: 0 <= i < |chain| ==> mix(chain[i].key) % n == b
  }

  /** The buckets together hold exactly the map `m`. */
  ghost predicate Holds<V>(buckets: seq<seq<Node<V>>>, mix: nat -> nat, m: map<nat, V>)
    requires |buckets| > 0
  {
    && (forall b :: 0 <= b < |buckets| ==> Distinct(buckets[b]) && Homed(buckets[b], mix, |buckets|, b))
    && (forall k: nat :: Assoc(buckets[mix(k) % |buckets|], k) == if k in m then Some(m[k]) else None)
  }

  class Hashtable<V> {
    const mix: nat -> nat
    const buckets: array<seq<Node<V>>>
    var count: nat
    ghost var contents: map<nat, V>

    ghost predicate Valid()
      reads this, buckets
    {
      buckets.Length > 0 && Holds(buckets[..], mix, contents) && count == |contents|
    }

    constructor (mix: nat -> nat, nbuckets: nat)
      requires nbuckets > 0
      ensures Valid() && contents == map[] && fresh(buckets)
    {
      this.mix := mix;
      buckets := new seq<Node<V>>[nbuckets](i => []);
      count := 0;
      contents := map[];
    }

    /** `find_node`: the bucket and the position of the key in its chain. */
    method FindNode(key: nat) returns (b: nat, i: Option<nat>)
      requires Valid()
      ensures b == mix(key) % buckets.Length
      ensures i == None <==> key !in contents
      ensures i.Some? ==> i.value < |buckets[b]| && buckets[b][i.value] == Node(key, contents[key])
    {
      b := mix(key) % buckets.Length;
      var chain := buckets[b];
      assert chain == buckets[..][b];
      var k := 0;
      while k < |chain|
        invariant k <= |chain|
        invariant Assoc(chain, key) == Assoc(chain[k..], key)
      {
        if chain[k].key == key {
          return b, Some(k);
        }
        assert chain[k..][1..] == chain[k + 1..];
        k := k + 1;
      }
      i := None;
    }

    method Get(key: nat) returns (r: Option<V>)
      requires Valid()
      ensures r == if key in contents then Some(contents[key]) else None
    {
      var b, i := FindNode(key);
      r := match i case None => None case Some(k) => Some(buckets[b][k].value);
    }

    /** Insert or replace; only a new key needs memory. */
    method Put(key: nat, v: V, memory: bool) returns (ok: bool)
      requires Valid()
      modifies this, buckets
      ensures Valid()
      ensures ok == (memory || key in old(contents))
      ensures ok ==> contents == old(contents)[key := v]
      ensures !ok ==> contents == old(contents)
    {
      hide Holds;
      var b, i := FindNode(key);
      ghost var was := buckets[..];
      match i
      case Some(k) =>
        var chain := buckets[b];
        buckets[b] := chain[k := Node(key, v)];
        contents := contents[key := v];
        assert buckets[..] == was[b := chain[k := Node(key, v)]];
        Replaced(was, mix, old(contents), b, k, v);
        ok := true;
      case None =>
        if !memory {
          return false;
        }
        buckets[b] := [Node(key, v)] + buckets[b];
        count := count + 1;
        contents := contents[key := v];
        assert buckets[..] == was[b := [Node(key, v)] + was[b]];
        Prepended(was, mix, old(contents), b, key, v);
        ok := true;
    }

    /** Unlink the key's node; the value it held, if any. */
    method Remove(key: nat) returns (r: Option<V>)
      requires Valid()
      modifies this, buckets
      ensures Valid()
      ensures r == if key in old(contents) then Some(old(contents)[key]) else None
      ensures contents == old(contents) - {key}
    {
      hide Holds;
      var b := mix(key) % buckets.Length;
      var chain := buckets[b];
      ghost var was := buckets[..];
      assert chain == was[b];
      HoldsAt(was, mix, contents, key);
      var k := 0;
      while k < |chain| && chain[k].key != key
        invariant k <= |chain|
        invariant Assoc(chain, key) == Assoc(chain[k..], key)
      {
        assert chain[k..][1..] == chain[k + 1..];
        k := k + 1;
      }
      if k == |chain| {
        assert contents - {key} == contents;
        return None;
      }
      r := Some(chain[k].value);
      buckets[b] := chain[..k] + chain[k + 1..];
      count := count - 1;
      contents := contents - {key};
      assert buckets[..] == was[b := chain[..k] + chain[k + 1..]];
      Unlinked(was, mix, old(contents), b, k);
    }
  }

  function Entry<V>(m: map<nat, V>, k: nat): (r: Option<V>) {
    if k in m then Some(m[k]) else None
  }

  lemma {:induction false} HoldsAt<V>(buckets: seq<seq<Node<V>>>, mix: nat -> nat, m: map<nat, V>, key: nat)
    requires |buckets| > 0 && Holds(buckets, mix, m)
    ensures Assoc(buckets[mix(key) % |buckets|], key) == Entry(m, key)
  {
  }

  /** Changing one chain changes the map at the keys of that bucket only. */
  lemma {:induction false} OneBucket<V>(was: seq<seq<Node<V>>>, mix: nat -> nat, m: map<nat, V>, n: map<nat, V>,
                                        b: nat, c: seq<Node<V>>, key: nat)
    requires |was| > 0 && Holds(was, mix, m) && b == mix(key) % |was|
    requires Distinct(c) && Homed(c, mix, |was|, b)
    requires forall k: nat :: Assoc(c, k) == if k == key then Entry(n, key) else Assoc(was[b], k)
    requires forall k: nat :: k != key ==> (k in m <==> k in n) && (k in m ==> n[k] == m[k])
    ensures Holds(was[b := c], mix, n)
  {
    hide Distinct;
    hide Homed;
    hide Assoc;
    var now := was[b := c];
    forall k: nat
      ensures Assoc(now[mix(k) % |now|], k) == if k in n then Some(n[k]) else None
    {
      HoldsAt(was, mix, m, k);
    }
  }

  lemma {:induction false} Replaced<V>(was: seq<seq<Node<V>>>, mix: nat -> nat, m: map<nat, V>, b: nat, i: nat, v: V)
    requires |was| > 0 && Holds(was, mix, m) && b < |was| && i < |was[b]|
    ensures var key := was[b][i].key;
      key in m && Holds(was[b := was[b][i := Node(key, v)]], mix, m[key := v]) && |m[key := v]| == |m|
  {
    hide Assoc;
    var key := was[b][i].key;
    var c := was[b][i := Node(key, v)];
    AssocAt(was[b], i);
    assert mix(key) % |was| == b;
    forall k: nat
      ensures Assoc(c, k) == (if k == key then Some(v) else Assoc(was[b], k)) && Distinct(c)
    {
      AssocUpdate(was[b], i, v, k);
    }
    OneBucket(was, mix, m, m[key := v], b, c, key);
    assert m.Keys == m[key := v].Keys;
  }

  lemma {:induction false} Prepended<V>(was: seq<seq<Node<V>>>, mix: nat -> nat, m: map<nat, V>, b: nat, key: nat, v: V)
    requires |was| > 0 && Holds(was, mix, m) && b == mix(key) % |was| && key !in m
    ensures Holds(was[b := [Node(key, v)] + was[b]], mix, m[key := v]) && |m[key := v]| == |m| + 1
  {
    hide Distinct;
    hide Assoc;
    var c := [Node(key, v)] + was[b];
    HoldsAt(was, mix, m, key);
    forall k: nat
      ensures Assoc(c, k) == (if k == key then Some(v) else Assoc(was[b], k)) && Distinct(c)
    {
      AssocPrepend(was[b], key, v, k);
    }
    OneBucket(was, mix, m, m[key := v], b, c, key);
    assert m[key := v].Keys == m.Keys + {key};
  }

  lemma {:induction false} Unlinked<V>(was: seq<seq<Node<V>>>, mix: nat -> nat, m: map<nat, V>, b: nat, i: nat)
    requires |was| > 0 && Holds(was, mix, m) && b < |was| && i < |was[b]|
    ensures var key := was[b][i].key;
      && key in m && m[key] == was[b][i].value
      && Holds(was[b := was[b][..i] + was[b][i + 1..]], mix, m - {key}) && |m - {key}| == |m| - 1
  {
    hide Distinct;
    hide Assoc;
    var key := was[b][i].key;
    var c := was[b][..i] + was[b][i + 1..];
    AssocAt(was[b], i);
    assert mix(key) % |was| == b;
    assert Homed(c, mix, |was|, b);
    forall k: nat
      ensures Assoc(c, k) == (if k == key then None else Assoc(was[b], k)) && Distinct(c)
    {
      AssocUnlink(was[b], i, k);
    }
    OneBucket(was, mix, m, m - {key}, b, c, key);
    assert (m - {key}).Keys == m.Keys - {key};
  }
}
