/** Path cache (kernel/fs/dcache.c): dentries in LRU order, found through a hash table
 *  keyed by the 64-bit hash of the path.
 *
 *  The hash is a parameter, so collisions are whatever the given function makes them. The
 *  outcome of the two allocations of an insert is part of the operation.
 */
module DcacheSpec {
  import opened HashTable
  import opened Lists
  import opened Options

  /** Characters of a path a dentry can store: 256 bytes less the terminator. */
  const PATH_MAX: nat := 255

  type Hash = string -> nat

  datatype Value = Value(vnode: nat, negative: bool)

  datatype Dentry = Dentry(path: string, value: Value, hash: nat)

  /** `lru` most recent first; `index` maps a path hash to a dentry. */
  datatype Cache = Cache(capacity: nat, lru: seq<nat>, dentries: map<nat, Dentry>, index: map<nat, nat>)

  /** What memory an insert gets: an address for the dentry, and a hash node or not. */
  datatype Memory = Memory(dentry: Option<nat>, node: bool)

  /** The cache's structural invariant. The index holds live dentries only, each under
   *  the hash it was stored with; not every live dentry need be indexed. */
  ghost predicate WellFormed(c: Cache) {
    && 0 < c.capacity
    && NoDup(c.lru) && |c.lru| <= c.capacity
    && (forall d :: d in c.lru <==> d in c.dentries)
    && (forall d :: d in c.dentries ==> |c.dentries[d].path| <= PATH_MAX)
    && (forall h :: h in c.index ==> c.index[h] in c.dentries && c.dentries[c.index[h]].hash == h)
  }

  function Init(capacity: nat): (c: Cache)
    ensures c.capacity == if capacity > 0 then capacity else 64
  {
    Cache(if capacity == 0 then 64 else capacity, [], map[], map[])
  }

  function Stored(path: string): (s: string)
    ensures |s| <= PATH_MAX
    ensures |path| <= PATH_MAX ==> s == path
  {
    if |path| <= PATH_MAX then path else path[..PATH_MAX]
  }

  /** `find_entry`: the indexed dentry, if its path really is this one. */
  function Find(c: Cache, hash: Hash, path: string): (r: Option<nat>) {
    var h := hash(path);
    if h in c.index && c.index[h] in c.dentries && c.dentries[c.index[h]].path == path then Some(c.index[h])
    else None
  }

  /** Unlink a dentry, drop whatever the index holds under its hash, free it. */
  function Release(c: Cache, d: nat): (r: Cache)
    requires d in c.dentries
  {
    c.(lru := Without(c.lru, d), dentries := c.dentries - {d}, index := c.index - {c.dentries[d].hash})
  }

  function EvictOne(c: Cache): (r: Cache) {
    if c.lru != [] && c.lru[|c.lru| - 1] in c.dentries then Release(c, c.lru[|c.lru| - 1]) else c
  }

  function MakeRoom(c: Cache): (r: Cache)
    decreases |c.lru|
  {
    if |c.lru| < c.capacity || |EvictOne(c).lru| >= |c.lru| then c else MakeRoom(EvictOne(c))
  }

  function Touch(c: Cache, d: nat): (r: Cache) {
    c.(lru := [d] + Without(c.lru, d))
  }

  function Lookup(c: Cache, hash: Hash, path: string): (r: (Cache, Option<Value>)) {
    match Find(c, hash, path)
    case None => (c, None)
    case Some(d) => (Touch(c, d), Some(c.dentries[d].value))
  }

  function Add(c: Cache, d: nat, e: Dentry): (r: Cache) {
    c.(lru := [d] + c.lru, dentries := c.dentries[d := e], index := c.index[e.hash := d])
  }

  function Insert(c: Cache, hash: Hash, path: string, v: Value, mem: Memory): (r: Cache) {
    match Find(c, hash, path)
    case Some(d) =>
      Touch(c.(dentries := c.dentries[d := c.dentries[d].(value := v)]), d)
    case None =>
      var room := MakeRoom(c);
      var h := hash(path);
      if mem.dentry == None || mem.dentry.value in room.lru then room
      else if !mem.node && h !in room.index then room
      else Add(room, mem.dentry.value, Dentry(Stored(path), v, h))
  }

  function Invalidate(c: Cache, hash: Hash, path: string): (r: Cache) {
    match Find(c, hash, path)
    case None => c
    case Some(d) => Release(c, d)
  }

  function Flush(c: Cache): (r: Cache)
    decreases |c.lru|
  {
    if c.lru == [] || c.lru[0] !in c.dentries then c else Flush(Release(c, c.lru[0]))
  }

  // ---- Structure ------------------------------------------------------------------

  lemma {:induction false} ReleaseKeeps(c: Cache, d: nat)
    requires WellFormed(c) && d in c.dentries
    ensures WellFormed(Release(c, d)) && |Release(c, d).lru| == |c.lru| - 1
  {
    WithoutFacts(c.lru, d);
  }

  lemma {:induction false} TouchKeeps(c: Cache, d: nat)
    requires WellFormed(c) && d in c.dentries
    ensures WellFormed(Touch(c, d)) && |Touch(c, d).lru| == |c.lru|
  {
    WithoutFacts(c.lru, d);
    NoDupConcat([d], Without(c.lru, d));
  }

  lemma {:induction false} MakeRoomKeeps(c: Cache)
    requires WellFormed(c)
    ensures WellFormed(MakeRoom(c)) && |MakeRoom(c).lru| < c.capacity && MakeRoom(c).capacity == c.capacity
    ensures |c.lru| < c.capacity ==> MakeRoom(c) == c
    ensures |c.lru| == c.capacity ==> MakeRoom(c) == EvictOne(c) == Release(c, c.lru[|c.lru| - 1])
    decreases |c.lru|
  {
    if |c.lru| >= c.capacity {
      ReleaseKeeps(c, c.lru[|c.lru| - 1]);
      MakeRoomKeeps(EvictOne(c));
    }
  }

  lemma {:induction false} AddKeeps(c: Cache, d: nat, e: Dentry)
    requires WellFormed(c) && |c.lru| < c.capacity && d !in c.lru && |e.path| <= PATH_MAX
    ensures WellFormed(Add(c, d, e))
  {
    NoDupConcat([d], c.lru);
  }

  lemma {:induction false} InsertKeeps(c: Cache, hash: Hash, path: string, v: Value, mem: Memory)
    requires WellFormed(c)
    ensures WellFormed(Insert(c, hash, path, v, mem))
  {
    match Find(c, hash, path)
    case Some(d) =>
      TouchKeeps(c.(dentries := c.dentries[d := c.dentries[d].(value := v)]), d);
    case None =>
      var room := MakeRoom(c);
      MakeRoomKeeps(c);
      if mem.dentry.Some? && mem.dentry.value !in room.lru {
        AddKeeps(room, mem.dentry.value, Dentry(Stored(path), v, hash(path)));
      }
  }

  /** A flush leaves nothing, in the list or in the index. */
  lemma {:induction false} FlushEmpties(c: Cache)
    requires WellFormed(c)
    ensures WellFormed(Flush(c)) && Flush(c) == Cache(c.capacity, [], map[], map[])
    decreases |c.lru|
  {
    if c.lru == [] {
      assert c.dentries == map[];
      assert c.index == map[];
    } else {
      ReleaseKeeps(c, c.lru[0]);
      FlushEmpties(Release(c, c.lru[0]));
    }
  }

  // ---- What a hit means -----------------------------------------------------------

  datatype Op =
    | DoLookup(path: string)
    | DoInsert(path: string, value: Value, mem: Memory)
    | DoInvalidate(path: string)
    | DoFlush

  function Step(c: Cache, hash: Hash, op: Op): (r: Cache) {
    match op
    case DoLookup(p) => Lookup(c, hash, p).0
    case DoInsert(p, v, mem) => Insert(c, hash, p, v, mem)
    case DoInvalidate(p) => Invalidate(c, hash, p)
    case DoFlush => Flush(c)
  }

  function Run(c: Cache, hash: Hash, ops: seq<Op>): (r: Cache)
    decreases |ops|
  {
    if ops == [] then c else Run(Step(c, hash, ops[0]), hash, ops[1..])
  }

  /** The reference: what was last inserted for each path and not invalidated since,
   *  whether or not the cache kept it. */
  function Told(m: map<string, Value>, op: Op): (r: map<string, Value>) {
    match op
    case DoLookup(_) => m
    case DoInsert(p, v, _) => m[p := v]
    case DoInvalidate(p) => m - {p}
    case DoFlush => map[]
  }

  function ToldAll(m: map<string, Value>, ops: seq<Op>): (r: map<string, Value>)
    decreases |ops|
  {
    if ops == [] then m else ToldAll(Told(m, ops[0]), ops[1..])
  }

  /** Cutting the path to what a dentry stores does not also keep its hash. */
  predicate Fits(hash: Hash, path: string) {
    |path| <= PATH_MAX || hash(Stored(path)) != hash(path)
  }

  predicate OpFits(hash: Hash, op: Op) {
    op.DoInsert? ==> Fits(hash, op.path)
  }

  /** Every dentry a lookup could return is what the reference says. */
  ghost predicate Sound(c: Cache, hash: Hash, m: map<string, Value>) {
    forall h :: h in c.index && c.index[h] in c.dentries ==>
      var e := c.dentries[c.index[h]];
      hash(e.path) == h ==> e.path in m && m[e.path] == e.value
  }

  lemma {:induction false} ReleaseSound(c: Cache, hash: Hash, m: map<string, Value>, d: nat)
    requires WellFormed(c) && Sound(c, hash, m) && d in c.dentries
    ensures Sound(Release(c, d), hash, m)
  {
  }

  lemma {:induction false} InsertSound(c: Cache, hash: Hash, m: map<string, Value>, path: string, v: Value, mem: Memory)
    requires WellFormed(c) && Sound(c, hash, m) && Fits(hash, path)
    ensures Sound(Insert(c, hash, path, v, mem), hash, m[path := v])
  {
    match Find(c, hash, path)
    case Some(d) => UpdateSound(c, hash, m, path, v, d);
    case None =>
      MakeRoomKeeps(c);
      var room := MakeRoom(c);
      if |c.lru| == c.capacity {
        ReleaseSound(c, hash, m, c.lru[|c.lru| - 1]);
      }
      if mem.dentry.Some? && mem.dentry.value !in room.lru && (mem.node || hash(path) in room.index) {
        AddSound(room, hash, m, path, v, mem.dentry.value);
      }
  }

  lemma {:induction false} UpdateSound(c: Cache, hash: Hash, m: map<string, Value>, path: string, v: Value, d: nat)
    requires WellFormed(c) && Sound(c, hash, m) && Find(c, hash, path) == Some(d)
    ensures Sound(c.(dentries := c.dentries[d := c.dentries[d].(value := v)]), hash, m[path := v])
  {
  }

  lemma {:induction false} AddSound(c: Cache, hash: Hash, m: map<string, Value>, path: string, v: Value, d: nat)
    requires WellFormed(c) && Sound(c, hash, m) && Fits(hash, path) && d !in c.lru
    ensures Sound(Add(c, d, Dentry(Stored(path), v, hash(path))), hash, m[path := v])
  {
  }

  lemma {:induction false} StepSound(c: Cache, hash: Hash, m: map<string, Value>, op: Op)
    requires WellFormed(c) && Sound(c, hash, m) && OpFits(hash, op)
    ensures WellFormed(Step(c, hash, op)) && Sound(Step(c, hash, op), hash, Told(m, op))
  {
    match op
    case DoLookup(p) =>
      if Find(c, hash, p).Some? {
        TouchKeeps(c, Find(c, hash, p).value);
      }
    case DoInsert(p, v, mem) =>
      InsertKeeps(c, hash, p, v, mem);
      InsertSound(c, hash, m, p, v, mem);
    case DoInvalidate(p) =>
      if Find(c, hash, p).Some? {
        ReleaseKeeps(c, Find(c, hash, p).value);
      }
    case DoFlush => FlushEmpties(c);
  }

  /** In every run whose inserted paths fit, under any collisions and any allocation
   *  failures, a hit returns what was last inserted for exactly that path with no later
   *  invalidate or flush. The list stays within capacity and the index holds live dentries. */
  lemma {:induction false} RunSound(c: Cache, hash: Hash, m: map<string, Value>, ops: seq<Op>, path: string)
    requires WellFormed(c) && Sound(c, hash, m)
    requires forall i :: 0 <= i < |ops| ==> OpFits(hash, ops[i])
    ensures WellFormed(Run(c, hash, ops))
    ensures var hit := Lookup(Run(c, hash, ops), hash, path).1;
      hit.Some? ==> path in ToldAll(m, ops) && ToldAll(m, ops)[path] == hit.value
    decreases |ops|
  {
    if ops != [] {
      hide Step;
      hide Told;
      hide Lookup;
      hide WellFormed;
      hide Sound;
      StepSound(c, hash, m, ops[0]);
      RunSound(Step(c, hash, ops[0]), hash, Told(m, ops[0]), ops[1..], path);
    }
  }

  /** Hits are right in every run of a fresh cache. */
  ghost predicate AlwaysRight(hash: Hash) {
    forall capacity: nat, ops: seq<Op>, path: string ::
      var hit := Lookup(Run(Init(capacity), hash, ops), hash, path).1;
      hit.Some? ==> path in ToldAll(map[], ops) && ToldAll(map[], ops)[path] == hit.value
  }

  /** Exactly the hashes that tell every over-long path from its stored prefix make every
   *  hit right. */
  lemma {:induction false} RightIffFits(hash: Hash)
    ensures AlwaysRight(hash) <==> forall path: string :: Fits(hash, path)
  {
    if forall path: string :: Fits(hash, path) {
      forall capacity: nat, ops: seq<Op>, path: string
        ensures var hit := Lookup(Run(Init(capacity), hash, ops), hash, path).1;
          hit.Some? ==> path in ToldAll(map[], ops) && ToldAll(map[], ops)[path] == hit.value
      {
        RunSound(Init(capacity), hash, map[], ops, path);
      }
    } else {
      var long: string :| !Fits(hash, long);
      WrongHit(hash, long, Value(1, false));
    }
  }

  /** One insert of a path that does not fit, and its prefix, never inserted, hits. */
  lemma {:induction false} WrongHit(hash: Hash, long: string, v: Value)
    requires !Fits(hash, long)
    ensures var ops := [DoInsert(long, v, Memory(Some(0), true))];
      && Lookup(Run(Init(1), hash, ops), hash, Stored(long)).1 == Some(v)
      && Stored(long) !in ToldAll(map[], ops)
  {
    var op := DoInsert(long, v, Memory(Some(0), true));
    var ops := [op];
    assert ops[1..] == [];
    var c := Step(Init(1), hash, op);
    assert Run(Init(1), hash, ops) == Run(c, hash, []) == c;
    assert ToldAll(map[], ops) == ToldAll(Told(map[], op), []) == map[long := v];
    assert c.index == map[hash(long) := 0] && c.dentries == map[0 := Dentry(Stored(long), v, hash(long))];
  }

  // ---- What the cache keeps -------------------------------------------------------

  /** Given memory, an insert makes its own path hit exactly when the path fits a dentry. */
  lemma {:induction false} InsertThenLookup(c: Cache, hash: Hash, path: string, v: Value, d: nat)
    requires WellFormed(c) && d !in c.lru
    ensures var hit := Lookup(Insert(c, hash, path, v, Memory(Some(d), true)), hash, path).1;
      && (|path| <= PATH_MAX ==> hit == Some(v))
      && (|path| > PATH_MAX ==> hit == None)
  {
    if |path| > PATH_MAX {
      InsertKeeps(c, hash, path, v, Memory(Some(d), true));
    } else if Find(c, hash, path) == None {
      MakeRoomKeeps(c);
      if |c.lru| == c.capacity {
        WithoutFacts(c.lru, c.lru[|c.lru| - 1]);
      }
      assert d !in MakeRoom(c).lru;
    }
  }

  /** No two dentries share a path and every live dentry is indexed. */
  ghost predicate Complete(c: Cache, hash: Hash, paths: set<string>) {
    forall d :: d in c.dentries ==>
      var e := c.dentries[d];
      && e.path in paths && e.hash == hash(e.path)
      && e.hash in c.index && c.index[e.hash] == d
  }

  predicate Injective(hash: Hash, paths: set<string>) {
    forall p, q :: p in paths && q in paths && hash(p) == hash(q) ==> p == q
  }

  predicate Within(op: Op, paths: set<string>) {
    op.DoInsert? ==> op.path in paths && |op.path| <= PATH_MAX
  }

  lemma {:induction false} ReleaseComplete(c: Cache, hash: Hash, paths: set<string>, d: nat)
    requires WellFormed(c) && Complete(c, hash, paths) && d in c.dentries && Injective(hash, paths)
    ensures Complete(Release(c, d), hash, paths)
  {
  }

  /** While the hash separates the paths in use, no live dentry is ever lost from the index. */
  lemma {:induction false} StepComplete(c: Cache, hash: Hash, paths: set<string>, op: Op)
    requires WellFormed(c) && Complete(c, hash, paths) && Injective(hash, paths) && Within(op, paths)
    ensures WellFormed(Step(c, hash, op)) && Complete(Step(c, hash, op), hash, paths)
  {
    match op
    case DoLookup(p) =>
      if Find(c, hash, p).Some? {
        TouchKeeps(c, Find(c, hash, p).value);
      }
    case DoInsert(p, v, mem) =>
      InsertKeeps(c, hash, p, v, mem);
      InsertComplete(c, hash, paths, p, v, mem);
    case DoInvalidate(p) =>
      if Find(c, hash, p).Some? {
        ReleaseKeeps(c, Find(c, hash, p).value);
        ReleaseComplete(c, hash, paths, Find(c, hash, p).value);
      }
    case DoFlush => FlushEmpties(c);
  }

  lemma {:induction false} InsertComplete(c: Cache, hash: Hash, paths: set<string>, path: string, v: Value, mem: Memory)
    requires WellFormed(c) && Complete(c, hash, paths) && Injective(hash, paths)
    requires path in paths && |path| <= PATH_MAX
    ensures Complete(Insert(c, hash, path, v, mem), hash, paths)
  {
    if Find(c, hash, path) == None {
      MakeRoomKeeps(c);
      if |c.lru| == c.capacity {
        ReleaseComplete(c, hash, paths, c.lru[|c.lru| - 1]);
      }
      assert hash(path) !in c.index;
    }
  }

  /** The dentry at `d` is among the `n` most recently used. */
  ghost predicate Recent(c: Cache, d: nat, n: nat) {
    exists i :: 0 <= i < |c.lru| && i < n && c.lru[i] == d
  }

  /** Does the operation take `path` out of the cache by its own meaning? */
  predicate Drops(op: Op, path: string) {
    op.DoFlush? || (op.DoInvalidate? && op.path == path)
  }

  /** An insert takes effect exactly when its path hits already, or there is memory for a dentry
   *  and for a hash node, which a hash that stays indexed does not need. Then its dentry is the
   *  most recent. */
  lemma {:induction false} InsertTakes(c: Cache, hash: Hash, path: string, v: Value, mem: Memory)
    requires WellFormed(c) && |path| <= PATH_MAX && (mem.dentry.Some? ==> mem.dentry.value !in c.lru)
    ensures var r := Insert(c, hash, path, v, mem);
      var f := Find(r, hash, path);
      && (f.Some? && r.dentries[f.value].value == v && r.lru != [] && r.lru[0] == f.value
          <==> Find(c, hash, path).Some?
               || (mem.dentry.Some? && (mem.node || hash(path) in MakeRoom(c).index)))
  {
    if Find(c, hash, path) == None {
      MakeRoomKeeps(c);
      if |c.lru| == c.capacity {
        WithoutFacts(c.lru, c.lru[|c.lru| - 1]);
      }
      RoomMisses(c, hash, path);
    }
  }

  /** Releasing a dentry takes every path of its hash out of the index, its own or not, and leaves
   *  all others as they were. */
  lemma {:induction false} ReleaseHides(c: Cache, hash: Hash, d: nat, path: string)
    requires WellFormed(c) && d in c.dentries
    ensures Find(Release(c, d), hash, path) ==
      if hash(path) == c.dentries[d].hash then None else Find(c, hash, path)
  {
    var h := hash(path);
    assert h in c.index && h != c.dentries[d].hash ==> c.index[h] != d;
  }

  lemma {:induction false} RoomMisses(c: Cache, hash: Hash, path: string)
    requires WellFormed(c) && Find(c, hash, path) == None
    ensures Find(MakeRoom(c), hash, path) == None
  {
    MakeRoomKeeps(c);
  }

  /** A hit makes its dentry the most recent and leaves the others in their order; a miss changes
   *  nothing. */
  lemma {:induction false} LookupOrder(c: Cache, hash: Hash, path: string, x: nat, y: nat)
    requires WellFormed(c)
    ensures var (d, v) := Lookup(c, hash, path);
      && (v == None ==> d == c)
      && (v.Some? ==>
            var e := c.index[hash(path)];
            && d == c.(lru := d.lru) && |d.lru| == |c.lru| && d.lru[0] == e && v.value == c.dentries[e].value
            && (x != e && y != e ==> (Ahead(d.lru, x, y) <==> Ahead(c.lru, x, y))))
  {
    var f := Find(c, hash, path);
    if f.Some? {
      ToFront(c.lru, f.value, x, y);
    }
  }

  lemma {:induction false} TouchRecent(c: Cache, x: nat, d: nat, n: nat)
    requires WellFormed(c) && x in c.dentries && Recent(c, d, n) && n > 0
    ensures Recent(Touch(c, x), d, n + 1)
  {
    var i :| 0 <= i < |c.lru| && i < n && c.lru[i] == d;
    var t := Touch(c, x).lru;
    if d == x {
      assert t[0] == d;
    } else {
      WithoutShifts(c.lru, x, i);
      var w := Without(c.lru, x);
      if i < |w| && w[i] == d {
        assert t[i + 1] == d;
      } else {
        assert t[i] == d;
      }
    }
  }

  lemma {:induction false} ReleaseRecent(c: Cache, x: nat, d: nat, n: nat)
    requires WellFormed(c) && x in c.dentries && Recent(c, d, n) && d != x
    ensures Recent(Release(c, x), d, n)
  {
    var i :| 0 <= i < |c.lru| && i < n && c.lru[i] == d;
    WithoutShifts(c.lru, x, i);
  }

  lemma {:induction false} MakeRoomRecent(c: Cache, d: nat, n: nat)
    requires WellFormed(c) && Recent(c, d, n) && n < c.capacity
    ensures Recent(MakeRoom(c), d, n) && d in c.dentries && d in MakeRoom(c).dentries
    ensures MakeRoom(c).dentries[d] == c.dentries[d]
  {
    MakeRoomKeeps(c);
    var i :| 0 <= i < |c.lru| && i < n && c.lru[i] == d;
    if |c.lru| == c.capacity {
      assert c.lru[i] != c.lru[|c.lru| - 1];
      ReleaseRecent(c, c.lru[|c.lru| - 1], d, n);
    }
  }

  /** One operation moves a dentry back by at most one place. */
  lemma {:induction false} StepRecent(c: Cache, hash: Hash, op: Op, d: nat, n: nat)
    requires WellFormed(c) && Recent(c, d, n) && 0 < n < c.capacity
    requires d in c.dentries && !Drops(op, c.dentries[d].path)
    ensures Recent(Step(c, hash, op), d, n + 1) && d in Step(c, hash, op).dentries
    ensures Step(c, hash, op).dentries[d].path == c.dentries[d].path && Step(c, hash, op).capacity == c.capacity
  {
    match op
    case DoLookup(p) =>
      if Find(c, hash, p).Some? {
        TouchRecent(c, Find(c, hash, p).value, d, n);
      }
    case DoInsert(p, v, mem) => InsertRecent(c, hash, p, v, mem, d, n);
    case DoInvalidate(p) =>
      if Find(c, hash, p).Some? {
        ReleaseRecent(c, Find(c, hash, p).value, d, n);
      }
  }

  lemma {:induction false} InsertRecent(c: Cache, hash: Hash, path: string, v: Value, mem: Memory, d: nat, n: nat)
    requires WellFormed(c) && Recent(c, d, n) && 0 < n < c.capacity && d in c.dentries
    ensures var r := Insert(c, hash, path, v, mem);
      Recent(r, d, n + 1) && d in r.dentries && r.dentries[d].path == c.dentries[d].path && r.capacity == c.capacity
  {
    match Find(c, hash, path)
    case Some(x) =>
      var u := c.(dentries := c.dentries[x := c.dentries[x].(value := v)]);
      assert Recent(u, d, n);
      TouchRecent(u, x, d, n);
    case None =>
      MakeRoomKeeps(c);
      MakeRoomRecent(c, d, n);
      var room := MakeRoom(c);
      var i :| 0 <= i < |room.lru| && i < n && room.lru[i] == d;
      if mem.dentry.Some? {
        assert ([mem.dentry.value] + room.lru)[i + 1] == d;
      }
  }

  /** Retention: while the hash separates the paths in use, a dentry among the `n` most
   *  recent still hits after up to `capacity - n` further operations that do not drop it,
   *  and with the value last inserted. */
  lemma {:induction false} Retained(c: Cache, hash: Hash, m: map<string, Value>, paths: set<string>,
        ops: seq<Op>, d: nat, n: nat)
    requires WellFormed(c) && Sound(c, hash, m) && Complete(c, hash, paths) && Injective(hash, paths)
    requires Recent(c, d, n) && 0 < n && n + |ops| <= c.capacity && d in c.dentries
    requires forall i :: 0 <= i < |ops| ==> Within(ops[i], paths) && !Drops(ops[i], c.dentries[d].path)
    ensures var path := c.dentries[d].path;
      path in ToldAll(m, ops) && Lookup(Run(c, hash, ops), hash, path).1 == Some(ToldAll(m, ops)[path])
    decreases |ops|
  {
    if ops != [] {
      hide Recent;
      hide WellFormed;
      hide Sound;
      hide Complete;
      hide Lookup;
      hide Step;
      hide Told;
      var e := Step(c, hash, ops[0]);
      assert Within(ops[0], paths) && !Drops(ops[0], c.dentries[d].path);
      StepSound(c, hash, m, ops[0]);
      StepComplete(c, hash, paths, ops[0]);
      StepRecent(c, hash, ops[0], d, n);
      Retained(e, hash, Told(m, ops[0]), paths, ops[1..], d, n + 1);
    }
  }
}

/** The path cache as the kernel keeps it: list, memory and counters rewritten in place,
 *  the index a real chained hash table. */
module Dcache {
  import opened DcacheSpec
  import opened HashTable
  import opened Lists
  import opened Options

  lemma {:induction false} AtCapacity(c: Cache)
    requires WellFormed(c) && |c.lru| >= c.capacity
    ensures |c.lru| == c.capacity && c.lru != [] && c.lru[|c.lru| - 1] in c.dentries
    ensures MakeRoom(EvictOne(c)) == MakeRoom(c) && |EvictOne(c).lru| < |c.lru|
  {
    ReleaseKeeps(c, c.lru[|c.lru| - 1]);
  }

  lemma {:induction false} FoundLive(c: Cache, hash: Hash, path: string)
    requires WellFormed(c)
    ensures Find(c, hash, path).Some? ==> Find(c, hash, path).value in c.dentries
  {
  }

  class DcacheObject {
    const capacity: nat
    const hash: Hash
    const index: Hashtable<nat>
    var lru: seq<nat>
    var dentries: map<nat, Dentry>
    var entries: nat

    ghost function Abs(): Cache
      reads this, index
    {
      Cache(capacity, lru, dentries, index.contents)
    }

    ghost predicate Valid()
      reads this, index, index.buckets
    {
      index.Valid() && WellFormed(Abs()) && entries == |lru|
    }

    constructor (capacity: nat, hash: Hash, mix: nat -> nat, nbuckets: nat)
      requires nbuckets > 0
      ensures Valid() && Abs() == Init(capacity) && fresh(index) && fresh(index.buckets)
    {
      this.capacity := if capacity == 0 then 64 else capacity;
      this.hash := hash;
      index := new Hashtable(mix, nbuckets);
      lru, dentries, entries := [], map[], 0;
    }

    method FindEntry(path: string) returns (r: Option<nat>)
      requires Valid()
      ensures r == Find(Abs(), hash, path)
    {
      var found := index.Get(hash(path));
      match found
      case None => r := None;
      case Some(d) => r := if dentries[d].path == path then Some(d) else None;
    }

    /** Unlink, drop the index entry under the dentry's hash, free. */
    method ReleaseEntry(d: nat)
      requires Valid() && d in dentries
      modifies this, index, index.buckets
      ensures Valid() && Abs() == Release(old(Abs()), d)
    {
      hide WellFormed;
      hide Hashtable.Valid;
      ReleaseKeeps(Abs(), d);
      lru := Without(lru, d);
      var _ := index.Remove(dentries[d].hash);
      dentries := dentries - {d};
      entries := entries - 1;
    }

    method EvictLast()
      requires Valid()
      modifies this, index, index.buckets
      ensures Valid() && Abs() == EvictOne(old(Abs()))
    {
      if lru == [] {
        return;
      }
      ReleaseEntry(lru[|lru| - 1]);
    }

    method TouchEntry(d: nat)
      requires Valid() && d in dentries
      modifies `lru
      ensures Valid() && Abs() == Touch(old(Abs()), d)
    {
      TouchKeeps(Abs(), d);
      lru := Without(lru, d);
      lru := [d] + lru;
    }

    method LookupPath(path: string) returns (r: Option<Value>)
      requires Valid()
      modifies `lru
      ensures Valid() && (Abs(), r) == Lookup(old(Abs()), hash, path)
    {
      var found := FindEntry(path);
      match found
      case None => r := None;
      case Some(d) =>
        TouchEntry(d);
        r := Some(dentries[d].value);
    }

    method UpdateEntry(d: nat, v: Value)
      requires Valid() && d in dentries
      modifies `dentries, `lru
      ensures Valid()
      ensures Abs() == Touch(old(Abs()).(dentries := old(dentries)[d := old(dentries)[d].(value := v)]), d)
    {
      hide Hashtable.Valid;
      dentries := dentries[d := dentries[d].(value := v)];
      TouchEntry(d);
    }

    method MakeSpace()
      requires Valid()
      modifies this, index, index.buckets
      ensures Valid() && Abs() == MakeRoom(old(Abs()))
    {
      hide WellFormed;
      hide Hashtable.Valid;
      MakeRoomKeeps(Abs());
      while entries >= capacity
        invariant Valid() && MakeRoom(Abs()) == MakeRoom(old(Abs()))
        decreases entries
      {
        MakeRoomKeeps(Abs());
        AtCapacity(Abs());
        EvictLast();
        MakeRoomKeeps(Abs());
      }
    }

    /** Index and link a new dentry; the table may have no memory for its node. */
    method AddEntry(d: nat, e: Dentry, node: bool)
      requires Valid() && d !in lru && entries < capacity && |e.path| <= PATH_MAX
      modifies this, index, index.buckets
      ensures Valid()
      ensures Abs() == if node || e.hash in old(index.contents) then Add(old(Abs()), d, e) else old(Abs())
    {
      hide WellFormed;
      hide Hashtable.Valid;
      AddKeeps(Abs(), d, e);
      var ok := index.Put(e.hash, d, node);
      if !ok {
        return;
      }
      dentries := dentries[d := e];
      lru := [d] + lru;
      entries := entries + 1;
    }

    method InsertPath(path: string, v: Value, mem: Memory)
      requires Valid()
      modifies this, index, index.buckets
      ensures Valid() && Abs() == Insert(old(Abs()), hash, path, v, mem)
    {
      hide WellFormed;
      hide Hashtable.Valid;
      FoundLive(Abs(), hash, path);
      var found := FindEntry(path);
      if found.Some? {
        UpdateEntry(found.value, v);
        return;
      }
      MakeRoomKeeps(Abs());
      MakeSpace();
      if mem.dentry == None || mem.dentry.value in lru {
        return;
      }
      AddEntry(mem.dentry.value, Dentry(Stored(path), v, hash(path)), mem.node);
    }

    method InvalidatePath(path: string)
      requires Valid()
      modifies this, index, index.buckets
      ensures Valid() && Abs() == Invalidate(old(Abs()), hash, path)
    {
      var found := FindEntry(path);
      if found.Some? {
        ReleaseEntry(found.value);
      }
    }

    method FlushAll()
      requires Valid()
      modifies this, index, index.buckets
      ensures Valid() && Abs() == Flush(old(Abs())) == Cache(capacity, [], map[], map[])
    {
      FlushEmpties(Abs());
      while lru != []
        invariant Valid() && Flush(Abs()) == Flush(old(Abs()))
        decreases |lru|
      {
        ReleaseKeeps(Abs(), lru[0]);
        ReleaseEntry(lru[0]);
      }
      FlushEmpties(Abs());
    }
  }
}
