/** Intrusive-list operations at the level of the sequence a list represents.
 *
 *  Every LRU list, wait queue and timer list of the kernel is an instance of the
 *  same circular list; a node occurs in it at most once, and `list_del` unlinks
 *  that one occurrence.
 */
module Lists {

  predicate NoDup<T(==)>(s: seq<T>) {
    forall i, j :: 0 <= i < j < |s| ==> s[i] != s[j]
  }

  /** The list after the node `x` is unlinked (unchanged if `x` is not linked). */
  function Without<T(==)>(s: seq<T>, x: T): (r: seq<T>) {
    if s == [] then []
    else if s[0] == x then s[1..]
    else [s[0]] + Without(s[1..], x)
  }

  lemma {:induction false} WithoutFacts<T>(s: seq<T>, x: T)
    requires NoDup(s)
    ensures NoDup(Without(s, x))
    ensures forall y :: y in Without(s, x) <==> y in s && y != x
    ensures |Without(s, x)| == if x in s then |s| - 1 else |s|
  {
    if s != [] {
      var t := s[1..];
      assert s == [s[0]] + t;
      assert NoDup(t) by {
        forall i, j | 0 <= i < j < |t| ensures t[i] != t[j] {
          assert s[i + 1] != s[j + 1];
        }
      }
      assert s[0] !in t by {
        forall k | 0 <= k < |t| ensures t[k] != s[0] {
          assert t[k] == s[k + 1];
        }
      }
      if s[0] != x {
        WithoutFacts(t, x);
        assert Without(s, x) == [s[0]] + Without(t, x);
      }
    }
  }

  /** Unlinking the node at position `k` closes the gap and nothing else. */
  lemma {:induction false} WithoutAt<T>(s: seq<T>, k: nat)
    requires NoDup(s) && k < |s|
    ensures Without(s, s[k]) == s[..k] + s[k + 1..]
  {
    if k > 0 {
      assert s[0] != s[k];
      var t := s[1..];
      assert forall i, j :: 0 <= i < j < |t| ==> t[i] == s[i + 1] && t[j] == s[j + 1];
      WithoutAt(t, k - 1);
      assert t[k - 1] == s[k];
      assert [s[0]] + (t[..k - 1] + t[k..]) == s[..k] + s[k + 1..];
    }
  }

  lemma {:induction false} WithoutAbsent<T>(s: seq<T>, x: T)
    requires x !in s
    ensures Without(s, x) == s
  {
    if s != [] {
      WithoutAbsent(s[1..], x);
    }
  }

  /** Unlinking moves another node up by one place or not at all. */
  lemma {:induction false} WithoutShifts<T>(s: seq<T>, x: T, i: nat)
    requires NoDup(s) && i < |s| && s[i] != x
    ensures var t := Without(s, x);
      (i < |t| && t[i] == s[i]) || (0 < i <= |t| && t[i - 1] == s[i])
  {
    if x in s {
      var k :| 0 <= k < |s| && s[k] == x;
      WithoutAt(s, k);
    } else {
      WithoutAbsent(s, x);
    }
  }

  /** One node stands before another. */
  ghost predicate Ahead<T(!new)>(s: seq<T>, a: T, b: T) {
    exists i, j :: 0 <= i < j < |s| && s[i] == a && s[j] == b
  }

  /** `list_move` to the head: that node comes first, the others keep their order. */
  lemma {:induction false} ToFront<T(!new)>(s: seq<T>, x: T, a: T, b: T)
    requires NoDup(s) && x in s
    ensures var r := [x] + Without(s, x);
      && NoDup(r) && r[0] == x && |r| == |s|
      && (a != x && b != x ==> (Ahead(r, a, b) <==> Ahead(s, a, b)))
      && (a in s && a != x ==> Ahead(r, x, a))
  {
    hide Ahead;
    hide Without;
    var k :| 0 <= k < |s| && s[k] == x;
    WithoutAt(s, k);
    WithoutFacts(s, x);
    var t := Without(s, x);
    NoDupConcat([x], t);
    hide NoDup;
    if a != x && b != x {
      AheadDropped(s, k, a, b);
      AheadPrepended(x, t, a, b);
    }
    if a in s && a != x {
      HeadAhead(x, t, a);
    }
  }

  lemma {:induction false} AheadDropped<T(!new)>(s: seq<T>, k: nat, a: T, b: T)
    requires k < |s| && a != s[k] && b != s[k]
    ensures Ahead(s[..k] + s[k + 1..], a, b) <==> Ahead(s, a, b)
  {
    var t := s[..k] + s[k + 1..];
    if Ahead(t, a, b) {
      var i, j :| 0 <= i < j < |t| && t[i] == a && t[j] == b;
      assert s[if i < k then i else i + 1] == a && s[if j < k then j else j + 1] == b;
    }
    if Ahead(s, a, b) {
      var i, j :| 0 <= i < j < |s| && s[i] == a && s[j] == b;
      assert t[if i < k then i else i - 1] == a && t[if j < k then j else j - 1] == b;
    }
  }

  lemma {:induction false} AheadPrepended<T(!new)>(x: T, t: seq<T>, a: T, b: T)
    requires a != x && b != x
    ensures Ahead([x] + t, a, b) <==> Ahead(t, a, b)
  {
    var r := [x] + t;
    if Ahead(t, a, b) {
      var i, j :| 0 <= i < j < |t| && t[i] == a && t[j] == b;
      assert r[i + 1] == a && r[j + 1] == b;
    }
  }

  lemma {:induction false} HeadAhead<T(!new)>(x: T, t: seq<T>, a: T)
    requires a in t
    ensures Ahead([x] + t, x, a)
  {
    var j :| 0 <= j < |t| && t[j] == a;
    assert ([x] + t)[0] == x && ([x] + t)[j + 1] == a;
  }

  /** A duplicate-free list is as long as the set of its nodes is large. */
  lemma {:induction false} NoDupLength<T>(s: seq<T>, keys: set<T>)
    requires NoDup(s)
    requires forall x :: x in s <==> x in keys
    ensures |s| == |keys|
  {
    if s == [] {
      assert keys == {};
    } else {
      var t := s[1..];
      assert forall i, j :: 0 <= i < j < |t| ==> t[i] == s[i + 1] && t[j] == s[j + 1];
      forall x ensures x in t <==> x in keys - {s[0]} {
        if x in t {
          var k :| 0 <= k < |t| && t[k] == x;
          assert s[k + 1] == x && s[0] != s[k + 1];
        }
        if x in keys && x != s[0] {
          assert x in s;
          var k :| 0 <= k < |s| && s[k] == x;
          assert t[k - 1] == x;
        }
      }
      NoDupLength(t, keys - {s[0]});
    }
  }

  lemma {:induction false} TailFacts<T>(s: seq<T>)
    requires NoDup(s) && s != []
    ensures NoDup(s[1..]) && s[0] !in s[1..]
    ensures forall x :: x in s <==> x == s[0] || x in s[1..]
  {
    var t := s[1..];
    assert s == [s[0]] + t;
    forall i | 0 <= i < |t| ensures t[i] == s[i + 1] && t[i] != s[0] {}
  }

  /** Two duplicate-free lists without a common node can be chained. */
  lemma {:induction false} NoDupConcat<T>(s: seq<T>, t: seq<T>)
    requires NoDup(s) && NoDup(t) && forall x :: x in s ==> x !in t
    ensures NoDup(s + t)
    ensures forall x :: x in s + t <==> x in s || x in t
  {
    var u := s + t;
    forall i, j | 0 <= i < j < |u| ensures u[i] != u[j] {
      if i < |s| <= j {
        assert u[i] in s && u[j] in t;
      }
    }
  }
}
