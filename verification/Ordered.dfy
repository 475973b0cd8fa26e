/** Finite sets of sequence numbers seen in ascending order: the meaning of the relay's
    MIN, MAX, ORDER BY ... LIMIT ... OFFSET and "keep the newest n" queries. */
module Ordered {

  // ---------- least and greatest ----------

  ghost predicate IsLeast(m: nat, s: set<nat>) {
    m in s && forall x | x in s :: m <= x
  }

  ghost predicate IsGreatest(m: nat, s: set<nat>) {
    m in s && forall x | x in s :: x <= m
  }

  lemma LeastOfMore(a: nat, m: nat, rest: set<nat>)
    requires IsLeast(m, rest)
    ensures IsLeast(if a < m then a else m, rest + {a})
  {}

  lemma {:induction false} LeastExists(s: set<nat>)
    requires s != {}
    ensures exists m :: IsLeast(m, s)
    decreases |s|
  {
    var a :| a in s;
    var rest := s - {a};
    assert s == rest + {a};
    if rest == {} {
      assert IsLeast(a, s);
    } else {
      LeastExists(rest);
      var m :| IsLeast(m, rest);
      LeastOfMore(a, m, rest);
    }
  }

  ghost function MinOf(s: set<nat>): (m: nat)
    requires s != {}
    ensures m in s && forall x | x in s :: m <= x
  {
    LeastExists(s);
    var m :| IsLeast(m, s);
    m
  }

  lemma GreatestOfMore(a: nat, m: nat, rest: set<nat>)
    requires IsGreatest(m, rest)
    ensures IsGreatest(if a > m then a else m, rest + {a})
  {}

  lemma {:induction false} GreatestExists(s: set<nat>)
    requires s != {}
    ensures exists m :: IsGreatest(m, s)
    decreases |s|
  {
    var a :| a in s;
    var rest := s - {a};
    assert s == rest + {a};
    if rest == {} {
      assert IsGreatest(a, s);
    } else {
      GreatestExists(rest);
      var m :| IsGreatest(m, rest);
      GreatestOfMore(a, m, rest);
    }
  }

  ghost function MaxOf(s: set<nat>): (m: nat)
    requires s != {}
    ensures m in s && forall x | x in s :: x <= m
  {
    GreatestExists(s);
    var m :| IsGreatest(m, s);
    m
  }

  /** The least element, scanning the rows in whatever order they come. */
  method Least(s: set<nat>) returns (m: nat)
    requires s != {}
    ensures m == MinOf(s)
  {
    m :| m in s;
    var rest := s - {m};
    while rest != {}
      invariant rest <= s
      invariant m in s && m !in rest
      invariant forall x | x in s :: x in rest || m <= x
      decreases |rest|
    {
      var x :| x in rest;
      rest := rest - {x};
      if x < m {
        m := x;
      }
    }
  }

  /** The greatest element, scanning the rows in whatever order they come. */
  method Greatest(s: set<nat>) returns (m: nat)
    requires s != {}
    ensures m == MaxOf(s)
  {
    m :| m in s;
    var rest := s - {m};
    while rest != {}
      invariant rest <= s
      invariant m in s && m !in rest
      invariant forall x | x in s :: x in rest || x <= m
      decreases |rest|
    {
      var x :| x in rest;
      rest := rest - {x};
      if x > m {
        m := x;
      }
    }
  }

  // ---------- ascending order ----------

  ghost predicate Increasing(q: seq<nat>) {
    forall i, j | 0 <= i < j < |q| :: q[i] < q[j]
  }

  /** The elements of s in ascending order (ORDER BY seq ASC). */
  ghost function Ascending(s: set<nat>): (q: seq<nat>)
    ensures |q| == |s|
    ensures forall x :: x in q <==> x in s
    ensures Increasing(q)
    decreases |s|
  {
    if s == {} then [] else
      var m := MinOf(s);
      var q := Ascending(s - {m});
      LeastFirst(m, q, s);
      [m] + q
  }

  lemma AscendingStep(s: set<nat>)
    requires s != {}
    ensures Ascending(s) == [MinOf(s)] + Ascending(s - {MinOf(s)})
  {}

  lemma LeastFirst(m: nat, q: seq<nat>, s: set<nat>)
    requires IsLeast(m, s) && Increasing(q) && forall x :: x in q <==> x in s - {m}
    ensures Increasing([m] + q)
    ensures forall x :: x in [m] + q <==> x in s
  {
    assert forall i | 0 <= i < |q| :: q[i] in q;
  }

  /** An increasing list is determined by its elements. */
  lemma {:induction false} AscendingUnique(q: seq<nat>, s: set<nat>)
    requires Increasing(q)
    requires forall x :: x in q <==> x in s
    ensures q == Ascending(s)
    decreases |q|
  {
    if q == [] {
      assert forall x :: x in s ==> x in q;
      assert s == {};
    } else {
      assert q[0] in q;
      var m := MinOf(s);
      assert m in q;
      assert q[0] == m;
      var t := q[1..];
      assert q == [q[0]] + t;
      forall x ensures x in t <==> x in s - {m} {
        assert x in q <==> x == m || x in t;
        if x in t {
          var j :| 0 <= j < |t| && t[j] == x;
          assert q[0] < q[j + 1];
        }
      }
      AscendingUnique(t, s - {m});
    }
  }

  // ---------- the newest n ----------

  /** kept holds the newest n elements of s: all of them when there are no more than n. */
  ghost predicate IsNewest(kept: set<nat>, s: set<nat>, n: nat) {
    && kept <= s
    && |kept| == (if |s| < n then |s| else n)
    && forall a, b | a in kept && b in s && b !in kept :: b < a
  }

  function Above(s: set<nat>, c: nat): set<nat> {
    set k | k in s && k > c
  }

  /** Skipping all but n rows in ascending order and dropping up to the last one skipped
      (LIMIT 1 OFFSET |s| - n - 1) leaves exactly the newest n. */
  lemma CutoffKeepsNewest(s: set<nat>, n: nat)
    requires |s| > n
    ensures IsNewest(Above(s, Ascending(s)[|s| - n - 1]), s, n)
    ensures Ascending(s)[|s| - n - 1] in s
  {
    hide Ascending, Above, IsNewest;
    AboveIsTail(s, |s| - n - 1);
    AboveIsNewest(s, Ascending(s)[|s| - n - 1], n);
  }

  lemma AboveIsNewest(s: set<nat>, c: nat, n: nat)
    requires n < |s| && |Above(s, c)| == n
    ensures IsNewest(Above(s, c), s, n)
  {}

  lemma InAbove(s: set<nat>, c: nat, x: nat)
    ensures x in Above(s, c) <==> x in s && x > c
  {}

  lemma AboveIsTail(s: set<nat>, at: nat)
    requires at < |s|
    ensures Ascending(Above(s, Ascending(s)[at])) == Ascending(s)[at + 1..]
    ensures |Above(s, Ascending(s)[at])| == |s| - at - 1
    ensures Ascending(s)[at] in s
  {
    hide Ascending, Above;
    var q := Ascending(s);
    var tail := q[at + 1..];
    assert q[at] in q;
    forall x ensures x in tail <==> x in Above(s, q[at]) {
      TailIsAbove(q, at, x);
      InAbove(s, q[at], x);
    }
    AscendingUnique(tail, Above(s, q[at]));
  }

  /** Cutting the ascending list after position at. */
  lemma AscendingCut(s: set<nat>, at: nat)
    requires at < |s|
    ensures var q := Ascending(s);
            |Above(s, q[at])| < |s| && q[..at + 1] + Ascending(Above(s, q[at])) == q
  {
    hide Ascending, Above;
    AboveIsTail(s, at);
    TakeDrop(Ascending(s), at + 1);
  }

  lemma TakeDrop(q: seq<nat>, n: nat)
    requires n <= |q|
    ensures q == q[..n] + q[n..]
  {}

  lemma TailIsAbove(q: seq<nat>, at: nat, x: nat)
    requires Increasing(q) && at < |q|
    ensures x in q[at + 1..] <==> x in q && x > q[at]
  {
    if x in q[at + 1..] {
      var i :| 0 <= i < |q| - at - 1 && q[at + 1..][i] == x;
      assert q[at + 1 + i] == x;
    }
    if x in q && x > q[at] {
      var i :| 0 <= i < |q| && q[i] == x;
      assert q[at + 1..][i - at - 1] == x;
    }
  }

  /** An element is among the newest n exactly when fewer than n elements are above it. */
  lemma NewestIffFewAbove(kept: set<nat>, s: set<nat>, n: nat, k: nat)
    requires IsNewest(kept, s, n) && k in s
    ensures k in kept <==> |Above(s, k)| < n
  {
    if k in kept {
      assert Above(s, k) <= kept - {k};
      CardinalityOfSubset(Above(s, k), kept - {k});
    } else {
      assert kept <= Above(s, k);
      CardinalityOfSubset(kept, Above(s, k));
      CardinalityOfSubset(kept, s);
    }
  }

  lemma NewestUnique(a: set<nat>, b: set<nat>, s: set<nat>, n: nat)
    requires IsNewest(a, s, n) && IsNewest(b, s, n)
    ensures a == b
  {
    if x :| x in a && x !in b {
      forall y | y in b ensures y in a {
        assert x in s && y in s;
      }
      CardinalityOfSubset(b, a);
    } else {
      CardinalityOfSubset(a, b);
    }
  }

  lemma {:induction false} CardinalityOfSubset<T>(a: set<T>, b: set<T>)
    requires a <= b
    ensures |a| <= |b|
    ensures |a| == |b| ==> a == b
  {
    assert b == a + (b - a);
    assert |b| == |a| + |b - a|;
    if |a| == |b| {
      assert b - a == {};
    }
  }

  ghost function Newest(s: set<nat>, n: nat): (kept: set<nat>)
    ensures IsNewest(kept, s, n)
  {
    if |s| <= n then s else
      CutoffKeepsNewest(s, n);
      Above(s, Ascending(s)[|s| - n - 1])
  }

  /** The greatest element that keeping the newest n gives up, 0 when it gives up none. */
  ghost function Cutoff(s: set<nat>, n: nat): nat {
    if s - Newest(s, n) == {} then 0 else MaxOf(s - Newest(s, n))
  }

  lemma CutoffBeyond(s: set<nat>, n: nat, c: nat)
    requires |s| > n && c == Ascending(s)[|s| - n - 1]
    ensures Newest(s, n) == Above(s, c)
    ensures Cutoff(s, n) == c
  {
    hide Ascending, Newest, IsNewest, Above;
    CutoffKeepsNewest(s, n);
    NewestUnique(Above(s, c), Newest(s, n), s, n);
    GreatestNotAbove(s, c);
  }

  lemma GreatestNotAbove(s: set<nat>, c: nat)
    requires c in s
    ensures s - Above(s, c) != {} && MaxOf(s - Above(s, c)) == c
  {
    assert IsGreatest(c, s - Above(s, c));
  }

  lemma NewestOfFew(s: set<nat>, n: nat)
    requires |s| <= n
    ensures Newest(s, n) == s && s - Newest(s, n) == {} && Cutoff(s, n) == 0
  {}

  // ---------- intervals ----------

  /** s is one unbroken interval (possibly empty). */
  ghost predicate Contiguous(s: set<nat>) {
    forall a, b, c | a in s && b in s && a <= c <= b :: c in s
  }
}
