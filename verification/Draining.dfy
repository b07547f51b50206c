/** Repeatedly taking the least ready key: the order both planning directions produce. */
module Draining {
  import opened Keys
  import opened Graphs

  /** No blocker of the key is still among the candidates. */
  predicate Ready(adj: Adjacency, candidates: set<Key>, key: Key) {
    key in candidates && forall b :: b in Next(adj, key) ==> b !in candidates
  }

  ghost predicate LeastReady(adj: Adjacency, candidates: set<Key>, key: Key) {
    Ready(adj, candidates, key) && forall k :: Ready(adj, candidates, k) ==> k == key || KeyLess(key, k)
  }

  ghost predicate HasReady(adj: Adjacency, candidates: set<Key>) {
    exists k :: Ready(adj, candidates, k)
  }

  /** Every blocker of a key that is among the candidates stands before it. */
  ghost predicate ValidOrder(adj: Adjacency, candidates: set<Key>, order: seq<Key>) {
    && Distinct(order) && Elems(order) == candidates
    && (forall i, b :: 0 <= i < |order| && b in Next(adj, order[i]) && b in candidates ==> b in order[..i])
  }

  predicate LexLeq(a: seq<Key>, b: seq<Key>) {
    if a == [] then true
    else if b == [] then false
    else if a[0] == b[0] then LexLeq(a[1..], b[1..])
    else KeyLess(a[0], b[0])
  }

  lemma {:induction false} ReadyExists(adj: Adjacency, candidates: set<Key>, behind: set<Key>, x: Key)
    requires Acyclic(adj) && x in candidates && behind <= candidates
    requires forall a :: a in behind ==> ReachPlus(adj, a, x)
    ensures HasReady(adj, candidates)
    decreases candidates - behind
  {
    hide ReachPlus, Reach;
    if !Ready(adj, candidates, x) {
      var b :| b in Next(adj, x) && b in candidates;
      ReachRefl(adj, b);
      ReachStep(adj, x, b, b);
      assert x !in behind;
      forall a | a in behind + {x} ensures ReachPlus(adj, a, b) {
        if a != x { PlusThen(adj, a, x, b); }
      }
      assert candidates - (behind + {x}) < candidates - behind by {
        assert x in candidates - behind;
      }
      ReadyExists(adj, candidates, behind + {x}, b);
    }
  }

  lemma PlusThen(adj: Adjacency, a: Key, x: Key, b: Key)
    requires ReachPlus(adj, a, x) && b in Next(adj, x)
    ensures ReachPlus(adj, a, b)
  {
    var m :| m in Next(adj, a) && Reach(adj, m, x);
    ReachEdge(adj, x, b);
    ReachTrans(adj, m, x, b);
  }

  /** On an acyclic graph every non-empty candidate set has a ready key. */
  lemma SomeReady(adj: Adjacency, candidates: set<Key>)
    requires Acyclic(adj) && candidates != {}
    ensures HasReady(adj, candidates)
  {
    var x :| x in candidates;
    ReadyExists(adj, candidates, {}, x);
  }

  lemma LeastReadyExists(adj: Adjacency, candidates: set<Key>)
    requires HasReady(adj, candidates)
    ensures exists k :: LeastReady(adj, candidates, k)
  {
    var pool := set k | k in candidates && Ready(adj, candidates, k);
    var ready :| Ready(adj, candidates, ready);
    assert ready in pool;
    var m := LeastKeyExists(pool);
    assert LeastReady(adj, candidates, m);
  }

  /** The keys in the order they become the least ready one; stops early only if none is ready. */
  ghost function Drain(adj: Adjacency, candidates: set<Key>): seq<Key>
    decreases candidates
  {
    if !HasReady(adj, candidates) then []
    else
      LeastReadyExists(adj, candidates);
      var k :| LeastReady(adj, candidates, k);
      [k] + Drain(adj, candidates - {k})
  }

  lemma LeastReadyUnique(adj: Adjacency, candidates: set<Key>, k: Key, m: Key)
    requires LeastReady(adj, candidates, k) && LeastReady(adj, candidates, m)
    ensures k == m
  {
    KeyTotal(k, m);
  }

  /** One step of the drain. */
  lemma DrainStep(adj: Adjacency, candidates: set<Key>, k: Key)
    requires LeastReady(adj, candidates, k)
    ensures k in candidates && Drain(adj, candidates) == [k] + Drain(adj, candidates - {k})
  {
    assert HasReady(adj, candidates);
    var m :| LeastReady(adj, candidates, m) && Drain(adj, candidates) == [m] + Drain(adj, candidates - {m});
    LeastReadyUnique(adj, candidates, k, m);
  }

  lemma DrainEmpty(adj: Adjacency)
    ensures Drain(adj, {}) == []
  {
  }

  lemma {:induction false} DrainHead(adj: Adjacency, candidates: set<Key>) returns (k: Key)
    requires Acyclic(adj) && candidates != {}
    ensures LeastReady(adj, candidates, k)
    ensures Drain(adj, candidates) == [k] + Drain(adj, candidates - {k})
  {
    SomeReady(adj, candidates);
    LeastReadyExists(adj, candidates);
    k :| LeastReady(adj, candidates, k);
    DrainStep(adj, candidates, k);
  }

  /** The drain lists each candidate once, blockers first. */
  lemma {:induction false} DrainValid(adj: Adjacency, candidates: set<Key>)
    requires Acyclic(adj)
    ensures ValidOrder(adj, candidates, Drain(adj, candidates))
    decreases candidates
  {
    if candidates == {} {
      DrainEmpty(adj);
    } else {
      var k := DrainHead(adj, candidates);
      var rest := Drain(adj, candidates - {k});
      DrainValid(adj, candidates - {k});
      hide Drain, Acyclic, HasReady;
      ConsValid(adj, candidates, k, rest);
    }
  }

  lemma ConsValid(adj: Adjacency, candidates: set<Key>, k: Key, rest: seq<Key>)
    requires Ready(adj, candidates, k) && ValidOrder(adj, candidates - {k}, rest)
    ensures ValidOrder(adj, candidates, [k] + rest)
  {
    var order := [k] + rest;
    assert Elems(rest) == candidates - {k};
    assert k !in rest;
    forall x ensures x in order <==> x in candidates {
      assert x in rest <==> x in Elems(rest);
    }
    forall i, b | 0 <= i < |order| && b in Next(adj, order[i]) && b in candidates ensures b in order[..i] {
      if i > 0 {
        assert order[..i] == [k] + rest[..i - 1];
        assert order[i] == rest[i - 1];
        var j := i - 1;
        assert b in Next(adj, rest[j]);
        if b != k {
          assert b in candidates - {k};
          assert b in rest[..j];
        }
      }
    }
  }

  /** The drain is lexicographically least among all valid orders of its candidates. */
  lemma {:induction false} DrainLeast(adj: Adjacency, candidates: set<Key>, order: seq<Key>)
    requires Acyclic(adj) && ValidOrder(adj, candidates, order)
    ensures LexLeq(Drain(adj, candidates), order)
    decreases candidates
  {
    if candidates == {} {
      DrainEmpty(adj);
    } else {
      var k := DrainHead(adj, candidates);
      assert order != [] by {
        assert k in Elems(order);
      }
      ValidHeadReady(adj, candidates, order);
      if order[0] == k {
        ValidTail(adj, candidates, order);
        DrainLeast(adj, candidates - {k}, order[1..]);
      }
    }
  }

  lemma ValidHeadReady(adj: Adjacency, candidates: set<Key>, order: seq<Key>)
    requires ValidOrder(adj, candidates, order) && order != []
    ensures Ready(adj, candidates, order[0])
  {
  }

  lemma ValidTail(adj: Adjacency, candidates: set<Key>, order: seq<Key>)
    requires ValidOrder(adj, candidates, order) && order != []
    ensures ValidOrder(adj, candidates - {order[0]}, order[1..])
  {
  }

  /** Draining resumes: after its first n keys, the drain of what is left is the rest. */
  lemma {:induction false} DrainResumes(adj: Adjacency, candidates: set<Key>, n: nat)
    requires Acyclic(adj) && n <= |Drain(adj, candidates)|
    ensures Drain(adj, candidates - Elems(Drain(adj, candidates)[..n])) == Drain(adj, candidates)[n..]
    decreases n
  {
    var all := Drain(adj, candidates);
    if n == 0 {
      assert Elems(all[..0]) == {} && candidates - {} == candidates;
    } else {
      if candidates == {} { DrainEmpty(adj); }
      var k := DrainHead(adj, candidates);
      var rest := Drain(adj, candidates - {k});
      DrainResumes(adj, candidates - {k}, n - 1);
      hide Acyclic, Ready, HasReady;
      assert all == [k] + rest;
      WithoutPrefix(candidates, k, rest, n);
      assert ([k] + rest)[n..] == rest[n - 1..];
    }
  }

  lemma WithoutPrefix(candidates: set<Key>, k: Key, rest: seq<Key>, n: nat)
    requires 0 < n <= |rest| + 1
    ensures candidates - Elems(([k] + rest)[..n]) == candidates - {k} - Elems(rest[..n - 1])
  {
    assert ([k] + rest)[..n] == [k] + rest[..n - 1];
    ElemsConcat([k], rest[..n - 1]);
  }
}
