/** Migration identities and the total order the planner sorts them by. */
module Keys {
  import opened Sorting

  datatype Key = Key(app: string, name: string)

  const EMPTY_KEY := Key("", "")

  predicate ValidKey(key: Key) {
    key.app != "" && key.name != ""
  }

  /** Lexicographic order of strings, as Go's `<` on strings. */
  predicate StringLess(left: string, right: string) {
    if right == "" then false
    else if left == "" then true
    else if left[0] != right[0] then left[0] < right[0]
    else StringLess(left[1..], right[1..])
  }

  predicate KeyLess(left: Key, right: Key) {
    if left.app != right.app then StringLess(left.app, right.app)
    else StringLess(left.name, right.name)
  }

  lemma {:induction false} StringTotal(a: string, b: string)
    ensures StringLess(a, b) || a == b || StringLess(b, a)
    ensures !(StringLess(a, b) && StringLess(b, a))
    ensures a == b ==> !StringLess(a, b)
  {
    if a != "" && b != "" && a[0] == b[0] {
      StringTotal(a[1..], b[1..]);
      assert a == [a[0]] + a[1..] && b == [b[0]] + b[1..];
    }
  }

  lemma {:induction false} StringTransitive(a: string, b: string, c: string)
    requires StringLess(a, b) && StringLess(b, c)
    ensures StringLess(a, c)
  {
    if a != "" && b != "" && c != "" && a[0] == b[0] == c[0] {
      StringTransitive(a[1..], b[1..], c[1..]);
    }
  }

  /** The strings agree up to i, where the left one ends or has the smaller character. */
  predicate DiffersAt(a: string, b: string, i: nat) {
    i <= |a| && i < |b| && a[..i] == b[..i] && (i == |a| || a[i] < b[i])
  }

  lemma SharedFirst(a: string, b: string, i: nat)
    requires a != "" && b != ""
    ensures DiffersAt(a, b, i) ==> a[0] <= b[0]
  {
    if DiffersAt(a, b, i) && i > 0 {
      assert a[0] == a[..i][0] && b[0] == b[..i][0];
    }
  }

  lemma {:induction false} StringLessExactly(a: string, b: string)
    ensures StringLess(a, b) <==> exists i: nat :: DiffersAt(a, b, i)
    decreases |a|
  {
    if a == "" && b != "" {
      assert DiffersAt(a, b, 0);
    } else if a != "" && b != "" {
      if a[0] == b[0] {
        StringLessExactly(a[1..], b[1..]);
        if i: nat :| DiffersAt(a[1..], b[1..], i) {
          assert a[..i + 1] == [a[0]] + a[1..][..i] && b[..i + 1] == [b[0]] + b[1..][..i];
          assert DiffersAt(a, b, i + 1);
        }
        if i: nat :| DiffersAt(a, b, i) {
          assert i > 0 && a[..i][1..] == a[1..][..i - 1] && b[..i][1..] == b[1..][..i - 1];
          assert DiffersAt(a[1..], b[1..], i - 1);
        }
      } else if a[0] < b[0] {
        assert DiffersAt(a, b, 0);
      } else {
        forall i: nat ensures !DiffersAt(a, b, i) {
          SharedFirst(a, b, i);
        }
      }
    }
  }

  /** Keys are ordered by app first, then by name, each as Go orders strings. */
  lemma KeyLessExactly(left: Key, right: Key)
    ensures KeyLess(left, right) <==>
      || (left.app != right.app && exists i: nat :: DiffersAt(left.app, right.app, i))
      || (left.app == right.app && exists i: nat :: DiffersAt(left.name, right.name, i))
  {
    StringLessExactly(left.app, right.app);
    StringLessExactly(left.name, right.name);
  }

  lemma KeyTotal(a: Key, b: Key)
    ensures KeyLess(a, b) || a == b || KeyLess(b, a)
    ensures !(KeyLess(a, b) && KeyLess(b, a))
    ensures a == b ==> !KeyLess(a, b)
  {
    StringTotal(a.app, b.app);
    StringTotal(a.name, b.name);
  }

  lemma KeyTransitive(a: Key, b: Key, c: Key)
    requires KeyLess(a, b) && KeyLess(b, c)
    ensures KeyLess(a, c)
  {
    StringTotal(a.app, b.app);
    StringTotal(b.app, c.app);
    StringTotal(a.app, c.app);
    if a.app == b.app == c.app {
      StringTransitive(a.name, b.name, c.name);
    } else if a.app != b.app && b.app != c.app {
      StringTransitive(a.app, b.app, c.app);
    }
  }

  /** `KeyLess` is a strict total order. */
  lemma KeyOrder()
    ensures forall a, b :: KeyLess(a, b) || a == b || KeyLess(b, a)
    ensures forall a, b :: !(KeyLess(a, b) && KeyLess(b, a))
    ensures forall a, b, c :: KeyLess(a, b) && KeyLess(b, c) ==> KeyLess(a, c)
    ensures StrictWeakOrder(KeyLess)
  {
    forall a, b ensures KeyLess(a, b) || a == b || KeyLess(b, a) { KeyTotal(a, b); }
    forall a, b ensures !(KeyLess(a, b) && KeyLess(b, a)) { KeyTotal(a, b); }
    forall a, b, c | KeyLess(a, b) && KeyLess(b, c) ensures KeyLess(a, c) { KeyTransitive(a, b, c); }
  }

  ghost function Elems<T>(s: seq<T>): set<T> {
    set x | x in s
  }

  predicate Distinct<T(==)>(s: seq<T>) {
    forall i, j :: 0 <= i < j < |s| ==> s[i] != s[j]
  }

  /** Strictly increasing keys: sorted and without repetition. */
  predicate Ascending(s: seq<Key>) {
    forall i, j :: 0 <= i < j < |s| ==> KeyLess(s[i], s[j])
  }

  function SortKeys(s: seq<Key>): (r: seq<Key>)
    ensures multiset(r) == multiset(s)
    ensures NoInversion(KeyLess, r)
    ensures |r| == |s|
    ensures forall x :: x in r <==> x in s
  {
    KeyOrder();
    SortBy(KeyLess, s)
  }

  lemma SortedDistinctAscends(s: seq<Key>)
    requires NoInversion(KeyLess, s) && Distinct(s)
    ensures Ascending(s)
  {
    KeyOrder();
  }

  lemma DistinctPermutation<T>(s: seq<T>, t: seq<T>)
    requires multiset(s) == multiset(t) && Distinct(s)
    ensures Distinct(t)
  {
    forall x | x in multiset(s) ensures multiset(s)[x] == 1 {
      var i :| 0 <= i < |s| && s[i] == x;
      assert s == s[..i] + [x] + s[i + 1..];
      assert x !in s[..i] && x !in s[i + 1..];
    }
    forall i, j | 0 <= i < j < |t| ensures t[i] != t[j] {
      var rest := t[i + 1..];
      assert t == t[..i] + [t[i]] + rest;
      assert t[i] in multiset(s);
      assert multiset(rest)[t[i]] == 0;
      assert t[j] == rest[j - i - 1];
      assert t[j] in multiset(rest);
    }
  }

  /** An ascending sequence is determined by its set of elements. */
  lemma {:induction false} AscendingUnique(s: seq<Key>, t: seq<Key>)
    requires Ascending(s) && Ascending(t)
    requires forall x :: x in s <==> x in t
    ensures s == t
  {
    KeyOrder();
    if s != [] { assert s[0] in t; }
    if t != [] { assert t[0] in s; }
    if s != [] {
      assert s[0] == t[0];
      forall x ensures x in s[1..] <==> x in t[1..] {
        if x in s[1..] { assert x != s[0] && x in s; }
        if x in t[1..] { assert x != t[0] && x in t; }
      }
      AscendingUnique(s[1..], t[1..]);
      assert s == [s[0]] + s[1..] && t == [t[0]] + t[1..];
    }
  }

  /** Taking the same element out of two permutations leaves permutations. */
  lemma RemoveOne<T>(a: seq<T>, b: seq<T>, i: nat)
    requires a != [] && multiset(a) == multiset(b) && i < |b| && b[i] == a[0]
    ensures multiset(a[1..]) == multiset(b[..i] + b[i + 1..])
  {
    assert a == [a[0]] + a[1..];
    assert b == b[..i] + [b[i]] + b[i + 1..];
    assert multiset(a[1..]) == multiset(a) - multiset{a[0]};
    assert multiset(b[..i] + b[i + 1..]) == multiset(b) - multiset{a[0]};
  }

  /** A non-empty finite set of keys has a least one. */
  lemma {:induction false} LeastKeyExists(pool: set<Key>) returns (least: Key)
    requires pool != {}
    ensures least in pool && forall k :: k in pool ==> k == least || KeyLess(least, k)
    decreases pool
  {
    var x :| x in pool;
    var rest := pool - {x};
    assert pool == rest + {x};
    least := x;
    if rest != {} {
      var m := LeastKeyExists(rest);
      KeyTotal(x, m);
      if KeyLess(m, x) {
        least := m;
      } else {
        forall k | k in rest ensures KeyLess(x, k) {
          if k != m { KeyTransitive(x, m, k); }
        }
      }
    }
  }

  lemma DistinctConcat<T>(a: seq<T>, b: seq<T>)
    requires Distinct(a) && Distinct(b) && forall x :: x in a ==> x !in b
    ensures Distinct(a + b)
  {
    forall i, j | 0 <= i < j < |a + b| ensures (a + b)[i] != (a + b)[j] {
      if i < |a| <= j {
        assert (a + b)[i] in a && (a + b)[j] in b;
      }
    }
  }

  lemma ElemsConcat<T>(a: seq<T>, b: seq<T>)
    ensures Elems(a + b) == Elems(a) + Elems(b)
  {
  }

  lemma DistinctLast<T>(s: seq<T>, x: T)
    ensures Distinct(s + [x]) <==> Distinct(s) && x !in s
  {
    var more := s + [x];
    assert more[|s|] == x;
    assert forall i :: 0 <= i < |s| ==> more[i] == s[i];
  }

  lemma DistinctPrefix<T>(s: seq<T>, n: nat)
    requires n <= |s| && Distinct(s)
    ensures Distinct(s[..n])
  {
  }

  /** An element found at one position only occurs once. */
  lemma OnlyAt<T>(s: seq<T>, i: nat)
    requires i < |s| && forall j :: 0 <= j < |s| && j != i ==> s[j] != s[i]
    ensures multiset(s)[s[i]] == 1
  {
    var x, before, after := s[i], s[..i], s[i + 1..];
    assert x !in before;
    assert x !in after;
    assert s == before + [x] + after;
  }

  lemma TakenOut<T>(s: seq<T>, i: nat)
    requires i < |s|
    ensures multiset(s) == multiset{s[i]} + multiset(s[..i] + s[i + 1..])
  {
    assert s == s[..i] + [s[i]] + s[i + 1..];
  }
}
