/** Ordering: LINQ's stable `OrderBy` on an integer key (used for the legacy
    send order and, negated, for newest-first error lists), and the ordinal
    order of strings with a duplicate-free sorted insertion. */
module Sorting {

  // ------------------------------------------------ stable sort by a key

  /** Non-decreasing by key. */
  predicate SortedBy<T>(s: seq<T>, key: T -> int) {
    forall i, j :: 0 <= i < j < |s| ==> key(s[i]) <= key(s[j])
  }

  /** The elements of `s` whose key is `k`, in their order in `s`. */
  function WithKey<T>(s: seq<T>, key: T -> int, k: int): (r: seq<T>)
    ensures |r| <= |s|
  {
    if |s| == 0 then []
    else (if key(s[0]) == k then [s[0]] else []) + WithKey(s[1..], key, k)
  }

  /** One step of the selection: the head, if it has the key, then the rest. */
  lemma WithKeyCons<T>(h: T, t: seq<T>, key: T -> int, k: int)
    ensures WithKey([h] + t, key, k) == KeyPart(h, key, k) + WithKey(t, key, k)
  {
    assert ([h] + t)[1..] == t;
  }

  lemma {:induction false} WithKeyAppend<T>(a: seq<T>, b: seq<T>, key: T -> int, k: int)
    ensures WithKey(a + b, key, k) == WithKey(a, key, k) + WithKey(b, key, k)
    decreases |a|
  {
    if |a| == 0 {
      assert a + b == b;
    } else {
      var ab := a + b;
      assert ab[0] == a[0];
      assert ab[1..] == a[1..] + b;
      WithKeyAppend(a[1..], b, key, k);
      var h: seq<T> := if key(a[0]) == k then [a[0]] else [];
      calc {
        WithKey(ab, key, k);
        h + WithKey(a[1..] + b, key, k);
        h + (WithKey(a[1..], key, k) + WithKey(b, key, k));
        (h + WithKey(a[1..], key, k)) + WithKey(b, key, k);
      }
    }
  }

  /** What the selection holds: elements of `s` with key `k`. */
  lemma {:induction false} WithKeyMembers<T>(s: seq<T>, key: T -> int, k: int, i: nat)
    requires i < |WithKey(s, key, k)|
    ensures key(WithKey(s, key, k)[i]) == k
    ensures exists j :: 0 <= j < |s| && s[j] == WithKey(s, key, k)[i]
    decreases |s|
  {
    var h: seq<T> := if key(s[0]) == k then [s[0]] else [];
    var w := WithKey(s, key, k);
    if i < |h| {
      assert w[i] == s[0];
    } else {
      WithKeyMembers(s[1..], key, k, i - |h|);
      assert w[i] == WithKey(s[1..], key, k)[i - |h|];
      var j :| 0 <= j < |s[1..]| && s[1..][j] == w[i];
      assert s[j + 1] == w[i];
    }
  }

  /** No element has key `k`, so none is selected. */
  lemma {:induction false} WithKeyAbsent<T>(s: seq<T>, key: T -> int, k: int)
    requires forall i :: 0 <= i < |s| ==> key(s[i]) != k
    ensures WithKey(s, key, k) == []
    decreases |s|
  {
    if |s| > 0 {
      WithKeyAbsent(s[1..], key, k);
    }
  }

  /** Puts `x` after every element whose key is at most its own. */
  function Insert<T>(x: T, s: seq<T>, key: T -> int): (r: seq<T>)
    ensures |r| == |s| + 1
    decreases |s|
  {
    if |s| == 0 then [x]
    else if key(x) < key(s[0]) then [x] + s
    else [s[0]] + Insert(x, s[1..], key)
  }

  /** Insertion adds `x` and loses nothing. */
  lemma {:induction false} InsertPermutes<T>(x: T, s: seq<T>, key: T -> int)
    ensures multiset(Insert(x, s, key)) == multiset(s) + multiset{x}
    decreases |s|
  {
    if |s| > 0 && key(x) >= key(s[0]) {
      InsertPermutes(x, s[1..], key);
      assert s == [s[0]] + s[1..];
    }
  }

  lemma {:induction false} InsertSorted<T>(x: T, s: seq<T>, key: T -> int)
    requires SortedBy(s, key)
    ensures SortedBy(Insert(x, s, key), key)
    decreases |s|
  {
    if |s| > 0 && key(x) >= key(s[0]) {
      var t := s[1..];
      InsertSorted(x, t, key);
      var u := Insert(x, t, key);
      InsertPermutes(x, t, key);
      forall j | 0 <= j < |u|
        ensures key(s[0]) <= key(u[j])
      {
        assert u[j] in multiset(u);
        if u[j] != x {
          assert u[j] in multiset(t);
          var m :| 0 <= m < |t| && t[m] == u[j];
          assert t[m] == s[m + 1];
        }
      }
    }
  }

  /** The selection of a singleton. */
  function KeyPart<T>(x: T, key: T -> int, k: int): seq<T> {
    if key(x) == k then [x] else []
  }

  /** `x` goes in front of a sorted sequence whose keys all exceed its own. */
  lemma InsertFrontWithKey<T>(x: T, s: seq<T>, key: T -> int, k: int)
    requires SortedBy(s, key) && |s| > 0 && key(x) < key(s[0])
    ensures WithKey([x] + s, key, k) == WithKey(s, key, k) + KeyPart(x, key, k)
  {
    WithKeyCons(x, s, key, k);
    if key(x) == k {
      WithKeyAbsent(s, key, k);
    }
  }

  /** `x` goes behind the head: the head's part comes first. */
  lemma InsertBehindWithKey<T>(x: T, s: seq<T>, key: T -> int, k: int)
    requires |s| > 0 && key(x) >= key(s[0])
    requires WithKey(Insert(x, s[1..], key), key, k) == WithKey(s[1..], key, k) + KeyPart(x, key, k)
    ensures WithKey(Insert(x, s, key), key, k) == WithKey(s, key, k) + KeyPart(x, key, k)
  {
    var t := s[1..];
    WithKeyCons(s[0], Insert(x, t, key), key, k);
    WithKeyCons(s[0], t, key, k);
    assert [s[0]] + t == s;
    assert WithKey(Insert(x, s, key), key, k) == KeyPart(s[0], key, k) + (WithKey(t, key, k) + KeyPart(x, key, k));
  }

  /** Inserting keeps the order among equal keys: `x` lands behind every
      element with its key. */
  lemma {:induction false} InsertWithKey<T>(x: T, s: seq<T>, key: T -> int, k: int)
    requires SortedBy(s, key)
    ensures WithKey(Insert(x, s, key), key, k) == WithKey(s, key, k) + KeyPart(x, key, k)
    decreases |s|
  {
    if |s| == 0 {
      WithKeyCons(x, s, key, k);
      assert [x] + s == [x];
    } else if key(x) < key(s[0]) {
      InsertFrontWithKey(x, s, key, k);
    } else {
      InsertWithKey(x, s[1..], key, k);
      InsertBehindWithKey(x, s, key, k);
    }
  }

  /** `OrderBy(key)`: a stable sort, as insertion of each element in turn. */
  function SortBy<T>(s: seq<T>, key: T -> int): (r: seq<T>)
    ensures |r| == |s|
    decreases |s|
  {
    if |s| == 0 then []
    else Insert(s[|s| - 1], SortBy(s[..|s| - 1], key), key)
  }

  /** The sort is a permutation. */
  lemma {:induction false} SortByPermutes<T>(s: seq<T>, key: T -> int)
    ensures multiset(SortBy(s, key)) == multiset(s)
    decreases |s|
  {
    if |s| > 0 {
      var init := s[..|s| - 1];
      SortByPermutes(init, key);
      InsertPermutes(s[|s| - 1], SortBy(init, key), key);
      assert s == init + [s[|s| - 1]];
    }
  }

  /** The sort orders by key. */
  lemma {:induction false} SortBySorted<T>(s: seq<T>, key: T -> int)
    ensures SortedBy(SortBy(s, key), key)
    decreases |s|
  {
    if |s| > 0 {
      SortBySorted(s[..|s| - 1], key);
      InsertSorted(s[|s| - 1], SortBy(s[..|s| - 1], key), key);
    }
  }

  /** The sort is stable: elements with the same key keep their order. */
  lemma {:induction false} SortByStable<T>(s: seq<T>, key: T -> int, k: int)
    ensures WithKey(SortBy(s, key), key, k) == WithKey(s, key, k)
    decreases |s|
  {
    if |s| > 0 {
      var init := s[..|s| - 1];
      var last := s[|s| - 1];
      SortByStable(init, key, k);
      SortBySorted(init, key);
      InsertWithKey(last, SortBy(init, key), key, k);
      assert SortBy(s, key) == Insert(last, SortBy(init, key), key);
      assert s == init + [last];
      WithKeyAppend(init, [last], key, k);
      WithKeyCons(last, [], key, k);
      assert [last] + [] == [last];
    }
  }

  /** A sorted sequence whose key-`key(x)` selection contains `x` has its
      first key no larger than `key(x)`. */
  lemma FirstKeyAtMost<T>(u: seq<T>, key: T -> int, x: T, i: nat)
    requires SortedBy(u, key)
    requires i < |WithKey(u, key, key(x))| && WithKey(u, key, key(x))[i] == x
    ensures |u| > 0 && key(u[0]) <= key(x)
  {
    WithKeyMembers(u, key, key(x), i);
    var j :| 0 <= j < |u| && u[j] == x;
  }

  /** Being sorted and keeping every key's elements in order pins a sequence
      down: two such sequences are equal. */
  lemma {:induction false} SortedSameGroupsEqual<T>(t: seq<T>, u: seq<T>, key: T -> int)
    requires SortedBy(t, key) && SortedBy(u, key)
    requires forall k :: WithKey(t, key, k) == WithKey(u, key, k)
    ensures t == u
    decreases |t| + |u|
  {
    if |t| > 0 {
      assert WithKey(t, key, key(t[0]))[0] == t[0];
      FirstKeyAtMost(u, key, t[0], 0);
    }
    if |u| > 0 {
      assert WithKey(u, key, key(u[0]))[0] == u[0];
      FirstKeyAtMost(t, key, u[0], 0);
    }
    if |t| > 0 {
      var m := key(t[0]);
      assert m == key(u[0]);
      assert t[0] == u[0] by {
        assert WithKey(t, key, m)[0] == t[0];
        assert WithKey(u, key, m)[0] == u[0];
      }
      forall k
        ensures WithKey(t[1..], key, k) == WithKey(u[1..], key, k)
      {
        var h: seq<T> := if m == k then [t[0]] else [];
        assert WithKey(t, key, k) == h + WithKey(t[1..], key, k);
        assert WithKey(u, key, k) == h + WithKey(u[1..], key, k);
        assert WithKey(t[1..], key, k) == WithKey(t, key, k)[|h|..];
        assert WithKey(u[1..], key, k) == WithKey(u, key, k)[|h|..];
      }
      SortedSameGroupsEqual(t[1..], u[1..], key);
      assert t == [t[0]] + t[1..] && u == [u[0]] + u[1..];
    }
  }

  /** Reference characterisation of the stable sort: `SortBy(s)` is the only
      sorted sequence that keeps each key's elements of `s` in their order. */
  lemma SortByUnique<T>(s: seq<T>, t: seq<T>, key: T -> int)
    ensures t == SortBy(s, key) ==> SortedBy(t, key) && forall k :: WithKey(t, key, k) == WithKey(s, key, k)
    ensures SortedBy(t, key) && (forall k :: WithKey(t, key, k) == WithKey(s, key, k)) ==> t == SortBy(s, key)
  {
    var r := SortBy(s, key);
    SortBySorted(s, key);
    forall k
      ensures WithKey(r, key, k) == WithKey(s, key, k)
    {
      SortByStable(s, key, k);
    }
    var groups := forall k :: WithKey(t, key, k) == WithKey(s, key, k);
    if SortedBy(t, key) && groups {
      forall k
        ensures WithKey(t, key, k) == WithKey(r, key, k)
      {
        assert WithKey(t, key, k) == WithKey(s, key, k);
      }
      SortedSameGroupsEqual(t, r, key);
    }
    if t == r {
      assert groups;
    }
  }

  // ------------------------------------------------------ ordinal strings

  /** Ordinal (code-unit) order of strings: a proper prefix comes first. */
  predicate StrLess(a: string, b: string)
    decreases |a|
  {
    if |b| == 0 then false
    else if |a| == 0 then true
    else if a[0] != b[0] then a[0] < b[0]
    else StrLess(a[1..], b[1..])
  }

  lemma {:induction false} StrLessIrreflexive(a: string)
    ensures !StrLess(a, a)
    decreases |a|
  {
    if |a| > 0 {
      StrLessIrreflexive(a[1..]);
    }
  }

  lemma {:induction false} StrLessTotal(a: string, b: string)
    requires a != b
    ensures StrLess(a, b) || StrLess(b, a)
    decreases |a|
  {
    if |a| > 0 && |b| > 0 && a[0] == b[0] {
      assert a == [a[0]] + a[1..] && b == [b[0]] + b[1..];
      StrLessTotal(a[1..], b[1..]);
    }
  }

  lemma {:induction false} StrLessTransitive(a: string, b: string, c: string)
    requires StrLess(a, b) && StrLess(b, c)
    ensures StrLess(a, c)
    decreases |a|
  {
    if |a| > 0 && a[0] == b[0] && b[0] == c[0] {
      StrLessTransitive(a[1..], b[1..], c[1..]);
    }
  }

  /** Strictly ascending in ordinal order (hence without duplicates). */
  predicate Ascending(s: seq<string>) {
    forall i, j :: 0 <= i < j < |s| ==> StrLess(s[i], s[j])
  }

  /** Adds a name to an ascending list unless it is already there. */
  function InsertName(x: string, s: seq<string>): (r: seq<string>)
    ensures forall y :: y in r <==> y in s || y == x
    decreases |s|
  {
    if |s| == 0 then [x]
    else if x == s[0] then s
    else if StrLess(x, s[0]) then [x] + s
    else
      assert s == [s[0]] + s[1..];
      [s[0]] + InsertName(x, s[1..])
  }

  lemma {:induction false} InsertNameAscending(x: string, s: seq<string>)
    requires Ascending(s)
    ensures Ascending(InsertName(x, s))
    decreases |s|
  {
    if |s| > 0 && x != s[0] {
      if StrLess(x, s[0]) {
        var r := [x] + s;
        forall i, j | 0 <= i < j < |r|
          ensures StrLess(r[i], r[j])
        {
          if i == 0 && j > 1 {
            StrLessTransitive(x, s[0], s[j - 1]);
          }
        }
      } else {
        StrLessTotal(x, s[0]);
        var t := s[1..];
        InsertNameAscending(x, t);
        var u := InsertName(x, t);
        forall j | 0 <= j < |u|
          ensures StrLess(s[0], u[j])
        {
          assert u[j] in u;
          if u[j] != x {
            var m :| 0 <= m < |t| && t[m] == u[j];
            assert t[m] == s[m + 1];
          }
        }
        var r := [s[0]] + u;
        forall i, j | 0 <= i < j < |r|
          ensures StrLess(r[i], r[j])
        {
          if i > 0 {
            assert r[i] == u[i - 1] && r[j] == u[j - 1];
          }
        }
      }
    }
  }

  /** The distinct names of `names`, ascending: `Distinct` then `OrderBy`. */
  function DistinctAscending(names: seq<string>): (r: seq<string>)
    ensures Ascending(r)
    ensures forall y :: y in r <==> y in names
    decreases |names|
  {
    if |names| == 0 then []
    else
      var init := names[..|names| - 1];
      var rest := DistinctAscending(init);
      InsertNameAscending(names[|names| - 1], rest);
      assert names == init + [names[|names| - 1]];
      InsertName(names[|names| - 1], rest)
  }

  /** An ascending list holds no name twice. */
  lemma AscendingDistinct(s: seq<string>)
    requires Ascending(s)
    ensures forall i, j :: 0 <= i < j < |s| ==> s[i] != s[j]
  {
    forall i, j | 0 <= i < j < |s|
      ensures s[i] != s[j]
    {
      if s[i] == s[j] {
        StrLessIrreflexive(s[i]);
      }
    }
  }
}
