/** Sorted listings of finite sets, by any total order. */
module Sorting {
  import opened Prelude

  ghost predicate TotalOrder<T(!new)>(leq: (T, T) -> bool) {
    && (forall x :: leq(x, x))
    && (forall x, y :: leq(x, y) || leq(y, x))
    && (forall x, y :: leq(x, y) && leq(y, x) ==> x == y)
    && (forall x, y, z :: leq(x, y) && leq(y, z) ==> leq(x, z))
  }

  ghost predicate Sorted<T>(s: seq<T>, leq: (T, T) -> bool) {
    forall i, j :: 0 <= i < j < |s| ==> leq(s[i], s[j])
  }

  lemma ListsTail<T>(s: seq<T>, keys: set<T>)
    requires Lists(s, keys) && s != []
    ensures Lists(s[1..], keys - {s[0]})
  {
    forall x | x in keys - {s[0]} ensures x in s[1..] {
      var i :| 0 <= i < |s| && s[i] == x;
      assert s[1..][i - 1] == x;
    }
  }

  lemma {:induction false} ListingLength<T>(s: seq<T>, keys: set<T>)
    requires Lists(s, keys)
    ensures |s| == |keys|
    decreases |s|
  {
    if s == [] {
      assert keys == {};
    } else {
      var k := |s| - 1;
      assert s == s[..k] + [s[k]];
      assert s[k] in keys;
      ListingLength(s[..k], keys - {s[k]});
    }
  }

  /** A set has one sorted listing: sorting makes the order it was walked in irrelevant. */
  lemma {:induction false} SortedListingUnique<T(!new)>(s: seq<T>, t: seq<T>, keys: set<T>, leq: (T, T) -> bool)
    requires TotalOrder(leq) && Lists(s, keys) && Lists(t, keys) && Sorted(s, leq) && Sorted(t, leq)
    ensures s == t
    decreases |s|
  {
    ListingLength(s, keys);
    ListingLength(t, keys);
    if s != [] {
      assert s[0] in keys && s[0] in t;
      assert t[0] in keys && t[0] in s;
      assert s[0] == t[0];
      ListsTail(s, keys);
      ListsTail(t, keys);
      SortedListingUnique(s[1..], t[1..], keys - {s[0]}, leq);
      assert s == [s[0]] + s[1..] && t == [t[0]] + t[1..];
    }
  }

  lemma {:induction false} SortedListingExists<T(!new)>(keys: set<T>, leq: (T, T) -> bool) returns (s: seq<T>)
    requires TotalOrder(leq)
    ensures Lists(s, keys) && Sorted(s, leq)
    decreases |keys|
  {
    if keys == {} {
      s := [];
    } else {
      var m := Least(keys, leq);
      var t := SortedListingExists(keys - {m}, leq);
      s := [m] + t;
      assert forall i :: 0 <= i < |t| ==> t[i] in keys - {m};
    }
  }

  lemma {:induction false} Least<T(!new)>(keys: set<T>, leq: (T, T) -> bool) returns (m: T)
    requires TotalOrder(leq) && keys != {}
    ensures m in keys && forall x :: x in keys ==> leq(m, x)
    decreases |keys|
  {
    m :| m in keys;
    if keys - {m} != {} {
      var n := Least(keys - {m}, leq);
      if !leq(m, n) { m := n; }
    }
  }

  ghost predicate StrictOrder<T(!new)>(less: (T, T) -> bool) {
    && (forall x :: !less(x, x))
    && (forall x, y :: less(x, y) || less(y, x) || x == y)
    && (forall x, y, z :: less(x, y) && less(y, z) ==> less(x, z))
  }

  /** Sequences by their first difference. */
  predicate LexLeq<T(==)>(less: (T, T) -> bool, a: seq<T>, b: seq<T>) {
    a == [] || (b != [] && (less(a[0], b[0]) || (a[0] == b[0] && LexLeq(less, a[1..], b[1..]))))
  }

  lemma {:induction false} LexFacts<T(!new)>(less: (T, T) -> bool, a: seq<T>, b: seq<T>, c: seq<T>)
    requires StrictOrder(less)
    ensures LexLeq(less, a, a)
    ensures LexLeq(less, a, b) || LexLeq(less, b, a)
    ensures LexLeq(less, a, b) && LexLeq(less, b, a) ==> a == b
    ensures LexLeq(less, a, b) && LexLeq(less, b, c) ==> LexLeq(less, a, c)
  {
    if a != [] {
      LexFacts(less, a[1..], if b == [] then [] else b[1..], if c == [] then [] else c[1..]);
      if b != [] && a[0] == b[0] && a[1..] == b[1..] { assert a == [a[0]] + a[1..] && b == [b[0]] + b[1..]; }
    }
  }

  /** The sequences agree up to position `k`, where the first is less. */
  ghost predicate LessAt<T(!new)>(less: (T, T) -> bool, a: seq<T>, b: seq<T>, k: int) {
    0 <= k < |a| && k < |b| && a[..k] == b[..k] && less(a[k], b[k])
  }

  /** One sequence comes before another iff it is a prefix of it, or is less at the first difference. */
  lemma {:induction false} LexLeqIff<T(!new)>(less: (T, T) -> bool, a: seq<T>, b: seq<T>)
    ensures LexLeq(less, a, b) <==> a <= b || exists k :: LessAt(less, a, b, k)
  {
    if a == [] || b == [] {
    } else if less(a[0], b[0]) {
      assert LessAt(less, a, b, 0);
    } else if a[0] == b[0] {
      LexLeqIff(less, a[1..], b[1..]);
      assert a <= b <==> a[1..] <= b[1..] by { assert a == [a[0]] + a[1..] && b == [b[0]] + b[1..]; }
      if k :| LessAt(less, a[1..], b[1..], k) { LessAtNext(less, a, b, k + 1); }
      if k :| LessAt(less, a, b, k) { LessAtNext(less, a, b, k); }
    }
  }

  lemma LessAtNext<T(!new)>(less: (T, T) -> bool, a: seq<T>, b: seq<T>, k: int)
    requires a != [] && b != [] && a[0] == b[0] && !less(a[0], b[0])
    ensures LessAt(less, a, b, k) <==> LessAt(less, a[1..], b[1..], k - 1)
  {
    if 0 < k < |a| && k < |b| {
      assert a[..k] == [a[0]] + a[1..][..k - 1] && b[..k] == [b[0]] + b[1..][..k - 1];
      assert a[..k][1..] == a[1..][..k - 1] && b[..k][1..] == b[1..][..k - 1];
    }
  }

  /** Strings by code points. */
  predicate StringLeq(a: string, b: string) {
    LexLeq((x: char, y: char) => x < y, a, b)
  }

  lemma StringLeqIsTotalOrder()
    ensures TotalOrder(StringLeq)
  {
    forall a: string, b: string, c: string
      ensures StringLeq(a, a) && (StringLeq(a, b) || StringLeq(b, a))
              && (StringLeq(a, b) && StringLeq(b, a) ==> a == b)
              && (StringLeq(a, b) && StringLeq(b, c) ==> StringLeq(a, c))
    {
      LexFacts((x: char, y: char) => x < y, a, b, c);
    }
  }

  /** One string comes before another iff it begins it, or has the smaller code point where they first differ. */
  lemma StringLeqIff(a: string, b: string)
    ensures StringLeq(a, b)
            <==> a <= b || exists k :: 0 <= k < |a| && k < |b| && a[..k] == b[..k] && a[k] < b[k]
  {
    var less := (x: char, y: char) => x < y;
    LexLeqIff(less, a, b);
    if k :| 0 <= k < |a| && k < |b| && a[..k] == b[..k] && a[k] < b[k] { assert LessAt(less, a, b, k); }
  }

  // ---- Sorting a listing ----

  function Insert<T>(x: T, s: seq<T>, leq: (T, T) -> bool): seq<T> {
    if s == [] || leq(x, s[0]) then [x] + s else [s[0]] + Insert(x, s[1..], leq)
  }

  lemma {:induction false} InsertLists<T(!new)>(x: T, s: seq<T>, keys: set<T>, leq: (T, T) -> bool)
    requires Lists(s, keys) && x !in keys
    ensures Lists(Insert(x, s, leq), keys + {x})
  {
    if s != [] && !leq(x, s[0]) {
      ListsTail(s, keys);
      InsertLists(x, s[1..], keys - {s[0]}, leq);
      assert keys - {s[0]} + {x} + {s[0]} == keys + {x};
    }
  }

  lemma {:induction false} InsertSorted<T(!new)>(x: T, s: seq<T>, keys: set<T>, leq: (T, T) -> bool)
    requires TotalOrder(leq) && Sorted(s, leq) && Lists(s, keys) && x !in keys
    ensures Sorted(Insert(x, s, leq), leq)
  {
    if s != [] && !leq(x, s[0]) {
      ListsTail(s, keys);
      InsertSorted(x, s[1..], keys - {s[0]}, leq);
      InsertLists(x, s[1..], keys - {s[0]}, leq);
      var rest := Insert(x, s[1..], leq);
      forall j | 0 <= j < |rest| ensures leq(s[0], rest[j]) {
        assert rest[j] in keys - {s[0]} + {x};
        assert rest[j] == x || rest[j] in s[1..];
      }
    }
  }

  /** Sorts a listing of distinct keys; what comes out does not depend on the order they came in. */
  method Sort<T(!new)>(names: seq<T>, leq: (T, T) -> bool, ghost keys: set<T>) returns (s: seq<T>)
    requires TotalOrder(leq) && Lists(names, keys)
    ensures Lists(s, keys) && Sorted(s, leq)
    ensures forall t :: Lists(t, keys) && Sorted(t, leq) ==> t == s
  {
    s := [];
    ghost var seen: set<T> := {};
    for i := 0 to |names|
      invariant forall x :: x in seen <==> x in names[..i]
      invariant Lists(s, seen) && Sorted(s, leq)
    {
      assert names[..i + 1] == names[..i] + [names[i]];
      assert names[i] !in names[..i];
      InsertLists(names[i], s, seen, leq);
      InsertSorted(names[i], s, seen, leq);
      s := Insert(names[i], s, leq);
      seen := seen + {names[i]};
    }
    assert names[..|names|] == names;
    assert seen == keys;
    forall t | Lists(t, keys) && Sorted(t, leq) ensures t == s {
      SortedListingUnique(t, s, keys, leq);
    }
  }
}
