/**
 * Iteration orders and sums. Ranging over a Go map visits the keys in an arbitrary order;
 * an order is a sequence that holds every key of a set exactly once. Sums over an order are
 * shown not to depend on it.
 */
module Orders {

  ghost predicate Distinct<T(!new)>(s: seq<T>) {
    forall i, j :: 0 <= i < j < |s| ==> s[i] != s[j]
  }

  ghost predicate IsOrderOf<T(!new)>(order: seq<T>, keys: set<T>) {
    && Distinct(order)
    && forall x :: x in order <==> x in keys
  }

  /** Ranges over a Go map: callers learn only that every key is visited exactly once. */
  method RangeOrder(keys: set<string>) returns (order: seq<string>)
    ensures IsOrderOf(order, keys)
  {
    order := [];
    var todo := keys;
    while todo != {}
      invariant todo <= keys && Distinct(order)
      invariant forall x :: x in order <==> x in keys && x !in todo
      decreases todo
    {
      var x :| x in todo;
      order := order + [x];
      todo := todo - {x};
    }
  }

  function SumBy<T>(s: seq<T>, f: T -> int): int {
    if s == [] then 0 else f(s[0]) + SumBy(s[1..], f)
  }

  ghost function SumSet<T(!new)>(s: set<T>, f: T -> int): int {
    if s == {} then 0 else
    var x :| x in s;
    f(x) + SumSet(s - {x}, f)
  }

  lemma Pick<T>(s: set<T>) returns (x: T)
    requires s != {}
    ensures x in s
  {
    x :| x in s;
  }

  lemma {:induction false} SubsetSize<T>(a: set<T>, b: set<T>)
    requires a <= b
    ensures |a| <= |b|
  {
    if a != {} {
      var x := Pick(a);
      SubsetSize(a - {x}, b - {x});
    }
  }

  // ---------- sums over sequences ----------

  lemma {:induction false} SumByAppend<T>(s: seq<T>, t: seq<T>, f: T -> int)
    ensures SumBy(s + t, f) == SumBy(s, f) + SumBy(t, f)
  {
    if s == [] {
      assert s + t == t;
    } else {
      assert (s + t)[1..] == s[1..] + t;
      SumByAppend(s[1..], t, f);
    }
  }

  lemma SumBySnoc<T>(s: seq<T>, x: T, f: T -> int)
    ensures SumBy(s + [x], f) == SumBy(s, f) + f(x)
  {
    SumByAppend(s, [x], f);
  }

  lemma SumByTake<T>(s: seq<T>, i: nat, f: T -> int)
    requires i < |s|
    ensures SumBy(s[..i + 1], f) == SumBy(s[..i], f) + f(s[i])
  {
    assert s[..i + 1] == s[..i] + [s[i]];
    SumBySnoc(s[..i], s[i], f);
  }

  lemma {:induction false} SumByRemove<T>(s: seq<T>, k: nat, f: T -> int)
    requires k < |s|
    ensures SumBy(s, f) == f(s[k]) + SumBy(s[..k] + s[k + 1..], f)
  {
    var rest := s[..k] + s[k + 1..];
    if k == 0 {
      assert rest == s[1..];
    } else {
      assert rest[1..] == s[1..][..k - 1] + s[1..][k..];
      SumByRemove(s[1..], k - 1, f);
    }
  }

  lemma MultisetRemove<T>(s: seq<T>, k: nat)
    requires k < |s|
    ensures multiset(s) == multiset(s[..k] + s[k + 1..]) + multiset{s[k]}
  {
    assert s == s[..k] + [s[k]] + s[k + 1..];
  }

  lemma MultisetIndex<T>(s: seq<T>, t: seq<T>) returns (k: nat)
    requires multiset(s) == multiset(t) && s != []
    ensures k < |t| && t[k] == s[0]
    ensures multiset(s[1..]) == multiset(t[..k] + t[k + 1..])
  {
    assert s[0] in multiset(t);
    k :| 0 <= k < |t| && t[k] == s[0];
    MultisetRemove(t, k);
    MultisetRemove(s, 0);
    assert s[..0] + s[1..] == s[1..];
    assert multiset(s[1..]) == multiset(s) - multiset{s[0]};
    assert multiset(t[..k] + t[k + 1..]) == multiset(t) - multiset{t[k]};
  }

  /** A sum does not depend on the order of its terms. */
  lemma {:induction false} SumByPermutation<T>(s: seq<T>, t: seq<T>, f: T -> int)
    requires multiset(s) == multiset(t)
    ensures SumBy(s, f) == SumBy(t, f)
  {
    if s == [] {
      assert |multiset(t)| == 0;
    } else {
      var k := MultisetIndex(s, t);
      SumByPermutation(s[1..], t[..k] + t[k + 1..], f);
      SumByRemove(t, k, f);
    }
  }

  lemma {:induction false} SumByMonotone<T>(s: seq<T>, f: T -> int, g: T -> int)
    requires forall x :: x in s ==> f(x) <= g(x)
    ensures SumBy(s, f) <= SumBy(s, g)
  {
    if s != [] {
      SumByMonotone(s[1..], f, g);
    }
  }

  lemma SumByEqual<T>(s: seq<T>, f: T -> int, g: T -> int)
    requires forall x :: x in s ==> f(x) == g(x)
    ensures SumBy(s, f) == SumBy(s, g)
  {
    SumByMonotone(s, f, g);
    SumByMonotone(s, g, f);
  }

  lemma {:induction false} SumByNonNegative<T>(s: seq<T>, f: T -> int)
    requires forall x :: x in s ==> f(x) >= 0
    ensures SumBy(s, f) >= 0
    ensures forall x :: x in s ==> f(x) <= SumBy(s, f)
  {
    if s != [] {
      SumByNonNegative(s[1..], f);
    }
  }

  lemma {:induction false} SumByZero<T>(s: seq<T>, f: T -> int)
    requires forall x :: x in s ==> f(x) == 0
    ensures SumBy(s, f) == 0
  {
    if s != [] {
      SumByZero(s[1..], f);
    }
  }

  // ---------- sums over sets ----------

  lemma {:induction false} SumSetRemove<T(!new)>(s: set<T>, x: T, f: T -> int)
    requires x in s
    ensures SumSet(s, f) == f(x) + SumSet(s - {x}, f)
  {
    var y :| y in s && SumSet(s, f) == f(y) + SumSet(s - {y}, f);
    if y != x {
      SumSetRemove(s - {y}, x, f);
      SumSetRemove(s - {x}, y, f);
      assert s - {y} - {x} == s - {x} - {y};
    }
  }

  lemma SumSetAdd<T(!new)>(s: set<T>, x: T, f: T -> int)
    requires x !in s
    ensures SumSet(s + {x}, f) == f(x) + SumSet(s, f)
  {
    SumSetRemove(s + {x}, x, f);
    assert s + {x} - {x} == s;
  }

  /** Every iteration order of a key set gives the same sum. */
  lemma {:induction false} SumOfOrder<T(!new)>(order: seq<T>, keys: set<T>, f: T -> int)
    requires IsOrderOf(order, keys)
    ensures SumBy(order, f) == SumSet(keys, f)
    ensures |order| == |keys|
  {
    if order == [] {
      assert keys == {};
    } else {
      assert order[0] in order;
      var rest := keys - {order[0]};
      assert IsOrderOf(order[1..], rest) by {
        forall x ensures x in order[1..] <==> x in rest {
          if x in order[1..] {
            assert x in order;
          }
          if x in rest {
            assert x in order;
          }
        }
      }
      SumOfOrder(order[1..], rest, f);
      SumSetRemove(keys, order[0], f);
    }
  }

  lemma {:induction false} SumSetMonotone<T(!new)>(s: set<T>, f: T -> int, g: T -> int)
    requires forall x :: x in s ==> f(x) <= g(x)
    ensures SumSet(s, f) <= SumSet(s, g)
  {
    if s != {} {
      var x :| x in s;
      SumSetRemove(s, x, f);
      SumSetRemove(s, x, g);
      SumSetMonotone(s - {x}, f, g);
    }
  }

  lemma SumSetEqual<T(!new)>(s: set<T>, f: T -> int, g: T -> int)
    requires forall x :: x in s ==> f(x) == g(x)
    ensures SumSet(s, f) == SumSet(s, g)
  {
    SumSetMonotone(s, f, g);
    SumSetMonotone(s, g, f);
  }

  lemma {:induction false} SumSetConstant<T(!new)>(s: set<T>, f: T -> int, c: int)
    requires forall x :: x in s ==> f(x) == c
    ensures SumSet(s, f) == |s| * c
  {
    if s != {} {
      var x :| x in s;
      SumSetRemove(s, x, f);
      SumSetConstant(s - {x}, f, c);
      assert |s - {x}| == |s| - 1;
      assert (|s| - 1) * c + c == |s| * c;
    }
  }

  lemma {:induction false} SumSetSubset<T(!new)>(s: set<T>, t: set<T>, f: T -> int)
    requires s <= t && forall x :: x in t ==> f(x) >= 0
    ensures 0 <= SumSet(s, f) <= SumSet(t, f)
    decreases t
  {
    if t != {} {
      var x :| x in t;
      SumSetRemove(t, x, f);
      if x in s {
        SumSetRemove(s, x, f);
        SumSetSubset(s - {x}, t - {x}, f);
      } else {
        SumSetSubset(s, t - {x}, f);
      }
    }
  }

  /** Inclusion and exclusion for two sets. */
  lemma {:induction false} SumSetUnion<T(!new)>(a: set<T>, b: set<T>, f: T -> int)
    ensures SumSet(a + b, f) + SumSet(a * b, f) == SumSet(a, f) + SumSet(b, f)
  {
    if a == {} {
      assert a + b == b && a * b == {};
    } else {
      var x :| x in a;
      var a' := a - {x};
      SumSetRemove(a, x, f);
      SumSetUnion(a', b, f);
      if x in b {
        assert a + b == a' + b;
        assert a * b - {x} == a' * b;
        SumSetRemove(a * b, x, f);
      } else {
        assert a + b - {x} == a' + b;
        assert a * b == a' * b;
        SumSetRemove(a + b, x, f);
      }
    }
  }

  // ---------- element-wise rewriting ----------

  lemma {:induction false} SumSetOver(keys: set<string>, inner: set<string>, f: string -> int)
    requires inner <= keys && forall a :: a in keys && a !in inner ==> f(a) == 0
    ensures SumSet(keys, f) == SumSet(inner, f)
  {
    if keys - inner == {} {
      assert forall x :: x in keys - inner <==> x in keys && x !in inner;
      assert keys == inner;
    } else {
      var a := Pick(keys - inner);
      SumSetRemove(keys, a, f);
      SumSetOver(keys - {a}, inner, f);
    }
  }

  lemma {:induction false} SumSetSum(s: set<string>, f: string -> int, g: string -> int, h: string -> int)
    requires forall x :: x in s ==> h(x) == f(x) + g(x)
    ensures SumSet(s, h) == SumSet(s, f) + SumSet(s, g)
  {
    if s != {} {
      var x := Pick(s);
      SumSetRemove(s, x, f);
      SumSetRemove(s, x, g);
      SumSetRemove(s, x, h);
      SumSetSum(s - {x}, f, g, h);
    }
  }

  function FlatMap<A, B>(s: seq<A>, f: A -> seq<B>): seq<B> {
    if s == [] then [] else f(s[0]) + FlatMap(s[1..], f)
  }

  lemma {:induction false} FlatMapAppend<A, B>(s: seq<A>, t: seq<A>, f: A -> seq<B>)
    ensures FlatMap(s + t, f) == FlatMap(s, f) + FlatMap(t, f)
  {
    if s == [] {
      assert s + t == t;
    } else {
      assert (s + t)[1..] == s[1..] + t;
      FlatMapAppend(s[1..], t, f);
    }
  }

  lemma FlatMapTake<A, B>(s: seq<A>, i: nat, f: A -> seq<B>)
    requires i < |s|
    ensures FlatMap(s[..i + 1], f) == FlatMap(s[..i], f) + f(s[i])
  {
    assert s[..i + 1] == s[..i] + [s[i]];
    FlatMapAppend(s[..i], [s[i]], f);
  }

  lemma {:induction false} InFlatMap<A, B>(s: seq<A>, f: A -> seq<B>, y: B)
    ensures y in FlatMap(s, f) <==> exists x :: x in s && y in f(x)
  {
    if s != [] {
      InFlatMap(s[1..], f, y);
      assert forall x :: x in s <==> x == s[0] || x in s[1..];
    }
  }

  /** Rewriting a permutation gives a permutation. */
  lemma {:induction false} FlatMapPermutation<A, B>(s: seq<A>, t: seq<A>, f: A -> seq<B>)
    requires multiset(s) == multiset(t)
    ensures multiset(FlatMap(s, f)) == multiset(FlatMap(t, f))
  {
    if s == [] {
      assert |multiset(t)| == 0;
    } else {
      var k := MultisetIndex(s, t);
      FlatMapPermutation(s[1..], t[..k] + t[k + 1..], f);
      FlatMapRemove(t, k, f);
    }
  }

  lemma {:induction false} FlatMapRemove<A, B>(s: seq<A>, k: nat, f: A -> seq<B>)
    requires k < |s|
    ensures multiset(FlatMap(s, f)) == multiset(f(s[k])) + multiset(FlatMap(s[..k] + s[k + 1..], f))
  {
    var rest := s[..k] + s[k + 1..];
    if k == 0 {
      assert rest == s[1..];
    } else {
      assert rest[1..] == s[1..][..k - 1] + s[1..][k..];
      FlatMapRemove(s[1..], k - 1, f);
    }
  }

  lemma SumByFlatMap<A, B>(s: seq<A>, f: A -> seq<B>, g: B -> int, h: A -> int)
    requires forall x :: x in s ==> h(x) == SumBy(f(x), g)
    ensures SumBy(FlatMap(s, f), g) == SumBy(s, h)
  {
    if s != [] {
      SumByAppend(f(s[0]), FlatMap(s[1..], f), g);
      SumByFlatMap(s[1..], f, g, h);
    }
  }

  lemma {:induction false} OrdersArePermutations<T(!new)>(s: seq<T>, t: seq<T>, keys: set<T>)
    requires IsOrderOf(s, keys) && IsOrderOf(t, keys)
    ensures multiset(s) == multiset(t)
  {
    forall x
      ensures multiset(s)[x] == multiset(t)[x]
    {
      DistinctCount(s, x);
      DistinctCount(t, x);
    }
  }

  lemma {:induction false} DistinctCount<T(!new)>(s: seq<T>, x: T)
    requires Distinct(s)
    ensures multiset(s)[x] == if x in s then 1 else 0
  {
    if s != [] {
      assert s == [s[0]] + s[1..];
      DistinctCount(s[1..], x);
    }
  }

  // ---------- alphabetical order ----------

  /** Byte-wise lexicographic order of strings, as Go's `<`. */
  predicate LexLess(a: string, b: string) {
    if b == [] then false
    else if a == [] then true
    else a[0] < b[0] || (a[0] == b[0] && LexLess(a[1..], b[1..]))
  }

  lemma {:induction false} LexTotal(a: string, b: string)
    ensures a == b || LexLess(a, b) || LexLess(b, a)
    ensures !(LexLess(a, b) && LexLess(b, a))
  {
    if a != [] && b != [] && a[0] == b[0] {
      LexTotal(a[1..], b[1..]);
      if a[1..] == b[1..] {
        assert a == [a[0]] + a[1..] && b == [b[0]] + b[1..];
      }
    }
  }

  lemma {:induction false} LexTransitive(a: string, b: string, c: string)
    requires LexLess(a, b) && LexLess(b, c)
    ensures LexLess(a, c)
  {
    if a != [] && a[0] == b[0] && b[0] == c[0] {
      LexTransitive(a[1..], b[1..], c[1..]);
    }
  }

  /** One string comes first exactly when it is a proper prefix, or smaller where the two first differ. */
  lemma {:induction false} LexLessIff(a: string, b: string)
    ensures LexLess(a, b) <==>
            exists k: nat :: k <= |a| && k < |b| && a[..k] == b[..k] && (k == |a| || a[k] < b[k])
  {
    if LexLess(a, b) {
      var k := FirstDifference(a, b);
    }
    if k: nat :| k <= |a| && k < |b| && a[..k] == b[..k] && (k == |a| || a[k] < b[k]) {
      DiffersAt(a, b, k);
    }
  }

  lemma {:induction false} FirstDifference(a: string, b: string) returns (k: nat)
    requires LexLess(a, b)
    ensures k <= |a| && k < |b| && a[..k] == b[..k] && (k == |a| || a[k] < b[k])
  {
    if a == [] || a[0] < b[0] {
      k := 0;
    } else {
      var j := FirstDifference(a[1..], b[1..]);
      k := j + 1;
      assert a[..k] == [a[0]] + a[1..][..j] && b[..k] == [b[0]] + b[1..][..j];
    }
  }

  lemma {:induction false} DiffersAt(a: string, b: string, k: nat)
    requires k <= |a| && k < |b| && a[..k] == b[..k] && (k == |a| || a[k] < b[k])
    ensures LexLess(a, b)
  {
    if k > 0 {
      assert a[0] == a[..k][0] && b[0] == b[..k][0];
      assert a[1..][..k - 1] == a[..k][1..] && b[1..][..k - 1] == b[..k][1..];
      DiffersAt(a[1..], b[1..], k - 1);
    }
  }
}
