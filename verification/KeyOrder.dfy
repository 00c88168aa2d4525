/** Strings in the order `str` compares them: lexicographically by their UTF-8
    bytes. Sorting makes the listing of a map's keys independent of the order
    in which a hash map yields them. */
module KeyOrder {
  import opened Prelude
  import Utf8

  predicate LexLeq(a: Bytes, b: Bytes) {
    a == [] || (b != [] && (a[0] < b[0] || (a[0] == b[0] && LexLeq(a[1..], b[1..]))))
  }

  predicate Leq(a: string, b: string) { LexLeq(Utf8.Encode(a), Utf8.Encode(b)) }

  lemma {:induction false} LexTotal(a: Bytes, b: Bytes)
    ensures LexLeq(a, b) || LexLeq(b, a)
  {
    if a == [] || b == [] || a[0] != b[0] {
    } else {
      LexTotal(a[1..], b[1..]);
    }
  }

  lemma {:induction false} LexAntisymmetric(a: Bytes, b: Bytes)
    requires LexLeq(a, b) && LexLeq(b, a)
    ensures a == b
  {
    if a == [] {
    } else {
      LexAntisymmetric(a[1..], b[1..]);
      assert a == [a[0]] + a[1..] && b == [b[0]] + b[1..];
    }
  }

  lemma {:induction false} LexTransitive(a: Bytes, b: Bytes, c: Bytes)
    requires LexLeq(a, b) && LexLeq(b, c)
    ensures LexLeq(a, c)
  {
    if a == [] || !(a[0] == b[0] == c[0]) {
    } else {
      LexTransitive(a[1..], b[1..], c[1..]);
    }
  }

  ghost predicate Sorted(xs: seq<string>) {
    forall i, j :: 0 <= i < j < |xs| ==> Leq(xs[i], xs[j])
  }

  function Insert(x: string, xs: seq<string>): (r: seq<string>)
    ensures multiset(r) == multiset{x} + multiset(xs)
  {
    if xs == [] || Leq(x, xs[0]) then [x] + xs
    else
      assert xs == [xs[0]] + xs[1..];
      [xs[0]] + Insert(x, xs[1..])
  }

  function Sort(xs: seq<string>): (r: seq<string>)
    ensures multiset(r) == multiset(xs)
  {
    if xs == [] then []
    else
      assert xs == [xs[0]] + xs[1..];
      Insert(xs[0], Sort(xs[1..]))
  }

  lemma {:induction false} InsertSorted(x: string, xs: seq<string>)
    requires Sorted(xs)
    ensures Sorted(Insert(x, xs))
  {
    if xs == [] {
    } else if Leq(x, xs[0]) {
      forall j | 0 <= j < |xs| ensures Leq(x, xs[j]) {
        if j > 0 {
          LexTransitive(Utf8.Encode(x), Utf8.Encode(xs[0]), Utf8.Encode(xs[j]));
        }
      }
    } else {
      LexTotal(Utf8.Encode(x), Utf8.Encode(xs[0]));
      InsertSorted(x, xs[1..]);
      var rest := Insert(x, xs[1..]);
      forall j | 0 <= j < |rest| ensures Leq(xs[0], rest[j]) {
        assert rest[j] in multiset(rest);
        assert rest[j] == x || rest[j] in xs[1..];
      }
    }
  }

  lemma {:induction false} SortSorted(xs: seq<string>)
    ensures Sorted(Sort(xs))
  {
    if xs == [] {
    } else {
      SortSorted(xs[1..]);
      InsertSorted(xs[0], Sort(xs[1..]));
    }
  }

  lemma LeastFirst(xs: seq<string>, ys: seq<string>)
    requires Sorted(xs) && xs != [] && ys != [] && multiset(xs) == multiset(ys)
    ensures Leq(xs[0], ys[0])
  {
    hide Leq;
    assert ys[0] in multiset(xs);
    var j :| 0 <= j < |xs| && xs[j] == ys[0];
    if j == 0 {
      LeqReflexive(xs[0]);
    }
  }

  lemma LeqReflexive(x: string)
    ensures Leq(x, x)
  {
    LexTotal(Utf8.Encode(x), Utf8.Encode(x));
  }

  lemma LeastEqual(xs: seq<string>, ys: seq<string>)
    requires Sorted(xs) && Sorted(ys) && multiset(xs) == multiset(ys) && xs != [] && ys != []
    ensures xs[0] == ys[0]
  {
    LeastFirst(xs, ys);
    LeastFirst(ys, xs);
    hide Sorted;
    LexAntisymmetric(Utf8.Encode(xs[0]), Utf8.Encode(ys[0]));
    Utf8.EncodeInjective(xs[0], ys[0]);
  }

  lemma SortedRest(xs: seq<string>)
    requires Sorted(xs) && xs != []
    ensures Sorted(xs[1..]) && xs == [xs[0]] + xs[1..]
    ensures multiset(xs[1..]) == multiset(xs) - multiset{xs[0]}
  {
    hide Leq;
    assert xs == [xs[0]] + xs[1..];
  }

  lemma {:induction false} SortedUnique(xs: seq<string>, ys: seq<string>)
    requires Sorted(xs) && Sorted(ys) && multiset(xs) == multiset(ys)
    ensures xs == ys
  {
    hide Sorted;
    assert |multiset(xs)| == |xs| && |multiset(ys)| == |ys|;
    if xs == [] {
    } else {
      LeastEqual(xs, ys);
      SortedRest(xs);
      SortedRest(ys);
      SortedUnique(xs[1..], ys[1..]);
    }
  }

  lemma {:induction false} EnumerationCount<T>(xs: seq<T>, x: T)
    requires forall i, j :: 0 <= i < j < |xs| ==> xs[i] != xs[j]
    ensures multiset(xs)[x] == if x in xs then 1 else 0
  {
    if xs == [] {
    } else {
      assert xs == [xs[0]] + xs[1..];
      EnumerationCount(xs[1..], x);
    }
  }

  lemma RepeatedCount<T>(xs: seq<T>, i: nat, j: nat)
    requires i < j < |xs| && xs[i] == xs[j]
    ensures multiset(xs)[xs[i]] >= 2
  {
    assert xs == xs[..j] + xs[j..];
    assert xs[i] in xs[..j] && xs[j] in xs[j..];
  }

  lemma EnumerationMultiset(order: seq<string>, keys: set<string>)
    requires Enumerates(order, keys)
    ensures multiset(order) == multiset(keys)
  {
    forall k: string ensures multiset(order)[k] == multiset(keys)[k] {
      EnumerationCount(order, k);
    }
  }

  /** Sorting any enumeration gives an enumeration. */
  lemma SortEnumerates(order: seq<string>, keys: set<string>)
    requires Enumerates(order, keys)
    ensures Enumerates(Sort(order), keys)
  {
    var sorted := Sort(order);
    EnumerationMultiset(order, keys);
    forall k: string ensures k in sorted <==> k in keys {
      assert k in sorted <==> k in multiset(sorted);
    }
    forall i, j | 0 <= i < j < |sorted| ensures sorted[i] != sorted[j] {
      if sorted[i] == sorted[j] {
        RepeatedCount(sorted, i, j);
      }
    }
  }

  /** Whatever order a hash map yields its keys in, the sorted list is the same. */
  lemma SortIgnoresOrder(order1: seq<string>, order2: seq<string>, keys: set<string>)
    requires Enumerates(order1, keys) && Enumerates(order2, keys)
    ensures Sort(order1) == Sort(order2)
  {
    EnumerationMultiset(order1, keys);
    EnumerationMultiset(order2, keys);
    SortSorted(order1);
    SortSorted(order2);
    SortedUnique(Sort(order1), Sort(order2));
  }

  lemma {:induction false} Enumerable(keys: set<string>)
    ensures exists order :: Enumerates(order, keys)
  {
    if keys == {} {
      assert Enumerates([], keys);
    } else {
      var k :| k in keys;
      Enumerable(keys - {k});
      var order :| Enumerates(order, keys - {k});
      assert Enumerates(order + [k], keys);
    }
  }

  /** The keys as an ordered map lists them. */
  ghost function SortedKeys(keys: set<string>): (r: seq<string>)
    ensures Enumerates(r, keys) && Sorted(r)
  {
    Enumerable(keys);
    var order :| Enumerates(order, keys);
    SortEnumerates(order, keys);
    SortSorted(order);
    Sort(order)
  }

  lemma SortIsSortedKeys(order: seq<string>, keys: set<string>)
    requires Enumerates(order, keys)
    ensures Sort(order) == SortedKeys(keys)
  {
    EnumerationMultiset(order, keys);
    EnumerationMultiset(SortedKeys(keys), keys);
    SortSorted(order);
    SortedUnique(Sort(order), SortedKeys(keys));
  }

  /** The order itself: `a` comes before `b` if it is a prefix of it in UTF-8, or
      smaller at the first byte at which they differ. */
  lemma {:induction false} LexExactly(a: Bytes, b: Bytes)
    ensures LexLeq(a, b) <==> a <= b || exists i :: 0 <= i < |a| && i < |b| && a[..i] == b[..i] && a[i] < b[i]
    decreases |a|
  {
    if a == [] || b == [] || a[0] != b[0] {
      if a != [] && b != [] && a[0] < b[0] {
        assert a[..0] == b[..0];
      }
    } else {
      LexExactly(a[1..], b[1..]);
      if a[1..] <= b[1..] {
        assert a == [a[0]] + a[1..] && b == [b[0]] + b[1..];
      }
      if a <= b {
        assert a[1..] == b[..|a|][1..] == b[1..][..|a| - 1];
      }
      forall i | 0 <= i < |a| - 1 && i < |b| - 1 && a[1..][..i] == b[1..][..i] && a[1..][i] < b[1..][i]
        ensures a[..i + 1] == b[..i + 1] && a[i + 1] < b[i + 1]
      {
        assert a[..i + 1] == [a[0]] + a[1..][..i] && b[..i + 1] == [b[0]] + b[1..][..i];
      }
      forall i | 0 < i < |a| && i < |b| && a[..i] == b[..i] && a[i] < b[i]
        ensures a[1..][..i - 1] == b[1..][..i - 1] && a[1..][i - 1] < b[1..][i - 1]
      {
        assert a[1..][..i - 1] == a[..i][1..] && b[1..][..i - 1] == b[..i][1..];
      }
    }
  }

  /** The keys of a map are listed strictly ascending in that order. */
  lemma SortedKeysAscend(keys: set<string>, i: nat, j: nat)
    requires i < j < |SortedKeys(keys)|
    ensures var a, b := Utf8.Encode(SortedKeys(keys)[i]), Utf8.Encode(SortedKeys(keys)[j]);
            && a != b
            && (a <= b || exists n :: 0 <= n < |a| && n < |b| && a[..n] == b[..n] && a[n] < b[n])
  {
    var x, y := SortedKeys(keys)[i], SortedKeys(keys)[j];
    assert Leq(x, y);
    hide LexLeq;
    LexExactly(Utf8.Encode(x), Utf8.Encode(y));
    if Utf8.Encode(x) == Utf8.Encode(y) {
      Utf8.EncodeInjective(x, y);
    }
  }
}
