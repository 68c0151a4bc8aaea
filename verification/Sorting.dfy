/** Stable sorting by a total preorder, as `sort_by` does it, and the order of strings. */
module Sorting {

  ghost predicate TotalPreorder<T(!new)>(le: (T, T) -> bool) {
    && (forall x, y :: le(x, y) || le(y, x))
    && (forall x, y, z :: le(x, y) && le(y, z) ==> le(x, z))
  }

  predicate Ordered<T>(le: (T, T) -> bool, xs: seq<T>) {
    forall i, j :: 0 <= i < j < |xs| ==> le(xs[i], xs[j])
  }

  /** `x` before the first element it is not above. */
  function Inserted<T>(le: (T, T) -> bool, x: T, xs: seq<T>): seq<T> {
    if xs == [] || le(x, xs[0]) then [x] + xs else [xs[0]] + Inserted(le, x, xs[1..])
  }

  function Sorted<T>(le: (T, T) -> bool, xs: seq<T>): seq<T> {
    if xs == [] then [] else Inserted(le, xs[0], Sorted(le, xs[1..]))
  }

  lemma {:induction false} InsertedElements<T>(le: (T, T) -> bool, x: T, xs: seq<T>)
    ensures multiset(Inserted(le, x, xs)) == multiset(xs) + multiset{x}
  {
    if xs != [] && !le(x, xs[0]) {
      assert xs == [xs[0]] + xs[1..];
      InsertedElements(le, x, xs[1..]);
    }
  }

  lemma {:induction false} InsertedKeeps<T(!new)>(le: (T, T) -> bool, x: T, xs: seq<T>)
    requires TotalPreorder(le) && Ordered(le, xs)
    ensures Ordered(le, Inserted(le, x, xs))
  {
    if xs != [] && !le(x, xs[0]) {
      InsertedKeeps(le, x, xs[1..]);
      InsertedElements(le, x, xs[1..]);
      var tail := Inserted(le, x, xs[1..]);
      forall y | y in tail ensures le(xs[0], y) {
        assert y in multiset(tail);
      }
    }
  }

  lemma {:induction false} SortedKeeps<T(!new)>(le: (T, T) -> bool, xs: seq<T>)
    requires TotalPreorder(le)
    ensures Ordered(le, Sorted(le, xs))
    ensures multiset(Sorted(le, xs)) == multiset(xs)
  {
    if xs != [] {
      assert xs == [xs[0]] + xs[1..];
      SortedKeeps(le, xs[1..]);
      InsertedKeeps(le, xs[0], Sorted(le, xs[1..]));
      InsertedElements(le, xs[0], Sorted(le, xs[1..]));
    }
  }

  /** The elements are the same, whatever their order. */
  lemma SortedElements<T(!new)>(le: (T, T) -> bool, xs: seq<T>)
    requires TotalPreorder(le)
    ensures forall x :: x in Sorted(le, xs) <==> x in xs
  {
    SortedKeeps(le, xs);
    forall x ensures x in Sorted(le, xs) <==> x in xs {
      assert x in multiset(Sorted(le, xs)) <==> x in multiset(xs);
    }
  }

  /** The order of strings by code point. */
  predicate StringLe(a: string, b: string) {
    a == "" || (b != "" && (a[0] < b[0] || (a[0] == b[0] && StringLe(a[1..], b[1..]))))
  }

  /** They agree up to some point, where `a` ends or has the lesser character. */
  predicate FirstDiffers(a: string, b: string, k: nat) {
    k <= |a| && k <= |b| && a[..k] == b[..k] && (k == |a| || (k < |b| && a[k] < b[k]))
  }

  lemma {:induction false} StringLeIff(a: string, b: string)
    ensures StringLe(a, b) <==> exists k: nat :: FirstDiffers(a, b, k)
  {
    if a == "" {
      assert FirstDiffers(a, b, 0);
    } else if b != "" {
      StringLeIff(a[1..], b[1..]);
      assert a == [a[0]] + a[1..] && b == [b[0]] + b[1..];
      if a[0] < b[0] {
        assert FirstDiffers(a, b, 0);
      } else if a[0] == b[0] && StringLe(a[1..], b[1..]) {
        var k: nat :| FirstDiffers(a[1..], b[1..], k);
        assert a[..k + 1] == [a[0]] + a[1..][..k] && b[..k + 1] == [b[0]] + b[1..][..k];
        assert FirstDiffers(a, b, k + 1);
      }
      if k: nat :| FirstDiffers(a, b, k) {
        if k > 0 {
          assert a[..k][0] == a[0] && b[..k][0] == b[0];
          assert a[1..][..k - 1] == a[..k][1..] && b[1..][..k - 1] == b[..k][1..];
          assert FirstDiffers(a[1..], b[1..], k - 1);
        }
      }
    }
  }

  lemma {:induction false} StringLeTotal(a: string, b: string)
    ensures StringLe(a, b) || StringLe(b, a)
    ensures StringLe(a, b) && StringLe(b, a) ==> a == b
  {
    if a != "" && b != "" {
      assert a == [a[0]] + a[1..] && b == [b[0]] + b[1..];
      StringLeTotal(a[1..], b[1..]);
    }
  }

  lemma {:induction false} StringLeTransitive(a: string, b: string, c: string)
    requires StringLe(a, b) && StringLe(b, c)
    ensures StringLe(a, c)
  {
    if a != "" && a[0] == b[0] && b[0] == c[0] {
      StringLeTransitive(a[1..], b[1..], c[1..]);
    }
  }

  lemma StringOrder()
    ensures forall a, b :: StringLe(a, b) || StringLe(b, a)
    ensures forall a, b, c :: StringLe(a, b) && StringLe(b, c) ==> StringLe(a, c)
  {
    forall a: string, b: string ensures StringLe(a, b) || StringLe(b, a) { StringLeTotal(a, b); }
    forall a: string, b: string, c: string | StringLe(a, b) && StringLe(b, c) ensures StringLe(a, c) {
      StringLeTransitive(a, b, c);
    }
  }
}
