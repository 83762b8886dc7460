/** The order of Rust's `str::cmp`, lists sorted by it, and stable sorting by any weak order. */
module Ordering {

  predicate Leq(a: string, b: string) {
    a == "" || (b != "" && (a[0] < b[0] || (a[0] == b[0] && Leq(a[1..], b[1..]))))
  }

  lemma {:induction false} LeqTotal(a: string, b: string)
    ensures Leq(a, b) || Leq(b, a)
  {
    if a != "" && b != "" {
      LeqTotal(a[1..], b[1..]);
    }
  }

  lemma {:induction false} LeqAntisymmetric(a: string, b: string)
    requires Leq(a, b) && Leq(b, a)
    ensures a == b
  {
    if a != "" && b != "" {
      LeqAntisymmetric(a[1..], b[1..]);
      assert a == [a[0]] + a[1..] && b == [b[0]] + b[1..];
    }
  }

  lemma {:induction false} LeqTransitive(a: string, b: string, c: string)
    requires Leq(a, b) && Leq(b, c)
    ensures Leq(a, c)
  {
    if a != "" && a[0] == b[0] == c[0] {
      LeqTransitive(a[1..], b[1..], c[1..]);
    }
  }

  predicate Less(a: string, b: string) {
    a != b && Leq(a, b)
  }

  lemma LessTransitive(a: string, b: string, c: string)
    requires Less(a, b) && Less(b, c)
    ensures Less(a, c)
  {
    LeqTransitive(a, b, c);
    if a == c {
      LeqAntisymmetric(a, b);
    }
  }

  ghost predicate Sorted(xs: seq<string>) {
    forall i, j :: 0 <= i < j < |xs| ==> Less(xs[i], xs[j])
  }

  function Members(xs: seq<string>): set<string> {
    set x | x in xs
  }

  function InsertSorted(xs: seq<string>, u: string): seq<string> {
    if xs == [] || Leq(u, xs[0]) then [u] + xs else [xs[0]] + InsertSorted(xs[1..], u)
  }

  lemma {:induction false} InsertSortedFacts(xs: seq<string>, u: string)
    requires Sorted(xs) && u !in xs
    ensures Sorted(InsertSorted(xs, u))
    ensures Members(InsertSorted(xs, u)) == Members(xs) + {u}
  {
    if xs == [] {
    } else if Leq(u, xs[0]) {
      var r := [u] + xs;
      forall i, j | 0 <= i < j < |r| ensures Less(r[i], r[j]) {
        if i == 0 && j > 1 {
          assert Less(xs[0], xs[j - 1]);
          LessTransitive(u, xs[0], xs[j - 1]);
        }
      }
    } else {
      LeqTotal(u, xs[0]);
      var tail := InsertSorted(xs[1..], u);
      InsertSortedFacts(xs[1..], u);
      var r := [xs[0]] + tail;
      forall i, j | 0 <= i < j < |r| ensures Less(r[i], r[j]) {
        if i == 0 {
          assert tail[j - 1] in Members(tail);
          if tail[j - 1] != u {
            assert tail[j - 1] in xs[1..];
          }
        }
      }
      assert Members(xs) == {xs[0]} + Members(xs[1..]);
      assert Members(r) == {xs[0]} + Members(tail);
    }
  }

  /** A set has only one sorted listing. */
  lemma {:induction false} SortedUnique(xs: seq<string>, ys: seq<string>)
    requires Sorted(xs) && Sorted(ys) && Members(xs) == Members(ys)
    ensures xs == ys
  {
    MembersCount(xs);
    MembersCount(ys);
    if xs != [] {
      assert xs[0] in Members(xs) && xs[0] in ys;
      assert ys[0] in Members(ys) && ys[0] in xs;
      if xs[0] != ys[0] {
        assert Less(xs[0], ys[0]) && Less(ys[0], xs[0]);
        LeqAntisymmetric(xs[0], ys[0]);
      }
      TailMembers(xs);
      TailMembers(ys);
      SortedUnique(xs[1..], ys[1..]);
    }
  }

  lemma TailMembers(xs: seq<string>)
    requires Sorted(xs) && xs != []
    ensures Members(xs[1..]) == Members(xs) - {xs[0]}
  {
    forall x | x in Members(xs) - {xs[0]} ensures x in xs[1..] {
      var i :| 0 <= i < |xs| && xs[i] == x;
      assert xs[1..][i - 1] == x;
    }
    forall x | x in xs[1..] ensures x in Members(xs) - {xs[0]} {
      var i :| 0 <= i < |xs| - 1 && xs[1..][i] == x;
      assert xs[i + 1] == x && Less(xs[0], xs[i + 1]);
    }
  }

  lemma {:induction false} MembersCount(xs: seq<string>)
    requires Sorted(xs)
    ensures |Members(xs)| == |xs|
  {
    if xs != [] {
      TailMembers(xs);
      MembersCount(xs[1..]);
      assert Members(xs) == Members(xs[1..]) + {xs[0]};
    }
  }

  lemma {:induction false} ListingExists(keys: set<string>)
    ensures exists xs :: Sorted(xs) && Members(xs) == keys
    decreases |keys|
  {
    if keys == {} {
      assert Sorted([]) && Members([]) == keys;
    } else {
      var u :| u in keys;
      ListingExists(keys - {u});
      var xs :| Sorted(xs) && Members(xs) == keys - {u};
      assert u !in Members(xs);
      InsertSortedFacts(xs, u);
      assert Members(InsertSorted(xs, u)) == keys;
    }
  }

  /** The sorted listing of a set. */
  ghost function Listing(keys: set<string>): (xs: seq<string>)
    ensures Sorted(xs) && Members(xs) == keys && |xs| == |keys|
  {
    ListingExists(keys);
    var xs :| Sorted(xs) && Members(xs) == keys;
    MembersCount(xs);
    xs
  }

  lemma NotLessTransitive(a: string, b: string, c: string)
    requires !Less(b, a) && !Less(c, b)
    ensures !Less(c, a)
    ensures a == c ==> a == b
  {
    LeqTotal(a, b);
    LeqTotal(b, c);
    LeqTransitive(a, b, c);
    if Leq(c, a) {
      LeqAntisymmetric(a, c);
      LeqAntisymmetric(a, b);
    }
  }

  lemma NotLessBothWays(a: string, b: string)
    requires Less(a, b)
    ensures !Less(b, a)
  {
    if Less(b, a) {
      LeqAntisymmetric(a, b);
    }
  }

  // ---------------------------------------------------------------- stable sorting

  function InsertStable<T>(before: (T, T) -> bool, xs: seq<T>, x: T): seq<T> {
    if xs == [] then [x]
    else if before(x, xs[0]) then [x] + xs
    else [xs[0]] + InsertStable(before, xs[1..], x)
  }

  function SortStable<T>(before: (T, T) -> bool, xs: seq<T>): seq<T> {
    if xs == [] then [] else InsertStable(before, SortStable(before, xs[..|xs| - 1]), xs[|xs| - 1])
  }

  ghost predicate InOrder<T>(before: (T, T) -> bool, xs: seq<T>) {
    forall i, j :: 0 <= i < j < |xs| ==> !before(xs[j], xs[i])
  }

  /** "Not after" is transitive and "before" excludes its converse. */
  ghost predicate WeakOrder<T(!new)>(before: (T, T) -> bool) {
    && (forall a, b, c :: !before(b, a) && !before(c, b) ==> !before(c, a))
    && (forall a, b :: before(a, b) ==> !before(b, a))
  }

  lemma {:induction false} InsertStableFacts<T(!new)>(before: (T, T) -> bool, xs: seq<T>, x: T)
    requires WeakOrder(before) && InOrder(before, xs)
    ensures InOrder(before, InsertStable(before, xs, x))
    ensures multiset(InsertStable(before, xs, x)) == multiset(xs) + multiset{x}
  {
    var r := InsertStable(before, xs, x);
    if xs != [] {
      assert xs == [xs[0]] + xs[1..];
      if before(x, xs[0]) {
        forall i, j | 0 <= i < j < |r| ensures !before(r[j], r[i]) {
          if i == 0 && j > 1 {
            assert !before(xs[j - 1], xs[0]) && !before(xs[0], x);
          }
        }
      } else {
        var tail := InsertStable(before, xs[1..], x);
        InsertStableFacts(before, xs[1..], x);
        forall i, j | 0 <= i < j < |r| ensures !before(r[j], r[i]) {
          if i == 0 {
            assert tail[j - 1] in multiset(tail);
            assert tail[j - 1] == x || tail[j - 1] in xs[1..];
          }
        }
      }
    }
  }

  lemma {:induction false} SortStableFacts<T(!new)>(before: (T, T) -> bool, xs: seq<T>)
    requires WeakOrder(before)
    ensures InOrder(before, SortStable(before, xs))
    ensures multiset(SortStable(before, xs)) == multiset(xs)
  {
    if xs != [] {
      var front, x := xs[..|xs| - 1], xs[|xs| - 1];
      SortStableFacts(before, front);
      InsertStableFacts(before, SortStable(before, front), x);
      assert xs == front + [x];
    }
  }
}
