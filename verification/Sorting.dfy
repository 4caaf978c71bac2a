/** Sorting that keeps the order of what the comparison does not tell apart. */
module Sorting {

  /** `x` in front of the first element it need not come after. */
  function Inserted<T>(notAfter: (T, T) -> bool, x: T, s: seq<T>): seq<T> {
    if s == [] || notAfter(x, s[0]) then [x] + s else [s[0]] + Inserted(notAfter, x, s[1..])
  }

  function Sorted<T>(notAfter: (T, T) -> bool, s: seq<T>): seq<T> {
    if s == [] then [] else Inserted(notAfter, s[0], Sorted(notAfter, s[1..]))
  }

  ghost predicate Ordered<T>(notAfter: (T, T) -> bool, s: seq<T>) {
    forall i, j :: 0 <= i < j < |s| ==> notAfter(s[i], s[j])
  }

  /** A comparison that sorts: of any two one comes first, and it is transitive. */
  ghost predicate Compares<T(!new)>(notAfter: (T, T) -> bool) {
    && (forall x, y :: notAfter(x, y) || notAfter(y, x))
    && forall x, y, z {:trigger notAfter(x, y), notAfter(y, z)} :: notAfter(x, y) && notAfter(y, z) ==> notAfter(x, z)
  }

  lemma {:induction false} InsertedPermutes<T>(notAfter: (T, T) -> bool, x: T, s: seq<T>)
    ensures multiset(Inserted(notAfter, x, s)) == multiset(s) + multiset{x}
  {
    if s != [] && !notAfter(x, s[0]) {
      InsertedPermutes(notAfter, x, s[1..]);
      assert s == [s[0]] + s[1..];
    }
  }

  lemma {:induction false} InsertedIsOrdered<T(!new)>(notAfter: (T, T) -> bool, x: T, s: seq<T>)
    requires Compares(notAfter) && Ordered(notAfter, s)
    ensures Ordered(notAfter, Inserted(notAfter, x, s))
  {
    if s == [] || notAfter(x, s[0]) {
      forall k | 0 <= k < |s| ensures notAfter(x, s[k]) {
        assert k > 0 ==> notAfter(s[0], s[k]);
      }
    } else {
      InsertedIsOrdered(notAfter, x, s[1..]);
      InsertedPermutes(notAfter, x, s[1..]);
      var rest := Inserted(notAfter, x, s[1..]);
      forall k | 0 <= k < |rest| ensures notAfter(s[0], rest[k]) {
        assert rest[k] in multiset(rest);
        assert rest[k] in s[1..] || rest[k] == x;
      }
    }
  }

  /** The sort is a permutation, in order. */
  lemma {:induction false} SortedIsOrdered<T(!new)>(notAfter: (T, T) -> bool, s: seq<T>)
    requires Compares(notAfter)
    ensures Ordered(notAfter, Sorted(notAfter, s)) && multiset(Sorted(notAfter, s)) == multiset(s)
  {
    if s != [] {
      SortedIsOrdered(notAfter, s[1..]);
      InsertedIsOrdered(notAfter, s[0], Sorted(notAfter, s[1..]));
      InsertedPermutes(notAfter, s[0], Sorted(notAfter, s[1..]));
      assert s == [s[0]] + s[1..];
    }
  }
}
