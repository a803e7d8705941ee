/**
 * Sorting by a comparator, as `java.util.Collections.sort` does it.
 *
 * `Collections.sort` is a stable sort. The insertion sort below is one too (`SortByIsStable`): it
 * orders by the comparator and keeps entries the comparator cannot tell apart in input order,
 * which is all the JDK's merge sort promises, so both give the same list.
 */
module Sorting {

  /** A comparator seen as "less than or equal": a total preorder. */
  ghost predicate TotalPreorder<T(!new)>(le: (T, T) -> bool) {
    && (forall x, y :: le(x, y) || le(y, x))
    && (forall x, y, z :: le(x, y) && le(y, z) ==> le(x, z))
  }

  /** Every pair of neighbours is in order. */
  ghost predicate SortedBy<T>(le: (T, T) -> bool, s: seq<T>) {
    forall i :: 0 <= i < |s| - 1 ==> le(s[i], s[i + 1])
  }

  /** Every pair, not only neighbours, is in order. */
  ghost predicate PairwiseSortedBy<T>(le: (T, T) -> bool, s: seq<T>) {
    forall i, j :: 0 <= i < j < |s| ==> le(s[i], s[j])
  }

  /** Puts `x` in front of the first element it is not greater than. */
  function Insert<T>(le: (T, T) -> bool, x: T, s: seq<T>): seq<T> {
    if s == [] || le(x, s[0]) then [x] + s else [s[0]] + Insert(le, x, s[1..])
  }

  /** Stable insertion sort: the first element is inserted into the sorted rest. */
  function SortBy<T>(le: (T, T) -> bool, s: seq<T>): seq<T> {
    if s == [] then [] else Insert(le, s[0], SortBy(le, s[1..]))
  }

  lemma {:induction false} InsertFacts<T>(le: (T, T) -> bool, x: T, s: seq<T>)
    ensures multiset(Insert(le, x, s)) == multiset(s) + multiset{x}
    ensures |Insert(le, x, s)| == |s| + 1
    ensures Insert(le, x, s)[0] == x || (s != [] && Insert(le, x, s)[0] == s[0])
  {
    if s != [] && !le(x, s[0]) {
      InsertFacts(le, x, s[1..]);
      assert s == [s[0]] + s[1..];
    }
  }

  lemma {:induction false} InsertSorted<T(!new)>(le: (T, T) -> bool, x: T, s: seq<T>)
    requires TotalPreorder(le)
    requires SortedBy(le, s)
    ensures SortedBy(le, Insert(le, x, s))
  {
    if s != [] && !le(x, s[0]) {
      assert le(s[0], x);
      InsertSorted(le, x, s[1..]);
      InsertFacts(le, x, s[1..]);
      var t := Insert(le, x, s[1..]);
      assert t[0] == x || t[0] == s[1];
    }
  }

  /** The sorted list is a permutation of the input, in comparator order. */
  lemma {:induction false} SortByCorrect<T(!new)>(le: (T, T) -> bool, s: seq<T>)
    requires TotalPreorder(le)
    ensures SortedBy(le, SortBy(le, s))
    ensures multiset(SortBy(le, s)) == multiset(s)
    ensures |SortBy(le, s)| == |s|
  {
    if s != [] {
      SortByCorrect(le, s[1..]);
      InsertSorted(le, s[0], SortBy(le, s[1..]));
      InsertFacts(le, s[0], SortBy(le, s[1..]));
      assert s == [s[0]] + s[1..];
    }
  }

  /** Under a transitive comparator, neighbour order gives order of every pair. */
  lemma {:induction false} SortedIsPairwise<T(!new)>(le: (T, T) -> bool, s: seq<T>)
    requires TotalPreorder(le)
    requires SortedBy(le, s)
    ensures PairwiseSortedBy(le, s)
  {
    forall i, j | 0 <= i < j < |s| ensures le(s[i], s[j]) {
      var k := i;
      while k < j
        invariant i <= k <= j
        invariant le(s[i], s[k])
      {
        k := k + 1;
      }
    }
  }

  /** Input that is already in order comes back unchanged. */
  lemma {:induction false} SortBySortedIsIdentity<T(!new)>(le: (T, T) -> bool, s: seq<T>)
    requires SortedBy(le, s)
    ensures SortBy(le, s) == s
  {
    if s != [] {
      SortBySortedIsIdentity(le, s[1..]);
      assert s == [s[0]] + s[1..];
    }
  }

  /** The elements of `s` that the comparator cannot tell apart from `k`, in their order in `s`. */
  function EquivalentTo<T>(le: (T, T) -> bool, k: T, s: seq<T>): seq<T> {
    if s == [] then []
    else (if le(s[0], k) && le(k, s[0]) then [s[0]] else []) + EquivalentTo(le, k, s[1..])
  }

  /**
   * Inserting `x` puts it in front of every element equivalent to it, so among the elements
   * equivalent to any `k` it comes first.
   */
  lemma {:induction false} InsertKeepsEquivalentOrder<T(!new)>(le: (T, T) -> bool, k: T, x: T, s: seq<T>)
    requires TotalPreorder(le)
    ensures EquivalentTo(le, k, Insert(le, x, s)) == EquivalentTo(le, k, [x]) + EquivalentTo(le, k, s)
  {
    assert [x][1..] == [];
    if s == [] || le(x, s[0]) {
      assert ([x] + s)[1..] == s;
    } else {
      InsertKeepsEquivalentOrder(le, k, x, s[1..]);
      var t := Insert(le, x, s[1..]);
      assert ([s[0]] + t)[1..] == t;
      assert !(le(x, k) && le(k, x) && le(s[0], k) && le(k, s[0]));
    }
  }

  /** The sort is stable: elements the comparator cannot tell apart keep their input order. */
  lemma {:induction false} SortByIsStable<T(!new)>(le: (T, T) -> bool, k: T, s: seq<T>)
    requires TotalPreorder(le)
    ensures EquivalentTo(le, k, SortBy(le, s)) == EquivalentTo(le, k, s)
  {
    if s != [] {
      var rest := SortBy(le, s[1..]);
      SortByIsStable(le, k, s[1..]);
      InsertKeepsEquivalentOrder(le, k, s[0], rest);
      assert [s[0]][1..] == [];
      assert EquivalentTo(le, k, [s[0]]) == (if le(s[0], k) && le(k, s[0]) then [s[0]] else []);
      assert EquivalentTo(le, k, s)
          == (if le(s[0], k) && le(k, s[0]) then [s[0]] else []) + EquivalentTo(le, k, s[1..]);
    }
  }
}
