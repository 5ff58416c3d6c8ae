/**
 * The stable sort behind `List.sort` as the move orderings use it.
 *
 * Every ordering compares moves by an integer pair: (row, col) for the
 * default ordering, (distance, 0) for centre-first and (-score, 0) for the
 * heuristic ordering. Elements are moves tagged with that key. The sort
 * keeps elements with equal keys in their input order, as `List.sort`
 * promises; since a stable sort's result is unique (`StableSortUnique`),
 * the algorithm chosen here, insertion from the back, is immaterial.
 */
module Sorting {
  import opened Positions

  datatype Key = Key(major: int, minor: int)

  /** A move together with the key its comparator reads. */
  datatype Keyed = Keyed(move: Position, key: Key)

  /** The comparator's strict order: lexicographic on (major, minor). */
  predicate Less(a: Key, b: Key) {
    a.major < b.major || (a.major == b.major && a.minor < b.minor)
  }

  predicate LessEq(a: Key, b: Key) {
    Less(a, b) || a == b
  }

  predicate Sorted(s: seq<Keyed>) {
    forall i, j :: 0 <= i < j < |s| ==> LessEq(s[i].key, s[j].key)
  }

  /** The elements of `s` whose key is `k`, in order. */
  function WithKey(s: seq<Keyed>, k: Key): (r: seq<Keyed>)
    ensures |r| <= |s|
  {
    if s == [] then []
    else (if s[0].key == k then [s[0]] else []) + WithKey(s[1..], k)
  }

  /** `WithKey` keeps exactly the elements carrying the key. */
  lemma {:induction false} WithKeyMembers(s: seq<Keyed>, k: Key, x: Keyed)
    ensures x in WithKey(s, k) <==> x in s && x.key == k
  {
    if s != [] {
      WithKeyMembers(s[1..], k, x);
      assert s == [s[0]] + s[1..];
    }
  }

  /** Insert `x` in front of the first element whose key is not smaller than its own. */
  function Insert(x: Keyed, s: seq<Keyed>): (r: seq<Keyed>)
    ensures |r| == |s| + 1
  {
    if s == [] then [x]
    else if LessEq(x.key, s[0].key) then [x] + s
    else [s[0]] + Insert(x, s[1..])
  }

  /** Sort `s` stably: sort the tail, then insert the head in front of its equals. */
  function SortBy(s: seq<Keyed>): (r: seq<Keyed>)
    ensures |r| == |s|
  {
    if s == [] then [] else Insert(s[0], SortBy(s[1..]))
  }

  function Moves(s: seq<Keyed>): (r: seq<Position>)
    ensures |r| == |s|
    ensures forall i :: 0 <= i < |s| ==> r[i] == s[i].move
  {
    if s == [] then [] else [s[0].move] + Moves(s[1..])
  }

  // ---------------------------------------------------------------------------
  // Insert

  lemma {:induction false} InsertPermutation(x: Keyed, s: seq<Keyed>)
    ensures multiset(Insert(x, s)) == multiset(s) + multiset{x}
  {
    if s != [] && !LessEq(x.key, s[0].key) {
      InsertPermutation(x, s[1..]);
      assert s == [s[0]] + s[1..];
    }
  }

  lemma {:induction false} InsertSorted(x: Keyed, s: seq<Keyed>)
    requires Sorted(s)
    ensures Sorted(Insert(x, s))
  {
    if s != [] && !LessEq(x.key, s[0].key) {
      InsertSorted(x, s[1..]);
      InsertPermutation(x, s[1..]);
      var r := Insert(x, s[1..]);
      forall j | 0 <= j < |r|
        ensures LessEq(s[0].key, r[j].key)
      {
        assert r[j] in multiset(r);
        if r[j] != x {
          assert r[j] in multiset(s[1..]);
          var q :| 0 <= q < |s[1..]| && s[1..][q] == r[j];
          assert s[q + 1] == r[j];
        }
      }
    }
  }

  /** `x` lands in front of every element with its own key, so those keep their order behind it. */
  lemma {:induction false} InsertWithKey(x: Keyed, s: seq<Keyed>, k: Key)
    ensures WithKey(Insert(x, s), k) == (if x.key == k then [x] else []) + WithKey(s, k)
  {
    if s == [] {
    } else if LessEq(x.key, s[0].key) {
      assert ([x] + s)[1..] == s;
    } else {
      InsertWithKey(x, s[1..], k);
      assert ([s[0]] + Insert(x, s[1..]))[1..] == Insert(x, s[1..]);
    }
  }

  /** Inserting an element no greater than the head puts it first. */
  lemma InsertFront(x: Keyed, s: seq<Keyed>)
    requires s == [] || LessEq(x.key, s[0].key)
    ensures Insert(x, s) == [x] + s
  {
  }

  lemma MovesCons(x: Keyed, s: seq<Keyed>)
    ensures Moves([x] + s) == [x.move] + Moves(s)
  {
    assert ([x] + s)[1..] == s;
  }

  lemma {:induction false} InsertMovesPermutation(x: Keyed, s: seq<Keyed>)
    ensures multiset(Moves(Insert(x, s))) == multiset(Moves(s)) + multiset{x.move}
  {
    if s == [] {
    } else if LessEq(x.key, s[0].key) {
      MovesCons(x, s);
    } else {
      var r := Insert(x, s[1..]);
      InsertMovesPermutation(x, s[1..]);
      MovesCons(s[0], r);
      assert Moves(Insert(x, s)) == [s[0].move] + Moves(r);
      assert Moves(s) == [s[0].move] + Moves(s[1..]);
      assert multiset(Moves(Insert(x, s))) == multiset{s[0].move} + multiset(Moves(r));
      assert multiset(Moves(s)) == multiset{s[0].move} + multiset(Moves(s[1..]));
    }
  }

  // ---------------------------------------------------------------------------
  // SortBy

  /** The moves that come out are the moves that went in, with their multiplicity. */
  lemma {:induction false} SortByMovesPermutation(s: seq<Keyed>)
    ensures multiset(Moves(SortBy(s))) == multiset(Moves(s))
  {
    if s != [] {
      SortByMovesPermutation(s[1..]);
      InsertMovesPermutation(s[0], SortBy(s[1..]));
      MovesCons(s[0], s[1..]);
      assert s == [s[0]] + s[1..];
    }
  }

  /** The sort only reorders: every element is kept, with its multiplicity. */
  lemma {:induction false} SortByPermutation(s: seq<Keyed>)
    ensures multiset(SortBy(s)) == multiset(s)
  {
    if s != [] {
      SortByPermutation(s[1..]);
      InsertPermutation(s[0], SortBy(s[1..]));
      assert s == [s[0]] + s[1..];
    }
  }

  lemma {:induction false} SortBySorted(s: seq<Keyed>)
    ensures Sorted(SortBy(s))
  {
    if s != [] {
      SortBySorted(s[1..]);
      InsertSorted(s[0], SortBy(s[1..]));
    }
  }

  /** Stability: for every key, the elements carrying it come out in their input order. */
  lemma {:induction false} SortByStable(s: seq<Keyed>, k: Key)
    ensures WithKey(SortBy(s), k) == WithKey(s, k)
  {
    if s != [] {
      SortByStable(s[1..], k);
      InsertWithKey(s[0], SortBy(s[1..]), k);
    }
  }

  /** Sorting a sorted sequence changes nothing. */
  lemma {:induction false} SortBySortedIdentity(s: seq<Keyed>)
    requires Sorted(s)
    ensures SortBy(s) == s
  {
    if s != [] {
      assert Sorted(s[1..]);
      SortBySortedIdentity(s[1..]);
      InsertFront(s[0], s[1..]);
      assert [s[0]] + s[1..] == s;
    }
  }

  /** Sorting twice is sorting once. */
  lemma SortByIdempotent(s: seq<Keyed>)
    ensures SortBy(SortBy(s)) == SortBy(s)
  {
    SortBySorted(s);
    SortBySortedIdentity(SortBy(s));
  }

  /** The head of a sorted sequence has the least key. */
  lemma SortedHeadLeast(s: seq<Keyed>, x: Keyed)
    requires Sorted(s) && x in s
    ensures LessEq(s[0].key, x.key)
  {
    var i :| 0 <= i < |s| && s[i] == x;
    if i > 0 {
      assert LessEq(s[0].key, s[i].key);
    }
  }

  /** The heads of two sorted sequences holding the same elements per key coincide. */
  lemma SameHead(a: seq<Keyed>, b: seq<Keyed>)
    requires Sorted(a) && Sorted(b) && a != [] && b != []
    requires WithKey(a, a[0].key) == WithKey(b, a[0].key)
    requires WithKey(a, b[0].key) == WithKey(b, b[0].key)
    ensures a[0] == b[0]
  {
    var ka, kb := a[0].key, b[0].key;
    WithKeyMembers(a, ka, a[0]);
    WithKeyMembers(b, ka, a[0]);
    WithKeyMembers(b, kb, b[0]);
    WithKeyMembers(a, kb, b[0]);
    SortedHeadLeast(b, a[0]);
    SortedHeadLeast(a, b[0]);
    assert ka == kb;
    assert WithKey(a, ka)[0] == a[0];
    assert WithKey(b, kb)[0] == b[0];
  }

  /** A sequence's head is among the elements carrying its key, so that list is not empty. */
  lemma HeadHasKey(s: seq<Keyed>)
    ensures s != [] ==> WithKey(s, s[0].key) != []
  {
  }

  /** Dropping equal heads keeps the elements per key equal. */
  lemma WithKeyTail(a: seq<Keyed>, b: seq<Keyed>, k: Key)
    requires a != [] && b != [] && a[0] == b[0]
    requires WithKey(a, k) == WithKey(b, k)
    ensures WithKey(a[1..], k) == WithKey(b[1..], k)
  {
    var h := if a[0].key == k then [a[0]] else [];
    assert WithKey(a, k) == h + WithKey(a[1..], k);
    assert WithKey(b, k) == h + WithKey(b[1..], k);
    assert (h + WithKey(a[1..], k))[|h|..] == WithKey(a[1..], k);
    assert (h + WithKey(b[1..], k))[|h|..] == WithKey(b[1..], k);
  }

  /**
   * Two sorted sequences that agree on the elements of every key, in order,
   * are equal: a stable sort has exactly one possible result.
   */
  lemma {:induction false} SortedUnique(a: seq<Keyed>, b: seq<Keyed>)
    requires Sorted(a) && Sorted(b)
    requires forall k :: WithKey(a, k) == WithKey(b, k)
    ensures a == b
    decreases |a| + |b|
  {
    HeadHasKey(a);
    HeadHasKey(b);
    if a != [] && b != [] {
      SameHead(a, b);
      forall k
        ensures WithKey(a[1..], k) == WithKey(b[1..], k)
      {
        WithKeyTail(a, b, k);
      }
      assert Sorted(a[1..]) && Sorted(b[1..]);
      SortedUnique(a[1..], b[1..]);
      assert a == [a[0]] + a[1..];
      assert b == [b[0]] + b[1..];
    }
  }

  /** Any sorted result that is stable for every key is the one `SortBy` gives. */
  lemma StableSortUnique(s: seq<Keyed>, r: seq<Keyed>)
    requires Sorted(r)
    requires forall k :: WithKey(r, k) == WithKey(s, k)
    ensures r == SortBy(s)
  {
    SortBySorted(s);
    forall k
      ensures WithKey(r, k) == WithKey(SortBy(s), k)
    {
      SortByStable(s, k);
    }
    SortedUnique(r, SortBy(s));
  }

  // ---------------------------------------------------------------------------
  // The in-place sort

  /** Where `Insert(x, s)` puts `x` in a sorted `s`: after the q elements smaller than it. */
  lemma {:induction false} InsertAt(x: Keyed, s: seq<Keyed>, q: nat)
    requires q <= |s|
    requires forall i :: 0 <= i < q ==> !LessEq(x.key, s[i].key)
    requires q == |s| || LessEq(x.key, s[q].key)
    ensures Insert(x, s) == s[..q] + [x] + s[q..]
  {
    if q > 0 {
      InsertAt(x, s[1..], q - 1);
      assert s[1..][..q - 1] == s[1..q];
      assert s[1..][q - 1..] == s[q..];
      assert [s[0]] + (s[1..q] + [x] + s[q..]) == s[..q] + [x] + s[q..];
    }
  }

  /** Move `a[i]` forward past the smaller elements of the sorted run `a[i+1..]`. */
  method InsertInto(a: array<Keyed>, i: nat)
    requires i < a.Length
    modifies a
    ensures a[..i] == old(a[..i])
    ensures a[i..] == Insert(old(a[i]), old(a[i + 1..]))
  {
    var n := a.Length;
    var x := a[i];
    ghost var sorted := a[i + 1..];
    var j := i;
    while j + 1 < n && !LessEq(x.key, a[j + 1].key)
      invariant i <= j < n
      invariant a[..i] == old(a[..i])
      invariant a[i..j] == sorted[..j - i]
      invariant a[j + 1..] == sorted[j - i..]
      invariant forall t :: 0 <= t < j - i ==> !LessEq(x.key, sorted[t].key)
    {
      a[j] := a[j + 1];
      j := j + 1;
    }
    a[j] := x;
    InsertAt(x, sorted, j - i);
    assert a[i..] == sorted[..j - i] + [x] + sorted[j - i..];
  }

  /**
   * `List.sort` on the copied list: an insertion sort working from the back,
   * each step inserting one element into the sorted suffix behind it.
   */
  method StableSort(a: array<Keyed>)
    modifies a
    ensures a[..] == SortBy(old(a[..]))
  {
    ghost var input := a[..];
    var i := a.Length;
    while i > 0
      invariant 0 <= i <= a.Length
      invariant a[..i] == input[..i]
      invariant a[i..] == SortBy(input[i..])
    {
      i := i - 1;
      assert input[i..] == [input[i]] + input[i + 1..];
      InsertInto(a, i);
    }
  }
}
