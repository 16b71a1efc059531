/**
 * Stable sorting by a two-level key, the semantics of `Array.prototype.sort`
 * with a comparator and of a MongoDB `sort` over a collection in natural order.
 * A comparator such as `(a, b) => a.order - b.order` or a sort specification
 * `{ priority: -1, order: 1 }` becomes a key function into `Rank`.
 */
module Sorting {

  /** A sort key compared lexicographically: `major` first, then `minor`. */
  datatype Rank = Rank(major: int, minor: int)

  predicate RankLe(a: Rank, b: Rank) {
    a.major < b.major || (a.major == b.major && a.minor <= b.minor)
  }

  predicate SortedBy<T>(s: seq<T>, key: T -> Rank) {
    forall i, j :: 0 <= i < j < |s| ==> RankLe(key(s[i]), key(s[j]))
  }

  /** Places `x` after every element of `s` whose rank is at most x's: ties keep arrival order. */
  function Insert<T>(s: seq<T>, x: T, key: T -> Rank): seq<T> {
    if s == [] then [x]
    else if RankLe(key(s[|s| - 1]), key(x)) then s + [x]
    else Insert(s[..|s| - 1], x, key) + [s[|s| - 1]]
  }

  /** Stable insertion sort, inserting the elements from first to last. */
  function Sort<T>(s: seq<T>, key: T -> Rank): seq<T> {
    if s == [] then [] else Insert(Sort(s[..|s| - 1], key), s[|s| - 1], key)
  }

  lemma {:induction false} InsertPermutes<T>(s: seq<T>, x: T, key: T -> Rank)
    ensures |Insert(s, x, key)| == |s| + 1
    ensures multiset(Insert(s, x, key)) == multiset(s) + multiset{x}
  {
    if s != [] && !RankLe(key(s[|s| - 1]), key(x)) {
      var front := s[..|s| - 1];
      InsertPermutes(front, x, key);
      assert s == front + [s[|s| - 1]];
    }
  }

  lemma {:induction false} InsertKeepsSorted<T>(s: seq<T>, x: T, key: T -> Rank)
    requires SortedBy(s, key)
    ensures SortedBy(Insert(s, x, key), key)
  {
    if s != [] && !RankLe(key(s[|s| - 1]), key(x)) {
      var front := s[..|s| - 1];
      var last := s[|s| - 1];
      assert SortedBy(front, key);
      InsertKeepsSorted(front, x, key);
      InsertPermutes(front, x, key);
      var inner := Insert(front, x, key);
      forall k | 0 <= k < |inner| ensures RankLe(key(inner[k]), key(last)) {
        assert inner[k] in multiset(inner);
        assert inner[k] == x || inner[k] in multiset(front);
      }
      assert Insert(s, x, key) == inner + [last];
    }
  }

  /** The stable sort yields a sorted permutation of its input. */
  lemma {:induction false} SortPermutesAndOrders<T>(s: seq<T>, key: T -> Rank)
    ensures |Sort(s, key)| == |s|
    ensures multiset(Sort(s, key)) == multiset(s)
    ensures SortedBy(Sort(s, key), key)
  {
    if s != [] {
      var front := s[..|s| - 1];
      SortPermutesAndOrders(front, key);
      InsertPermutes(Sort(front, key), s[|s| - 1], key);
      InsertKeepsSorted(Sort(front, key), s[|s| - 1], key);
      assert s == front + [s[|s| - 1]];
    }
  }

  /** Sorting keeps exactly the elements it was given. */
  lemma SortMembers<T>(s: seq<T>, key: T -> Rank, x: T)
    ensures x in Sort(s, key) <==> x in s
  {
    SortPermutesAndOrders(s, key);
    assert x in Sort(s, key) <==> x in multiset(Sort(s, key));
  }

  /** A sequence that is already in order is left as it is (stability). */
  lemma {:induction false} SortOfSorted<T>(s: seq<T>, key: T -> Rank)
    requires SortedBy(s, key)
    ensures Sort(s, key) == s
  {
    if s != [] {
      var front := s[..|s| - 1];
      assert SortedBy(front, key);
      SortOfSorted(front, key);
      if |front| > 0 {
        assert RankLe(key(front[|front| - 1]), key(s[|s| - 1]));
      }
      assert front + [s[|s| - 1]] == s;
    }
  }

  /**
   * In-place stable sort of an array, as `array.sort(comparator)` performs it
   * on the array it is called on.
   */
  method SortInPlace<T>(a: array<T>, key: T -> Rank)
    modifies a
    ensures a[..] == Sort(old(a[..]), key)
  {
    ghost var input := a[..];
    var i := 0;
    while i < a.Length
      invariant 0 <= i <= a.Length
      invariant a[..i] == Sort(input[..i], key)
      invariant a[i..] == input[i..]
    {
      ghost var prefix := input[..i + 1];
      assert prefix[..i] == input[..i] && prefix[i] == input[i];
      assert a[i] == input[i] by { assert a[i..][0] == a[i]; }
      assert input[i + 1..] == input[i..][1..];
      assert a[i + 1..] == a[i..][1..];
      InsertInPlace(a, i, key);
      assert a[..i + 1] == Sort(prefix, key);
      i := i + 1;
    }
    assert input[..a.Length] == input;
  }

  /** Moves `a[i]` left past every larger element of the sorted prefix `a[..i]`. */
  method InsertInPlace<T>(a: array<T>, i: nat, key: T -> Rank)
    requires i < a.Length
    modifies a
    ensures a[..i + 1] == Insert(old(a[..i]), old(a[i]), key)
    ensures a[i + 1..] == old(a[i + 1..])
  {
    ghost var done := a[..i];
    ghost var rest := a[i + 1..];
    var x := a[i];
    var j := i;
    Layout(a[..], i);
    assert done[..j] == done && done[j..] == [];
    while j > 0 && !RankLe(key(a[j - 1]), key(x))
      invariant 0 <= j <= i
      invariant a[..] == done[..j] + [x] + done[j..] + rest
      invariant Insert(done, x, key) == Insert(done[..j], x, key) + done[j..]
    {
      ghost var before := a[..];
      SwapStep(before, done, j, x, rest);
      ShiftStep(done, j, x, key);
      a[j - 1], a[j] := x, a[j - 1];
      assert a[..] == before[j - 1 := x][j := before[j - 1]];
      j := j - 1;
    }
    FinishInsert(done, j, x, key);
    Split(a[..], done[..j] + [x] + done[j..], rest);
  }

  /** The array before the insertion: the sorted prefix, the element, the rest. */
  lemma Layout<T>(s: seq<T>, i: nat)
    requires i < |s|
    ensures s == s[..i][..i] + [s[i]] + s[..i][i..] + s[i + 1..]
  {
    assert s[..i][..i] == s[..i] && s[..i][i..] == [];
  }

  /** Swapping `x` with the element before it moves the gap one place left. */
  lemma SwapStep<T>(s: seq<T>, done: seq<T>, j: nat, x: T, rest: seq<T>)
    requires 0 < j <= |done| && s == done[..j] + [x] + done[j..] + rest
    ensures s[j - 1] == done[j - 1] && s[j] == x
    ensures s[j - 1 := x][j := s[j - 1]] == done[..j - 1] + [x] + done[j - 1..] + rest
  {
    var t := s[j - 1 := x][j := s[j - 1]];
    var u := done[..j - 1] + [x] + done[j - 1..] + rest;
    assert |t| == |u|;
    forall k | 0 <= k < |t| ensures t[k] == u[k] {
      if k < j - 1 {
        assert t[k] == done[k];
      } else if k > j {
        assert t[k] == s[k];
      }
    }
  }

  /** The two parts of a concatenation are its prefix and its suffix. */
  lemma Split<T>(s: seq<T>, front: seq<T>, back: seq<T>)
    requires s == front + back
    ensures s[..|front|] == front && s[|front|..] == back
  {
  }

  /** Shifting one larger element right keeps the split form of the insertion. */
  lemma ShiftStep<T>(done: seq<T>, j: nat, x: T, key: T -> Rank)
    requires 0 < j <= |done| && !RankLe(key(done[j - 1]), key(x))
    requires Insert(done, x, key) == Insert(done[..j], x, key) + done[j..]
    ensures Insert(done, x, key) == Insert(done[..j - 1], x, key) + done[j - 1..]
  {
    SliceAround(done, j);
    InsertStep(done[..j], x, key);
    Regroup(Insert(done[..j - 1], x, key), done[j - 1], done[j..]);
  }

  lemma SliceAround<T>(d: seq<T>, j: nat)
    requires 0 < j <= |d|
    ensures d[..j][..j - 1] == d[..j - 1] && d[..j][j - 1] == d[j - 1] && d[j - 1..] == [d[j - 1]] + d[j..]
  {
  }

  lemma Regroup<T>(a: seq<T>, y: T, c: seq<T>)
    ensures (a + [y]) + c == a + ([y] + c)
  {
  }

  /** Once the element before the gap is no larger, the insertion places `x` in the gap. */
  lemma FinishInsert<T>(done: seq<T>, j: nat, x: T, key: T -> Rank)
    requires j <= |done| && (j == 0 || RankLe(key(done[j - 1]), key(x)))
    requires Insert(done, x, key) == Insert(done[..j], x, key) + done[j..]
    ensures Insert(done, x, key) == done[..j] + [x] + done[j..]
  {
  }

  /** One shifting step of the in-place insertion. */
  lemma InsertStep<T>(s: seq<T>, x: T, key: T -> Rank)
    requires s != [] && !RankLe(key(s[|s| - 1]), key(x))
    ensures Insert(s, x, key) == Insert(s[..|s| - 1], x, key) + [s[|s| - 1]]
  {
  }
}
