/** How the containers compare their elements. Python compares ints
    numerically and strs by code point; a `WordData` compares by its name
    (`__gt__`, `__eq__`, and `<` through the reflected `__gt__`), so every
    element the containers hold is compared through a `Key`. */
module Ordering {

  import opened PyText

  datatype Key = IntKey(n: int) | StrKey(s: string)

  /** `a < b`. Python raises TypeError between an int and a str; the modelled
      lists are homogeneous, and ordering ints before strs only makes the
      relation total. */
  predicate Less(a: Key, b: Key)
  {
    match (a, b)
    case (IntKey(x), IntKey(y)) => x < y
    case (StrKey(x), StrKey(y)) => StrLt(x, y)
    case (IntKey(_), StrKey(_)) => true
    case (StrKey(_), IntKey(_)) => false
  }

  predicate LessEq(a: Key, b: Key) { Less(a, b) || a == b }

  /** The keys of a list of strs, such as the names `peek()` returns. */
  function StrKeys(names: seq<string>): (ks: seq<Key>)
    ensures |ks| == |names|
    ensures forall i :: 0 <= i < |names| ==> ks[i] == StrKey(names[i])
  {
    seq(|names|, i requires 0 <= i < |names| => StrKey(names[i]))
  }

  lemma LessIrreflexive(a: Key)
    ensures !Less(a, a)
  {
    if a.StrKey? { StrLtIrreflexive(a.s); }
  }

  lemma LessTransitive(a: Key, b: Key, c: Key)
    requires Less(a, b) && Less(b, c)
    ensures Less(a, c)
  {
    if a.StrKey? && b.StrKey? && c.StrKey? { StrLtTransitive(a.s, b.s, c.s); }
  }

  /** Exactly one of `a < b`, `a == b`, `b < a` holds. */
  lemma LessTrichotomy(a: Key, b: Key)
    ensures Less(a, b) || a == b || Less(b, a)
    ensures !(Less(a, b) && Less(b, a))
    ensures a == b ==> !Less(a, b)
  {
    if a.StrKey? && b.StrKey? {
      StrLtTotal(a.s, b.s);
      StrLtIrreflexive(a.s);
      if StrLt(a.s, b.s) && StrLt(b.s, a.s) { StrLtTransitive(a.s, b.s, a.s); }
    }
  }

  lemma LessLeTransitive(a: Key, b: Key, c: Key)
    requires Less(a, b) && LessEq(b, c)
    ensures Less(a, c)
  {
    if b != c { LessTransitive(a, b, c); }
  }

  lemma LeLessTransitive(a: Key, b: Key, c: Key)
    requires LessEq(a, b) && Less(b, c)
    ensures Less(a, c)
  {
    if a != b { LessTransitive(a, b, c); }
  }

  // ---------------------------------------------------------------------------
  // Sorted sequences
  // ---------------------------------------------------------------------------

  /** Ascending, equal keys allowed. */
  predicate Sorted(ks: seq<Key>)
  {
    forall i, j :: 0 <= i < j < |ks| ==> LessEq(ks[i], ks[j])
  }

  /** Ascending without duplicates. */
  predicate StrictlySorted(ks: seq<Key>)
  {
    forall i, j :: 0 <= i < j < |ks| ==> Less(ks[i], ks[j])
  }

  lemma StrictlySortedIsSorted(ks: seq<Key>)
    requires StrictlySorted(ks)
    ensures Sorted(ks)
  {
  }

  /** In a strictly sorted sequence a key occurs at most once. */
  lemma StrictlySortedUnique(ks: seq<Key>, i: int, j: int)
    requires StrictlySorted(ks)
    requires 0 <= i < |ks| && 0 <= j < |ks| && ks[i] == ks[j]
    ensures i == j
  {
    if i < j { LessIrreflexive(ks[i]); }
    if j < i { LessIrreflexive(ks[j]); }
  }

  function Insert<T>(s: seq<T>, p: nat, x: T): (r: seq<T>)
    requires p <= |s|
    ensures |r| == |s| + 1 && r[p] == x
    ensures forall i :: 0 <= i < p ==> r[i] == s[i]
    ensures forall i :: p < i < |r| ==> r[i] == s[i - 1]
    ensures multiset(r) == multiset(s) + multiset{x}
  {
    assert s == s[..p] + s[p..];
    s[..p] + [x] + s[p..]
  }

  function RemoveAt<T>(s: seq<T>, p: nat): (r: seq<T>)
    requires p < |s|
    ensures |r| == |s| - 1
    ensures forall i :: 0 <= i < p ==> r[i] == s[i]
    ensures forall i :: p <= i < |r| ==> r[i] == s[i + 1]
    ensures multiset(r) + multiset{s[p]} == multiset(s)
  {
    assert s == s[..p] + [s[p]] + s[p + 1..];
    s[..p] + s[p + 1..]
  }

  /** The first position whose key is not less than `k`, or `|ks|`: where the
      linear scan of the old `append` inserts. */
  function InsertionPoint(ks: seq<Key>, k: Key): (p: nat)
    ensures p <= |ks|
    ensures forall i :: 0 <= i < p ==> Less(ks[i], k)
    ensures p < |ks| ==> !Less(ks[p], k)
  {
    if |ks| == 0 || !Less(ks[0], k) then 0 else 1 + InsertionPoint(ks[1..], k)
  }

  /** The first index at which the prefix condition of `InsertionPoint` breaks
      is `InsertionPoint` itself. */
  lemma {:induction false} InsertionPointUnique(ks: seq<Key>, k: Key, p: nat)
    requires p <= |ks|
    requires forall i :: 0 <= i < p ==> Less(ks[i], k)
    requires p < |ks| ==> !Less(ks[p], k)
    ensures InsertionPoint(ks, k) == p
  {
    if p > 0 {
      InsertionPointUnique(ks[1..], k, p - 1);
    }
  }

  /** In a sorted sequence the insertion point splits it into the keys below `k`
      and the keys at or above `k` (the `bisect_left` position). */
  lemma InsertionPointPartitions(ks: seq<Key>, k: Key)
    requires Sorted(ks)
    ensures forall i :: 0 <= i < InsertionPoint(ks, k) ==> Less(ks[i], k)
    ensures forall i :: InsertionPoint(ks, k) <= i < |ks| ==> LessEq(k, ks[i])
  {
    var p := InsertionPoint(ks, k);
    forall i | p <= i < |ks|
      ensures LessEq(k, ks[i])
    {
      LessTrichotomy(k, ks[p]);
      LessTrichotomy(k, ks[i]);
      if Less(ks[i], k) {
        LeLessTransitive(ks[p], ks[i], k);
      }
    }
  }

  /** Inserting at the insertion point keeps a sorted sequence sorted, and keeps
      a strictly sorted one strictly sorted when `k` is not in it yet. */
  lemma InsertKeepsSorted(ks: seq<Key>, k: Key)
    requires Sorted(ks)
    ensures Sorted(Insert(ks, InsertionPoint(ks, k), k))
    ensures StrictlySorted(ks) && k !in ks ==> StrictlySorted(Insert(ks, InsertionPoint(ks, k), k))
  {
    var p := InsertionPoint(ks, k);
    var r := Insert(ks, p, k);
    InsertionPointPartitions(ks, k);
    forall i, j | 0 <= i < j < |r|
      ensures LessEq(r[i], r[j])
      ensures StrictlySorted(ks) && k !in ks ==> Less(r[i], r[j])
    {
      if i < p && j == p {
      } else if i < p && j > p {
        LessLeTransitive(ks[i], k, ks[j - 1]);
      } else if i == p {
        assert k != ks[j - 1] || k in ks;
      } else {
      }
    }
  }

  /** Removing one element keeps (strict) sortedness. */
  lemma RemoveKeepsSorted(ks: seq<Key>, p: nat)
    requires p < |ks|
    ensures Sorted(ks) ==> Sorted(RemoveAt(ks, p))
    ensures StrictlySorted(ks) ==> StrictlySorted(RemoveAt(ks, p))
  {
    var r := RemoveAt(ks, p);
    if Sorted(ks) {
      forall i, j | 0 <= i < j < |r| ensures LessEq(r[i], r[j]) {
        var i' := if i < p then i else i + 1;
        var j' := if j < p then j else j + 1;
        assert r[i] == ks[i'] && r[j] == ks[j'] && i' < j';
      }
    }
    if StrictlySorted(ks) {
      forall i, j | 0 <= i < j < |r| ensures Less(r[i], r[j]) {
        var i' := if i < p then i else i + 1;
        var j' := if j < p then j else j + 1;
        assert r[i] == ks[i'] && r[j] == ks[j'] && i' < j';
      }
    }
  }

  // ---------------------------------------------------------------------------
  // list.index and list.count
  // ---------------------------------------------------------------------------

  /** `ks.index(k, start)`, or `|ks|` where Python raises ValueError. */
  function IndexFrom(ks: seq<Key>, k: Key, start: nat): (r: nat)
    requires start <= |ks|
    ensures start <= r <= |ks|
    ensures r < |ks| ==> ks[r] == k
    ensures forall j :: start <= j < r ==> ks[j] != k
    ensures r == |ks| <==> k !in ks[start..]
    decreases |ks| - start
  {
    if start == |ks| then |ks|
    else if ks[start] == k then start
    else IndexFrom(ks, k, start + 1)
  }

  /** `ks.count(k)` */
  function CountOf(ks: seq<Key>, k: Key): nat
  {
    if |ks| == 0 then 0 else (if ks[0] == k then 1 else 0) + CountOf(ks[1..], k)
  }

  lemma {:induction false} CountZero(ks: seq<Key>, k: Key)
    ensures CountOf(ks, k) == 0 <==> k !in ks
  {
    if |ks| > 0 {
      CountZero(ks[1..], k);
      assert ks == [ks[0]] + ks[1..];
    }
  }

  /** Counting from the first occurrence onwards. */
  lemma {:induction false} CountAfterFirst(ks: seq<Key>, k: Key, f: nat)
    requires f < |ks| && ks[f] == k
    requires forall j :: 0 <= j < f ==> ks[j] != k
    ensures CountOf(ks, k) == 1 + CountOf(ks[f + 1..], k)
  {
    if f > 0 {
      CountAfterFirst(ks[1..], k, f - 1);
      assert ks[1..][f..] == ks[f + 1..];
    }
  }

  /** `ks.index(k, start)` finds the first copy at or after `start`, and the
      copies from `start` on are that one and those after it. */
  lemma {:induction false} CountFromIndex(ks: seq<Key>, k: Key, start: nat)
    requires start <= |ks| && k in ks[start..]
    ensures IndexFrom(ks, k, start) < |ks|
    ensures CountOf(ks[start..], k) == 1 + CountOf(ks[IndexFrom(ks, k, start) + 1..], k)
  {
    var f := IndexFrom(ks, k, start);
    var tail := ks[start..];
    forall j | 0 <= j < f - start ensures tail[j] != k {
      assert tail[j] == ks[start + j];
    }
    CountAfterFirst(tail, k, f - start);
    assert tail[f - start + 1..] == ks[f + 1..];
  }

  /** The positions `j` with `ks[j] == k`, in ascending order, and nothing else. */
  ghost predicate AllPositions(ps: seq<int>, ks: seq<Key>, k: Key)
  {
    && (forall m :: 0 <= m < |ps| ==> 0 <= ps[m] < |ks| && ks[ps[m]] == k)
    && (forall m, n :: 0 <= m < n < |ps| ==> ps[m] < ps[n])
    && (forall j :: 0 <= j < |ks| && ks[j] == k ==> j in ps)
  }

  predicate Increasing(ps: seq<int>)
  {
    forall m, n :: 0 <= m < n < |ps| ==> ps[m] < ps[n]
  }

  /** In an increasing sequence the order of values is the order of indices. */
  lemma IncreasingOrder(ps: seq<int>, a: int, b: int)
    requires Increasing(ps) && 0 <= a < |ps| && 0 <= b < |ps|
    ensures ps[a] <= ps[b] ==> a <= b
    ensures ps[a] < ps[b] ==> a < b
  {
    if b < a {
      assert ps[b] < ps[a];
    }
  }

  /** The positions of a key that fills the block `first..first+c-1` are
      `first, first+1, ...` in that order. */
  lemma {:induction false} PositionsInBlock(ps: seq<int>, ks: seq<Key>, k: Key, first: int, c: nat, m: nat)
    requires 0 <= first && first + c <= |ks|
    requires forall j :: 0 <= j < |ks| ==> (ks[j] == k <==> first <= j < first + c)
    requires AllPositions(ps, ks, k)
    requires m < |ps|
    ensures ps[m] == first + m
    decreases m
  {
    assert Increasing(ps);
    var v := first + m;
    if m == 0 {
      assert ks[ps[0]] == k;
    } else {
      PositionsInBlock(ps, ks, k, first, c, m - 1);
      assert ps[m - 1] < ps[m];
      assert ks[ps[m]] == k;
    }
    assert ks[v] == k;
    assert v in ps;
    var j :| 0 <= j < |ps| && ps[j] == v;
    IncreasingOrder(ps, j, m);
    if m > 0 {
      IncreasingOrder(ps, m - 1, j);
    }
  }

  /** In a sorted sequence the positions of a key are the block from its first
      index, as long as its count: the positions the old `index` collects one
      by one are the range the current `index` builds at once. */
  lemma {:induction false} AllPositionsOfSorted(ps: seq<int>, ks: seq<Key>, k: Key)
    requires Sorted(ks) && k in ks
    requires AllPositions(ps, ks, k)
    ensures ps == Range(IndexFrom(ks, k, 0), IndexFrom(ks, k, 0) + CountOf(ks, k))
  {
    EqualKeysAreContiguous(ks, k);
    CountFitsAfterFirst(ks, k);
    CountZero(ks, k);
    PositionsAreBlock(ps, ks, k, IndexFrom(ks, k, 0), CountOf(ks, k));
  }

  /** Positions of a key that fills exactly the block `first..first+c-1`
      are that range. */
  lemma PositionsAreBlock(ps: seq<int>, ks: seq<Key>, k: Key, first: nat, c: nat)
    requires 0 < c && first + c <= |ks|
    requires forall j :: 0 <= j < |ks| ==> (ks[j] == k <==> first <= j < first + c)
    requires AllPositions(ps, ks, k)
    ensures ps == Range(first, first + c)
  {
    assert ks[first] == k;
    assert first in ps;
    var last := first + c - 1;
    assert ks[last] == k;
    assert last in ps;
    var j :| 0 <= j < |ps| && ps[j] == last;
    PositionsInBlock(ps, ks, k, first, c, j);
    PositionsInBlock(ps, ks, k, first, c, |ps| - 1);
    assert ks[ps[|ps| - 1]] == k;
    forall m | 0 <= m < |ps| ensures ps[m] == first + m {
      PositionsInBlock(ps, ks, k, first, c, m);
    }
  }

  /** Conversely, on a sorted list the block from the first find, as long as
      the key's count, holds every position of the key and nothing else. */
  lemma BlockIsAllPositions(ks: seq<Key>, k: Key)
    requires Sorted(ks) && k in ks
    ensures AllPositions(Range(IndexFrom(ks, k, 0), IndexFrom(ks, k, 0) + CountOf(ks, k)), ks, k)
  {
    EqualKeysAreContiguous(ks, k);
    CountFitsAfterFirst(ks, k);
    RangeOfBlock(ks, k, IndexFrom(ks, k, 0), CountOf(ks, k));
  }

  /** When the key fills exactly the block `first..first+c-1`, that range is
      all its positions. */
  lemma RangeOfBlock(ks: seq<Key>, k: Key, first: nat, c: nat)
    requires first + c <= |ks|
    requires forall j :: 0 <= j < |ks| ==> (ks[j] == k <==> first <= j < first + c)
    ensures AllPositions(Range(first, first + c), ks, k)
  {
    var ps := Range(first, first + c);
    forall j | 0 <= j < |ks| && ks[j] == k ensures j in ps {
      assert ps[j - first] == j;
    }
  }

  /** `AllPositions` for the positions below `start`. */
  ghost predicate PositionsBelow(ps: seq<int>, ks: seq<Key>, k: Key, start: int)
  {
    && (forall m :: 0 <= m < |ps| ==> 0 <= ps[m] < start && ps[m] < |ks| && ks[ps[m]] == k)
    && (forall m, n :: 0 <= m < n < |ps| ==> ps[m] < ps[n])
    && (forall j {:trigger j in ps} :: 0 <= j < start && j < |ks| && ks[j] == k ==> j in ps)
  }

  /** Searching on from `start` and adding what is found extends the positions
      below `start` to the positions up to and including the find. */
  lemma PositionsExtend(ps: seq<int>, ks: seq<Key>, k: Key, start: nat)
    requires start <= |ks| && k in ks[start..]
    requires PositionsBelow(ps, ks, k, start)
    ensures IndexFrom(ks, k, start) < |ks|
    ensures PositionsBelow(ps + [IndexFrom(ks, k, start)], ks, k, IndexFrom(ks, k, start) + 1)
  {
    var f := IndexFrom(ks, k, start);
    var qs := ps + [f];
    forall j | 0 <= j < f + 1 && j < |ks| && ks[j] == k ensures j in qs {
      if j < start {
        assert j in ps;
      } else {
        assert j == f;
        assert qs[|ps|] == f;
      }
    }
  }

  /** One round of the search loop of `index`: while copies are left from
      `start` on, the next search finds one, one fewer is left after it, and
      the positions extend to it. */
  lemma PositionsStep(ps: seq<int>, ks: seq<Key>, k: Key, start: nat, left: nat, found: nat)
    requires start <= |ks| && CountOf(ks[start..], k) == left && left > 0
    requires PositionsBelow(ps, ks, k, start)
    requires found == IndexFrom(ks, k, start)
    ensures found < |ks|
    ensures CountOf(ks[found + 1..], k) == left - 1
    ensures PositionsBelow(ps + [found], ks, k, found + 1)
  {
    CountZero(ks[start..], k);
    CountFromIndex(ks, k, start);
    PositionsExtend(ps, ks, k, start);
  }

  /** Before the first search nothing is below the start, and every copy is
      still ahead. */
  lemma PositionsNone(ks: seq<Key>, k: Key)
    ensures CountOf(ks[0..], k) == CountOf(ks, k)
    ensures PositionsBelow([], ks, k, 0)
  {
    assert ks[0..] == ks;
  }

  /** Once no copy is left from `start` on, the positions below `start` are
      all of them. */
  lemma PositionsComplete(ps: seq<int>, ks: seq<Key>, k: Key, start: nat)
    requires start <= |ks| && CountOf(ks[start..], k) == 0
    requires PositionsBelow(ps, ks, k, start)
    ensures AllPositions(ps, ks, k)
  {
    CountZero(ks[start..], k);
    forall j | start <= j < |ks| ensures ks[j] != k {
      assert ks[j] == ks[start..][j - start];
    }
  }

  /** Without duplicates the removed key is gone from the rest. */
  lemma RemovedKeyGone(ks: seq<Key>, p: nat)
    requires StrictlySorted(ks) && p < |ks|
    ensures ks[p] !in RemoveAt(ks, p)
  {
    var r := RemoveAt(ks, p);
    forall j | 0 <= j < |r| ensures r[j] != ks[p] {
      if j < p {
        if r[j] == ks[p] { StrictlySortedUnique(ks, j, p); }
      } else {
        if r[j] == ks[p] { StrictlySortedUnique(ks, j + 1, p); }
      }
    }
  }

  /** In a sorted sequence the copies of a key form one block, starting at its
      first index and as long as its count; so the consecutive indices
      `first, first+1, ..., first+count-1` are exactly its positions. */
  lemma {:induction false} EqualKeysAreContiguous(ks: seq<Key>, k: Key)
    requires Sorted(ks)
    ensures forall j :: 0 <= j < |ks| ==>
      (ks[j] == k <==> IndexFrom(ks, k, 0) <= j < IndexFrom(ks, k, 0) + CountOf(ks, k))
  {
    if |ks| > 0 {
      var tail := ks[1..];
      EqualKeysAreContiguous(tail, k);
      var f', c' := IndexFrom(tail, k, 0), CountOf(tail, k);
      var f, c := IndexFrom(ks, k, 0), CountOf(ks, k);
      if ks[0] == k {
        assert f == 0 && c == 1 + c';
        if c' > 0 {
          CountZero(tail, k);
          SecondCopyFollowsFirst(ks, k);
          assert f' == 0;
        } else {
          CountZero(tail, k);
        }
        forall j | 1 <= j < |ks| ensures ks[j] == k <==> j < 1 + c' {
          assert ks[j] == tail[j - 1];
        }
      } else {
        IndexFromTail(ks, k, 1);
        assert f == 1 + f' && c == c';
        forall j | 1 <= j < |ks| ensures ks[j] == k <==> f <= j < f + c {
          assert ks[j] == tail[j - 1];
        }
      }
    }
  }

  lemma {:induction false} CountAtMostLength(ks: seq<Key>, k: Key)
    ensures CountOf(ks, k) <= |ks|
  {
    if |ks| > 0 {
      CountAtMostLength(ks[1..], k);
    }
  }

  /** The copies of a key counted from its first index stay inside the
      sequence. */
  lemma CountFitsAfterFirst(ks: seq<Key>, k: Key)
    requires k in ks
    ensures IndexFrom(ks, k, 0) + CountOf(ks, k) <= |ks|
  {
    assert ks[0..] == ks;
    var f := IndexFrom(ks, k, 0);
    CountAfterFirst(ks, k, f);
    CountAtMostLength(ks[f + 1..], k);
  }

  /** In a sorted sequence that starts with `k` and holds another copy of `k`
      further on, the second element is `k` too. */
  lemma SecondCopyFollowsFirst(ks: seq<Key>, k: Key)
    requires Sorted(ks) && |ks| > 0 && ks[0] == k && k in ks[1..]
    ensures |ks| > 1 && ks[1] == k
  {
    var j :| 1 <= j < |ks| && ks[j] == k;
    assert LessEq(ks[0], ks[1]) && LessEq(ks[1], ks[j]);
    LessTrichotomy(ks[0], ks[1]);
  }

  lemma {:induction false} IndexFromTail(ks: seq<Key>, k: Key, start: nat)
    requires 1 <= start <= |ks|
    ensures IndexFrom(ks, k, start) == 1 + IndexFrom(ks[1..], k, start - 1)
    decreases |ks| - start
  {
    if start < |ks| && ks[start] != k {
      IndexFromTail(ks, k, start + 1);
    }
  }
}
