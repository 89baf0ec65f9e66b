/** Orders used by the queries: ascending ids (the order in which the
    database returns rows without an `orderBy`), and an insertion sort for
    the `orderBy` clauses. */
module Ordering {

  predicate Increasing(s: seq<int>)
  {
    forall i, j :: 0 <= i < j < |s| ==> s[i] < s[j]
  }

  /** The members of `keys` in [0, bound), in ascending order: the order in
      which the database returns rows of a table whose auto-increment ids are
      all below `bound`. */
  function SortedIds(keys: set<int>, bound: int): (r: seq<int>)
    ensures forall x :: x in r <==> x in keys && 0 <= x < bound
    ensures Increasing(r)
    ensures forall i :: 0 <= i < |r| ==> r[i] < bound
    decreases bound
  {
    if bound <= 0 then []
    else
      var front := SortedIds(keys, bound - 1);
      if bound - 1 in keys then front + [bound - 1] else front
  }

  /** A relation that relates every two values one way or the other. */
  ghost predicate Total<T(!new)>(le: (T, T) -> bool)
  {
    forall a, b :: le(a, b) || le(b, a)
  }

  /** Each element stands in relation `le` to the next one. */
  predicate SortedBy<T>(s: seq<T>, le: (T, T) -> bool)
  {
    forall i :: 0 <= i < |s| - 1 ==> le(s[i], s[i + 1])
  }

  /** Inserts x before the first element y with le(x, y). */
  function Insert<T(!new)>(x: T, s: seq<T>, le: (T, T) -> bool): (r: seq<T>)
    requires Total(le)
    ensures multiset(r) == multiset(s) + multiset{x}
    ensures |r| == |s| + 1 && (r[0] == x || (|s| > 0 && r[0] == s[0]))
    ensures SortedBy(s, le) ==> SortedBy(r, le)
  {
    if s == [] then [x]
    else if le(x, s[0]) then [x] + s
    else
      var rest := Insert(x, s[1..], le);
      assert s == [s[0]] + s[1..];
      InsertStep(x, s, rest, le);
      [s[0]] + rest
  }

  /** The step of `Insert` past the head: the head goes before the
      insertion into a sorted tail, which starts with x or the tail's head. */
  lemma InsertStep<T(!new)>(x: T, s: seq<T>, rest: seq<T>, le: (T, T) -> bool)
    requires Total(le) && s != [] && !le(x, s[0])
    requires |rest| == |s| && (rest[0] == x || (|s| > 1 && rest[0] == s[1]))
    requires SortedBy(s[1..], le) ==> SortedBy(rest, le)
    ensures SortedBy(s, le) ==> SortedBy([s[0]] + rest, le)
  {
    if SortedBy(s, le) {
      assert SortedBy(s[1..], le) by {
        forall i | 0 <= i < |s[1..]| - 1 ensures le(s[1..][i], s[1..][i + 1]) {
          assert s[1..][i] == s[i + 1] && s[1..][i + 1] == s[i + 2];
        }
      }
      assert le(s[0], x);
      var r := [s[0]] + rest;
      forall i | 0 <= i < |r| - 1 ensures le(r[i], r[i + 1]) {
        if i > 0 {
          assert r[i] == rest[i - 1] && r[i + 1] == rest[i];
        } else if rest[0] != x {
          assert rest[0] == s[1];
        }
      }
    }
  }

  /** Insertion sort by a total preorder `le`. */
  function SortBy<T(!new)>(s: seq<T>, le: (T, T) -> bool): (r: seq<T>)
    requires Total(le)
    ensures multiset(r) == multiset(s) && |r| == |s|
    ensures SortedBy(r, le)
  {
    if s == [] then []
    else
      assert s == [s[0]] + s[1..];
      Insert(s[0], SortBy(s[1..], le), le)
  }

  /** Lexicographic order of code points (the order a binary collation gives). */
  predicate StrLe(a: string, b: string)
  {
    if a == [] then true
    else if b == [] then false
    else if a[0] != b[0] then a[0] < b[0]
    else StrLe(a[1..], b[1..])
  }

  lemma {:induction false} StrLeTotal(a: string, b: string)
    ensures StrLe(a, b) || StrLe(b, a)
  {
    if a != [] && b != [] && a[0] == b[0] {
      StrLeTotal(a[1..], b[1..]);
    }
  }

  /** A list of ids without repetition. */
  predicate Distinct(s: seq<int>)
  {
    forall i, j :: 0 <= i < j < |s| ==> s[i] != s[j]
  }

  /** A permutation of a list of ids without repetition has none either. */
  lemma DistinctPermutation(a: seq<int>, b: seq<int>)
    requires Increasing(a) && multiset(a) == multiset(b)
    ensures Distinct(b)
  {
    DistinctMultiset(a);
    forall i, j | 0 <= i < j < |b| ensures b[i] != b[j] {
      if b[i] == b[j] {
        TwiceInMultiset(b, i, j);
      }
    }
  }

  /** Each element of an increasing list occurs once in its multiset. */
  lemma {:induction false} DistinctMultiset(a: seq<int>)
    requires Increasing(a)
    ensures forall x :: multiset(a)[x] <= 1
  {
    if a != [] {
      DistinctMultiset(a[1..]);
      assert a == [a[0]] + a[1..];
      assert a[0] !in a[1..] by {
        forall k | 0 <= k < |a[1..]| ensures a[1..][k] != a[0] { assert a[1..][k] == a[k + 1]; }
      }
    }
  }

  /** An element at two positions occurs at least twice in the multiset. */
  lemma TwiceInMultiset(b: seq<int>, i: int, j: int)
    requires 0 <= i < j < |b| && b[i] == b[j]
    ensures multiset(b)[b[i]] >= 2
  {
    assert b == b[..i] + [b[i]] + b[i + 1..j] + [b[j]] + b[j + 1..];
  }

  /** Lists with the same multiset have the same members. */
  lemma SameMembers<T>(a: seq<T>, b: seq<T>)
    requires multiset(a) == multiset(b)
    ensures forall x :: x in a <==> x in b
  {
    assert forall x :: x in a <==> x in multiset(a);
    assert forall x :: x in b <==> x in multiset(b);
  }

  /** A list of ids without repetition has as many elements as its set. */
  lemma {:induction false} DistinctCount(s: seq<int>)
    requires Increasing(s)
    ensures |set x | x in s| == |s|
  {
    if s != [] {
      DistinctCount(s[1..]);
      assert s[0] in s;
      assert (set x | x in s) == (set x | x in s[1..]) + {s[0]};
      assert s[0] !in (set x | x in s[1..]);
    }
  }

  /** A set whose members are those of an increasing list has its length. */
  lemma CountByMembers(s: seq<int>, members: set<int>)
    requires Increasing(s)
    requires forall x :: x in s <==> x in members
    ensures |members| == |s|
  {
    var inS := set x | x in s;
    forall x ensures x in members <==> x in inS {
      assert x in inS <==> x in s;
    }
    assert members == inS;
    DistinctCount(s);
  }

  /** An increasing list of the members of `ids` that lie in `known` is as
      long as `ids` exactly when `ids` has no repetition and lies in `known`. */
  lemma FoundAllIff(found: seq<int>, ids: seq<int>, known: set<int>)
    requires Increasing(found)
    requires forall x :: x in found <==> x in known && x in ids
    ensures |found| == |ids| <==> Distinct(ids) && forall x :: x in ids ==> x in known
  {
    var F, R := set x | x in found, set x | x in ids;
    DistinctCount(found);
    SeqSetCount(ids);
    assert F <= R;
    assert |R - F| == |R| - |F|;
    if |found| == |ids| {
      assert R - F == {};
      forall x | x in ids ensures x in known {
        assert x in R;
      }
    }
    if Distinct(ids) && forall x :: x in ids ==> x in known {
      assert F == R;
      DistinctSetCount(ids);
    }
  }

  /** A list has at most as many distinct elements as it has elements, and
      exactly as many only when none repeats. */
  lemma {:induction false} SeqSetCount(s: seq<int>)
    ensures |set x | x in s| <= |s|
    ensures |set x | x in s| == |s| ==> Distinct(s)
  {
    if s != [] {
      SeqSetCount(s[1..]);
      assert s[0] in s;
      assert (set x | x in s) == (set x | x in s[1..]) + {s[0]};
      if s[0] !in s[1..] {
        assert s[0] !in (set x | x in s[1..]);
        if |set x | x in s| == |s| {
          forall i, j | 0 <= i < j < |s| ensures s[i] != s[j] {
            assert s[j] == s[1..][j - 1];
            if i > 0 { assert s[i] == s[1..][i - 1]; }
          }
        }
      } else {
        assert (set x | x in s) == (set x | x in s[1..]);
      }
    }
  }

  /** A list without repetition has as many elements as its set. */
  lemma {:induction false} DistinctSetCount(s: seq<int>)
    requires Distinct(s)
    ensures |set x | x in s| == |s|
  {
    if s != [] {
      assert Distinct(s[1..]) by {
        forall i, j | 0 <= i < j < |s[1..]| ensures s[1..][i] != s[1..][j] {
          assert s[1..][i] == s[i + 1] && s[1..][j] == s[j + 1];
        }
      }
      DistinctSetCount(s[1..]);
      assert s[0] in s;
      assert (set x | x in s) == (set x | x in s[1..]) + {s[0]};
      assert s[0] !in s[1..] by {
        forall k | 0 <= k < |s[1..]| ensures s[1..][k] != s[0] { assert s[1..][k] == s[k + 1]; }
      }
    }
  }
}
