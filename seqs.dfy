/** Sequence facts the allocator's proofs rely on: distinctness, the
    order-preserving filter that keeps what is not yet taken, and how both
    relate to multisets. */
module Seqs {

  /** No element occurs twice in `s`. */
  ghost predicate Distinct<T>(s: seq<T>) {
    forall i, j :: 0 <= i < j < |s| ==> s[i] != s[j]
  }

  /** The set of elements of `s`. */
  ghost function Elems<T>(s: seq<T>): (r: set<T>) {
    set x | x in s
  }

  /** The elements of `s` that are not in `taken`, in their order in `s`. */
  function Free<T(==,!new)>(s: seq<T>, taken: set<T>): (r: seq<T>)
    ensures forall x :: x in r <==> x in s && x !in taken
    ensures |r| <= |s|
  {
    if s == [] then []
    else (if s[0] in taken then [] else [s[0]]) + Free(s[1..], taken)
  }

  /** The first `n` elements of `s`, or all of them when `s` is shorter. */
  function Prefix<T>(s: seq<T>, n: nat): (r: seq<T>)
    ensures |r| == if |s| <= n then |s| else n
    ensures forall i :: 0 <= i < |r| ==> r[i] == s[i]
  {
    if |s| <= n then s else s[..n]
  }

  lemma {:induction false} FreeAppend<T(!new)>(a: seq<T>, b: seq<T>, taken: set<T>)
    ensures Free(a + b, taken) == Free(a, taken) + Free(b, taken)
  {
    if a == [] {
      assert a + b == b;
    } else {
      assert (a + b)[1..] == a[1..] + b;
      FreeAppend(a[1..], b, taken);
    }
  }

  lemma {:induction false} FreeNothing<T(!new)>(s: seq<T>)
    ensures Free(s, {}) == s
  {
    if s != [] {
      FreeNothing(s[1..]);
    }
  }

  lemma {:induction false} FreeKeepsAll<T(!new)>(s: seq<T>, taken: set<T>)
    requires forall x :: x in s ==> x !in taken
    ensures Free(s, taken) == s
  {
    if s != [] {
      FreeKeepsAll(s[1..], taken);
    }
  }

  lemma {:induction false} FreeDropsAll<T(!new)>(s: seq<T>, taken: set<T>)
    requires forall x :: x in s ==> x in taken
    ensures Free(s, taken) == []
  {
    if s != [] {
      FreeDropsAll(s[1..], taken);
    }
  }

  /** Taking an element that does not occur changes nothing. */
  lemma {:induction false} FreeIgnores<T(!new)>(s: seq<T>, taken: set<T>, x: T)
    requires x !in s
    ensures Free(s, taken + {x}) == Free(s, taken)
  {
    if s != [] {
      FreeIgnores(s[1..], taken, x);
    }
  }

  /** Each element keeps its multiplicity in `Free`, unless it is taken. */
  lemma {:induction false} FreeCount<T(!new)>(s: seq<T>, taken: set<T>, x: T)
    ensures multiset(Free(s, taken))[x] == if x in taken then 0 else multiset(s)[x]
  {
    if s != [] {
      assert s == [s[0]] + s[1..];
      FreeCount(s[1..], taken, x);
    }
  }

  /** `Free` depends only on the multiset of its input. */
  lemma FreeMultiset<T(!new)>(s: seq<T>, t: seq<T>, taken: set<T>)
    requires multiset(s) == multiset(t)
    ensures multiset(Free(s, taken)) == multiset(Free(t, taken))
  {
    forall x ensures multiset(Free(s, taken))[x] == multiset(Free(t, taken))[x] {
      FreeCount(s, taken, x);
      FreeCount(t, taken, x);
    }
  }

  /** In a distinct sequence every element occurs exactly once. */
  lemma {:induction false} DistinctCount<T>(s: seq<T>, x: T)
    requires Distinct(s)
    ensures multiset(s)[x] == if x in s then 1 else 0
  {
    if s != [] {
      assert s == [s[0]] + s[1..];
      assert s[0] !in s[1..] by {
        forall j | 0 <= j < |s[1..]| ensures s[1..][j] != s[0] {
          assert s[1..][j] == s[j + 1];
        }
      }
      DistinctCount(s[1..], x);
    }
  }

  /** Two equal elements at different places make a count of at least two. */
  lemma RepeatCount<T>(s: seq<T>, i: nat, j: nat)
    requires i < j < |s| && s[i] == s[j]
    ensures multiset(s)[s[i]] >= 2
  {
    assert s == s[..j] + s[j..];
    assert s[i] == s[..j][i];
    assert s[j] == s[j..][0];
  }

  /** A permutation of a distinct sequence is distinct. */
  lemma DistinctPermutation<T>(s: seq<T>, t: seq<T>)
    requires Distinct(s) && multiset(s) == multiset(t)
    ensures Distinct(t)
  {
    forall i, j | 0 <= i < j < |t| ensures t[i] != t[j] {
      if t[i] == t[j] {
        RepeatCount(t, i, j);
        DistinctCount(s, t[i]);
        assert false;
      }
    }
  }

  lemma {:induction false} FreeDistinct<T(!new)>(s: seq<T>, taken: set<T>)
    requires Distinct(s)
    ensures Distinct(Free(s, taken))
  {
    if s != [] {
      assert Distinct(s[1..]) by {
        forall i, j | 0 <= i < j < |s[1..]| ensures s[1..][i] != s[1..][j] {
          assert s[1..][i] == s[i + 1] && s[1..][j] == s[j + 1];
        }
      }
      FreeDistinct(s[1..], taken);
      assert s[0] !in s[1..] by {
        forall j | 0 <= j < |s[1..]| ensures s[1..][j] != s[0] {
          assert s[1..][j] == s[j + 1];
        }
      }
    }
  }

  lemma DistinctTail<T>(s: seq<T>)
    requires s != [] && Distinct(s)
    ensures Distinct(s[1..]) && s[0] !in s[1..]
  {
    forall i, j | 0 <= i < j < |s[1..]| ensures s[1..][i] != s[1..][j] {
      assert s[1..][i] == s[i + 1] && s[1..][j] == s[j + 1];
    }
    forall j | 0 <= j < |s[1..]| ensures s[1..][j] != s[0] {
      assert s[1..][j] == s[j + 1];
    }
  }

  lemma PrefixMembers<T>(s: seq<T>, n: nat)
    ensures forall x :: x in Prefix(s, n) ==> x in s
  {
    forall x | x in Prefix(s, n) ensures x in s {
      var i :| 0 <= i < |Prefix(s, n)| && Prefix(s, n)[i] == x;
      assert s[i] == x;
    }
  }

  lemma PrefixDistinct<T>(s: seq<T>, n: nat)
    requires Distinct(s)
    ensures Distinct(Prefix(s, n))
  {
  }

  lemma DistinctConcat<T>(a: seq<T>, b: seq<T>)
    requires Distinct(a) && Distinct(b)
    requires forall x :: x in a ==> x !in b
    ensures Distinct(a + b)
  {
    forall i, j | 0 <= i < j < |a + b| ensures (a + b)[i] != (a + b)[j] {
      if j < |a| {
        assert (a + b)[i] == a[i] && (a + b)[j] == a[j];
      } else if i < |a| {
        assert (a + b)[i] == a[i] && (a + b)[j] == b[j - |a|];
        assert a[i] in a && b[j - |a|] in b;
      } else {
        assert (a + b)[i] == b[i - |a|] && (a + b)[j] == b[j - |a|];
      }
    }
  }

  lemma DistinctSplit<T>(a: seq<T>, b: seq<T>)
    requires Distinct(a + b)
    ensures Distinct(a) && Distinct(b)
    ensures forall x :: x in a ==> x !in b
  {
    forall i, j | 0 <= i < j < |a| ensures a[i] != a[j] {
      assert (a + b)[i] == a[i] && (a + b)[j] == a[j];
    }
    forall i, j | 0 <= i < j < |b| ensures b[i] != b[j] {
      assert (a + b)[|a| + i] == b[i] && (a + b)[|a| + j] == b[j];
    }
    forall i, j | 0 <= i < |a| && 0 <= j < |b| ensures a[i] != b[j] {
      assert (a + b)[i] == a[i] && (a + b)[|a| + j] == b[j];
    }
  }

  lemma ElemsAppend<T>(a: seq<T>, b: seq<T>)
    ensures Elems(a + b) == Elems(a) + Elems(b)
  {
  }

  /** Two distinct sequences with the same elements are permutations of
      each other. */
  lemma DistinctSameElems<T>(a: seq<T>, b: seq<T>)
    requires Distinct(a) && Distinct(b)
    requires forall x :: x in a <==> x in b
    ensures multiset(a) == multiset(b)
  {
    forall x ensures multiset(a)[x] == multiset(b)[x] {
      DistinctCount(a, x);
      DistinctCount(b, x);
    }
  }
}
