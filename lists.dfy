/**
 Kotlin's `filter` on lists, and the facts about it that the screens rely on:
 it keeps exactly the elements satisfying the predicate, in their original
 order, and a filter and its complement split a list in two.
 */
module Lists {

  /** `s.filter(p)`. */
  function Keep<T>(s: seq<T>, p: T -> bool): (r: seq<T>)
    ensures |r| <= |s|
  {
    if s == [] then []
    else if p(s[0]) then [s[0]] + Keep(s[1..], p)
    else Keep(s[1..], p)
  }

  /** Soundness: every element kept satisfies the predicate and comes from the list. */
  lemma {:induction false} KeepSound<T>(s: seq<T>, p: T -> bool)
    ensures forall i :: 0 <= i < |Keep(s, p)| ==> p(Keep(s, p)[i]) && Keep(s, p)[i] in s
  {
    if s != [] {
      KeepSound(s[1..], p);
      var r := Keep(s, p);
      forall i | 0 <= i < |r| ensures p(r[i]) && r[i] in s {
        if p(s[0]) && i > 0 {
          assert r[i] == Keep(s[1..], p)[i - 1];
          assert r[i] in s[1..];
        } else if !p(s[0]) {
          assert r == Keep(s[1..], p);
          assert r[i] in s[1..];
        }
      }
    }
  }

  /** Completeness: every element of the list satisfying the predicate is kept. */
  lemma {:induction false} KeepComplete<T>(s: seq<T>, p: T -> bool)
    ensures forall i :: 0 <= i < |s| && p(s[i]) ==> s[i] in Keep(s, p)
  {
    if s != [] {
      KeepComplete(s[1..], p);
      forall i | 0 <= i < |s| && p(s[i]) ensures s[i] in Keep(s, p) {
        if i > 0 {
          assert s[i] == s[1..][i - 1];
        }
      }
    }
  }

  /** The complement of a predicate (`filterNot`, the `else` branch). */
  function Not<T>(p: T -> bool): T -> bool
  {
    x => !p(x)
  }

  /** `a` is `b` with some elements left out, the rest in their order. */
  predicate IsSubsequence<T(==)>(a: seq<T>, b: seq<T>)
    decreases |b|
  {
    if a == [] then true
    else if b == [] then false
    else if a[0] == b[0] then IsSubsequence(a[1..], b[1..])
    else IsSubsequence(a, b[1..])
  }

  lemma {:induction false} SubsequenceReflexive<T>(s: seq<T>)
    ensures IsSubsequence(s, s)
  {
    if s != [] {
      SubsequenceReflexive(s[1..]);
    }
  }

  lemma {:induction false} SubsequenceLength<T>(a: seq<T>, b: seq<T>)
    requires IsSubsequence(a, b)
    ensures |a| <= |b|
    decreases |b|
  {
    if a != [] {
      if a[0] == b[0] {
        SubsequenceLength(a[1..], b[1..]);
      } else {
        SubsequenceLength(a, b[1..]);
      }
    }
  }

  /** Every element of a subsequence comes from the longer sequence. */
  lemma {:induction false} SubsequenceElements<T>(a: seq<T>, b: seq<T>)
    requires IsSubsequence(a, b)
    ensures forall i :: 0 <= i < |a| ==> a[i] in b
    decreases |b|
  {
    if a != [] {
      if a[0] == b[0] {
        SubsequenceElements(a[1..], b[1..]);
        forall i | 0 <= i < |a| ensures a[i] in b {
          if i > 0 { assert a[i] == a[1..][i - 1]; }
        }
      } else {
        SubsequenceElements(a, b[1..]);
      }
    }
  }

  /** Dropping the first element of a subsequence leaves a subsequence. */
  lemma {:induction false} SubsequenceDropHead<T>(a: seq<T>, b: seq<T>)
    requires a != [] && IsSubsequence(a, b)
    ensures IsSubsequence(a[1..], b)
    decreases |b|
  {
    if a[0] == b[0] {
      SubsequenceExtend(a[1..], b);
    } else {
      SubsequenceDropHead(a, b[1..]);
      SubsequenceExtend(a[1..], b);
    }
  }

  /** A subsequence of the tail is a subsequence of the whole. */
  lemma {:induction false} SubsequenceExtend<T>(a: seq<T>, b: seq<T>)
    requires b != [] && IsSubsequence(a, b[1..])
    ensures IsSubsequence(a, b)
    decreases |b|, 0
  {
    if a != [] && a[0] == b[0] {
      SubsequenceDropHead(a, b[1..]);
    }
  }

  lemma {:induction false} SubsequenceTransitive<T>(a: seq<T>, b: seq<T>, c: seq<T>)
    requires IsSubsequence(a, b) && IsSubsequence(b, c)
    ensures IsSubsequence(a, c)
    decreases |c|
  {
    if a != [] {
      if b[0] == c[0] {
        if a[0] == b[0] {
          SubsequenceTransitive(a[1..], b[1..], c[1..]);
        } else {
          SubsequenceTransitive(a, b[1..], c[1..]);
          SubsequenceExtend(a, c);
        }
      } else {
        SubsequenceTransitive(a, b, c[1..]);
        SubsequenceExtend(a, c);
      }
    }
  }

  /** Filtering keeps the surviving elements in their original order. */
  lemma {:induction false} KeepIsSubsequence<T>(s: seq<T>, p: T -> bool)
    ensures IsSubsequence(Keep(s, p), s)
  {
    if s != [] {
      KeepIsSubsequence(s[1..], p);
      if p(s[0]) {
        assert ([s[0]] + Keep(s[1..], p))[1..] == Keep(s[1..], p);
      } else {
        SubsequenceExtend(Keep(s[1..], p), s);
      }
    }
  }

  /** Filtering a concatenation filters each part. */
  lemma {:induction false} KeepAppend<T>(a: seq<T>, b: seq<T>, p: T -> bool)
    ensures Keep(a + b, p) == Keep(a, p) + Keep(b, p)
  {
    if a == [] {
      assert a + b == b;
    } else {
      assert (a + b)[1..] == a[1..] + b;
      KeepAppend(a[1..], b, p);
    }
  }

  /** Filtering one more element of a prefix. */
  lemma KeepPrefixStep<T>(s: seq<T>, i: nat, p: T -> bool)
    requires i < |s|
    ensures Keep(s[..i + 1], p) == Keep(s[..i], p) + (if p(s[i]) then [s[i]] else [])
  {
    assert s[..i + 1] == s[..i] + [s[i]];
    KeepAppend(s[..i], [s[i]], p);
  }

  /** A filter every element passes returns the list unchanged. */
  lemma {:induction false} KeepAll<T>(s: seq<T>, p: T -> bool)
    requires forall i :: 0 <= i < |s| ==> p(s[i])
    ensures Keep(s, p) == s
  {
    if s != [] {
      KeepAll(s[1..], p);
    }
  }

  /**
   Counting: an element satisfying the predicate is kept as often as it
   occurs in the list, and any other element not at all.
   */
  lemma {:induction false} KeepMultiset<T>(s: seq<T>, p: T -> bool)
    ensures forall x :: multiset(Keep(s, p))[x] == if p(x) then multiset(s)[x] else 0
  {
    if s != [] {
      KeepMultiset(s[1..], p);
      assert s == [s[0]] + s[1..];
    }
  }

  /** A predicate and its complement split a list into parts whose sizes add up. */
  lemma {:induction false} PartitionCount<T>(s: seq<T>, p: T -> bool)
    ensures |Keep(s, p)| + |Keep(s, Not(p))| == |s|
  {
    if s != [] {
      PartitionCount(s[1..], p);
    }
  }

  /** ... and every element lands in exactly one of the two parts. */
  lemma {:induction false} PartitionMultiset<T>(s: seq<T>, p: T -> bool)
    ensures multiset(Keep(s, p)) + multiset(Keep(s, Not(p))) == multiset(s)
  {
    if s != [] {
      PartitionMultiset(s[1..], p);
      assert s == [s[0]] + s[1..];
    }
  }
}
