/** Generic list operations behind the bot's pipelines: Array.prototype.filter,
    flattening keyboard rows, and deduplication that keeps first occurrences. */
module Seqs {

  /** Array.prototype.filter. */
  function Filter<T>(s: seq<T>, p: T -> bool): (r: seq<T>)
    ensures |r| <= |s|
    ensures forall k :: 0 <= k < |r| ==> p(r[k])
  {
    if |s| == 0 then [] else (if p(s[0]) then [s[0]] else []) + Filter(s[1..], p)
  }

  lemma {:induction false} FilterAppend<T>(a: seq<T>, b: seq<T>, p: T -> bool)
    ensures Filter(a + b, p) == Filter(a, p) + Filter(b, p)
  {
    if |a| > 0 {
      assert (a + b)[1..] == a[1..] + b;
      FilterAppend(a[1..], b, p);
    } else {
      assert a + b == b;
    }
  }

  /** An element is kept exactly when it is in the input and passes the test. */
  lemma {:induction false} FilterMembers<T>(s: seq<T>, p: T -> bool, x: T)
    ensures x in Filter(s, p) <==> x in s && p(x)
  {
    if |s| > 0 {
      FilterMembers(s[1..], p, x);
      assert s == [s[0]] + s[1..];
    }
  }

  lemma {:induction false} FilterMultiset<T>(s: seq<T>, p: T -> bool)
    ensures multiset(Filter(s, p)) <= multiset(s)
  {
    if |s| > 0 {
      FilterMultiset(s[1..], p);
      assert s == [s[0]] + s[1..];
    }
  }

  /** The concatenation of the rows of a keyboard, in reading order. */
  function Flatten<T>(rows: seq<seq<T>>): seq<T> {
    if |rows| == 0 then [] else Flatten(rows[..|rows| - 1]) + rows[|rows| - 1]
  }

  /** `r` is obtained from `s` by deleting elements, keeping the order of the rest. */
  predicate IsSubsequence<T(==)>(r: seq<T>, s: seq<T>) {
    if |r| == 0 then true
    else if |s| == 0 then false
    else if r[|r| - 1] == s[|s| - 1] then IsSubsequence(r[..|r| - 1], s[..|s| - 1])
    else IsSubsequence(r, s[..|s| - 1])
  }

  lemma {:induction false} SubsequenceExtend<T>(r: seq<T>, s: seq<T>, x: T)
    requires IsSubsequence(r, s)
    ensures IsSubsequence(r, s + [x])
    decreases |s|, 1
  {
    assert (s + [x])[..|s|] == s;
    if |r| > 0 && r[|r| - 1] == x {
      SubsequenceDropLast(r, s);
    }
  }

  lemma {:induction false} SubsequenceDropLast<T>(r: seq<T>, s: seq<T>)
    requires |r| > 0 && IsSubsequence(r, s)
    ensures IsSubsequence(r[..|r| - 1], s)
    decreases |s|, 0
  {
    var r' := r[..|r| - 1];
    if r[|r| - 1] == s[|s| - 1] {
      SubsequenceExtend(r', s[..|s| - 1], s[|s| - 1]);
      assert s[..|s| - 1] + [s[|s| - 1]] == s;
    } else {
      SubsequenceDropLast(r, s[..|s| - 1]);
      SubsequenceExtend(r', s[..|s| - 1], s[|s| - 1]);
      assert s[..|s| - 1] + [s[|s| - 1]] == s;
    }
  }

  /** Filtering keeps the order of what it keeps. */
  lemma {:induction false} FilterSubsequence<T>(s: seq<T>, p: T -> bool)
    ensures IsSubsequence(Filter(s, p), s)
  {
    if |s| > 0 {
      var init, x := s[..|s| - 1], s[|s| - 1];
      assert s == init + [x];
      FilterAppend(init, [x], p);
      FilterSubsequence(init, p);
      assert Filter([x], p) == (if p(x) then [x] else []) + Filter([x][1..], p);
      assert [x][1..] == [];
      var r := Filter(s, p);
      if p(x) {
        assert r == Filter(init, p) + [x];
        assert r[|r| - 1] == s[|s| - 1];
        assert r[..|r| - 1] == Filter(init, p);
        assert IsSubsequence(r, s) == IsSubsequence(r[..|r| - 1], init);
      } else {
        assert r == Filter(init, p);
        SubsequenceExtend(Filter(init, p), init, x);
      }
    } else {
      assert Filter(s, p) == [];
    }
  }

  /** The keys of the elements of `s`. */
  function KeySet<T>(s: seq<T>, key: T -> string): set<string> {
    set i | 0 <= i < |s| :: key(s[i])
  }

  /** The elements of `s` whose key no earlier element has, in order: the result of
      `filter` with a `seen` set (and of `[...new Set(s)]` when the key is the identity). */
  function DedupBy<T>(s: seq<T>, key: T -> string): seq<T> {
    if |s| == 0 then []
    else
      var init := s[..|s| - 1];
      DedupBy(init, key) + (if key(s[|s| - 1]) in KeySet(init, key) then [] else [s[|s| - 1]])
  }

  /** Index `i` holds the first element of `s` with its key. */
  predicate IsFirstOfKey<T>(s: seq<T>, key: T -> string, i: int)
    requires 0 <= i < |s|
  {
    forall k :: 0 <= k < i ==> key(s[k]) != key(s[i])
  }

  /** Reference definition by index: the elements at first-of-key positions among the first `n`. */
  function FirstOccurrences<T>(s: seq<T>, key: T -> string, n: nat): seq<T>
    requires n <= |s|
  {
    if n == 0 then [] else FirstOccurrences(s, key, n - 1) + (if IsFirstOfKey(s, key, n - 1) then [s[n - 1]] else [])
  }

  lemma KeySetPrefix<T>(s: seq<T>, key: T -> string, n: nat)
    requires n < |s|
    ensures key(s[n]) in KeySet(s[..n], key) <==> !IsFirstOfKey(s, key, n)
  {
    if key(s[n]) in KeySet(s[..n], key) {
      var k :| 0 <= k < n && key(s[..n][k]) == key(s[n]);
      assert key(s[k]) == key(s[n]);
    }
    if !IsFirstOfKey(s, key, n) {
      var k :| 0 <= k < n && key(s[k]) == key(s[n]);
      assert key(s[..n][k]) in KeySet(s[..n], key);
    }
  }

  /** Deduplication through a `seen` set keeps exactly the first occurrence of every key. */
  lemma {:induction false} DedupIsFirstOccurrences<T>(s: seq<T>, key: T -> string)
    ensures DedupBy(s, key) == FirstOccurrences(s, key, |s|)
  {
    DedupPrefixes(s, key, |s|);
    assert s[..|s|] == s;
  }

  lemma {:induction false} DedupPrefixes<T>(s: seq<T>, key: T -> string, n: nat)
    requires n <= |s|
    ensures DedupBy(s[..n], key) == FirstOccurrences(s, key, n)
  {
    if n > 0 {
      DedupPrefixes(s, key, n - 1);
      assert s[..n][..n - 1] == s[..n - 1];
      KeySetPrefix(s, key, n - 1);
    }
  }

  /** Appending an element adds exactly its key. */
  lemma KeySetSnoc<T>(s: seq<T>, key: T -> string, x: T)
    ensures KeySet(s + [x], key) == KeySet(s, key) + {key(x)}
  {
    var t := s + [x];
    forall k | k in KeySet(t, key) ensures k in KeySet(s, key) + {key(x)} {
      var i :| 0 <= i < |t| && key(t[i]) == k;
      if i < |s| { assert key(s[i]) == k; }
    }
    forall k | k in KeySet(s, key) ensures k in KeySet(t, key) {
      var i :| 0 <= i < |s| && key(s[i]) == k;
      assert key(t[i]) == k;
    }
    assert key(t[|s|]) in KeySet(t, key);
  }

  lemma {:induction false} DedupKeySet<T>(s: seq<T>, key: T -> string)
    ensures KeySet(DedupBy(s, key), key) == KeySet(s, key)
  {
    if |s| > 0 {
      var init := s[..|s| - 1];
      var x := s[|s| - 1];
      DedupKeySet(init, key);
      assert s == init + [x];
      KeySetSnoc(init, key, x);
      var d := DedupBy(init, key);
      if key(x) in KeySet(init, key) {
        assert DedupBy(s, key) == d;
      } else {
        assert DedupBy(s, key) == d + [x];
        KeySetSnoc(d, key, x);
      }
    }
  }

  /** No two kept elements share a key. */
  lemma {:induction false} DedupKeysDistinct<T>(s: seq<T>, key: T -> string)
    ensures forall i, j :: 0 <= i < j < |DedupBy(s, key)| ==> key(DedupBy(s, key)[i]) != key(DedupBy(s, key)[j])
  {
    if |s| > 0 {
      var init := s[..|s| - 1];
      var x := s[|s| - 1];
      DedupKeysDistinct(init, key);
      DedupKeySet(init, key);
      var d := DedupBy(init, key);
      if key(x) !in KeySet(init, key) {
        forall i | 0 <= i < |d| ensures key(d[i]) != key(x) {
          assert key(d[i]) in KeySet(d, key);
        }
      }
    }
  }

  lemma {:induction false} DedupSubsequence<T>(s: seq<T>, key: T -> string)
    ensures IsSubsequence(DedupBy(s, key), s)
  {
    if |s| > 0 {
      var init := s[..|s| - 1];
      var x := s[|s| - 1];
      DedupSubsequence(init, key);
      var d := DedupBy(init, key);
      assert init + [x] == s;
      if key(x) in KeySet(init, key) {
        SubsequenceExtend(d, init, x);
        assert DedupBy(s, key) == d;
      } else {
        assert DedupBy(s, key) == d + [x];
        assert (d + [x])[..|d|] == d;
        assert IsSubsequence(d + [x], s);
      }
    }
  }

  /** The first element is always kept, in front. */
  lemma {:induction false} DedupKeepsHead<T>(s: seq<T>, key: T -> string)
    requires |s| > 0
    ensures |DedupBy(s, key)| >= 1 && DedupBy(s, key)[0] == s[0]
  {
    if |s| > 1 {
      var init := s[..|s| - 1];
      DedupKeepsHead(init, key);
    }
  }

  lemma {:induction false} DedupLength<T>(s: seq<T>, key: T -> string)
    ensures |DedupBy(s, key)| <= |s|
  {
    if |s| > 0 {
      DedupLength(s[..|s| - 1], key);
    }
  }
}
