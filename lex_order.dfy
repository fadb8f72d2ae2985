/** The order in which the sort-order checker compares identifiers, and the
    standard library's stable `sort_by`, both as functions on sequences.

    Rust orders `String`s by their UTF-8 bytes, which is the same as ordering
    them code point by code point; a proper prefix sorts first. Dafny's own `<`
    on strings means "proper prefix", so the order is written out here. */
module LexOrder {
  import opened Wrappers

  /** `a.cmp(b) == Ordering::Less` for two identifier strings. */
  predicate Less(a: string, b: string)
    decreases |a|
  {
    |b| > 0 && (|a| == 0 || a[0] < b[0] || (a[0] == b[0] && Less(a[1..], b[1..])))
  }

  predicate LessEq(a: string, b: string) {
    a == b || Less(a, b)
  }

  lemma {:induction false} LessIrreflexive(a: string)
    ensures !Less(a, a)
  {
    if |a| > 0 {
      LessIrreflexive(a[1..]);
    }
  }

  lemma {:induction false} LessTransitive(a: string, b: string, c: string)
    requires Less(a, b) && Less(b, c)
    ensures Less(a, c)
  {
    if |a| > 0 && a[0] == b[0] && b[0] == c[0] {
      LessTransitive(a[1..], b[1..], c[1..]);
    }
  }

  /** Two different identifiers are always ordered one way or the other. */
  lemma {:induction false} LessTotal(a: string, b: string)
    requires a != b
    ensures Less(a, b) || Less(b, a)
  {
    if |a| > 0 && |b| > 0 && a[0] == b[0] {
      assert a == [a[0]] + a[1..] && b == [b[0]] + b[1..];
      LessTotal(a[1..], b[1..]);
    }
  }

  lemma LessAsymmetric(a: string, b: string)
    requires Less(a, b)
    ensures !LessEq(b, a)
  {
    LessIrreflexive(a);
    if Less(b, a) {
      LessTransitive(a, b, a);
    }
  }

  lemma LessEqTransitive(a: string, b: string, c: string)
    requires LessEq(a, b) && LessEq(b, c)
    ensures LessEq(a, c)
    ensures Less(a, b) ==> Less(a, c)
  {
    if Less(a, b) && Less(b, c) {
      LessTransitive(a, b, c);
    }
  }

  /** The key sequence of `s`, e.g. the identifiers of a list of variants. */
  function Keys<T>(s: seq<T>, key: T -> string): (r: seq<string>)
    ensures |r| == |s| && forall i :: 0 <= i < |s| ==> r[i] == key(s[i])
  {
    if s == [] then [] else [key(s[0])] + Keys(s[1..], key)
  }

  /** `s` is in ascending order of `key` (equal keys allowed). */
  predicate SortedBy<T>(s: seq<T>, key: T -> string) {
    forall i, j :: 0 <= i < j < |s| ==> LessEq(key(s[i]), key(s[j]))
  }

  predicate AllAtLeast<T>(k: string, s: seq<T>, key: T -> string) {
    forall j :: 0 <= j < |s| ==> LessEq(k, key(s[j]))
  }

  predicate AllAtMost<T>(s: seq<T>, k: string, key: T -> string) {
    forall j :: 0 <= j < |s| ==> LessEq(key(s[j]), k)
  }

  /** Inserts `x` after every element whose key is not greater than its own. */
  function InsertBy<T>(t: seq<T>, x: T, key: T -> string): (r: seq<T>)
    ensures |r| == |t| + 1
  {
    if t == [] then [x]
    else if Less(key(x), key(t[0])) then [x] + t
    else [t[0]] + InsertBy(t[1..], x, key)
  }

  /** `v.sort_by(|a, b| key(a).cmp(&key(b)))`: a stable sort, as insertion sort. */
  function SortBy<T>(s: seq<T>, key: T -> string): (r: seq<T>)
    ensures |r| == |s|
  {
    if s == [] then [] else InsertBy(SortBy(s[..|s| - 1], key), s[|s| - 1], key)
  }

  lemma {:induction false} InsertByPermutes<T>(t: seq<T>, x: T, key: T -> string)
    ensures multiset(InsertBy(t, x, key)) == multiset(t) + multiset{x}
  {
    if t != [] && !Less(key(x), key(t[0])) {
      InsertByPermutes(t[1..], x, key);
      assert t == [t[0]] + t[1..];
    }
  }

  lemma {:induction false} InsertByPermutesKeys<T>(t: seq<T>, x: T, key: T -> string)
    ensures multiset(Keys(InsertBy(t, x, key), key)) == multiset(Keys(t, key)) + multiset{key(x)}
  {
    if t == [] {
    } else if Less(key(x), key(t[0])) {
      assert Keys([x] + t, key) == [key(x)] + Keys(t, key);
    } else {
      var r := InsertBy(t[1..], x, key);
      InsertByPermutesKeys(t[1..], x, key);
      assert Keys([t[0]] + r, key) == [key(t[0])] + Keys(r, key);
      assert Keys(t, key) == [key(t[0])] + Keys(t[1..], key);
    }
  }

  lemma {:induction false} KeysAppend<T>(s: seq<T>, x: T, key: T -> string)
    ensures Keys(s + [x], key) == Keys(s, key) + [key(x)]
  {
  }

  /** The sorted copy is a permutation of the original. */
  lemma {:induction false} SortByPermutes<T>(s: seq<T>, key: T -> string)
    ensures multiset(SortBy(s, key)) == multiset(s)
  {
    if s != [] {
      var init, last := s[..|s| - 1], s[|s| - 1];
      SortByPermutes(init, key);
      InsertByPermutes(SortBy(init, key), last, key);
      assert s == init + [last];
    }
  }

  /** The keys of the sorted copy are a permutation of the original keys. */
  lemma {:induction false} SortByPermutesKeys<T>(s: seq<T>, key: T -> string)
    ensures multiset(Keys(SortBy(s, key), key)) == multiset(Keys(s, key))
  {
    if s != [] {
      var init, last := s[..|s| - 1], s[|s| - 1];
      assert SortBy(s, key) == InsertBy(SortBy(init, key), last, key);
      SortByPermutesKeys(init, key);
      InsertByPermutesKeys(SortBy(init, key), last, key);
      assert s == init + [last];
      KeysAppend(init, last, key);
      assert multiset(Keys(s, key)) == multiset(Keys(init, key)) + multiset{key(last)};
    }
  }

  lemma {:induction false} InsertByKeepsLowerBound<T>(k: string, t: seq<T>, x: T, key: T -> string)
    requires AllAtLeast(k, t, key) && LessEq(k, key(x))
    ensures AllAtLeast(k, InsertBy(t, x, key), key)
  {
    if t != [] && !Less(key(x), key(t[0])) {
      InsertByKeepsLowerBound(k, t[1..], x, key);
    }
  }

  lemma {:induction false} InsertByKeepsSorted<T>(t: seq<T>, x: T, key: T -> string)
    requires SortedBy(t, key)
    ensures SortedBy(InsertBy(t, x, key), key)
  {
    if t == [] {
    } else if Less(key(x), key(t[0])) {
      var r := InsertBy(t, x, key);
      forall i, j | 0 <= i < j < |r| ensures LessEq(key(r[i]), key(r[j])) {
        if i == 0 {
          LessEqTransitive(key(x), key(t[0]), key(t[j - 1]));
        }
      }
    } else {
      if key(x) != key(t[0]) {
        LessTotal(key(x), key(t[0]));
      }
      InsertByKeepsSorted(t[1..], x, key);
      InsertByKeepsLowerBound(key(t[0]), t[1..], x, key);
    }
  }

  /** The sorted copy is in ascending order. */
  lemma {:induction false} SortByIsSorted<T>(s: seq<T>, key: T -> string)
    ensures SortedBy(SortBy(s, key), key)
  {
    if s != [] {
      SortByIsSorted(s[..|s| - 1], key);
      InsertByKeepsSorted(SortBy(s[..|s| - 1], key), s[|s| - 1], key);
    }
  }

  lemma {:induction false} InsertByAppends<T>(t: seq<T>, x: T, key: T -> string)
    requires AllAtMost(t, key(x), key)
    ensures InsertBy(t, x, key) == t + [x]
  {
    if t != [] {
      if Less(key(t[0]), key(x)) {
        LessAsymmetric(key(t[0]), key(x));
      } else {
        LessIrreflexive(key(x));
      }
      InsertByAppends(t[1..], x, key);
      assert t == [t[0]] + t[1..];
    }
  }

  /** Sorting a sequence that is already in order leaves it unchanged. */
  lemma {:induction false} SortByOfSorted<T>(s: seq<T>, key: T -> string)
    ensures SortedBy(s, key) ==> SortBy(s, key) == s
  {
    if s != [] && SortedBy(s, key) {
      var init, last := s[..|s| - 1], s[|s| - 1];
      SortByOfSorted(init, key);
      InsertByAppends(init, last, key);
      assert s == init + [last];
    }
  }

  /** The elements of `s` whose key is `k`, in their order in `s`. */
  function WithKey<T>(s: seq<T>, k: string, key: T -> string): seq<T> {
    if s == [] then []
    else (if key(s[0]) == k then [s[0]] else []) + WithKey(s[1..], k, key)
  }

  lemma {:induction false} WithKeyAppend<T>(s: seq<T>, x: T, k: string, key: T -> string)
    ensures WithKey(s + [x], k, key) == WithKey(s, k, key) + (if key(x) == k then [x] else [])
  {
    if s != [] {
      assert (s + [x])[1..] == s[1..] + [x];
      WithKeyAppend(s[1..], x, k, key);
    }
  }

  lemma {:induction false} WithKeyAbsent<T>(s: seq<T>, k: string, key: T -> string)
    requires forall j :: 0 <= j < |s| ==> key(s[j]) != k
    ensures WithKey(s, k, key) == []
  {
    if s != [] {
      WithKeyAbsent(s[1..], k, key);
    }
  }

  /** An element whose key sorts before the first of a sorted sequence has a
      key that no element of the sequence has. */
  lemma BelowSorted<T>(t: seq<T>, x: T, key: T -> string)
    requires SortedBy(t, key) && t != [] && Less(key(x), key(t[0]))
    ensures forall j :: 0 <= j < |t| ==> key(t[j]) != key(x)
  {
    forall j | 0 <= j < |t| ensures key(t[j]) != key(x) {
      if j > 0 {
        assert LessEq(key(t[0]), key(t[j]));
      }
      LessEqTransitive(key(x), key(t[0]), key(t[j]));
      LessIrreflexive(key(x));
    }
  }

  lemma SortedTail<T>(t: seq<T>, key: T -> string)
    requires SortedBy(t, key) && t != []
    ensures SortedBy(t[1..], key)
  {
    forall i, j | 0 <= i < j < |t| - 1 ensures LessEq(key(t[1..][i]), key(t[1..][j])) {
      assert t[1..][i] == t[i + 1] && t[1..][j] == t[j + 1];
    }
  }

  /** The elements with key `k` of a sequence with a first element `x`. */
  lemma WithKeyCons<T>(x: T, t: seq<T>, k: string, key: T -> string)
    ensures WithKey([x] + t, k, key) == (if key(x) == k then [x] else []) + WithKey(t, k, key)
  {
    assert ([x] + t)[1..] == t;
  }

  lemma {:induction false} InsertByStable<T>(t: seq<T>, x: T, k: string, key: T -> string)
    requires SortedBy(t, key)
    ensures WithKey(InsertBy(t, x, key), k, key) == WithKey(t, k, key) + (if key(x) == k then [x] else [])
  {
    if t == [] {
      WithKeyCons(x, [], k, key);
    } else if Less(key(x), key(t[0])) {
      assert InsertBy(t, x, key) == [x] + t;
      WithKeyCons(x, t, k, key);
      if key(x) == k {
        BelowSorted(t, x, key);
        WithKeyAbsent(t, k, key);
      }
    } else {
      var r := InsertBy(t[1..], x, key);
      assert InsertBy(t, x, key) == [t[0]] + r;
      SortedTail(t, key);
      InsertByStable(t[1..], x, k, key);
      WithKeyCons(t[0], r, k, key);
      WithKeyCons(t[0], t[1..], k, key);
      assert [t[0]] + t[1..] == t;
    }
  }

  /** `sort_by` is stable: elements with equal keys keep their relative order. */
  lemma {:induction false} SortByStable<T>(s: seq<T>, k: string, key: T -> string)
    ensures WithKey(SortBy(s, key), k, key) == WithKey(s, k, key)
  {
    if s != [] {
      var init, last := s[..|s| - 1], s[|s| - 1];
      SortByStable(init, k, key);
      SortByIsSorted(init, key);
      InsertByStable(SortBy(init, key), last, k, key);
      WithKeyAppend(init, last, k, key);
      assert s == init + [last];
    }
  }

  /** The first index at which two key sequences differ, if any. */
  function FirstMismatch(a: seq<string>, b: seq<string>): (r: Option<nat>)
    requires |a| == |b|
    ensures r.None? <==> a == b
    ensures r.Some? ==>
      && r.value < |a|
      && (forall k :: 0 <= k < r.value ==> a[k] == b[k])
      && a[r.value] != b[r.value]
  {
    if a == [] then None
    else if a[0] != b[0] then Some(0)
    else match FirstMismatch(a[1..], b[1..])
      case None => assert a == [a[0]] + a[1..] && b == [b[0]] + b[1..]; None
      case Some(i) =>
        assert forall k :: 0 <= k < i ==> a[1..][k] == a[k + 1] && b[1..][k] == b[k + 1];
        Some(i + 1)
  }

  /** The first mismatch is the one index before which the sequences agree and
      at which they differ. */
  lemma {:induction false} FirstMismatchAt(a: seq<string>, b: seq<string>, i: nat)
    requires |a| == |b| && i < |a|
    requires forall k :: 0 <= k < i ==> a[k] == b[k]
    requires a[i] != b[i]
    ensures FirstMismatch(a, b) == Some(i)
  {
    if i > 0 {
      assert a[0] == b[0];
      forall k | 0 <= k < i - 1 ensures a[1..][k] == b[1..][k] {
        assert a[k + 1] == b[k + 1];
      }
      FirstMismatchAt(a[1..], b[1..], i - 1);
    }
  }

  /** In an ascending permutation of `kv` that agrees with `kv` before index `i`
      and differs at `i`, the element at `i` is strictly smaller. */
  lemma FirstMismatchOfPermutation(ks: seq<string>, kv: seq<string>, i: nat)
    requires |ks| == |kv| && i < |ks|
    requires multiset(ks) == multiset(kv)
    requires forall a, b :: 0 <= a < b < |ks| ==> LessEq(ks[a], ks[b])
    requires ks[..i] == kv[..i] && ks[i] != kv[i]
    ensures Less(ks[i], kv[i])
  {
    var x := kv[i];
    assert ks == ks[..i] + ks[i..] && kv == kv[..i] + kv[i..];
    assert multiset(ks)[x] == multiset(ks[..i])[x] + multiset(ks[i..])[x];
    assert multiset(kv)[x] == multiset(kv[..i])[x] + multiset(kv[i..])[x];
    assert kv[i..][0] == x;
    assert x in multiset(ks[i..]);
    var j :| 0 <= j < |ks[i..]| && ks[i..][j] == x;
    assert ks[i + j] == x;
  }

  /** What the standard library promises of `sort_by`'s result `s` for the input `v`. */
  ghost predicate IsSortedCopy<T>(s: seq<T>, v: seq<T>, key: T -> string) {
    && |s| == |v|
    && SortedBy(s, key)
    && multiset(Keys(s, key)) == multiset(Keys(v, key))
    && (SortedBy(v, key) ==> s == v)
  }

  lemma SortByIsSortedCopy<T>(v: seq<T>, key: T -> string)
    ensures IsSortedCopy(SortBy(v, key), v, key)
  {
    SortByPermutesKeys(v, key);
    SortByIsSorted(v, key);
    SortByOfSorted(v, key);
  }

  /** What the scan over a sequence and its sorted copy learns when it stops at
      index `i`: that is the first mismatch, the sorted copy holds the smaller
      key there, and the sequence was not in order. */
  lemma MismatchFound<T>(v: seq<T>, s: seq<T>, key: T -> string, i: nat)
    requires IsSortedCopy(s, v, key) && i < |v|
    requires forall k :: 0 <= k < i ==> key(s[k]) == key(v[k])
    requires key(s[i]) != key(v[i])
    ensures FirstMismatch(Keys(v, key), Keys(s, key)) == Some(i)
    ensures Less(key(s[i]), key(v[i]))
    ensures !SortedBy(v, key)
  {
    var ks, kv := Keys(s, key), Keys(v, key);
    forall k | 0 <= k < i ensures kv[k] == ks[k] {
      assert ks[k] == key(s[k]) && kv[k] == key(v[k]);
    }
    FirstMismatchAt(kv, ks, i);
    assert ks[..i] == kv[..i];
    FirstMismatchOfPermutation(ks, kv, i);
  }

  /** When the scan finds no mismatch, the sequence was already in order. */
  lemma NoMismatchFound<T>(v: seq<T>, s: seq<T>, key: T -> string)
    requires IsSortedCopy(s, v, key)
    requires forall k :: 0 <= k < |v| ==> key(s[k]) == key(v[k])
    ensures FirstMismatch(Keys(v, key), Keys(s, key)) == None
    ensures SortedBy(v, key)
  {
    assert Keys(v, key) == Keys(s, key);
    forall i, j | 0 <= i < j < |v|
      ensures LessEq(key(v[i]), key(v[j]))
    {
      assert LessEq(key(s[i]), key(s[j]));
    }
  }

  /** The scan both checks make after sorting a copy: walk the two sequences by
      index and stop at the first position where the keys differ. */
  method ScanKeys<T>(v: seq<T>, s: seq<T>, key: T -> string) returns (mismatch: Option<nat>)
    requires |s| == |v|
    ensures mismatch.None? ==> forall k :: 0 <= k < |v| ==> key(s[k]) == key(v[k])
    ensures mismatch.Some? ==>
      && mismatch.value < |v|
      && (forall k :: 0 <= k < mismatch.value ==> key(s[k]) == key(v[k]))
      && key(s[mismatch.value]) != key(v[mismatch.value])
  {
    for i := 0 to |v|
      invariant forall k :: 0 <= k < i ==> key(s[k]) == key(v[k])
    {
      if key(v[i]) != key(s[i]) {
        return Some(i);
      }
    }
    return None;
  }

  /** What the scan of `ScanKeys` over a sequence and its sorted copy means. */
  lemma ScanMeaning<T>(v: seq<T>, key: T -> string, mismatch: Option<nat>)
    requires |SortBy(v, key)| == |v|
    requires mismatch.None? ==> forall k :: 0 <= k < |v| ==> key(SortBy(v, key)[k]) == key(v[k])
    requires mismatch.Some? ==>
      && mismatch.value < |v|
      && (forall k :: 0 <= k < mismatch.value ==> key(SortBy(v, key)[k]) == key(v[k]))
      && key(SortBy(v, key)[mismatch.value]) != key(v[mismatch.value])
    ensures mismatch.None? <==> SortedBy(v, key)
    ensures mismatch.Some? ==> Less(key(SortBy(v, key)[mismatch.value]), key(v[mismatch.value]))
  {
    var s := SortBy(v, key);
    SortByIsSortedCopy(v, key);
    match mismatch {
      case None => NoMismatchFound(v, s, key);
      case Some(i) => MismatchFound(v, s, key, i);
    }
  }

  /** The index `ScanKeys` stops at is the first mismatch of the key sequences. */
  lemma ScanFindsFirstMismatch<T>(v: seq<T>, key: T -> string, mismatch: Option<nat>)
    requires |SortBy(v, key)| == |v|
    requires mismatch.None? ==> forall k :: 0 <= k < |v| ==> key(SortBy(v, key)[k]) == key(v[k])
    requires mismatch.Some? ==>
      && mismatch.value < |v|
      && (forall k :: 0 <= k < mismatch.value ==> key(SortBy(v, key)[k]) == key(v[k]))
      && key(SortBy(v, key)[mismatch.value]) != key(v[mismatch.value])
    ensures mismatch == FirstMismatch(Keys(v, key), Keys(SortBy(v, key), key))
  {
    var s := SortBy(v, key);
    SortByIsSortedCopy(v, key);
    match mismatch {
      case None => NoMismatchFound(v, s, key);
      case Some(i) => MismatchFound(v, s, key, i);
    }
  }

  /** Where a sequence and its sorted copy first differ, if anywhere: nowhere
      exactly when the sequence is in order, and otherwise the sorted copy holds
      the strictly smaller key there. */
  lemma FirstMismatchOfSortedCopy<T>(v: seq<T>, s: seq<T>, key: T -> string)
    requires IsSortedCopy(s, v, key)
    ensures var m := FirstMismatch(Keys(v, key), Keys(s, key));
      && (m.None? <==> SortedBy(v, key))
      && (m.Some? ==>
            && m.value < |v|
            && (forall k :: 0 <= k < m.value ==> key(s[k]) == key(v[k]))
            && Less(key(s[m.value]), key(v[m.value])))
  {
    var kv, ks := Keys(v, key), Keys(s, key);
    match FirstMismatch(kv, ks) {
      case None =>
        forall k | 0 <= k < |v| ensures key(s[k]) == key(v[k]) {
          assert kv[k] == ks[k];
        }
        NoMismatchFound(v, s, key);
      case Some(i) =>
        forall k | 0 <= k < i ensures key(s[k]) == key(v[k]) {
          assert kv[k] == ks[k];
        }
        MismatchFound(v, s, key, i);
    }
  }

  /** `FirstMismatchOfSortedCopy` for the copy `SortBy` makes. */
  lemma SortByFirstMismatch<T>(v: seq<T>, key: T -> string)
    ensures |SortBy(v, key)| == |v|
    ensures var s := SortBy(v, key);
      var m := FirstMismatch(Keys(v, key), Keys(s, key));
      && (m.None? <==> SortedBy(v, key))
      && (m.Some? ==>
            && m.value < |v|
            && (forall k :: 0 <= k < m.value ==> key(s[k]) == key(v[k]))
            && Less(key(s[m.value]), key(v[m.value])))
  {
    SortByIsSortedCopy(v, key);
    FirstMismatchOfSortedCopy(v, SortBy(v, key), key);
  }
}
