/**
 * Presidio's RecognizerResult, the overlap test both greedy filters use, and Python's stable sort
 * on a descending lexicographic key.
 */
module RecognizerResults {

  /** One detector's claim: `text[start:end]` is an entity of `entityType`; `score` is in hundredths. */
  datatype RecognizerResult = RecognizerResult(entityType: string, start: int, end: int, score: int)

  /** The half-open overlap test `a.start < b.end and a.end > b.start`. */
  predicate OverlapsResult(a: RecognizerResult, b: RecognizerResult)
  {
    a.start < b.end && a.end > b.start
  }

  /** `r` overlaps one of the results already kept. */
  predicate OverlapsKept(r: RecognizerResult, kept: seq<RecognizerResult>)
  {
    exists k :: 0 <= k < |kept| && OverlapsResult(r, kept[k])
  }

  predicate PairwiseDisjoint(rs: seq<RecognizerResult>)
  {
    forall i, j :: 0 <= i < j < |rs| ==> !OverlapsResult(rs[i], rs[j])
  }

  /** The `used_ranges` list both filters keep beside the kept results. */
  function RangesOf(rs: seq<RecognizerResult>): (ranges: seq<(int, int)>)
    ensures |ranges| == |rs|
  {
    seq(|rs|, k requires 0 <= k < |rs| => (rs[k].start, rs[k].end))
  }

  /** The inner scan `for start, end in used_ranges: if r.start < end and r.end > start: break`. */
  method OverlapsAny(usedRanges: seq<(int, int)>, start: int, end: int) returns (overlaps: bool)
    ensures overlaps <==> exists k :: 0 <= k < |usedRanges| && start < usedRanges[k].1 && end > usedRanges[k].0
  {
    overlaps := false;
    var k := 0;
    while k < |usedRanges|
      invariant 0 <= k <= |usedRanges|
      invariant forall m :: 0 <= m < k ==> !(start < usedRanges[m].1 && end > usedRanges[m].0)
    {
      if start < usedRanges[k].1 && end > usedRanges[k].0 {
        overlaps := true;
        break;
      }
      k := k + 1;
    }
  }

  /** A scan of the ranges of the kept results answers the overlap question about the results. */
  lemma RangesOverlap(r: RecognizerResult, kept: seq<RecognizerResult>)
    ensures (exists k :: 0 <= k < |kept| && r.start < RangesOf(kept)[k].1 && r.end > RangesOf(kept)[k].0)
            <==> OverlapsKept(r, kept)
  {
    if OverlapsKept(r, kept) {
      var k :| 0 <= k < |kept| && OverlapsResult(r, kept[k]);
      assert RangesOf(kept)[k] == (kept[k].start, kept[k].end);
    }
  }

  /** A sort key `(major, minor)`, compared lexicographically. */
  datatype Key = Key(major: int, minor: int)

  predicate KeyGe(a: Key, b: Key)
  {
    a.major > b.major || (a.major == b.major && a.minor >= b.minor)
  }

  predicate SortedDesc(s: seq<RecognizerResult>, key: RecognizerResult -> Key)
  {
    forall i, j :: 0 <= i < j < |s| ==> KeyGe(key(s[i]), key(s[j]))
  }

  /** Inserts `x` before the first element whose key is not above its own. */
  function InsertDesc(x: RecognizerResult, s: seq<RecognizerResult>, key: RecognizerResult -> Key): (r: seq<RecognizerResult>)
    ensures multiset(r) == multiset(s) + multiset{x}
    decreases |s|
  {
    if s == [] || KeyGe(key(x), key(s[0])) then [x] + s
    else
      assert s == [s[0]] + s[1..];
      [s[0]] + InsertDesc(x, s[1..], key)
  }

  /** Python's stable sort in descending key order (`sort(key=neg)` or `sorted(key, reverse=True)`). */
  function SortDesc(s: seq<RecognizerResult>, key: RecognizerResult -> Key): (r: seq<RecognizerResult>)
    ensures multiset(r) == multiset(s)
    decreases |s|
  {
    if s == [] then []
    else
      assert s == [s[0]] + s[1..];
      InsertDesc(s[0], SortDesc(s[1..], key), key)
  }

  /** An element of the insertion is the inserted one or an element of the list. */
  lemma InsertDescElements(x: RecognizerResult, s: seq<RecognizerResult>, key: RecognizerResult -> Key, y: RecognizerResult)
    requires y in InsertDesc(x, s, key)
    ensures y == x || y in s
  {
    assert y in multiset(InsertDesc(x, s, key));
  }

  lemma {:induction false} InsertDescSorted(x: RecognizerResult, s: seq<RecognizerResult>, key: RecognizerResult -> Key)
    requires SortedDesc(s, key)
    ensures SortedDesc(InsertDesc(x, s, key), key)
    decreases |s|
  {
    if s == [] || KeyGe(key(x), key(s[0])) {
      var r := [x] + s;
      forall i, j | 0 <= i < j < |r| ensures KeyGe(key(r[i]), key(r[j])) {
        if i > 0 {
          assert r[i] == s[i - 1] && r[j] == s[j - 1];
        } else {
          assert r[j] == s[j - 1];
          assert KeyGe(key(s[0]), key(s[j - 1]));
        }
      }
    } else {
      var t := InsertDesc(x, s[1..], key);
      InsertDescSorted(x, s[1..], key);
      var r := [s[0]] + t;
      forall j | 0 <= j < |t| ensures KeyGe(key(s[0]), key(t[j])) {
        InsertDescElements(x, s[1..], key, t[j]);
        if t[j] != x {
          var m :| 0 <= m < |s[1..]| && s[1..][m] == t[j];
          assert s[m + 1] == t[j];
        }
      }
      forall i, j | 0 <= i < j < |r| ensures KeyGe(key(r[i]), key(r[j])) {
        if i > 0 {
          assert r[i] == t[i - 1] && r[j] == t[j - 1];
        } else {
          assert r[j] == t[j - 1];
        }
      }
    }
  }

  /** The stable sort orders its output by descending key. */
  lemma {:induction false} SortDescSorted(s: seq<RecognizerResult>, key: RecognizerResult -> Key)
    ensures SortedDesc(SortDesc(s, key), key)
    decreases |s|
  {
    if s != [] {
      SortDescSorted(s[1..], key);
      InsertDescSorted(s[0], SortDesc(s[1..], key), key);
    }
  }

  /** The elements of `s` whose key is `k`, in order. */
  function WithKey(s: seq<RecognizerResult>, key: RecognizerResult -> Key, k: Key): seq<RecognizerResult>
    decreases |s|
  {
    if s == [] then [] else (if key(s[0]) == k then [s[0]] else []) + WithKey(s[1..], key, k)
  }

  lemma {:induction false} InsertDescStable(x: RecognizerResult, s: seq<RecognizerResult>, key: RecognizerResult -> Key, k: Key)
    ensures WithKey(InsertDesc(x, s, key), key, k) == (if key(x) == k then [x] else []) + WithKey(s, key, k)
    decreases |s|
  {
    if s == [] || KeyGe(key(x), key(s[0])) {
      var r := [x] + s;
      assert r[0] == x && r[1..] == s;
    } else {
      var r := [s[0]] + InsertDesc(x, s[1..], key);
      assert r[0] == s[0] && r[1..] == InsertDesc(x, s[1..], key);
      InsertDescStable(x, s[1..], key, k);
      assert key(s[0]) != key(x);
    }
  }

  /** Stability: elements with equal keys keep their relative input order. */
  lemma {:induction false} SortDescStable(s: seq<RecognizerResult>, key: RecognizerResult -> Key, k: Key)
    ensures WithKey(SortDesc(s, key), key, k) == WithKey(s, key, k)
    decreases |s|
  {
    if s != [] {
      SortDescStable(s[1..], key, k);
      InsertDescStable(s[0], SortDesc(s[1..], key), key, k);
    }
  }

  /** `a` is `b` with some elements left out (defined from the back, as the filters build their output). */
  predicate IsSubseq(a: seq<RecognizerResult>, b: seq<RecognizerResult>)
    decreases |b|
  {
    if a == [] then true
    else if b == [] then false
    else (a[|a| - 1] == b[|b| - 1] && IsSubseq(a[..|a| - 1], b[..|b| - 1])) || IsSubseq(a, b[..|b| - 1])
  }
}
