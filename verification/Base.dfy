/** Shared vocabulary: optional values, results, and the byte order Go uses for strings. */
module Base {

  datatype Option<+T> = None | Some(value: T)

  datatype Result<+T, +E> = Ok(value: T) | Err(error: E)

  function Lookup<K, V>(m: map<K, V>, k: K): Option<V> {
    if k in m then Some(m[k]) else None
  }

  /** Strict lexicographic order, the `<` of Go strings and the `id ASC` of the store. */
  predicate Less(a: string, b: string) {
    if b == "" then false
    else if a == "" then true
    else if a[0] != b[0] then a[0] < b[0]
    else Less(a[1..], b[1..])
  }

  lemma LessIrreflexive(a: string)
    ensures !Less(a, a)
  {
    if a != "" { LessIrreflexive(a[1..]); }
  }

  lemma {:induction false} LessTransitive(a: string, b: string, c: string)
    requires Less(a, b) && Less(b, c)
    ensures Less(a, c)
  {
    if a != "" && a[0] == b[0] && b[0] == c[0] {
      LessTransitive(a[1..], b[1..], c[1..]);
    }
  }

  lemma {:induction false} LessTotal(a: string, b: string)
    ensures Less(a, b) || a == b || Less(b, a)
  {
    if a != "" && b != "" && a[0] == b[0] {
      LessTotal(a[1..], b[1..]);
      assert a == [a[0]] + a[1..] && b == [b[0]] + b[1..];
    }
  }

  lemma LessAsymmetric(a: string, b: string)
    requires Less(a, b)
    ensures !Less(b, a)
  {
    if Less(b, a) {
      LessTransitive(a, b, a);
      LessIrreflexive(a);
    }
  }

  /** Strictly increasing keys: sorted and without duplicates. */
  ghost predicate SortedBy<T>(s: seq<T>, key: T -> string) {
    forall i, j :: 0 <= i < j < |s| ==> Less(key(s[i]), key(s[j]))
  }

  ghost predicate DistinctBy<T>(s: seq<T>, key: T -> string) {
    forall i, j :: 0 <= i < j < |s| ==> key(s[i]) != key(s[j])
  }

  ghost predicate Distinct<T>(s: seq<T>) {
    forall i, j :: 0 <= i < j < |s| ==> s[i] != s[j]
  }

  ghost predicate SameElements<T(!new)>(a: seq<T>, b: seq<T>) {
    forall x :: x in a <==> x in b
  }

  function Insert<T>(x: T, s: seq<T>, key: T -> string): seq<T> {
    if s == [] || Less(key(x), key(s[0])) then [x] + s
    else [s[0]] + Insert(x, s[1..], key)
  }

  /** Stands for `sort.Slice` / `sort.Strings` on keys that are pairwise distinct. */
  function Sort<T>(s: seq<T>, key: T -> string): seq<T> {
    if s == [] then [] else Insert(s[0], Sort(s[1..], key), key)
  }

  lemma {:induction false} InsertMembers<T(!new)>(x: T, s: seq<T>, key: T -> string)
    ensures |Insert(x, s, key)| == |s| + 1
    ensures forall y :: y in Insert(x, s, key) <==> y == x || y in s
  {
    if s == [] || Less(key(x), key(s[0])) {
    } else {
      InsertMembers(x, s[1..], key);
      assert s == [s[0]] + s[1..];
    }
  }

  lemma {:induction false} InsertSorted<T(!new)>(x: T, s: seq<T>, key: T -> string)
    requires SortedBy(s, key)
    requires forall i :: 0 <= i < |s| ==> key(s[i]) != key(x)
    ensures SortedBy(Insert(x, s, key), key)
  {
    if s == [] {
    } else if Less(key(x), key(s[0])) {
      forall j | 0 <= j < |s| ensures Less(key(x), key(s[j])) {
        if j > 0 { LessTransitive(key(x), key(s[0]), key(s[j])); }
      }
    } else {
      var tail := Insert(x, s[1..], key);
      InsertSorted(x, s[1..], key);
      InsertMembers(x, s[1..], key);
      LessTotal(key(x), key(s[0]));
      forall j | 0 <= j < |tail| ensures Less(key(s[0]), key(tail[j])) {
        assert tail[j] in tail;
        if tail[j] != x {
          var k :| 0 <= k < |s[1..]| && s[1..][k] == tail[j];
          assert tail[j] == s[k + 1];
        }
      }
    }
  }

  lemma {:induction false} SortCorrect<T(!new)>(s: seq<T>, key: T -> string)
    requires DistinctBy(s, key)
    ensures |Sort(s, key)| == |s|
    ensures SameElements(Sort(s, key), s)
    ensures SortedBy(Sort(s, key), key)
  {
    if s == [] {
    } else {
      var tail := Sort(s[1..], key);
      assert DistinctBy(s[1..], key);
      SortCorrect(s[1..], key);
      forall i | 0 <= i < |tail| ensures key(tail[i]) != key(s[0]) {
        assert tail[i] in tail;
        var k :| 0 <= k < |s[1..]| && s[1..][k] == tail[i];
        assert tail[i] == s[k + 1];
      }
      InsertMembers(s[0], tail, key);
      InsertSorted(s[0], tail, key);
      assert s == [s[0]] + s[1..];
    }
  }

  /** A sorted arrangement is unique, so whatever order produced it cannot show. */
  lemma {:induction false} SortedUnique<T(!new)>(a: seq<T>, b: seq<T>, key: T -> string)
    requires SortedBy(a, key) && SortedBy(b, key)
    requires SameElements(a, b)
    ensures a == b
  {
    assert b == [] || b[0] in b;
    if a == [] {
    } else {
      assert a[0] in b;
      var i :| 0 <= i < |b| && b[i] == a[0];
      assert b[0] in a;
      var j :| 0 <= j < |a| && a[j] == b[0];
      if i > 0 && j > 0 {
        LessAsymmetric(key(a[0]), key(b[0]));
      }
      assert a[0] == b[0];
      forall x ensures x in a[1..] <==> x in b[1..] {
        LessIrreflexive(key(a[0]));
        assert x in a <==> x == a[0] || x in a[1..];
        assert x in b <==> x == b[0] || x in b[1..];
        assert a[0] !in a[1..] by {
          forall k | 0 <= k < |a[1..]| ensures a[1..][k] != a[0] { assert a[1..][k] == a[k + 1]; }
        }
        assert b[0] !in b[1..] by {
          forall k | 0 <= k < |b[1..]| ensures b[1..][k] != b[0] { assert b[1..][k] == b[k + 1]; }
        }
      }
      SortedUnique(a[1..], b[1..], key);
    }
  }

  ghost predicate Increasing(s: seq<string>) {
    forall i, j :: 0 <= i < j < |s| ==> Less(s[i], s[j])
  }

  function SortStrings(s: seq<string>): seq<string> {
    Sort(s, (x: string) => x)
  }

  lemma SortStringsCorrect(s: seq<string>)
    requires Distinct(s)
    ensures Increasing(SortStrings(s)) && SameElements(SortStrings(s), s)
  {
    var key := (x: string) => x;
    SortCorrect(s, key);
    assert forall i :: 0 <= i < |SortStrings(s)| ==> key(SortStrings(s)[i]) == SortStrings(s)[i];
  }

  // ---------------------------------------------------------------- picking in order

  /** `out` is what `pick` makes of the entries of `src` at `at`, which are all it takes, in order. */
  ghost predicate PicksAt<S, T>(src: seq<S>, out: seq<T>, pick: S -> Option<T>, at: seq<nat>) {
    && |at| == |out|
    && (forall k :: 0 <= k < |at| ==> at[k] < |src| && pick(src[at[k]]) == Some(out[k]))
    && (forall k, m :: 0 <= k < m < |at| ==> at[k] < at[m])
    && (forall i :: 0 <= i < |src| ==> (i in at <==> pick(src[i]).Some?))
  }

  ghost predicate Picks<S, T>(src: seq<S>, out: seq<T>, pick: S -> Option<T>) {
    exists at: seq<nat> :: PicksAt(src, out, pick, at)
  }

  lemma PicksNothing<S, T>(pick: S -> Option<T>)
    ensures Picks([], [], pick)
  {
    var at: seq<nat> := [];
    assert PicksAt([], [], pick, at);
  }

  lemma PicksSkips<S, T>(src: seq<S>, out: seq<T>, pick: S -> Option<T>, at: seq<nat>, last: S)
    requires PicksAt(src, out, pick, at) && pick(last).None?
    ensures PicksAt(src + [last], out, pick, at)
  {
  }

  lemma PicksTakes<S, T>(src: seq<S>, out: seq<T>, pick: S -> Option<T>, at: seq<nat>, last: S, x: T)
    requires PicksAt(src, out, pick, at) && pick(last) == Some(x)
    ensures PicksAt(src + [last], out + [x], pick, at + [|src|])
  {
    var more := at + [|src|];
    assert more[|at|] == |src|;
    forall k, m | 0 <= k < m < |more| ensures more[k] < more[m] {
      assert more[k] == at[k];
    }
    forall i | 0 <= i < |src + [last]| ensures i in more <==> pick((src + [last])[i]).Some? {
      assert i in more <==> i in at || i == |src|;
      assert |src| !in at;
    }
  }

  lemma PicksOneMore<S, T>(src: seq<S>, out: seq<T>, pick: S -> Option<T>, last: S)
    requires Picks(src, out, pick)
    ensures Picks(src + [last], out + match pick(last) case None => [] case Some(x) => [x], pick)
  {
    var at: seq<nat> :| PicksAt(src, out, pick, at);
    match pick(last)
    case None =>
      assert out + [] == out;
      PicksSkips(src, out, pick, at, last);
    case Some(x) =>
      PicksTakes(src, out, pick, at, last, x);
  }
}
