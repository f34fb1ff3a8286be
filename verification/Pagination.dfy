/** Keyset pagination over a fixed, ordered stream of ids of which only some contribute an entry:
    a page ends when it is full, when its budget of examined rows is spent, or with the stream. */
module Pagination {
  import opened Base

  // ---------------------------------------------------------------- the stream and its cursor

  /** How many ids of the stream are not past the cursor; the empty cursor is the start. */
  function Seek(stream: seq<string>, after: string): (k: nat)
    ensures k <= |stream|
  {
    if stream == [] || Less(after, stream[0]) then 0 else 1 + Seek(stream[1..], after)
  }

  /** `id > after ORDER BY id LIMIT n`. */
  function Fetch(stream: seq<string>, after: string, n: nat): seq<string> {
    var k := Seek(stream, after);
    stream[k..if k + n <= |stream| then k + n else |stream|]
  }

  lemma {:induction false} SeekSplits(stream: seq<string>, after: string)
    requires Increasing(stream)
    ensures forall i :: 0 <= i < |stream| ==> (Less(after, stream[i]) <==> Seek(stream, after) <= i)
  {
    if stream == [] {
    } else {
      if Less(after, stream[0]) {
        forall i | 0 < i < |stream| ensures Less(after, stream[i]) { LessTransitive(after, stream[0], stream[i]); }
      } else {
        var tail := stream[1..];
        assert forall i, j :: 0 <= i < j < |tail| ==> Less(tail[i], tail[j]) by {
          forall i, j | 0 <= i < j < |tail|
              ensures Less(tail[i], tail[j]) { assert Less(stream[i + 1], stream[j + 1]); }
        }
        SeekSplits(tail, after);
        assert forall i :: 0 < i < |stream| ==> stream[i] == tail[i - 1];
      }
    }
  }

  /** A cursor taken from the stream resumes right behind its row. */
  lemma SeekResumes(stream: seq<string>, i: nat)
    requires Increasing(stream) && i < |stream|
    ensures Seek(stream, stream[i]) == i + 1
  {
    var k := Seek(stream, stream[i]);
    SeekSplits(stream, stream[i]);
    LessIrreflexive(stream[i]);
    assert i + 1 < |stream| ==> Less(stream[i], stream[i + 1]);
  }

  lemma SeekStart(stream: seq<string>)
    requires forall i :: 0 <= i < |stream| ==> stream[i] != ""
    ensures Seek(stream, "") == 0
  {
  }

  /** The candidate the cursor stands on. */
  ghost predicate At(stream: seq<string>, after: string, lo: nat, at: nat, last: string) {
    lo <= at <= |stream| && last == if at == lo then after else stream[at - 1]
  }

  lemma FetchAt(stream: seq<string>, after: string, at: nat, last: string, n: nat)
    requires Increasing(stream) && At(stream, after, Seek(stream, after), at, last)
    ensures IsBatch(stream, at, n, Fetch(stream, last, n))
  {
    if at > Seek(stream, after) { SeekResumes(stream, at - 1); }
  }

  /** The `n` rows from position `at` on, or all there are. */
  ghost predicate IsBatch(stream: seq<string>, at: nat, n: nat, batch: seq<string>) {
    && at + |batch| <= |stream| && batch == stream[at..at + |batch|]
    && |batch| <= n && (|batch| < n ==> at + |batch| == |stream|)
  }

  /** The query as the scan calls it, `at` rows into the stream. */
  method ListCandidates(stream: seq<string>, last: string, n: nat, ghost after: string, ghost at: nat)
      returns (batch: seq<string>)
    requires Increasing(stream) && At(stream, after, Seek(stream, after), at, last)
    ensures IsBatch(stream, at, n, batch)
  {
    batch := Fetch(stream, last, n);
    FetchAt(stream, after, at, last, n);
  }

  // ---------------------------------------------------------------- one page

  function Items<T>(entry: Option<T>): (r: seq<T>)
    ensures |r| == if entry.Some? then 1 else 0
  {
    match entry case None => [] case Some(x) => [x]
  }

  /** The entries of the candidates lo..hi. */
  function Entries<T>(f: string -> Option<T>, stream: seq<string>, lo: nat, hi: nat): seq<T>
    requires lo <= hi <= |stream|
  {
    if lo == hi then []
    else Entries(f, stream, lo, hi - 1) + Items(f(stream[hi - 1]))
  }

  /** Where a page that starts at `i`, still wants `want` entries and may examine `budget` more
      rows, stops: the entry that fills it, the end of its budget, or the end of the stream. */
  function StopAt<T>(f: string -> Option<T>, stream: seq<string>, i: nat, want: int, budget: int): (stop: nat)
    requires i <= |stream|
    ensures i <= stop <= |stream|
    decreases |stream| - i
  {
    if i == |stream| || want <= 0 || budget <= 0 then i
    else StopAt(f, stream, i + 1, want - (if f(stream[i]).Some? then 1 else 0), budget - 1)
  }

  /** One response, by what it must contain. */
  ghost predicate IsPage<T>(f: string -> Option<T>, stream: seq<string>, after: string, limit: nat, cap: nat,
                         entries: seq<T>, next: Option<string>)
  {
    var lo := Seek(stream, after);
    var hi := StopAt(f, stream, lo, limit, cap);
    && entries == Entries(f, stream, lo, hi)
    && (next.None? <==> |entries| < limit && hi - lo < cap)
    && (next.Some? ==> lo < hi && next.value == stream[hi - 1])
  }

  /** The scan is at position `at`: what is listed so far, and where the page will stop. */
  ghost predicate Scanning<T>(f: string -> Option<T>, stream: seq<string>, lo: nat, at: nat, limit: nat, cap: nat,
                              entries: seq<T>)
  {
    && lo <= at <= |stream|
    && entries == Entries(f, stream, lo, at)
    && StopAt(f, stream, at, limit - |entries|, cap - (at - lo)) == StopAt(f, stream, lo, limit, cap)
  }

  /** One more row examined. */
  lemma ScanStep<T>(f: string -> Option<T>, stream: seq<string>, lo: nat, at: nat, limit: nat, cap: nat,
                    entries: seq<T>)
    requires Scanning(f, stream, lo, at, limit, cap, entries)
    requires at < |stream| && |entries| < limit && at - lo < cap
    ensures Scanning(f, stream, lo, at + 1, limit, cap, entries + Items(f(stream[at])))
  {
  }

  ghost predicate ScanningAt<T>(f: string -> Option<T>, stream: seq<string>, after: string, scanned: nat, limit: nat,
                                cap: nat, entries: seq<T>, last: string)
  {
    var lo := Seek(stream, after);
    && Scanning(f, stream, lo, lo + scanned, limit, cap, entries)
    && At(stream, after, lo, lo + scanned, last)
  }

  /** The scan moves over entry `i` of a batch that was fetched after `base` rows. */
  lemma ScanAdvances<T>(f: string -> Option<T>, stream: seq<string>, after: string, batch: seq<string>, n: nat,
                        base: nat, i: nat, limit: nat, cap: nat, entries: seq<T>, last: string)
    requires ScanningAt(f, stream, after, base + i, limit, cap, entries, last)
    requires IsBatch(stream, Seek(stream, after) + base, n, batch) && i < |batch|
    requires |entries| < limit && base + i < cap
    ensures batch[i] in stream
    ensures ScanningAt(f, stream, after, base + i + 1, limit, cap, entries + Items(f(batch[i])), batch[i])
  {
    var at := Seek(stream, after) + base + i;
    assert batch[i] == stream[at];
    ScanStep(f, stream, Seek(stream, after), at, limit, cap, entries);
  }

  lemma ScanStarts<T>(f: string -> Option<T>, stream: seq<string>, after: string, limit: nat, cap: nat)
    ensures ScanningAt(f, stream, after, 0, limit, cap, [], after)
  {
  }

  /** A scan that cannot or need not go on is where the page stops. */
  lemma ScanEnds<T>(f: string -> Option<T>, stream: seq<string>, after: string, scanned: nat, limit: nat, cap: nat,
                    entries: seq<T>, last: string, exhausted: bool)
    requires ScanningAt(f, stream, after, scanned, limit, cap, entries, last)
    requires exhausted ==> |entries| < limit && scanned < cap && Seek(stream, after) + scanned == |stream|
    requires !exhausted ==> scanned > 0 && (|entries| >= limit || scanned >= cap)
    ensures IsPage(f, stream, after, limit, cap, entries, if exhausted then None else Some(last))
  {
  }

  /** Page bounds: never more than `limit` entries, never more than `cap` rows, a final page
      reaches the end, and any other one moves the cursor strictly forward. */
  lemma {:induction false} PageBounds<T>(f: string -> Option<T>, stream: seq<string>, after: string, limit: nat,
                                         cap: nat, entries: seq<T>, next: Option<string>)
    requires Increasing(stream) && IsPage(f, stream, after, limit, cap, entries, next)
    ensures |entries| <= limit && StopAt(f, stream, Seek(stream, after), limit, cap) - Seek(stream, after) <= cap
    ensures next.None? ==> StopAt(f, stream, Seek(stream, after), limit, cap) == |stream|
    ensures next.Some? ==>
              && Seek(stream, next.value) == StopAt(f, stream, Seek(stream, after), limit, cap) > Seek(stream, after)
              && Less(after, next.value)
  {
    var lo := Seek(stream, after);
    StopBounds(f, stream, lo, lo, limit, cap);
    if next.Some? {
      var hi := StopAt(f, stream, lo, limit, cap);
      SeekResumes(stream, hi - 1);
      SeekSplits(stream, after);
    }
  }

  lemma EntriesStep<T>(f: string -> Option<T>, stream: seq<string>, lo: nat, i: nat)
    requires lo <= i < |stream|
    ensures |Entries(f, stream, lo, i + 1)| == |Entries(f, stream, lo, i)| + if f(stream[i]).Some? then 1 else 0
  {
  }

  lemma {:induction false} StopBounds<T>(f: string -> Option<T>, stream: seq<string>, lo: nat, i: nat, want: nat,
                                         budget: nat)
    requires lo <= i <= |stream|
    ensures var hi := StopAt(f, stream, i, want, budget);
            && hi - i <= budget
            && |Entries(f, stream, lo, hi)| <= |Entries(f, stream, lo, i)| + want
            && (hi == |stream| || hi - i == budget ||
                |Entries(f, stream, lo, hi)| == |Entries(f, stream, lo, i)| + want)
    decreases |stream| - i
  {
    if i < |stream| && want > 0 && budget > 0 {
      EntriesStep(f, stream, lo, i);
      StopBounds(f, stream, lo, i + 1, if f(stream[i]).Some? then want - 1 else want, budget - 1);
    }
  }

  lemma {:induction false} StopsAtOnce<T>(f: string -> Option<T>, stream: seq<string>, lo: nat, i: nat, want: nat,
                                          budget: nat)
    requires lo <= i <= |stream|
    ensures var hi := StopAt(f, stream, i, want, budget);
            hi > i && |Entries(f, stream, lo, hi)| == |Entries(f, stream, lo, i)| + want ==> f(stream[hi - 1]).Some?
    decreases |stream| - i
  {
    if i == |stream| || want == 0 || budget == 0 {
    } else {
      EntriesStep(f, stream, lo, i);
      StopsAtOnce(f, stream, lo, i + 1, if f(stream[i]).Some? then want - 1 else want, budget - 1);
    }
  }

  /** A full page looks no further than the row that filled it. */
  lemma FullPageStopsAtOnce<T>(f: string -> Option<T>, stream: seq<string>, after: string, limit: nat, cap: nat,
                               entries: seq<T>, next: Option<string>)
    requires IsPage(f, stream, after, limit, cap, entries, next) && limit > 0 && |entries| == limit
    ensures next.Some? && f(next.value).Some?
  {
    var lo := Seek(stream, after);
    StopsAtOnce(f, stream, lo, lo, limit, cap);
  }

  lemma {:induction false} EntriesMembers<T>(f: string -> Option<T>, stream: seq<string>, n: nat, entry: T)
    requires n <= |stream|
    ensures entry in Entries(f, stream, 0, n) <==> exists i :: 0 <= i < n && f(stream[i]) == Some(entry)
  {
    if n == 0 {
    } else {
      EntriesMembers(f, stream, n - 1, entry);
    }
  }

  /** Entries named after their rows come in the order of the rows. */
  lemma {:induction false} EntriesSorted<T>(f: string -> Option<T>, stream: seq<string>, n: nat, name: T -> string)
    requires Increasing(stream) && n <= |stream| && forall id :: f(id).Some? ==> name(f(id).value) == id
    ensures SortedBy(Entries(f, stream, 0, n), name)
  {
    if n == 0 {
    } else {
      EntriesSorted(f, stream, n - 1, name);
      var init, last := Entries(f, stream, 0, n - 1), stream[n - 1];
      forall k | 0 <= k < |init| ensures Less(name(init[k]), last) {
        assert init[k] in init;
        EntriesMembers(f, stream, n - 1, init[k]);
        var i :| 0 <= i < n - 1 && f(stream[i]) == Some(init[k]);
        assert Less(stream[i], stream[n - 1]);
      }
    }
  }

  // ---------------------------------------------------------------- following the cursor

  /** One request and its response; every request may choose its own limit, and the cap may change. */
  datatype Page<T> = Page(limit: nat, cap: nat, entries: seq<T>, next: Option<string>)

  /** A client that starts at `after` and follows next_cursor, so far. */
  ghost predicate Walk<T>(f: string -> Option<T>, stream: seq<string>, after: string, pages: seq<Page<T>>)
    decreases |pages|
  {
    pages != [] ==>
      && IsPage(f, stream, after, pages[0].limit, pages[0].cap, pages[0].entries, pages[0].next)
      && (pages[0].next.None? ==> |pages| == 1)
      && (pages[0].next.Some? ==> Walk(f, stream, pages[0].next.value, pages[1..]))
  }

  function Collected<T>(pages: seq<Page<T>>): seq<T> {
    if pages == [] then [] else pages[0].entries + Collected(pages[1..])
  }

  lemma {:induction false} EntriesSplit<T>(f: string -> Option<T>, stream: seq<string>, lo: nat, mid: nat, hi: nat)
    requires lo <= mid <= hi <= |stream|
    ensures Entries(f, stream, lo, hi) == Entries(f, stream, lo, mid) + Entries(f, stream, mid, hi)
  {
    if mid < hi {
      EntriesSplit(f, stream, lo, mid, hi - 1);
    }
  }

  /** Following the cursor ends, after at most one page per remaining row and one more, and a walk
      that has ended collected every entry from its start on, once and in order. */
  lemma {:induction false} WalkIsExact<T>(f: string -> Option<T>, stream: seq<string>, after: string,
                                          pages: seq<Page<T>>)
    requires Increasing(stream) && Walk(f, stream, after, pages)
    ensures |pages| <= |stream| - Seek(stream, after) + 1
    ensures pages != [] && pages[|pages| - 1].next.None? ==>
              Collected(pages) == Entries(f, stream, Seek(stream, after), |stream|)
    decreases |pages|
  {
    if pages == [] {
    } else {
      var p, lo := pages[0], Seek(stream, after);
      PageBounds(f, stream, after, p.limit, p.cap, p.entries, p.next);
      if p.next.Some? {
        WalkIsExact(f, stream, p.next.value, pages[1..]);
        EntriesSplit(f, stream, lo, Seek(stream, p.next.value), |stream|);
        assert |pages| > 1 ==> pages[1..][|pages| - 2] == pages[|pages| - 1];
      } else {
        assert pages[1..] == [];
      }
    }
  }
}
