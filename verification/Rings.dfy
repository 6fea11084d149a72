/**
 The ring buffers: the log of recent entries with the pages served from it, and the ring
 of latencies with its percentiles.
 */
module Rings {
  import opened Options
  import opened Text
  import opened Decimal

  // ---------- What a ring holds ----------

  // The index of the k-th entry before the next position.
  function Back(pos: int, k: int, capacity: int): int {
    if k < pos then pos - 1 - k else pos - 1 - k + capacity
  }

  // The buffer holds the newest entries of the history.
  ghost predicate Holds<T>(entries: seq<T>, pos: int, count: int, history: seq<T>) {
    var capacity := |entries|;
    && 0 <= pos && (pos < capacity || pos == capacity == 0)
    && count == (if |history| < capacity then |history| else capacity)
    && (count < capacity ==> pos == count)
    && (forall k | 0 <= k < count :: entries[Back(pos, k, capacity)] == history[|history| - 1 - k])
  }

  function Wrap(x: int, capacity: int): int
    requires capacity > 0
  {
    x % capacity
  }

  lemma WrapOnce(x: int, capacity: int)
    requires 0 <= x < capacity + capacity
    ensures Wrap(x, capacity) == if x < capacity then x else x - capacity
  {
    if x >= capacity {
      assert (x - capacity) / capacity == 0;
      assert x == 1 * capacity + (x - capacity);
    }
  }

  lemma AddHolds<T>(entries: seq<T>, pos: int, count: int, history: seq<T>, x: T)
    requires Holds(entries, pos, count, history) && entries != []
    ensures Holds(entries[pos := x], if pos + 1 < |entries| then pos + 1 else 0,
                  if count < |entries| then count + 1 else count, history + [x])
  {
    var n := |entries|;
    var next := if pos + 1 < n then pos + 1 else 0;
    assert Back(next, 0, n) == pos;
    forall k | 1 <= k <= count && k < n ensures Back(next, k, n) == Back(pos, k - 1, n) != pos {
    }
  }

  function Last<T>(history: seq<T>, n: nat): seq<T> {
    if n < |history| then history[|history| - n..] else history
  }

  function Clamp(i: int, n: nat): (r: nat)
    ensures r <= n
  {
    if i < 0 then 0 else if i < n then i else n
  }

  // The whole log of a ring, the newest entry first.
  function Log<T>(history: seq<T>, capacity: nat): seq<T> {
    Reversed(Last(history, capacity))
  }

  lemma LogAt<T>(history: seq<T>, capacity: nat, k: nat)
    requires k < capacity && k < |history|
    ensures k < |Log(history, capacity)| && Log(history, capacity)[k] == history[|history| - 1 - k]
  {
  }

  class RingBuffer<T(0)> {
    const entries: array<T>
    const capacity: nat
    var pos: int
    var count: int
    ghost var history: seq<T>

    ghost predicate Valid()
      reads this, entries
    {
      capacity == entries.Length && Holds(entries[..], pos, count, history)
    }

    constructor (capacity: nat)
      ensures Valid() && fresh(entries) && this.capacity == capacity && history == []
    {
      entries := new T[capacity];
      this.capacity, pos, count, history := capacity, 0, 0, [];
    }

    method Add(entry: T)
      requires Valid() && capacity > 0
      modifies this, entries
      ensures Valid() && history == old(history) + [entry]
    {
      ghost var before := entries[..];
      AddHolds(before, pos, count, history, entry);
      WrapOnce(pos + 1, capacity);
      entries[pos] := entry;
      assert entries[..] == before[pos := entry];
      pos := Wrap(pos + 1, capacity);
      if count < capacity {
        count := count + 1;
      }
      history := history + [entry];
    }

    // The newest entries, at most `n` of them, the newest first.
    method Recent(n: nat) returns (result: seq<T>)
      requires Valid()
      ensures var log := Log(history, capacity); result == log[..Clamp(n, |log|)]
    {
      var m: int := if n > count then count else n;
      var a := new T[m];
      var i := 0;
      while i < m
        invariant 0 <= i <= m
        invariant forall k | 0 <= k < i :: a[k] == Log(history, capacity)[k]
      {
        WrapOnce(pos - 1 - i + capacity, capacity);
        LogAt(history, capacity, i);
        var idx := Wrap(pos - 1 - i + capacity, capacity);
        assert idx == Back(pos, i, capacity) && entries[idx] == history[|history| - 1 - i];
        a[i] := entries[idx];
        i := i + 1;
      }
      result := a[..];
    }
  }

  // ---------- Pages ----------

  // The positive number that a text of a query asks for, if any.
  function Asked(raw: string): Option<int> {
    var n := if raw == "" then None else Atoi(raw);
    if n.Some? && n.value > 0 then n else None
  }

  function Bounds(limit: Option<int>, offset: Option<int>, capacity: int): (int, int) {
    var most := if capacity <= 0 then 1000 else capacity;
    var size := if limit.Some? && limit.value < most then limit.value else most;
    var from := if offset.Some? then offset.value else 0;
    var start := if from > capacity && capacity > 0 then capacity else from;
    (if capacity > 0 && size > capacity - start then capacity - start else size, start)
  }

  // The limit and the offset of a page, from the texts of a query.
  function ResolveRecentLogPage(rawLimit: string, rawOffset: string, capacity: int): (int, int) {
    Bounds(Asked(rawLimit), Asked(rawOffset), capacity)
  }

  function SliceRecentLogs<T>(entries: seq<T>, offset: int, limit: int): seq<T>
    requires offset >= 0
  {
    if offset >= |entries| || limit <= 0 then []
    else if offset + limit > |entries| then entries[offset..]
    else entries[offset..offset + limit]
  }

  lemma PageBounds(rawLimit: string, rawOffset: string, capacity: int)
    ensures var (limit, offset) := ResolveRecentLogPage(rawLimit, rawOffset, capacity);
            limit >= 0 && offset >= 0 && (capacity > 0 ==> limit + offset <= capacity)
  {
  }

  // What a handler answers: a slice of as many recent entries as reach to its end.
  method Page<T(0)>(log: RingBuffer<T>, rawLimit: string, rawOffset: string) returns (page: seq<T>)
    requires log.Valid()
    ensures page == PageOf(Log(log.history, log.capacity), log.capacity, rawLimit, rawOffset)
  {
    PageBounds(rawLimit, rawOffset, log.capacity);
    var bounds := ResolveRecentLogPage(rawLimit, rawOffset, log.capacity);
    var limit, offset := bounds.0, bounds.1;
    var recent := log.Recent(limit + offset);
    page := SliceRecentLogs(recent, offset, limit);
  }

  // The page of a log that starts at an offset.
  function PageOf<T>(log: seq<T>, capacity: nat, rawLimit: string, rawOffset: string): seq<T> {
    var limit := ResolveRecentLogPage(rawLimit, rawOffset, capacity).0;
    var offset := ResolveRecentLogPage(rawLimit, rawOffset, capacity).1;
    PageBounds(rawLimit, rawOffset, capacity);
    log[Clamp(offset, |log|)..Clamp(offset + limit, |log|)]
  }

  // For any texts at all, a page starts at the offset that is asked for, or else at the
  // newest entry, and has as many entries as are asked for, or else goes on to the end.
  lemma PageAsked<T>(log: seq<T>, capacity: nat, rawLimit: string, rawOffset: string)
    requires |log| <= capacity
    ensures var from := if Asked(rawOffset).Some? then Asked(rawOffset).value else 0;
            PageOf(log, capacity, rawLimit, rawOffset)
            == log[Clamp(from, |log|)
                   ..if Asked(rawLimit).Some? then Clamp(from + Asked(rawLimit).value, |log|) else |log|]
  {
  }

  lemma AskedExactly(raw: string, n: int)
    ensures Asked(raw) == Some(n) <==> raw != "" && Atoi(raw) == Some(n) && n > 0
    ensures 1 <= n < INT64_LIMIT ==> Asked(Itoa(n)) == Some(n)
    ensures Asked("") == None && Asked(Itoa(0)) == None
  {
    AtoiItoa(0);
    if 1 <= n < INT64_LIMIT {
      AtoiItoa(n);
      ItoaChars(n);
    }
  }

  // A page of `size` entries at `start` is that part of the log.
  lemma PageAt<T>(log: seq<T>, capacity: nat, size: nat, start: nat)
    requires |log| <= capacity && 1 <= size < INT64_LIMIT && start < INT64_LIMIT
    ensures PageOf(log, capacity, Itoa(size), Itoa(start)) == log[Clamp(start, |log|)..Clamp(start + size, |log|)]
  {
    AskedExactly("", size);
    AskedExactly("", start);
    PageAsked(log, capacity, Itoa(size), Itoa(start));
  }

  // The pages one after another, each starting `size` after the one before.
  function Pages<T>(page: nat -> seq<T>, n: nat, size: nat, start: nat): seq<T>
    requires size >= 1
    decreases n - start
  {
    if start >= n then [] else page(start) + Pages(page, n, size, start + size)
  }

  lemma SliceSplit<T>(log: seq<T>, a: nat, b: nat)
    requires a <= b <= |log|
    ensures log[a..b] + log[b..] == log[a..]
  {
  }

  lemma {:induction false} SlicesCover<T>(log: seq<T>, page: nat -> seq<T>, size: nat, start: nat)
    requires size >= 1 && forall i: nat | i < |log| :: page(i) == log[i..Clamp(i + size, |log|)]
    ensures Pages(page, |log|, size, start) == log[Clamp(start, |log|)..]
    decreases |log| - start
  {
    if start < |log| {
      SlicesCover(log, page, size, start + size);
      SliceSplit(log, start, Clamp(start + size, |log|));
    }
  }

  // The pages of a size, by their offset.
  function PagesOf<T>(log: seq<T>, capacity: nat, size: nat): nat -> seq<T> {
    start => PageOf(log, capacity, Itoa(size), Itoa(start))
  }

  lemma PagesOfAt<T>(log: seq<T>, capacity: nat, size: nat, i: nat)
    requires i < |log| <= capacity < INT64_LIMIT && 1 <= size < INT64_LIMIT
    ensures PagesOf(log, capacity, size)(i) == log[i..Clamp(i + size, |log|)]
  {
    PageAt(log, capacity, size, i);
  }

  // Together the pages are the log, each entry once and in order, for every page size.
  lemma PagesCover<T>(log: seq<T>, capacity: nat, size: nat)
    requires |log| <= capacity < INT64_LIMIT && 1 <= size < INT64_LIMIT
    ensures Pages(PagesOf(log, capacity, size), |log|, size, 0) == log
  {
    forall i: nat | i < |log| ensures PagesOf(log, capacity, size)(i) == log[i..Clamp(i + size, |log|)] {
      PagesOfAt(log, capacity, size, i);
    }
    SlicesCover(log, PagesOf(log, capacity, size), size, 0);
    assert log[0..] == log;
  }

  // ---------- Percentiles ----------

  function Insert(x: int, s: seq<int>): seq<int> {
    if s == [] || x <= s[0] then [x] + s else [s[0]] + Insert(x, s[1..])
  }

  function Sort(s: seq<int>): seq<int> {
    if s == [] then [] else Insert(s[0], Sort(s[1..]))
  }

  predicate Sorted(s: seq<int>) {
    forall i, j | 0 <= i < j < |s| :: s[i] <= s[j]
  }

  function AtMost(x: int): int -> bool {
    v => v <= x
  }

  function AtLeast(x: int): int -> bool {
    v => v >= x
  }

  function Equal(x: int): int -> bool {
    v => v == x
  }

  function Count(s: seq<int>, f: int -> bool): nat {
    if s == [] then 0 else (if f(s[0]) then 1 else 0) + Count(s[1..], f)
  }

  lemma {:induction false} InsertCounts(x: int, s: seq<int>, f: int -> bool)
    ensures Count(Insert(x, s), f) == (if f(x) then 1 else 0) + Count(s, f)
    ensures |Insert(x, s)| == |s| + 1
  {
    var r := Insert(x, s);
    if s == [] || x <= s[0] {
      assert r[1..] == s;
    } else {
      assert r[1..] == Insert(x, s[1..]);
      InsertCounts(x, s[1..], f);
    }
  }

  lemma {:induction false} InsertSorted(x: int, s: seq<int>)
    requires Sorted(s)
    ensures Sorted(Insert(x, s))
    ensures s != [] && s[0] < x ==> Insert(x, s)[0] == s[0]
  {
    if s != [] && s[0] < x {
      var rest := s[1..];
      InsertSorted(x, rest);
      assert rest == [] || Insert(x, rest)[0] >= s[0];
    }
  }

  // Sorting keeps every count, so it rearranges, and it sorts.
  lemma {:induction false} SortMeans(s: seq<int>, f: int -> bool)
    ensures Sorted(Sort(s)) && |Sort(s)| == |s| && Count(Sort(s), f) == Count(s, f)
  {
    if s != [] {
      SortMeans(s[1..], f);
      InsertCounts(s[0], Sort(s[1..]), f);
      InsertSorted(s[0], Sort(s[1..]));
    }
  }

  lemma {:induction false} CountConcat(a: seq<int>, b: seq<int>, f: int -> bool)
    ensures Count(a + b, f) == Count(a, f) + Count(b, f)
  {
    if a == [] {
      assert a + b == b;
    } else {
      assert (a + b)[1..] == a[1..] + b;
      CountConcat(a[1..], b, f);
    }
  }

  lemma {:induction false} CountAll(s: seq<int>, f: int -> bool)
    requires forall i | 0 <= i < |s| :: f(s[i])
    ensures Count(s, f) == |s|
  {
    if s != [] {
      CountAll(s[1..], f);
    }
  }

  // In a sorted sequence, as many elements are no greater as stand up to an index, and
  // as many no smaller as stand from there on.
  lemma SortedCounts(s: seq<int>, k: nat)
    requires Sorted(s) && k < |s|
    ensures Count(s, AtMost(s[k])) >= k + 1 && Count(s, AtLeast(s[k])) >= |s| - k
  {
    assert s == s[..k + 1] + s[k + 1..] == s[..k] + s[k..];
    CountConcat(s[..k + 1], s[k + 1..], AtMost(s[k]));
    CountAll(s[..k + 1], AtMost(s[k]));
    CountConcat(s[..k], s[k..], AtLeast(s[k]));
    CountAll(s[k..], AtLeast(s[k]));
  }

  lemma ProductNonNegative(a: real, b: real)
    requires a >= 0.0 && b >= 0.0
    ensures a * b >= 0.0
  {
  }

  function Position(n: nat, p: real): int {
    ((n - 1) as real * p / 100.0).Floor
  }

  lemma PositionMonotone(n: nat, p: real, q: real)
    requires n >= 1 && 0.0 <= p <= q
    ensures 0 <= Position(n, p) <= Position(n, q)
  {
    var m := (n - 1) as real;
    ProductNonNegative(m, p);
    ProductNonNegative(m, q - p);
    assert m * (q - p) == m * q - m * p;
  }

  // The rank of a percentile among `n` samples.
  function Rank(n: nat, p: real): (k: nat)
    requires n >= 1 && p >= 0.0
    ensures k < n
  {
    PositionMonotone(n, p, p);
    if Position(n, p) >= n then n - 1 else Position(n, p)
  }

  predicate Ranks(n: nat, p: real, k: int) {
    100.0 * k as real <= (n - 1) as real * p < 100.0 * (k + 1) as real
  }

  // The rank is the whole part of so many hundredths of the last rank.
  lemma RankExactly(n: nat, p: real, k: int)
    requires n >= 1 && 0.0 <= p <= 100.0
    ensures k == Rank(n, p) <==> Ranks(n, p, k)
  {
    var m := (n - 1) as real;
    ProductNonNegative(m, 100.0 - p);
    assert m * (100.0 - p) == m * 100.0 - m * p;
    var x := m * p / 100.0;
    assert x * 100.0 == m * p;
  }

  // What a percentile answers for the samples it looks at.
  function PercentileOf(samples: seq<int>, p: real): int
    requires p >= 0.0
  {
    if samples == [] then 0
    else
      SortMeans(samples, AtMost(0));
      Sort(samples)[Rank(|samples|, p)]
  }

  lemma {:induction false} CountMember(s: seq<int>, x: int)
    ensures Count(s, Equal(x)) > 0 <==> x in s
  {
    if s != [] {
      CountMember(s[1..], x);
    }
  }

  lemma SortMember(s: seq<int>, x: int)
    ensures x in Sort(s) <==> x in s
  {
    SortMeans(s, Equal(x));
    CountMember(s, x);
    CountMember(Sort(s), x);
  }

  // It is one of the samples, and of that rank: enough samples lie on either side.
  lemma PercentileRanks(samples: seq<int>, p: real)
    requires samples != [] && p >= 0.0
    ensures var r, k := PercentileOf(samples, p), Rank(|samples|, p);
            && r in samples
            && Count(samples, AtMost(r)) >= k + 1 && Count(samples, AtLeast(r)) >= |samples| - k
  {
    SortMeans(samples, AtMost(0));
    RankCounts(samples, Rank(|samples|, p));
  }

  lemma RankCounts(samples: seq<int>, k: nat)
    requires k < |samples| == |Sort(samples)|
    ensures var r := Sort(samples)[k];
            && r in samples
            && Count(samples, AtMost(r)) >= k + 1 && Count(samples, AtLeast(r)) >= |samples| - k
  {
    var r := Sort(samples)[k];
    SortMeans(samples, AtMost(r));
    SortMeans(samples, AtLeast(r));
    SortedCounts(Sort(samples), k);
    SortMember(samples, r);
  }

  // Said with the rank that the percentage itself gives.
  lemma PercentileExactly(samples: seq<int>, p: real, k: int)
    requires samples != [] && 0.0 <= p <= 100.0 && Ranks(|samples|, p, k)
    ensures var r := PercentileOf(samples, p);
            && r in samples
            && Count(samples, AtMost(r)) >= k + 1 && Count(samples, AtLeast(r)) >= |samples| - k
  {
    RankExactly(|samples|, p, k);
    PercentileRanks(samples, p);
  }

  // Higher percentiles are no smaller.
  lemma PercentileMonotone(samples: seq<int>, p: real, q: real)
    requires 0.0 <= p <= q
    ensures PercentileOf(samples, p) <= PercentileOf(samples, q)
  {
    if samples != [] {
      SortMeans(samples, AtMost(0));
      PositionMonotone(|samples|, p, q);
    }
  }

  // Samples that count the same have the same percentiles, whatever their order.
  lemma PercentileOrderless(a: seq<int>, b: seq<int>, p: real)
    requires p >= 0.0 && |a| == |b| && forall f: int -> bool :: Count(a, f) == Count(b, f)
    ensures PercentileOf(a, p) == PercentileOf(b, p)
  {
    if a != [] {
      SameSort(a, b);
    }
  }

  lemma SameSort(a: seq<int>, b: seq<int>)
    requires |a| == |b| && forall f: int -> bool :: Count(a, f) == Count(b, f)
    ensures Sort(a) == Sort(b)
  {
    var s, t := Sort(a), Sort(b);
    SortMeans(a, AtMost(0));
    SortMeans(b, AtMost(0));
    forall k | 0 <= k < |s| ensures s[k] == t[k] {
      NoSmaller(a, b, k);
      NoSmaller(b, a, k);
    }
  }

  lemma NoSmaller(a: seq<int>, b: seq<int>, k: nat)
    requires |a| == |b| && k < |a| && forall f: int -> bool :: Count(a, f) == Count(b, f)
    ensures |Sort(a)| == |Sort(b)| == |a| && Sort(a)[k] <= Sort(b)[k]
  {
    SortMeans(b, AtMost(0));
    var f := AtMost(Sort(b)[k]);
    SortMeans(a, f);
    SortMeans(b, f);
    SortedNoSmaller(Sort(a), Sort(b), k);
  }

  lemma SortedNoSmaller(s: seq<int>, t: seq<int>, k: nat)
    requires Sorted(s) && Sorted(t) && k < |s| == |t| && Count(s, AtMost(t[k])) == Count(t, AtMost(t[k]))
    ensures s[k] <= t[k]
  {
    SortedCounts(t, k);
    if s[k] > t[k] {
      FewAtMost(s, k, t[k]);
    }
  }

  lemma FewAtMost(s: seq<int>, k: nat, x: int)
    requires Sorted(s) && k < |s| && s[k] > x
    ensures Count(s, AtMost(x)) <= k
  {
    assert s == s[..k] + s[k..];
    CountConcat(s[..k], s[k..], AtMost(x));
    CountNone(s[k..], AtMost(x));
    CountBound(s[..k], AtMost(x));
  }

  lemma {:induction false} CountNone(s: seq<int>, f: int -> bool)
    requires forall i | 0 <= i < |s| :: !f(s[i])
    ensures Count(s, f) == 0
  {
    if s != [] {
      CountNone(s[1..], f);
    }
  }

  lemma {:induction false} CountBound(s: seq<int>, f: int -> bool)
    ensures Count(s, f) <= |s|
  {
    if s != [] {
      CountBound(s[1..], f);
    }
  }

  // The used part of a ring counts as the newest entries do.
  lemma RingCounts(entries: seq<int>, pos: int, count: int, history: seq<int>, f: int -> bool)
    requires Holds(entries, pos, count, history)
    ensures Count(entries[..count], f) == Count(Last(history, |entries|), f)
  {
    var last := Last(history, |entries|);
    if count < |entries| {
      assert entries[..count] == last by {
        forall i | 0 <= i < count ensures entries[i] == history[i] {
          assert Back(pos, count - 1 - i, |entries|) == i;
        }
      }
    } else {
      var n := |entries|;
      assert entries[..count] == last[n - pos..] + last[..n - pos] by {
        forall i | 0 <= i < n ensures entries[i] == if i < pos then last[n - pos + i] else last[i - pos] {
          var k := if i < pos then pos - 1 - i else pos - 1 - i + n;
          assert Back(pos, k, n) == i;
        }
      }
      CountConcat(last[n - pos..], last[..n - pos], f);
      assert last == last[..n - pos] + last[n - pos..];
      CountConcat(last[..n - pos], last[n - pos..], f);
    }
  }

  class LatencyRing {
    const data: array<int>
    const cap: nat
    var pos: int
    var count: int
    // The latencies since the start or the last reset.
    ghost var history: seq<int>

    ghost predicate Valid()
      reads this, data
    {
      cap == data.Length && Holds(data[..], pos, count, history)
    }

    constructor (capacity: nat)
      ensures Valid() && fresh(data) && cap == capacity && history == []
    {
      data := new int[capacity];
      cap, pos, count, history := capacity, 0, 0, [];
    }

    method Add(value: int)
      requires Valid() && cap > 0
      modifies this, data
      ensures Valid() && history == old(history) + [value]
    {
      ghost var before := data[..];
      AddHolds(before, pos, count, history, value);
      WrapOnce(pos + 1, cap);
      data[pos] := value;
      assert data[..] == before[pos := value];
      pos := Wrap(pos + 1, cap);
      if count < cap {
        count := count + 1;
      }
      history := history + [value];
    }

    // The percentile of the newest latencies, as many as the ring holds.
    method Percentile(p: real) returns (r: int)
      requires Valid() && p >= 0.0
      ensures r == PercentileOf(Last(history, cap), p)
    {
      if count == 0 {
        return 0;
      }
      var samples := if count < cap then data[..count] else data[..];
      var sorted := Sort(samples);
      SortMeans(samples, AtMost(0));
      PositionMonotone(count, p, p);
      var idx := Position(count, p);
      if idx >= count {
        idx := count - 1;
      }
      r := sorted[idx];
      SameSamples(samples, p);
    }

    lemma SameSamples(samples: seq<int>, p: real)
      requires Valid() && samples == data[..count] && p >= 0.0
      ensures PercentileOf(samples, p) == PercentileOf(Last(history, cap), p)
    {
      assert samples == data[..][..count];
      forall f: int -> bool ensures Count(samples, f) == Count(Last(history, cap), f) {
        RingCounts(data[..], pos, count, history, f);
      }
      PercentileOrderless(samples, Last(history, cap), p);
    }

    method Reset()
      requires Valid()
      modifies this
      ensures Valid() && history == []
    {
      pos, count := 0, 0;
      history := [];
    }
  }
}
