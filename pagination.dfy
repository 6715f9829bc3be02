/**
 * The record source of an indexing run: the queryset `get_queryset` builds, the
 * chunked walk over it in `get_indexing_queryset`, and the ETA text of its progress line.
 */
module Pagination {

  import opened Wrappers
  import opened Ordering
  import opened Records
  import opened Decimal

  /** A Django queryset reduced to what the walk depends on: its rows and whether it was sliced. */
  datatype QuerySet = QuerySet(rows: seq<Record>, sliced: bool)

  /** Django refuses a negative slice bound (`qs[:count]` with `count < 0`). */
  datatype QueryError = NegativeIndexing

  /** What one call of `get_indexing_queryset` yields, and the slices it pulled to do so. */
  datatype Walk = Walk(yielded: seq<Record>, pulls: seq<seq<Record>>)

  /** A row survives `.filter(filter_)` and `.exclude(exclude)`; an absent Q object filters nothing. */
  predicate Passes(r: Record, filter: Option<Record -> bool>, exclude: Option<Record -> bool>)
  {
    && (filter.Some? ==> filter.value(r))
    && (exclude.Some? ==> !exclude.value(r))
  }

  /** The rows, in order, that pass the filter and the exclusion. */
  function Kept(rows: seq<Record>, filter: Option<Record -> bool>, exclude: Option<Record -> bool>): (r: seq<Record>)
    ensures forall x :: multiset(r)[x] == if Passes(x, filter, exclude) then multiset(rows)[x] else 0
  {
    if rows == [] then []
    else
      assert rows == [rows[0]] + rows[1..];
      (if Passes(rows[0], filter, exclude) then [rows[0]] else []) + Kept(rows[1..], filter, exclude)
  }

  function Min(a: int, b: int): int { if a <= b then a else b }

  /**
   * `Document.get_queryset`: all instances, filtered, excluded, then cut to the first
   * `count` rows when a count is given (which marks the queryset as sliced).
   */
  function GetQueryset(objects: seq<Record>, filter: Option<Record -> bool>, exclude: Option<Record -> bool>,
                       count: Option<int>): (r: Result<QuerySet, QueryError>)
    ensures r.Failure? <==> count.Some? && count.value < 0
    ensures r.Success? ==> r.value.sliced == count.Some?
    ensures r.Success? ==> |r.value.rows| == if count.Some? then Min(count.value, |Kept(objects, filter, exclude)|)
                                             else |Kept(objects, filter, exclude)|
    ensures r.Success? ==> r.value.rows <= Kept(objects, filter, exclude)
  {
    var kept := Kept(objects, filter, exclude);
    if count.None? then Success(QuerySet(kept, false))
    else if count.value < 0 then Failure(NegativeIndexing)
    else Success(QuerySet(kept[..Min(count.value, |kept|)], true))
  }

  predicate PkLe(a: Record, b: Record) { a.pk <= b.pk }

  lemma PkLeIsTotalPreorder()
    ensures TotalPreorder(PkLe)
  {
  }

  /**
   * The order the walk visits rows in: `order_by("pk")` unless the queryset is already
   * sliced, in which case its own order is kept. Either way every row appears exactly
   * as often as in the queryset.
   */
  function IndexingOrder(qs: QuerySet): (r: seq<Record>)
    ensures multiset(r) == multiset(qs.rows)
    ensures !qs.sliced ==> SortedBy(r, PkLe)
    ensures qs.sliced ==> r == qs.rows
  {
    PkLeIsTotalPreorder();
    if qs.sliced then qs.rows else Sort(qs.rows, PkLe)
  }

  /** Where the `k`-th pull starts: the loop's `i` after `k` steps of `i = min(i + c, n)`. */
  function Offset(k: nat, c: nat, n: nat): (i: nat)
    ensures i <= n
  {
    if k == 0 then 0 else Min(Offset(k - 1, c, n) + c, n)
  }

  /** The `k`-th slice `qs[i : i + c]`, with Python's clamping at the end. */
  function Window(s: seq<Record>, k: nat, c: nat): seq<Record>
  {
    s[Offset(k, c, |s|)..Offset(k + 1, c, |s|)]
  }

  /** The offsets are the multiples of the chunk size, capped at the row count. */
  lemma {:induction false} OffsetIsCappedMultiple(k: nat, c: nat, n: nat)
    ensures Offset(k, c, n) == Min(k * c, n)
  {
    if k > 0 {
      OffsetIsCappedMultiple(k - 1, c, n);
      assert (k - 1) * c + c == k * c;
    }
  }

  /** The `k`-th pull reads rows `[k*c, (k+1)*c)`, clamped to the row count. */
  lemma WindowBounds(s: seq<Record>, k: nat, c: nat)
    ensures Window(s, k, c) == s[Min(k * c, |s|)..Min(k * c + c, |s|)]
  {
    OffsetIsCappedMultiple(k, c, |s|);
    OffsetIsCappedMultiple(k + 1, c, |s|);
    assert (k + 1) * c == k * c + c;
  }

  function Concat(chunks: seq<seq<Record>>): seq<Record>
  {
    if chunks == [] then [] else Concat(chunks[..|chunks| - 1]) + chunks[|chunks| - 1]
  }

  /** `ceil(n / c)`: the number of slices of size `c` that cover `n` rows. */
  function CeilDiv(n: nat, c: nat): nat
    requires c > 0
  {
    (n + c - 1) / c
  }

  lemma {:induction false} CeilDivCharacterized(n: nat, c: nat, p: nat)
    requires c > 0
    requires n <= p * c
    requires p > 0 ==> (p - 1) * c < n
    ensures p == CeilDiv(n, c)
  {
    if p == 0 {
      assert n == 0;
    } else {
      var m := n + c - 1;
      assert p * c <= m < (p + 1) * c;
      DivBetween(m, c, p);
    }
  }

  lemma LessFromProducts(a: int, b: int, c: nat)
    requires c > 0 && a * c < b * c
    ensures a < b
  {
  }

  lemma DivBetween(m: nat, c: nat, q: nat)
    requires c > 0 && q * c <= m < (q + 1) * c
    ensures m / c == q
  {
    var q' := m / c;
    assert q' * c <= m < (q' + 1) * c;
    LessFromProducts(q, q' + 1, c);
    LessFromProducts(q', q + 1, c);
  }

  /** The loop stops after exactly `ceil(n / c)` pulls: the first count whose offset reaches `n`. */
  lemma PullCount(p: nat, c: nat, n: nat)
    requires c > 0
    requires Offset(p, c, n) == n
    requires p > 0 ==> Offset(p - 1, c, n) < n
    ensures p == CeilDiv(n, c)
  {
    OffsetIsCappedMultiple(p, c, n);
    if p > 0 {
      OffsetIsCappedMultiple(p - 1, c, n);
    }
    CeilDivCharacterized(n, c, p);
  }

  /** The rows the walk yields and the slices it pulled: rows `[k*c, (k+1)*c)` for the `k`-th. */
  ghost predicate ChunkedWalk(rows: seq<Record>, chunkSize: nat, walk: Walk)
    requires chunkSize > 0
  {
    && walk.yielded == rows
    && Concat(walk.pulls) == rows
    && |walk.pulls| == CeilDiv(|rows|, chunkSize)
    && forall k :: 0 <= k < |walk.pulls| ==> walk.pulls[k] == Window(rows, k, chunkSize) && 0 < |walk.pulls[k]| <= chunkSize
  }

  /**
   * `Document.get_indexing_queryset`: walks the queryset in slices of `chunkSize` rows,
   * yielding every row of the slice, until `done` reaches the row count. It yields each
   * row of the queryset exactly once, in indexing order, and pulls `ceil(N / chunkSize)`
   * slices, the `k`-th being rows `[k*chunkSize, (k+1)*chunkSize)` clamped to N.
   */
  method GetIndexingQueryset(objects: seq<Record>, filter: Option<Record -> bool>, exclude: Option<Record -> bool>,
                             count: Option<int>, chunkSize: nat)
    returns (r: Result<Walk, QueryError>)
    requires chunkSize > 0
    ensures r.Failure? <==> count.Some? && count.value < 0
    ensures r.Success? ==> ChunkedWalk(IndexingOrder(GetQueryset(objects, filter, exclude, count).value), chunkSize, r.value)
  {
    var query := GetQueryset(objects, filter, exclude, count);
    if query.Failure? {
      return Failure(query.error);
    }
    var walk := WalkInChunks(IndexingOrder(query.value), chunkSize);
    return Success(walk);
  }

  /** What the walk has done after some pulls: rows `[0, i)` yielded through the windows so far. */
  ghost predicate PulledSoFar(rows: seq<Record>, c: nat, pulls: seq<seq<Record>>, i: nat)
  {
    && i <= |rows|
    && rows[..i] == Concat(pulls)
    && i == Offset(|pulls|, c, |rows|)
    && (|pulls| > 0 ==> Offset(|pulls| - 1, c, |rows|) < |rows|)
    && forall k :: 0 <= k < |pulls| ==> pulls[k] == Window(rows, k, c) && 0 < |pulls[k]| <= c
  }

  /** Pulling the next slice `rows[i : i + c]` extends the walk by one window. */
  lemma PullStep(rows: seq<Record>, c: nat, pulls: seq<seq<Record>>, i: nat)
    requires c > 0 && i < |rows| && PulledSoFar(rows, c, pulls, i)
    ensures PulledSoFar(rows, c, pulls + [rows[i..Min(i + c, |rows|)]], Min(i + c, |rows|))
  {
    var slice := rows[i..Min(i + c, |rows|)];
    assert Concat(pulls + [slice]) == Concat(pulls) + slice;
    assert rows[..Min(i + c, |rows|)] == rows[..i] + slice;
  }

  /** The `while done < count` loop of `get_indexing_queryset` over the ordered rows. */
  method WalkInChunks(rows: seq<Record>, chunkSize: nat) returns (walk: Walk)
    requires chunkSize > 0
    ensures ChunkedWalk(rows, chunkSize, walk)
  {
    var total := |rows|;
    var i, done := 0, 0;
    var yielded: seq<Record> := [];
    var pulls: seq<seq<Record>> := [];
    while done < total
      invariant PulledSoFar(rows, chunkSize, pulls, i)
      invariant done == i
      invariant yielded == rows[..i]
      decreases total - i
    {
      var slice := rows[i..Min(i + chunkSize, total)];
      PullStep(rows, chunkSize, pulls, i);
      var j := 0;
      while j < |slice|
        invariant 0 <= j <= |slice|
        invariant done == i + j
        invariant yielded == rows[..i + j]
      {
        done := done + 1;
        yielded := yielded + [slice[j]];
        j := j + 1;
      }
      pulls := pulls + [slice];
      i := Min(i + chunkSize, total);
    }
    assert yielded == rows;
    PullCount(|pulls|, chunkSize, total);
    walk := Walk(yielded, pulls);
  }

  /** How `_eta` reads: unknown before the first record, else whole seconds or whole minutes. */
  datatype EtaReading = Unknown | Seconds(secs: int) | Minutes(mins: int)

  /** Python's `round` on the exact quotient `num / den`: nearest integer, ties to even. */
  function RoundHalfEven(num: int, den: nat): (r: int)
    requires den > 0
    ensures 2 * (num - r * den) <= den && 2 * (r * den - num) <= den
    ensures 2 * (num - r * den) == den || 2 * (r * den - num) == den ==> r % 2 == 0
  {
    var q, rem := num / den, num % den;
    assert num == q * den + rem;
    assert (q + 1) * den == q * den + den;
    if 2 * rem < den then q
    else if 2 * rem > den then q + 1
    else if q % 2 == 0 then q
    else q + 1
  }

  /**
   * The estimate `_eta` prints: after `done` of `total` rows in `elapsed` seconds, the
   * remaining time `elapsed / done * (total - done)` rounded to whole seconds, shown in
   * whole minutes (floor) once it exceeds 120 seconds.
   */
  function EtaEstimate(elapsed: nat, done: nat, total: int): (r: EtaReading)
    ensures r.Unknown? <==> done == 0
    ensures r.Seconds? ==> r.secs <= 120 && r.secs == RoundHalfEven(elapsed * (total - done), done)
    ensures r.Minutes? ==> (r.mins >= 2 &&
              60 * r.mins <= RoundHalfEven(elapsed * (total - done), done) < 60 * r.mins + 60)
    ensures done > 0 ==> (r.Seconds? <==> RoundHalfEven(elapsed * (total - done), done) <= 120)
  {
    if done == 0 then Unknown
    else
      var eta := RoundHalfEven(elapsed * (total - done), done);
      if eta > 120 then Minutes(eta / 60) else Seconds(eta)
  }

  /** The text of a reading: `~`, `<n> secs` or `<n> mins`. */
  function EtaText(reading: EtaReading): string
  {
    match reading
    case Unknown => "~"
    case Seconds(n) => IntToDecimal(n) + " secs"
    case Minutes(n) => IntToDecimal(n) + " mins"
  }

  /** `Document._eta(start, done, total)` with the elapsed time given in whole seconds. */
  function Eta(elapsed: nat, done: nat, total: int): (text: string)
    ensures text == "~" <==> done == 0
    ensures ParseEta(text) == Some(EtaEstimate(elapsed, done, total))
    ensures forall t :: ParseEta(t) == Some(EtaEstimate(elapsed, done, total)) ==> t == text
  {
    EtaTextRoundTrip(EtaEstimate(elapsed, done, total));
    ParseEtaUnique(EtaEstimate(elapsed, done, total));
    EtaText(EtaEstimate(elapsed, done, total))
  }

  /** Reads a progress ETA back into its reading. */
  function ParseEta(text: string): Option<EtaReading>
  {
    if text == "~" then Some(Unknown)
    else if |text| >= 5 && text[|text| - 5..] == " secs" then
      var n := ParseInt(text[..|text| - 5]);
      if n.Some? then Some(Seconds(n.value)) else None
    else if |text| >= 5 && text[|text| - 5..] == " mins" then
      var n := ParseInt(text[..|text| - 5]);
      if n.Some? then Some(Minutes(n.value)) else None
    else None
  }

  /** The ETA text loses nothing: it reads back as the reading it was printed from. */
  lemma EtaTextRoundTrip(reading: EtaReading)
    ensures ParseEta(EtaText(reading)) == Some(reading)
  {
    match reading
    case Unknown =>
    case Seconds(n) =>
      IntToDecimalRoundTrip(n);
      var t := EtaText(reading);
      assert t[..|t| - 5] == IntToDecimal(n);
      assert t[|t| - 5..] == " secs";
    case Minutes(n) =>
      IntToDecimalRoundTrip(n);
      var t := EtaText(reading);
      assert t[..|t| - 5] == IntToDecimal(n);
      assert t[|t| - 5..] == " mins";
      assert t != "~";
  }

  /** Only the printed text of a reading reads back as that reading. */
  lemma ParseEtaExact(text: string, reading: EtaReading)
    requires ParseEta(text) == Some(reading)
    ensures text == EtaText(reading)
  {
    if text != "~" {
      var digits := text[..|text| - 5];
      var n := ParseInt(digits);
      ParseIntExact(digits, n.value);
      assert text == digits + text[|text| - 5..];
    }
  }

  /** A reading has exactly one text that reads back as it. */
  lemma ParseEtaUnique(reading: EtaReading)
    ensures forall t :: ParseEta(t) == Some(reading) ==> t == EtaText(reading)
  {
    forall t | ParseEta(t) == Some(reading) ensures t == EtaText(reading) {
      ParseEtaExact(t, reading);
    }
  }
}
