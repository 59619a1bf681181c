/** The request schedule both list scrapers use: the site's JSON API is paged
    with a fixed page size and start offsets that must be multiples of it.
    A first request at start 0 reports the number of records; the scraper
    then issues n_do = max(0, total - size) // size + 1 further requests. */
module Pagination {
  import opened Wrappers

  datatype Request = Request(key: string, start: int)

  /** n_do: the number of requests made after the first one. */
  function ExtraRequests(totalRecords: int, displayLength: nat): (n: nat)
    requires displayLength > 0
    ensures n >= 1
  {
    (if totalRecords - displayLength > 0 then totalRecords - displayLength else 0) / displayLength + 1
  }

  /** makeRequest's guard: a start that is not a multiple of the page size is
      a RuntimeError. */
  function RequestGuard(start: int, displayLength: nat): (r: Result<int>)
    requires displayLength > 0
    ensures r.Ok? <==> start % displayLength == 0
    ensures r.Ok? ==> r.value == start
  {
    if start % displayLength != 0 then Err(RuntimeError) else Ok(start)
  }

  /** The requests for one key: the first at 0, then nDo more, each one page
      further on. */
  function PageRequests(key: string, nDo: nat, displayLength: nat): (rs: seq<Request>)
  {
    seq(nDo + 1, i requires 0 <= i <= nDo => Request(key, i * displayLength))
  }

  /** The requests for all keys in order, each key with its own nDo. */
  function Schedule(keys: seq<string>, nDo: string -> nat, displayLength: nat): seq<Request>
    decreases |keys|
  {
    if keys == [] then []
    else
      var k := keys[|keys| - 1];
      Schedule(keys[..|keys| - 1], nDo, displayLength) + PageRequests(k, nDo(k), displayLength)
  }

  /** The sum of the first-response totals over the keys. */
  function SumTotals(keys: seq<string>, total: string -> int): int
    decreases |keys|
  {
    if keys == [] then 0 else SumTotals(keys[..|keys| - 1], total) + total(keys[|keys| - 1])
  }

  lemma {:induction false} MulAtLeast(k: int, l: int)
    requires k >= 1 && l > 0
    ensures k * l >= l
    decreases k
  {
    if k > 1 {
      MulAtLeast(k - 1, l);
      assert k * l == (k - 1) * l + l;
    }
  }

  /** Euclidean division has one quotient and one remainder. */
  lemma DivModUnique(x: int, l: int, q: int, r: int)
    requires l > 0 && x == q * l + r && 0 <= r < l
    ensures x / l == q && x % l == r
  {
    var q' := x / l;
    var r' := x % l;
    assert (q - q') * l == r' - r;
    if q - q' >= 1 {
      MulAtLeast(q - q', l);
    } else if q' - q >= 1 {
      MulAtLeast(q' - q, l);
    }
  }

  /** The requests for one key as the scraper loops make them: start 0, then
      nDo times one page further, each start checked by makeRequest's guard,
      which never raises here. */
  method RequestPages(key: string, nDo: nat, displayLength: nat) returns (rs: seq<Request>)
    requires displayLength > 0
    ensures rs == PageRequests(key, nDo, displayLength)
  {
    var start := 0;
    var guard := RequestGuard(start, displayLength);
    assert guard.Ok?;  // makeRequest does not raise
    rs := [Request(key, start)];
    for k := 0 to nDo
      invariant start == k * displayLength
      invariant rs == PageRequests(key, nDo, displayLength)[..k + 1]
    {
      start := start + displayLength;
      DivModUnique(start, displayLength, k + 1, 0);
      guard := RequestGuard(start, displayLength);
      assert guard.Ok?;
      rs := rs + [Request(key, start)];
      assert PageRequests(key, nDo, displayLength)[..k + 2]
          == PageRequests(key, nDo, displayLength)[..k + 1] + [Request(key, start)];
    }
    assert PageRequests(key, nDo, displayLength)[..nDo + 1] == PageRequests(key, nDo, displayLength);
  }

  lemma ScheduleSnoc(keys: seq<string>, k: string, nDo: string -> nat, displayLength: nat)
    ensures Schedule(keys + [k], nDo, displayLength) == Schedule(keys, nDo, displayLength) + PageRequests(k, nDo(k), displayLength)
  {
    assert (keys + [k])[..|keys|] == keys;
  }

  lemma SumTotalsSnoc(keys: seq<string>, k: string, total: string -> int)
    ensures SumTotals(keys + [k], total) == SumTotals(keys, total) + total(k)
  {
    assert (keys + [k])[..|keys|] == keys;
  }

  /** Every start in a schedule is a multiple of the page size, so the guard
      in makeRequest accepts every request of a schedule. */
  lemma {:induction false} ScheduleStartsAreMultiples(keys: seq<string>, nDo: string -> nat, displayLength: nat)
    requires displayLength > 0
    ensures forall r :: r in Schedule(keys, nDo, displayLength) ==>
              r.start % displayLength == 0 && r.start >= 0 && RequestGuard(r.start, displayLength).Ok?
    decreases |keys|
  {
    if keys != [] {
      ScheduleStartsAreMultiples(keys[..|keys| - 1], nDo, displayLength);
      var k := keys[|keys| - 1];
      var pages := PageRequests(k, nDo(k), displayLength);
      forall r | r in pages
        ensures r.start % displayLength == 0 && r.start >= 0
      {
        var i :| 0 <= i < |pages| && pages[i] == r;
        DivModUnique(i * displayLength, displayLength, i, 0);
      }
    }
  }

  lemma {:induction false} ScheduleAppend(a: seq<string>, b: seq<string>, nDo: string -> nat, displayLength: nat)
    ensures Schedule(a + b, nDo, displayLength) == Schedule(a, nDo, displayLength) + Schedule(b, nDo, displayLength)
    decreases |b|
  {
    if b == [] {
      assert a + b == a;
    } else {
      var b' := b[..|b| - 1];
      assert (a + b)[..|a + b| - 1] == a + b';
      ScheduleAppend(a, b', nDo, displayLength);
    }
  }

  lemma {:induction false} SumTotalsAppend(a: seq<string>, b: seq<string>, total: string -> int)
    ensures SumTotals(a + b, total) == SumTotals(a, total) + SumTotals(b, total)
    decreases |b|
  {
    if b == [] {
      assert a + b == a;
    } else {
      var b' := b[..|b| - 1];
      assert (a + b)[..|a + b| - 1] == a + b';
      SumTotalsAppend(a, b', total);
    }
  }

  /** Within a schedule, each key's pages stand in one block, between the
      pages of the keys before it and those of the keys after it. */
  lemma ScheduleAroundKey(keys: seq<string>, nDo: string -> nat, displayLength: nat, j: nat)
    requires j < |keys|
    ensures Schedule(keys, nDo, displayLength)
         == Schedule(keys[..j], nDo, displayLength)
          + PageRequests(keys[j], nDo(keys[j]), displayLength)
          + Schedule(keys[j + 1..], nDo, displayLength)
  {
    assert keys == keys[..j] + [keys[j]] + keys[j + 1..];
    ScheduleAppend(keys[..j] + [keys[j]], keys[j + 1..], nDo, displayLength);
    ScheduleAppend(keys[..j], [keys[j]], nDo, displayLength);
    assert [keys[j]][..0] == [];
  }

  /** The pages of one key: one request more than n_do, the last at n_do pages. */
  lemma PageRequestsShape(key: string, nDo: nat, displayLength: nat)
    ensures |PageRequests(key, nDo, displayLength)| == nDo + 1
    ensures PageRequests(key, nDo, displayLength)[0] == Request(key, 0)
    ensures PageRequests(key, nDo, displayLength)[nDo] == Request(key, nDo * displayLength)
  {
  }

  /** The schedule reaches every record: (n_do + 1) pages hold at least the
      total. */
  lemma {:induction false} ExtraRequestsCoverTotal(totalRecords: int, displayLength: nat)
    requires displayLength > 0
    ensures (ExtraRequests(totalRecords, displayLength) + 1) * displayLength >= totalRecords
  {
    var d := if totalRecords - displayLength > 0 then totalRecords - displayLength else 0;
    var q := d / displayLength;
    assert d == q * displayLength + d % displayLength;
    assert d % displayLength < displayLength;
    assert (q + 2) * displayLength == q * displayLength + 2 * displayLength;
  }

  /** The last request starts at or past the end of the records exactly when
      the total is at most one page or a whole number of pages: then it
      fetches an empty page. */
  lemma {:induction false} LastPageEmptyExactly(totalRecords: nat, displayLength: nat)
    requires displayLength > 0
    ensures ExtraRequests(totalRecords, displayLength) * displayLength >= totalRecords
        <==> (totalRecords <= displayLength || totalRecords % displayLength == 0)
  {
    var n := ExtraRequests(totalRecords, displayLength);
    if totalRecords > displayLength {
      var d := totalRecords - displayLength;
      var q := d / displayLength;
      var m := d % displayLength;
      assert n == q + 1;
      assert n * displayLength == q * displayLength + displayLength;
      assert totalRecords == n * displayLength + m;
      DivModUnique(totalRecords, displayLength, n, m);
    }
  }
}
