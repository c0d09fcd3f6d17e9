/**
 Cursor pagination over the rows captured for a query, with a limit on rows and a limit on
 bytes per page. Following the cursors from the start loses nothing and repeats nothing.
 */
module Pagination {
  import opened Common

  const MAX_ROWS := 1000
  const MAX_DATA := 1024 * 1024
  const DEFAULT_ROWS := 100

  datatype Payload = Payload(data: seq<byte>, sizeBytes: int)

  datatype Row = Row(number: int, payload: Payload)

  /** The decoded cursor; a string that does not decode is Malformed. */
  datatype Cursor = Start | At(offset: int) | Malformed

  datatype Result =
    | Page(rows: seq<Row>, total: nat, hasMore: bool, next: Option<Cursor>)
    | InvalidCursor
    | QueryNotFound
    | StoreError

  /** What the database layer, which is not part of this model, makes of a negative OFFSET. */
  datatype NegativeOffset = Refused | Ignored

  // ---------------------------------------------------------------- one page

  function Limit(limit: int): (n: nat)
    ensures 1 <= n <= MAX_ROWS
  {
    if limit <= 0 then DEFAULT_ROWS else if limit > MAX_ROWS then MAX_ROWS else limit
  }

  function Bytes(rows: seq<Row>): nat {
    if rows == [] then 0 else Bytes(rows[..|rows| - 1]) + |rows[|rows| - 1].payload.data|
  }

  /** A page of the first `n` rows respects the byte limit; one row always does. */
  predicate Fits(rows: seq<Row>, n: nat)
    requires n <= |rows|
  {
    n <= 1 || Bytes(rows[..n]) <= MAX_DATA
  }

  /** `n` is the length of the longest page that both limits allow. */
  ghost predicate IsPageLength(rest: seq<Row>, limit: int, n: nat) {
    && n <= |rest| && n <= Limit(limit) && Fits(rest, n)
    && forall m :: n < m <= |rest| && m <= Limit(limit) ==> !Fits(rest, m)
  }

  lemma {:induction false} BytesGrow(rows: seq<Row>, m: nat, n: nat)
    requires m <= n <= |rows|
    ensures Bytes(rows[..m]) <= Bytes(rows[..n])
  {
    if m < n {
      BytesGrow(rows, m, n - 1);
      assert rows[..n][..n - 1] == rows[..n - 1];
    }
  }

  /** `ordered` is what SELECT ... ORDER BY row_number would give in full. */
  method GetQueryRows(found: bool, ordered: seq<Row>, cursor: Cursor, limit: int, negative: NegativeOffset)
    returns (r: Result)
    ensures cursor.Malformed? ==> r == InvalidCursor
    ensures !cursor.Malformed? && !found ==> r == QueryNotFound
    ensures found && cursor.At? && cursor.offset < 0 && negative.Refused? ==> r == StoreError
    ensures found && cursor.Start? ==> IsPageOf(ordered, 0, limit, r)
    ensures found && cursor.At? && (cursor.offset >= 0 || negative.Ignored?) ==>
              IsPageOf(ordered, cursor.offset, limit, r)
  {
    var lim := limit;
    if lim <= 0 {
      lim := DEFAULT_ROWS;
    }
    if lim > MAX_ROWS {
      lim := MAX_ROWS;
    }
    var offset := 0;
    if cursor.Malformed? {
      return InvalidCursor;
    }
    if cursor.At? {
      offset := cursor.offset;
    }
    if !found {
      return QueryNotFound;
    }
    if offset < 0 && negative.Refused? {
      return StoreError;
    }
    var fetched := Fetch(ordered, offset, lim + 1);
    var n, hasMore := Collect(fetched, lim);
    PageFromFetched(ordered, offset, limit, n);
    return Page(fetched[..n], |ordered|, hasMore, if hasMore then Some(At(offset + n)) else None);
  }

  /** The loop: how many of the fetched rows go into the page. */
  method Collect(fetched: seq<Row>, limit: nat) returns (n: nat, hasMore: bool)
    requires limit >= 1
    ensures n <= |fetched| && n <= limit && Fits(fetched, n)
    ensures n < |fetched| && n < limit ==> n >= 1 && Bytes(fetched[..n + 1]) > MAX_DATA
    ensures hasMore <==> n < |fetched|
  {
    hasMore := false;
    var size := 0;
    n := 0;
    while n < |fetched|
      invariant 0 <= n <= |fetched| && n <= limit && !hasMore
      invariant size == Bytes(fetched[..n]) && Fits(fetched, n)
    {
      if n >= limit {
        hasMore := true;
        break;
      }
      var rowSize := |fetched[n].payload.data|;
      assert fetched[..n + 1][..n] == fetched[..n];
      if size + rowSize > MAX_DATA && n > 0 {
        hasMore := true;
        break;
      }
      size := size + rowSize;
      n := n + 1;
    }
  }

  /** Fetching one row more than the limit is enough to find the page and to see whether rows remain. */
  lemma PageFromFetched(ordered: seq<Row>, offset: int, limit: int, n: nat)
    requires var fetched := Fetch(ordered, offset, Limit(limit) + 1);
             && n <= |fetched| && n <= Limit(limit) && Fits(fetched, n)
             && (n < |fetched| && n < Limit(limit) ==> n >= 1 && Bytes(fetched[..n + 1]) > MAX_DATA)
    ensures var fetched := Fetch(ordered, offset, Limit(limit) + 1);
            var rest := ordered[Clip(ordered, offset)..];
            IsPageLength(rest, limit, n) && fetched[..n] == rest[..n] && (n < |fetched| <==> n < |rest|)
  {
    var fetched := Fetch(ordered, offset, Limit(limit) + 1);
    var rest := ordered[Clip(ordered, offset)..];
    assert fetched[..n] == rest[..n];
    forall m | n < m <= |rest| && m <= Limit(limit) ensures !Fits(rest, m) {
      assert rest[..m] == fetched[..m];
      BytesGrow(fetched, n + 1, m);
    }
  }

  function Clip(ordered: seq<Row>, offset: int): nat {
    if offset < 0 then 0 else if offset <= |ordered| then offset else |ordered|
  }

  /** OFFSET and LIMIT. */
  function Fetch(ordered: seq<Row>, offset: int, count: nat): seq<Row> {
    var rest := ordered[Clip(ordered, offset)..];
    if count <= |rest| then rest[..count] else rest
  }

  /** The page at an offset: the longest allowed run of rows, and a cursor exactly when rows remain. */
  ghost predicate IsPageOf(ordered: seq<Row>, offset: int, limit: int, r: Result) {
    && r.Page? && r.total == |ordered|
    && var rest := ordered[Clip(ordered, offset)..];
       && IsPageLength(rest, limit, |r.rows|) && r.rows == rest[..|r.rows|]
       && (r.hasMore <==> |r.rows| < |rest|)
       && r.next == if r.hasMore then Some(At(offset + |r.rows|)) else None
  }

  // ---------------------------------------------------------------- following the cursors

  function Concat(pages: seq<Result>): seq<Row>
    requires forall i :: 0 <= i < |pages| ==> pages[i].Page?
  {
    if pages == [] then [] else Concat(pages[..|pages| - 1]) + pages[|pages| - 1].rows
  }

  /** Each page was asked for with the cursor of the one before; the limits may all differ. */
  ghost predicate Follows(ordered: seq<Row>, pages: seq<Result>, limits: seq<int>) {
    && |limits| == |pages| > 0
    && (forall i :: 0 <= i < |pages| ==> pages[i].Page?)
    && IsPageOf(ordered, 0, limits[0], pages[0])
    && forall i :: 0 < i < |pages| ==> Continues(ordered, pages, limits, i)
  }

  ghost predicate Continues(ordered: seq<Row>, pages: seq<Result>, limits: seq<int>, i: nat)
    requires 0 < i < |pages| == |limits|
  {
    var prev := pages[i - 1];
    && prev.Page? && prev.hasMore && prev.next.Some? && prev.next.value.At? && prev.next.value.offset >= 0
    && IsPageOf(ordered, prev.next.value.offset, limits[i], pages[i])
  }

  lemma PageMakesProgress(ordered: seq<Row>, offset: nat, limit: int, r: Result)
    requires IsPageOf(ordered, offset, limit, r) && offset < |ordered|
    ensures |r.rows| >= 1
  {
    var rest := ordered[offset..];
    if |r.rows| == 0 {
      assert Fits(rest, 1);
    }
  }

  lemma PageExtendsPrefix(ordered: seq<Row>, sofar: seq<Row>, limit: int, r: Result)
    requires sofar <= ordered && |sofar| < |ordered| && IsPageOf(ordered, |sofar|, limit, r)
    ensures sofar + r.rows <= ordered && |r.rows| >= 1
    ensures r.hasMore <==> |sofar + r.rows| < |ordered|
    ensures r.hasMore ==> r.next == Some(At(|sofar + r.rows|))
  {
    PageMakesProgress(ordered, |sofar|, limit, r);
    assert ordered == sofar + ordered[|sofar|..];
  }

  /** However far the cursors have been followed, the pages so far are the rows so far, in order. */
  lemma {:induction false} PagesAreAPrefix(ordered: seq<Row>, pages: seq<Result>, limits: seq<int>)
    requires Follows(ordered, pages, limits)
    ensures Concat(pages) <= ordered
    ensures |pages| - 1 <= |Concat(pages)|
    ensures pages[|pages| - 1].hasMore <==> |Concat(pages)| < |ordered|
    ensures pages[|pages| - 1].hasMore ==> pages[|pages| - 1].next == Some(At(|Concat(pages)|))
    ensures ordered != [] ==> |pages| <= |Concat(pages)|
    decreases |pages|
  {
    var n := |pages| - 1;
    var last := pages[n];
    assert pages[..n + 1] == pages;
    if n == 0 {
      assert Concat(pages[..0]) == [];
      assert ordered[Clip(ordered, 0)..] == ordered;
      if ordered != [] { PageMakesProgress(ordered, 0, limits[0], last); }
    } else {
      var ps, ls := pages[..n], limits[..n];
      assert Follows(ordered, ps, ls) by {
        forall i | 0 < i < |ps| ensures Continues(ordered, ps, ls, i) {
          assert Continues(ordered, pages, limits, i);
        }
      }
      PagesAreAPrefix(ordered, ps, ls);
      var off := |Concat(ps)|;
      assert Continues(ordered, pages, limits, n) && ps[n - 1] == pages[n - 1];
      assert IsPageOf(ordered, off, limits[n], last);
      PageExtendsPrefix(ordered, Concat(ps), limits[n], last);
    }
  }

  /** When the last page has no cursor, the pages together are every row exactly once, in order. */
  lemma FollowingIsLossless(ordered: seq<Row>, pages: seq<Result>, limits: seq<int>)
    requires Follows(ordered, pages, limits) && !pages[|pages| - 1].hasMore
    ensures Concat(pages) == ordered
    ensures |pages| <= if ordered == [] then 1 else |ordered|
  {
    PagesAreAPrefix(ordered, pages, limits);
  }

  /** And it always comes to that: no sequence of pages is longer than the table. */
  lemma FollowingEnds(ordered: seq<Row>, pages: seq<Result>, limits: seq<int>)
    requires Follows(ordered, pages, limits)
    ensures |pages| >= |ordered| ==> !pages[|pages| - 1].hasMore
  {
    PagesAreAPrefix(ordered, pages, limits);
  }

  /** The data of the rows, laid end to end. */
  function Data(rows: seq<Row>): seq<byte> {
    if rows == [] then [] else rows[0].payload.data + Data(rows[1..])
  }

  lemma {:induction false} DataSnoc(rows: seq<Row>, r: Row)
    ensures Data(rows + [r]) == Data(rows) + r.payload.data
  {
    if rows == [] {
      assert rows + [r] == [r] && [r][1..] == [];
    } else {
      DataSnoc(rows[1..], r);
      assert (rows + [r])[1..] == rows[1..] + [r];
      Regroup(rows[0].payload.data, Data(rows[1..]), r.payload.data);
    }
  }

  lemma {:induction false} BytesIsData(rows: seq<Row>)
    ensures Bytes(rows) == |Data(rows)|
  {
    if rows != [] {
      var n := |rows| - 1;
      BytesIsData(rows[..n]);
      DataSnoc(rows[..n], rows[n]);
      assert rows == rows[..n] + [rows[n]];
    }
  }

  /** The rows that a page may hold: what was asked for, at most 1000, and 100 if nothing sensible was. */
  function RowLimit(limit: int): nat {
    if limit <= 0 then 100 else if limit <= 1000 then limit else 1000
  }

  /**
   Every page holds at most min(limit, 1000) rows, 100 by default, and at most 1 MB of data unless it
   is a single row; and where rows remain, one more would break one of the two limits.
   */
  lemma PageIsBounded(ordered: seq<Row>, offset: int, limit: int, r: Result)
    requires IsPageOf(ordered, offset, limit, r)
    ensures |r.rows| <= RowLimit(limit)
    ensures |r.rows| == 1 || |Data(r.rows)| <= 1_048_576
    ensures var start := if offset < 0 then 0 else offset;
            r.hasMore ==>
              && start + |r.rows| < |ordered| && r.rows == ordered[start..start + |r.rows|]
              && (|r.rows| == RowLimit(limit) || |Data(ordered[start..start + |r.rows| + 1])| > 1_048_576)
  {
    BytesIsData(r.rows);
    if r.hasMore {
      var start := if offset < 0 then 0 else offset;
      var rest := ordered[start..];
      assert ordered[start..start + |r.rows|] == rest[..|r.rows|];
      assert |r.rows| < Limit(limit) ==> !Fits(rest, |r.rows| + 1);
      BytesIsData(rest[..|r.rows| + 1]);
      assert ordered[start..start + |r.rows| + 1] == rest[..|r.rows| + 1];
    }
  }

  /** A page beyond the end of the table is empty and the last. */
  lemma BeyondTheEnd(ordered: seq<Row>, offset: int, limit: int, r: Result)
    requires IsPageOf(ordered, offset, limit, r) && offset >= |ordered|
    ensures r.rows == [] && !r.hasMore && r.next == None && r.total == |ordered|
  {
  }

  // ---------------------------------------------------------------- the ordered table

  type Table = map<int, Payload>

  ghost predicate IsLeast(t: Table, k: int) {
    k in t && forall x :: x in t ==> k <= x
  }

  lemma LeastOf(t: Table)
    requires t != map[]
    ensures exists k :: IsLeast(t, k)
  {
    assert t.Keys != {};
    var k := LeastExists(t.Keys);
    assert IsLeast(t, k);
  }

  /** ORDER BY row_number on a table whose row numbers are distinct. */
  ghost function Ordered(t: Table): seq<Row>
    decreases |t|
  {
    if t == map[] then []
    else
      LeastOf(t);
      var k :| IsLeast(t, k);
      assert |(t - {k}).Keys| < |t.Keys| by { assert (t - {k}).Keys == t.Keys - {k}; }
      [Row(k, t[k])] + Ordered(t - {k})
  }

  lemma {:induction false} OrderedHoldsTheTable(t: Table)
    ensures forall r :: r in Ordered(t) <==> r.number in t && r.payload == t[r.number]
    decreases |t|
  {
    if t != map[] {
      LeastOf(t);
      var k :| IsLeast(t, k) && Ordered(t) == [Row(k, t[k])] + Ordered(t - {k});
      assert (t - {k}).Keys == t.Keys - {k};
      OrderedHoldsTheTable(t - {k});
    }
  }

  /** Ascending, and each row of the table exactly once. */
  lemma {:induction false} OrderedIsTheTable(t: Table)
    ensures forall i, j :: 0 <= i < j < |Ordered(t)| ==> Ordered(t)[i].number < Ordered(t)[j].number
    ensures forall r :: r in Ordered(t) <==> r.number in t && r.payload == t[r.number]
    decreases |t|
  {
    OrderedHoldsTheTable(t);
    if t != map[] {
      LeastOf(t);
      var k :| IsLeast(t, k) && Ordered(t) == [Row(k, t[k])] + Ordered(t - {k});
      assert (t - {k}).Keys == t.Keys - {k};
      OrderedIsTheTable(t - {k});
      FirstIsLeast(Row(k, t[k]), Ordered(t - {k}));
    }
  }

  lemma FirstIsLeast(r: Row, rest: seq<Row>)
    requires forall x :: x in rest ==> r.number < x.number
    requires forall i, j :: 0 <= i < j < |rest| ==> rest[i].number < rest[j].number
    ensures forall i, j :: 0 <= i < j < |[r] + rest| ==> ([r] + rest)[i].number < ([r] + rest)[j].number
  {
    forall i, j | 0 <= i < j < |[r] + rest| ensures ([r] + rest)[i].number < ([r] + rest)[j].number {
      assert ([r] + rest)[j] == rest[j - 1] && rest[j - 1] in rest;
      if i > 0 {
        assert ([r] + rest)[i] == rest[i - 1];
      }
    }
  }

  /** Following cursors over a table returns every row of it exactly once, by ascending row number. */
  lemma EveryRowOnce(t: Table, pages: seq<Result>, limits: seq<int>)
    requires Follows(Ordered(t), pages, limits) && !pages[|pages| - 1].hasMore
    ensures forall r :: r in Concat(pages) <==> r.number in t && r.payload == t[r.number]
    ensures forall i, j :: 0 <= i < j < |Concat(pages)| ==> Concat(pages)[i].number < Concat(pages)[j].number
  {
    FollowingIsLossless(Ordered(t), pages, limits);
    OrderedIsTheTable(t);
  }
}
