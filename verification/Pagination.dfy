/**
 Two clients of the paged audit listing: one steps by the page size it asked for and stops at
 a short page, the other steps by what it was given.
 */
module Pagination {

  datatype Option<T> = None | Some(value: T)

  const LIMIT: nat := 100

  function PageSize(cap: nat): nat { if cap < LIMIT then cap else LIMIT }

  /** A page of the listing from a server that returns at most `cap` entries at a time. */
  function Page<T>(entries: seq<T>, cap: nat, offset: nat): (page: seq<T>)
    ensures |page| <= LIMIT && |page| <= cap
  {
    if offset >= |entries| then []
    else if offset + PageSize(cap) <= |entries| then entries[offset..offset + PageSize(cap)]
    else entries[offset..]
  }

  // ----- the requests of one job, oldest first -----

  datatype Entry = Entry(time: Option<int>, tokensIn: nat, tokensOut: nat, latency: nat)

  datatype Row = Row(time: int, tokensIn: nat, tokensOut: nat, latency: nat)

  /** An entry without a timestamp gives no row. */
  function Rows(entries: seq<Entry>): seq<Row> {
    if entries == [] then []
    else
      var e := entries[|entries| - 1];
      Rows(entries[..|entries| - 1])
      + if e.time.Some? then [Row(e.time.value, e.tokensIn, e.tokensOut, e.latency)] else []
  }

  lemma {:induction false} RowsAppend(a: seq<Entry>, b: seq<Entry>)
    ensures Rows(a + b) == Rows(a) + Rows(b)
  {
    if b == [] {
      assert a + b == a;
    } else {
      assert (a + b)[..|a + b| - 1] == a + b[..|b| - 1];
      RowsAppend(a, b[..|b| - 1]);
    }
  }

  predicate OldestFirst(rows: seq<Row>) {
    forall i, j :: 0 <= i < j < |rows| ==> rows[i].time <= rows[j].time
  }

  /** Stable insertion by time. */
  function InsertRow(rows: seq<Row>, row: Row): (r: seq<Row>)
    ensures forall x :: x in r <==> x == row || x in rows
    ensures OldestFirst(rows) ==> OldestFirst(r)
  {
    if rows == [] || rows[|rows| - 1].time <= row.time then rows + [row]
    else
      var n := |rows| - 1;
      var before := InsertRow(rows[..n], row);
      assert forall i :: 0 <= i < |before| ==> before[i] in before && (before[i] == row || before[i] in rows[..n]);
      before + [rows[n]]
  }

  lemma {:induction false} InsertKeepsRows(rows: seq<Row>, row: Row)
    ensures multiset(InsertRow(rows, row)) == multiset(rows) + multiset{row}
  {
    if rows != [] {
      assert rows == rows[..|rows| - 1] + [rows[|rows| - 1]];
      InsertKeepsRows(rows[..|rows| - 1], row);
    }
  }

  function SortRows(rows: seq<Row>): (r: seq<Row>)
    ensures OldestFirst(r) && multiset(r) == multiset(rows)
  {
    if rows == [] then []
    else
      var before, last := SortRows(rows[..|rows| - 1]), rows[|rows| - 1];
      assert rows == rows[..|rows| - 1] + [last];
      InsertKeepsRows(before, last);
      InsertRow(before, last)
  }

  /** The rows of one moment, in their order. */
  function AtTime(rows: seq<Row>, time: int): seq<Row> {
    if rows == [] then []
    else AtTime(rows[..|rows| - 1], time) + if rows[|rows| - 1].time == time then [rows[|rows| - 1]] else []
  }

  lemma AtTimeSnoc(rows: seq<Row>, row: Row, time: int)
    ensures AtTime(rows + [row], time) == AtTime(rows, time) + if row.time == time then [row] else []
  {
    assert (rows + [row])[..|rows|] == rows;
  }

  lemma {:induction false} InsertIsStable(rows: seq<Row>, row: Row, time: int)
    requires OldestFirst(rows)
    ensures AtTime(InsertRow(rows, row), time) == AtTime(rows + [row], time)
    decreases |rows|
  {
    hide AtTime;
    if rows != [] && rows[|rows| - 1].time > row.time {
      var front, last := rows[..|rows| - 1], rows[|rows| - 1];
      InsertIsStable(front, row, time);
      assert rows == front + [last];
      AtTimeSnoc(InsertRow(front, row), last, time);
      AtTimeSnoc(front, row, time);
      AtTimeSnoc(front, last, time);
      AtTimeSnoc(rows, row, time);
    }
  }

  /** The sort is stable: requests of the same moment stay in the order they were listed in. */
  lemma {:induction false} SortIsStable(rows: seq<Row>, time: int)
    ensures AtTime(SortRows(rows), time) == AtTime(rows, time)
    decreases |rows|
  {
    if rows != [] {
      var n := |rows| - 1;
      var before := SortRows(rows[..n]);
      SortIsStable(rows[..n], time);
      InsertIsStable(before, rows[n], time);
      AtTimeSnoc(before, rows[n], time);
    }
  }

  lemma SortKeepsLength(rows: seq<Row>)
    ensures |SortRows(rows)| == |rows|
  {
    assert |multiset(SortRows(rows))| == |multiset(rows)|;
  }

  lemma NextPage(entries: seq<Entry>, cap: nat, offset: nat)
    requires offset <= |entries|
    ensures var page := Page(entries, cap, offset);
            && offset + |page| <= |entries| && entries[..offset + |page|] == entries[..offset] + page
            && |page| == if |entries| - offset < PageSize(cap) then |entries| - offset else PageSize(cap)
  {
  }

  lemma AllRowsIff(entries: seq<Entry>, k: nat)
    requires k <= |entries|
    ensures multiset(Rows(entries[..k])) <= multiset(Rows(entries))
    ensures SortRows(Rows(entries[..k])) == SortRows(Rows(entries)) <==> Rows(entries[k..]) == []
  {
    assert entries == entries[..k] + entries[k..];
    RowsAppend(entries[..k], entries[k..]);
    SortKeepsLength(Rows(entries[..k]));
    SortKeepsLength(Rows(entries));
    if Rows(entries[k..]) == [] { assert Rows(entries[..k]) + [] == Rows(entries[..k]); }
  }

  /** How far the reader that stops at a short page gets. */
  ghost function ReadTo(n: nat, cap: nat): (k: nat)
    ensures k <= n
  {
    if cap >= LIMIT || n <= cap then n else cap
  }

  /** Steps by the limit and stops at the first page below it. It lists every entry that has
      a timestamp exactly when the server honours the limit, the listing fits in one page, or
      nothing after the first page has a timestamp. */
  method FetchRequests(entries: seq<Entry>, cap: nat) returns (rows: seq<Row>)
    ensures OldestFirst(rows) && multiset(rows) <= multiset(Rows(entries))
    ensures rows == SortRows(Rows(entries[..ReadTo(|entries|, cap)]))
    ensures rows == SortRows(Rows(entries))
       <==> cap >= LIMIT || |entries| <= cap || Rows(entries[cap..]) == []
  {
    hide Page, Rows, SortRows;
    rows := [];
    var offset := 0;
    NoRows();
    assert entries[..0] == [];
    while true
      invariant offset <= |entries| && rows == Rows(entries[..offset])
      invariant offset > 0 ==> cap >= LIMIT
      decreases |entries| - offset
    {
      NextPage(entries, cap, offset);
      var items := Page(entries, cap, offset);
      RowsAppend(entries[..offset], items);
      rows := AddRows(rows, items);
      if |items| < LIMIT {
        assert offset + |items| == ReadTo(|entries|, cap);
        break;
      }
      offset := offset + LIMIT;
    }
    AllRowsIff(entries, ReadTo(|entries|, cap));
    AfterAll(entries, cap);
    rows := SortRows(rows);
  }

  lemma NoRows()
    ensures Rows([]) == []
  {
  }

  lemma AfterAll(entries: seq<Entry>, cap: nat)
    ensures cap >= LIMIT || |entries| <= cap ==> Rows(entries[ReadTo(|entries|, cap)..]) == []
  {
    if cap >= LIMIT || |entries| <= cap { assert entries[|entries|..] == []; }
  }

  method AddRows(rows: seq<Row>, items: seq<Entry>) returns (more: seq<Row>)
    ensures more == rows + Rows(items)
  {
    more := rows;
    assert rows + [] == rows && items[..0] == [];
    for i := 0 to |items|
      invariant more == rows + Rows(items[..i])
    {
      assert items[..i + 1][..i] == items[..i];
      var e := items[i];
      if e.time.Some? {
        more := more + [Row(e.time.value, e.tokensIn, e.tokensOut, e.latency)];
      }
    }
    assert items[..|items|] == items;
  }

  // ----- token totals -----

  datatype Call = Call(main: bool, tokensIn: nat, tokensOut: nat)

  datatype Totals = Totals(mainIn: nat, mainOut: nat, mainCalls: nat, auxIn: nat, auxOut: nat, auxCalls: nat)

  function AddCall(t: Totals, c: Call): Totals {
    if c.main then t.(mainIn := t.mainIn + c.tokensIn, mainOut := t.mainOut + c.tokensOut, mainCalls := t.mainCalls + 1)
    else t.(auxIn := t.auxIn + c.tokensIn, auxOut := t.auxOut + c.tokensOut, auxCalls := t.auxCalls + 1)
  }

  function AddCalls(t: Totals, calls: seq<Call>): Totals {
    if calls == [] then t else AddCall(AddCalls(t, calls[..|calls| - 1]), calls[|calls| - 1])
  }

  function TokensIn(calls: seq<Call>): nat {
    if calls == [] then 0 else TokensIn(calls[..|calls| - 1]) + calls[|calls| - 1].tokensIn
  }

  function TokensOut(calls: seq<Call>): nat {
    if calls == [] then 0 else TokensOut(calls[..|calls| - 1]) + calls[|calls| - 1].tokensOut
  }

  /** The calls of one kind. */
  function OfKind(calls: seq<Call>, main: bool): seq<Call> {
    if calls == [] then []
    else OfKind(calls[..|calls| - 1], main) + if calls[|calls| - 1].main == main then [calls[|calls| - 1]] else []
  }

  /** Each kind of call is totalled by itself. */
  lemma {:induction false} SplitByKind(t: Totals, calls: seq<Call>)
    ensures var r, main, aux := AddCalls(t, calls), OfKind(calls, true), OfKind(calls, false);
            && r.mainIn == t.mainIn + TokensIn(main) && r.auxIn == t.auxIn + TokensIn(aux)
            && r.mainOut == t.mainOut + TokensOut(main) && r.auxOut == t.auxOut + TokensOut(aux)
            && r.mainCalls == t.mainCalls + |main| && r.auxCalls == t.auxCalls + |aux|
  {
    if calls != [] {
      var n := |calls| - 1;
      SplitByKind(t, calls[..n]);
      var kind := OfKind(calls[..n], calls[n].main);
      assert (kind + [calls[n]])[..|kind|] == kind;
      var other := OfKind(calls[..n], !calls[n].main);
      assert other + [] == other;
    }
  }

  /** Nothing is lost between main and auxiliary calls. */
  lemma {:induction false} SplitConserves(t: Totals, calls: seq<Call>)
    ensures var r := AddCalls(t, calls);
            && r.mainIn + r.auxIn == t.mainIn + t.auxIn + TokensIn(calls)
            && r.mainOut + r.auxOut == t.mainOut + t.auxOut + TokensOut(calls)
            && r.mainCalls + r.auxCalls == t.mainCalls + t.auxCalls + |calls|
  {
    if calls != [] { SplitConserves(t, calls[..|calls| - 1]); }
  }

  lemma {:induction false} AddCallsAppend(t: Totals, a: seq<Call>, b: seq<Call>)
    ensures AddCalls(t, a + b) == AddCalls(AddCalls(t, a), b)
  {
    if b == [] {
      assert a + b == a;
    } else {
      assert (a + b)[..|a + b| - 1] == a + b[..|b| - 1];
      AddCallsAppend(t, a, b[..|b| - 1]);
    }
  }

  /** Whether the pages of a full reading are all served, from `offset` on. */
  predicate Served(calls: seq<Call>, cap: nat, total: Option<nat>, available: nat -> bool, offset: nat)
    decreases |calls| - offset
  {
    available(offset)
    && var next := offset + |Page(calls, cap, offset)|;
       next == offset || (total.Some? && next >= total.value) || Served(calls, cap, total, available, next)
  }

  method AddPage(t: Totals, entries: seq<Call>) returns (totals: Totals)
    ensures totals == AddCalls(t, entries)
  {
    totals := t;
    for i := 0 to |entries|
      invariant totals == AddCalls(t, entries[..i])
    {
      assert entries[..i + 1][..i] == entries[..i];
      totals := AddCall(totals, entries[i]);
    }
    assert entries[..|entries|] == entries;
  }

  lemma PageReads(calls: seq<Call>, cap: nat, offset: nat)
    requires offset <= |calls|
    ensures var page := Page(calls, cap, offset);
            && offset + |page| == (if |calls| - offset < PageSize(cap) then |calls| else offset + PageSize(cap))
            && calls[..offset + |page|] == calls[..offset] + page
  {
  }

  lemma ServedStep(calls: seq<Call>, cap: nat, total: Option<nat>, available: nat -> bool, offset: nat)
    ensures var next := offset + |Page(calls, cap, offset)|;
            Served(calls, cap, total, available, offset) <==>
            available(offset)
              && (next == offset || (total.Some? && next >= total.value) || Served(calls, cap, total, available, next))
  {
  }

  /** Where a reading in pages of `size` stops: at the end of the first page that reaches the
      total, and otherwise at the end of the listing; at once if pages are empty. */
  ghost predicate StopsAt(n: nat, size: nat, total: Option<nat>, c: nat) {
    if size == 0 then c == 0
    else
      && c <= n
      && (c < n ==> c > 0 && c % size == 0 && total.Some? && total.value <= c)
      && forall d :: 0 < d < c && d % size == 0 && total.Some? ==> d < total.value
  }

  lemma StopsOnce(n: nat, size: nat, total: Option<nat>, c: nat, c': nat)
    requires StopsAt(n, size, total, c) && StopsAt(n, size, total, c')
    ensures c == c'
    ensures size > 0 && (total.None? || total.value >= n) ==> c == n
  {
  }

  lemma BetweenMultiples(a: nat, d: nat, s: nat)
    requires s > 0 && a % s == 0 && a < d < a + s
    ensures d % s != 0
  {
    var q, m := a / s, d / s;
    assert a == s * q && d == s * m + d % s;
    MulBounds(s, m - q);
    assert s * (m - q) == s * m - s * q;
  }

  lemma NextMultiple(a: nat, s: nat)
    requires s > 0 && a % s == 0
    ensures (a + s) % s == 0
  {
    var q, m := a / s, (a + s) / s;
    assert a + s == s * m + (a + s) % s && a == s * q;
    MulBounds(s, q + 1 - m);
    assert s * (q + 1 - m) == s * q + s - s * m;
  }

  lemma MulBounds(s: nat, k: int)
    ensures k >= 1 ==> s * k >= s
    ensures k <= 0 ==> s * k <= 0
  {
  }

  /** Steps by what it was given, so the server's page size does not matter. The result covers
      the calls up to where the total stops it, every call when the total is honest or absent;
      if some page was unavailable it is unknown, and never zeros. */
  method JobTokenSplit(calls: seq<Call>, cap: nat, total: Option<nat>, available: nat -> bool)
    returns (r: Option<Totals>)
    ensures r.Some? <==> Served(calls, cap, total, available, 0)
    ensures r.Some? ==> exists end: nat :: StopsAt(|calls|, PageSize(cap), total, end)
                                      && r.value == AddCalls(Totals(0, 0, 0, 0, 0, 0), calls[..end])
    ensures r.Some? && cap > 0 && (total.None? || total.value >= |calls|) ==>
              r.value == AddCalls(Totals(0, 0, 0, 0, 0, 0), calls)
  {
    hide Page, Served, AddCalls;
    var totals := AddPage(Totals(0, 0, 0, 0, 0, 0), []);
    var offset: nat := 0;
    assert calls[..0] == [] && calls[..|calls|] == calls;
    while true
      invariant offset <= |calls|
      invariant totals == AddCalls(Totals(0, 0, 0, 0, 0, 0), calls[..offset])
      invariant Served(calls, cap, total, available, 0) <==> Served(calls, cap, total, available, offset)
      invariant Unreached(|calls|, PageSize(cap), total, offset)
      decreases |calls| - offset
    {
      ServedStep(calls, cap, total, available, offset);
      PageReads(calls, cap, offset);
      if !available(offset) { return None; }
      var entries := Page(calls, cap, offset);
      AddCallsAppend(Totals(0, 0, 0, 0, 0, 0), calls[..offset], entries);
      totals := AddPage(totals, entries);
      OnePage(|calls|, PageSize(cap), total, offset, offset + |entries|);
      offset := offset + |entries|;
      if entries == [] || (total.Some? && offset >= total.value) {
        StopsOnce(|calls|, PageSize(cap), total, offset, offset);
        return Some(totals);
      }
    }
  }

  /** Nothing up to `offset` has stopped the reading. */
  ghost predicate Unreached(n: nat, size: nat, total: Option<nat>, offset: nat) {
    if size == 0 then offset == 0
    else
      && (offset == n || offset % size == 0)
      && forall d :: 0 < d <= offset && d < n && d % size == 0 && total.Some? ==> d < total.value
  }

  lemma OnePage(n: nat, size: nat, total: Option<nat>, offset: nat, next: nat)
    requires offset <= n && Unreached(n, size, total, offset)
    requires next == if n - offset < size then n else offset + size
    ensures next == offset || (total.Some? && next >= total.value) ==> StopsAt(n, size, total, next)
    ensures !(total.Some? && next >= total.value) ==> Unreached(n, size, total, next)
  {
    if size > 0 && offset % size == 0 {
      NextMultiple(offset, size);
      forall d | offset < d < next ensures d % size != 0 { BetweenMultiples(offset, d, size); }
    }
  }
}
