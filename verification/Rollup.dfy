/**
 The daily mirror of the ledger: raw aggregates per day and dimensions, the pass
 that re-closes a trailing window, and what it means for the mirror to agree.
 */
module Rollup {
  import opened Ledger

  const DAY_SECONDS := 86400

  /** The UTC day of a time, also before the epoch. */
  function Day(ts: int): int {
    ts / DAY_SECONDS
  }

  datatype Agg = Agg(quantity: real, cost: real, events: nat)

  datatype Slot = Slot(day: int, dims: Dims)

  type Mirror = map<Slot, Agg>

  function SlotOf(r: Row): Slot {
    Slot(Day(r.ts), r.dims)
  }

  /** The raw ledger's aggregate. */
  function RawAgg(rows: seq<Row>, slot: Slot): Agg {
    if rows == [] then Agg(0.0, 0.0, 0)
    else
      var r := rows[|rows| - 1];
      var before := RawAgg(rows[..|rows| - 1], slot);
      if SlotOf(r) != slot then before
      else
        Agg(before.quantity + r.quantity, before.cost + (if r.cost.Some? then r.cost.value else 0.0), before.events + 1)
  }

  function Read(m: Mirror, slot: Slot): Agg {
    if slot in m then m[slot] else Agg(0.0, 0.0, 0)
  }

  /** Every closed day serves what the raw ledger says. */
  ghost predicate Agrees(m: Mirror, rows: seq<Row>, watermark: Option<int>) {
    watermark.Some? ==> forall slot: Slot :: slot.day <= watermark.value ==> Read(m, slot) == RawAgg(rows, slot)
  }

  /** Every mirror row comes from ledger rows. */
  ghost predicate Backed(m: Mirror, rows: seq<Row>) {
    forall slot :: slot in m ==> HasRow(rows, slot)
  }

  predicate HasRow(rows: seq<Row>, slot: Slot) {
    exists i :: 0 <= i < |rows| && SlotOf(rows[i]) == slot
  }

  function SlotsIn(rows: seq<Row>, lo: int, hi: int): set<Slot> {
    set i | 0 <= i < |rows| && lo <= Day(rows[i].ts) <= hi :: SlotOf(rows[i])
  }

  /** Full-replace upsert of the aggregates of days lo..hi. */
  function Upsert(m: Mirror, rows: seq<Row>, lo: int, hi: int): Mirror {
    m + map slot | slot in SlotsIn(rows, lo, hi) :: RawAgg(rows, slot)
  }

  function EarliestDay(rows: seq<Row>): (d: Option<int>)
    ensures d.None? <==> rows == []
    ensures forall i :: 0 <= i < |rows| ==> d.value <= Day(rows[i].ts)
  {
    if rows == [] then None
    else
      var d := EarliestDay(rows[..|rows| - 1]);
      var last := Day(rows[|rows| - 1].ts);
      if d.None? || last < d.value then Some(last) else d
  }

  /** One pass, at a moment when `newest` is the newest closeable day. */
  function RunPass(m: Mirror, watermark: Option<int>, rows: seq<Row>, trailing: int,
                   newest: int): (Mirror, Option<int>) {
    if watermark.None? && rows == [] then (m, Some(newest))
    else
      var start := if watermark.None? then EarliestDay(rows).value
                   else watermark.value - (if trailing - 1 > 0 then trailing - 1 else 0);
      if newest < start then (m, watermark)
      else (Upsert(m, rows, start, newest), Some(newest))
  }

  /** Re-close from the day of `earliest` on, unless that day is still open. */
  function Recompute(m: Mirror, watermark: Option<int>, rows: seq<Row>, earliest: int,
                     newest: int): (Mirror, Option<int>) {
    if watermark.None? || Day(earliest) > watermark.value then (m, watermark)
    else RunPass(m, watermark, rows, watermark.value - Day(earliest) + 1, newest)
  }

  lemma {:induction false} NoRowNoAgg(rows: seq<Row>, slot: Slot)
    requires !HasRow(rows, slot)
    ensures RawAgg(rows, slot) == Agg(0.0, 0.0, 0)
    decreases |rows|
  {
    if rows != [] {
      var n := |rows| - 1;
      assert SlotOf(rows[n]) != slot;
      assert !HasRow(rows[..n], slot) by {
        forall i | 0 <= i < n ensures SlotOf(rows[..n][i]) != slot { assert rows[..n][i] == rows[i]; }
      }
      NoRowNoAgg(rows[..n], slot);
    }
  }

  // ----- the aggregates are the ledger's -----

  /** A day of 86400 seconds holds its times. */
  lemma DayIff(ts: int, day: int)
    ensures Day(ts) == day <==> 86400 * day <= ts < 86400 * (day + 1)
  {
  }

  function Plus(a: Agg, b: Agg): Agg {
    Agg(a.quantity + b.quantity, a.cost + b.cost, a.events + b.events)
  }

  /** What one combination of dimensions comes to over the days lo..hi. */
  ghost function OverDays(rows: seq<Row>, dims: Dims, lo: int, hi: int): Agg
    decreases hi - lo
  {
    if hi < lo then Agg(0.0, 0.0, 0) else Plus(OverDays(rows, dims, lo, hi - 1), RawAgg(rows, Slot(hi, dims)))
  }

  /** Total quantity, priced or not, corrections included. */
  function QuantitySum(rows: seq<Row>, at: Slice): real {
    if rows == [] then 0.0
    else
      var r := rows[|rows| - 1];
      QuantitySum(rows[..|rows| - 1], at) + if at(r.dims) then r.quantity else 0.0
  }

  function RowCount(rows: seq<Row>, at: Slice): nat {
    if rows == [] then 0
    else RowCount(rows[..|rows| - 1], at) + if at(rows[|rows| - 1].dims) then 1 else 0
  }

  lemma {:induction false} NothingOverDays(dims: Dims, lo: int, hi: int)
    ensures OverDays([], dims, lo, hi) == Agg(0.0, 0.0, 0)
    decreases hi - lo
  {
    if lo <= hi { NothingOverDays(dims, lo, hi - 1); }
  }

  lemma PlusLater(a: Agg, b: Agg, x: Agg)
    ensures Plus(Plus(a, x), b) == Plus(Plus(a, b), x) == Plus(a, Plus(b, x))
    ensures Plus(a, Agg(0.0, 0.0, 0)) == a
  {
  }

  /** What a row adds to its slot. */
  function Share(r: Row): Agg {
    Agg(r.quantity, if r.cost.Some? then r.cost.value else 0.0, 1)
  }

  lemma OneMoreRow(rows: seq<Row>, r: Row, slot: Slot)
    ensures RawAgg(rows + [r], slot) ==
            if SlotOf(r) == slot then Plus(RawAgg(rows, slot), Share(r)) else RawAgg(rows, slot)
  {
    assert (rows + [r])[..|rows|] == rows;
  }

  lemma {:induction false} OneRowOverDays(rows: seq<Row>, r: Row, dims: Dims, lo: int, hi: int)
    ensures OverDays(rows + [r], dims, lo, hi) ==
            if r.dims == dims && lo <= Day(r.ts) <= hi then Plus(OverDays(rows, dims, lo, hi), Share(r))
            else OverDays(rows, dims, lo, hi)
    decreases hi - lo
  {
    hide Day, RawAgg, Plus, Share;
    if lo <= hi {
      OneRowOverDays(rows, r, dims, lo, hi - 1);
      OneMoreRow(rows, r, Slot(hi, dims));
      PlusLater(OverDays(rows, dims, lo, hi - 1), RawAgg(rows, Slot(hi, dims)), Share(r));
    }
  }

  lemma OneRowTotals(rows: seq<Row>, r: Row, at: Slice)
    ensures Agg(QuantitySum(rows + [r], at), CostSum(rows + [r], at), RowCount(rows + [r], at)) ==
            var before := Agg(QuantitySum(rows, at), CostSum(rows, at), RowCount(rows, at));
            if at(r.dims) then Plus(before, Share(r)) else before
  {
    assert (rows + [r])[..|rows|] == rows;
  }

  /** Over days that hold all its rows, a combination of dimensions comes to what the ledger holds
      for it: the days lose nothing and count nothing twice. */
  lemma {:induction false} DaysAddUp(rows: seq<Row>, dims: Dims, at: Slice, lo: int, hi: int)
    requires forall d :: at(d) <==> d == dims
    requires forall r :: r in rows && r.dims == dims ==> lo <= Day(r.ts) <= hi
    ensures OverDays(rows, dims, lo, hi) == Agg(QuantitySum(rows, at), CostSum(rows, at), RowCount(rows, at))
    decreases |rows|
  {
    hide Day, OverDays, RawAgg, Plus, Share;
    if rows == [] {
      NothingOverDays(dims, lo, hi);
    } else {
      var front, last := rows[..|rows| - 1], rows[|rows| - 1];
      DaysAddUp(front, dims, at, lo, hi);
      OneRowOverDays(front, last, dims, lo, hi);
      OneRowTotals(front, last, at);
      assert rows == front + [last] && last in rows;
    }
  }

  /** The pass leaves every re-closed day exact. */
  lemma UpsertIsExact(m: Mirror, rows: seq<Row>, lo: int, hi: int, slot: Slot)
    requires Backed(m, rows)
    ensures Read(Upsert(m, rows, lo, hi), slot) == if lo <= slot.day <= hi then RawAgg(rows, slot) else Read(m, slot)
  {
    if lo <= slot.day <= hi {
      if HasRow(rows, slot) {
        var i :| 0 <= i < |rows| && SlotOf(rows[i]) == slot;
        assert slot in SlotsIn(rows, lo, hi);
      } else {
        NoRowNoAgg(rows, slot);
      }
    }
  }

  /** Rows on other days leave a slot alone; a row in the slot always shows. */
  lemma {:induction false} AppendedRows(rows: seq<Row>, more: seq<Row>, slot: Slot)
    ensures RawAgg(rows + more, slot).events >= RawAgg(rows, slot).events
    ensures !HasRow(more, slot) ==> RawAgg(rows + more, slot) == RawAgg(rows, slot)
    ensures HasRow(more, slot) ==> RawAgg(rows + more, slot).events > RawAgg(rows, slot).events
    decreases |more|
  {
    if more == [] {
      assert rows + more == rows;
    } else {
      var n := |more| - 1;
      assert (rows + more)[..|rows + more| - 1] == rows + more[..n];
      AppendedRows(rows, more[..n], slot);
      if HasRow(more, slot) && SlotOf(more[n]) != slot {
        var i :| 0 <= i < |more| && SlotOf(more[i]) == slot;
        assert more[..n][i] == more[i];
      }
      if !HasRow(more, slot) {
        assert SlotOf(more[n]) != slot;
        forall i | 0 <= i < n ensures SlotOf(more[..n][i]) != slot { assert more[..n][i] == more[i]; }
      }
    }
  }

  lemma DayMonotone(a: int, b: int)
    requires a <= b
    ensures Day(a) <= Day(b)
  {
  }

  /** `earliest` is the first time at which `more` adds something. */
  ghost predicate FirstAt(more: seq<Row>, earliest: int) {
    && (forall i :: 0 <= i < |more| ==> earliest <= more[i].ts)
    && exists i :: 0 <= i < |more| && more[i].ts == earliest
  }

  lemma EarlierDaysUnchanged(rows: seq<Row>, more: seq<Row>, earliest: int, slot: Slot)
    requires forall i :: 0 <= i < |more| ==> earliest <= more[i].ts
    requires slot.day < Day(earliest)
    ensures RawAgg(rows + more, slot) == RawAgg(rows, slot)
  {
    forall i | 0 <= i < |more| ensures SlotOf(more[i]) != slot { DayMonotone(earliest, more[i].ts); }
    AppendedRows(rows, more, slot);
  }

  /** After the ledger has grown from `earliest` on, re-closing restores agreement on every
      closed day — exactly when the day of `earliest` is open, or closeable by now. */
  lemma RecomputeRestoresIff(m: Mirror, watermark: Option<int>, rows: seq<Row>, more: seq<Row>, earliest: int,
                             newest: int)
    requires Agrees(m, rows, watermark) && Backed(m, rows) && FirstAt(more, earliest)
    ensures var (m', watermark') := Recompute(m, watermark, rows + more, earliest, newest);
            && (Agrees(m', rows + more, watermark')
                <==> watermark.None? || Day(earliest) > watermark.value || Day(earliest) <= newest)
            && Backed(m', rows + more)
  {
    hide HasRow, RawAgg, Read, Upsert, Backed;
    var all := rows + more;
    var (m', watermark') := Recompute(m, watermark, all, earliest, newest);
    BackedGrows(m, rows, more);
    if watermark.Some? && Day(earliest) <= watermark.value {
      if newest < Day(earliest) {
        Stale(m, watermark, rows, more, earliest);
      } else {
        forall slot: Slot | slot.day <= newest ensures Read(m', slot) == RawAgg(all, slot) {
          UpsertIsExact(m, all, Day(earliest), newest, slot);
          if slot.day < Day(earliest) { EarlierDaysUnchanged(rows, more, earliest, slot); }
        }
        UpsertKeepsBacked(m, all, Day(earliest), newest);
      }
    } else if watermark.Some? {
      forall slot: Slot | slot.day <= watermark.value ensures Read(m', slot) == RawAgg(all, slot) {
        EarlierDaysUnchanged(rows, more, earliest, slot);
      }
    }
  }

  /** A regular pass, the first one included: it keeps the mirror in agreement and closes every day up to
      the newest closeable one, unless it starts after that day. */
  lemma PassCloses(m: Mirror, watermark: Option<int>, rows: seq<Row>, trailing: int, newest: int)
    requires Agrees(m, rows, watermark) && Backed(m, rows)
    ensures var (m', watermark') := RunPass(m, watermark, rows, trailing, newest);
            && Agrees(m', rows, watermark') && Backed(m', rows)
            && (watermark.None? ==>
                  (watermark' == Some(newest) <==> rows == [] || exists r :: r in rows && Day(r.ts) <= newest))
            && (watermark.Some? && newest >= watermark.value ==> watermark' == Some(newest))
  {
    hide HasRow, RawAgg, Read, Upsert, Day;
    var (m', watermark') := RunPass(m, watermark, rows, trailing, newest);
    if watermark.None? && rows == [] {
      forall slot: Slot | slot.day <= newest ensures Read(m', slot) == RawAgg(rows, slot) {
        EmptyLedger(slot);
        NothingAnywhere(m, rows, slot);
      }
    } else {
      var start := if watermark.None? then EarliestDay(rows).value
                   else watermark.value - (if trailing - 1 > 0 then trailing - 1 else 0);
      if start <= newest {
        forall slot: Slot | slot.day <= newest ensures Read(m', slot) == RawAgg(rows, slot) {
          UpsertIsExact(m, rows, start, newest, slot);
          if slot.day < start && watermark.None? {
            BeforeTheFirst(rows, slot);
            NothingAnywhere(m, rows, slot);
          }
        }
        UpsertKeepsBacked(m, rows, start, newest);
      }
    }
    if watermark.None? && rows != [] { EarliestIsThere(rows); }
  }

  lemma EmptyLedger(slot: Slot)
    ensures !HasRow([], slot)
  {
  }

  lemma NothingAnywhere(m: Mirror, rows: seq<Row>, slot: Slot)
    requires Backed(m, rows) && !HasRow(rows, slot)
    ensures Read(m, slot) == RawAgg(rows, slot)
  {
    NoRowNoAgg(rows, slot);
  }

  lemma BeforeTheFirst(rows: seq<Row>, slot: Slot)
    requires rows != [] && slot.day < EarliestDay(rows).value
    ensures !HasRow(rows, slot)
  {
  }

  lemma {:induction false} EarliestIsThere(rows: seq<Row>)
    requires rows != []
    ensures exists r :: r in rows && Day(r.ts) == EarliestDay(rows).value
    ensures forall r :: r in rows ==> EarliestDay(rows).value <= Day(r.ts)
    decreases |rows|
  {
    hide Day;
    var front, last := rows[..|rows| - 1], rows[|rows| - 1];
    assert last in rows;
    if front != [] && !(Day(last.ts) < EarliestDay(front).value) {
      EarliestIsThere(front);
      var r :| r in front && Day(r.ts) == EarliestDay(front).value;
      assert r in rows;
    }
  }

  /** Without a re-close a closed day that grew is served stale. */
  lemma Stale(m: Mirror, watermark: Option<int>, rows: seq<Row>, more: seq<Row>, earliest: int)
    requires Agrees(m, rows, watermark) && FirstAt(more, earliest)
    requires watermark.Some? && Day(earliest) <= watermark.value
    ensures !Agrees(m, rows + more, watermark)
  {
    var i :| 0 <= i < |more| && more[i].ts == earliest;
    var slot := SlotOf(more[i]);
    assert HasRow(more, slot);
    AppendedRows(rows, more, slot);
    assert Read(m, slot) == RawAgg(rows, slot) != RawAgg(rows + more, slot);
  }

  /** A slot whose growth the mirror has missed stays wrong until its day is re-closed. */
  lemma StaleSlot(m: Mirror, rows: seq<Row>, first: seq<Row>, more: seq<Row>, slot: Slot)
    requires Read(m, slot) == RawAgg(rows, slot) && HasRow(first, slot)
    ensures Read(m, slot) != RawAgg(rows + first + more, slot)
  {
    AppendedRows(rows, first, slot);
    AppendedRows(rows + first, more, slot);
  }

  /** A mirror that has missed growth from `e1` on, in a closed day, and is re-closed for growth
      from `e2` on: it agrees exactly when the second growth reaches back as far by days, and
      its first day is closeable. */
  lemma LateRecomputeIff(m: Mirror, watermark: Option<int>, rows: seq<Row>, first: seq<Row>, more: seq<Row>, e1: int,
                         e2: int, newest: int)
    requires Agrees(m, rows, watermark) && Backed(m, rows) && FirstAt(first, e1) && FirstAt(more, e2)
    requires watermark.Some? && Day(e1) <= watermark.value
    ensures var all := rows + first + more;
            var (m', watermark') := Recompute(m, watermark, all, e2, newest);
            Agrees(m', all, watermark') <==> Day(e2) <= Day(e1) && Day(e2) <= newest
  {
    hide HasRow, RawAgg, Upsert, Read, Backed;
    var all := rows + first + more;
    var (m', watermark') := Recompute(m, watermark, all, e2, newest);
    BackedGrows(m, rows, first);
    BackedGrows(m, rows + first, more);
    if Day(e2) <= Day(e1) && Day(e2) <= newest {
      forall slot: Slot | slot.day <= newest ensures Read(m', slot) == RawAgg(all, slot) {
        UpsertIsExact(m, all, Day(e2), newest, slot);
        if slot.day < Day(e2) {
          EarlierDaysUnchanged(rows, first, e1, slot);
          EarlierDaysUnchanged(rows + first, more, e2, slot);
        }
      }
    } else {
      var i :| 0 <= i < |first| && first[i].ts == e1;
      var slot := SlotOf(first[i]);
      InItsSlot(first, i);
      StaleSlot(m, rows, first, more, slot);
      UpsertIsExact(m, all, Day(e2), newest, slot);
    }
  }

  lemma InItsSlot(rows: seq<Row>, i: nat)
    requires i < |rows|
    ensures HasRow(rows, SlotOf(rows[i]))
  {
  }

  lemma BackedGrows(m: Mirror, rows: seq<Row>, more: seq<Row>)
    requires Backed(m, rows)
    ensures Backed(m, rows + more)
  {
    forall slot | slot in m ensures HasRow(rows + more, slot) {
      var i :| 0 <= i < |rows| && SlotOf(rows[i]) == slot;
      assert (rows + more)[i] == rows[i];
    }
  }

  lemma UpsertKeepsBacked(m: Mirror, rows: seq<Row>, lo: int, hi: int)
    requires Backed(m, rows)
    ensures Backed(Upsert(m, rows, lo, hi), rows)
  {
    forall slot | slot in Upsert(m, rows, lo, hi) ensures HasRow(rows, slot) {
      if slot !in m { assert slot in SlotsIn(rows, lo, hi); }
    }
  }
}
