/**
 The backfill over several resources, and the re-close that keeps the daily mirror
 in agreement with the corrected ledger.
 */
module Backfill {
  import opened Ledger
  import opened Rollup

  /** The price of each unit of a resource, in the order the affected groups come. */
  type Rates = seq<(string, real)>

  predicate DistinctUnits(rates: Rates) {
    forall i, j :: 0 <= i < j < |rates| ==> rates[i].0 != rates[j].0
  }

  function Min(a: Option<int>, b: Option<int>): Option<int> {
    if a.None? then b else if b.None? || a.value <= b.value then a else b
  }

  /** The first time of an affected original among `todo`. */
  function EarliestAffected(all: seq<Row>, todo: seq<Row>, resource: string, unit: string): Option<int> {
    if todo == [] then None
    else
      Min(if Affected(all, todo[0], resource, unit) then Some(todo[0].ts) else None,
          EarliestAffected(all, todo[1..], resource, unit))
  }

  /** The priced units with something to correct. */
  function Due(rows: seq<Row>, resource: string, rates: Rates): Rates {
    if rates == [] then []
    else
      (if EarliestAffected(rows, rows, resource, rates[0].0).Some? then [rates[0]] else [])
        + Due(rows, resource, rates[1..])
  }

  function EarliestDue(rows: seq<Row>, resource: string, due: Rates): Option<int> {
    if due == [] then None
    else Min(EarliestAffected(rows, rows, resource, due[0].0), EarliestDue(rows, resource, due[1..]))
  }

  function CorrectAll(rows: seq<Row>, resource: string, due: Rates, id: nat): (rows': seq<Row>)
    ensures rows <= rows'
    decreases |due|
  {
    if due == [] then rows
    else
      var rows1 := Correct(rows, resource, due[0].0, due[0].1, id);
      CorrectAll(rows1, resource, due[1..], id + |rows1| - |rows|)
  }

  datatype Progress = Progress(rows: seq<Row>, nextId: nat, earliest: Option<int>)

  /** One resource: skipped when unpriced or when nothing is due. */
  function OneResource(st: Progress, resource: string, prices: map<string, Rates>): Progress {
    if resource !in prices || Due(st.rows, resource, prices[resource]) == [] then st
    else
      var due := Due(st.rows, resource, prices[resource]);
      var rows := CorrectAll(st.rows, resource, due, st.nextId);
      Progress(rows, st.nextId + |rows| - |st.rows|, Min(st.earliest, EarliestDue(st.rows, resource, due)))
  }

  function AllResources(st: Progress, resources: seq<string>, prices: map<string, Rates>): Progress {
    if resources == [] then st
    else OneResource(AllResources(st, resources[..|resources| - 1], prices), resources[|resources| - 1], prices)
  }

  datatype Databases = Databases(rows: seq<Row>, nextId: nat, mirror: Mirror, watermark: Option<int>)

  /** Everything up to, and without, the re-close. */
  function Corrections(db: Databases, resources: seq<string>, prices: map<string, Rates>): Progress {
    AllResources(Progress(db.rows, db.nextId, None), resources, prices)
  }

  function Run(db: Databases, resources: seq<string>, prices: map<string, Rates>, newest: int): Databases {
    var st := Corrections(db, resources, prices);
    if st.earliest.None? then db
    else
      var (mirror, watermark) := Recompute(db.mirror, db.watermark, st.rows, st.earliest.value, newest);
      Databases(st.rows, st.nextId, mirror, watermark)
  }

  ghost predicate ValidPrices(prices: map<string, Rates>) {
    forall r :: r in prices ==> DistinctUnits(prices[r])
  }

  // ----- one statement -----

  lemma {:induction false} EarliestIsMinimum(all: seq<Row>, todo: seq<Row>, resource: string, unit: string)
    ensures var e := EarliestAffected(all, todo, resource, unit);
            && (e.None? <==> forall k :: 0 <= k < |todo| ==> !Affected(all, todo[k], resource, unit))
            && (e.Some? ==>
                  && (forall k :: 0 <= k < |todo| && Affected(all, todo[k], resource, unit) ==> e.value <= todo[k].ts)
                  && exists k :: 0 <= k < |todo| && Affected(all, todo[k], resource, unit) && todo[k].ts == e.value)
    decreases |todo|
  {
    if todo != [] {
      EarliestIsMinimum(all, todo[1..], resource, unit);
      var e, rest := EarliestAffected(all, todo, resource, unit), EarliestAffected(all, todo[1..], resource, unit);
      assert forall k :: 1 <= k < |todo| ==> todo[k] == todo[1..][k - 1];
      if rest.Some? {
        var k :| 0 <= k < |todo[1..]| && Affected(all, todo[1..][k], resource, unit) && todo[1..][k].ts == rest.value;
        assert todo[k + 1] == todo[1..][k];
      }
    }
  }

  /** A statement's rows start at the first affected original. */
  lemma InsertsFromEarliest(rows: seq<Row>, resource: string, unit: string, rate: real, id: nat)
    requires EarliestAffected(rows, rows, resource, unit).Some?
    ensures FirstAt(NewRows(rows, rows, resource, unit, rate, id), EarliestAffected(rows, rows, resource, unit).value)
  {
    var added := NewRows(rows, rows, resource, unit, rate, id);
    var e := EarliestAffected(rows, rows, resource, unit).value;
    EarliestIsMinimum(rows, rows, resource, unit);
    forall i | 0 <= i < |added| ensures e <= added[i].ts {
      var o, v := NewRowsOrigin(rows, rows, resource, unit, rate, id, i);
      assert Affected(rows, rows[o], resource, unit);
    }
    var k :| 0 <= k < |rows| && Affected(rows, rows[k], resource, unit) && rows[k].ts == e;
    var v := if Present(rows, rows[k], Reversal) then Replacement else Reversal;
    NewRowsComplete(rows, rows, resource, unit, rate, id, k, v);
    var i :| 0 <= i < |added| && IsCorrectionOf(added[i], rows[k], v);
  }

  /** Rows that one statement inserts: corrections of one resource and unit. */
  ghost predicate UnitCorrections(more: seq<Row>, resource: string, unit: string) {
    forall i :: 0 <= i < |more| ==>
      more[i].source == CORRECTION && more[i].dims.resource == resource && more[i].dims.unit == unit
  }

  lemma StatementRows(rows: seq<Row>, resource: string, unit: string, rate: real, id: nat)
    ensures UnitCorrections(NewRows(rows, rows, resource, unit, rate, id), resource, unit)
  {
    var added := NewRows(rows, rows, resource, unit, rate, id);
    forall i | 0 <= i < |added|
      ensures added[i].source == CORRECTION && added[i].dims.resource == resource && added[i].dims.unit == unit
    {
      var o, v := NewRowsOrigin(rows, rows, resource, unit, rate, id, i);
    }
  }

  /** Corrections of another unit change nothing for this one. */
  lemma OthersKeepAffected(rows: seq<Row>, more: seq<Row>, o: Row, resource: string, unit: string, other: string)
    requires UnitCorrections(more, resource, other) && other != unit && Eligible(o, resource, unit)
    ensures Affected(rows + more, o, resource, unit) <==> Affected(rows, o, resource, unit)
  {
    forall v: Variant ensures Present(rows + more, o, v) <==> Present(rows, o, v) {
      if Present(rows, o, v) { PresentMonotone(rows, more, o, v); }
      if Present(rows + more, o, v) {
        var i :| 0 <= i < |rows + more| && IsCorrectionOf((rows + more)[i], o, v);
        assert i < |rows|;
        assert rows[i] == (rows + more)[i];
      }
    }
  }

  lemma OthersKeepEarliest(rows: seq<Row>, more: seq<Row>, resource: string, unit: string, other: string)
    requires UnitCorrections(more, resource, other) && other != unit
    ensures EarliestAffected(rows + more, rows + more, resource, unit) == EarliestAffected(rows, rows, resource, unit)
  {
    var all := rows + more;
    EarliestIsMinimum(all, all, resource, unit);
    EarliestIsMinimum(rows, rows, resource, unit);
    forall k | 0 <= k < |rows|
      ensures all[k] == rows[k] && (Affected(all, all[k], resource, unit) <==> Affected(rows, rows[k], resource, unit))
    {
      if Eligible(rows[k], resource, unit) { OthersKeepAffected(rows, more, rows[k], resource, unit, other); }
    }
    forall k | |rows| <= k < |all| ensures !Affected(all, all[k], resource, unit) {
      assert all[k] == more[k - |rows|];
    }
  }

  // ----- one resource -----

  ghost predicate AllDue(rows: seq<Row>, resource: string, due: Rates) {
    DistinctUnits(due) && forall i :: 0 <= i < |due| ==> EarliestAffected(rows, rows, resource, due[i].0).Some?
  }

  lemma {:induction false} EarliestDueStable(rows: seq<Row>, more: seq<Row>, resource: string, due: Rates,
                                             other: string)
    requires UnitCorrections(more, resource, other) && forall i :: 0 <= i < |due| ==> due[i].0 != other
    ensures EarliestDue(rows + more, resource, due) == EarliestDue(rows, resource, due)
    ensures AllDue(rows, resource, due) ==> AllDue(rows + more, resource, due)
    decreases |due|
  {
    if due != [] {
      EarliestDueStable(rows, more, resource, due[1..], other);
      forall i | 0 <= i < |due|
        ensures EarliestAffected(rows + more, rows + more, resource, due[i].0)
          == EarliestAffected(rows, rows, resource, due[i].0)
      {
        OthersKeepEarliest(rows, more, resource, due[i].0, other);
      }
    }
  }

  /** `rows'` grew out of `rows`, from time `e` on, and is still well formed. */
  ghost predicate Grew(rows: seq<Row>, rows': seq<Row>, e: Option<int>, id: nat) {
    && rows <= rows' && WellFormed(rows', id + |rows'| - |rows|)
    && (if e.None? then rows' == rows else FirstAt(rows'[|rows|..], e.value))
  }

  lemma GrewTwice(r0: seq<Row>, r1: seq<Row>, r2: seq<Row>, e1: Option<int>, e2: Option<int>, id: nat)
    requires Grew(r0, r1, e1, id) && Grew(r1, r2, e2, id + |r1| - |r0|)
    ensures Grew(r0, r2, Min(e1, e2), id)
  {
    hide WellFormed;
    var a, b := r1[|r0|..], r2[|r1|..];
    assert r2[|r0|..] == a + b;
    if e1.Some? && e2.Some? {
      var i :| 0 <= i < |a| && a[i].ts == e1.value;
      var j :| 0 <= j < |b| && b[j].ts == e2.value;
      assert (a + b)[i] == a[i] && (a + b)[|a| + j] == b[j];
    }
  }

  lemma StatementGrows(rows: seq<Row>, resource: string, unit: string, rate: real, id: nat)
    requires WellFormed(rows, id) && EarliestAffected(rows, rows, resource, unit).Some?
    ensures Grew(rows, Correct(rows, resource, unit, rate, id), EarliestAffected(rows, rows, resource, unit), id)
  {
    CorrectKeepsWellFormed(rows, resource, unit, rate, id);
    InsertsFromEarliest(rows, resource, unit, rate, id);
    assert Correct(rows, resource, unit, rate, id)[|rows|..] == NewRows(rows, rows, resource, unit, rate, id);
  }

  lemma {:induction false} CorrectAllGrows(rows: seq<Row>, resource: string, due: Rates, id: nat)
    requires WellFormed(rows, id) && AllDue(rows, resource, due)
    ensures Grew(rows, CorrectAll(rows, resource, due, id), EarliestDue(rows, resource, due), id)
    decreases |due|
  {
    hide *;
    if due == [] {
      NothingGrew(rows, resource, id);
      assert due == [];
    } else {
      var unit, rate := due[0].0, due[0].1;
      var rows1 := Correct(rows, resource, unit, rate, id);
      DueStep(rows, resource, due, id);
      StatementGrows(rows, resource, unit, rate, id);
      StepGrew(rows, rows1, EarliestAffected(rows, rows, resource, unit), id);
      CorrectAllGrows(rows1, resource, due[1..], id + |rows1| - |rows|);
      GrewTwice(rows, rows1, CorrectAll(rows1, resource, due[1..], id + |rows1| - |rows|),
                EarliestAffected(rows, rows, resource, unit), EarliestDue(rows, resource, due[1..]), id);
    }
  }

  lemma NothingGrew(rows: seq<Row>, resource: string, id: nat)
    requires WellFormed(rows, id)
    ensures Grew(rows, CorrectAll(rows, resource, [], id), EarliestDue(rows, resource, []), id)
  {
  }

  lemma StepGrew(rows: seq<Row>, rows': seq<Row>, e: Option<int>, id: nat)
    requires Grew(rows, rows', e, id)
    ensures rows <= rows' && WellFormed(rows', id + |rows'| - |rows|)
  {
  }

  /** One statement of the loop over units, and what it leaves for the others. */
  lemma DueStep(rows: seq<Row>, resource: string, due: Rates, id: nat)
    requires due != [] && AllDue(rows, resource, due)
    ensures var rows1 := Correct(rows, resource, due[0].0, due[0].1, id);
            && EarliestAffected(rows, rows, resource, due[0].0).Some?
            && CorrectAll(rows, resource, due, id) == CorrectAll(rows1, resource, due[1..], id + |rows1| - |rows|)
            && AllDue(rows1, resource, due[1..])
            && EarliestDue(rows1, resource, due[1..]) == EarliestDue(rows, resource, due[1..])
            && EarliestDue(rows, resource, due)
               == Min(EarliestAffected(rows, rows, resource, due[0].0), EarliestDue(rows, resource, due[1..]))
  {
    hide EarliestAffected, NewRows;
    StatementRows(rows, resource, due[0].0, due[0].1, id);
    EarliestDueStable(rows, NewRows(rows, rows, resource, due[0].0, due[0].1, id), resource, due[1..], due[0].0);
  }

  lemma {:induction false} DueIsDue(rows: seq<Row>, resource: string, rates: Rates)
    requires DistinctUnits(rates)
    ensures AllDue(rows, resource, Due(rows, resource, rates))
    ensures forall x :: x in Due(rows, resource, rates) ==> x in rates
    ensures forall i :: 0 <= i < |rates| && EarliestAffected(rows, rows, resource, rates[i].0).Some? ==>
              rates[i] in Due(rows, resource, rates)
    decreases |rates|
  {
    hide EarliestAffected;
    if rates != [] {
      var rest := Due(rows, resource, rates[1..]);
      DueIsDue(rows, resource, rates[1..]);
      forall j | 0 <= j < |rest| ensures rest[j].0 != rates[0].0 {
        assert rest[j] in rates[1..];
      }
    }
  }

  lemma {:induction false} DueHasEarliest(rows: seq<Row>, resource: string, due: Rates)
    requires AllDue(rows, resource, due)
    ensures EarliestDue(rows, resource, due).None? <==> due == []
    decreases |due|
  {
    if due != [] { DueHasEarliest(rows, resource, due[1..]); }
  }

  /** The whole loop: only appends, from exactly the tracked earliest time on. */
  lemma {:induction false} ResourcesGrow(st: Progress, resources: seq<string>, prices: map<string, Rates>)
    requires WellFormed(st.rows, st.nextId) && ValidPrices(prices) && st.earliest.None?
    ensures var st' := AllResources(st, resources, prices);
            Grew(st.rows, st'.rows, st'.earliest, st.nextId) && st'.nextId == st.nextId + |st'.rows| - |st.rows|
    decreases |resources|
  {
    if resources != [] {
      var n := |resources| - 1;
      ResourcesGrow(st, resources[..n], prices);
      var st1 := AllResources(st, resources[..n], prices);
      if resources[n] in prices {
        var due := Due(st1.rows, resources[n], prices[resources[n]]);
        DueIsDue(st1.rows, resources[n], prices[resources[n]]);
        DueHasEarliest(st1.rows, resources[n], due);
        if due != [] {
          CorrectAllGrows(st1.rows, resources[n], due, st1.nextId);
          GrewTwice(st.rows, st1.rows, CorrectAll(st1.rows, resources[n], due, st1.nextId), st1.earliest,
                    EarliestDue(st1.rows, resources[n], due), st.nextId);
        }
      }
    }
  }

  // ----- completeness over all resources -----

  lemma CorrectedStays(rows: seq<Row>, more: seq<Row>, resource: string, unit: string)
    requires Corrected(rows, resource, unit) && forall i :: 0 <= i < |more| ==> more[i].source == CORRECTION
    ensures Corrected(rows + more, resource, unit)
  {
    var all := rows + more;
    forall i | 0 <= i < |all| ensures !Affected(all, all[i], resource, unit) {
      if Eligible(all[i], resource, unit) {
        assert all[i] == rows[i] && !Affected(rows, rows[i], resource, unit);
        PresentMonotone(rows, more, rows[i], Reversal);
        PresentMonotone(rows, more, rows[i], Replacement);
      }
    }
  }

  lemma {:induction false} CorrectAllKeeps(rows: seq<Row>, resource: string, due: Rates, id: nat,
                                           resource': string, unit: string)
    requires WellFormed(rows, id)
    requires Corrected(rows, resource', unit)
      || (resource' == resource && exists i :: 0 <= i < |due| && due[i].0 == unit)
    ensures Corrected(CorrectAll(rows, resource, due, id), resource', unit)
    decreases |due|
  {
    if due != [] {
      var rows1 := Correct(rows, resource, due[0].0, due[0].1, id);
      CorrectKeepsWellFormed(rows, resource, due[0].0, due[0].1, id);
      StatementRows(rows, resource, due[0].0, due[0].1, id);
      if Corrected(rows, resource', unit) {
        CorrectedStays(rows, NewRows(rows, rows, resource, due[0].0, due[0].1, id), resource', unit);
      } else if due[0].0 == unit {
        CorrectCorrects(rows, resource, unit, due[0].1, id);
      } else {
        var i :| 0 <= i < |due| && due[i].0 == unit;
        assert due[1..][i - 1].0 == unit;
      }
      CorrectAllKeeps(rows1, resource, due[1..], id + |rows1| - |rows|, resource', unit);
    }
  }

  /** After the loop every priced unit of every listed resource is fully corrected. */
  lemma {:induction false} EverythingCorrected(st: Progress, resources: seq<string>, prices: map<string, Rates>,
                                              r: string, unit: string)
    requires WellFormed(st.rows, st.nextId) && ValidPrices(prices) && st.earliest.None?
    requires r in resources && r in prices && exists i :: 0 <= i < |prices[r]| && prices[r][i].0 == unit
    ensures Corrected(AllResources(st, resources, prices).rows, r, unit)
    decreases |resources|
  {
    hide WellFormed, ValidPrices, Corrected, OneResource, FirstAt;
    var n := |resources| - 1;
    var st1 := AllResources(st, resources[..n], prices);
    ResourcesGrow(st, resources[..n], prices);
    if r in resources[..n] { EverythingCorrected(st, resources[..n], prices, r, unit); }
    ResourceCorrects(st1, resources[n], prices, r, unit);
  }

  /** One resource keeps what is corrected, and corrects its own priced units. */
  lemma ResourceCorrects(st: Progress, resource: string, prices: map<string, Rates>, r: string, unit: string)
    requires WellFormed(st.rows, st.nextId) && ValidPrices(prices)
    requires Corrected(st.rows, r, unit)
             || (r == resource && r in prices && exists i :: 0 <= i < |prices[r]| && prices[r][i].0 == unit)
    ensures Corrected(OneResource(st, resource, prices).rows, r, unit)
  {
    hide WellFormed, Corrected, Due, CorrectAll, EarliestDue;
    if resource in prices {
      var due := Due(st.rows, resource, prices[resource]);
      if r == resource && !Corrected(st.rows, r, unit) { UnitIsDue(st.rows, r, prices, unit); }
      CorrectAllKeeps(st.rows, resource, due, st.nextId, r, unit);
      NothingToCorrect(st.rows, resource, st.nextId);
    }
  }

  lemma NothingToCorrect(rows: seq<Row>, resource: string, id: nat)
    ensures CorrectAll(rows, resource, [], id) == rows
  {
  }

  /** A priced unit that is not yet corrected is due. */
  lemma UnitIsDue(rows: seq<Row>, r: string, prices: map<string, Rates>, unit: string)
    requires ValidPrices(prices) && r in prices && !Corrected(rows, r, unit)
    requires exists i :: 0 <= i < |prices[r]| && prices[r][i].0 == unit
    ensures var due := Due(rows, r, prices[r]); exists j :: 0 <= j < |due| && due[j].0 == unit
  {
    hide Affected, Due, EarliestAffected;
    var i :| 0 <= i < |prices[r]| && prices[r][i].0 == unit;
    DueIsDue(rows, r, prices[r]);
    EarliestIsMinimum(rows, rows, r, unit);
  }

  // ----- the run -----

  /** A completed run: originals in place, books balanced for everything priced, and the
      mirror in agreement — exactly when the first corrected day is open or closeable. */
  lemma RunKeepsAgreementIff(db: Databases, resources: seq<string>, prices: map<string, Rates>, newest: int)
    requires WellFormed(db.rows, db.nextId) && ValidPrices(prices)
    requires Agrees(db.mirror, db.rows, db.watermark) && Backed(db.mirror, db.rows)
    ensures var db' := Run(db, resources, prices, newest);
            var first := Corrections(db, resources, prices).earliest;
            && db.rows <= db'.rows && WellFormed(db'.rows, db'.nextId) && Backed(db'.mirror, db'.rows)
            && (Agrees(db'.mirror, db'.rows, db'.watermark)
                <==> first.None? || db.watermark.None?
                     || Day(first.value) > db.watermark.value || Day(first.value) <= newest)
  {
    var st0 := Progress(db.rows, db.nextId, None);
    var st := Corrections(db, resources, prices);
    ResourcesGrow(st0, resources, prices);
    if st.earliest.Some? {
      var more := st.rows[|db.rows|..];
      assert db.rows + more == st.rows;
      RecomputeRestoresIff(db.mirror, db.watermark, db.rows, more, st.earliest.value, newest);
    }
  }

  lemma RunBalances(db: Databases, resources: seq<string>, prices: map<string, Rates>, newest: int, r: string,
                    unit: string, at: Slice)
    requires WellFormed(db.rows, db.nextId) && ValidPrices(prices) && Within(at, r, unit)
    requires r in resources && r in prices && exists i :: 0 <= i < |prices[r]| && prices[r][i].0 == unit
    ensures var rows := Run(db, resources, prices, newest).rows;
            && CorrectionSum(rows, at) == 0.0
            && UnpricedSum(rows, at) == AdjustmentSum(rows, at)
  {
    var st0 := Progress(db.rows, db.nextId, None);
    var st := Corrections(db, resources, prices);
    ResourcesGrow(st0, resources, prices);
    EverythingCorrected(st0, resources, prices, r, unit);
    CorrectedConserves(st.rows, r, unit, at, st.nextId);
  }

  // ----- at what price -----

  /** `c` corrects unpriced model usage among `originals`, at the price listed for its resource
      and unit. */
  ghost predicate Charged(c: Row, originals: seq<Row>, resources: seq<string>, prices: map<string, Rates>) {
    exists o, v, k: nat :: 0 <= o < |originals| && ListedPrice(originals[o], k, resources, prices)
                      && Corrects(c, originals[o], v, prices[originals[o].dims.resource][k].1)
  }

  ghost predicate ListedPrice(o: Row, k: nat, resources: seq<string>, prices: map<string, Rates>) {
    && o.dims.category == "llm" && o.cost.None? && o.source != CORRECTION && o.quantity >= 0.0
    && o.dims.resource in resources && o.dims.resource in prices
    && k < |prices[o.dims.resource]| && prices[o.dims.resource][k].0 == o.dims.unit
  }

  /** `rows` is `originals` and corrections of them at the listed prices. */
  ghost predicate OnlyCharged(originals: seq<Row>, rows: seq<Row>, resources: seq<string>,
                              prices: map<string, Rates>) {
    originals <= rows && forall i :: |originals| <= i < |rows| ==> Charged(rows[i], originals, resources, prices)
  }

  lemma StatementCharges(originals: seq<Row>, rows: seq<Row>, resources: seq<string>, prices: map<string, Rates>,
                         resource: string, k: nat, id: nat)
    requires OnlyCharged(originals, rows, resources, prices)
    requires resource in resources && resource in prices && k < |prices[resource]|
    ensures OnlyCharged(originals, Correct(rows, resource, prices[resource][k].0, prices[resource][k].1, id),
                        resources, prices)
  {
    var unit, rate := prices[resource][k].0, prices[resource][k].1;
    var rows' := Correct(rows, resource, unit, rate, id);
    forall i | |originals| <= i < |rows'| ensures Charged(rows'[i], originals, resources, prices) {
      if i >= |rows| {
        var o, v := NewRowsOrigin(rows, rows, resource, unit, rate, id, i - |rows|);
        assert rows[o].source != CORRECTION;
        assert rows'[i] == CorrectionRow(originals[o], v, rate, rows'[i].id);
        assert ListedPrice(originals[o], k, resources, prices) && Corrects(rows'[i], originals[o], v, rate);
      }
    }
  }

  lemma {:induction false} UnitsCharge(originals: seq<Row>, rows: seq<Row>, resources: seq<string>,
                                      prices: map<string, Rates>, resource: string, due: Rates, id: nat)
    requires OnlyCharged(originals, rows, resources, prices) && resource in resources && resource in prices
    requires forall x :: x in due ==> x in prices[resource]
    ensures OnlyCharged(originals, CorrectAll(rows, resource, due, id), resources, prices)
    decreases |due|
  {
    hide OnlyCharged, NewRows;
    if due != [] {
      assert due[0] in prices[resource];
      var k :| 0 <= k < |prices[resource]| && prices[resource][k] == due[0];
      StatementCharges(originals, rows, resources, prices, resource, k, id);
      var rows1 := Correct(rows, resource, due[0].0, due[0].1, id);
      UnitsCharge(originals, rows1, resources, prices, resource, due[1..], id + |rows1| - |rows|);
    }
  }

  lemma {:induction false} ResourcesCharge(st: Progress, n: nat, resources: seq<string>, prices: map<string, Rates>)
    requires n <= |resources| && ValidPrices(prices)
    ensures OnlyCharged(st.rows, AllResources(st, resources[..n], prices).rows, resources, prices)
    decreases n
  {
    if n > 0 {
      ResourcesCharge(st, n - 1, resources, prices);
      assert resources[..n][..n - 1] == resources[..n - 1];
      var st1, r := AllResources(st, resources[..n - 1], prices), resources[n - 1];
      if r in prices {
        DueIsDue(st1.rows, r, prices[r]);
        UnitsCharge(st.rows, st1.rows, resources, prices, r, Due(st1.rows, r, prices[r]), st1.nextId);
      }
    }
  }

  /** Every row a run adds takes back usage of a listed resource that had no price, or charges it to
      the same user and project at the price listed for its resource and unit. */
  lemma RunCharges(db: Databases, resources: seq<string>, prices: map<string, Rates>, newest: int)
    requires ValidPrices(prices)
    ensures OnlyCharged(db.rows, Run(db, resources, prices, newest).rows, resources, prices)
  {
    ResourcesCharge(Progress(db.rows, db.nextId, None), |resources|, resources, prices);
    assert resources[..|resources|] == resources;
  }

  /** The same units are priced, possibly differently. */
  ghost predicate SameUnits(prices: map<string, Rates>, prices': map<string, Rates>) {
    prices'.Keys == prices.Keys &&
    forall r, i :: r in prices' && 0 <= i < |prices'[r]| ==>
      exists j :: 0 <= j < |prices[r]| && prices[r][j].0 == prices'[r][i].0
  }

  lemma {:induction false} NothingDue(st: Progress, resources: seq<string>, prices: map<string, Rates>)
    requires forall r, i :: r in resources && r in prices && 0 <= i < |prices[r]| ==>
      Corrected(st.rows, r, prices[r][i].0)
    ensures AllResources(st, resources, prices) == st
    decreases |resources|
  {
    if resources != [] {
      var n := |resources| - 1;
      NothingDue(st, resources[..n], prices);
      if resources[n] in prices { NoUnitDue(st.rows, resources[n], prices[resources[n]]); }
    }
  }

  lemma {:induction false} NoUnitDue(rows: seq<Row>, resource: string, rates: Rates)
    requires forall i :: 0 <= i < |rates| ==> Corrected(rows, resource, rates[i].0)
    ensures Due(rows, resource, rates) == []
    decreases |rates|
  {
    if rates != [] {
      EarliestIsMinimum(rows, rows, resource, rates[0].0);
      NoUnitDue(rows, resource, rates[1..]);
    }
  }

  /** A run that stops after `n` resources and `j` statements of the next one. */
  function StoppedAt(db: Databases, resources: seq<string>, prices: map<string, Rates>, n: nat, j: nat): Progress
    requires n <= |resources|
  {
    var st := Corrections(db, resources[..n], prices);
    if n == |resources| || resources[n] !in prices then st
    else
      var due := Due(st.rows, resources[n], prices[resources[n]]);
      var made := if j < |due| then due[..j] else due;
      var rows := CorrectAll(st.rows, resources[n], made, st.nextId);
      Progress(rows, st.nextId + |rows| - |st.rows|, Min(st.earliest, EarliestDue(st.rows, resources[n], made)))
  }

  /** It leaves the databases as they were, but for the corrections it has made. */
  function Stopped(db: Databases, resources: seq<string>, prices: map<string, Rates>, n: nat, j: nat): Databases
    requires n <= |resources|
  {
    var st := StoppedAt(db, resources, prices, n, j);
    db.(rows := st.rows, nextId := st.nextId)
  }

  lemma StoppedGrows(db: Databases, resources: seq<string>, prices: map<string, Rates>, n: nat, j: nat)
    requires WellFormed(db.rows, db.nextId) && ValidPrices(prices) && n <= |resources|
    ensures var st := StoppedAt(db, resources, prices, n, j);
            Grew(db.rows, st.rows, st.earliest, db.nextId) && st.nextId == db.nextId + |st.rows| - |db.rows|
  {
    hide WellFormed, EarliestAffected, FirstAt;
    var st := Corrections(db, resources[..n], prices);
    ResourcesGrow(Progress(db.rows, db.nextId, None), resources[..n], prices);
    if n < |resources| && resources[n] in prices {
      var due := Due(st.rows, resources[n], prices[resources[n]]);
      var made := if j < |due| then due[..j] else due;
      DueIsDue(st.rows, resources[n], prices[resources[n]]);
      CorrectAllGrows(st.rows, resources[n], made, st.nextId);
      GrewTwice(db.rows, st.rows, CorrectAll(st.rows, resources[n], made, st.nextId), st.earliest,
                EarliestDue(st.rows, resources[n], made), db.nextId);
    }
  }

  /** Stopped anywhere between two statements and then run to the end, over any resources at
      any prices: if the stopped run had corrected a closed day, the mirror agrees exactly when
      the second run starts at that day or before, on a day that is closeable; otherwise it
      agrees as after any run. */
  lemma InterruptedRunIsRepairedIff(db: Databases, resources: seq<string>, prices: map<string, Rates>, n: nat, j: nat,
                                    resources': seq<string>, prices': map<string, Rates>, newest: int)
    requires WellFormed(db.rows, db.nextId) && ValidPrices(prices) && ValidPrices(prices') && n <= |resources|
    requires Agrees(db.mirror, db.rows, db.watermark) && Backed(db.mirror, db.rows)
    ensures var e1 := StoppedAt(db, resources, prices, n, j).earliest;
            var stopped := Stopped(db, resources, prices, n, j);
            var db' := Run(stopped, resources', prices', newest);
            var e2 := Corrections(stopped, resources', prices').earliest;
            Agrees(db'.mirror, db'.rows, db'.watermark) <==>
              db.watermark.None?
              || (if e1.Some? && Day(e1.value) <= db.watermark.value
                  then e2.Some? && Day(e2.value) <= Day(e1.value) && Day(e2.value) <= newest
                  else e2.None? || Day(e2.value) > db.watermark.value || Day(e2.value) <= newest)
  {
    hide WellFormed, Agrees, Backed, StoppedAt, AllResources, FirstAt, Recompute;
    var e1 := StoppedAt(db, resources, prices, n, j).earliest;
    var stopped := Stopped(db, resources, prices, n, j);
    StoppedGrows(db, resources, prices, n, j);
    var first := stopped.rows[|db.rows|..];
    assert db.rows + first == stopped.rows;
    BackedGrows(db.mirror, db.rows, first);
    NoWatermark(stopped, resources', prices', newest);
    if db.watermark.Some? {
      if e1.Some? && Day(e1.value) <= db.watermark.value {
        ClosedDayMissed(db, stopped, e1.value, resources', prices', newest);
      } else {
        StillAgrees(db, first, e1);
        RunKeepsAgreementIff(stopped, resources', prices', newest);
      }
    }
  }

  lemma NoWatermark(db: Databases, resources: seq<string>, prices: map<string, Rates>, newest: int)
    ensures var db' := Run(db, resources, prices, newest);
            db.watermark.None? ==> Agrees(db'.mirror, db'.rows, db'.watermark)
  {
    hide Corrections;
  }

  /** Growth in days that are still open leaves the mirror right. */
  lemma StillAgrees(db: Databases, first: seq<Row>, e1: Option<int>)
    requires Agrees(db.mirror, db.rows, db.watermark) && db.watermark.Some?
    requires if e1.None? then first == [] else FirstAt(first, e1.value) && Day(e1.value) > db.watermark.value
    ensures Agrees(db.mirror, db.rows + first, db.watermark)
  {
    hide RawAgg, Read;
    if e1.None? {
      assert db.rows + first == db.rows;
    } else {
      forall slot: Slot | slot.day <= db.watermark.value
        ensures Read(db.mirror, slot) == RawAgg(db.rows + first, slot)
      {
        EarlierDaysUnchanged(db.rows, first, e1.value, slot);
      }
    }
  }

  lemma ClosedDayMissed(db: Databases, stopped: Databases, e1: int, resources: seq<string>, prices: map<string, Rates>,
                        newest: int)
    requires Agrees(db.mirror, db.rows, db.watermark) && Backed(db.mirror, db.rows)
    requires stopped.mirror == db.mirror && stopped.watermark == db.watermark && db.rows <= stopped.rows
    requires FirstAt(stopped.rows[|db.rows|..], e1) && db.watermark.Some? && Day(e1) <= db.watermark.value
    requires WellFormed(stopped.rows, stopped.nextId) && ValidPrices(prices)
    ensures var db' := Run(stopped, resources, prices, newest);
            var e2 := Corrections(stopped, resources, prices).earliest;
            Agrees(db'.mirror, db'.rows, db'.watermark) <==>
              e2.Some? && Day(e2.value) <= Day(e1) && Day(e2.value) <= newest
  {
    hide WellFormed, Agrees, Backed, AllResources, FirstAt, Recompute;
    var first := stopped.rows[|db.rows|..];
    assert db.rows + first == stopped.rows;
    var st := Corrections(stopped, resources, prices);
    ResourcesGrow(Progress(stopped.rows, stopped.nextId, None), resources, prices);
    if st.earliest.None? {
      Stale(db.mirror, db.watermark, db.rows, first, e1);
    } else {
      var more := st.rows[|stopped.rows|..];
      assert db.rows + first + more == st.rows;
      LateRecomputeIff(db.mirror, db.watermark, db.rows, first, more, e1, st.earliest.value, newest);
    }
  }

  /** Stopped between the corrections and the re-close, a run over a closed day leaves the
      mirror stale, and running again — at any rates — finds nothing to do and leaves it so. */
  lemma InterruptedRunIsNotRepaired(db: Databases, resources: seq<string>, prices: map<string, Rates>,
                                    prices': map<string, Rates>, newest: int)
    requires WellFormed(db.rows, db.nextId) && ValidPrices(prices) && SameUnits(prices, prices')
    requires Agrees(db.mirror, db.rows, db.watermark)
    requires var first := Corrections(db, resources, prices).earliest;
             first.Some? && db.watermark.Some? && Day(first.value) <= db.watermark.value
    ensures var st := Corrections(db, resources, prices);
            var stopped := db.(rows := st.rows, nextId := st.nextId);
            && !Agrees(stopped.mirror, stopped.rows, stopped.watermark)
            && Run(stopped, resources, prices', newest) == stopped
  {
    var st0 := Progress(db.rows, db.nextId, None);
    var st := Corrections(db, resources, prices);
    ResourcesGrow(st0, resources, prices);
    var more := st.rows[|db.rows|..];
    assert db.rows + more == st.rows;
    Stale(db.mirror, db.watermark, db.rows, more, st.earliest.value);
    forall r, i | r in resources && r in prices' && 0 <= i < |prices'[r]|
      ensures Corrected(st.rows, r, prices'[r][i].0)
    {
      EverythingCorrected(st0, resources, prices, r, prices'[r][i].0);
    }
    NothingDue(Progress(st.rows, st.nextId, None), resources, prices');
  }
}
