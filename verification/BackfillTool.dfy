/** The backfill as it runs: loops over resources and units, inserting in place. */
module BackfillTool {
  import opened Ledger
  import opened Rollup
  import opened Backfill

  class Store {
    var rows: seq<Row>
    var nextId: nat
    var mirror: Mirror
    var watermark: Option<int>

    function Contents(): Databases
      reads this
    {
      Databases(rows, nextId, mirror, watermark)
    }

    constructor (db: Databases)
      ensures Contents() == db
    {
      rows, nextId, mirror, watermark := db.rows, db.nextId, db.mirror, db.watermark;
    }

    /** Both sides of one correction, unless they conflict with a row of `all`. */
    method InsertPair(all: seq<Row>, o: Row, rate: real)
      modifies this`rows, this`nextId
      ensures rows == old(rows) + NewPair(all, o, rate, old(nextId))
      ensures nextId == old(nextId) + |NewPair(all, o, rate, old(nextId))|
    {
      if !Present(all, o, Reversal) {
        rows := rows + [CorrectionRow(o, Reversal, rate, nextId)];
        nextId := nextId + 1;
      }
      if !Present(all, o, Replacement) {
        rows := rows + [CorrectionRow(o, Replacement, rate, nextId)];
        nextId := nextId + 1;
      }
    }

    /** One correction statement. Its query sees the ledger as it was when it began;
        a row whose key is already there is left alone. */
    method CorrectUnit(resource: string, unit: string, rate: real)
      modifies this`rows, this`nextId
      ensures rows == Correct(old(rows), resource, unit, rate, old(nextId))
      ensures nextId == old(nextId) + |rows| - |old(rows)|
    {
      hide NewPair, Eligible;
      var all := rows;
      ghost var id0 := nextId;
      assert all[0..] == all && all + [] == all;
      for k := 0 to |all|
        invariant nextId == id0 + |rows| - |all|
        invariant rows + NewRows(all, all[k..], resource, unit, rate, nextId)
               == all + NewRows(all, all, resource, unit, rate, id0)
      {
        assert all[k..][0] == all[k] && all[k..][1..] == all[k + 1..];
        if Eligible(all[k], resource, unit) {
          ghost var before, id := rows, nextId;
          InsertPair(all, all[k], rate);
          ghost var pair := NewPair(all, all[k], rate, id);
          ghost var rest := NewRows(all, all[k + 1..], resource, unit, rate, nextId);
          assert before + (pair + rest) == rows + rest;
        }
      }
      assert all[|all|..] == [] && rows + [] == rows;
    }

    /** All affected units of one resource, as the affected query listed them. */
    method CorrectUnits(resource: string, due: Rates)
      modifies this`rows, this`nextId
      ensures rows == CorrectAll(old(rows), resource, due, old(nextId))
      ensures nextId == old(nextId) + |rows| - |old(rows)|
    {
      ghost var rows0, id0 := rows, nextId;
      assert due[0..] == due;
      for k := 0 to |due|
        invariant nextId == id0 + |rows| - |rows0|
        invariant CorrectAll(rows0, resource, due, id0) == CorrectAll(rows, resource, due[k..], nextId)
      {
        assert due[k..][0] == due[k] && due[k..][1..] == due[k + 1..];
        CorrectUnit(resource, due[k].0, due[k].1);
      }
    }

    method BackfillResources(resources: seq<string>, prices: map<string, Rates>, apply: bool, newest: int)
      modifies this
      ensures Contents() == if apply then Run(old(Contents()), resources, prices, newest) else old(Contents())
    {
      var earliest: Option<int> := None;
      var applied := false;
      ghost var st0 := Progress(rows, nextId, None);
      for i := 0 to |resources|
        invariant mirror == old(mirror) && watermark == old(watermark)
        invariant apply ==> Progress(rows, nextId, earliest) == AllResources(st0, resources[..i], prices)
        invariant apply ==> (applied <==> earliest.Some?) && (!applied ==> rows == old(rows) && nextId == old(nextId))
        invariant !apply ==> rows == old(rows) && nextId == old(nextId)
      {
        assert resources[..i + 1][..i] == resources[..i];
        var resource := resources[i];
        if resource in prices {
          var due := Due(rows, resource, prices[resource]);
          if due != [] {
            DueListed(rows, resource, prices[resource]);
            earliest := Min(earliest, EarliestDue(rows, resource, due));
            if apply {
              CorrectUnits(resource, due);
              applied := true;
            }
          }
        }
      }
      assert resources[..|resources|] == resources;
      if apply && applied {
        var (m, w) := Recompute(mirror, watermark, rows, earliest.value, newest);
        mirror, watermark := m, w;
      }
    }
  }

  /** A nonempty list of due units has an earliest time. */
  lemma {:induction false} DueListed(rows: seq<Row>, resource: string, rates: Rates)
    ensures Due(rows, resource, rates) != [] ==> EarliestDue(rows, resource, Due(rows, resource, rates)).Some?
    decreases |rates|
  {
    hide EarliestAffected;
    if rates != [] {
      var rest := Due(rows, resource, rates[1..]);
      DueListed(rows, resource, rates[1..]);
      if Due(rows, resource, rates) != rest { assert Due(rows, resource, rates)[1..] == rest; }
    }
  }
}
