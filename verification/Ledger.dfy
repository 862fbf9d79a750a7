/**
 The append-only usage ledger and its price correction: every unpriced original is
 offset by a negative unpriced row and replaced by an equal priced one.
 */
module Ledger {

  datatype Option<+T> = None | Some(value: T)

  datatype Dims = Dims(user: string, project: string, category: string, resource: string, unit: string)

  datatype Variant = Reversal | Replacement

  /** A correction row is keyed by the original's id and the variant. */
  datatype SourceId = Plain(text: string) | Correction(original: nat, variant: Variant)

  /** `ref` is the job or thread the usage belongs to. */
  datatype Row = Row(id: nat, ts: int, dims: Dims, ref: string, quantity: real, cost: Option<real>, source: string,
                     sourceId: SourceId)

  const CORRECTION := "llm-pricing-correction-v1"

  /** An original that the correction of `resource` and `unit` covers. */
  predicate Eligible(r: Row, resource: string, unit: string) {
    r.dims.category == "llm" && r.dims.resource == resource && r.dims.unit == unit
    && r.cost.None? && r.source != CORRECTION && r.quantity >= 0.0
  }

  function Sign(v: Variant): real {
    if v == Reversal then -1.0 else 1.0
  }

  function CorrectionRow(o: Row, v: Variant, rate: real, id: nat): Row {
    Row(id, o.ts, o.dims, o.ref, o.quantity * Sign(v), if v == Reversal then None else Some(o.quantity * rate),
        CORRECTION, Correction(o.id, v))
  }

  /** The unique index: source, source id, unit and time. */
  predicate SameKey(a: Row, b: Row) {
    a.source == b.source && a.sourceId == b.sourceId && a.dims.unit == b.dims.unit && a.ts == b.ts
  }

  predicate IsCorrectionOf(r: Row, o: Row, v: Variant) {
    r.source == CORRECTION && r.sourceId == Correction(o.id, v) && r.dims.unit == o.dims.unit && r.ts == o.ts
  }

  predicate Present(rows: seq<Row>, o: Row, v: Variant) {
    exists i :: 0 <= i < |rows| && IsCorrectionOf(rows[i], o, v)
  }

  /** An original without both of its correction rows. */
  predicate Affected(rows: seq<Row>, o: Row, resource: string, unit: string) {
    Eligible(o, resource, unit) && !(Present(rows, o, Reversal) && Present(rows, o, Replacement))
  }

  function NewRow(all: seq<Row>, o: Row, v: Variant, rate: real, id: nat): seq<Row> {
    if Present(all, o, v) then [] else [CorrectionRow(o, v, rate, id)]
  }

  /** What one correction statement inserts for the originals among `todo`. */
  function NewRows(all: seq<Row>, todo: seq<Row>, resource: string, unit: string, rate: real, id: nat): seq<Row> {
    if todo == [] then []
    else if !Eligible(todo[0], resource, unit) then NewRows(all, todo[1..], resource, unit, rate, id)
    else
      var pair := NewPair(all, todo[0], rate, id);
      pair + NewRows(all, todo[1..], resource, unit, rate, id + |pair|)
  }

  function NewPair(all: seq<Row>, o: Row, rate: real, id: nat): seq<Row> {
    var a := NewRow(all, o, Reversal, rate, id);
    a + NewRow(all, o, Replacement, rate, id + |a|)
  }

  /** The ledger after one correction statement: conflicts are left alone. */
  function Correct(rows: seq<Row>, resource: string, unit: string, rate: real, id: nat): seq<Row> {
    rows + NewRows(rows, rows, resource, unit, rate, id)
  }

  // ----- well-formed ledgers -----

  /** `c` takes back the usage of `o`, or charges it again at `rate`: for the same user, project
      and reference, at the same time. */
  ghost predicate Corrects(c: Row, o: Row, v: Variant, rate: real) {
    && c.ts == o.ts && c.dims == o.dims && c.ref == o.ref && c.source == CORRECTION && c.sourceId == Correction(o.id, v)
    && (v == Reversal ==> c.quantity == -o.quantity && c.cost == None)
    && (v == Replacement ==> c.quantity == o.quantity && c.cost == Some(o.quantity * rate))
  }

  /** A row that corrects, at some rate, an original of the ledger. */
  ghost predicate Genuine(rows: seq<Row>, c: Row) {
    exists i, v, rate :: 0 <= i < |rows| && Eligible(rows[i], rows[i].dims.resource, rows[i].dims.unit)
                         && Corrects(c, rows[i], v, rate)
  }

  /** Unique ids below the next id, the unique index, and no invented corrections:
      any subset of the correction rows may already be there. */
  ghost predicate WellFormed(rows: seq<Row>, nextId: nat) {
    && (forall i, j :: 0 <= i < j < |rows| ==> rows[i].id != rows[j].id && !SameKey(rows[i], rows[j]))
    && (forall i :: 0 <= i < |rows| ==> rows[i].id < nextId)
    && (forall i :: 0 <= i < |rows| && rows[i].source == CORRECTION ==> Genuine(rows, rows[i]))
  }

  /** What `added` must be to extend a well-formed ledger. */
  ghost predicate FreshFor(rows: seq<Row>, added: seq<Row>, id: nat) {
    && (forall i :: 0 <= i < |added| ==>
          added[i].id == id + i && added[i].source == CORRECTION && Genuine(rows, added[i])
          && forall j :: 0 <= j < |rows| ==> !SameKey(rows[j], added[i]))
    && KeysDistinct(added)
  }

  lemma {:induction false} NewRowsOrigin(all: seq<Row>, todo: seq<Row>, resource: string, unit: string, rate: real,
                                         id: nat, i: nat)
    returns (o: nat, v: Variant)
    requires i < |NewRows(all, todo, resource, unit, rate, id)|
    ensures o < |todo| && Eligible(todo[o], resource, unit) && !Present(all, todo[o], v)
    ensures NewRows(all, todo, resource, unit, rate, id)[i] == CorrectionRow(todo[o], v, rate, id + i)
    decreases |todo|
  {
    hide Eligible, Present, NewPair, CorrectionRow;
    if !Eligible(todo[0], resource, unit) {
      o, v := NewRowsOrigin(all, todo[1..], resource, unit, rate, id, i);
      o := o + 1;
    } else {
      var pair := NewPair(all, todo[0], rate, id);
      if i < |pair| {
        o := 0;
        v := PairOrigin(all, todo[0], rate, id, i);
      } else {
        o, v := NewRowsOrigin(all, todo[1..], resource, unit, rate, id + |pair|, i - |pair|);
        o := o + 1;
      }
    }
  }

  lemma PairOrigin(all: seq<Row>, o: Row, rate: real, id: nat, i: nat) returns (v: Variant)
    requires i < |NewPair(all, o, rate, id)|
    ensures !Present(all, o, v) && NewPair(all, o, rate, id)[i] == CorrectionRow(o, v, rate, id + i)
  {
    hide CorrectionRow, Present;
    v := if Present(all, o, Reversal) || i == 1 then Replacement else Reversal;
  }

  ghost predicate KeysDistinct(rows: seq<Row>) {
    forall i, j :: 0 <= i < j < |rows| ==> !SameKey(rows[i], rows[j])
  }

  lemma PairKeys(all: seq<Row>, o: Row, rate: real, id: nat)
    ensures var pair := NewPair(all, o, rate, id);
            && KeysDistinct(pair)
            && forall i :: 0 <= i < |pair| ==> pair[i].sourceId.Correction? && pair[i].sourceId.original == o.id
  {
  }

  lemma KeysDistinctAppend(a: seq<Row>, b: seq<Row>)
    requires KeysDistinct(a) && KeysDistinct(b)
    requires forall i, j :: 0 <= i < |a| && 0 <= j < |b| ==> !SameKey(a[i], b[j])
    ensures KeysDistinct(a + b)
  {
    var c := a + b;
    forall i, j | 0 <= i < j < |c| ensures !SameKey(c[i], c[j]) {
      if |a| <= i {
        assert c[i] == b[i - |a|] && c[j] == b[j - |a|];
      } else if |a| <= j {
        assert c[i] == a[i] && c[j] == b[j - |a|];
      } else {
        assert c[i] == a[i] && c[j] == a[j];
      }
    }
  }

  lemma {:induction false} NewRowsDistinct(all: seq<Row>, todo: seq<Row>, resource: string, unit: string,
                                           rate: real, id: nat)
    requires forall i, j :: 0 <= i < j < |todo| ==> todo[i].id != todo[j].id
    ensures KeysDistinct(NewRows(all, todo, resource, unit, rate, id))
    decreases |todo|
  {
    hide Eligible, NewPair, Present, CorrectionRow, KeysDistinct;
    if todo == [] {
      assert KeysDistinct([]) by { NoKeys(); }
    } else if !Eligible(todo[0], resource, unit) {
      NewRowsDistinct(all, todo[1..], resource, unit, rate, id);
    } else {
      var pair := NewPair(all, todo[0], rate, id);
      var rest := NewRows(all, todo[1..], resource, unit, rate, id + |pair|);
      NewRowsDistinct(all, todo[1..], resource, unit, rate, id + |pair|);
      PairKeys(all, todo[0], rate, id);
      forall j | 0 <= j < |rest| ensures rest[j].sourceId.Correction? && rest[j].sourceId.original != todo[0].id {
        RestKeys(all, todo, resource, unit, rate, id + |pair|, j);
      }
      KeysDistinctAppend(pair, rest);
    }
  }

  lemma NoKeys()
    ensures KeysDistinct([])
  {
  }

  lemma RestKeys(all: seq<Row>, todo: seq<Row>, resource: string, unit: string, rate: real, id: nat, j: nat)
    requires todo != [] && forall i, k :: 0 <= i < k < |todo| ==> todo[i].id != todo[k].id
    requires j < |NewRows(all, todo[1..], resource, unit, rate, id)|
    ensures var r := NewRows(all, todo[1..], resource, unit, rate, id)[j];
            r.sourceId.Correction? && r.sourceId.original != todo[0].id
  {
    var o, v := NewRowsOrigin(all, todo[1..], resource, unit, rate, id, j);
    assert todo[1..][o] == todo[o + 1];
  }

  lemma NewRowsFresh(rows: seq<Row>, resource: string, unit: string, rate: real, id: nat)
    requires WellFormed(rows, id)
    ensures FreshFor(rows, NewRows(rows, rows, resource, unit, rate, id), id)
  {
    var added := NewRows(rows, rows, resource, unit, rate, id);
    NewRowsDistinct(rows, rows, resource, unit, rate, id);
    forall i | 0 <= i < |added|
      ensures added[i].id == id + i && added[i].source == CORRECTION && Genuine(rows, added[i])
              && forall j :: 0 <= j < |rows| ==> !SameKey(rows[j], added[i])
    {
      var o, v := NewRowsOrigin(rows, rows, resource, unit, rate, id, i);
      assert Corrects(added[i], rows[o], v, rate);
      forall j | 0 <= j < |rows| ensures !SameKey(rows[j], added[i]) {
        assert !IsCorrectionOf(rows[j], rows[o], v);
      }
    }
  }

  lemma FreshExtends(rows: seq<Row>, added: seq<Row>, id: nat)
    requires WellFormed(rows, id) && FreshFor(rows, added, id)
    ensures WellFormed(rows + added, id + |added|)
  {
    var all := rows + added;
    forall i | 0 <= i < |all| && all[i].source == CORRECTION ensures Genuine(all, all[i]) {
      assert Genuine(rows, all[i]);
      var o, v, rate :| 0 <= o < |rows| && Eligible(rows[o], rows[o].dims.resource, rows[o].dims.unit)
                        && Corrects(all[i], rows[o], v, rate);
      assert all[o] == rows[o];
    }
  }

  /** A correction keeps the ledger well formed, leaves every row in place and appends. */
  lemma CorrectKeepsWellFormed(rows: seq<Row>, resource: string, unit: string, rate: real, id: nat)
    requires WellFormed(rows, id)
    ensures var rows' := Correct(rows, resource, unit, rate, id);
            rows <= rows' && WellFormed(rows', id + |rows'| - |rows|)
  {
    NewRowsFresh(rows, resource, unit, rate, id);
    FreshExtends(rows, NewRows(rows, rows, resource, unit, rate, id), id);
  }

  // ----- completeness: both sides of every pair -----

  lemma {:induction false} NewRowsComplete(all: seq<Row>, todo: seq<Row>, resource: string, unit: string, rate: real,
                                          id: nat, k: nat, v: Variant)
    requires k < |todo| && Eligible(todo[k], resource, unit)
    ensures Present(all, todo[k], v) || Present(NewRows(all, todo, resource, unit, rate, id), todo[k], v)
    decreases |todo|
  {
    if !Present(all, todo[k], v) {
      var added := NewRows(all, todo, resource, unit, rate, id);
      if !Eligible(todo[0], resource, unit) {
        NewRowsComplete(all, todo[1..], resource, unit, rate, id, k - 1, v);
      } else {
        var pair := NewPair(all, todo[0], rate, id);
        if k == 0 {
          var at := if v == Reversal then 0 else |NewRow(all, todo[0], Reversal, rate, id)|;
          assert added[at] == pair[at] && IsCorrectionOf(added[at], todo[0], v);
        } else {
          NewRowsComplete(all, todo[1..], resource, unit, rate, id + |pair|, k - 1, v);
          var rest := NewRows(all, todo[1..], resource, unit, rate, id + |pair|);
          var i :| 0 <= i < |rest| && IsCorrectionOf(rest[i], todo[k], v);
          assert added[|pair| + i] == rest[i];
        }
      }
    }
  }

  /** Every original has both of its correction rows. */
  ghost predicate Corrected(rows: seq<Row>, resource: string, unit: string) {
    forall i :: 0 <= i < |rows| ==> !Affected(rows, rows[i], resource, unit)
  }

  lemma PresentMonotone(rows: seq<Row>, more: seq<Row>, o: Row, v: Variant)
    requires Present(rows, o, v) || Present(more, o, v)
    ensures Present(rows + more, o, v)
  {
    var all := rows + more;
    if Present(rows, o, v) {
      var i :| 0 <= i < |rows| && IsCorrectionOf(rows[i], o, v);
      assert all[i] == rows[i];
    } else {
      var i :| 0 <= i < |more| && IsCorrectionOf(more[i], o, v);
      assert all[|rows| + i] == more[i];
    }
  }

  lemma CorrectCorrects(rows: seq<Row>, resource: string, unit: string, rate: real, id: nat)
    requires WellFormed(rows, id)
    ensures Corrected(Correct(rows, resource, unit, rate, id), resource, unit)
  {
    var added := NewRows(rows, rows, resource, unit, rate, id);
    var all := rows + added;
    NewRowsFresh(rows, resource, unit, rate, id);
    forall i | 0 <= i < |all| && Eligible(all[i], resource, unit)
      ensures Present(all, all[i], Reversal) && Present(all, all[i], Replacement)
    {
      assert i < |rows|;
      NewRowsComplete(rows, rows, resource, unit, rate, id, i, Reversal);
      NewRowsComplete(rows, rows, resource, unit, rate, id, i, Replacement);
      PresentMonotone(rows, added, rows[i], Reversal);
      PresentMonotone(rows, added, rows[i], Replacement);
    }
  }

  lemma EmptyPairIff(all: seq<Row>, o: Row, resource: string, unit: string, rate: real, id: nat)
    ensures (if Eligible(o, resource, unit) then NewPair(all, o, rate, id) else []) == []
       <==> !Affected(all, o, resource, unit)
  {
  }

  /** The statement inserts something exactly when some original is affected. */
  lemma {:induction false} NothingToInsertIff(all: seq<Row>, todo: seq<Row>, resource: string, unit: string,
                                              rate: real, id: nat)
    ensures NewRows(all, todo, resource, unit, rate, id) == []
       <==> forall k :: 0 <= k < |todo| ==> !Affected(all, todo[k], resource, unit)
    decreases |todo|
  {
    hide Eligible, Affected, NewPair;
    if todo != [] {
      var pair := if Eligible(todo[0], resource, unit) then NewPair(all, todo[0], rate, id) else [];
      NothingToInsertIff(all, todo[1..], resource, unit, rate, id + |pair|);
      EmptyPairIff(all, todo[0], resource, unit, rate, id);
      var rest := NewRows(all, todo[1..], resource, unit, rate, id + |pair|);
      assert NewRows(all, todo, resource, unit, rate, id) == pair + rest;
      if rest == [] {
        forall k | 1 <= k < |todo| ensures !Affected(all, todo[k], resource, unit) {
          assert todo[k] == todo[1..][k - 1];
        }
      } else {
        var k :| 0 <= k < |todo[1..]| && Affected(all, todo[1..][k], resource, unit);
        assert todo[k + 1] == todo[1..][k];
      }
    }
  }

  /** Run again, at any rate, the correction inserts nothing. */
  lemma SecondRunInsertsNothing(rows: seq<Row>, resource: string, unit: string, rate: real, id: nat, rate': real,
                                id': nat)
    requires WellFormed(rows, id)
    ensures var rows' := Correct(rows, resource, unit, rate, id);
            Correct(rows', resource, unit, rate', id') == rows'
  {
    var rows' := Correct(rows, resource, unit, rate, id);
    CorrectCorrects(rows, resource, unit, rate, id);
    NothingToInsertIff(rows', rows', resource, unit, rate', id');
  }

  // ----- what a statement inserts -----

  /** A row is inserted exactly when it corrects, at this rate, unpriced model usage of this resource
      and unit, and no row of the ledger has its place in the unique index. */
  lemma InsertedIff(rows: seq<Row>, resource: string, unit: string, rate: real, id: nat, c: Row)
    requires WellFormed(rows, id)
    ensures (exists i :: |rows| <= i < |Correct(rows, resource, unit, rate, id)|
                         && Correct(rows, resource, unit, rate, id)[i].(id := c.id) == c)
       <==> (exists o, v :: 0 <= o < |rows| && Corrects(c, rows[o], v, rate)
                            && rows[o].dims.category == "llm" && rows[o].dims.resource == resource
                            && rows[o].dims.unit == unit && rows[o].cost.None? && rows[o].quantity >= 0.0
                            && rows[o].source != "llm-pricing-correction-v1"
                            && forall r :: r in rows ==>
                                 r.source != c.source || r.sourceId != c.sourceId
                                 || r.dims.unit != c.dims.unit || r.ts != c.ts)
  {
    var added := NewRows(rows, rows, resource, unit, rate, id);
    var rows' := Correct(rows, resource, unit, rate, id);
    if i :| |rows| <= i < |rows'| && rows'[i].(id := c.id) == c {
      var o, v := NewRowsOrigin(rows, rows, resource, unit, rate, id, i - |rows|);
      assert rows'[i] == added[i - |rows|];
      assert Corrects(c, rows[o], v, rate) && !Present(rows, rows[o], v);
      forall r | r in rows
        ensures r.source != c.source || r.sourceId != c.sourceId || r.dims.unit != c.dims.unit || r.ts != c.ts
      {
        assert !IsCorrectionOf(r, rows[o], v);
      }
    }
    if o, v :| 0 <= o < |rows| && Corrects(c, rows[o], v, rate) && Eligible(rows[o], resource, unit)
               && forall r :: r in rows ==> r.source != c.source || r.sourceId != c.sourceId
                                            || r.dims.unit != c.dims.unit || r.ts != c.ts {
      var i := InsertedFor(rows, resource, unit, rate, id, o, v);
      assert rows'[|rows| + i] == added[i];
    }
  }

  /** The row inserted for one side of an original that had none. */
  lemma InsertedFor(rows: seq<Row>, resource: string, unit: string, rate: real, id: nat, o: nat, v: Variant)
    returns (i: nat)
    requires WellFormed(rows, id) && o < |rows| && Eligible(rows[o], resource, unit) && !Present(rows, rows[o], v)
    ensures var added := NewRows(rows, rows, resource, unit, rate, id);
            i < |added| && added[i] == CorrectionRow(rows[o], v, rate, added[i].id)
  {
    var added := NewRows(rows, rows, resource, unit, rate, id);
    NewRowsComplete(rows, rows, resource, unit, rate, id, o, v);
    i :| 0 <= i < |added| && IsCorrectionOf(added[i], rows[o], v);
    var o', v' := NewRowsOrigin(rows, rows, resource, unit, rate, id, i);
    assert rows[o'].id == rows[o].id;
    assert o' == o;
  }

  // ----- conservation -----

  /** A class of usage: of some users, projects, resources and units. */
  type Slice = Dims -> bool

  /** Model usage of one resource and unit only. */
  ghost predicate Within(at: Slice, resource: string, unit: string) {
    forall d :: at(d) ==> d.category == "llm" && d.resource == resource && d.unit == unit
  }

  /** Unpriced usage that is neither a correction nor a negative adjustment. */
  predicate Original(r: Row, at: Slice) {
    at(r.dims) && r.cost.None? && r.source != CORRECTION && r.quantity >= 0.0
  }

  /** Total quantity of the originals. */
  function OriginalSum(rows: seq<Row>, at: Slice): real {
    if rows == [] then 0.0
    else
      var r := rows[|rows| - 1];
      OriginalSum(rows[..|rows| - 1], at) + if Original(r, at) then r.quantity else 0.0
  }

  predicate IsVariant(r: Row, at: Slice, v: Variant) {
    r.source == CORRECTION && at(r.dims) && r.sourceId.Correction? && r.sourceId.variant == v
  }

  /** Total quantity of one side of the corrections. */
  function VariantSum(rows: seq<Row>, at: Slice, v: Variant): real {
    if rows == [] then 0.0
    else
      var r := rows[|rows| - 1];
      VariantSum(rows[..|rows| - 1], at, v) + if IsVariant(r, at, v) then r.quantity else 0.0
  }

  /** Total quantity of the corrections. */
  function CorrectionSum(rows: seq<Row>, at: Slice): real {
    if rows == [] then 0.0
    else
      var r := rows[|rows| - 1];
      CorrectionSum(rows[..|rows| - 1], at) + if r.source == CORRECTION && at(r.dims) then r.quantity else 0.0
  }

  /** Total unpriced usage. */
  function UnpricedSum(rows: seq<Row>, at: Slice): real {
    if rows == [] then 0.0
    else
      var r := rows[|rows| - 1];
      UnpricedSum(rows[..|rows| - 1], at) + if at(r.dims) && r.cost.None? then r.quantity else 0.0
  }

  /** Unpriced rows that are neither originals nor corrections: negative adjustments. */
  function AdjustmentSum(rows: seq<Row>, at: Slice): real {
    if rows == [] then 0.0
    else
      var r := rows[|rows| - 1];
      AdjustmentSum(rows[..|rows| - 1], at)
      + if at(r.dims) && r.cost.None? && r.source != CORRECTION && r.quantity < 0.0 then r.quantity else 0.0
  }

  /** Total stored cost. */
  function CostSum(rows: seq<Row>, at: Slice): real {
    if rows == [] then 0.0
    else
      var r := rows[|rows| - 1];
      CostSum(rows[..|rows| - 1], at) + if at(r.dims) && r.cost.Some? then r.cost.value else 0.0
  }

  /** Quantity of the `v` rows that correct `o`. */
  ghost function SumFor(rows: seq<Row>, o: Row, v: Variant): real {
    if rows == [] then 0.0
    else
      SumFor(rows[..|rows| - 1], o, v)
      + if IsCorrectionOf(rows[|rows| - 1], o, v) then rows[|rows| - 1].quantity else 0.0
  }

  ghost function SumForAll(rows: seq<Row>, originals: seq<Row>, at: Slice, v: Variant): real {
    if originals == [] then 0.0
    else
      var o := originals[|originals| - 1];
      SumForAll(rows, originals[..|originals| - 1], at, v)
      + if Original(o, at) then SumFor(rows, o, v) else 0.0
  }

  lemma {:induction false} NoneFor(rows: seq<Row>, o: Row, v: Variant)
    requires !Present(rows, o, v)
    ensures SumFor(rows, o, v) == 0.0
    decreases |rows|
  {
    if rows != [] {
      var n := |rows| - 1;
      assert !IsCorrectionOf(rows[n], o, v);
      assert !Present(rows[..n], o, v) by {
        forall i | 0 <= i < n ensures !IsCorrectionOf(rows[..n][i], o, v) { assert rows[..n][i] == rows[i]; }
      }
      NoneFor(rows[..n], o, v);
    }
  }

  /** Under the unique index a correction occurs once, so its sum is its quantity. */
  lemma {:induction false} OnceFor(rows: seq<Row>, o: Row, v: Variant, k: nat)
    requires k < |rows| && IsCorrectionOf(rows[k], o, v)
    requires KeysDistinct(rows)
    ensures SumFor(rows, o, v) == rows[k].quantity
    decreases |rows|
  {
    var n := |rows| - 1;
    if k == n {
      forall i | 0 <= i < n ensures !IsCorrectionOf(rows[..n][i], o, v) {
        assert !SameKey(rows[i], rows[n]);
      }
      NoneFor(rows[..n], o, v);
    } else {
      assert !SameKey(rows[k], rows[n]);
      OnceFor(rows[..n], o, v, k);
    }
  }

  /** Appending a correction of the original at `k` adds its quantity to the double sum once. */
  lemma {:induction false} OneOriginalGets(rows: seq<Row>, c: Row, originals: seq<Row>, at: Slice,
                                          v: Variant, k: nat)
    requires k < |originals| && Original(originals[k], at) && IsCorrectionOf(c, originals[k], v)
    requires forall i, j :: 0 <= i < j < |originals| ==> originals[i].id != originals[j].id
    ensures SumForAll(rows + [c], originals, at, v)
         == SumForAll(rows, originals, at, v) + c.quantity
    decreases |originals|
  {
    var n := |originals| - 1;
    assert (rows + [c])[..|rows|] == rows;
    if k == n {
      forall i | 0 <= i < n ensures !IsCorrectionOf(c, originals[..n][i], v) {
        assert originals[i].id != originals[n].id;
      }
      NoOriginalGets(rows, c, originals[..n], at, v);
    } else {
      assert originals[k].id != originals[n].id;
      OneOriginalGets(rows, c, originals[..n], at, v, k);
    }
  }

  lemma {:induction false} NoOriginalGets(rows: seq<Row>, c: Row, originals: seq<Row>, at: Slice,
                                          v: Variant)
    requires forall i :: 0 <= i < |originals| && Original(originals[i], at) ==>
      !IsCorrectionOf(c, originals[i], v)
    ensures SumForAll(rows + [c], originals, at, v) == SumForAll(rows, originals, at, v)
    decreases |originals|
  {
    if originals != [] {
      assert (rows + [c])[..|rows|] == rows;
      NoOriginalGets(rows, c, originals[..|originals| - 1], at, v);
    }
  }

  /** Grouping the corrections by the original they belong to. */
  lemma {:induction false} SumByOriginal(rows: seq<Row>, originals: seq<Row>, at: Slice,
                                         v: Variant)
    requires forall i, j :: 0 <= i < j < |originals| ==> originals[i].id != originals[j].id
    requires forall i :: 0 <= i < |rows| && rows[i].source == CORRECTION ==> Genuine(originals, rows[i])
    ensures VariantSum(rows, at, v) == SumForAll(rows, originals, at, v)
    decreases |rows|
  {
    if rows == [] {
      NothingFor(originals, at, v);
    } else {
      var n := |rows| - 1;
      var c := rows[n];
      assert rows == rows[..n] + [c];
      SumByOriginal(rows[..n], originals, at, v);
      if c.source == CORRECTION {
        var k, w, rate :| 0 <= k < |originals|
                          && Eligible(originals[k], originals[k].dims.resource, originals[k].dims.unit)
                          && Corrects(c, originals[k], w, rate);
        if IsVariant(c, at, v) {
          OneOriginalGets(rows[..n], c, originals, at, v, k);
        } else {
          forall i | 0 <= i < |originals| && Original(originals[i], at)
            ensures !IsCorrectionOf(c, originals[i], v)
          {
            if i < k { assert originals[i].id != originals[k].id; }
            if k < i { assert originals[k].id != originals[i].id; }
          }
          NoOriginalGets(rows[..n], c, originals, at, v);
        }
      } else {
        NoOriginalGets(rows[..n], c, originals, at, v);
      }
    }
  }

  lemma {:induction false} NothingFor(originals: seq<Row>, at: Slice, v: Variant)
    ensures SumForAll([], originals, at, v) == 0.0
    decreases |originals|
  {
    if originals != [] { NothingFor(originals[..|originals| - 1], at, v); }
  }

  lemma {:induction false} PairsAreExact(rows: seq<Row>, originals: seq<Row>, resource: string, unit: string,
                                         at: Slice, v: Variant, id: nat)
    requires WellFormed(rows, id) && Corrected(rows, resource, unit) && Within(at, resource, unit) && originals <= rows
    ensures SumForAll(rows, originals, at, v) == Sign(v) * OriginalSum(originals, at)
    decreases |originals|
  {
    if originals != [] {
      var n := |originals| - 1;
      PairsAreExact(rows, originals[..n], resource, unit, at, v, id);
      var o := originals[n];
      if Original(o, at) {
        assert rows[n] == o && at(o.dims) && !Affected(rows, rows[n], resource, unit);
        var k :| 0 <= k < |rows| && IsCorrectionOf(rows[k], o, v);
        OnceFor(rows, o, v, k);
        CorrectionQuantity(rows, n, k, v, id);
      }
    }
  }

  lemma CorrectionQuantity(rows: seq<Row>, o: nat, k: nat, v: Variant, id: nat)
    requires WellFormed(rows, id) && o < |rows| && k < |rows| && IsCorrectionOf(rows[k], rows[o], v)
    ensures rows[k].quantity == Sign(v) * rows[o].quantity
  {
    assert Genuine(rows, rows[k]);
    var i, w, rate :| 0 <= i < |rows| && Eligible(rows[i], rows[i].dims.resource, rows[i].dims.unit)
                      && Corrects(rows[k], rows[i], w, rate);
    assert rows[i].id == rows[o].id;
    assert i == o;
  }

  lemma {:induction false} SumsSplit(rows: seq<Row>, all: seq<Row>, at: Slice)
    requires forall i :: 0 <= i < |rows| && rows[i].source == CORRECTION ==> Genuine(all, rows[i])
    ensures CorrectionSum(rows, at)
         == VariantSum(rows, at, Reversal) + VariantSum(rows, at, Replacement)
    ensures UnpricedSum(rows, at)
         == OriginalSum(rows, at) + VariantSum(rows, at, Reversal)
           + AdjustmentSum(rows, at)
    decreases |rows|
  {
    if rows != [] {
      var n := |rows| - 1;
      SumsSplit(rows[..n], all, at);
      if rows[n].source == CORRECTION {
        var k, w, rate :| 0 <= k < |all| && Eligible(all[k], all[k].dims.resource, all[k].dims.unit)
                          && Corrects(rows[n], all[k], w, rate);
      }
    }
  }

  /** Once every original has both rows, at whatever rates they were written, the corrections of
      every class of usage net to zero — each user's, each project's — and no unpriced usage of it
      is left but negative adjustments. */
  lemma CorrectedConserves(rows: seq<Row>, resource: string, unit: string, at: Slice, id: nat)
    requires WellFormed(rows, id) && Corrected(rows, resource, unit) && Within(at, resource, unit)
    ensures CorrectionSum(rows, at) == 0.0
    ensures UnpricedSum(rows, at) == AdjustmentSum(rows, at)
  {
    forall v: Variant ensures VariantSum(rows, at, v) == Sign(v) * OriginalSum(rows, at) {
      SumByOriginal(rows, rows, at, v);
      PairsAreExact(rows, rows, resource, unit, at, v, id);
    }
    SumsSplit(rows, rows, at);
  }

  /** Conservation: whatever subset of the corrections was already there, one statement
      leaves the originals in place and the books of every class of usage balanced. */
  lemma CorrectionConserves(rows: seq<Row>, resource: string, unit: string, rate: real, id: nat, at: Slice)
    requires WellFormed(rows, id) && Within(at, resource, unit)
    ensures var rows' := Correct(rows, resource, unit, rate, id);
            && rows <= rows'
            && CorrectionSum(rows', at) == 0.0
            && UnpricedSum(rows', at) == AdjustmentSum(rows', at)
  {
    var rows' := Correct(rows, resource, unit, rate, id);
    CorrectKeepsWellFormed(rows, resource, unit, rate, id);
    CorrectCorrects(rows, resource, unit, rate, id);
    CorrectedConserves(rows', resource, unit, at, id + |rows'| - |rows|);
  }

  /** What the missing replacements cost, in one class of usage. */
  function MissingCost(all: seq<Row>, todo: seq<Row>, resource: string, unit: string, rate: real, at: Slice): real {
    if todo == [] then 0.0
    else
      var o := todo[0];
      (if at(o.dims) && Eligible(o, resource, unit) && !Present(all, o, Replacement) then o.quantity * rate else 0.0)
      + MissingCost(all, todo[1..], resource, unit, rate, at)
  }

  lemma NoCost(at: Slice)
    ensures CostSum([], at) == 0.0
  {
  }

  lemma {:induction false} CostAppend(a: seq<Row>, b: seq<Row>, at: Slice)
    ensures CostSum(a + b, at) == CostSum(a, at) + CostSum(b, at)
    decreases |b|
  {
    if b == [] {
      assert a + b == a;
    } else {
      assert (a + b)[..|a + b| - 1] == a + b[..|b| - 1];
      CostAppend(a, b[..|b| - 1], at);
    }
  }

  lemma {:induction false} NewRowsCost(all: seq<Row>, todo: seq<Row>, resource: string, unit: string, rate: real,
                                       id: nat, at: Slice)
    ensures CostSum(NewRows(all, todo, resource, unit, rate, id), at)
         == MissingCost(all, todo, resource, unit, rate, at)
    decreases |todo|
  {
    hide Present, Eligible, NewPair, CostSum;
    NoCost(at);
    if todo != [] {
      if Eligible(todo[0], resource, unit) {
        var pair := NewPair(all, todo[0], rate, id);
        var rest := NewRows(all, todo[1..], resource, unit, rate, id + |pair|);
        NewRowsCost(all, todo[1..], resource, unit, rate, id + |pair|, at);
        CostAppend(pair, rest, at);
        assert NewRows(all, todo, resource, unit, rate, id) == pair + rest;
        PairCost(all, todo[0], rate, id, at);
      } else {
        NewRowsCost(all, todo[1..], resource, unit, rate, id, at);
      }
    }
  }

  lemma PairCost(all: seq<Row>, o: Row, rate: real, id: nat, at: Slice)
    ensures CostSum(NewPair(all, o, rate, id), at)
         == if at(o.dims) && !Present(all, o, Replacement) then o.quantity * rate else 0.0
  {
    var a := NewRow(all, o, Reversal, rate, id);
    var b := NewRow(all, o, Replacement, rate, id + |a|);
    CostAppend(a, b, at);
    if a != [] { assert a[..0] == []; }
    if b != [] { assert b[..0] == []; }
  }

  /** In any class of usage a correction adds cost for its missing replacements and for nothing else. */
  lemma CostIsAddedOnce(rows: seq<Row>, resource: string, unit: string, rate: real, id: nat, at: Slice)
    ensures CostSum(Correct(rows, resource, unit, rate, id), at)
      == CostSum(rows, at) + MissingCost(rows, rows, resource, unit, rate, at)
  {
    NewRowsCost(rows, rows, resource, unit, rate, id, at);
    CostAppend(rows, NewRows(rows, rows, resource, unit, rate, id), at);
  }
}
