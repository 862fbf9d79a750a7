/**
 Attribution of a job's requests to phases: archive events cut the job into segments, and
 each segment's requests are added to the phase the event closes.
 */
module Segments {

  datatype Request = Request(ts: int, latency: nat, tokens: nat)

  datatype Kind = Strategic | Tactical

  datatype Event = Event(kind: Kind, ts: int)

  /** Language-model time, number of requests and input tokens of one phase. */
  datatype Totals = Totals(latency: int, count: int, tokens: int)

  /** The segment that ends at `end`. It starts after the event before it, but one that starts
      at the first request's time takes everything up to its end. */
  predicate InSegment(t0: int, prev: int, end: int, ts: int) {
    if prev == t0 then ts <= end else prev < ts <= end
  }

  // ----- sums over requests -----

  function Sum(reqs: seq<Request>, w: Request -> int): int {
    if reqs == [] then 0 else w(reqs[0]) + Sum(reqs[1..], w)
  }

  function Inside(w: Request -> int, t0: int, prev: int, end: int): Request -> int {
    (r: Request) => if InSegment(t0, prev, end, r.ts) then w(r) else 0
  }

  function After(time: int): Request -> int {
    (r: Request) => if r.ts > time then 1 else 0
  }

  function StampedAt(w: Request -> int, time: int): Request -> int {
    (r: Request) => if r.ts == time then w(r) else 0
  }

  function Repeated(w: Request -> int, t0: int, prev: int, cuts: seq<Event>): Request -> int {
    (r: Request) => w(r) * Times(t0, prev, cuts, r.ts)
  }

  function SegmentSum(reqs: seq<Request>, w: Request -> int, t0: int, prev: int, end: int): int {
    Sum(reqs, Inside(w, t0, prev, end))
  }

  /** What the segments ending at the given events add to one phase. */
  function Attributed(reqs: seq<Request>, w: Request -> int, t0: int, prev: int, events: seq<Event>, kind: Kind): int
    decreases events
  {
    if events == [] then 0
    else
      (if events[0].kind == kind then SegmentSum(reqs, w, t0, prev, events[0].ts) else 0)
      + Attributed(reqs, w, t0, events[0].ts, events[1..], kind)
  }

  /** In how many segments a request at `ts` is counted. */
  function Times(t0: int, prev: int, events: seq<Event>, ts: int): nat
    decreases events
  {
    if events == [] then 0
    else (if InSegment(t0, prev, events[0].ts, ts) then 1 else 0) + Times(t0, events[0].ts, events[1..], ts)
  }

  function Stamped(events: seq<Event>, ts: int): nat {
    if events == [] then 0 else (if events[0].ts == ts then 1 else 0) + Stamped(events[1..], ts)
  }

  ghost predicate Ordered(events: seq<Event>) {
    forall i, j :: 0 <= i < j < |events| ==> events[i].ts <= events[j].ts
  }

  ghost predicate Timed(reqs: seq<Request>) {
    reqs != [] && forall i, j :: 0 <= i < j < |reqs| ==> reqs[i].ts <= reqs[j].ts
  }

  function FirstTime(reqs: seq<Request>): int
    requires reqs != []
  {
    reqs[0].ts
  }

  function LastTime(reqs: seq<Request>): int
    requires reqs != []
  {
    reqs[|reqs| - 1].ts
  }

  /** The archive events and the final strategic segment that ends with the last request. */
  function Cuts(reqs: seq<Request>, events: seq<Event>): seq<Event>
    requires reqs != []
  {
    events + [Event(Strategic, LastTime(reqs))]
  }

  function PhaseSum(reqs: seq<Request>, w: Request -> int, events: seq<Event>, kind: Kind): int
    requires reqs != []
  {
    Attributed(reqs, w, FirstTime(reqs), FirstTime(reqs), Cuts(reqs, events), kind)
  }

  // ----- the loop -----

  const LATENCY: Request -> int := (r: Request) => r.latency
  const COUNT: Request -> int := (r: Request) => 1
  const TOKENS: Request -> int := (r: Request) => r.tokens

  function PhaseTotals(reqs: seq<Request>, events: seq<Event>, kind: Kind): Totals
    requires reqs != []
  {
    Totals(PhaseSum(reqs, LATENCY, events, kind), PhaseSum(reqs, COUNT, events, kind),
           PhaseSum(reqs, TOKENS, events, kind))
  }

  function Plus(a: Totals, b: Totals): Totals {
    Totals(a.latency + b.latency, a.count + b.count, a.tokens + b.tokens)
  }

  function Rest(reqs: seq<Request>, t0: int, prev: int, cuts: seq<Event>, kind: Kind): Totals {
    Totals(Attributed(reqs, LATENCY, t0, prev, cuts, kind), Attributed(reqs, COUNT, t0, prev, cuts, kind),
           Attributed(reqs, TOKENS, t0, prev, cuts, kind))
  }

  /** Requests after the last archive. */
  function Tail(reqs: seq<Request>, events: seq<Event>): int
    requires events != []
  {
    Sum(reqs, After(events[|events| - 1].ts))
  }

  method SumSegment(reqs: seq<Request>, t0: int, prev: int, end: int) returns (seg: Totals)
    ensures seg == Totals(SegmentSum(reqs, LATENCY, t0, prev, end), SegmentSum(reqs, COUNT, t0, prev, end),
                          SegmentSum(reqs, TOKENS, t0, prev, end))
  {
    seg := Totals(0, 0, 0);
    for i := 0 to |reqs|
      invariant Plus(seg, Totals(SegmentSum(reqs[i..], LATENCY, t0, prev, end),
                                 SegmentSum(reqs[i..], COUNT, t0, prev, end),
                                 SegmentSum(reqs[i..], TOKENS, t0, prev, end)))
                == Totals(SegmentSum(reqs, LATENCY, t0, prev, end), SegmentSum(reqs, COUNT, t0, prev, end),
                          SegmentSum(reqs, TOKENS, t0, prev, end))
    {
      SegmentSumStep(reqs[i..], LATENCY, t0, prev, end);
      SegmentSumStep(reqs[i..], COUNT, t0, prev, end);
      SegmentSumStep(reqs[i..], TOKENS, t0, prev, end);
      assert reqs[i..][1..] == reqs[i + 1..];
      if InSegment(t0, prev, end, reqs[i].ts) { seg := Plus(seg, Totals(reqs[i].latency, 1, reqs[i].tokens)); }
    }
  }

  lemma SegmentSumStep(reqs: seq<Request>, w: Request -> int, t0: int, prev: int, end: int)
    requires reqs != []
    ensures SegmentSum(reqs, w, t0, prev, end)
            == (if InSegment(t0, prev, end, reqs[0].ts) then w(reqs[0]) else 0)
              + SegmentSum(reqs[1..], w, t0, prev, end)
  {
  }

  /** A job without requests or without archives has no segments. */
  datatype Analysis = NoRequests | NoArchives | Phases(strategic: Totals, tactical: Totals, tail: int)

  method AnalyzeJob(reqs: seq<Request>, events: seq<Event>) returns (a: Analysis)
    ensures a.NoRequests? <==> reqs == []
    ensures a.NoArchives? <==> reqs != [] && events == []
    ensures a.Phases? ==>
              a == Phases(PhaseTotals(reqs, events, Strategic), PhaseTotals(reqs, events, Tactical), Tail(reqs, events))
  {
    if reqs == [] { return NoRequests; }
    if events == [] { return NoArchives; }
    var t0 := reqs[0].ts;
    var cuts, prev := Cuts(reqs, events), t0;
    var strategic, tactical := Totals(0, 0, 0), Totals(0, 0, 0);
    for i := 0 to |cuts|
      invariant Plus(strategic, Rest(reqs, t0, prev, cuts[i..], Strategic)) == PhaseTotals(reqs, events, Strategic)
      invariant Plus(tactical, Rest(reqs, t0, prev, cuts[i..], Tactical)) == PhaseTotals(reqs, events, Tactical)
    {
      assert cuts[i..][1..] == cuts[i + 1..];
      var seg := SumSegment(reqs, t0, prev, cuts[i].ts);
      match cuts[i].kind {
        case Strategic => strategic := Plus(strategic, seg);
        case Tactical => tactical := Plus(tactical, seg);
      }
      prev := cuts[i].ts;
    }
    return Phases(strategic, tactical, Tail(reqs, events));
  }

  // ----- what is counted -----

  lemma {:induction false} SumAdds(reqs: seq<Request>, f: Request -> int, g: Request -> int, h: Request -> int)
    requires forall r :: r in reqs ==> h(r) == f(r) + g(r)
    ensures Sum(reqs, h) == Sum(reqs, f) + Sum(reqs, g)
  {
    if reqs != [] { SumAdds(reqs[1..], f, g, h); }
  }

  lemma {:induction false} SumIsZero(reqs: seq<Request>, f: Request -> int)
    requires forall r :: r in reqs ==> f(r) == 0
    ensures Sum(reqs, f) == 0
  {
    if reqs != [] { SumIsZero(reqs[1..], f); }
  }

  lemma {:induction false} SumScales(reqs: seq<Request>, k: int, f: Request -> int, g: Request -> int)
    requires forall r :: r in reqs ==> g(r) == k * f(r)
    ensures Sum(reqs, g) == k * Sum(reqs, f)
  {
    if reqs != [] { SumScales(reqs[1..], k, f, g); }
  }

  /** Both phases together count a request once for every segment it lies in. */
  lemma {:induction false} SegmentsOrRequests(reqs: seq<Request>, w: Request -> int, t0: int, prev: int,
                                              cuts: seq<Event>)
    ensures Attributed(reqs, w, t0, prev, cuts, Strategic) + Attributed(reqs, w, t0, prev, cuts, Tactical)
            == Sum(reqs, Repeated(w, t0, prev, cuts))
    decreases cuts
  {
    if cuts == [] {
      SumIsZero(reqs, Repeated(w, t0, prev, cuts));
    } else {
      var end, rest := cuts[0].ts, cuts[1..];
      SegmentsOrRequests(reqs, w, t0, end, rest);
      forall r | r in reqs
        ensures Repeated(w, t0, prev, cuts)(r) == Inside(w, t0, prev, end)(r) + Repeated(w, t0, end, rest)(r)
      {
        Distribute(w(r), Times(t0, end, rest, r.ts));
      }
      SumAdds(reqs, Inside(w, t0, prev, end), Repeated(w, t0, end, rest), Repeated(w, t0, prev, cuts));
    }
  }

  /** A request is in one segment, and in one more for each archive stamped at the first
      request's time when it is stamped there too. Once past that time, it is in the segment
      that follows, if any. */
  lemma {:induction false} TimesIs(t0: int, prev: int, events: seq<Event>, last: Event, ts: int)
    requires Ordered(events) && t0 <= ts <= last.ts
    requires prev == t0 || events == [] || prev <= events[0].ts
    ensures Times(t0, prev, events + [last], ts)
            == if prev <= t0 then 1 + (if ts == t0 then Stamped(events, t0) else 0) else if ts > prev then 1 else 0
    decreases events
  {
    var cuts := events + [last];
    if events == [] {
      assert cuts[1..] == [];
    } else {
      assert cuts[1..] == events[1..] + [last];
      TimesIs(t0, events[0].ts, events[1..], last, ts);
      if events[0].ts > t0 { NoneStamped(events, t0); }
    }
  }

  lemma {:induction false} NoneStamped(events: seq<Event>, ts: int)
    requires forall e :: e in events ==> e.ts != ts
    ensures Stamped(events, ts) == 0
  {
    if events != [] { NoneStamped(events[1..], ts); }
  }

  lemma {:induction false} StampedIff(events: seq<Event>, ts: int)
    ensures Stamped(events, ts) > 0 <==> exists e :: e in events && e.ts == ts
  {
    if events != [] {
      StampedIff(events[1..], ts);
      if events[0].ts == ts { assert events[0] in events; }
    }
  }

  // ----- which phase -----

  /** The event ends the segment that a request at `ts` lies in: the first stamped no earlier — and, for
      the first request's time, later. */
  predicate Closes(e: Event, t0: int, ts: int) {
    e.ts >= ts && e.ts != t0
  }

  /** The first archive that closes the request's segment is of this kind; the segment that no archive
      closes is strategic. */
  ghost predicate ClosedBy(events: seq<Event>, t0: int, ts: int, kind: Kind) {
    || (exists i :: ClosedAt(events, t0, ts, i) && events[i].kind == kind)
    || (kind == Strategic && forall i :: 0 <= i < |events| ==> !Closes(events[i], t0, ts))
  }

  ghost predicate ClosedAt(events: seq<Event>, t0: int, ts: int, i: int) {
    0 <= i < |events| && Closes(events[i], t0, ts) && forall j :: 0 <= j < i ==> !Closes(events[j], t0, ts)
  }

  lemma ClosedFirst(events: seq<Event>, t0: int, ts: int, kind: Kind)
    ensures events == [] ==> (ClosedBy(events, t0, ts, kind) <==> kind == Strategic)
    ensures events != [] ==>
              (ClosedBy(events, t0, ts, kind)
               <==> if Closes(events[0], t0, ts) then events[0].kind == kind
                    else ClosedBy(events[1..], t0, ts, kind))
  {
    if events != [] {
      assert forall i :: 1 <= i < |events| ==> events[i] == events[1..][i - 1];
      if Closes(events[0], t0, ts) {
        assert ClosedAt(events, t0, ts, 0);
      } else {
        forall i | 0 <= i < |events[1..]|
          ensures ClosedAt(events[1..], t0, ts, i) <==> ClosedAt(events, t0, ts, i + 1)
        {
        }
        if i :| ClosedAt(events, t0, ts, i) && events[i].kind == kind {
          assert ClosedAt(events[1..], t0, ts, i - 1);
        }
        if i :| ClosedAt(events[1..], t0, ts, i) && events[1..][i].kind == kind {
          assert ClosedAt(events, t0, ts, i + 1);
        }
      }
    }
  }

  /** Archives of this kind stamped at `ts`. */
  function StampedOf(events: seq<Event>, ts: int, kind: Kind): nat {
    if events == [] then 0
    else (if events[0].ts == ts && events[0].kind == kind then 1 else 0) + StampedOf(events[1..], ts, kind)
  }

  lemma {:induction false} NoneStampedOf(events: seq<Event>, ts: int, kind: Kind)
    requires forall e :: e in events ==> e.ts != ts
    ensures StampedOf(events, ts, kind) == 0
  {
    if events != [] { NoneStampedOf(events[1..], ts, kind); }
  }

  /** In how many segments of this kind a request at `ts` is counted. */
  function TimesOf(t0: int, prev: int, cuts: seq<Event>, kind: Kind, ts: int): nat
    decreases cuts
  {
    if cuts == [] then 0
    else
      (if cuts[0].kind == kind && InSegment(t0, prev, cuts[0].ts, ts) then 1 else 0)
      + TimesOf(t0, cuts[0].ts, cuts[1..], kind, ts)
  }

  function RepeatedOf(w: Request -> int, t0: int, prev: int, cuts: seq<Event>, kind: Kind): Request -> int {
    (r: Request) => w(r) * TimesOf(t0, prev, cuts, kind, r.ts)
  }

  lemma {:induction false} AttributedByRequest(reqs: seq<Request>, w: Request -> int, t0: int, prev: int,
                                               cuts: seq<Event>, kind: Kind)
    ensures Attributed(reqs, w, t0, prev, cuts, kind) == Sum(reqs, RepeatedOf(w, t0, prev, cuts, kind))
    decreases cuts
  {
    if cuts == [] {
      SumIsZero(reqs, RepeatedOf(w, t0, prev, cuts, kind));
    } else {
      var end, rest := cuts[0].ts, cuts[1..];
      AttributedByRequest(reqs, w, t0, end, rest, kind);
      var own: Request -> int := (r: Request) => if cuts[0].kind == kind then Inside(w, t0, prev, end)(r) else 0;
      if cuts[0].kind == kind { SameSum(reqs, own, Inside(w, t0, prev, end)); } else { SumIsZero(reqs, own); }
      forall r | r in reqs
        ensures RepeatedOf(w, t0, prev, cuts, kind)(r) == own(r) + RepeatedOf(w, t0, end, rest, kind)(r)
      {
        Distribute(w(r), TimesOf(t0, end, rest, kind, r.ts));
      }
      SumAdds(reqs, own, RepeatedOf(w, t0, end, rest, kind), RepeatedOf(w, t0, prev, cuts, kind));
    }
  }

  lemma {:induction false} TimesOfIs(t0: int, prev: int, events: seq<Event>, last: int, ts: int, kind: Kind)
    requires Ordered(events) && t0 <= ts <= last
    requires prev == t0 || events == [] || prev <= events[0].ts
    ensures TimesOf(t0, prev, events + [Event(Strategic, last)], kind, ts)
            == (if (prev <= t0 || ts > prev) && ClosedBy(events, t0, ts, kind) then 1 else 0)
               + (if prev <= t0 && ts == t0 then StampedOf(events, t0, kind) else 0)
    decreases events
  {
    hide ClosedBy;
    var cuts := events + [Event(Strategic, last)];
    ClosedFirst(events, t0, ts, kind);
    if events == [] {
      assert cuts[1..] == [];
    } else {
      assert cuts[1..] == events[1..] + [Event(Strategic, last)];
      TimesOfIs(t0, events[0].ts, events[1..], last, ts, kind);
      if events[0].ts > t0 { NoneStampedOf(events, t0, kind); }
    }
  }

  /** What a request adds to a phase: its quantity, if the archive that closes its segment is of that
      kind; and at the first request's time again for each archive of that kind stamped there. */
  ghost function Share(w: Request -> int, t0: int, events: seq<Event>, kind: Kind, r: Request): int {
    (if ClosedBy(events, t0, r.ts, kind) then w(r) else 0)
    + (if r.ts == t0 then StampedOf(events, t0, kind) * w(r) else 0)
  }

  /** Each phase is the sum of what its own requests add. */
  lemma PhaseIs(reqs: seq<Request>, w: Request -> int, events: seq<Event>, kind: Kind, share: Request -> int)
    requires Timed(reqs) && Ordered(events)
    requires forall r :: r in reqs ==> share(r) == Share(w, FirstTime(reqs), events, kind, r)
    ensures PhaseSum(reqs, w, events, kind) == Sum(reqs, share)
  {
    hide ClosedBy, TimesOf, Attributed, StampedOf, Closes;
    var t0, t1 := FirstTime(reqs), LastTime(reqs);
    AttributedByRequest(reqs, w, t0, t0, Cuts(reqs, events), kind);
    var counted := RepeatedOf(w, t0, t0, Cuts(reqs, events), kind);
    forall r | r in reqs ensures counted(r) == share(r) {
      TimesOfIs(t0, t0, events, t1, r.ts, kind);
      if ClosedBy(events, t0, r.ts, kind) { Distribute(w(r), if r.ts == t0 then StampedOf(events, t0, kind) else 0); }
    }
    SameSum(reqs, counted, share);
  }

  /** The weight of the requests at the first request's time. */
  function FirstSum(reqs: seq<Request>, w: Request -> int): int
    requires reqs != []
  {
    Sum(reqs, StampedAt(w, FirstTime(reqs)))
  }

  /** For any quantity, the phases add up to its total plus, for each archive stamped at the
      first request's time, the quantity of the requests there. */
  lemma PhasesAddUpTo(reqs: seq<Request>, w: Request -> int, events: seq<Event>)
    requires Timed(reqs) && Ordered(events)
    ensures PhaseSum(reqs, w, events, Strategic) + PhaseSum(reqs, w, events, Tactical)
            == Sum(reqs, w) + Stamped(events, FirstTime(reqs)) * FirstSum(reqs, w)
  {
    var t0, cuts, k := FirstTime(reqs), Cuts(reqs, events), Stamped(events, FirstTime(reqs));
    SegmentsOrRequests(reqs, w, t0, t0, cuts);
    var first, counted := StampedAt(w, t0), Repeated(w, t0, t0, cuts);
    var again: Request -> int := (r: Request) => k * first(r);
    forall r | r in reqs ensures counted(r) == w(r) + again(r) {
      TimesIs(t0, t0, events, Event(Strategic, LastTime(reqs)), r.ts);
      Distribute(w(r), k);
    }
    SumScales(reqs, k, first, again);
    SumAdds(reqs, w, again, counted);
  }

  lemma Distribute(a: int, k: int)
    ensures a * (1 + k) == a + k * a
  {
  }

  lemma {:induction false} SameSum(reqs: seq<Request>, f: Request -> int, g: Request -> int)
    requires forall r :: r in reqs ==> f(r) == g(r)
    ensures Sum(reqs, f) == Sum(reqs, g)
  {
    if reqs != [] { SameSum(reqs[1..], f, g); }
  }

  lemma {:induction false} SumIsNatural(reqs: seq<Request>, f: Request -> int)
    requires forall r :: r in reqs ==> f(r) >= 0
    ensures Sum(reqs, f) >= 0
  {
    if reqs != [] { SumIsNatural(reqs[1..], f); }
  }

  /** The number of requests: the phases partition them exactly when no archive is stamped at
      the first request's time. */
  lemma PartitionIff(reqs: seq<Request>, events: seq<Event>)
    requires Timed(reqs) && Ordered(events)
    ensures PhaseSum(reqs, COUNT, events, Strategic) + PhaseSum(reqs, COUNT, events, Tactical) == |reqs|
            <==> forall e :: e in events ==> e.ts != FirstTime(reqs)
  {
    var t0 := FirstTime(reqs);
    PhasesAddUpTo(reqs, COUNT, events);
    CountAll(reqs);
    StampedIff(events, t0);
    SumIsNatural(reqs[1..], StampedAt(COUNT, t0));
    assert FirstSum(reqs, COUNT) >= 1;
    Scaled(Stamped(events, t0), FirstSum(reqs, COUNT));
  }

  lemma Scaled(k: nat, m: int)
    requires m >= 1
    ensures k * m == 0 <==> k == 0
  {
  }

  lemma {:induction false} CountAll(reqs: seq<Request>)
    ensures Sum(reqs, COUNT) == |reqs|
  {
    if reqs != [] { CountAll(reqs[1..]); }
  }

  /** The other quantities: exact when no archive is stamped there, and otherwise exact only if
      the requests there have none of it. */
  lemma QuantityIff(reqs: seq<Request>, w: Request -> int, events: seq<Event>)
    requires Timed(reqs) && Ordered(events)
    ensures PhaseSum(reqs, w, events, Strategic) + PhaseSum(reqs, w, events, Tactical) == Sum(reqs, w)
            <==> (forall e :: e in events ==> e.ts != FirstTime(reqs)) || FirstSum(reqs, w) == 0
  {
    PhasesAddUpTo(reqs, w, events);
    StampedIff(events, FirstTime(reqs));
    ZeroProduct(Stamped(events, FirstTime(reqs)), FirstSum(reqs, w));
  }

  lemma ZeroProduct(k: int, m: int)
    ensures k * m == 0 <==> k == 0 || m == 0
  {
  }

  /** Each request, wherever it lies, is counted once exactly when no archive is stamped at its
      own time while that is the first request's. */
  lemma CountedOnceIff(reqs: seq<Request>, events: seq<Event>, i: nat)
    requires Timed(reqs) && Ordered(events) && i < |reqs|
    ensures Times(FirstTime(reqs), FirstTime(reqs), Cuts(reqs, events), reqs[i].ts) >= 1
    ensures Times(FirstTime(reqs), FirstTime(reqs), Cuts(reqs, events), reqs[i].ts) == 1
            <==> reqs[i].ts != FirstTime(reqs) || forall e :: e in events ==> e.ts != FirstTime(reqs)
  {
    TimesIs(FirstTime(reqs), FirstTime(reqs), events, Event(Strategic, LastTime(reqs)), reqs[i].ts);
    StampedIff(events, FirstTime(reqs));
  }

  /** The reported tail is the final segment exactly when the last archive is not stamped at
      the first request's time. */
  lemma TailIff(reqs: seq<Request>, events: seq<Event>)
    requires Timed(reqs) && Ordered(events) && events != []
    ensures Tail(reqs, events) == SegmentSum(reqs, COUNT, FirstTime(reqs), events[|events| - 1].ts, LastTime(reqs))
            <==> events[|events| - 1].ts != FirstTime(reqs)
  {
    var t0, t1, prev := FirstTime(reqs), LastTime(reqs), events[|events| - 1].ts;
    var after, final := After(prev), Inside(COUNT, t0, prev, t1);
    if prev != t0 {
      SameSum(reqs, after, final);
    } else {
      assert reqs[0] in reqs;
      var early: Request -> int := (r: Request) => if r.ts > prev then 0 else 1;
      SumAdds(reqs, after, early, final);
      SumIsNatural(reqs[1..], early);
    }
  }
}
