/**
 The submission loop over the manifest it updates in place, proved to follow the transitions
 of module Submission.
 */
module Submitter {
  import opened Submission

  lemma {:induction false} RunAppend(order: seq<Pair>, limit: nat, s: State, events: seq<Event>, e: Event)
    requires Run(order, limit, s, events).Some?
    ensures Run(order, limit, s, events + [e]) == Next(order, limit, Run(order, limit, s, events).value, e)
    decreases |events|
  {
    hide Next;
    if events == [] {
      assert events + [e] == [e] && [e][1..] == [];
    } else {
      assert (events + [e])[1..] == events[1..] + [e];
      RunAppend(order, limit, Next(order, limit, s, events[0]).value, events[1..], e);
    }
  }

  lemma {:induction false} PollSplit(a: seq<Job>, j: Job, answers: Answers)
    ensures Poll(a + [j], answers) == Poll(a, answers) + [PollJob(j, answers)]
  {
    if a == [] {
      assert a + [j] == [j] && [j][1..] == [];
    } else {
      PollSplit(a[1..], j, answers);
      assert (a + [j])[1..] == a[1..] + [j];
    }
  }

  lemma {:induction false} PendingSplit(a: seq<Pair>, p: Pair, done: set<Pair>)
    ensures Pending(a + [p], done) == Pending(a, done) + if p in done then [] else [p]
  {
    if a == [] {
      assert a + [p] == [p] && [p][1..] == [];
    } else {
      PendingSplit(a[1..], p, done);
      assert (a + [p])[1..] == a[1..] + [p];
    }
  }

  class Submitter {
    const order: seq<Pair>
    const limit: nat
    var jobs: seq<Job>
    var saved: seq<Job>
    var queue: seq<Pair>

    ghost function Now(): State
      reads this
    {
      State(jobs, saved, queue)
    }

    /** Loads the manifest and queues, wave by wave, what has no job id yet. */
    constructor (order: seq<Pair>, limit: nat, manifest: seq<Job>)
      ensures this.order == order && this.limit == limit
      ensures Now() == Start(order, manifest)
    {
      this.order, this.limit := order, limit;
      jobs, saved := manifest, manifest;
      var done := Done(manifest);
      var left: seq<Pair> := [];
      for i := 0 to |order|
        invariant left == Pending(order[..i], done)
      {
        PendingSplit(order[..i], order[i], done);
        assert order[..i + 1] == order[..i] + [order[i]];
        if order[i] !in done { left := left + [order[i]]; }
      }
      assert order[..|order|] == order;
      queue := left;
    }

    /** Polls every open entry, records what it learns, and returns the entries still open. */
    method InFlight(answers: Answers) returns (live: seq<Job>)
      modifies this`jobs
      ensures jobs == Poll(old(jobs), answers)
      ensures |live| == OpenCount(jobs) && forall j :: j in live ==> j in jobs && Open(j)
    {
      live := [];
      ghost var was := jobs;
      for i := 0 to |jobs|
        invariant |jobs| == |was| && jobs[i..] == was[i..] && jobs[..i] == Poll(was[..i], answers)
        invariant |live| == OpenCount(jobs[..i]) && forall j :: j in live ==> j in jobs[..i] && Open(j)
      {
        hide Poll, OpenCount, Open;
        var entry := PollJob(jobs[i], answers);
        PollSplit(was[..i], was[i], answers);
        AppendCount(jobs[..i], entry);
        assert was[..i + 1] == was[..i] + [was[i]];
        assert jobs[i] == jobs[i..][0] && was[i] == was[i..][0];
        ghost var before := jobs[..i];
        jobs := jobs[i := entry];
        if Open(entry) { live := live + [entry]; }
        assert jobs[..i + 1] == before + [entry];
        assert jobs[i + 1..] == was[i..][1..];
      }
      assert jobs[..|jobs|] == jobs && was[..|was|] == was;
    }

    /** Pops the next pair; a network failure puts it back. */
    method SubmitNext(outcome: Outcome)
      requires queue != []
      modifies this
      ensures Now() == Enter(old(Now()), outcome)
    {
      var pair := queue[0];
      queue := queue[1..];
      match outcome {
        case Blocked => queue := [pair] + queue;
        case Refused =>
          jobs := jobs + [Job(pair, None, None, None)];
          saved := jobs;
        case Created(id) =>
          jobs := jobs + [Job(pair, Some(id), None, None)];
          saved := jobs;
      }
    }

    /** The main loop against a script of server answers; it is stopped where the script ends.
        Whatever the script, it takes only steps of the state machine. */
    method Drive(noWait: bool, polls: seq<Answers>, outcomes: seq<Outcome>)
      returns (ghost events: seq<Event>, finished: bool)
      requires jobs == saved
      modifies this
      ensures Run(order, limit, old(Now()), events) == Some(Now())
      ensures Resume !in events && (noWait || Throttled(events))
      ensures finished ==> queue == [] && jobs == saved && (noWait || OpenCount(jobs) == 0)
    {
      hide Run, Poll, Enter, Pending;
      events, finished := [], false;
      var p, o := 0, 0;
      StartsHere(order, limit, Now());
      while queue != []
        invariant 0 <= p <= |polls| && 0 <= o <= |outcomes|
        invariant Run(order, limit, old(Now()), events) == Some(Now())
        invariant Resume !in events && (if noWait then jobs == saved else Throttled(events))
        decreases |outcomes| - o
      {
        if o == |outcomes| { return; }
        ghost var before := Now();
        if noWait {
          ghost var e := SubmitAtOnce(outcomes[o]);
          SubmitNext(outcomes[o]);
          EnterSaves(before, outcomes[o]);
          RunAppend(order, limit, old(Now()), events, e);
          events := events + [e];
        } else {
          var room := false;
          while !room
            invariant 0 <= p <= |polls| && queue == before.queue && queue != []
            invariant !room ==> Run(order, limit, old(Now()), events) == Some(Now())
            invariant room ==>
              p > 0 && OpenCount(jobs) < limit && Now() == before.(jobs := Poll(before.jobs, polls[p - 1]))
            invariant room ==> Run(order, limit, old(Now()), events) == Some(before)
            invariant Resume !in events && Throttled(events)
            decreases |polls| - p, !room
          {
            if p == |polls| { return; }
            before := Now();
            var live := InFlight(polls[p]);
            p := p + 1;
            if |live| < limit {
              room := true;
            } else {
              saved := jobs;
              RunAppend(order, limit, old(Now()), events, Wait(polls[p - 1]));
              events := events + [Wait(polls[p - 1])];
            }
          }
          ghost var e := Submit(polls[p - 1], outcomes[o]);
          SubmitNext(outcomes[o]);
          RunAppend(order, limit, old(Now()), events, e);
          events := events + [e];
        }
        o := o + 1;
      }
      if noWait { return events, true; }
      while p < |polls|
        invariant 0 <= p <= |polls| && queue == []
        invariant Run(order, limit, old(Now()), events) == Some(Now())
        invariant Resume !in events && Throttled(events)
      {
        var live := InFlight(polls[p]);
        saved := jobs;
        ghost var e := if live == [] then Finish(polls[p]) else Wait(polls[p]);
        RunAppend(order, limit, old(Now()), events, e);
        events := events + [e];
        if live == [] { return events, true; }
        p := p + 1;
      }
    }
  }

  lemma StartsHere(order: seq<Pair>, limit: nat, s: State)
    ensures Run(order, limit, s, []) == Some(s)
  {
  }

  lemma EnterSaves(s: State, outcome: Outcome)
    requires s.queue != [] && s.jobs == s.saved
    ensures Enter(s, outcome).jobs == Enter(s, outcome).saved
  {
  }
}
