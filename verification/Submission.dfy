/**
 Local job submission: a throttled queue of task and replicate pairs whose progress lives in
 a manifest, so that a stopped run can be resumed.
 */
module Submission {

  datatype Option<T> = None | Some(value: T)

  datatype Pair = Pair(task: string, replicate: nat)

  /** A manifest entry; one without an id records a refused submission. */
  datatype Job = Job(pair: Pair, id: Option<nat>, last: Option<string>, final: Option<string>)

  const TERMINAL: set<string> := {"completed", "failed", "cancelled", "pending_review", "waiting_for_reply"}

  /** A poll of the server: a status for a job id, or none when the call failed. */
  type Answers = nat -> Option<string>

  predicate Open(j: Job) { j.id.Some? && j.final.None? }

  function PollJob(j: Job, answers: Answers): Job {
    if !Open(j) || answers(j.id.value).None? then j
    else
      var status := answers(j.id.value).value;
      j.(last := Some(status), final := if status in TERMINAL then Some(status) else None)
  }

  function Poll(jobs: seq<Job>, answers: Answers): seq<Job> {
    if jobs == [] then [] else [PollJob(jobs[0], answers)] + Poll(jobs[1..], answers)
  }

  /** A poll tells an open entry the status reported for it, which becomes final exactly when the job
      has ended or waits for somebody; an entry that is not open, or not reported on, is left alone. */
  lemma {:induction false} PollLearns(jobs: seq<Job>, answers: Answers, i: nat)
    requires i < |jobs|
    ensures |Poll(jobs, answers)| == |jobs|
    ensures var j, j' := jobs[i], Poll(jobs, answers)[i];
            if j.id.None? || j.final.Some? || answers(j.id.value).None? then j' == j
            else
              var status := answers(j.id.value).value;
              && j'.pair == j.pair && j'.id == j.id && j'.last == Some(status)
              && (j'.final.Some? <==> status == "completed" || status == "failed" || status == "cancelled"
                                      || status == "pending_review" || status == "waiting_for_reply")
              && (j'.final.Some? ==> j'.final == Some(status))
    decreases |jobs|
  {
    PollLength(jobs, answers);
    if i > 0 { PollLearns(jobs[1..], answers, i - 1); }
  }

  lemma {:induction false} PollLength(jobs: seq<Job>, answers: Answers)
    ensures |Poll(jobs, answers)| == |jobs|
    decreases |jobs|
  {
    if jobs != [] { PollLength(jobs[1..], answers); }
  }

  function OpenCount(jobs: seq<Job>): nat {
    if jobs == [] then 0 else (if Open(jobs[0]) then 1 else 0) + OpenCount(jobs[1..])
  }

  /** Pairs with a job id. */
  function Done(jobs: seq<Job>): set<Pair> {
    set i | 0 <= i < |jobs| && jobs[i].id.Some? :: jobs[i].pair
  }

  /** The waves in order, without the pairs already done. */
  function Pending(order: seq<Pair>, done: set<Pair>): seq<Pair> {
    if order == [] then []
    else (if order[0] in done then [] else [order[0]]) + Pending(order[1..], done)
  }

  /** One wave a replicate, each a shuffle of the tasks. */
  function Waves(waves: seq<seq<string>>, replicate: nat): seq<Pair> {
    if waves == [] then []
    else
      seq(|waves[0]|, i requires 0 <= i < |waves[0]| => Pair(waves[0][i], replicate))
      + Waves(waves[1..], replicate + 1)
  }

  /** In memory and as last saved, with what is left to submit. */
  datatype State = State(jobs: seq<Job>, saved: seq<Job>, queue: seq<Pair>)

  /** The server created the job, refused it, or could not be reached. */
  datatype Outcome = Created(id: nat) | Refused | Blocked

  datatype Event =
    | Wait(answers: Answers)                        // poll, save and sleep
    | Submit(answers: Answers, outcome: Outcome)    // poll, find room and submit the next pair
    | SubmitAtOnce(outcome: Outcome)                // submit without throttling
    | Finish(answers: Answers)                      // the last poll: nothing is left open
    | Resume                                        // stopped and started again from the saved manifest

  function Enter(s: State, outcome: Outcome): State
    requires s.queue != []
  {
    match outcome
    case Created(id) =>
      var jobs := s.jobs + [Job(s.queue[0], Some(id), None, None)];
      State(jobs, jobs, s.queue[1..])
    case Refused =>
      var jobs := s.jobs + [Job(s.queue[0], None, None, None)];
      State(jobs, jobs, s.queue[1..])
    case Blocked => s
  }

  function Start(order: seq<Pair>, saved: seq<Job>): State {
    State(saved, saved, Pending(order, Done(saved)))
  }

  /** One event, or None where the loop cannot produce it. */
  function Next(order: seq<Pair>, limit: nat, s: State, e: Event): Option<State> {
    match e
    case Wait(answers) =>
      var jobs := Poll(s.jobs, answers);
      if (if s.queue != [] then OpenCount(jobs) >= limit else OpenCount(jobs) > 0)
      then Some(s.(jobs := jobs, saved := jobs))
      else None
    case Submit(answers, outcome) =>
      var jobs := Poll(s.jobs, answers);
      if s.queue != [] && OpenCount(jobs) < limit then Some(Enter(s.(jobs := jobs), outcome)) else None
    case SubmitAtOnce(outcome) => if s.queue != [] then Some(Enter(s, outcome)) else None
    case Finish(answers) =>
      var jobs := Poll(s.jobs, answers);
      if s.queue == [] && OpenCount(jobs) == 0 then Some(s.(jobs := jobs, saved := jobs)) else None
    case Resume => Some(Start(order, s.saved))
  }

  function Run(order: seq<Pair>, limit: nat, s: State, events: seq<Event>): Option<State>
    decreases |events|
  {
    if events == [] then Some(s)
    else
      match Next(order, limit, s, events[0])
      case None => None
      case Some(t) => Run(order, limit, t, events[1..])
  }

  predicate Can(order: seq<Pair>, limit: nat, s: State, e: Event) {
    Next(order, limit, s, e).Some?
  }

  /** A throttled run always goes on, in one way: it waits while the limit is reached, or at the end
      while something is open; it submits as soon as there is room; it finishes when nothing is left. */
  lemma OneWayOn(order: seq<Pair>, limit: nat, s: State, answers: Answers, outcome: Outcome)
    ensures Can(order, limit, s, Wait(answers)) || Can(order, limit, s, Submit(answers, outcome))
            || Can(order, limit, s, Finish(answers))
    ensures !(Can(order, limit, s, Wait(answers)) && Can(order, limit, s, Submit(answers, outcome)))
    ensures !(Can(order, limit, s, Wait(answers)) && Can(order, limit, s, Finish(answers)))
    ensures Can(order, limit, s, Submit(answers, outcome))
       <==> s.queue != [] && OpenCount(Poll(s.jobs, answers)) < limit
    ensures Can(order, limit, s, Finish(answers))
       <==> s.queue == [] && forall j :: j in Poll(s.jobs, answers) ==> !Open(j)
  {
    NoneOpen(Poll(s.jobs, answers));
  }

  lemma {:induction false} NoneOpen(jobs: seq<Job>)
    ensures OpenCount(jobs) == 0 <==> forall i :: 0 <= i < |jobs| ==> !Open(jobs[i])
    decreases |jobs|
  {
    if jobs != [] {
      NoneOpen(jobs[1..]);
      assert forall i :: 1 <= i < |jobs| ==> jobs[i] == jobs[1..][i - 1];
    }
  }

  // ----- the invariant -----

  ghost predicate Distinct<T>(s: seq<T>) {
    forall i, j :: 0 <= i < j < |s| ==> s[i] != s[j]
  }

  /** No two entries with a job id are for the same pair. */
  ghost predicate OneJobEach(jobs: seq<Job>) {
    forall i, j :: 0 <= i < j < |jobs| && jobs[i].id.Some? && jobs[j].id.Some? ==> jobs[i].pair != jobs[j].pair
  }

  ghost predicate Entered(jobs: seq<Job>, p: Pair) {
    exists i :: 0 <= i < |jobs| && jobs[i].pair == p
  }

  /** The later manifest has every entry of the earlier one, with its pair, its id, and its
      final status if it had one. */
  ghost predicate Extends(earlier: seq<Job>, later: seq<Job>) {
    && |earlier| <= |later|
    && forall i :: 0 <= i < |earlier| ==>
         && later[i].pair == earlier[i].pair && later[i].id == earlier[i].id
         && (earlier[i].final.Some? ==> later[i].final == earlier[i].final)
  }

  function Outside(order: seq<Pair>, queue: seq<Pair>): set<Pair> {
    set p | p in order && p !in queue
  }

  ghost predicate Inv(order: seq<Pair>, s: State) {
    && Extends(s.saved, s.jobs) && |s.saved| == |s.jobs|
    && OneJobEach(s.jobs)
    && s.queue == Pending(order, Outside(order, s.queue))
    && Done(s.jobs) !! (set p | p in s.queue)
    && forall p :: p in order ==> p in s.queue || Entered(s.jobs, p)
  }

  lemma {:induction false} PendingElements(order: seq<Pair>, done: set<Pair>)
    ensures forall p :: p in Pending(order, done) <==> p in order && p !in done
  {
    if order != [] { PendingElements(order[1..], done); }
  }

  lemma {:induction false} PendingAgrees(order: seq<Pair>, a: set<Pair>, b: set<Pair>)
    requires forall p :: p in order ==> (p in a <==> p in b)
    ensures Pending(order, a) == Pending(order, b)
  {
    if order != [] { PendingAgrees(order[1..], a, b); }
  }

  lemma {:induction false} PendingNothingDone(order: seq<Pair>)
    ensures Pending(order, {}) == order
  {
    if order != [] { PendingNothingDone(order[1..]); }
  }

  /** Handling the first pending pair leaves the rest, in order. */
  lemma {:induction false} PendingTail(order: seq<Pair>, done: set<Pair>)
    requires Distinct(order) && Pending(order, done) != []
    ensures var q := Pending(order, done);
            q[0] !in q[1..] && Pending(order, done + {q[0]}) == q[1..]
  {
    var q := Pending(order, done);
    if order[0] in done {
      PendingTail(order[1..], done);
    } else {
      assert forall p :: p in order[1..] ==> p != order[0];
      PendingElements(order[1..], done);
      PendingAgrees(order[1..], done, done + {q[0]});
      assert q[1..] == Pending(order[1..], done);
    }
  }

  lemma {:induction false} PollExtends(jobs: seq<Job>, answers: Answers)
    ensures |Poll(jobs, answers)| == |jobs| && Extends(jobs, Poll(jobs, answers))
    ensures OpenCount(Poll(jobs, answers)) <= OpenCount(jobs)
    ensures forall i :: 0 <= i < |jobs| ==> Poll(jobs, answers)[i] == PollJob(jobs[i], answers)
  {
    if jobs != [] { PollExtends(jobs[1..], answers); }
  }

  lemma ExtendsIsTransitive(a: seq<Job>, b: seq<Job>, c: seq<Job>)
    requires Extends(a, b) && Extends(b, c)
    ensures Extends(a, c)
  {
  }

  /** What depends on the pairs and ids alone carries over to a poll. */
  lemma SameKeys(a: seq<Job>, b: seq<Job>)
    requires Extends(a, b) && |a| == |b|
    ensures OneJobEach(a) <==> OneJobEach(b)
    ensures Done(a) == Done(b)
    ensures forall p :: Entered(a, p) <==> Entered(b, p)
  {
    forall p ensures Entered(a, p) <==> Entered(b, p) {
      if Entered(a, p) { var i :| 0 <= i < |a| && a[i].pair == p; assert b[i].pair == p; }
      if Entered(b, p) { var i :| 0 <= i < |b| && b[i].pair == p; assert a[i].pair == p; }
    }
    forall p ensures p in Done(a) <==> p in Done(b) {
      if p in Done(a) {
        var i :| 0 <= i < |a| && a[i].id.Some? && a[i].pair == p;
        assert b[i].id.Some? && b[i].pair == p;
      }
      if p in Done(b) {
        var i :| 0 <= i < |b| && b[i].id.Some? && b[i].pair == p;
        assert a[i].id.Some? && a[i].pair == p;
      }
    }
  }

  lemma PolledKeepsInv(order: seq<Pair>, s: State, answers: Answers)
    requires Inv(order, s)
    ensures Inv(order, s.(jobs := Poll(s.jobs, answers)))
    ensures Inv(order, s.(jobs := Poll(s.jobs, answers), saved := Poll(s.jobs, answers)))
    ensures Extends(s.jobs, Poll(s.jobs, answers)) && Extends(s.saved, Poll(s.jobs, answers))
  {
    PollExtends(s.jobs, answers);
    SameKeys(s.jobs, Poll(s.jobs, answers));
    ExtendsIsTransitive(s.saved, s.jobs, Poll(s.jobs, answers));
  }

  lemma Append(jobs: seq<Job>, j: Job)
    ensures Extends(jobs, jobs + [j])
    ensures OneJobEach(jobs) && (j.id.Some? ==> j.pair !in Done(jobs)) ==> OneJobEach(jobs + [j])
    ensures Done(jobs + [j]) == if j.id.Some? then Done(jobs) + {j.pair} else Done(jobs)
    ensures Entered(jobs + [j], j.pair) && forall p :: Entered(jobs, p) ==> Entered(jobs + [j], p)
    ensures OpenCount(jobs + [j]) == OpenCount(jobs) + if Open(j) then 1 else 0
  {
    var more := jobs + [j];
    assert more[|jobs|] == j;
    forall p ensures p in Done(more) <==> p in Done(jobs) || (j.id.Some? && p == j.pair) {
      if p in Done(jobs) {
        var i :| 0 <= i < |jobs| && jobs[i].id.Some? && jobs[i].pair == p;
        assert more[i] == jobs[i];
      }
    }
    forall p | Entered(jobs, p) ensures Entered(more, p) {
      var i :| 0 <= i < |jobs| && jobs[i].pair == p;
      assert more[i] == jobs[i];
    }
    AppendCount(jobs, j);
  }

  lemma {:induction false} AppendCount(jobs: seq<Job>, j: Job)
    ensures OpenCount(jobs + [j]) == OpenCount(jobs) + if Open(j) then 1 else 0
  {
    if jobs == [] {
      assert jobs + [j] == [j] && [j][1..] == [];
    } else {
      AppendCount(jobs[1..], j);
      assert (jobs + [j])[1..] == jobs[1..] + [j];
    }
  }

  lemma EnterKeepsInv(order: seq<Pair>, s: State, outcome: Outcome)
    requires Distinct(order) && Inv(order, s) && s.queue != []
    ensures Inv(order, Enter(s, outcome)) && Extends(s.saved, Enter(s, outcome).saved)
  {
    hide Pending, Extends, OneJobEach, Done, Entered, OpenCount, Distinct;
    ExtendsItself(s.saved);
    if outcome != Blocked {
      var t, p := Enter(s, outcome), s.queue[0];
      var j := t.jobs[|s.jobs|];
      assert t.jobs == s.jobs + [j];
      Append(s.jobs, j);
      ExtendsIsTransitive(s.saved, s.jobs, t.jobs);
      ExtendsItself(t.jobs);
      PendingElements(order, Outside(order, s.queue));
      PendingTail(order, Outside(order, s.queue));
      assert p in order && p in s.queue;
      PendingAgrees(order, Outside(order, s.queue) + {p}, Outside(order, t.queue));
    }
  }

  lemma ExtendsItself(jobs: seq<Job>)
    ensures Extends(jobs, jobs)
  {
  }

  /** Starting from a manifest, fresh or saved: the queue is what has no job id. */
  lemma StartKeepsInv(order: seq<Pair>, saved: seq<Job>)
    requires OneJobEach(saved)
    ensures Inv(order, Start(order, saved))
  {
    var s := Start(order, saved);
    PendingElements(order, Done(saved));
    PendingAgrees(order, Done(saved), Outside(order, s.queue));
    forall p | p in order && p !in s.queue ensures Entered(saved, p) {
      var i :| 0 <= i < |saved| && saved[i].id.Some? && saved[i].pair == p;
    }
  }

  lemma NextKeepsInv(order: seq<Pair>, limit: nat, s: State, e: Event)
    requires Distinct(order) && Inv(order, s) && Next(order, limit, s, e).Some?
    ensures var t := Next(order, limit, s, e).value;
            Inv(order, t) && Extends(s.saved, t.saved)
  {
    hide Inv, Extends, Start, Poll, Enter, Distinct;
    match e {
      case Wait(answers) => PolledKeepsInv(order, s, answers);
      case Submit(answers, outcome) =>
        PolledKeepsInv(order, s, answers);
        EnterKeepsInv(order, s.(jobs := Poll(s.jobs, answers)), outcome);
      case SubmitAtOnce(outcome) => EnterKeepsInv(order, s, outcome);
      case Finish(answers) => PolledKeepsInv(order, s, answers);
      case Resume =>
        SavedIsSound(order, s);
        StartKeepsInv(order, s.saved);
        ExtendsItself(s.saved);
        StartSaves(order, s.saved);
    }
  }

  lemma SavedIsSound(order: seq<Pair>, s: State)
    requires Inv(order, s)
    ensures OneJobEach(s.saved) && Done(s.saved) == Done(s.jobs)
  {
    SameKeys(s.saved, s.jobs);
  }

  lemma StartSaves(order: seq<Pair>, saved: seq<Job>)
    ensures Start(order, saved).saved == saved
  {
  }

  /** Over any run with any answers, stops and resumptions, the invariant holds and the saved
      manifest only grows: no entry is lost, and no final status changes. */
  lemma {:induction false} RunKeepsInv(order: seq<Pair>, limit: nat, s: State, events: seq<Event>)
    requires Distinct(order) && Inv(order, s) && Run(order, limit, s, events).Some?
    ensures var t := Run(order, limit, s, events).value;
            Inv(order, t) && Extends(s.saved, t.saved)
    decreases |events|
  {
    hide Inv, Extends, Next, Distinct;
    if events == [] {
      ExtendsItself(s.saved);
    } else {
      NextKeepsInv(order, limit, s, events[0]);
      var t := Next(order, limit, s, events[0]).value;
      RunKeepsInv(order, limit, t, events[1..]);
      ExtendsIsTransitive(s.saved, t.saved, Run(order, limit, t, events[1..]).value.saved);
    }
  }

  // ----- what a run guarantees -----

  /** A run submits no pair twice, in any number of sittings, exactly when the order lists no
      pair twice. */
  lemma OneJobPerPairIff(order: seq<Pair>, limit: nat)
    ensures Distinct(order) <==>
            forall events: seq<Event> :: Run(order, limit, Start(order, []), events).Some? ==>
              OneJobEach(Run(order, limit, Start(order, []), events).value.jobs)
  {
    hide Run, Start, AllAtOnce, Distinct, Next;
    if Distinct(order) {
      NoJobs();
      StartKeepsInv(order, []);
      forall events: seq<Event> | Run(order, limit, Start(order, []), events).Some?
        ensures OneJobEach(Run(order, limit, Start(order, []), events).value.jobs)
      {
        RunKeepsInv(order, limit, Start(order, []), events);
      }
    } else {
      var events := AllAtOnce(order);
      SubmittedTwice(order, limit);
    }
  }

  /** An order with a repeated pair, submitted at once, gives the pair two jobs. */
  lemma SubmittedTwice(order: seq<Pair>, limit: nat)
    requires !Distinct(order)
    ensures var r := Run(order, limit, Start(order, []), AllAtOnce(order)); r.Some? && !OneJobEach(r.value.jobs)
  {
    hide Run, AllAtOnce, Pending, Done;
    PendingNothingDone(order);
    NothingDone();
    SubmitsEverything(order, limit, Start(order, []), order);
    var jobs := Run(order, limit, Start(order, []), AllAtOnce(order)).value.jobs;
    var i, j :| 0 <= i < j < |order| && order[i] == order[j];
    assert jobs[i].pair == jobs[j].pair;
  }

  lemma NoJobs()
    ensures OneJobEach([])
  {
  }

  lemma NothingDone()
    ensures Done([]) == {}
  {
  }

  function AllAtOnce(pairs: seq<Pair>): seq<Event> {
    if pairs == [] then [] else [SubmitAtOnce(Created(0))] + AllAtOnce(pairs[1..])
  }

  lemma {:induction false} SubmitsEverything(order: seq<Pair>, limit: nat, s: State, pairs: seq<Pair>)
    requires s.queue == pairs
    ensures var r := Run(order, limit, s, AllAtOnce(pairs));
            && r.Some? && |r.value.jobs| == |s.jobs| + |pairs|
            && (forall i :: 0 <= i < |s.jobs| ==> r.value.jobs[i] == s.jobs[i])
            && forall k :: |s.jobs| <= k < |s.jobs| + |pairs| ==>
                 r.value.jobs[k].id.Some? && r.value.jobs[k].pair == pairs[k - |s.jobs|]
    decreases |pairs|
  {
    if pairs != [] {
      var t := Enter(s, Created(0));
      SubmitsEverything(order, limit, t, pairs[1..]);
      assert AllAtOnce(pairs)[1..] == AllAtOnce(pairs[1..]);
      var r := Run(order, limit, s, AllAtOnce(pairs));
      assert r == Run(order, limit, t, AllAtOnce(pairs[1..]));
      assert r.value.jobs[|s.jobs|] == t.jobs[|s.jobs|];
      assert forall k :: 0 < k < |pairs| ==> pairs[1..][k - 1] == pairs[k];
    }
  }

  /** The order lists no pair twice when every wave shuffles tasks with distinct ids. */
  lemma {:induction false} WavesAreDistinct(waves: seq<seq<string>>, replicate: nat)
    requires forall w :: w in waves ==> Distinct(w)
    ensures Distinct(Waves(waves, replicate))
    ensures forall p :: p in Waves(waves, replicate) ==> p.replicate >= replicate
  {
    if waves != [] {
      assert waves[0] in waves;
      WavesAreDistinct(waves[1..], replicate + 1);
      var head := seq(|waves[0]|, i requires 0 <= i < |waves[0]| => Pair(waves[0][i], replicate));
      var rest := Waves(waves[1..], replicate + 1);
      assert Waves(waves, replicate) == head + rest;
      forall i, j | 0 <= i < j < |head + rest| ensures (head + rest)[i] != (head + rest)[j] {
        if j < |head| {
        } else if i < |head| {
          assert rest[j - |head|] in rest;
        } else {
          assert rest[i - |head|] != rest[j - |head|];
        }
      }
    }
  }

  /** A finished run has an entry for every pair, and no job is left open. */
  lemma FinishedRunIsComplete(order: seq<Pair>, limit: nat, events: seq<Event>, answers: Answers)
    requires Distinct(order) && Run(order, limit, Start(order, []), events + [Finish(answers)]).Some?
    ensures var jobs := Run(order, limit, Start(order, []), events + [Finish(answers)]).value.saved;
            && (forall p :: p in order ==> Entered(jobs, p))
            && forall i :: 0 <= i < |jobs| && jobs[i].id.Some? ==> jobs[i].final.Some?
  {
    var s := Start(order, []);
    StartKeepsInv(order, []);
    RunKeepsInv(order, limit, s, events + [Finish(answers)]);
    RunLast(order, limit, s, events, Finish(answers));
    var t := Run(order, limit, s, events + [Finish(answers)]).value;
    NoneOpen(t.saved);
  }

  lemma {:induction false} RunLast(order: seq<Pair>, limit: nat, s: State, events: seq<Event>, e: Event)
    requires Run(order, limit, s, events + [e]).Some?
    ensures Run(order, limit, s, events).Some?
    ensures Next(order, limit, Run(order, limit, s, events).value, e) == Run(order, limit, s, events + [e])
    decreases |events|
  {
    hide Next;
    if events == [] {
      assert events + [e] == [e] && [e][1..] == [];
    } else {
      assert (events + [e])[1..] == events[1..] + [e];
      RunLast(order, limit, Next(order, limit, s, events[0]).value, events[1..], e);
    }
  }

  // ----- the limit -----

  ghost predicate Throttled(events: seq<Event>) {
    forall e :: e in events ==> !e.SubmitAtOnce?
  }

  ghost predicate Below(limit: nat, s: State) {
    OpenCount(s.jobs) <= limit && OpenCount(s.saved) <= limit
  }

  lemma NextStaysBelow(order: seq<Pair>, limit: nat, s: State, e: Event)
    requires Below(limit, s) && !e.SubmitAtOnce? && Next(order, limit, s, e).Some?
    ensures Below(limit, Next(order, limit, s, e).value)
  {
    match e {
      case Wait(answers) => PollExtends(s.jobs, answers);
      case Submit(answers, outcome) =>
        var jobs := Poll(s.jobs, answers);
        AppendCount(jobs, Job(s.queue[0], None, None, None));
        if outcome.Created? { AppendCount(jobs, Job(s.queue[0], Some(outcome.id), None, None)); }
      case Finish(answers) =>
      case Resume =>
    }
  }

  /** A throttled run never has more jobs open than the limit, in memory or as saved, over any
      number of sittings. */
  lemma {:induction false} OpenJobsStayBelow(order: seq<Pair>, limit: nat, s: State, events: seq<Event>)
    requires Below(limit, s) && Throttled(events) && Run(order, limit, s, events).Some?
    ensures Below(limit, Run(order, limit, s, events).value)
    decreases |events|
  {
    hide Next, Below;
    if events != [] {
      assert events[0] in events;
      NextStaysBelow(order, limit, s, events[0]);
      OpenJobsStayBelow(order, limit, Next(order, limit, s, events[0]).value, events[1..]);
    }
  }

  // ----- resuming -----

  /** Pairs refused since the sitting began. */
  ghost predicate RefusedSince(s0: State, s: State) {
    exists i :: |s0.jobs| <= i < |s.jobs| && s.jobs[i].id.None?
  }

  /** One sitting: what it entered, in order, was the head of its queue. */
  ghost predicate Sitting(order: seq<Pair>, s0: State, s: State) {
    && |s.jobs| == |s.saved| && Extends(s0.saved, s.saved) && Extends(s.saved, s.jobs)
    && |s0.jobs| <= |s.jobs| <= |s0.jobs| + |s0.queue|
    && s.queue == s0.queue[|s.jobs| - |s0.jobs|..]
    && forall i :: |s0.jobs| <= i < |s.jobs| ==> s.jobs[i].pair == s0.queue[i - |s0.jobs|]
  }

  lemma EnterSits(order: seq<Pair>, s0: State, s: State, outcome: Outcome)
    requires |s0.jobs| == |s0.saved| && Sitting(order, s0, s) && s.queue != []
    ensures Sitting(order, s0, Enter(s, outcome))
  {
    if outcome != Blocked {
      var t := Enter(s, outcome);
      assert t.jobs[..|s.jobs|] == s.jobs;
      assert s.queue[0] == s0.queue[|s.jobs| - |s0.jobs|];
    }
  }

  lemma PolledSits(order: seq<Pair>, s0: State, s: State, answers: Answers)
    requires |s0.jobs| == |s0.saved| && Sitting(order, s0, s)
    ensures Sitting(order, s0, s.(jobs := Poll(s.jobs, answers)))
    ensures Sitting(order, s0, s.(jobs := Poll(s.jobs, answers), saved := Poll(s.jobs, answers)))
  {
    hide Poll;
    ExtendsItself(Poll(s.jobs, answers));
    PollExtends(s.jobs, answers);
    ExtendsIsTransitive(s.saved, s.jobs, Poll(s.jobs, answers));
    ExtendsIsTransitive(s0.saved, s.saved, Poll(s.jobs, answers));
  }

  lemma {:induction false} SittingRuns(order: seq<Pair>, limit: nat, s0: State, s: State, events: seq<Event>)
    requires |s0.jobs| == |s0.saved| && Sitting(order, s0, s) && Resume !in events
    requires Run(order, limit, s, events).Some?
    ensures Sitting(order, s0, Run(order, limit, s, events).value)
    decreases |events|
  {
    hide Sitting, Poll, Enter;
    if events != [] {
      var t := Next(order, limit, s, events[0]).value;
      assert Sitting(order, s0, t) by {
        match events[0] {
          case Wait(answers) => PolledSits(order, s0, s, answers);
          case Submit(answers, outcome) =>
            PolledSits(order, s0, s, answers);
            EnterSits(order, s0, s.(jobs := Poll(s.jobs, answers)), outcome);
          case SubmitAtOnce(outcome) => EnterSits(order, s0, s, outcome);
          case Finish(answers) => PolledSits(order, s0, s, answers);
          case Resume =>
        }
      }
      SittingRuns(order, limit, s0, t, events[1..]);
    }
  }

  /** A resumed run takes up exactly the queue that was left, in the same order, unless a
      submission was refused: those pairs are tried again. */
  lemma ResumesWhereItStoppedIff(order: seq<Pair>, limit: nat, saved: seq<Job>, events: seq<Event>)
    requires Distinct(order) && OneJobEach(saved) && Resume !in events
    requires Run(order, limit, Start(order, saved), events).Some?
    ensures var s := Run(order, limit, Start(order, saved), events).value;
            Start(order, s.saved).queue == s.queue <==> !RefusedSince(Start(order, saved), s)
  {
    hide Pending, Run, Next, Inv, Extends, Sitting, OneJobEach, Distinct, Done;
    var s0 := Start(order, saved);
    StartKeepsInv(order, saved);
    StartSits(order, saved);
    RunKeepsInv(order, limit, s0, events);
    SittingRuns(order, limit, s0, s0, events);
    var s := Run(order, limit, s0, events).value;
    SavedIsSound(order, s);
    if RefusedSince(s0, s) {
      var i :| |s0.jobs| <= i < |s.jobs| && s.jobs[i].id.None?;
      RefusedIsRetried(order, s0, s, i);
    } else {
      NothingRefused(order, s0, s);
    }
  }

  lemma StartSits(order: seq<Pair>, saved: seq<Job>)
    ensures Sitting(order, Start(order, saved), Start(order, saved))
  {
    var s := Start(order, saved);
    assert s.queue[0..] == s.queue;
  }

  lemma {:induction false} PendingIsDistinct(order: seq<Pair>, done: set<Pair>)
    requires Distinct(order)
    ensures Distinct(Pending(order, done))
  {
    if order != [] {
      PendingIsDistinct(order[1..], done);
      PendingElements(order[1..], done);
      assert forall p :: p in order[1..] ==> p != order[0];
    }
  }

  lemma RefusedIsRetried(order: seq<Pair>, s0: State, s: State, i: nat)
    requires Distinct(order) && Sitting(order, s0, s) && s0 == Start(order, s0.jobs)
    requires |s0.jobs| <= i < |s.jobs| && s.jobs[i].id.None?
    ensures s.jobs[i].pair in Pending(order, Done(s.jobs)) && s.jobs[i].pair !in s.queue
  {
    hide Pending, Done, Distinct;
    var p, q := s.jobs[i].pair, s0.queue;
    ExtendsIsTransitive(s0.saved, s.saved, s.jobs);
    PendingIsDistinct(order, Done(s0.jobs));
    PendingElements(order, Done(s0.jobs));
    PendingElements(order, Done(s.jobs));
    var n := |s.jobs| - |s0.jobs|;
    assert p == q[i - |s0.jobs|] && p in q;
    assert p !in Done(s0.jobs);
    forall k | n <= k < |q| ensures q[k] != p {
      DifferentPlaces(q, k, i - |s0.jobs|);
    }
    forall k | 0 <= k < |s.jobs| && s.jobs[k].id.Some? ensures s.jobs[k].pair != p {
      if k < |s0.jobs| {
        HasJob(s0.jobs, k);
      } else {
        DifferentPlaces(q, k - |s0.jobs|, i - |s0.jobs|);
      }
    }
    NoJob(s.jobs, p);
  }

  lemma NoJob(jobs: seq<Job>, p: Pair)
    requires forall k :: 0 <= k < |jobs| && jobs[k].id.Some? ==> jobs[k].pair != p
    ensures p !in Done(jobs)
  {
  }

  lemma HasJob(jobs: seq<Job>, k: nat)
    requires k < |jobs| && jobs[k].id.Some?
    ensures jobs[k].pair in Done(jobs)
  {
  }

  lemma DifferentPlaces(q: seq<Pair>, a: nat, b: nat)
    requires Distinct(q) && a < |q| && b < |q| && a != b
    ensures q[a] != q[b]
  {
  }

  lemma NothingRefused(order: seq<Pair>, s0: State, s: State)
    requires Inv(order, s) && Sitting(order, s0, s) && s0 == Start(order, s0.jobs) && !RefusedSince(s0, s)
    ensures Pending(order, Done(s.jobs)) == s.queue
  {
    var n := |s.jobs| - |s0.jobs|;
    PendingElements(order, Done(s0.jobs));
    forall p | p in order && p !in s.queue ensures p in Done(s.jobs) {
      if p in Done(s0.jobs) {
        var k :| 0 <= k < |s0.jobs| && s0.jobs[k].id.Some? && s0.jobs[k].pair == p;
        HasJob(s.jobs, k);
      } else {
        var k :| 0 <= k < |s0.queue| && s0.queue[k] == p;
        BeforeCut(s0.queue, n, k);
        HasJob(s.jobs, |s0.jobs| + k);
      }
    }
    PendingAgrees(order, Done(s.jobs), Outside(order, s.queue));
  }

  lemma BeforeCut(q: seq<Pair>, n: nat, k: nat)
    requires n <= |q| && k < |q| && q[k] !in q[n..]
    ensures k < n
  {
    assert forall j :: n <= j < |q| ==> q[n..][j - n] == q[j];
  }
}
