/**
 What the server's answer about a run does to its chain and its arm: a finished run is followed
 by the next task, a cancelled one stops its chain for good and the arm moves on.
 */
module CampaignAnswers {
  import opened Campaign
  import opened CampaignRuns

  /** The chain at `k` has its turn: all before it are over. */
  ghost predicate HasTurn(lane: seq<Chain>, k: nat) {
    k < |lane| && forall i :: 0 <= i < k ==> Settled(lane[i])
  }

  /** The run the chain waits for. */
  ghost predicate WaitsFor(c: Chain, run: nat) {
    c.steps != [] && c.steps[|c.steps| - 1].final == "" && c.steps[|c.steps| - 1].run == run
  }

  /** `c'` is `c` but for the status of its last step. */
  ghost predicate Ends(c: Chain, c': Chain, status: string) {
    && c.steps != [] && |c'.steps| == |c.steps|
    && c'.order == c.order && c'.project == c.project && c'.abandoned == c.abandoned
    && (forall i :: 0 <= i < |c.steps| - 1 ==> c'.steps[i] == c.steps[i])
    && var last, last' := c.steps[|c.steps| - 1], c'.steps[|c.steps| - 1];
       last'.final == status && last'.task == last.task && last'.run == last.run && last'.project == last.project
  }

  ghost predicate NoneCancelled(c: Chain) {
    forall i :: 0 <= i < |c.steps| ==> c.steps[i].final != "run_cancelled"
  }

  /** `c'` is `c` with one further run: of its next task, in its own project or, if it has none, in one
      that the server creates. */
  ghost predicate Advances(c: Chain, c': Chain, server: Server, server': Server) {
    && |c.steps| < |c.order| && |c'.steps| == |c.steps| + 1
    && c'.order == c.order && c'.abandoned == c.abandoned
    && (forall i :: 0 <= i < |c.steps| ==> c'.steps[i] == c.steps[i])
    && var step := c'.steps[|c.steps|];
       && step.task == c.order[|c.steps|] && step.final == ""
       && step.run == server.nextRun && server'.nextRun == server.nextRun + 1
       && c'.project == Some(step.project)
       && (if c.project.Some? then c'.project == c.project && server'.nextProject == server.nextProject
           else step.project == server.nextProject && server'.nextProject == server.nextProject + 1)
  }

  /** A tick passes over what is settled. */
  lemma {:induction false} TurnPasses(lane: seq<Chain>, k: nat, answers: Answers, server: Server)
    requires HasTurn(lane, k)
    ensures var t, rest := TickLane(lane, answers, server), TickLane(lane[k..], answers, server);
            t.lane == lane[..k] + rest.lane && t.server == rest.server && t.finished == rest.finished
    decreases k
  {
    hide Settled, TickLane;
    if k == 0 {
      assert lane[0..] == lane && lane[..0] == [];
      var t := TickLane(lane, answers, server);
      assert [] + t.lane == t.lane;
    } else {
      SettledIsPassed(lane, answers, server);
      TurnPasses(lane[1..], k - 1, answers, server);
      var rest := TickLane(lane[k..], answers, server);
      assert lane[1..][k - 1..] == lane[k..] && lane[..k] == [lane[0]] + lane[1..][..k - 1];
      assert [lane[0]] + (lane[1..][..k - 1] + rest.lane) == lane[..k] + rest.lane;
    }
  }

  lemma SettledIsPassed(lane: seq<Chain>, answers: Answers, server: Server)
    requires lane != [] && Settled(lane[0])
    ensures var t, rest := TickLane(lane, answers, server), TickLane(lane[1..], answers, server);
            t == Ticked([lane[0]] + rest.lane, rest.server, rest.finished)
  {
  }

  /** The chains after `k` are ticked as an arm of their own. */
  ghost predicate MovesOn(lane: seq<Chain>, t: Ticked, k: nat, answers: Answers, server: Server)
    requires k < |lane| && k < |t.lane|
  {
    TickLane(lane[k + 1..], answers, server) == Ticked(t.lane[k + 1..], t.server, t.finished)
  }

  lemma {:induction false} TickKeepsLength(lane: seq<Chain>, answers: Answers, server: Server)
    ensures |TickLane(lane, answers, server).lane| == |lane|
  {
    if lane != [] { TickKeepsLength(lane[1..], answers, server); }
  }

  lemma PolledRun(c: Chain, answers: Answers, run: nat)
    requires WaitsFor(c, run)
    ensures match answers(run)
            case Pending => Poll(c, answers) == c && Open(c)
            case Cancelled(_) => Ends(c, Poll(c, answers), "run_cancelled") && !NoneCancelled(Poll(c, answers))
            case Finished(final) => Ends(c, Poll(c, answers), if final == "" then "done" else final)
  {
    if answers(run).Cancelled? { assert Poll(c, answers).steps[|c.steps| - 1].final == "run_cancelled"; }
  }

  /** What a tick does with the first chain of an arm, once its run has ended. */
  lemma HeadTick(lane: seq<Chain>, answers: Answers, server: Server)
    requires lane != [] && !Open(Poll(lane[0], answers))
    ensures var ended, t := Poll(lane[0], answers), TickLane(lane, answers, server);
            && t.lane != []
            && if |ended.steps| < |ended.order| && NoneCancelled(ended) then
                 !t.finished && Advances(ended, t.lane[0], server, t.server) && t.lane[1..] == lane[1..]
               else t.lane[0] == ended && MovesOn(lane, t, 0, answers, server)
  {
    hide Poll, Open, Submit;
    var c := Poll(lane[0], answers);
    if NoneCancelled(c) && |c.steps| < |c.order| { SubmitAdvances(c, server); }
  }

  lemma SubmitAdvances(c: Chain, server: Server)
    requires |c.steps| < |c.order|
    ensures Advances(c, Submit(c, server).0, server, Submit(c, server).1)
  {
  }

  /** The chain that has its turn is the first of an arm. */
  lemma AtTurn(lane: seq<Chain>, k: nat, answers: Answers, server: Server)
    requires HasTurn(lane, k)
    ensures var t, rest := TickLane(lane, answers, server), TickLane(lane[k..], answers, server);
            && |t.lane| == |lane| && |rest.lane| == |lane| - k && lane[k..][0] == lane[k]
            && t.server == rest.server && t.finished == rest.finished
            && (forall i :: 0 <= i < k ==> t.lane[i] == lane[i])
            && t.lane[k] == rest.lane[0] && t.lane[k + 1..] == rest.lane[1..]
            && lane[k + 1..] == lane[k..][1..]
  {
    hide TickLane, Settled;
    TickKeepsLength(lane, answers, server);
    TickKeepsLength(lane[k..], answers, server);
    TurnPasses(lane, k, answers, server);
  }

  /** Nothing to wait for: the chain that has its turn gets its next task, and only it changes. */
  lemma IdleChainAdvances(lane: seq<Chain>, k: nat, answers: Answers, server: Server)
    requires HasTurn(lane, k) && !Open(lane[k]) && NoneCancelled(lane[k]) && |lane[k].steps| < |lane[k].order|
    ensures var t := TickLane(lane, answers, server);
            && !t.finished && |t.lane| == |lane| && Advances(lane[k], t.lane[k], server, t.server)
            && forall i :: 0 <= i < |lane| && i != k ==> t.lane[i] == lane[i]
  {
    hide TickLane, Settled, Advances;
    var t := TickLane(lane, answers, server);
    AtTurn(lane, k, answers, server);
    HeadTick(lane[k..], answers, server);
    forall i | k < i < |lane| ensures t.lane[i] == lane[i] {
      assert t.lane[k + 1..][i - k - 1] == lane[k + 1..][i - k - 1];
    }
  }

  /** A finished run takes the status of the server's ledger, or "done" without one, and the same
      tick submits the chain's next task, unless none is left or the chain was stopped. */
  lemma FinishedRunAdvances(lane: seq<Chain>, k: nat, answers: Answers, server: Server, run: nat, final: string)
    returns (ended: Chain)
    requires HasTurn(lane, k) && WaitsFor(lane[k], run) && answers(run) == Finished(final)
    ensures Ends(lane[k], ended, if final == "" then "done" else final)
    ensures var t := TickLane(lane, answers, server);
            && |t.lane| == |lane| && (forall i :: 0 <= i < k ==> t.lane[i] == lane[i])
            && (if |ended.steps| < |ended.order| && NoneCancelled(ended) then
                  !t.finished && Advances(ended, t.lane[k], server, t.server) && t.lane[k + 1..] == lane[k + 1..]
                else t.lane[k] == ended && MovesOn(lane, t, k, answers, server))
  {
    hide TickLane, Settled, Advances, WaitsFor, NoneCancelled, Poll;
    ended := Poll(lane[k], answers);
    PolledRun(lane[k], answers, run);
    AtTurn(lane, k, answers, server);
    HeadTick(lane[k..], answers, server);
  }

  /** A cancelled run stops its chain, and the tick moves on to the chains after it. */
  lemma CancelledRunStops(lane: seq<Chain>, k: nat, answers: Answers, server: Server, run: nat)
    requires HasTurn(lane, k) && WaitsFor(lane[k], run) && answers(run).Cancelled?
    ensures var t := TickLane(lane, answers, server);
            && |t.lane| == |lane| && (forall i :: 0 <= i < k ==> t.lane[i] == lane[i])
            && Ends(lane[k], t.lane[k], "run_cancelled") && Settled(t.lane[k])
            && MovesOn(lane, t, k, answers, server)
  {
    hide TickLane, Advances, WaitsFor, Poll;
    PolledRun(lane[k], answers, run);
    AtTurn(lane, k, answers, server);
    HeadTick(lane[k..], answers, server);
  }

  /** A run that is still going leaves the whole arm as it was. */
  lemma PendingRunHolds(lane: seq<Chain>, k: nat, answers: Answers, server: Server, run: nat)
    requires HasTurn(lane, k) && WaitsFor(lane[k], run) && answers(run).Pending?
    ensures TickLane(lane, answers, server) == Ticked(lane, server, false)
  {
    hide TickLane, Settled, WaitsFor, Poll, Open;
    PolledRun(lane[k], answers, run);
    AtTurn(lane, k, answers, server);
    WaitingLane(lane[k..], answers, server);
    assert TickLane(lane, answers, server).lane == lane;
  }

  lemma WaitingLane(lane: seq<Chain>, answers: Answers, server: Server)
    requires lane != [] && Open(lane[0]) && Poll(lane[0], answers) == lane[0]
    ensures TickLane(lane, answers, server) == Ticked(lane, server, false)
  {
    assert lane == [lane[0]] + lane[1..];
  }

  /** A restart is refused exactly for a run still going; otherwise the steps are set aside with
      their project, the last one closed by what the server says, and the chain starts afresh. */
  lemma RestartIff(c: Chain, answer: Answer)
    ensures RestartChain(c, answer).None?
       <==> c.steps != [] && c.steps[|c.steps| - 1].final == "" && answer.Pending?
    ensures RestartChain(c, answer).Some? ==>
              var c' := RestartChain(c, answer).value;
              && c'.order == c.order && c'.project == None && c'.steps == []
              && |c'.abandoned| == |c.abandoned| + 1
              && c'.abandoned[..|c.abandoned|] == c.abandoned
              && var aside := Chain(c.order, c'.abandoned[|c.abandoned|].project, c'.abandoned[|c.abandoned|].steps,
                                    c.abandoned);
                 if c.steps == [] || c.steps[|c.steps| - 1].final != "" then aside == c
                 else Ends(c, aside, if answer.final != "" then answer.final
                                     else if answer.Cancelled? then "cancelled" else "done")
  {
  }

  // ----- whole campaigns -----

  lemma {:induction false} TickLeavesSettled(lane: seq<Chain>, k: nat, answers: Answers, server: Server)
    requires k < |lane| && Settled(lane[k])
    ensures var t := TickLane(lane, answers, server); |t.lane| == |lane| && t.lane[k] == lane[k]
    decreases k
  {
    TickKeepsLength(lane, answers, server);
    if k > 0 && Settled(Poll(lane[0], answers)) { TickLeavesSettled(lane[1..], k - 1, answers, server); }
  }

  /** A tick of a campaign is a tick of every arm. */
  lemma {:induction false} EveryArmTicks(arms: seq<seq<Chain>>, a: nat, answers: Answers, server: Server)
    returns (at: Server)
    requires a < |arms|
    ensures var (st, finished) := TickArms(arms, answers, server);
            && |st.arms| == |arms| && st.arms[a] == TickLane(arms[a], answers, at).lane
            && (finished ==> TickLane(arms[a], answers, at).finished)
    decreases a
  {
    var first := TickLane(arms[0], answers, server);
    ArmsKept(arms, answers, server);
    if a == 0 {
      at := server;
    } else {
      at := EveryArmTicks(arms[1..], a - 1, answers, first.server);
    }
  }

  lemma {:induction false} ArmsKept(arms: seq<seq<Chain>>, answers: Answers, server: Server)
    ensures |TickArms(arms, answers, server).0.arms| == |arms|
  {
    if arms != [] { ArmsKept(arms[1..], answers, TickLane(arms[0], answers, server).server); }
  }

  /** Once its run was cancelled, or its tasks are done, a chain never changes again — whatever the
      server answers, over any number of ticks and restarts of other chains. */
  lemma {:induction false} SettledForGood(st: State, events: seq<Event>, a: nat, k: nat)
    requires a < |st.arms| && k < |st.arms[a]| && Settled(st.arms[a][k])
    requires forall e :: e in events && e.Restart? ==> e.arm != a || e.chain != k
    ensures var st' := Run(st, events);
            a < |st'.arms| && k < |st'.arms[a]| && st'.arms[a][k] == st.arms[a][k]
    decreases |events|
  {
    if events != [] {
      assert events[0] in events;
      if events[0].Tick? {
        var at := EveryArmTicks(st.arms, a, events[0].answers, st.server);
        TickLeavesSettled(st.arms[a], k, events[0].answers, at);
      }
      SettledForGood(Next(st, events[0]), events[1..], a, k);
    }
  }

  /** No chain, current or set aside, ever has a run after a cancelled one. */
  ghost predicate EndsAtCancelled(steps: seq<Step>) {
    forall i :: 0 <= i < |steps| - 1 ==> steps[i].final != "run_cancelled"
  }

  ghost predicate StopsAtCancelled(c: Chain) {
    && EndsAtCancelled(c.steps)
    && forall k :: 0 <= k < |c.abandoned| ==> EndsAtCancelled(c.abandoned[k].steps)
  }

  ghost predicate AllStop(arms: seq<seq<Chain>>) {
    forall a, k :: 0 <= a < |arms| && 0 <= k < |arms[a]| ==> StopsAtCancelled(arms[a][k])
  }

  lemma {:induction false} TickStops(lane: seq<Chain>, answers: Answers, server: Server)
    requires forall k :: 0 <= k < |lane| ==> StopsAtCancelled(lane[k])
    ensures var t := TickLane(lane, answers, server);
            |t.lane| == |lane| && forall k :: 0 <= k < |t.lane| ==> StopsAtCancelled(t.lane[k])
  {
    TickKeepsLength(lane, answers, server);
    if lane != [] {
      var c := Poll(lane[0], answers);
      assert StopsAtCancelled(lane[0]);
      assert StopsAtCancelled(c);
      if Settled(c) { TickStops(lane[1..], answers, server); }
    }
  }

  lemma {:induction false} NothingFollowsCancelled(st: State, events: seq<Event>)
    requires AllStop(st.arms)
    ensures AllStop(Run(st, events).arms)
    decreases |events|
  {
    if events != [] {
      var st' := Next(st, events[0]);
      if events[0].Tick? {
        ArmsKept(st.arms, events[0].answers, st.server);
        forall a | 0 <= a < |st'.arms| ensures forall k :: 0 <= k < |st'.arms[a]| ==> StopsAtCancelled(st'.arms[a][k]) {
          var at := EveryArmTicks(st.arms, a, events[0].answers, st.server);
          TickStops(st.arms[a], events[0].answers, at);
        }
      }
      NothingFollowsCancelled(st', events[1..]);
    }
  }
}
