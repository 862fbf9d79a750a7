/**
 The chain campaign: arms of chains of steps, advanced by ticks against a server
 that may answer anything, and restarted by hand.
 */
module Campaign {

  datatype Option<+T> = None | Some(value: T)

  /** A submitted run; `final` is empty while the run is open. */
  datatype Step = Step(task: string, run: nat, project: nat, final: string)

  datatype Attempt = Attempt(project: Option<nat>, steps: seq<Step>)

  datatype Chain = Chain(order: seq<string>, project: Option<nat>, steps: seq<Step>, abandoned: seq<Attempt>)

  /** What the server says about a run; `final` is the ledger's status, possibly empty. */
  datatype Answer = Pending | Cancelled(final: string) | Finished(final: string)

  type Answers = nat -> Answer

  /** The server hands out fresh run and project ids. */
  datatype Server = Server(nextRun: nat, nextProject: nat)

  function Or(a: string, b: string): string {
    if a != "" then a else b
  }

  predicate Open(c: Chain) {
    c.steps != [] && c.steps[|c.steps| - 1].final == ""
  }

  predicate RunCancelled(c: Chain) {
    exists i :: 0 <= i < |c.steps| && c.steps[i].final == "run_cancelled"
  }

  function Close(c: Chain, final: string): Chain
    requires c.steps != []
  {
    var n := |c.steps| - 1;
    c.(steps := c.steps[n := c.steps[n].(final := final)])
  }

  /** Ask the server about the open step, if there is one. */
  function Poll(c: Chain, answers: Answers): Chain {
    if !Open(c) then c
    else
      match answers(c.steps[|c.steps| - 1].run)
      case Pending => c
      case Cancelled(_) => Close(c, "run_cancelled")
      case Finished(final) => Close(c, Or(final, "done"))
  }

  /** The next step of the chain, in its project or, on a first step, a new one. */
  function Submit(c: Chain, server: Server): (Chain, Server)
    requires |c.steps| < |c.order|
  {
    var project := if c.project.Some? then c.project.value else server.nextProject;
    var step := Step(c.order[|c.steps|], server.nextRun, project, "");
    (c.(project := Some(project), steps := c.steps + [step]),
     Server(server.nextRun + 1, if c.project.Some? then server.nextProject else server.nextProject + 1))
  }

  datatype Ticked = Ticked(lane: seq<Chain>, server: Server, finished: bool)

  /** One lane advances by at most one step: the first chain that is open or unfinished. */
  function TickLane(lane: seq<Chain>, answers: Answers, server: Server): Ticked {
    if lane == [] then Ticked([], server, true)
    else
      var c := Poll(lane[0], answers);
      if Open(c) then Ticked([c] + lane[1..], server, false)
      else if !RunCancelled(c) && |c.steps| < |c.order| then
        var (c', server') := Submit(c, server);
        Ticked([c'] + lane[1..], server', false)
      else
        var rest := TickLane(lane[1..], answers, server);
        Ticked([c] + rest.lane, rest.server, rest.finished)
  }

  datatype State = State(arms: seq<seq<Chain>>, server: Server)

  function TickArms(arms: seq<seq<Chain>>, answers: Answers, server: Server): (State, bool) {
    if arms == [] then (State([], server), true)
    else
      var first := TickLane(arms[0], answers, server);
      var (rest, finished) := TickArms(arms[1..], answers, first.server);
      (State([first.lane] + rest.arms, rest.server), first.finished && finished)
  }

  /** Set a chain aside; None when its open run is neither done nor cancelled. */
  function RestartChain(c: Chain, answer: Answer): Option<Chain> {
    if Open(c) && answer.Pending? then None
    else
      var closed := if !Open(c) then c
                    else Close(c, Or(answer.final, if answer.Cancelled? then "cancelled" else "done"));
      Some(Chain(c.order, None, [], c.abandoned + [Attempt(c.project, closed.steps)]))
  }

  datatype Event = Tick(answers: Answers) | Restart(arm: nat, chain: nat, answer: Answer)

  predicate CanRestart(st: State, e: Event)
    requires e.Restart?
  {
    e.arm < |st.arms| && e.chain < |st.arms[e.arm]|
    && RestartChain(st.arms[e.arm][e.chain], e.answer).Some?
  }

  function Next(st: State, e: Event): State {
    match e
    case Tick(answers) => TickArms(st.arms, answers, st.server).0
    case Restart(arm, chain, answer) =>
      if CanRestart(st, e) then
        var c := RestartChain(st.arms[arm][chain], answer).value;
        st.(arms := st.arms[arm := st.arms[arm][chain := c]])
      else st
  }

  function Run(st: State, events: seq<Event>): State
    decreases |events|
  {
    if events == [] then st else Run(Next(st, events[0]), events[1..])
  }

  ghost predicate Fresh(st: State) {
    && st.server == Server(0, 0)
    && forall a, i :: 0 <= a < |st.arms| && 0 <= i < |st.arms[a]| ==>
         var c := st.arms[a][i]; c.project.None? && c.steps == [] && c.abandoned == []
  }

  // ----- what every tick and restart keeps, chain by chain -----

  ghost predicate Ran(order: seq<string>, project: Option<nat>, steps: seq<Step>) {
    && |steps| <= |order|
    && (steps != [] ==> project.Some?)
    && (forall i :: 0 <= i < |steps| ==> steps[i].task == order[i] && steps[i].project == project.value)
    && (forall i :: 0 <= i < |steps| - 1 ==> steps[i].final != "")
  }

  /** The tasks run are a prefix of the order, in one project, and only the last may be open. */
  ghost predicate ChainOK(c: Chain) {
    && Ran(c.order, c.project, c.steps)
    && forall k :: 0 <= k < |c.abandoned| ==> Ran(c.order, c.abandoned[k].project, c.abandoned[k].steps)
  }

  /** Complete, or stopped by a cancelled run. */
  predicate Settled(c: Chain) {
    !Open(c) && (RunCancelled(c) || |c.steps| >= |c.order|)
  }

  ghost predicate LaneOK(lane: seq<Chain>) {
    forall i :: 0 <= i < |lane| ==> ChainOK(lane[i])
  }

  /** A chain is open only after every chain before it is settled. */
  ghost predicate InTurn(lane: seq<Chain>) {
    forall i, j :: 0 <= i < j < |lane| && Open(lane[j]) ==> Settled(lane[i])
  }

  ghost predicate AtMostOneOpen(lane: seq<Chain>) {
    forall i, j :: 0 <= i < j < |lane| ==> !(Open(lane[i]) && Open(lane[j]))
  }

  lemma TickedChainOK(c: Chain, answers: Answers, server: Server)
    requires ChainOK(c)
    ensures ChainOK(Poll(c, answers))
    ensures var p := Poll(c, answers); !Open(p) && |p.steps| < |p.order| ==> ChainOK(Submit(p, server).0)
  {
  }

  lemma {:induction false} TickKeepsLane(lane: seq<Chain>, answers: Answers, server: Server)
    requires LaneOK(lane)
    ensures LaneOK(TickLane(lane, answers, server).lane)
    ensures |TickLane(lane, answers, server).lane| == |lane|
  {
    if lane != [] {
      TickedChainOK(lane[0], answers, server);
      TickKeepsLane(lane[1..], answers, server);
    }
  }

  /** A tick moves on only past settled chains, so it keeps the turn. */
  lemma {:induction false} TickKeepsTurn(lane: seq<Chain>, answers: Answers, server: Server)
    requires InTurn(lane)
    ensures InTurn(TickLane(lane, answers, server).lane)
  {
    if lane != [] {
      var c := Poll(lane[0], answers);
      var lane' := TickLane(lane, answers, server).lane;
      if Settled(c) {
        TickKeepsTurn(lane[1..], answers, server);
        forall i, j | 0 <= i < j < |lane'| && Open(lane'[j]) ensures Settled(lane'[i]) {
          var rest := TickLane(lane[1..], answers, server).lane;
          assert lane'[j] == rest[j - 1];
          if i > 0 { assert lane'[i] == rest[i - 1]; }
        }
      } else {
        assert !Settled(lane[0]);
        forall j | 0 < j < |lane'| ensures !Open(lane'[j]) { assert lane'[j] == lane[j]; }
      }
    }
  }

  /** A restart is harmless exactly when no later chain of the arm is open. */
  lemma RestartKeepsTurnIff(lane: seq<Chain>, i: nat, answer: Answer)
    requires InTurn(lane) && i < |lane| && lane[i].order != [] && RestartChain(lane[i], answer).Some?
    ensures InTurn(lane[i := RestartChain(lane[i], answer).value])
       <==> forall j :: i < j < |lane| ==> !Open(lane[j])
  {
    var lane' := lane[i := RestartChain(lane[i], answer).value];
    if j :| i < j < |lane| && Open(lane[j]) {
      assert Open(lane'[j]) && !Settled(lane'[i]);
    }
  }

  /** Otherwise the very next tick, whatever the server answers, opens a second step. */
  lemma {:induction false} RestartBelowOpenChainOpensTwo(lane: seq<Chain>, i: nat, j: nat, answer: Answer,
                                                        answers: Answers, server: Server)
    requires InTurn(lane) && i < j < |lane| && Open(lane[j]) && lane[i].order != []
    requires RestartChain(lane[i], answer).Some?
    ensures var lane' := lane[i := RestartChain(lane[i], answer).value];
            var after := TickLane(lane', answers, server).lane;
            |after| == |lane| && Open(after[i]) && Open(after[j])
    decreases i
  {
    var lane' := lane[i := RestartChain(lane[i], answer).value];
    if i > 0 {
      assert Settled(lane[0]);
      assert lane'[1..] == lane[1..][i - 1 := RestartChain(lane[i], answer).value];
      RestartBelowOpenChainOpensTwo(lane[1..], i - 1, j - 1, answer, answers, server);
    } else {
      var c := lane'[0];
      assert Submit(c, server).0.steps == [Submit(c, server).0.steps[0]];
    }
  }

  // ----- progress -----

  ghost predicate AllSettled(lane: seq<Chain>) {
    forall i :: 0 <= i < |lane| ==> Settled(lane[i])
  }

  /** Settled chains, then a lane's one open chain or its end. */
  ghost predicate Waiting(lane: seq<Chain>) {
    lane != [] ==> Open(lane[0]) || (Settled(lane[0]) && Waiting(lane[1..]))
  }

  /** A lane reports finished exactly when nothing is left to do; otherwise it waits on a run. */
  lemma {:induction false} FinishedIffSettled(lane: seq<Chain>, answers: Answers, server: Server)
    ensures var t := TickLane(lane, answers, server);
            && (t.finished <==> AllSettled(t.lane))
            && (t.finished ==> t.server == server)
            && Waiting(t.lane)
  {
    if lane != [] {
      var c := Poll(lane[0], answers);
      var t := TickLane(lane, answers, server);
      if Settled(c) {
        var rest := TickLane(lane[1..], answers, server);
        FinishedIffSettled(lane[1..], answers, server);
        assert t.lane[1..] == rest.lane;
        if rest.finished {
          forall i | 0 <= i < |t.lane| ensures Settled(t.lane[i]) {
            if i > 0 { assert t.lane[i] == rest.lane[i - 1]; }
          }
        } else {
          var i :| 0 <= i < |rest.lane| && !Settled(rest.lane[i]);
          assert t.lane[i + 1] == rest.lane[i];
        }
      } else {
        assert !Settled(t.lane[0]) && Open(t.lane[0]);
      }
    }
  }

  /** Once everything is settled a tick changes nothing and says so, whatever the answers. */
  lemma {:induction false} SettledIsFinal(lane: seq<Chain>, answers: Answers, server: Server)
    requires AllSettled(lane)
    ensures TickLane(lane, answers, server) == Ticked(lane, server, true)
  {
    if lane != [] {
      assert Settled(lane[0]);
      SettledIsFinal(lane[1..], answers, server);
    }
  }

  /** A tick that learns nothing submits nothing. */
  lemma {:induction false} NoNewsNoSubmission(lane: seq<Chain>, answers: Answers, server: Server)
    requires Waiting(lane)
    requires forall i :: 0 <= i < |lane| && Open(lane[i]) ==> answers(lane[i].steps[|lane[i].steps| - 1].run).Pending?
    ensures TickLane(lane, answers, server).lane == lane && TickLane(lane, answers, server).server == server
  {
    if lane != [] {
      if Open(lane[0]) {
        assert Poll(lane[0], answers) == lane[0];
      } else {
        NoNewsNoSubmission(lane[1..], answers, server);
      }
    }
  }

  // ----- accounting of runs and projects -----

  function StepsIn(attempts: seq<Attempt>): nat {
    if attempts == [] then 0 else StepsIn(attempts[..|attempts| - 1]) + |attempts[|attempts| - 1].steps|
  }

  /** Runs ever submitted for a chain. */
  function Submitted(c: Chain): nat {
    |c.steps| + StepsIn(c.abandoned)
  }

  function LaneSubmitted(lane: seq<Chain>): nat {
    if lane == [] then 0 else Submitted(lane[0]) + LaneSubmitted(lane[1..])
  }

  function AllSubmitted(arms: seq<seq<Chain>>): nat {
    if arms == [] then 0 else LaneSubmitted(arms[0]) + AllSubmitted(arms[1..])
  }

  function UsesIn(attempts: seq<Attempt>, project: nat): nat {
    if attempts == [] then 0
    else
      UsesIn(attempts[..|attempts| - 1], project)
      + if attempts[|attempts| - 1].project == Some(project) then 1 else 0
  }

  /** Attempts, current or abandoned, that were given `project`. */
  function Uses(c: Chain, project: nat): nat {
    UsesIn(c.abandoned, project) + if c.project == Some(project) then 1 else 0
  }

  function LaneUses(lane: seq<Chain>, project: nat): nat {
    if lane == [] then 0 else Uses(lane[0], project) + LaneUses(lane[1..], project)
  }

  function AllUses(arms: seq<seq<Chain>>, project: nat): nat {
    if arms == [] then 0 else LaneUses(arms[0], project) + AllUses(arms[1..], project)
  }

  /** Whether the server created `project` between two moments. */
  function Created(before: Server, after: Server, project: nat): nat {
    if before.nextProject <= project < after.nextProject then 1 else 0
  }

  lemma {:induction false} TickCountsLane(lane: seq<Chain>, answers: Answers, server: Server, project: nat)
    ensures var t := TickLane(lane, answers, server);
            && t.server.nextRun >= server.nextRun && t.server.nextProject >= server.nextProject
            && LaneSubmitted(t.lane) == LaneSubmitted(lane) + (t.server.nextRun - server.nextRun)
            && LaneUses(t.lane, project) == LaneUses(lane, project) + Created(server, t.server, project)
  {
    if lane != [] {
      var c := Poll(lane[0], answers);
      var t := TickLane(lane, answers, server);
      assert Submitted(c) == Submitted(lane[0]) && Uses(c, project) == Uses(lane[0], project);
      if Settled(c) {
        TickCountsLane(lane[1..], answers, server, project);
        assert t.lane[1..] == TickLane(lane[1..], answers, server).lane;
      } else {
        assert t.lane[1..] == lane[1..];
      }
    }
  }

  lemma {:induction false} TickCounts(arms: seq<seq<Chain>>, answers: Answers, server: Server, project: nat)
    ensures var (st, finished) := TickArms(arms, answers, server);
            && st.server.nextRun >= server.nextRun && st.server.nextProject >= server.nextProject
            && AllSubmitted(st.arms) == AllSubmitted(arms) + (st.server.nextRun - server.nextRun)
            && AllUses(st.arms, project) == AllUses(arms, project) + Created(server, st.server, project)
  {
    if arms != [] {
      var first := TickLane(arms[0], answers, server);
      TickCountsLane(arms[0], answers, server, project);
      TickCounts(arms[1..], answers, first.server, project);
      var (st, finished) := TickArms(arms, answers, server);
      assert st.arms[1..] == TickArms(arms[1..], answers, first.server).0.arms;
    }
  }

  lemma {:induction false} ReplaceCountsLane(lane: seq<Chain>, i: nat, c: Chain, project: nat)
    requires i < |lane| && Submitted(c) == Submitted(lane[i]) && Uses(c, project) == Uses(lane[i], project)
    ensures LaneSubmitted(lane[i := c]) == LaneSubmitted(lane)
      && LaneUses(lane[i := c], project) == LaneUses(lane, project)
    decreases i
  {
    if i > 0 {
      assert lane[i := c][1..] == lane[1..][i - 1 := c];
      ReplaceCountsLane(lane[1..], i - 1, c, project);
    }
  }

  lemma {:induction false} ReplaceCounts(arms: seq<seq<Chain>>, a: nat, lane: seq<Chain>, project: nat)
    requires a < |arms| && LaneSubmitted(lane) == LaneSubmitted(arms[a])
      && LaneUses(lane, project) == LaneUses(arms[a], project)
    ensures AllSubmitted(arms[a := lane]) == AllSubmitted(arms)
      && AllUses(arms[a := lane], project) == AllUses(arms, project)
    decreases a
  {
    if a > 0 {
      assert arms[a := lane][1..] == arms[1..][a - 1 := lane];
      ReplaceCounts(arms[1..], a - 1, lane, project);
    }
  }

  /** A restart loses no run and no project: it only moves them to the abandoned attempts. */
  lemma RestartCounts(c: Chain, answer: Answer, project: nat)
    requires RestartChain(c, answer).Some?
    ensures Submitted(RestartChain(c, answer).value) == Submitted(c)
    ensures Uses(RestartChain(c, answer).value, project) == Uses(c, project)
  {
    var c' := RestartChain(c, answer).value;
    assert c'.abandoned[..|c'.abandoned| - 1] == c.abandoned;
  }

  lemma StepCounts(st: State, e: Event, project: nat)
    ensures var st' := Next(st, e);
            && st'.server.nextRun >= st.server.nextRun && st'.server.nextProject >= st.server.nextProject
            && AllSubmitted(st'.arms) == AllSubmitted(st.arms) + (st'.server.nextRun - st.server.nextRun)
            && AllUses(st'.arms, project) == AllUses(st.arms, project) + Created(st.server, st'.server, project)
  {
    match e {
      case Tick(answers) => TickCounts(st.arms, answers, st.server, project);
      case Restart(a, i, answer) =>
        if CanRestart(st, e) {
          RestartCounts(st.arms[a][i], answer, project);
          var c := RestartChain(st.arms[a][i], answer).value;
          ReplaceCountsLane(st.arms[a], i, c, project);
          ReplaceCounts(st.arms, a, st.arms[a][i := c], project);
        }
    }
  }
}
