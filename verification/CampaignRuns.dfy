/** Whole campaigns: every run of ticks and restarts, whatever the server answers. */
module CampaignRuns {
  import opened Campaign

  ghost predicate ArmsOK(arms: seq<seq<Chain>>) {
    forall a :: 0 <= a < |arms| ==> LaneOK(arms[a])
  }

  ghost predicate ArmsInTurn(arms: seq<seq<Chain>>) {
    forall a :: 0 <= a < |arms| ==> InTurn(arms[a])
  }

  lemma {:induction false} TickKeepsArms(arms: seq<seq<Chain>>, answers: Answers, server: Server)
    ensures var arms' := TickArms(arms, answers, server).0.arms;
            && |arms'| == |arms|
            && (ArmsOK(arms) ==> ArmsOK(arms') && SameShape(arms, arms'))
            && (ArmsInTurn(arms) ==> ArmsInTurn(arms'))
  {
    if arms != [] {
      var first := TickLane(arms[0], answers, server);
      var arms' := TickArms(arms, answers, server).0.arms;
      TickKeepsArms(arms[1..], answers, first.server);
      assert arms'[1..] == TickArms(arms[1..], answers, first.server).0.arms;
      if ArmsOK(arms) {
        TickKeepsLane(arms[0], answers, server);
        TickKeepsShape(arms[0], answers, server);
        forall a | 0 <= a < |arms'| ensures LaneOK(arms'[a]) && SameLane(arms[a], arms'[a]) {
          if a > 0 { assert arms'[a] == arms'[1..][a - 1] && arms[a] == arms[1..][a - 1]; }
        }
      }
      if ArmsInTurn(arms) {
        TickKeepsTurn(arms[0], answers, server);
        forall a | 0 <= a < |arms'| ensures InTurn(arms'[a]) {
          if a > 0 { assert arms'[a] == arms'[1..][a - 1] && arms[a] == arms[1..][a - 1]; }
        }
      }
    }
  }

  /** Chains keep their orders and their abandoned attempts. */
  ghost predicate SameLane(lane: seq<Chain>, lane': seq<Chain>) {
    |lane| == |lane'| &&
    forall i :: 0 <= i < |lane| ==> lane'[i].order == lane[i].order && lane'[i].abandoned == lane[i].abandoned
  }

  ghost predicate SameShape(arms: seq<seq<Chain>>, arms': seq<seq<Chain>>) {
    |arms| == |arms'| && forall a :: 0 <= a < |arms| ==> SameLane(arms[a], arms'[a])
  }

  lemma {:induction false} TickKeepsShape(lane: seq<Chain>, answers: Answers, server: Server)
    ensures SameLane(lane, TickLane(lane, answers, server).lane)
  {
    if lane != [] {
      var lane' := TickLane(lane, answers, server).lane;
      if Settled(Poll(lane[0], answers)) {
        TickKeepsShape(lane[1..], answers, server);
        assert lane'[1..] == TickLane(lane[1..], answers, server).lane;
        forall i | 0 < i < |lane|
          ensures lane'[i].order == lane[i].order && lane'[i].abandoned == lane[i].abandoned
        {
          assert lane[i] == lane[1..][i - 1] && lane'[i] == lane'[1..][i - 1];
        }
      }
    }
  }

  lemma StepKeepsChains(st: State, e: Event)
    requires ArmsOK(st.arms)
    ensures ArmsOK(Next(st, e).arms)
  {
    if e.Tick? { TickKeepsArms(st.arms, e.answers, st.server); }
  }

  /** After any campaign, with any answers and any restarts, every chain's tasks are a
      prefix of its order, in one project, with only the last step possibly open; and so
      it was for every abandoned attempt. */
  lemma {:induction false} ChainsAreAlwaysPrefixes(st: State, events: seq<Event>)
    requires ArmsOK(st.arms)
    ensures ArmsOK(Run(st, events).arms)
    decreases |events|
  {
    if events != [] {
      StepKeepsChains(st, events[0]);
      ChainsAreAlwaysPrefixes(Next(st, events[0]), events[1..]);
    }
  }

  /** Every chain that is restarted has no open chain after it in its arm. */
  ghost predicate Careful(st: State, events: seq<Event>)
    decreases |events|
  {
    events != [] ==>
      && (events[0].Restart? && CanRestart(st, events[0]) ==>
            forall j :: events[0].chain < j < |st.arms[events[0].arm]| ==> !Open(st.arms[events[0].arm][j]))
      && Careful(Next(st, events[0]), events[1..])
  }

  /** One job at a time per arm, over every campaign whose restarts are careful;
      a campaign without restarts always is. */
  lemma {:induction false} OneOpenStepPerArm(st: State, events: seq<Event>)
    requires ArmsInTurn(st.arms) && Careful(st, events)
    ensures ArmsInTurn(Run(st, events).arms)
    ensures forall a :: 0 <= a < |Run(st, events).arms| ==> AtMostOneOpen(Run(st, events).arms[a])
    decreases |events|
  {
    if events != [] {
      if events[0].Tick? { TickKeepsArms(st.arms, events[0].answers, st.server); }
      OneOpenStepPerArm(Next(st, events[0]), events[1..]);
    } else {
      forall a | 0 <= a < |st.arms| ensures AtMostOneOpen(st.arms[a]) {
        assert InTurn(st.arms[a]);
      }
    }
  }

  lemma {:induction false} TicksAreCareful(st: State, events: seq<Event>)
    requires forall i :: 0 <= i < |events| ==> events[i].Tick?
    ensures Careful(st, events)
    decreases |events|
  {
    if events != [] { TicksAreCareful(Next(st, events[0]), events[1..]); }
  }

  /** The tick's answer is exact over all arms, and final. */
  lemma {:induction false} TickIsExactAndFinal(arms: seq<seq<Chain>>, answers: Answers, server: Server, later: Answers)
    ensures var (st, finished) := TickArms(arms, answers, server);
            && (finished <==> forall a :: 0 <= a < |st.arms| ==> AllSettled(st.arms[a]))
            && (finished ==> st.server == server && TickArms(st.arms, later, server) == (st, true))
  {
    if arms != [] {
      var first := TickLane(arms[0], answers, server);
      FinishedIffSettled(arms[0], answers, server);
      TickIsExactAndFinal(arms[1..], answers, first.server, later);
      var (st, finished) := TickArms(arms, answers, server);
      var rest := TickArms(arms[1..], answers, first.server);
      assert st.arms[1..] == rest.0.arms && st.arms[0] == first.lane;
      assert rest.1 ==> forall a :: 0 < a < |st.arms| ==> AllSettled(st.arms[a]) by {
        if rest.1 {
          forall a | 0 < a < |st.arms| ensures AllSettled(st.arms[a]) { assert st.arms[a] == rest.0.arms[a - 1]; }
        }
      }
      if !rest.1 {
        var a :| 0 <= a < |rest.0.arms| && !AllSettled(rest.0.arms[a]);
        assert st.arms[a + 1] == rest.0.arms[a];
      }
      if finished { SettledIsFinal(first.lane, later, server); }
    }
  }

  ghost predicate AllWaiting(arms: seq<seq<Chain>>) {
    forall a :: 0 <= a < |arms| ==> Waiting(arms[a])
  }

  /** The server reports every open run of the lane as still going. */
  ghost predicate NoNews(lane: seq<Chain>, answers: Answers) {
    forall i :: 0 <= i < |lane| && Open(lane[i]) ==> answers(lane[i].steps[|lane[i].steps| - 1].run).Pending?
  }

  ghost predicate AllQuiet(arms: seq<seq<Chain>>, answers: Answers) {
    forall a :: 0 <= a < |arms| ==> NoNews(arms[a], answers)
  }

  /** Polled again before anything has moved, a campaign submits nothing. */
  lemma TickIsIdempotent(arms: seq<seq<Chain>>, answers: Answers, server: Server, later: Answers)
    requires AllQuiet(TickArms(arms, answers, server).0.arms, later)
    ensures var st := TickArms(arms, answers, server).0; TickArms(st.arms, later, st.server).0 == st
  {
    var st := TickArms(arms, answers, server).0;
    TicksWait(arms, answers, server);
    QuietTick(st.arms, st.server, later);
  }

  lemma {:induction false} TicksWait(arms: seq<seq<Chain>>, answers: Answers, server: Server)
    ensures AllWaiting(TickArms(arms, answers, server).0.arms)
  {
    if arms != [] {
      var first := TickLane(arms[0], answers, server);
      FinishedIffSettled(arms[0], answers, server);
      TicksWait(arms[1..], answers, first.server);
      assert TickArms(arms, answers, server).0.arms == [first.lane] + TickArms(arms[1..], answers, first.server).0.arms;
    }
  }

  lemma {:induction false} QuietTick(arms: seq<seq<Chain>>, server: Server, later: Answers)
    requires AllWaiting(arms) && AllQuiet(arms, later)
    ensures TickArms(arms, later, server).0 == State(arms, server)
  {
    if arms != [] {
      NoNewsNoSubmission(arms[0], later, server);
      QuietTick(arms[1..], server, later);
    }
  }

  // ----- accounting over whole campaigns -----

  ghost predicate Accounted(st: State) {
    && AllSubmitted(st.arms) == st.server.nextRun
    && forall p: nat :: AllUses(st.arms, p) == if p < st.server.nextProject then 1 else 0
  }

  /** Every project ever created serves exactly one attempt: a restarted chain shares its
      project with no abandoned attempt, no other chain and no other arm. */
  lemma {:induction false} ProjectsAreNeverShared(st: State, events: seq<Event>)
    requires Accounted(st)
    ensures Accounted(Run(st, events))
    decreases |events|
  {
    if events != [] {
      var st' := Next(st, events[0]);
      StepCounts(st, events[0], 0);
      forall p: nat ensures AllUses(st'.arms, p) == if p < st'.server.nextProject then 1 else 0 {
        StepCounts(st, events[0], p);
      }
      ProjectsAreNeverShared(st', events[1..]);
    }
  }

  lemma {:induction false} FreshIsAccounted(st: State)
    requires Fresh(st)
    ensures Accounted(st) && ArmsOK(st.arms) && ArmsInTurn(st.arms)
  {
    UntouchedArms(st.arms, 0);
    forall p: nat ensures AllUses(st.arms, p) == 0 {
      UntouchedArms(st.arms, p);
    }
  }

  lemma {:induction false} UntouchedArms(arms: seq<seq<Chain>>, p: nat)
    requires forall a, i :: 0 <= a < |arms| && 0 <= i < |arms[a]| ==>
               var c := arms[a][i]; c.project.None? && c.steps == [] && c.abandoned == []
    ensures AllUses(arms, p) == 0 && AllSubmitted(arms) == 0
  {
    if arms != [] {
      UntouchedLane(arms[0], p);
      UntouchedArms(arms[1..], p);
    }
  }

  lemma {:induction false} UntouchedLane(lane: seq<Chain>, p: nat)
    requires forall i :: 0 <= i < |lane| ==>
               var c := lane[i]; c.project.None? && c.steps == [] && c.abandoned == []
    ensures LaneUses(lane, p) == 0 && LaneSubmitted(lane) == 0
  {
    if lane != [] { UntouchedLane(lane[1..], p); }
  }

  /** The room for submissions: one pass over the tasks per attempt. */
  function Room(lane: seq<Chain>, n: nat): nat {
    if lane == [] then 0 else n * (1 + |lane[0].abandoned|) + Room(lane[1..], n)
  }

  function AllRoom(arms: seq<seq<Chain>>, n: nat): nat {
    if arms == [] then 0 else Room(arms[0], n) + AllRoom(arms[1..], n)
  }

  ghost predicate Steps(lane: seq<Chain>, n: nat) {
    forall i :: 0 <= i < |lane| ==> |lane[i].order| == n
  }

  lemma {:induction false} AttemptsFit(attempts: seq<Attempt>, n: nat)
    requires forall k :: 0 <= k < |attempts| ==> |attempts[k].steps| <= n
    ensures StepsIn(attempts) <= n * |attempts|
    decreases |attempts|
  {
    if attempts != [] {
      AttemptsFit(attempts[..|attempts| - 1], n);
      assert n * |attempts| == n * (|attempts| - 1) + n;
    }
  }

  lemma {:induction false} SubmissionsFitLane(lane: seq<Chain>, n: nat)
    requires LaneOK(lane) && Steps(lane, n)
    ensures LaneSubmitted(lane) <= Room(lane, n)
  {
    if lane != [] {
      var c := lane[0];
      forall k | 0 <= k < |c.abandoned| ensures |c.abandoned[k].steps| <= n { assert ChainOK(c); }
      AttemptsFit(c.abandoned, n);
      assert n * (1 + |c.abandoned|) == n + n * |c.abandoned|;
      SubmissionsFitLane(lane[1..], n);
    }
  }

  lemma {:induction false} SubmissionsFit(arms: seq<seq<Chain>>, n: nat)
    requires ArmsOK(arms) && forall a :: 0 <= a < |arms| ==> Steps(arms[a], n)
    ensures AllSubmitted(arms) <= AllRoom(arms, n)
  {
    if arms != [] {
      SubmissionsFitLane(arms[0], n);
      SubmissionsFit(arms[1..], n);
    }
  }

  lemma {:induction false} SameRoomLane(lane: seq<Chain>, lane': seq<Chain>, n: nat)
    requires SameLane(lane, lane')
    ensures Room(lane', n) == Room(lane, n)
  {
    if lane != [] { SameRoomLane(lane[1..], lane'[1..], n); }
  }

  lemma {:induction false} SameRoom(arms: seq<seq<Chain>>, arms': seq<seq<Chain>>, n: nat)
    requires SameShape(arms, arms')
    ensures AllRoom(arms', n) == AllRoom(arms, n)
  {
    if arms != [] {
      SameRoomLane(arms[0], arms'[0], n);
      SameRoom(arms[1..], arms'[1..], n);
    }
  }

  lemma {:induction false} RestartAddsRoomLane(lane: seq<Chain>, i: nat, c: Chain, n: nat)
    requires i < |lane| && |c.abandoned| == |lane[i].abandoned| + 1
    ensures Room(lane[i := c], n) == Room(lane, n) + n
    decreases i
  {
    if i == 0 {
      assert n * (1 + |c.abandoned|) == n * (1 + |lane[0].abandoned|) + n;
      assert lane[0 := c][1..] == lane[1..];
    } else {
      assert lane[i := c][1..] == lane[1..][i - 1 := c];
      RestartAddsRoomLane(lane[1..], i - 1, c, n);
    }
  }

  lemma {:induction false} RestartAddsRoom(arms: seq<seq<Chain>>, a: nat, lane: seq<Chain>, n: nat)
    requires a < |arms| && Room(lane, n) == Room(arms[a], n) + n
    ensures AllRoom(arms[a := lane], n) == AllRoom(arms, n) + n
    decreases a
  {
    if a == 0 {
      assert arms[0 := lane][1..] == arms[1..];
    } else {
      assert arms[a := lane][1..] == arms[1..][a - 1 := lane];
      RestartAddsRoom(arms[1..], a - 1, lane, n);
    }
  }

  /** The restarts of a campaign that went through. */
  function Restarts(st: State, events: seq<Event>): nat
    decreases |events|
  {
    if events == [] then 0
    else
      (if events[0].Restart? && CanRestart(st, events[0]) then 1 else 0) + Restarts(Next(st, events[0]), events[1..])
  }

  ghost predicate AllSteps(arms: seq<seq<Chain>>, n: nat) {
    forall a :: 0 <= a < |arms| ==> Steps(arms[a], n)
  }

  lemma StepRoom(st: State, e: Event, n: nat)
    requires ArmsOK(st.arms) && AllSteps(st.arms, n)
    ensures AllSteps(Next(st, e).arms, n)
    ensures AllRoom(Next(st, e).arms, n) == AllRoom(st.arms, n) + if e.Restart? && CanRestart(st, e) then n else 0
  {
    var arms' := Next(st, e).arms;
    match e {
      case Tick(answers) =>
        TickKeepsArms(st.arms, answers, st.server);
        SameRoom(st.arms, arms', n);
        forall a | 0 <= a < |arms'| ensures Steps(arms'[a], n) {
          assert SameLane(st.arms[a], arms'[a]) && Steps(st.arms[a], n);
        }
      case Restart(a, i, answer) =>
        if CanRestart(st, e) {
          var c := RestartChain(st.arms[a][i], answer).value;
          RestartAddsRoomLane(st.arms[a], i, c, n);
          RestartAddsRoom(st.arms, a, st.arms[a][i := c], n);
        }
    }
  }

  lemma {:induction false} RunRoom(st: State, events: seq<Event>, n: nat)
    requires ArmsOK(st.arms) && AllSteps(st.arms, n)
    ensures AllSteps(Run(st, events).arms, n)
    ensures AllRoom(Run(st, events).arms, n) == AllRoom(st.arms, n) + n * Restarts(st, events)
    decreases |events|
  {
    hide Next, CanRestart, ArmsOK, AllSteps, AllRoom;
    if events != [] {
      var st' := Next(st, events[0]);
      StepRoom(st, events[0], n);
      StepKeepsChains(st, events[0]);
      RunRoom(st', events[1..], n);
      var one := if events[0].Restart? && CanRestart(st, events[0]) then 1 else 0;
      Distribute(n, one, Restarts(st', events[1..]));
    }
  }

  function Chains(arms: seq<seq<Chain>>): nat {
    if arms == [] then 0 else |arms[0]| + Chains(arms[1..])
  }

  lemma {:induction false} FreshRoomLane(lane: seq<Chain>, n: nat)
    requires forall i :: 0 <= i < |lane| ==> lane[i].abandoned == []
    ensures Room(lane, n) == n * |lane|
  {
    if lane != [] { FreshRoomLane(lane[1..], n); }
  }

  lemma {:induction false} FreshRoom(arms: seq<seq<Chain>>, n: nat)
    requires forall a, i :: 0 <= a < |arms| && 0 <= i < |arms[a]| ==> arms[a][i].abandoned == []
    ensures AllRoom(arms, n) == n * Chains(arms)
  {
    if arms != [] {
      hide Room;
      FreshRoomLane(arms[0], n);
      FreshRoom(arms[1..], n);
      Distribute(n, |arms[0]|, Chains(arms[1..]));
    }
  }

  lemma Distribute(n: nat, a: nat, b: nat)
    ensures n * (a + b) == n * a + n * b
  {
  }

  /** No campaign submits more than one pass over the tasks per chain and per restart. */
  lemma SubmissionsAreBounded(st: State, events: seq<Event>, n: nat)
    requires Fresh(st) && AllSteps(st.arms, n)
    ensures Run(st, events).server.nextRun <= n * (Chains(st.arms) + Restarts(st, events))
  {
    FreshIsAccounted(st);
    ProjectsAreNeverShared(st, events);
    ChainsAreAlwaysPrefixes(st, events);
    RunRoom(st, events, n);
    SubmissionsFit(Run(st, events).arms, n);
    FreshRoom(st.arms, n);
    Distribute(n, Chains(st.arms), Restarts(st, events));
  }
}
