/** The campaign state as the tool updates it: one object, changed in place. */
module CampaignState {
  import opened Campaign

  /** What a lane's loop has left to do, after the chains it has already passed. */
  ghost function Passed(done: seq<Chain>, rest: Ticked): Ticked {
    Ticked(done + rest.lane, rest.server, rest.finished)
  }

  ghost function PassedArms(done: seq<seq<Chain>>, rest: (State, bool), finished: bool): (State, bool) {
    (State(done + rest.0.arms, rest.0.server), finished && rest.1)
  }

  lemma NothingPassed(rest: (State, bool))
    ensures PassedArms([], rest, true) == rest
  {
    assert [] + rest.0.arms == rest.0.arms;
  }

  /** One chain further: the lane's result is known, or the rest decides it. */
  lemma PassChain(done: seq<Chain>, lane: seq<Chain>, answers: Answers, server: Server)
    requires lane != []
    ensures var c := Poll(lane[0], answers);
            Passed(done, TickLane(lane, answers, server)) == (
              if Open(c) then Ticked(done + [c] + lane[1..], server, false)
              else if !RunCancelled(c) && |c.steps| < |c.order| then
                Ticked(done + [Submit(c, server).0] + lane[1..], Submit(c, server).1, false)
              else Passed(done + [c], TickLane(lane[1..], answers, server)))
  {
    var c := Poll(lane[0], answers);
    var rest := TickLane(lane[1..], answers, server);
    assert done + ([c] + rest.lane) == done + [c] + rest.lane;
    assert done + ([c] + lane[1..]) == done + [c] + lane[1..];
    if !Open(c) && |c.steps| < |c.order| {
      var c' := Submit(c, server).0;
      assert done + ([c'] + lane[1..]) == done + [c'] + lane[1..];
    }
  }

  lemma PassedEnds(lane: seq<Chain>, answers: Answers, server: Server)
    ensures Passed([], TickLane(lane, answers, server)) == TickLane(lane, answers, server)
    ensures Passed(lane, TickLane([], answers, server)) == Ticked(lane, server, true)
  {
    var ticked := TickLane(lane, answers, server);
    assert [] + ticked.lane == ticked.lane && lane + [] == lane;
  }

  lemma PassArm(done: seq<seq<Chain>>, arms: seq<seq<Chain>>, answers: Answers, server: Server, finished: bool)
    requires arms != []
    ensures var first := TickLane(arms[0], answers, server);
            PassedArms(done, TickArms(arms, answers, server), finished)
            == PassedArms(done + [first.lane], TickArms(arms[1..], answers, first.server), finished && first.finished)
  {
    var first := TickLane(arms[0], answers, server);
    var rest := TickArms(arms[1..], answers, first.server).0.arms;
    assert done + ([first.lane] + rest) == done + [first.lane] + rest;
  }

  class CampaignFile {
    var arms: seq<seq<Chain>>
    var server: Server

    function Contents(): State
      reads this
    {
      State(arms, server)
    }

    constructor (orders: seq<seq<seq<string>>>)
      ensures Fresh(Contents()) && |arms| == |orders|
      ensures forall a :: 0 <= a < |orders| ==> |arms[a]| == |orders[a]|
      ensures forall a, k :: 0 <= a < |orders| && 0 <= k < |orders[a]| ==> arms[a][k].order == orders[a][k]
    {
      arms := seq(|orders|, a requires 0 <= a < |orders| =>
                    seq(|orders[a]|, k requires 0 <= k < |orders[a]| => Chain(orders[a][k], None, [], [])));
      server := Server(0, 0);
    }

    /** One tick: each arm takes at most one step; the answer says whether every arm is done. */
    method ChainTick(answers: Answers) returns (finished: bool)
      modifies this
      ensures (Contents(), finished) == TickArms(old(arms), answers, old(server))
    {
      finished := true;
      ghost var arms0, server0 := arms, server;
      assert arms[..0] == [] && arms[0..] == arms;
      NothingPassed(TickArms(arms, answers, server));
      for a := 0 to |arms|
        invariant |arms| == |arms0| && arms[a..] == arms0[a..]
        invariant TickArms(arms0, answers, server0)
               == PassedArms(arms[..a], TickArms(arms[a..], answers, server), finished)
      {
        PassArm(arms[..a], arms[a..], answers, server, finished);
        ghost var before, rest := arms[..a], arms[a + 1..];
        assert arms[a..][1..] == rest;
        var laneFinished := TickArm(a, answers);
        finished := finished && laneFinished;
        assert arms[..a + 1] == before + [arms[a]] && arms[a + 1..] == rest;
      }
      assert arms[|arms|..] == [] && arms[..|arms|] + [] == arms;
    }

    /** The loop over one arm's chains, stopping at the first that is open or gets a step. */
    method TickArm(a: nat, answers: Answers) returns (finished: bool)
      requires a < |arms|
      modifies this
      ensures |arms| == |old(arms)| && arms == old(arms)[a := arms[a]]
      ensures Ticked(arms[a], server, finished) == TickLane(old(arms[a]), answers, old(server))
    {
      hide Poll, Submit, Open, RunCancelled, Passed, TickLane;
      var lane := arms[a];
      ghost var lane0, server0 := lane, server;
      assert lane[..0] == [] && lane[0..] == lane;
      PassedEnds(lane, answers, server);
      finished := true;
      for i := 0 to |lane|
        invariant server == server0 && arms == old(arms) && finished
        invariant |lane| == |lane0| && lane[i..] == lane0[i..]
        invariant TickLane(lane0, answers, server0) == Passed(lane[..i], TickLane(lane[i..], answers, server))
      {
        ghost var done, rest := lane[..i], lane[i + 1..];
        assert lane[i..] == [lane[i]] + rest;
        var c := Poll(lane[i], answers);
        PassChain(done, lane[i..], answers, server);
        lane := lane[i := c];
        assert lane == done + [c] + rest && lane[..i + 1] == done + [c] && lane[i + 1..] == rest;
        if Open(c) {
          finished := false;
        } else if !RunCancelled(c) && |c.steps| < |c.order| {
          var (c', server') := Submit(c, server);
          lane := lane[i := c'];
          assert lane == done + [c'] + rest;
          server := server';
          finished := false;
        }
        if !finished {
          break;
        }
      }
      if finished {
        assert lane[|lane|..] == [] && lane[..|lane|] == lane;
        PassedEnds(lane, answers, server);
      }
      arms := arms[a := lane];
    }

    /** Set a chain aside; refused for an unknown chain and for a run still going. */
    method ChainRestart(arm: nat, chain: nat, answer: Answer) returns (ok: bool)
      modifies this
      ensures ok == CanRestart(old(Contents()), Restart(arm, chain, answer))
      ensures Contents() == Next(old(Contents()), Restart(arm, chain, answer))
    {
      if arm >= |arms| || chain >= |arms[arm]| {
        return false;
      }
      var c := RestartChain(arms[arm][chain], answer);
      if c.None? {
        return false;
      }
      arms := arms[arm := arms[arm][chain := c.value]];
      return true;
    }
  }
}
