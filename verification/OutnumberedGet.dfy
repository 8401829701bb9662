/**
  Why liars need a GET without a decision in between. One PUT is decided while a GET
  collects its answers: the first server to be updated is a liar, its answer is the only
  one with the new version, and the GET returns the altered value, although every quorum
  is large enough.
*/
module OutnumberedGet {
  import opened Ballots
  import opened Replies
  import opened AtomicStore
  import opened Cluster
  import opened ClusterRuns

  const CFG := Config(3, 3, 3)

  const OLD := Replica(1, "value1")

  const FREE := Row(1, "value1", false)

  const LOCKED := Row(1, "value1", true)

  /** The store with one client, whose PUT writes "v"; server 0 is the liar. */
  function StateOf(rows: seq<Row>, status: Status, votes: seq<Reply>, handlers: seq<Phase>): State {
    State(rows, [ClientState("v", status, votes, handlers)], {0})
  }

  const VOTES := [Reply(0, 11, "value1"), Reply(1, 1, "value1"), Reply(2, 1, "value1")]

  const WAITING := Waiting(OLD)

  /** Three grants, three votes heard, the decision, and the update of server 0. */
  function Run(): seq<State> {
    [ StateOf([FREE, FREE, FREE], Voting, [SILENT, SILENT, SILENT], [Idle, Idle, Idle]),
      StateOf([LOCKED, FREE, FREE], Voting, [SILENT, SILENT, SILENT], [WAITING, Idle, Idle]),
      StateOf([LOCKED, LOCKED, FREE], Voting, [SILENT, SILENT, SILENT], [WAITING, WAITING, Idle]),
      StateOf([LOCKED, LOCKED, LOCKED], Voting, [SILENT, SILENT, SILENT], [WAITING, WAITING, WAITING]),
      StateOf([LOCKED, LOCKED, LOCKED], Voting, [VOTES[0], SILENT, SILENT], [WAITING, WAITING, WAITING]),
      StateOf([LOCKED, LOCKED, LOCKED], Voting, [VOTES[0], VOTES[1], SILENT], [WAITING, WAITING, WAITING]),
      StateOf([LOCKED, LOCKED, LOCKED], Voting, VOTES, [WAITING, WAITING, WAITING]),
      StateOf([LOCKED, LOCKED, LOCKED], Decided(2), VOTES, [WAITING, WAITING, WAITING]),
      StateOf([Row(2, "v", true), LOCKED, LOCKED], Decided(2), VOTES, [Written, WAITING, WAITING]),
      StateOf([Row(2, "v", false), LOCKED, LOCKED], Decided(2), VOTES, [Closed, WAITING, WAITING]) ]
  }

  function Actions(): seq<Action> {
    [ At(0, 0, Grant), At(1, 0, Grant), At(2, 0, Grant), At(0, 0, Hear), At(1, 0, Hear), At(2, 0, Hear),
      Decide(0), At(0, 0, Update), At(0, 0, Release) ]
  }

  ghost predicate StepOk(st: State, a: Action, st': State) {
    WellSized(CFG.n, st) && Enabled(CFG, st, a) && st' == Next(CFG, st, a)
  }

  /** The state after a move of server s's handler. */
  lemma {:induction false} MoveStep(rows: seq<Row>, status: Status, votes: seq<Reply>, handlers: seq<Phase>, s: nat, m: Move,
                                    rows': seq<Row>, votes': seq<Reply>, handlers': seq<Phase>)
    requires |rows| == |votes| == |handlers| == 3 && s < 3
    requires MoveEnabled(rows[s], ClientState("v", status, votes, handlers), s, m)
    requires rows' == rows[s := MoveRow(rows[s], ClientState("v", status, votes, handlers), m)]
    requires
      var cl := MoveClient(rows[s], ClientState("v", status, votes, handlers), s, s == 0, m);
      votes' == cl.votes && handlers' == cl.handlers
    ensures StepOk(StateOf(rows, status, votes, handlers), At(s, 0, m), StateOf(rows', status, votes', handlers'))
  {
    var st := StateOf(rows, status, votes, handlers);
    var cl := MoveClient(rows[s], st.clients[0], s, s == 0, m);
    assert cl == ClientState("v", status, votes', handlers');
    assert st.clients[0 := cl] == [cl];
  }

  lemma {:induction false} GrantSteps()
    ensures StepOk(Run()[0], Actions()[0], Run()[1])
    ensures StepOk(Run()[1], Actions()[1], Run()[2])
    ensures StepOk(Run()[2], Actions()[2], Run()[3])
  {
    hide StepOk;
    var silent := [SILENT, SILENT, SILENT];
    MoveStep([FREE, FREE, FREE], Voting, silent, [Idle, Idle, Idle], 0, Grant,
             [LOCKED, FREE, FREE], silent, [WAITING, Idle, Idle]);
    MoveStep([LOCKED, FREE, FREE], Voting, silent, [WAITING, Idle, Idle], 1, Grant,
             [LOCKED, LOCKED, FREE], silent, [WAITING, WAITING, Idle]);
    MoveStep([LOCKED, LOCKED, FREE], Voting, silent, [WAITING, WAITING, Idle], 2, Grant,
             [LOCKED, LOCKED, LOCKED], silent, [WAITING, WAITING, WAITING]);
  }

  lemma {:induction false} HearSteps()
    ensures StepOk(Run()[3], Actions()[3], Run()[4])
    ensures StepOk(Run()[4], Actions()[4], Run()[5])
    ensures StepOk(Run()[5], Actions()[5], Run()[6])
  {
    hide StepOk;
    var rows, handlers := [LOCKED, LOCKED, LOCKED], [WAITING, WAITING, WAITING];
    assert "value1" + "" == "value1";
    MoveStep(rows, Voting, [SILENT, SILENT, SILENT], handlers, 0, Hear, rows, [VOTES[0], SILENT, SILENT], handlers);
    MoveStep(rows, Voting, [VOTES[0], SILENT, SILENT], handlers, 1, Hear, rows, [VOTES[0], VOTES[1], SILENT], handlers);
    MoveStep(rows, Voting, [VOTES[0], VOTES[1], SILENT], handlers, 2, Hear, rows, VOTES, handlers);
  }

  lemma {:induction false} UpdateSteps()
    ensures StepOk(Run()[7], Actions()[7], Run()[8])
    ensures StepOk(Run()[8], Actions()[8], Run()[9])
  {
    hide StepOk;
    MoveStep([LOCKED, LOCKED, LOCKED], Decided(2), VOTES, [WAITING, WAITING, WAITING], 0, Update,
             [Row(2, "v", true), LOCKED, LOCKED], VOTES, [Written, WAITING, WAITING]);
    MoveStep([Row(2, "v", true), LOCKED, LOCKED], Decided(2), VOTES, [Written, WAITING, WAITING], 0, Release,
             [Row(2, "v", false), LOCKED, LOCKED], VOTES, [Closed, WAITING, WAITING]);
  }

  /** The liar's version is outvoted. */
  lemma {:induction false} HonestVersionWins()
    ensures Answerers(VOTES) == {0, 1, 2} && |Answerers(VOTES)| == 3 && DecidedVno(VOTES) == 2
  {
    var bs := PutBallots(VOTES);
    assert Answerers(VOTES) == {0, 1, 2};
    CastOfPut(VOTES);
    assert bs == [Some(11), Some(1), Some(1)];
    assert Group(bs, 1) == {1, 2};
    MajorityDecides(bs, 1);
  }

  lemma {:induction false} DecideStep()
    ensures StepOk(Run()[6], Actions()[6], Run()[7])
  {
    hide DecidedVno, Answerers;
    HonestVersionWins();
    var st := Run()[6];
    assert st.clients[0 := st.clients[0].(status := Decided(2))] == Run()[7].clients;
  }

  lemma {:induction false} RunIsTrace()
    ensures Trace(CFG, Run(), Actions())
  {
    hide StepOk;
    GrantSteps();
    HearSteps();
    DecideStep();
    UpdateSteps();
    var tr, acts := Run(), Actions();
    assert Initial(CFG.n, tr[0]) by {
      assert seq(3, _ => SILENT) == [SILENT, SILENT, SILENT];
    }
    forall k | 0 <= k < |acts| ensures StepOk(tr[k], acts[k], tr[k + 1]) {
    }
    StepsMakeTrace(tr, acts);
  }

  lemma {:induction false} StepsMakeTrace(tr: seq<State>, acts: seq<Action>)
    requires Typed(tr, acts) && |tr| == |acts| + 1 && Initial(CFG.n, tr[0])
    requires forall k :: 0 <= k < |acts| ==> StepOk(tr[k], acts[k], tr[k + 1])
    ensures Trace(CFG, tr, acts)
  {
    forall k | 0 <= k < |acts|
      ensures WellSized(CFG.n, tr[k]) && Enabled(CFG, tr[k], acts[k]) && tr[k + 1] == Next(CFG, tr[k], acts[k])
    {
      assert StepOk(tr[k], acts[k], tr[k + 1]);
    }
  }

  lemma {:induction false} LoneTopWins(rs: seq<Reply>)
    requires |rs| == 3 && Readable(rs[0]) && rs[1].vno < rs[0].vno && rs[2].vno < rs[0].vno
    ensures Cast(GetBallots(rs)) != {} && Winner(GetBallots(rs)) == 0
  {
    GetPicksTopVersion(rs);
  }

  lemma {:induction false} GetIsInTime()
    ensures AnsweredBetween(CFG.n, Run(), {0, 1, 2}, [9, 0, 0], 0, 9) && LegalGet(CFG, {0, 1, 2})
  {
    var tr := Run();
    assert tr[9].rows == [Row(2, "v", false), LOCKED, LOCKED] && tr[0].rows == [FREE, FREE, FREE] && |tr| == 10;
    hide Run;
    assert |{0, 1, 2}| == 3;
  }

  lemma {:induction false} GetAnswersAre()
    requires AnsweredBetween(CFG.n, Run(), {0, 1, 2}, [9, 0, 0], 0, 9)
    ensures
      var rs := AnswersOverTime(CFG.n, Run(), {0, 1, 2}, [9, 0, 0]);
      |rs| == 3 && rs[0] == Reply(0, 2, "vlie") && rs[1].vno == 1 && rs[2].vno == 1
  {
    var tr := Run();
    assert tr[9].rows == [Row(2, "v", false), LOCKED, LOCKED] && tr[9].liars == {0} && tr[0].rows == [FREE, FREE, FREE];
    hide Run;
    assert "v" + "lie" == "vlie";
  }

  lemma {:induction false} OnePutDecided()
    ensures Typed(Run(), Actions()) && Decisions(Run(), Actions(), 9) == [PutOp({0, 1, 2}, "v")]
  {
    HonestVersionWins();
    var tr, acts := Run(), Actions();
    assert Typed(tr, acts);
    var c := tr[6].clients[0];
    assert acts[6] == Decide(0) && c.votes == VOTES && c.value == "v";
    assert forall k :: 0 <= k < 9 && k != 6 ==> acts[k].At?;
    hide Run, Actions, Answerers, Typed;
    OtherSteps(tr, acts, 0, 6);
    assert Decisions(tr, acts, 0) == [];
    assert Decisions(tr, acts, 7) == [PutOp({0, 1, 2}, "v")];
    OtherSteps(tr, acts, 7, 9);
  }

  lemma {:induction false} OtherSteps(tr: seq<State>, acts: seq<Action>, t: nat, u: nat)
    requires Typed(tr, acts) && t <= u <= |acts| && forall k :: t <= k < u ==> acts[k].At?
    ensures Decisions(tr, acts, u) == Decisions(tr, acts, t)
  {
    if t < u {
      OtherSteps(tr, acts, t, u - 1);
    }
  }

  /** Server 0 answers at the end, the others at the start: all while they are unlocked. */
  lemma {:induction false} LiarDecidesTheGet()
    ensures Trace(CFG, Run(), Actions()) && Accepted(CFG) && 3 * CFG.nw > 2 * CFG.n + 2 * |{0}|
    ensures AnsweredBetween(CFG.n, Run(), {0, 1, 2}, [9, 0, 0], 0, 9) && LegalGet(CFG, {0, 1, 2})
    ensures Run()[0].liars == {0} && |{0, 1, 2}| + CFG.nw > CFG.n + 2 * |{0}|
    ensures
      var rs := AnswersOverTime(CFG.n, Run(), {0, 1, 2}, [9, 0, 0]);
      && Cast(GetBallots(rs)) != {} && rs[Winner(GetBallots(rs))].value == "vlie"
      && Typed(Run(), Actions()) && Decisions(Run(), Actions(), 9) == [PutOp({0, 1, 2}, "v")]
  {
    hide Trace, GetBallots, AnswersOverTime, AnsweredBetween, Decisions, Typed;
    RunIsTrace();
    GetIsInTime();
    GetAnswersAre();
    OnePutDecided();
    LoneTopWins(AnswersOverTime(CFG.n, Run(), {0, 1, 2}, [9, 0, 0]));
  }
}
