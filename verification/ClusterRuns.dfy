/**
  Whole runs of the concurrent store.

  Every run of `Cluster`, for any number of clients, behaves like a sequence of
  atomic PUTs in the order in which the clients decide. So the quorum results of
  the atomic store hold for it, and a GET whose answers are collected at
  different moments never returns anything older than what was decided before
  its first answer was sent.
*/
module ClusterRuns {
  import opened Ballots
  import opened Replies
  import opened AtomicStore
  import opened QuorumCondition
  import opened Cluster

  predicate InitialClient(n: nat, cl: ClientState) {
    cl.status == Voting && cl.votes == seq(n, _ => SILENT) && cl.handlers == seq(n, _ => Idle)
  }

  predicate Initial(n: nat, st: State) {
    && st.rows == seq(n, _ => Row(FIRST.vno, FIRST.value, false))
    && forall c :: 0 <= c < |st.clients| ==> InitialClient(n, st.clients[c])
  }

  predicate Typed(tr: seq<State>, acts: seq<Action>) {
    |acts| < |tr| && forall k :: 0 <= k < |acts| ==> acts[k].c < |tr[k].clients|
  }

  /** The states tr of a run and the actions between them. */
  ghost predicate Trace(cfg: Config, tr: seq<State>, acts: seq<Action>) {
    && Typed(tr, acts) && |tr| == |acts| + 1 && Initial(cfg.n, tr[0])
    && forall k :: 0 <= k < |acts| ==>
         WellSized(cfg.n, tr[k]) && Enabled(cfg, tr[k], acts[k]) && tr[k + 1] == Next(cfg, tr[k], acts[k])
  }

  /** The PUTs decided by the first t actions, in that order. */
  function Decisions(tr: seq<State>, acts: seq<Action>, t: nat): seq<PutOp>
    requires Typed(tr, acts) && t <= |acts|
  {
    if t == 0 then []
    else
      var before := Decisions(tr, acts, t - 1);
      match acts[t - 1]
      case Decide(c) => before + [PutOp(Answerers(tr[t - 1].clients[c].votes), tr[t - 1].clients[c].value)]
      case _ => before
  }

  lemma {:induction false} InitialOk(n: nat, st: State)
    requires Initial(n, st)
    ensures Inv(n, st) && Abs(st) == Uniform(n, FIRST)
  {
    forall s: nat | s < n ensures LockOk(st, s) && AbsRow(st, s) == FIRST {
      forall c: nat ensures !Holds(st, s, c) && !Pending(st, s, c) {
        assert c < |st.clients| ==> InitialClient(n, st.clients[c]);
      }
    }
    forall s: nat, c: nat | s < n && c < |st.clients| ensures ClientOk(st.rows[s], st.clients[c], s, s in st.liars) {
      assert InitialClient(n, st.clients[c]);
    }
  }

  /** Refinement: after t steps the abstract store is the result of the t steps' decisions. */
  lemma {:induction false} RunsAreAtomicPuts(cfg: Config, tr: seq<State>, acts: seq<Action>, t: nat)
    requires Trace(cfg, tr, acts) && t <= |acts|
    ensures Inv(cfg.n, tr[t]) && tr[t].liars == tr[0].liars
    ensures LegalRun(cfg, Decisions(tr, acts, t)) && Runnable(cfg.n, Decisions(tr, acts, t))
    ensures Abs(tr[t]) == Final(cfg.n, FIRST, Decisions(tr, acts, t), tr[0].liars)
  {
    if t == 0 {
      InitialOk(cfg.n, tr[0]);
    } else {
      RunsAreAtomicPuts(cfg, tr, acts, t - 1);
      StepIsAtomicPutOrNothing(cfg, tr, acts, t - 1);
    }
  }

  lemma {:induction false} StepIsAtomicPutOrNothing(cfg: Config, tr: seq<State>, acts: seq<Action>, t: nat)
    requires Trace(cfg, tr, acts) && t < |acts| && Inv(cfg.n, tr[t]) && tr[t].liars == tr[0].liars
    requires LegalRun(cfg, Decisions(tr, acts, t)) && Runnable(cfg.n, Decisions(tr, acts, t))
    requires Abs(tr[t]) == Final(cfg.n, FIRST, Decisions(tr, acts, t), tr[0].liars)
    ensures Inv(cfg.n, tr[t + 1]) && tr[t + 1].liars == tr[0].liars
    ensures LegalRun(cfg, Decisions(tr, acts, t + 1)) && Runnable(cfg.n, Decisions(tr, acts, t + 1))
    ensures Abs(tr[t + 1]) == Final(cfg.n, FIRST, Decisions(tr, acts, t + 1), tr[0].liars)
  {
    hide NewVno;
    var st := tr[t];
    match acts[t]
    case At(s, c, m) =>
      MoveKeepsAbs(cfg, st, s, c, m);
    case Abort(c) =>
      AbortKeepsAbs(cfg, st, c);
    case Decide(c) =>
      DecideIsAtomicPut(cfg, st, c);
      FinalStep(cfg.n, FIRST, Decisions(tr, acts, t), PutOp(Answerers(st.clients[c].votes), st.clients[c].value), tr[0].liars);
  }

  /** The k-th client to decide writes version FIRST.vno + k, however the PUTs interleave and
      whatever the liars claim, as long as every client hears enough voters. */
  lemma {:induction false} DecisionsCountVersions(cfg: Config, nw: nat, tr: seq<State>, acts: seq<Action>, t: nat)
    requires Trace(cfg, tr, acts) && t < |acts| && acts[t].Decide? && nw <= cfg.n
    requires Runnable(cfg.n, Decisions(tr, acts, t + 1))
    requires HeardEnough(cfg.n, nw, |tr[0].liars|, Decisions(tr, acts, t + 1))
    ensures Answerers(tr[t].clients[acts[t].c].votes) != {}
    ensures DecidedVno(tr[t].clients[acts[t].c].votes) == FIRST.vno + |Decisions(tr, acts, t)| + 1
  {
    hide NewVno, Final, Inv, Next;
    var st, c, liars := tr[t], acts[t].c, tr[0].liars;
    var votes := st.clients[c].votes;
    var voters := Answerers(votes);
    var before, all := Decisions(tr, acts, t), Decisions(tr, acts, t + 1);
    assert WellSized(cfg.n, tr[t]) && Enabled(cfg, tr[t], acts[t]);
    RunsAreAtomicPuts(cfg, tr, acts, t);
    VotesAreCurrent(cfg.n, st, c);
    DecidedIsNewVno(Abs(st), votes, voters, liars);
    assert all[|before|] == PutOp(voters, st.clients[c].value) && all[..|before|] == before;
    VersionsCountPuts(cfg.n, nw, FIRST, all, liars, |before|);
  }

  lemma {:induction false} DecidedIsNewVno(s: Store, votes: seq<Reply>, voters: set<nat>, liars: set<nat>)
    requires voters == Answerers(votes) && voters <= Below(|s|) && voters != {}
    requires votes == PutAnswers(s, voters, liars)
    ensures NewVno(s, voters, liars) == DecidedVno(votes)
  {
    PutBoxIsWhatClientSees(s, voters, liars);
  }

  /** A GET that hears enough unlocked servers in one state of a run returns the value of the
      PUT decided last, although other servers may still be waiting for their updates and
      some may lie; and it reports exactly the up-to-date servers that lied. */
  lemma {:induction false} GetAtOnceIsLatest(cfg: Config, nw: nat, tr: seq<State>, acts: seq<Action>, t: nat, heard: set<nat>)
    requires Trace(cfg, tr, acts) && t <= |acts| && nw <= cfg.n
    requires Runnable(cfg.n, Decisions(tr, acts, t))
    requires HeardEnough(cfg.n, nw, |tr[0].liars|, Decisions(tr, acts, t))
    requires heard <= Below(cfg.n) && |heard| + nw > cfg.n + 2 * |tr[0].liars|
    requires |tr[t].rows| == cfg.n && forall i: nat :: i in heard && i < cfg.n ==> !tr[t].rows[i].lock
    ensures
      var rs := GetAnswers(Rows(tr[t]), heard, tr[t].liars);
      var puts := Decisions(tr, acts, t);
      && Cast(GetBallots(rs)) != {}
      && rs[Winner(GetBallots(rs))].value == LastValue(FIRST.value, puts)
      && ReportedByGet(rs, Winner(GetBallots(rs)))
         == heard * Holders(Abs(tr[t]), FIRST.vno + |puts|) * tr[t].liars
  {
    hide NewVno, Final, Abs, Inv, Next, Enabled, GetBallots, ReportedByGet, Holders;
    var puts, liars := Decisions(tr, acts, t), tr[0].liars;
    RunsAreAtomicPuts(cfg, tr, acts, t);
    forall i: nat | i in heard && i < cfg.n ensures Rows(tr[t])[i] == Abs(tr[t])[i] {
      AbsOfUnlocked(cfg.n, tr[t], i);
    }
    assert GetAnswers(Rows(tr[t]), heard, liars) == GetAnswers(Abs(tr[t]), heard, liars);
    RunStaysCurrent(cfg.n, nw, FIRST, puts, liars);
    GetFindsLatest(Abs(tr[t]), nw, heard, liars, FIRST.vno + |puts|, LastValue(FIRST.value, puts));
  }

  /** What the servers themselves hold. */
  function Rows(st: State): Store {
    seq(|st.rows|, i requires 0 <= i < |st.rows| => Held(st.rows[i]))
  }

  // ----- locks are let go -----

  /** How many more steps the holder of a lock at server s can take there. */
  function DelayOf(cl: ClientState, s: nat): nat
    requires s < |cl.votes| && s < |cl.handlers|
  {
    match cl.handlers[s]
    case Written => 1
    case Waiting(_) =>
      if cl.status == Voting then if Answered(cl.votes[s]) then 3 else 4
      else if cl.status.Decided? && Answered(cl.votes[s]) then 2
      else 1
    case _ => 0
  }

  function Delay(st: State, s: nat, c: nat): nat {
    if c < |st.clients| && s < |st.clients[c].votes| && s < |st.clients[c].handlers| then DelayOf(st.clients[c], s) else 0
  }

  /** Steps of the client, and of its handler at this server. */
  predicate Concerns(a: Action, s: nat, c: nat) {
    a.c == c && (a.At? ==> a.s == s)
  }

  lemma {:induction false} MoveCountsDown(row: Row, cl: ClientState, s: nat, lier: bool, m: Move)
    requires s < |cl.votes| && s < |cl.handlers| && MoveEnabled(row, cl, s, m) && DelayOf(cl, s) > 0
    ensures DelayOf(MoveClient(row, cl, s, lier, m), s) < DelayOf(cl, s)
  {
  }

  /** Every step of the holder shortens the delay, and no other step changes it. */
  lemma {:induction false} HolderCountsDown(cfg: Config, st: State, s: nat, c: nat, a: Action)
    requires Inv(cfg.n, st) && s < cfg.n && Holds(st, s, c) && Enabled(cfg, st, a)
    ensures Concerns(a, s, c) ==> Delay(Next(cfg, st, a), s, c) < Delay(st, s, c) <= 4
    ensures !Concerns(a, s, c) ==> Delay(Next(cfg, st, a), s, c) == Delay(st, s, c)
  {
    hide LockOk, DecidedVno, MoveRow;
    assert ClientOk(st.rows[s], st.clients[c], s, s in st.liars);
    if a.At? && Concerns(a, s, c) {
      hide MoveClient, MoveEnabled;
      MoveCountsDown(st.rows[s], st.clients[c], s, s in st.liars, a.m);
    }
  }

  /** When the delay is over the server is unlocked. */
  lemma {:induction false} DelayOverUnlocks(cfg: Config, st: State, s: nat, c: nat, a: Action)
    requires Inv(cfg.n, st) && s < cfg.n && Holds(st, s, c) && Enabled(cfg, st, a) && Inv(cfg.n, Next(cfg, st, a))
    requires Delay(Next(cfg, st, a), s, c) == 0
    ensures !Next(cfg, st, a).rows[s].lock
  {
    hide DecidedVno;
    var st' := Next(cfg, st, a);
    assert LockOk(st, s) && LockOk(st', s);
    assert st.rows[s].lock;
    forall d: nat ensures !Holds(st', s, d) {
      assert d != c ==> !Holds(st, s, d);
    }
  }

  /** No lock is stuck: in every reachable state in which a server is locked, its only
      holder has a step to take. */
  lemma {:induction false} HolderCanMove(cfg: Config, st: State, s: nat) returns (c: nat, a: Action)
    requires Inv(cfg.n, st) && s < cfg.n && st.rows[s].lock
    ensures Holds(st, s, c) && Concerns(a, s, c) && Enabled(cfg, st, a)
    ensures forall d: nat :: Holds(st, s, d) ==> d == c
  {
    assert LockOk(st, s);
    c :| Holds(st, s, c);
    var cl := st.clients[c];
    if cl.handlers[s] == Written {
      a := At(s, c, Release);
    } else if cl.status == Aborted || !Answered(cl.votes[s]) {
      a := At(s, c, Expire);
    } else if cl.status == Voting {
      a := Abort(c);
    } else {
      a := At(s, c, Update);
    }
  }

  function HolderSteps(acts: seq<Action>, s: nat, c: nat): nat {
    if |acts| == 0 then 0
    else HolderSteps(acts[..|acts| - 1], s, c) + if Concerns(acts[|acts| - 1], s, c) then 1 else 0
  }

  /** However a run goes on, a lock is held for at most three steps of its holder: the
      fourth one, if not an earlier one, unlocks the server. */
  lemma {:induction false} LocksAreShort(cfg: Config, tr: seq<State>, acts: seq<Action>, s: nat, c: nat, t: nat, u: nat)
    requires Trace(cfg, tr, acts) && t <= u <= |acts| && s < cfg.n
    requires forall k :: t <= k <= u ==> Holds(tr[k], s, c)
    ensures HolderSteps(acts[t..u], s, c) + Delay(tr[u], s, c) <= Delay(tr[t], s, c)
    ensures HolderSteps(acts[t..u], s, c) <= 3
  {
    hide Inv, Next, Enabled, Abs, Initial, Final, Decisions, LegalRun, Runnable, Holds, Delay, Concerns;
    assert Typed(tr, acts);
    RunsAreAtomicPuts(cfg, tr, acts, t);
    RunsAreAtomicPuts(cfg, tr, acts, u);
    DelayOfHolder(cfg.n, tr[t], s, c);
    DelayOfHolder(cfg.n, tr[u], s, c);
    if t < u {
      LocksAreShort(cfg, tr, acts, s, c, t, u - 1);
      RunsAreAtomicPuts(cfg, tr, acts, u - 1);
      HolderCountsDown(cfg, tr[u - 1], s, c, acts[u - 1]);
      assert acts[t..u][..u - t - 1] == acts[t..u - 1];
    }
  }

  lemma {:induction false} DelayOfHolder(n: nat, st: State, s: nat, c: nat)
    requires Inv(n, st) && s < n && Holds(st, s, c)
    ensures 1 <= Delay(st, s, c) <= 4
  {
  }

  /** Once no handler holds a lock, the servers themselves hold the result of the decided
      PUTs, and all of them are unlocked. */
  lemma {:induction false} QuietServersHoldTheResult(cfg: Config, tr: seq<State>, acts: seq<Action>, t: nat)
    requires Trace(cfg, tr, acts) && t <= |acts|
    requires forall s: nat, c: nat :: s < cfg.n ==> !Holds(tr[t], s, c)
    ensures Runnable(cfg.n, Decisions(tr, acts, t))
    ensures Rows(tr[t]) == Final(cfg.n, FIRST, Decisions(tr, acts, t), tr[0].liars)
    ensures forall s :: 0 <= s < |tr[t].rows| ==> !tr[t].rows[s].lock
  {
    hide NewVno, Final, Next, Enabled;
    RunsAreAtomicPuts(cfg, tr, acts, t);
    forall s: nat | s < cfg.n ensures !tr[t].rows[s].lock && Rows(tr[t])[s] == Abs(tr[t])[s] {
      assert LockOk(tr[t], s);
      AbsOfUnlocked(cfg.n, tr[t], s);
    }
  }

  lemma {:induction false} DecisionsGrow(tr: seq<State>, acts: seq<Action>, t: nat, u: nat)
    requires Typed(tr, acts) && t <= u <= |acts|
    ensures |Decisions(tr, acts, t)| <= |Decisions(tr, acts, u)|
    ensures Decisions(tr, acts, t) == Decisions(tr, acts, u)[..|Decisions(tr, acts, t)|]
  {
    if t < u {
      DecisionsGrow(tr, acts, t, u - 1);
    }
  }

  // ----- a GET in the middle of a run -----

  /** Server i answers the GET in state number when[i], with its own row. */
  function AnswersOverTime(n: nat, tr: seq<State>, heard: set<nat>, when: seq<nat>): seq<Reply>
    requires |when| == n
    requires forall i: nat :: i in heard && i < n ==> when[i] < |tr| && i < |tr[when[i]].rows|
  {
    seq(n, i requires 0 <= i < n =>
          if i in heard then Answer(Held(tr[when[i]].rows[i]), i, i in tr[when[i]].liars) else SILENT)
  }

  /** Servers answer between steps t0 and t1, and only while the key is unlocked. */
  ghost predicate AnsweredBetween(n: nat, tr: seq<State>, heard: set<nat>, when: seq<nat>, t0: nat, t1: nat) {
    && |when| == n && t1 < |tr|
    && forall i: nat :: i in heard ==>
         i < n && t0 <= when[i] <= t1 && i < |tr[when[i]].rows| && !tr[when[i]].rows[i].lock
  }

  /** Without a decision in between, what an unlocked server answers is what it holds in the
      abstract store at the end. */
  lemma {:induction false} QuietAnswer(cfg: Config, tr: seq<State>, acts: seq<Action>, t0: nat, t: nat, t1: nat, i: nat)
    requires Trace(cfg, tr, acts) && t0 <= t <= t1 <= |acts| && i < cfg.n
    requires Typed(tr, acts) && |Decisions(tr, acts, t0)| == |Decisions(tr, acts, t1)|
    ensures |tr[t].rows| == |Abs(tr[t1])| == cfg.n && tr[t].liars == tr[0].liars == tr[t1].liars
    ensures !tr[t].rows[i].lock ==> Held(tr[t].rows[i]) == Abs(tr[t1])[i]
  {
    hide NewVno, Final, Next, Enabled, Decisions, AbsRow, LockOk, ClientOk;
    RunsAreAtomicPuts(cfg, tr, acts, t);
    RunsAreAtomicPuts(cfg, tr, acts, t1);
    DecisionsGrow(tr, acts, t0, t);
    DecisionsGrow(tr, acts, t, t1);
    var now, all := Decisions(tr, acts, t), Decisions(tr, acts, t1);
    assert now == all[..|now|] && |now| == |all|;
    assert now == all;
    if !tr[t].rows[i].lock {
      AbsOfUnlocked(cfg.n, tr[t], i);
    }
  }

  lemma {:induction false} QuietAnswers(cfg: Config, tr: seq<State>, acts: seq<Action>, heard: set<nat>, when: seq<nat>,
                                        t0: nat, t1: nat)
    requires Trace(cfg, tr, acts) && Typed(tr, acts) && t0 <= t1 <= |acts|
    requires AnsweredBetween(cfg.n, tr, heard, when, t0, t1)
    requires |Decisions(tr, acts, t0)| == |Decisions(tr, acts, t1)|
    ensures AnswersOverTime(cfg.n, tr, heard, when) == GetAnswers(Abs(tr[t1]), heard, tr[0].liars)
  {
    hide Trace, Decisions, Abs, Answer;
    var rs := AnswersOverTime(cfg.n, tr, heard, when);
    RunLength(cfg, tr, acts, t1);
    forall i: nat | i < cfg.n ensures rs[i] == GetAnswers(Abs(tr[t1]), heard, tr[0].liars)[i] {
      if i in heard {
        QuietAnswer(cfg, tr, acts, t0, when[i], t1, i);
      }
    }
  }

  lemma {:induction false} RunLength(cfg: Config, tr: seq<State>, acts: seq<Action>, t: nat)
    requires Trace(cfg, tr, acts) && t <= |acts|
    ensures |Abs(tr[t])| == cfg.n
  {
    RunsAreAtomicPuts(cfg, tr, acts, t);
  }

  /** A GET that hears enough unlocked servers, at any moments between which no PUT is decided,
      returns the value of the PUT decided last, although other servers may still be waiting
      for their updates and some may lie; and it reports exactly the up-to-date servers that
      lied. */
  lemma {:induction false} GetBetweenDecisionsIsLatest(cfg: Config, nw: nat, tr: seq<State>, acts: seq<Action>,
                                                       heard: set<nat>, when: seq<nat>, t0: nat, t1: nat)
    requires Trace(cfg, tr, acts) && Typed(tr, acts) && t0 <= t1 <= |acts| && nw <= cfg.n
    requires Runnable(cfg.n, Decisions(tr, acts, t1))
    requires HeardEnough(cfg.n, nw, |tr[0].liars|, Decisions(tr, acts, t1))
    requires AnsweredBetween(cfg.n, tr, heard, when, t0, t1) && |heard| + nw > cfg.n + 2 * |tr[0].liars|
    requires |Decisions(tr, acts, t0)| == |Decisions(tr, acts, t1)|
    ensures
      var rs := AnswersOverTime(cfg.n, tr, heard, when);
      var puts := Decisions(tr, acts, t1);
      && Cast(GetBallots(rs)) != {}
      && rs[Winner(GetBallots(rs))].value == LastValue(FIRST.value, puts)
      && ReportedByGet(rs, Winner(GetBallots(rs)))
         == heard * Holders(Abs(tr[t1]), FIRST.vno + |puts|) * tr[0].liars
  {
    hide NewVno, Final, Abs, Inv, Next, Enabled, GetBallots, ReportedByGet, Holders, Decisions, AnswersOverTime, Trace;
    var puts, liars := Decisions(tr, acts, t1), tr[0].liars;
    QuietAnswers(cfg, tr, acts, heard, when, t0, t1);
    RunsAreAtomicPuts(cfg, tr, acts, t1);
    RunLength(cfg, tr, acts, t1);
    RunStaysCurrent(cfg.n, nw, FIRST, puts, liars);
    GetFindsLatest(Abs(tr[t1]), nw, heard, liars, FIRST.vno + |puts|, LastValue(FIRST.value, puts));
  }

  /** One answer of such a GET is some decided PUT, and not older than what its server held at t0. */
  lemma {:induction false} AnswerIsSomePut(cfg: Config, nw: nat, tr: seq<State>, acts: seq<Action>, i: nat,
                                           t0: nat, t: nat, t1: nat) returns (k: nat)
    requires Typed(tr, acts) && Trace(cfg, tr, acts) && t0 <= t <= t1 <= |acts| && i < cfg.n
    requires Inv(cfg.n, tr[t]) && !tr[t].rows[i].lock
    requires nw <= cfg.n && Runnable(cfg.n, Decisions(tr, acts, t1)) && HeardEnough(cfg.n, nw, |tr[0].liars|, Decisions(tr, acts, t1))
    ensures k <= |Decisions(tr, acts, t1)|
    ensures Held(tr[t].rows[i]) == Replica(FIRST.vno + k, LastValue(FIRST.value, Decisions(tr, acts, t1)[..k]))
    ensures Runnable(cfg.n, Decisions(tr, acts, t0))
    ensures Final(cfg.n, FIRST, Decisions(tr, acts, t0), tr[0].liars)[i].vno <= FIRST.vno + k
  {
    hide NewVno, Final, Trace;
    var all, now := Decisions(tr, acts, t1), Decisions(tr, acts, t);
    DecisionsGrow(tr, acts, t, t1);
    DecisionsGrow(tr, acts, t0, t);
    RunsAreAtomicPuts(cfg, tr, acts, t);
    AbsOfUnlocked(cfg.n, tr[t], i);
    k := ReplicaHistory(cfg.n, nw, FIRST, now, tr[0].liars, i);
    assert now[..k] == all[..k];
    VersionsGrow(cfg.n, nw, FIRST, now, tr[0].liars, |Decisions(tr, acts, t0)|, i);
  }

  /** Among enough answers, one is at least as new as the last PUT decided by t0. */
  lemma {:induction false} SomeAnswerIsFresh(cfg: Config, tr: seq<State>, acts: seq<Action>,
                                             heard: set<nat>, t0: nat) returns (h: nat)
    requires |tr| > 0 && Accepted(cfg) && 3 * cfg.nw > 2 * cfg.n + 2 * |tr[0].liars| && LegalGet(cfg, heard)
    requires Typed(tr, acts) && t0 <= |acts| && LegalRun(cfg, Decisions(tr, acts, t0))
    ensures h in heard && Runnable(cfg.n, Decisions(tr, acts, t0))
    ensures Final(cfg.n, FIRST, Decisions(tr, acts, t0), tr[0].liars)[h].vno == FIRST.vno + |Decisions(tr, acts, t0)|
  {
    hide NewVno;
    var puts := Decisions(tr, acts, t0);
    var nw := WriteQuorum(cfg, |tr[0].liars|, puts);
    RunStaysCurrent(cfg.n, nw, FIRST, puts, tr[0].liars);
    var s := Final(cfg.n, FIRST, puts, tr[0].liars);
    Overlap(heard, Holders(s, FIRST.vno + |puts|), cfg.n);
    h :| h in heard * Holders(s, FIRST.vno + |puts|);
  }

  /** The answer that server i sends during such a GET. */
  lemma {:induction false} AnswerInTime(cfg: Config, nw: nat, tr: seq<State>, acts: seq<Action>, heard: set<nat>,
                                        when: seq<nat>, t0: nat, t1: nat, i: nat) returns (k: nat)
    requires Typed(tr, acts) && Trace(cfg, tr, acts) && t0 <= t1 <= |acts|
    requires AnsweredBetween(cfg.n, tr, heard, when, t0, t1) && i in heard
    requires nw <= cfg.n && Runnable(cfg.n, Decisions(tr, acts, t1)) && HeardEnough(cfg.n, nw, |tr[0].liars|, Decisions(tr, acts, t1))
    ensures i < cfg.n && k <= |Decisions(tr, acts, t1)|
    ensures
      var r := AnswersOverTime(cfg.n, tr, heard, when)[i];
      var value := LastValue(FIRST.value, Decisions(tr, acts, t1)[..k]);
      r.vno == FIRST.vno + k && r.value == if i in tr[0].liars then value + "lie" else value
    ensures Runnable(cfg.n, Decisions(tr, acts, t0))
    ensures Final(cfg.n, FIRST, Decisions(tr, acts, t0), tr[0].liars)[i].vno <= FIRST.vno + k
  {
    hide NewVno, Trace, Abs, Final, Inv, Enabled, Next, Decisions, LastValue;
    RunsAreAtomicPuts(cfg, tr, acts, when[i]);
    k := AnswerIsSomePut(cfg, nw, tr, acts, i, t0, when[i], t1);
    var held := Held(tr[when[i]].rows[i]);
    assert held.value + "" == held.value;
  }

  /** Only servers that were heard can be chosen. */
  lemma {:induction false} ChosenWasHeard(n: nat, tr: seq<State>, heard: set<nat>, when: seq<nat>, h: nat) returns (w: nat)
    requires |when| == n && h in heard && h < n
    requires forall i: nat :: i in heard && i < n ==> when[i] < |tr| && i < |tr[when[i]].rows|
    requires AnswersOverTime(n, tr, heard, when)[h].vno >= 0
    ensures
      var rs := AnswersOverTime(n, tr, heard, when);
      && Cast(GetBallots(rs)) != {} && w == Winner(GetBallots(rs))
      && w in heard && w < n && rs[w].vno >= rs[h].vno
  {
    hide GetBallots;
    var rs := AnswersOverTime(n, tr, heard, when);
    assert Readable(rs[h]);
    GetPicksTopVersion(rs);
    w := Winner(GetBallots(rs));
    assert w < |rs|;
  }

  /** A GET whose answers are all sent between steps t0 and t1 returns the version and the
      value of the k-th PUT decided, for some k that is no less than the number decided by t0.
      Liars cannot make it go back; only when the chosen server lies is the value altered. */
  lemma {:induction false} GetIsNeverStale(cfg: Config, tr: seq<State>, acts: seq<Action>,
                                           heard: set<nat>, when: seq<nat>, t0: nat, t1: nat) returns (k: nat)
    requires Trace(cfg, tr, acts) && t0 <= t1 <= |acts|
    requires Accepted(cfg) && 3 * cfg.nw > 2 * cfg.n + 2 * |tr[0].liars|
    requires LegalGet(cfg, heard) && AnsweredBetween(cfg.n, tr, heard, when, t0, t1)
    ensures |Decisions(tr, acts, t0)| <= k <= |Decisions(tr, acts, t1)|
    ensures
      var rs := AnswersOverTime(cfg.n, tr, heard, when);
      var value := LastValue(FIRST.value, Decisions(tr, acts, t1)[..k]);
      && Cast(GetBallots(rs)) != {}
      && var w := Winner(GetBallots(rs));
         rs[w].vno == FIRST.vno + k && rs[w].value == if w in tr[0].liars then value + "lie" else value
  {
    assert Typed(tr, acts);
    hide NewVno, Trace, Abs, Final, Inv, GetBallots, Enabled, Next, Decisions, LastValue, AnswersOverTime, HeardEnough, Runnable, LegalRun, AbsRow, LockOk, ClientOk;
    RunsAreAtomicPuts(cfg, tr, acts, t1);
    RunsAreAtomicPuts(cfg, tr, acts, t0);
    var nw := WriteQuorum(cfg, |tr[0].liars|, Decisions(tr, acts, t1));
    var h := SomeAnswerIsFresh(cfg, tr, acts, heard, t0);
    var kh := AnswerInTime(cfg, nw, tr, acts, heard, when, t0, t1, h);
    var w := ChosenWasHeard(cfg.n, tr, heard, when, h);
    k := AnswerInTime(cfg, nw, tr, acts, heard, when, t0, t1, w);
  }
}
