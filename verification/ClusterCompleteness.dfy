/**
  Every sequence of atomic PUTs that the configuration allows is what some run of the
  concurrent store does: the converse of the refinement in `ClusterRuns`.

  The run has one client for each PUT. Its voters grant and are heard, the other servers
  refuse, it decides, and its voters are updated and released.
*/
module ClusterCompleteness {
  import opened Ballots
  import opened Replies
  import opened AtomicStore
  import opened QuorumCondition
  import opened Cluster
  import opened ClusterRuns

  function FreshClient(n: nat, value: string): ClientState {
    ClientState(value, Voting, seq(n, _ => SILENT), seq(n, _ => Idle))
  }

  function Start(n: nat, puts: seq<PutOp>, liars: set<nat>): State {
    State(seq(n, _ => Row(FIRST.vno, FIRST.value, false)),
          seq(|puts|, k requires 0 <= k < |puts| => FreshClient(n, puts[k].value)), liars)
  }

  /** A run so far, and one step more. */
  datatype Path = Path(tr: seq<State>, acts: seq<Action>)

  ghost predicate IsRun(cfg: Config, r: Path) {
    Typed(r.tr, r.acts) && Trace(cfg, r.tr, r.acts)
  }

  function Last(r: Path): State
    requires |r.tr| > 0
  {
    r.tr[|r.tr| - 1]
  }

  function Done(r: Path): seq<PutOp>
    requires Typed(r.tr, r.acts)
  {
    Decisions(r.tr, r.acts, |r.acts|)
  }

  lemma {:induction false} SameDecisions(r: Path, r': Path, t: nat)
    requires Typed(r.tr, r.acts) && Typed(r'.tr, r'.acts) && t <= |r.acts| <= |r'.acts|
    requires forall k :: 0 <= k < t ==> r.acts[k] == r'.acts[k] && r.tr[k] == r'.tr[k]
    ensures Decisions(r.tr, r.acts, t) == Decisions(r'.tr, r'.acts, t)
  {
    if t > 0 {
      SameDecisions(r, r', t - 1);
    }
  }

  /** Any enabled step can come next. */
  lemma {:induction false} Extend(cfg: Config, r: Path, a: Action) returns (r': Path)
    requires IsRun(cfg, r) && WellSized(cfg.n, Last(r)) && Enabled(cfg, Last(r), a)
    ensures IsRun(cfg, r') && Last(r') == Next(cfg, Last(r), a) && r'.tr[0] == r.tr[0]
    ensures WellSized(cfg.n, Last(r'))
    ensures Done(r') == match a
                        case Decide(c) => Done(r) + [PutOp(Answerers(Last(r).clients[c].votes), Last(r).clients[c].value)]
                        case _ => Done(r)
  {
    hide Enabled, Next, Initial;
    var st' := Next(cfg, Last(r), a);
    r' := Path(r.tr + [st'], r.acts + [a]);
    EnabledHasClient(cfg, Last(r), a);
    NextWellSized(cfg, Last(r), a);
    ExtendTrace(cfg, r, a, r');
    SameDecisions(r, r', |r.acts|);
  }

  lemma {:induction false} EnabledHasClient(cfg: Config, st: State, a: Action)
    requires WellSized(cfg.n, st) && Enabled(cfg, st, a)
    ensures a.c < |st.clients|
  {
  }

  lemma {:induction false} NextWellSized(cfg: Config, st: State, a: Action)
    requires WellSized(cfg.n, st) && Enabled(cfg, st, a)
    ensures WellSized(cfg.n, Next(cfg, st, a))
  {
    hide DecidedVno;
  }

  lemma {:induction false} ExtendTrace(cfg: Config, r: Path, a: Action, r': Path)
    requires IsRun(cfg, r) && WellSized(cfg.n, Last(r)) && Enabled(cfg, Last(r), a) && a.c < |Last(r).clients|
    requires r' == Path(r.tr + [Next(cfg, Last(r), a)], r.acts + [a])
    ensures IsRun(cfg, r')
  {
    hide Enabled, Next, Initial, WellSized;
    forall k | 0 <= k < |r'.acts| ensures r'.acts[k].c < |r'.tr[k].clients| {
      assert r'.tr[k] == r.tr[k];
    }
    forall k | 0 <= k < |r'.acts|
      ensures WellSized(cfg.n, r'.tr[k]) && Enabled(cfg, r'.tr[k], r'.acts[k]) && r'.tr[k + 1] == Next(cfg, r'.tr[k], r'.acts[k])
    {
      assert r'.tr[k] == r.tr[k];
      if k < |r.acts| {
        assert r'.acts[k] == r.acts[k] && r'.tr[k + 1] == r.tr[k + 1];
      }
    }
  }

  // ----- one PUT -----

  /** All servers are unlocked, clients from c on have not started, and those before hold nothing. */
  ghost predicate Ready(n: nat, st: State, c: nat, puts: seq<PutOp>) {
    && WellSized(n, st) && |st.clients| == |puts|
    && (forall s :: 0 <= s < n ==> !st.rows[s].lock)
    && (forall d :: c <= d < |puts| ==> st.clients[d] == FreshClient(n, puts[d].value))
    && (forall d, s :: 0 <= d < c && d < |puts| && 0 <= s < n ==> st.clients[d].handlers[s] == Closed)
  }

  /** Client c has asked the first i servers. */
  ghost predicate Asked(n: nat, st: State, c: nat, p: PutOp, i: nat) {
    && WellSized(n, st) && c < |st.clients| && i <= n
    && st.clients[c].value == p.value && st.clients[c].status == Voting
    && (forall s: nat :: s < n ==> (st.rows[s].lock <==> s < i && s in p.voters))
    && (forall s: nat :: s < n ==> (Answered(st.clients[c].votes[s]) <==> s < i && s in p.voters))
    && (forall s: nat :: s < n ==>
          if s >= i then st.clients[c].handlers[s] == Idle
          else if s in p.voters then st.clients[c].handlers[s].Waiting?
          else st.clients[c].handlers[s] == Closed)
  }

  /** Client c has decided, and the first i servers are finished. */
  ghost predicate Finished(n: nat, st: State, c: nat, p: PutOp, i: nat) {
    && WellSized(n, st) && c < |st.clients| && i <= n
    && st.clients[c].status.Decided?
    && (forall s: nat :: s < n ==> (st.rows[s].lock <==> s >= i && s in p.voters))
    && (forall s: nat :: s < n ==> (Answered(st.clients[c].votes[s]) <==> s in p.voters))
    && (forall s: nat :: s < n ==>
          if s >= i && s in p.voters then st.clients[c].handlers[s].Waiting? else st.clients[c].handlers[s] == Closed)
  }

  ghost predicate OthersSame(st: State, st': State, c: nat) {
    |st'.clients| == |st.clients| && forall d :: 0 <= d < |st.clients| && d != c ==> st'.clients[d] == st.clients[d]
  }

  lemma {:induction false} AskOne(cfg: Config, r: Path, c: nat, p: PutOp, i: nat) returns (r': Path)
    requires IsRun(cfg, r) && Asked(cfg.n, Last(r), c, p, i) && i < cfg.n
    ensures IsRun(cfg, r') && Asked(cfg.n, Last(r'), c, p, i + 1) && r'.tr[0] == r.tr[0]
    ensures OthersSame(Last(r), Last(r'), c) && Done(r') == Done(r)
  {
    hide Trace, Done, DecidedVno, Answerers;
    if i in p.voters {
      r' := Extend(cfg, r, At(i, c, Grant));
      r' := Extend(cfg, r', At(i, c, Hear));
    } else {
      r' := Extend(cfg, r, At(i, c, Refuse));
    }
  }

  lemma {:induction false} AskAll(cfg: Config, r: Path, c: nat, p: PutOp, i: nat) returns (r': Path)
    requires IsRun(cfg, r) && Asked(cfg.n, Last(r), c, p, i)
    ensures IsRun(cfg, r') && Asked(cfg.n, Last(r'), c, p, cfg.n) && r'.tr[0] == r.tr[0]
    ensures OthersSame(Last(r), Last(r'), c) && Done(r') == Done(r)
    decreases cfg.n - i
  {
    hide Trace, Done, Asked;
    AskedInRange(cfg.n, Last(r), c, p, i);
    r' := r;
    if i < cfg.n {
      r' := AskOne(cfg, r, c, p, i);
      r' := AskAll(cfg, r', c, p, i + 1);
    }
  }

  lemma {:induction false} AskedInRange(n: nat, st: State, c: nat, p: PutOp, i: nat)
    requires Asked(n, st, c, p, i)
    ensures i <= n
  {
  }

  /** With all its voters heard, however many there are beyond nw, the client can decide. */
  lemma {:induction false} DecideNow(cfg: Config, r: Path, c: nat, p: PutOp) returns (r': Path)
    requires IsRun(cfg, r) && Asked(cfg.n, Last(r), c, p, cfg.n) && LegalPut(cfg, p)
    ensures IsRun(cfg, r') && Finished(cfg.n, Last(r'), c, p, 0) && r'.tr[0] == r.tr[0]
    ensures OthersSame(Last(r), Last(r'), c) && Done(r') == Done(r) + [p]
  {
    hide Trace, Done, DecidedVno;
    var votes := Last(r).clients[c].votes;
    assert Answerers(votes) == p.voters;
    r' := Extend(cfg, r, Decide(c));
    assert PutOp(p.voters, p.value) == p;
  }

  lemma {:induction false} FinishOne(cfg: Config, r: Path, c: nat, p: PutOp, i: nat) returns (r': Path)
    requires IsRun(cfg, r) && Finished(cfg.n, Last(r), c, p, i) && i < cfg.n
    ensures IsRun(cfg, r') && Finished(cfg.n, Last(r'), c, p, i + 1) && r'.tr[0] == r.tr[0]
    ensures OthersSame(Last(r), Last(r'), c) && Done(r') == Done(r)
  {
    hide Trace, Done, DecidedVno, Answerers;
    r' := r;
    if i in p.voters {
      r' := Extend(cfg, r, At(i, c, Update));
      r' := Extend(cfg, r', At(i, c, Release));
    }
  }

  lemma {:induction false} FinishAll(cfg: Config, r: Path, c: nat, p: PutOp, i: nat) returns (r': Path)
    requires IsRun(cfg, r) && Finished(cfg.n, Last(r), c, p, i)
    ensures IsRun(cfg, r') && Finished(cfg.n, Last(r'), c, p, cfg.n) && r'.tr[0] == r.tr[0]
    ensures OthersSame(Last(r), Last(r'), c) && Done(r') == Done(r)
    decreases cfg.n - i
  {
    hide Trace, Done, Finished;
    FinishedInRange(cfg.n, Last(r), c, p, i);
    r' := r;
    if i < cfg.n {
      r' := FinishOne(cfg, r, c, p, i);
      r' := FinishAll(cfg, r', c, p, i + 1);
    }
  }

  lemma {:induction false} FinishedInRange(n: nat, st: State, c: nat, p: PutOp, i: nat)
    requires Finished(n, st, c, p, i)
    ensures i <= n
  {
  }

  lemma {:induction false} ReadyIsAsked(n: nat, st: State, c: nat, puts: seq<PutOp>)
    requires Ready(n, st, c, puts) && c < |puts|
    ensures Asked(n, st, c, puts[c], 0)
  {
  }

  lemma {:induction false} FinishedIsReady(n: nat, st: State, st': State, c: nat, puts: seq<PutOp>)
    requires Ready(n, st, c, puts) && c < |puts| && Finished(n, st', c, puts[c], n) && OthersSame(st, st', c)
    ensures Ready(n, st', c + 1, puts)
  {
  }

  /** The next client's PUT, from its first vote to its last release. */
  lemma {:induction false} OnePut(cfg: Config, r: Path, c: nat, puts: seq<PutOp>) returns (r': Path)
    requires IsRun(cfg, r) && Ready(cfg.n, Last(r), c, puts) && c < |puts| && LegalPut(cfg, puts[c])
    ensures IsRun(cfg, r') && Ready(cfg.n, Last(r'), c + 1, puts) && r'.tr[0] == r.tr[0]
    ensures Done(r') == Done(r) + [puts[c]]
  {
    hide Trace, Done, Ready, Asked, Finished;
    ReadyIsAsked(cfg.n, Last(r), c, puts);
    var r1 := AskAll(cfg, r, c, puts[c], 0);
    var r2 := DecideNow(cfg, r1, c, puts[c]);
    r' := FinishAll(cfg, r2, c, puts[c], 0);
    FinishedIsReady(cfg.n, Last(r), Last(r'), c, puts);
  }

  lemma {:induction false} StartIsRun(cfg: Config, puts: seq<PutOp>, liars: set<nat>)
    ensures IsRun(cfg, Path([Start(cfg.n, puts, liars)], []))
    ensures Ready(cfg.n, Start(cfg.n, puts, liars), 0, puts)
    ensures Done(Path([Start(cfg.n, puts, liars)], [])) == []
  {
  }

  lemma {:induction false} FirstPuts(cfg: Config, puts: seq<PutOp>, liars: set<nat>, c: nat) returns (r: Path)
    requires LegalRun(cfg, puts) && c <= |puts|
    ensures IsRun(cfg, r) && Ready(cfg.n, Last(r), c, puts) && r.tr[0] == Start(cfg.n, puts, liars)
    ensures Done(r) == puts[..c]
  {
    hide Trace, Done, Ready, LegalPut;
    if c == 0 {
      r := Path([Start(cfg.n, puts, liars)], []);
      StartIsRun(cfg, puts, liars);
    } else {
      r := FirstPuts(cfg, puts, liars, c - 1);
      r := OnePut(cfg, r, c - 1, puts);
    }
  }

  /** Every legal sequence of atomic PUTs, whatever its voters beyond nw and whoever lies,
      is the result of a run, at the end of which no server is locked. */
  lemma {:induction false} AtomicPutsHappen(cfg: Config, puts: seq<PutOp>, liars: set<nat>)
    returns (tr: seq<State>, acts: seq<Action>)
    requires LegalRun(cfg, puts)
    ensures Typed(tr, acts) && Trace(cfg, tr, acts) && tr[0].liars == liars
    ensures Decisions(tr, acts, |acts|) == puts && Runnable(cfg.n, puts)
    ensures forall s: nat, c: nat :: s < cfg.n ==> !Holds(tr[|acts|], s, c) && !tr[|acts|].rows[s].lock
    ensures Rows(tr[|acts|]) == Final(cfg.n, FIRST, puts, liars)
  {
    hide Next, Enabled, NewVno, Final, Initial;
    var r := FirstPuts(cfg, puts, liars, |puts|);
    tr, acts := r.tr, r.acts;
    assert puts[..|puts|] == puts;
    forall s: nat, c: nat | s < cfg.n ensures !Holds(tr[|acts|], s, c) {
      assert c < |puts| ==> tr[|acts|].clients[c].handlers[s] == Closed;
    }
    QuietServersHoldTheResult(cfg, tr, acts, |acts|);
  }

  // ----- independence -----

  /** Steps of different clients at different servers do not see each other: each stays
      possible after the other, and their order does not matter. */
  lemma {:induction false} StepsCommute(cfg: Config, st: State, s: nat, c: nat, m: Move, t: nat, d: nat, k: Move)
    requires WellSized(cfg.n, st) && s != t && c != d
    requires Enabled(cfg, st, At(s, c, m)) && Enabled(cfg, st, At(t, d, k))
    ensures
      var one, two := Next(cfg, st, At(s, c, m)), Next(cfg, st, At(t, d, k));
      && WellSized(cfg.n, one) && Enabled(cfg, one, At(t, d, k))
      && WellSized(cfg.n, two) && Enabled(cfg, two, At(s, c, m))
      && Next(cfg, one, At(t, d, k)) == Next(cfg, two, At(s, c, m))
  {
    hide MoveRow, MoveClient, MoveEnabled;
    SizesKept(st.rows[s], st.clients[c], s, s in st.liars, m);
    SizesKept(st.rows[t], st.clients[d], t, t in st.liars, k);
    var row, row' := MoveRow(st.rows[s], st.clients[c], m), MoveRow(st.rows[t], st.clients[d], k);
    var cl, cl' := MoveClient(st.rows[s], st.clients[c], s, s in st.liars, m),
                   MoveClient(st.rows[t], st.clients[d], t, t in st.liars, k);
    assert st.rows[s := row][t := row'] == st.rows[t := row'][s := row];
    assert st.clients[c := cl][d := cl'] == st.clients[d := cl'][c := cl];
  }

  lemma {:induction false} SizesKept(row: Row, cl: ClientState, s: nat, lier: bool, m: Move)
    requires s < |cl.votes| && s < |cl.handlers|
    ensures |MoveClient(row, cl, s, lier, m).votes| == |cl.votes| && |MoveClient(row, cl, s, lier, m).handlers| == |cl.handlers|
  {
  }

  /** A server grants, refuses and releases by what it knows itself: neither the client's
      status nor the votes it has counted matter. */
  lemma {:induction false} ServersAreBlind(row: Row, cl: ClientState, cl': ClientState, s: nat, lier: bool, m: Move)
    requires s < |cl.votes| == |cl'.votes| && s < |cl.handlers| && s < |cl'.handlers|
    requires cl.handlers[s] == cl'.handlers[s] && m in {Grant, Refuse, Release}
    ensures MoveEnabled(row, cl, s, m) <==> MoveEnabled(row, cl', s, m)
    ensures MoveRow(row, cl, m) == MoveRow(row, cl', m)
    ensures MoveClient(row, cl, s, lier, m).handlers[s] == MoveClient(row, cl', s, lier, m).handlers[s]
    ensures MoveClient(row, cl, s, lier, m).votes == cl.votes
  {
  }
}
