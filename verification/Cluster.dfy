/**
  Concurrent PUTs on one key, one message at a time (Client.c, Server.c).

  Any number of clients talk to n servers. For every client and server there is
  one handler thread, which locks the key and votes, waits for the update,
  writes it, and releases the lock. Each handler segment between two waits is
  one step. A vote may get lost, a server may refuse or never answer, a client
  may give up, and a handler may time out, but not on a client that counts its
  vote. Nothing else is assumed: the locks have no owner recorded.
*/
module Cluster {
  import opened Ballots
  import opened Replies
  import opened AtomicStore

  /** One server's entry for the key. */
  datatype Row = Row(vno: int, value: string, lock: bool)

  /** The handler of one client's connection at one server; Waiting carries the vote sent. */
  datatype Phase = Idle | Waiting(vote: Replica) | Written | Closed

  datatype Status = Voting | Decided(newVno: int) | Aborted

  datatype ClientState = ClientState(value: string, status: Status, votes: seq<Reply>, handlers: seq<Phase>)

  /** The liars, which never change, claim a version 10 higher when they vote. */
  datatype State = State(rows: seq<Row>, clients: seq<ClientState>, liars: set<nat>)

  /** One step of the handler or of the message between client c and server s. */
  datatype Move = Grant | Refuse | Hear | Update | Release | Expire

  datatype Action = At(s: nat, c: nat, m: Move) | Decide(c: nat) | Abort(c: nat)

  function Held(r: Row): Replica {
    Replica(r.vno, r.value)
  }

  predicate WellSized(n: nat, st: State) {
    && |st.rows| == n
    && forall c :: 0 <= c < |st.clients| ==> |st.clients[c].votes| == n && |st.clients[c].handlers| == n
  }

  predicate MoveEnabled(row: Row, cl: ClientState, s: nat, m: Move)
    requires s < |cl.votes| && s < |cl.handlers|
  {
    var h, counted := cl.handlers[s], Answered(cl.votes[s]);
    match m
    case Grant => h == Idle && !row.lock
    case Refuse => h == Idle
    case Hear => cl.status == Voting && h.Waiting? && !counted
    case Update => cl.status.Decided? && h.Waiting? && counted
    case Release => h == Written
    case Expire => h.Waiting? && (cl.status == Aborted || !counted)
  }

  function MoveRow(row: Row, cl: ClientState, m: Move): Row {
    match m
    case Grant => row.(lock := true)
    case Update => if cl.status.Decided? then Row(cl.status.newVno, cl.value, row.lock) else row
    case Release => row.(lock := false)
    case Expire => row.(lock := false)
    case _ => row
  }

  function MoveHandler(row: Row, h: Phase, m: Move): Phase {
    match m
    case Grant => Waiting(Held(row))
    case Hear => h
    case Update => Written
    case _ => Closed
  }

  function MoveClient(row: Row, cl: ClientState, s: nat, lier: bool, m: Move): ClientState
    requires s < |cl.votes| && s < |cl.handlers|
  {
    var h := cl.handlers[s];
    cl.(handlers := cl.handlers[s := MoveHandler(row, h, m)],
        votes := if m == Hear && h.Waiting? then cl.votes[s := Vote(h.vote, s, lier)] else cl.votes)
  }

  predicate Enabled(cfg: Config, st: State, a: Action)
    requires WellSized(cfg.n, st)
  {
    && a.c < |st.clients|
    && var cl := st.clients[a.c];
       match a
       case At(s, c, m) => s < cfg.n && MoveEnabled(st.rows[s], cl, s, m)
       case Decide(c) => cl.status == Voting && Answerers(cl.votes) != {} && |Answerers(cl.votes)| >= cfg.nw
       case Abort(c) => cl.status == Voting
  }

  /** The version a client writes after it has stopped listening. */
  ghost function DecidedVno(votes: seq<Reply>): int
    requires Answerers(votes) != {}
  {
    CastOfPut(votes);
    votes[Winner(PutBallots(votes))].vno + 1
  }

  ghost function Next(cfg: Config, st: State, a: Action): State
    requires WellSized(cfg.n, st) && Enabled(cfg, st, a)
  {
    var cl := st.clients[a.c];
    match a
    case At(s, c, m) =>
      st.(rows := st.rows[s := MoveRow(st.rows[s], cl, m)],
          clients := st.clients[c := MoveClient(st.rows[s], cl, s, s in st.liars, m)])
    case Decide(c) =>
      st.(clients := st.clients[c := cl.(status := Decided(DecidedVno(cl.votes)))])
    case Abort(c) =>
      st.(clients := st.clients[c := cl.(status := Aborted)])
  }

  // ----- the invariant -----

  predicate Holds(st: State, s: nat, c: nat) {
    && c < |st.clients| && s < |st.clients[c].handlers|
    && (st.clients[c].handlers[s].Waiting? || st.clients[c].handlers[s] == Written)
  }

  /** What one client's record promises about server s. */
  predicate ClientOk(row: Row, cl: ClientState, s: nat, lier: bool)
    requires s < |cl.votes| && s < |cl.handlers|
  {
    && (cl.handlers[s].Waiting? ==> cl.handlers[s].vote == Held(row))
    && (!Answered(cl.votes[s]) ==> cl.votes[s] == SILENT)
    && (cl.status == Voting && Answered(cl.votes[s]) ==>
          cl.handlers[s].Waiting? && cl.votes[s] == Vote(cl.handlers[s].vote, s, lier))
    && (cl.status.Decided? && Answered(cl.votes[s]) ==> cl.handlers[s] != Idle)
    && (cl.handlers[s] == Written ==> cl.status.Decided?)
  }

  /** At every server the lock is set exactly while one handler holds it. */
  ghost predicate LockOk(st: State, s: nat)
    requires s < |st.rows|
  {
    && (st.rows[s].lock <==> exists c: nat :: Holds(st, s, c))
    && (forall c: nat, d: nat :: Holds(st, s, c) && Holds(st, s, d) ==> c == d)
  }

  ghost predicate Inv(n: nat, st: State) {
    && WellSized(n, st)
    && (forall s: nat, c: nat :: s < n && c < |st.clients| ==> ClientOk(st.rows[s], st.clients[c], s, s in st.liars))
    && (forall s: nat :: s < n ==> LockOk(st, s))
  }

  /** A server that a decided client has locked but not yet updated. */
  predicate Pending(st: State, s: nat, c: nat) {
    && c < |st.clients| && s < |st.clients[c].handlers| && s < |st.clients[c].votes|
    && st.clients[c].status.Decided? && st.clients[c].handlers[s].Waiting? && Answered(st.clients[c].votes[s])
  }

  ghost function Writer(st: State, s: nat): (c: nat)
    requires exists c: nat :: Pending(st, s, c)
    ensures Pending(st, s, c)
  {
    var c: nat :| Pending(st, s, c);
    c
  }

  /** Servers locked by a decided client count as already updated. */
  ghost function AbsRow(st: State, s: nat): Replica
    requires s < |st.rows|
  {
    if exists c: nat :: Pending(st, s, c) then
      var c := Writer(st, s);
      Replica(st.clients[c].status.newVno, st.clients[c].value)
    else
      Held(st.rows[s])
  }

  ghost function Abs(st: State): (r: Store)
    ensures |r| == |st.rows|
    ensures forall s: nat :: s < |r| ==> r[s] == AbsRow(st, s)
  {
    seq(|st.rows|, s requires 0 <= s < |st.rows| => AbsRow(st, s))
  }

  lemma {:induction false} AbsOfPending(n: nat, st: State, s: nat, c: nat)
    requires Inv(n, st) && s < n && Pending(st, s, c)
    ensures AbsRow(st, s) == Replica(st.clients[c].status.newVno, st.clients[c].value)
  {
    assert LockOk(st, s);
    assert Holds(st, s, Writer(st, s)) && Holds(st, s, c);
  }

  lemma {:induction false} AbsOfUnlocked(n: nat, st: State, s: nat)
    requires Inv(n, st) && s < n && !st.rows[s].lock
    ensures AbsRow(st, s) == Held(st.rows[s])
  {
    assert LockOk(st, s);
    forall c: nat | Pending(st, s, c) ensures Holds(st, s, c) {
    }
  }

  // ----- every step keeps the invariant -----

  lemma {:induction false} MoveKeepsLock(n: nat, st: State, st': State, s: nat, c: nat, t: nat)
    requires Inv(n, st) && WellSized(n, st') && |st'.clients| == |st.clients|
    requires s < n && c < |st.clients| && t < n
    requires forall d: nat :: d < |st.clients| && (d != c || t != s) ==>
               st'.clients[d].handlers[t] == st.clients[d].handlers[t]
    requires t != s ==> st'.rows[t] == st.rows[t]
    requires !st.rows[s].lock || Holds(st, s, c) || (!Holds(st', s, c) && st'.rows[s].lock == st.rows[s].lock)
    requires st'.rows[s].lock <==> Holds(st', s, c) || (st.rows[s].lock && !Holds(st, s, c))
    ensures LockOk(st', t)
  {
    assert LockOk(st, t);
    forall d: nat | d != c || t != s ensures Holds(st', t, d) <==> Holds(st, t, d) {
    }
    if t == s && st'.rows[s].lock && !Holds(st', s, c) {
      var d: nat :| Holds(st, s, d);
      assert Holds(st', s, d);
    } else if t != s && st.rows[t].lock {
      var d: nat :| Holds(st, t, d);
      assert Holds(st', t, d);
    }
  }

  lemma {:induction false} OneMoveOk(row: Row, cl: ClientState, s: nat, lier: bool, m: Move)
    requires s < |cl.votes| && s < |cl.handlers| && MoveEnabled(row, cl, s, m) && ClientOk(row, cl, s, lier)
    ensures ClientOk(MoveRow(row, cl, m), MoveClient(row, cl, s, lier, m), s, lier)
    ensures Held(MoveRow(row, cl, m)) != Held(row) ==> m == Update
  {
  }

  lemma {:induction false} MoveKeepsInv(cfg: Config, st: State, s: nat, c: nat, m: Move)
    requires Inv(cfg.n, st) && Enabled(cfg, st, At(s, c, m))
    ensures Inv(cfg.n, Next(cfg, st, At(s, c, m)))
  {
    var st' := Next(cfg, st, At(s, c, m));
    assert LockOk(st, s) && ClientOk(st.rows[s], st.clients[c], s, s in st.liars);
    assert Holds(st, s, c) ==> st.rows[s].lock;
    assert Holds(st', s, c) <==> m == Grant || m == Hear || m == Update;
    forall t: nat | t < cfg.n ensures LockOk(st', t) {
      MoveKeepsLock(cfg.n, st, st', s, c, t);
    }
    forall t: nat, d: nat | t < cfg.n && d < |st.clients| ensures ClientOk(st'.rows[t], st'.clients[d], t, t in st.liars) {
      assert ClientOk(st.rows[t], st.clients[d], t, t in st.liars);
      if t == s {
        OneMoveOk(st.rows[s], st.clients[c], s, s in st.liars, m);
        assert d != c && m == Update ==> Holds(st, s, c) && !Holds(st, s, d);
      }
    }
  }

  /** A locked server whose holder has not decided, or has already written, shows its own row. */
  lemma {:induction false} AbsOfQuietHolder(n: nat, st: State, s: nat, c: nat)
    requires Inv(n, st) && s < n && Holds(st, s, c) && !Pending(st, s, c)
    ensures AbsRow(st, s) == Held(st.rows[s])
  {
    assert LockOk(st, s);
    forall d: nat | Pending(st, s, d) ensures Holds(st, s, d) {
    }
  }

  lemma {:induction false} AbsFrame(n: nat, st: State, st': State, t: nat)
    requires Inv(n, st) && Inv(n, st') && t < n && |st'.clients| == |st.clients|
    requires forall d: nat :: Pending(st', t, d) <==> Pending(st, t, d)
    requires forall d: nat :: d < |st.clients| && Pending(st, t, d) ==>
               st'.clients[d].status == st.clients[d].status && st'.clients[d].value == st.clients[d].value
    requires Held(st'.rows[t]) == Held(st.rows[t])
    ensures AbsRow(st', t) == AbsRow(st, t)
  {
    if exists d: nat :: Pending(st, t, d) {
      var d := Writer(st, t);
      AbsOfPending(n, st, t, d);
      AbsOfPending(n, st', t, d);
    }
  }

  /** No message between a client and a server changes the abstract store. */
  lemma {:induction false} MoveKeepsAbsRow(cfg: Config, st: State, s: nat, c: nat, m: Move)
    requires Inv(cfg.n, st) && Enabled(cfg, st, At(s, c, m))
    requires Inv(cfg.n, Next(cfg, st, At(s, c, m)))
    ensures AbsRow(Next(cfg, st, At(s, c, m)), s) == AbsRow(st, s)
  {
    var st' := Next(cfg, st, At(s, c, m));
    assert ClientOk(st.rows[s], st.clients[c], s, s in st.liars) && LockOk(st, s) && LockOk(st', s);
    if m == Grant {
      AbsOfUnlocked(cfg.n, st, s);
      AbsOfQuietHolder(cfg.n, st', s, c);
    } else if m == Update {
      AbsOfPending(cfg.n, st, s, c);
      AbsOfQuietHolder(cfg.n, st', s, c);
    } else if m == Release || m == Expire {
      AbsOfQuietHolder(cfg.n, st, s, c);
      AbsOfUnlocked(cfg.n, st', s);
    } else {
      AbsFrame(cfg.n, st, st', s);
    }
  }

  lemma {:induction false} MoveKeepsAbs(cfg: Config, st: State, s: nat, c: nat, m: Move)
    requires Inv(cfg.n, st) && Enabled(cfg, st, At(s, c, m))
    ensures Inv(cfg.n, Next(cfg, st, At(s, c, m))) && Abs(Next(cfg, st, At(s, c, m))) == Abs(st)
  {
    MoveKeepsInv(cfg, st, s, c, m);
    var st' := Next(cfg, st, At(s, c, m));
    forall t: nat | t < cfg.n ensures AbsRow(st', t) == AbsRow(st, t) {
      if t == s {
        MoveKeepsAbsRow(cfg, st, s, c, m);
      } else {
        AbsFrame(cfg.n, st, st', t);
      }
    }
  }

  lemma {:induction false} AbortKeepsAbs(cfg: Config, st: State, c: nat)
    requires Inv(cfg.n, st) && Enabled(cfg, st, Abort(c))
    ensures Inv(cfg.n, Next(cfg, st, Abort(c))) && Abs(Next(cfg, st, Abort(c))) == Abs(st)
  {
    var st' := Next(cfg, st, Abort(c));
    SameHandlersKeepInv(cfg.n, st, st', c);
    forall t: nat | t < cfg.n ensures AbsRow(st', t) == AbsRow(st, t) {
      AbsFrame(cfg.n, st, st', t);
    }
  }

  /** A change of one client's status keeps the locks as they are. */
  lemma {:induction false} SameHandlersKeepInv(n: nat, st: State, st': State, c: nat)
    requires Inv(n, st) && c < |st.clients| && st.clients[c].status == Voting
    requires st'.rows == st.rows && st'.liars == st.liars
    requires exists status :: st'.clients == st.clients[c := st.clients[c].(status := status)]
    ensures Inv(n, st')
  {
    forall t: nat | t < n ensures LockOk(st', t) {
      assert LockOk(st, t);
      forall d: nat ensures Holds(st', t, d) <==> Holds(st, t, d) {
      }
    }
    forall t: nat, d: nat | t < n && d < |st.clients| ensures ClientOk(st'.rows[t], st'.clients[d], t, t in st.liars) {
      assert ClientOk(st.rows[t], st.clients[d], t, t in st.liars);
    }
  }

  // ----- a decision is one atomic write -----

  /** The votes a client counts are what its voters hold in the abstract store. */
  lemma {:induction false} VotesAreCurrent(n: nat, st: State, c: nat)
    requires Inv(n, st) && c < |st.clients| && st.clients[c].status == Voting
    ensures Answerers(st.clients[c].votes) <= Below(n)
    ensures st.clients[c].votes == PutAnswers(Abs(st), Answerers(st.clients[c].votes), st.liars)
  {
    var votes := st.clients[c].votes;
    forall s: nat | s < n ensures votes[s] == if s in Answerers(votes) then Vote(AbsRow(st, s), s, s in st.liars) else SILENT {
      assert ClientOk(st.rows[s], st.clients[c], s, s in st.liars);
      if Answered(votes[s]) {
        AbsOfQuietHolder(n, st, s, c);
      }
    }
  }

  lemma {:induction false} DecideIsAtomicPut(cfg: Config, st: State, c: nat)
    requires Inv(cfg.n, st) && Enabled(cfg, st, Decide(c))
    ensures var p := PutOp(Answerers(st.clients[c].votes), st.clients[c].value);
            && Inv(cfg.n, Next(cfg, st, Decide(c)))
            && LegalPut(cfg, p)
            && Abs(Next(cfg, st, Decide(c))) == ApplyPut(Abs(st), p, st.liars)
  {
    var st' := Next(cfg, st, Decide(c));
    var cl := st.clients[c];
    var voters := Answerers(cl.votes);
    SameHandlersKeepInv(cfg.n, st, st', c);
    VotesAreCurrent(cfg.n, st, c);
    PutBoxIsWhatClientSees(Abs(st), voters, st.liars);
    assert NewVno(Abs(st), voters, st.liars) == DecidedVno(cl.votes);
    forall t: nat | t < cfg.n
      ensures AbsRow(st', t) == if t in voters then Replica(DecidedVno(cl.votes), cl.value) else AbsRow(st, t)
    {
      assert ClientOk(st.rows[t], cl, t, t in st.liars);
      if t in voters {
        AbsOfPending(cfg.n, st', t, c);
      } else {
        AbsFrame(cfg.n, st, st', t);
      }
    }
  }
}
