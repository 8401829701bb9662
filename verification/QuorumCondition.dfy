/**
  Exactly which configurations make reads return the latest write.

  The client accepts any Nr and Nw with Nr + Nw > N and Nw > N / 2
  (Client.c:419). That is not enough for its plurality choice: with honest
  servers, every GET after every run of PUTs returns the latest value if and
  only if 3 * Nw > 2 * N.
*/
module QuorumCondition {
  import opened Ballots
  import opened Replies
  import opened AtomicStore

  /** Every server starts with the value "value1" at version 1. */
  const FIRST := Replica(1, "value1")

  predicate ReadSet(cfg: Config, s: set<nat>) {
    s <= Below(cfg.n) && |s| >= cfg.nr
  }

  predicate WriteSet(cfg: Config, s: set<nat>) {
    s <= Below(cfg.n) && |s| >= cfg.nw
  }

  /** Every read quorum meets every write quorum, and every two write quorums meet. */
  ghost predicate QuorumsMeet(cfg: Config) {
    && (forall r: set<nat>, w: set<nat> :: ReadSet(cfg, r) && WriteSet(cfg, w) ==> r * w != {})
    && (forall w: set<nat>, v: set<nat> :: WriteSet(cfg, w) && WriteSet(cfg, v) ==> w * v != {})
  }

  /** Two quorums of these sizes can miss each other when they fit side by side. */
  lemma {:induction false} SideBySide(n: nat, a: nat, b: nat)
    requires a + b <= n
    ensures Below(a) <= Below(n) && |Below(a)| == a
    ensures Below(n) - Below(n - b) <= Below(n) && |Below(n) - Below(n - b)| == b
    ensures Below(a) * (Below(n) - Below(n - b)) == {}
  {
    hide Below;
    BelowSize(a);
    RangeSize(n - b, n);
  }

  /** What the start-up test is for: of the configurations whose quorums exist, it accepts
      exactly those whose quorums meet. */
  lemma {:induction false} AcceptedExactlyWhenQuorumsMeet(cfg: Config)
    requires cfg.nr <= cfg.n && cfg.nw <= cfg.n
    ensures Accepted(cfg) <==> QuorumsMeet(cfg)
  {
    hide Below;
    if Accepted(cfg) {
      forall r: set<nat>, w: set<nat> | ReadSet(cfg, r) && WriteSet(cfg, w) ensures r * w != {} {
        Overlap(r, w, cfg.n);
      }
      forall w: set<nat>, v: set<nat> | WriteSet(cfg, w) && WriteSet(cfg, v) ensures w * v != {} {
        Overlap(w, v, cfg.n);
      }
    } else if cfg.nr + cfg.nw <= cfg.n {
      SideBySide(cfg.n, cfg.nr, cfg.nw);
      assert ReadSet(cfg, Below(cfg.nr)) && WriteSet(cfg, Below(cfg.n) - Below(cfg.n - cfg.nw));
    } else {
      SideBySide(cfg.n, cfg.nw, cfg.nw);
      assert WriteSet(cfg, Below(cfg.nw)) && WriteSet(cfg, Below(cfg.n) - Below(cfg.n - cfg.nw));
    }
  }

  ghost predicate ReadsLatest(cfg: Config, puts: seq<PutOp>, heard: set<nat>)
    requires Runnable(cfg.n, puts)
  {
    ReadValue(Final(cfg.n, FIRST, puts, {}), heard, {}) == Some(LastValue(FIRST.value, puts))
  }

  /** Every GET of every run of PUTs returns the value of the latest PUT. */
  ghost predicate Safe(cfg: Config) {
    forall puts: seq<PutOp>, heard: set<nat> ::
      LegalRun(cfg, puts) && LegalGet(cfg, heard) && Runnable(cfg.n, puts) ==> ReadsLatest(cfg, puts, heard)
  }

  /** A configuration whose write quorum exceeds the number of servers never completes
      a PUT, so every quorum overlaps all of its writes anyway. */
  lemma {:induction false} WriteQuorum(cfg: Config, f: nat, puts: seq<PutOp>) returns (nw: nat)
    requires Accepted(cfg) && 3 * cfg.nw > 2 * cfg.n + 2 * f && LegalRun(cfg, puts)
    ensures nw <= cfg.n && Runnable(cfg.n, puts) && HeardEnough(cfg.n, nw, f, puts)
    ensures forall heard :: LegalGet(cfg, heard) ==> |heard| + nw > cfg.n
  {
    if cfg.nw <= cfg.n {
      nw := cfg.nw;
    } else {
      nw := cfg.n;
      assert |puts| == 0 by {
        BelowSize(cfg.n);
        if |puts| > 0 {
          SubsetSize(puts[0].voters, Below(cfg.n));
        }
      }
    }
  }

  lemma {:induction false} EnoughIsSafe(cfg: Config)
    requires Accepted(cfg) && 3 * cfg.nw > 2 * cfg.n
    ensures Safe(cfg)
  {
    hide NewVno, ReadValue;
    forall puts: seq<PutOp>, heard: set<nat> | LegalRun(cfg, puts) && LegalGet(cfg, heard)
      ensures Runnable(cfg.n, puts) && ReadsLatest(cfg, puts, heard)
    {
      var nw := WriteQuorum(cfg, 0, puts);
      LiarsAreOutvoted(cfg.n, nw, FIRST, puts, heard, {});
    }
  }

  /** Voters that agree on a version pass it on. */
  lemma {:induction false} AgreedVersion(s: Store, voters: set<nat>, v: int)
    requires voters <= Below(|s|) && voters != {}
    requires forall i: nat :: i in voters ==> s[i].vno == v
    ensures NewVno(s, voters, {}) == v + 1
  {
  }

  /** A tie between two labels goes to the one that votes first. */
  lemma {:induction false} FirstLabelWins(bs: seq<Option<int>>, d: nat, m: nat, x: int, y: int, w: nat)
    requires 0 < d < m <= |bs| && m - d <= d && x != y
    requires forall i :: 0 <= i < |bs| ==> bs[i] == if i < d then Some(x) else if i < m then Some(y) else None
    requires Wins(bs, w)
    ensures w < d
  {
    hide Below;
    RangeSize(d, m);
    BelowSize(d);
    assert Group(bs, x) == Below(d);
    assert Group(bs, y) == Below(m) - Below(d);
    assert bs[0] == Some(x);
  }

  /** When the stale voters come first and are as many as the fresh ones, the
      plurality picks the stale version. */
  lemma {:induction false} StaleVersionWins(s: Store, d: nat, m: nat)
    requires 0 < d < m <= |s| && m - d <= d
    requires forall i :: 0 <= i < |s| ==> s[i].vno == if i < d then 1 else 3
    ensures Below(m) != {} && NewVno(s, Below(m), {}) == 2
  {
    assert 0 in Below(m);
    var bs := PutBox(s, Below(m), {});
    FirstLabelWins(bs, d, m, 1, 3, PutChoice(s, Below(m), {}));
  }

  /** The run that goes wrong: two PUTs that miss the first servers, then one whose
      voters are those servers and some fresh ones. */
  function StaleRun(n: nat, nw: nat): seq<PutOp>
    requires nw <= n
  {
    var late := Below(n) - Below(n - nw);
    [PutOp(late, "a"), PutOp(late, "b"), PutOp(Below(nw), "c")]
  }

  lemma {:induction false} StaleRunLegal(cfg: Config)
    requires Accepted(cfg) && cfg.nw <= cfg.n
    ensures LegalRun(cfg, StaleRun(cfg.n, cfg.nw)) && Runnable(cfg.n, StaleRun(cfg.n, cfg.nw))
  {
    hide Below;
    RangeSize(cfg.n - cfg.nw, cfg.n);
    BelowSize(cfg.nw);
    var late := Below(cfg.n) - Below(cfg.n - cfg.nw);
    assert late != {} && Below(cfg.nw) != {};
    assert Below(cfg.nw) <= Below(cfg.n);
    var puts := StaleRun(cfg.n, cfg.nw);
    forall k | 0 <= k < |puts| ensures LegalPut(cfg, puts[k]) {
      assert puts[k].voters == if k < 2 then late else Below(cfg.nw);
    }
  }

  /** One more PUT by voters that agree on a version. */
  lemma {:induction false} AgreedPut(n: nat, rest: seq<PutOp>, p: PutOp, v: int)
    requires Runnable(n, rest) && Runnable(n, rest + [p])
    requires p.voters <= Below(n) && p.voters != {}
    requires NewVno(Final(n, FIRST, rest, {}), p.voters, {}) == v
    ensures forall i :: 0 <= i < n ==>
              Final(n, FIRST, rest + [p], {})[i]
              == if i in p.voters then Replica(v, p.value) else Final(n, FIRST, rest, {})[i]
  {
    hide NewVno, Final;
    FinalStep(n, FIRST, rest, p, {});
  }

  /** The first two PUTs of the run: the last servers agree, and the first ones are left behind. */
  lemma {:induction false} FreshWrites(n: nat, d: nat, late: set<nat>, rest: seq<PutOp>, p: PutOp, before: Replica)
    requires 0 < d < n && late == Below(n) - Below(d) && late != {} && p.voters == late
    requires Runnable(n, rest) && Runnable(n, rest + [p])
    requires forall i :: 0 <= i < n ==> Final(n, FIRST, rest, {})[i] == if i < d then FIRST else before
    ensures forall i :: 0 <= i < n ==>
              Final(n, FIRST, rest + [p], {})[i] == if i < d then FIRST else Replica(before.vno + 1, p.value)
  {
    hide NewVno, Final;
    AgreedVersion(Final(n, FIRST, rest, {}), late, before.vno);
    AgreedPut(n, rest, p, before.vno + 1);
  }

  /** After it, the last servers still hold the second value at a higher version than
      the third PUT wrote. */
  lemma {:induction false} StaleRunEnds(n: nat, nw: nat)
    requires 0 < nw && 2 * nw > n && 3 * nw <= 2 * n && Runnable(n, StaleRun(n, nw))
    ensures forall i :: 0 <= i < n ==>
              Final(n, FIRST, StaleRun(n, nw), {})[i] == if i < nw then Replica(2, "c") else Replica(3, "b")
  {
    hide NewVno, Final;
    var d := n - nw;
    var puts := StaleRun(n, nw);
    var one, two := [puts[0]], [puts[0], puts[1]];
    var late := Below(n) - Below(d);
    assert [] + [puts[0]] == one && one + [puts[1]] == two && two + [puts[2]] == puts;
    assert puts[0].voters == late && puts[1].voters == late && puts[2].voters == Below(nw);
    AllFirst(n);
    FreshWrites(n, d, late, [], puts[0], FIRST);
    FreshWrites(n, d, late, one, puts[1], Replica(2, "a"));
    StaleVersionWins(Final(n, FIRST, two, {}), d, nw);
    AgreedPut(n, two, puts[2], 2);
  }

  lemma {:induction false} AllFirst(n: nat)
    ensures forall i :: 0 <= i < n ==> Final(n, FIRST, [], {})[i] == FIRST
  {
  }

  lemma {:induction false} StaleRead(s: Store, nw: nat)
    requires nw < |s|
    requires forall i :: 0 <= i < |s| ==> s[i] == if i < nw then Replica(2, "c") else Replica(3, "b")
    ensures ReadValue(s, Below(|s|), {}) == Some("b")
  {
    var rs := GetAnswers(s, Below(|s|), {});
    assert Readable(rs[nw]) && rs[nw].vno == 3;
    assert TopVersion(rs) == 3;
    var bs := GetBallots(rs);
    assert nw in Cast(bs);
    var w := Winner(bs);
    assert rs[w].vno == 3;
    assert "b" + "" == "b";
  }

  lemma {:induction false} TooFewIsUnsafe(cfg: Config)
    requires Accepted(cfg) && cfg.nr <= cfg.n && 3 * cfg.nw <= 2 * cfg.n
    ensures !Safe(cfg)
  {
    var puts, heard := StaleRun(cfg.n, cfg.nw), Below(cfg.n);
    StaleRunLegal(cfg);
    StaleRunEnds(cfg.n, cfg.nw);
    StaleRead(Final(cfg.n, FIRST, puts, {}), cfg.nw);
    BelowSize(cfg.n);
    assert LegalGet(cfg, heard);
    assert LastValue(FIRST.value, puts) == "c" != "b";
    assert !ReadsLatest(cfg, puts, heard);
  }

  /** Among the accepted configurations whose quorums exist, reads are always fresh
      exactly when 3 * Nw > 2 * N. */
  lemma {:induction false} QuorumConditionIsExact(cfg: Config)
    requires Accepted(cfg) && cfg.nr <= cfg.n
    ensures Safe(cfg) <==> 3 * cfg.nw > 2 * cfg.n
  {
    if 3 * cfg.nw > 2 * cfg.n {
      EnoughIsSafe(cfg);
    } else {
      TooFewIsUnsafe(cfg);
    }
  }
}
