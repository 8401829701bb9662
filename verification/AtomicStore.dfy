/**
  The replicated store when every PUT and every GET happens in one step.

  A PUT hears a set of voters, takes the plurality version, and writes
  (version + 1, value) to all of them (Client.c). Servers may be liars
  (Server.c): a liar adds "lie" to the value it sends to a GET and 10 to the
  version it votes with, but stores what it is told.
*/
module AtomicStore {
  import opened Ballots
  import opened Replies

  datatype Replica = Replica(vno: int, value: string)

  datatype Config = Config(n: nat, nr: nat, nw: nat)

  datatype PutOp = PutOp(voters: set<nat>, value: string)

  type Store = seq<Replica>

  const LIER_VNO_INCR := 10

  const SILENT := Reply(-1, 0, "")

  /** The start-up test of the client. */
  predicate Accepted(cfg: Config) {
    cfg.nr + cfg.nw > cfg.n && 2 * cfg.nw > cfg.n
  }

  predicate LegalPut(cfg: Config, p: PutOp) {
    p.voters <= Below(cfg.n) && p.voters != {} && |p.voters| >= cfg.nw
  }

  predicate LegalRun(cfg: Config, puts: seq<PutOp>) {
    forall k :: 0 <= k < |puts| ==> LegalPut(cfg, puts[k])
  }

  predicate LegalGet(cfg: Config, heard: set<nat>) {
    heard <= Below(cfg.n) && heard != {} && |heard| >= cfg.nr
  }

  /** What putResponse sends as a vote. */
  function Vote(r: Replica, sock: nat, lier: bool): Reply {
    Reply(sock, r.vno + (if lier then LIER_VNO_INCR else 0), r.value)
  }

  /** What getResponse sends. */
  function Answer(r: Replica, sock: nat, lier: bool): Reply {
    Reply(sock, r.vno, r.value + (if lier then "lie" else ""))
  }

  function PutAnswers(s: Store, voters: set<nat>, liars: set<nat>): seq<Reply> {
    seq(|s|, i requires 0 <= i < |s| => if i in voters then Vote(s[i], i, i in liars) else SILENT)
  }

  function GetAnswers(s: Store, heard: set<nat>, liars: set<nat>): seq<Reply> {
    seq(|s|, i requires 0 <= i < |s| => if i in heard then Answer(s[i], i, i in liars) else SILENT)
  }

  /** The version server i claims when it votes. */
  function Claim(s: Store, liars: set<nat>, i: nat): int
    requires i < |s|
  {
    s[i].vno + (if i in liars then LIER_VNO_INCR else 0)
  }

  /** The ballot box of a PUT, and that it is the one selectServer fills. */
  function PutBox(s: Store, voters: set<nat>, liars: set<nat>): seq<Option<int>> {
    seq(|s|, i requires 0 <= i < |s| => if i in voters then Some(Claim(s, liars, i)) else None)
  }

  lemma {:induction false} PutBoxIsWhatClientSees(s: Store, voters: set<nat>, liars: set<nat>)
    ensures PutBallots(PutAnswers(s, voters, liars)) == PutBox(s, voters, liars)
  {
  }

  lemma {:induction false} VotersAnswer(s: Store, voters: set<nat>, liars: set<nat>)
    requires voters <= Below(|s|)
    ensures Cast(PutBox(s, voters, liars)) == voters
  {
    var bs := PutBox(s, voters, liars);
    forall i | i in voters ensures i in Cast(bs) {
      assert bs[i].Some?;
    }
  }

  /** The index the client picks, and the version it writes. */
  ghost function PutChoice(s: Store, voters: set<nat>, liars: set<nat>): (w: nat)
    requires voters <= Below(|s|) && voters != {}
    ensures w in voters && w < |s|
    ensures Wins(PutBox(s, voters, liars), w)
  {
    VotersAnswer(s, voters, liars);
    Winner(PutBox(s, voters, liars))
  }

  ghost function NewVno(s: Store, voters: set<nat>, liars: set<nat>): int
    requires voters <= Below(|s|) && voters != {}
  {
    Claim(s, liars, PutChoice(s, voters, liars)) + 1
  }

  ghost function ApplyPut(s: Store, p: PutOp, liars: set<nat>): (s': Store)
    requires p.voters <= Below(|s|) && p.voters != {}
    ensures |s'| == |s|
  {
    seq(|s|, i requires 0 <= i < |s| =>
          if i in p.voters then Replica(NewVno(s, p.voters, liars), p.value) else s[i])
  }

  ghost predicate Runnable(n: nat, puts: seq<PutOp>) {
    forall k :: 0 <= k < |puts| ==> puts[k].voters <= Below(n) && puts[k].voters != {}
  }

  ghost function ApplyAll(s: Store, puts: seq<PutOp>, liars: set<nat>): (s': Store)
    requires Runnable(|s|, puts)
    ensures |s'| == |s|
  {
    if |puts| == 0 then s
    else ApplyPut(ApplyAll(s, puts[..|puts| - 1], liars), puts[|puts| - 1], liars)
  }

  function Uniform(n: nat, r: Replica): (s: Store)
    ensures |s| == n && forall i :: 0 <= i < n ==> s[i] == r
  {
    seq(n, _ => r)
  }

  /** The store after a run of PUTs on n equal replicas. */
  ghost function Final(n: nat, r0: Replica, puts: seq<PutOp>, liars: set<nat>): (s: Store)
    requires Runnable(n, puts)
    ensures |s| == n
  {
    ApplyAll(Uniform(n, r0), puts, liars)
  }

  lemma {:induction false} FinalStep(n: nat, r0: Replica, rest: seq<PutOp>, p: PutOp, liars: set<nat>)
    requires Runnable(n, rest) && Runnable(n, rest + [p])
    ensures p.voters <= Below(n) && p.voters != {}
    ensures Final(n, r0, rest + [p], liars) == ApplyPut(Final(n, r0, rest, liars), p, liars)
  {
    assert (rest + [p])[|rest|] == p && (rest + [p])[..|rest|] == rest;
  }

  /** The value of the latest PUT, x0 before the first one. */
  function LastValue(x0: string, puts: seq<PutOp>): string {
    if |puts| == 0 then x0 else puts[|puts| - 1].value
  }

  /** What a GET returns; None when the client has no bucket to choose from. */
  ghost function ReadValue(s: Store, heard: set<nat>, liars: set<nat>): Option<string> {
    var rs := GetAnswers(s, heard, liars);
    if Cast(GetBallots(rs)) == {} then None else Some(rs[Winner(GetBallots(rs))].value)
  }

  // ----- the invariant -----

  function Holders(s: Store, v: int): set<nat> {
    set i: nat | i < |s| && s[i].vno == v
  }

  /** Servers that are newer than the latest version, or hold it with another value. */
  function Strays(s: Store, latest: int, value: string): set<nat> {
    set i: nat | i < |s| && (s[i].vno > latest || (s[i].vno == latest && s[i].value != value))
  }

  /** At least nw replicas hold the one latest version and value; all others are older. */
  ghost predicate Current(s: Store, nw: nat, latest: int, value: string) {
    latest >= 0 && |Holders(s, latest)| >= nw && Strays(s, latest, value) == {}
  }

  lemma {:induction false} NoStrays(s: Store, nw: nat, latest: int, value: string)
    requires Current(s, nw, latest, value)
    ensures forall i :: 0 <= i < |s| ==> s[i].vno <= latest && (s[i].vno == latest ==> s[i].value == value)
  {
    forall i | 0 <= i < |s| ensures s[i].vno <= latest && (s[i].vno == latest ==> s[i].value == value) {
      assert i !in Strays(s, latest, value);
    }
  }

  lemma {:induction false} LatestHasMajority(s: Store, nw: nat, voters: set<nat>, liars: set<nat>, latest: int, value: string)
    requires Current(s, nw, latest, value)
    requires voters <= Below(|s|) && |voters| > 2 * (|s| - nw + |liars|)
    ensures 2 * |Group(PutBox(s, voters, liars), latest)| > |voters|
  {
    var bs := PutBox(s, voters, liars);
    var holders := Holders(s, latest);
    Overlap(voters, holders, |s|);
    var honest := voters * holders - liars;
    SubsetSize(voters, (voters - holders) + (honest + liars));
    forall i | i in honest ensures i in Group(bs, latest) {
      assert bs[i] == Some(latest);
    }
    SubsetSize(honest, Group(bs, latest));
  }

  /** With enough votes the plurality version is the latest one, whatever the liars claim. */
  lemma {:induction false} PutFindsLatest(s: Store, nw: nat, voters: set<nat>, liars: set<nat>, latest: int, value: string)
    requires Current(s, nw, latest, value)
    requires voters <= Below(|s|) && |voters| > 2 * (|s| - nw + |liars|)
    ensures voters != {} && NewVno(s, voters, liars) == latest + 1
  {
    LatestHasMajority(s, nw, voters, liars, latest, value);
    var bs := PutBox(s, voters, liars);
    VotersAnswer(s, voters, liars);
    MajorityDecides(bs, latest);
    WinnerUnique(bs, PutChoice(s, voters, liars), Winner(bs));
  }

  /** The report of such a PUT names exactly the voters that claim a version above the
      latest, and no honest server is among them. */
  lemma {:induction false} PutReportsOverclaims(s: Store, nw: nat, voters: set<nat>, liars: set<nat>, latest: int, value: string)
    requires Current(s, nw, latest, value)
    requires voters <= Below(|s|) && voters != {} && |voters| > 2 * (|s| - nw + |liars|)
    ensures PutBallots(PutAnswers(s, voters, liars)) == PutBox(s, voters, liars)
    ensures ReportedByPut(PutAnswers(s, voters, liars), PutChoice(s, voters, liars))
            == set i | i in voters && Claim(s, liars, i) > latest
    ensures forall i :: i in ReportedByPut(PutAnswers(s, voters, liars), PutChoice(s, voters, liars)) ==> i in liars
  {
    LatestHasMajority(s, nw, voters, liars, latest, value);
    var rs, bs := PutAnswers(s, voters, liars), PutBox(s, voters, liars);
    PutBoxIsWhatClientSees(s, voters, liars);
    var w := PutChoice(s, voters, liars);
    VotersAnswer(s, voters, liars);
    MajorityDecides(bs, latest);
    PutFindsLatest(s, nw, voters, liars, latest, value);
    assert bs[w] == Some(latest) && rs[w].vno == latest;
    var reported := ReportedByPut(rs, w);
    forall i: nat ensures i in reported <==> i in voters && Claim(s, liars, i) > latest {
      if i in voters {
        assert bs[i] == Some(Claim(s, liars, i)) && rs[i].vno == Claim(s, liars, i);
      } else if i < |s| {
        assert bs[i] == None;
      }
    }
  }

  lemma {:induction false} PutKeepsCurrent(s: Store, nw: nat, p: PutOp, liars: set<nat>,
                                           latest: int, value: string, latest': int, value': string)
    requires Current(s, nw, latest, value)
    requires p.voters <= Below(|s|) && |p.voters| >= nw && |p.voters| > 2 * (|s| - nw + |liars|)
    requires latest' == latest + 1 && value' == p.value
    ensures p.voters != {} && Current(ApplyPut(s, p, liars), nw, latest', value')
  {
    PutFindsLatest(s, nw, p.voters, liars, latest, value);
    var s' := ApplyPut(s, p, liars);
    NoStrays(s, nw, latest, value);
    assert Holders(s', latest') == p.voters;
  }

  function GetBox(s: Store, heard: set<nat>, liars: set<nat>): seq<Option<string>> {
    GetBallots(GetAnswers(s, heard, liars))
  }

  lemma {:induction false} LatestIsTop(s: Store, nw: nat, heard: set<nat>, liars: set<nat>, latest: int, value: string)
    requires Current(s, nw, latest, value)
    requires heard <= Below(|s|) && heard * Holders(s, latest) != {}
    ensures TopVersion(GetAnswers(s, heard, liars)) == latest
  {
    var rs := GetAnswers(s, heard, liars);
    var h :| h in heard * Holders(s, latest);
    NoStrays(s, nw, latest, value);
    assert Readable(rs[h]) && rs[h].vno == latest;
    assert forall i :: 0 <= i < |rs| && Readable(rs[i]) ==> rs[i].vno <= latest;
  }

  /** Only up-to-date servers compete in a GET that hears one of them. */
  lemma {:induction false} LatestAnswersCompete(s: Store, nw: nat, heard: set<nat>, liars: set<nat>, latest: int, value: string)
    requires Current(s, nw, latest, value)
    requires heard <= Below(|s|) && heard * Holders(s, latest) != {}
    ensures TopVersion(GetAnswers(s, heard, liars)) == latest
    ensures forall i: nat :: i < |s| ==>
              GetBox(s, heard, liars)[i] ==
                if i !in heard * Holders(s, latest) then None
                else if i in liars then Some(value + "lie") else Some(value)
  {
    hide TopVersion, Below;
    LatestIsTop(s, nw, heard, liars, latest, value);
    NoStrays(s, nw, latest, value);
    assert value + "" == value;
  }

  /** Honest up-to-date servers agree on the value, and so do the lying ones. */
  lemma {:induction false} GroupsOfGet(s: Store, nw: nat, heard: set<nat>, liars: set<nat>, latest: int, value: string)
    requires Current(s, nw, latest, value)
    requires heard <= Below(|s|) && heard * Holders(s, latest) != {}
    ensures Cast(GetBox(s, heard, liars)) == heard * Holders(s, latest)
    ensures Group(GetBox(s, heard, liars), value) == heard * Holders(s, latest) - liars
    ensures forall y :: y != value ==> Group(GetBox(s, heard, liars), y) <= liars
  {
    LatestAnswersCompete(s, nw, heard, liars, latest, value);
    assert |value + "lie"| != |value|;
  }

  /** The latest value beats every altered one. */
  lemma {:induction false} HonestOutnumber(s: Store, nw: nat, heard: set<nat>, liars: set<nat>, latest: int, value: string)
    requires Current(s, nw, latest, value)
    requires heard <= Below(|s|) && |heard| + nw > |s| + 2 * |liars|
    ensures heard * Holders(s, latest) - liars != {}
    ensures forall y :: y != value ==>
              |Group(GetBox(s, heard, liars), y)| < |heard * Holders(s, latest) - liars|
  {
    var bs := GetBox(s, heard, liars);
    var current := heard * Holders(s, latest);
    Overlap(heard, Holders(s, latest), |s|);
    GroupsOfGet(s, nw, heard, liars, latest, value);
    SubsetSize(current, (current - liars) + liars);
    forall y | y != value ensures |Group(bs, y)| < |current - liars| {
      SubsetSize(Group(bs, y), liars);
    }
  }

  /** A GET that hears enough servers returns the latest value and reports exactly
      the up-to-date servers that lied. */
  lemma {:induction false} GetFindsLatest(s: Store, nw: nat, heard: set<nat>, liars: set<nat>, latest: int, value: string)
    requires Current(s, nw, latest, value)
    requires heard <= Below(|s|) && |heard| + nw > |s| + 2 * |liars|
    ensures ReadValue(s, heard, liars) == Some(value)
    ensures Cast(GetBox(s, heard, liars)) != {}
    ensures ReportedByGet(GetAnswers(s, heard, liars), Winner(GetBox(s, heard, liars)))
            == heard * Holders(s, latest) * liars
  {
    var bs := GetBox(s, heard, liars);
    HonestOutnumber(s, nw, heard, liars, latest, value);
    GroupsOfGet(s, nw, heard, liars, latest, value);
    PluralityDecides(bs, value);
    var reported := ReportedByGet(GetAnswers(s, heard, liars), Winner(bs));
    forall i: nat ensures i in reported <==> i in heard * Holders(s, latest) * liars {
      assert i in Cast(bs) <==> i in heard * Holders(s, latest);
      assert i in Group(bs, value) <==> i in heard * Holders(s, latest) - liars;
    }
  }

  // ----- runs -----

  ghost predicate HeardEnough(n: nat, nw: nat, f: nat, puts: seq<PutOp>) {
    forall k :: 0 <= k < |puts| ==> |puts[k].voters| >= nw && |puts[k].voters| > 2 * (n - nw + f)
  }

  lemma {:induction false} UniformIsCurrent(n: nat, nw: nat, r0: Replica)
    requires r0.vno >= 0 && nw <= n
    ensures Current(Uniform(n, r0), nw, r0.vno, r0.value)
  {
    assert Holders(Uniform(n, r0), r0.vno) == Below(n);
    BelowSize(n);
  }

  ghost predicate CurrentAfter(n: nat, nw: nat, r0: Replica, puts: seq<PutOp>, liars: set<nat>)
    requires Runnable(n, puts)
  {
    Current(Final(n, r0, puts, liars), nw, r0.vno + |puts|, LastValue(r0.value, puts))
  }

  lemma {:induction false} CurrentStep(n: nat, nw: nat, r0: Replica, rest: seq<PutOp>, p: PutOp, liars: set<nat>)
    requires Runnable(n, rest) && CurrentAfter(n, nw, r0, rest, liars) && Runnable(n, rest + [p])
    requires |p.voters| >= nw && |p.voters| > 2 * (n - nw + |liars|)
    ensures CurrentAfter(n, nw, r0, rest + [p], liars)
  {
    hide NewVno;
    FinalStep(n, r0, rest, p, liars);
    assert LastValue(r0.value, rest + [p]) == p.value;
    PutKeepsCurrent(Final(n, r0, rest, liars), nw, p, liars,
                    r0.vno + |rest|, LastValue(r0.value, rest),
                    r0.vno + |rest + [p]|, LastValue(r0.value, rest + [p]));
  }

  /** After any run of PUTs that each hear enough voters, the store is current. */
  lemma {:induction false} RunStaysCurrent(n: nat, nw: nat, r0: Replica, puts: seq<PutOp>, liars: set<nat>)
    requires r0.vno >= 0 && nw <= n
    requires Runnable(n, puts) && HeardEnough(n, nw, |liars|, puts)
    ensures CurrentAfter(n, nw, r0, puts, liars)
  {
    hide NewVno;
    if |puts| == 0 {
      UniformIsCurrent(n, nw, r0);
    } else {
      var rest, p := puts[..|puts| - 1], puts[|puts| - 1];
      RunStaysCurrent(n, nw, r0, rest, liars);
      CurrentStep(n, nw, r0, rest, p, liars);
      assert puts == rest + [p];
    }
  }

  /** Every PUT of such a run writes exactly one version more than the PUT before it. */
  lemma {:induction false} VersionsCountPuts(n: nat, nw: nat, r0: Replica, puts: seq<PutOp>, liars: set<nat>, k: nat)
    requires r0.vno >= 0 && nw <= n && k < |puts|
    requires Runnable(n, puts) && HeardEnough(n, nw, |liars|, puts)
    ensures NewVno(Final(n, r0, puts[..k], liars), puts[k].voters, liars) == r0.vno + k + 1
  {
    hide NewVno;
    RunStaysCurrent(n, nw, r0, puts[..k], liars);
    PutFindsLatest(Final(n, r0, puts[..k], liars), nw, puts[k].voters, liars,
                   r0.vno + k, LastValue(r0.value, puts[..k]));
  }

  /** Liars are outvoted over whole runs: after any such run, every GET that hears
      enough servers returns the value of the latest PUT. */
  lemma {:induction false} LiarsAreOutvoted(n: nat, nw: nat, r0: Replica, puts: seq<PutOp>, heard: set<nat>, liars: set<nat>)
    requires r0.vno >= 0 && nw <= n
    requires Runnable(n, puts) && HeardEnough(n, nw, |liars|, puts)
    requires heard <= Below(n) && |heard| + nw > n + 2 * |liars|
    ensures ReadValue(Final(n, r0, puts, liars), heard, liars) == Some(LastValue(r0.value, puts))
  {
    hide NewVno, ReadValue;
    RunStaysCurrent(n, nw, r0, puts, liars);
    var s := Final(n, r0, puts, liars);
    GetFindsLatest(s, nw, heard, liars, r0.vno + |puts|, LastValue(r0.value, puts));
  }

  /** Every replica holds the version and value of some PUT of the run, or the first ones. */
  lemma {:induction false} ReplicaHistory(n: nat, nw: nat, r0: Replica, puts: seq<PutOp>, liars: set<nat>, i: nat)
    returns (k: nat)
    requires r0.vno >= 0 && nw <= n && i < n
    requires Runnable(n, puts) && HeardEnough(n, nw, |liars|, puts)
    ensures k <= |puts|
    ensures Final(n, r0, puts, liars)[i] == Replica(r0.vno + k, LastValue(r0.value, puts[..k]))
  {
    hide NewVno;
    if |puts| == 0 {
      k := 0;
    } else {
      var rest, p := puts[..|puts| - 1], puts[|puts| - 1];
      assert puts == rest + [p];
      FinalStep(n, r0, rest, p, liars);
      if i in p.voters {
        VersionsCountPuts(n, nw, r0, puts, liars, |rest|);
        k := |puts|;
        assert puts[..k] == puts;
      } else {
        k := ReplicaHistory(n, nw, r0, rest, liars, i);
        assert puts[..k] == rest[..k];
      }
    }
  }

  lemma {:induction false} PutNeverGoesBack(s: Store, nw: nat, p: PutOp, liars: set<nat>, latest: int, value: string, i: nat)
    requires Current(s, nw, latest, value) && i < |s|
    requires p.voters <= Below(|s|) && p.voters != {} && |p.voters| > 2 * (|s| - nw + |liars|)
    ensures s[i].vno <= ApplyPut(s, p, liars)[i].vno
  {
    PutFindsLatest(s, nw, p.voters, liars, latest, value);
    NoStrays(s, nw, latest, value);
  }

  /** No replica's version ever goes back, liars or not. */
  lemma {:induction false} VersionsGrow(n: nat, nw: nat, r0: Replica, puts: seq<PutOp>, liars: set<nat>, j: nat, i: nat)
    requires r0.vno >= 0 && nw <= n && i < n && j <= |puts|
    requires Runnable(n, puts) && HeardEnough(n, nw, |liars|, puts)
    ensures Final(n, r0, puts[..j], liars)[i].vno <= Final(n, r0, puts, liars)[i].vno
  {
    hide Final, ApplyPut, Holders, Strays;
    if j == |puts| {
      assert puts[..j] == puts;
    } else {
      var rest, p := puts[..|puts| - 1], puts[|puts| - 1];
      assert puts == rest + [p] && rest[..j] == puts[..j];
      VersionsGrow(n, nw, r0, rest, liars, j, i);
      FinalStep(n, r0, rest, p, liars);
      RunStaysCurrent(n, nw, r0, rest, liars);
      PutNeverGoesBack(Final(n, r0, rest, liars), nw, p, liars, r0.vno + |rest|, LastValue(r0.value, rest), i);
    }
  }
}
