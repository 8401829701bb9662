/**
  What a client has heard after one round: one slot of `keyVals_c` per server.
  A slot whose socket is -1 belongs to a server that did not answer.
*/
module Replies {
  import opened Ballots

  datatype Reply = Reply(sock: int, vno: int, value: string)

  predicate Answered(r: Reply) {
    r.sock != -1
  }

  /** A GET only looks at answers with a non-negative version. */
  predicate Readable(r: Reply) {
    Answered(r) && r.vno >= 0
  }

  function Answerers(rs: seq<Reply>): set<nat> {
    set i: nat | i < |rs| && Answered(rs[i])
  }

  /** The highest version among readable answers, -1 if there is none. */
  function TopVersion(rs: seq<Reply>): (top: int)
    ensures top >= -1
    ensures forall i :: 0 <= i < |rs| && Readable(rs[i]) ==> rs[i].vno <= top
    ensures top >= 0 ==> exists i :: 0 <= i < |rs| && Readable(rs[i]) && rs[i].vno == top
  {
    if |rs| == 0 then -1
    else
      var rest, r := rs[..|rs| - 1], rs[|rs| - 1];
      var m := TopVersion(rest);
      assert forall i :: 0 <= i < |rest| ==> rest[i] == rs[i];
      if Readable(r) && r.vno > m then r.vno else m
  }

  function GetLabel(r: Reply, top: int): Option<string> {
    if Readable(r) && r.vno == top then Some(r.value) else None
  }

  /** A GET lets the values of the top-version answers compete. */
  function GetBallots(rs: seq<Reply>): (bs: seq<Option<string>>)
    ensures |bs| == |rs|
  {
    seq(|rs|, i requires 0 <= i < |rs| => GetLabel(rs[i], TopVersion(rs)))
  }

  function PutLabel(r: Reply): Option<int> {
    if Answered(r) then Some(r.vno) else None
  }

  /** A PUT lets the versions of all answers compete. */
  function PutBallots(rs: seq<Reply>): (bs: seq<Option<int>>)
    ensures |bs| == |rs|
  {
    seq(|rs|, i requires 0 <= i < |rs| => PutLabel(rs[i]))
  }

  /** The servers a GET reports: their bucket is smaller than the winner's. */
  ghost function ReportedByGet(rs: seq<Reply>, w: nat): set<nat>
    requires Wins(GetBallots(rs), w)
  {
    var bs := GetBallots(rs);
    set i: nat | i < |bs| && bs[i].Some? && |Group(bs, bs[i].value)| < |Group(bs, bs[w].value)|
  }

  /** The servers a PUT reports: a bucket of another size claims a newer version. */
  ghost function ReportedByPut(rs: seq<Reply>, w: nat): set<nat>
    requires Wins(PutBallots(rs), w)
  {
    var bs := PutBallots(rs);
    set i: nat | i < |bs| && bs[i].Some?
                 && |Group(bs, bs[i].value)| != |Group(bs, bs[w].value)| && rs[i].vno > rs[w].vno
  }

  /** A GET that hears a readable answer picks one of the top version. */
  lemma {:induction false} GetPicksTopVersion(rs: seq<Reply>)
    requires TopVersion(rs) >= 0
    ensures Cast(GetBallots(rs)) != {}
    ensures Readable(rs[Winner(GetBallots(rs))]) && rs[Winner(GetBallots(rs))].vno == TopVersion(rs)
  {
    var top :| 0 <= top < |rs| && Readable(rs[top]) && rs[top].vno == TopVersion(rs);
    assert GetBallots(rs)[top].Some?;
    assert top in Cast(GetBallots(rs));
  }

  lemma {:induction false} CastOfPut(rs: seq<Reply>)
    ensures Cast(PutBallots(rs)) == Answerers(rs)
  {
  }

  /** How the ballot box of a GET changes when one more slot is looked at. */
  lemma {:induction false} GetBallotsGrow(rs: seq<Reply>, r: Reply)
    ensures !Readable(r) || r.vno < TopVersion(rs) ==>
              TopVersion(rs + [r]) == TopVersion(rs) && GetBallots(rs + [r]) == GetBallots(rs) + [None]
    ensures Readable(r) && r.vno == TopVersion(rs) ==>
              TopVersion(rs + [r]) == TopVersion(rs) && GetBallots(rs + [r]) == GetBallots(rs) + [Some(r.value)]
    ensures Readable(r) && r.vno > TopVersion(rs) ==>
              && TopVersion(rs + [r]) == r.vno
              && |GetBallots(rs + [r])| == |rs| + 1
              && GetBallots(rs + [r])[|rs|] == Some(r.value)
              && forall i :: 0 <= i < |rs| ==> GetBallots(rs + [r])[i] == None
  {
    assert (rs + [r])[..|rs|] == rs;
  }

  /** A higher version throws all earlier buckets away and opens bucket 0 again. */
  lemma {:induction false} GetBallotsRestart(rs: seq<Reply>, r: Reply)
    requires Readable(r) && r.vno > TopVersion(rs)
    ensures Partitioned([[|rs|]], [r.value], GetBallots(rs + [r]))
  {
    GetBallotsGrow(rs, r);
    var row := [|rs|];
    assert Bucket(row, r.value, GetBallots(rs + [r]));
    assert |rs| in [row][0];
  }

  lemma {:induction false} PutBallotsGrow(rs: seq<Reply>, r: Reply)
    ensures PutBallots(rs + [r]) == PutBallots(rs) + [PutLabel(r)]
  {
  }
}
