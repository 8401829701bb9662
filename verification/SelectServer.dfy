/**
  The client's choice of a server from the answers of one round (Client.c).

  `hashTable` is a fixed table of buckets that is filled in place; `index`
  moves while versions are compared and stale buckets stay behind. The choice
  and the report are proved against the declarative plurality of `Ballots`.
*/
module SelectServer {
  import opened Ballots
  import opened Replies
  import AtomicStore
  import Cluster

  const MAX_CON: nat := 1000

  datatype BucketStruct = BucketStruct(keyValuePair: string, count: nat, idx: seq<nat>, verNo: int)

  /** A bucket has room for MAX_CON members. */
  type HashMap = h: BucketStruct | |h.idx| == MAX_CON && h.count <= MAX_CON
    witness EMPTY_BUCKET

  const EMPTY_BUCKET := BucketStruct("", 0, seq(MAX_CON, _ => 0), 0)

  datatype Message = Get | Put

  /** NoBucket stands for reading hashMap[-1], which C leaves undefined. */
  datatype Selection =
    | LesserQuorum
    | NoBucket
    | Chosen(server: nat, reported: seq<nat>)

  function Row(h: HashMap): seq<nat> {
    h.idx[..h.count]
  }

  function Rows(t: seq<HashMap>): seq<seq<nat>> {
    seq(|t|, b requires 0 <= b < |t| => Row(t[b]))
  }

  function PairOf(h: HashMap): string {
    h.keyValuePair
  }

  function VerNoOf(h: HashMap): int {
    h.verNo
  }

  function Labels<T>(t: seq<HashMap>, key: HashMap -> T): seq<T> {
    seq(|t|, b requires 0 <= b < |t| => key(t[b]))
  }

  function Push(h: HashMap, i: nat): (r: HashMap)
    requires h.count < MAX_CON
    ensures Row(r) == Row(h) + [i]
  {
    h.(idx := h.idx[h.count := i], count := h.count + 1)
  }

  /** Adding a member to a bucket leaves its label alone. */
  ghost predicate IsLabel<T(!new)>(key: HashMap -> T) {
    forall h: HashMap, i: nat :: h.count < MAX_CON ==> key(Push(h, i)) == key(h)
  }

  /** The first part t of the table is the exact partition of the ballots by label. */
  ghost predicate Sorted<T>(t: seq<HashMap>, key: HashMap -> T, bs: seq<Option<T>>) {
    Partitioned(Rows(t), Labels(t, key), bs)
  }

  lemma {:induction false} PartitionFits<T>(rows: seq<seq<nat>>, labels: seq<T>, bs: seq<Option<T>>)
    requires Partitioned(rows, labels, bs)
    ensures |rows| <= |bs|
    ensures forall b :: 0 <= b < |rows| ==> |rows[b]| <= |bs|
  {
    BelowSize(|bs|);
    var heads: seq<nat> := seq(|rows|, b requires 0 <= b < |rows| => rows[b][0]);
    DistinctSize(heads);
    SubsetSize(Members(heads), Below(|bs|));
    forall b | 0 <= b < |rows| ensures |rows[b]| <= |bs| {
      DistinctSize(rows[b]);
      SubsetSize(Members(rows[b]), Below(|bs|));
    }
  }

  lemma {:induction false} FirstBucket<T>(h: HashMap, key: HashMap -> T)
    ensures Rows([h]) == [Row(h)] && Labels([h], key) == [key(h)]
  {
  }

  /** The next answer joins bucket b. */
  lemma {:induction false} JoinBucket<T(!new)>(t: seq<HashMap>, key: HashMap -> T, bs: seq<Option<T>>, b: nat)
    requires Sorted(t, key, bs) && IsLabel(key) && b < |t| && |bs| < MAX_CON
    ensures t[b].count < MAX_CON
    ensures Sorted(t[b := Push(t[b], |bs|)], key, bs + [Some(key(t[b]))])
  {
    PartitionFits(Rows(t), Labels(t, key), bs);
    assert |Rows(t)[b]| == t[b].count;
    PartitionJoin(Rows(t), Labels(t, key), bs, b);
    var t' := t[b := Push(t[b], |bs|)];
    assert Rows(t') == Rows(t)[b := Rows(t)[b] + [|bs|]];
    assert Labels(t', key) == Labels(t, key);
  }

  /** The next answer opens a bucket of its own. */
  lemma {:induction false} OpenBucket<T>(t: seq<HashMap>, key: HashMap -> T, bs: seq<Option<T>>, h: HashMap)
    requires Sorted(t, key, bs) && Row(h) == [|bs|]
    requires forall b :: 0 <= b < |t| ==> key(t[b]) != key(h)
    ensures Sorted(t + [h], key, bs + [Some(key(h))])
  {
    PartitionOpen(Rows(t), Labels(t, key), bs, key(h));
    assert Rows(t + [h]) == Rows(t) + [[|bs|]];
    assert Labels(t + [h], key) == Labels(t, key) + [key(h)];
  }

  lemma {:induction false} SkipAnswer<T>(t: seq<HashMap>, key: HashMap -> T, bs: seq<Option<T>>)
    requires Sorted(t, key, bs)
    ensures Sorted(t, key, bs + [None])
  {
    PartitionSkip(Rows(t), Labels(t, key), bs);
  }

  lemma {:induction false} LabelsDiffer<T>(t: seq<HashMap>, key: HashMap -> T, bs: seq<Option<T>>)
    requires Sorted(t, key, bs)
    ensures forall b, c :: 0 <= b < c < |t| ==> key(t[b]) != key(t[c])
  {
    forall b, c | 0 <= b < c < |t| ensures key(t[b]) != key(t[c]) {
      assert Labels(t, key)[b] != Labels(t, key)[c];
    }
  }

  /** What the scan over a complete table finds out about the ballots. */
  lemma {:induction false} PickWins<T>(t: seq<HashMap>, key: HashMap -> T, bs: seq<Option<T>>, b: nat)
    requires Sorted(t, key, bs) && b < |t|
    requires forall c :: 0 <= c < |t| ==> t[c].count <= t[b].count && (c < b ==> t[c].count < t[b].count)
    ensures t[b].count > 0 && Wins(bs, t[b].idx[0])
    ensures key(t[b]) == bs[t[b].idx[0]].value
  {
    var rows := Rows(t);
    assert forall c :: 0 <= c < |t| ==> |rows[c]| == t[c].count;
    assert Bucket(rows[b], Labels(t, key)[b], bs);
    FirstLargestWins(rows, Labels(t, key), bs, b);
  }

  lemma {:induction false} MemberOfBucket<T>(t: seq<HashMap>, key: HashMap -> T, bs: seq<Option<T>>, b: nat)
    requires Sorted(t, key, bs) && b < |t|
    ensures |Group(bs, key(t[b]))| == t[b].count
    ensures forall s :: s in Row(t[b]) ==> s < |bs| && bs[s] == Some(key(t[b]))
  {
    BucketIsGroup(Rows(t), Labels(t, key), bs, b);
    assert Members(Rows(t)[b]) == Group(bs, key(t[b]));
    forall s | s in Row(t[b]) ensures s < |bs| && bs[s] == Some(key(t[b])) {
      assert s in Members(Rows(t)[b]);
    }
  }

  lemma {:induction false} BucketsAreFilled<T>(t: seq<HashMap>, key: HashMap -> T, bs: seq<Option<T>>)
    requires Sorted(t, key, bs)
    ensures forall b :: 0 <= b < |t| ==> t[b].count > 0
  {
    forall b | 0 <= b < |t| ensures t[b].count > 0 {
      assert Bucket(Rows(t)[b], Labels(t, key)[b], bs);
    }
  }

  lemma {:induction false} BucketOfVoter<T>(t: seq<HashMap>, key: HashMap -> T, bs: seq<Option<T>>, s: nat) returns (b: nat)
    requires Sorted(t, key, bs) && s < |bs| && bs[s].Some?
    ensures b < |t| && s in Row(t[b]) && bs[s] == Some(key(t[b]))
    ensures |Group(bs, bs[s].value)| == t[b].count
  {
    b :| 0 <= b < |t| && s in Rows(t)[b];
    MemberOfBucket(t, key, bs, b);
  }

  lemma {:induction false} WinnerVotes<T>(bs: seq<Option<T>>, w: nat)
    requires Wins(bs, w)
    ensures w < |bs| && w in Cast(bs)
  {
  }

  lemma {:induction false} SomeAnswerIsRead(rs: seq<Reply>)
    requires Cast(GetBallots(rs)) != {}
    ensures TopVersion(rs) >= 0
  {
    var i :| i in Cast(GetBallots(rs));
    assert Readable(rs[i]);
  }

  class Client {
    const n: nat
    const nr: nat
    const nw: nat
    const keyVals: array<Reply>
    const hashTable: array<HashMap>

    /** The table is a zero-initialised global, so the bucket after the last
        server is empty; nothing ever fills it. */
    ghost predicate Valid()
      reads this, hashTable
    {
      keyVals.Length == n < MAX_CON == hashTable.Length && hashTable[n].count == 0
    }

    constructor (n: nat, nr: nat, nw: nat, answers: seq<Reply>)
      requires n < MAX_CON && |answers| == n
      ensures Valid() && this.n == n && this.nr == nr && this.nw == nw
      ensures keyVals[..] == answers
      ensures fresh(hashTable) && fresh(keyVals)
    {
      this.n, this.nr, this.nw := n, nr, nw;
      keyVals := new Reply[n](i requires 0 <= i < n => answers[i]);
      hashTable := new HashMap[MAX_CON](_ => EMPTY_BUCKET);
    }

    method ClearCounts()
      requires Valid()
      modifies hashTable
      ensures Valid()
      ensures forall b :: 0 <= b <= n ==> hashTable[b].count == 0
    {
      for i := 0 to n
        invariant Valid()
        invariant forall b :: 0 <= b < i ==> hashTable[b].count == 0
      {
        hashTable[i] := hashTable[i].(count := 0);
      }
    }

    method CountAnswers() returns (nrnwCheck: nat)
      requires Valid()
      ensures nrnwCheck == |Answerers(keyVals[..])|
    {
      nrnwCheck := 0;
      ghost var seen: set<nat> := {};
      for i := 0 to n
        invariant seen == set j: nat | j < i && Answered(keyVals[j])
        invariant nrnwCheck == |seen|
      {
        if keyVals[i].sock != -1 {
          nrnwCheck := nrnwCheck + 1;
          seen := seen + {i};
        }
      }
      assert seen == Answerers(keyVals[..]);
    }

    /** The inner loop of both classifications: among buckets 0..hi-1, answer i
        joins the one labelled x, if there is one. */
    method JoinBucketOf<T(==,!new)>(i: nat, x: T, hi: nat, key: HashMap -> T, ghost bs: seq<Option<T>>)
      returns (incrIndex: bool)
      requires Valid() && i < n && hi <= n && |bs| == i && IsLabel(key)
      requires Sorted(hashTable[..hi], key, bs)
      modifies hashTable
      ensures hashTable[hi..] == old(hashTable[hi..])
      ensures !incrIndex ==> hashTable[..hi] == old(hashTable[..hi])
      ensures !incrIndex ==> forall b :: 0 <= b < hi ==> key(hashTable[b]) != x
      ensures incrIndex ==> Sorted(hashTable[..hi], key, bs + [Some(x)])
    {
      incrIndex := false;
      ghost var t := hashTable[..hi];
      ghost var at: nat := 0;
      LabelsDiffer(t, key, bs);
      for xy := 0 to hi
        invariant forall b :: 0 <= b < xy && (!incrIndex || b != at) ==> key(t[b]) != x
        invariant forall b :: xy <= b < hi ==> hashTable[b] == t[b]
        invariant hashTable[hi..] == old(hashTable[hi..])
        invariant !incrIndex ==> hashTable[..hi] == t
        invariant incrIndex ==> at < xy && key(t[at]) == x && t[at].count < MAX_CON
        invariant incrIndex ==> hashTable[..hi] == t[at := Push(t[at], i)]
      {
        if key(hashTable[xy]) == x {
          JoinBucket(t, key, bs, xy);
          hashTable[xy] := Push(hashTable[xy], i);
          incrIndex := true;
          at := xy;
        }
      }
      if incrIndex {
        JoinBucket(t, key, bs, at);
      }
    }

    /** Puts answer i alone into bucket b, whatever was left there before. */
    method StartBucket(b: nat, i: nat, pair: string, vno: int)
      requires Valid() && b < n && i < n
      modifies hashTable
      ensures Row(hashTable[b]) == [i] && hashTable[b].keyValuePair == pair && hashTable[b].verNo == vno
      ensures forall c :: 0 <= c < MAX_CON && c != b ==> hashTable[c] == old(hashTable[c])
    {
      var h: HashMap := BucketStruct(pair, 0, hashTable[b].idx, vno);
      assert Row(h) == [];
      hashTable[b] := Push(h, i);
    }

    /** Buckets 0..index are the exact partition, by value, of the top-version
        answers among the first i; with no readable answer yet, bucket 0 is empty. */
    ghost predicate GetTable(i: nat, index: nat, max: int)
      reads this, keyVals, hashTable
    {
      && Valid() && i <= n
      && max == TopVersion(keyVals[..i])
      && (max < 0 ==> index == 0 && hashTable[0].count == 0)
      && (max >= 0 ==> index < i && Sorted(hashTable[..index + 1], PairOf, GetBallots(keyVals[..i])))
    }

    /** An answer of the top version joins the bucket of its value or opens the next one. */
    method PlaceTopAnswer(i: nat, tmp: string, index: nat, ghost bs: seq<Option<string>>) returns (index': nat)
      requires Valid() && index < i < n && |bs| == i && Sorted(hashTable[..index + 1], PairOf, bs)
      modifies hashTable
      ensures Valid() && index <= index' <= i && Sorted(hashTable[..index' + 1], PairOf, bs + [Some(tmp)])
    {
      index' := index;
      var incrIndex := JoinBucketOf(i, tmp, index + 1, PairOf, bs);
      assert hashTable[n] == hashTable[index + 1..][n - index - 1];
      if !incrIndex {
        ghost var t := hashTable[..index + 1];
        StartBucket(index + 1, i, tmp, hashTable[index + 1].verNo);
        OpenBucket(t, PairOf, bs, hashTable[index + 1]);
        assert hashTable[..index + 2] == t + [hashTable[index + 1]];
        index' := index + 1;
      }
    }

    /** An answer newer than all before it throws the buckets away. */
    method RestartBuckets(i: nat, tmp: string)
      requires Valid() && i < n && tmp == keyVals[i].value
      requires Readable(keyVals[i]) && keyVals[i].vno > TopVersion(keyVals[..i])
      modifies hashTable
      ensures Valid() && Sorted(hashTable[..1], PairOf, GetBallots(keyVals[..i] + [keyVals[i]]))
    {
      StartBucket(0, i, tmp, hashTable[0].verNo);
      GetBallotsRestart(keyVals[..i], keyVals[i]);
      assert hashTable[..1] == [hashTable[0]];
      FirstBucket(hashTable[0], PairOf);
    }

    method PlaceGetAnswer(i: nat, index: nat, max: int) returns (index': nat, max': int)
      requires i < n && GetTable(i, index, max)
      modifies hashTable
      ensures GetTable(i + 1, index', max')
    {
      hide GetBallots, TopVersion, Sorted;
      index', max' := index, max;
      ghost var rs := keyVals[..i];
      ghost var bs := GetBallots(rs);
      GetBallotsGrow(rs, keyVals[i]);
      assert keyVals[..i + 1] == rs + [keyVals[i]];
      if keyVals[i].sock != -1 && keyVals[i].vno >= 0 {
        var tmp := keyVals[i].value;
        if keyVals[i].vno > max {
          index', max' := 0, keyVals[i].vno;
          RestartBuckets(i, tmp);
        } else if keyVals[i].vno == max {
          index' := PlaceTopAnswer(i, tmp, index, bs);
        } else {
          SkipAnswer(hashTable[..index + 1], PairOf, bs);
        }
      } else if max >= 0 {
        SkipAnswer(hashTable[..index + 1], PairOf, bs);
      }
    }

    method ClassifyGet() returns (index: nat)
      requires Valid() && hashTable[0].count == 0
      modifies hashTable
      ensures Valid() && GetTable(n, index, TopVersion(keyVals[..]))
    {
      index := 0;
      var max := -1;
      for i := 0 to n
        invariant GetTable(i, index, max)
      {
        index, max := PlaceGetAnswer(i, index, max);
      }
      assert keyVals[..n] == keyVals[..];
    }

    /** Buckets 0..index-1 are the exact partition of the first i answers by
        version; the buckets after them are empty. */
    ghost predicate PutTable(i: nat, index: nat)
      reads this, keyVals, hashTable
    {
      && Valid() && index <= i <= n
      && (forall b :: index <= b <= n ==> hashTable[b].count == 0)
      && Sorted(hashTable[..index], VerNoOf, PutBallots(keyVals[..i]))
    }

    method PlacePutAnswer(i: nat, index: nat) returns (index': nat)
      requires i < n && PutTable(i, index)
      modifies hashTable
      ensures PutTable(i + 1, index')
    {
      hide PutBallots, Sorted;
      index' := index;
      ghost var rs := keyVals[..i];
      ghost var bs := PutBallots(rs);
      PutBallotsGrow(rs, keyVals[i]);
      assert keyVals[..i + 1] == rs + [keyVals[i]];
      if keyVals[i].sock != -1 {
        ghost var after := hashTable[index..];
        var incrIndex := JoinBucketOf(i, keyVals[i].vno, index, VerNoOf, bs);
        assert forall b :: index <= b <= n ==> hashTable[b] == hashTable[index..][b - index] == after[b - index];
        if !incrIndex {
          ghost var t := hashTable[..index];
          StartBucket(index, i, hashTable[index].keyValuePair, keyVals[i].vno);
          OpenBucket(t, VerNoOf, bs, hashTable[index]);
          assert hashTable[..index + 1] == t + [hashTable[index]];
          index' := index + 1;
        }
      } else {
        SkipAnswer(hashTable[..index], VerNoOf, bs);
      }
    }

    method ClassifyPut() returns (index: nat)
      requires Valid() && forall b :: 0 <= b <= n ==> hashTable[b].count == 0
      modifies hashTable
      ensures Valid() && PutTable(n, index)
    {
      index := 0;
      for i := 0 to n
        invariant PutTable(i, index)
      {
        index := PlacePutAnswer(i, index);
      }
    }

    /** The scan for the first largest of buckets 0..index. */
    method PickBucket(m: Message, index: nat) returns (retIndex: int, retVal: nat, maxVno: int)
      requires Valid() && index <= n
      ensures -1 <= retIndex <= index
      ensures retIndex == -1 ==> retVal == 0 && maxVno == -1
      ensures retIndex >= 0 ==>
                && retVal == hashTable[retIndex].count > 0
                && maxVno == (if m == Put then hashTable[retIndex].verNo else -1)
      ensures forall b :: 0 <= b <= index ==>
                hashTable[b].count <= retVal && (b < retIndex ==> hashTable[b].count < retVal)
    {
      retIndex, retVal, maxVno := -1, 0, -1;
      for i := 0 to index + 1
        invariant -1 <= retIndex < i
        invariant retIndex == -1 ==> retVal == 0 && maxVno == -1
        invariant retIndex >= 0 ==>
                    && retVal == hashTable[retIndex].count > 0
                    && maxVno == (if m == Put then hashTable[retIndex].verNo else -1)
        invariant forall b :: 0 <= b < i ==>
                    hashTable[b].count <= retVal && (b < retIndex ==> hashTable[b].count < retVal)
      {
        if hashTable[i].count > retVal {
          retIndex, retVal := i, hashTable[i].count;
          if m == Put {
            maxVno := hashTable[i].verNo;
          }
        }
      }
    }

    /** The test that decides whether the members of a bucket are reported. */
    predicate Suspect(m: Message, b: nat, retVal: int, maxVno: int)
      requires b < hashTable.Length
      reads hashTable
    {
      match m
      case Get => hashTable[b].count < retVal
      case Put => hashTable[b].count != retVal && hashTable[b].verNo > maxVno
    }

    method Report(m: Message, index: nat, retVal: int, maxVno: int) returns (reported: seq<nat>)
      requires Valid() && index <= n
      ensures forall s :: s in reported <==>
                exists b :: 0 <= b <= index && Suspect(m, b, retVal, maxVno) && s in Row(hashTable[b])
    {
      reported := [];
      for i := 0 to index + 1
        invariant forall s :: s in reported <==>
                    exists b :: 0 <= b < i && Suspect(m, b, retVal, maxVno) && s in Row(hashTable[b])
      {
        if Suspect(m, i, retVal, maxVno) {
          ghost var before := reported;
          for x := 0 to hashTable[i].count
            invariant reported == before + Row(hashTable[i])[..x]
          {
            reported := reported + [hashTable[i].idx[x]];
          }
          assert reported == before + Row(hashTable[i]);
        }
      }
    }

    lemma {:induction false} GetReportIsExact(t: seq<HashMap>, b: nat, reported: seq<nat>)
      requires Sorted(t, PairOf, GetBallots(keyVals[..])) && b < |t|
      requires t[b].count > 0 && Wins(GetBallots(keyVals[..]), t[b].idx[0])
      requires forall s :: s in reported <==> exists c :: 0 <= c < |t| && t[c].count < t[b].count && s in Row(t[c])
      ensures Members(reported) == ReportedByGet(keyVals[..], t[b].idx[0])
    {
      var rs := keyVals[..];
      var bs, w := GetBallots(rs), t[b].idx[0];
      MemberOfBucket(t, PairOf, bs, b);
      assert w in Row(t[b]);
      forall s | s in reported ensures s in ReportedByGet(rs, w) {
        var c :| 0 <= c < |t| && t[c].count < t[b].count && s in Row(t[c]);
        MemberOfBucket(t, PairOf, bs, c);
      }
      forall s | s in ReportedByGet(rs, w) ensures s in reported {
        var c := BucketOfVoter(t, PairOf, bs, s);
      }
    }

    lemma {:induction false} PutReportIsExact(t: seq<HashMap>, b: nat, reported: seq<nat>)
      requires Sorted(t, VerNoOf, PutBallots(keyVals[..])) && b < |t|
      requires t[b].count > 0 && Wins(PutBallots(keyVals[..]), t[b].idx[0])
      requires forall s :: s in reported <==>
                 exists c :: 0 <= c < |t| && t[c].count != t[b].count && t[c].verNo > t[b].verNo && s in Row(t[c])
      ensures Members(reported) == ReportedByPut(keyVals[..], t[b].idx[0])
    {
      var rs := keyVals[..];
      var bs, w := PutBallots(rs), t[b].idx[0];
      MemberOfBucket(t, VerNoOf, bs, b);
      assert w in Row(t[b]);
      forall s | s in reported ensures s in ReportedByPut(rs, w) {
        var c :| 0 <= c < |t| && t[c].count != t[b].count && t[c].verNo > t[b].verNo && s in Row(t[c]);
        MemberOfBucket(t, VerNoOf, bs, c);
      }
      forall s | s in ReportedByPut(rs, w) ensures s in reported {
        var c := BucketOfVoter(t, VerNoOf, bs, s);
      }
    }

    /** selectServer: the plurality choice among the answers, and the report of liars. */
    method SelectServer(m: Message) returns (r: Selection)
      requires Valid()
      modifies hashTable
      ensures Valid()
      ensures r.LesserQuorum? <==> |Answerers(keyVals[..])| < (if m == Get then nr else nw)
      ensures !r.LesserQuorum? ==>
                (r.NoBucket? <==> if m == Get then TopVersion(keyVals[..]) < 0 else Answerers(keyVals[..]) == {})
      ensures r.Chosen? && m == Get ==>
                && Wins(GetBallots(keyVals[..]), r.server)
                && Members(r.reported) == ReportedByGet(keyVals[..], r.server)
      ensures r.Chosen? && m == Put ==>
                && Wins(PutBallots(keyVals[..]), r.server)
                && Members(r.reported) == ReportedByPut(keyVals[..], r.server)
    {
      ClearCounts();
      var nrnwCheck := CountAnswers();
      if nrnwCheck < (if m == Get then nr else nw) {
        return LesserQuorum;
      }
      if m == Get {
        r := SelectForGet();
      } else {
        r := SelectForPut();
      }
    }

    method SelectForGet() returns (r: Selection)
      requires Valid() && hashTable[0].count == 0
      modifies hashTable
      ensures Valid() && !r.LesserQuorum?
      ensures r.NoBucket? <==> TopVersion(keyVals[..]) < 0
      ensures r.Chosen? ==>
                && Wins(GetBallots(keyVals[..]), r.server)
                && Members(r.reported) == ReportedByGet(keyVals[..], r.server)
    {
      var index := ClassifyGet();
      var retIndex, retVal, maxVno := PickBucket(Get, index);
      var reported := Report(Get, index, retVal, maxVno);
      assert keyVals[..n] == keyVals[..];
      ghost var t := hashTable[..index + 1];
      assert forall c :: 0 <= c <= index ==> t[c] == hashTable[c];
      if TopVersion(keyVals[..]) >= 0 {
        BucketsAreFilled(t, PairOf, GetBallots(keyVals[..]));
        assert t[0].count > 0;
      }
      if retIndex == -1 {
        return NoBucket;
      }
      PickWins(t, PairOf, GetBallots(keyVals[..]), retIndex);
      GetReportIsExact(t, retIndex, reported);
      return Chosen(hashTable[retIndex].idx[0], reported);
    }

    method SelectForPut() returns (r: Selection)
      requires Valid() && forall b :: 0 <= b <= n ==> hashTable[b].count == 0
      modifies hashTable
      ensures Valid() && !r.LesserQuorum?
      ensures r.NoBucket? <==> Answerers(keyVals[..]) == {}
      ensures r.Chosen? ==>
                && Wins(PutBallots(keyVals[..]), r.server)
                && Members(r.reported) == ReportedByPut(keyVals[..], r.server)
    {
      var index := ClassifyPut();
      var retIndex, retVal, maxVno := PickBucket(Put, index);
      var reported := Report(Put, index, retVal, maxVno);
      assert keyVals[..n] == keyVals[..];
      ghost var t := hashTable[..index];
      ghost var bs := PutBallots(keyVals[..]);
      assert forall c :: 0 <= c < index ==> t[c] == hashTable[c];
      forall i: nat | i < n && Answered(keyVals[i]) ensures exists b :: 0 <= b < index && hashTable[b].count > 0 {
        var b := BucketOfVoter(t, VerNoOf, bs, i);
        assert t[b].count > 0;
      }
      if retIndex == -1 {
        return NoBucket;
      }
      PickWins(t, VerNoOf, bs, retIndex);
      assert t[retIndex].idx[0] in Answerers(keyVals[..]);
      PutReportIsExact(t, retIndex, reported);
      return Chosen(hashTable[retIndex].idx[0], reported);
    }

    lemma {:induction false} ValueIsRead(w: nat, s: AtomicStore.Store, heard: set<nat>, liars: set<nat>)
      requires keyVals[..] == AtomicStore.GetAnswers(s, heard, liars)
      requires Wins(GetBallots(keyVals[..]), w)
      ensures w < keyVals.Length && AtomicStore.ReadValue(s, heard, liars) == Some(keyVals[w].value)
    {
      hide GetBallots, Wins;
      var bs := GetBallots(keyVals[..]);
      WinnerVotes(bs, w);
      WinnerUnique(bs, Winner(bs), w);
    }

    lemma {:induction false} NothingIsRead(s: AtomicStore.Store, heard: set<nat>, liars: set<nat>)
      requires keyVals[..] == AtomicStore.GetAnswers(s, heard, liars) && TopVersion(keyVals[..]) < 0
      ensures AtomicStore.ReadValue(s, heard, liars) == None
    {
      var rs := keyVals[..];
      assert forall i :: 0 <= i < |rs| ==> !Readable(rs[i]);
      assert Cast(GetBallots(rs)) == {};
    }

    /** With enough answers from a store that is current, the choice and the report of a GET. */
    lemma {:induction false} GetIsRight(w: nat, s: AtomicStore.Store, heard: set<nat>, liars: set<nat>,
                                        k: nat, latest: int, value: string)
      requires keyVals[..] == AtomicStore.GetAnswers(s, heard, liars) && AtomicStore.Current(s, k, latest, value)
      requires heard <= Below(|s|) && |heard| + k > |s| + 2 * |liars|
      ensures Cast(GetBallots(keyVals[..])) != {} && TopVersion(keyVals[..]) >= 0
      ensures Wins(GetBallots(keyVals[..]), w) ==>
                && w < keyVals.Length && keyVals[w].value == value
                && ReportedByGet(keyVals[..], w) == heard * AtomicStore.Holders(s, latest) * liars
    {
      hide Wins, AtomicStore.Current, AtomicStore.Holders, Below, GetBallots, ReportedByGet;
      var bs := GetBallots(keyVals[..]);
      AtomicStore.GetFindsLatest(s, k, heard, liars, latest, value);
      SomeAnswerIsRead(keyVals[..]);
      if Wins(bs, w) {
        WinnerUnique(bs, Winner(bs), w);
        WinnerVotes(bs, w);
        ValueIsRead(w, s, heard, liars);
      }
    }

    /** The result of a GET: whatever store the answers came from, the value is what the model
        of the store reads from it; and if that store is current and enough servers answered,
        it is the latest value, and the report names exactly the up-to-date servers that lied. */
    method Read() returns (r: Selection, value: Option<string>)
      requires Valid()
      modifies hashTable
      ensures Valid()
      ensures r.LesserQuorum? <==> |Answerers(keyVals[..])| < nr
      ensures value.Some? <==> r.Chosen?
      ensures r.Chosen? ==>
                && Wins(GetBallots(keyVals[..]), r.server) && value == Some(keyVals[r.server].value)
                && Members(r.reported) == ReportedByGet(keyVals[..], r.server)
      ensures !r.LesserQuorum? ==>
                forall s: AtomicStore.Store, heard: set<nat>, liars: set<nat> ::
                  keyVals[..] == AtomicStore.GetAnswers(s, heard, liars) ==>
                    AtomicStore.ReadValue(s, heard, liars) == value
      ensures !r.LesserQuorum? ==>
                forall s: AtomicStore.Store, heard: set<nat>, liars: set<nat>, k: nat, latest: int, v: string ::
                  && keyVals[..] == AtomicStore.GetAnswers(s, heard, liars) && AtomicStore.Current(s, k, latest, v)
                  && heard <= Below(|s|) && |heard| + k > |s| + 2 * |liars| ==>
                    && r.Chosen? && value == Some(v)
                    && Members(r.reported) == heard * AtomicStore.Holders(s, latest) * liars
    {
      hide GetBallots, Wins, AtomicStore.ReadValue, AtomicStore.GetAnswers, AtomicStore.Current, AtomicStore.Holders;
      hide ReportedByGet, Below;
      r := SelectServer(Get);
      value := None;
      if r.Chosen? {
        WinnerVotes(GetBallots(keyVals[..]), r.server);
        value := Some(keyVals[r.server].value);
      }
      forall s: AtomicStore.Store, heard: set<nat>, liars: set<nat>
        | !r.LesserQuorum? && keyVals[..] == AtomicStore.GetAnswers(s, heard, liars)
        ensures AtomicStore.ReadValue(s, heard, liars) == value
      {
        if r.Chosen? {
          ValueIsRead(r.server, s, heard, liars);
        } else {
          NothingIsRead(s, heard, liars);
        }
      }
      forall s: AtomicStore.Store, heard: set<nat>, liars: set<nat>, k: nat, latest: int, v: string
        | && !r.LesserQuorum? && keyVals[..] == AtomicStore.GetAnswers(s, heard, liars)
          && AtomicStore.Current(s, k, latest, v) && heard <= Below(|s|) && |heard| + k > |s| + 2 * |liars|
        ensures r.Chosen? && value == Some(v) && Members(r.reported) == heard * AtomicStore.Holders(s, latest) * liars
      {
        GetIsRight(if r.Chosen? then r.server else 0, s, heard, liars, k, latest, v);
      }
    }

    lemma {:induction false} VersionIsDecided(w: nat)
      requires Wins(PutBallots(keyVals[..]), w)
      ensures w < keyVals.Length && Answerers(keyVals[..]) != {}
      ensures Cluster.DecidedVno(keyVals[..]) == keyVals[w].vno + 1
    {
      hide PutBallots, Wins;
      var bs := PutBallots(keyVals[..]);
      WinnerVotes(bs, w);
      CastOfPut(keyVals[..]);
      WinnerUnique(bs, Winner(bs), w);
    }

    /** With enough votes from a store that is current, the choice and the report of a PUT. */
    lemma {:induction false} PutIsRight(w: nat, s: AtomicStore.Store, voters: set<nat>, liars: set<nat>,
                                        k: nat, latest: int, value: string)
      requires keyVals[..] == AtomicStore.PutAnswers(s, voters, liars) && AtomicStore.Current(s, k, latest, value)
      requires voters <= Below(|s|) && |voters| > 2 * (|s| - k + |liars|)
      ensures voters != {} && Answerers(keyVals[..]) == voters
      ensures Wins(PutBallots(keyVals[..]), w) ==>
                && w < keyVals.Length && keyVals[w].vno == latest
                && ReportedByPut(keyVals[..], w) == set i | i in voters && AtomicStore.Claim(s, liars, i) > latest
    {
      hide Wins, AtomicStore.Current, Below, ReportedByPut, AtomicStore.Claim, PutBallots;
      var bs := PutBallots(keyVals[..]);
      AtomicStore.PutFindsLatest(s, k, voters, liars, latest, value);
      AtomicStore.PutReportsOverclaims(s, k, voters, liars, latest, value);
      AtomicStore.PutBoxIsWhatClientSees(s, voters, liars);
      AtomicStore.VotersAnswer(s, voters, liars);
      CastOfPut(keyVals[..]);
      if Wins(bs, w) {
        WinnerUnique(bs, AtomicStore.PutChoice(s, voters, liars), w);
        WinnerVotes(bs, w);
        VersionIsClaim(s, voters, liars, w);
      }
    }

    lemma {:induction false} VersionIsClaim(s: AtomicStore.Store, voters: set<nat>, liars: set<nat>, w: nat)
      requires keyVals[..] == AtomicStore.PutAnswers(s, voters, liars) && w in voters && w < |s|
      ensures w < keyVals.Length && keyVals[w].vno == AtomicStore.Claim(s, liars, w)
    {
      assert keyVals[..][w] == AtomicStore.PutAnswers(s, voters, liars)[w];
    }

    /** The decision of a PUT: the new version, every answerer as a target, and the report. If
        the votes came from a store that is current and enough servers voted, the version is
        the one after the latest, and the report names exactly the voters that claim more. */
    method PlanUpdates() returns (r: Selection, newVno: int, targets: seq<nat>)
      requires Valid()
      modifies hashTable
      ensures Valid()
      ensures r.LesserQuorum? <==> |Answerers(keyVals[..])| < nw
      ensures r.NoBucket? ==> Answerers(keyVals[..]) == {}
      ensures r.Chosen? ==>
                && Wins(PutBallots(keyVals[..]), r.server)
                && newVno == keyVals[r.server].vno + 1
                && Answerers(keyVals[..]) != {} && newVno == Cluster.DecidedVno(keyVals[..])
                && Members(targets) == Answerers(keyVals[..])
                && Members(r.reported) == ReportedByPut(keyVals[..], r.server)
      ensures !r.Chosen? ==> targets == []
      ensures !r.LesserQuorum? ==>
                forall s: AtomicStore.Store, voters: set<nat>, liars: set<nat>, k: nat, latest: int, v: string ::
                  && keyVals[..] == AtomicStore.PutAnswers(s, voters, liars) && AtomicStore.Current(s, k, latest, v)
                  && voters <= Below(|s|) && |voters| > 2 * (|s| - k + |liars|) ==>
                    && r.Chosen? && newVno == latest + 1 && Members(targets) == voters
                    && Members(r.reported) == set i | i in voters && AtomicStore.Claim(s, liars, i) > latest
    {
      hide PutBallots, Wins, ReportedByPut, AtomicStore.Current, AtomicStore.PutAnswers, AtomicStore.Claim, Below, Answerers;
      r, newVno, targets := Decide();
      forall s: AtomicStore.Store, voters: set<nat>, liars: set<nat>, k: nat, latest: int, v: string
        | && !r.LesserQuorum? && keyVals[..] == AtomicStore.PutAnswers(s, voters, liars)
          && AtomicStore.Current(s, k, latest, v) && voters <= Below(|s|) && |voters| > 2 * (|s| - k + |liars|)
        ensures r.Chosen? && newVno == latest + 1 && Members(targets) == voters
        ensures Members(r.reported) == set i | i in voters && AtomicStore.Claim(s, liars, i) > latest
      {
        PutIsRight(if r.Chosen? then r.server else 0, s, voters, liars, k, latest, v);
      }
    }

    method Decide() returns (r: Selection, newVno: int, targets: seq<nat>)
      requires Valid()
      modifies hashTable
      ensures Valid()
      ensures r.LesserQuorum? <==> |Answerers(keyVals[..])| < nw
      ensures r.NoBucket? ==> Answerers(keyVals[..]) == {}
      ensures r.Chosen? ==>
                && Wins(PutBallots(keyVals[..]), r.server)
                && newVno == keyVals[r.server].vno + 1
                && Answerers(keyVals[..]) != {} && newVno == Cluster.DecidedVno(keyVals[..])
                && Members(targets) == Answerers(keyVals[..])
                && Members(r.reported) == ReportedByPut(keyVals[..], r.server)
      ensures !r.Chosen? ==> targets == []
    {
      newVno, targets := 0, [];
      r := SelectServer(Put);
      if r.Chosen? {
        newVno := keyVals[r.server].vno + 1;
        VersionIsDecided(r.server);
        assert Members(targets) == {};
        for i := 0 to n
          invariant Members(targets) == set j: nat | j < i && Answered(keyVals[j])
        {
          if keyVals[i].sock != -1 {
            var more: seq<nat> := targets + [i];
            assert Members(more) == Members(targets) + {i};
            targets := more;
          }
        }
      }
    }
  }
}
