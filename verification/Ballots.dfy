/**
  Plurality choice among the servers that answered one round.

  A ballot box holds, per server index, the label (a version or a value) that
  counts for that server, or nothing. The client groups equal labels into
  buckets and takes the first member of the first largest bucket. `Wins` says
  declaratively which server that is; `Partitioned` is what the client's table
  of buckets looks like while it is filled.
*/
module Ballots {

  datatype Option<+T> = None | Some(value: T)

  function Group<T(==)>(bs: seq<Option<T>>, x: T): set<nat> {
    set i: nat | i < |bs| && bs[i] == Some(x)
  }

  function Cast<T>(bs: seq<Option<T>>): set<nat> {
    set i: nat | i < |bs| && bs[i].Some?
  }

  /** The smallest index whose label is most frequent. */
  ghost predicate Wins<T>(bs: seq<Option<T>>, w: nat) {
    && w < |bs| && bs[w].Some?
    && forall j: nat :: j < |bs| && bs[j].Some? ==>
         && |Group(bs, bs[j].value)| <= |Group(bs, bs[w].value)|
         && (j < w ==> |Group(bs, bs[j].value)| < |Group(bs, bs[w].value)|)
  }

  lemma {:induction false} WinnerUnique<T>(bs: seq<Option<T>>, v: nat, w: nat)
    requires Wins(bs, v) && Wins(bs, w)
    ensures v == w
  {
  }

  lemma {:induction false} BestOfPrefix<T>(bs: seq<Option<T>>, k: nat) returns (w: nat)
    requires k <= |bs|
    requires exists i: nat :: i < k && bs[i].Some?
    ensures w < k && bs[w].Some?
    ensures forall j: nat :: j < k && bs[j].Some? ==>
              && |Group(bs, bs[j].value)| <= |Group(bs, bs[w].value)|
              && (j < w ==> |Group(bs, bs[j].value)| < |Group(bs, bs[w].value)|)
  {
    if exists i: nat :: i < k - 1 && bs[i].Some? {
      w := BestOfPrefix(bs, k - 1);
      if bs[k - 1].Some? && |Group(bs, bs[k - 1].value)| > |Group(bs, bs[w].value)| {
        w := k - 1;
      }
    } else {
      w := k - 1;
    }
  }

  lemma {:induction false} WinnerExists<T>(bs: seq<Option<T>>)
    requires Cast(bs) != {}
    ensures exists w: nat :: Wins(bs, w)
  {
    var i :| i in Cast(bs);
    var w := BestOfPrefix(bs, |bs|);
    assert Wins(bs, w);
  }

  ghost function Winner<T>(bs: seq<Option<T>>): (w: nat)
    requires Cast(bs) != {}
    ensures Wins(bs, w)
  {
    WinnerExists(bs);
    var w: nat :| Wins(bs, w);
    w
  }

  /** A label that beats every other label decides the vote, wherever its voters sit. */
  lemma {:induction false} PluralityDecides<T>(bs: seq<Option<T>>, x: T)
    requires Group(bs, x) != {}
    requires forall y :: y != x ==> |Group(bs, y)| < |Group(bs, x)|
    ensures Cast(bs) != {} && bs[Winner(bs)] == Some(x)
  {
    var i :| i in Group(bs, x);
    assert i in Cast(bs);
    var w := Winner(bs);
    assert |Group(bs, bs[i].value)| <= |Group(bs, bs[w].value)|;
  }

  /** So does the label of more than half of those who voted. */
  lemma {:induction false} MajorityDecides<T>(bs: seq<Option<T>>, x: T)
    requires 2 * |Group(bs, x)| > |Cast(bs)|
    ensures Cast(bs) != {} && bs[Winner(bs)] == Some(x)
    ensures forall y :: y != x ==> |Group(bs, y)| < |Group(bs, x)|
  {
    forall y | y != x ensures |Group(bs, y)| < |Group(bs, x)| {
      SubsetSize(Group(bs, x) + Group(bs, y), Cast(bs));
      assert Group(bs, x) !! Group(bs, y);
    }
    PluralityDecides(bs, x);
  }

  // ----- finite sets -----

  lemma {:induction false} SubsetSize<T>(a: set<T>, b: set<T>)
    requires a <= b
    ensures |a| <= |b|
    ensures a != b ==> |a| < |b|
  {
    if a != {} {
      var x :| x in a;
      SubsetSize(a - {x}, b - {x});
    }
  }

  function Image<A, B>(s: set<A>, f: A -> B): set<B> {
    set x | x in s :: f(x)
  }

  lemma {:induction false} ImageSize<A, B>(s: set<A>, f: A -> B)
    requires forall x, y :: x in s && y in s && x != y ==> f(x) != f(y)
    ensures |Image(s, f)| == |s|
  {
    if s != {} {
      var x :| x in s;
      ImageSize(s - {x}, f);
      assert Image(s, f) == Image(s - {x}, f) + {f(x)};
    }
  }

  function Below(n: nat): (r: set<nat>)
    ensures forall i: nat :: i in r <==> i < n
  {
    if n == 0 then {} else Below(n - 1) + {n - 1}
  }

  lemma {:induction false} BelowSize(n: nat)
    ensures |Below(n)| == n
  {
    if n > 0 {
      BelowSize(n - 1);
    }
  }

  lemma {:induction false} RangeSize(d: nat, m: nat)
    requires d <= m
    ensures |Below(m) - Below(d)| == m - d
  {
    BelowSize(m);
    BelowSize(d);
    assert Below(m) == (Below(m) - Below(d)) + Below(d);
  }

  /** Two subsets of n servers share at least |a| + |b| - n of them. */
  lemma {:induction false} Overlap(a: set<nat>, b: set<nat>, n: nat)
    requires a <= Below(n) && b <= Below(n)
    ensures |a * b| >= |a| + |b| - n
    ensures |a - b| <= n - |b|
  {
    BelowSize(n);
    SubsetSize(a + b, Below(n));
    assert a - b == a - (a * b);
    SubsetSize((a - b) + b, Below(n));
    assert (a - b) !! b;
  }

  // ----- lists without repetition -----

  function Members<T(==)>(l: seq<T>): set<T> {
    set x | x in l
  }

  predicate Distinct<T(==)>(l: seq<T>) {
    forall p, q :: 0 <= p < q < |l| ==> l[p] != l[q]
  }

  lemma {:induction false} DistinctSize<T>(l: seq<T>)
    requires Distinct(l)
    ensures |Members(l)| == |l|
  {
    if |l| > 0 {
      var front, last := l[..|l| - 1], l[|l| - 1];
      DistinctSize(front);
      assert l == front + [last];
      assert Members(l) == Members(front) + {last};
    }
  }

  // ----- buckets -----

  ghost predicate Ascending(row: seq<nat>) {
    forall p, q :: 0 <= p < q < |row| ==> row[p] < row[q]
  }

  /** A bucket for label x: a non-empty ascending list of voters for x. */
  ghost predicate Bucket<T>(row: seq<nat>, x: T, bs: seq<Option<T>>) {
    && row != [] && Ascending(row)
    && forall p :: 0 <= p < |row| ==> row[p] < |bs| && bs[row[p]] == Some(x)
  }

  /** Every voter is in the bucket of its label, labels differ between buckets, and
      the buckets stand in the order in which their labels were first seen. */
  ghost predicate Partitioned<T>(rows: seq<seq<nat>>, labels: seq<T>, bs: seq<Option<T>>) {
    && |rows| == |labels|
    && (forall b :: 0 <= b < |rows| ==> Bucket(rows[b], labels[b], bs))
    && (forall b, c :: 0 <= b < c < |rows| ==> labels[b] != labels[c] && rows[b][0] < rows[c][0])
    && (forall i: nat :: i < |bs| && bs[i].Some? ==> exists b :: 0 <= b < |rows| && i in rows[b])
  }

  /** A largest bucket with every earlier bucket smaller. */
  ghost predicate FirstLargest(rows: seq<seq<nat>>, b: nat) {
    && b < |rows|
    && forall c :: 0 <= c < |rows| ==> |rows[c]| <= |rows[b]| && (c < b ==> |rows[c]| < |rows[b]|)
  }

  lemma {:induction false} BucketIsGroup<T>(rows: seq<seq<nat>>, labels: seq<T>, bs: seq<Option<T>>, b: nat)
    requires Partitioned(rows, labels, bs) && b < |rows|
    ensures Members(rows[b]) == Group(bs, labels[b])
    ensures |rows[b]| == |Group(bs, labels[b])|
  {
    DistinctSize(rows[b]);
    forall i | i in Group(bs, labels[b]) ensures i in rows[b] {
      var c :| 0 <= c < |rows| && i in rows[c];
      assert bs[i] == Some(labels[c]);
      assert c == b;
    }
  }

  lemma {:induction false} BucketOf<T>(rows: seq<seq<nat>>, labels: seq<T>, bs: seq<Option<T>>, j: nat) returns (c: nat)
    requires Partitioned(rows, labels, bs) && j < |bs| && bs[j].Some?
    ensures c < |rows| && j in rows[c] && rows[c][0] <= j && bs[j] == Some(labels[c])
    ensures |Group(bs, bs[j].value)| == |rows[c]|
  {
    c :| 0 <= c < |rows| && j in rows[c];
    assert Bucket(rows[c], labels[c], bs);
    var p :| 0 <= p < |rows[c]| && rows[c][p] == j;
    BucketIsGroup(rows, labels, bs, c);
  }

  /** Taking the head of the first largest bucket is the plurality choice. */
  lemma {:induction false} FirstLargestWins<T>(rows: seq<seq<nat>>, labels: seq<T>, bs: seq<Option<T>>, b: nat)
    requires Partitioned(rows, labels, bs) && FirstLargest(rows, b)
    ensures Wins(bs, rows[b][0])
  {
    var w := rows[b][0];
    assert Bucket(rows[b], labels[b], bs);
    BucketIsGroup(rows, labels, bs, b);
    forall j: nat | j < |bs| && bs[j].Some?
      ensures |Group(bs, bs[j].value)| <= |Group(bs, bs[w].value)|
      ensures j < w ==> |Group(bs, bs[j].value)| < |Group(bs, bs[w].value)|
    {
      var c := BucketOf(rows, labels, bs, j);
    }
  }

  lemma {:induction false} BucketKeeps<T>(row: seq<nat>, x: T, bs: seq<Option<T>>, more: Option<T>)
    requires Bucket(row, x, bs)
    ensures Bucket(row, x, bs + [more])
  {
  }

  lemma {:induction false} BucketGrows<T>(row: seq<nat>, x: T, bs: seq<Option<T>>)
    requires Bucket(row, x, bs)
    ensures Bucket(row + [|bs|], x, bs + [Some(x)])
  {
  }

  lemma {:induction false} PartitionSkip<T>(rows: seq<seq<nat>>, labels: seq<T>, bs: seq<Option<T>>)
    requires Partitioned(rows, labels, bs)
    ensures Partitioned(rows, labels, bs + [None])
  {
    forall b | 0 <= b < |rows| ensures Bucket(rows[b], labels[b], bs + [None]) {
      BucketKeeps(rows[b], labels[b], bs, None);
    }
  }

  lemma {:induction false} PartitionJoin<T>(rows: seq<seq<nat>>, labels: seq<T>, bs: seq<Option<T>>, b: nat)
    requires Partitioned(rows, labels, bs) && b < |rows|
    ensures Partitioned(rows[b := rows[b] + [|bs|]], labels, bs + [Some(labels[b])])
  {
    var rows' := rows[b := rows[b] + [|bs|]];
    var bs' := bs + [Some(labels[b])];
    forall c | 0 <= c < |rows| ensures Bucket(rows'[c], labels[c], bs') && rows'[c][0] == rows[c][0] {
      if c == b {
        BucketGrows(rows[b], labels[b], bs);
      } else {
        BucketKeeps(rows[c], labels[c], bs, Some(labels[b]));
      }
    }
    forall i: nat | i < |bs'| && bs'[i].Some? ensures exists c :: 0 <= c < |rows'| && i in rows'[c] {
      if i == |bs| {
        assert i in rows'[b];
      } else {
        assert bs[i].Some?;
        var c :| 0 <= c < |rows| && i in rows[c];
        assert i in rows'[c];
      }
    }
  }

  lemma {:induction false} PartitionOpen<T>(rows: seq<seq<nat>>, labels: seq<T>, bs: seq<Option<T>>, x: T)
    requires Partitioned(rows, labels, bs) && x !in labels
    ensures Partitioned(rows + [[|bs|]], labels + [x], bs + [Some(x)])
  {
    var rows' := rows + [[|bs|]];
    var bs' := bs + [Some(x)];
    forall c | 0 <= c < |rows'| ensures Bucket(rows'[c], (labels + [x])[c], bs') {
      if c < |rows| {
        BucketKeeps(rows[c], labels[c], bs, Some(x));
      }
    }
    forall i: nat | i < |bs'| && bs'[i].Some? ensures exists c :: 0 <= c < |rows'| && i in rows'[c] {
      if i == |bs| {
        assert i in rows'[|rows|];
      } else {
        assert bs[i].Some?;
        var c :| 0 <= c < |rows| && i in rows[c];
        assert i in rows'[c];
      }
    }
  }
}
