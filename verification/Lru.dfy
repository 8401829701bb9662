/**
  The least-recently-used bookkeeping of a cache (Cache.c).

  Every block has a counter; touching a block raises, modulo the number of
  blocks, the counters that are not above its own, and clears its own. Starting
  from zeros this is a move-to-front list in disguise: a block's counter is the
  number of other blocks touched since it was.
*/
module Lru {
  import opened Ballots

  // ----- move to front -----

  function Without<T(==)>(l: seq<T>, x: T): seq<T> {
    if |l| == 0 then []
    else if l[0] == x then Without(l[1..], x)
    else [l[0]] + Without(l[1..], x)
  }

  function MoveToFront<T(==)>(l: seq<T>, x: T): seq<T> {
    [x] + Without(l, x)
  }

  /** The distinct elements of ts, the latest first. */
  function Recent<T(==)>(ts: seq<T>): seq<T> {
    if |ts| == 0 then [] else MoveToFront(Recent(ts[..|ts| - 1]), ts[|ts| - 1])
  }

  lemma {:induction false} WithoutAbsent<T>(l: seq<T>, x: T)
    requires x !in l
    ensures Without(l, x) == l
  {
    if |l| > 0 {
      WithoutAbsent(l[1..], x);
    }
  }

  lemma {:induction false} WithoutAt<T>(l: seq<T>, p: nat)
    requires Distinct(l) && p < |l|
    ensures Without(l, l[p]) == l[..p] + l[p + 1..]
  {
    if p == 0 {
      WithoutAbsent(l[1..], l[0]);
    } else {
      WithoutAt(l[1..], p - 1);
    }
  }

  lemma {:induction false} MoveToFrontDistinct<T>(l: seq<T>, x: T)
    requires Distinct(l)
    ensures Distinct(MoveToFront(l, x))
    ensures forall y :: y in MoveToFront(l, x) <==> y == x || y in l
  {
    if x in l {
      var p :| 0 <= p < |l| && l[p] == x;
      WithoutAt(l, p);
      assert l == l[..p] + [x] + l[p + 1..];
    } else {
      WithoutAbsent(l, x);
    }
  }

  lemma {:induction false} RecentDistinct<T>(ts: seq<T>)
    ensures Distinct(Recent(ts))
    ensures forall y :: y in Recent(ts) <==> y in ts
  {
    if |ts| > 0 {
      RecentDistinct(ts[..|ts| - 1]);
      MoveToFrontDistinct(Recent(ts[..|ts| - 1]), ts[|ts| - 1]);
      assert ts == ts[..|ts| - 1] + [ts[|ts| - 1]];
    }
  }

  /** What has been touched since the last touch of x; everything, if x never was. */
  function Since<T(==)>(ts: seq<T>, x: T): set<T> {
    if |ts| == 0 || ts[|ts| - 1] == x then {}
    else Since(ts[..|ts| - 1], x) + {ts[|ts| - 1]}
  }

  /** The place of x in the list is what has been touched since. */
  lemma {:induction false} RecentIsSince<T>(ts: seq<T>, x: T)
    ensures x !in ts ==> Since(ts, x) == Members(Recent(ts))
    ensures forall p :: 0 <= p < |Recent(ts)| && Recent(ts)[p] == x ==> Since(ts, x) == Members(Recent(ts)[..p])
  {
    if |ts| > 0 {
      var front, y := ts[..|ts| - 1], ts[|ts| - 1];
      var l, l' := Recent(front), Recent(ts);
      RecentIsSince(front, x);
      RecentDistinct(front);
      RecentDistinct(ts);
      assert ts == front + [y];
      forall p | 0 <= p < |l'| && l'[p] == x ensures Since(ts, x) == Members(l'[..p]) {
        if x == y {
          assert l'[0] == y;
          assert p == 0;
        } else {
          FrontOfMoved(l, y, x, p);
        }
      }
      if x !in ts {
        MoveToFrontDistinct(l, y);
        assert Members(l') == Members(l) + {y};
      }
    }
  }

  lemma {:induction false} FrontOfMoved<T>(l: seq<T>, y: T, x: T, p: nat)
    requires Distinct(l) && x != y
    requires p < |MoveToFront(l, y)| && MoveToFront(l, y)[p] == x
    ensures exists q :: 0 <= q < |l| && l[q] == x && Members(MoveToFront(l, y)[..p]) == Members(l[..q]) + {y}
  {
    var l' := MoveToFront(l, y);
    if y in l {
      var k :| 0 <= k < |l| && l[k] == y;
      WithoutAt(l, k);
      if p <= k {
        assert l[p - 1] == x && l'[..p] == [y] + l[..p - 1];
      } else {
        assert l[p] == x && l'[..p] == [y] + l[..k] + l[k + 1..p];
        assert l[..p] == l[..k] + [y] + l[k + 1..p];
      }
    } else {
      WithoutAbsent(l, y);
      assert l[p - 1] == x && l'[..p] == [y] + l[..p - 1];
    }
  }

  // ----- counters -----

  /** update_lru on block b. */
  function Touch(cs: seq<int>, b: nat): seq<int>
    requires b < |cs|
  {
    seq(|cs|, i requires 0 <= i < |cs| =>
          if i == b then 0 else if cs[i] <= cs[b] then (cs[i] + 1) % |cs| else cs[i])
  }

  function TouchAll(cs: seq<int>, ts: seq<nat>): (cs': seq<int>)
    requires forall k :: 0 <= k < |ts| ==> ts[k] < |cs|
    ensures |cs'| == |cs|
  {
    if |ts| == 0 then cs else Touch(TouchAll(cs, ts[..|ts| - 1]), ts[|ts| - 1])
  }

  /** The counters are positions in the list; blocks outside it hold its length. */
  ghost predicate Ranks(cs: seq<int>, order: seq<nat>) {
    && (forall p :: 0 <= p < |order| ==> order[p] < |cs| && cs[order[p]] == p)
    && (forall b: nat :: b < |cs| && b !in order ==> cs[b] == |order|)
  }

  lemma {:induction false} RanksDistinct(cs: seq<int>, order: seq<nat>)
    requires Ranks(cs, order)
    ensures Distinct(order)
  {
    forall p, q | 0 <= p < q < |order| ensures order[p] != order[q] {
      assert cs[order[p]] != cs[order[q]];
    }
  }

  /** A list of distinct blocks that leaves some out is that much shorter. */
  lemma {:induction false} ListFits(order: seq<nat>, n: nat, out: set<nat>)
    requires Distinct(order) && forall p :: 0 <= p < |order| ==> order[p] < n && order[p] !in out
    requires out <= Below(n)
    ensures |order| + |out| <= n
  {
    DistinctSize(order);
    BelowSize(n);
    SubsetSize(Members(order) + out, Below(n));
    assert Members(order) !! out;
  }

  /** No counter that is raised ever wraps around. */
  lemma {:induction false} TouchNeverWraps(cs: seq<int>, order: seq<nat>, b: nat, i: nat)
    requires Ranks(cs, order) && b < |cs| && i < |cs| && i != b && cs[i] <= cs[b]
    ensures 0 <= cs[i] + 1 < |cs|
  {
    RanksDistinct(cs, order);
    if b in order {
      ListFits(order, |cs|, {});
    } else if i in order {
      ListFits(order, |cs|, {b});
    } else {
      ListFits(order, |cs|, {b, i});
    }
  }

  lemma {:induction false} TouchedCounters(cs: seq<int>, order: seq<nat>, b: nat)
    requires Ranks(cs, order) && b < |cs|
    ensures forall i: nat :: i < |cs| ==>
              Touch(cs, b)[i] == if i == b then 0 else if cs[i] <= cs[b] then cs[i] + 1 else cs[i]
  {
    forall i: nat | i < |cs| && i != b && cs[i] <= cs[b] ensures (cs[i] + 1) % |cs| == cs[i] + 1 {
      TouchNeverWraps(cs, order, b, i);
    }
  }

  lemma {:induction false} TouchPresent(cs: seq<int>, order: seq<nat>, p: nat)
    requires Ranks(cs, order) && p < |order|
    ensures Ranks(Touch(cs, order[p]), [order[p]] + order[..p] + order[p + 1..])
  {
    var b := order[p];
    var cs', order' := Touch(cs, b), [b] + order[..p] + order[p + 1..];
    TouchedCounters(cs, order, b);
    RanksDistinct(cs, order);
    forall q | 0 <= q < |order'| ensures order'[q] < |cs| && cs'[order'[q]] == q {
      if 0 < q <= p {
        assert order'[q] == order[q - 1] && cs[order[q - 1]] == q - 1;
      } else if q > p {
        assert order'[q] == order[q] && cs[order[q]] == q;
      }
    }
    assert order == order[..p] + [b] + order[p + 1..];
    forall i: nat | i < |cs| && i !in order' ensures cs'[i] == |order'| {
      assert i !in order;
    }
  }

  lemma {:induction false} TouchAbsent(cs: seq<int>, order: seq<nat>, b: nat)
    requires Ranks(cs, order) && b < |cs| && b !in order
    ensures Ranks(Touch(cs, b), [b] + order)
  {
    TouchedCounters(cs, order, b);
  }

  lemma {:induction false} TouchMovesToFront(cs: seq<int>, order: seq<nat>, b: nat)
    requires Ranks(cs, order) && b < |cs|
    ensures Ranks(Touch(cs, b), MoveToFront(order, b))
  {
    RanksDistinct(cs, order);
    if b in order {
      WithoutAt(order, cs[b]);
      TouchPresent(cs, order, cs[b]);
      assert MoveToFront(order, b) == [b] + order[..cs[b]] + order[cs[b] + 1..];
    } else {
      WithoutAbsent(order, b);
      TouchAbsent(cs, order, b);
    }
  }

  /** From zeros, any sequence of touches keeps the counters equal to positions in the
      list of touched blocks, latest first. */
  lemma {:induction false} CountersAreMoveToFront(n: nat, ts: seq<nat>)
    requires forall k :: 0 <= k < |ts| ==> ts[k] < n
    ensures Ranks(TouchAll(seq(n, _ => 0), ts), Recent(ts))
  {
    if |ts| > 0 {
      CountersAreMoveToFront(n, ts[..|ts| - 1]);
      TouchMovesToFront(TouchAll(seq(n, _ => 0), ts[..|ts| - 1]), Recent(ts[..|ts| - 1]), ts[|ts| - 1]);
    }
  }

  /** A block's counter is the number of blocks touched since it was. */
  lemma {:induction false} CounterCountsSince(n: nat, ts: seq<nat>, b: nat)
    requires b < n && forall k :: 0 <= k < |ts| ==> ts[k] < n
    ensures TouchAll(seq(n, _ => 0), ts)[b] == |Since(ts, b)|
  {
    var cs, order := TouchAll(seq(n, _ => 0), ts), Recent(ts);
    CountersAreMoveToFront(n, ts);
    RecentIsSince(ts, b);
    RecentDistinct(ts);
    var p := cs[b];
    assert b in order ==> order[p] == b;
    var newer := if b in order then order[..p] else order;
    DistinctSize(newer);
  }

  /** The lowest of the blocks with the highest counter. */
  ghost predicate IsVictim(cs: seq<int>, b: nat) {
    b < |cs| && forall c :: 0 <= c < |cs| ==> cs[c] <= cs[b] && (c < b ==> cs[c] < cs[b])
  }

  function VictimUpTo(cs: seq<int>, k: nat): (b: nat)
    requires 0 < k <= |cs|
    ensures b < k && forall c :: 0 <= c < k ==> cs[c] <= cs[b] && (c < b ==> cs[c] < cs[b])
  {
    if k == 1 then 0
    else
      var b := VictimUpTo(cs, k - 1);
      if cs[b] < cs[k - 1] then k - 1 else b
  }

  /** The block get_free_cache_block picks. */
  function VictimOf(cs: seq<int>): (b: nat)
    requires |cs| > 0
    ensures IsVictim(cs, b)
  {
    VictimUpTo(cs, |cs|)
  }

  /** It is the lowest block outside the list, or the last of the list when there is none. */
  lemma {:induction false} VictimIsLeastRecent(cs: seq<int>, order: seq<nat>, b: nat)
    requires Ranks(cs, order) && IsVictim(cs, b)
    ensures |order| <= |cs|
    ensures |order| < |cs| <==> exists c: nat :: c < |cs| && c !in order
    ensures |order| < |cs| ==> b !in order && forall c: nat :: c < b ==> c in order
    ensures |order| == |cs| ==> b == order[|cs| - 1]
  {
    RanksDistinct(cs, order);
    ListFits(order, |cs|, {});
    if c: nat :| c < |cs| && c !in order {
      ListFits(order, |cs|, {c});
    } else {
      DistinctSize(order);
      BelowSize(|cs|);
      SubsetSize(Below(|cs|), Members(order));
    }
    if |order| == |cs| {
      assert cs[order[|cs| - 1]] == |cs| - 1;
      assert b in order;
    }
  }

  // ----- the cache blocks -----

  datatype Allocation = Normal | WriteBack

  class Cache {
    const numBlocks: nat
    const lruCounter: array<int>
    const freeFlag: array<bool>
    /** The allocated blocks, latest touched first. */
    ghost var order: seq<nat>

    ghost predicate Valid()
      reads this, lruCounter, freeFlag
    {
      && lruCounter.Length == freeFlag.Length == numBlocks > 0
      && Ranks(lruCounter[..], order)
      && forall b :: 0 <= b < numBlocks ==> (freeFlag[b] <==> b !in order)
    }

    constructor (numBlocks: nat)
      requires numBlocks > 0
      ensures Valid() && fresh(lruCounter) && fresh(freeFlag)
      ensures this.numBlocks == numBlocks && order == []
      ensures forall b :: 0 <= b < numBlocks ==> lruCounter[b] == 0 && freeFlag[b]
    {
      this.numBlocks := numBlocks;
      lruCounter := new int[numBlocks](_ => 0);
      freeFlag := new bool[numBlocks](_ => true);
      order := [];
    }

    method UpdateLru(b: nat)
      requires lruCounter.Length == numBlocks && b < numBlocks
      modifies lruCounter
      ensures lruCounter[..] == Touch(old(lruCounter[..]), b)
    {
      ghost var cs := lruCounter[..];
      for i := 0 to numBlocks
        invariant lruCounter[b] == cs[b]
        invariant forall j :: 0 <= j < i && j != b ==> lruCounter[j] == Touch(cs, b)[j]
        invariant forall j :: i <= j < numBlocks ==> lruCounter[j] == cs[j]
      {
        if i != b && lruCounter[i] <= lruCounter[b] {
          lruCounter[i] := (lruCounter[i] + 1) % numBlocks;
        }
      }
      lruCounter[b] := 0;
    }

    method GetFreeCacheBlock() returns (index: nat, result: Allocation)
      requires lruCounter.Length == freeFlag.Length == numBlocks > 0
      requires forall b :: 0 <= b < numBlocks ==> lruCounter[b] >= 0
      modifies freeFlag
      ensures IsVictim(lruCounter[..], index)
      ensures result == if old(freeFlag[index]) then Normal else WriteBack
      ensures freeFlag[..] == old(freeFlag[..])[index := false]
    {
      var max, at := -1, -1;
      for i := 0 to numBlocks
        invariant at == -1 <==> i == 0
        invariant i == 0 ==> max == -1
        invariant i > 0 ==> 0 <= at < i && max == lruCounter[at]
        invariant forall c :: 0 <= c < i ==> lruCounter[c] <= max && (c < at ==> lruCounter[c] < max)
      {
        if max < lruCounter[i] {
          max, at := lruCounter[i], i;
        }
      }
      index := at;
      result := if freeFlag[index] then Normal else WriteBack;
      freeFlag[index] := false;
    }

    /** An allocation followed by its update_lru: NORMAL exactly when a block is free, and
        then the lowest free one; otherwise the least recently touched block. */
    method Allocate() returns (b: nat, result: Allocation)
      requires Valid()
      modifies this, lruCounter, freeFlag
      ensures Valid() && b < numBlocks
      ensures result == Normal <==> exists c :: 0 <= c < numBlocks && old(freeFlag[c])
      ensures result == Normal ==> old(freeFlag[b]) && forall c :: 0 <= c < b ==> !old(freeFlag[c])
      ensures result == WriteBack ==> |old(order)| == numBlocks && b == old(order)[numBlocks - 1]
      ensures order == MoveToFront(old(order), b)
    {
      b, result := GetFreeCacheBlock();
      VictimIsLeastRecent(lruCounter[..], order, b);
      Renew(b);
    }

    /** A hit on an allocated block. */
    method Hit(b: nat)
      requires Valid() && b < numBlocks && !freeFlag[b]
      modifies this, lruCounter
      ensures Valid() && order == MoveToFront(old(order), b)
      ensures lruCounter[..] == Touch(old(lruCounter[..]), b)
    {
      Renew(b);
    }

    method Renew(b: nat)
      requires lruCounter.Length == freeFlag.Length == numBlocks > 0 && b < numBlocks
      requires Ranks(lruCounter[..], order) && !freeFlag[b]
      requires forall c :: 0 <= c < numBlocks && c != b ==> (freeFlag[c] <==> c !in order)
      modifies this, lruCounter
      ensures Valid() && order == MoveToFront(old(order), b)
      ensures lruCounter[..] == Touch(old(lruCounter[..]), b)
    {
      TouchMovesToFront(lruCounter[..], order, b);
      RanksDistinct(lruCounter[..], order);
      MoveToFrontDistinct(order, b);
      UpdateLru(b);
      order := MoveToFront(order, b);
    }
  }
}
