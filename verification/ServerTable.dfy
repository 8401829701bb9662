/**
  One server's table of keys and the handler segments that change it (Server.c).

  A segment is what a handler does between two waits on the network. Each one
  is proved to make exactly the change that `Cluster` uses for its steps, and to
  leave the entries of all other keys alone.
*/
module ServerTable {
  import opened Ballots
  import opened Replies
  import opened AtomicStore
  import Cluster

  const MAXKEYS := 1000

  datatype KeyVal = KeyVal(key: string, value: string, vno: int, lock: int, numGetters: int)

  /** The first entry with this key. */
  function Find(t: seq<KeyVal>, key: string): (r: Option<nat>)
    ensures r.Some? ==> r.value < |t| && t[r.value].key == key && forall j :: 0 <= j < r.value ==> t[j].key != key
    ensures r.None? ==> forall j :: 0 <= j < |t| ==> t[j].key != key
  {
    if |t| == 0 then None
    else if t[0].key == key then Some(0)
    else match Find(t[1..], key)
      case None => None
      case Some(i) => Some(i + 1)
  }

  /** What an entry is for the protocol. */
  function RowOf(e: KeyVal): Cluster.Row {
    Cluster.Row(e.vno, e.value, e.lock != 0)
  }

  /** The protocol's view of a key. */
  function View(t: seq<KeyVal>, key: string): Option<Cluster.Row> {
    match Find(t, key)
    case None => None
    case Some(i) => Some(RowOf(t[i]))
  }

  lemma {:induction false} FindIsFirst(t: seq<KeyVal>, key: string, i: nat)
    requires i < |t| && t[i].key == key && forall j :: 0 <= j < i ==> t[j].key != key
    ensures Find(t, key) == Some(i)
  {
  }

  /** Changing an entry, but not its key, shows in the view of that key only. */
  lemma {:induction false} ViewAfterWrite(t: seq<KeyVal>, i: nat, e: KeyVal, key: string)
    requires i < |t| && e.key == t[i].key && Find(t, t[i].key) == Some(i)
    ensures Find(t[i := e], key) == Find(t, key)
    ensures View(t[i := e], key) == if key == e.key then Some(RowOf(e)) else View(t, key)
  {
    var t' := t[i := e];
    match Find(t, key)
    case Some(k) =>
      forall j | 0 <= j < k ensures t'[j].key != key {
        assert t[j].key != key;
      }
      FindIsFirst(t', key, k);
    case None =>
      forall j | 0 <= j < |t'| ensures t'[j].key != key {
        assert t[j].key != key;
      }
  }

  // ----- the getter counter -----

  /** What a handler does to the entry of its key. A GET looks at the lock and later, when
      its answer is sent or refused, lowers the counter; other handlers may come in between. */
  datatype Request = GetEnter | GetLeave | Vote | Update(value: string, vno: int) | Release

  predicate Grants(e: KeyVal) {
    e.lock == 0 && e.numGetters == 0
  }

  function Serve(e: KeyVal, r: Request): KeyVal {
    match r
    case GetEnter => if e.lock == 0 then e.(numGetters := e.numGetters + 1) else e
    case GetLeave => e.(numGetters := e.numGetters - 1)
    case Vote => if Grants(e) then e.(lock := 1) else e
    case Update(value, vno) => if e.lock == 0 then e else e.(value := value, vno := vno)
    case Release => e.(lock := 0)
  }

  function ServeAll(e: KeyVal, rs: seq<Request>): KeyVal {
    if |rs| == 0 then e else Serve(ServeAll(e, rs[..|rs| - 1]), rs[|rs| - 1])
  }

  /** How many GETs arrived while the key was locked. */
  function LockedGets(e: KeyVal, rs: seq<Request>): nat {
    if |rs| == 0 then 0
    else
      var front := rs[..|rs| - 1];
      LockedGets(e, front) + if rs[|rs| - 1] == GetEnter && ServeAll(e, front).lock != 0 then 1 else 0
  }

  /** How many GETs are between their two accesses to the entry. */
  function GetsInside(rs: seq<Request>): int {
    if |rs| == 0 then 0
    else
      GetsInside(rs[..|rs| - 1])
      + match rs[|rs| - 1]
        case GetEnter => 1
        case GetLeave => -1
        case _ => 0
  }

  /** The counter is not the number of GETs inside: every GET that meets the lock lowers it
      for good. An unlocked key grants a PUT exactly when as many GETs are inside as have
      ever met its lock. */
  lemma {:induction false} GrantsWhenGetsBalance(e: KeyVal, rs: seq<Request>)
    requires e.numGetters == 0
    ensures ServeAll(e, rs).numGetters == GetsInside(rs) - LockedGets(e, rs)
    ensures ServeAll(e, rs).lock == 0 ==> (Grants(ServeAll(e, rs)) <==> GetsInside(rs) == LockedGets(e, rs))
  {
    if |rs| > 0 {
      GrantsWhenGetsBalance(e, rs[..|rs| - 1]);
    }
  }

  lemma {:induction false} LockedGetsGrow(e: KeyVal, rs: seq<Request>, more: seq<Request>)
    ensures LockedGets(e, rs) <= LockedGets(e, rs + more)
  {
    if |more| == 0 {
      assert rs + more == rs;
    } else {
      LockedGetsGrow(e, rs, more[..|more| - 1]);
      assert (rs + more)[..|rs + more| - 1] == rs + more[..|more| - 1];
    }
  }

  /** So after one GET has met the lock, this server never grants a PUT of the key again at
      a moment when no GET is inside; only GETs that have raised the counter and not yet
      lowered it can let one in. */
  lemma {:induction false} OnlyGetsInsideLetPutsIn(e: KeyVal, rs: seq<Request>, more: seq<Request>)
    requires e.numGetters == 0 && LockedGets(e, rs) > 0
    ensures Grants(ServeAll(e, rs + more)) ==> GetsInside(rs + more) >= LockedGets(e, rs)
  {
    LockedGetsGrow(e, rs, more);
    GrantsWhenGetsBalance(e, rs + more);
  }

  /** The shortest way there: a GET between the vote and the release of one PUT. */
  lemma {:induction false} OneGetUnderLock(e: KeyVal)
    requires Grants(e)
    ensures
      var rs := [Vote, GetEnter, GetLeave, Release];
      && LockedGets(e, rs) == 1 && GetsInside(rs) == 0
      && ServeAll(e, rs).lock == 0 && !Grants(ServeAll(e, rs))
  {
    var one, two, three, rs := [Vote], [Vote, GetEnter], [Vote, GetEnter, GetLeave], [Vote, GetEnter, GetLeave, Release];
    var locked := Serve(e, Vote);
    assert one[..0] == [] && two[..1] == one && three[..2] == two && rs[..3] == three;
    assert ServeAll(e, one) == locked && LockedGets(e, one) == 0 && GetsInside(one) == 0;
    assert ServeAll(e, two) == locked && LockedGets(e, two) == 1 && GetsInside(two) == 1;
    assert ServeAll(e, three) == Serve(locked, GetLeave) && LockedGets(e, three) == 1 && GetsInside(three) == 0;
  }

  /** Seen through RowOf, the segments of a PUT are the moves of the protocol, and a GET is none. */
  lemma {:induction false} SegmentsAreMoves(e: KeyVal, cl: Cluster.ClientState)
    ensures Grants(e) ==> !RowOf(e).lock && RowOf(Serve(e, Vote)) == Cluster.MoveRow(RowOf(e), cl, Cluster.Grant)
    ensures !Grants(e) ==> Serve(e, Vote) == e
    ensures cl.status.Decided? && e.lock != 0 ==>
              RowOf(Serve(e, Update(cl.value, cl.status.newVno))) == Cluster.MoveRow(RowOf(e), cl, Cluster.Update)
    ensures RowOf(Serve(e, Release)) == Cluster.MoveRow(RowOf(e), cl, Cluster.Release)
    ensures RowOf(Serve(e, Release)) == Cluster.MoveRow(RowOf(e), cl, Cluster.Expire)
    ensures RowOf(Serve(e, GetEnter)) == RowOf(e) && RowOf(Serve(e, GetLeave)) == RowOf(e)
  {
  }

  /** A PUT that is granted, updated and released leaves the key as free as it was, at the
      new version and value. */
  lemma {:induction false} PutCycle(e: KeyVal, value: string, vno: int)
    requires Grants(e)
    ensures ServeAll(e, [Vote, Update(value, vno), Release]) == e.(value := value, vno := vno)
    ensures Grants(ServeAll(e, [Vote, Update(value, vno), Release]))
  {
    var one, two, three := [Vote], [Vote, Update(value, vno)], [Vote, Update(value, vno), Release];
    assert one[..0] == [] && two[..1] == one && three[..2] == two;
    assert ServeAll(e, one) == e.(lock := 1);
    assert ServeAll(e, two) == e.(lock := 1, value := value, vno := vno);
  }

  lemma {:induction false} FindStays(t: seq<KeyVal>, i: nat, e: KeyVal, key: string)
    requires Find(t, key) == Some(i) && e.key == key
    ensures Find(t[i := e], key) == Some(i)
  {
    var t' := t[i := e];
    assert forall j :: 0 <= j < i ==> t'[j] == t[j];
    FindIsFirst(t', key, i);
  }

  /** A new entry behind a table that does not have its key. */
  lemma {:induction false} FindLast(t: seq<KeyVal>, e: KeyVal)
    requires Find(t, e.key) == None
    ensures Find(t + [e], e.key) == Some(|t|)
  {
    FindIsFirst(t + [e], e.key, |t|);
  }

  lemma {:induction false} FindBehind(t: seq<KeyVal>, e: KeyVal, key: string)
    requires Find(t, key) == None && e.key != key
    ensures Find(t + [e], key) == None
  {
    var all := t + [e];
    assert forall i :: 0 <= i < |all| ==> all[i].key != key;
  }

  lemma {:induction false} FrontLacks(t: seq<KeyVal>, k: nat, key: string)
    requires k <= |t| && Find(t, key) == None
    ensures Find(t[..k], key) == None
  {
    assert forall i :: 0 <= i < k ==> t[..k][i] == t[i];
  }

  class Server {
    const lier: bool
    const keyVals: array<KeyVal>
    var numKeys: nat

    ghost predicate Valid()
      reads this
    {
      keyVals.Length == MAXKEYS && numKeys <= MAXKEYS
    }

    ghost function Table(): seq<KeyVal>
      requires Valid()
      reads this, keyVals
    {
      keyVals[..numKeys]
    }

    constructor (lier: bool)
      ensures Valid() && fresh(keyVals) && this.lier == lier
      ensures Table() == [KeyVal("key1", "value1", 1, 0, 0)]
    {
      this.lier := lier;
      keyVals := new KeyVal[MAXKEYS](_ => KeyVal("key1", "value1", 1, 0, 0));
      numKeys := 1;
    }

    method SearchKey(key: string) returns (r: Option<nat>)
      requires Valid()
      ensures r == Find(Table(), key)
    {
      for i := 0 to numKeys
        invariant forall j :: 0 <= j < i ==> keyVals[j].key != key
      {
        if keyVals[i].key == key {
          FindIsFirst(Table(), key, i);
          return Some(i);
        }
      }
      return None;
    }

    /** Replaces entry i, whose key stays the same. */
    method Write(i: nat, e: KeyVal)
      requires Valid() && i < numKeys && e.key == keyVals[i].key && Find(Table(), e.key) == Some(i)
      modifies keyVals
      ensures Table() == old(Table())[i := e] && numKeys == old(numKeys)
      ensures forall key :: View(Table(), key) ==
                if key == e.key then Some(RowOf(e)) else old(View(Table(), key))
    {
      ghost var t := Table();
      keyVals[i] := e;
      assert Table() == t[i := e];
      forall key ensures View(Table(), key) == if key == e.key then Some(RowOf(e)) else View(t, key) {
        ViewAfterWrite(t, i, e, key);
      }
    }

    /** -1: no such key; -2: the key is not locked; 0: updated. */
    method UpdateKey(key: string, value: string, vno: int) returns (res: int)
      requires Valid()
      modifies keyVals
      ensures res == -1 <==> old(View(Table(), key)) == None
      ensures res == -2 <==> old(View(Table(), key)).Some? && !old(View(Table(), key)).value.lock
      ensures res in {0, -1, -2}
      ensures res != 0 ==> Table() == old(Table())
      ensures res == 0 ==>
                && View(Table(), key) == Some(Cluster.Row(vno, value, true))
                && var i := old(Find(Table(), key)).value;
                   Table() == old(Table())[i := Serve(old(Table())[i], Update(value, vno))]
      ensures forall k :: k != key ==> View(Table(), k) == old(View(Table(), k))
    {
      var k := SearchKey(key);
      match k
      case None => res := -1;
      case Some(i) =>
        if keyVals[i].lock == 0 {
          res := -2;
        } else {
          Write(i, keyVals[i].(value := value, vno := vno));
          res := 0;
        }
    }

    method ReleaseLock(key: string) returns (res: int)
      requires Valid()
      modifies keyVals
      ensures res == (if old(View(Table(), key)).None? then -1 else 0)
      ensures res == -1 ==> Table() == old(Table())
      ensures res == 0 ==>
                && View(Table(), key) == Some(old(View(Table(), key)).value.(lock := false))
                && var i := old(Find(Table(), key)).value;
                   Table() == old(Table())[i := Serve(old(Table())[i], Release)]
      ensures forall k :: k != key ==> View(Table(), k) == old(View(Table(), k))
    {
      var k := SearchKey(key);
      match k
      case None => res := -1;
      case Some(i) =>
        Write(i, keyVals[i].(lock := 0));
        res := 0;
    }

    /** The answer to a GET, if there is one; the counter loses one when the key is locked. */
    method GetResponse(key: string, sock: nat) returns (answer: Option<Reply>)
      requires Valid()
      modifies keyVals
      ensures answer == match old(View(Table(), key))
                        case None => None
                        case Some(row) => if row.lock then None else Some(Answer(Cluster.Held(row), sock, lier))
      ensures forall k :: View(Table(), k) == old(View(Table(), k))
      ensures match old(Find(Table(), key))
              case None => Table() == old(Table())
              case Some(i) => Table() == old(Table())[i := Serve(Serve(old(Table())[i], GetEnter), GetLeave)]
    {
      answer := None;
      var k := SearchKey(key);
      match k
      case None =>
      case Some(i) =>
        var e := keyVals[i];
        if e.lock == 0 {
          e := e.(numGetters := e.numGetters + 1);
          answer := Some(Answer(Replica(e.vno, e.value), sock, lier));
        }
        Write(i, e.(numGetters := e.numGetters - 1));
    }

    /** The first segment of a PUT: lock the entry and vote, or refuse. A key that is not
        in the table gets a new slot, which has no name before its update arrives. */
    method PutVote(key: string, sock: nat) returns (slot: nat, vote: Option<Reply>)
      requires Valid() && (numKeys < MAXKEYS || Find(Table(), key).Some?)
      modifies this, keyVals
      ensures Valid() && slot < numKeys
      ensures match old(Find(Table(), key))
              case Some(i) =>
                && slot == i && Table() == old(Table())[i := Serve(old(Table())[i], Vote)]
                && (vote.Some? <==> Grants(old(Table())[i]))
                && (vote.Some? ==> vote.value == AtomicStore.Vote(Cluster.Held(RowOf(old(Table())[i])), sock, lier))
                && (vote.Some? ==> View(Table(), key) == Some(old(View(Table(), key)).value.(lock := true)))
                && forall k :: k != key ==> View(Table(), k) == old(View(Table(), k))
              case None =>
                && slot == old(numKeys) && vote.Some?
                && Table() == old(Table()) + [KeyVal("", "", 0, 1, 0)]
                && vote.value == Reply(sock, if lier then 10 else 0, if lier then "lie" else "")
    {
      vote := None;
      var k := SearchKey(key);
      match k
      case Some(i) =>
        slot := i;
        var e := keyVals[i];
        if e.lock == 0 && e.numGetters == 0 {
          Write(i, e.(lock := 1));
          vote := Some(AtomicStore.Vote(Replica(e.vno, e.value), sock, lier));
        }
      case None =>
        slot := numKeys;
        keyVals[slot] := KeyVal("", "", 0, 1, 0);
        numKeys := numKeys + 1;
        assert Table()[..slot] == old(Table());
        vote := Some(Reply(sock, if lier then LIER_VNO_INCR else 0, if lier then "lie" else ""));
    }

    /** The entry at a slot gets its name. */
    method NameSlot(slot: nat, key: string)
      requires Valid() && slot < numKeys
      modifies keyVals
      ensures Table() == old(Table())[slot := old(Table())[slot].(key := key)]
    {
      keyVals[slot] := keyVals[slot].(key := key);
    }

    /** The update message, or none in time, for a key that is in the table. */
    method FinishKnown(slot: nat, key: string, update: Option<(string, int)>)
      requires Valid() && Find(Table(), key) == Some(slot) && Table()[slot].lock != 0
      modifies keyVals
      ensures Table() == old(Table())[slot := var e := old(Table())[slot].(lock := 0);
                                              match update
                                              case None => e
                                              case Some(u) => e.(value := u.0, vno := u.1)]
    {
      ghost var t := Table();
      if update.Some? {
        var res := UpdateKey(key, update.value.0, update.value.1);
        FindStays(t, slot, Table()[slot], key);
      }
      var released := ReleaseLock(key);
    }

    /** The same for a slot taken for a new key, which gets its name with the update. */
    method FinishNew(slot: nat, key: string, update: Option<(string, int)>)
      requires Valid() && Find(Table(), key) == None && slot + 1 == numKeys
      requires Table()[slot].lock != 0
      modifies keyVals
      ensures Table() == old(Table())[..slot]
              + [match update
                 case None => old(Table())[slot]
                 case Some(u) => old(Table())[slot].(key := key, value := u.0, vno := u.1, lock := 0)]
    {
      ghost var t := Table();
      assert t == t[..slot] + [t[slot]];
      match update
      case None => var released := ReleaseLock(key);
      case Some(u) =>
        FrontLacks(t, slot, key);
        FindLast(t[..slot], t[slot].(key := key));
        assert t[slot := t[slot].(key := key)] == t[..slot] + [t[slot].(key := key)];
        NameSlot(slot, key);
        FinishKnown(slot, key, update);
    }

    /** putResponse without interruption: the vote, and if that is sent, the update message or
        none in time, and the release. A slot taken for a new key gets its name with the
        update; without one it has no name, so its lock is never released. */
    method PutResponse(key: string, sock: nat, update: Option<(string, int)>) returns (vote: Option<Reply>)
      requires Valid() && |key| > 0 && (numKeys < MAXKEYS || Find(Table(), key).Some?)
      modifies this, keyVals
      ensures Valid()
      ensures match old(Find(Table(), key))
              case Some(i) =>
                var e := old(Table())[i];
                && (vote.Some? <==> Grants(e))
                && (vote.Some? ==> vote.value == AtomicStore.Vote(Replica(e.vno, e.value), sock, lier))
                && Table() == old(Table())[i := if Grants(e) && update.Some?
                                                then e.(value := update.value.0, vno := update.value.1) else e]
              case None =>
                && vote == Some(Reply(sock, if lier then 10 else 0, if lier then "lie" else ""))
                && Table() == old(Table()) + [match update
                                              case Some(u) => KeyVal(key, u.0, u.1, 0, 0)
                                              case None => KeyVal("", "", 0, 1, 0)]
    {
      ghost var t, found := Table(), Find(Table(), key);
      var known := SearchKey(key);
      var slot;
      slot, vote := PutVote(key, sock);
      if vote.Some? {
        if known.Some? {
          FindStays(t, slot, Table()[slot], key);
          FinishKnown(slot, key, update);
        } else {
          FindBehind(t, Table()[slot], key);
          FinishNew(slot, key, update);
        }
      }
    }

    /** Two PUTs of one key, one after the other: when the first is granted and updated, the
        second is granted and votes with the version and value of the first. */
    method PutTwice(key: string, sock: nat, value: string, vno: int, update: Option<(string, int)>)
      returns (first: Option<Reply>, second: Option<Reply>)
      requires Valid() && |key| > 0 && (numKeys < MAXKEYS || Find(Table(), key).Some?)
      modifies this, keyVals
      ensures Valid()
      ensures first.Some? ==> second == Some(AtomicStore.Vote(Replica(vno, value), sock, lier))
      ensures first.None? ==> second.None?
    {
      ghost var t := Table();
      first := PutResponse(key, sock, Some((value, vno)));
      match Find(t, key) {
        case Some(i) => FindStays(t, i, Table()[i], key);
        case None => FindLast(t, KeyVal(key, value, vno, 0, 0));
      }
      second := PutResponse(key, sock, update);
    }
  }
}
