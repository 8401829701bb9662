/**
  The cache of metadata records (lfs_fuse.c over Cache.c).

  A lookup by name renews a resident record or loads the record from disk into
  the block that get_free_cache_block hands out, after writing back what that
  block held. Callers change a record in place, and may write it through to disk.
  A new file gets a block without a lookup and without a write-back. The cache is
  proved to hold exactly the most recently used names, and it is proved exactly
  when it is invisible, so that a run sees the records a plain map would show.
*/
module MetaCache {
  import opened Ballots
  import opened Lru
  import opened Metadata

  datatype State = State(lru: seq<int>, free: seq<bool>, mdata: seq<Mdata>, disk: map<string, string>)

  predicate Sized(n: nat, st: State) {
    |st.lru| == |st.free| == |st.mdata| == n > 0
  }

  predicate Matches(st: State, i: nat, name: string)
    requires i < |st.free| && i < |st.mdata|
  {
    !st.free[i] && st.mdata[i].name == name
  }

  /** find_meta_data_block: the first allocated block of that name from i on. */
  function FindFrom(st: State, name: string, i: nat): (r: Option<nat>)
    requires |st.free| == |st.mdata| && i <= |st.free|
    ensures r.Some? ==> i <= r.value < |st.free| && Matches(st, r.value, name)
    ensures r.Some? ==> forall j :: i <= j < r.value ==> !Matches(st, j, name)
    ensures r.None? ==> forall j :: i <= j < |st.free| ==> !Matches(st, j, name)
    decreases |st.free| - i
  {
    if i == |st.free| then None
    else if Matches(st, i, name) then Some(i)
    else FindFrom(st, name, i + 1)
  }

  /** A file is opened without truncation, so an older, longer text keeps its tail. */
  function Overwrite(before: string, text: string): string {
    if |before| <= |text| then text else text + before[|text|..]
  }

  function WriteOut(disk: map<string, string>, m: Mdata): map<string, string> {
    disk[m.name := Overwrite(if m.name in disk then disk[m.name] else "", Print(m))]
  }

  /** mdata_from_disk_to_memory: None when the file cannot be opened or parsed, which ends
      the process. The buffer is not cleared, so junk may follow the text that is read. */
  function Load(st: State, name: string, junk: string): Option<(State, nat)>
    requires Sized(|st.lru|, st)
  {
    var b := VictimOf(st.lru);
    var disk := if st.free[b] then st.disk else WriteOut(st.disk, st.mdata[b]);
    if name !in disk then None
    else match Parse(disk[name] + junk)
      case None => None
      case Some(m) => Some((State(Touch(st.lru, b), st.free[b := false], st.mdata[b := m], disk), b))
  }

  function Lookup(st: State, name: string, junk: string): Option<(State, nat)>
    requires Sized(|st.lru|, st)
  {
    match FindFrom(st, name, 0)
    case Some(b) => Some((st.(lru := Touch(st.lru, b)), b))
    case None => Load(st, name, junk)
  }

  /** lfs_mknod: whatever the block held is dropped, and the new record is written to disk. */
  function MakeFile(st: State, name: string): State
    requires Sized(|st.lru|, st)
  {
    var b, m := VictimOf(st.lru), Mdata(name, [], 0);
    State(Touch(st.lru, b), st.free[b := false], st.mdata[b := m], WriteOut(st.disk, m))
  }

  /** The caller's change of a resident record; the file system writes it through. */
  function Change(st: State, b: nat, m: Mdata, through: bool): State
    requires b < |st.mdata|
  {
    st.(mdata := st.mdata[b := m], disk := if through then WriteOut(st.disk, m) else st.disk)
  }

  /** A lookup, after which the caller may change the record in place, or a new file. */
  datatype Access =
    | Use(name: string, junk: string, update: Option<Mdata>, through: bool)
    | Create(name: string)

  /** The state after an access and the record the caller was given. */
  function Apply(st: State, a: Access): Option<(State, Mdata)>
    requires Sized(|st.lru|, st)
  {
    match a
    case Create(name) => Some((MakeFile(st, name), Mdata(name, [], 0)))
    case Use(name, junk, update, through) =>
      match Lookup(st, name, junk)
      case None => None
      case Some(r) =>
        if r.1 >= |r.0.mdata| then None
        else
          match update
          case None => Some((r.0, r.0.mdata[r.1]))
          case Some(m) => Some((Change(r.0, r.1, m, through), r.0.mdata[r.1]))
  }

  // ----- the invariant -----

  ghost predicate Good(name: string, m: Mdata) {
    m.name == name && Printable(m)
  }

  ghost predicate OnDisk(disk: map<string, string>, name: string, m: Mdata) {
    name in disk && Print(m) <= disk[name]
  }

  function NamesOf(mdata: seq<Mdata>, order: seq<nat>): seq<string>
    requires forall p :: 0 <= p < |order| ==> order[p] < |mdata|
  {
    seq(|order|, p requires 0 <= p < |order| => mdata[order[p]].name)
  }

  function Prefix<T>(l: seq<T>, n: nat): seq<T> {
    if |l| <= n then l else l[..n]
  }

  ghost predicate BlocksOk(n: nat, st: State, order: seq<nat>) {
    && Sized(n, st) && Ranks(st.lru, order)
    && forall b: nat :: b < n ==> (st.free[b] <==> b !in order)
  }

  /** The allocated blocks, latest touched first, hold the latest names of the history. */
  ghost predicate NamesOk(n: nat, mdata: seq<Mdata>, order: seq<nat>, hist: seq<string>) {
    && (forall p :: 0 <= p < |order| ==> order[p] < |mdata|)
    && NamesOf(mdata, order) == Prefix(Recent(hist), n)
  }

  predicate Resident(mdata: seq<Mdata>, order: seq<nat>, b: nat, name: string) {
    b < |mdata| && b in order && mdata[b].name == name
  }

  /** Resident records are the files' records, and the records of all other files are on disk. */
  ghost predicate RecordsOk(mdata: seq<Mdata>, order: seq<nat>, disk: map<string, string>, files: map<string, Mdata>) {
    && (forall name :: name in files ==> Good(name, files[name]))
    && (forall b: nat :: b < |mdata| && b in order ==> mdata[b].name in files && mdata[b] == files[mdata[b].name])
    && (forall name :: name in files ==>
          (exists b: nat :: Resident(mdata, order, b, name)) || OnDisk(disk, name, files[name]))
  }

  ghost predicate Inv(n: nat, st: State, order: seq<nat>, hist: seq<string>, files: map<string, Mdata>) {
    && BlocksOk(n, st, order)
    && NamesOk(n, st.mdata, order, hist)
    && RecordsOk(st.mdata, order, st.disk, files)
  }

  lemma {:induction false} PrefixHit<T>(l: seq<T>, p: nat, n: nat)
    requires Distinct(l) && p < n && p < |l|
    ensures Prefix(MoveToFront(l, l[p]), n) == MoveToFront(Prefix(l, n), l[p])
  {
    WithoutAt(l, p);
    if |l| > n {
      var pre := l[..n];
      WithoutAt(pre, p);
      assert pre[..p] == l[..p] && pre[p + 1..] == l[p + 1..n];
      assert ([l[p]] + (l[..p] + l[p + 1..]))[..n] == [l[p]] + (l[..p] + l[p + 1..n]);
    }
  }

  lemma {:induction false} PrefixMembers<T>(l: seq<T>, n: nat)
    ensures forall p :: 0 <= p < n && p < |l| ==> l[p] in Prefix(l, n)
  {
    forall p | 0 <= p < n && p < |l| ensures l[p] in Prefix(l, n) {
      assert l[p] == Prefix(l, n)[p];
    }
  }

  lemma {:induction false} PrefixMiss<T>(l: seq<T>, x: T, n: nat)
    requires Distinct(l) && n > 0 && x !in Prefix(l, n)
    ensures Prefix(MoveToFront(l, x), n) == [x] + Prefix(l, n - 1)
  {
    PrefixMembers(l, n);
    if x in l {
      var p :| 0 <= p < |l| && l[p] == x;
      WithoutAt(l, p);
    } else {
      WithoutAbsent(l, x);
    }
  }

  // ----- one access -----

  lemma {:induction false} NamesDistinct(n: nat, mdata: seq<Mdata>, order: seq<nat>, hist: seq<string>)
    requires NamesOk(n, mdata, order, hist)
    ensures Distinct(NamesOf(mdata, order))
  {
    RecentDistinct(hist);
  }

  /** The search finds a name exactly when it is resident, at its place in the list. */
  lemma {:induction false} FindsResident(n: nat, st: State, order: seq<nat>, hist: seq<string>, name: string) returns (p: nat)
    requires BlocksOk(n, st, order) && NamesOk(n, st.mdata, order, hist)
    ensures FindFrom(st, name, 0).Some? <==> name in NamesOf(st.mdata, order)
    ensures FindFrom(st, name, 0).Some? ==> p < |order| && FindFrom(st, name, 0).value == order[p]
  {
    p := 0;
    var names := NamesOf(st.mdata, order);
    match FindFrom(st, name, 0)
    case Some(b) =>
      assert b in order;
      p :| 0 <= p < |order| && order[p] == b;
      assert names[p] == name;
    case None =>
      forall q | 0 <= q < |names| ensures names[q] != name {
        assert order[q] in order && !Matches(st, order[q], name);
      }
  }

  lemma {:induction false} NamesMove(mdata: seq<Mdata>, order: seq<nat>, p: nat)
    requires forall q :: 0 <= q < |order| ==> order[q] < |mdata|
    requires Distinct(order) && Distinct(NamesOf(mdata, order)) && p < |order|
    ensures var order': seq<nat> := MoveToFront(order, order[p]);
            && (forall q :: 0 <= q < |order'| ==> order'[q] < |mdata|)
            && NamesOf(mdata, order') == MoveToFront(NamesOf(mdata, order), mdata[order[p]].name)
  {
    WithoutAt(order, p);
    WithoutAt(NamesOf(mdata, order), p);
  }

  lemma {:induction false} HitKeepsBlocks(n: nat, st: State, order: seq<nat>, b: nat)
    requires BlocksOk(n, st, order) && b in order
    ensures b < n && BlocksOk(n, st.(lru := Touch(st.lru, b)), MoveToFront(order, b))
    ensures forall c :: c in MoveToFront(order, b) <==> c in order
  {
    RanksDistinct(st.lru, order);
    TouchMovesToFront(st.lru, order, b);
    MoveToFrontDistinct(order, b);
  }

  lemma {:induction false} HitKeepsNames(n: nat, mdata: seq<Mdata>, order: seq<nat>, hist: seq<string>, p: nat)
    requires NamesOk(n, mdata, order, hist) && Distinct(order) && p < |order|
    ensures NamesOk(n, mdata, MoveToFront(order, order[p]), hist + [mdata[order[p]].name])
  {
    var name := mdata[order[p]].name;
    NamesDistinct(n, mdata, order, hist);
    RecentDistinct(hist);
    NamesMove(mdata, order, p);
    assert (hist + [name])[..|hist|] == hist;
    assert Recent(hist)[p] == NamesOf(mdata, order)[p] == name;
    PrefixHit(Recent(hist), p, n);
  }

  lemma {:induction false} SameBlocksKeepRecords(mdata: seq<Mdata>, order: seq<nat>, order': seq<nat>,
                                                 disk: map<string, string>, files: map<string, Mdata>)
    requires RecordsOk(mdata, order, disk, files)
    requires forall c :: c in order' <==> c in order
    ensures RecordsOk(mdata, order', disk, files)
  {
    forall name | name in files && !OnDisk(disk, name, files[name])
      ensures exists b: nat :: Resident(mdata, order', b, name)
    {
      var b: nat :| Resident(mdata, order, b, name);
      assert Resident(mdata, order', b, name);
    }
  }

  lemma {:induction false} HitKeepsInv(n: nat, st: State, order: seq<nat>, hist: seq<string>, files: map<string, Mdata>, p: nat)
    requires Inv(n, st, order, hist, files) && p < |order|
    ensures var b := order[p];
            Inv(n, st.(lru := Touch(st.lru, b)), MoveToFront(order, b), hist + [st.mdata[b].name], files)
  {
    RanksDistinct(st.lru, order);
    HitKeepsBlocks(n, st, order, order[p]);
    HitKeepsNames(n, st.mdata, order, hist, p);
    SameBlocksKeepRecords(st.mdata, order, MoveToFront(order, order[p]), st.disk, files);
  }

  /** What is left behind a record on disk, and behind that on the reader's stack. */
  function Leftover(disk: map<string, string>, m: Mdata, junk: string): string {
    (if m.name in disk && |Print(m)| <= |disk[m.name]| then disk[m.name][|Print(m)|..] else "") + junk
  }

  /** A record on disk can be read back. */
  ghost predicate Reads(disk: map<string, string>, m: Mdata, junk: string) {
    |m.paths| > 0 || !All(Leftover(disk, m, junk), IsSpace)
  }

  lemma {:induction false} OnDiskReads(disk: map<string, string>, name: string, m: Mdata, junk: string)
    requires OnDisk(disk, name, m) && Good(name, m)
    ensures Parse(disk[name] + junk) == if Reads(disk, m, junk) then Some(m) else None
  {
    hide Parse, Print, Printable;
    var tail := disk[name][|Print(m)|..];
    assert disk[name] + junk == Print(m) + (tail + junk);
    ParseAfterPrint(m, tail + junk);
  }

  lemma {:induction false} WriteOutStores(disk: map<string, string>, m: Mdata, name: string, x: Mdata)
    ensures OnDisk(WriteOut(disk, m), m.name, m)
    ensures name != m.name && OnDisk(disk, name, x) ==> OnDisk(WriteOut(disk, m), name, x)
  {
  }

  lemma {:induction false} ReplaceNames(mdata: seq<Mdata>, order: seq<nat>, b: nat, m: Mdata)
    requires b < |mdata| && b !in order
    requires forall p :: 0 <= p < |order| ==> order[p] < |mdata|
    ensures NamesOf(mdata[b := m], [b] + order) == [m.name] + NamesOf(mdata, order)
  {
  }

  lemma {:induction false} KeptNames(mdata: seq<Mdata>, order: seq<nat>, names: seq<string>, n: nat)
    requires forall p :: 0 <= p < |order| ==> order[p] < |mdata|
    requires n > 0 && |order| <= n && NamesOf(mdata, order) == Prefix(names, n)
    ensures var kept: seq<nat> := Prefix(order, n - 1);
            && (forall p :: 0 <= p < |kept| ==> kept[p] < |mdata|)
            && NamesOf(mdata, kept) == Prefix(names, n - 1)
  {
    assert |NamesOf(mdata, order)| == |order|;
  }

  /** A miss puts the victim in front and drops it from the end, if it was there. */
  lemma {:induction false} MissOrder(n: nat, st: State, order: seq<nat>)
    requires BlocksOk(n, st, order)
    ensures var b := VictimOf(st.lru); var kept: seq<nat> := Prefix(order, n - 1);
            |order| <= n && b < n && b !in kept && MoveToFront(order, b) == [b] + kept
  {
    var b := VictimOf(st.lru);
    RanksDistinct(st.lru, order);
    VictimIsLeastRecent(st.lru, order, b);
    if |order| < n {
      WithoutAbsent(order, b);
    } else {
      WithoutAt(order, n - 1);
      assert order[..n - 1] + order[n..] == order[..n - 1];
    }
  }

  lemma {:induction false} MissKeepsNames(n: nat, st: State, order: seq<nat>, hist: seq<string>, m: Mdata)
    requires BlocksOk(n, st, order) && NamesOk(n, st.mdata, order, hist) && m.name !in NamesOf(st.mdata, order)
    ensures var b := VictimOf(st.lru);
            NamesOk(n, st.mdata[b := m], MoveToFront(order, b), hist + [m.name])
  {
    var b := VictimOf(st.lru);
    RecentDistinct(hist);
    MissOrder(n, st, order);
    assert (hist + [m.name])[..|hist|] == hist;
    PrefixMiss(Recent(hist), m.name, n);
    KeptNames(st.mdata, order, Recent(hist), n);
    ReplaceNames(st.mdata, Prefix(order, n - 1), b, m);
  }

  lemma {:induction false} MissKeepsBlocks(n: nat, st: State, order: seq<nat>, mdata: seq<Mdata>, disk: map<string, string>)
    requires BlocksOk(n, st, order) && |mdata| == n
    ensures var b := VictimOf(st.lru);
            && (forall c :: c in MoveToFront(order, b) <==> c == b || c in order)
            && BlocksOk(n, State(Touch(st.lru, b), st.free[b := false], mdata, disk), MoveToFront(order, b))
  {
    var b := VictimOf(st.lru);
    RanksDistinct(st.lru, order);
    TouchMovesToFront(st.lru, order, b);
    MoveToFrontDistinct(order, b);
  }

  /** A record that is not resident takes the victim's block, and the victim is on disk. */
  lemma {:induction false} ReplaceKeepsRecords(mdata: seq<Mdata>, order: seq<nat>, disk: map<string, string>,
                                               files: map<string, Mdata>, b: nat, m: Mdata, disk': map<string, string>)
    requires RecordsOk(mdata, order, disk, files) && b < |mdata| && Good(m.name, m)
    requires forall p :: 0 <= p < |order| ==> order[p] < |mdata|
    requires m.name !in NamesOf(mdata, order)
    requires b in order ==> OnDisk(disk', mdata[b].name, mdata[b])
    requires forall x :: x in files && x != m.name && OnDisk(disk, x, files[x]) ==> OnDisk(disk', x, files[x])
    ensures RecordsOk(mdata[b := m], [b] + order, disk', files[m.name := m])
  {
    hide OnDisk, Printable;
    var mdata', order', files' := mdata[b := m], [b] + order, files[m.name := m];
    forall c: nat | c < |mdata| && c in order && c != b ensures mdata[c].name != m.name {
      NameResident(mdata, order, c);
    }
    forall x | x in files'
      ensures (exists c: nat :: Resident(mdata', order', c, x)) || OnDisk(disk', x, files'[x])
    {
      if x == m.name {
        assert Resident(mdata', order', b, x);
      } else if c: nat :| Resident(mdata, order, c, x) {
        if c != b {
          assert Resident(mdata', order', c, x);
        }
      }
    }
  }

  lemma {:induction false} NameResident(mdata: seq<Mdata>, order: seq<nat>, c: nat)
    requires c in order && forall p :: 0 <= p < |order| ==> order[p] < |mdata|
    ensures c < |mdata| && mdata[c].name in NamesOf(mdata, order)
  {
    var p :| 0 <= p < |order| && order[p] == c;
    assert NamesOf(mdata, order)[p] == mdata[c].name;
  }

  /** The load of a miss: it fails exactly when the record cannot be read back. */
  lemma {:induction false} MissLoads(n: nat, st: State, order: seq<nat>, name: string, junk: string, m: Mdata,
                                     disk: map<string, string>)
    requires BlocksOk(n, st, order) && Good(name, m) && OnDisk(disk, name, m)
    requires disk == if st.free[VictimOf(st.lru)] then st.disk else WriteOut(st.disk, st.mdata[VictimOf(st.lru)])
    ensures var b := VictimOf(st.lru);
            Load(st, name, junk) ==
              if Reads(disk, m, junk)
              then Some((State(Touch(st.lru, b), st.free[b := false], st.mdata[b := m], disk), b)) else None
  {
    hide Print, Parse, Touch, WriteOut, Ranks, Printable, Reads;
    OnDiskReads(disk, name, m, junk);
  }

  /** Writing back the victim does not touch the file of a name that is not resident. */
  lemma {:induction false} VictimStoresName(st: State, order: seq<nat>, files: map<string, Mdata>, b: nat, name: string,
                                            disk: map<string, string>)
    requires b < |st.mdata| && name in files && RecordsOk(st.mdata, order, st.disk, files)
    requires forall p :: 0 <= p < |order| ==> order[p] < |st.mdata|
    requires name !in NamesOf(st.mdata, order)
    requires |st.free| == |st.mdata| && (st.free[b] <==> b !in order)
    requires disk == if st.free[b] then st.disk else WriteOut(st.disk, st.mdata[b])
    ensures OnDisk(disk, name, files[name]) && name in st.disk && disk[name] == st.disk[name]
  {
    hide Print, Printable, Overwrite;
    forall c: nat | c < |st.mdata| && c in order ensures st.mdata[c].name != name {
      NameResident(st.mdata, order, c);
    }
    assert !exists c: nat :: Resident(st.mdata, order, c, name);
  }

  /** Writing back the victim puts it on disk and keeps what is there. */
  lemma {:induction false} WriteBackKeepsDisk(st: State, order: seq<nat>, files: map<string, Mdata>, b: nat,
                                              disk: map<string, string>)
    requires RecordsOk(st.mdata, order, st.disk, files) && b < |st.mdata|
    requires |st.free| == |st.mdata| && (st.free[b] <==> b !in order)
    requires disk == if st.free[b] then st.disk else WriteOut(st.disk, st.mdata[b])
    ensures b in order ==> OnDisk(disk, st.mdata[b].name, st.mdata[b])
    ensures forall x :: x in files && OnDisk(st.disk, x, files[x]) ==> OnDisk(disk, x, files[x])
  {
    hide OnDisk, Printable, WriteOut;
    if !st.free[b] {
      forall x | x in files && OnDisk(st.disk, x, files[x]) ensures OnDisk(disk, x, files[x]) {
        WriteOutStores(st.disk, st.mdata[b], x, files[x]);
      }
      WriteOutStores(st.disk, st.mdata[b], st.mdata[b].name, st.mdata[b]);
    }
  }

  /** A miss succeeds exactly when the record can be read back, and then keeps the cache in step. */
  lemma {:induction false} MissKeepsInv(n: nat, st: State, order: seq<nat>, hist: seq<string>, files: map<string, Mdata>,
                                        name: string, junk: string)
    requires Inv(n, st, order, hist, files) && name in files && name !in NamesOf(st.mdata, order)
    ensures Load(st, name, junk).Some? <==> Reads(st.disk, files[name], junk)
    ensures Load(st, name, junk).Some? ==>
              var b := VictimOf(st.lru);
              && Load(st, name, junk).value.1 == b
              && Load(st, name, junk).value.0.mdata == st.mdata[b := files[name]]
              && Inv(n, Load(st, name, junk).value.0, MoveToFront(order, b), hist + [name], files)
  {
    hide Print, Parse, MoveToFront, Touch, OnDisk, Load, Ranks, Recent, Printable, Overwrite;
    var b := VictimOf(st.lru);
    var disk := if st.free[b] then st.disk else WriteOut(st.disk, st.mdata[b]);
    var mdata' := st.mdata[b := files[name]];
    assert Good(name, files[name]);
    VictimStoresName(st, order, files, b, name, disk);
    MissLoads(n, st, order, name, junk, files[name], disk);
    MissKeepsBlocks(n, st, order, mdata', disk);
    MissKeepsNames(n, st, order, hist, files[name]);
    WriteBackKeepsDisk(st, order, files, b, disk);
    ReplaceKeepsRecords(st.mdata, order, st.disk, files, b, files[name], disk);
    assert files[name := files[name]] == files;
    SameBlocksKeepRecords(mdata', [b] + order, MoveToFront(order, b), disk, files);
  }

  /** Whether a new file drops a record that is not on disk as it is in memory. */
  ghost predicate DropsClean(st: State)
    requires Sized(|st.lru|, st)
  {
    var b := VictimOf(st.lru);
    st.free[b] || OnDisk(st.disk, st.mdata[b].name, st.mdata[b])
  }

  lemma {:induction false} CreateKeepsInv(n: nat, st: State, order: seq<nat>, hist: seq<string>, files: map<string, Mdata>,
                                          name: string)
    requires Inv(n, st, order, hist, files) && DropsClean(st)
    requires name !in files && Good(name, Mdata(name, [], 0))
    ensures Inv(n, MakeFile(st, name), MoveToFront(order, VictimOf(st.lru)), hist + [name], files[name := Mdata(name, [], 0)])
  {
    hide Print, Parse, MoveToFront, Touch, OnDisk, Ranks, Recent, Printable, WriteOut;
    var b, m := VictimOf(st.lru), Mdata(name, [], 0);
    var disk := WriteOut(st.disk, m);
    forall c: nat | c in order ensures c < |st.mdata| && st.mdata[c].name != name {
      NameResident(st.mdata, order, c);
      assert st.mdata[c].name in files;
    }
    forall p | 0 <= p < |order| ensures NamesOf(st.mdata, order)[p] != name {
      assert order[p] in order;
    }
    forall x | x in files && OnDisk(st.disk, x, files[x]) ensures OnDisk(disk, x, files[x]) {
      WriteOutStores(st.disk, m, x, files[x]);
    }
    if b in order {
      WriteOutStores(st.disk, m, st.mdata[b].name, st.mdata[b]);
    }
    MissKeepsBlocks(n, st, order, st.mdata[b := m], disk);
    MissKeepsNames(n, st, order, hist, m);
    ReplaceKeepsRecords(st.mdata, order, st.disk, files, b, m, disk);
    SameBlocksKeepRecords(st.mdata[b := m], [b] + order, MoveToFront(order, b), disk, files[name := m]);
  }

  lemma {:induction false} UpdateKeepsRecords(mdata: seq<Mdata>, order: seq<nat>, disk: map<string, string>,
                                              files: map<string, Mdata>, b: nat, m: Mdata, disk': map<string, string>)
    requires RecordsOk(mdata, order, disk, files) && b < |mdata| && b in order && Good(mdata[b].name, m)
    requires forall c: nat :: c < |mdata| && c in order && c != b ==> mdata[c].name != m.name
    requires disk' == disk || disk' == WriteOut(disk, m)
    ensures RecordsOk(mdata[b := m], order, disk', files[m.name := m])
  {
    hide OnDisk, Printable, WriteOut;
    var mdata', files' := mdata[b := m], files[m.name := m];
    forall x | x in files'
      ensures (exists c: nat :: Resident(mdata', order, c, x)) || OnDisk(disk', x, files'[x])
    {
      if x == m.name {
        assert Resident(mdata', order, b, x);
      } else if c: nat :| Resident(mdata, order, c, x) {
        assert Resident(mdata', order, c, x);
      } else {
        WriteOutStores(disk, m, x, files[x]);
      }
    }
  }

  /** An in-place change of a resident record changes that file and nothing else. */
  lemma {:induction false} UpdateKeepsInv(n: nat, st: State, order: seq<nat>, hist: seq<string>, files: map<string, Mdata>,
                                          b: nat, m: Mdata, through: bool)
    requires Inv(n, st, order, hist, files) && b < n && b in order && Good(st.mdata[b].name, m)
    ensures Inv(n, Change(st, b, m, through), order, hist, files[m.name := m])
  {
    hide RecordsOk, Recent, Ranks, Printable, WriteOut;
    var names := NamesOf(st.mdata, order);
    assert NamesOf(st.mdata[b := m], order) == names;
    NamesDistinct(n, st.mdata, order, hist);
    forall c: nat | c < n && c in order && c != b ensures st.mdata[c].name != m.name {
      var p :| 0 <= p < |order| && order[p] == b;
      var q :| 0 <= q < |order| && order[q] == c;
      assert names[p] != names[q];
    }
    UpdateKeepsRecords(st.mdata, order, st.disk, files, b, m, Change(st, b, m, through).disk);
  }

  // ----- runs -----

  /** What a plain map from names to records would return, and become. */
  function MapAfter(files: map<string, Mdata>, a: Access): map<string, Mdata> {
    match a
    case Create(name) => files[name := Mdata(name, [], 0)]
    case Use(name, _, update, _) => if update.Some? then files[name := update.value] else files
  }

  function MapRun(files: map<string, Mdata>, accesses: seq<Access>): map<string, Mdata> {
    if |accesses| == 0 then files
    else MapAfter(MapRun(files, accesses[..|accesses| - 1]), accesses[|accesses| - 1])
  }

  function MapResults(files: map<string, Mdata>, accesses: seq<Access>): seq<Option<Mdata>> {
    if |accesses| == 0 then []
    else
      var front, a := accesses[..|accesses| - 1], accesses[|accesses| - 1];
      var shown := if a.Create? then MapRun(files, accesses) else MapRun(files, front);
      MapResults(files, front) + [if a.name in shown then Some(shown[a.name]) else None]
  }

  /** Files are used when they exist, and made when they do not. */
  ghost predicate GoodAccess(files: map<string, Mdata>, a: Access) {
    match a
    case Create(name) => name !in files && Good(name, Mdata(name, [], 0))
    case Use(name, _, update, _) => name in files && (update.Some? ==> Good(name, update.value))
  }

  ghost predicate GoodRun(files: map<string, Mdata>, accesses: seq<Access>) {
    if |accesses| == 0 then forall name :: name in files ==> Good(name, files[name])
    else
      var front := accesses[..|accesses| - 1];
      GoodRun(files, front) && GoodAccess(MapRun(files, front), accesses[|accesses| - 1])
  }

  function Names(accesses: seq<Access>): seq<string> {
    seq(|accesses|, k requires 0 <= k < |accesses| => accesses[k].name)
  }

  /** The records that the accesses of a run see; None if one of them ends the process. */
  function CacheRun(st: State, accesses: seq<Access>): Option<(State, seq<Mdata>)>
    requires Sized(|st.lru|, st)
  {
    if |accesses| == 0 then Some((st, []))
    else
      match CacheRun(st, accesses[..|accesses| - 1])
      case None => None
      case Some(r) =>
        if !Sized(|r.0.lru|, r.0) then None
        else
          match Apply(r.0, accesses[|accesses| - 1])
          case None => None
          case Some(s) => Some((s.0, r.1 + [s.1]))
  }

  /** The empty cache of n blocks. */
  function Empty(n: nat, mdata: seq<Mdata>, disk: map<string, string>): State {
    State(seq(n, _ => 0), seq(n, _ => true), mdata, disk)
  }

  /** A name that is not among the n most recent can still be read back from disk. */
  ghost predicate Reloads(n: nat, disk: map<string, string>, hist: seq<string>, files: map<string, Mdata>, a: Access) {
    a.Use? && a.name in files && a.name !in Prefix(Recent(hist), n) ==> Reads(disk, files[a.name], a.junk)
  }

  /** So can all names at the moments of the run at which they are needed. */
  ghost predicate RunReloads(n: nat, st: State, files: map<string, Mdata>, accesses: seq<Access>)
    requires Sized(|st.lru|, st)
  {
    |accesses| > 0 ==>
      var front := accesses[..|accesses| - 1];
      && RunReloads(n, st, files, front)
      && match CacheRun(st, front)
         case None => true
         case Some(r) => Reloads(n, r.0.disk, Names(front), MapRun(files, front), accesses[|accesses| - 1])
  }

  /** No new file of the run drops a record that is not on disk. */
  ghost predicate RunDropsClean(st: State, accesses: seq<Access>)
    requires Sized(|st.lru|, st)
  {
    |accesses| > 0 ==>
      var front := accesses[..|accesses| - 1];
      && RunDropsClean(st, front)
      && match CacheRun(st, front)
         case None => true
         case Some(r) => accesses[|accesses| - 1].Create? && Sized(|r.0.lru|, r.0) ==> DropsClean(r.0)
  }

  /** A lookup of a file's name gives the file's record exactly when that is resident or
      can be read back. */
  lemma {:induction false} LookupKeepsInv(n: nat, st: State, order: seq<nat>, hist: seq<string>, files: map<string, Mdata>,
                                          name: string, junk: string) returns (order': seq<nat>, b: nat)
    requires Inv(n, st, order, hist, files) && name in files
    ensures Lookup(st, name, junk).Some? <==> name in Prefix(Recent(hist), n) || Reads(st.disk, files[name], junk)
    ensures Lookup(st, name, junk).Some? ==>
              var st' := Lookup(st, name, junk).value.0;
              && Lookup(st, name, junk).value.1 == b < n
              && Inv(n, st', order', hist + [name], files) && b in order' && st'.mdata[b] == files[name]
  {
    hide Load, Print, Parse, Touch, OnDisk, Printable, Reads, Recent;
    var p := FindsResident(n, st, order, hist, name);
    if FindFrom(st, name, 0).Some? {
      b := order[p];
      order' := MoveToFront(order, b);
      assert b in order && st.mdata[b].name == name;
      HitKeepsInv(n, st, order, hist, files, p);
    } else {
      b := VictimOf(st.lru);
      order' := MoveToFront(order, b);
      MissKeepsInv(n, st, order, hist, files, name, junk);
    }
  }

  lemma {:induction false} AccessKeepsInv(n: nat, st: State, order: seq<nat>, hist: seq<string>, files: map<string, Mdata>,
                                          a: Access) returns (order': seq<nat>)
    requires Inv(n, st, order, hist, files) && GoodAccess(files, a) && (a.Create? ==> DropsClean(st))
    ensures Apply(st, a).Some? <==> Reloads(n, st.disk, hist, files, a)
    ensures Apply(st, a).Some? ==>
              var shown := if a.Create? then MapAfter(files, a) else files;
              && a.name in shown && Apply(st, a).value.1 == shown[a.name]
              && Inv(n, Apply(st, a).value.0, order', hist + [a.name], MapAfter(files, a))
  {
    hide Lookup, MakeFile, Change, Ranks, NamesOk, Printable, Reads, Recent, DropsClean, OnDisk;
    order' := order;
    match a
    case Create(name) =>
      CreateKeepsInv(n, st, order, hist, files, name);
      order' := MoveToFront(order, VictimOf(st.lru));
    case Use(name, junk, update, through) =>
      var b: nat;
      order', b := LookupKeepsInv(n, st, order, hist, files, name, junk);
      if Lookup(st, name, junk).Some? {
        assert files[name].name == name;
        if update.Some? {
          UpdateKeepsInv(n, Lookup(st, name, junk).value.0, order', hist + [name], files, b, update.value, through);
        }
      }
  }

  lemma {:induction false} EmptyOk(n: nat, mdata: seq<Mdata>, disk: map<string, string>, files: map<string, Mdata>)
    requires n > 0 && |mdata| == n
    requires forall name :: name in files ==> Good(name, files[name]) && OnDisk(disk, name, files[name])
    ensures Inv(n, Empty(n, mdata, disk), [], [], files)
  {
  }

  /** The files that are on disk before the run. */
  ghost predicate StartsOnDisk(n: nat, mdata: seq<Mdata>, disk: map<string, string>, files: map<string, Mdata>) {
    && n > 0 && |mdata| == n
    && forall name :: name in files ==> Good(name, files[name]) && OnDisk(disk, name, files[name])
  }

  /** From an empty cache, a run of lookups, in-place changes and new files succeeds exactly
      when every lookup that misses can read its record back. Then its callers saw what a
      plain map would have shown them, and the cache holds exactly the n most recently
      used names. */
  lemma {:induction false} RunKeepsInv(n: nat, mdata: seq<Mdata>, disk: map<string, string>, files: map<string, Mdata>,
                                       accesses: seq<Access>) returns (order: seq<nat>)
    requires StartsOnDisk(n, mdata, disk, files) && GoodRun(files, accesses)
    requires RunDropsClean(Empty(n, mdata, disk), accesses)
    ensures CacheRun(Empty(n, mdata, disk), accesses).Some? <==> RunReloads(n, Empty(n, mdata, disk), files, accesses)
    ensures CacheRun(Empty(n, mdata, disk), accesses).Some? ==>
              var r := CacheRun(Empty(n, mdata, disk), accesses).value;
              && Inv(n, r.0, order, Names(accesses), MapRun(files, accesses))
              && |r.1| == |accesses| == |MapResults(files, accesses)|
              && forall k :: 0 <= k < |accesses| ==> MapResults(files, accesses)[k] == Some(r.1[k])
  {
    hide Apply, Good, OnDisk, GoodAccess, Reloads, DropsClean, MapAfter;
    order := [];
    if |accesses| == 0 {
      EmptyOk(n, mdata, disk, files);
    } else {
      var front, a := accesses[..|accesses| - 1], accesses[|accesses| - 1];
      order := RunKeepsInv(n, mdata, disk, files, front);
      if CacheRun(Empty(n, mdata, disk), front).Some? {
        var st := CacheRun(Empty(n, mdata, disk), front).value.0;
        order := AccessKeepsInv(n, st, order, Names(front), MapRun(files, front), a);
        assert Names(accesses) == Names(front) + [a.name];
      }
    }
  }

  // ----- what the runs show -----

  function ResidentNames(st: State): set<string> {
    set b | 0 <= b < |st.free| && b < |st.mdata| && !st.free[b] :: st.mdata[b].name
  }

  lemma {:induction false} ResidentAreNames(n: nat, st: State, order: seq<nat>, hist: seq<string>)
    requires BlocksOk(n, st, order) && NamesOk(n, st.mdata, order, hist)
    ensures ResidentNames(st) == Members(Prefix(Recent(hist), n))
  {
    var names := NamesOf(st.mdata, order);
    forall b: nat | b < n && !st.free[b] ensures st.mdata[b].name in names {
      var p :| 0 <= p < |order| && order[p] == b;
      assert names[p] == st.mdata[b].name;
    }
    forall p | 0 <= p < |order| ensures names[p] in ResidentNames(st) {
      assert order[p] in order && !st.free[order[p]];
    }
  }

  /** A cache of n blocks holds exactly the n most recently used or made names. */
  lemma {:induction false} CacheHoldsMostRecent(n: nat, mdata: seq<Mdata>, disk: map<string, string>,
                                                files: map<string, Mdata>, accesses: seq<Access>)
    requires StartsOnDisk(n, mdata, disk, files) && GoodRun(files, accesses)
    requires RunDropsClean(Empty(n, mdata, disk), accesses)
    requires RunReloads(n, Empty(n, mdata, disk), files, accesses)
    ensures CacheRun(Empty(n, mdata, disk), accesses).Some?
    ensures ResidentNames(CacheRun(Empty(n, mdata, disk), accesses).value.0)
            == Members(Prefix(Recent(Names(accesses)), n))
  {
    hide CacheRun, GoodRun, OnDisk, RecordsOk, RunDropsClean, RunReloads;
    var order := RunKeepsInv(n, mdata, disk, files, accesses);
    ResidentAreNames(n, CacheRun(Empty(n, mdata, disk), accesses).value.0, order, Names(accesses));
  }

  /** The cache is invisible, so that the run succeeds and its callers see what a plain map
      would show them, exactly when every lookup that misses can read its record back. */
  lemma {:induction false} CacheIsTransparent(n: nat, mdata: seq<Mdata>, disk: map<string, string>,
                                              files: map<string, Mdata>, accesses: seq<Access>)
    requires StartsOnDisk(n, mdata, disk, files) && GoodRun(files, accesses)
    requires RunDropsClean(Empty(n, mdata, disk), accesses)
    ensures Shows(CacheRun(Empty(n, mdata, disk), accesses), MapResults(files, accesses))
            <==> RunReloads(n, Empty(n, mdata, disk), files, accesses)
  {
    hide CacheRun, GoodRun, OnDisk, MapResults, Inv, RunDropsClean, RunReloads, StartsOnDisk;
    var order := RunKeepsInv(n, mdata, disk, files, accesses);
  }

  /** The run succeeded and gave these records. */
  ghost predicate Shows(run: Option<(State, seq<Mdata>)>, results: seq<Option<Mdata>>) {
    && run.Some? && |run.value.1| == |results|
    && forall k :: 0 <= k < |results| ==> results[k] == Some(run.value.1[k])
  }

  // ----- conditions on the accesses alone -----

  /** The record that leaves a cache of n blocks when this name is used has a path. */
  ghost predicate EvictsPath(n: nat, l: seq<string>, files: map<string, Mdata>, name: string) {
    n > 0 && name !in Prefix(l, n) && |l| >= n ==> l[n - 1] in files && |files[l[n - 1]].paths| > 0
  }

  /** Every record of the run has a path when it is evicted. */
  ghost predicate PathsWhenEvicted(n: nat, files: map<string, Mdata>, accesses: seq<Access>) {
    if |accesses| == 0 then forall name :: name in files ==> |files[name].paths| > 0
    else
      var front := accesses[..|accesses| - 1];
      && PathsWhenEvicted(n, files, front)
      && EvictsPath(n, Recent(Names(front)), MapRun(files, front), accesses[|accesses| - 1].name)
  }

  /** All names outside the n most recent have a path. */
  ghost predicate OutsideHavePaths(n: nat, l: seq<string>, files: map<string, Mdata>) {
    && (forall name :: name in files && name !in Prefix(l, n) ==> |files[name].paths| > 0)
    && (forall p :: 0 <= p < |l| ==> l[p] in files)
  }

  lemma {:induction false} PrefixDistinct<T>(l: seq<T>, n: nat)
    requires Distinct(l)
    ensures Distinct(Prefix(l, n))
  {
  }

  lemma {:induction false} NotInPrefix<T>(l: seq<T>, n: nat, k: nat)
    requires Distinct(l) && n <= k < |l|
    ensures l[k] !in Prefix(l, n)
  {
    assert forall q :: 0 <= q < |Prefix(l, n)| ==> Prefix(l, n)[q] == l[q] != l[k];
  }

  /** What is outside after a name has moved to the front: what was, or what it pushed out. */
  lemma {:induction false} PushedOut(l: seq<string>, x: string, n: nat)
    requires Distinct(l) && n > 0
    ensures forall y :: y in Prefix(l, n) ==>
              y in Prefix(MoveToFront(l, x), n) || (x !in Prefix(l, n) && |l| >= n && y == l[n - 1])
  {
    hide MoveToFront;
    if x in Prefix(l, n) {
      var p :| 0 <= p < |Prefix(l, n)| && Prefix(l, n)[p] == x;
      PrefixHit(l, p, n);
      PrefixDistinct(l, n);
      MoveToFrontDistinct(Prefix(l, n), x);
    } else {
      PrefixMiss(l, x, n);
      var kept := Prefix(l, n - 1);
      forall y | y in Prefix(l, n) && (|l| < n || y != l[n - 1]) ensures y in [x] + kept {
        var q :| 0 <= q < |Prefix(l, n)| && Prefix(l, n)[q] == y;
        assert kept[q] == y;
      }
    }
  }

  lemma {:induction false} OutsideStep(n: nat, l: seq<string>, files: map<string, Mdata>, a: Access)
    requires Distinct(l) && OutsideHavePaths(n, l, files) && n > 0
    requires EvictsPath(n, l, files, a.name) && GoodAccess(files, a)
    ensures OutsideHavePaths(n, MoveToFront(l, a.name), MapAfter(files, a))
  {
    hide Good;
    var l', files' := MoveToFront(l, a.name), MapAfter(files, a);
    MoveToFrontDistinct(l, a.name);
    PushedOut(l, a.name, n);
    assert Prefix(l', n)[0] == a.name;
    forall y | y in files' && y !in Prefix(l', n) ensures |files'[y].paths| > 0 {
      assert y in Prefix(l, n) ==> y == l[n - 1];
    }
    forall p | 0 <= p < |l'| ensures l'[p] in files' {
      assert l'[p] in l';
    }
  }

  lemma {:induction false} RunOutsidePaths(n: nat, files: map<string, Mdata>, accesses: seq<Access>)
    requires n > 0 && GoodRun(files, accesses) && PathsWhenEvicted(n, files, accesses)
    ensures OutsideHavePaths(n, Recent(Names(accesses)), MapRun(files, accesses))
  {
    hide EvictsPath, GoodAccess, MapAfter, Good, MoveToFront, Prefix;
    if |accesses| > 0 {
      var front, a := accesses[..|accesses| - 1], accesses[|accesses| - 1];
      RunOutsidePaths(n, files, front);
      RecentDistinct(Names(front));
      OutsideStep(n, Recent(Names(front)), MapRun(files, front), a);
      assert Names(accesses) == Names(front) + [a.name];
      assert Names(accesses)[..|front|] == Names(front);
    }
  }

  /** A path at every eviction is enough for every lookup. */
  lemma {:induction false} PathsReload(n: nat, st: State, files: map<string, Mdata>, accesses: seq<Access>)
    requires Sized(n, st) && GoodRun(files, accesses) && PathsWhenEvicted(n, files, accesses)
    ensures RunReloads(n, st, files, accesses)
  {
    hide CacheRun, MapRun, Recent, Prefix, EvictsPath, GoodAccess, Names;
    if |accesses| > 0 {
      PathsReload(n, st, files, accesses[..|accesses| - 1]);
      RunOutsidePaths(n, files, accesses[..|accesses| - 1]);
    }
  }

  /** What is evicted with a path from a small cache is so from a larger one. */
  lemma {:induction false} LargerEvictsPaths(n: nat, n': nat, files: map<string, Mdata>, accesses: seq<Access>)
    requires 0 < n <= n' && GoodRun(files, accesses) && PathsWhenEvicted(n, files, accesses)
    ensures PathsWhenEvicted(n', files, accesses)
  {
    hide MapRun, Recent, GoodAccess, Names;
    if |accesses| > 0 {
      var front, a := accesses[..|accesses| - 1], accesses[|accesses| - 1];
      LargerEvictsPaths(n, n', files, front);
      RunOutsidePaths(n, files, front);
      RecentDistinct(Names(front));
      LargerEvictsPath(n, n', Recent(Names(front)), MapRun(files, front), a.name);
    }
  }

  lemma {:induction false} LargerEvictsPath(n: nat, n': nat, l: seq<string>, files: map<string, Mdata>, name: string)
    requires 0 < n <= n' && Distinct(l) && OutsideHavePaths(n, l, files) && EvictsPath(n, l, files, name)
    ensures EvictsPath(n', l, files, name)
  {
    PrefixMembers(l, n');
    if name !in Prefix(l, n') && |l| >= n' > n {
      NotInPrefix(l, n, n' - 1);
    }
  }

  /** On the same accesses, a larger cache holds everything a smaller one does. */
  lemma {:induction false} LargerCacheHoldsMore(n: nat, mdata: seq<Mdata>, n': nat, mdata': seq<Mdata>,
                                                disk: map<string, string>, files: map<string, Mdata>, accesses: seq<Access>)
    requires n <= n' && StartsOnDisk(n, mdata, disk, files) && StartsOnDisk(n', mdata', disk, files)
    requires GoodRun(files, accesses) && PathsWhenEvicted(n, files, accesses)
    requires RunDropsClean(Empty(n, mdata, disk), accesses) && RunDropsClean(Empty(n', mdata', disk), accesses)
    ensures CacheRun(Empty(n, mdata, disk), accesses).Some? && CacheRun(Empty(n', mdata', disk), accesses).Some?
    ensures ResidentNames(CacheRun(Empty(n, mdata, disk), accesses).value.0)
            <= ResidentNames(CacheRun(Empty(n', mdata', disk), accesses).value.0)
  {
    hide CacheRun, GoodRun, OnDisk, Recent, RunDropsClean, RunReloads, PathsWhenEvicted, Good;
    PathsReload(n, Empty(n, mdata, disk), files, accesses);
    LargerEvictsPaths(n, n', files, accesses);
    PathsReload(n', Empty(n', mdata', disk), files, accesses);
    CacheHoldsMostRecent(n, mdata, disk, files, accesses);
    CacheHoldsMostRecent(n', mdata', disk, files, accesses);
    var l := Recent(Names(accesses));
    forall x | x in Prefix(l, n) ensures x in Prefix(l, n') {
      var p :| 0 <= p < |Prefix(l, n)| && Prefix(l, n)[p] == x;
      assert Prefix(l, n')[p] == x;
    }
  }

  /** Every change of the run is written through, as the file system does. */
  predicate WrittenThrough(accesses: seq<Access>) {
    forall k :: 0 <= k < |accesses| ==> accesses[k].Use? && accesses[k].update.Some? ==> accesses[k].through
  }

  ghost predicate AllOnDisk(disk: map<string, string>, files: map<string, Mdata>) {
    forall name :: name in files ==> OnDisk(disk, name, files[name])
  }

  lemma {:induction false} WriteKeepsOnDisk(disk: map<string, string>, files: map<string, Mdata>, m: Mdata)
    requires AllOnDisk(disk, files)
    ensures AllOnDisk(WriteOut(disk, m), files[m.name := m])
    ensures m.name in files && files[m.name] == m ==> AllOnDisk(WriteOut(disk, m), files)
  {
    hide OnDisk, WriteOut;
    var files' := files[m.name := m];
    forall name | name in files' ensures OnDisk(WriteOut(disk, m), name, files'[name]) {
      WriteOutStores(disk, m, name, if name in files then files[name] else m);
    }
    assert m.name in files && files[m.name] == m ==> files[m.name := m] == files;
  }

  lemma {:induction false} LookupKeepsOnDisk(n: nat, st: State, order: seq<nat>, hist: seq<string>, files: map<string, Mdata>,
                                             name: string, junk: string)
    requires Inv(n, st, order, hist, files) && AllOnDisk(st.disk, files) && Lookup(st, name, junk).Some?
    ensures AllOnDisk(Lookup(st, name, junk).value.0.disk, files)
  {
    hide OnDisk, WriteOut, Parse, Touch, NamesOk, Ranks, Printable;
    var b := VictimOf(st.lru);
    if !st.free[b] {
      WriteKeepsOnDisk(st.disk, files, st.mdata[b]);
    }
  }

  lemma {:induction false} AccessKeepsOnDisk(n: nat, st: State, order: seq<nat>, hist: seq<string>, files: map<string, Mdata>,
                                             a: Access)
    requires Inv(n, st, order, hist, files) && AllOnDisk(st.disk, files) && GoodAccess(files, a)
    requires a.Use? && a.update.Some? ==> a.through
    requires Apply(st, a).Some?
    ensures AllOnDisk(Apply(st, a).value.0.disk, MapAfter(files, a))
  {
    hide OnDisk, WriteOut, Touch, Lookup, AllOnDisk, NamesOk, RecordsOk, Ranks, Printable, VictimOf;
    match a
    case Create(name) =>
      WriteKeepsOnDisk(st.disk, files, Mdata(name, [], 0));
    case Use(name, junk, update, through) =>
      LookupKeepsOnDisk(n, st, order, hist, files, name, junk);
      if update.Some? {
        WriteKeepsOnDisk(Lookup(st, name, junk).value.0.disk, files, update.value);
      }
  }

  lemma {:induction false} OnDiskDropsClean(n: nat, st: State, order: seq<nat>, hist: seq<string>, files: map<string, Mdata>)
    requires Inv(n, st, order, hist, files) && AllOnDisk(st.disk, files)
    ensures DropsClean(st)
  {
    hide OnDisk, NamesOk, Ranks;
  }

  lemma {:induction false} StartIsOnDisk(n: nat, mdata: seq<Mdata>, disk: map<string, string>, files: map<string, Mdata>)
    requires StartsOnDisk(n, mdata, disk, files)
    ensures AllOnDisk(disk, files)
  {
  }

  /** Then every record is on disk at all times, and new files never drop a change. */
  lemma {:induction false} WriteThroughDropsClean(n: nat, mdata: seq<Mdata>, disk: map<string, string>,
                                                  files: map<string, Mdata>, accesses: seq<Access>)
    requires StartsOnDisk(n, mdata, disk, files) && GoodRun(files, accesses) && WrittenThrough(accesses)
    ensures RunDropsClean(Empty(n, mdata, disk), accesses)
    ensures CacheRun(Empty(n, mdata, disk), accesses).Some? ==>
              AllOnDisk(CacheRun(Empty(n, mdata, disk), accesses).value.0.disk, MapRun(files, accesses))
  {
    hide OnDisk, Apply, GoodAccess, MapAfter, NamesOk, RecordsOk, Ranks, DropsClean, Good, MapResults, Recent, AllOnDisk;
    if |accesses| == 0 {
      StartIsOnDisk(n, mdata, disk, files);
    } else {
      var front, a := accesses[..|accesses| - 1], accesses[|accesses| - 1];
      assert forall k :: 0 <= k < |front| ==> front[k] == accesses[k];
      WriteThroughDropsClean(n, mdata, disk, files, front);
      var order := RunKeepsInv(n, mdata, disk, files, front);
      if CacheRun(Empty(n, mdata, disk), front).Some? {
        var st := CacheRun(Empty(n, mdata, disk), front).value.0;
        OnDiskDropsClean(n, st, order, Names(front), MapRun(files, front));
        if Apply(st, a).Some? {
          AccessKeepsOnDisk(n, st, order, Names(front), MapRun(files, front), a);
        }
      }
    }
  }

  /** A run that makes no files drops nothing. */
  lemma {:induction false} UsesDropNothing(st: State, accesses: seq<Access>)
    requires Sized(|st.lru|, st) && forall k :: 0 <= k < |accesses| ==> accesses[k].Use?
    ensures RunDropsClean(st, accesses)
  {
    hide CacheRun;
    if |accesses| > 0 {
      var front := accesses[..|accesses| - 1];
      assert forall k :: 0 <= k < |front| ==> front[k] == accesses[k];
      UsesDropNothing(st, front);
    }
  }

  /** As the file system is built, with write-through, the cache is invisible exactly when
      every lookup that misses can read its record back, and so whenever every record has a
      path when it is evicted. */
  lemma {:induction false} WriteThroughIsTransparent(n: nat, mdata: seq<Mdata>, disk: map<string, string>,
                                                     files: map<string, Mdata>, accesses: seq<Access>)
    requires StartsOnDisk(n, mdata, disk, files) && GoodRun(files, accesses) && WrittenThrough(accesses)
    ensures Shows(CacheRun(Empty(n, mdata, disk), accesses), MapResults(files, accesses))
            <==> RunReloads(n, Empty(n, mdata, disk), files, accesses)
    ensures PathsWhenEvicted(n, files, accesses) ==>
              Shows(CacheRun(Empty(n, mdata, disk), accesses), MapResults(files, accesses))
  {
    hide CacheRun, GoodRun, OnDisk, MapResults, RunDropsClean, RunReloads, PathsWhenEvicted, WrittenThrough, Shows, Good;
    WriteThroughDropsClean(n, mdata, disk, files, accesses);
    CacheIsTransparent(n, mdata, disk, files, accesses);
    if PathsWhenEvicted(n, files, accesses) {
      PathsReload(n, Empty(n, mdata, disk), files, accesses);
    }
  }

  /** Without write-through a new file can drop a change: in a cache of one block the changed
      record is back at its old contents when it is read again. */
  lemma {:induction false} NewFileDropsChange(before: Mdata, after: Mdata, name: string, junk: string)
    requires Good(before.name, before) && |before.paths| > 0 && Good(before.name, after)
    requires Good(name, Mdata(name, [], 0)) && name != before.name
    ensures
      var st := Change(State([0], [false], [before], map[before.name := Print(before)]), 0, after, false);
      var st1 := MakeFile(st, name);
      Sized(1, st1) && Lookup(st1, before.name, junk).Some?
      && Lookup(st1, before.name, junk).value.0.mdata[Lookup(st1, before.name, junk).value.1] == before
  {
    hide Print, Parse, Printable, Overwrite;
    var st := Change(State([0], [false], [before], map[before.name := Print(before)]), 0, after, false);
    assert st == State([0], [false], [after], map[before.name := Print(before)]);
    var st1 := MakeFile(st, name);
    assert st1.mdata == [Mdata(name, [], 0)] && st1.free == [false];
    assert FindFrom(st1, before.name, 0).None?;
    var disk := WriteOut(st1.disk, st1.mdata[0]);
    assert disk[before.name] == Print(before);
    ParseAfterPrint(before, junk);
  }

  /** Exactly when a record survives eviction: it has a path, or the tail of an older text
      or the reader's stack happens to contain a word. */
  lemma {:induction false} EvictionKeepsRecord(disk: map<string, string>, m: Mdata, junk: string)
    requires Printable(m)
    ensures var before := if m.name in disk then disk[m.name] else "";
            var tail := if |before| <= |Print(m)| then "" else before[|Print(m)|..];
            Parse(WriteOut(disk, m)[m.name] + junk)
            == if |m.paths| > 0 || !All(tail + junk, IsSpace) then Some(m) else None
  {
    var before := if m.name in disk then disk[m.name] else "";
    var tail := if |before| <= |Print(m)| then "" else before[|Print(m)|..];
    assert WriteOut(disk, m)[m.name] + junk == Print(m) + (tail + junk);
    ParseAfterPrint(m, tail + junk);
  }

  /** A file that lfs_mknod has just made has no paths: what it writes cannot be read back. */
  lemma {:induction false} FreshFileIsUnreadable(disk: map<string, string>, name: string)
    requires |name| > 0 && All(name, InWord) && name !in disk
    ensures Parse(WriteOut(disk, Mdata(name, [], 0))[name]) == None
  {
    var m := Mdata(name, [], 0);
    EvictionKeepsRecord(disk, m, "");
    assert WriteOut(disk, m)[name] + "" == WriteOut(disk, m)[name];
  }

  // ----- the cache itself -----

  lemma {:induction false} VictimUnique(cs: seq<int>, b: nat)
    requires IsVictim(cs, b)
    ensures b == VictimOf(cs)
  {
  }

  class MetadataCache {
    const cache: Cache
    const mdata: array<Mdata>
    var disk: map<string, string>

    ghost predicate Valid()
      reads this, cache, cache.lruCounter, cache.freeFlag
    {
      cache.Valid() && mdata.Length == cache.numBlocks
    }

    ghost function Model(): State
      reads this, cache.lruCounter, cache.freeFlag, mdata
    {
      State(cache.lruCounter[..], cache.freeFlag[..], mdata[..], disk)
    }

    constructor (n: nat, blank: Mdata, disk: map<string, string>)
      requires n > 0
      ensures Valid() && Model() == Empty(n, seq(n, _ => blank), disk)
      ensures fresh(cache) && fresh(cache.lruCounter) && fresh(cache.freeFlag) && fresh(mdata)
    {
      cache := new Cache(n);
      mdata := new Mdata[n](_ => blank);
      this.disk := disk;
      new;
      assert forall b: nat :: b < n ==> cache.lruCounter[..][b] == 0;
      assert mdata[..] == seq(n, _ => blank);
      assert cache.lruCounter[..] == seq(n, _ => 0);
      assert cache.freeFlag[..] == seq(n, _ => true);
    }

    method FindMetaDataBlock(name: string) returns (r: Option<nat>)
      requires Valid()
      ensures r == FindFrom(Model(), name, 0)
    {
      ghost var st := Model();
      for i := 0 to cache.numBlocks
        invariant FindFrom(st, name, 0) == FindFrom(st, name, i)
      {
        if !cache.freeFlag[i] && mdata[i].name == name {
          return Some(i);
        }
      }
      return None;
    }

    method WriteMetadataToDisk(m: Mdata)
      modifies this
      ensures disk == WriteOut(old(disk), m)
    {
      var buf := PrintLoop(m);
      disk := disk[m.name := Overwrite(if m.name in disk then disk[m.name] else "", buf)];
    }

    /** The lookup at the start of every file operation; None ends the process. */
    method LookupRecord(name: string, junk: string) returns (r: Option<nat>)
      requires Valid()
      modifies this, cache, cache.lruCounter, cache.freeFlag, mdata
      ensures match Lookup(old(Model()), name, junk)
              case None => r == None
              case Some(p) => r == Some(p.1) && Model() == p.0 && Valid()
    {
      r := FindMetaDataBlock(name);
      match r
      case Some(b) => cache.Hit(b);
      case None => r := LoadRecord(name, junk);
    }

    /** A new file's record, in whatever block comes free. */
    method MakeRecord(name: string) returns (b: nat)
      requires Valid()
      modifies this, cache, cache.lruCounter, cache.freeFlag, mdata
      ensures Valid() && Model() == MakeFile(old(Model()), name) && b == VictimOf(old(cache.lruCounter[..]))
    {
      hide WriteOut, Touch, MoveToFront, VictimOf;
      var result;
      b, result := cache.GetFreeCacheBlock();
      VictimUnique(cache.lruCounter[..], b);
      mdata[b] := Mdata(name, [], 0);
      cache.Renew(b);
      WriteMetadataToDisk(mdata[b]);
    }

    /** A change of a resident record, with write-through. */
    method ChangeRecord(b: nat, m: Mdata)
      requires Valid() && b < mdata.Length
      modifies this, mdata
      ensures Valid() && Model() == Change(old(Model()), b, m, true)
    {
      hide WriteOut;
      mdata[b] := m;
      WriteMetadataToDisk(m);
    }

    method LoadRecord(name: string, junk: string) returns (r: Option<nat>)
      requires Valid()
      modifies this, cache, cache.lruCounter, cache.freeFlag, mdata
      ensures match Load(old(Model()), name, junk)
              case None => r == None
              case Some(p) => r == Some(p.1) && Model() == p.0 && Valid()
    {
      hide Parse, WriteOut, Touch, MoveToFront, VictimOf;
      var b, result := cache.GetFreeCacheBlock();
      VictimUnique(cache.lruCounter[..], b);
      if result == WriteBack {
        WriteMetadataToDisk(mdata[b]);
      }
      if name !in disk {
        return None;
      }
      match Parse(disk[name] + junk)
      case None => return None;
      case Some(m) =>
        mdata[b] := m;
        cache.Renew(b);
        r := Some(b);
    }
  }
}
