/**
  One log file of the log file system: a write buffer whose complete lines are
  flushed into chunk files by date (write_buffer_to_disk in Cache.c, lfs_write in
  lfs_fuse.c), and what the chunk files hold after any sequence of pieces.

  The file stays resident: its buffer block and its metadata record are not
  reassigned to another file while it is written.
*/
module LogStore {
  import opened Ballots
  import opened Flush
  import opened LogTime

  // The write buffer, the metadata's size and paths, and the chunk files by path.
  datatype File = File(buf: string, size: nat, paths: seq<string>, disk: map<string, string>)

  const FRESH := File("", 0, [], map[])

  /** A chunk that exists is appended to; a new one is created and its path noted. */
  function WritePiece(f: File, p: Piece): File {
    if p.path in f.disk then
      f.(disk := f.disk[p.path := f.disk[p.path] + p.text], size := f.size + |p.text|)
    else
      f.(disk := f.disk[p.path := p.text], size := f.size + |p.text|, paths := f.paths + [p.path])
  }

  function WritePieces(f: File, ps: seq<Piece>): File {
    if |ps| == 0 then f else WritePiece(WritePieces(f, ps[..|ps| - 1]), ps[|ps| - 1])
  }

  function FlushFile(st: Store, f: File): File {
    WritePieces(f, Pieces(st, f.buf)).(buf := Carry(f.buf))
  }

  /** lfs_write: flush first when the text does not fit. */
  function AppendFile(st: Store, block: nat, f: File, text: string): File {
    var g := if |f.buf| + |text| > block then FlushFile(st, f) else f;
    g.(buf := g.buf + text)
  }

  // ----- the chunk files -----

  /** The contents of these chunks. */
  function Chunks(disk: map<string, string>, paths: seq<string>): seq<string>
    requires forall i :: 0 <= i < |paths| ==> paths[i] in disk
  {
    seq(|paths|, i requires 0 <= i < |paths| => disk[paths[i]])
  }

  ghost predicate Listed(f: File) {
    && Distinct(f.paths)
    && (forall i :: 0 <= i < |f.paths| ==> f.paths[i] in f.disk)
    && (forall p :: p in f.disk ==> p in f.paths)
  }

  function Names(ps: seq<Piece>): seq<string> {
    seq(|ps|, k requires 0 <= k < |ps| => ps[k].path)
  }

  lemma {:induction false} ChunksSnoc(disk: map<string, string>, paths: seq<string>, p: string)
    requires p in disk && forall i :: 0 <= i < |paths| ==> paths[i] in disk
    ensures Chunks(disk, paths + [p]) == Chunks(disk, paths) + [disk[p]]
  {
  }

  lemma {:induction false} ConcatSnoc(texts: seq<string>, t: string)
    ensures Concat(texts + [t]) == Concat(texts) + t
  {
    assert (texts + [t])[..|texts + [t]| - 1] == texts;
  }

  lemma {:induction false} Reassociate(a: string, b: string, c: string)
    ensures a + (b + c) == a + b + c
  {
  }

  lemma {:induction false} ConcatJoin(a: seq<string>, b: seq<string>)
    ensures Concat(a + b) == Concat(a) + Concat(b)
  {
    if |b| == 0 {
      assert a + b == a;
    } else {
      hide Concat;
      var front, last := b[..|b| - 1], b[|b| - 1];
      ConcatJoin(a, front);
      ConcatSnoc(a + front, last);
      ConcatSnoc(front, last);
      assert a + b == a + front + [last] && b == front + [last];
      Reassociate(Concat(a), Concat(front), last);
    }
  }

  /** Chunks that a write leaves alone read the same. */
  lemma {:induction false} ChunksElsewhere(disk: map<string, string>, paths: seq<string>, p: string, text: string)
    requires p !in paths && forall i :: 0 <= i < |paths| ==> paths[i] in disk
    ensures Chunks(disk[p := text], paths) == Chunks(disk, paths)
  {
  }

  lemma {:induction false} WriteKeepsListed(f: File, p: Piece)
    requires Listed(f)
    ensures Listed(WritePiece(f, p)) && f.paths <= WritePiece(f, p).paths
  {
    var g := WritePiece(f, p);
    if p.path !in f.disk {
      forall i, j | 0 <= i < j < |g.paths| ensures g.paths[i] != g.paths[j] {
        assert f.paths[i] in f.disk;
      }
      forall q | q in g.disk ensures q in g.paths {
        assert q in f.disk ==> q in f.paths;
        assert g.paths[|f.paths|] == p.path;
      }
    }
  }

  lemma {:induction false} PiecesAreListed(ps: seq<Piece>)
    ensures Listed(WritePieces(FRESH, ps)) && WritePieces(FRESH, ps).buf == ""
    ensures forall q :: q in WritePieces(FRESH, ps).disk <==> q in Names(ps)
  {
    if |ps| > 0 {
      var front, p := ps[..|ps| - 1], ps[|ps| - 1];
      PiecesAreListed(front);
      WriteKeepsListed(WritePieces(FRESH, front), p);
      assert Names(ps) == Names(front) + [p.path];
    }
  }

  // ----- sizes -----

  lemma {:induction false} ConcatGrows(texts: seq<string>, i: nat, t: string)
    requires i < |texts|
    ensures |Concat(texts[i := texts[i] + t])| == |Concat(texts)| + |t|
  {
    var n := |texts| - 1;
    var grown := texts[i := texts[i] + t];
    if i == n {
      assert grown[..n] == texts[..n];
    } else {
      ConcatGrows(texts[..n], i, t);
      assert grown[..n] == texts[..n][i := texts[i] + t];
    }
  }

  lemma {:induction false} ChunksUpdate(disk: map<string, string>, paths: seq<string>, i: nat, text: string)
    requires Distinct(paths) && i < |paths| && forall j :: 0 <= j < |paths| ==> paths[j] in disk
    ensures Chunks(disk[paths[i] := text], paths) == Chunks(disk, paths)[i := text]
  {
    var after := disk[paths[i] := text];
    forall j | 0 <= j < |paths| ensures Chunks(after, paths)[j] == Chunks(disk, paths)[i := text][j] {
      if j < i {
        assert paths[j] != paths[i];
      } else if j > i {
        assert paths[i] != paths[j];
      }
    }
  }

  /** The recorded size is the number of bytes in the chunk files. */
  ghost predicate Sized(f: File)
    requires Listed(f)
  {
    f.size == |Concat(Chunks(f.disk, f.paths))|
  }

  lemma {:induction false} WriteKeepsSize(f: File, p: Piece)
    requires Listed(f) && Sized(f) && Listed(WritePiece(f, p))
    ensures Sized(WritePiece(f, p))
  {
    hide Concat, Distinct;
    var chunks := Chunks(f.disk, f.paths);
    if p.path in f.disk {
      assert p.path in f.paths;
      var i :| 0 <= i < |f.paths| && f.paths[i] == p.path;
      ChunksUpdate(f.disk, f.paths, i, f.disk[p.path] + p.text);
      ConcatGrows(chunks, i, p.text);
    } else {
      NewChunk(f, p);
      ConcatSnoc(chunks, p.text);
    }
  }

  lemma {:induction false} NewChunk(f: File, p: Piece)
    requires Listed(f) && p.path !in f.disk && Listed(WritePiece(f, p))
    ensures Chunks(WritePiece(f, p).disk, WritePiece(f, p).paths) == Chunks(f.disk, f.paths) + [p.text]
  {
    hide Distinct;
    forall i | 0 <= i < |f.paths| ensures f.paths[i] != p.path {
      assert f.paths[i] in f.disk;
    }
    var after := f.disk[p.path := p.text];
    ChunksElsewhere(f.disk, f.paths, p.path, p.text);
    ChunksSnoc(after, f.paths, p.path);
  }

  /** Writing pieces keeps the chunks listed once each and the size right. */
  lemma {:induction false} WritesKeepSize(f: File, ps: seq<Piece>)
    requires Listed(f) && Sized(f)
    ensures Listed(WritePieces(f, ps)) && Sized(WritePieces(f, ps))
  {
    hide Listed, Sized, WritePiece;
    if |ps| > 0 {
      var front := ps[..|ps| - 1];
      WritesKeepSize(f, front);
      WriteKeepsListed(WritePieces(f, front), ps[|ps| - 1]);
      WriteKeepsSize(WritePieces(f, front), ps[|ps| - 1]);
    }
  }

  lemma {:induction false} FreshIsSized()
    ensures Listed(FRESH) && Sized(FRESH)
  {
  }

  lemma {:induction false} Rebuffer(f: File, buf: string)
    requires Listed(f) && Sized(f)
    ensures Listed(f.(buf := buf)) && Sized(f.(buf := buf))
  {
  }

  lemma {:induction false} SizeOf(f: File)
    requires Listed(f) && Sized(f)
    ensures f.size == |Concat(Chunks(f.disk, f.paths))| && |Chunks(f.disk, f.paths)| == |f.paths|
  {
  }

  // ----- order -----

  ghost predicate HitsLast(f: File, path: string) {
    path in f.disk ==> |f.paths| > 0 && f.paths[|f.paths| - 1] == path
  }

  /** Every write to a chunk that already exists is to the last chunk. */
  ghost predicate AppendsHitLast(ps: seq<Piece>) {
    |ps| > 0 ==>
      var front := ps[..|ps| - 1];
      AppendsHitLast(front) && HitsLast(WritePieces(FRESH, front), ps[|ps| - 1].path)
  }

  lemma {:induction false} NeverRecursPrefix(names: seq<string>, p: string)
    requires NeverRecurs(names + [p])
    ensures NeverRecurs(names)
    ensures p in names ==> names[|names| - 1] == p
  {
    var all := names + [p];
    forall i, j, k | 0 <= i <= j <= k < |names| && names[i] == names[k] ensures names[j] == names[k] {
      assert all[i] == all[k];
      assert all[j] == all[k];
    }
    if p in names {
      var i :| 0 <= i < |names| && names[i] == p;
      assert all[i] == all[|names|];
      assert all[|names| - 1] == all[|names|];
    }
  }

  lemma {:induction false} NeverRecursSnoc(names: seq<string>, p: string)
    requires NeverRecurs(names) && (p in names ==> names[|names| - 1] == p)
    ensures NeverRecurs(names + [p])
  {
    var all := names + [p];
    forall i, j, k | 0 <= i <= j <= k < |all| && all[i] == all[k] ensures all[j] == all[k] {
      if k < |names| {
        assert names[i] == names[k];
        assert names[j] == names[k];
      } else if i < |names| {
        assert names[i] == p;
        if j < |names| {
          assert names[i] == names[|names| - 1];
          assert names[j] == names[|names| - 1];
        }
      }
    }
  }

  lemma {:induction false} NamesSnoc(ps: seq<Piece>)
    requires |ps| > 0
    ensures Names(ps) == Names(ps[..|ps| - 1]) + [ps[|ps| - 1].path]
    ensures Texts(ps) == Texts(ps[..|ps| - 1]) + [ps[|ps| - 1].text]
  {
  }

  /** The last chunk listed is the one written last. */
  lemma {:induction false} LastWritten(ps: seq<Piece>)
    requires |ps| > 0 && NeverRecurs(Names(ps))
    ensures
      var f := WritePieces(FRESH, ps);
      |f.paths| > 0 && f.paths[|f.paths| - 1] == ps[|ps| - 1].path
  {
    hide NeverRecurs;
    var front, p := ps[..|ps| - 1], ps[|ps| - 1];
    NamesSnoc(ps);
    NeverRecursPrefix(Names(front), p.path);
    PiecesAreListed(front);
    if p.path in WritePieces(FRESH, front).disk {
      LastWritten(front);
    }
  }

  /** Appends to existing chunks always hit the last path exactly when no chunk name
      comes back after it has been left. */
  lemma {:induction false} AppendsHitLastExactly(ps: seq<Piece>)
    ensures AppendsHitLast(ps) <==> NeverRecurs(Names(ps))
  {
    hide NeverRecurs, WritePieces, Listed;
    if |ps| == 0 {
      NothingRecurs();
    } else {
      var front, p := ps[..|ps| - 1], ps[|ps| - 1];
      AppendsHitLastExactly(front);
      NamesSnoc(ps);
      PiecesAreListed(front);
      if NeverRecurs(Names(front)) {
        if |front| > 0 {
          LastWritten(front);
        }
        if HitsLast(WritePieces(FRESH, front), p.path) {
          NeverRecursSnoc(Names(front), p.path);
        }
      }
      if NeverRecurs(Names(ps)) {
        NeverRecursPrefix(Names(front), p.path);
      }
    }
  }

  lemma {:induction false} NothingRecurs()
    ensures NeverRecurs(Names([]))
  {
  }

  /** If no chunk name comes back, the chunks in path order hold the pieces in the order
      they were written. */
  lemma {:induction false} ChunksKeepOrder(ps: seq<Piece>)
    requires Listed(WritePieces(FRESH, ps)) && AppendsHitLast(ps)
    ensures
      var f := WritePieces(FRESH, ps);
      Concat(Chunks(f.disk, f.paths)) == Concat(Texts(ps))
  {
    hide Listed, NeverRecurs, Concat, HitsLast, WritePiece;
    if |ps| > 0 {
      var front, p := ps[..|ps| - 1], ps[|ps| - 1];
      PiecesAreListed(front);
      ChunksKeepOrder(front);
      NamesSnoc(ps);
      WriteAtEnd(WritePieces(FRESH, front), p);
      ConcatSnoc(Texts(front), p.text);
    } else {
      NoChunks();
      assert Texts(ps) == [];
    }
  }

  lemma {:induction false} NoChunks()
    ensures Chunks(FRESH.disk, FRESH.paths) == []
  {
  }

  lemma {:induction false} WriteAtEnd(f: File, p: Piece)
    requires Listed(f) && HitsLast(f, p.path) && Listed(WritePiece(f, p))
    ensures
      var g := WritePiece(f, p);
      Concat(Chunks(g.disk, g.paths)) == Concat(Chunks(f.disk, f.paths)) + p.text
  {
    hide Concat;
    var chunks := Chunks(f.disk, f.paths);
    if p.path in f.disk {
      var n := |f.paths| - 1;
      ChunksUpdate(f.disk, f.paths, n, f.disk[p.path] + p.text);
      ConcatSnoc(chunks[..n], chunks[n]);
      ConcatSnoc(chunks[..n], chunks[n] + p.text);
      assert chunks == chunks[..n] + [chunks[n]];
      assert chunks[n := chunks[n] + p.text] == chunks[..n] + [chunks[n] + p.text];
    } else {
      NewChunk(f, p);
      ConcatSnoc(chunks, p.text);
    }
  }
}
