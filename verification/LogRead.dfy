/**
  Reading a log file back (lfs_read and lfs_getattr in lfs_fuse.c). The chunks are
  copied one behind the other, and the buffer is appended with strcat, which looks for
  the first NUL: that is the end of the chunks unless one of them contains a NUL.
*/
module LogRead {
  import opened Ballots
  import opened Metadata
  import opened Flush
  import opened LogStore
  import opened LogRuns

  predicate NotNul(c: char) {
    c != '\0'
  }

  ghost predicate NulFree(s: string) {
    All(s, NotNul)
  }

  /** The memory at a C string's address when buf is appended to it; junk is what stood
      behind the string. */
  function StrCat(memory: string, buf: string): (r: string)
    requires Span(memory, NotNul) + |buf| < |memory|
    ensures |r| == |memory|
  {
    var z := Span(memory, NotNul);
    memory[..z] + buf + NUL + memory[z + |buf| + 1..]
  }

  /** strcat: the C string at the address grows by buf, and nothing behind its NUL changes. */
  lemma {:induction false} StrCatAppends(memory: string, buf: string)
    requires Span(memory, NotNul) + |buf| < |memory| && NulFree(buf)
    ensures
      var r, z := StrCat(memory, buf), Span(memory, NotNul);
      && r[..Span(r, NotNul)] == memory[..z] + buf
      && Span(r, NotNul) == z + |buf| && r[z + |buf| + 1..] == memory[z + |buf| + 1..]
  {
    hide Span;
    var r, z := StrCat(memory, buf), Span(memory, NotNul);
    var text, rest := memory[..z] + buf, NUL + memory[z + |buf| + 1..];
    assert r == text + rest;
    assert All(text, NotNul) by {
      forall i | 0 <= i < |text| ensures NotNul(text[i]) {
        assert i < z ==> NotNul(memory[..z][i]);
        assert i >= z ==> NotNul(buf[i - z]);
      }
    }
    SpanOf(text, rest, NotNul);
  }

  function Smaller(a: nat, b: nat): nat {
    if a < b then a else b
  }

  /** What lfs_read takes of each chunk: no more than the recorded size of the whole file. */
  function Taken(f: File): seq<string>
    requires Listed(f)
  {
    seq(|f.paths|, i requires 0 <= i < |f.paths| =>
      var chunk := f.disk[f.paths[i]];
      chunk[..Smaller(f.size, |chunk|)])
  }

  lemma {:induction false} SpanStops(s: string, p: char -> bool, i: nat)
    requires i < |s| && !p(s[i])
    ensures Span(s, p) <= i
  {
    if i > 0 {
      SpanStops(s[1..], p, i - 1);
    }
  }

  lemma {:induction false} FirstNul(text: string, junk: string)
    ensures Span(text + NUL + junk, NotNul) <= |text|
    ensures Span(text + NUL + junk, NotNul) == |text| <==> NulFree(text)
  {
    hide Span;
    var s := text + NUL + junk;
    var z := Span(s, NotNul);
    assert s[|text|] == '\0';
    SpanStops(s, NotNul, |text|);
    if z == |text| {
      assert s[..z] == text;
    }
    if NulFree(text) {
      assert s == text + (NUL + junk);
      SpanOf(text, NUL + junk, NotNul);
    }
  }

  /** What lfs_read returns: the chunks, each with a newline put after it, and the buffer
      appended to that; the returned count is that of both. */
  function ReadFile(f: File, junk: string): (out: string)
    requires Listed(f) && |junk| >= |f.buf|
  {
    var text := JoinLines(Taken(f));
    FirstNul(text, junk);
    StrCat(text + NUL + junk, f.buf)[..|text| + |f.buf|]
  }

  /** The size lfs_getattr reports. */
  function AttrSize(f: File): nat {
    f.size + |f.buf| + |f.paths|
  }

  /** Appending a C string works exactly when it is empty or there is no NUL before the end. */
  lemma {:induction false} AppendsWholeExactly(text: string, buf: string, junk: string)
    requires |junk| >= |buf| && NulFree(buf)
    ensures Span(text + NUL + junk, NotNul) <= |text|
    ensures StrCat(text + NUL + junk, buf)[..|text| + |buf|] == text + buf <==> |buf| == 0 || NulFree(text)
  {
    hide Span;
    FirstNul(text, junk);
    var memory := text + NUL + junk;
    var z := Span(memory, NotNul);
    var r := StrCat(memory, buf);
    assert r == memory[..z] + buf + NUL + memory[z + |buf| + 1..];
    if |buf| == 0 {
      assert memory[z] == '\0';
      assert r == memory;
      assert memory[..|text|] == text;
    } else if z < |text| {
      assert r[z] == buf[0] && NotNul(buf[0]);
      assert (text + buf)[z] == memory[z] == '\0';
    } else {
      assert memory[..z] == text;
      assert r[..|text| + |buf|] == text + buf;
    }
  }

  lemma {:induction false} TextInConcat(texts: seq<string>, i: nat)
    requires i < |texts|
    ensures |texts[i]| <= |Concat(texts)|
  {
    if i < |texts| - 1 {
      TextInConcat(texts[..|texts| - 1], i);
    }
  }

  lemma {:induction false} JoinLinesLength(ls: seq<string>)
    ensures |JoinLines(ls)| == |Concat(ls)| + |ls|
  {
    if |ls| > 0 {
      JoinLinesLength(ls[..|ls| - 1]);
    }
  }

  /** The limit on what is taken of a chunk never cuts one. */
  lemma {:induction false} TakenWhole(f: File)
    requires Listed(f) && Sized(f)
    ensures Taken(f) == Chunks(f.disk, f.paths)
  {
    var chunks := Chunks(f.disk, f.paths);
    forall i | 0 <= i < |f.paths| ensures Taken(f)[i] == chunks[i] {
      TextInConcat(chunks, i);
    }
  }

  /** A read returns as many bytes as the reported size, and they are the chunks and the
      buffer exactly when no chunk has a NUL or there is nothing to append. */
  lemma {:induction false} ReadIsWholeExactly(f: File, junk: string)
    requires Listed(f) && Sized(f) && |junk| >= |f.buf| && NulFree(f.buf)
    ensures |ReadFile(f, junk)| == AttrSize(f)
    ensures ReadFile(f, junk) == JoinLines(Chunks(f.disk, f.paths)) + f.buf
            <==> |f.buf| == 0 || NulFree(JoinLines(Chunks(f.disk, f.paths)))
  {
    hide JoinLines, Concat, Distinct, Sized, NulFree, StrCat;
    TakenWhole(f);
    JoinLinesLength(Chunks(f.disk, f.paths));
    SizeOf(f);
    AppendsWholeExactly(JoinLines(Chunks(f.disk, f.paths)), f.buf, junk);
  }

  // ----- NULs over runs -----

  ghost predicate AllNulFree(texts: seq<string>) {
    forall i :: 0 <= i < |texts| ==> NulFree(texts[i])
  }

  lemma {:induction false} NulFreeJoin(a: string, b: string)
    ensures NulFree(a + b) <==> NulFree(a) && NulFree(b)
  {
    if NulFree(a + b) {
      assert forall i :: 0 <= i < |a| ==> a[i] == (a + b)[i];
      assert forall i :: 0 <= i < |b| ==> b[i] == (a + b)[|a| + i];
    }
  }

  lemma {:induction false} JoinedNulFree(ls: seq<string>)
    ensures NulFree(JoinLines(ls)) <==> AllNulFree(ls)
  {
    hide NulFree;
    if |ls| == 0 {
      EmptyNulFree();
    } else {
      var front, last := ls[..|ls| - 1], ls[|ls| - 1];
      JoinedNulFree(front);
      NulFreeJoin(JoinLines(front), last);
      NulFreeJoin(JoinLines(front) + last, "\n");
      EmptyNulFree();
      assert ls == front + [last];
    }
  }

  lemma {:induction false} EmptyNulFree()
    ensures NulFree("") && NulFree("\n") && !NulFree(NUL)
  {
    assert !NotNul(NUL[0]);
  }

  ghost predicate PiecesNulFree(ps: seq<Piece>) {
    forall i :: 0 <= i < |ps| ==> NulFree(ps[i].text)
  }

  ghost predicate DiskNulFree(disk: map<string, string>) {
    forall p :: p in disk ==> NulFree(disk[p])
  }

  lemma {:induction false} WriteNul(f: File, p: Piece)
    ensures DiskNulFree(WritePiece(f, p).disk) <==> DiskNulFree(f.disk) && NulFree(p.text)
  {
    hide NulFree;
    var g := WritePiece(f, p);
    if p.path in f.disk {
      NulFreeJoin(f.disk[p.path], p.text);
    }
    assert p.path in g.disk;
    forall q | q in f.disk && DiskNulFree(g.disk) ensures NulFree(f.disk[q]) {
      assert q in g.disk;
    }
  }

  /** A chunk has a NUL exactly when a piece had one. */
  lemma {:induction false} NulsAreWritten(ps: seq<Piece>)
    ensures DiskNulFree(WritePieces(FRESH, ps).disk) <==> PiecesNulFree(ps)
  {
    if |ps| > 0 {
      hide NulFree, DiskNulFree, WritePiece;
      var front, p := ps[..|ps| - 1], ps[|ps| - 1];
      NulsAreWritten(front);
      WriteNul(WritePieces(FRESH, front), p);
      assert ps == front + [p];
    }
  }

  lemma {:induction false} ChunksNulFree(f: File)
    requires Listed(f)
    ensures AllNulFree(Chunks(f.disk, f.paths)) <==> DiskNulFree(f.disk)
  {
    hide NulFree;
    var chunks := Chunks(f.disk, f.paths);
    if AllNulFree(chunks) {
      forall p | p in f.disk ensures NulFree(f.disk[p]) {
        var i :| 0 <= i < |f.paths| && f.paths[i] == p;
        assert NulFree(chunks[i]);
      }
    }
  }

  /** What a flush keeps is not empty, and it has a NUL only if the buffer had one. */
  lemma {:induction false} CarryNulFree(s: string)
    requires StampedStart(s) && NulFree(s)
    ensures |Carry(s)| > 0 && NulFree(Carry(s))
  {
    hide Lines, Rest, JoinLines, Stamp, StampedStart, Span;
    if |Lines(s)| == 0 {
      LoneIsAll(s);
    } else {
      LinesAndRest(s);
      NulFreeJoin(JoinLines(Lines(s)), Rest(s));
      JoinedNulFree(Lines(s));
      LinesAreStamped(s);
      var rest := Rest(s);
      assert StampedLine(Lines(s)[|Lines(s)| - 1]);
      assert rest == rest[..Span(rest, InLine)] + rest[Span(rest, InLine)..];
      NulFreeJoin(rest[..Span(rest, InLine)], rest[Span(rest, InLine)..]);
    }
  }

  lemma {:induction false} LoneIsAll(s: string)
    requires StampedStart(s) && |Lines(s)| == 0
    ensures Carry(s) == s && |s| > 0
  {
    hide Carry, StampedStart;
    LoneLineIsDoubled(Store("", ""), s);
  }

  /** A flush writes a NUL exactly when the buffer's first line is not complete. */
  lemma {:induction false} FlushWritesNul(st: Store, s: string)
    requires StampedStart(s) && NulFree(s)
    ensures PiecesNulFree(Pieces(st, s)) <==> LineFound(s)
  {
    hide Lines, Rest, JoinLines, StampedStart, Pieces, NulFree, ChunkName;
    if |Lines(s)| == 0 {
      LoneLineIsDoubled(st, s);
      NulFreeJoin(s, NUL);
      EmptyNulFree();
      assert Pieces(st, s)[0].text == s + NUL;
    } else {
      LinesAndRest(s);
      NulFreeJoin(JoinLines(Lines(s)), Rest(s));
      var _ := PiecesAreDateRuns(st, s);
      ConcatNulFree(Texts(Pieces(st, s)));
      assert forall i :: 0 <= i < |Pieces(st, s)| ==> Pieces(st, s)[i].text == Texts(Pieces(st, s))[i];
    }
  }

  lemma {:induction false} ConcatNulFree(texts: seq<string>)
    requires NulFree(Concat(texts))
    ensures AllNulFree(texts)
  {
    hide NulFree;
    if |texts| > 0 {
      NulFreeJoin(Concat(texts[..|texts| - 1]), texts[|texts| - 1]);
      ConcatNulFree(texts[..|texts| - 1]);
    }
  }

  /** Over a run, chunks get a NUL exactly when a flush met an unfinished first line, and
      after a flush the buffer is never empty. */
  lemma {:induction false} RunNuls(st: Store, block: nat, texts: seq<string>)
    requires FlushesFind(st, block, texts, StampedStart) && AllNulFree(texts)
    ensures NulFree(RunFile(st, block, texts).buf)
    ensures PiecesNulFree(RunPieces(st, block, texts)) <==> FlushesFind(st, block, texts, LineFound)
    ensures |RunPieces(st, block, texts)| > 0 ==> |RunFile(st, block, texts).buf| > 0
  {
    hide NulFree, StampedStart, LineFound, Pieces, Carry, WritePieces;
    if |texts| == 0 {
      EmptyNulFree();
    } else {
      var before, text := texts[..|texts| - 1], texts[|texts| - 1];
      var f := RunFile(st, block, before);
      assert AllNulFree(before) && NulFree(text);
      RunNuls(st, block, before);
      var ps, more := RunPieces(st, block, before), PiecesFlushed(st, block, f, text);
      if |f.buf| + |text| > block {
        CarryNulFree(f.buf);
        NulFreeJoin(Carry(f.buf), text);
        FlushWritesNul(st, f.buf);
      } else {
        NulFreeJoin(f.buf, text);
      }
      PiecesJoin(ps, more);
    }
  }

  lemma {:induction false} PiecesJoin(a: seq<Piece>, b: seq<Piece>)
    ensures PiecesNulFree(a + b) <==> PiecesNulFree(a) && PiecesNulFree(b)
  {
    hide NulFree;
    if PiecesNulFree(a + b) {
      assert forall i :: 0 <= i < |a| ==> a[i] == (a + b)[i];
      assert forall i :: 0 <= i < |b| ==> b[i] == (a + b)[|a| + i];
    }
  }

  /** In every run whose flushes find a timestamp a read returns as many bytes as
      lfs_getattr reports. They are every chunk, whole and followed by a newline, and then
      the buffer, exactly when no flush met a first line that was not complete. */
  lemma {:induction false} ReadMatchesReportedSize(st: Store, block: nat, texts: seq<string>, junk: string)
    requires FlushesFind(st, block, texts, StampedStart) && AllNulFree(texts)
    requires |junk| >= |RunFile(st, block, texts).buf|
    ensures
      var f := RunFile(st, block, texts);
      && Listed(f)
      && |ReadFile(f, junk)| == AttrSize(f)
      && (ReadFile(f, junk) == JoinLines(Chunks(f.disk, f.paths)) + f.buf
          <==> FlushesFind(st, block, texts, LineFound))
  {
    hide Listed, Sized, RunFile, RunPieces, WritePieces, Concat, JoinLines, NulFree, AllNulFree, DiskNulFree, PiecesNulFree;
    hide FlushesFind, ReadFile;
    var f, ps := RunFile(st, block, texts), RunPieces(st, block, texts);
    var g := WritePieces(FRESH, ps);
    RunWritesPieces(st, block, texts);
    PiecesAreListed(ps);
    FreshIsSized();
    WritesKeepSize(FRESH, ps);
    Rebuffer(g, f.buf);
    RunNuls(st, block, texts);
    ReadIsWholeExactly(f, junk);
    JoinedNulFree(Chunks(f.disk, f.paths));
    ChunksNulFree(f);
    NulsAreWritten(ps);
    if |ps| == 0 {
      NoPiecesNul(ps);
    }
  }

  lemma {:induction false} NoPiecesNul(ps: seq<Piece>)
    requires |ps| == 0
    ensures PiecesNulFree(ps)
  {
  }

  /** In every run within its block a read returns every chunk, whole and followed by a
      newline, and then the buffer. */
  lemma {:induction false} ReadIsWhole(st: Store, block: nat, texts: seq<string>, junk: string)
    requires StaysWithin(st, block, texts, block)
    requires FlushesFind(st, block, texts, StampedStart) && AllNulFree(texts)
    requires |junk| >= |RunFile(st, block, texts).buf|
    ensures
      var f := RunFile(st, block, texts);
      && Listed(f)
      && ReadFile(f, junk) == JoinLines(Chunks(f.disk, f.paths)) + f.buf
      && |ReadFile(f, junk)| == AttrSize(f)
  {
    hide Listed, RunFile, JoinLines, AllNulFree, FlushesFind, StaysWithin, ReadFile;
    FittingFlushesFindLines(st, block, texts);
    ReadMatchesReportedSize(st, block, texts, junk);
  }
}
