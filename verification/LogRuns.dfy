/**
  Whole runs of appends to one log file (lfs_write in lfs_fuse.c over
  write_buffer_to_disk in Cache.c): when the chunk files and the buffer are an
  append-only log.
*/
module LogRuns {
  import opened Metadata
  import opened Flush
  import opened LogTime
  import opened LogStore
  import opened ChunkOrder

  /** The file after these appends. */
  function RunFile(st: Store, block: nat, texts: seq<string>): File {
    if |texts| == 0 then FRESH
    else AppendFile(st, block, RunFile(st, block, texts[..|texts| - 1]), texts[|texts| - 1])
  }

  /** The lines and the pieces this append flushes. */
  function LinesFlushed(block: nat, f: File, text: string): seq<string> {
    if |f.buf| + |text| > block then Lines(f.buf) else []
  }

  function PiecesFlushed(st: Store, block: nat, f: File, text: string): seq<Piece> {
    if |f.buf| + |text| > block then Pieces(st, f.buf) else []
  }

  function RunLines(st: Store, block: nat, texts: seq<string>): seq<string> {
    if |texts| == 0 then []
    else
      var before := texts[..|texts| - 1];
      RunLines(st, block, before) + LinesFlushed(block, RunFile(st, block, before), texts[|texts| - 1])
  }

  function RunPieces(st: Store, block: nat, texts: seq<string>): seq<Piece> {
    if |texts| == 0 then []
    else
      var before := texts[..|texts| - 1];
      RunPieces(st, block, before) + PiecesFlushed(st, block, RunFile(st, block, before), texts[|texts| - 1])
  }

  /** Every buffer that the run flushes is of this kind. */
  ghost predicate FlushesFind(st: Store, block: nat, texts: seq<string>, found: string -> bool) {
    |texts| > 0 ==>
      var before := texts[..|texts| - 1];
      var f := RunFile(st, block, before);
      && FlushesFind(st, block, before, found)
      && (|f.buf| + |texts[|texts| - 1]| > block ==> found(f.buf))
  }

  /** No buffer of the run is longer than this. In C a buffer and its NUL must stay within
      the block; one that is longer has been written beyond it. */
  ghost predicate StaysWithin(st: Store, block: nat, texts: seq<string>, room: nat) {
    |texts| > 0 ==> StaysWithin(st, block, texts[..|texts| - 1], room) && |RunFile(st, block, texts).buf| <= room
  }

  /** Complete stamped lines and behind them an unfinished one. */
  predicate TailFound(s: string) {
    |Lines(s)| > 0 && UnfinishedTail(s)
  }

  predicate LineFound(s: string) {
    |Lines(s)| > 0
  }

  lemma {:induction false} WritePiecesJoin(f: File, a: seq<Piece>, b: seq<Piece>)
    ensures WritePieces(f, a + b) == WritePieces(WritePieces(f, a), b)
  {
    hide WritePiece;
    if |b| == 0 {
      assert a + b == a;
    } else {
      WritePiecesJoin(f, a, b[..|b| - 1]);
      assert (a + b)[..|a + b| - 1] == a + b[..|b| - 1];
    }
  }

  lemma {:induction false} WritesLeaveBuffer(f: File, buf: string, ps: seq<Piece>)
    ensures WritePieces(f.(buf := buf), ps) == WritePieces(f, ps).(buf := buf)
  {
    if |ps| > 0 {
      WritesLeaveBuffer(f, buf, ps[..|ps| - 1]);
    }
  }

  /** A run leaves the chunk files that its flushed pieces make. */
  lemma {:induction false} RunWritesPieces(st: Store, block: nat, texts: seq<string>)
    ensures
      var f := RunFile(st, block, texts);
      f == WritePieces(FRESH, RunPieces(st, block, texts)).(buf := f.buf)
  {
    hide Pieces, Carry, WritePieces;
    if |texts| == 0 {
      NothingWritten();
    } else {
      var before, text := texts[..|texts| - 1], texts[|texts| - 1];
      RunWritesPieces(st, block, before);
      var f, done := RunFile(st, block, before), RunPieces(st, block, before);
      if |f.buf| + |text| > block {
        var ps := Pieces(st, f.buf);
        WritesLeaveBuffer(WritePieces(FRESH, done), f.buf, ps);
        WritePiecesJoin(FRESH, done, ps);
      } else {
        assert done + [] == done;
      }
    }
  }

  lemma {:induction false} NothingWritten()
    ensures WritePieces(FRESH, []) == FRESH
  {
  }

  lemma {:induction false} TextsJoin(a: seq<Piece>, b: seq<Piece>)
    ensures Texts(a + b) == Texts(a) + Texts(b) && Names(a + b) == Names(a) + Names(b)
  {
  }

  // ----- the bytes of the log -----

  lemma {:induction false} JoinLinesNone()
    ensures JoinLines([]) == ""
  {
  }

  /** The flushed pieces and the buffer are all the bytes appended, in order. */
  lemma {:induction false} RunConserves(st: Store, block: nat, texts: seq<string>)
    requires FlushesFind(st, block, texts, TailFound)
    ensures Concat(Texts(RunPieces(st, block, texts))) + RunFile(st, block, texts).buf == Concat(texts)
    ensures Concat(Texts(RunPieces(st, block, texts))) == JoinLines(RunLines(st, block, texts))
  {
    hide Pieces, Carry, WritePieces, Lines, UnfinishedTail, Concat, Texts, JoinLines;
    if |texts| == 0 {
      NothingAppended();
      JoinLinesNone();
    } else {
      var before, text := texts[..|texts| - 1], texts[|texts| - 1];
      RunConserves(st, block, before);
      ConcatSnoc(before, text);
      assert before + [text] == texts;
      var f, done := RunFile(st, block, before), RunPieces(st, block, before);
      if |f.buf| + |text| > block {
        StepConserves(st, f.buf, done, RunLines(st, block, before), text);
        WritesLeaveBuffer(f, f.buf, Pieces(st, f.buf));
      } else {
        assert done + [] == done && RunLines(st, block, before) + [] == RunLines(st, block, before);
        Reassociate(Concat(Texts(done)), f.buf, text);
      }
    }
  }

  lemma {:induction false} FourParts(a: string, b: string, c: string, d: string)
    ensures a + b + (c + d) == a + (b + c) + d
  {
  }

  lemma {:induction false} StepConserves(st: Store, s: string, done: seq<Piece>, ls: seq<string>, text: string)
    requires TailFound(s) && Concat(Texts(done)) == JoinLines(ls)
    ensures Concat(Texts(done + Pieces(st, s))) + (Carry(s) + text) == Concat(Texts(done)) + s + text
    ensures Concat(Texts(done + Pieces(st, s))) == JoinLines(ls + Lines(s))
  {
    hide Pieces, Carry, Lines, UnfinishedTail, Concat, Texts, JoinLines, StampedStart, MaximalRuns, Flatten, PiecesOf;
    LinesStampStart(s);
    FlushConserves(st, s);
    TextsJoin(done, Pieces(st, s));
    ConcatJoin(Texts(done), Texts(Pieces(st, s)));
    var _ := PiecesAreDateRuns(st, s);
    JoinLinesConcat(ls, Lines(s));
    FourParts(Concat(Texts(done)), Concat(Texts(Pieces(st, s))), Carry(s), text);
  }

  lemma {:induction false} NothingAppended()
    ensures Texts([]) == [] && Concat([]) == ""
  {
  }

  ghost predicate AllStamped(ls: seq<string>) {
    forall i :: 0 <= i < |ls| ==> StampedLine(ls[i])
  }

  lemma {:induction false} LineFirst(line: string, s: string)
    requires StampedLine(line)
    ensures Lines(line + "\n" + s) == [line] + Lines(s)
  {
    hide Stamp, Span;
    var text := line + "\n" + s;
    assert text == line + ("\n" + s);
    SpanOf(line, "\n" + s, InLine);
    assert text[..|line|] == line && text[|line| + 1..] == s;
  }

  lemma {:induction false} LinesOfJoin(ls: seq<string>, s: string)
    requires AllStamped(ls)
    ensures Lines(JoinLines(ls) + s) == ls + Lines(s)
  {
    hide Lines, StampedLine, JoinLines;
    if |ls| == 0 {
      JoinLinesNone();
      assert JoinLines(ls) + s == s && ls == [];
    } else {
      var front, last := ls[..|ls| - 1], ls[|ls| - 1];
      assert ls == front + [last];
      JoinLinesConcat(front, [last]);
      JoinOne(last);
      Reassociate(JoinLines(front), last + "\n", s);
      LinesOfJoin(front, last + "\n" + s);
      LineFirst(last, s);
    }
  }

  lemma {:induction false} RunLinesStamped(st: Store, block: nat, texts: seq<string>)
    ensures AllStamped(RunLines(st, block, texts))
  {
    hide StampedLine, RunFile, Lines;
    if |texts| > 0 {
      var before := texts[..|texts| - 1];
      RunLinesStamped(st, block, before);
      LinesAreStamped(RunFile(st, block, before).buf);
    }
  }

  /** The flushed lines are the first complete lines of the log. */
  lemma {:induction false} RunLinesAreLogLines(st: Store, block: nat, texts: seq<string>)
    requires FlushesFind(st, block, texts, TailFound)
    ensures Lines(Concat(texts)) == RunLines(st, block, texts) + Lines(RunFile(st, block, texts).buf)
  {
    hide RunFile, RunLines, RunPieces, FlushesFind, AllStamped, Lines, JoinLines, Concat, Texts;
    RunConserves(st, block, texts);
    RunLinesStamped(st, block, texts);
    LinesOfJoin(RunLines(st, block, texts), RunFile(st, block, texts).buf);
  }

  /** An unfinished line that is all there is stays in the buffer when it is flushed. So a
      text that forced its flush does not fit behind it either: in a run within its block
      no flush meets one. */
  lemma {:induction false} FittingFlushesFindLines(st: Store, block: nat, texts: seq<string>)
    requires StaysWithin(st, block, texts, block) && FlushesFind(st, block, texts, StampedStart)
    ensures FlushesFind(st, block, texts, LineFound)
  {
    hide Lines, StampedStart, Carry, Pieces, WritePieces;
    if |texts| > 0 {
      var before, text := texts[..|texts| - 1], texts[|texts| - 1];
      FittingFlushesFindLines(st, block, before);
      var f := RunFile(st, block, before);
      if |f.buf| + |text| > block && |Lines(f.buf)| == 0 {
        LoneLineIsDoubled(st, f.buf);
      }
    }
  }

  /** No stretch of the text without a newline is longer than this. */
  ghost predicate LinesWithin(s: string, longest: nat) {
    forall i, j :: 0 <= i <= j <= |s| && All(s[i..j], InLine) ==> j - i <= longest
  }

  lemma {:induction false} TailWithin(s: string, tail: string, longest: nat)
    requires LinesWithin(s, longest) && |tail| <= |s| && tail == s[|s| - |tail|..] && All(tail, InLine)
    ensures |tail| <= longest
  {
    assert tail == s[|s| - |tail|..|s|];
  }

  lemma {:induction false} FrontWithin(s: string, more: string, longest: nat)
    requires LinesWithin(s + more, longest)
    ensures LinesWithin(s, longest)
  {
    forall i, j | 0 <= i <= j <= |s| && All(s[i..j], InLine) ensures j - i <= longest {
      assert (s + more)[i..j] == s[i..j];
    }
  }

  lemma {:induction false} CarryWithin(done: string, s: string, longest: nat)
    requires LinesWithin(done + s, longest) && TailFound(s)
    ensures |Carry(s)| <= longest
  {
    hide LinesWithin, Lines, Rest, Carry, JoinLines;
    CarryIsRest(s);
    LinesAndRest(s);
    var tail := Rest(s);
    assert All(tail, InLine);
    assert tail == (done + s)[|done + s| - |tail|..];
    TailWithin(done + s, tail, longest);
  }

  /** A run stays within its block when every text leaves room for the longest line of the log. */
  lemma {:induction false} ShortLinesFit(st: Store, block: nat, texts: seq<string>, longest: nat)
    requires FlushesFind(st, block, texts, TailFound) && LinesWithin(Concat(texts), longest)
    requires forall i :: 0 <= i < |texts| ==> |texts[i]| + longest <= block
    ensures StaysWithin(st, block, texts, block)
  {
    hide LinesWithin, TailFound, Concat, Texts, Carry, Pieces, WritePieces, RunPieces, RunLines, JoinLines;
    if |texts| > 0 {
      var before, text := texts[..|texts| - 1], texts[|texts| - 1];
      assert texts == before + [text];
      ConcatSnoc(before, text);
      FrontWithin(Concat(before), text, longest);
      ShortLinesFit(st, block, before, longest);
      var f := RunFile(st, block, before);
      if |f.buf| + |text| > block {
        RunConserves(st, block, before);
        CarryWithin(Concat(Texts(RunPieces(st, block, before))), f.buf, longest);
      }
    }
  }

  // ----- the names of the pieces -----

  function Heads(runs: seq<seq<string>>): seq<string>
    requires forall k :: 0 <= k < |runs| ==> |runs[k]| > 0
  {
    seq(|runs|, k requires 0 <= k < |runs| => runs[k][0])
  }

  lemma {:induction false} HeadsSnoc(runs: seq<seq<string>>)
    requires |runs| > 0 && forall k :: 0 <= k < |runs| ==> |runs[k]| > 0
    ensures Heads(runs) == Heads(runs[..|runs| - 1]) + [runs[|runs| - 1][0]]
    ensures Flatten(runs) == Flatten(runs[..|runs| - 1]) + runs[|runs| - 1]
  {
  }

  lemma {:induction false} HeadOfRun(run: seq<string>)
    requires |run| > 0 && InTimeOrder(run)
    ensures InTimeOrder([run[0]]) && AllIn([run[0]], run)
  {
    hide InTimeOrder;
    assert run == [run[0]] + run[1..];
    OrderSplit([run[0]], run[1..]);
  }

  /** The first lines of the pieces of one flush are picked in order from its lines. */
  lemma {:induction false} HeadsInOrder(runs: seq<seq<string>>)
    requires forall k :: 0 <= k < |runs| ==> |runs[k]| > 0
    requires InTimeOrder(Flatten(runs))
    ensures InTimeOrder(Heads(runs)) && AllIn(Heads(runs), Flatten(runs))
  {
    if |runs| == 0 {
      NothingInOrder();
      assert Heads(runs) == [];
    } else {
      hide InTimeOrder, AllIn, Flatten, Heads;
      var front, last := runs[..|runs| - 1], runs[|runs| - 1];
      HeadsSnoc(runs);
      OrderSplit(Flatten(front), last);
      HeadsInOrder(front);
      HeadOfRun(last);
      OrderJoin(Flatten(front), last, Heads(front), [last[0]]);
    }
  }

  lemma {:induction false} FlushHeads(st: Store, s: string) returns (heads: seq<string>)
    requires |Lines(s)| > 0 && InTimeOrder(Lines(s))
    ensures Names(Pieces(st, s)) == LineNames(st, heads) && InTimeOrder(heads) && AllIn(heads, Lines(s))
  {
    hide InTimeOrder, Lines, JoinLines, Concat, LineDate, Flatten, ChunkName;
    var runs := PiecesAreDateRuns(st, s);
    forall k | 0 <= k < |runs| ensures |runs[k]| > 0 {
      assert OneDate(runs[k]);
    }
    HeadsInOrder(runs);
    heads := Heads(runs);
  }

  lemma {:induction false} NamesOfLines(st: Store, a: seq<string>, b: seq<string>)
    ensures LineNames(st, a + b) == LineNames(st, a) + LineNames(st, b)
  {
    hide ChunkName;
  }

  lemma {:induction false} NothingInOrder()
    ensures InTimeOrder([]) && Names([]) == []
  {
  }

  lemma {:induction false} NoneIn(b: seq<string>)
    ensures AllIn([], b)
  {
  }

  /** The pieces of a run are named after lines picked in order from the flushed lines. */
  lemma {:induction false} RunHeads(st: Store, block: nat, texts: seq<string>) returns (heads: seq<string>)
    requires FlushesFind(st, block, texts, LineFound) && InTimeOrder(RunLines(st, block, texts))
    ensures Names(RunPieces(st, block, texts)) == LineNames(st, heads)
    ensures InTimeOrder(heads) && AllIn(heads, RunLines(st, block, texts))
  {
    hide InTimeOrder, AllIn, Lines, Pieces, RunFile, Names, LineNames;
    if |texts| == 0 {
      heads := [];
      NothingInOrder();
      NoneIn([]);
      NamesOfNone(st);
    } else {
      var before, text := texts[..|texts| - 1], texts[|texts| - 1];
      var f := RunFile(st, block, before);
      var ls, ps := RunLines(st, block, before), RunPieces(st, block, before);
      if |f.buf| + |text| > block {
        OrderSplit(ls, Lines(f.buf));
        var earlier := RunHeads(st, block, before);
        var later := FlushHeads(st, f.buf);
        OrderJoin(ls, Lines(f.buf), earlier, later);
        heads := earlier + later;
        NamesOfLines(st, earlier, later);
        TextsJoin(ps, Pieces(st, f.buf));
      } else {
        assert ls + [] == ls && ps + [] == ps;
        heads := RunHeads(st, block, before);
      }
    }
  }

  lemma {:induction false} NamesOfNone(st: Store)
    ensures Names([]) == LineNames(st, [])
  {
  }

  lemma {:induction false} TailsHaveLines(st: Store, block: nat, texts: seq<string>)
    requires FlushesFind(st, block, texts, TailFound)
    ensures FlushesFind(st, block, texts, LineFound)
  {
    hide RunFile, Lines, UnfinishedTail;
    if |texts| > 0 {
      TailsHaveLines(st, block, texts[..|texts| - 1]);
    }
  }

  /** When the timestamps of the log never go backwards, no chunk name comes back. */
  lemma {:induction false} OrderedLogNeverRecurs(st: Store, block: nat, texts: seq<string>)
    requires FlushesFind(st, block, texts, TailFound) && InTimeOrder(Lines(Concat(texts)))
    ensures NeverRecurs(Names(RunPieces(st, block, texts)))
  {
    hide FlushesFind, InTimeOrder, NeverRecurs, RunFile, RunLines, RunPieces, Lines, Concat, Names, LineNames, AllIn;
    RunLinesAreLogLines(st, block, texts);
    OrderSplit(RunLines(st, block, texts), Lines(RunFile(st, block, texts).buf));
    TailsHaveLines(st, block, texts);
    var heads := RunHeads(st, block, texts);
    TimeOrderNeverRecurs(st, heads);
  }

  // ----- pieces tell their names -----

  /** The text starts with the line that the piece is named after. */
  ghost predicate Headed(st: Store, p: Piece) {
    var k := Span(p.text, InLine);
    k < |p.text| && p.path == ChunkName(st, p.text[..k])
  }

  ghost predicate AllHeaded(st: Store, ps: seq<Piece>) {
    forall i :: 0 <= i < |ps| ==> Headed(st, ps[i])
  }

  lemma {:induction false} HeadTells(st: Store, p: Piece, q: Piece)
    requires Headed(st, p) && Headed(st, q) && p.text <= q.text
    ensures p.path == q.path
  {
    hide ChunkName, Span;
    var k := Span(p.text, InLine);
    var line, rest := p.text[..k], q.text[k..];
    assert q.text == line + rest && rest[0] == p.text[k];
    SpanOf(line, rest, InLine);
    assert q.text[..k] == line;
  }

  lemma {:induction false} HeadedAreApart(st: Store, ps: seq<Piece>)
    requires AllHeaded(st, ps)
    ensures Apart(ps)
  {
    hide Headed;
    forall i, j | 0 <= i < |ps| && 0 <= j < |ps| && ps[i].path != ps[j].path ensures !(ps[i].text <= ps[j].text) {
      if ps[i].text <= ps[j].text {
        HeadTells(st, ps[i], ps[j]);
      }
    }
  }

  lemma {:induction false} RunIsHeaded(st: Store, run: seq<string>)
    requires |run| > 0 && StampedLine(run[0])
    ensures Headed(st, PieceOf(st, run))
  {
    hide Stamp, ChunkName, Span, JoinLines;
    assert run == [run[0]] + run[1..];
    JoinLinesConcat([run[0]], run[1..]);
    JoinOne(run[0]);
    var line, rest := run[0], "\n" + JoinLines(run[1..]);
    assert JoinLines(run) == line + rest;
    SpanOf(line, rest, InLine);
    assert (line + rest)[..|line|] == line;
  }

  lemma {:induction false} FlattenHas(runs: seq<seq<string>>, k: nat)
    requires k < |runs| && |runs[k]| > 0
    ensures runs[k][0] in Flatten(runs)
  {
    var front, last := runs[..|runs| - 1], runs[|runs| - 1];
    if k < |runs| - 1 {
      FlattenHas(front, k);
    } else {
      assert (Flatten(front) + last)[|Flatten(front)|] == last[0];
    }
  }

  lemma {:induction false} FlushIsHeaded(st: Store, s: string)
    requires |Lines(s)| > 0
    ensures AllHeaded(st, Pieces(st, s))
  {
    hide Lines, JoinLines, Concat, LineDate, Flatten, ChunkName, StampedLine, Headed, PieceOf;
    var runs := PiecesAreDateRuns(st, s);
    LinesAreStamped(s);
    forall k | 0 <= k < |runs| ensures Headed(st, PieceOf(st, runs[k])) {
      assert OneDate(runs[k]);
      FlattenHas(runs, k);
      RunIsHeaded(st, runs[k]);
    }
  }

  lemma {:induction false} RunPiecesHeaded(st: Store, block: nat, texts: seq<string>)
    requires FlushesFind(st, block, texts, LineFound)
    ensures AllHeaded(st, RunPieces(st, block, texts))
  {
    hide Headed, RunFile, Lines, Pieces;
    if |texts| > 0 {
      var before, text := texts[..|texts| - 1], texts[|texts| - 1];
      RunPiecesHeaded(st, block, before);
      var f := RunFile(st, block, before);
      if |f.buf| + |text| > block {
        FlushIsHeaded(st, f.buf);
      }
    }
  }

  // ----- the append-only log -----

  /** When each flush finds an unfinished last line, the chunk files in path order followed
      by the buffer are all the bytes ever appended, in order, exactly when no chunk name
      comes back after it has been left. */
  lemma {:induction false} StoreIsLogExactly(st: Store, block: nat, texts: seq<string>)
    requires FlushesFind(st, block, texts, TailFound)
    ensures
      var f := RunFile(st, block, texts);
      && Listed(f)
      && (Concat(Chunks(f.disk, f.paths)) + f.buf == Concat(texts) <==> NeverRecurs(Names(RunPieces(st, block, texts))))
      && f.size + |f.buf| == |Concat(texts)|
  {
    hide Listed, Sized, NeverRecurs, RunFile, RunPieces, RunLines, FlushesFind, WritePieces, Apart, AllHeaded;
    hide Concat, Texts, Chunks, Names, JoinLines;
    var ps := RunPieces(st, block, texts);
    var g, buf := WritePieces(FRESH, ps), RunFile(st, block, texts).buf;
    RunWritesPieces(st, block, texts);
    PiecesAreListed(ps);
    FreshIsSized();
    WritesKeepSize(FRESH, ps);
    Rebuffer(g, buf);
    SizeOf(g);
    ContentsLength(ps);
    RunConserves(st, block, texts);
    TailsHaveLines(st, block, texts);
    RunPiecesHeaded(st, block, texts);
    HeadedAreApart(st, ps);
    ContentsInOrderExactly(ps);
    var contents := Concat(Chunks(g.disk, g.paths));
    if contents + buf == Concat(Texts(ps)) + buf {
      assert contents == (contents + buf)[..|contents|];
      assert Concat(Texts(ps)) == (Concat(Texts(ps)) + buf)[..|contents|];
    }
  }

  /** However the pieces are arranged, their chunk files have as many bytes. */
  lemma {:induction false} ContentsLength(ps: seq<Piece>)
    requires Listed(WritePieces(FRESH, ps)) && Sized(WritePieces(FRESH, ps))
    ensures
      var f := WritePieces(FRESH, ps);
      |Concat(Chunks(f.disk, f.paths))| == |Concat(Texts(ps))|
  {
    hide Listed, Concat, Chunks, Texts;
    SizeIsWritten(ps);
    SizeOf(WritePieces(FRESH, ps));
  }

  lemma {:induction false} SizeIsWritten(ps: seq<Piece>)
    ensures WritePieces(FRESH, ps).size == |Concat(Texts(ps))|
  {
    hide Concat;
    if |ps| == 0 {
      NothingAppended();
      assert Texts(ps) == [];
    } else {
      SizeIsWritten(ps[..|ps| - 1]);
      NamesSnoc(ps);
      ConcatSnoc(Texts(ps[..|ps| - 1]), ps[|ps| - 1].text);
    }
  }

  /** The log store is an append-only log: when the log's timestamps never go backwards and
      each flush finds an unfinished last line, the chunk files in path order followed by
      the buffer are all the bytes ever appended, in order, and an append to an existing
      chunk is always to the last one. */
  lemma {:induction false} StoreIsAppendOnlyLog(st: Store, block: nat, texts: seq<string>)
    requires FlushesFind(st, block, texts, TailFound)
    requires InTimeOrder(Lines(Concat(texts)))
    ensures
      var f := RunFile(st, block, texts);
      && Listed(f)
      && Concat(Chunks(f.disk, f.paths)) + f.buf == Concat(texts)
      && f.size + |f.buf| == |Concat(texts)|
      && AppendsHitLast(RunPieces(st, block, texts))
  {
    hide Listed, InTimeOrder, NeverRecurs, AppendsHitLast, RunFile, RunPieces, FlushesFind;
    hide Concat, Chunks, Names, Lines;
    OrderedLogNeverRecurs(st, block, texts);
    StoreIsLogExactly(st, block, texts);
    AppendsHitLastExactly(RunPieces(st, block, texts));
  }
}
