/**
  The hour that a log sees twice when the clocks go back. The names that
  write_buffer_to_disk (Cache.c) gives to chunk files leave the zone out, so a piece
  that starts at 01:30:00 EST goes into the chunk of the piece that started at
  01:30:00 EDT, in front of one that started in between. This happens in every block
  of more than 96 bytes, and no buffer of the run reaches the end of the block.
*/
module RepeatedHour {
  import opened Metadata
  import opened Flush
  import opened LogTime
  import opened LogStore
  import opened LogRuns

  // ----- buffers of one line, over and over -----

  function Copies(line: string, k: nat): seq<string> {
    seq(k, _ => line)
  }

  /** k lines and the first character of the next one. */
  function Filled(line: string, k: nat): string {
    JoinLines(Copies(line, k)) + "I"
  }

  lemma {:induction false} CopiesStep(line: string, k: nat)
    requires k > 0
    ensures JoinLines(Copies(line, k)) == JoinLines(Copies(line, k - 1)) + line + "\n"
  {
    assert Copies(line, k) == Copies(line, k - 1) + [line];
    JoinLinesConcat(Copies(line, k - 1), [line]);
    JoinOne(line);
    Reassociate(JoinLines(Copies(line, k - 1)), line, "\n");
  }

  lemma {:induction false} FilledLength(line: string, k: nat)
    requires |line| == 31
    ensures |Filled(line, k)| == 32 * k + 1
  {
    if k > 0 {
      hide JoinLines;
      CopiesStep(line, k);
      FilledLength(line, k - 1);
    } else {
      JoinLinesNone();
      assert Copies(line, 0) == [];
    }
  }

  lemma {:induction false} FilledStarts(line: string, k: nat)
    requires k > 0 && |line| > 0 && line[0] == 'I'
    ensures |Filled(line, k)| > 0 && "I" + Filled(line, k)[1..] == Filled(line, k)
  {
    hide JoinLines;
    if k > 1 {
      CopiesStep(line, k);
      FilledStarts(line, k - 1);
      var before := JoinLines(Copies(line, k - 1));
      assert Filled(line, k - 1) == before + "I";
      assert Filled(line, k)[0] == (before + "I")[0];
    } else {
      CopiesStep(line, 1);
      JoinLinesNone();
      assert Copies(line, 0) == [];
      assert Filled(line, 1) == line + "\n" + "I";
    }
    assert Filled(line, k) == Filled(line, k)[..1] + Filled(line, k)[1..];
  }

  /** Lines of one date make one piece. */
  lemma {:induction false} OneRun(cur: seq<string>, ls: seq<string>)
    requires |cur| > 0 && forall i :: 0 <= i < |ls| ==> LineDate(ls[i]) == LineDate(cur[0])
    ensures Runs(cur, ls) == [cur + ls]
    decreases |ls|
  {
    hide LineDate;
    if |ls| == 0 {
      assert cur + ls == cur;
    } else {
      OneRun(cur + [ls[0]], ls[1..]);
      assert cur + [ls[0]] + ls[1..] == cur + ls;
    }
  }

  function CopiesPiece(st: Store, line: string, k: nat): Piece {
    Piece(ChunkName(st, line), JoinLines(Copies(line, k)))
  }

  lemma {:induction false} FilledLines(line: string, k: nat)
    requires StampedLine(line) && k > 0
    ensures Lines(Filled(line, k)) == Copies(line, k) && Rest(Filled(line, k)) == "I"
    ensures TailFound(Filled(line, k)) && Carry(Filled(line, k)) == "I"
  {
    hide StampedLine, JoinLines, Carry, CompleteLine;
    NextIsIncomplete();
    var s := Filled(line, k);
    LinesOfJoin(Copies(line, k), "I");
    assert Copies(line, k) + [] == Copies(line, k);
    LinesAndRest(s);
    SameRest(JoinLines(Copies(line, k)), Rest(s), "I");
    hide Lines, Rest;
    assert UnfinishedTail(s);
    CarryIsRest(s);
  }

  lemma {:induction false} NextIsIncomplete()
    ensures !CompleteLine("I") && InLine('I')
  {
    SpanOf("I", "", InLine);
    assert "I" + "" == "I";
  }

  lemma {:induction false} FilledPieces(st: Store, line: string, k: nat)
    requires StampedLine(line) && k > 0
    ensures Pieces(st, Filled(line, k)) == [CopiesPiece(st, line, k)]
  {
    hide StampedLine, JoinLines, Lines, LineDate, ChunkName, Runs;
    FilledLines(line, k);
    var ls := Copies(line, k);
    OneRun([ls[0]], ls[1..]);
    assert [ls[0]] + ls[1..] == ls;
    assert PiecesOf(st, [ls]) == [PieceOf(st, ls)];
  }

  // ----- a run of such buffers -----

  lemma {:induction false} FirstBuffer(st: Store, block: nat, text: string)
    requires |text| < block
    ensures
      var texts := [text];
      && RunFile(st, block, texts).buf == text && RunPieces(st, block, texts) == [] && RunLines(st, block, texts) == []
      && FlushesFind(st, block, texts, TailFound) && StaysWithin(st, block, texts, block - 1)
  {
    assert [text][..0] == [];
    assert RunFile(st, block, []) == FRESH;
    assert "" + text == text;
    assert RunPieces(st, block, []) == [] && RunLines(st, block, []) == [];
    assert FlushesFind(st, block, [], TailFound) && StaysWithin(st, block, [], block - 1);
  }

  /** The next text does not fit: the lines are flushed, and the text completes the line
      whose first character is kept. */
  lemma {:induction false} NextBuffer(st: Store, block: nat, before: seq<string>, line: string, next: string, k: nat)
    requires StampedLine(line) && StampedLine(next) && |line| == |next| == 31 && next[0] == 'I'
    requires 32 * k + 1 < block <= 64 * k
    requires FlushesFind(st, block, before, TailFound) && StaysWithin(st, block, before, block - 1)
    requires RunFile(st, block, before).buf == Filled(line, k)
    ensures |Filled(next, k)| > 0
    ensures
      var texts := before + [Filled(next, k)[1..]];
      && FlushesFind(st, block, texts, TailFound) && StaysWithin(st, block, texts, block - 1)
      && RunFile(st, block, texts).buf == Filled(next, k)
      && RunLines(st, block, texts) == RunLines(st, block, before) + Copies(line, k)
      && RunPieces(st, block, texts) == RunPieces(st, block, before) + [CopiesPiece(st, line, k)]
  {
    hide StampedLine, TailFound, Lines, Carry, Pieces, WritePieces, CopiesPiece, Filled, Copies;
    FilledLength(line, k);
    FilledLength(next, k);
    FilledStarts(next, k);
    FilledLines(line, k);
    FilledPieces(st, line, k);
    var text := Filled(next, k)[1..];
    assert (before + [text])[..|before|] == before;
    assert |RunFile(st, block, before).buf| + |text| > block;
  }

  /** The appends: lines of one kind, of a second, and of a third until they are flushed. */
  function ThreeTexts(l1: string, l2: string, l3: string, k: nat): seq<string> {
    [Filled(l1, k), Filled(l2, k)[1..], Filled(l3, k)[1..], Filled(l3, k)[1..]]
  }

  /** Lines of each kind are flushed alone, and no buffer reaches the end of the block. */
  lemma {:induction false} ThreeFlushes(st: Store, block: nat, l1: string, l2: string, l3: string, k: nat)
    requires StampedLine(l1) && StampedLine(l2) && StampedLine(l3) && |l1| == |l2| == |l3| == 31
    requires l1[0] == 'I' && l2[0] == 'I' && l3[0] == 'I'
    requires 32 * k + 1 < block <= 64 * k
    ensures
      var texts := ThreeTexts(l1, l2, l3, k);
      && FlushesFind(st, block, texts, TailFound) && StaysWithin(st, block, texts, block - 1)
      && RunLines(st, block, texts) == Copies(l1, k) + Copies(l2, k) + Copies(l3, k)
      && Names(RunPieces(st, block, texts)) == [ChunkName(st, l1), ChunkName(st, l2), ChunkName(st, l3)]
  {
    hide StampedLine, TailFound, ChunkName, RunFile, RunPieces, RunLines, FlushesFind, StaysWithin, Filled, Copies, JoinLines;
    var texts := ThreeTexts(l1, l2, l3, k);
    var one, two, three := [texts[0]], [texts[0], texts[1]], [texts[0], texts[1], texts[2]];
    assert one + [texts[1]] == two && two + [texts[2]] == three && three + [texts[3]] == texts;
    FilledLength(l1, k);
    FirstBuffer(st, block, texts[0]);
    NextBuffer(st, block, one, l1, l2, k);
    NextBuffer(st, block, two, l2, l3, k);
    NextBuffer(st, block, three, l3, l3, k);
    assert [] + Copies(l1, k) == Copies(l1, k);
    assert RunPieces(st, block, texts) == [CopiesPiece(st, l1, k), CopiesPiece(st, l2, k), CopiesPiece(st, l3, k)];
  }

  // ----- one night in November -----

  function LogLine(stamp: string): string {
    "I|" + stamp + "|m"
  }

  lemma {:induction false} LogLineStamped(stamp: string)
    requires |stamp| > 0 && All(stamp, InField) && All(stamp, InLine)
    ensures StampedLine(LogLine(stamp)) && StampOf(LogLine(stamp)) == stamp
  {
    hide Span;
    var line := LogLine(stamp);
    assert line == "I" + ("|" + stamp + "|m");
    SpanOf("I", "|" + stamp + "|m", InField);
    assert line[2..] == stamp + "|m";
    SpanOf(stamp, "|m", InField);
    assert (stamp + "|m")[..|stamp|] == stamp;
  }

  function NightStamp(time: string, zone: string): string {
    StampText("Sun", "Nov", "4", time, zone, "2012")
  }

  lemma {:induction false} NightStampPlain(time: string, zone: string)
    requires IsWord(time) && All(time, InField) && IsWord(zone) && All(zone, InField)
    ensures |NightStamp(time, zone)| == |time| + |zone| + 16
    ensures All(NightStamp(time, zone), InField) && All(NightStamp(time, zone), InLine)
  {
    var ts := NightStamp(time, zone);
    assert ts == "Sun Nov 4 " + time + " " + zone + " 2012";
    forall i | 0 <= i < |time| ensures InLine(time[i]) {
      assert !IsSpace(time[i]);
    }
    forall i | 0 <= i < |zone| ensures InLine(zone[i]) {
      assert !IsSpace(zone[i]);
    }
  }

  lemma {:induction false} NightLine(st: Store, time: string, zone: string)
    requires IsWord(time) && All(time, InField) && IsWord(zone) && All(zone, InField)
    ensures StampedLine(LogLine(NightStamp(time, zone)))
    ensures ChunkName(st, LogLine(NightStamp(time, zone))) == ChunkPath(st, "Nov", "4", "2012", time)
  {
    hide ChunkPath, ChunkAt, Stamp, StampText;
    NightStampPlain(time, zone);
    LogLineStamped(NightStamp(time, zone));
    ZoneIsNotNamed(st, "Sun", "Nov", "4", time, zone, "2012");
  }

  /** In every block of more than 96 bytes: a log whose time only goes forward, from 01:30:00
      and 01:45:00 EDT to 01:30:00 EST, each flush of which finds an unfinished last line and
      all of whose buffers fit with their NUL, and whose store is out of order. */
  lemma {:induction false} RepeatedHourIsReordered(st: Store, block: nat) returns (k: nat, texts: seq<string>)
    requires block > 96
    ensures k > 0 && FlushesFind(st, block, texts, TailFound) && StaysWithin(st, block, texts, block - 1)
    ensures RunLines(st, block, texts)
            == Copies(LogLine(NightStamp("01:30:00", "EDT")), k) + Copies(LogLine(NightStamp("01:45:00", "EDT")), k)
               + Copies(LogLine(NightStamp("01:30:00", "EST")), k)
    ensures
      var f := RunFile(st, block, texts);
      Listed(f) && Concat(Chunks(f.disk, f.paths)) + f.buf != Concat(texts)
  {
    hide ChunkPath, ChunkName, StampedLine, RunFile, RunPieces, RunLines, FlushesFind, StaysWithin, TailFound, Listed;
    hide NightStamp, Copies, Concat, Chunks, Names, ThreeTexts;
    var l1, l2 := LogLine(NightStamp("01:30:00", "EDT")), LogLine(NightStamp("01:45:00", "EDT"));
    var l3 := LogLine(NightStamp("01:30:00", "EST"));
    NightLine(st, "01:30:00", "EDT");
    NightLine(st, "01:45:00", "EDT");
    NightLine(st, "01:30:00", "EST");
    NightLengths();
    NamesApart(st);
    k := (block - 2) / 32;
    texts := ThreeTexts(l1, l2, l3, k);
    ThreeFlushes(st, block, l1, l2, l3, k);
    StoreIsLogExactly(st, block, texts);
    var names := Names(RunPieces(st, block, texts));
    assert names[0] == names[2] && names[1] != names[2];
  }

  lemma {:induction false} NightLengths()
    ensures |LogLine(NightStamp("01:30:00", "EDT"))| == |LogLine(NightStamp("01:45:00", "EDT"))| == 31
    ensures |LogLine(NightStamp("01:30:00", "EST"))| == 31
  {
    NightStampPlain("01:30:00", "EDT");
    NightStampPlain("01:45:00", "EDT");
    NightStampPlain("01:30:00", "EST");
  }

  lemma {:induction false} NamesApart(st: Store)
    ensures ChunkPath(st, "Nov", "4", "2012", "01:45:00") != ChunkPath(st, "Nov", "4", "2012", "01:30:00")
  {
    assert "01:45:00"[3] != "01:30:00"[3];
    if ChunkPath(st, "Nov", "4", "2012", "01:45:00") == ChunkPath(st, "Nov", "4", "2012", "01:30:00") {
      PathsDiffer(st, "Nov", "4", "2012", "01:45:00", "Nov", "4", "2012", "01:30:00");
    }
  }
}
