/**
  The log file as the code keeps it: write_buffer_to_disk in Cache.c and lfs_write,
  lfs_read and lfs_getattr in lfs_fuse.c, on the fields of the file's buffer block and
  metadata record. Each method computes its function in LogStore or LogRead. The
  buffer block is zero behind the buffered text.
*/
module LogFiles {
  import opened Ballots
  import opened Metadata
  import opened Flush
  import opened LogStore
  import opened ChunkOrder
  import opened LogRead

  /** Where a flush stands: the lines in this rest of the buffer are still to be read, the
      piece being collected holds these lines, and these pieces are written. */
  ghost predicate Midway(st: Store, s: string, rest: string, cur: seq<string>, done: seq<Piece>) {
    && |cur| > 0
    && done + PiecesOf(st, Runs(cur, Lines(rest))) == Pieces(st, s)
    && Rest(rest) == Rest(s)
  }

  lemma {:induction false} FirstLine(st: Store, s: string)
    requires CompleteLine(s)
    ensures
      var k := Span(s, InLine);
      Midway(st, s, s[k + 1..], [s[..k]], []) && Lines(s) == [s[..k]] + Lines(s[k + 1..])
  {
    hide Span, Stamp, Runs, PieceOf;
    var k := Span(s, InLine);
    assert Lines(s)[1..] == Lines(s[k + 1..]);
    assert [] + Pieces(st, s) == Pieces(st, s);
  }

  lemma {:induction false} SameDate(st: Store, s: string, rest: string, cur: seq<string>, done: seq<Piece>)
    requires Midway(st, s, rest, cur, done) && CompleteLine(rest)
    requires LineDate(rest[..Span(rest, InLine)]) == LineDate(cur[0])
    ensures
      var k := Span(rest, InLine);
      Midway(st, s, rest[k + 1..], cur + [rest[..k]], done)
  {
    hide Span, Stamp, PieceOf, PiecesOf, Pieces, LineDate;
    var k := Span(rest, InLine);
    assert Lines(rest)[1..] == Lines(rest[k + 1..]);
  }

  lemma {:induction false} PiecesOfCons(st: Store, run: seq<string>, runs: seq<seq<string>>)
    ensures PiecesOf(st, [run] + runs) == [PieceOf(st, run)] + PiecesOf(st, runs)
  {
    hide PieceOf;
  }

  lemma {:induction false} NewDate(st: Store, s: string, rest: string, cur: seq<string>, done: seq<Piece>)
    requires Midway(st, s, rest, cur, done) && CompleteLine(rest)
    requires LineDate(rest[..Span(rest, InLine)]) != LineDate(cur[0])
    ensures
      var k := Span(rest, InLine);
      Midway(st, s, rest[k + 1..], [rest[..k]], done + [PieceOf(st, cur)])
  {
    hide Span, Stamp, PieceOf, PiecesOf, Pieces, LineDate;
    var k := Span(rest, InLine);
    assert Lines(rest)[1..] == Lines(rest[k + 1..]);
    var later := Runs([rest[..k]], Lines(rest[k + 1..]));
    PiecesOfCons(st, cur, later);
    assert done + ([PieceOf(st, cur)] + PiecesOf(st, later)) == done + [PieceOf(st, cur)] + PiecesOf(st, later);
  }

  lemma {:induction false} LastPiece(st: Store, s: string, rest: string, cur: seq<string>, done: seq<Piece>)
    requires Midway(st, s, rest, cur, done) && !CompleteLine(rest)
    ensures Pieces(st, s) == done + [PieceOf(st, cur)] && Rest(s) == rest
  {
    hide PieceOf, CompleteLine, LineDate;
    assert PiecesOf(st, [cur]) == [PieceOf(st, cur)];
  }

  lemma {:induction false} JoinLinesSnoc(ls: seq<string>, line: string)
    ensures JoinLines(ls + [line]) == JoinLines(ls) + line + "\n"
  {
    assert (ls + [line])[..|ls + [line]| - 1] == ls;
  }

  /** The stretch read so far grows by one line. */
  lemma {:induction false} StretchGrows(s: string, start: nat, offset: nat, k: nat)
    requires start <= offset && offset + k < |s| && s[offset + k] == '\n'
    ensures s[start..offset + k + 1] == s[start..offset] + s[offset..][..k] + "\n"
    ensures s[offset..][k + 1..] == s[offset + k + 1..]
  {
  }

  lemma {:induction false} FirstStretch(s: string, line: string)
    requires |line| < |s| && s[..|line|] == line && s[|line|] == '\n'
    ensures s[0..|line| + 1] == JoinLines([line])
  {
    JoinOne(line);
  }

  lemma {:induction false} NoPieces(f: File)
    ensures WritePieces(f, []) == f
  {
  }

  lemma {:induction false} ReadMore(s: string, rest: string, read: seq<string>)
    requires Lines(s) == read + Lines(rest) && CompleteLine(rest)
    ensures
      var k := Span(rest, InLine);
      Lines(s) == read + [rest[..k]] + Lines(rest[k + 1..])
  {
    hide Span, Stamp;
  }

  lemma {:induction false} StampedDates(a: string, b: string)
    requires Stamp(a).Some? && Stamp(b).Some?
    ensures LineDate(a) == DateOf(Stamp(a).value) && LineDate(b) == DateOf(Stamp(b).value)
  {
    hide Stamp, DateOf;
  }

  lemma {:induction false} PieceIs(st: Store, cur: seq<string>, stamp: string)
    requires |cur| > 0 && Stamp(cur[0]) == Some(stamp)
    ensures PieceOf(st, cur) == Piece(ChunkAt(st, stamp), JoinLines(cur))
  {
    hide Stamp, ChunkAt, JoinLines;
  }

  lemma {:induction false} CarryIs(s: string, rest: string, read: seq<string>)
    requires Rest(s) == rest && !CompleteLine(rest)
    requires Lines(s) == read + Lines(rest) && |read| > 0
    ensures Carry(s) == match ScanLine(rest) case Some(line) => line case None => read[|read| - 1]
  {
    hide CompleteLine, ScanLine;
  }

  /** Where the reading of a flush stands: at this offset, with this piece begun at start
      and these lines read, of which the last is kept. */
  ghost predicate Reading(st: Store, s: string, start: nat, at: nat, cur: seq<string>, done: seq<Piece>,
                          read: seq<string>, last: string, lastSeen: string) {
    && start <= at <= |s|
    && Midway(st, s, s[at..], cur, done)
    && s[start..at] == JoinLines(cur)
    && |cur| > 0 && Stamp(cur[0]) == Some(lastSeen)
    && Lines(s) == read + Lines(s[at..])
    && |read| > 0 && last == read[|read| - 1]
  }

  /** The line at this offset, and its stamp if it is complete. */
  ghost predicate Scanned(s: string, at: nat, line: Option<string>, stamp: Option<string>) {
    && at <= |s|
    && line == ScanLine(s[at..])
    && (stamp.Some? <==> CompleteLine(s[at..]))
    && (stamp.Some? ==>
          && line.Some? && line.value == s[at..][..Span(s[at..], InLine)]
          && at + |line.value| < |s| && s[at + |line.value|] == '\n'
          && stamp == Stamp(line.value))
  }

  lemma {:induction false} ReadingStarts(st: Store, s: string, line: Option<string>, stamp: Option<string>)
    requires Scanned(s, 0, line, stamp) && stamp.Some?
    ensures Reading(st, s, 0, |line.value| + 1, [line.value], [], [line.value], line.value, stamp.value)
  {
    hide CompleteLine, Stamp, Span, ScanLine, Lines, JoinLines, Midway;
    assert s[0..] == s;
    FirstLine(st, s);
    FirstStretch(s, line.value);
  }

  lemma {:induction false} ReadingSameDate(st: Store, s: string, start: nat, at: nat, cur: seq<string>, done: seq<Piece>,
                                           read: seq<string>, last: string, lastSeen: string,
                                           line: Option<string>, stamp: Option<string>)
    requires Reading(st, s, start, at, cur, done, read, last, lastSeen)
    requires Scanned(s, at, line, stamp) && stamp.Some? && DateOf(stamp.value) == DateOf(lastSeen)
    ensures
      var next := at + |line.value| + 1;
      Reading(st, s, start, next, cur + [line.value], done, read + [line.value], line.value, lastSeen)
  {
    hide CompleteLine, Stamp, Span, ScanLine, Lines, JoinLines, Midway, DateOf, LineDate;
    StretchGrows(s, start, at, |line.value|);
    ReadMore(s, s[at..], read);
    StampedDates(cur[0], line.value);
    SameDate(st, s, s[at..], cur, done);
    JoinLinesSnoc(cur, line.value);
  }

  lemma {:induction false} ReadingNewDate(st: Store, s: string, start: nat, at: nat, cur: seq<string>, done: seq<Piece>,
                                          read: seq<string>, last: string, lastSeen: string,
                                          line: Option<string>, stamp: Option<string>)
    requires Reading(st, s, start, at, cur, done, read, last, lastSeen)
    requires Scanned(s, at, line, stamp) && stamp.Some? && DateOf(stamp.value) != DateOf(lastSeen)
    ensures
      var next := at + |line.value| + 1;
      Reading(st, s, at, next, [line.value], done + [PieceOf(st, cur)], read + [line.value], line.value, stamp.value)
  {
    hide CompleteLine, Stamp, Span, ScanLine, Lines, JoinLines, Midway, DateOf, LineDate, PieceOf;
    StretchGrows(s, at, at, |line.value|);
    ReadMore(s, s[at..], read);
    StampedDates(cur[0], line.value);
    NewDate(st, s, s[at..], cur, done);
    JoinOne(line.value);
  }

  /** The piece that is being collected is the stretch of the buffer since start. */
  lemma {:induction false} PieceRead(st: Store, s: string, start: nat, at: nat, cur: seq<string>, done: seq<Piece>,
                                     read: seq<string>, last: string, lastSeen: string)
    requires Reading(st, s, start, at, cur, done, read, last, lastSeen)
    ensures Piece(ChunkAt(st, lastSeen), s[start..at]) == PieceOf(st, cur)
  {
    hide Stamp, Lines, JoinLines, Midway, ChunkAt, PieceOf;
    PieceIs(st, cur, lastSeen);
  }

  lemma {:induction false} ReadingEnds(st: Store, s: string, start: nat, at: nat, cur: seq<string>, done: seq<Piece>,
                                       read: seq<string>, last: string, lastSeen: string,
                                       line: Option<string>, stamp: Option<string>)
    requires Reading(st, s, start, at, cur, done, read, last, lastSeen)
    requires Scanned(s, at, line, stamp) && stamp.None?
    ensures Pieces(st, s) == done + [PieceOf(st, cur)]
    ensures Carry(s) == match line case Some(text) => text case None => last
  {
    hide CompleteLine, Stamp, Span, ScanLine, Lines, JoinLines, Midway, PieceOf, Carry;
    LastPiece(st, s, s[at..], cur, done);
    CarryIs(s, s[at..], read);
  }

  lemma {:induction false} ReadingBounds(st: Store, s: string, start: nat, at: nat, cur: seq<string>, done: seq<Piece>,
                                         read: seq<string>, last: string, lastSeen: string)
    requires Reading(st, s, start, at, cur, done, read, last, lastSeen)
    ensures start <= at <= |s|
  {
  }

  lemma {:induction false} NoLines()
    ensures JoinLines([]) == ""
  {
  }

  // ----- the first line, complete or not -----

  /** An unfinished line that is all there is, read up to its NUL. */
  ghost predicate Lone(s: string, start: nat, at: nat, cur: seq<string>, done: seq<Piece>, last: string, lastSeen: string) {
    |Lines(s)| == 0 && start == 0 && at == |s| + 1 && last == s && |done| == 0 && Stamp(s) == Some(lastSeen)
  }

  ghost predicate At(st: Store, s: string, start: nat, at: nat, cur: seq<string>, done: seq<Piece>,
                     read: seq<string>, last: string, lastSeen: string) {
    Reading(st, s, start, at, cur, done, read, last, lastSeen) || Lone(s, start, at, cur, done, last, lastSeen)
  }

  ghost predicate Met(s: string, at: nat, line: Option<string>, stamp: Option<string>) {
    if at <= |s| then Scanned(s, at, line, stamp) else line.None? && stamp.None?
  }

  ghost function NextPiece(st: Store, s: string, cur: seq<string>): Piece {
    if |Lines(s)| == 0 then Piece(ChunkName(st, s), s + NUL) else PieceOf(st, cur)
  }

  lemma {:induction false} ReadingHasLines(st: Store, s: string, start: nat, at: nat, cur: seq<string>, done: seq<Piece>,
                                           read: seq<string>, last: string, lastSeen: string)
    requires Reading(st, s, start, at, cur, done, read, last, lastSeen)
    ensures |Lines(s)| > 0
  {
    hide Lines, Midway, Stamp, JoinLines;
  }

  lemma {:induction false} AtStart(st: Store, s: string)
    requires StampedStart(s)
    ensures
      var last := ScanLine(s).value;
      Stamp(last).Some? && At(st, s, 0, |last| + 1, [last], [], [last], last, Stamp(last).value)
  {
    hide Stamp, Span, Reading;
    var line := ScanLine(s);
    if CompleteLine(s) {
      assert s[0..] == s;
      ReadingStarts(st, s, line, Stamp(line.value));
    } else {
      hide StampedStart;
      LoneLineIsDoubled(st, s);
      assert s[..|s|] == s;
      LoneScan(s);
    }
  }

  lemma {:induction false} LoneScan(s: string)
    requires All(s, InLine) && |s| > 0
    ensures ScanLine(s) == Some(s)
  {
    SpanOf(s, "", InLine);
    assert s + "" == s && s[..|s|] == s;
  }

  lemma {:induction false} AtBounds(st: Store, s: string, start: nat, at: nat, cur: seq<string>, done: seq<Piece>,
                                    read: seq<string>, last: string, lastSeen: string)
    requires At(st, s, start, at, cur, done, read, last, lastSeen)
    ensures start <= at <= |s| + 1
  {
    hide Lines, Midway, Stamp, JoinLines;
  }

  lemma {:induction false} MetBounds(s: string, at: nat, line: Option<string>, stamp: Option<string>)
    requires Met(s, at, line, stamp) && stamp.Some?
    ensures line.Some? && at + |line.value| < |s|
  {
    hide CompleteLine, Stamp, Span, ScanLine;
  }

  lemma {:induction false} AtPiece(st: Store, s: string, start: nat, at: nat, cur: seq<string>, done: seq<Piece>,
                                   read: seq<string>, last: string, lastSeen: string)
    requires At(st, s, start, at, cur, done, read, last, lastSeen)
    ensures start <= at <= |s| + 1
    ensures Piece(ChunkAt(st, lastSeen), (s + NUL)[start..at]) == NextPiece(st, s, cur)
  {
    hide Stamp, Lines, JoinLines, Midway, ChunkAt, PieceOf, Reading;
    AtBounds(st, s, start, at, cur, done, read, last, lastSeen);
    if Reading(st, s, start, at, cur, done, read, last, lastSeen) {
      ReadingBounds(st, s, start, at, cur, done, read, last, lastSeen);
      ReadingHasLines(st, s, start, at, cur, done, read, last, lastSeen);
      PieceRead(st, s, start, at, cur, done, read, last, lastSeen);
      assert (s + NUL)[start..at] == s[start..at];
    } else {
      assert (s + NUL)[0..|s| + 1] == s + NUL;
    }
  }

  lemma {:induction false} AtSameDate(st: Store, s: string, start: nat, at: nat, cur: seq<string>, done: seq<Piece>,
                                      read: seq<string>, last: string, lastSeen: string,
                                      line: Option<string>, stamp: Option<string>)
    requires At(st, s, start, at, cur, done, read, last, lastSeen)
    requires Met(s, at, line, stamp) && stamp.Some? && DateOf(stamp.value) == DateOf(lastSeen)
    ensures line.Some?
    ensures
      var next := at + |line.value| + 1;
      At(st, s, start, next, cur + [line.value], done, read + [line.value], line.value, lastSeen)
  {
    hide Reading, Scanned, DateOf;
    MetBounds(s, at, line, stamp);
    ReadingSameDate(st, s, start, at, cur, done, read, last, lastSeen, line, stamp);
  }

  lemma {:induction false} AtNewDate(st: Store, s: string, start: nat, at: nat, cur: seq<string>, done: seq<Piece>,
                                     read: seq<string>, last: string, lastSeen: string,
                                     line: Option<string>, stamp: Option<string>)
    requires At(st, s, start, at, cur, done, read, last, lastSeen)
    requires Met(s, at, line, stamp) && stamp.Some? && DateOf(stamp.value) != DateOf(lastSeen)
    ensures line.Some?
    ensures
      var next := at + |line.value| + 1;
      At(st, s, at, next, [line.value], done + [NextPiece(st, s, cur)], read + [line.value], line.value, stamp.value)
  {
    hide Reading, Scanned, DateOf, Lines, PieceOf, ChunkName, Stamp;
    MetBounds(s, at, line, stamp);
    ReadingHasLines(st, s, start, at, cur, done, read, last, lastSeen);
    ReadingNewDate(st, s, start, at, cur, done, read, last, lastSeen, line, stamp);
  }

  lemma {:induction false} AtEnd(st: Store, s: string, start: nat, at: nat, cur: seq<string>, done: seq<Piece>,
                                 read: seq<string>, last: string, lastSeen: string,
                                 line: Option<string>, stamp: Option<string>)
    requires StampedStart(s) && At(st, s, start, at, cur, done, read, last, lastSeen)
    requires Met(s, at, line, stamp) && stamp.None?
    ensures Pieces(st, s) == done + [NextPiece(st, s, cur)]
    ensures Carry(s) == match line case Some(text) => text case None => last
  {
    hide Reading, Scanned, Lines, PieceOf, ChunkName, Stamp, Pieces, Carry, StampedStart;
    if Reading(st, s, start, at, cur, done, read, last, lastSeen) {
      ReadingBounds(st, s, start, at, cur, done, read, last, lastSeen);
      ReadingHasLines(st, s, start, at, cur, done, read, last, lastSeen);
      ReadingEnds(st, s, start, at, cur, done, read, last, lastSeen, line, stamp);
    } else {
      LoneLineIsDoubled(st, s);
      assert done + [NextPiece(st, s, cur)] == [NextPiece(st, s, cur)];
    }
  }

  class LogFile {
    const store: Store
    const block: nat
    var buf: string
    var offset: nat
    var size: nat
    var paths: seq<string>
    var disk: map<string, string>

    ghost predicate Valid()
      reads this
    {
      offset == |buf| && Listed(Value()) && Sized(Value())
    }

    ghost function Value(): File
      reads this
    {
      File(buf, size, paths, disk)
    }

    constructor (store: Store, block: nat)
      ensures Valid() && Value() == FRESH && this.store == store && this.block == block
    {
      this.store, this.block := store, block;
      buf, offset, size, paths, disk := "", 0, 0, [], map[];
      new;
      FreshIsSized();
    }

    /** Writes one stretch of the buffer, or of the buffer and its NUL, to the chunk file of this start. */
    method WriteChunk(stamp: string, start: nat, end: nat)
      requires start <= end <= |buf| + 1
      modifies `size, `paths, `disk
      ensures Value() == WritePiece(old(Value()), Piece(ChunkAt(store, stamp), (buf + NUL)[start..end]))
    {
      var name, text := ChunkAt(store, stamp), (buf + NUL)[start..end];
      if name !in disk {
        disk := disk[name := text];
        paths := paths + [name];
      } else {
        disk := disk[name := disk[name] + text];
      }
      size := size + (end - start);
    }

    /** Reads one line for a flush, and its stamp if the line is complete. Behind the NUL
        there is nothing to read. */
    method ReadLine(at: nat) returns (line: Option<string>, stamp: Option<string>)
      requires at <= |buf| + 1
      ensures Met(buf, at, line, stamp)
    {
      hide Span, Stamp;
      line, stamp := None, None;
      if at <= |buf| {
        line := ScanLine(buf[at..]);
        if line.Some? && at + |line.value| < |buf| && buf[at + |line.value|] == '\n' {
          stamp := Stamp(line.value);
        }
      }
    }

    /** write_buffer_to_disk. The first line's stamp is used whether the line is complete or not. */
    method Flush()
      requires Valid() && StampedStart(buf)
      modifies this
      ensures Valid() && Value() == FlushFile(store, old(Value()))
    {
      hide Listed, Sized, CompleteLine, At, Met, Lines, Pieces, PieceOf, WritePiece, WritePieces, Carry, ChunkAt, DateOf, Stamp, ScanLine;
      ghost var s, before := buf, Value();
      var last := ScanLine(buf).value;
      var lastSeen := Stamp(last).value;
      var startOffset, at := 0, |last| + 1;
      ghost var cur, done, read := [last], [], [last];
      NoPieces(before);
      AtStart(store, s);
      AtBounds(store, s, startOffset, at, cur, done, read, last, lastSeen);
      var line, stamp := ReadLine(at);
      while stamp.Some?
        invariant buf == s && 0 <= startOffset <= at <= |s| + 1
        invariant At(store, s, startOffset, at, cur, done, read, last, lastSeen)
        invariant Met(s, at, line, stamp)
        invariant Value() == WritePieces(before, done)
        decreases |s| + 1 - at
      {
        MetBounds(s, at, line, stamp);
        if DateOf(stamp.value) != DateOf(lastSeen) {
          AtPiece(store, s, startOffset, at, cur, done, read, last, lastSeen);
          WriteChunk(lastSeen, startOffset, at);
          WritePiecesSnoc(before, done, NextPiece(store, s, cur));
          AtNewDate(store, s, startOffset, at, cur, done, read, last, lastSeen, line, stamp);
          done, cur := done + [NextPiece(store, s, cur)], [line.value];
          startOffset, lastSeen := at, stamp.value;
        } else {
          AtSameDate(store, s, startOffset, at, cur, done, read, last, lastSeen, line, stamp);
          cur := cur + [line.value];
        }
        last := line.value;
        read := read + [last];
        at := at + |last| + 1;
        line, stamp := ReadLine(at);
      }
      AtPiece(store, s, startOffset, at, cur, done, read, last, lastSeen);
      WriteChunk(lastSeen, startOffset, at);
      WritePiecesSnoc(before, done, NextPiece(store, s, cur));
      AtEnd(store, s, startOffset, at, cur, done, read, last, lastSeen, line, stamp);
      WritesKeepSize(before, Pieces(store, s));
      Rebuffer(WritePieces(before, Pieces(store, s)), Carry(s));
      buf := if line.Some? then line.value else last;
      offset := |buf|;
    }

    /** lfs_write; the buffer must start with a timestamp when it has to be flushed. */
    method Write(text: string)
      requires Valid() && (|buf| + |text| > block ==> StampedStart(buf))
      modifies this
      ensures Valid() && Value() == AppendFile(store, block, old(Value()), text)
    {
      hide FlushFile, StampedStart, Listed, Sized;
      if offset + |text| > block {
        Flush();
      }
      Rebuffer(Value(), buf + text);
      buf := buf + text;
      offset := offset + |text|;
    }

    /** lfs_getattr's size. */
    method GetAttr() returns (bytes: nat)
      requires Valid()
      ensures forall junk: string :: |junk| >= |buf| ==> |ReadFile(Value(), junk)| == bytes
    {
      TakenWhole(Value());
      JoinLinesLength(Chunks(disk, paths));
      bytes := size + offset;
      bytes := bytes + |paths|;
    }

    /** lfs_read; junk is what stood in the caller's memory behind the chunks. */
    method Read(junk: string) returns (out: string)
      requires Valid() && |junk| >= |buf|
      ensures out == ReadFile(Value(), junk)
      ensures NulFree(buf) && NulFree(JoinLines(Chunks(disk, paths))) ==> out == JoinLines(Chunks(disk, paths)) + buf
    {
      hide JoinLines, Span;
      ghost var taken := Taken(Value());
      var text := "";
      NoLines();
      for i := 0 to |paths|
        invariant text == JoinLines(taken[..i])
      {
        var chunk := disk[paths[i]];
        var numBytes := Smaller(size, |chunk|);
        JoinLinesSnoc(taken[..i], chunk[..numBytes]);
        assert taken[..i + 1] == taken[..i] + [chunk[..numBytes]];
        text := text + chunk[..numBytes];
        text := text + "\n";
      }
      assert taken[..|paths|] == taken;
      FirstNul(text, junk);
      out := StrCat(text + NUL + junk, buf)[..|text| + |buf|];
      if NulFree(buf) {
        ReadIsWholeExactly(Value(), junk);
      }
    }
  }
}
