/**
  Cutting a log buffer into pieces (write_buffer_to_disk in Cache.c).

  A log line reads "LEVEL|timestamp|message", with a timestamp such as
  "Sat Mar 17 23:33:43 EDT 2012". A flush takes the complete, stamped lines at
  the start of the buffer, cuts them where the date changes, names each piece
  after the first line in it, and carries over the last line it scanned. It does
  not look for the newline of the first line: if that line is all there is, it is
  written without a newline and with the terminating NUL.
*/
module Flush {
  import opened Ballots
  import opened Metadata

  predicate InLine(c: char) {
    c != '\n'
  }

  predicate InField(c: char) {
    c != '|'
  }

  predicate NotBlank(c: char) {
    c != ' '
  }

  /** sscanf "%[^\n]\n": the line at the start of s, if that is not empty. */
  function ScanLine(s: string): Option<string> {
    var k := Span(s, InLine);
    if k == 0 then None else Some(s[..k])
  }

  /** sscanf "%*[^|]|%[^|]|%*s": the second field, if neither it nor the first is empty. */
  function Stamp(line: string): Option<string> {
    var k := Span(line, InField);
    if k == 0 || k == |line| then None
    else
      var t := line[k + 1..];
      var j := Span(t, InField);
      if j == 0 then None else Some(t[..j])
  }

  function StampOf(line: string): string {
    match Stamp(line)
    case None => ""
    case Some(ts) => ts
  }

  /** The blank-separated parts of a timestamp. */
  function Fields(ts: string): seq<string>
    decreases |ts|
  {
    var k := Span(ts, NotBlank);
    if k == 0 then [] else [ts[..k]] + Fields(SkipSpace(ts[k..]))
  }

  /** A part that is missing, which C leaves unset, counts as empty. */
  function Field(ts: string, i: nat): string {
    var fs := Fields(ts);
    if i < |fs| then fs[i] else ""
  }

  function FieldNumber(ts: string, i: nat): Option<int> {
    match Number(Field(ts, i))
    case None => None
    case Some(n) => Some(n.0)
  }

  datatype Date = Date(month: string, day: Option<int>, year: Option<int>)

  /** What is_dates_equal compares. */
  function DateOf(ts: string): Date {
    Date(Field(ts, 1), FieldNumber(ts, 2), FieldNumber(ts, 5))
  }

  function LineDate(line: string): Date {
    DateOf(StampOf(line))
  }

  datatype Store = Store(chunkPath: string, fileName: string)

  /** The date folder of a timestamp, and in it the file for a piece that starts then. */
  function ChunkAt(st: Store, ts: string): string {
    st.chunkPath + Field(ts, 1) + "-" + Field(ts, 2) + "-" + Field(ts, 5) + "/" + st.fileName + "-" + Field(ts, 3)
  }

  function ChunkName(st: Store, line: string): string {
    ChunkAt(st, StampOf(line))
  }

  // ----- the lines of a buffer -----

  predicate CompleteLine(s: string) {
    var k := Span(s, InLine);
    0 < k < |s| && Stamp(s[..k]).Some?
  }

  /** The complete, non-blank, stamped lines at the start of s. */
  function Lines(s: string): seq<string>
    decreases |s|
  {
    if !CompleteLine(s) then []
    else
      var k := Span(s, InLine);
      [s[..k]] + Lines(s[k + 1..])
  }

  function Rest(s: string): string
    decreases |s|
  {
    if !CompleteLine(s) then s else Rest(s[Span(s, InLine) + 1..])
  }

  function JoinLines(ls: seq<string>): string {
    if |ls| == 0 then "" else JoinLines(ls[..|ls| - 1]) + ls[|ls| - 1] + "\n"
  }

  /** What stays in the buffer: the last line scanned. */
  function Carry(s: string): string {
    match ScanLine(Rest(s))
    case Some(line) => line
    case None => if |Lines(s)| > 0 then Lines(s)[|Lines(s)| - 1] else ""
  }

  /** The buffer ends in a non-empty line without its newline, and all lines before it
      are complete. */
  predicate UnfinishedTail(s: string) {
    |Rest(s)| > 0 && forall i :: 0 <= i < |Rest(s)| ==> Rest(s)[i] != '\n'
  }

  // ----- the pieces -----

  /** The runs of equal dates in cur + ls, of which cur is the one being collected. */
  function Runs(cur: seq<string>, ls: seq<string>): seq<seq<string>>
    requires |cur| > 0
    decreases |ls|
  {
    if |ls| == 0 then [cur]
    else if LineDate(ls[0]) == LineDate(cur[0]) then Runs(cur + [ls[0]], ls[1..])
    else [cur] + Runs([ls[0]], ls[1..])
  }

  datatype Piece = Piece(path: string, text: string)

  function PieceOf(st: Store, run: seq<string>): Piece {
    Piece(ChunkName(st, if |run| > 0 then run[0] else ""), JoinLines(run))
  }

  function PiecesOf(st: Store, runs: seq<seq<string>>): seq<Piece> {
    seq(|runs|, k requires 0 <= k < |runs| => PieceOf(st, runs[k]))
  }

  /** The buffer starts with a line that has a timestamp. Without one the code uses an
      unset timestamp, and what follows says nothing about it. */
  predicate StampedStart(s: string) {
    match ScanLine(s)
    case None => false
    case Some(line) => Stamp(line).Some?
  }

  const NUL := "\0"

  /** What is written of a first line that is not complete. */
  function LonePieces(st: Store, s: string): seq<Piece> {
    match ScanLine(s)
    case None => []
    case Some(line) => [Piece(ChunkName(st, line), line + NUL)]
  }

  /** The pieces a flush of s writes. */
  function Pieces(st: Store, s: string): seq<Piece> {
    var ls := Lines(s);
    if |ls| == 0 then LonePieces(st, s) else PiecesOf(st, Runs([ls[0]], ls[1..]))
  }

  function Concat(texts: seq<string>): string {
    if |texts| == 0 then "" else Concat(texts[..|texts| - 1]) + texts[|texts| - 1]
  }

  function Texts(ps: seq<Piece>): seq<string> {
    seq(|ps|, k requires 0 <= k < |ps| => ps[k].text)
  }

  function Flatten(runs: seq<seq<string>>): seq<string> {
    if |runs| == 0 then [] else Flatten(runs[..|runs| - 1]) + runs[|runs| - 1]
  }

  // ----- what the pieces are -----

  ghost predicate OneDate(run: seq<string>) {
    |run| > 0 && forall i :: 0 <= i < |run| ==> LineDate(run[i]) == LineDate(run[0])
  }

  /** Non-empty runs of one date each, whose neighbours differ in date. */
  ghost predicate MaximalRuns(runs: seq<seq<string>>) {
    && (forall k :: 0 <= k < |runs| ==> OneDate(runs[k]))
    && (forall k :: 0 < k < |runs| ==> LineDate(runs[k][0]) != LineDate(runs[k - 1][0]))
  }

  lemma {:induction false} FlattenCons(run: seq<string>, runs: seq<seq<string>>)
    ensures Flatten([run] + runs) == run + Flatten(runs)
  {
    if |runs| > 0 {
      FlattenCons(run, runs[..|runs| - 1]);
      assert ([run] + runs)[..|runs|] == [run] + runs[..|runs| - 1];
    } else {
      assert ([run] + runs)[..0] == [];
    }
  }

  lemma {:induction false} MaximalCons(run: seq<string>, runs: seq<seq<string>>)
    requires OneDate(run) && MaximalRuns(runs)
    requires |runs| > 0 ==> LineDate(runs[0][0]) != LineDate(run[0])
    ensures MaximalRuns([run] + runs)
  {
    hide LineDate;
    var all := [run] + runs;
    forall k | 0 <= k < |all| ensures OneDate(all[k]) {
      if k > 0 {
        assert all[k] == runs[k - 1];
      }
    }
    forall k | 0 < k < |all| ensures LineDate(all[k][0]) != LineDate(all[k - 1][0]) {
      assert all[k] == runs[k - 1];
      if k > 1 {
        assert all[k - 1] == runs[k - 2];
      }
    }
  }

  lemma {:induction false} RunsFlatten(cur: seq<string>, ls: seq<string>)
    requires |cur| > 0
    ensures Flatten(Runs(cur, ls)) == cur + ls
    decreases |ls|
  {
    hide LineDate;
    if |ls| == 0 {
      FlattenCons(cur, []);
      assert [cur] + [] == [cur];
    } else if LineDate(ls[0]) == LineDate(cur[0]) {
      RunsFlatten(cur + [ls[0]], ls[1..]);
      assert cur + [ls[0]] + ls[1..] == cur + ls;
    } else {
      RunsFlatten([ls[0]], ls[1..]);
      FlattenCons(cur, Runs([ls[0]], ls[1..]));
      assert cur + ([ls[0]] + ls[1..]) == cur + ls;
    }
  }

  lemma {:induction false} RunsAreMaximal(cur: seq<string>, ls: seq<string>)
    requires OneDate(cur)
    ensures MaximalRuns(Runs(cur, ls))
    ensures |Runs(cur, ls)| > 0 && |Runs(cur, ls)[0]| > 0 && Runs(cur, ls)[0][0] == cur[0]
    decreases |ls|
  {
    hide LineDate;
    if |ls| == 0 {
    } else if LineDate(ls[0]) == LineDate(cur[0]) {
      RunsAreMaximal(cur + [ls[0]], ls[1..]);
    } else {
      RunsAreMaximal([ls[0]], ls[1..]);
      MaximalCons(cur, Runs([ls[0]], ls[1..]));
    }
  }

  lemma {:induction false} JoinLinesConcat(a: seq<string>, b: seq<string>)
    ensures JoinLines(a + b) == JoinLines(a) + JoinLines(b)
  {
    if |b| == 0 {
      assert a + b == a;
    } else {
      JoinLinesConcat(a, b[..|b| - 1]);
      assert (a + b)[..|a + b| - 1] == a + b[..|b| - 1];
    }
  }

  lemma {:induction false} JoinOne(line: string)
    ensures JoinLines([line]) == line + "\n"
  {
    assert [line][..0] == [];
    assert JoinLines([]) + line == line;
  }

  lemma {:induction false} JoinNone()
    ensures JoinLines([]) == ""
  {
  }

  lemma {:induction false} Cut(s: string, k: nat, a: string, b: string)
    requires k < |s| && s[k] == '\n' && s[k + 1..] == a + b
    ensures s == s[..k] + "\n" + a + b
  {
    assert s == s[..k] + "\n" + s[k + 1..];
  }

  /** A buffer is its complete stamped lines followed by the rest. */
  lemma {:induction false} LinesAndRest(s: string)
    ensures s == JoinLines(Lines(s)) + Rest(s)
    decreases |s|
  {
    hide Stamp, Span, JoinLines;
    if CompleteLine(s) {
      var k := Span(s, InLine);
      var line, tail := s[..k], s[k + 1..];
      LinesAndRest(tail);
      JoinLinesConcat([line], Lines(tail));
      JoinOne(line);
      Cut(s, k, JoinLines(Lines(tail)), Rest(tail));
    } else {
      JoinNone();
    }
  }

  lemma {:induction false} RestIsIncomplete(s: string)
    ensures !CompleteLine(Rest(s))
    decreases |s|
  {
    hide Stamp, Span;
    if CompleteLine(s) {
      RestIsIncomplete(s[Span(s, InLine) + 1..]);
    }
  }

  ghost predicate StampedLine(line: string) {
    |line| > 0 && All(line, InLine) && Stamp(line).Some?
  }

  lemma {:induction false} LinesAreStamped(s: string)
    ensures forall i :: 0 <= i < |Lines(s)| ==> StampedLine(Lines(s)[i])
    decreases |s|
  {
    hide Stamp, Span;
    if CompleteLine(s) {
      LinesAreStamped(s[Span(s, InLine) + 1..]);
    }
  }

  lemma {:induction false} PiecesConcat(st: Store, runs: seq<seq<string>>)
    ensures Concat(Texts(PiecesOf(st, runs))) == JoinLines(Flatten(runs))
  {
    if |runs| > 0 {
      var front := runs[..|runs| - 1];
      PiecesConcat(st, front);
      JoinLinesConcat(Flatten(front), runs[|runs| - 1]);
      assert Texts(PiecesOf(st, runs))[..|runs| - 1] == Texts(PiecesOf(st, front));
    }
  }

  /** The pieces are the maximal runs of equal-date lines, and together they are all the
      complete lines of the buffer. */
  lemma {:induction false} PiecesAreDateRuns(st: Store, s: string) returns (runs: seq<seq<string>>)
    requires |Lines(s)| > 0
    ensures MaximalRuns(runs) && Flatten(runs) == Lines(s) && Pieces(st, s) == PiecesOf(st, runs)
    ensures |runs| > 0 && Concat(Texts(Pieces(st, s))) == JoinLines(Lines(s))
  {
    hide Lines, Runs, MaximalRuns, Flatten, PiecesOf, Texts, Concat, JoinLines, LineDate;
    var ls := Lines(s);
    runs := Runs([ls[0]], ls[1..]);
    RunsAreMaximal([ls[0]], ls[1..]);
    RunsFlatten([ls[0]], ls[1..]);
    PiecesConcat(st, runs);
    assert [ls[0]] + ls[1..] == ls;
  }

  /** The carried text is the unread rest exactly when that is an unfinished line. */
  lemma {:induction false} CarryIsRest(s: string)
    requires |Lines(s)| > 0
    ensures Carry(s) == Rest(s) <==> UnfinishedTail(s)
  {
    hide Lines, Rest, StampedLine;
    var rest := Rest(s);
    var k := Span(rest, InLine);
    assert rest[..|rest|] == rest;
    if UnfinishedTail(s) {
      assert rest + "" == rest;
      SpanOf(rest, "", InLine);
    } else if k == 0 {
      CarriedLine(s);
    }
  }

  lemma {:induction false} CarriedLine(s: string)
    requires |Lines(s)| > 0
    ensures |Carry(s)| > 0 && All(Carry(s), InLine)
  {
    hide Lines, Rest, Stamp;
    LinesAreStamped(s);
    var line := Lines(s)[|Lines(s)| - 1];
    assert StampedLine(line);
  }

  /** A buffer that is one unfinished line is written, with a NUL behind it, and kept as well. */
  lemma {:induction false} LoneLineIsDoubled(st: Store, s: string)
    requires StampedStart(s) && |Lines(s)| == 0
    ensures All(s, InLine) && |s| > 0 && Stamp(s).Some?
    ensures Pieces(st, s) == [Piece(ChunkName(st, s), s + NUL)] && Carry(s) == s
    ensures Concat(Texts(Pieces(st, s))) + Carry(s) == s + NUL + s
  {
    hide Span, Stamp, ChunkName;
    assert s[..|s|] == s;
    ConcatOne(s + NUL);
    assert Texts(Pieces(st, s)) == [s + NUL];
  }

  lemma {:induction false} ConcatOne(text: string)
    ensures Concat([text]) == text
  {
    assert [text][..0] == [];
    assert Concat([]) + text == text;
  }

  /** Nothing is lost or doubled by a flush exactly when the buffer ends in an unfinished
      line behind complete stamped ones: a buffer that ends on a line keeps a copy of that
      line, an unstamped or blank line takes everything after it away, and an unfinished
      line alone is doubled. */
  lemma {:induction false} FlushConserves(st: Store, s: string)
    requires StampedStart(s)
    ensures Concat(Texts(Pieces(st, s))) + Carry(s) == s <==> |Lines(s)| > 0 && UnfinishedTail(s)
  {
    hide Lines, Rest, Pieces, Texts, Concat, JoinLines, Carry, UnfinishedTail, StampedStart;
    if |Lines(s)| == 0 {
      LoneLineIsDoubled(st, s);
    } else {
      LinesAndRest(s);
      CarryIsRest(s);
      var _ := PiecesAreDateRuns(st, s);
      var head := JoinLines(Lines(s));
      if head + Carry(s) == s {
        assert Carry(s) == (head + Carry(s))[|head|..];
        assert Rest(s) == (head + Rest(s))[|head|..];
      }
    }
  }

  lemma {:induction false} LinesStampStart(s: string)
    requires |Lines(s)| > 0
    ensures StampedStart(s)
  {
    hide Span, Stamp;
  }

  lemma {:induction false} CarryOfNothing(s: string)
    requires |Lines(s)| > 0 && Rest(s) == ""
    ensures Carry(s) == Lines(s)[|Lines(s)| - 1] && |Carry(s)| > 0
  {
    hide Lines, Rest, Stamp;
    LinesAreStamped(s);
    assert StampedLine(Lines(s)[|Lines(s)| - 1]);
    assert Span("", InLine) == 0;
  }

  /** A buffer that ends exactly on a line: that line is written and carried over as well. */
  lemma {:induction false} FlushRepeatsLastLine(st: Store, s: string)
    requires |Lines(s)| > 0 && Rest(s) == ""
    ensures Concat(Texts(Pieces(st, s))) + Carry(s) == s + Lines(s)[|Lines(s)| - 1]
    ensures Concat(Texts(Pieces(st, s))) + Carry(s) != s
  {
    hide Lines, Rest, Pieces, Texts, Concat, JoinLines, Carry, MaximalRuns, Flatten, PiecesOf;
    LinesAndRest(s);
    assert JoinLines(Lines(s)) + "" == JoinLines(Lines(s));
    CarryOfNothing(s);
    var _ := PiecesAreDateRuns(st, s);
  }

  /** The smallest such buffer: one complete line. */
  lemma {:induction false} OneLineIsRepeated(st: Store)
    ensures Concat(Texts(Pieces(st, "I|T|m\n"))) + Carry("I|T|m\n") == "I|T|m\nI|T|m"
  {
    hide Pieces, Texts, Concat, Carry, Stamp;
    var s, line := "I|T|m\n", "I|T|m";
    assert s == line + "\n";
    SpanOf(line, "\n", InLine);
    assert s[..5] == line && s[6..] == "";
    StampFound();
    assert Lines("") == [] && Rest("") == "";
    assert Lines(s) == [line] && Rest(s) == "";
    FlushRepeatsLastLine(st, s);
  }

  lemma {:induction false} StampFound()
    ensures Stamp("I|T|m").Some?
  {
    var line := "I|T|m";
    assert line == "I" + "|T|m" && line[2..] == "T" + "|m";
    SpanOf("I", "|T|m", InField);
    SpanOf("T", "|m", InField);
  }
}
