/**
  What the date comparison of a flush decides (is_dates_equal in Cache.c): for
  timestamps of the log's own format, whether they show the same calendar day. So a
  flush writes one piece for each stretch of lines of one day.
*/
module LogDays {
  import opened Ballots
  import opened Metadata
  import opened Flush
  import opened LogTime
  import opened LogStore
  import opened LogRuns

  datatype Day = Day(year: int, month: int, day: int)

  /** The day on the calendar. */
  ghost function DayOf(ts: string): Day
    requires DateStamp(ts)
  {
    var m := MomentOf(ts);
    Day(m.year, m.month, m.day)
  }

  lemma {:induction false} CanonicalNumber(t: string)
    requires Canonical(t)
    ensures All(t, IsDigit) && Number(t) == Some((DigitsValue(t), ""))
  {
    hide DigitsValue, Number;
    CanonicalIsPrinted(t);
    DigitsRead(t, "");
    assert t + "" == t;
  }

  lemma {:induction false} DateOfStamp(ts: string)
    requires DateStamp(ts)
    ensures DateOf(ts) == Date(Field(ts, 1), Some(DayOf(ts).day), Some(DayOf(ts).year))
    ensures Field(ts, 1) in MONTHS && DayOf(ts).month == IndexOf(MONTHS, Field(ts, 1))
  {
    hide Field, DigitsValue, Number, Canonical, DecNat;
    CanonicalNumber(Field(ts, 2));
    CanonicalNumber(Field(ts, 5));
  }

  /** Two timestamps have equal dates exactly when they show the same day. */
  lemma {:induction false} EqualDatesAreEqualDays(a: string, b: string)
    requires DateStamp(a) && DateStamp(b)
    ensures DateOf(a) == DateOf(b) <==> DayOf(a) == DayOf(b)
  {
    hide Field, DateOf, DayOf, DateStamp;
    DateOfStamp(a);
    DateOfStamp(b);
  }

  /** Lines of one day. */
  ghost predicate OneDay(run: seq<string>) {
    && |run| > 0 && (forall i :: 0 <= i < |run| ==> DateStamp(StampOf(run[i])))
    && forall i :: 0 <= i < |run| ==> DayOf(StampOf(run[i])) == DayOf(StampOf(run[0]))
  }

  ghost predicate AllDated(ls: seq<string>) {
    forall i :: 0 <= i < |ls| ==> DateStamp(StampOf(ls[i]))
  }

  /** Days of neighbouring pieces differ. */
  ghost predicate DayRuns(runs: seq<seq<string>>) {
    && (forall k :: 0 <= k < |runs| ==> OneDay(runs[k]))
    && forall k :: 0 < k < |runs| ==> DayOf(StampOf(runs[k][0])) != DayOf(StampOf(runs[k - 1][0]))
  }

  lemma {:induction false} LineOfRun(runs: seq<seq<string>>, k: nat, i: nat)
    requires k < |runs| && i < |runs[k]|
    ensures runs[k][i] in Flatten(runs)
  {
    var front, last := runs[..|runs| - 1], runs[|runs| - 1];
    if k < |runs| - 1 {
      LineOfRun(front, k, i);
    } else {
      assert (Flatten(front) + last)[|Flatten(front)| + i] == last[i];
    }
  }

  lemma {:induction false} DatedRun(runs: seq<seq<string>>, k: nat)
    requires k < |runs| && OneDate(runs[k]) && AllDated(Flatten(runs))
    ensures OneDay(runs[k])
  {
    hide DateStamp, DateOf, DayOf, Flatten, StampOf;
    var run := runs[k];
    forall i | 0 <= i < |run| ensures DateStamp(StampOf(run[i])) {
      LineOfRun(runs, k, i);
    }
    forall i | 0 <= i < |run| && DateStamp(StampOf(run[i])) && DateStamp(StampOf(run[0]))
      ensures DayOf(StampOf(run[i])) == DayOf(StampOf(run[0]))
    {
      assert LineDate(run[i]) == LineDate(run[0]);
      EqualDatesAreEqualDays(StampOf(run[i]), StampOf(run[0]));
    }
  }

  lemma {:induction false} DateRunsAreDayRuns(runs: seq<seq<string>>)
    requires MaximalRuns(runs) && AllDated(Flatten(runs))
    ensures DayRuns(runs)
  {
    hide DateStamp, DateOf, DayOf, Flatten, StampOf, OneDate;
    forall k | 0 <= k < |runs| ensures OneDay(runs[k]) {
      DatedRun(runs, k);
    }
    forall k | 0 < k < |runs| && OneDay(runs[k]) && OneDay(runs[k - 1])
      ensures DayOf(StampOf(runs[k][0])) != DayOf(StampOf(runs[k - 1][0]))
    {
      assert LineDate(runs[k][0]) != LineDate(runs[k - 1][0]);
      EqualDatesAreEqualDays(StampOf(runs[k][0]), StampOf(runs[k - 1][0]));
    }
  }

  /** For a log in its own format the pieces of a flush are the stretches of lines of one
      calendar day, and neighbouring pieces are of different days. */
  lemma {:induction false} PiecesAreDays(st: Store, s: string) returns (runs: seq<seq<string>>)
    requires |Lines(s)| > 0 && AllDated(Lines(s))
    ensures DayRuns(runs) && Flatten(runs) == Lines(s) && Pieces(st, s) == PiecesOf(st, runs)
    ensures |runs| > 0 && Concat(Texts(Pieces(st, s))) == JoinLines(Lines(s))
  {
    hide AllDated, MaximalRuns, DayRuns, Lines, Flatten, Pieces, PiecesOf, Texts, Concat, JoinLines;
    runs := PiecesAreDateRuns(st, s);
    DateRunsAreDayRuns(runs);
  }

  // ----- concrete lines -----

  /** The stamp of a line is its second field, whether another field follows or not. */
  lemma {:induction false} StampOfShortLine(level: string, ts: string)
    requires |level| > 0 && All(level, InField) && |ts| > 0 && All(ts, InField)
    ensures Stamp(level + ("|" + ts)) == Some(ts)
  {
    var line := level + ("|" + ts);
    SpanOf(level, "|" + ts, InField);
    assert line[|level| + 1..] == ts;
    SpanOf(ts, "", InField);
    assert ts + "" == ts && ts[..|ts|] == ts;
  }

  /** There is none without a first field, without a second, or without a bar. */
  lemma {:induction false} NoStamp(level: string, rest: string)
    requires All(level, InField)
    ensures Stamp(level) == None && Stamp(level + ("|" + "")) == None && Stamp(level + ("|" + ("|" + rest))) == None
    ensures Stamp("|" + rest) == None
  {
    SpanOf(level, "", InField);
    assert level + "" == level;
    SpanOf("", "|" + rest, InField);
    assert "" + ("|" + rest) == "|" + rest;
    if |level| > 0 {
      SpanOf(level, "|" + "", InField);
      assert (level + ("|" + ""))[|level| + 1..] == "";
      SpanOf(level, "|" + ("|" + rest), InField);
      assert (level + ("|" + ("|" + rest)))[|level| + 1..] == "|" + rest;
    } else {
      assert level + ("|" + "") == "|" + "";
      SpanOf("", "|" + "", InField);
      assert level + ("|" + ("|" + rest)) == "|" + ("|" + rest);
      SpanOf("", "|" + ("|" + rest), InField);
    }
  }

  /** The first line of the repository's sample log. */
  const SAMPLE := "ERROR" + "|" + "Sat Mar 17 23:33:43 EDT 2012" + "|" + "File Not Found"

  lemma {:induction false} NumberOfYear()
    ensures DigitsValue("2012") == 2012 && DigitsValue("17") == 17 && DigitsValue("18") == 18
  {
    assert "2012"[..3] == "201" && "201"[..2] == "20" && "20"[..1] == "2" && "2"[..0] == "";
    assert "17"[..1] == "1" && "18"[..1] == "1" && "1"[..0] == "";
    assert DigitsValue("2") == 2 && DigitsValue("20") == 20 && DigitsValue("201") == 201;
    assert DigitsValue("1") == 1;
  }

  lemma {:induction false} MarchIsThird()
    ensures "Mar" in MONTHS && IndexOf(MONTHS, "Mar") == 2
  {
    assert MONTHS[2] == "Mar" && MONTHS[0] != "Mar" && MONTHS[1] != "Mar";
    assert MONTHS[1..][0] == MONTHS[1] && MONTHS[1..][1..][0] == MONTHS[2];
    assert "Jan" != "Mar" && "Feb" != "Mar";
  }

  /** A night in March: stamps of two days, d being "17" or "18". */
  lemma {:induction false} MarchStamp(weekday: string, d: string, time: string)
    requires IsWord(weekday) && IsWord(time) && d in {"17", "18"} && ClockText(time)
    ensures
      var ts := StampText(weekday, "Mar", d, time, "EDT", "2012");
      && DateStamp(ts)
      && MomentOf(ts) == Moment(2012, 2, if d == "17" then 17 else 18, TwoDigits(time, 0), TwoDigits(time, 3), TwoDigits(time, 6))
  {
    hide StampText, Fields, DigitsValue, IndexOf;
    FieldsOfStamp(weekday, "Mar", d, time, "EDT", "2012");
    NumberOfYear();
    MarchIsThird();
    assert Canonical("2012") && Canonical(d);
  }

  lemma {:induction false} StampOfLine(level: string, ts: string, rest: string)
    requires |level| > 0 && All(level, InField) && |ts| > 0 && All(ts, InField)
    ensures Stamp(level + ("|" + (ts + ("|" + rest)))) == Some(ts)
  {
    var line := level + ("|" + (ts + ("|" + rest)));
    SpanOf(level, "|" + (ts + ("|" + rest)), InField);
    assert line[|level| + 1..] == ts + ("|" + rest);
    SpanOf(ts, "|" + rest, InField);
    assert (ts + ("|" + rest))[..|ts|] == ts;
  }

  /** The sample log's first line has a stamp of the log's format, and this is its moment. */
  lemma {:induction false} SampleIsDated()
    ensures DateStamp(StampOf(SAMPLE)) && MomentOf(StampOf(SAMPLE)) == Moment(2012, 2, 17, 23, 33, 43)
  {
    SampleTime();
    SampleStamp();
    hide MomentOf, DateStamp, Stamp, StampText;
    MarchStamp("Sat", "17", "23:33:43");
  }

  lemma {:induction false} SampleTime()
    ensures IsWord("Sat") && ClockText("23:33:43") && IsWord("23:33:43")
    ensures TwoDigits("23:33:43", 0) == 23 && TwoDigits("23:33:43", 3) == 33 && TwoDigits("23:33:43", 6) == 43
  {
  }

  lemma {:induction false} SampleStamp()
    ensures StampOf(SAMPLE) == StampText("Sat", "Mar", "17", "23:33:43", "EDT", "2012")
  {
    var ts := "Sat Mar 17 23:33:43 EDT 2012";
    assert ts == StampText("Sat", "Mar", "17", "23:33:43", "EDT", "2012");
    assert All(ts, InField) && All("ERROR", InField);
    InParts("ERROR", ts, "File Not Found");
    hide Stamp;
    StampOfLine("ERROR", ts, "File Not Found");
  }

  lemma {:induction false} InParts(a: string, b: string, c: string)
    ensures a + "|" + b + "|" + c == a + ("|" + (b + ("|" + c)))
  {
  }

  function NightLog(weekday: string, d: string, time: string): string {
    "I|" + StampText(weekday, "Mar", d, time, "EDT", "2012") + "|m"
  }

  lemma {:induction false} NightLogStamped(weekday: string, d: string, time: string)
    requires IsWord(weekday) && All(weekday, InField) && IsWord(time) && All(time, InField) && d in {"17", "18"}
    ensures StampedLine(NightLog(weekday, d, time))
    ensures StampOf(NightLog(weekday, d, time)) == StampText(weekday, "Mar", d, time, "EDT", "2012")
  {
    hide StampText, Stamp;
    var ts := StampText(weekday, "Mar", d, time, "EDT", "2012");
    NightStampPlain(weekday, d, time);
    assert NightLog(weekday, d, time) == "I" + ("|" + (ts + ("|" + "m")));
    StampOfLine("I", ts, "m");
  }

  lemma {:induction false} NightLogLine(st: Store, weekday: string, d: string, time: string)
    requires IsWord(weekday) && All(weekday, InField) && IsWord(time) && All(time, InField)
    requires d in {"17", "18"} && ClockText(time)
    ensures StampedLine(NightLog(weekday, d, time)) && DateStamp(StampOf(NightLog(weekday, d, time)))
    ensures DayOf(StampOf(NightLog(weekday, d, time))) == Day(2012, 2, if d == "17" then 17 else 18)
    ensures ChunkName(st, NightLog(weekday, d, time)) == ChunkPath(st, "Mar", d, "2012", time)
  {
    hide StampText, MomentOf, DateStamp, StampedLine, StampOf, ChunkPath, ChunkAt, NightLog;
    NightLogStamped(weekday, d, time);
    MarchStamp(weekday, d, time);
    DayWord(d);
    ZoneIsNotNamed(st, weekday, "Mar", d, time, "EDT", "2012");
  }

  lemma {:induction false} DayWord(d: string)
    requires d in {"17", "18"}
    ensures IsWord(d) && IsWord("Mar") && IsWord("EDT") && IsWord("2012")
  {
  }

  lemma {:induction false} NightStampPlain(weekday: string, d: string, time: string)
    requires IsWord(weekday) && All(weekday, InField) && IsWord(time) && All(time, InField) && d in {"17", "18"}
    ensures
      var ts := StampText(weekday, "Mar", d, time, "EDT", "2012");
      |ts| > 0 && All(ts, InField) && All(ts, InLine)
  {
    var ts := StampText(weekday, "Mar", d, time, "EDT", "2012");
    assert ts == weekday + " Mar " + d + " " + time + " EDT 2012";
    forall i | 0 <= i < |time| ensures InLine(time[i]) {
      assert !IsSpace(time[i]);
    }
    forall i | 0 <= i < |weekday| ensures InLine(weekday[i]) {
      assert !IsSpace(weekday[i]);
    }
  }

  /** Two lines on either side of midnight and the start of a third: two pieces, in the
      folders of their days. */
  lemma {:induction false} MidnightCuts(st: Store)
    ensures
      var l1, l2 := NightLog("Sat", "17", "23:59:59"), NightLog("Sun", "18", "00:00:01");
      Pieces(st, l1 + "\n" + l2 + "\n" + "I")
      == [Piece(ChunkPath(st, "Mar", "17", "2012", "23:59:59"), l1 + "\n"),
          Piece(ChunkPath(st, "Mar", "18", "2012", "00:00:01"), l2 + "\n")]
  {
    hide NightLog, StampedLine, ChunkPath, ChunkName, Lines, Pieces, DateStamp, MomentOf, StampOf;
    var l1, l2 := NightLog("Sat", "17", "23:59:59"), NightLog("Sun", "18", "00:00:01");
    NightLogLine(st, "Sat", "17", "23:59:59");
    NightLogLine(st, "Sun", "18", "00:00:01");
    TwoLines(l1, l2);
    IsStamped(l1);
    IsStamped(l2);
    TwoDays(st, l1, l2, l1 + "\n" + l2 + "\n" + "I");
  }

  lemma {:induction false} IsStamped(line: string)
    requires StampedLine(line)
    ensures Stamp(line).Some?
  {
  }

  lemma {:induction false} TwoLines(l1: string, l2: string)
    requires StampedLine(l1) && StampedLine(l2)
    ensures Lines(l1 + "\n" + l2 + "\n" + "I") == [l1, l2]
  {
    hide StampedLine, Lines;
    LineFirst(l1, l2 + "\n" + "I");
    LineFirst(l2, "I");
    NextLineOpen();
    assert l1 + "\n" + l2 + "\n" + "I" == l1 + "\n" + (l2 + "\n" + "I");
    assert [l1] + ([l2] + []) == [l1, l2];
  }

  lemma {:induction false} NextLineOpen()
    ensures Lines("I") == []
  {
    SpanOf("I", "", InLine);
    assert "I" + "" == "I";
  }

  lemma {:induction false} TwoDays(st: Store, l1: string, l2: string, s: string)
    requires Lines(s) == [l1, l2] && Stamp(l1).Some? && Stamp(l2).Some?
    requires DateStamp(StampOf(l1)) && DateStamp(StampOf(l2)) && DayOf(StampOf(l1)) != DayOf(StampOf(l2))
    ensures Pieces(st, s) == [Piece(ChunkName(st, l1), l1 + "\n"), Piece(ChunkName(st, l2), l2 + "\n")]
  {
    hide Lines, DateOf, DayOf, DateStamp, StampOf, ChunkName, JoinLines;
    EqualDatesAreEqualDays(StampOf(l1), StampOf(l2));
    JoinOne(l1);
    JoinOne(l2);
    assert [l1, l2][1..] == [l2] && [l2][1..] == [];
    assert Runs([l2], []) == [[l2]];
    assert Runs([l1], [l2]) == [[l1]] + [[l2]];
  }
}
