/**
  The time order of a log. Timestamps are those of the log's own format, such as
  "Sat Mar 17 23:33:43 EDT 2012"; they are ordered by the local calendar and clock
  time they show. The zone is not looked at, here as little as in the names that
  write_buffer_to_disk (Cache.c) makes of them.
*/
module LogTime {
  import opened Metadata
  import opened Flush

  const MONTHS := ["Jan", "Feb", "Mar", "Apr", "May", "Jun", "Jul", "Aug", "Sep", "Oct", "Nov", "Dec"]

  function IndexOf(l: seq<string>, x: string): (i: nat)
    ensures i <= |l| && (x in l ==> i < |l| && l[i] == x)
  {
    if |l| == 0 || l[0] == x then 0 else 1 + IndexOf(l[1..], x)
  }

  function TwoDigits(t: string, i: nat): int
    requires i + 1 < |t|
  {
    10 * (t[i] as int - '0' as int) + (t[i + 1] as int - '0' as int)
  }

  /** hh:mm:ss */
  predicate ClockText(t: string) {
    && |t| == 8 && t[2] == ':' && t[5] == ':'
    && IsDigit(t[0]) && IsDigit(t[1]) && IsDigit(t[3]) && IsDigit(t[4]) && IsDigit(t[6]) && IsDigit(t[7])
  }

  /** A timestamp of the log's format. */
  ghost predicate DateStamp(ts: string) {
    Field(ts, 1) in MONTHS && Canonical(Field(ts, 2)) && ClockText(Field(ts, 3)) && Canonical(Field(ts, 5))
  }

  datatype Moment = Moment(year: int, month: int, day: int, hour: int, minute: int, second: int)

  ghost function MomentOf(ts: string): Moment
    requires DateStamp(ts)
  {
    CanonicalIsPrinted(Field(ts, 2));
    CanonicalIsPrinted(Field(ts, 5));
    var time := Field(ts, 3);
    Moment(DigitsValue(Field(ts, 5)), IndexOf(MONTHS, Field(ts, 1)), DigitsValue(Field(ts, 2)),
           TwoDigits(time, 0), TwoDigits(time, 3), TwoDigits(time, 6))
  }

  /** The order of the calendar and the clock. */
  predicate NotAfter(a: Moment, b: Moment) {
    a.year < b.year || (a.year == b.year &&
    (a.month < b.month || (a.month == b.month &&
    (a.day < b.day || (a.day == b.day &&
    (a.hour < b.hour || (a.hour == b.hour &&
    (a.minute < b.minute || (a.minute == b.minute && a.second <= b.second)))))))))
  }

  /** Lines whose timestamps never go backwards. */
  ghost predicate InTimeOrder(ls: seq<string>) {
    && (forall i :: 0 <= i < |ls| ==> DateStamp(StampOf(ls[i])))
    && (forall i, j :: 0 <= i < j < |ls| ==> NotAfter(MomentOf(StampOf(ls[i])), MomentOf(StampOf(ls[j]))))
  }

  // ----- names and moments -----

  predicate NotDash(c: char) {
    c != '-'
  }

  predicate NotSlash(c: char) {
    c != '/'
  }

  lemma {:induction false} SameFront(a: string, x: string, b: string, y: string, p: char -> bool, c: char)
    requires All(a, p) && All(b, p) && !p(c)
    requires a + ([c] + x) == b + ([c] + y)
    ensures a == b && x == y
  {
    SpanOf(a, [c] + x, p);
    SpanOf(b, [c] + y, p);
    var s := a + ([c] + x);
    assert a == s[..|a|] && b == s[..|b|];
    assert x == s[|a| + 1..] && y == s[|b| + 1..];
  }

  lemma {:induction false} SameRest(a: string, x: string, y: string)
    requires a + x == a + y
    ensures x == y
  {
    assert x == (a + x)[|a|..] && y == (a + y)[|a|..];
  }

  lemma {:induction false} MonthsHaveNoDash(m: string)
    requires m in MONTHS
    ensures All(m, NotDash)
  {
  }

  lemma {:induction false} DigitsHaveNoMarks(t: string)
    requires All(t, IsDigit)
    ensures All(t, NotDash) && All(t, NotSlash)
  {
  }

  function ChunkPath(st: Store, m: string, d: string, y: string, time: string): string {
    st.chunkPath + (m + ("-" + (d + ("-" + (y + ("/" + (st.fileName + ("-" + time))))))))
  }

  lemma {:induction false} ChunkAtIsPath(st: Store, ts: string)
    ensures ChunkAt(st, ts) == ChunkPath(st, Field(ts, 1), Field(ts, 2), Field(ts, 5), Field(ts, 3))
  {
    hide Field;
  }

  lemma {:induction false} PathsDiffer(st: Store, m: string, d: string, y: string, time: string,
                                       m': string, d': string, y': string, time': string)
    requires ChunkPath(st, m, d, y, time) == ChunkPath(st, m', d', y', time')
    requires All(m, NotDash) && All(m', NotDash) && All(d, NotDash) && All(d', NotDash)
    requires All(y, NotSlash) && All(y', NotSlash)
    ensures m == m' && d == d' && y == y' && time == time'
  {
    hide Span;
    var z, z' := st.fileName + ("-" + time), st.fileName + ("-" + time');
    SameRest(st.chunkPath, m + ("-" + (d + ("-" + (y + ("/" + z))))), m' + ("-" + (d' + ("-" + (y' + ("/" + z'))))));
    SameFront(m, d + ("-" + (y + ("/" + z))), m', d' + ("-" + (y' + ("/" + z'))), NotDash, '-');
    SameFront(d, y + ("/" + z), d', y' + ("/" + z'), NotDash, '-');
    SameFront(y, z, y', z', NotSlash, '/');
    SameRest(st.fileName, "-" + time, "-" + time');
    SameRest("-", time, time');
  }

  /** Two chunks have the same name exactly when they start at the same local moment. */
  lemma {:induction false} NamesAreMoments(st: Store, a: string, b: string)
    requires DateStamp(a) && DateStamp(b)
    ensures ChunkAt(st, a) == ChunkAt(st, b) <==> MomentOf(a) == MomentOf(b)
  {
    hide Field, ChunkPath, ChunkAt, DecNat, DigitsValue, Canonical;
    ChunkAtIsPath(st, a);
    ChunkAtIsPath(st, b);
    CanonicalIsPrinted(Field(a, 2));
    CanonicalIsPrinted(Field(b, 2));
    CanonicalIsPrinted(Field(a, 5));
    CanonicalIsPrinted(Field(b, 5));
    if ChunkAt(st, a) == ChunkAt(st, b) {
      MonthsHaveNoDash(Field(a, 1));
      MonthsHaveNoDash(Field(b, 1));
      DigitsHaveNoMarks(Field(a, 2));
      DigitsHaveNoMarks(Field(b, 2));
      DigitsHaveNoMarks(Field(a, 5));
      DigitsHaveNoMarks(Field(b, 5));
      PathsDiffer(st, Field(a, 1), Field(a, 2), Field(a, 5), Field(a, 3), Field(b, 1), Field(b, 2), Field(b, 5), Field(b, 3));
    }
    if MomentOf(a) == MomentOf(b) {
      SameClock(Field(a, 3), Field(b, 3));
    }
  }

  lemma {:induction false} SameClock(t: string, u: string)
    requires ClockText(t) && ClockText(u)
    requires TwoDigits(t, 0) == TwoDigits(u, 0) && TwoDigits(t, 3) == TwoDigits(u, 3) && TwoDigits(t, 6) == TwoDigits(u, 6)
    ensures t == u
  {
    SameDigits(t, u, 0);
    SameDigits(t, u, 3);
    SameDigits(t, u, 6);
  }

  lemma {:induction false} SameDigits(t: string, u: string, i: nat)
    requires i + 1 < |t| && i + 1 < |u| && TwoDigits(t, i) == TwoDigits(u, i)
    requires IsDigit(t[i]) && IsDigit(t[i + 1]) && IsDigit(u[i]) && IsDigit(u[i + 1])
    ensures t[i] == u[i] && t[i + 1] == u[i + 1]
  {
  }

  // ----- the zone -----

  predicate IsWord(w: string) {
    |w| > 0 && forall i :: 0 <= i < |w| ==> !IsSpace(w[i])
  }

  /** One or more blanks. */
  predicate IsGap(gap: string) {
    |gap| > 0 && forall i :: 0 <= i < |gap| ==> gap[i] == ' '
  }

  lemma {:induction false} FieldsStep(w: string, gap: string, rest: string)
    requires IsWord(w) && IsGap(gap) && |rest| > 0 && !IsSpace(rest[0])
    ensures Fields(w + (gap + rest)) == [w] + Fields(rest)
  {
    hide Span;
    assert All(w, NotBlank) by {
      forall i | 0 <= i < |w| ensures NotBlank(w[i]) {
        assert !IsSpace(w[i]);
      }
    }
    var ts := w + (gap + rest);
    SpanOf(w, gap + rest, NotBlank);
    assert ts[..|w|] == w && ts[|w|..] == gap + rest;
    assert All(gap, IsSpace);
    SpanOf(gap, rest, IsSpace);
    assert (gap + rest)[|gap|..] == rest;
  }

  /** Words with gaps between them. */
  function Spaced(words: seq<string>, gaps: seq<string>): string
    requires |words| > 0 && |gaps| == |words| - 1
  {
    if |words| == 1 then words[0] else words[0] + (gaps[0] + Spaced(words[1..], gaps[1..]))
  }

  /** The fields of a stamp are its words, however many blanks stand between them. */
  lemma {:induction false} FieldsAreWords(words: seq<string>, gaps: seq<string>)
    requires |words| > 0 && |gaps| == |words| - 1
    requires (forall i :: 0 <= i < |words| ==> IsWord(words[i])) && forall i :: 0 <= i < |gaps| ==> IsGap(gaps[i])
    ensures Fields(Spaced(words, gaps)) == words
    ensures |Spaced(words, gaps)| > 0 && !IsSpace(Spaced(words, gaps)[0])
  {
    if |words| == 1 {
      LastField(words[0]);
    } else {
      hide Fields;
      FieldsAreWords(words[1..], gaps[1..]);
      FieldsStep(words[0], gaps[0], Spaced(words[1..], gaps[1..]));
    }
  }

  /** A chunk's name does not depend on the weekday, the zone, or the blanks. */
  lemma {:induction false} NameOfStamp(st: Store, words: seq<string>, gaps: seq<string>)
    requires |words| == 6 && |gaps| == 5
    requires (forall i :: 0 <= i < |words| ==> IsWord(words[i])) && forall i :: 0 <= i < |gaps| ==> IsGap(gaps[i])
    ensures ChunkAt(st, Spaced(words, gaps)) == ChunkPath(st, words[1], words[2], words[5], words[3])
  {
    hide Fields, ChunkPath, Spaced;
    FieldsAreWords(words, gaps);
    ChunkAtIsPath(st, Spaced(words, gaps));
  }

  lemma {:induction false} LastField(w: string)
    requires IsWord(w)
    ensures Fields(w) == [w]
  {
    hide Span;
    assert All(w, NotBlank) by {
      forall i | 0 <= i < |w| ensures NotBlank(w[i]) {
        assert !IsSpace(w[i]);
      }
    }
    SpanOf(w, "", NotBlank);
    assert w + "" == w && w[..|w|] == w && w[|w|..] == "";
    SpanOf("", "", IsSpace);
    SpanOf("", "", NotBlank);
    assert SkipSpace("") == "" && Fields("") == [];
  }

  function StampText(weekday: string, m: string, d: string, time: string, zone: string, y: string): string {
    weekday + (" " + (m + (" " + (d + (" " + (time + (" " + (zone + (" " + y)))))))))
  }

  lemma {:induction false} FieldsOfStamp(weekday: string, m: string, d: string, time: string, zone: string, y: string)
    requires IsWord(weekday) && IsWord(m) && IsWord(d) && IsWord(time) && IsWord(zone) && IsWord(y)
    ensures Fields(StampText(weekday, m, d, time, zone, y)) == [weekday, m, d, time, zone, y]
  {
    hide Fields;
    var r4 := zone + (" " + y);
    var r3 := time + (" " + r4);
    var r2 := d + (" " + r3);
    var r1 := m + (" " + r2);
    LastField(y);
    FieldsStep(zone, " ", y);
    FieldsStep(time, " ", r4);
    FieldsStep(d, " ", r3);
    FieldsStep(m, " ", r2);
    FieldsStep(weekday, " ", r1);
  }

  /** A chunk's name has every part of its first timestamp but the weekday and the zone. */
  lemma {:induction false} ZoneIsNotNamed(st: Store, weekday: string, m: string, d: string, time: string, zone: string, y: string)
    requires IsWord(weekday) && IsWord(m) && IsWord(d) && IsWord(time) && IsWord(zone) && IsWord(y)
    ensures ChunkAt(st, StampText(weekday, m, d, time, zone, y)) == ChunkPath(st, m, d, y, time)
  {
    hide Fields, ChunkPath, StampText;
    FieldsOfStamp(weekday, m, d, time, zone, y);
    ChunkAtIsPath(st, StampText(weekday, m, d, time, zone, y));
  }

  function LineNames(st: Store, ls: seq<string>): seq<string> {
    seq(|ls|, i requires 0 <= i < |ls| => ChunkName(st, ls[i]))
  }

  /** Once a name has been left, it does not come back. */
  ghost predicate NeverRecurs(names: seq<string>) {
    forall i, j, k :: 0 <= i <= j <= k < |names| && names[i] == names[k] ==> names[j] == names[k]
  }

  /** When time never goes backwards, no chunk name comes back after it has been left. */
  lemma {:induction false} TimeOrderNeverRecurs(st: Store, ls: seq<string>)
    requires InTimeOrder(ls)
    ensures NeverRecurs(LineNames(st, ls))
  {
    hide DateStamp, MomentOf, ChunkAt, StampOf;
    var names := LineNames(st, ls);
    forall i, j, k | 0 <= i <= j <= k < |names| && names[i] == names[k] ensures names[j] == names[k] {
      if i < j < k {
        var a, b, c := StampOf(ls[i]), StampOf(ls[j]), StampOf(ls[k]);
        NamesAreMoments(st, a, c);
        NamesAreMoments(st, b, c);
        assert NotAfter(MomentOf(a), MomentOf(b)) && NotAfter(MomentOf(b), MomentOf(c));
      }
    }
  }

  // ----- stretches of a log -----

  ghost predicate AllIn(a: seq<string>, b: seq<string>) {
    forall i :: 0 <= i < |a| ==> a[i] in b
  }

  lemma {:induction false} OrderSplit(a: seq<string>, b: seq<string>)
    requires InTimeOrder(a + b)
    ensures InTimeOrder(a) && InTimeOrder(b)
  {
    hide DateStamp, MomentOf, StampOf, NotAfter;
    var all := a + b;
    assert forall i :: 0 <= i < |a| ==> a[i] == all[i];
    assert forall i :: 0 <= i < |b| ==> b[i] == all[|a| + i];
  }

  /** Lines picked in order from two stretches of an ordered log are in order together. */
  lemma {:induction false} OrderJoin(a: seq<string>, b: seq<string>, c: seq<string>, d: seq<string>)
    requires InTimeOrder(a + b) && InTimeOrder(c) && InTimeOrder(d)
    requires AllIn(c, a) && AllIn(d, b)
    ensures InTimeOrder(c + d) && AllIn(c + d, a + b)
  {
    hide DateStamp, MomentOf, StampOf, NotAfter;
    var all, picked := a + b, c + d;
    forall i | 0 <= i < |picked| ensures picked[i] in all {
      if i < |c| {
        assert c[i] in a;
      } else {
        assert d[i - |c|] in b;
      }
    }
    forall i, j | 0 <= i < j < |picked| && DateStamp(StampOf(picked[i])) && DateStamp(StampOf(picked[j]))
      ensures NotAfter(MomentOf(StampOf(picked[i])), MomentOf(StampOf(picked[j])))
    {
      if j < |c| {
        assert picked[i] == c[i] && picked[j] == c[j];
      } else if i >= |c| {
        assert picked[i] == d[i - |c|] && picked[j] == d[j - |c|];
      } else {
        assert c[i] in a && d[j - |c|] in b;
        var x :| 0 <= x < |a| && a[x] == c[i];
        var y :| 0 <= y < |b| && b[y] == d[j - |c|];
        assert all[x] == picked[i] && all[|a| + y] == picked[j];
      }
    }
  }
}
