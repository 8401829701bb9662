/**
  The metadata record of a file as text (lfs_fuse.c): the printer, and the parser
  made of the sscanf conversions the file system uses. Strings end where C's
  terminating NUL would be.
*/
module Metadata {
  import opened Ballots

  datatype Mdata = Mdata(name: string, paths: seq<string>, size: int)

  // ----- scanning -----

  predicate IsSpace(c: char) {
    c in {' ', '\n', '\t', '\r', '\U{0B}', '\U{0C}'}
  }

  predicate IsDigit(c: char) {
    '0' <= c <= '9'
  }

  predicate InWord(c: char) {
    !IsSpace(c)
  }

  predicate InPath(c: char) {
    c != ';'
  }

  ghost predicate All(s: string, p: char -> bool) {
    forall i :: 0 <= i < |s| ==> p(s[i])
  }

  /** The length of the longest prefix whose characters all satisfy p. */
  function Span(s: string, p: char -> bool): (k: nat)
    ensures k <= |s| && All(s[..k], p) && (k < |s| ==> !p(s[k]))
  {
    if |s| == 0 || !p(s[0]) then 0 else 1 + Span(s[1..], p)
  }

  lemma {:induction false} SpanOf(a: string, b: string, p: char -> bool)
    requires All(a, p) && (|b| > 0 ==> !p(b[0]))
    ensures Span(a + b, p) == |a|
  {
    if |a| > 0 {
      SpanOf(a[1..], b, p);
      assert (a + b)[1..] == a[1..] + b;
    } else {
      assert a + b == b;
    }
  }

  /** Any amount of white space, as a blank or newline in a format matches it. */
  function SkipSpace(s: string): string {
    s[Span(s, IsSpace)..]
  }

  function Literal(s: string, text: string): Option<string> {
    if text <= s then Some(s[|text|..]) else None
  }

  /** %s: the word and what follows it. */
  function Word(s: string): Option<(string, string)> {
    var t := SkipSpace(s);
    var k := Span(t, InWord);
    if k == 0 then None else Some((t[..k], t[k..]))
  }

  function DigitsValue(s: string): int
    requires All(s, IsDigit)
  {
    if |s| == 0 then 0
    else 10 * DigitsValue(s[..|s| - 1]) + (s[|s| - 1] as int - '0' as int)
  }

  /** %d: the number and what follows it. */
  function Number(s: string): Option<(int, string)> {
    var t := SkipSpace(s);
    var signed := |t| > 0 && (t[0] == '-' || t[0] == '+');
    var u := if signed then t[1..] else t;
    var k := Span(u, IsDigit);
    if k == 0 then None
    else Some((if signed && t[0] == '-' then -DigitsValue(u[..k]) else DigitsValue(u[..k]), u[k..]))
  }

  // ----- the parser -----

  datatype Header = Header(name: string, numPaths: int, size: int, paths: string)

  /** "Filename:%s\n" */
  function ScanName(s: string): Option<(string, string)> {
    match Literal(s, "Filename:")
    case None => None
    case Some(t) =>
      match Word(t)
      case None => None
      case Some(w) => Some((w.0, SkipSpace(w.1)))
  }

  /** A label, "%d\n" */
  function ScanCount(s: string, text: string): Option<(int, string)> {
    match Literal(s, text)
    case None => None
    case Some(t) =>
      match Number(t)
      case None => None
      case Some(n) => Some((n.0, SkipSpace(n.1)))
  }

  /** "Paths:%s" */
  function ScanPaths(s: string): Option<string> {
    match Literal(s, "Paths:")
    case None => None
    case Some(t) =>
      match Word(t)
      case None => None
      case Some(w) => Some(w.0)
  }

  /** The format of mdata_from_disk_to_memory; None unless all four conversions succeed. */
  function ScanHeader(buf: string): Option<Header> {
    match ScanName(buf)
    case None => None
    case Some(name) =>
      match ScanCount(name.1, "NumPaths:")
      case None => None
      case Some(num) =>
        match ScanCount(num.1, "Size:")
        case None => None
        case Some(size) =>
          match ScanPaths(size.1)
          case None => None
          case Some(paths) => Some(Header(name.0, num.0, size.0, paths))
  }

  /** The first n ';'-terminated pieces; None when the text ends before them. */
  function SplitPaths(text: string, n: int): Option<seq<string>>
    decreases if n < 0 then 0 else n
  {
    if n <= 0 then Some([])
    else
      var k := Span(text, InPath);
      if k == |text| then None
      else Prepend([text[..k]], SplitPaths(text[k + 1..], n - 1))
  }

  function Prepend<T>(l: seq<T>, o: Option<seq<T>>): Option<seq<T>> {
    match o
    case None => None
    case Some(r) => Some(l + r)
  }

  lemma {:induction false} PrependTwice<T>(a: seq<T>, b: seq<T>, o: Option<seq<T>>)
    ensures Prepend(a + b, o) == Prepend(a, Prepend(b, o))
    ensures Prepend([], o) == o
  {
    if o.Some? {
      assert a + b + o.value == a + (b + o.value) && [] + o.value == o.value;
    }
  }

  function Parse(buf: string): Option<Mdata> {
    match ScanHeader(buf)
    case None => None
    case Some(h) =>
      match SplitPaths(h.paths, h.numPaths)
      case None => None
      case Some(paths) => Some(Mdata(h.name, paths, h.size))
  }

  // ----- the printer -----

  function DecNat(n: nat): (s: string)
    ensures |s| > 0 && All(s, IsDigit)
  {
    var last := [(n % 10 + '0' as int) as char];
    if n < 10 then last else DecNat(n / 10) + last
  }

  function Dec(n: int): string {
    if n < 0 then "-" + DecNat(-n) else DecNat(n)
  }

  function JoinPaths(paths: seq<string>): string {
    if |paths| == 0 then "" else paths[0] + ";" + JoinPaths(paths[1..])
  }

  function Print(m: Mdata): string {
    "Filename:" + m.name + "\nNumPaths:" + Dec(|m.paths|) + "\nSize:" + Dec(m.size)
    + "\nPaths:" + JoinPaths(m.paths) + "\n"
  }

  /** Names that %s reads back, and paths that the ';' loop reads back. */
  ghost predicate Printable(m: Mdata) {
    && |m.name| > 0 && All(m.name, InWord)
    && forall i :: 0 <= i < |m.paths| ==> All(m.paths[i], InWord) && All(m.paths[i], InPath)
  }

  // ----- the round trip -----

  lemma {:induction false} DecNatValue(n: nat)
    ensures DigitsValue(DecNat(n)) == n
  {
    if n >= 10 {
      DecNatValue(n / 10);
      assert DecNat(n)[..|DecNat(n)| - 1] == DecNat(n / 10);
    } else {
      assert DecNat(n)[..0] == "";
    }
  }

  /** Digits as a number is printed: no zero in front. */
  predicate Canonical(t: string) {
    |t| > 0 && (|t| > 1 ==> t[0] != '0') && forall i :: 0 <= i < |t| ==> '0' <= t[i] <= '9'
  }

  /** A printed number has no leading zero. */
  lemma {:induction false} PrintsCanonical(n: nat)
    ensures Canonical(DecNat(n)) && (DecNat(n)[0] == '0' <==> n == 0)
  {
    if n >= 10 {
      PrintsCanonical(n / 10);
    }
  }

  lemma {:induction false} ValuePositive(t: string)
    requires |t| > 0 && All(t, IsDigit)
    ensures DigitsValue(t) >= 0 && (t[0] != '0' ==> DigitsValue(t) > 0)
  {
    if |t| > 1 {
      ValuePositive(t[..|t| - 1]);
    } else {
      assert t[..0] == "";
      assert IsDigit(t[0]);
    }
  }

  /** It is the only such text of its value. */
  lemma {:induction false} CanonicalIsPrinted(t: string)
    requires Canonical(t)
    ensures All(t, IsDigit) && DigitsValue(t) >= 0 && DecNat(DigitsValue(t)) == t
  {
    assert All(t, IsDigit);
    ValuePositive(t);
    var front, last := t[..|t| - 1], t[|t| - 1];
    assert t == front + [last];
    if |t| > 1 {
      ValuePositive(front);
      CanonicalIsPrinted(front);
      var v, d := DigitsValue(front), last as int - '0' as int;
      assert DigitsValue(t) == 10 * v + d && v > 0 && 0 <= d < 10;
      assert (10 * v + d) / 10 == v && (10 * v + d) % 10 == d;
    } else {
      assert DigitsValue(front) == 0;
    }
  }

  /** A blank in front of a text that starts with a word character is skipped, and no more. */
  lemma {:induction false} SkipNothing(s: string)
    requires |s| > 0 ==> !IsSpace(s[0])
    ensures SkipSpace(s) == s
  {
    SpanOf("", s, IsSpace);
    assert "" + s == s;
  }

  lemma {:induction false} SkipNewline(s: string)
    requires |s| > 0 ==> !IsSpace(s[0])
    ensures SkipSpace("\n" + s) == s
  {
    SpanOf("\n", s, IsSpace);
  }

  lemma {:induction false} WordReads(w: string, rest: string)
    requires |w| > 0 && All(w, InWord) && (|rest| > 0 ==> IsSpace(rest[0]))
    ensures Word(w + rest) == Some((w, rest))
  {
    SkipNothing(w + rest);
    SpanOf(w, rest, InWord);
    assert (w + rest)[..|w|] == w && (w + rest)[|w|..] == rest;
  }

  /** Any white space in front of a word is skipped. */
  lemma {:induction false} WordBehindSpace(ws: string, w: string, rest: string)
    requires forall i :: 0 <= i < |ws| ==> ws[i] in {' ', '\t', '\n', '\r', 11 as char, 12 as char}
    requires |w| > 0 && All(w, InWord) && (|rest| > 0 ==> IsSpace(rest[0]))
    ensures Word(ws + (w + rest)) == Some((w, rest))
  {
    assert All(ws, IsSpace);
    assert InWord(w[0]);
    SpanOf(ws, w + rest, IsSpace);
    assert (ws + (w + rest))[|ws|..] == w + rest;
    SpanOf(w, rest, InWord);
    assert (w + rest)[..|w|] == w && (w + rest)[|w|..] == rest;
  }

  lemma {:induction false} DigitsRead(d: string, rest: string)
    requires |d| > 0 && All(d, IsDigit) && (|rest| > 0 ==> !IsDigit(rest[0]))
    ensures Number(d + rest) == Some((DigitsValue(d), rest))
    ensures Number("-" + (d + rest)) == Some((-DigitsValue(d), rest))
  {
    assert IsDigit(d[0]);
    SkipNothing(d + rest);
    SkipNothing("-" + (d + rest));
    SpanOf(d, rest, IsDigit);
    assert (d + rest)[..|d|] == d && (d + rest)[|d|..] == rest;
    assert ("-" + (d + rest))[1..] == d + rest;
  }

  lemma {:induction false} NumberReads(n: int, rest: string)
    requires |rest| > 0 ==> !IsDigit(rest[0])
    ensures Number(Dec(n) + rest) == Some((n, rest))
  {
    hide DecNat, DigitsValue, Number;
    var d := DecNat(if n < 0 then -n else n);
    DecNatValue(if n < 0 then -n else n);
    DigitsRead(d, rest);
    assert n < 0 ==> Dec(n) + rest == "-" + (d + rest);
  }

  /** So is any in front of a number, which may have a sign. */
  lemma {:induction false} NumberBehindSpace(ws: string, d: string, rest: string)
    requires forall i :: 0 <= i < |ws| ==> ws[i] in {' ', '\t', '\n', '\r', 11 as char, 12 as char}
    requires |d| > 0 && All(d, IsDigit) && (|rest| > 0 ==> !IsDigit(rest[0]))
    ensures Number(ws + (d + rest)) == Some((DigitsValue(d), rest))
    ensures Number(ws + ("+" + (d + rest))) == Some((DigitsValue(d), rest))
    ensures Number(ws + ("-" + (d + rest))) == Some((-DigitsValue(d), rest))
  {
    hide DigitsValue, Number;
    assert All(ws, IsSpace);
    assert IsDigit(d[0]);
    DigitsRead(d, rest);
    PlusRead(d, rest);
    NumberSkips(ws, d + rest);
    NumberSkips(ws, "+" + (d + rest));
    NumberSkips(ws, "-" + (d + rest));
  }

  lemma {:induction false} NumberSkips(ws: string, s: string)
    requires All(ws, IsSpace) && |s| > 0 && !IsSpace(s[0])
    ensures Number(ws + s) == Number(s)
  {
    hide DigitsValue, SkipSpace;
    SkippedSpace(ws, s);
    SkipNothing(s);
  }

  lemma {:induction false} PlusRead(d: string, rest: string)
    requires |d| > 0 && All(d, IsDigit) && (|rest| > 0 ==> !IsDigit(rest[0]))
    ensures Number("+" + (d + rest)) == Some((DigitsValue(d), rest))
  {
    SkipNothing("+" + (d + rest));
    SpanOf(d, rest, IsDigit);
    assert (d + rest)[..|d|] == d && (d + rest)[|d|..] == rest;
    assert ("+" + (d + rest))[1..] == d + rest;
  }

  lemma {:induction false} SkippedSpace(ws: string, s: string)
    requires All(ws, IsSpace) && (|s| > 0 ==> !IsSpace(s[0]))
    ensures SkipSpace(ws + s) == s
  {
    SpanOf(ws, s, IsSpace);
  }

  lemma {:induction false} SplitStep(head: string, tail: string, n: int)
    requires All(head, InPath) && n > 0
    ensures SplitPaths(head + ";" + tail, n) == Prepend([head], SplitPaths(tail, n - 1))
  {
    var text := head + ";" + tail;
    assert text == head + (";" + tail);
    SpanOf(head, ";" + tail, InPath);
    assert text[..|head|] == head && text[|head| + 1..] == tail;
  }

  lemma {:induction false} SplitReads(paths: seq<string>)
    requires forall i :: 0 <= i < |paths| ==> All(paths[i], InPath)
    ensures SplitPaths(JoinPaths(paths), |paths|) == Some(paths)
  {
    if |paths| > 0 {
      SplitReads(paths[1..]);
      SplitStep(paths[0], JoinPaths(paths[1..]), |paths|);
      assert paths == [paths[0]] + paths[1..];
    }
  }

  lemma {:induction false} JoinInWord(paths: seq<string>)
    requires forall i :: 0 <= i < |paths| ==> All(paths[i], InWord)
    ensures All(JoinPaths(paths), InWord)
    ensures |paths| > 0 ==> |JoinPaths(paths)| > 0
  {
    if |paths| > 0 {
      JoinInWord(paths[1..]);
    }
  }

  lemma {:induction false} LiteralReads(text: string, rest: string)
    ensures Literal(text + rest, text) == Some(rest)
  {
  }

  lemma {:induction false} NameReads(name: string, rest: string)
    requires |name| > 0 && All(name, InWord) && (|rest| > 0 ==> !IsSpace(rest[0]))
    ensures ScanName("Filename:" + (name + ("\n" + rest))) == Some((name, rest))
  {
    LiteralReads("Filename:", name + ("\n" + rest));
    WordReads(name, "\n" + rest);
    SkipNewline(rest);
  }

  lemma {:induction false} CountReads(text: string, n: int, rest: string)
    requires |rest| > 0 ==> !IsSpace(rest[0])
    ensures ScanCount(text + (Dec(n) + ("\n" + rest)), text) == Some((n, rest))
  {
    LiteralReads(text, Dec(n) + ("\n" + rest));
    NumberReads(n, "\n" + rest);
    SkipNewline(rest);
  }

  /** Scanning a printed header leaves exactly the text after "Paths:" to be read. */
  lemma {:induction false} HeaderReads(m: Mdata, rest: string)
    requires Printable(m)
    ensures ScanHeader(Print(m) + rest) ==
              match Word(JoinPaths(m.paths) + "\n" + rest)
              case None => None
              case Some(w) => Some(Header(m.name, |m.paths|, m.size, w.0))
  {
    hide ScanName, ScanCount, Word, Dec, JoinPaths;
    var r3 := JoinPaths(m.paths) + "\n" + rest;
    var r2 := "Paths:" + r3;
    var r1 := "Size:" + (Dec(m.size) + ("\n" + r2));
    var r0 := "NumPaths:" + (Dec(|m.paths|) + ("\n" + r1));
    assert Print(m) + rest == "Filename:" + (m.name + ("\n" + r0));
    NameReads(m.name, r0);
    CountReads("NumPaths:", |m.paths|, r1);
    CountReads("Size:", m.size, r2);
    LiteralReads("Paths:", r3);
  }

  lemma {:induction false} ParseWithPaths(m: Mdata, leftover: string)
    requires Printable(m) && |m.paths| > 0
    ensures Parse(Print(m) + leftover) == Some(m)
  {
    hide Print, ScanHeader, JoinPaths, Word;
    HeaderReads(m, leftover);
    var joined := JoinPaths(m.paths);
    JoinInWord(m.paths);
    assert joined + "\n" + leftover == joined + ("\n" + leftover);
    WordReads(joined, "\n" + leftover);
    SplitReads(m.paths);
  }

  lemma {:induction false} WordInLeftover(leftover: string)
    ensures Word("\n" + leftover).None? <==> All(leftover, IsSpace)
  {
    var s := "\n" + leftover;
    var k := Span(s, IsSpace);
    if All(leftover, IsSpace) {
      SpanOf(s, "", IsSpace);
      assert s + "" == s;
    } else {
      var i :| 0 <= i < |leftover| && !IsSpace(leftover[i]);
      assert s[i + 1] == leftover[i] && s[..|s|] == s;
      assert k < |s|;
      assert InWord(s[k..][0]);
    }
  }

  lemma {:induction false} ParseWithoutPaths(m: Mdata, leftover: string)
    requires Printable(m) && |m.paths| == 0
    ensures Parse(Print(m) + leftover) == if All(leftover, IsSpace) then None else Some(m)
  {
    hide Print, ScanHeader, Word;
    HeaderReads(m, leftover);
    WordInLeftover(leftover);
    assert JoinPaths(m.paths) + "\n" + leftover == "\n" + leftover;
  }

  /** Reading back what was printed, followed by whatever an older, longer file or the
      stack left behind it. With at least one path the leftover does not matter; without
      one, reading fails unless the leftover happens to contain a word. */
  lemma {:induction false} ParseAfterPrint(m: Mdata, leftover: string)
    requires Printable(m)
    ensures Parse(Print(m) + leftover) ==
              if |m.paths| > 0 || !All(leftover, IsSpace) then Some(m) else None
  {
    hide Print, Parse;
    if |m.paths| > 0 {
      ParseWithPaths(m, leftover);
    } else {
      ParseWithoutPaths(m, leftover);
    }
  }

  // ----- the loops -----

  method FindSeparator(text: string, start: nat) returns (j: nat)
    requires start <= |text|
    ensures start <= j <= |text| && All(text[start..j], InPath)
    ensures j == |text| ==> text[start..] == text[start..j] + ""
    ensures j < |text| ==> text[start..] == text[start..j] + ";" + text[j + 1..]
  {
    j := start;
    while j < |text| && text[j] != ';'
      invariant start <= j <= |text|
      invariant forall k :: start <= k < j ==> text[k] != ';'
    {
      j := j + 1;
    }
  }

  lemma {:induction false} SplitEnds(done: seq<string>, head: string, n: int)
    ensures n <= 0 ==> Prepend(done, SplitPaths(head, n)) == Some(done)
    ensures n > 0 && All(head, InPath) ==> Prepend(done, SplitPaths(head + "", n)) == None
  {
    assert done + [] == done;
    if n > 0 && All(head, InPath) {
      SpanOf(head, "", InPath);
    }
  }

  method SplitPathsLoop(text: string, numPaths: int) returns (path: Option<seq<string>>)
    ensures path == SplitPaths(text, numPaths)
  {
    hide SplitPaths, Prepend;
    var done: seq<string> := [];
    var j, i := 0, 0;
    assert text[0..] == text;
    PrependTwice([], [], SplitPaths(text, numPaths));
    while i < numPaths
      invariant 0 <= j <= |text| && 0 <= i && (numPaths > 0 ==> i <= numPaths) && (numPaths <= 0 ==> i == 0)
      invariant SplitPaths(text, numPaths) == Prepend(done, SplitPaths(text[j..], numPaths - i))
    {
      var end := FindSeparator(text, j);
      var found := text[j..end];
      if end == |text| {
        SplitEnds(done, found, numPaths - i);
        return None;
      }
      SplitStep(found, text[end + 1..], numPaths - i);
      PrependTwice(done, [found], SplitPaths(text[end + 1..], numPaths - i - 1));
      j := end + 1;
      done := done + [found];
      i := i + 1;
    }
    SplitEnds(done, text[j..], numPaths - i);
    path := Some(done);
  }

  method PrintLoop(m: Mdata) returns (buf: string)
    ensures buf == Print(m)
  {
    buf := "Filename:" + m.name + "\nNumPaths:" + Dec(|m.paths|) + "\nSize:" + Dec(m.size) + "\nPaths:";
    ghost var head := buf;
    for i := 0 to |m.paths|
      invariant buf + JoinPaths(m.paths[i..]) == head + JoinPaths(m.paths)
    {
      assert m.paths[i..][0] == m.paths[i] && m.paths[i..][1..] == m.paths[i + 1..];
      assert buf + (m.paths[i] + ";" + JoinPaths(m.paths[i + 1..]))
             == (buf + m.paths[i] + ";") + JoinPaths(m.paths[i + 1..]);
      buf := buf + m.paths[i] + ";";
    }
    buf := buf + "\n";
  }
}
