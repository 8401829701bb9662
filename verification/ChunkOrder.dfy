/**
  When the chunk files of a log, read in path order, are the pieces in the order in
  which they were written: exactly when no chunk name comes back after another one
  (write_buffer_to_disk in Cache.c).
*/
module ChunkOrder {
  import opened Flush
  import opened LogTime
  import opened LogStore

  /** The texts of the pieces of this path, one behind the other. */
  function TextOf(ps: seq<Piece>, path: string): string {
    if |ps| == 0 then ""
    else (if ps[0].path == path then ps[0].text else "") + TextOf(ps[1..], path)
  }

  /** The names in the order of their first occurrence. */
  function Firsts(names: seq<string>): seq<string> {
    if |names| == 0 then []
    else
      var before, last := Firsts(names[..|names| - 1]), names[|names| - 1];
      if last in before then before else before + [last]
  }

  function TextsOf(ps: seq<Piece>, paths: seq<string>): seq<string> {
    seq(|paths|, i requires 0 <= i < |paths| => TextOf(ps, paths[i]))
  }

  lemma {:induction false} FirstsMembers(names: seq<string>)
    ensures forall x :: x in Firsts(names) <==> x in names
  {
    if |names| > 0 {
      FirstsMembers(names[..|names| - 1]);
      assert names == names[..|names| - 1] + [names[|names| - 1]];
    }
  }

  lemma {:induction false} TextOfJoin(a: seq<Piece>, b: seq<Piece>, path: string)
    ensures TextOf(a + b, path) == TextOf(a, path) + TextOf(b, path)
  {
    if |a| == 0 {
      assert a + b == b;
      assert TextOf(a, path) + TextOf(b, path) == TextOf(b, path);
    } else {
      hide TextOf;
      TextOfJoin(a[1..], b, path);
      assert (a + b)[1..] == a[1..] + b;
      TextOfCons(a, path);
      TextOfCons(a + b, path);
      Reassociate(if a[0].path == path then a[0].text else "", TextOf(a[1..], path), TextOf(b, path));
    }
  }

  lemma {:induction false} TextOfCons(ps: seq<Piece>, path: string)
    requires |ps| > 0
    ensures TextOf(ps, path) == (if ps[0].path == path then ps[0].text else "") + TextOf(ps[1..], path)
  {
  }

  lemma {:induction false} TextOfOther(ps: seq<Piece>, path: string)
    requires path !in Names(ps)
    ensures TextOf(ps, path) == ""
  {
    if |ps| > 0 {
      assert Names(ps)[0] == ps[0].path;
      assert forall i :: 0 <= i < |ps| - 1 ==> Names(ps[1..])[i] == Names(ps)[i + 1];
      TextOfOther(ps[1..], path);
    }
  }

  lemma {:induction false} TextOfSnoc(front: seq<Piece>, p: Piece, path: string)
    ensures TextOf(front + [p], path) == TextOf(front, path) + if p.path == path then p.text else ""
  {
    TextOfJoin(front, [p], path);
    assert [p][1..] == [];
    assert TextOf([p], path) == (if p.path == path then p.text else "") + TextOf([], path);
  }

  lemma {:induction false} WritePiecesSnoc(f: File, front: seq<Piece>, p: Piece)
    ensures WritePieces(f, front + [p]) == WritePiece(WritePieces(f, front), p)
  {
    assert (front + [p])[..|front + [p]| - 1] == front;
  }

  lemma {:induction false} FirstsSnoc(names: seq<string>, x: string)
    ensures Firsts(names + [x]) == if x in Firsts(names) then Firsts(names) else Firsts(names) + [x]
  {
    assert (names + [x])[..|names + [x]| - 1] == names;
  }

  /** The chunk files list the names by first occurrence. */
  lemma {:induction false} PathsAreFirsts(ps: seq<Piece>)
    ensures WritePieces(FRESH, ps).paths == Firsts(Names(ps))
  {
    if |ps| > 0 {
      hide WritePieces, Firsts, Listed;
      var front, p := ps[..|ps| - 1], ps[|ps| - 1];
      PathsAreFirsts(front);
      PiecesAreListed(front);
      FirstsMembers(Names(front));
      NamesSnoc(ps);
      assert ps == front + [p];
      WritePiecesSnoc(FRESH, front, p);
      FirstsSnoc(Names(front), p.path);
    }
  }

  /** A chunk holds all texts of its name. */
  lemma {:induction false} ChunkIsText(ps: seq<Piece>, q: string)
    requires q in WritePieces(FRESH, ps).disk
    ensures WritePieces(FRESH, ps).disk[q] == TextOf(ps, q)
  {
    if |ps| > 0 {
      hide WritePieces, TextOf, Listed;
      var front, p := ps[..|ps| - 1], ps[|ps| - 1];
      PiecesAreListed(front);
      assert ps == front + [p];
      WritePiecesSnoc(FRESH, front, p);
      TextOfSnoc(front, p, q);
      if q in WritePieces(FRESH, front).disk {
        ChunkIsText(front, q);
        assert TextOf(front, q) + "" == TextOf(front, q);
      } else {
        TextOfOther(front, q);
        assert "" + p.text == p.text;
      }
    }
  }

  lemma {:induction false} ContentsAreTexts(ps: seq<Piece>)
    ensures
      var f := WritePieces(FRESH, ps);
      Listed(f) && Chunks(f.disk, f.paths) == TextsOf(ps, Firsts(Names(ps)))
  {
    hide TextOf, Firsts, WritePieces;
    PiecesAreListed(ps);
    PathsAreFirsts(ps);
    var f := WritePieces(FRESH, ps);
    forall i | 0 <= i < |f.paths| ensures f.disk[f.paths[i]] == TextOf(ps, f.paths[i]) {
      ChunkIsText(ps, f.paths[i]);
    }
  }

  // ----- from contents to names -----

  /** A piece tells its name: a piece of another name does not start with it. */
  ghost predicate Apart(ps: seq<Piece>) {
    forall i, j :: 0 <= i < |ps| && 0 <= j < |ps| && ps[i].path != ps[j].path ==> !(ps[i].text <= ps[j].text)
  }

  lemma {:induction false} FrontsAgree(x: string, u: string, y: string, v: string)
    requires x + u == y + v
    ensures x <= y || y <= x
  {
    var s := x + u;
    assert x == s[..|x|] && y == s[..|y|];
  }

  lemma {:induction false} FirstText(ps: seq<Piece>, path: string) returns (i: nat, more: string)
    requires path in Names(ps)
    ensures i < |ps| && ps[i].path == path && TextOf(ps, path) == ps[i].text + more
  {
    if ps[0].path == path {
      i, more := 0, TextOf(ps[1..], path);
    } else {
      var k :| 0 <= k < |Names(ps)| && Names(ps)[k] == path;
      assert Names(ps[1..])[k - 1] == path;
      i, more := FirstText(ps[1..], path);
      i := i + 1;
    }
  }

  lemma {:induction false} ConcatCons(x: string, l: seq<string>)
    ensures Concat([x] + l) == x + Concat(l)
  {
    ConcatJoin([x], l);
    ConcatOne(x);
  }

  /** A name that has been left and is back would put its text where another piece's is. */
  lemma {:induction false} LeftForGood(ps: seq<Piece>, path: string, more: string)
    requires Apart(ps) && |ps| > 0 && ps[0].path != path
    requires TextOf(ps, path) + more == Concat(Texts(ps))
    ensures path !in Names(ps)
  {
    hide TextOf, Concat;
    if path in Names(ps) {
      var i, rest := FirstText(ps, path);
      assert Texts(ps) == [ps[0].text] + Texts(ps[1..]);
      ConcatCons(ps[0].text, Texts(ps[1..]));
      assert ps[i].text + rest + more == ps[i].text + (rest + more);
      FrontsAgree(ps[i].text, rest + more, ps[0].text, Concat(Texts(ps[1..])));
      assert false;
    }
  }

  ghost predicate AllNamed(ps: seq<Piece>, path: string) {
    forall i :: 0 <= i < |ps| ==> ps[i].path == path
  }

  lemma {:induction false} TextOfRun(run: seq<Piece>, path: string)
    requires AllNamed(run, path)
    ensures TextOf(run, path) == Concat(Texts(run))
    ensures forall q :: q != path ==> TextOf(run, q) == ""
  {
    hide Concat;
    if |run| == 0 {
      assert Texts(run) == [];
      ConcatNone();
    } else {
      TextOfRun(run[1..], path);
      assert Texts(run) == [run[0].text] + Texts(run[1..]);
      ConcatCons(run[0].text, Texts(run[1..]));
    }
  }

  lemma {:induction false} ConcatNone()
    ensures Concat([]) == ""
  {
  }

  lemma {:induction false} FirstsOfRun(a: seq<string>, b: seq<string>, x: string)
    requires |a| > 0 && (forall i :: 0 <= i < |a| ==> a[i] == x) && x !in b
    ensures Firsts(a + b) == [x] + Firsts(b)
    decreases |a| + |b|
  {
    if |b| == 0 {
      assert a + b == a;
      if |a| > 1 {
        FirstsOfRun(a[..|a| - 1], [], x);
        assert a[..|a| - 1] + [] == a[..|a| - 1];
      }
    } else {
      FirstsOfRun(a, b[..|b| - 1], x);
      assert (a + b)[..|a + b| - 1] == a + b[..|b| - 1];
    }
  }

  lemma {:induction false} FirstOfFirsts(names: seq<string>)
    requires |names| > 0
    ensures |Firsts(names)| > 0 && Firsts(names)[0] == names[0]
  {
    if |names| > 1 {
      FirstOfFirsts(names[..|names| - 1]);
    }
  }

  lemma {:induction false} RunLength(ps: seq<Piece>, path: string) returns (k: nat)
    ensures k <= |ps| && AllNamed(ps[..k], path) && (k < |ps| ==> ps[k].path != path)
    ensures |ps| > 0 && ps[0].path == path ==> k > 0
  {
    k := 0;
    while k < |ps| && ps[k].path == path
      invariant k <= |ps| && AllNamed(ps[..k], path)
    {
      k := k + 1;
    }
  }

  lemma {:induction false} RunNeverRecurs(a: seq<string>, b: seq<string>, x: string)
    requires (forall i :: 0 <= i < |a| ==> a[i] == x) && x !in b && NeverRecurs(b)
    ensures NeverRecurs(a + b)
  {
    var all := a + b;
    assert forall k :: |a| <= k < |all| ==> all[k] == b[k - |a|] && b[k - |a|] != x;
    assert forall k :: 0 <= k < |a| ==> all[k] == x;
    forall i, j, k | 0 <= i <= j <= k < |all| && all[i] == all[k] ensures all[j] == all[k] {
      if i >= |a| {
        assert b[i - |a|] == b[k - |a|];
        assert b[j - |a|] == b[k - |a|];
      }
    }
  }

  /** The first run of equal names: the contents start with it, and what is left of them
      are the contents that the rest alone would have, if the name does not come back. */
  lemma {:induction false} PeelRun(run: seq<Piece>, rest: seq<Piece>, path: string)
    requires |run| > 0 && AllNamed(run, path)
    ensures Concat(Texts(run + rest)) == Concat(Texts(run)) + Concat(Texts(rest))
    ensures exists more :: Concat(TextsOf(run + rest, Firsts(Names(run + rest)))) == Concat(Texts(run)) + (TextOf(rest, path) + more)
    ensures path !in Names(rest) ==>
              Concat(TextsOf(run + rest, Firsts(Names(run + rest))))
              == Concat(Texts(run)) + Concat(TextsOf(rest, Firsts(Names(rest))))
  {
    hide Concat, TextOf, Firsts;
    var ps := run + rest;
    assert Texts(ps) == Texts(run) + Texts(rest) && Names(ps) == Names(run) + Names(rest);
    ConcatJoin(Texts(run), Texts(rest));
    TextOfRun(run, path);
    TextOfJoin(run, rest, path);
    FirstOfFirsts(Names(ps));
    var tail := Firsts(Names(ps))[1..];
    assert Firsts(Names(ps)) == [path] + tail;
    assert TextsOf(ps, [path] + tail) == [TextOf(ps, path)] + TextsOf(ps, tail);
    ConcatCons(TextOf(ps, path), TextsOf(ps, tail));
    Reassociate(Concat(Texts(run)), TextOf(rest, path), Concat(TextsOf(ps, tail)));
    if path !in Names(rest) {
      FirstsOfRun(Names(run), Names(rest), path);
      assert tail == Firsts(Names(rest));
      FirstsMembers(Names(rest));
      TextOfOther(rest, path);
      forall i | 0 <= i < |tail| ensures TextOf(ps, tail[i]) == TextOf(rest, tail[i]) {
        assert tail[i] in Names(rest);
        TextOfJoin(run, rest, tail[i]);
      }
      assert TextsOf(ps, tail) == TextsOf(rest, tail);
      assert Concat(Texts(run)) + "" == Concat(Texts(run));
    }
  }

  lemma {:induction false} InOrderNeverRecurs(ps: seq<Piece>)
    requires Apart(ps) && Concat(TextsOf(ps, Firsts(Names(ps)))) == Concat(Texts(ps))
    ensures NeverRecurs(Names(ps))
    decreases |ps|
  {
    hide Concat, TextOf, Firsts, TextsOf, NeverRecurs;
    if |ps| == 0 {
      NothingRecurs();
      assert ps == [];
    } else {
      var path := ps[0].path;
      var k := RunLength(ps, path);
      var run, rest := ps[..k], ps[k..];
      assert ps == run + rest;
      PeelRun(run, rest, path);
      var more :| Concat(TextsOf(ps, Firsts(Names(ps)))) == Concat(Texts(run)) + (TextOf(rest, path) + more);
      SameRest(Concat(Texts(run)), TextOf(rest, path) + more, Concat(Texts(rest)));
      if |rest| > 0 {
        LeftForGood(rest, path, more);
      }
      SameRest(Concat(Texts(run)), Concat(TextsOf(rest, Firsts(Names(rest)))), Concat(Texts(rest)));
      InOrderNeverRecurs(rest);
      assert Names(ps) == Names(run) + Names(rest);
      RunNeverRecurs(Names(run), Names(rest), path);
    }
  }

  /** The chunk files in path order are the pieces in writing order exactly when no name
      comes back after it has been left. */
  lemma {:induction false} ContentsInOrderExactly(ps: seq<Piece>)
    requires Apart(ps)
    ensures
      var f := WritePieces(FRESH, ps);
      Listed(f) && (Concat(Chunks(f.disk, f.paths)) == Concat(Texts(ps)) <==> NeverRecurs(Names(ps)))
  {
    hide Concat, TextOf, Firsts, TextsOf, NeverRecurs, Apart, Chunks, Listed, WritePieces, AppendsHitLast;
    ContentsAreTexts(ps);
    AppendsHitLastExactly(ps);
    if NeverRecurs(Names(ps)) {
      ChunksKeepOrder(ps);
    }
    if Concat(TextsOf(ps, Firsts(Names(ps)))) == Concat(Texts(ps)) {
      InOrderNeverRecurs(ps);
    }
  }
}
