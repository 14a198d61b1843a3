/** What stripping every block from notes comes to: the notes read once, line by line from
    the bottom up, against the rescanning and cutting of the text. */
module BottomUp {
  import opened Values
  import opened Text
  import opened NotesBlock
  import B = BlockRoundTrip
  import S = BlockStrip

  // ---------------------------------------------------------------- trimming, on lines

  predicate Blank(line: string) {
    TrimEnd(line) == ""
  }

  /** Without the blank lines at the end, the last line trimmed. */
  function CutBack(lines: seq<string>): seq<string> {
    if lines == [] then []
    else
      var n := |lines| - 1;
      if Blank(lines[n]) then CutBack(lines[..n]) else lines[..n] + [TrimEnd(lines[n])]
  }

  /** Without the empty lines at the start. */
  function DropEmpty(lines: seq<string>): seq<string> {
    if lines != [] && lines[0] == "" then DropEmpty(lines[1..]) else lines
  }

  lemma {:induction false} TrimSuffix(a: string, b: string)
    ensures TrimEnd(a + b) == if Blank(b) then TrimEnd(a) else a + TrimEnd(b)
    decreases |b|
  {
    hide IsSpace;
    if b == "" {
      assert a + b == a;
    } else {
      var n := |b| - 1;
      var all := a + b;
      assert all[|all| - 1] == b[n] && all[..|all| - 1] == a + b[..n];
      if IsSpace(b[n]) {
        TrimSuffix(a, b[..n]);
        assert TrimEnd(all) == TrimEnd(a + b[..n]) && TrimEnd(b) == TrimEnd(b[..n]);
      } else {
        assert TrimEnd(all) == all && TrimEnd(b) == b;
      }
    }
  }

  lemma TrimTwice(s: string)
    ensures TrimEnd(TrimEnd(s)) == TrimEnd(s)
  {
  }

  lemma {:induction false} TrimJoin(lines: seq<string>)
    ensures TrimEnd(Join(lines)) == Join(CutBack(lines))
  {
    hide TrimEnd, Unlines;
    if lines != [] {
      var n := |lines| - 1;
      var init, last := lines[..n], lines[n];
      TrimJoin(init);
      assert lines == init + [last];
      JoinLast(init, last);
      if init == [] {
        TrimSuffix("", last);
        assert "" + last == last && "" + TrimEnd(last) == TrimEnd(last);
        JoinLast([], TrimEnd(last));
      } else {
        TrimSuffix(Join(init) + "\n", last);
        TrimMore(Join(init), '\n');
        JoinLast(init, TrimEnd(last));
      }
      TrimNothing();
    }
  }

  lemma TrimNothing()
    ensures TrimEnd("") == "" && CutBack([]) == [] && Join([]) == ""
  {
  }

  lemma JoinLast(init: seq<string>, last: string)
    ensures Join(init + [last]) == if init == [] then last else Join(init) + "\n" + last
  {
    hide Unlines;
    JoinOne(last);
    if init == [] { assert init + [last] == [last]; } else { UnlinesJoin(init, [last]); }
  }

  lemma JoinOne(line: string)
    ensures Join([line]) == line && Unlines([line]) == line
  {
  }

  lemma NewlineGoes(s: string)
    ensures TrimStartOf("\n" + s, '\n') == TrimStartOf(s, '\n')
  {
    assert ("\n" + s)[1..] == s;
  }

  lemma FirstLine(lines: seq<string>)
    requires lines != []
    ensures |lines| == 1 ==> Unlines(lines) == lines[0]
    ensures |lines| > 1 ==> Unlines(lines) == lines[0] + "\n" + Unlines(lines[1..])
  {
  }

  lemma {:induction false} TrimStartJoin(lines: seq<string>)
    requires lines != [] && B.AllOneLine(lines)
    ensures TrimStartOf("\n" + Unlines(lines), '\n') == Join(DropEmpty(lines))
  {
    hide Unlines, TrimStartOf;
    NewlineGoes(Unlines(lines));
    FirstLine(lines);
    if lines[0] == "" && |lines| > 1 {
      TrimStartJoin(lines[1..]);
      assert Unlines(lines) == "\n" + Unlines(lines[1..]);
    } else if lines[0] == "" {
      assert lines[1..] == [];
      DropNone();
    } else {
      StartsInked(Unlines(lines), lines[0]);
    }
  }

  lemma StartsInked(s: string, line: string)
    requires line != "" && OneLine(line) && line <= s
    ensures TrimStartOf(s, '\n') == s
  {
    assert s[0] == line[0];
  }

  // ---------------------------------------------------------------- what cutting back keeps

  lemma {:induction false} CutBackIs(lines: seq<string>)
    ensures var c := CutBack(lines);
            && |c| <= |lines|
            && (forall k :: 0 <= k < |c| - 1 ==> c[k] == lines[k])
            && (|c| > 0 ==> c[|c| - 1] == TrimEnd(lines[|c| - 1]) && !Blank(lines[|c| - 1]))
            && (forall k :: |c| <= k < |lines| ==> Blank(lines[k]))
  {
    hide TrimEnd;
    if lines != [] && Blank(lines[|lines| - 1]) { CutBackIs(lines[..|lines| - 1]); }
  }

  lemma {:induction false} CutBackJoin(a: seq<string>, b: seq<string>)
    ensures CutBack(a + b) == if CutBack(b) == [] then CutBack(a) else a + CutBack(b)
    decreases |b|
  {
    hide TrimEnd, Blank, CutBack;
    if b == [] {
      assert a + b == a;
      TrimNothing();
    } else {
      var n := |b| - 1;
      var init, last := b[..n], b[n];
      assert b == init + [last] && a + b == (a + init) + [last];
      CutLast(init, last);
      CutLast(a + init, last);
      if Blank(last) { CutBackJoin(a, init); }
    }
  }

  lemma CutLast(init: seq<string>, last: string)
    ensures CutBack(init + [last]) == if Blank(last) then CutBack(init) else init + [TrimEnd(last)]
  {
    hide TrimEnd, Blank;
    var all := init + [last];
    assert all[..|init|] == init && all[|init|] == last;
  }

  lemma {:induction false} CutBackTwice(lines: seq<string>)
    ensures CutBack(CutBack(lines)) == CutBack(lines)
  {
    hide TrimEnd;
    if lines != [] {
      var n := |lines| - 1;
      if Blank(lines[n]) {
        CutBackTwice(lines[..n]);
      } else {
        TrimTwice(lines[n]);
        var c := lines[..n] + [TrimEnd(lines[n])];
        assert c[..n] == lines[..n] && c[n] == TrimEnd(lines[n]);
      }
    }
  }

  /** From behind a line that stays, cutting back is the same. */
  lemma CutBackFrom(lines: seq<string>, k: nat)
    requires 0 < k <= |lines| && !Blank(lines[k - 1])
    ensures |CutBack(lines)| >= k && CutBack(lines)[k..] == CutBack(lines[k..])
  {
    hide TrimEnd, CutBack;
    CutBackIs(lines);
    CutBackJoin(lines[..k], lines[k..]);
    assert lines == lines[..k] + lines[k..];
    if CutBack(lines[k..]) == [] {
      CutBackIs(lines[..k]);
      assert lines[..k][k - 1] == lines[k - 1];
    }
  }

  lemma {:induction false} DropThenCut(lines: seq<string>)
    ensures CutBack(DropEmpty(CutBack(lines))) == CutBack(DropEmpty(lines))
    decreases |lines|
  {
    hide CutBack, TrimEnd;
    if lines == [] {
      TrimNothing();
    } else {
      var c := CutBack(lines);
      CutBackJoin([lines[0]], lines[1..]);
      assert lines == [lines[0]] + lines[1..];
      CutBackTwice(lines);
      if lines[0] == "" {
        DropThenCut(lines[1..]);
        EmptyIsBlank();
        CutBackIs([lines[0]]);
        if CutBack(lines[1..]) != [] { assert c[1..] == CutBack(lines[1..]); }
      } else if c != [] {
        FirstStays(lines);
      } else {
        TrimNothing();
      }
    }
  }

  lemma EmptyIsBlank()
    ensures Blank("") && CutBack([""]) == []
  {
    assert [""][..0] == [];
    TrimNothing();
  }

  lemma FirstStays(lines: seq<string>)
    requires lines != [] && lines[0] != "" && CutBack(lines) != []
    ensures CutBack(lines)[0] != ""
  {
    hide TrimEnd;
    CutBackIs(lines);
  }

  // ---------------------------------------------------------------- reading up

  /** What is left of the lines read so far, and whether a block has just been taken from in
      front of them; or a block has been met that cannot be read. */
  datatype Reading = Clear(rest: seq<string>, cut: bool) | Stuck(left: seq<string>)

  const Nothing: Reading := Clear([], false)

  /** One more line above. In front of a block taken out, blank lines go and the next one is
      trimmed. A header that an end line closes must head a block of the right shape. */
  function TakeLine(line: string, r: Reading): Reading {
    match r
    case Stuck(left) => Stuck([line] + left)
    case Clear(rest, cut) =>
      if cut && Blank(line) then r else Put(if cut then TrimEnd(line) else line, rest)
  }

  function Put(line: string, rest: seq<string>): Reading {
    if IsHeader(line) && HasEnd(rest) then
      match Shape([line] + rest)
      case None => Stuck([line] + rest)
      case Some((_, body)) => Clear(DropEmpty(rest[|body| + 3..]), true)
    else Clear([line] + rest, false)
  }

  function ReadUp(lines: seq<string>, r: Reading): Reading {
    if lines == [] then r else TakeLine(lines[0], ReadUp(lines[1..], r))
  }

  lemma {:induction false} ReadUpJoin(a: seq<string>, b: seq<string>, r: Reading)
    ensures ReadUp(a + b, r) == ReadUp(a, ReadUp(b, r))
  {
    hide TakeLine;
    if a == [] {
      assert a + b == b;
    } else {
      ReadUpJoin(a[1..], b, r);
      assert (a + b)[1..] == a[1..] + b;
    }
  }

  lemma {:induction false} ReadUpStuck(lines: seq<string>, left: seq<string>)
    ensures ReadUp(lines, Stuck(left)) == Stuck(lines + left)
  {
    if lines == [] {
      assert lines + left == left;
    } else {
      ReadUpStuck(lines[1..], left);
      assert [lines[0]] + (lines[1..] + left) == lines + left;
    }
  }

  /** Where there is no block, nothing is taken out. */
  lemma {:induction false} NoneToTake(lines: seq<string>, rest: seq<string>)
    requires BlockStart(lines + rest).None?
    ensures ReadUp(lines, Clear(rest, false)) == Clear(lines + rest, false)
  {
    hide IsHeader, IsEnd, Shape;
    if lines == [] {
      assert lines + rest == rest;
    } else {
      var all := lines + rest;
      assert all[1..] == lines[1..] + rest;
      NoneToTake(lines[1..], rest);
      assert [lines[0]] + (lines[1..] + rest) == all;
    }
  }

  /** Reading on from a cut is reading on from lines cut back. */
  lemma {:induction false} FromACut(lines: seq<string>, rest: seq<string>)
    ensures ReadUp(lines, Clear(rest, true)) ==
            if CutBack(lines) == [] then Clear(rest, true) else ReadUp(CutBack(lines), Clear(rest, false))
    decreases |lines|
  {
    hide TrimEnd, IsHeader, HasEnd, Shape, DropEmpty;
    if lines != [] {
      var n := |lines| - 1;
      var init, last := lines[..n], lines[n];
      assert lines == init + [last];
      ReadUpJoin(init, [last], Clear(rest, true));
      ReadOne(last, Clear(rest, true));
      if Blank(last) {
        FromACut(init, rest);
      } else {
        ReadUpJoin(init, [TrimEnd(last)], Clear(rest, false));
        ReadOne(TrimEnd(last), Clear(rest, false));
      }
    }
  }

  lemma ReadOne(line: string, r: Reading)
    ensures ReadUp([line], r) == TakeLine(line, r)
  {
    hide TakeLine;
    assert [line][1..] == [];
  }

  // ---------------------------------------------------------------- white space at the end does not matter

  /** The same but for white space at the end. */
  predicate Alike(r: Reading, s: Reading) {
    (r.Clear? <==> s.Clear?) && CutBack(LinesLeft(r)) == CutBack(LinesLeft(s))
  }

  function LinesLeft(r: Reading): seq<string> {
    match r case Clear(rest, _) => rest case Stuck(left) => left
  }

  lemma TrimmedEnds(line: string)
    ensures IsEnd(TrimEnd(line)) <==> IsEnd(line)
    ensures Blank(line) ==> !IsEnd(line)
  {
    TrimTwice(line);
    assert |END| > 0;
  }

  lemma HasEndCut(lines: seq<string>)
    ensures HasEnd(CutBack(lines)) <==> HasEnd(lines)
    ensures HasEnd(lines) ==> FirstEnd(CutBack(lines)) == FirstEnd(lines) < |CutBack(lines)|
  {
    hide TrimEnd, CutBack, IsEnd, FirstEnd;
    var c := CutBack(lines);
    CutBackIs(lines);
    forall k | 0 <= k < |c| ensures IsEnd(c[k]) <==> IsEnd(lines[k]) { TrimmedEnds(lines[k]); }
    forall k | |c| <= k < |lines| ensures !IsEnd(lines[k]) { TrimmedEnds(lines[k]); }
    if HasEnd(lines) {
      var n := FirstEnd(lines);
      var k :| 0 <= k < |lines| && IsEnd(lines[k]);
      assert n < |lines|;
      B.EndsAt(c, n);
    }
  }

  /** The shape of a block does not depend on it... */
  lemma ShapeCut(line: string, rest: seq<string>)
    requires HasEnd(rest)
    ensures Shape([line] + CutBack(rest)) == Shape([line] + rest)
  {
    hide TrimEnd, CutBack, IsEnd, FirstEnd, ParseHeader, HasEnd;
    var c := CutBack(rest);
    HasEndCut(rest);
    CutBackIs(rest);
    TrimTwice(rest[0]);
    assert TrimEnd(c[0]) == TrimEnd(rest[0]);
    if TrimEnd(rest[0]) == FENCE_OPEN {
      BodyCut(rest);
      ShapeByBody(line, rest);
      ShapeByBody(line, c);
      var n := FirstEnd(rest[1..]);
      assert n > 0 ==> c[1..n] == rest[1..n];
    } else {
      assert ([line] + rest)[1] == rest[0] && ([line] + c)[1] == c[0];
    }
  }

  /** The body and what closes it. */
  lemma BodyCut(rest: seq<string>)
    requires HasEnd(rest) && rest != [] && TrimEnd(rest[0]) == FENCE_OPEN
    ensures var c, n := CutBack(rest), FirstEnd(rest[1..]);
            && |c| > 0 && FirstEnd(c[1..]) == n && n + 1 < |c| && n + 1 < |rest|
            && forall k :: 0 <= k <= n ==> c[k] == rest[k]
  {
    hide TrimEnd, CutBack, IsEnd, FirstEnd, HasEnd;
    HasEndCut(rest);
    CutBackIs(rest);
    FenceIsNoEnd(rest);
    CutBackFrom(rest, 1);
    HasEndCut(rest[1..]);
  }

  lemma ShapeByBody(line: string, rest: seq<string>)
    requires rest != [] && TrimEnd(rest[0]) == FENCE_OPEN && FirstEnd(rest[1..]) + 1 < |rest|
    ensures var n := FirstEnd(rest[1..]);
            Shape([line] + rest) ==
              match ParseHeader(line)
              case None => None
              case Some(h) =>
                if h.version != VERSION || n == 0 || TrimEnd(rest[n]) != FENCE_CLOSE then None else Some((h, rest[1..n]))
  {
    hide TrimEnd, IsEnd, FirstEnd, ParseHeader;
    var a, n := [line] + rest, FirstEnd(rest[1..]);
    assert a[2..] == rest[1..];
    assert a[n + 1] == rest[n] && (n > 0 ==> a[2..n + 1] == rest[1..n]);
  }

  lemma FenceIsNoEnd(rest: seq<string>)
    requires rest != [] && TrimEnd(rest[0]) == FENCE_OPEN && HasEnd(rest)
    ensures !Blank(rest[0]) && HasEnd(rest[1..])
  {
    hide TrimEnd;
    assert END[0] == '[' && FENCE_OPEN[0] == '`';
    var k :| 0 <= k < |rest| && IsEnd(rest[k]);
    assert k > 0 && IsEnd(rest[1..][k - 1]);
  }

  lemma ShapeEnds(line: string, rest: seq<string>)
    requires Shape([line] + rest).Some?
    ensures var k := |Shape([line] + rest).value.1| + 2; k < |rest| && !Blank(rest[k])
  {
    hide TrimEnd, FirstEnd, ParseHeader;
    var k := |Shape([line] + rest).value.1| + 2;
    assert ([line] + rest)[k + 1] == rest[k];
    TrimmedEnds(rest[k]);
  }

  lemma TakenAlike(l: string, rest: seq<string>)
    requires HasEnd(rest) && Shape([l] + rest).Some?
    ensures var k := |Shape([l] + rest).value.1| + 3;
            && Shape([l] + CutBack(rest)) == Shape([l] + rest) && k <= |rest| && k <= |CutBack(rest)|
            && CutBack(DropEmpty(CutBack(rest)[k..])) == CutBack(DropEmpty(rest[k..]))
  {
    hide TrimEnd, CutBack, HasEnd, Shape, DropEmpty;
    ShapeCut(l, rest);
    ShapeEnds(l, rest);
    var k := |Shape([l] + rest).value.1| + 3;
    CutBackFrom(rest, k);
    DropThenCut(rest[k..]);
  }

  lemma CutOneMore(l: string, rest: seq<string>)
    ensures CutBack([l] + CutBack(rest)) == CutBack([l] + rest)
  {
    hide CutBack;
    CutBackTwice(rest);
    CutBackJoin([l], rest);
    CutBackJoin([l], CutBack(rest));
  }

  predicate AlikeAndCut(r: Reading, s: Reading) {
    Alike(r, s) && (r.Clear? && s.Clear? ==> r.cut == s.cut)
  }

  /** ...nor does what one line more makes of it. */
  lemma PutAlike(l: string, rest: seq<string>)
    ensures AlikeAndCut(Put(l, rest), Put(l, CutBack(rest)))
  {
    hide CutBack, IsHeader, HasEnd, Shape, DropEmpty;
    HasEndCut(rest);
    CutOneMore(l, rest);
    if IsHeader(l) && HasEnd(rest) {
      ShapeCut(l, rest);
      if Shape([l] + rest).Some? { TakenAlike(l, rest); }
    }
  }

  lemma TakeAlike(line: string, rest: seq<string>, cut: bool)
    ensures AlikeAndCut(TakeLine(line, Clear(rest, cut)), TakeLine(line, Clear(CutBack(rest), cut)))
  {
    hide TrimEnd, CutBack, Blank, Put;
    CutBackTwice(rest);
    PutAlike(if cut then TrimEnd(line) else line, rest);
  }

  lemma StuckAlike(line: string, a: seq<string>, b: seq<string>)
    requires CutBack(a) == CutBack(b)
    ensures Alike(TakeLine(line, Stuck(a)), TakeLine(line, Stuck(b))) && TakeLine(line, Stuck(a)).Stuck?
  {
    hide CutBack;
    CutBackJoin([line], a);
    CutBackJoin([line], b);
  }

  lemma {:induction false} ReadAlike(lines: seq<string>, r: Reading, s: Reading)
    requires AlikeAndCut(r, s)
    ensures AlikeAndCut(ReadUp(lines, r), ReadUp(lines, s))
  {
    hide TakeLine, CutBack;
    if lines != [] {
      var a, b := ReadUp(lines[1..], r), ReadUp(lines[1..], s);
      ReadAlike(lines[1..], r, s);
      if a.Clear? {
        TakeAlike(lines[0], a.rest, a.cut);
        TakeAlike(lines[0], b.rest, b.cut);
      } else {
        StuckAlike(lines[0], a.left, b.left);
      }
    }
  }

  /** Cutting notes back changes nothing in how they read. */
  lemma {:induction false} CutReadsAlike(lines: seq<string>)
    ensures Alike(ReadUp(lines, Nothing), ReadUp(CutBack(lines), Nothing))
    decreases |lines|
  {
    hide TrimEnd, TakeLine;
    if lines != [] {
      var n := |lines| - 1;
      var init, last := lines[..n], lines[n];
      assert lines == init + [last];
      ReadUpJoin(init, [last], Nothing);
      LastLine(last);
      if Blank(last) {
        ReadAlike(init, Clear([last], false), Nothing);
        CutReadsAlike(init);
      } else {
        ReadUpJoin(init, [TrimEnd(last)], Nothing);
        LastLine(TrimEnd(last));
        TrimTwice(last);
        ReadAlike(init, Clear([last], false), Clear([TrimEnd(last)], false));
      }
    }
  }

  lemma LastLine(line: string)
    ensures ReadUp([line], Nothing) == Clear([line], false)
    ensures CutBack([line]) == if Blank(line) then [] else [TrimEnd(line)]
  {
    hide TrimEnd;
    ReadOne(line, Nothing);
    assert [line] + [] == [line] && [line][..0] == [] && [] + [TrimEnd(line)] == [TrimEnd(line)];
  }

  // ---------------------------------------------------------------- one block out, on lines

  lemma BlockAt(lines: seq<string>, i: nat)
    requires lines != [] && B.AllOneLine(lines) && BlockStart(lines) == Some(i) && Shape(lines[i..]).Some?
    ensures var text, j := Unlines(lines), i + |Shape(lines[i..]).value.1| + 3;
            && FindIn(text).Block? && FindIn(text).found.start == Offset(lines, i) && j < |lines|
            && FindIn(text).found.end == Offset(lines, j) + |lines[j]|
  {
    hide Lines, Unlines, BlockStart, Offset, FirstEnd, ParseHeader;
    LinesUnlines(lines);
  }

  lemma TextBefore(lines: seq<string>, i: nat)
    requires i < |lines|
    ensures Offset(lines, i) <= |Unlines(lines)| && TrimEnd(Unlines(lines)[..Offset(lines, i)]) == Join(CutBack(lines[..i]))
  {
    hide Unlines, Offset, TrimEnd, CutBack;
    SplitAtLine(lines, i);
    TrimJoin(lines[..i]);
    TrimNothing();
    if i > 0 { TrimMore(Unlines(lines[..i]), '\n'); } else { assert lines[..0] == []; }
  }

  lemma TextAfter(lines: seq<string>, j: nat)
    requires j < |lines| && B.AllOneLine(lines)
    ensures var end := Offset(lines, j) + |lines[j]|;
            end <= |Unlines(lines)| && TrimStartOf(Unlines(lines)[end..], '\n') == Join(DropEmpty(lines[j + 1..]))
  {
    hide Unlines, Offset, DropEmpty, TrimStartOf, OneLine;
    SplitAfterLine(lines, j);
    if j + 1 < |lines| {
      TrimStartJoin(lines[j + 1..]);
    } else {
      assert lines[j + 1..] == [];
      DropNone();
    }
  }

  lemma StripAt(lines: seq<string>, i: nat, j: nat, f: Found)
    requires i <= j < |lines| && B.AllOneLine(lines) && f.start <= f.end <= |Unlines(lines)|
    requires f.start == Offset(lines, i) && f.end == Offset(lines, j) + |lines[j]|
    ensures Strip(Unlines(lines), f) == Join(CutBack(CutBack(lines[..i]) + DropEmpty(lines[j + 1..])))
  {
    hide Unlines, Offset, TrimEnd, CutBack, DropEmpty, TrimStartOf, B.AllOneLine, Join, Strip;
    TextBefore(lines, i);
    TextAfter(lines, j);
    var a, d := CutBack(lines[..i]), DropEmpty(lines[j + 1..]);
    CutBackTwice(lines[..i]);
    PutTogether(a, d);
    StripOf(Unlines(lines), f, Join(a), Join(d));
  }

  /** Taking a block out of a text, said of its lines. */
  lemma StripLines(lines: seq<string>, i: nat)
    requires lines != [] && B.AllOneLine(lines) && BlockStart(lines) == Some(i) && Shape(lines[i..]).Some?
    ensures var text, j := Unlines(lines), i + |Shape(lines[i..]).value.1| + 3;
            && FindIn(text).Block? && FindIn(text).found.start <= FindIn(text).found.end <= |text|
            && Strip(text, FindIn(text).found) == Join(CutBack(CutBack(lines[..i]) + DropEmpty(lines[j + 1..])))
  {
    hide FindIn, Unlines, BlockStart, Shape, Offset, CutBack, DropEmpty, B.AllOneLine, Join, Strip;
    BlockAt(lines, i);
    S.StripShortens(Unlines(lines));
    StripAt(lines, i, i + |Shape(lines[i..]).value.1| + 3, FindIn(Unlines(lines)).found);
  }

  lemma StripOf(text: string, f: Found, before: string, after: string)
    requires f.start <= f.end <= |text|
    requires before == TrimEnd(text[..f.start]) && after == TrimStartOf(text[f.end..], '\n')
    ensures Strip(text, f) == TrimEnd(before + (if before != "" && TrimEnd(after) != "" then "\n" else "") + after)
  {
    hide TrimEnd, TrimStartOf;
  }

  lemma DropNone()
    ensures DropEmpty([]) == [] && TrimStartOf("", '\n') == "" && Join([]) == ""
  {
  }

  lemma JoinTwo(a: seq<string>, d: seq<string>)
    requires a != [] && d != []
    ensures Join(a + d) == Join(a) + "\n" + Join(d)
  {
    hide Unlines;
    UnlinesJoin(a, d);
  }

  /** What is before and what is after, with a newline between unless one of them is nothing. */
  lemma PutTogether(a: seq<string>, d: seq<string>)
    requires CutBack(a) == a
    ensures var before, after := Join(a), Join(d);
            TrimEnd(before + (if before != "" && TrimEnd(after) != "" then "\n" else "") + after) == Join(CutBack(a + d))
  {
    hide TrimEnd, CutBack, Join;
    var before, after := Join(a), Join(d);
    TrimJoin(d);
    TrimJoin(a + d);
    CutBackJoin(a, d);
    CutBackTwice(d);
    SomeInk(CutBack(d));
    SomeInk(a);
    TrimNothing();
    if a == [] {
      assert a + d == d && before + "" + after == after;
    } else if TrimEnd(after) == "" {
      TrimJoin(a);
      TrimSuffix(before, after);
      assert before + "" + after == before + after;
    } else {
      JoinTwo(a, d);
    }
  }

  lemma SomeInk(lines: seq<string>)
    requires CutBack(lines) == lines
    ensures Join(lines) == "" <==> lines == []
  {
    hide TrimEnd;
    CutBackIs(lines);
    TrimNothing();
    if lines != [] { JoinLast(lines[..|lines| - 1], lines[|lines| - 1]); assert lines == lines[..|lines| - 1] + [lines[|lines| - 1]]; }
  }
}
