/** When stripping all blocks does leave none: exactly when the notes, read from the bottom
    up, never meet a closed header that heads no block. */
module EveryBlock {
  import opened Values
  import opened Decimals
  import opened Text
  import opened NotesBlock
  import opened BottomUp
  import B = BlockRoundTrip
  import S = BlockStrip

  lemma {:induction false} StartIs(lines: seq<string>)
    requires BlockStart(lines).Some?
    ensures var i := BlockStart(lines).value;
            IsHeader(lines[i]) && HasEnd(lines[i + 1..]) && BlockStart(lines[i + 1..]).None?
  {
    hide IsHeader, HasEnd;
    var rest := lines[1..];
    if BlockStart(rest).Some? {
      StartIs(rest);
      var i := BlockStart(rest).value;
      assert lines[i + 1 + 1..] == rest[i + 1..];
    }
  }

  lemma NoneInSuffix(lines: seq<string>, k: nat)
    requires BlockStart(lines).None? && k <= |lines|
    ensures BlockStart(lines[k..]).None?
  {
    hide BlockStart;
    assert lines == lines[..k] + lines[k..];
    if BlockStart(lines[k..]).Some? { B.StartBehind(lines[..k], lines[k..]); }
  }

  lemma {:induction false} DropIsSuffix(lines: seq<string>)
    ensures |DropEmpty(lines)| <= |lines| && DropEmpty(lines) == lines[|lines| - |DropEmpty(lines)|..]
  {
    if lines != [] && lines[0] == "" { DropIsSuffix(lines[1..]); }
  }

  /** Reading up to a closed header. */
  lemma ReadToHeader(lines: seq<string>)
    requires BlockStart(lines).Some?
    ensures var i := BlockStart(lines).value;
            ReadUp(lines[i..], Nothing) ==
              match Shape(lines[i..])
              case None => Stuck(lines[i..])
              case Some((_, body)) => Clear(DropEmpty(lines[i + |body| + 4..]), true)
  {
    hide BlockStart, IsHeader, HasEnd, Shape, DropEmpty, ReadUp, TakeLine;
    var i := BlockStart(lines).value;
    StartIs(lines);
    var line, rest := lines[i], lines[i + 1..];
    assert lines[i..] == [line] + rest && rest + [] == rest;
    ReadUpJoin([line], rest, Nothing);
    NoneToTake(rest, []);
    ReadOne(line, Clear(rest, false));
    TakeUncut(line, rest);
    if Shape(lines[i..]).Some? {
      var k := |Shape(lines[i..]).value.1| + 3;
      assert rest[k..] == lines[i + k + 1..];
    }
  }

  lemma TakeUncut(line: string, rest: seq<string>)
    ensures TakeLine(line, Clear(rest, false)) == Put(line, rest)
  {
    hide Put;
  }

  lemma NoneBehind(lines: seq<string>, i: nat, k: nat)
    requires BlockStart(lines) == Some(i) && i < k <= |lines|
    ensures BlockStart(DropEmpty(lines[k..])).None?
  {
    hide BlockStart, IsHeader, HasEnd, DropEmpty;
    StartIs(lines);
    var tail := lines[k..];
    DropIsSuffix(tail);
    assert tail == lines[i + 1..][k - i - 1..];
    NoneInSuffix(lines[i + 1..], k - i - 1);
    NoneInSuffix(tail, |tail| - |DropEmpty(tail)|);
  }

  /** The text one block shorter reads as the text did. */
  lemma StripReadsAlike(lines: seq<string>, i: nat)
    requires lines != [] && BlockStart(lines) == Some(i) && Shape(lines[i..]).Some?
    ensures var j := i + |Shape(lines[i..]).value.1| + 3;
            Alike(ReadUp(lines, Nothing), ReadUp(CutBack(CutBack(lines[..i]) + DropEmpty(lines[j + 1..])), Nothing))
  {
    hide BlockStart, Shape, DropEmpty, CutBack, TakeLine, ReadUp;
    var j := i + |Shape(lines[i..]).value.1| + 3;
    var a, d := CutBack(lines[..i]), DropEmpty(lines[j + 1..]);
    ReadToHeader(lines);
    assert lines == lines[..i] + lines[i..];
    ReadUpJoin(lines[..i], lines[i..], Nothing);
    FromACut(lines[..i], d);
    NoneBehind(lines, i, j + 1);
    assert d + [] == d;
    NoneToTake(d, []);
    ReadUpJoin(a, d, Nothing);
    CutReadsAlike(a + d);
    if a == [] { assert a + d == d; }
  }

  lemma AlikeAcross(r: Reading, s: Reading, t: Reading)
    requires Alike(r, s) && Alike(s, t)
    ensures Alike(r, t)
  {
  }

  /** The text of lines reads as the lines do, even when there are none. */
  lemma JoinReads(lines: seq<string>)
    requires B.AllOneLine(lines)
    ensures Alike(ReadUp(Lines(Join(lines)), Nothing), ReadUp(lines, Nothing))
  {
    hide Lines, Unlines, CutBack, TakeLine, OneLine;
    if lines == [] {
      LineOnly("") by { NoNewline(); }
      LastLine("");
      EmptyIsBlank();
      TrimNothing();
    } else {
      LinesUnlines(lines);
    }
  }

  lemma NoNewline()
    ensures OneLine("")
  {
  }

  lemma {:induction false} CutStaysOneLine(lines: seq<string>)
    requires B.AllOneLine(lines)
    ensures B.AllOneLine(CutBack(lines))
  {
    hide TrimEnd;
    CutBackIs(lines);
    var c := CutBack(lines);
    if c != [] {
      var line := lines[|c| - 1];
      assert c[|c| - 1] == line[..|TrimEnd(line)|];
    }
  }

  /** The whole of `strip_all`: what the notes read as is what is left of them, white space
      at the end aside. */
  lemma {:induction false} StripAllReads(text: string)
    ensures var r, out := ReadUp(Lines(text), Nothing), S.StripAll(text);
            match r
            case Stuck(left) => FindIn(out).Malformed? && CutBack(Lines(out)) == CutBack(left)
            case Clear(rest, _) => FindIn(out).NoBlock? && CutBack(Lines(out)) == CutBack(rest)
    decreases |text|
  {
    hide Lines, Unlines, ReadUp, CutBack, BlockStart, Shape, Strip, B.AllOneLine;
    var lines := Lines(text);
    TextOfLines(text);
    match BlockStart(lines)
    case None =>
      assert lines + [] == lines;
      NoneToTake(lines, []);
    case Some(i) =>
      if Shape(lines[i..]).None? {
        ReadToHeader(lines);
        assert lines == lines[..i] + lines[i..];
        ReadUpJoin(lines[..i], lines[i..], Nothing);
        ReadUpStuck(lines[..i], lines[i..]);
      } else {
        OneBlockLess(lines, i);
        S.StripShortens(text);
        StripAllReads(Strip(text, FindIn(text).found));
      }
  }

  lemma LeftOneLine(before: seq<string>, after: seq<string>)
    requires B.AllOneLine(before) && B.AllOneLine(after)
    ensures B.AllOneLine(CutBack(CutBack(before) + DropEmpty(after)))
  {
    hide CutBack, DropEmpty, OneLine;
    CutStaysOneLine(before);
    DropIsSuffix(after);
    CutStaysOneLine(CutBack(before) + DropEmpty(after));
  }

  lemma LeftReads(lines: seq<string>, i: nat)
    requires lines != [] && B.AllOneLine(lines) && BlockStart(lines) == Some(i) && Shape(lines[i..]).Some?
    ensures var j := i + |Shape(lines[i..]).value.1| + 3;
            var left := CutBack(CutBack(lines[..i]) + DropEmpty(lines[j + 1..]));
            Alike(ReadUp(lines, Nothing), ReadUp(Lines(Join(left)), Nothing))
  {
    hide Lines, ReadUp, CutBack, DropEmpty, BlockStart, Shape, Alike, B.AllOneLine, Join;
    var j := i + |Shape(lines[i..]).value.1| + 3;
    var before, after := lines[..i], lines[j + 1..];
    var left := CutBack(CutBack(before) + DropEmpty(after));
    StripReadsAlike(lines, i);
    PartsOneLine(lines, i, j + 1);
    LeftOneLine(before, after);
    JoinReads(left);
    AlikeBack(ReadUp(Lines(Join(left)), Nothing), ReadUp(left, Nothing));
    AlikeAcross(ReadUp(lines, Nothing), ReadUp(left, Nothing), ReadUp(Lines(Join(left)), Nothing));
  }

  lemma OneBlockLess(lines: seq<string>, i: nat)
    requires lines != [] && B.AllOneLine(lines) && BlockStart(lines) == Some(i) && Shape(lines[i..]).Some?
    ensures var found := FindIn(Unlines(lines));
            && found.Block? && found.found.start <= found.found.end <= |Unlines(lines)|
            && Alike(ReadUp(lines, Nothing), ReadUp(Lines(Strip(Unlines(lines), found.found)), Nothing))
  {
    hide FindIn, Lines, Unlines, ReadUp, CutBack, DropEmpty, BlockStart, Shape, Strip, Alike, B.AllOneLine, Join;
    StripLines(lines, i);
    LeftReads(lines, i);
  }

  lemma TextOfLines(text: string)
    ensures Unlines(Lines(text)) == text && B.AllOneLine(Lines(text))
  {
    UnlinesLines(text);
  }

  lemma PartsOneLine(lines: seq<string>, i: nat, k: nat)
    requires i <= |lines| && k <= |lines| && B.AllOneLine(lines)
    ensures B.AllOneLine(lines[..i]) && B.AllOneLine(lines[k..])
  {
    hide OneLine;
  }

  lemma AlikeBack(r: Reading, s: Reading)
    requires Alike(r, s)
    ensures Alike(s, r)
  {
  }

  /** No block is left exactly when no line, read from the bottom up, is a closed header that
      heads no block. */
  lemma NoneLeftIff(text: string)
    ensures FindIn(S.StripAll(text)).NoBlock? <==> ReadUp(Lines(text), Nothing).Clear?
  {
    hide FindIn, Lines, ReadUp, CutBack, S.StripAll;
    StripAllReads(text);
  }

  // ---------------------------------------------------------------- every well-formed one

  /** A well-formed block begins at line `i`: a header that its own end line closes, in the
      right shape, with no other header inside. */
  predicate BlockAt(lines: seq<string>, i: nat) {
    && i < |lines| && IsHeader(lines[i]) && Shape(lines[i..]).Some?
    && forall k :: 0 <= k < |Shape(lines[i..]).value.1| ==> !IsHeader(Shape(lines[i..]).value.1[k])
  }

  ghost predicate HasBlock(lines: seq<string>) {
    exists i: nat :: BlockAt(lines, i)
  }

  lemma ShapeHasEnd(lines: seq<string>, i: nat)
    requires i < |lines| && Shape(lines[i..]).Some?
    ensures var j := i + |Shape(lines[i..]).value.1| + 3; i < j < |lines| && IsEnd(lines[j]) && HasEnd(lines[i + 1..])
  {
    hide IsEnd, Shape;
    var k := |Shape(lines[i..]).value.1| + 3;
    assert lines[i..][k] == lines[i + k] == lines[i + 1..][k - 1];
  }

  /** A block at a line is one without the white space at the end, and the other way round. */
  lemma BlockAtCut(lines: seq<string>, i: nat)
    ensures BlockAt(lines, i) <==> BlockAt(CutBack(lines), i)
  {
    hide CutBack, IsHeader, Shape, HasEnd, BlockAt;
    CutBackIs(lines);
    if i + 1 < |lines| && HasEnd(lines[i + 1..]) {
      SameShape(lines, i);
      SameBlock(lines, CutBack(lines), i);
    } else {
      if i < |lines| { NoBlockHere(lines, i); } else { NoLineHere(lines, i); }
      CutHasNone(lines, i);
    }
  }

  lemma SameBlock(a: seq<string>, b: seq<string>, i: nat)
    requires i < |a| && i < |b| && a[i] == b[i] && Shape(a[i..]) == Shape(b[i..])
    ensures BlockAt(a, i) <==> BlockAt(b, i)
  {
    hide Shape, IsHeader;
  }

  lemma SameShape(lines: seq<string>, i: nat)
    requires i + 1 < |lines| && HasEnd(lines[i + 1..])
    ensures i < |CutBack(lines)| && CutBack(lines)[i] == lines[i] && Shape(CutBack(lines)[i..]) == Shape(lines[i..])
  {
    hide CutBack, Shape, HasEnd;
    var c, rest := CutBack(lines), lines[i + 1..];
    assert lines == lines[..i + 1] + rest;
    CutBackJoin(lines[..i + 1], rest);
    HasEndCut(rest);
    assert c[i..] == [lines[i]] + CutBack(rest) && lines[i..] == [lines[i]] + rest;
    ShapeCut(lines[i], rest);
  }

  lemma NoBlockHere(lines: seq<string>, i: nat)
    requires i < |lines| && (i + 1 == |lines| || !HasEnd(lines[i + 1..]))
    ensures !BlockAt(lines, i)
  {
    hide Shape, HasEnd, IsHeader;
    if i + 1 == |lines| { NoShapeAtEnd(lines, i); } else { NoShape(lines, i); }
  }

  lemma NoLineHere(lines: seq<string>, i: nat)
    requires |lines| <= i
    ensures !BlockAt(lines, i)
  {
  }

  lemma NoShape(lines: seq<string>, i: nat)
    requires i < |lines| && !HasEnd(lines[i + 1..])
    ensures Shape(lines[i..]).None?
  {
    hide Shape, HasEnd;
    if Shape(lines[i..]).Some? { ShapeHasEnd(lines, i); }
  }

  lemma NoShapeAtEnd(lines: seq<string>, i: nat)
    requires i < |lines| <= i + 1
    ensures Shape(lines[i..]).None?
  {
    hide FirstEnd, ParseHeader;
  }

  lemma CutHasNone(lines: seq<string>, i: nat)
    requires |lines| <= i + 1 || !HasEnd(lines[i + 1..])
    ensures !BlockAt(CutBack(lines), i)
  {
    hide CutBack, HasEnd, BlockAt;
    var c := CutBack(lines);
    CutBackIs(lines);
    if |c| <= i {
      NoLineHere(c, i);
    } else if |c| > i + 1 {
      var rest := lines[i + 1..];
      assert lines == lines[..i + 1] + rest;
      CutBackJoin(lines[..i + 1], rest);
      CutBackIs(lines[..i + 1]);
      HasEndCut(rest);
      assert c[i + 1..] == CutBack(rest);
      NoBlockHere(c, i);
    } else {
      NoBlockHere(c, i);
    }
  }

  lemma HasBlockCut(lines: seq<string>)
    ensures HasBlock(lines) <==> HasBlock(CutBack(lines))
  {
    hide BlockAt, CutBack;
    if HasBlock(lines) {
      var i: nat :| BlockAt(lines, i);
      BlockAtCut(lines, i);
    }
    if HasBlock(CutBack(lines)) {
      var i: nat :| BlockAt(CutBack(lines), i);
      BlockAtCut(lines, i);
    }
  }

  lemma NoneStartsNone(lines: seq<string>)
    requires BlockStart(lines).None?
    ensures !HasBlock(lines)
  {
    hide BlockStart, Shape, IsHeader, IsEnd;
    if HasBlock(lines) {
      var i: nat :| BlockAt(lines, i);
      ShapeHasEnd(lines, i);
      B.StartsNoEarlier(lines, i, i + |Shape(lines[i..]).value.1| + 3);
    }
  }

  lemma NoBlockMeans(text: string)
    requires FindIn(text).NoBlock?
    ensures BlockStart(Lines(text)).None?
  {
    hide Lines, BlockStart, Shape;
  }

  /** As documented: every well-formed block is gone exactly when none is left above and in
      the lines that could not be read. */
  lemma EveryWellFormedIff(text: string)
    ensures var r := ReadUp(Lines(text), Nothing);
            !HasBlock(Lines(S.StripAll(text))) <==> r.Clear? || !HasBlock(r.left)
  {
    hide Lines, ReadUp, CutBack, S.StripAll, HasBlock, BlockStart, FindIn;
    StripAllReads(text);
    var r, out := ReadUp(Lines(text), Nothing), Lines(S.StripAll(text));
    HasBlockCut(out);
    if r.Clear? {
      NoBlockMeans(S.StripAll(text));
      NoneStartsNone(out);
    } else {
      HasBlockCut(r.left);
    }
  }

  // ---------------------------------------------------------------- any number of printed blocks

  datatype Print = Print(vmid: nat, yaml: string, digest: string, time: string)

  predicate Good(b: Print) {
    b.vmid <= U32_MAX && NoSpace(b.time) && NoSpace(b.digest) && B.Plain(b.yaml)
  }

  function PrintLines(b: Print): seq<string> {
    BlockLines(b.vmid, b.yaml, b.digest, b.time)
  }

  /** No line is a delimiter or becomes one when it is trimmed. */
  predicate NoDelimiters(seg: seq<string>) {
    forall i :: 0 <= i < |seg| ==> OneLine(seg[i]) && !IsEnd(seg[i]) && !IsHeader(seg[i]) && !IsHeader(TrimEnd(seg[i]))
  }

  /** Notes with blocks printed between their segments. */
  function Weave(segs: seq<seq<string>>, blocks: seq<Print>): seq<string>
    requires |segs| == |blocks| + 1
  {
    if blocks == [] then segs[0] else segs[0] + (PrintLines(blocks[0]) + Weave(segs[1..], blocks[1..]))
  }

  function InkOf(lines: seq<string>): string {
    if lines == [] then "" else Ink(lines[0]) + InkOf(lines[1..])
  }

  function InkOfAll(segs: seq<seq<string>>): string {
    if segs == [] then "" else InkOf(segs[0]) + InkOfAll(segs[1..])
  }

  /** Plain lines stay, but for white space. */
  lemma {:induction false} SegmentReads(seg: seq<string>, rest: seq<string>, cut: bool)
    requires NoDelimiters(seg) && !HasEnd(rest)
    ensures var r := ReadUp(seg, Clear(rest, cut));
            r.Clear? && !HasEnd(r.rest) && InkOf(r.rest) == InkOf(seg) + InkOf(rest)
  {
    hide IsHeader, IsEnd, TrimEnd, Ink, Shape, OneLine, HasEnd, TakeLine;
    if seg != [] {
      SegmentReads(seg[1..], rest, cut);
      var r := ReadUp(seg[1..], Clear(rest, cut));
      PlainLine(seg[0], r.rest, r.cut);
    } else {
      assert "" + InkOf(rest) == InkOf(rest);
    }
  }

  lemma PlainLine(line: string, rest: seq<string>, cut: bool)
    requires !IsEnd(line) && !IsHeader(line) && !IsHeader(TrimEnd(line)) && !HasEnd(rest)
    ensures var r := TakeLine(line, Clear(rest, cut));
            r.Clear? && !HasEnd(r.rest) && InkOf(r.rest) == Ink(line) + InkOf(rest)
  {
    hide IsHeader, IsEnd, TrimEnd, Ink, Shape, HasEnd;
    TrimKeepsInk(line);
    TrimmedEnds(line);
    NoInkInNothing();
    var l := if cut then TrimEnd(line) else line;
    EndFirstOrLater(l, rest);
    assert ([l] + rest)[1..] == rest;
    assert "" + InkOf(rest) == InkOf(rest);
  }

  lemma EndFirstOrLater(line: string, rest: seq<string>)
    ensures HasEnd([line] + rest) <==> IsEnd(line) || HasEnd(rest)
  {
    hide IsEnd;
    var all := [line] + rest;
    if IsEnd(line) { assert IsEnd(all[0]); }
    if HasEnd(rest) {
      var i :| 0 <= i < |rest| && IsEnd(rest[i]);
      assert IsEnd(all[i + 1]);
    }
  }

  lemma NoInkInNothing()
    ensures Ink("") == ""
  {
  }

  lemma {:induction false} PassOver(lines: seq<string>, rest: seq<string>)
    requires forall i :: 0 <= i < |lines| ==> !IsHeader(lines[i])
    ensures ReadUp(lines, Clear(rest, false)) == Clear(lines + rest, false)
  {
    hide IsHeader, HasEnd, Shape;
    if lines == [] {
      assert lines + rest == rest;
    } else {
      PassOver(lines[1..], rest);
      assert [lines[0]] + (lines[1..] + rest) == lines + rest;
    }
  }

  /** A printed block goes whole. */
  lemma BlockReads(b: Print, rest: seq<string>, cut: bool)
    requires Good(b) && !HasEnd(rest)
    ensures ReadUp(PrintLines(b), Clear(rest, cut)) == Clear(DropEmpty(rest), true)
  {
    hide IsHeader, IsEnd, HasEnd, Shape, Lines, HeaderLine, DropEmpty, TakeLine, NoSpace;
    var y := Lines(b.yaml);
    var head, mid := HeaderLine(b.vmid, b.time, b.digest), [FENCE_OPEN] + y + [FENCE_CLOSE];
    B.Fences();
    B.EndLine();
    B.HeaderReads(b.vmid, b.time, b.digest);
    assert PrintLines(b) == [head] + (mid + [END]);
    ReadUpJoin([head], mid + [END], Clear(rest, cut));
    ReadUpJoin(mid, [END], Clear(rest, cut));
    EndLineReads(rest, cut);
    ReadOne(END, Clear(rest, cut));
    PassOver(mid, [END] + rest);
    var below := mid + ([END] + rest);
    ReadOne(head, Clear(below, false));
    B.BlockShape(b.vmid, b.yaml, b.digest, b.time, rest);
    assert PrintLines(b) + rest == [head] + below;
    assert below[|y| + 2] == END && below[|y| + 3..] == rest;
    HeaderTaken(head, below, y);
  }

  lemma EndLineReads(rest: seq<string>, cut: bool)
    ensures TakeLine(END, Clear(rest, cut)) == Clear([END] + rest, false)
  {
    hide Shape, HasEnd;
    B.EndLine();
    assert |END| == 11;
    assert TrimEnd(END) == END;
  }

  lemma HeaderTaken(head: string, below: seq<string>, body: seq<string>)
    requires IsHeader(head) && |body| + 3 <= |below| && IsEnd(below[|body| + 2])
    requires Shape([head] + below).Some? && Shape([head] + below).value.1 == body
    ensures TakeLine(head, Clear(below, false)) == Clear(DropEmpty(below[|body| + 3..]), true)
  {
    hide IsHeader, IsEnd, Shape, DropEmpty;
    assert HasEnd(below);
  }

  lemma {:induction false} DropKeeps(lines: seq<string>)
    requires !HasEnd(lines)
    ensures !HasEnd(DropEmpty(lines)) && InkOf(DropEmpty(lines)) == InkOf(lines)
  {
    hide IsEnd, Ink;
    if lines != [] && lines[0] == "" {
      NoInkInNothing();
      assert forall i :: 0 <= i < |lines[1..]| ==> lines[1..][i] == lines[i + 1];
      DropKeeps(lines[1..]);
      assert "" + InkOf(lines[1..]) == InkOf(lines[1..]);
    }
  }

  lemma {:induction false} WeaveReads(segs: seq<seq<string>>, blocks: seq<Print>)
    requires |segs| == |blocks| + 1
    requires (forall i :: 0 <= i < |segs| ==> NoDelimiters(segs[i])) && (forall i :: 0 <= i < |blocks| ==> Good(blocks[i]))
    ensures var r := ReadUp(Weave(segs, blocks), Nothing);
            r.Clear? && !HasEnd(r.rest) && InkOf(r.rest) == InkOfAll(segs)
    decreases |blocks|
  {
    hide NoDelimiters, Good, HasEnd, TakeLine, DropEmpty, PrintLines, Ink;
    NoEndsInNothing();
    assert segs == [segs[0]] + segs[1..];
    if blocks == [] {
      SegmentReads(segs[0], [], false);
      assert segs[1..] == [] && InkOfAll([]) == "";
    } else {
      WeaveReads(segs[1..], blocks[1..]);
      var tail := Weave(segs[1..], blocks[1..]);
      var r := ReadUp(tail, Nothing);
      ReadUpJoin(PrintLines(blocks[0]), tail, Nothing);
      BlockReads(blocks[0], r.rest, r.cut);
      DropKeeps(r.rest);
      ReadUpJoin(segs[0], PrintLines(blocks[0]) + tail, Nothing);
      SegmentReads(segs[0], DropEmpty(r.rest), true);
    }
  }

  lemma NoEndsInNothing()
    ensures !HasEnd([]) && InkOf([]) == ""
  {
  }

  lemma {:induction false} InkOfJoin(lines: seq<string>)
    ensures Ink(Join(lines)) == InkOf(lines)
  {
    hide Ink, Unlines;
    if lines == [] {
      NoInkInNothing();
    } else {
      var tail := lines[1..];
      InkOfJoin(tail);
      assert lines == [lines[0]] + tail;
      JoinOne(lines[0]);
      if tail == [] {
        assert lines == [lines[0]] && Ink(lines[0]) + "" == Ink(lines[0]);
      } else {
        UnlinesJoin([lines[0]], tail);
        InkJoin(lines[0] + "\n", Join(tail));
        InkJoin(lines[0], "\n");
        S.NoInk();
      }
    }
  }

  lemma {:induction false} WeaveOneLine(segs: seq<seq<string>>, blocks: seq<Print>)
    requires |segs| == |blocks| + 1
    requires (forall i :: 0 <= i < |segs| ==> NoDelimiters(segs[i])) && (forall i :: 0 <= i < |blocks| ==> Good(blocks[i]))
    ensures B.AllOneLine(Weave(segs, blocks))
    decreases |blocks|
  {
    hide OneLine, BlockLines, IsHeader, IsEnd, B.Plain, NoSpace;
    if blocks != [] {
      WeaveOneLine(segs[1..], blocks[1..]);
      var b := blocks[0];
      B.AroundOneLine([], b.vmid, b.yaml, b.digest, b.time, []);
      assert B.Around([], b.vmid, b.yaml, b.digest, b.time, []) == PrintLines(b);
    }
  }

  /** Notes without delimiters of their own, with any number of printed blocks between them:
      every block goes, none is left, and nothing of the notes is lost but white space. */
  lemma EveryPrintedBlockGoes(segs: seq<seq<string>>, blocks: seq<Print>)
    requires |segs| == |blocks| + 1
    requires (forall i :: 0 <= i < |segs| ==> NoDelimiters(segs[i])) && (forall i :: 0 <= i < |blocks| ==> Good(blocks[i]))
    ensures var out := S.StripAll(Join(Weave(segs, blocks)));
            FindIn(out).NoBlock? && Ink(out) == InkOfAll(segs)
  {
    hide NoDelimiters, Good, HasEnd, ReadUp, Join, Weave, Lines, CutBack, S.StripAll, FindIn, Ink, B.AllOneLine;
    var lines := Weave(segs, blocks);
    var text := Join(lines);
    WeaveOneLine(segs, blocks);
    WeaveReads(segs, blocks);
    JoinReads(lines);
    StripAllReads(text);
    var out := S.StripAll(text);
    InkOfText(out);
    InkOfCut(Lines(out));
    InkOfCut(ReadUp(Lines(text), Nothing).rest);
    InkOfCut(ReadUp(lines, Nothing).rest);
  }

  lemma InkOfText(text: string)
    ensures Ink(text) == InkOf(Lines(text))
  {
    hide Ink, Lines, Unlines;
    UnlinesLines(text);
    InkOfJoin(Lines(text));
  }

  lemma InkOfCut(lines: seq<string>)
    ensures InkOf(CutBack(lines)) == InkOf(lines)
  {
    hide Ink, CutBack, Join, TrimEnd;
    InkOfJoin(lines);
    InkOfJoin(CutBack(lines));
    TrimJoin(lines);
    TrimKeepsInk(Join(lines));
  }
}
