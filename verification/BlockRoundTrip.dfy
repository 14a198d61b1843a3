/** A printed block is found again, whatever stands around it, and taking it out gives the
    notes back. */
module BlockRoundTrip {
  import opened Values
  import opened Decimals
  import opened Text
  import opened NotesBlock

  // ---------------------------------------------------------------- the header

  lemma KeysAreInked()
    ensures NoSpace("vmid=") && NoSpace("time=") && NoSpace("sha256=")
  {
  }

  lemma KeysSplit(v: string)
    ensures SplitOnce("vmid=" + v, '=') == Some(("vmid", v))
    ensures SplitOnce("time=" + v, '=') == Some(("time", v))
    ensures SplitOnce("sha256=" + v, '=') == Some(("sha256", v))
  {
    hide SplitOnce;
    SplitOnceIs("vmid", '=', v);
    SplitOnceIs("time", '=', v);
    SplitOnceIs("sha256", '=', v);
    assert "vmid" + ['='] + v == "vmid=" + v;
    assert "time" + ['='] + v == "time=" + v;
    assert "sha256" + ['='] + v == "sha256=" + v;
  }

  lemma WordsOfFields(vmid: nat, time: string, digest: string)
    requires NoSpace(time) && NoSpace(digest)
    ensures Words(Fields(vmid, time, digest)) == [Decimal(VERSION), "vmid=" + Decimal(vmid), "time=" + time, "sha256=" + digest]
  {
    hide Words, NoSpace, Decimal;
    DecimalDigits(VERSION);
    DecimalDigits(vmid);
    DigitsAreInked(Decimal(VERSION));
    DigitsAreInked(Decimal(vmid));
    KeysAreInked();
    NoSpaceJoin("vmid=", Decimal(vmid));
    NoSpaceJoin("time=", time);
    NoSpaceJoin("sha256=", digest);
    var c := "sha256=" + digest;
    var b := "time=" + time + " " + c;
    var a := "vmid=" + Decimal(vmid) + " " + b;
    WordFirst(c, "");
    WordFirst("time=" + time, c);
    WordFirst("vmid=" + Decimal(vmid), b);
    WordFirst(Decimal(VERSION), a);
  }

  function Printed(vmid: nat, time: string, digest: string): Header {
    Header(VERSION, Some(vmid), Some(time), Some(digest))
  }

  lemma VmidField(h: Header, vmid: nat)
    requires vmid <= U32_MAX
    ensures ReadField(h, "vmid=" + Decimal(vmid)) == h.(vmid := Some(vmid))
  {
    hide Decimal, SplitOnce, Unsigned;
    UnsignedDecimal(vmid);
    KeysSplit(Decimal(vmid));
  }

  lemma TimeField(h: Header, time: string)
    ensures ReadField(h, "time=" + time) == h.(time := Some(time))
  {
    hide SplitOnce;
    KeysSplit(time);
    assert "vmid"[0] == 'v' && "time"[0] == 't';
  }

  lemma ShaField(h: Header, digest: string)
    ensures ReadField(h, "sha256=" + digest) == h.(sha := Some(digest))
  {
    hide SplitOnce;
    KeysSplit(digest);
    assert "vmid"[0] == 'v' && "time"[0] == 't' && "sha256"[0] == 's';
  }

  lemma ReadThree(h: Header, a: string, b: string, c: string)
    ensures ReadFields(h, [a, b, c]) == ReadField(ReadField(ReadField(h, a), b), c)
  {
    hide ReadField;
    var one := ReadField(h, a);
    var two := ReadField(one, b);
    assert [c][1..] == [];
    assert ReadFields(two, [c]) == ReadField(two, c);
    assert [b, c][1..] == [c];
    assert ReadFields(one, [b, c]) == ReadFields(two, [c]);
    assert [a, b, c][1..] == [b, c];
  }

  lemma FieldsRead(vmid: nat, time: string, digest: string)
    requires vmid <= U32_MAX
    ensures ReadFields(Header(VERSION, None, None, None), ["vmid=" + Decimal(vmid), "time=" + time, "sha256=" + digest])
            == Printed(vmid, time, digest)
  {
    hide Decimal, ReadField, ReadFields;
    var h := Header(VERSION, None, None, None);
    ReadThree(h, "vmid=" + Decimal(vmid), "time=" + time, "sha256=" + digest);
    VmidField(h, vmid);
    TimeField(h.(vmid := Some(vmid)), time);
    ShaField(h.(vmid := Some(vmid), time := Some(time)), digest);
  }

  /** The header line reads back as it was printed, and is one. */
  lemma HeaderReads(vmid: nat, time: string, digest: string)
    requires vmid <= U32_MAX && NoSpace(time) && NoSpace(digest)
    ensures ParseHeader(HeaderLine(vmid, time, digest)) == Some(Printed(vmid, time, digest))
    ensures IsHeader(HeaderLine(vmid, time, digest))
  {
    hide Words, Fields, ReadFields, Decimal, Unsigned, NoSpace;
    var line, f := HeaderLine(vmid, time, digest), Fields(vmid, time, digest);
    assert TrimEnd(line) == line && TrimEndOf(line, '\r') == line;
    assert line[|BEGIN|..] == f + "]" && line[|BEGIN|..|line| - 1] == f;
    WordsOfFields(vmid, time, digest);
    UnsignedDecimal(VERSION);
    FieldsRead(vmid, time, digest);
    var w := Words(f);
    assert w[1..] == ["vmid=" + Decimal(vmid), "time=" + time, "sha256=" + digest];
  }

  lemma {:induction false} NoSpaceOneLine(s: string)
    requires NoSpace(s)
    ensures OneLine(s)
  {
    assert IsSpace('\n');
  }

  lemma HeaderIsOneLine(vmid: nat, time: string, digest: string)
    requires NoSpace(time) && NoSpace(digest)
    ensures OneLine(HeaderLine(vmid, time, digest))
  {
    hide Decimal, NoSpace, IsSpace;
    DecimalDigits(VERSION);
    DecimalDigits(vmid);
    DigitsAreInked(Decimal(VERSION));
    DigitsAreInked(Decimal(vmid));
    NoSpaceOneLine(Decimal(VERSION));
    NoSpaceOneLine(Decimal(vmid));
    NoSpaceOneLine(time);
    NoSpaceOneLine(digest);
  }

  // ---------------------------------------------------------------- the block among other lines

  lemma {:induction false} StartBehind(p: seq<string>, rest: seq<string>)
    requires BlockStart(rest).Some?
    ensures BlockStart(p + rest) == Some(|p| + BlockStart(rest).value)
  {
    hide IsHeader, HasEnd;
    if p == [] {
      assert p + rest == rest;
    } else {
      StartBehind(p[1..], rest);
      assert (p + rest)[1..] == p[1..] + rest;
    }
  }

  lemma {:induction false} NoStart(q: seq<string>, rest: seq<string>)
    requires BlockStart(rest).None? && forall i :: 0 <= i < |q| ==> !IsHeader(q[i])
    ensures BlockStart(q + rest).None?
  {
    hide IsHeader, HasEnd;
    if q == [] {
      assert q + rest == rest;
    } else {
      NoStart(q[1..], rest);
      assert (q + rest)[1..] == q[1..] + rest;
    }
  }

  /** No block starts before a header that is closed. */
  lemma {:induction false} StartsNoEarlier(lines: seq<string>, i: nat, j: nat)
    requires i < j < |lines| && IsHeader(lines[i]) && IsEnd(lines[j])
    ensures BlockStart(lines).Some? && BlockStart(lines).value >= i
  {
    hide IsHeader, IsEnd;
    var rest := lines[1..];
    if i == 0 {
      assert IsEnd(rest[j - 1]);
    } else {
      StartsNoEarlier(rest, i - 1, j - 1);
    }
  }

  lemma Fences()
    ensures !IsHeader(FENCE_OPEN) && !IsHeader(FENCE_CLOSE) && !IsEnd(FENCE_CLOSE)
    ensures TrimEnd(FENCE_OPEN) == FENCE_OPEN && TrimEnd(FENCE_CLOSE) == FENCE_CLOSE
    ensures OneLine(FENCE_OPEN) && OneLine(FENCE_CLOSE)
  {
    assert FENCE_OPEN[0] == '`' && FENCE_CLOSE[0] == '`' && BEGIN[0] == '[';
    assert |FENCE_CLOSE| == 4 && |FENCE_OPEN| == 8;
    assert FENCE_OPEN[7] == 'l' && FENCE_CLOSE[3] == '`';
  }

  lemma EndLine()
    ensures !IsHeader(END) && IsEnd(END) && OneLine(END)
  {
    assert |END| == 11;
    assert END[1] == '/' && BEGIN[1] == 'p' && END[10] == ']';
  }

  /** A document none of whose lines the reader would take for a delimiter. */
  predicate Plain(yaml: string) {
    forall i :: 0 <= i < |Lines(yaml)| ==> !IsHeader(Lines(yaml)[i]) && !IsEnd(Lines(yaml)[i])
  }

  // ---------------------------------------------------------------- found again

  /** The lines of notes around a printed block. */
  function Around(p: seq<string>, vmid: nat, yaml: string, digest: string, time: string, s: seq<string>): seq<string> {
    p + (BlockLines(vmid, yaml, digest, time) + s)
  }

  predicate AllOneLine(lines: seq<string>) {
    forall i :: 0 <= i < |lines| ==> OneLine(lines[i])
  }

  /** What the reader should come up with. */
  function Expected(p: seq<string>, vmid: nat, yaml: string, digest: string, time: string, s: seq<string>): Found {
    var lines := Around(p, vmid, yaml, digest, time, s);
    var j := |p| + |Lines(yaml)| + 3;
    Found(Offset(lines, |p|), Offset(lines, j) + |lines[j]|, Printed(vmid, time, digest), yaml)
  }

  predicate NoHeaders(yaml: string) {
    forall i :: 0 <= i < |Lines(yaml)| ==> !IsHeader(Lines(yaml)[i])
  }

  /** The block by itself. */
  lemma BlockAlone(vmid: nat, yaml: string, digest: string, time: string, s: seq<string>)
    requires vmid <= U32_MAX && NoSpace(time) && NoSpace(digest)
    requires NoHeaders(yaml) && BlockStart(s).None?
    ensures BlockStart(BlockLines(vmid, yaml, digest, time) + s) == Some(0)
  {
    hide Lines, IsHeader, IsEnd, HeaderLine, NoSpace;
    var y := Lines(yaml);
    var lines := BlockLines(vmid, yaml, digest, time) + s;
    HeaderReads(vmid, time, digest);
    Fences();
    EndLine();
    var q := [FENCE_OPEN] + y + [FENCE_CLOSE, END];
    NoStart(q, s);
    assert lines[1..] == q + s;
    assert (q + s)[|y| + 2] == END;
  }

  lemma BlockShape(vmid: nat, yaml: string, digest: string, time: string, s: seq<string>)
    requires vmid <= U32_MAX && NoSpace(time) && NoSpace(digest) && Plain(yaml)
    ensures Shape(BlockLines(vmid, yaml, digest, time) + s) == Some((Printed(vmid, time, digest), Lines(yaml)))
  {
    hide Lines, ParseHeader, IsHeader, IsEnd, HeaderLine, TrimEnd, FirstEnd, NoSpace;
    var y := Lines(yaml);
    var lines := BlockLines(vmid, yaml, digest, time) + s;
    HeaderReads(vmid, time, digest);
    Fences();
    EndLine();
    EndsAt(lines[2..], |y| + 1);
    assert lines[2..|y| + 2] == y;
  }

  lemma EndsAt(lines: seq<string>, n: nat)
    requires n < |lines| && IsEnd(lines[n]) && forall i :: 0 <= i < n ==> !IsEnd(lines[i])
    ensures FirstEnd(lines) == n
  {
    hide FirstEnd, IsEnd;
    var m := FirstEnd(lines);
    assert m < n ==> m < |lines|;
  }

  lemma AroundOneLine(p: seq<string>, vmid: nat, yaml: string, digest: string, time: string, s: seq<string>)
    requires AllOneLine(p) && AllOneLine(s) && NoSpace(time) && NoSpace(digest)
    ensures AllOneLine(Around(p, vmid, yaml, digest, time, s))
  {
    hide Lines, OneLine, HeaderLine, NoSpace;
    HeaderIsOneLine(vmid, time, digest);
    Fences();
    EndLine();
    UnlinesLines(yaml);
  }

  /** Whatever notes stand before and after it, so long as no other block comes after, a
      printed block is found as printed. */
  lemma FoundAgain(p: seq<string>, vmid: nat, yaml: string, digest: string, time: string, s: seq<string>)
    requires AllOneLine(p) && AllOneLine(s) && BlockStart(s).None?
    requires vmid <= U32_MAX && NoSpace(time) && NoSpace(digest) && Plain(yaml)
    ensures FindIn(Unlines(Around(p, vmid, yaml, digest, time, s))) == Block(Expected(p, vmid, yaml, digest, time, s))
  {
    hide Lines, Unlines, Shape, BlockStart, Plain, NoSpace, OneLine, Offset, HeaderLine;
    var b := BlockLines(vmid, yaml, digest, time) + s;
    var lines := Around(p, vmid, yaml, digest, time, s);
    AroundOneLine(p, vmid, yaml, digest, time, s);
    LinesUnlines(lines);
    PlainHasNoHeaders(yaml);
    BlockAlone(vmid, yaml, digest, time, s);
    BlockShape(vmid, yaml, digest, time, s);
    StartBehind(p, b);
    assert lines[|p|..] == b;
    UnlinesLines(yaml);
  }

  lemma PlainHasNoHeaders(yaml: string)
    requires Plain(yaml)
    ensures NoHeaders(yaml)
  {
  }

  // ---------------------------------------------------------------- and only then

  lemma {:induction false} OffsetsGrow(lines: seq<string>, i: nat, j: nat)
    requires i < j <= |lines|
    ensures Offset(lines, i) + |lines[i]| < Offset(lines, j)
  {
    if i < j - 1 { OffsetsGrow(lines, i, j - 1); }
  }

  /** A header line in the document is taken for the block's. */
  lemma HeaderMisleads(p: seq<string>, vmid: nat, yaml: string, digest: string, time: string, s: seq<string>)
    requires AllOneLine(p) && AllOneLine(s) && BlockStart(s).None?
    requires vmid <= U32_MAX && NoSpace(time) && NoSpace(digest) && !NoHeaders(yaml)
    ensures FindIn(Unlines(Around(p, vmid, yaml, digest, time, s))) != Block(Expected(p, vmid, yaml, digest, time, s))
  {
    hide Lines, Unlines, Shape, BlockStart, NoSpace, OneLine, Offset, HeaderLine, IsHeader, IsEnd;
    var lines := Around(p, vmid, yaml, digest, time, s);
    AroundOneLine(p, vmid, yaml, digest, time, s);
    LinesUnlines(lines);
    var y := Lines(yaml);
    var k :| 0 <= k < |y| && IsHeader(y[k]);
    EndLine();
    assert lines[|p| + 2 + k] == y[k] && lines[|p| + |y| + 3] == END;
    StartsNoEarlier(lines, |p| + 2 + k, |p| + |y| + 3);
    OffsetsGrow(lines, |p|, BlockStart(lines).value);
  }

  /** An end line in the document ends the block. */
  lemma EndMisleads(p: seq<string>, vmid: nat, yaml: string, digest: string, time: string, s: seq<string>)
    requires AllOneLine(p) && AllOneLine(s) && BlockStart(s).None?
    requires vmid <= U32_MAX && NoSpace(time) && NoSpace(digest) && NoHeaders(yaml) && !Plain(yaml)
    ensures FindIn(Unlines(Around(p, vmid, yaml, digest, time, s))) != Block(Expected(p, vmid, yaml, digest, time, s))
  {
    hide Lines, Unlines, BlockStart, NoSpace, OneLine, Offset, HeaderLine, IsHeader, IsEnd, ParseHeader, TrimEnd, FirstEnd;
    var b := BlockLines(vmid, yaml, digest, time) + s;
    var lines := Around(p, vmid, yaml, digest, time, s);
    AroundOneLine(p, vmid, yaml, digest, time, s);
    LinesUnlines(lines);
    BlockAlone(vmid, yaml, digest, time, s);
    StartBehind(p, b);
    assert lines[|p|..] == b;
    var y := Lines(yaml);
    var k :| 0 <= k < |y| && IsEnd(y[k]);
    assert b[2..][k] == y[k];
    var n := FirstEnd(b[2..]);
    assert n <= k;
    OffsetsGrow(lines, |p| + n + 2, |p| + |y| + 3);
  }

  /** A printed block is found as printed if and only if no line of the document would be
      taken for a delimiter. */
  lemma FoundIffPlain(p: seq<string>, vmid: nat, yaml: string, digest: string, time: string, s: seq<string>)
    requires AllOneLine(p) && AllOneLine(s) && BlockStart(s).None?
    requires vmid <= U32_MAX && NoSpace(time) && NoSpace(digest)
    ensures FindIn(Unlines(Around(p, vmid, yaml, digest, time, s))) == Block(Expected(p, vmid, yaml, digest, time, s))
            <==> Plain(yaml)
  {
    hide FindIn, Expected, Plain, NoHeaders, BlockStart;
    if Plain(yaml) {
      FoundAgain(p, vmid, yaml, digest, time, s);
    } else if NoHeaders(yaml) {
      EndMisleads(p, vmid, yaml, digest, time, s);
    } else {
      HeaderMisleads(p, vmid, yaml, digest, time, s);
    }
  }

  // ---------------------------------------------------------------- on texts

  lemma RenderedLines(vmid: nat, yaml: string, digest: string, time: string)
    ensures Render(vmid, yaml, digest, time).Some? <==> Utf8Length(TrimEndOf(yaml, '\n')) <= MAX_YAML_BYTES
    ensures Render(vmid, yaml, digest, time).Some? ==>
              Render(vmid, yaml, digest, time).value == Unlines(BlockLines(vmid, TrimEndOf(yaml, '\n'), digest, time))
  {
    hide Unlines, HeaderLine, Utf8Length, Lines;
    var body, h := TrimEndOf(yaml, '\n'), HeaderLine(vmid, time, digest);
    var y := Lines(body);
    UnlinesLines(body);
    UnlinesJoin([h, FENCE_OPEN] + y, [FENCE_CLOSE, END]);
    UnlinesJoin([h, FENCE_OPEN], y);
    UnlinesTwo(h, FENCE_OPEN);
    UnlinesTwo(FENCE_CLOSE, END);
  }

  lemma UnlinesTwo(a: string, b: string)
    ensures Unlines([a, b]) == a + "\n" + b
  {
    assert [a, b][1..] == [b];
  }

  /** Notes with a printed block on a line of its own after them. */
  function Appended(notes: string, block: string): string {
    notes + "\n" + block
  }

  /** The whole trip: for any notes, and any document without delimiter lines that fits, the
      block after the notes is found, spans exactly what was printed, holds the document and
      says which guest, when and what digest; and taking it out leaves the notes, trimmed. */
  lemma RoundTrip(notes: string, vmid: nat, yaml: string, digest: string, time: string)
    requires vmid <= U32_MAX && NoSpace(time) && NoSpace(digest)
    requires Plain(TrimEndOf(yaml, '\n')) && Render(vmid, yaml, digest, time).Some?
    ensures var block := Render(vmid, yaml, digest, time).value;
            var text := Appended(notes, block);
            var r := FindIn(text);
            && r.Block? && r.found.start == |notes| + 1 && r.found.end == |text|
            && text[r.found.start..r.found.end] == block
            && r.found.header == Printed(vmid, time, digest)
            && r.found.yaml == TrimEndOf(yaml, '\n')
            && Strip(text, r.found) == TrimEnd(notes)
  {
    hide Unlines, Lines, Offset, FindIn, BlockStart, Plain, Strip, BlockLines, NoSpace, Render, Expected, TrimEnd;
    var body := TrimEndOf(yaml, '\n');
    var b := BlockLines(vmid, body, digest, time);
    RenderedLines(vmid, yaml, digest, time);
    UnlinesLines(notes);
    AppendedIs(notes, vmid, body, digest, time);
    StartOfScan([]);
    FoundAgain(Lines(notes), vmid, body, digest, time, []);
    StripsLast(notes, Unlines(b), Expected(Lines(notes), vmid, body, digest, time, []));
    CutAfter(notes + "\n", Unlines(b), "");
  }

  /** The block's place in notes it is the last thing in. */
  lemma AppendedIs(notes: string, vmid: nat, yaml: string, digest: string, time: string)
    ensures var text := Appended(notes, Unlines(BlockLines(vmid, yaml, digest, time)));
            var f := Expected(Lines(notes), vmid, yaml, digest, time, []);
            && text == Unlines(Around(Lines(notes), vmid, yaml, digest, time, []))
            && f.start == |notes| + 1 && f.end == |text|
            && f.yaml == yaml && f.header == Printed(vmid, time, digest)
  {
    hide Unlines, Lines, Offset, HeaderLine;
    var p, b := Lines(notes), BlockLines(vmid, yaml, digest, time);
    var lines := Around(p, vmid, yaml, digest, time, []);
    assert b + [] == b && lines == p + b;
    UnlinesLines(notes);
    UnlinesJoin(p, b);
    SplitAtLine(lines, |p|);
    assert lines[..|p|] == p;
    SplitAfterLine(lines, |lines| - 1);
  }

  lemma StripsLast(notes: string, block: string, f: Found)
    requires f.start == |notes| + 1 && f.end == |notes| + 1 + |block|
    ensures Strip(Appended(notes, block), f) == TrimEnd(notes)
  {
    var text := Appended(notes, block);
    assert text[..f.start] == notes + ['\n'];
    assert text[f.end..] == "";
    TrimMore(notes, '\n');
    var t := TrimEnd(notes);
    assert t + "" + "" == t;
  }
}
