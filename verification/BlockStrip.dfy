/** Taking blocks out of notes, one and all. */
module BlockStrip {
  import opened Values
  import opened Decimals
  import opened Text
  import opened NotesBlock
  import B = BlockRoundTrip

  /** A block found lies within the text and is longer than a newline. */
  lemma FoundBounds(text: string)
    requires FindIn(text).Block?
    ensures var f := FindIn(text).found; f.start + 1 < f.end <= |text|
  {
    hide Lines, Unlines, Offset, BlockStart, Shape;
    var lines := Lines(text);
    var i := BlockStart(lines).value;
    var j := i + |Shape(lines[i..]).value.1| + 3;
    HeaderIsLong(lines[i..]);
    UnlinesLines(text);
    SplitAfterLine(lines, j);
    B.OffsetsGrow(lines, i, j);
  }

  lemma HeaderIsLong(lines: seq<string>)
    requires lines != [] && Shape(lines).Some?
    ensures |lines[0]| > 1
  {
    hide FirstEnd, IsEnd;
    assert ParseHeader(lines[0]).Some?;
  }

  /** So the notes without it are shorter. */
  lemma StripShortens(text: string)
    requires FindIn(text).Block?
    ensures var f := FindIn(text).found; f.start <= f.end <= |text| && |Strip(text, f)| < |text|
  {
    hide FindIn, TrimEnd;
    FoundBounds(text);
  }

  /** `strip_all`. */
  function StripAll(text: string): string
    decreases |text|
  {
    match FindIn(text)
    case Block(f) => StripShortens(text); StripAll(Strip(text, f))
    case _ => text
  }

  /** It ends where there is no block, or one that is malformed. */
  lemma {:induction false} StripAllEnds(text: string)
    ensures !FindIn(StripAll(text)).Block?
    decreases |text|
  {
    hide FindIn, Strip;
    if FindIn(text).Block? {
      StripShortens(text);
      StripAllEnds(Strip(text, FindIn(text).found));
    }
  }

  /** Taking a block out loses nothing but the block and white space. */
  lemma StripKeepsInk(text: string, f: Found)
    requires f.start <= f.end <= |text|
    ensures Ink(Strip(text, f)) == Ink(text[..f.start]) + Ink(text[f.end..])
  {
    hide TrimEnd, TrimStartOf, Ink, IsSpace;
    var before := TrimEnd(text[..f.start]);
    var after := TrimStartOf(text[f.end..], '\n');
    var gap := if before != "" && TrimEnd(after) != "" then "\n" else "";
    TrimKeepsInk(text[..f.start]);
    NewlinesHaveNoInk(text[f.end..]);
    TrimKeepsInk(before + gap + after);
    InkJoin(before + gap, after);
    InkJoin(before, gap);
    NoInk();
  }

  lemma NoInk()
    ensures Ink("\n") == "" && Ink("") == ""
  {
  }

  // ---------------------------------------------------------------- what it leaves

  const MENTION: string := "[pve-meta v1]"

  /** A malformed block at the end hides every block before it: they all stay, although
      they are well formed. */
  lemma MalformedHidesEarlier(p: seq<string>, vmid: nat, yaml: string, digest: string, time: string)
    requires B.AllOneLine(p) && vmid <= U32_MAX && NoSpace(time) && NoSpace(digest) && B.Plain(yaml)
    ensures var block := p + BlockLines(vmid, yaml, digest, time);
            var text := Unlines(block + [MENTION, END]);
            FindIn(Unlines(block)).Block? && FindIn(text) == Malformed && StripAll(text) == text
  {
    hide B.Plain, NoSpace, Lines, Unlines, BlockStart, Offset, BlockLines;
    var block := p + BlockLines(vmid, yaml, digest, time);
    var last := [MENTION, END];
    B.FoundAgain(p, vmid, yaml, digest, time, []) by { StartOfScan([]); }
    assert B.Around(p, vmid, yaml, digest, time, []) == block by {
      assert BlockLines(vmid, yaml, digest, time) + [] == BlockLines(vmid, yaml, digest, time);
    }
    MentionStarts();
    B.AroundOneLine(p, vmid, yaml, digest, time, last);
    var lines := block + last;
    assert B.Around(p, vmid, yaml, digest, time, last) == lines;
    LinesUnlines(lines);
    B.StartBehind(block, last);
    assert lines[|block|..] == last;
  }

  lemma MentionStarts()
    ensures BlockStart([MENTION, END]) == Some(0) && Shape([MENTION, END]).None?
    ensures B.AllOneLine([MENTION, END])
  {
    hide ParseHeader;
    B.EndLine();
    B.Fences();
    assert MENTION == BEGIN + "1]";
    assert [MENTION, END][1..] == [END] && [END][1..] == [];
    assert IsEnd([END][0]);
    assert |MENTION| == 13 && MENTION[12] == ']';
    assert END[0] == '[' && FENCE_OPEN[0] == '`' && |END| == 11;
    assert TrimEnd(END) == END;
  }
}
