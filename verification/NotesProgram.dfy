/** The notes block as the program finds it and takes it out: offsets are bytes of UTF-8.
    Source: crates/pve-meta-core/src/backup.rs. */
module NotesProgram {
  import opened Values
  import opened Decimals
  import opened Text
  import opened NotesBlock
  import B = BlockRoundTrip
  import S = BlockStrip
  import K = BlockShape

  /** The byte offset of a character. */
  function ByteAt(text: string, i: nat): nat
    requires i <= |text|
  {
    Utf8Length(text[..i])
  }

  function InBytes(text: string, f: Found): Found
    requires f.start <= |text| && f.end <= |text|
  {
    f.(start := ByteAt(text, f.start), end := ByteAt(text, f.end))
  }

  /** What the search finds, with its offsets in bytes. */
  function FoundIn(text: string): Search {
    match FindIn(text)
    case Block(f) => S.FoundBounds(text); Block(InBytes(text, f))
    case other => other
  }

  // ---------------------------------------------------------------- lines in bytes

  function ByteOffset(lines: seq<string>, i: nat): nat
    requires i <= |lines|
  {
    if i == 0 then 0 else ByteOffset(lines, i - 1) + Utf8Length(lines[i - 1]) + 1
  }

  function ByteOffsetIn(lines: seq<string>, i: Option<nat>): Option<nat>
    requires i.Some? ==> i.value <= |lines|
  {
    match i case None => None case Some(i) => Some(ByteOffset(lines, i))
  }

  lemma NewlineIsOneByte()
    ensures Utf8Length("\n") == 1 && Utf8Length("") == 0
  {
  }

  lemma {:induction false} ByteOffsetLength(lines: seq<string>, i: nat)
    requires 0 < i <= |lines|
    ensures ByteOffset(lines, i) == Utf8Length(Unlines(lines[..i])) + 1
  {
    hide Utf8Length;
    NewlineIsOneByte();
    if i == 1 {
      assert lines[..1] == [lines[0]] && ByteOffset(lines, 0) == 0;
    } else {
      ByteOffsetLength(lines, i - 1);
      var init, last := Unlines(lines[..i - 1]), lines[i - 1];
      UnlinesJoin(lines[..i - 1], [last]);
      assert lines[..i] == lines[..i - 1] + [last];
      Utf8Join(init + "\n", last);
      Utf8Join(init, "\n");
    }
  }

  /** A line begins at the byte its character offset says. */
  lemma LineAtByte(lines: seq<string>, i: nat)
    requires i < |lines|
    ensures Offset(lines, i) <= |Unlines(lines)| && ByteAt(Unlines(lines), Offset(lines, i)) == ByteOffset(lines, i)
  {
    hide Utf8Length, Unlines, Offset, ByteOffset;
    SplitAtLine(lines, i);
    NewlineIsOneByte();
    if i == 0 {
      NoBytes(lines);
    } else {
      ByteOffsetLength(lines, i);
      Utf8Join(Unlines(lines[..i]), "\n");
    }
  }

  lemma NoBytes(lines: seq<string>)
    ensures ByteOffset(lines, 0) == 0 && Offset(lines, 0) == 0
  {
  }

  lemma {:induction false} ByteOffsetFrom(lines: seq<string>, i: nat, c: nat)
    requires i + c <= |lines|
    ensures ByteOffset(lines, i + c) == ByteOffset(lines, i) + ByteOffset(lines[i..], c)
  {
    hide Utf8Length;
    if c > 0 { ByteOffsetFrom(lines, i, c - 1); }
  }

  lemma ByteLineOn(lines: seq<string>, k: nat)
    requires k < |lines|
    ensures ByteOffset(lines, k + 1) == ByteOffset(lines, k) + Utf8Length(lines[k]) + 1
  {
  }

  // ---------------------------------------------------------------- finding

  /** `last_header`: one pass, remembering the last header and the last one closed. */
  method LastHeader(text: string) returns (block: Option<nat>)
    ensures block == ByteOffsetIn(Lines(text), BlockStart(Lines(text)))
  {
    hide IsHeader, IsEnd, ByteOffset, BlockStart, LastHeaderIn, Lines, Utf8Length;
    var lines := Lines(text);
    var offset, header := 0, None;
    block := None;
    StartOfScan(lines);
    NoBytes(lines);
    for k := 0 to |lines|
      invariant offset == ByteOffset(lines, k)
      invariant header == ByteOffsetIn(lines, LastHeaderIn(lines[..k]))
      invariant block == ByteOffsetIn(lines, BlockStart(lines[..k]))
    {
      var l := TrimEndOf(lines[k], '\r');
      assert lines[..k + 1] == lines[..k] + [lines[k]];
      BlockStartAtEnd(lines[..k], lines[k]);
      LastHeaderAtEnd(lines[..k], lines[k]);
      BlockHasHeader(lines[..k]);
      ByteLineOn(lines, k);
      Tests(lines[k]);
      if StartsWith(l, BEGIN) && EndsWith(l, ']') {
        header := Some(offset);
      } else if TrimEnd(l) == END && header.Some? {
        block := header;
      }
      offset := offset + Utf8Length(lines[k]) + 1;
    }
    assert lines[..|lines|] == lines;
  }

  /** The header, the opening fence, the body up to the end line, the closing fence. */
  method ReadShape(lines: seq<string>) returns (r: Option<(Header, seq<string>)>)
    requires lines != []
    ensures r == Shape(lines)
  {
    hide ParseHeader, IsEnd, TrimEnd, FirstEnd;
    var h := ParseHeader(lines[0]);
    if h.None? || h.value.version != VERSION { return None; }
    if |lines| < 2 || TrimEnd(lines[1]) != FENCE_OPEN { return None; }
    var body, closed := Body(lines[2..]);
    if !closed || body == [] || TrimEnd(body[|body| - 1]) != FENCE_CLOSE { return None; }
    body := body[..|body| - 1];
    assert body == lines[2..|body| + 2];
    return Some((h.value, body));
  }

  /** The lines before the end line, and whether there is one. */
  method Body(lines: seq<string>) returns (body: seq<string>, closed: bool)
    ensures body == lines[..FirstEnd(lines)] && (closed <==> FirstEnd(lines) < |lines|)
  {
    hide IsEnd;
    body := [];
    for k := 0 to |lines|
      invariant body == lines[..k] && forall i :: 0 <= i < k ==> !IsEnd(lines[i])
    {
      Tests(lines[k]);
      TrimBoth(lines[k]);
      if TrimEnd(lines[k]) == END {
        return body, true;
      }
      body := body + [lines[k]];
    }
    closed := false;
  }

  /** The bytes of the first lines with their newlines; only a text's last line has none. */
  method Consumed(lines: seq<string>, n: nat) returns (length: nat)
    requires 0 < n <= |lines|
    ensures length == ByteOffset(lines, n) - if n == |lines| then 1 else 0
  {
    hide Utf8Length;
    length := 0;
    for k := 0 to n
      invariant length == ByteOffset(lines, k) - if k == |lines| then 1 else 0
    {
      length := length + Utf8Length(lines[k]) + if k + 1 < |lines| then 1 else 0;
    }
  }

  /** The counted bytes end where the counted characters do... */
  lemma CountedTo(lines: seq<string>, i: nat, c: nat)
    requires 0 < c && i + c <= |lines|
    ensures var text, last := Unlines(lines), if c == |lines[i..]| then 1 else 0;
            var end := Offset(lines, i) + Offset(lines[i..], c) - last;
            && 0 <= end <= |text|
            && ByteAt(text, end) == ByteOffset(lines, i) + ByteOffset(lines[i..], c) - last
  {
    hide Utf8Length, Unlines, Offset, ByteOffset;
    OffsetFrom(lines, i, c);
    ByteOffsetFrom(lines, i, c);
    if i + c < |lines| {
      LineAtByte(lines, i + c);
    } else {
      OffsetLength(lines, |lines|);
      ByteOffsetLength(lines, |lines|);
      assert lines[..|lines|] == lines;
      var text := Unlines(lines);
      assert text[..|text|] == text;
    }
  }

  /** ...and a newline taken off is one byte. */
  lemma NewlineOff(text: string, end: nat)
    requires 0 < end <= |text| && EndsWith(text[..end], '\n')
    ensures ByteAt(text, end) == ByteAt(text, end - 1) + 1
  {
    hide Utf8Length;
    assert text[..end] == text[..end - 1] + "\n";
    Utf8Join(text[..end - 1], "\n");
    NewlineIsOneByte();
  }

  /** The bytes up to the end of the `c` lines from line `i` on, as they are counted. */
  function Counted(lines: seq<string>, i: nat, c: nat): nat
    requires 0 < c && i + c <= |lines|
  {
    ByteOffset(lines, i) + ByteOffset(lines[i..], c) - if c == |lines[i..]| then 1 else 0
  }

  /** The character behind a line. */
  function Behind(lines: seq<string>, j: nat): nat
    requires j < |lines|
  {
    Offset(lines, j) + |lines[j]|
  }

  /** Where the block ends, in bytes. */
  lemma ByteEnd(lines: seq<string>, i: nat, c: nat)
    requires B.AllOneLine(lines) && 0 < c && i + c <= |lines| && IsEnd(lines[i + c - 1])
    ensures Behind(lines, i + c - 1) <= |Unlines(lines)|
    ensures Counted(lines, i, c) - (if EndsWith(UpToByte(Unlines(lines), Counted(lines, i, c)), '\n') then 1 else 0)
            == ByteAt(Unlines(lines), Behind(lines, i + c - 1))
  {
    hide Utf8Length, Unlines, Offset, ByteOffset, EndsWith, IsEnd, OneLine;
    var text, last := Unlines(lines), if c == |lines[i..]| then 1 else 0;
    var end := Offset(lines, i) + Offset(lines[i..], c) - last;
    CountedTo(lines, i, c);
    EndComputed(lines, i, c);
    SliceAtByte(text, end);
    if EndsWith(text[..end], '\n') {
      Inked(text, end);
      NewlineOff(text, end);
    }
  }

  lemma Inked(text: string, end: nat)
    requires end <= |text| && EndsWith(text[..end], '\n')
    ensures end > 0
  {
  }

  /** `find`: the lengths of the block's lines tell where it ends. */
  method Find(text: string) returns (r: Search)
    ensures r == FoundIn(text)
    ensures r.NoBlock? <==> forall i: nat :: !K.Closed(Lines(text), i)
    ensures r.Block? <==> exists i: nat, n: nat :: K.LastClosed(Lines(text), i) && K.Shaped(Lines(text), i, n)
    ensures r.Block? ==> FindIn(text).Block? && K.Locates(Lines(text), FindIn(text).found)
  {
    K.FindMeans(text);
    hide K.Locates, K.Closed, K.LastClosed, K.Shaped, Lines, Offset, ByteOffset, BlockStart, IsEnd, Unlines, Join, EndsWith, Shape, ByteAt, UpToByte, FromByte;
    var at := LastHeader(text);
    if at.None? { return NoBlock; }
    var start := at.value;
    ghost var all := Lines(text);
    ghost var i := BlockStart(all).value;
    UnlinesLines(text);
    RestAt(all, i);
    var lines := Lines(FromByte(text, start));
    assert lines == all[i..];
    var shape := ReadShape(lines);
    if shape.None? { return Malformed; }
    var (h, body) := shape.value;
    var consumed := 2 + |body| + 2;
    var length := Consumed(lines, consumed);
    var end := start + length;
    ByteEnd(all, i, consumed);
    if EndsWith(UpToByte(text, end), '\n') { end := end - 1; }
    return Block(Found(start, end, h, Join(body)));
  }

  /** The lines from a line on, read from its byte on. */
  lemma RestAt(lines: seq<string>, i: nat)
    requires i < |lines| && B.AllOneLine(lines)
    ensures Lines(FromByte(Unlines(lines), ByteOffset(lines, i))) == lines[i..]
    ensures Offset(lines, i) <= |Unlines(lines)| && ByteAt(Unlines(lines), Offset(lines, i)) == ByteOffset(lines, i)
  {
    hide Lines, Unlines, Offset, ByteOffset, FromByte, OneLine, Utf8Length;
    LineAtByte(lines, i);
    SliceAtByte(Unlines(lines), Offset(lines, i));
    SplitAtLine(lines, i);
    LinesUnlines(lines[i..]);
  }

  // ---------------------------------------------------------------- taking it out

  /** `strip`, with the offsets the search gives. */
  function StripBytes(text: string, f: Found): string {
    var before := TrimEnd(UpToByte(text, f.start));
    var after := TrimStartOf(FromByte(text, f.end), '\n');
    TrimEnd(before + (if before != "" && TrimEnd(after) != "" then "\n" else "") + after)
  }

  lemma StripsTheSame(text: string, f: Found)
    requires f.start <= f.end <= |text|
    ensures StripBytes(text, InBytes(text, f)) == Strip(text, f)
  {
    hide TrimEnd, TrimStartOf;
    SliceAtByte(text, f.start);
    SliceAtByte(text, f.end);
  }

  /** `strip_all`: until nothing more is found. */
  method StripAllBlocks(text: string) returns (out: string)
    ensures out == S.StripAll(text)
  {
    hide FindIn, Strip, StripBytes, InBytes;
    out := text;
    var r := Find(out);
    while r.Block?
      invariant r == FoundIn(out) && S.StripAll(out) == S.StripAll(text)
      decreases |out|
    {
      S.StripShortens(out);
      StripsTheSame(out, FindIn(out).found);
      out := StripBytes(out, r.found);
      r := Find(out);
    }
  }

  // ---------------------------------------------------------------- the whole trip, in bytes

  /** The block after any notes is found from the byte after their newline to the last byte. */
  lemma RoundTrip(notes: string, vmid: nat, yaml: string, digest: string, time: string)
    requires vmid <= U32_MAX && NoSpace(time) && NoSpace(digest)
    requires B.Plain(TrimEndOf(yaml, '\n')) && Render(vmid, yaml, digest, time).Some?
    ensures var text := B.Appended(notes, Render(vmid, yaml, digest, time).value);
            FoundIn(text) == Block(Found(Utf8Length(notes) + 1, Utf8Length(text), B.Printed(vmid, time, digest), TrimEndOf(yaml, '\n')))
  {
    hide FindIn, Utf8Length, Render, B.Plain, NoSpace, Strip;
    B.RoundTrip(notes, vmid, yaml, digest, time);
    var text := B.Appended(notes, Render(vmid, yaml, digest, time).value);
    NewlineIsOneByte();
    Utf8Join(notes, "\n");
    assert text[..|notes| + 1] == notes + "\n" && text[..|text|] == text;
  }
}
