/** A document inside the notes of a guest: how it is printed there, found among other text,
    and cut out again.
    Source: crates/pve-meta-core/src/backup.rs. */
module NotesBlock {
  import opened Values
  import opened Decimals
  import opened Text

  const BEGIN: string := "[pve-meta v"
  const END: string := "[/pve-meta]"
  const FENCE_OPEN: string := "````yaml"
  const FENCE_CLOSE: string := "````"
  const VERSION: nat := 1
  const MAX_YAML_BYTES: nat := 16384

  datatype Header = Header(version: nat, vmid: Option<nat>, time: Option<string>, sha: Option<string>)

  datatype Found = Found(start: nat, end: nat, header: Header, yaml: string)

  datatype Search = NoBlock | Malformed | Block(found: Found)

  // ---------------------------------------------------------------- printing

  function Fields(vmid: nat, time: string, digest: string): string {
    Decimal(VERSION) + " " + ("vmid=" + Decimal(vmid) + " " + ("time=" + time + " " + ("sha256=" + digest)))
  }

  function HeaderLine(vmid: nat, time: string, digest: string): string {
    BEGIN + Fields(vmid, time, digest) + "]"
  }

  function BlockLines(vmid: nat, yaml: string, digest: string, time: string): (r: seq<string>)
    ensures |r| == |Lines(yaml)| + 4
  {
    [HeaderLine(vmid, time, digest), FENCE_OPEN] + Lines(yaml) + [FENCE_CLOSE, END]
  }

  /** `render`: the document without its final newlines, unless it is too large to carry. */
  function Render(vmid: nat, yaml: string, digest: string, time: string): Option<string> {
    var body := TrimEndOf(yaml, '\n');
    if Utf8Length(body) > MAX_YAML_BYTES then None
    else Some(HeaderLine(vmid, time, digest) + "\n" + FENCE_OPEN + "\n" + body + "\n" + FENCE_CLOSE + "\n" + END)
  }

  // ---------------------------------------------------------------- reading the header

  /** One field; unknown ones are skipped. */
  function ReadField(h: Header, field: string): Header {
    match SplitOnce(field, '=')
    case None => h
    case Some((k, v)) =>
      if k == "vmid" then h.(vmid := ParseU32(v))
      else if k == "time" then h.(time := Some(v))
      else if k == "sha256" then h.(sha := Some(v))
      else h
  }

  /** The fields in any order, the last of a name winning. */
  function ReadFields(h: Header, fields: seq<string>): Header
    decreases |fields|
  {
    if fields == [] then h else ReadFields(ReadField(h, fields[0]), fields[1..])
  }

  function ParseHeader(line: string): Option<Header> {
    var l := TrimEnd(line);
    if !StartsWith(l, BEGIN) || !EndsWith(l[|BEGIN|..], ']') then None
    else
      var fields := Words(l[|BEGIN|..|l| - 1]);
      if fields == [] then None
      else match ParseU32(fields[0])
        case None => None
        case Some(version) => Some(ReadFields(Header(version, None, None, None), fields[1..]))
  }

  // ---------------------------------------------------------------- finding the block

  predicate IsHeader(line: string) {
    var l := TrimEndOf(line, '\r');
    StartsWith(l, BEGIN) && EndsWith(l, ']')
  }

  predicate IsEnd(line: string) {
    TrimEnd(line) == END
  }

  predicate HasEnd(lines: seq<string>) {
    exists i :: 0 <= i < |lines| && IsEnd(lines[i])
  }

  /** Of the headers that some later line closes, the one furthest down. */
  function BlockStart(lines: seq<string>): (r: Option<nat>)
    ensures r.Some? ==> r.value < |lines|
  {
    if lines == [] then None
    else match BlockStart(lines[1..])
      case Some(i) => Some(i + 1)
      case None => if IsHeader(lines[0]) && HasEnd(lines[1..]) then Some(0) else None
  }

  function FirstEnd(lines: seq<string>): (n: nat)
    ensures n <= |lines|
    ensures forall i :: 0 <= i < n ==> !IsEnd(lines[i])
    ensures n < |lines| ==> IsEnd(lines[n])
  {
    if lines == [] || IsEnd(lines[0]) then 0 else 1 + FirstEnd(lines[1..])
  }

  /** Where line `i` begins in the text. */
  function Offset(lines: seq<string>, i: nat): nat
    requires i <= |lines|
  {
    if i == 0 then 0 else Offset(lines, i - 1) + |lines[i - 1]| + 1
  }

  function Join(lines: seq<string>): string {
    if lines == [] then "" else Unlines(lines)
  }

  /** What a block at the head of `lines` holds, if its shape is right: a header, an
      opening fence, the document, a closing fence, an end line. */
  function Shape(lines: seq<string>): (r: Option<(Header, seq<string>)>)
    requires lines != []
    ensures r.Some? ==> |r.value.1| + 3 < |lines| && IsEnd(lines[|r.value.1| + 3])
  {
    match ParseHeader(lines[0])
    case None => None
    case Some(h) =>
      if h.version != VERSION || |lines| < 2 || TrimEnd(lines[1]) != FENCE_OPEN then None
      else
        var n := FirstEnd(lines[2..]);
        if n == 0 || n + 2 == |lines| || TrimEnd(lines[n + 1]) != FENCE_CLOSE then None
        else Some((h, lines[2..n + 1]))
  }

  /** The block that starts at line `i`. */
  function ReadBlock(lines: seq<string>, i: nat): Search
    requires i < |lines|
  {
    match Shape(lines[i..])
    case None => Malformed
    case Some((h, body)) =>
      var j := i + |body| + 3;
      Block(Found(Offset(lines, i), Offset(lines, j) + |lines[j]|, h, Join(body)))
  }

  function FindIn(text: string): Search {
    var lines := Lines(text);
    match BlockStart(lines)
    case None => NoBlock
    case Some(i) => ReadBlock(lines, i)
  }

  // ---------------------------------------------------------------- taking it out

  /** `strip`. */
  function Strip(text: string, f: Found): string
    requires f.start <= f.end <= |text|
  {
    var before := TrimEnd(text[..f.start]);
    var after := TrimStartOf(text[f.end..], '\n');
    TrimEnd(before + (if before != "" && TrimEnd(after) != "" then "\n" else "") + after)
  }

  // ---------------------------------------------------------------- line by line

  lemma {:induction false} BlockStartAtEnd(lines: seq<string>, x: string)
    ensures BlockStart(lines + [x]) == if IsEnd(x) then LastHeaderIn(lines) else BlockStart(lines)
  {
    hide IsHeader, IsEnd;
    var all := lines + [x];
    if lines == [] {
      assert all[1..] == [];
    } else {
      BlockStartAtEnd(lines[1..], x);
      assert all[1..] == lines[1..] + [x];
      HasEndAtEnd(lines[1..], x);
    }
  }

  lemma HasEndAtEnd(lines: seq<string>, x: string)
    ensures HasEnd(lines + [x]) <==> IsEnd(x) || HasEnd(lines)
  {
    hide IsEnd;
    var all := lines + [x];
    if IsEnd(x) { assert IsEnd(all[|lines|]); }
    if HasEnd(lines) {
      var i :| 0 <= i < |lines| && IsEnd(lines[i]);
      assert IsEnd(all[i]);
    }
  }

  function LastHeaderIn(lines: seq<string>): (r: Option<nat>)
    ensures r.Some? ==> r.value < |lines|
  {
    if lines == [] then None
    else match LastHeaderIn(lines[1..])
      case Some(i) => Some(i + 1)
      case None => if IsHeader(lines[0]) then Some(0) else None
  }

  lemma {:induction false} LastHeaderAtEnd(lines: seq<string>, x: string)
    ensures LastHeaderIn(lines + [x]) == if IsHeader(x) then Some(|lines|) else LastHeaderIn(lines)
  {
    hide IsHeader;
    var all := lines + [x];
    if lines == [] {
      assert all[1..] == [];
    } else {
      LastHeaderAtEnd(lines[1..], x);
      assert all[1..] == lines[1..] + [x];
    }
  }

  lemma {:induction false} BlockHasHeader(lines: seq<string>)
    ensures BlockStart(lines).Some? ==> LastHeaderIn(lines).Some?
  {
    if lines != [] { BlockHasHeader(lines[1..]); }
  }

  /** A header is not an end line. */
  lemma HeaderIsNoEnd(line: string)
    requires IsHeader(line)
    ensures !IsEnd(line)
  {
    var l, t := TrimEndOf(line, '\r'), TrimEnd(line);
    assert l[1] == BEGIN[1] == 'p';
    assert |t| > 1 ==> t[1] == line[1] == l[1];
    assert END[1] == '/';
  }

  lemma {:induction false} TrimBoth(line: string)
    ensures TrimEnd(TrimEndOf(line, '\r')) == TrimEnd(line)
  {
    if line != "" && line[|line| - 1] == '\r' { TrimBoth(line[..|line| - 1]); }
  }

  lemma Tests(line: string)
    ensures var l := TrimEndOf(line, '\r');
            && (IsHeader(line) <==> StartsWith(l, BEGIN) && EndsWith(l, ']'))
            && (IsEnd(line) <==> TrimEnd(l) == END)
            && !(IsHeader(line) && IsEnd(line))
  {
    TrimBoth(line);
    if IsHeader(line) { HeaderIsNoEnd(line); }
  }

  lemma OneLineOn(lines: seq<string>, k: nat)
    requires k < |lines|
    ensures Offset(lines, k + 1) == Offset(lines, k) + |lines[k]| + 1
  {
  }

  lemma StartOfScan(lines: seq<string>)
    ensures Offset(lines, 0) == 0 && lines[..0] == [] && LastHeaderIn([]) == None && BlockStart([]) == None
  {
  }

  // ---------------------------------------------------------------- lines and offsets

  lemma {:induction false} OffsetLength(lines: seq<string>, i: nat)
    requires 0 < i <= |lines|
    ensures Offset(lines, i) == |Unlines(lines[..i])| + 1
  {
    if i == 1 {
      assert lines[..1] == [lines[0]] && Offset(lines, 0) == 0;
    } else {
      OffsetLength(lines, i - 1);
      UnlinesJoin(lines[..i - 1], [lines[i - 1]]);
      assert lines[..i] == lines[..i - 1] + [lines[i - 1]];
    }
  }

  /** The text before line `i`, and from it on. */
  lemma SplitAtLine(lines: seq<string>, i: nat)
    requires i < |lines|
    ensures var text := Unlines(lines);
            && Offset(lines, i) <= |text| && text[Offset(lines, i)..] == Unlines(lines[i..])
            && text[..Offset(lines, i)] == if i == 0 then "" else Unlines(lines[..i]) + "\n"
  {
    hide Unlines, Offset;
    if i == 0 {
      StartOfScan(lines);
      assert lines[0..] == lines;
    } else {
      OffsetLength(lines, i);
      UnlinesJoin(lines[..i], lines[i..]);
      assert lines == lines[..i] + lines[i..];
    }
  }

  lemma CutAfter(a: string, b: string, c: string)
    ensures (a + b + c)[..|a|] == a && (a + b + c)[|a|..] == b + c
  {
  }

  /** The text up to the end of line `j`, and what follows it. */
  lemma SplitAfterLine(lines: seq<string>, j: nat)
    requires j < |lines|
    ensures var text, end := Unlines(lines), Offset(lines, j) + |lines[j]|;
            && end <= |text| && text[..end] == Unlines(lines[..j + 1])
            && text[end..] == if j + 1 == |lines| then "" else "\n" + Unlines(lines[j + 1..])
  {
    hide Unlines, Offset;
    OneLineOn(lines, j);
    OffsetLength(lines, j + 1);
    if j + 1 == |lines| {
      assert lines[..j + 1] == lines;
    } else {
      UnlinesJoin(lines[..j + 1], lines[j + 1..]);
      assert lines == lines[..j + 1] + lines[j + 1..];
      CutAfter(Unlines(lines[..j + 1]), "\n", Unlines(lines[j + 1..]));
    }
  }

  lemma {:induction false} OffsetFrom(lines: seq<string>, i: nat, c: nat)
    requires i + c <= |lines|
    ensures Offset(lines, i + c) == Offset(lines, i) + Offset(lines[i..], c)
  {
    if c > 0 { OffsetFrom(lines, i, c - 1); }
  }

  /** Counting lines with their newlines, and then taking the last newline off again. */
  lemma EndComputed(lines: seq<string>, i: nat, c: nat)
    requires 0 < c && i + c <= |lines| && IsEnd(lines[i + c - 1])
    requires forall k :: 0 <= k < |lines| ==> OneLine(lines[k])
    ensures var text, j := Unlines(lines), i + c - 1;
            var end := Offset(lines, i) + Offset(lines[i..], c) - if c == |lines[i..]| then 1 else 0;
            && 0 <= end <= |text|
            && end - (if EndsWith(text[..end], '\n') then 1 else 0) == Offset(lines, j) + |lines[j]|
  {
    hide Unlines, Offset, IsEnd, EndsWith, OneLine;
    var j := i + c - 1;
    OffsetFrom(lines, i, c);
    OneLineOn(lines, j);
    EndIsInked(lines[j]);
    if j + 1 == |lines| {
      LastLineLast(lines);
      WholeText(lines);
    } else {
      NewlineBefore(lines, j + 1);
    }
  }

  lemma WholeText(lines: seq<string>)
    requires lines != []
    ensures var text := Unlines(lines); Offset(lines, |lines|) == |text| + 1 && text[..|text|] == text
  {
    hide Unlines, Offset;
    OffsetLength(lines, |lines|);
    assert lines[..|lines|] == lines;
  }

  lemma NewlineBefore(lines: seq<string>, k: nat)
    requires 0 < k < |lines|
    ensures Offset(lines, k) <= |Unlines(lines)| && EndsWith(Unlines(lines)[..Offset(lines, k)], '\n')
  {
    hide Unlines, Offset;
    SplitAtLine(lines, k);
  }

  lemma EndIsInked(line: string)
    requires IsEnd(line)
    ensures line != ""
  {
  }

  lemma {:induction false} LastLineLast(lines: seq<string>)
    requires |lines| > 0 && lines[|lines| - 1] != "" && OneLine(lines[|lines| - 1])
    ensures !EndsWith(Unlines(lines), '\n')
  {
    if |lines| > 1 { LastLineLast(lines[1..]); }
  }
}
