/** When notes hold a block, when none, and when a broken one, told from their lines.
    Source: crates/pve-meta-core/src/backup.rs. */
module BlockShape {
  import opened Values
  import opened Decimals
  import opened Text
  import opened NotesBlock

  /** The line is `x` but for white space behind it. */
  predicate Reads(line: string, x: string) {
    x <= line && forall i :: |x| <= i < |line| ==> IsSpace(line[i])
  }

  /** A line that opens a block, but for carriage returns at its end. */
  predicate Opens(line: string) {
    exists n :: 0 < n <= |line| && "[pve-meta v" <= line[..n] && line[n - 1] == ']'
                && forall i :: n <= i < |line| ==> line[i] == '\r'
  }

  /** A line that opens a block and that some later line closes. */
  ghost predicate Closed(lines: seq<string>, i: nat) {
    i < |lines| && Opens(lines[i]) && exists j :: i < j < |lines| && Reads(lines[j], "[/pve-meta]")
  }

  ghost predicate LastClosed(lines: seq<string>, i: nat) {
    Closed(lines, i) && forall k :: i < k < |lines| ==> !Closed(lines, k)
  }

  /** The header of the known version, a document of `n` lines between the fences, and the
      first end line right after them. */
  ghost predicate Shaped(lines: seq<string>, i: nat, n: nat) {
    && i + n + 3 < |lines|
    && ParseHeader(lines[i]).Some? && ParseHeader(lines[i]).value.version == 1
    && Reads(lines[i + 1], "````yaml") && Reads(lines[i + 2 + n], "````")
    && Reads(lines[i + 3 + n], "[/pve-meta]")
    && forall j :: i + 1 < j < i + 3 + n ==> !Reads(lines[j], "[/pve-meta]")
  }

  lemma {:induction false} Trimmed(s: string)
    ensures forall i :: |TrimEnd(s)| <= i < |s| ==> IsSpace(s[i])
  {
    hide IsSpace;
    if s != "" && IsSpace(s[|s| - 1]) { Trimmed(s[..|s| - 1]); }
  }

  lemma ReadsTrimmed(line: string, x: string)
    requires x != "" && !IsSpace(x[|x| - 1])
    ensures TrimEnd(line) == x <==> Reads(line, x)
  {
    hide IsSpace;
    Trimmed(line);
    var t := TrimEnd(line);
    if Reads(line, x) {
      assert line[|x| - 1] == x[|x| - 1];
      assert |t| >= |x|;
      assert t == x;
    }
  }

  lemma {:induction false} TrimmedOf(s: string, c: char)
    ensures forall i :: |TrimEndOf(s, c)| <= i < |s| ==> s[i] == c
  {
    if s != "" && s[|s| - 1] == c { TrimmedOf(s[..|s| - 1], c); }
  }

  /** The tests the search makes of a line. */
  lemma TestsMean(line: string)
    ensures IsHeader(line) <==> Opens(line)
    ensures IsEnd(line) <==> Reads(line, "[/pve-meta]")
    ensures TrimEnd(line) == FENCE_OPEN <==> Reads(line, "````yaml")
    ensures TrimEnd(line) == FENCE_CLOSE <==> Reads(line, "````")
  {
    hide TrimEnd, Reads;
    ReadsTrimmed(line, "[/pve-meta]");
    ReadsTrimmed(line, "````yaml");
    ReadsTrimmed(line, "````");
    HeaderOpens(line);
  }

  lemma HeaderOpens(line: string)
    ensures IsHeader(line) <==> Opens(line)
  {
    var l := TrimEndOf(line, '\r');
    TrimmedOf(line, '\r');
    if IsHeader(line) { assert line[..|l|] == l; }
    if Opens(line) {
      var n :| 0 < n <= |line| && "[pve-meta v" <= line[..n] && line[n - 1] == ']'
                && forall i :: n <= i < |line| ==> line[i] == '\r';
      assert |l| >= n;
      assert l == line[..n];
    }
  }

  lemma LinesTested(lines: seq<string>)
    ensures forall i :: 0 <= i < |lines| ==>
              && (IsHeader(lines[i]) <==> Opens(lines[i]))
              && (IsEnd(lines[i]) <==> Reads(lines[i], "[/pve-meta]"))
              && (TrimEnd(lines[i]) == FENCE_OPEN <==> Reads(lines[i], "````yaml"))
              && (TrimEnd(lines[i]) == FENCE_CLOSE <==> Reads(lines[i], "````"))
  {
    hide IsHeader, IsEnd, TrimEnd, Reads, Opens;
    forall i | 0 <= i < |lines|
      ensures (IsHeader(lines[i]) <==> Opens(lines[i])) && (IsEnd(lines[i]) <==> Reads(lines[i], "[/pve-meta]"))
      ensures TrimEnd(lines[i]) == FENCE_OPEN <==> Reads(lines[i], "````yaml")
      ensures TrimEnd(lines[i]) == FENCE_CLOSE <==> Reads(lines[i], "````")
    {
      TestsMean(lines[i]);
    }
  }

  lemma {:induction false} StartMeans(lines: seq<string>)
    ensures BlockStart(lines).None? <==> forall i: nat :: !Closed(lines, i)
    ensures BlockStart(lines).Some? ==> LastClosed(lines, BlockStart(lines).value)
  {
    hide IsHeader, IsEnd, Opens, Reads;
    if lines != [] {
      StartMeans(lines[1..]);
      LinesTested(lines);
      forall i | 0 < i < |lines| ensures Closed(lines, i) <==> Closed(lines[1..], i - 1) { ClosedBelow(lines, i); }
      assert Closed(lines, 0) <==> IsHeader(lines[0]) && HasEnd(lines[1..]) by { EndBelow(lines); }
      if forall i: nat :: !Closed(lines, i) {
        forall i: nat ensures !Closed(lines[1..], i) {
          if i < |lines[1..]| { assert Closed(lines, i + 1) <==> Closed(lines[1..], i); }
        }
      }
    }
  }

  lemma EndBelow(lines: seq<string>)
    requires lines != []
    ensures HasEnd(lines[1..]) <==> exists j :: 0 < j < |lines| && Reads(lines[j], "[/pve-meta]")
  {
    hide IsEnd, Reads;
    LinesTested(lines);
    if j :| 0 < j < |lines| && Reads(lines[j], "[/pve-meta]") { assert lines[1..][j - 1] == lines[j]; }
  }

  lemma ClosedBelow(lines: seq<string>, i: nat)
    requires 0 < i < |lines|
    ensures Closed(lines, i) <==> Closed(lines[1..], i - 1)
  {
    hide IsHeader, IsEnd, Opens, Reads;
    if Closed(lines, i) {
      var j :| i < j < |lines| && Reads(lines[j], "[/pve-meta]");
      assert lines[1..][j - 1] == lines[j];
    }
  }

  lemma ShapeMeans(lines: seq<string>, i: nat)
    requires i < |lines|
    ensures Shape(lines[i..]).Some? <==> exists n: nat :: Shaped(lines, i, n)
  {
    hide Shape, Shaped;
    if Shape(lines[i..]).Some? {
      ShapedFrom(lines, i, Shape(lines[i..]).value.1);
    }
    if n: nat :| Shaped(lines, i, n) {
      ShapedTo(lines, i, n);
    }
  }

  lemma ShapedTo(lines: seq<string>, i: nat, n: nat)
    requires i < |lines| && Shaped(lines, i, n)
    ensures Shape(lines[i..]).Some?
  {
    hide IsEnd, TrimEnd, ParseHeader, Reads, FirstEnd;
    LinesTested(lines);
    var rest := lines[i..];
    assert rest[0] == lines[i] && rest[1] == lines[i + 1] && rest[n + 2] == lines[i + n + 2];
    EndIsFirst(lines, i, n);
  }

  /** The header of the block, and the lines between its fences. */
  ghost predicate HoldsBlock(lines: seq<string>, i: nat, n: nat, h: Header, body: seq<string>) {
    i + 2 + n <= |lines| && ParseHeader(lines[i]) == Some(h) && body == lines[i + 2..i + 2 + n]
  }

  lemma ShapedFrom(lines: seq<string>, i: nat, body: seq<string>)
    requires i < |lines| && Shape(lines[i..]).Some? && Shape(lines[i..]).value.1 == body
    ensures Shaped(lines, i, |body|) && HoldsBlock(lines, i, |body|, Shape(lines[i..]).value.0, body)
  {
    hide Shape, Reads, ParseHeader;
    var rest := lines[i..];
    ShapedAtHead(rest, body);
    assert forall j :: 0 <= j < |rest| ==> rest[j] == lines[i + j];
    forall j | i + 1 < j < i + 3 + |body| ensures !Reads(lines[j], "[/pve-meta]") { assert lines[j] == rest[j - i]; }
  }

  lemma ShapedAtHead(rest: seq<string>, body: seq<string>)
    requires rest != [] && Shape(rest).Some? && Shape(rest).value.1 == body
    ensures Shaped(rest, 0, |body|) && HoldsBlock(rest, 0, |body|, Shape(rest).value.0, body)
  {
    hide IsEnd, TrimEnd, ParseHeader, Reads;
    LinesTested(rest);
    var n := FirstEnd(rest[2..]);
    forall j | 1 < j < 3 + |body| ensures !IsEnd(rest[j]) { assert rest[j] == rest[2..][j - 2]; }
  }

  lemma EndIsFirst(lines: seq<string>, i: nat, n: nat)
    requires Shaped(lines, i, n)
    ensures FirstEnd(lines[i..][2..]) == n + 1
  {
    hide IsEnd, TrimEnd, ParseHeader, Reads;
    LinesTested(lines);
    var rest := lines[i..][2..];
    assert forall j :: 0 <= j < |rest| ==> rest[j] == lines[i + 2 + j];
    assert IsEnd(rest[n + 1]);
    assert forall j :: 0 <= j < n + 1 ==> !IsEnd(rest[j]);
  }

  /** What was found is the block at the last closed header: its fields, the lines between
      its fences, and its first and last character. */
  ghost predicate Locates(lines: seq<string>, f: Found) {
    exists i: nat, n: nat, body ::
      && LastClosed(lines, i) && Shaped(lines, i, n) && HoldsBlock(lines, i, n, f.header, body) && f.yaml == Join(body)
      && f.start == Offset(lines, i) && f.end == Offset(lines, i + n + 3) + |lines[i + n + 3]|
  }

  lemma ShapeLocates(lines: seq<string>, i: nat)
    requires i < |lines| && LastClosed(lines, i) && Shape(lines[i..]).Some?
    ensures ReadBlock(lines, i).Block? && Locates(lines, ReadBlock(lines, i).found)
  {
    hide Shape, Shaped, LastClosed, HoldsBlock, Offset, Join;
    var (h, body) := Shape(lines[i..]).value;
    ShapedFrom(lines, i, body);
    assert LastClosed(lines, i) && Shaped(lines, i, |body|) && HoldsBlock(lines, i, |body|, h, body);
  }

  /** A block is found exactly where the last closed header has the right shape below it,
      version and all; where it has another, what is there is malformed; and none is there
      exactly when no header is closed. */
  lemma FindMeans(text: string)
    ensures var lines := Lines(text);
            && (FindIn(text).NoBlock? <==> forall i: nat :: !Closed(lines, i))
            && (FindIn(text).Block? <==> exists i: nat, n: nat :: LastClosed(lines, i) && Shaped(lines, i, n))
            && (FindIn(text).Block? ==> Locates(lines, FindIn(text).found))
  {
    hide *;
    FindInLines(text, Lines(text));
  }

  lemma FindInLines(text: string, lines: seq<string>)
    requires lines == Lines(text)
    ensures FindIn(text).NoBlock? <==> forall i: nat :: !Closed(lines, i)
    ensures FindIn(text).Block? <==> exists i: nat, n: nat :: LastClosed(lines, i) && Shaped(lines, i, n)
    ensures FindIn(text).Block? ==> Locates(lines, FindIn(text).found)
  {
    hide Lines, Shaped, LastClosed, Closed, BlockStart, Shape, Locates;
    StartMeans(lines);
    if BlockStart(lines).Some? {
      var i := BlockStart(lines).value;
      ShapeMeans(lines, i);
      if Shape(lines[i..]).Some? { ShapeLocates(lines, i); }
      LastIsClosed(lines, i);
      forall k: nat, n: nat | LastClosed(lines, k) && Shaped(lines, k, n) ensures Shaped(lines, i, n) {
        LastIsOne(lines, i, k);
      }
      assert FindIn(text).Block? <==> Shape(lines[i..]).Some?;
    } else {
      forall k ensures !LastClosed(lines, k) { LastIsClosed(lines, k); }
    }
  }

  lemma LastIsClosed(lines: seq<string>, i: nat)
    ensures LastClosed(lines, i) ==> Closed(lines, i)
  {
  }

  lemma LastIsOne(lines: seq<string>, i: nat, k: nat)
    requires LastClosed(lines, i) && LastClosed(lines, k)
    ensures i == k
  {
    hide IsHeader, IsEnd, Opens, Reads;
  }

  /** Where the last closed header states another version, the block is malformed, whatever
      else is in it. */
  lemma OtherVersion(text: string, i: nat, version: nat, rest: string)
    requires LastClosed(Lines(text), i) && version != 1
    requires Lines(text)[i] == "[pve-meta v" + Decimal(version) + " " + rest + "]"
    ensures FindIn(text).Malformed?
  {
    hide Lines, IsHeader, IsEnd, ParseHeader, TrimEnd, Reads, Opens;
    FindMeans(text);
    StatesVersion(version, rest);
    forall k, n | LastClosed(Lines(text), k) && Shaped(Lines(text), k, n) ensures false { LastIsOne(Lines(text), i, k); }
  }

  lemma StatesVersion(version: nat, rest: string)
    ensures var h := ParseHeader("[pve-meta v" + Decimal(version) + " " + rest + "]");
            h.Some? ==> h.value.version == version
  {
    hide Words, ReadFields, Decimal, Unsigned, NoSpace;
    var f := Decimal(version) + " " + rest;
    var line := "[pve-meta v" + Decimal(version) + " " + rest + "]";
    assert line == BEGIN + f + "]";
    assert TrimEnd(line) == line;
    assert line[|BEGIN|..] == f + "]" && line[|BEGIN|..|line| - 1] == f;
    UnsignedDecimal(version);
    DecimalDigits(version);
    DigitsAreInked(Decimal(version));
    WordFirst(Decimal(version), rest);
    ReadKeepsVersion(Header(version, None, None, None), Words(f)[1..]);
  }

  lemma {:induction false} ReadKeepsVersion(h: Header, fields: seq<string>)
    ensures ReadFields(h, fields).version == h.version
    decreases |fields|
  {
    if fields != [] { ReadKeepsVersion(ReadField(h, fields[0]), fields[1..]); }
  }
}
