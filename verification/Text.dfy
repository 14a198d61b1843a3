/** Texts and their lines, as the standard library's `split('\n')` gives them: a text
    always has at least one line, and a final newline begins an empty one. */
module Text {
  import opened Values

  predicate OneLine(s: string) {
    '\n' !in s
  }

  function Lines(s: string): (r: seq<string>)
    ensures |r| > 0
  {
    if s == [] then [[]]
    else
      var r := Lines(s[1..]);
      if s[0] == '\n' then [[]] + r else [[s[0]] + r[0]] + r[1..]
  }

  function Unlines(lines: seq<string>): string
    requires |lines| > 0
  {
    if |lines| == 1 then lines[0] else lines[0] + "\n" + Unlines(lines[1..])
  }

  lemma {:induction false} LineOnly(s: string)
    requires OneLine(s)
    ensures Lines(s) == [s]
  {
    if s != [] {
      LineOnly(s[1..]);
      assert s == [s[0]] + s[1..];
    }
  }

  lemma {:induction false} LineFirst(a: string, b: string)
    requires OneLine(a)
    ensures Lines(a + "\n" + b) == [a] + Lines(b)
  {
    if a == [] {
      assert a + "\n" + b == "\n" + b;
    } else {
      LineFirst(a[1..], b);
      assert (a + "\n" + b)[1..] == a[1..] + "\n" + b;
      assert a == [a[0]] + a[1..];
    }
  }

  /** Splitting what was joined gives the lines back... */
  lemma {:induction false} LinesUnlines(lines: seq<string>)
    requires |lines| > 0 && forall i :: 0 <= i < |lines| ==> OneLine(lines[i])
    ensures Lines(Unlines(lines)) == lines
  {
    if |lines| == 1 {
      LineOnly(lines[0]);
    } else {
      LinesUnlines(lines[1..]);
      LineFirst(lines[0], Unlines(lines[1..]));
    }
  }

  /** ...and joining what was split gives the text back. */
  lemma {:induction false} UnlinesLines(s: string)
    ensures Unlines(Lines(s)) == s
    ensures forall i :: 0 <= i < |Lines(s)| ==> OneLine(Lines(s)[i])
  {
    if s != [] {
      UnlinesLines(s[1..]);
      var r := Lines(s[1..]);
      if s[0] == '\n' {
        assert Lines(s)[1..] == r;
      } else {
        assert Lines(s)[1..] == r[1..];
      }
      assert s == [s[0]] + s[1..];
    }
  }

  lemma {:induction false} UnlinesJoin(a: seq<string>, b: seq<string>)
    requires |a| > 0 && |b| > 0
    ensures Unlines(a + b) == Unlines(a) + "\n" + Unlines(b)
  {
    if |a| == 1 {
      assert (a + b)[1..] == b;
    } else {
      UnlinesJoin(a[1..], b);
      assert (a + b)[1..] == a[1..] + b;
    }
  }

  /** Two texts with a newline between them. */
  lemma LinesJoin(a: string, b: string)
    ensures Lines(a + "\n" + b) == Lines(a) + Lines(b)
  {
    UnlinesLines(a);
    UnlinesLines(b);
    UnlinesJoin(Lines(a), Lines(b));
    LinesUnlines(Lines(a) + Lines(b));
  }

  // ---------------------------------------------------------------- bytes

  /** How many bytes of UTF-8 a character takes. */
  function Width(c: char): (n: nat)
    ensures n > 0
  {
    var n := c as int;
    if n < 0x80 then 1 else if n < 0x800 then 2 else if n < 0x10000 then 3 else 4
  }

  /** The length of a text in bytes. */
  function Utf8Length(s: string): nat {
    if s == "" then 0 else Width(s[0]) + Utf8Length(s[1..])
  }

  /** The text from a byte offset on, and up to it. */
  function FromByte(s: string, at: nat): string {
    if s == "" || at < Width(s[0]) then s else FromByte(s[1..], at - Width(s[0]))
  }

  function UpToByte(s: string, at: nat): string {
    if s == "" || at < Width(s[0]) then "" else [s[0]] + UpToByte(s[1..], at - Width(s[0]))
  }

  lemma {:induction false} Utf8Join(a: string, b: string)
    ensures Utf8Length(a + b) == Utf8Length(a) + Utf8Length(b)
  {
    hide Width;
    if a == "" {
      assert a + b == b;
    } else {
      Utf8Join(a[1..], b);
      assert (a + b)[1..] == a[1..] + b;
    }
  }

  /** Slicing at the byte offset of a character is slicing at the character. */
  lemma {:induction false} SliceAtByte(s: string, i: nat)
    requires i <= |s|
    ensures FromByte(s, Utf8Length(s[..i])) == s[i..] && UpToByte(s, Utf8Length(s[..i])) == s[..i]
  {
    hide Width;
    if i == 0 {
      assert s[..0] == "" && s[0..] == s;
    } else {
      SliceAtByte(s[1..], i - 1);
      assert s[..i][1..] == s[1..][..i - 1] && s[..i] == [s[0]] + s[1..][..i - 1];
    }
  }

  // ---------------------------------------------------------------- white space

  /** Unicode's `White_Space`, which `trim` and `split_whitespace` go by. */
  predicate IsSpace(c: char) {
    var n := c as int;
    || 9 <= n <= 13 || n == 0x20 || n == 0x85 || n == 0xA0 || n == 0x1680
    || 0x2000 <= n <= 0x200A || n == 0x2028 || n == 0x2029 || n == 0x202F || n == 0x205F || n == 0x3000
  }

  predicate NoSpace(s: string) {
    forall i :: 0 <= i < |s| ==> !IsSpace(s[i])
  }

  lemma NoSpaceJoin(a: string, b: string)
    requires NoSpace(a) && NoSpace(b)
    ensures NoSpace(a + b)
  {
    hide IsSpace;
  }

  /** `trim_end`. */
  function TrimEnd(s: string): (r: string)
    ensures |r| <= |s| && r == s[..|r|]
    ensures r == "" || !IsSpace(r[|r| - 1])
  {
    if s == "" || !IsSpace(s[|s| - 1]) then s else TrimEnd(s[..|s| - 1])
  }

  /** `trim_end_matches` of one character. */
  function TrimEndOf(s: string, c: char): (r: string)
    ensures |r| <= |s| && r == s[..|r|]
    ensures r == "" || r[|r| - 1] != c
  {
    if s == "" || s[|s| - 1] != c then s else TrimEndOf(s[..|s| - 1], c)
  }

  /** `trim_start_matches` of one character. */
  function TrimStartOf(s: string, c: char): (r: string)
    ensures |r| <= |s| && r == s[|s| - |r|..]
    ensures r == "" || r[0] != c
  {
    if s == "" || s[0] != c then s else TrimStartOf(s[1..], c)
  }

  predicate StartsWith(s: string, p: string) { p <= s }

  predicate EndsWith(s: string, c: char) { s != "" && s[|s| - 1] == c }

  /** Space at the end of what is trimmed does not matter. */
  lemma TrimMore(s: string, c: char)
    requires IsSpace(c)
    ensures TrimEnd(s + [c]) == TrimEnd(s)
  {
    assert (s + [c])[..|s|] == s;
  }

  /** The text without its white space. */
  function Ink(s: string): string {
    if s == "" then "" else if IsSpace(s[0]) then Ink(s[1..]) else [s[0]] + Ink(s[1..])
  }

  lemma InkFirst(c: char, s: string)
    ensures Ink([c] + s) == (if IsSpace(c) then "" else [c]) + Ink(s)
  {
    hide IsSpace;
    assert ([c] + s)[1..] == s;
  }

  lemma {:induction false} InkJoin(a: string, b: string)
    ensures Ink(a + b) == Ink(a) + Ink(b)
  {
    hide IsSpace, Ink;
    if a == "" {
      assert a + b == b;
      NoInkAtAll();
    } else {
      InkJoin(a[1..], b);
      InkFirst(a[0], a[1..]);
      InkFirst(a[0], a[1..] + b);
      assert a == [a[0]] + a[1..] && a + b == [a[0]] + (a[1..] + b);
    }
  }

  lemma NoInkAtAll()
    ensures Ink("") == ""
  {
  }

  /** Trimming loses no ink. */
  lemma {:induction false} TrimKeepsInk(s: string)
    ensures Ink(TrimEnd(s)) == Ink(s)
  {
    hide IsSpace;
    if s != "" && IsSpace(s[|s| - 1]) {
      var t := s[..|s| - 1];
      TrimKeepsInk(t);
      InkJoin(t, [s[|s| - 1]]);
      assert s == t + [s[|s| - 1]];
      assert Ink([s[|s| - 1]]) == "";
    }
  }

  lemma {:induction false} NewlinesHaveNoInk(s: string)
    ensures Ink(TrimStartOf(s, '\n')) == Ink(s)
  {
    if s != "" && s[0] == '\n' { NewlinesHaveNoInk(s[1..]); }
  }

  // ---------------------------------------------------------------- words

  function WordLength(s: string): (n: nat)
    ensures n <= |s| && NoSpace(s[..n]) && (n < |s| ==> IsSpace(s[n]))
    ensures s != "" && !IsSpace(s[0]) ==> n > 0
  {
    if s == "" || IsSpace(s[0]) then 0
    else
      var n := WordLength(s[1..]);
      assert s[..1 + n] == [s[0]] + s[1..][..n];
      1 + n
  }

  /** `split_whitespace`. */
  function Words(s: string): seq<string>
    decreases |s|
  {
    if s == "" then []
    else if IsSpace(s[0]) then Words(s[1..])
    else var n := WordLength(s); [s[..n]] + Words(s[n..])
  }

  lemma {:induction false} WordLengthIs(a: string, rest: string)
    requires NoSpace(a) && (rest == "" || IsSpace(rest[0]))
    ensures WordLength(a + rest) == |a|
  {
    hide IsSpace;
    if a == "" {
      assert a + rest == rest;
    } else {
      WordLengthIs(a[1..], rest);
      assert (a + rest)[1..] == a[1..] + rest;
    }
  }

  lemma WordFirst(a: string, rest: string)
    requires a != "" && NoSpace(a)
    ensures Words(a) == [a] && Words(a + " " + rest) == [a] + Words(rest)
  {
    hide IsSpace, WordLength;
    WordLengthIs(a, "");
    assert a + "" == a && a[|a|..] == "" && a[..|a|] == a;
    SpaceIsSpace(rest);
    WordLengthIs(a, " " + rest);
    var all := a + (" " + rest);
    assert all == a + " " + rest;
    assert all[..|a|] == a && all[|a|..] == " " + rest;
    assert (" " + rest)[1..] == rest;
  }

  lemma SpaceIsSpace(rest: string)
    ensures IsSpace(' ') && (" " + rest)[0] == ' '
  {
  }

  // ---------------------------------------------------------------- taking apart at a character

  /** `split_once`: what is before the first `c`, and what is after it. */
  function SplitOnce(s: string, c: char): Option<(string, string)> {
    if s == "" then None
    else if s[0] == c then Some(("", s[1..]))
    else match SplitOnce(s[1..], c)
      case None => None
      case Some((a, b)) => Some(([s[0]] + a, b))
  }

  lemma {:induction false} SplitOnceIs(a: string, c: char, b: string)
    requires c !in a
    ensures SplitOnce(a + [c] + b, c) == Some((a, b))
  {
    var s := a + [c] + b;
    if a == "" {
      assert s[1..] == b;
    } else {
      SplitOnceIs(a[1..], c, b);
      assert s[1..] == a[1..] + [c] + b;
      assert [a[0]] + a[1..] == a;
    }
  }

  lemma {:induction false} SplitOnceNone(s: string, c: char)
    requires c !in s
    ensures SplitOnce(s, c).None?
  {
    if s != "" { SplitOnceNone(s[1..], c); }
  }

  /** It loses only that character. */
  lemma {:induction false} SplitOnceJoins(s: string, c: char)
    ensures SplitOnce(s, c).Some? ==>
              s == SplitOnce(s, c).value.0 + [c] + SplitOnce(s, c).value.1 && c !in SplitOnce(s, c).value.0
    ensures SplitOnce(s, c).None? ==> c !in s
  {
    if s != "" && s[0] != c {
      SplitOnceJoins(s[1..], c);
      assert s == [s[0]] + s[1..];
    }
  }

  lemma SameParts(a: string, b: string, c: char, x: string, y: string)
    requires c !in a && c !in b && a + [c] + x == b + [c] + y
    ensures a == b && x == y
  {
    SplitOnceIs(a, c, x);
    SplitOnceIs(b, c, y);
  }
}
