/** A whole commit script, line by line as the shell in the guest reads it: every command is
    met in order, and every file's content arrives.
    Source: crates/pve-meta-guest-files/src/pct.rs. */
module CommitScript {
  import opened Values
  import opened Decimals
  import opened Text
  import opened Base64

  /** An operation with its fields as the script spells them. */
  datatype Command =
    | WriteFile(path: string, temp: string, expects: string, mode: string, owner: string, content: seq<Byte>)
    | RemoveFile(path: string, sha: string)

  const HEREDOC: string := "<<'" + EOF_MARK + "'"

  // ---------------------------------------------------------------- writing it

  function Quote(s: string): string {
    "'" + s + "'"
  }

  function DirLine(dir: string): string {
    "d " + Quote(dir)
  }

  /** The command line of the `i`-th operation. */
  function CommandLine(i: nat, c: Command): string {
    match c
    case WriteFile(path, temp, expects, mode, owner, _) =>
      "w " + Decimal(i) + " " + Quote(path) + " " + Quote(temp) + " " + Quote(expects) + " " + mode + " " + owner + " " + HEREDOC
    case RemoveFile(path, sha) => "rmf " + Decimal(i) + " " + Quote(path) + " " + Quote(sha)
  }

  /** The commands from the `i`-th on, each with its content inline. */
  function CommandText(cs: seq<Command>, i: nat): string
    requires i <= |cs|
    decreases |cs| - i
  {
    if i == |cs| then ""
    else
      var rest := CommandText(cs, i + 1);
      CommandLine(i, cs[i]) + "\n"
      + if cs[i].WriteFile? then Wrapped(Encode(cs[i].content)) + "\n" + (EOF_MARK + "\n" + rest) else rest
  }

  /** What follows the script's fixed part: the directories, then the operations. */
  function ScriptText(dirs: seq<string>, cs: seq<Command>): string {
    if dirs == [] then CommandText(cs, 0) else DirLine(dirs[0]) + "\n" + ScriptText(dirs[1..], cs)
  }

  lemma OneCommandOn(s: string, cs: seq<Command>, i: nat)
    requires i < |cs|
    ensures var line, rest := CommandLine(i, cs[i]), CommandText(cs, i + 1);
            s + CommandText(cs, i) ==
              if cs[i].WriteFile? then s + line + "\n" + Wrapped(Encode(cs[i].content)) + "\n" + EOF_MARK + "\n" + rest
              else s + line + "\n" + rest
  {
    hide CommandLine, Encode, Wrapped, EOF_MARK;
    var line, rest := CommandLine(i, cs[i]), CommandText(cs, i + 1);
    if cs[i].WriteFile? {
      Flat(s, line, Wrapped(Encode(cs[i].content)), EOF_MARK, rest);
    }
  }

  lemma Flat(a: string, b: string, c: string, d: string, e: string)
    ensures a + (b + "\n" + (c + "\n" + (d + "\n" + e))) == a + b + "\n" + c + "\n" + d + "\n" + e
  {
  }

  lemma NoCommandOn(cs: seq<Command>)
    ensures CommandText(cs, |cs|) == ""
  {
  }

  // ---------------------------------------------------------------- reading it

  /** A command the shell meets, with its heredoc if it has one. */
  datatype Met = Met(line: string, stdin: Option<seq<string>>)

  predicate TakesHereDoc(line: string) {
    |HEREDOC| <= |line| && line[|line| - |HEREDOC|..] == HEREDOC
  }

  lemma {:induction false} HereDocShorter(script: seq<string>)
    ensures HereDoc(script).Some? ==> |HereDoc(script).value.1| < |script|
  {
    if script != [] && script[0] != EOF_MARK { HereDocShorter(script[1..]); }
  }

  /** The commands a shell runs, one after the other; none if a heredoc is left open. */
  function Shell(lines: seq<string>): Option<seq<Met>>
    decreases |lines|
  {
    if |lines| <= 1 then Some([])
    else if TakesHereDoc(lines[0]) then
      HereDocShorter(lines[1..]);
      match HereDoc(lines[1..])
      case None => None
      case Some((body, rest)) =>
        (match Shell(rest) case None => None case Some(later) => Some([Met(lines[0], Some(body))] + later))
    else
      match Shell(lines[1..]) case None => None case Some(later) => Some([Met(lines[0], None)] + later)
  }

  // ---------------------------------------------------------------- what it meets

  /** Paths and digests have no quote and no newline in them. */
  predicate Quotable(s: string) {
    '\'' !in s && OneLine(s)
  }

  predicate Sound(c: Command) {
    match c
    case WriteFile(path, temp, expects, mode, owner, _) =>
      Quotable(path) && Quotable(temp) && Quotable(expects) && OneLine(mode) && OneLine(owner)
    case RemoveFile(path, sha) => Quotable(path) && Quotable(sha)
  }

  lemma MarkHasNoQuote()
    ensures '\'' !in EOF_MARK && OneLine(EOF_MARK)
  {
  }

  /** A line that ends with something quoted does not open a heredoc. */
  lemma QuotedTakesNone(before: string, s: string)
    requires Quotable(s)
    ensures !TakesHereDoc(before + " " + Quote(s))
  {
    hide OneLine;
    var line := before + " " + Quote(s);
    var n, m := |line|, |EOF_MARK|;
    MarkHasNoQuote();
    assert line[n - 1 - |s|..n - 1] == s;
    assert line[n - 2 - |s|] == '\'' && line[n - 3 - |s|] == ' ';
    assert |HEREDOC| == m + 4;
    assert |s| > m ==> line[n - m - 2] == s[|s| - m - 1] && s[|s| - m - 1] in s;
    assert |s| < m ==> EOF_MARK[m - 1 - |s|] in EOF_MARK;
    if TakesHereDoc(line) { SameAt(line, n - m - 4); }
  }

  /** What the end of a line is when it is that of a heredoc. */
  lemma SameAt(line: string, k: nat)
    requires k + |EOF_MARK| + 4 == |line| && line[k..] == HEREDOC
    ensures line[k + 1] == '<' && line[k + 2] == '\''
    ensures forall x :: 0 <= x < |EOF_MARK| ==> line[k + 3 + x] == EOF_MARK[x]
  {
    var t := line[k..];
    assert t[1] == line[k + 1] && t[2] == line[k + 2];
    forall x | 0 <= x < |EOF_MARK| ensures line[k + 3 + x] == EOF_MARK[x] { assert t[3 + x] == line[k + 3 + x]; }
  }

  lemma LinesAreOne(dir: string, i: nat, c: Command)
    requires Quotable(dir) && Sound(c)
    ensures OneLine(DirLine(dir)) && OneLine(CommandLine(i, c))
  {
    hide Decimal;
    MarkHasNoQuote();
    DecimalDigits(i);
  }

  lemma WhichTake(dir: string, i: nat, c: Command)
    requires Quotable(dir) && Sound(c)
    ensures !TakesHereDoc(DirLine(dir)) && (TakesHereDoc(CommandLine(i, c)) <==> c.WriteFile?)
  {
    hide Decimal, TakesHereDoc, Quotable;
    QuotedTakesNone("d", dir);
    assert "d" + " " + Quote(dir) == DirLine(dir);
    if c.RemoveFile? {
      QuotedTakesNone("rmf " + Decimal(i) + " " + Quote(c.path), c.sha);
    } else {
      EndsInHereDoc("w " + Decimal(i) + " " + Quote(c.path) + " " + Quote(c.temp) + " " + Quote(c.expects) + " " + c.mode + " " + c.owner + " ");
    }
  }

  lemma EndsInHereDoc(before: string)
    ensures TakesHereDoc(before + HEREDOC)
  {
  }

  /** What the shell is to meet: the command, and its content on standard input. */
  predicate Carries(m: Met, i: nat, c: Command) {
    && m.line == CommandLine(i, c)
    && (if c.WriteFile? then m.stdin.Some? && Decode(Concat(m.stdin.value)) == Some(c.content) else m.stdin.None?)
  }

  ghost predicate MeetsAll(met: seq<Met>, cs: seq<Command>, i: nat) {
    i + |met| == |cs| && forall k :: 0 <= k < |met| ==> Carries(met[k], i + k, cs[i + k])
  }

  lemma MeetsMore(m: Met, later: seq<Met>, cs: seq<Command>, i: nat)
    requires i < |cs| && Carries(m, i, cs[i]) && MeetsAll(later, cs, i + 1)
    ensures MeetsAll([m] + later, cs, i)
  {
    hide Carries;
    var met := [m] + later;
    forall k | 0 <= k < |met| ensures Carries(met[k], i + k, cs[i + k]) {
      if k > 0 { assert met[k] == later[k - 1] && Carries(later[k - 1], i + 1 + (k - 1), cs[i + 1 + (k - 1)]); }
    }
  }

  lemma LineThenRest(line: string, rest: string)
    requires OneLine(line)
    ensures Lines(line + "\n" + rest)[0] == line && Lines(line + "\n" + rest)[1..] == Lines(rest) && |Lines(line + "\n" + rest)| > 1
  {
    hide Lines;
    LineFirst(line, rest);
  }

  /** One command and what is after it. */
  lemma MeetsOne(cs: seq<Command>, i: nat)
    requires i < |cs| && Sound(cs[i]) && Shell(Lines(CommandText(cs, i + 1))).Some?
    ensures var r := Shell(Lines(CommandText(cs, i)));
            && r.Some? && |r.value| > 0 && Carries(r.value[0], i, cs[i])
            && r.value[1..] == Shell(Lines(CommandText(cs, i + 1))).value
  {
    hide Lines, CommandLine, Encode, Wrapped, Decode, Concat, TakesHereDoc, HereDoc, Sound, OneLine;
    var c, rest := cs[i], CommandText(cs, i + 1);
    var line := CommandLine(i, c);
    LinesAreOne("", i, c) by { EmptyQuotes(); }
    WhichTake("", i, c) by { EmptyQuotes(); }
    if c.WriteFile? {
      var text := Wrapped(Encode(c.content)) + "\n" + (EOF_MARK + "\n" + rest);
      LineThenRest(line, text);
      ContentArrives(c.content, rest);
    } else {
      LineThenRest(line, rest);
    }
  }

  lemma EmptyQuotes()
    ensures Quotable("")
  {
  }

  lemma {:induction false} MeetsCommands(cs: seq<Command>, i: nat)
    requires i <= |cs| && forall k :: 0 <= k < |cs| ==> Sound(cs[k])
    ensures var r := Shell(Lines(CommandText(cs, i))); r.Some? && MeetsAll(r.value, cs, i)
    decreases |cs| - i
  {
    hide Sound, Carries, MeetsAll, Shell, Lines, CommandText;
    if i == |cs| {
      MeetsNone(cs);
    } else {
      MeetsCommands(cs, i + 1);
      MeetsOne(cs, i);
      var met, later := Shell(Lines(CommandText(cs, i))).value, Shell(Lines(CommandText(cs, i + 1))).value;
      assert met == [met[0]] + later;
      MeetsMore(met[0], later, cs, i);
    }
  }

  lemma MeetsNone(cs: seq<Command>)
    ensures MeetsAll([], cs, |cs|) && Shell(Lines(CommandText(cs, |cs|))) == Some([])
  {
  }

  ghost predicate AllQuotable(dirs: seq<string>, cs: seq<Command>) {
    (forall k :: 0 <= k < |dirs| ==> Quotable(dirs[k])) && (forall k :: 0 <= k < |cs| ==> Sound(cs[k]))
  }

  /** The shell meets every directory and then every operation, in order and nothing else, and
      every content it is handed decodes to the file's. */
  ghost predicate Runs(script: string, dirs: seq<string>, cs: seq<Command>) {
    var r := Shell(Lines(script));
    && r.Some? && |r.value| == |dirs| + |cs|
    && (forall k :: 0 <= k < |dirs| ==> r.value[k] == Met(DirLine(dirs[k]), None))
    && MeetsAll(r.value[|dirs|..], cs, 0)
  }

  lemma {:induction false} ScriptRuns(dirs: seq<string>, cs: seq<Command>)
    requires AllQuotable(dirs, cs)
    ensures Runs(ScriptText(dirs, cs), dirs, cs)
    decreases |dirs|
  {
    hide Sound, MeetsAll, Lines, CommandText, DirLine, TakesHereDoc, Quotable;
    if dirs == [] {
      MeetsCommands(cs, 0);
      var met := Shell(Lines(CommandText(cs, 0))).value;
      assert met[0..] == met;
      MeetsLength(met, cs);
    } else {
      ScriptRuns(dirs[1..], cs);
      var d, rest := dirs[0], ScriptText(dirs[1..], cs);
      DirTakesNone(d);
      LineThenRest(DirLine(d), rest);
      var later, met := Shell(Lines(rest)).value, Shell(Lines(ScriptText(dirs, cs))).value;
      assert met == [Met(DirLine(d), None)] + later;
      assert met[|dirs|..] == later[|dirs| - 1..];
    }
  }

  lemma MeetsLength(met: seq<Met>, cs: seq<Command>)
    requires MeetsAll(met, cs, 0)
    ensures |met| == |cs|
  {
  }

  lemma DirTakesNone(dir: string)
    requires Quotable(dir)
    ensures !TakesHereDoc(DirLine(dir)) && OneLine(DirLine(dir))
  {
    hide TakesHereDoc;
    var c := RemoveFile("", "");
    WhichTake(dir, 0, c);
    LinesAreOne(dir, 0, c);
  }

  // ---------------------------------------------------------------- the program

  /** `commit_script` after its fixed part: what the shell meets is what was asked for. */
  method Write(dirs: seq<string>, cs: seq<Command>) returns (s: string)
    ensures s == ScriptText(dirs, cs)
    ensures AllQuotable(dirs, cs) ==> Runs(s, dirs, cs)
  {
    hide AllQuotable, Runs, CommandLine, Encode, Wrapped, CommandText, DirLine;
    s := "";
    for k := 0 to |dirs|
      invariant ScriptText(dirs, cs) == s + ScriptText(dirs[k..], cs)
    {
      assert dirs[k..][1..] == dirs[k + 1..];
      s := s + DirLine(dirs[k]) + "\n";
    }
    assert dirs[|dirs|..] == [];
    for i := 0 to |cs|
      invariant ScriptText(dirs, cs) == s + CommandText(cs, i)
    {
      OneCommandOn(s, cs, i);
      s := s + CommandLine(i, cs[i]) + "\n";
      if cs[i].WriteFile? {
        var text := Base64Text(cs[i].content);
        s := s + text + "\n" + EOF_MARK + "\n";
      }
    }
    NoCommandOn(cs);
    if AllQuotable(dirs, cs) { ScriptRuns(dirs, cs); }
  }
}
