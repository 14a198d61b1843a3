/** The names of the store's files: `<vmid>.yaml` for a document and
    `<vmid>.<name>.yaml` for a snapshot of it.
    Source: crates/pve-meta-core/src/store.rs. */
module StoreNames {
  import opened Values
  import opened Decimals
  import opened Text

  const EXT: string := ".yaml"

  predicate IsVmid(v: nat) {
    v <= U32_MAX
  }

  function Lower(c: char): char {
    if 'A' <= c <= 'Z' then (c as int + 32) as char else c
  }

  function Lowercase(s: string): (r: string)
    ensures |r| == |s|
  {
    seq(|s|, i requires 0 <= i < |s| => Lower(s[i]))
  }

  datatype Format = Yaml | Json

  /** `Format::from_ext`. */
  function FromExt(ext: string): Option<Format> {
    var e := Lowercase(ext);
    if e == "yaml" || e == "yml" then Some(Yaml) else if e == "json" then Some(Json) else None
  }

  predicate IsLetter(c: char) { 'a' <= c <= 'z' || 'A' <= c <= 'Z' }

  predicate IsNameChar(c: char) { IsLetter(c) || IsDigit(c) || c == '_' || c == '-' }

  /** `is_valid_snapshot_name`. */
  predicate ValidSnapshot(name: string) {
    && name != "" && IsLetter(name[0])
    && (forall i :: 1 <= i < |name| ==> IsNameChar(name[i]))
    && FromExt(name).None?
  }

  function DocName(v: nat): string { Decimal(v) + EXT }

  function SnapName(v: nat, name: string): string { Decimal(v) + "." + name + EXT }

  // ---------------------------------------------------------------- reading a name

  function StripSuffix(s: string, suffix: string): Option<string> {
    if |suffix| <= |s| && s[|s| - |suffix|..] == suffix then Some(s[..|s| - |suffix|]) else None
  }

  /** `rsplit_once('.')`. */
  function SplitLast(s: string): Option<(string, string)> {
    if s == "" then None
    else
      var n := |s| - 1;
      if s[n] == '.' then Some((s[..n], ""))
      else match SplitLast(s[..n])
        case None => None
        case Some((a, b)) => Some((a, b + [s[n]]))
  }

  /** `vmid_of_file`. */
  function VmidOfFile(file: string): Option<nat> {
    match StripSuffix(file, EXT)
    case None => None
    case Some(stem) =>
      match SplitOnce(stem, '.')
      case None => ParseU32(stem)
      case Some((head, snap)) => if ValidSnapshot(snap) then ParseU32(head) else None
  }

  /** The snapshot of `v` that `list_snapshots` reads out of a file name. */
  function ListedName(v: nat, file: string): Option<string> {
    var prefix := Decimal(v) + ".";
    if !(prefix <= file) then None
    else match SplitLast(file[|prefix|..])
      case None => None
      case Some((name, ext)) => if FromExt(ext) == Some(Yaml) && ValidSnapshot(name) then Some(name) else None
  }

  // ---------------------------------------------------------------- no dot within a part

  predicate Dotless(s: string) { '.' !in s }

  lemma DigitsDotless(v: nat)
    ensures Dotless(Decimal(v)) && Decimal(v) != ""
  {
    DecimalDigits(v);
  }

  lemma {:induction false} SplitLastIs(a: string, b: string)
    requires Dotless(b)
    ensures SplitLast(a + "." + b) == Some((a, b))
  {
    var s := a + "." + b;
    var n := |s| - 1;
    if b == "" {
      assert s[..n] == a;
    } else {
      var m := |b| - 1;
      SplitLastIs(a, b[..m]);
      assert s[..n] == a + "." + b[..m];
      assert b[..m] + [b[m]] == b;
    }
  }

  lemma StemIs(stem: string)
    ensures StripSuffix(stem + EXT, EXT) == Some(stem)
  {
  }

  /** Both kinds of name say whose they are... */
  lemma NamesTheirGuest(v: nat, name: string)
    requires IsVmid(v) && ValidSnapshot(name)
    ensures VmidOfFile(DocName(v)) == Some(v) && VmidOfFile(SnapName(v, name)) == Some(v)
  {
    hide Decimal, SplitOnce, StripSuffix, Unsigned, ValidSnapshot;
    DigitsDotless(v);
    UnsignedDecimal(v);
    StemIs(Decimal(v));
    SplitOnceNone(Decimal(v), '.');
    StemIs(Decimal(v) + "." + name);
    SplitOnceIs(Decimal(v), '.', name);
  }

  lemma StemsDiffer(a: string, b: string)
    requires a + EXT == b + EXT
    ensures a == b
  {
    StemIs(a);
    StemIs(b);
  }

  lemma {:induction false} DecimalInjective(v: nat, w: nat)
    requires Decimal(v) == Decimal(w)
    ensures v == w
  {
    DecimalDigits(v);
    DecimalDigits(w);
  }

  /** ...no two guests or snapshots share one... */
  lemma NamesInjective(v: nat, name: string, w: nat, other: string)
    ensures DocName(v) == DocName(w) ==> v == w
    ensures SnapName(v, name) == SnapName(w, other) ==> v == w && name == other
  {
    hide Decimal, SplitOnce;
    if DocName(v) == DocName(w) {
      StemsDiffer(Decimal(v), Decimal(w));
      DecimalInjective(v, w);
    }
    if SnapName(v, name) == SnapName(w, other) {
      StemsDiffer(Decimal(v) + "." + name, Decimal(w) + "." + other);
      DigitsDotless(v);
      DigitsDotless(w);
      SplitOnceIs(Decimal(v), '.', name);
      SplitOnceIs(Decimal(w), '.', other);
      DecimalInjective(v, w);
    }
  }

  /** ...and no document has the name of a snapshot. */
  lemma NamesDisjoint(v: nat, w: nat, name: string)
    ensures DocName(v) != SnapName(w, name)
  {
    hide Decimal, SplitOnce;
    DigitsDotless(v);
    DigitsDotless(w);
    SplitOnceNone(Decimal(v), '.');
    SplitOnceIs(Decimal(w), '.', name);
    if DocName(v) == SnapName(w, name) {
      StemsDiffer(Decimal(v), Decimal(w) + "." + name);
    }
  }

  lemma YamlExt()
    ensures FromExt("yaml") == Some(Yaml) && Dotless("yaml")
  {
    assert Lowercase("yaml") == "yaml";
  }

  /** A listing names exactly the snapshots that have a file... */
  lemma SnapshotIsListed(v: nat, name: string)
    requires ValidSnapshot(name)
    ensures ListedName(v, SnapName(v, name)) == Some(name)
  {
    hide Decimal, SplitLast, ValidSnapshot, FromExt;
    YamlExt();
    SplitLastIs(name, "yaml");
    var prefix := Decimal(v) + ".";
    var file := SnapName(v, name);
    assert file == prefix + (name + "." + "yaml") by { assert "." + "yaml" == EXT; }
    assert file[|prefix|..] == name + "." + "yaml";
  }

  /** Whether a file is `v`'s, as the store names them. */
  ghost predicate Owns(v: nat, file: string) {
    file == DocName(v) || exists name: string :: ValidSnapshot(name) && file == SnapName(v, name)
  }

  /** The files of one guest are no other guest's. */
  lemma OwnsOne(v: nat, w: nat, file: string)
    requires Owns(v, file) && Owns(w, file)
    ensures v == w
  {
    hide ValidSnapshot, DocName, SnapName;
    if file == DocName(v) {
      if file == DocName(w) {
        NamesInjective(v, "", w, "");
      } else {
        var n :| ValidSnapshot(n) && file == SnapName(w, n);
        NamesDisjoint(v, w, n);
      }
    } else {
      var n :| ValidSnapshot(n) && file == SnapName(v, n);
      if file == DocName(w) {
        NamesDisjoint(w, v, n);
      } else {
        var m :| ValidSnapshot(m) && file == SnapName(w, m);
        NamesInjective(v, n, w, m);
      }
    }
  }

  /** A file is `v`'s exactly when its name reads as `v` and spells it as the store does. */
  lemma OwnsIff(v: nat, file: string)
    requires IsVmid(v)
    ensures Owns(v, file) <==> VmidOfFile(file) == Some(v) && Decimal(v) + "." <= file
  {
    hide Decimal, SplitOnce, ValidSnapshot, ParseU32;
    if Owns(v, file) {
      OwnedReads(v, file);
    }
    if VmidOfFile(file) == Some(v) && Decimal(v) + "." <= file {
      ReadsOwned(v, file);
    }
  }

  lemma OwnedReads(v: nat, file: string)
    requires IsVmid(v) && Owns(v, file)
    ensures VmidOfFile(file) == Some(v) && Decimal(v) + "." <= file
  {
    hide Decimal, SplitOnce, ValidSnapshot, VmidOfFile;
    if file == DocName(v) {
      SomeName();
      NamesTheirGuest(v, "a");
      assert EXT == "." + "yaml";
      assert file == Decimal(v) + "." + "yaml";
    } else {
      var name :| ValidSnapshot(name) && file == SnapName(v, name);
      NamesTheirGuest(v, name);
    }
  }

  lemma SomeName()
    ensures ValidSnapshot("a")
  {
    assert |Lowercase("a")| == 1;
  }

  lemma ReadsOwned(v: nat, file: string)
    requires VmidOfFile(file) == Some(v) && Decimal(v) + "." <= file
    ensures Owns(v, file)
  {
    hide Decimal, SplitOnce, ValidSnapshot, ParseU32;
    var stem := StripSuffix(file, EXT).value;
    assert file == stem + EXT && EXT == "." + "yaml";
    var tail := file[|Decimal(v)| + 1..];
    assert file == Decimal(v) + "." + tail;
    DigitsDotless(v);
    SplitOnceJoins(stem, '.');
    if SplitOnce(stem, '.').None? {
      assert file == stem + "." + "yaml";
      SameParts(stem, Decimal(v), '.', "yaml", tail);
    } else {
      var (head, snap) := SplitOnce(stem, '.').value;
      assert file == head + "." + (snap + EXT);
      SameParts(head, Decimal(v), '.', snap + EXT, tail);
      assert file == SnapName(v, snap);
    }
  }

  /** So a name can say `v` and be nobody's: one with leading zeros. */
  lemma ForeignName()
    ensures VmidOfFile("007.yaml") == Some(7) && !Owns(7, "007.yaml")
  {
    var file := "007.yaml";
    assert file == "007" + EXT;
    StemIs("007");
    SplitOnceNone("007", '.');
    assert "007"[..2] == "00" && "00"[..1] == "0";
    assert Digits("0") == Some(0);
    assert Digits("00") == Some(0);
    assert Digits("007") == Some(7);
    assert Decimal(7) == "7" && DocName(7)[0] == '7';
    assert file[0] == '0';
    forall name: string | ValidSnapshot(name) ensures file != SnapName(7, name) {
      assert SnapName(7, name)[0] == '7';
    }
  }
}
