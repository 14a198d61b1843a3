/** How file content travels inside a commit script: base64 in lines of 76, in a heredoc.
    Source: crates/pve-meta-guest-files/src/pct.rs. */
module Base64 {
  import opened Values
  import opened Text

  const ALPHABET: string :=
    "ABCDEFGHIJKLM" + "NOPQRSTUVWXYZ" + "abcdefghijklm" + "nopqrstuvwxyz" + "0123456789+/"
  const EOF_MARK: string := "PVE_META_GUEST_FILES_EOF"
  const LINE: nat := 76

  // ---------------------------------------------------------------- section 4 of RFC 4648

  /** The low `w` bits of `x`, most significant first. */
  function Bits(x: nat, w: nat): (r: seq<bool>)
    ensures |r| == w
  {
    if w == 0 then [] else Bits(x / 2, w - 1) + [x % 2 == 1]
  }

  function Number(bits: seq<bool>): nat {
    if bits == [] then 0 else 2 * Number(bits[..|bits| - 1]) + (if bits[|bits| - 1] then 1 else 0)
  }

  function BitsOf(bytes: seq<Byte>): (r: seq<bool>)
    ensures |r| == 8 * |bytes|
  {
    if bytes == [] then [] else BitsOf(bytes[..|bytes| - 1]) + Bits(bytes[|bytes| - 1], 8)
  }

  /** Zero bits are added on the right to form whole 6-bit groups. */
  function Padded(bits: seq<bool>): (r: seq<bool>)
    ensures |r| % 6 == 0
  {
    bits + seq((6 - |bits| % 6) % 6, _ => false)
  }

  function Letters(bits: seq<bool>): (r: string)
    ensures |r| == |bits| / 6
  {
    seq(|bits| / 6, i requires 0 <= i < |bits| / 6 => Letter(Number(bits[6 * i..6 * i + 6])))
  }

  /** Table 1 of the RFC. */
  function Letter(i: nat): char {
    if i < 26 then 'A' + i as char
    else if i < 52 then 'a' + (i - 26) as char
    else if i < 62 then '0' + (i - 52) as char
    else if i == 62 then '+'
    else '/'
  }

  function Filled(letters: string): (r: string)
    ensures |r| % 4 == 0
  {
    letters + seq((4 - |letters| % 4) % 4, _ => '=')
  }

  /** The encoding: 6 bits a letter, and `=` up to a multiple of four. */
  function Encode(bytes: seq<Byte>): (r: string)
    ensures |r| % 4 == 0
  {
    Filled(Letters(Padded(BitsOf(bytes))))
  }

  /** Its lines: full ones, and a last one. */
  function Wrapped(s: string): string {
    if |s| <= LINE then s else s[..LINE] + "\n" + Wrapped(s[LINE..])
  }

  // ---------------------------------------------------------------- the encoder

  function Pow2(n: nat): (r: nat)
    ensures r > 0
  {
    if n == 0 then 1 else 2 * Pow2(n - 1)
  }

  lemma Halve(x: nat, p: nat, y: nat)
    ensures (x * (2 * p) + y) / 2 == x * p + y / 2 && (x * (2 * p) + y) % 2 == y % 2
  {
    assert x * (2 * p) == 2 * (x * p);
  }

  lemma {:induction false} BitsJoin(x: nat, v: nat, y: nat, w: nat)
    requires y < Pow2(w)
    ensures Bits(x * Pow2(w) + y, v + w) == Bits(x, v) + Bits(y, w)
  {
    if w > 0 {
      BitsJoin(x, v, y / 2, w - 1);
      Halve(x, Pow2(w - 1), y);
      assert Bits(x, v) + Bits(y, w) == Bits(x, v) + Bits(y / 2, w - 1) + [y % 2 == 1];
    } else {
      assert Bits(x, v) + [] == Bits(x, v);
    }
  }

  lemma {:induction false} NumberBits(x: nat, w: nat)
    requires x < Pow2(w)
    ensures Number(Bits(x, w)) == x
  {
    if w > 0 {
      NumberBits(x / 2, w - 1);
      var bits := Bits(x, w);
      assert bits[..w - 1] == Bits(x / 2, w - 1);
    }
  }

  /** The alphabet the program indexes is the RFC's table. */
  lemma AlphabetIsTheTable(i: nat)
    requires i < 64
    ensures |ALPHABET| == 64 && ALPHABET[i] == Letter(i)
  {
  }

  /** A chunk as a 24-bit number, its missing bytes zero. */
  function Group(chunk: seq<Byte>): (n: nat)
    requires 1 <= |chunk| <= 3
    ensures n < 16777216
  {
    var a: int := chunk[0];
    var b: int := if |chunk| > 1 then chunk[1] else 0;
    var c: int := if |chunk| > 2 then chunk[2] else 0;
    a * 65536 + b * 256 + c
  }

  /** Six bits of a 24-bit number, counted from the left. */
  function Sextet(n: nat, k: nat): (r: nat)
    requires k < 4
    ensures r < 64
  {
    (if k == 0 then n / 262144 else if k == 1 then n / 4096 else if k == 2 then n / 64 else n) % 64
  }

  function Quad(chunk: seq<Byte>): (r: string)
    requires 1 <= |chunk| <= 3
    ensures |r| == 4
  {
    var n := Group(chunk);
    [Letter(Sextet(n, 0)), Letter(Sextet(n, 1)),
     if |chunk| > 1 then Letter(Sextet(n, 2)) else '=',
     if |chunk| > 2 then Letter(Sextet(n, 3)) else '=']
  }

  lemma Powers()
    ensures Pow2(4) == 16 && Pow2(6) == 64 && Pow2(8) == 256 && Pow2(12) == 4096 && Pow2(16) == 65536 && Pow2(18) == 262144
    ensures Pow2(2) == 4 && Pow2(10) == 1024
  {
    assert Pow2(3) == 8 && Pow2(5) == 32;
    assert Pow2(7) == 128 && Pow2(9) == 512;
    assert Pow2(11) == 2048 && Pow2(13) == 8192;
    assert Pow2(15) == 32768 && Pow2(17) == 131072;
  }

  /** Six, eight or sixteen bits more. */
  lemma SixMore(x: nat, v: nat, y: nat)
    requires y < 64
    ensures Bits(x * 64 + y, v + 6) == Bits(x, v) + Bits(y, 6)
  {
    hide Bits, Pow2;
    Powers();
    BitsJoin(x, v, y, 6);
  }

  lemma EightMore(x: nat, v: nat, y: nat)
    requires y < 256
    ensures Bits(x * 256 + y, v + 8) == Bits(x, v) + Bits(y, 8)
  {
    hide Bits, Pow2;
    Powers();
    BitsJoin(x, v, y, 8);
  }

  lemma SixteenMore(x: nat, v: nat)
    ensures Bits(x * 65536, v + 16) == Bits(x, v) + Bits(0, 16)
  {
    hide Bits, Pow2;
    Powers();
    BitsJoin(x, v, 0, 16);
  }

  lemma TwelveMore(x: nat, v: nat, y: nat, z: nat)
    requires y < 64 && z < 64
    ensures Bits((x * 64 + y) * 64 + z, v + 12) == Bits(x, v) + Bits(y, 6) + Bits(z, 6)
  {
    hide Bits;
    SixMore(x, v, y);
    SixMore(x * 64 + y, v + 6, z);
  }

  lemma FourGroups(a: nat, b: nat, c: nat, d: nat)
    requires a < 64 && b < 64 && c < 64 && d < 64
    ensures Bits(((a * 64 + b) * 64 + c) * 64 + d, 24) == Bits(a, 6) + Bits(b, 6) + Bits(c, 6) + Bits(d, 6)
  {
    hide Bits;
    TwelveMore(a * 64 + b, 12, c, d);
    SixMore(a, 6, b);
  }

  lemma LetterOf(a: nat)
    requires a < 64
    ensures Letters(Bits(a, 6)) == [Letter(a)]
  {
    hide Bits, Pow2, Letter, Number;
    Powers();
    NumberBits(a, 6);
    var bits := Bits(a, 6);
    assert bits[6 * 0..6 * 0 + 6] == bits;
  }

  lemma InSextets(n: nat)
    requires n < 16777216
    ensures n == ((Sextet(n, 0) * 64 + Sextet(n, 1)) * 64 + Sextet(n, 2)) * 64 + Sextet(n, 3)
  {
    var a := n / 64;
    var b := a / 64;
    assert b == n / 4096;
    assert b / 64 == n / 262144;
  }

  /** The four letters of a 24-bit number. */
  lemma FourLetters(n: nat)
    requires n < 16777216
    ensures Letters(Bits(n, 24)) == [Letter(Sextet(n, 0)), Letter(Sextet(n, 1)), Letter(Sextet(n, 2)), Letter(Sextet(n, 3))]
  {
    hide Letter, Letters, Bits;
    var a, b, c, d := Sextet(n, 0), Sextet(n, 1), Sextet(n, 2), Sextet(n, 3);
    hide Sextet;
    InSextets(n);
    FourGroups(a, b, c, d);
    LetterOf(a); LetterOf(b); LetterOf(c); LetterOf(d);
    var A, B, C, D := Bits(a, 6), Bits(b, 6), Bits(c, 6), Bits(d, 6);
    LettersJoin(A + B + C, D, 3); LettersJoin(A + B, C, 2); LettersJoin(A, B, 1);
  }

  lemma SliceLeft(a: seq<bool>, b: seq<bool>, lo: nat, hi: nat)
    requires lo <= hi <= |a|
    ensures (a + b)[lo..hi] == a[lo..hi]
  {
  }

  lemma SliceRight(a: seq<bool>, b: seq<bool>, lo: nat, hi: nat)
    requires lo <= hi <= |b|
    ensures (a + b)[|a| + lo..|a| + hi] == b[lo..hi]
  {
  }

  lemma LettersJoin(a: seq<bool>, b: seq<bool>, k: nat)
    requires |a| == 6 * k
    ensures Letters(a + b) == Letters(a) + Letters(b)
  {
    hide Letter, Number;
    var all := a + b;
    forall i | 0 <= i < |all| / 6 ensures Letters(all)[i] == (Letters(a) + Letters(b))[i] {
      if i < k {
        SliceLeft(a, b, 6 * i, 6 * i + 6);
      } else {
        var j := i - k;
        SliceRight(a, b, 6 * j, 6 * j + 6);
      }
    }
  }

  lemma {:induction false} BitsOfJoin(a: seq<Byte>, b: seq<Byte>)
    ensures BitsOf(a + b) == BitsOf(a) + BitsOf(b)
    decreases |b|
  {
    hide Bits;
    if b == [] {
      assert a + b == a;
    } else {
      var n := |b| - 1;
      BitsOfJoin(a, b[..n]);
      assert (a + b)[..|a| + n] == a + b[..n] && (a + b)[|a| + n] == b[n];
    }
  }

  lemma BitsOfOne(x: Byte)
    ensures BitsOf([x]) == Bits(x, 8)
  {
    assert [x][..0] == [];
  }

  lemma BitsOfTwo(x: Byte, y: Byte)
    ensures BitsOf([x, y]) == Bits(x as int * 256 + y, 16)
  {
    hide Bits, BitsOf;
    EightMore(x, 8, y);
    BitsOfOne(x);
    BitsOfOne(y);
    BitsOfJoin([x], [y]);
    assert [x, y] == [x] + [y];
  }

  /** The bits of a chunk and the zero bits after them are its 24-bit number's. */
  lemma GroupBits(chunk: seq<Byte>)
    requires 1 <= |chunk| <= 3
    ensures Bits(Group(chunk), 24) == BitsOf(chunk) + Bits(0, 24 - 8 * |chunk|)
  {
    hide Bits, BitsOf;
    if |chunk| == 1 {
      BitsOfOne(chunk[0]);
      SixteenMore(chunk[0], 8);
      assert chunk == [chunk[0]];
    } else {
      var two := chunk[0] as int * 256 + chunk[1];
      BitsOfTwo(chunk[0], chunk[1]);
      if |chunk| == 2 {
        EightMore(two, 16, 0);
        assert chunk == [chunk[0], chunk[1]];
      } else {
        EightMore(two, 16, chunk[2]);
        BitsOfOne(chunk[2]);
        BitsOfJoin([chunk[0], chunk[1]], [chunk[2]]);
        assert chunk == [chunk[0], chunk[1]] + [chunk[2]];
        assert Bits(0, 0) == [];
      }
    }
  }

  lemma {:induction false} ZeroBits(w: nat)
    ensures Bits(0, w) == seq(w, _ => false)
  {
    if w > 0 { ZeroBits(w - 1); }
  }

  lemma EncodeChunk(chunk: seq<Byte>)
    requires 1 <= |chunk| <= 3
    ensures Encode(chunk) == Quad(chunk)
  {
    hide Bits, Number, BitsOf, Letters, Group, Sextet, Letter;
    var n := Group(chunk);
    var bits := BitsOf(chunk);
    GroupBits(chunk);
    FourLetters(n);
    var have := Padded(bits);
    var zeros := (6 - |bits| % 6) % 6;
    ZeroBits(zeros);
    ZeroBits(24 - |bits|);
    var more := seq(24 - |have|, _ => false);
    assert Bits(n, 24) == have + more;
    LettersJoin(have, more, |chunk| + 1);
    assert Letters(have) == Letters(Bits(n, 24))[..|Letters(have)|];
  }

  lemma PadJoin(x: seq<bool>, y: seq<bool>)
    requires |x| % 6 == 0
    ensures Padded(x) == x && Padded(x + y) == x + Padded(y)
  {
    assert |x + y| % 6 == |y| % 6;
    assert x + (y + seq((6 - |y| % 6) % 6, _ => false)) == x + y + seq((6 - |y| % 6) % 6, _ => false);
  }

  lemma FillJoin(x: string, y: string)
    requires |x| % 4 == 0
    ensures Filled(x) == x && Filled(x + y) == x + Filled(y)
  {
    assert |x + y| % 4 == |y| % 4;
  }

  /** Whole groups encode by themselves. */
  lemma EncodeJoin(a: seq<Byte>, b: seq<Byte>)
    requires |a| % 3 == 0
    ensures Encode(a + b) == Encode(a) + Encode(b)
  {
    hide Bits, BitsOf, Letters, Padded, Filled;
    BitsOfJoin(a, b);
    var x, y := BitsOf(a), BitsOf(b);
    assert |x| == 24 * (|a| / 3);
    PadJoin(x, y);
    LettersJoin(x, Padded(y), 4 * (|a| / 3));
    assert |Letters(x)| == 4 * (|a| / 3);
    FillJoin(Letters(x), Letters(Padded(y)));
  }

  /** A new line is begun when the one before it is full. */
  lemma {:induction false} WrapMore(s: string, q: string)
    requires |s| % 4 == 0 && |q| == 4
    ensures Wrapped(s + q) == Wrapped(s) + (if |s| > 0 && |s| % LINE == 0 then "\n" else "") + q
    decreases |s|
  {
    if |s| > LINE {
      WrapMore(s[LINE..], q);
      assert (s + q)[..LINE] == s[..LINE] && (s + q)[LINE..] == s[LINE..] + q;
    } else if |s| == LINE {
      assert (s + q)[..LINE] == s && (s + q)[LINE..] == q;
    }
  }

  lemma EncodeNothing()
    ensures Encode([]) == "" && Wrapped("") == ""
  {
  }

  /** One more chunk. */
  lemma EncodeNext(bytes: seq<Byte>, at: nat, next: nat)
    requires at < next <= |bytes| && next <= at + 3 && at % 3 == 0
    ensures Encode(bytes[..next]) == Encode(bytes[..at]) + Quad(bytes[at..next])
  {
    hide Encode, Quad;
    EncodeJoin(bytes[..at], bytes[at..next]);
    EncodeChunk(bytes[at..next]);
    assert bytes[..next] == bytes[..at] + bytes[at..next];
  }

  /** The chunk's bytes shifted in one after the other. */
  method Pack(chunk: seq<Byte>) returns (n: nat)
    requires 1 <= |chunk| <= 3
    ensures n == Group(chunk)
  {
    n := 0;
    for i := 0 to |chunk|
      invariant i == 0 ==> n == 0
      invariant i == 1 ==> n == chunk[0]
      invariant i == 2 ==> n == 256 * chunk[0] as int + chunk[1]
      invariant i == 3 ==> n == 65536 * chunk[0] as int + 256 * chunk[1] as int + chunk[2]
    {
      n := n * 256 + chunk[i];
    }
    n := if |chunk| == 1 then n * 65536 else if |chunk| == 2 then n * 256 else n;
  }

  method Emit(chunk: seq<Byte>) returns (q: string)
    requires 1 <= |chunk| <= 3
    ensures q == Quad(chunk)
  {
    hide Letter, Sextet, Group;
    var n := Pack(chunk);
    q := "";
    for k := 0 to 4
      invariant q == Quad(chunk)[..k]
    {
      if k <= |chunk| {
        AlphabetIsTheTable(Sextet(n, k));
        q := q + [ALPHABET[Sextet(n, k)]];
      } else {
        q := q + ['='];
      }
    }
  }

  lemma FullLine(i: nat)
    ensures i % 19 == 0 <==> 4 * i % LINE == 0
  {
  }

  /** `base64`. */
  method Base64Text(bytes: seq<Byte>) returns (out: string)
    ensures out == Wrapped(Encode(bytes))
  {
    hide Encode, Quad, Wrapped, LINE;
    out := "";
    EncodeNothing();
    var i, at := 0, 0;
    assert bytes[..at] == [];
    while at < |bytes|
      invariant at == if 3 * i <= |bytes| then 3 * i else |bytes|
      invariant out == Wrapped(Encode(bytes[..at])) && |Encode(bytes[..at])| == 4 * i
      decreases |bytes| - at
    {
      var next := if at + 3 <= |bytes| then at + 3 else |bytes|;
      FullLine(i);
      if i > 0 && i % 19 == 0 {
        out := out + "\n";
      }
      var q := Emit(bytes[at..next]);
      WrapMore(Encode(bytes[..at]), q);
      EncodeNext(bytes, at, next);
      out := out + q;
      i, at := i + 1, next;
    }
    assert bytes[..at] == bytes;
  }

  // ---------------------------------------------------------------- the decoder

  /** Table 1 read the other way. */
  function ValueOf(c: char): Option<nat> {
    if 'A' <= c <= 'Z' then Some((c - 'A') as nat)
    else if 'a' <= c <= 'z' then Some((c - 'a') as nat + 26)
    else if '0' <= c <= '9' then Some((c - '0') as nat + 52)
    else if c == '+' then Some(62)
    else if c == '/' then Some(63)
    else None
  }

  function LowByte(n: nat): Byte {
    n % 256
  }

  function DecodeQuad(q: string): Option<seq<Byte>>
    requires |q| == 4
  {
    var a, b, c, d := ValueOf(q[0]), ValueOf(q[1]), ValueOf(q[2]), ValueOf(q[3]);
    if a.None? || b.None? then None
    else
      var x := LowByte(a.value * 4 + b.value / 16);
      if q[2..] == "==" then Some([x])
      else if c.None? then None
      else
        var y := LowByte(b.value % 16 * 16 + c.value / 4);
        if q[3] == '=' then Some([x, y])
        else if d.None? then None
        else Some([x, y, LowByte(c.value % 4 * 64 + d.value)])
  }

  /** Four letters at a time; only the last four may be padded. */
  function Decode(s: string): Option<seq<Byte>> {
    if s == [] then Some([])
    else if |s| < 4 then None
    else
      var q, rest := DecodeQuad(s[..4]), Decode(s[4..]);
      if q.None? || rest.None? || (|q.value| < 3 && |s| > 4) then None
      else Some(q.value + rest.value)
  }

  lemma ValueOfLetter(i: nat)
    requires i < 64
    ensures ValueOf(Letter(i)) == Some(i) && Letter(i) != '='
  {
  }

  /** How three bytes fall into four sextets. */
  lemma SextetsOf(a: nat, b: nat, c: nat)
    requires a < 256 && b < 256 && c < 256
    ensures var n := a * 65536 + b * 256 + c;
            && Sextet(n, 0) == a / 4 && Sextet(n, 1) == a % 4 * 16 + b / 16
            && Sextet(n, 2) == b % 16 * 4 + c / 64 && Sextet(n, 3) == c % 64
  {
    hide Sextet;
    Digits(a / 4, a % 4 * 16 + b / 16, b % 16 * 4 + c / 64, c % 64);
  }

  lemma Digits(w: nat, x: nat, y: nat, z: nat)
    requires w < 64 && x < 64 && y < 64 && z < 64
    ensures var n := ((w * 64 + x) * 64 + y) * 64 + z;
            Sextet(n, 0) == w && Sextet(n, 1) == x && Sextet(n, 2) == y && Sextet(n, 3) == z
  {
    var n := ((w * 64 + x) * 64 + y) * 64 + z;
    assert n / 64 == (w * 64 + x) * 64 + y;
    assert n / 4096 == w * 64 + x;
    assert n / 262144 == w;
  }

  /** And the other way. */
  lemma BytesOf(a: nat, b: nat, c: nat)
    requires a < 256 && b < 256 && c < 256
    ensures a / 4 * 4 + (a % 4 * 16 + b / 16) / 16 == a
    ensures (a % 4 * 16 + b / 16) % 16 * 16 + (b % 16 * 4 + c / 64) / 4 == b
    ensures (b % 16 * 4 + c / 64) % 4 * 64 + c % 64 == c
  {
    assert (a % 4 * 16 + b / 16) / 16 == a % 4 && (a % 4 * 16 + b / 16) % 16 == b / 16;
    assert (b % 16 * 4 + c / 64) / 4 == b % 16 && (b % 16 * 4 + c / 64) % 4 == c / 64;
  }

  lemma Reassembled(a: nat, b: nat, c: nat)
    requires a < 256 && b < 256 && c < 256
    ensures var n := a * 65536 + b * 256 + c;
            && LowByte(Sextet(n, 0) * 4 + Sextet(n, 1) / 16) == a
            && LowByte(Sextet(n, 1) % 16 * 16 + Sextet(n, 2) / 4) == b
            && LowByte(Sextet(n, 2) % 4 * 64 + Sextet(n, 3)) == c
  {
    hide Sextet;
    SextetsOf(a, b, c);
    BytesOf(a, b, c);
  }

  lemma QuadDecodes(chunk: seq<Byte>)
    requires 1 <= |chunk| <= 3
    ensures DecodeQuad(Quad(chunk)) == Some(chunk)
  {
    hide ValueOf, Letter, Sextet, LowByte;
    var a: int := chunk[0];
    var b: int := if |chunk| > 1 then chunk[1] else 0;
    var c: int := if |chunk| > 2 then chunk[2] else 0;
    Reassembled(a, b, c);
    var n, q := Group(chunk), Quad(chunk);
    ValueOfLetter(Sextet(n, 0));
    ValueOfLetter(Sextet(n, 1));
    ValueOfLetter(Sextet(n, 2));
    ValueOfLetter(Sextet(n, 3));
    assert q[2..] == [q[2], q[3]];
    assert chunk == if |chunk| == 1 then [a] else if |chunk| == 2 then [a, b] else [a, b, c];
  }

  /** Decoding gives back every byte sequence. */
  lemma {:induction false} RoundTrip(bytes: seq<Byte>)
    ensures Decode(Encode(bytes)) == Some(bytes)
    decreases |bytes|
  {
    hide Encode, Quad, DecodeQuad;
    EncodeNothing();
    if bytes != [] {
      var next := if |bytes| < 3 then |bytes| else 3;
      var chunk, rest := bytes[..next], bytes[next..];
      assert bytes == chunk + rest;
      EncodeChunk(chunk);
      QuadDecodes(chunk);
      RoundTrip(rest);
      if |bytes| >= 3 { EncodeJoin(chunk, rest); } else { assert rest == [] && chunk == bytes; }
      assert Encode(bytes) == Quad(chunk) + Encode(rest);
      assert Encode(bytes)[..4] == Quad(chunk) && Encode(bytes)[4..] == Encode(rest);
    }
  }

  // ---------------------------------------------------------------- its lines

  /** A text cut into full lines and a last one. */
  function Cut(s: string): (r: seq<string>)
    ensures |r| > 0
    ensures forall i :: 0 <= i < |r| ==> |r[i]| <= LINE
    ensures forall i :: 0 <= i < |r| - 1 ==> |r[i]| == LINE
    ensures |r| > 1 ==> |r[|r| - 1]| > 0
  {
    if |s| <= LINE then [s] else [s[..LINE]] + Cut(s[LINE..])
  }

  function Concat(lines: seq<string>): string {
    if lines == [] then "" else lines[0] + Concat(lines[1..])
  }

  lemma {:induction false} CutLines(s: string)
    requires OneLine(s)
    ensures Lines(Wrapped(s)) == Cut(s)
    decreases |s|
  {
    hide Lines;
    if |s| <= LINE {
      LineOnly(s);
    } else {
      CutLines(s[LINE..]);
      LineFirst(s[..LINE], Wrapped(s[LINE..]));
    }
  }

  lemma {:induction false} CutLosesNothing(s: string)
    ensures Concat(Cut(s)) == s
    decreases |s|
  {
    if |s| <= LINE {
      assert Cut(s)[1..] == [];
    } else {
      CutLosesNothing(s[LINE..]);
      assert Cut(s)[1..] == Cut(s[LINE..]);
      assert s == s[..LINE] + s[LINE..];
    }
  }

  lemma {:induction false} PartOfWhole(lines: seq<string>, i: nat, c: char)
    requires i < |lines| && c in lines[i]
    ensures c in Concat(lines)
    decreases i
  {
    if i > 0 { PartOfWhole(lines[1..], i - 1, c); }
  }

  predicate InAlphabet(c: char) {
    ValueOf(c).Some? || c == '='
  }

  lemma AnyLetter(i: nat)
    ensures InAlphabet(Letter(i))
  {
  }

  lemma EncodeInAlphabet(bytes: seq<Byte>, c: char)
    requires c in Encode(bytes)
    ensures InAlphabet(c)
  {
    hide Number, Padded, BitsOf, Letter;
    var bits := Padded(BitsOf(bytes));
    if c in Letters(bits) {
      var i :| 0 <= i < |bits| / 6 && c == Letters(bits)[i];
      AnyLetter(Number(bits[6 * i..6 * i + 6]));
    } else {
      assert c == '=';
    }
  }

  /** Every line is at most 76 letters, only the last one shorter, and none of them is the
      mark that ends the heredoc. */
  lemma LinesOfEncoding(bytes: seq<Byte>)
    ensures var lines := Lines(Wrapped(Encode(bytes)));
            && (forall i :: 0 <= i < |lines| ==> |lines[i]| <= 76 && lines[i] != EOF_MARK)
            && (forall i :: 0 <= i < |lines| - 1 ==> |lines[i]| == 76)
            && Concat(lines) == Encode(bytes)
  {
    hide Encode, Cut, Lines, Wrapped;
    var s := Encode(bytes);
    forall c | c in s ensures InAlphabet(c) { EncodeInAlphabet(bytes, c); }
    CutLines(s);
    CutLosesNothing(s);
    assert EOF_MARK[3] == '_';
    assert !InAlphabet('_');
    forall i | 0 <= i < |Cut(s)| ensures '_' !in Cut(s)[i] {
      if '_' in Cut(s)[i] { PartOfWhole(Cut(s), i, '_'); }
    }
  }

  // ---------------------------------------------------------------- the heredoc

  /** What a shell hands to a command as its heredoc, and where the script goes on. */
  function HereDoc(script: seq<string>): Option<(seq<string>, seq<string>)> {
    if script == [] then None
    else if script[0] == EOF_MARK then Some(([], script[1..]))
    else match HereDoc(script[1..])
      case None => None
      case Some((body, rest)) => Some(([script[0]] + body, rest))
  }

  lemma {:induction false} HereDocEnds(body: seq<string>, rest: seq<string>)
    requires forall i :: 0 <= i < |body| ==> body[i] != EOF_MARK
    ensures HereDoc(body + [EOF_MARK] + rest) == Some((body, rest))
  {
    var all := body + [EOF_MARK] + rest;
    if body == [] {
      assert all[1..] == rest;
    } else {
      HereDocEnds(body[1..], rest);
      assert all[1..] == body[1..] + [EOF_MARK] + rest;
      assert body == [body[0]] + body[1..];
    }
  }

  /** Whatever the content, the shell reads all of it and nothing else, `base64 -d` gets
      the content back, and the next command begins where the script wrote it. */
  lemma ContentArrives(bytes: seq<Byte>, rest: string)
    ensures var text := Wrapped(Encode(bytes));
            var read := HereDoc(Lines(text + "\n" + (EOF_MARK + "\n" + rest)));
            read.Some? && read.value.1 == Lines(rest) && Decode(Concat(read.value.0)) == Some(bytes)
  {
    hide Encode, Cut, Lines, Wrapped, Decode, Concat;
    var text := Wrapped(Encode(bytes));
    LinesOfEncoding(bytes);
    LinesJoin(text, EOF_MARK + "\n" + rest);
    LineFirst(EOF_MARK, rest);
    HereDocEnds(Lines(text), Lines(rest));
    assert Lines(text) + ([EOF_MARK] + Lines(rest)) == Lines(text) + [EOF_MARK] + Lines(rest);
    RoundTrip(bytes);
  }
}
