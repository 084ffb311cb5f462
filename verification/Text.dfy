/** Splitting text at a character, and text encodings shared by the parsers: decimals,
    hexadecimal and unpadded base64.
 */
module Text {
  import opened Wrappers

  type Byte = x: int | 0 <= x < 256

  // ---------------------------------------------------------------------------------------
  // Split, Join and Cut
  // ---------------------------------------------------------------------------------------

  /** strings.Split with a separator of one character. */
  function Split(s: string, sep: char): (parts: seq<string>)
    ensures |parts| >= 1
  {
    if s == [] then [""]
    else if s[0] == sep then [""] + Split(s[1..], sep)
    else
      var rest := Split(s[1..], sep);
      [[s[0]] + rest[0]] + rest[1..]
  }

  function Join(parts: seq<string>, sep: char): string
    requires |parts| >= 1
  {
    if |parts| == 1 then parts[0] else parts[0] + [sep] + Join(parts[1..], sep)
  }

  lemma {:induction false} SplitFirst(first: string, rest: string, sep: char)
    requires sep !in first
    ensures Split(first + [sep] + rest, sep) == [first] + Split(rest, sep)
    decreases |first|
  {
    var s := first + [sep] + rest;
    if first == [] {
      assert s[1..] == rest;
    } else {
      assert s[1..] == first[1..] + [sep] + rest;
      SplitFirst(first[1..], rest, sep);
      assert [first[0]] + first[1..] == first;
    }
  }

  lemma {:induction false} SplitNone(s: string, sep: char)
    requires sep !in s
    ensures Split(s, sep) == [s]
    decreases |s|
  {
    if s != [] {
      SplitNone(s[1..], sep);
      assert [s[0]] + s[1..] == s;
    }
  }

  /** Splitting undoes joining parts that do not contain the separator. */
  lemma {:induction false} SplitJoin(parts: seq<string>, sep: char)
    requires |parts| >= 1 && forall i | 0 <= i < |parts| :: sep !in parts[i]
    ensures Split(Join(parts, sep), sep) == parts
    decreases |parts|
  {
    if |parts| == 1 {
      SplitNone(parts[0], sep);
    } else {
      SplitJoin(parts[1..], sep);
      SplitFirst(parts[0], Join(parts[1..], sep), sep);
    }
  }

  /** Joining undoes splitting, and no part contains the separator. */
  lemma {:induction false} JoinSplit(s: string, sep: char)
    ensures Join(Split(s, sep), sep) == s && forall i | 0 <= i < |Split(s, sep)| :: sep !in Split(s, sep)[i]
    decreases |s|
  {
    if s != [] {
      var rest := Split(s[1..], sep);
      JoinSplit(s[1..], sep);
      assert s == [s[0]] + s[1..];
      if s[0] == sep {
        assert ([""] + rest)[1..] == rest;
      } else {
        var first := [s[0]] + rest[0];
        assert ([first] + rest[1..])[1..] == rest[1..];
        if |rest| > 1 {
          assert first + [sep] + Join(rest[1..], sep) == [s[0]] + (rest[0] + [sep] + Join(rest[1..], sep));
        }
      }
    }
  }

  /** strings.Cut: the text before and after the first separator. */
  function Cut(s: string, sep: char): (r: Option<(string, string)>)
    ensures r.None? <==> sep !in s
    ensures r.Some? ==> s == r.value.0 + [sep] + r.value.1 && sep !in r.value.0
  {
    if s == [] then None
    else if s[0] == sep then Some(("", s[1..]))
    else match Cut(s[1..], sep)
      case None => None
      case Some((before, after)) => Some(([s[0]] + before, after))
  }

  lemma {:induction false} CutFirst(first: string, rest: string, sep: char)
    requires sep !in first
    ensures Cut(first + [sep] + rest, sep) == Some((first, rest))
    decreases |first|
  {
    var s := first + [sep] + rest;
    if first == [] {
      assert s[1..] == rest;
    } else {
      assert s[1..] == first[1..] + [sep] + rest;
      CutFirst(first[1..], rest, sep);
      assert [first[0]] + first[1..] == first;
    }
  }

  // ---------------------------------------------------------------------------------------
  // Lower case and surrounding space, of ASCII text
  // ---------------------------------------------------------------------------------------

  function LowerChar(c: char): char {
    if 'A' <= c <= 'Z' then 'a' + (c - 'A') else c
  }

  function Lower(s: string): (r: string)
    ensures |r| == |s| && forall i | 0 <= i < |s| :: r[i] == LowerChar(s[i])
  {
    if s == [] then [] else [LowerChar(s[0])] + Lower(s[1..])
  }

  /** Tab, line feed, vertical tab, form feed, carriage return and space. */
  predicate IsSpace(c: char) {
    9 <= c as int <= 13 || c == ' '
  }

  function TrimLeft(s: string, drop: char -> bool): string {
    if s != [] && drop(s[0]) then TrimLeft(s[1..], drop) else s
  }

  function TrimRight(s: string, drop: char -> bool): string {
    if s != [] && drop(s[|s| - 1]) then TrimRight(s[..|s| - 1], drop) else s
  }

  /** strings.Trim, and strings.TrimSpace with IsSpace. */
  function Trim(s: string, drop: char -> bool): string {
    TrimRight(TrimLeft(s, drop), drop)
  }

  /** The form of a user name that accounts and login counters are kept under. */
  function Folded(s: string): string {
    Lower(Trim(s, IsSpace))
  }

  predicate Tight(s: string) {
    s == "" || (!IsSpace(s[0]) && !IsSpace(s[|s| - 1]))
  }

  lemma {:induction false} TrimLeftEnds(s: string)
    ensures TrimLeft(s, IsSpace) == "" || !IsSpace(TrimLeft(s, IsSpace)[0])
    decreases |s|
  {
    if s != [] && IsSpace(s[0]) {
      TrimLeftEnds(s[1..]);
    }
  }

  lemma {:induction false} TrimRightEnds(s: string)
    requires s == "" || !IsSpace(s[0])
    ensures Tight(TrimRight(s, IsSpace))
    decreases |s|
  {
    if s != [] && IsSpace(s[|s| - 1]) {
      TrimRightEnds(s[..|s| - 1]);
    }
  }

  lemma TightStays(s: string)
    requires Tight(s) && Lower(s) == s
    ensures Folded(s) == s
  {
  }

  lemma LowerTwice(s: string)
    ensures Lower(Lower(s)) == Lower(s)
  {
    forall i | 0 <= i < |s|
      ensures Lower(Lower(s))[i] == Lower(s)[i]
    {
      assert Lower(Lower(s))[i] == LowerChar(Lower(s)[i]);
    }
  }

  lemma LowerKeepsSpace(c: char)
    ensures IsSpace(LowerChar(c)) <==> IsSpace(c)
  {
  }

  lemma LowerTight(s: string)
    requires Tight(s)
    ensures Tight(Lower(s))
  {
    if s != [] {
      LowerKeepsSpace(s[0]);
      LowerKeepsSpace(s[|s| - 1]);
      assert Lower(s)[0] == LowerChar(s[0]) && Lower(s)[|s| - 1] == LowerChar(s[|s| - 1]);
    }
  }

  lemma {:induction false} TrimLeftBlank(before: string, rest: string)
    requires forall i | 0 <= i < |before| :: before[i] as int in {9, 10, 11, 12, 13, 32}
    ensures TrimLeft(before + rest, IsSpace) == TrimLeft(rest, IsSpace)
    decreases |before|
  {
    if before == [] {
      assert before + rest == rest;
    } else {
      assert (before + rest)[1..] == before[1..] + rest;
      TrimLeftBlank(before[1..], rest);
    }
  }

  lemma {:induction false} TrimRightBlank(rest: string, after: string)
    requires forall i | 0 <= i < |after| :: after[i] as int in {9, 10, 11, 12, 13, 32}
    ensures TrimRight(rest + after, IsSpace) == TrimRight(rest, IsSpace)
    decreases |after|
  {
    if after == [] {
      assert rest + after == rest;
    } else {
      var init := after[..|after| - 1];
      assert (rest + after)[..|rest + after| - 1] == rest + init;
      TrimRightBlank(rest, init);
    }
  }

  /** Space around a text goes, whatever it consists of, and no other character does. */
  lemma TrimExactly(before: string, core: string, after: string)
    requires forall i | 0 <= i < |before| :: before[i] as int in {9, 10, 11, 12, 13, 32}
    requires forall i | 0 <= i < |after| :: after[i] as int in {9, 10, 11, 12, 13, 32}
    requires core != "" ==>
      core[0] as int !in {9, 10, 11, 12, 13, 32} && core[|core| - 1] as int !in {9, 10, 11, 12, 13, 32}
    ensures Trim(before + (core + after), IsSpace) == core
  {
    TrimLeftBlank(before, core + after);
    if core == "" {
      assert core + after == after + "" == after;
      TrimLeftBlank(after, "");
    } else {
      TrimRightBlank(core, after);
    }
  }

  /** The letters from A to Z, by their codes, become those from a to z; nothing else changes. */
  lemma LowerExactly(s: string, i: nat)
    requires i < |s|
    ensures |Lower(s)| == |s|
    ensures Lower(s)[i] as int == if 65 <= s[i] as int <= 90 then s[i] as int + 32 else s[i] as int
  {
  }

  /** A name is kept without the space around it and with small letters. */
  lemma FoldedExactly(before: string, core: string, after: string)
    requires forall i | 0 <= i < |before| :: before[i] as int in {9, 10, 11, 12, 13, 32}
    requires forall i | 0 <= i < |after| :: after[i] as int in {9, 10, 11, 12, 13, 32}
    requires core != "" ==>
      core[0] as int !in {9, 10, 11, 12, 13, 32} && core[|core| - 1] as int !in {9, 10, 11, 12, 13, 32}
    ensures var f := Folded(before + (core + after));
            && |f| == |core|
            && forall i | 0 <= i < |core| ::
                 f[i] as int == if 65 <= core[i] as int <= 90 then core[i] as int + 32 else core[i] as int
  {
    TrimExactly(before, core, after);
    forall i | 0 <= i < |core|
      ensures Lower(core)[i] as int == if 65 <= core[i] as int <= 90 then core[i] as int + 32 else core[i] as int
    {
      LowerExactly(core, i);
    }
  }

  /** Folding a second time changes nothing. */
  lemma FoldedTwice(s: string)
    ensures Folded(Folded(s)) == Folded(s)
  {
    TrimLeftEnds(s);
    TrimRightEnds(TrimLeft(s, IsSpace));
    LowerTight(Trim(s, IsSpace));
    LowerTwice(Trim(s, IsSpace));
    TightStays(Folded(s));
  }

  // ---------------------------------------------------------------------------------------
  // Decimals
  // ---------------------------------------------------------------------------------------

  predicate IsDigit(c: char) {
    '0' <= c <= '9'
  }

  function Decimal(n: nat): string {
    if n < 10 then ['0' + n as char] else Decimal(n / 10) + ['0' + (n % 10) as char]
  }

  /** The value of a non-empty run of digits. */
  function Digits(s: string): Option<nat> {
    if s == [] || !IsDigit(s[|s| - 1]) then None
    else
      var d := (s[|s| - 1] - '0') as int;
      if |s| == 1 then Some(d) else
      match Digits(s[..|s| - 1])
      case None => None
      case Some(n) => Some(10 * n + d)
  }

  lemma {:induction false} DecimalRoundTrip(n: nat)
    ensures Digits(Decimal(n)) == Some(n)
    ensures Decimal(n) != [] && forall i | 0 <= i < |Decimal(n)| :: IsDigit(Decimal(n)[i])
  {
    if n >= 10 {
      DecimalRoundTrip(n / 10);
      var s := Decimal(n);
      assert s[..|s| - 1] == Decimal(n / 10);
    }
  }

  lemma {:induction false} DecimalLength(n: nat, digits: nat, bound: nat)
    requires digits >= 1 && bound == Power10(digits) && n < bound
    ensures |Decimal(n)| <= digits
    decreases digits
  {
    if n >= 10 {
      assert bound == 10 * Power10(digits - 1);
      DecimalLength(n / 10, digits - 1, Power10(digits - 1));
    }
  }

  function Power10(n: nat): (p: nat)
    ensures p >= 1
  {
    if n == 0 then 1 else 10 * Power10(n - 1)
  }

  lemma DivideTwice(n: nat, p: nat)
    requires p >= 1
    ensures n / 10 / p == n / (10 * p)
  {
    var q, r := n / (10 * p), n % (10 * p);
    assert n == 10 * (p * q) + r;
    assert n / 10 == p * q + r / 10 && r / 10 < p;
    QuotientOf(p, q, r / 10);
  }

  lemma QuotientOf(p: nat, q: nat, r: nat)
    requires r < p
    ensures (p * q + r) / p == q
  {
    var d := (p * q + r) / p;
    var e := (p * q + r) % p;
    assert p * d + e == p * q + r;
    NextMultiple(p, d, q);
    NextMultiple(p, q, d);
  }

  lemma NextMultiple(p: nat, a: nat, b: nat)
    ensures a < b ==> p * a + p <= p * b
  {
    if a < b {
      var d: nat := b - a - 1;
      assert b == a + 1 + d;
      assert p * b == p * a + p + p * d;
    }
  }

  /** Each place shows its digit, by its code, and there is no zero in front. */
  lemma {:induction false} DecimalAt(n: nat, i: nat)
    requires i < |Decimal(n)|
    ensures Decimal(n)[i] as int == 48 + n / Power10(|Decimal(n)| - 1 - i) % 10
    ensures n > 0 ==> Decimal(n)[0] != '0'
    decreases n
  {
    if n >= 10 {
      var rest := Decimal(n / 10);
      if i < |rest| {
        DecimalAt(n / 10, i);
        DivideTwice(n, Power10(|rest| - 1 - i));
      } else {
        DecimalAt(n / 10, 0);
      }
    }
  }

  // ---------------------------------------------------------------------------------------
  // Hexadecimal
  // ---------------------------------------------------------------------------------------

  function HexDigit(v: int): char
    requires 0 <= v < 16
  {
    if v < 10 then '0' + v as char else 'a' + (v - 10) as char
  }

  /** Both cases are read. */
  function HexValue(c: char): Option<int> {
    if '0' <= c <= '9' then Some((c - '0') as int)
    else if 'a' <= c <= 'f' then Some((c - 'a') as int + 10)
    else if 'A' <= c <= 'F' then Some((c - 'A') as int + 10)
    else None
  }

  function Hex(b: seq<Byte>): string {
    if b == [] then "" else [HexDigit(b[0] / 16), HexDigit(b[0] % 16)] + Hex(b[1..])
  }

  function Unhex(s: string): Option<seq<Byte>> {
    if s == [] then Some([])
    else if |s| == 1 then None
    else match (HexValue(s[0]), HexValue(s[1]), Unhex(s[2..]))
      case (Some(h), Some(l), Some(rest)) =>
        if 0 <= h < 16 && 0 <= l < 16 then Some([16 * h + l] + rest) else None
      case _ => None
  }

  predicate LowerHex(c: char) {
    '0' <= c <= '9' || 'a' <= c <= 'f'
  }

  lemma {:induction false} HexRoundTrip(b: seq<Byte>)
    ensures |Hex(b)| == 2 * |b| && Unhex(Hex(b)) == Some(b)
    ensures forall i | 0 <= i < |Hex(b)| :: LowerHex(Hex(b)[i])
    decreases |b|
  {
    if b != [] {
      HexRoundTrip(b[1..]);
      assert Hex(b)[2..] == Hex(b[1..]);
      assert HexValue(HexDigit(b[0] / 16)) == Some(b[0] / 16) && HexValue(HexDigit(b[0] % 16)) == Some(b[0] % 16);
      assert [b[0]] + b[1..] == b;
    }
  }

  /** The two digits of each byte, by their codes. */
  lemma {:induction false} HexAt(b: seq<Byte>, i: nat)
    requires i < |b|
    ensures |Hex(b)| == 2 * |b|
    ensures Hex(b)[2 * i] as int == if b[i] / 16 < 10 then 48 + b[i] / 16 else 87 + b[i] / 16
    ensures Hex(b)[2 * i + 1] as int == if b[i] % 16 < 10 then 48 + b[i] % 16 else 87 + b[i] % 16
    decreases |b|
  {
    HexRoundTrip(b);
    if i > 0 { HexAt(b[1..], i - 1); }
  }

  lemma {:induction false} HexAppend(a: seq<Byte>, b: seq<Byte>)
    ensures Hex(a + b) == Hex(a) + Hex(b)
    decreases |a|
  {
    if a == [] {
      assert a + b == b;
    } else {
      assert (a + b)[1..] == a[1..] + b;
      HexAppend(a[1..], b);
    }
  }

  // ---------------------------------------------------------------------------------------
  // Base64 without padding: sections 3.2 and 4 of RFC 4648
  // ---------------------------------------------------------------------------------------

  function Symbol(v: int): char
    requires 0 <= v < 64
  {
    if v < 26 then 'A' + v as char
    else if v < 52 then 'a' + (v - 26) as char
    else if v < 62 then '0' + (v - 52) as char
    else if v == 62 then '+' else '/'
  }

  function SymbolValue(c: char): (r: Option<int>)
    ensures r.Some? ==> 0 <= r.value < 64
  {
    if 'A' <= c <= 'Z' then Some((c - 'A') as int)
    else if 'a' <= c <= 'z' then Some((c - 'a') as int + 26)
    else if '0' <= c <= '9' then Some((c - '0') as int + 52)
    else if c == '+' then Some(62)
    else if c == '/' then Some(63)
    else None
  }

  lemma SymbolRoundTrip(v: int)
    requires 0 <= v < 64
    ensures SymbolValue(Symbol(v)) == Some(v)
  {
  }

  type Sextet = x: int | 0 <= x < 64

  /** The bits of the bytes in groups of six, the last group filled up with zeros. */
  function Sextets(b: seq<Byte>): seq<Sextet> {
    if |b| == 0 then []
    else if |b| == 1 then [b[0] / 4, b[0] % 4 * 16]
    else if |b| == 2 then [b[0] / 4, b[0] % 4 * 16 + b[1] / 16, b[1] % 16 * 4]
    else [b[0] / 4, b[0] % 4 * 16 + b[1] / 16, b[1] % 16 * 4 + b[2] / 64, b[2] % 64] + Sextets(b[3..])
  }

  /** Bits left over in the last group are ignored, as by the decoder of the Go library. */
  function Pack(v: seq<Sextet>): Option<seq<Byte>> {
    if |v| == 0 then Some([])
    else if |v| == 1 then None
    else
      var p: int, q: int := v[0], v[1];
      var first: Byte := 4 * p + q / 16;
      if |v| == 2 then Some([first]) else
      var r: int := v[2];
      var second: Byte := q % 16 * 16 + r / 4;
      if |v| == 3 then Some([first, second]) else
      var t: int := v[3];
      var third: Byte := r % 4 * 64 + t;
      match Pack(v[4..])
      case Some(rest) => Some([first, second, third] + rest)
      case None => None
  }

  function Symbols(v: seq<Sextet>): string {
    if v == [] then "" else [Symbol(v[0])] + Symbols(v[1..])
  }

  function Values(s: string): Option<seq<Sextet>> {
    if s == [] then Some([])
    else match (SymbolValue(s[0]), Values(s[1..]))
      case (Some(v), Some(rest)) => Some([v] + rest)
      case _ => None
  }

  function Base64(b: seq<Byte>): string {
    Symbols(Sextets(b))
  }

  function Unbase64(s: string): Option<seq<Byte>> {
    match Values(s)
    case Some(v) => Pack(v)
    case None => None
  }

  /** The library's decoder passes over line breaks. */
  function WithoutBreaks(s: string): string {
    if s == [] then []
    else if s[0] == '\r' || s[0] == '\n' then WithoutBreaks(s[1..])
    else [s[0]] + WithoutBreaks(s[1..])
  }

  function DecodeBase64(s: string): Option<seq<Byte>> {
    Unbase64(WithoutBreaks(s))
  }

  predicate IsSymbol(c: char) {
    SymbolValue(c).Some?
  }

  lemma {:induction false} NoBreaks(s: string)
    requires forall i | 0 <= i < |s| :: IsSymbol(s[i])
    ensures WithoutBreaks(s) == s
    decreases |s|
  {
    if s != [] {
      assert IsSymbol(s[0]);
      NoBreaks(s[1..]);
      assert [s[0]] + s[1..] == s;
    }
  }

  lemma {:induction false} PackSextets(b: seq<Byte>)
    ensures Pack(Sextets(b)) == Some(b)
    decreases |b|
  {
    if |b| >= 3 {
      PackSextets(b[3..]);
      assert Sextets(b)[4..] == Sextets(b[3..]);
      assert [b[0], b[1], b[2]] + b[3..] == b;
    } else if |b| == 2 {
      assert [b[0], b[1]] == b;
    } else if |b| == 1 {
      assert [b[0]] == b;
    }
  }

  lemma {:induction false} ValuesOfSymbols(v: seq<Sextet>)
    ensures Values(Symbols(v)) == Some(v) && |Symbols(v)| == |v|
    ensures forall i | 0 <= i < |Symbols(v)| :: IsSymbol(Symbols(v)[i])
    decreases |v|
  {
    if v != [] {
      ValuesOfSymbols(v[1..]);
      SymbolRoundTrip(v[0]);
      assert Symbols(v)[1..] == Symbols(v[1..]);
      assert [v[0]] + v[1..] == v;
    }
  }

  lemma {:induction false} SextetsLength(b: seq<Byte>)
    ensures |Sextets(b)| == (4 * |b| + 2) / 3
    decreases |b|
  {
    if |b| >= 3 {
      SextetsLength(b[3..]);
    }
  }

  lemma Base64RoundTrip(b: seq<Byte>)
    ensures DecodeBase64(Base64(b)) == Some(b)
    ensures forall i | 0 <= i < |Base64(b)| :: IsSymbol(Base64(b)[i])
    ensures |Base64(b)| == (4 * |b| + 2) / 3
  {
    PackSextets(b);
    ValuesOfSymbols(Sextets(b));
    SextetsLength(b);
    NoBreaks(Base64(b));
  }

  /** A byte, or zero after the last. */
  function ByteAt(b: seq<Byte>, i: nat): Byte {
    if i < |b| then b[i] else 0
  }

  /** Each character stands for six bits, the highest first, of the three bytes of its group; its code
      is that of the alphabet of table 1 of RFC 4648. */
  lemma {:induction false} Base64At(b: seq<Byte>, k: nat)
    requires k < |Base64(b)|
    ensures |Base64(b)| == (4 * |b| + 2) / 3
    ensures
      var bits := 65536 * ByteAt(b, k / 4 * 3) + 256 * ByteAt(b, k / 4 * 3 + 1) + ByteAt(b, k / 4 * 3 + 2);
      var v := if k % 4 == 0 then bits / 262144 else if k % 4 == 1 then bits / 4096 % 64
               else if k % 4 == 2 then bits / 64 % 64 else bits % 64;
      Base64(b)[k] as int == if v < 26 then 65 + v else if v < 52 then 71 + v else if v < 62 then v - 4
                             else if v == 62 then 43 else 47
    decreases |b|
  {
    SymbolsAt(Sextets(b), k);
    SextetAt(b, k);
    SymbolCode(Sextets(b)[k]);
  }

  lemma SymbolCode(v: int)
    requires 0 <= v < 64
    ensures Symbol(v) as int == if v < 26 then 65 + v else if v < 52 then 71 + v else if v < 62 then v - 4
                                else if v == 62 then 43 else 47
  {
  }

  lemma {:induction false} SymbolsAt(v: seq<Sextet>, k: nat)
    requires k < |Symbols(v)|
    ensures |Symbols(v)| == |v| && Symbols(v)[k] == Symbol(v[k])
    decreases |v|
  {
    ValuesOfSymbols(v);
    if k > 0 { SymbolsAt(v[1..], k - 1); }
  }

  /** The groups of six bits in three bytes. */
  lemma BitsOf(x: Byte, y: Byte, z: Byte)
    ensures
      var bits := 65536 * x + 256 * y + z;
      && bits / 262144 == x / 4 && bits / 4096 % 64 == x % 4 * 16 + y / 16
      && bits / 64 % 64 == y % 16 * 4 + z / 64 && bits % 64 == z % 64
  {
    SixBits(65536 * x + 256 * y + z, 1024 * x + 4 * y + z / 64, z % 64);
    SixBits(1024 * x + 4 * y + z / 64, 16 * x + y / 16, y % 16 * 4 + z / 64);
    SixBits(16 * x + y / 16, x / 4, x % 4 * 16 + y / 16);
  }

  /** Taking the last six bits. */
  lemma SixBits(n: nat, rest: nat, low: nat)
    requires n == 64 * rest + low && low < 64
    ensures n / 64 == rest && n % 64 == low && n / 4096 == rest / 64 && n / 262144 == rest / 4096
  {
  }

  lemma FirstGroup(b: seq<Byte>, k: nat)
    requires k < 4 && k < |Sextets(b)|
    ensures
      var x: int, y: int, z: int := ByteAt(b, 0), ByteAt(b, 1), ByteAt(b, 2);
      Sextets(b)[k] == if k == 0 then x / 4 else if k == 1 then x % 4 * 16 + y / 16
                       else if k == 2 then y % 16 * 4 + z / 64 else z % 64
  {
  }

  lemma {:induction false} SextetAt(b: seq<Byte>, k: nat)
    requires k < |Sextets(b)|
    ensures |Sextets(b)| == (4 * |b| + 2) / 3
    ensures
      var bits := 65536 * ByteAt(b, k / 4 * 3) + 256 * ByteAt(b, k / 4 * 3 + 1) + ByteAt(b, k / 4 * 3 + 2);
      Sextets(b)[k] == if k % 4 == 0 then bits / 262144 else if k % 4 == 1 then bits / 4096 % 64
                       else if k % 4 == 2 then bits / 64 % 64 else bits % 64
    decreases |b|
  {
    SextetsLength(b);
    if k >= 4 {
      assert Sextets(b)[k] == Sextets(b[3..])[k - 4];
      SextetAt(b[3..], k - 4);
      assert (k - 4) / 4 == k / 4 - 1 && (k - 4) % 4 == k % 4;
      forall i | i >= 3 ensures ByteAt(b, i) == ByteAt(b[3..], i - 3) {}
    } else {
      FirstGroup(b, k);
      BitsOf(ByteAt(b, 0), ByteAt(b, 1), ByteAt(b, 2));
    }
  }
}
