/** Password digests as PHC strings: user/password.go. The key derivation function, the random
    salt and the Unicode classes are parameters.
 */
module Phc {
  import opened Wrappers
  import opened Text

  const MAX_MEMORY_KIB: nat := 256 * 1024
  const MAX_TIME: nat := 10
  const MAX_THREADS: nat := 16
  const MAX_ENCODED: nat := 1024

  datatype Params = Params(memoryKiB: nat, time: nat, threads: nat, saltLen: nat, keyLen: nat)

  datatype Digest = Digest(params: Params, salt: seq<Byte>, hash: seq<Byte>)

  /** Password, salt and cost to key. */
  type Kdf = (seq<int>, seq<Byte>, Params) -> seq<Byte>

  // Go's conversions to narrower unsigned integers drop the high bits.
  function Uint32(n: nat): nat {
    n % 0x1_0000_0000
  }

  function Uint8(n: nat): nat {
    n % 0x100
  }

  predicate Allowed(p: Params) {
    && 8 * 1024 <= p.memoryKiB <= MAX_MEMORY_KIB
    && 1 <= p.time <= MAX_TIME
    && 1 <= p.threads <= MAX_THREADS
    && 8 <= p.saltLen <= 64
    && 16 <= p.keyLen <= 64
  }

  /** The digest has the lengths its parameters announce. */
  predicate Matching(d: Digest) {
    |d.salt| == d.params.saltLen && |d.hash| == d.params.keyLen
  }

  // ---------------------------------------------------------------------------------------
  // Printing and parsing
  // ---------------------------------------------------------------------------------------

  function Costs(p: Params): string {
    "m=" + Decimal(p.memoryKiB) + ",t=" + Decimal(p.time) + ",p=" + Decimal(p.threads)
  }

  function Encode(d: Digest): string {
    "$argon2id$v=19$" + Costs(d.params) + "$" + Base64(d.salt) + "$" + Base64(d.hash)
  }

  /** A cost: the prefix, then a decimal that fits in 32 bits. */
  function ParseValue(value: string, prefix: string): (r: Option<nat>)
    ensures r.Some? ==> r.value < 0x1_0000_0000
  {
    if !(prefix <= value) || value == prefix then None
    else match Digits(value[|prefix|..])
      case Some(n) => if n < 0x1_0000_0000 then Some(n) else None
      case None => None
  }

  function ParseCosts(text: string): Option<(nat, nat, nat)> {
    var values := Split(text, ',');
    if |values| != 3 then None
    else match (ParseValue(values[0], "m="), ParseValue(values[1], "t="), ParseValue(values[2], "p="))
      case (Some(memory), Some(time), Some(threads)) => if threads > 255 then None else Some((memory, time, threads))
      case _ => None
  }

  function Decode(encoded: string): Option<Digest> {
    var parts := Split(encoded, '$');
    if |parts| != 6 || parts[0] != "" || parts[1] != "argon2id" || parts[2] != "v=19" then None
    else if |encoded| > MAX_ENCODED then None
    else match (ParseCosts(parts[3]), DecodeBase64(parts[4]), DecodeBase64(parts[5]))
      case (Some((memory, time, threads)), Some(salt), Some(hash)) => Assemble(memory, time, threads, salt, hash)
      case _ => None
  }

  /** The bounds checked before and after the conversions to the fields' widths. */
  function Assemble(memory: nat, time: nat, threads: nat, salt: seq<Byte>, hash: seq<Byte>): Option<Digest> {
    if memory > MAX_MEMORY_KIB || time > MAX_TIME || threads > MAX_THREADS || |salt| > 64 || |hash| > 64 then None
    else
      var p := Params(Uint32(memory), Uint32(time), Uint8(threads), Uint32(|salt|), Uint32(|hash|));
      if Allowed(p) then Some(Digest(p, salt, hash)) else None
  }

  // ---------------------------------------------------------------------------------------
  // Round trip
  // ---------------------------------------------------------------------------------------

  lemma AssembleAllowed(d: Digest)
    requires Allowed(d.params) && Matching(d)
    ensures Assemble(d.params.memoryKiB, d.params.time, d.params.threads, d.salt, d.hash) == Some(d)
  {
    var p := d.params;
    assert Uint32(p.memoryKiB) == p.memoryKiB && Uint32(p.time) == p.time && Uint8(p.threads) == p.threads;
    assert Uint32(|d.salt|) == |d.salt| && Uint32(|d.hash|) == |d.hash|;
  }

  /** Text without the characters that separate the parts of an encoded digest. */
  predicate Plain(s: string) {
    '$' !in s && ',' !in s
  }

  lemma DecimalPlain(n: nat)
    ensures Plain(Decimal(n))
  {
    DecimalRoundTrip(n);
  }

  lemma Base64Plain(b: seq<Byte>)
    ensures Plain(Base64(b))
  {
    Base64RoundTrip(b);
    forall i | 0 <= i < |Base64(b)|
      ensures Base64(b)[i] != '$' && Base64(b)[i] != ','
    {
      assert IsSymbol(Base64(b)[i]);
    }
  }

  lemma ParsePrinted(prefix: string, n: nat)
    requires n < 0x1_0000_0000
    ensures ParseValue(prefix + Decimal(n), prefix) == Some(n)
  {
    DecimalRoundTrip(n);
    assert (prefix + Decimal(n))[|prefix|..] == Decimal(n);
  }

  lemma CostsRoundTrip(p: Params)
    requires p.memoryKiB < 0x1_0000_0000 && p.time < 0x1_0000_0000 && p.threads <= 255
    ensures ParseCosts(Costs(p)) == Some((p.memoryKiB, p.time, p.threads))
  {
    var m, t, h := "m=" + Decimal(p.memoryKiB), "t=" + Decimal(p.time), "p=" + Decimal(p.threads);
    DecimalPlain(p.memoryKiB);
    DecimalPlain(p.time);
    DecimalPlain(p.threads);
    ThreeParts(m, t, h, ',');
    assert Costs(p) == m + [','] + t + [','] + h;
    ParsePrinted("m=", p.memoryKiB);
    ParsePrinted("t=", p.time);
    ParsePrinted("p=", p.threads);
  }

  lemma ThreeParts(a: string, b: string, c: string, sep: char)
    requires sep !in a && sep !in b && sep !in c
    ensures Split(a + [sep] + b + [sep] + c, sep) == [a, b, c]
  {
    SplitFirst(a, b + [sep] + c, sep);
    assert a + [sep] + b + [sep] + c == a + [sep] + (b + [sep] + c);
    SplitFirst(b, c, sep);
    SplitNone(c, sep);
  }

  lemma CostsShape(p: Params)
    requires Allowed(p)
    ensures '$' !in Costs(p) && |Costs(p)| <= 18
  {
    DecimalPlain(p.memoryKiB);
    DecimalPlain(p.time);
    DecimalPlain(p.threads);
    assert Power10(6) == 1_000_000 && Power10(2) == 100;
    DecimalLength(p.memoryKiB, 6, 1_000_000);
    DecimalLength(p.time, 2, 100);
    DecimalLength(p.threads, 2, 100);
  }

  lemma FirstParts(a: string, b: string, c: string, rest: string, sep: char)
    requires sep !in a && sep !in b && sep !in c
    ensures Split(a + [sep] + (b + [sep] + (c + [sep] + rest)), sep) == [a] + ([b] + ([c] + Split(rest, sep)))
  {
    SplitFirst(c, rest, sep);
    SplitFirst(b, c + [sep] + rest, sep);
    SplitFirst(a, b + [sep] + (c + [sep] + rest), sep);
  }

  lemma Regroup(header: string, a: string, sep: string, b: string, c: string)
    ensures header + a + sep + b + sep + c == header + (a + sep + b + sep + c)
  {
    assert header + a + sep == header + (a + sep);
    assert header + (a + sep) + b == header + (a + sep + b);
    assert header + (a + sep + b) + sep == header + (a + sep + b + sep);
  }

  lemma HeaderParts(rest: string)
    ensures Split("$argon2id$v=19$" + rest, '$') == [""] + (["argon2id"] + (["v=19"] + Split(rest, '$')))
  {
    Header(rest);
    FirstParts("", "argon2id", "v=19", rest, '$');
  }

  lemma EncodedParts(costs: string, salt: string, hash: string)
    requires '$' !in costs && '$' !in salt && '$' !in hash
    ensures Split("$argon2id$v=19$" + costs + "$" + salt + "$" + hash, '$')
            == ["", "argon2id", "v=19", costs, salt, hash]
  {
    Regroup("$argon2id$v=19$", costs, "$", salt, hash);
    ThreeParts(costs, salt, hash, '$');
    HeaderParts(costs + "$" + salt + "$" + hash);
  }

  lemma Header(rest: string)
    ensures "$argon2id$v=19$" + rest == "" + ['$'] + ("argon2id" + ['$'] + ("v=19" + ['$'] + rest))
  {
    var header := "" + ['$'] + ("argon2id" + ['$'] + ("v=19" + ['$']));
    assert "$argon2id$v=19$" == header;
  }

  lemma EncodedFits(d: Digest)
    requires Allowed(d.params) && Matching(d)
    ensures |Encode(d)| <= MAX_ENCODED
  {
    CostsShape(d.params);
    Base64RoundTrip(d.salt);
    Base64RoundTrip(d.hash);
  }

  /** Whatever is printed for allowed parameters is read back unchanged. */
  lemma RoundTrip(d: Digest)
    requires Allowed(d.params) && Matching(d)
    ensures Decode(Encode(d)) == Some(d)
  {
    CostsShape(d.params);
    Base64Plain(d.salt);
    Base64Plain(d.hash);
    EncodedParts(Costs(d.params), Base64(d.salt), Base64(d.hash));
    EncodedFits(d);
    CostsRoundTrip(d.params);
    Base64RoundTrip(d.salt);
    Base64RoundTrip(d.hash);
    AssembleAllowed(d);
  }

  lemma AssembledIsAllowed(memory: nat, time: nat, threads: nat, salt: seq<Byte>, hash: seq<Byte>)
    ensures
      var r := Assemble(memory, time, threads, salt, hash);
      r.Some? ==> Allowed(r.value.params) && Matching(r.value)
  {
  }

  /** Nothing is ever read that has parameters outside the bounds or the wrong lengths. */
  lemma DecodedIsAllowed(encoded: string)
    ensures Decode(encoded).Some? ==> Allowed(Decode(encoded).value.params) && Matching(Decode(encoded).value)
  {
    if Decode(encoded).Some? {
      var parts := Split(encoded, '$');
      var costs := ParseCosts(parts[3]).value;
      AssembledIsAllowed(costs.0, costs.1, costs.2, DecodeBase64(parts[4]).value, DecodeBase64(parts[5]).value);
    }
  }

  /** The digests that survive printing and parsing are exactly the allowed ones. */
  lemma RoundTripExactly(d: Digest)
    ensures Decode(Encode(d)) == Some(d) <==> Allowed(d.params) && Matching(d)
    ensures Decode(Encode(d)) == Some(d) <==>
            && 8192 <= d.params.memoryKiB <= 262144 && 1 <= d.params.time <= 10 && 1 <= d.params.threads <= 16
            && 8 <= d.params.saltLen <= 64 && 16 <= d.params.keyLen <= 64
            && |d.salt| == d.params.saltLen && |d.hash| == d.params.keyLen
  {
    if Allowed(d.params) && Matching(d) {
      RoundTrip(d);
    } else {
      DecodedIsAllowed(Encode(d));
    }
  }

  // ---------------------------------------------------------------------------------------
  // Hashing, verifying and rehashing
  // ---------------------------------------------------------------------------------------

  datatype Verdict = Malformed | Compared(equal: bool)

  function Verify(kdf: Kdf, password: seq<int>, encoded: string): Verdict {
    match Decode(encoded)
    case None => Malformed
    case Some(d) => Compared(kdf(password, d.salt, d.params) == d.hash)
  }

  predicate NeedsRehash(params: Params, encoded: string) {
    match Decode(encoded)
    case None => true
    case Some(d) => d.params != params
  }

  /** A stored digest is rehashed exactly when it was made with other parameters. */
  lemma RehashExactly(params: Params, d: Digest)
    requires Allowed(d.params) && Matching(d)
    ensures NeedsRehash(params, Encode(d)) <==> d.params != params
  {
    RoundTrip(d);
  }

  /** What is not read as a digest, and everything longer than 1024 characters, verifies no password
      and is to be rehashed. */
  lemma MalformedExactly(kdf: Kdf, params: Params, password: seq<int>, encoded: string)
    ensures Verify(kdf, password, encoded) == Malformed <==> Decode(encoded).None?
    ensures Decode(encoded).None? ==> NeedsRehash(params, encoded)
    ensures |encoded| > 1024 ==> Decode(encoded).None?
  {
  }

  /** A decoded digest lets exactly the passwords through that derive its key with its salt and cost. */
  lemma VerifyExactly(kdf: Kdf, d: Digest, password: seq<int>)
    requires Allowed(d.params) && Matching(d)
    ensures Verify(kdf, password, Encode(d)) == Compared(true) <==> kdf(password, d.salt, d.params) == d.hash
    ensures Verify(kdf, password, Encode(d)) != Malformed
  {
    RoundTrip(d);
  }

  /** The parts of the text of a digest, and of its costs. */
  lemma EncodedText(d: Digest)
    ensures Split(Encode(d), '$')
            == ["", "argon2id", "v=19", Costs(d.params), Base64(d.salt), Base64(d.hash)]
    ensures Split(Costs(d.params), ',')
            == ["m=" + Decimal(d.params.memoryKiB), "t=" + Decimal(d.params.time), "p=" + Decimal(d.params.threads)]
  {
    var m, t, h := "m=" + Decimal(d.params.memoryKiB), "t=" + Decimal(d.params.time), "p=" + Decimal(d.params.threads);
    DecimalPlain(d.params.memoryKiB);
    DecimalPlain(d.params.time);
    DecimalPlain(d.params.threads);
    Base64Plain(d.salt);
    Base64Plain(d.hash);
    EncodedParts(Costs(d.params), Base64(d.salt), Base64(d.hash));
    ThreeParts(m, t, h, ',');
    assert Costs(d.params) == m + [','] + t + [','] + h;
  }

  lemma JoinThree(a: string, b: string, c: string, sep: char)
    ensures Join([a, b, c], sep) == a + [sep] + b + [sep] + c
  {
    assert [a, b, c][1..] == [b, c] && [b, c][1..] == [c];
    assert Join([b, c], sep) == b + [sep] + c;
    assert a + [sep] + (b + [sep] + c) == a + [sep] + b + [sep] + c;
  }

  lemma JoinFirst(first: string, rest: seq<string>, sep: char)
    requires |rest| >= 1
    ensures Join([first] + rest, sep) == first + ([sep] + Join(rest, sep))
  {
    assert ([first] + rest)[1..] == rest;
  }

  /** Every cost that is read is its prefix and the digits of the value. */
  lemma ValueText(value: string, prefix: string)
    requires ParseValue(value, prefix).Some?
    ensures value == prefix + value[|prefix|..] && Digits(value[|prefix|..]) == ParseValue(value, prefix)
  {
  }

  lemma CostsText(text: string) returns (m: string, t: string, h: string)
    requires ParseCosts(text).Some?
    ensures text == "m=" + m + ",t=" + t + ",p=" + h
    ensures Digits(m) == Some(ParseCosts(text).value.0) && Digits(t) == Some(ParseCosts(text).value.1)
    ensures Digits(h) == Some(ParseCosts(text).value.2)
  {
    var values := Split(text, ',');
    JoinSplit(text, ',');
    assert values == [values[0], values[1], values[2]];
    JoinThree(values[0], values[1], values[2], ',');
    ValueText(values[0], "m=");
    ValueText(values[1], "t=");
    ValueText(values[2], "p=");
    m, t, h := values[0][2..], values[1][2..], values[2][2..];
    CostsGlue(m, t, h);
  }

  lemma CostsGlue(m: string, t: string, h: string)
    ensures ("m=" + m) + [','] + ("t=" + t) + [','] + ("p=" + h) == "m=" + m + ",t=" + t + ",p=" + h
  {
    assert [','] + ("t=" + t) == ",t=" + t && [','] + ("p=" + h) == ",p=" + h;
  }

  lemma HeaderOf(rest: string)
    ensures "" + (['$'] + ("argon2id" + (['$'] + ("v=19" + (['$'] + rest))))) == "$argon2id$v=19$" + rest
  {
    Header(rest);
  }

  lemma PartsText(encoded: string, costs: string, salt: string, hash: string)
    requires Split(encoded, '$') == ["", "argon2id", "v=19", costs, salt, hash]
    ensures encoded == "$argon2id$v=19$" + costs + "$" + salt + "$" + hash
  {
    JoinSplit(encoded, '$');
    JoinThree(costs, salt, hash, '$');
    JoinFirst("v=19", [costs, salt, hash], '$');
    JoinFirst("argon2id", ["v=19", costs, salt, hash], '$');
    JoinFirst("", ["argon2id", "v=19", costs, salt, hash], '$');
    assert ["v=19"] + [costs, salt, hash] == ["v=19", costs, salt, hash];
    assert ["argon2id"] + ["v=19", costs, salt, hash] == ["argon2id", "v=19", costs, salt, hash];
    assert [""] + ["argon2id", "v=19", costs, salt, hash] == ["", "argon2id", "v=19", costs, salt, hash];
    HeaderOf(Join([costs, salt, hash], '$'));
    assert costs + ['$'] + salt + ['$'] + hash == costs + "$" + salt + "$" + hash;
    Regroup("$argon2id$v=19$", costs, "$", salt, hash);
  }

  /** Whatever is read as a digest is a text of this form, with the digits of its costs and the
      encodings of its salt and its key. */
  lemma DecodedText(encoded: string) returns (m: string, t: string, h: string, salt: string, hash: string)
    requires Decode(encoded).Some?
    ensures encoded == "$argon2id$v=19$" + ("m=" + m + ",t=" + t + ",p=" + h) + "$" + salt + "$" + hash
    ensures var d := Decode(encoded).value;
            && Digits(m) == Some(d.params.memoryKiB) && Digits(t) == Some(d.params.time)
            && Digits(h) == Some(d.params.threads)
            && DecodeBase64(salt) == Some(d.salt) && DecodeBase64(hash) == Some(d.hash)
  {
    var parts := Split(encoded, '$');
    salt, hash := parts[4], parts[5];
    m, t, h := CostsText(parts[3]);
    assert parts == ["", "argon2id", "v=19", parts[3], salt, hash];
    PartsText(encoded, parts[3], salt, hash);
    AssembledIs(ParseCosts(parts[3]).value, DecodeBase64(salt).value, DecodeBase64(hash).value);
  }

  lemma AssembledIs(costs: (nat, nat, nat), salt: seq<Byte>, hash: seq<Byte>)
    requires Assemble(costs.0, costs.1, costs.2, salt, hash).Some?
    ensures var d := Assemble(costs.0, costs.1, costs.2, salt, hash).value;
            && d.params.memoryKiB == costs.0 && d.params.time == costs.1 && d.params.threads == costs.2
            && d.salt == salt && d.hash == hash
  {
    assert costs.0 < 0x1_0000_0000 && costs.1 < 0x1_0000_0000 && costs.2 < 0x100;
  }

  /** The number of bytes of a code point in UTF-8: section 3 of RFC 3629. */
  function Width(rune: int): nat {
    if rune < 0x80 then 1 else if rune < 0x800 then 2 else if rune < 0x1_0000 then 3 else 4
  }

  function ByteLength(runes: seq<int>): nat {
    if runes == [] then 0 else Width(runes[0]) + ByteLength(runes[1..])
  }

  /** 128 code points never take more than 512 bytes: the bound on bytes alone refuses nothing. */
  lemma {:induction false} ByteLengthBound(runes: seq<int>)
    ensures |runes| <= ByteLength(runes) <= 4 * |runes|
  {
    if runes != [] {
      ByteLengthBound(runes[1..]);
    }
  }

  /** The Unicode tables and the list of weak passwords. */
  datatype Tables = Tables(letter: int -> bool, digit: int -> bool, lower: seq<int> -> seq<int>, weak: set<seq<int>>)

  ghost predicate Acceptable(tables: Tables, password: seq<int>) {
    && 8 <= |password| <= 128
    && (exists i :: 0 <= i < |password| && tables.letter(password[i]))
    && (exists i :: 0 <= i < |password| && tables.digit(password[i]))
    && tables.lower(password) !in tables.weak
  }

  /** A password is accepted when it has 8 to 128 code points, a letter and a digit, and is
      not weak. */
  method Validate(tables: Tables, password: seq<int>) returns (ok: bool)
    ensures ok <==> Acceptable(tables, password)
    ensures ok <==>
      && 8 <= |password| <= 128
      && (exists i :: 0 <= i < |password| && tables.letter(password[i]))
      && (exists i :: 0 <= i < |password| && tables.digit(password[i]))
      && tables.lower(password) !in tables.weak
  {
    ByteLengthBound(password);
    if ByteLength(password) > 512 {
      return false;
    }
    if |password| < 8 || |password| > 128 {
      return false;
    }
    var hasLetter, hasDigit := false, false;
    for k := 0 to |password|
      invariant hasLetter <==> exists i :: 0 <= i < k && tables.letter(password[i])
      invariant hasDigit <==> exists i :: 0 <= i < k && tables.digit(password[i])
    {
      hasLetter := hasLetter || tables.letter(password[k]);
      hasDigit := hasDigit || tables.digit(password[k]);
    }
    ok := hasLetter && hasDigit && tables.lower(password) !in tables.weak;
  }

  /** A fresh digest exists exactly for an acceptable password when randomness is available;
      it needs no rehash, and a password verifies against it when and only when it derives
      the same key. */
  method Hash(tables: Tables, kdf: Kdf, params: Params, password: seq<int>, salt: Option<seq<Byte>>)
    returns (encoded: Option<string>)
    requires Allowed(params)
    requires salt.Some? ==> |salt.value| == params.saltLen
    requires forall word, grains :: |kdf(word, grains, params)| == params.keyLen
    ensures encoded.Some? <==> Acceptable(tables, password) && salt.Some?
    ensures encoded.Some? ==> !NeedsRehash(params, encoded.value)
    ensures encoded.Some? ==>
      Decode(encoded.value) == Some(Digest(params, salt.value, kdf(password, salt.value, params)))
    ensures encoded.Some? ==> forall word ::
      Verify(kdf, word, encoded.value) == Compared(kdf(word, salt.value, params) == kdf(password, salt.value, params))
  {
    var ok := Validate(tables, password);
    if !ok || salt.None? {
      return None;
    }
    var d := Digest(params, salt.value, kdf(password, salt.value, params));
    RoundTrip(d);
    encoded := Some(Encode(d));
  }
}
