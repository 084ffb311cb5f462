/** Object keys `owner/object.ext`: file/model.go. UUIDs are sixteen bytes with the text of
    section 4 of RFC 9562.
 */
module ObjectKeys {
  import opened Wrappers
  import opened Text

  type Uuid = u: seq<Byte> | |u| == 16 witness seq(16, i => 0)

  datatype ObjectKey = ObjectKey(owner: Uuid, item: Uuid, ext: string)

  // ---------------------------------------------------------------------------------------
  // UUID text
  // ---------------------------------------------------------------------------------------

  function PrintUuid(u: Uuid): string {
    Hex(u[..4]) + "-" + Hex(u[4..6]) + "-" + Hex(u[6..8]) + "-" + Hex(u[8..10]) + "-" + Hex(u[10..])
  }

  /** The form with four hyphens, in either case. */
  function ParseHyphenated(s: string): Option<Uuid>
    requires |s| == 36
  {
    if s[8] != '-' || s[13] != '-' || s[18] != '-' || s[23] != '-' then None
    else
      UuidOf(Unhex(s[..8] + s[9..13] + s[14..18] + s[19..23] + s[24..]))
  }

  function UuidOf(bytes: Option<seq<Byte>>): Option<Uuid> {
    if bytes.Some? && |bytes.value| == 16 then Some(bytes.value) else None
  }

  /** The library also reads a URN, a form in braces (whatever the two outer characters are)
      and a form without hyphens. */
  function ParseUuid(s: string): Option<Uuid> {
    if |s| == 36 then ParseHyphenated(s)
    else if |s| == 45 then (if Lower(s[..9]) == "urn:uuid:" then ParseHyphenated(s[9..]) else None)
    else if |s| == 38 then ParseHyphenated(s[1..37])
    else if |s| == 32 then UuidOf(Unhex(s))
    else None
  }

  predicate UuidChar(c: char) {
    c == '-' || LowerHex(c)
  }

  ghost predicate UuidChars(s: string) {
    forall i | 0 <= i < |s| :: UuidChar(s[i])
  }

  lemma HexChars(b: seq<Byte>)
    ensures |Hex(b)| == 2 * |b| && UuidChars(Hex(b))
  {
    HexRoundTrip(b);
    forall i | 0 <= i < |Hex(b)| ensures UuidChar(Hex(b)[i]) { assert LowerHex(Hex(b)[i]); }
  }

  lemma Hyphenated(s: string, t: string)
    requires UuidChars(s) && UuidChars(t)
    ensures UuidChars(s + "-" + t) && |s + "-" + t| == |s| + 1 + |t|
  {
  }

  lemma PrintedUuidShape(u: Uuid)
    ensures |PrintUuid(u)| == 36 && UuidChars(PrintUuid(u))
  {
    var a, b, c, d, e := Hex(u[..4]), Hex(u[4..6]), Hex(u[6..8]), Hex(u[8..10]), Hex(u[10..]);
    HexChars(u[..4]);
    HexChars(u[4..6]);
    HexChars(u[6..8]);
    HexChars(u[8..10]);
    HexChars(u[10..]);
    Hyphenated(a, b);
    Hyphenated(a + "-" + b, c);
    Hyphenated(a + "-" + b + "-" + c, d);
    Hyphenated(a + "-" + b + "-" + c + "-" + d, e);
  }

  lemma HexPieces(u: Uuid)
    ensures Hex(u[..4]) + Hex(u[4..6]) + Hex(u[6..8]) + Hex(u[8..10]) + Hex(u[10..]) == Hex(u)
  {
    HexAppend(u[..4], u[4..6]);
    HexAppend(u[..4] + u[4..6], u[6..8]);
    HexAppend(u[..4] + u[4..6] + u[6..8], u[8..10]);
    HexAppend(u[..4] + u[4..6] + u[6..8] + u[8..10], u[10..]);
    assert u[..4] + u[4..6] + u[6..8] + u[8..10] + u[10..] == u;
  }

  /** Five pieces of known length between four hyphens are cut out again. */
  lemma CutPieces(a: string, b: string, c: string, d: string, e: string)
    requires |a| == 8 && |b| == 4 && |c| == 4 && |d| == 4 && |e| == 12
    ensures
      var s := a + "-" + b + "-" + c + "-" + d + "-" + e;
      && |s| == 36 && s[8] == '-' && s[13] == '-' && s[18] == '-' && s[23] == '-'
      && s[..8] == a && s[9..13] == b && s[14..18] == c && s[19..23] == d && s[24..] == e
  {
  }

  lemma UuidRoundTrip(u: Uuid)
    ensures ParseUuid(PrintUuid(u)) == Some(u)
  {
    HexRoundTrip(u[..4]);
    HexRoundTrip(u[4..6]);
    HexRoundTrip(u[6..8]);
    HexRoundTrip(u[8..10]);
    HexRoundTrip(u[10..]);
    CutPieces(Hex(u[..4]), Hex(u[4..6]), Hex(u[6..8]), Hex(u[8..10]), Hex(u[10..]));
    HexPieces(u);
    HexRoundTrip(u);
  }

  /** Where the digits of a byte stand: hyphens come before the bytes 4, 6, 8 and 10. */
  function PlaceOf(i: nat): nat {
    2 * i + if i < 4 then 0 else if i < 6 then 1 else if i < 8 then 2 else if i < 10 then 3 else 4
  }

  /** The canonical text: two small hexadecimal digits for each byte, by their codes, in groups of 8,
      4, 4, 4 and 12. */
  lemma UuidLayout(u: Uuid, i: nat)
    requires i < 16
    ensures |PrintUuid(u)| == 36
    ensures PrintUuid(u)[8] == PrintUuid(u)[13] == PrintUuid(u)[18] == PrintUuid(u)[23] == '-'
    ensures PlaceOf(i) + 1 < 36
    ensures PrintUuid(u)[PlaceOf(i)] as int == if u[i] / 16 < 10 then 48 + u[i] / 16 else 87 + u[i] / 16
    ensures PrintUuid(u)[PlaceOf(i) + 1] as int == if u[i] % 16 < 10 then 48 + u[i] % 16 else 87 + u[i] % 16
  {
    UuidPieces(u);
    var s := PrintUuid(u);
    if i < 4 { PieceAt(s, 0, u[..4], i); }
    else if i < 6 { PieceAt(s, 9, u[4..6], i - 4); }
    else if i < 8 { PieceAt(s, 14, u[6..8], i - 6); }
    else if i < 10 { PieceAt(s, 19, u[8..10], i - 8); }
    else { PieceAt(s, 24, u[10..], i - 10); }
  }

  lemma UuidPieces(u: Uuid)
    ensures
      var s := PrintUuid(u);
      && |s| == 36 && s[8] == '-' && s[13] == '-' && s[18] == '-' && s[23] == '-'
      && s[0..8] == Hex(u[..4]) && s[9..13] == Hex(u[4..6]) && s[14..18] == Hex(u[6..8])
      && s[19..23] == Hex(u[8..10]) && s[24..36] == Hex(u[10..])
  {
    HexRoundTrip(u[..4]);
    HexRoundTrip(u[4..6]);
    HexRoundTrip(u[6..8]);
    HexRoundTrip(u[8..10]);
    HexRoundTrip(u[10..]);
    CutPieces(Hex(u[..4]), Hex(u[4..6]), Hex(u[6..8]), Hex(u[8..10]), Hex(u[10..]));
  }

  lemma PieceAt(s: string, from: nat, bytes: seq<Byte>, j: nat)
    requires from + 2 * |bytes| <= |s| && s[from..from + 2 * |bytes|] == Hex(bytes) && j < |bytes|
    ensures s[from + 2 * j] as int == if bytes[j] / 16 < 10 then 48 + bytes[j] / 16 else 87 + bytes[j] / 16
    ensures s[from + 2 * j + 1] as int == if bytes[j] % 16 < 10 then 48 + bytes[j] % 16 else 87 + bytes[j] % 16
  {
    HexAt(bytes, j);
    assert s[from..from + 2 * |bytes|][2 * j] == s[from + 2 * j];
    assert s[from..from + 2 * |bytes|][2 * j + 1] == s[from + 2 * j + 1];
  }

  // ---------------------------------------------------------------------------------------
  // Path cleaning
  // ---------------------------------------------------------------------------------------

  /** The elements that remain: no empty ones, no ".", and ".." takes back the one before. */
  function Kept(parts: seq<string>, rooted: bool, kept: seq<string>): seq<string>
    decreases |parts|
  {
    if parts == [] then kept
    else
      var part, rest := parts[0], parts[1..];
      if part == "" || part == "." then Kept(rest, rooted, kept)
      else if part != ".." then Kept(rest, rooted, kept + [part])
      else if kept != [] && kept[|kept| - 1] != ".." then Kept(rest, rooted, kept[..|kept| - 1])
      else if rooted then Kept(rest, rooted, kept)
      else Kept(rest, rooted, kept + [part])
  }

  /** path.Clean. */
  function Clean(s: string): string {
    if s == "" then "."
    else
      var rooted := s[0] == '/';
      var kept := Kept(Split(s, '/'), rooted, []);
      var text := if kept == [] then "" else Join(kept, '/');
      if rooted then "/" + text else if text == "" then "." else text
  }

  lemma KeptOne(part: string, rest: seq<string>, kept: seq<string>)
    requires part != "" && part != "." && part != ".."
    ensures Kept([part] + rest, false, kept) == Kept(rest, false, kept + [part])
  {
    assert ([part] + rest)[1..] == rest;
  }

  lemma CleanTwo(first: string, second: string)
    requires '/' !in first && '/' !in second
    requires first != "" && first != "." && first != ".."
    requires second != "" && second != "." && second != ".."
    ensures Clean(first + "/" + second) == first + "/" + second
  {
    SplitFirst(first, second, '/');
    SplitNone(second, '/');
    KeptOne(first, [second], []);
    KeptOne(second, [], [first]);
    assert [first] + [second] == [first, second] && [second] + [] == [second] && [] + [first] == [first];
    assert Kept([], false, [first, second]) == [first, second];
    assert [first, second][1..] == [second];
    assert Join([first, second], '/') == first + ['/'] + second;
  }

  // ---------------------------------------------------------------------------------------
  // Keys
  // ---------------------------------------------------------------------------------------

  predicate AllowedExtension(ext: string) {
    ext == "jpg" || ext == "png" || ext == "gif" || ext == "webp" || ext == "mp4" || ext == "webm"
  }

  function Print(k: ObjectKey): string {
    PrintUuid(k.owner) + "/" + PrintUuid(k.item) + "." + k.ext
  }

  function Parse(value: string): Option<ObjectKey> {
    if value == "" || '\\' in value || Clean(value) != value then None
    else match Cut(value, '/')
      case None => None
      case Some((owner, name)) =>
        if owner == "" || name == "" || '/' in name then None
        else match Cut(name, '.')
          case None => None
          case Some((item, ext)) =>
            if item == "" || ext == "" || '.' in ext || ext != Lower(ext) then None
            else ParseParts(owner, item, ext)
  }

  /** Both identifiers must be in their canonical text. */
  function ParseParts(owner: string, item: string, ext: string): Option<ObjectKey> {
    match ParseUuid(owner)
    case None => None
    case Some(ownerId) =>
      if PrintUuid(ownerId) != owner then None
      else match ParseUuid(item)
        case None => None
        case Some(objectId) =>
          if PrintUuid(objectId) != item || !AllowedExtension(ext) then None
          else Some(ObjectKey(ownerId, objectId, ext))
  }

  predicate ExtensionChar(c: char) {
    'a' <= c <= 'z' || '0' <= c <= '9'
  }

  lemma {:induction false} LowerFixed(s: string)
    requires forall i | 0 <= i < |s| :: ExtensionChar(s[i])
    ensures Lower(s) == s
    decreases |s|
  {
    if s != [] {
      assert ExtensionChar(s[0]);
      LowerFixed(s[1..]);
      assert [s[0]] + s[1..] == s;
    }
  }

  lemma ExtensionChars(ext: string)
    requires AllowedExtension(ext)
    ensures ext != "" && forall i | 0 <= i < |ext| :: ExtensionChar(ext[i])
  {
  }

  lemma ExtensionShape(ext: string)
    requires AllowedExtension(ext)
    ensures ext != "" && Lower(ext) == ext && '.' !in ext && '/' !in ext && '\\' !in ext
  {
    ExtensionChars(ext);
    LowerFixed(ext);
    forall i | 0 <= i < |ext|
      ensures ext[i] != '.' && ext[i] != '/' && ext[i] != '\\'
    {
      assert ExtensionChar(ext[i]);
    }
  }

  lemma UuidText(u: Uuid)
    ensures |PrintUuid(u)| == 36 && '/' !in PrintUuid(u) && '.' !in PrintUuid(u) && '\\' !in PrintUuid(u)
  {
    PrintedUuidShape(u);
    var s := PrintUuid(u);
    forall i | 0 <= i < 36
      ensures s[i] != '/' && s[i] != '.' && s[i] != '\\'
    {
      assert UuidChar(s[i]);
    }
  }

  /** The check against path cleaning refuses no printed key. */
  lemma PrintedIsClean(k: ObjectKey)
    requires AllowedExtension(k.ext)
    ensures Print(k) != "" && '\\' !in Print(k) && Clean(Print(k)) == Print(k)
  {
    UuidText(k.owner);
    UuidText(k.item);
    ExtensionShape(k.ext);
    var name := PrintUuid(k.item) + "." + k.ext;
    CleanTwo(PrintUuid(k.owner), name);
    assert Print(k) == PrintUuid(k.owner) + "/" + name;
  }

  lemma PartsPrinted(k: ObjectKey)
    requires AllowedExtension(k.ext)
    ensures ParseParts(PrintUuid(k.owner), PrintUuid(k.item), k.ext) == Some(k)
  {
    UuidRoundTrip(k.owner);
    UuidRoundTrip(k.item);
  }

  lemma ParseSteps(value: string, owner: string, name: string, item: string, ext: string)
    requires value != "" && '\\' !in value && Clean(value) == value
    requires Cut(value, '/') == Some((owner, name)) && owner != "" && name != "" && '/' !in name
    requires Cut(name, '.') == Some((item, ext)) && item != "" && ext != "" && '.' !in ext && ext == Lower(ext)
    ensures Parse(value) == ParseParts(owner, item, ext)
  {
  }

  lemma CutPrinted(owner: string, item: string, ext: string)
    requires '/' !in owner && '.' !in item
    ensures Cut(owner + "/" + item + "." + ext, '/') == Some((owner, item + "." + ext))
    ensures Cut(item + "." + ext, '.') == Some((item, ext))
  {
    CutFirst(owner, item + "." + ext, '/');
    assert owner + "/" + item + "." + ext == owner + ['/'] + (item + "." + ext);
    CutFirst(item, ext, '.');
  }

  /** Printing, then parsing. */
  lemma ParsePrint(k: ObjectKey)
    requires AllowedExtension(k.ext)
    ensures Parse(Print(k)) == Some(k)
  {
    var owner, item := PrintUuid(k.owner), PrintUuid(k.item);
    var name := item + "." + k.ext;
    PrintedIsClean(k);
    UuidText(k.owner);
    UuidText(k.item);
    ExtensionShape(k.ext);
    CutPrinted(owner, item, k.ext);
    ParseSteps(Print(k), owner, name, item, k.ext);
    PartsPrinted(k);
  }

  lemma Reassembled(owner: string, item: string, ext: string)
    ensures owner + ['/'] + (item + ['.'] + ext) == owner + "/" + item + "." + ext
  {
  }

  /** The text of a key: the owner, a slash, the object, a dot, the extension. */
  lemma PrintedText(k: ObjectKey)
    ensures |Print(k)| == 74 + |k.ext|
    ensures Print(k)[..36] == PrintUuid(k.owner) && Print(k)[36] == '/'
    ensures Print(k)[37..73] == PrintUuid(k.item) && Print(k)[73] == '.' && Print(k)[74..] == k.ext
  {
    PrintedUuidShape(k.owner);
    PrintedUuidShape(k.item);
  }

  /** Parsing, then printing. */
  lemma PrintParse(value: string)
    ensures Parse(value).Some? ==> Print(Parse(value).value) == value && AllowedExtension(Parse(value).value.ext)
  {
    if Parse(value).Some? {
      var name := Cut(value, '/').value.1;
      var ext := Cut(name, '.').value.1;
      var k := Parse(value).value;
      assert value == PrintUuid(k.owner) + ['/'] + name;
      assert name == PrintUuid(k.item) + ['.'] + ext;
      Reassembled(PrintUuid(k.owner), PrintUuid(k.item), ext);
    }
  }

  /** The strings accepted are exactly those printed for keys with an allowed extension. */
  lemma AcceptsExactlyPrinted(value: string)
    ensures Parse(value).Some? <==> exists k: ObjectKey :: AllowedExtension(k.ext) && Print(k) == value
  {
    PrintParse(value);
    if k: ObjectKey :| AllowedExtension(k.ext) && Print(k) == value {
      ParsePrint(k);
    }
  }

  predicate Validate(k: ObjectKey) {
    Parse(Print(k)) == Some(k)
  }

  /** A key is valid exactly when its extension is allowed. */
  lemma ValidExactly(k: ObjectKey)
    ensures Validate(k) <==> AllowedExtension(k.ext)
    ensures Validate(k) <==> k.ext in {"jpg", "png", "gif", "webp", "mp4", "webm"}
  {
    if AllowedExtension(k.ext) {
      ParsePrint(k);
    } else {
      PrintParse(Print(k));
    }
  }
}
