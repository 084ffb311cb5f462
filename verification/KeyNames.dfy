/** Which names the log handler hides.  Text is ASCII here. */
module KeyNames {
  import opened Text

  const SENSITIVE: set<string> := {
    "password", "token", "authorization", "cookie", "private_key", "privatekey", "verification_keys",
    "verificationkeys", "access_token", "accesstoken", "refresh_token", "refreshtoken", "id_token",
    "idtoken", "api_key", "apikey", "client_secret", "clientsecret", "secret", "set_cookie", "setcookie"
  }

  /** The names that must not appear in a log. */
  lemma Listed()
    ensures "password" in SENSITIVE && "token" in SENSITIVE && "authorization" in SENSITIVE
    ensures "cookie" in SENSITIVE && "private_key" in SENSITIVE && "privatekey" in SENSITIVE
    ensures "verification_keys" in SENSITIVE && "verificationkeys" in SENSITIVE && "access_token" in SENSITIVE
    ensures "accesstoken" in SENSITIVE && "refresh_token" in SENSITIVE && "refreshtoken" in SENSITIVE
    ensures "id_token" in SENSITIVE && "idtoken" in SENSITIVE && "api_key" in SENSITIVE
    ensures "apikey" in SENSITIVE && "client_secret" in SENSITIVE && "clientsecret" in SENSITIVE
    ensures "secret" in SENSITIVE && "set_cookie" in SENSITIVE && "setcookie" in SENSITIVE
  {
  }

  predicate IsSeparator(c: char) {
    c == '-' || c == '.' || IsSpace(c)
  }

  /** A run of separators becomes one underscore; `last` says whether one was just written. */
  function Collapse(s: string, last: bool): string {
    if s == [] then []
    else if IsSeparator(s[0]) then (if last then [] else "_") + Collapse(s[1..], true)
    else [s[0]] + Collapse(s[1..], false)
  }

  const UNDERSCORE: char -> bool := c => c == '_'

  function Normalized(key: string): string {
    Trim(Collapse(Lower(Trim(key, IsSpace)), false), UNDERSCORE)
  }

  predicate Sensitive(key: string) {
    Normalized(key) in SENSITIVE
  }

  /** normalizeKey, with a loop. */
  method NormalizeKey(key: string) returns (r: string)
    ensures r == Normalized(key)
  {
    var text := Lower(Trim(key, IsSpace));
    var normalized := "";
    var lastSeparator := false;
    var i := 0;
    assert text[0..] == text && "" + Collapse(text, false) == Collapse(text, false);
    while i < |text|
      invariant 0 <= i <= |text|
      invariant normalized + Collapse(text[i..], lastSeparator) == Collapse(text, false)
    {
      CollapseStep(text, i, normalized, lastSeparator);
      if IsSeparator(text[i]) {
        if !lastSeparator {
          normalized := normalized + "_";
          lastSeparator := true;
        }
      } else {
        normalized := normalized + [text[i]];
        lastSeparator := false;
      }
      i := i + 1;
    }
    assert text[i..] == [] && normalized + [] == normalized;
    r := Trim(normalized, UNDERSCORE);
  }

  lemma CollapseStep(text: string, i: nat, done: string, last: bool)
    requires i < |text|
    ensures done + Collapse(text[i..], last)
            == (if IsSeparator(text[i]) then (if last then done else done + "_") else done + [text[i]])
               + Collapse(text[i + 1..], IsSeparator(text[i]))
  {
    assert text[i..][1..] == text[i + 1..];
    if IsSeparator(text[i]) && last { assert [] + Collapse(text[i + 1..], true) == Collapse(text[i + 1..], true); }
  }

  // ---------------------------------------------------------------------------------------
  // Case and the choice of separators do not matter
  // ---------------------------------------------------------------------------------------

  /** Normalization without the first step, which trims spaces. */
  function Core(s: string): string {
    Trim(Collapse(Lower(s), false), UNDERSCORE)
  }

  /** The same text up to case and up to which separator stands where. */
  ghost predicate Alike(a: string, b: string) {
    |a| == |b|
    && forall i | 0 <= i < |a| :: LowerChar(a[i]) == LowerChar(b[i]) || (IsSeparator(a[i]) && IsSeparator(b[i]))
  }

  lemma {:induction false} AlikeCollapse(a: string, b: string, last: bool)
    requires Alike(a, b)
    ensures Collapse(Lower(a), last) == Collapse(Lower(b), last)
    decreases |a|
  {
    if a != [] {
      assert Lower(a)[1..] == Lower(a[1..]) && Lower(b)[1..] == Lower(b[1..]);
      assert LowerChar(a[0]) == LowerChar(b[0]) || (IsSeparator(a[0]) && IsSeparator(b[0]));
      AlikeCollapse(a[1..], b[1..], IsSeparator(a[0]));
    }
  }

  lemma TrimLeftOne(rest: string)
    ensures TrimLeft("_" + rest, UNDERSCORE) == TrimLeft(rest, UNDERSCORE)
  {
    assert ("_" + rest)[1..] == rest;
  }

  /** Whether a separator came before makes no difference once leading underscores are gone. */
  lemma LeadingSeparator(s: string)
    ensures TrimLeft(Collapse(s, true), UNDERSCORE) == TrimLeft(Collapse(s, false), UNDERSCORE)
  {
    if s != [] && IsSeparator(s[0]) {
      var rest := Collapse(s[1..], true);
      assert Collapse(s, true) == [] + rest == rest;
      TrimLeftOne(rest);
    }
  }

  lemma {:induction false} LeadingSpace(s: string)
    ensures Core(TrimLeft(s, IsSpace)) == Core(s)
    decreases |s|
  {
    if s != [] && IsSpace(s[0]) {
      LeadingSpace(s[1..]);
      assert Lower(s)[1..] == Lower(s[1..]);
      LeadingSeparator(Lower(s[1..]));
      TrimLeftOne(Collapse(Lower(s[1..]), true));
    }
  }

  /** A separator at the end writes at most one more underscore. */
  lemma {:induction false} CollapseAppend(s: string, c: char, last: bool)
    requires IsSeparator(c)
    ensures Collapse(s + [c], last) == Collapse(s, last) || Collapse(s + [c], last) == Collapse(s, last) + "_"
    decreases |s|
  {
    if s == [] {
      assert s + [c] == [c] && [c][1..] == [];
      assert "" + "_" == "_" + "" == "_" && "" + "" == "";
    } else {
      CollapseAppend(s[1..], c, IsSeparator(s[0]));
      assert (s + [c])[1..] == s[1..] + [c];
      var first := if IsSeparator(s[0]) then (if last then [] else "_") else [s[0]];
      var rest := Collapse(s[1..], IsSeparator(s[0]));
      assert first + (rest + "_") == (first + rest) + "_";
    }
  }

  lemma {:induction false} TrimTrailing(x: string)
    ensures Trim(x + "_", UNDERSCORE) == Trim(x, UNDERSCORE)
    decreases |x|
  {
    if x == [] {
      assert x + "_" == "_" && "_"[1..] == "";
    } else if UNDERSCORE(x[0]) {
      assert (x + "_")[1..] == x[1..] + "_";
      TrimTrailing(x[1..]);
    } else {
      assert (x + "_")[..|x|] == x;
    }
  }

  lemma {:induction false} LowerLast(init: string, c: char)
    ensures Lower(init + [c]) == Lower(init) + [LowerChar(c)]
    decreases |init|
  {
    if init == [] {
      assert init + [c] == [c] && [c][1..] == [];
    } else {
      assert (init + [c])[1..] == init[1..] + [c];
      LowerLast(init[1..], c);
    }
  }

  lemma {:induction false} TrailingSpace(s: string)
    ensures Core(TrimRight(s, IsSpace)) == Core(s)
    decreases |s|
  {
    if s != [] && IsSpace(s[|s| - 1]) {
      var init := s[..|s| - 1];
      TrailingSpace(init);
      assert s == init + [s[|s| - 1]];
      LowerLast(init, s[|s| - 1]);
      CollapseAppend(Lower(init), s[|s| - 1], false);
      TrimTrailing(Collapse(Lower(init), false));
    }
  }

  /** Names that differ only in case and in the separators they use are hidden alike. */
  lemma SeparatorsAndCaseDoNotMatter(a: string, b: string)
    requires Alike(a, b)
    ensures Normalized(a) == Normalized(b) && (Sensitive(a) <==> Sensitive(b))
  {
    TrailingSpace(TrimLeft(a, IsSpace));
    LeadingSpace(a);
    TrailingSpace(TrimLeft(b, IsSpace));
    LeadingSpace(b);
    AlikeCollapse(a, b, false);
  }

  // ---------------------------------------------------------------------------------------
  // Nor does the number of separators, or separators at the ends
  // ---------------------------------------------------------------------------------------

  predicate Separators(s: string) {
    forall i | 0 <= i < |s| :: IsSeparator(s[i])
  }

  lemma NormalizedIsCore(s: string)
    ensures Normalized(s) == Core(s)
  {
    TrailingSpace(TrimLeft(s, IsSpace));
    LeadingSpace(s);
  }

  lemma LowerSeparators(s: string)
    requires Separators(s)
    ensures Separators(Lower(s))
  {
    forall i | 0 <= i < |s| ensures IsSeparator(Lower(s)[i]) { assert IsSeparator(s[i]); }
  }

  lemma {:induction false} LowerAppend(a: string, b: string)
    ensures Lower(a + b) == Lower(a) + Lower(b)
    decreases |a|
  {
    if a == [] {
      assert a + b == b;
    } else {
      assert (a + b)[1..] == a[1..] + b;
      LowerAppend(a[1..], b);
    }
  }

  /** A run of separators writes one underscore, or none after another separator. */
  lemma {:induction false} CollapseRun(gap: string, rest: string, last: bool)
    requires gap != [] && Separators(gap)
    ensures Collapse(gap + rest, last) == (if last then [] else "_") + Collapse(rest, true)
    decreases |gap|
  {
    assert IsSeparator(gap[0]) && (gap + rest)[1..] == gap[1..] + rest;
    if |gap| == 1 {
      assert gap[1..] + rest == rest;
    } else {
      assert forall i | 0 <= i < |gap[1..]| :: IsSeparator(gap[1..][i]) by {
        forall i | 0 <= i < |gap[1..]| ensures IsSeparator(gap[1..][i]) { assert IsSeparator(gap[i + 1]); }
      }
      CollapseRun(gap[1..], rest, true);
      assert [] + Collapse(rest, true) == Collapse(rest, true);
    }
  }

  lemma {:induction false} CollapseGap(before: string, gap: string, other: string, after: string, last: bool)
    requires gap != [] && other != [] && Separators(gap) && Separators(other)
    ensures Collapse(before + (gap + after), last) == Collapse(before + (other + after), last)
    decreases |before|
  {
    if before == [] {
      assert before + (gap + after) == gap + after && before + (other + after) == other + after;
      CollapseRun(gap, after, last);
      CollapseRun(other, after, last);
    } else {
      assert (before + (gap + after))[1..] == before[1..] + (gap + after);
      assert (before + (other + after))[1..] == before[1..] + (other + after);
      CollapseGap(before[1..], gap, other, after, IsSeparator(before[0]));
    }
  }

  /** How many separators stand between two parts of a name, and which, makes no difference. */
  lemma GapsDoNotMatter(before: string, gap: string, other: string, after: string)
    requires gap != [] && other != [] && Separators(gap) && Separators(other)
    ensures Normalized(before + (gap + after)) == Normalized(before + (other + after))
  {
    NormalizedIsCore(before + (gap + after));
    NormalizedIsCore(before + (other + after));
    LowerAppend(before, gap + after);
    LowerAppend(gap, after);
    LowerAppend(before, other + after);
    LowerAppend(other, after);
    LowerSeparators(gap);
    LowerSeparators(other);
    CollapseGap(Lower(before), Lower(gap), Lower(other), Lower(after), false);
  }

  /** Separators before a name make no difference. */
  lemma LeadingGap(gap: string, name: string)
    requires gap != [] && Separators(gap)
    ensures Core(gap + name) == Core(name)
  {
    LowerAppend(gap, name);
    LowerSeparators(gap);
    CollapseRun(Lower(gap), Lower(name), false);
    TrimLeftOne(Collapse(Lower(name), true));
    LeadingSeparator(Lower(name));
  }

  lemma {:induction false} TrailingGap(name: string, gap: string)
    requires Separators(gap)
    ensures Core(name + gap) == Core(name)
    decreases |gap|
  {
    if gap == [] {
      assert name + gap == name;
    } else {
      var init, c := gap[..|gap| - 1], gap[|gap| - 1];
      assert IsSeparator(c) && name + gap == (name + init) + [c];
      assert Separators(init) by {
        forall i | 0 <= i < |init| ensures IsSeparator(init[i]) { assert IsSeparator(gap[i]); }
      }
      TrailingGap(name, init);
      LowerLast(name + init, c);
      CollapseAppend(Lower(name + init), LowerChar(c), false);
      TrimTrailing(Collapse(Lower(name + init), false));
    }
  }

  /** Separators before and after a name make no difference. */
  lemma EndsDoNotMatter(before: string, name: string, after: string)
    requires Separators(before) && Separators(after)
    ensures Normalized(before + (name + after)) == Normalized(name)
  {
    NormalizedIsCore(before + (name + after));
    NormalizedIsCore(name);
    TrailingGap(name, after);
    if before == [] {
      assert before + (name + after) == name + after;
    } else {
      LeadingGap(before, name + after);
    }
  }

  // ---------------------------------------------------------------------------------------
  // Spellings of a word
  // ---------------------------------------------------------------------------------------

  /** Small letters and digits, with single underscores between them; `gap` says whether an
      underscore may not stand here. */
  predicate WordFrom(w: string, gap: bool) {
    if w == "" then !gap
    else if w[0] == '_' then !gap && WordFrom(w[1..], true)
    else (97 <= w[0] as int <= 122 || 48 <= w[0] as int <= 57) && WordFrom(w[1..], false)
  }

  predicate Word(w: string) {
    WordFrom(w, true)
  }

  /** A small letter may be written as its capital, whose code is 32 less; for an underscore there
      may be a hyphen, a dot or a space. */
  ghost predicate Spells(key: string, w: string) {
    && |key| == |w|
    && forall i | 0 <= i < |w| ::
         || key[i] == w[i]
         || (97 <= w[i] as int <= 122 && key[i] as int == w[i] as int - 32)
         || (w[i] == '_' && key[i] as int in {9, 10, 11, 12, 13, 32, 45, 46})
  }

  lemma SpelledFirst(c: char, d: char)
    requires 97 <= d as int <= 122 || 48 <= d as int <= 57 || d == '_'
    requires c == d || (97 <= d as int <= 122 && c as int == d as int - 32)
             || (d == '_' && c as int in {9, 10, 11, 12, 13, 32, 45, 46})
    ensures if IsSeparator(LowerChar(c)) then d == '_' else LowerChar(c) == d
  {
  }

  lemma {:induction false} SpelledCollapse(key: string, w: string, last: bool)
    requires Spells(key, w) && WordFrom(w, last)
    ensures Collapse(Lower(key), last) == w
    decreases |w|
  {
    if w != "" {
      assert Lower(key)[1..] == Lower(key[1..]);
      SpelledFirst(key[0], w[0]);
      SpelledCollapse(key[1..], w[1..], IsSeparator(LowerChar(key[0])));
      assert w == [w[0]] + w[1..];
    }
  }

  lemma {:induction false} WordEnd(w: string, gap: bool)
    requires WordFrom(w, gap) && w != ""
    ensures w[|w| - 1] != '_'
    decreases |w|
  {
    if |w| > 1 {
      WordEnd(w[1..], w[0] == '_');
    }
  }

  /** Every spelling of a word has the word as its normal form; so it is hidden exactly if the word
      is on the list. */
  lemma SpelledExactly(key: string, w: string)
    requires Word(w) && Spells(key, w)
    ensures Normalized(key) == w && (Sensitive(key) <==> w in SENSITIVE)
  {
    NormalizedIsCore(key);
    SpelledCollapse(key, w, true);
    LeadingSeparator(Lower(key));
    WordEnd(w, true);
    assert TrimLeft(w, UNDERSCORE) == w;
  }

  predicate Letters(s: string) {
    s != "" && forall i | 0 <= i < |s| :: 'a' <= s[i] <= 'z'
  }

  lemma {:induction false} LettersWord(s: string, gap: bool)
    requires Letters(s)
    ensures WordFrom(s, gap)
    decreases |s|
  {
    if |s| > 1 {
      assert forall i | 0 <= i < |s[1..]| :: s[1..][i] == s[i + 1];
      LettersWord(s[1..], false);
    }
  }

  lemma {:induction false} TwoLettersWord(a: string, b: string, gap: bool)
    requires Letters(a) && Letters(b)
    ensures WordFrom(a + ("_" + b), gap)
    decreases |a|
  {
    assert (a + ("_" + b))[1..] == a[1..] + ("_" + b);
    if |a| > 1 {
      assert forall i | 0 <= i < |a[1..]| :: a[1..][i] == a[i + 1];
      TwoLettersWord(a[1..], b, false);
    } else {
      assert a[1..] + ("_" + b) == "_" + b && ("_" + b)[1..] == b;
      LettersWord(b, true);
    }
  }

  /** The word consists of two parts. */
  ghost predicate Divided(w: string, a: string, b: string) {
    Letters(a) && Letters(b) && w == a + ("_" + b)
  }

  lemma ShortParts(w: string) returns (a: string, b: string)
    requires w in SENSITIVE && |w| <= 10
    ensures Letters(w) || Divided(w, a, b)
  {
    a, b := "", "";
    if w == "id_token" { a, b := "id", "token"; }
    if w == "api_key" { a, b := "api", "key"; }
    if w == "set_cookie" { a, b := "set", "cookie"; }
  }

  lemma MiddleParts(w: string) returns (a: string, b: string)
    requires w in SENSITIVE && 10 < |w| <= 12
    ensures Letters(w) || Divided(w, a, b)
  {
    a, b := "", "";
    if w == "private_key" { a, b := "private", "key"; }
    if w == "access_token" { a, b := "access", "token"; }
  }

  lemma LongParts(w: string) returns (a: string, b: string)
    requires w in SENSITIVE && |w| == 13
    ensures Letters(w) || Divided(w, a, b)
  {
    a, b := "", "";
    if w == "refresh_token" { a, b := "refresh", "token"; }
    if w == "client_secret" { a, b := "client", "secret"; }
  }

  lemma LongestParts(w: string) returns (a: string, b: string)
    requires w in SENSITIVE && 13 < |w|
    ensures Letters(w) || Divided(w, a, b)
  {
    a, b := "", "";
    if w == "verification_keys" { a, b := "verification", "keys"; }
  }

  /** The list consists of words. */
  lemma ListedWord(w: string)
    requires w in SENSITIVE
    ensures Word(w) && Spells(w, w)
  {
    var a, b;
    if |w| <= 10 { a, b := ShortParts(w); }
    else if |w| <= 12 { a, b := MiddleParts(w); }
    else if |w| == 13 { a, b := LongParts(w); }
    else { a, b := LongestParts(w); }
    if Letters(w) { LettersWord(w, true); } else { TwoLettersWord(a, b, true); }
  }
}
