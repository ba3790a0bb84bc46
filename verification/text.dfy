/** String primitives shared by the routes and the record schemas: the JavaScript
    whitespace class, `trim`, lower-casing, substring search, the hand-written email
    regular expression and the byte-wise order MongoDB sorts names by. */
module Text {

  /** ECMAScript WhiteSpace and LineTerminator code points: what `String.prototype.trim`
      removes and what the regular-expression class `\s` matches. */
  predicate IsWhitespace(c: char) {
    || c == '\t' || c == '\n' || c == '\U{000B}' || c == '\U{000C}' || c == '\r' || c == ' '
    || c == '\U{00A0}' || c == '\U{1680}' || ('\U{2000}' <= c <= '\U{200A}')
    || c == '\U{2028}' || c == '\U{2029}' || c == '\U{202F}' || c == '\U{205F}'
    || c == '\U{3000}' || c == '\U{FEFF}'
  }

  predicate NoWhitespace(s: string) {
    forall i :: 0 <= i < |s| ==> !IsWhitespace(s[i])
  }

  /** `s` with its leading whitespace removed. */
  function TrimStart(s: string): (r: string)
    ensures |r| <= |s| && r == s[|s| - |r|..]
    ensures forall i :: 0 <= i < |s| - |r| ==> IsWhitespace(s[i])
    ensures r == [] || !IsWhitespace(r[0])
  {
    if s == [] || !IsWhitespace(s[0]) then s else TrimStart(s[1..])
  }

  /** `s` with its trailing whitespace removed. */
  function TrimEnd(s: string): (r: string)
    ensures |r| <= |s| && r == s[..|r|]
    ensures forall i :: |r| <= i < |s| ==> IsWhitespace(s[i])
    ensures r == [] || !IsWhitespace(r[|r| - 1])
  {
    if s == [] || !IsWhitespace(s[|s| - 1]) then s else TrimEnd(s[..|s| - 1])
  }

  /** Every character of `s` is whitespace. */
  predicate AllWhitespace(s: string) {
    forall k :: 0 <= k < |s| ==> IsWhitespace(s[k])
  }

  /** `String.prototype.trim`, which Mongoose applies to every path declared `trim: true`:
      the slice of `s` left after dropping its outer whitespace runs. */
  function Trim(s: string): (r: string)
    ensures |r| <= |s|
    ensures r == [] || (!IsWhitespace(r[0]) && !IsWhitespace(r[|r| - 1]))
  {
    TrimEnd(TrimStart(s))
  }

  /** What trimming keeps is a slice of the input, and what it drops on either side is
      whitespace. */
  lemma TrimIsSlice(s: string)
    ensures exists i, j | 0 <= i <= j <= |s| :: Trim(s) == s[i..j] && AllWhitespace(s[..i]) && AllWhitespace(s[j..])
  {
    var t := TrimStart(s);
    var r := TrimEnd(t);
    LeadingRun(s, t);
    TrailingRun(t, r);
    var i := |s| - |t|;
    Slices(s, t, r, i);
    assert r == s[i..i + |r|] && AllWhitespace(s[..i]) && AllWhitespace(s[i + |r|..]);
  }

  /** A prefix of a suffix is a slice, and the suffix's tail is the string's tail. */
  lemma Slices(s: string, t: string, r: string, i: nat)
    requires i <= |s| && t == s[i..] && |r| <= |t| && r == t[..|r|] && AllWhitespace(t[|r|..])
    ensures r == s[i..i + |r|] && AllWhitespace(s[i + |r|..])
  {
    assert t[|r|..] == s[i + |r|..];
  }

  /** What `TrimStart` drops is whitespace. */
  lemma LeadingRun(s: string, t: string)
    requires t == TrimStart(s)
    ensures AllWhitespace(s[..|s| - |t|])
  {
    var p := s[..|s| - |t|];
    forall k | 0 <= k < |p| ensures IsWhitespace(p[k]) {
      assert p[k] == s[k];
    }
  }

  /** What `TrimEnd` drops is whitespace. */
  lemma TrailingRun(t: string, r: string)
    requires r == TrimEnd(t)
    ensures AllWhitespace(t[|r|..])
  {
    var p := t[|r|..];
    forall k | 0 <= k < |p| ensures IsWhitespace(p[k]) {
      assert p[k] == t[|r| + k];
    }
  }

  /** A string that neither starts nor ends with whitespace is its own trim. */
  lemma TrimOfTrimmed(s: string)
    requires s == [] || (!IsWhitespace(s[0]) && !IsWhitespace(s[|s| - 1]))
    ensures Trim(s) == s
  {
  }

  /** A trailing space on a trimmed, non-empty string is all that trimming removes. */
  lemma TrimTrailingSpace(s: string)
    requires s != [] && !IsWhitespace(s[0]) && !IsWhitespace(s[|s| - 1])
    ensures Trim(s + " ") == s
  {
    var t := s + " ";
    assert TrimStart(t) == t;
    assert t[..|t| - 1] == s;
    assert TrimEnd(t) == TrimEnd(s);
  }

  /** A leading space on a trimmed, non-empty string is all that trimming removes. */
  lemma TrimLeadingSpace(s: string)
    requires s != [] && !IsWhitespace(s[0]) && !IsWhitespace(s[|s| - 1])
    ensures Trim(" " + s) == s
  {
    var t := " " + s;
    assert t[1..] == s;
    assert TrimStart(t) == TrimStart(s) == s;
    TrimOfTrimmed(s);
  }

  /** Trimming twice is trimming once. */
  lemma TrimIdempotent(s: string)
    ensures Trim(Trim(s)) == Trim(s)
  {
    TrimOfTrimmed(Trim(s));
  }

  /** A string without whitespace is unchanged by trimming. */
  lemma TrimNoWhitespace(s: string)
    requires NoWhitespace(s)
    ensures Trim(s) == s
  {
    TrimOfTrimmed(s);
  }

  /** The code units a character takes in UTF-16: two outside the Basic Multilingual Plane. */
  function Utf16Units(c: char): nat {
    if c as int > 0xFFFF then 2 else 1
  }

  /** JavaScript's `length` and Zod's `.min`/`.max` on strings: UTF-16 code units, not
      characters. */
  function Utf16Length(s: string): (n: nat)
    ensures |s| <= n <= 2 * |s|
    ensures n == 0 <==> s == []
  {
    if s == [] then 0 else Utf16Units(s[0]) + Utf16Length(s[1..])
  }

  /** The length of a concatenation is the sum of the lengths. */
  lemma {:induction false} Utf16LengthAppend(a: string, b: string)
    ensures Utf16Length(a + b) == Utf16Length(a) + Utf16Length(b)
  {
    if a != [] {
      assert (a + b)[0] == a[0] && (a + b)[1..] == a[1..] + b;
      Utf16LengthAppend(a[1..], b);
    } else {
      assert a + b == b;
    }
  }

  /** Within the Basic Multilingual Plane, code units and characters agree; each
      character beyond it counts twice. */
  lemma {:induction false} Utf16LengthCounts(s: string)
    ensures (forall i :: 0 <= i < |s| ==> s[i] as int <= 0xFFFF) <==> Utf16Length(s) == |s|
    ensures (forall i :: 0 <= i < |s| ==> s[i] as int > 0xFFFF) ==> Utf16Length(s) == 2 * |s|
  {
    if s != [] {
      Utf16LengthCounts(s[1..]);
      assert forall i :: 1 <= i < |s| ==> s[1..][i - 1] == s[i];
    }
  }

  /** Lower-casing of one character (the ASCII letters; see the README for the limits). */
  function LowerChar(c: char): (d: char)
    ensures 'A' <= c <= 'Z' ==> d as int == c as int + 32
    ensures !('A' <= c <= 'Z') ==> d == c
  {
    if 'A' <= c <= 'Z' then (c as int + 32) as char else c
  }

  /** `String.prototype.toLowerCase`, as Mongoose's `lowercase: true` applies it. */
  function ToLower(s: string): (r: string)
    ensures |r| == |s|
    ensures forall i :: 0 <= i < |s| ==> r[i] == LowerChar(s[i])
  {
    seq(|s|, i requires 0 <= i < |s| => LowerChar(s[i]))
  }

  /** No upper-case ASCII letter in `s`. */
  predicate NoUpper(s: string) {
    forall i :: 0 <= i < |s| ==> !('A' <= s[i] <= 'Z')
  }

  /** Lower-casing leaves no upper-case letter, changes exactly the upper-case letters,
      and so fixes exactly the strings without one. */
  lemma ToLowerMeaning(s: string)
    ensures NoUpper(ToLower(s))
    ensures forall i :: 0 <= i < |s| ==> (ToLower(s)[i] == s[i] <==> !('A' <= s[i] <= 'Z'))
    ensures ToLower(s) == s <==> NoUpper(s)
  {
    if ToLower(s) == s {
      forall i | 0 <= i < |s| ensures !('A' <= s[i] <= 'Z') {
        assert ToLower(s)[i] == s[i];
      }
    }
  }

  /** Lower-casing is idempotent, so a stored lower-case email re-saves unchanged. */
  lemma ToLowerIdempotent(s: string)
    ensures ToLower(ToLower(s)) == ToLower(s)
  {
  }

  /** Lower-casing neither adds nor removes whitespace. */
  lemma ToLowerKeepsWhitespace(s: string)
    ensures NoWhitespace(ToLower(s)) <==> NoWhitespace(s)
    ensures |s| > 0 ==> (IsWhitespace(ToLower(s)[0]) <==> IsWhitespace(s[0]))
    ensures |s| > 0 ==> (IsWhitespace(ToLower(s)[|s| - 1]) <==> IsWhitespace(s[|s| - 1]))
  {
  }

  /** Equality after case folding: the `^name$` regular expression with the `i` flag. */
  predicate EqualsIgnoreCase(a: string, b: string) {
    ToLower(a) == ToLower(b)
  }

  /** `needle` occurs as a contiguous run of `hay`. */
  predicate IsSubstring(needle: string, hay: string) {
    exists i | 0 <= i <= |hay| - |needle| :: needle <= hay[i..]
  }

  /** The `{ $regex: search, $options: 'i' }` filter, for a search term without
      regular-expression metacharacters. */
  predicate ContainsIgnoreCase(hay: string, needle: string) {
    IsSubstring(ToLower(needle), ToLower(hay))
  }

  /** Number of occurrences of `c` in `s`. */
  function Count(s: string, c: char): nat
  {
    if s == [] then 0 else (if s[0] == c then 1 else 0) + Count(s[1..], c)
  }

  lemma {:induction false} CountSplit(s: string, k: nat, c: char)
    requires k <= |s|
    ensures Count(s, c) == Count(s[..k], c) + Count(s[k..], c)
  {
    if k > 0 {
      CountSplit(s[1..], k - 1, c);
      assert s[1..][..k - 1] == s[..k][1..];
      assert s[1..][k - 1..] == s[k..];
    }
  }

  lemma {:induction false} CountZero(s: string, c: char)
    ensures Count(s, c) == 0 <==> forall i :: 0 <= i < |s| ==> s[i] != c
  {
    if s != [] {
      CountZero(s[1..], c);
      assert forall i :: 1 <= i < |s| ==> s[i] == s[1..][i - 1];
    }
  }

  predicate NoWhitespaceOrAt(s: string) {
    forall i :: 0 <= i < |s| ==> !IsWhitespace(s[i]) && s[i] != '@'
  }

  /** `/^[^\s@]+@[^\s@]+\.[^\s@]+$/.test(s)`: three non-empty runs free of whitespace
      and `@`, joined by an `@` and then a `.`. The runs may themselves contain dots;
      `d` is the dot the regular expression's backtracking settles on. */
  predicate MatchesEmailPattern(s: string) {
    exists a, d | 0 < a < |s| && a + 1 < d < |s| - 1 ::
      && s[a] == '@' && s[d] == '.'
      && NoWhitespaceOrAt(s[..a]) && NoWhitespaceOrAt(s[a + 1..d]) && NoWhitespaceOrAt(s[d + 1..])
  }

  /** The email pattern accepts exactly the strings with no whitespace, exactly one `@`,
      at least one character before it, and a `.` after it that has text on both sides. */
  lemma EmailPatternCharacterization(s: string)
    ensures MatchesEmailPattern(s) <==>
      && NoWhitespace(s)
      && Count(s, '@') == 1
      && exists a, d | 0 < a < |s| && a + 1 < d < |s| - 1 :: s[a] == '@' && s[d] == '.'
  {
    if MatchesEmailPattern(s) {
      var a, d :| 0 < a < |s| && a + 1 < d < |s| - 1
        && s[a] == '@' && s[d] == '.'
        && NoWhitespaceOrAt(s[..a]) && NoWhitespaceOrAt(s[a + 1..d]) && NoWhitespaceOrAt(s[d + 1..]);
      EmailPatternSound(s, a, d);
    }
    if && NoWhitespace(s)
       && Count(s, '@') == 1
       && exists a, d | 0 < a < |s| && a + 1 < d < |s| - 1 :: s[a] == '@' && s[d] == '.'
    {
      var a, d :| 0 < a < |s| && a + 1 < d < |s| - 1 && s[a] == '@' && s[d] == '.';
      EmailPatternComplete(s, a, d);
    }
  }

  lemma EmailPatternSound(s: string, a: nat, d: nat)
    requires 0 < a < |s| && a + 1 < d < |s| - 1 && s[a] == '@' && s[d] == '.'
    requires NoWhitespaceOrAt(s[..a]) && NoWhitespaceOrAt(s[a + 1..d]) && NoWhitespaceOrAt(s[d + 1..])
    ensures NoWhitespace(s) && Count(s, '@') == 1
  {
    forall i | 0 <= i < |s| ensures !IsWhitespace(s[i]) && (i != a ==> s[i] != '@') {
      if i < a { assert s[i] == s[..a][i]; }
      else if a < i < d { assert s[i] == s[a + 1..d][i - a - 1]; }
      else if d < i { assert s[i] == s[d + 1..][i - d - 1]; }
    }
    CountSplit(s, a, '@');
    CountZero(s[..a], '@');
    var rest := s[a + 1..];
    assert s[a..][1..] == rest;
    assert forall i :: 0 <= i < |rest| ==> rest[i] == s[a + 1 + i];
    CountZero(rest, '@');
  }

  lemma EmailPatternComplete(s: string, a: nat, d: nat)
    requires 0 < a < |s| && a + 1 < d < |s| - 1 && s[a] == '@' && s[d] == '.'
    requires NoWhitespace(s) && Count(s, '@') == 1
    ensures NoWhitespaceOrAt(s[..a]) && NoWhitespaceOrAt(s[a + 1..d]) && NoWhitespaceOrAt(s[d + 1..])
  {
    OnlyOneOccurrence(s, a, '@');
    assert NoWhitespaceOrAt(s[..a]);
    assert NoWhitespaceOrAt(s[a + 1..d]);
    assert NoWhitespaceOrAt(s[d + 1..]);
  }

  /** When `c` occurs once and sits at `a`, it occurs nowhere else. */
  lemma OnlyOneOccurrence(s: string, a: nat, c: char)
    requires a < |s| && s[a] == c && Count(s, c) == 1
    ensures forall j :: 0 <= j < |s| && j != a ==> s[j] != c
  {
    CountSplit(s, a, c);
    assert s[a..][1..] == s[a + 1..];
    assert Count(s[..a], c) == 0 && Count(s[a + 1..], c) == 0;
    CountZero(s[..a], c);
    CountZero(s[a + 1..], c);
    forall j | 0 <= j < |s| && j != a ensures s[j] != c {
      if j < a { assert s[j] == s[..a][j]; } else { assert s[j] == s[a + 1..][j - a - 1]; }
    }
  }

  /** MongoDB's default string order: code point by code point, a proper prefix first. */
  predicate LexLessEq(a: string, b: string)
    decreases |a|
  {
    a == [] || (b != [] && (a[0] < b[0] || (a[0] == b[0] && LexLessEq(a[1..], b[1..]))))
  }

  /** The order is total, so any two names can be placed. */
  lemma {:induction false} LexTotal(a: string, b: string)
    ensures LexLessEq(a, b) || LexLessEq(b, a)
    decreases |a|
  {
    if a != [] && b != [] && a[0] == b[0] {
      LexTotal(a[1..], b[1..]);
    }
  }
}
