/** The string operations the source applies through `String.prototype`:
    `trim`, `toLowerCase`, `includes`/`indexOf`, `split`/`join`, `replace`
    with a string pattern, number-to-text, and the string case of
    `JSON.stringify`. Strings are sequences of code points. */
module Text {

  /** The ECMAScript WhiteSpace and LineTerminator code points: what `trim`
      removes and what the regular-expression class `\s` matches. */
  predicate IsWhiteSpace(c: char)
  {
    c == '\t' || c == '\n' || c == '\U{000B}' || c == '\U{000C}' || c == '\r' || c == ' ' ||
    c == '\U{00A0}' || c == '\U{1680}' || ('\U{2000}' <= c <= '\U{200A}') ||
    c == '\U{2028}' || c == '\U{2029}' || c == '\U{202F}' || c == '\U{205F}' ||
    c == '\U{3000}' || c == '\U{FEFF}'
  }

  predicate IsDigit(c: char)
  {
    '0' <= c <= '9'
  }

  /** The regular-expression class `\w`: ASCII letters, digits and `_`. */
  predicate IsWordChar(c: char)
  {
    ('a' <= c <= 'z') || ('A' <= c <= 'Z') || IsDigit(c) || c == '_'
  }

  predicate AllWhiteSpace(s: string)
  {
    forall i :: 0 <= i < |s| ==> IsWhiteSpace(s[i])
  }

  /** `s.trimStart()`: the suffix left after dropping leading white space. */
  function TrimStart(s: string): (r: string)
    ensures |r| <= |s| && r == s[|s| - |r|..]
    ensures r != [] ==> !IsWhiteSpace(r[0])
    ensures forall i :: 0 <= i < |s| - |r| ==> IsWhiteSpace(s[i])
  {
    if s != [] && IsWhiteSpace(s[0]) then TrimStart(s[1..]) else s
  }

  /** `s.trimEnd()`: the prefix left after dropping trailing white space. */
  function TrimEnd(s: string): (r: string)
    ensures |r| <= |s| && r == s[..|r|]
    ensures r != [] ==> !IsWhiteSpace(r[|r| - 1])
    ensures forall i :: |r| <= i < |s| ==> IsWhiteSpace(s[i])
  {
    if s != [] && IsWhiteSpace(s[|s| - 1]) then TrimEnd(s[..|s| - 1]) else s
  }

  /** `s.trim()`: a contiguous slice of `s` that neither starts nor ends with
      white space, and that is empty exactly when `s` is all white space. */
  function Trim(s: string): (r: string)
    ensures |r| <= |s|
    ensures r != [] ==> !IsWhiteSpace(r[0]) && !IsWhiteSpace(r[|r| - 1])
    ensures r == [] <==> AllWhiteSpace(s)
    ensures exists i :: Occurs(s, r, i)
  {
    TrimFacts(s);
    TrimEnd(TrimStart(s))
  }

  lemma TrimFacts(s: string)
    ensures Occurs(s, TrimEnd(TrimStart(s)), |s| - |TrimStart(s)|)
    ensures TrimEnd(TrimStart(s)) == [] <==> AllWhiteSpace(s)
  {
    TrimSlice(s);
    TrimEmpty(s);
  }

  lemma TrimSlice(s: string)
    ensures Occurs(s, TrimEnd(TrimStart(s)), |s| - |TrimStart(s)|)
  {
    var t := TrimStart(s);
    var r := TrimEnd(t);
    PrefixOfSuffixOccurs(s, t, r);
  }

  /** A prefix of a suffix of `s` occurs in `s` where the suffix starts. */
  lemma PrefixOfSuffixOccurs(s: string, t: string, r: string)
    requires |t| <= |s| && t == s[|s| - |t|..]
    requires |r| <= |t| && r == t[..|r|]
    ensures Occurs(s, r, |s| - |t|)
  {
    var k := |s| - |t|;
    assert s[k..k + |r|] == s[k..][..|r|];
  }

  lemma TrimEmpty(s: string)
    ensures TrimEnd(TrimStart(s)) == [] <==> AllWhiteSpace(s)
  {
    var t := TrimStart(s);
    var r := TrimEnd(t);
    if t != [] {
      assert !AllWhiteSpace(s) by {
        assert s[|s| - |t|] == t[0];
      }
    }
  }

  /** `r` is `s` with only its leading and trailing white space removed:
      it occurs at `k`, everything around it is white space, and it
      neither starts nor ends with white space. */
  predicate TrimmedAt(r: string, s: string, k: int)
  {
    Occurs(s, r, k)
    && (forall i :: 0 <= i < k ==> IsWhiteSpace(s[i]))
    && (forall i :: k + |r| <= i < |s| ==> IsWhiteSpace(s[i]))
    && (r != [] ==> !IsWhiteSpace(r[0]) && !IsWhiteSpace(r[|r| - 1]))
  }

  /** `r` is what trimming `s` at some position leaves. */
  ghost predicate IsTrimOf(r: string, s: string)
  {
    exists k :: TrimmedAt(r, s, k)
  }

  /** `trim` removes exactly the white space at both ends. */
  lemma TrimIsTrimmedAt(s: string)
    ensures TrimmedAt(Trim(s), s, |s| - |TrimStart(s)|)
    ensures IsTrimOf(Trim(s), s)
  {
    assert Trim(s) == TrimEnd(TrimStart(s));
    BothEndsTrimmed(s);
  }

  lemma BothEndsTrimmed(s: string)
    ensures TrimmedAt(TrimEnd(TrimStart(s)), s, |s| - |TrimStart(s)|)
  {
    var t := TrimStart(s);
    var r := TrimEnd(t);
    TrimSlice(s);
    TrailingWhiteSpace(s, t, r);
    if r != [] {
      assert r[0] == t[0];
    }
  }

  lemma TrailingWhiteSpace(s: string, t: string, r: string)
    requires |t| <= |s| && t == s[|s| - |t|..]
    requires |r| <= |t| && forall i :: |r| <= i < |t| ==> IsWhiteSpace(t[i])
    ensures forall i :: |s| - |t| + |r| <= i < |s| ==> IsWhiteSpace(s[i])
  {
    var k := |s| - |t|;
    forall i | k + |r| <= i < |s| ensures IsWhiteSpace(s[i]) {
      assert s[i] == t[i - k];
    }
  }

  /** A string without leading or trailing white space is its own trim. */
  lemma TrimOfTrimmed(s: string)
    requires s != [] ==> !IsWhiteSpace(s[0]) && !IsWhiteSpace(s[|s| - 1])
    ensures Trim(s) == s
  {
  }

  /** ASCII `toLowerCase` of one code point. */
  function LowerChar(c: char): (r: char)
    ensures 'A' <= c <= 'Z' ==> r as int == c as int + 32
    ensures !('A' <= c <= 'Z') ==> r == c
  {
    if 'A' <= c <= 'Z' then (c as int + 32) as char else c
  }

  function Lower(s: string): (r: string)
  {
    seq(|s|, i requires 0 <= i < |s| => LowerChar(s[i]))
  }

  /** Lower-casing leaves no ASCII capital, keeps the length, and is idempotent. */
  lemma LowerProperties(s: string)
    ensures |Lower(s)| == |s|
    ensures forall i :: 0 <= i < |s| ==> !('A' <= Lower(s)[i] <= 'Z')
    ensures Lower(Lower(s)) == Lower(s)
  {
  }

  /** `sub` occurs in `s` starting at position `i`. */
  predicate Occurs(s: string, sub: string, i: int)
  {
    0 <= i && i + |sub| <= |s| && s[i..i + |sub|] == sub
  }

  /** `s.indexOf(sub, from)` for `from <= |s|`: the first occurrence at or
      after `from`, or -1. */
  function IndexFrom(s: string, sub: string, from: nat): (r: int)
    requires from <= |s|
    decreases |s| - from
    ensures r == -1 || (from <= r && Occurs(s, sub, r))
    ensures r == -1 ==> forall i :: from <= i ==> !Occurs(s, sub, i)
    ensures r != -1 ==> forall i :: from <= i < r ==> !Occurs(s, sub, i)
  {
    if from + |sub| > |s| then -1
    else if s[from..from + |sub|] == sub then from
    else if from == |s| then -1
    else IndexFrom(s, sub, from + 1)
  }

  /** `s.includes(sub)`. */
  predicate Contains(s: string, sub: string)
  {
    IndexFrom(s, sub, 0) != -1
  }

  lemma ContainsIff(s: string, sub: string)
    ensures Contains(s, sub) <==> exists i :: Occurs(s, sub, i)
  {
  }

  /** `sub` occurs somewhere in `s`. */
  predicate IsInfix(sub: string, s: string)
  {
    exists i :: 0 <= i <= |s| && Occurs(s, sub, i)
  }

  /** A one-character pattern occurs exactly where that character is. */
  lemma OccursChar(s: string, c: char, i: int)
    ensures Occurs(s, [c], i) <==> 0 <= i < |s| && s[i] == c
  {
    if 0 <= i < |s| {
      assert s[i..i + 1] == [s[i]];
    }
  }

  /** `s.indexOf(c)` for one character: -1 exactly when `c` is absent,
      otherwise the first position holding it. */
  lemma IndexOfChar(s: string, c: char)
    ensures var r := IndexFrom(s, [c], 0);
      (r == -1 <==> c !in s) &&
      (r != -1 ==> 0 <= r < |s| && s[r] == c && c !in s[..r])
  {
    var r := IndexFrom(s, [c], 0);
    forall i | 0 <= i < |s| ensures Occurs(s, [c], i) <==> s[i] == c {
      OccursChar(s, c, i);
    }
    if r != -1 {
      OccursChar(s, c, r);
      forall i | 0 <= i < r ensures s[..r][i] != c {
        OccursChar(s, c, i);
      }
    }
  }

  /** An occurrence inside a slice is an occurrence in the whole string. */
  lemma OccursInSlice(s: string, sub: string, lo: int, hi: int, i: int)
    requires 0 <= lo <= hi <= |s|
    requires Occurs(s[lo..hi], sub, i)
    ensures Occurs(s, sub, lo + i)
  {
    forall k | 0 <= k < |sub| ensures s[lo + i..lo + i + |sub|][k] == sub[k] {
      assert s[lo..hi][i..i + |sub|][k] == sub[k];
    }
  }

  /** `parts.join(sep)`. */
  function Join(parts: seq<string>, sep: string): string
  {
    if |parts| == 0 then []
    else if |parts| == 1 then parts[0]
    else parts[0] + sep + Join(parts[1..], sep)
  }

  /** `s.split(sep)` for a non-empty separator: the pieces between
      non-overlapping occurrences found left to right. Joining them again
      gives back `s`, and no piece contains the separator. */
  function Split(s: string, sep: string): (parts: seq<string>)
    requires sep != []
    decreases |s|
    ensures |parts| >= 1
    ensures Join(parts, sep) == s
    ensures forall k :: 0 <= k < |parts| ==> !Contains(parts[k], sep)
  {
    var i := IndexFrom(s, sep, 0);
    if i == -1 then [s]
    else
      var rest := Split(s[i + |sep|..], sep);
      var parts := [s[..i]] + rest;
      assert s == s[..i] + sep + s[i + |sep|..] by {
        assert s[i..i + |sep|] == sep;
      }
      assert !Contains(s[..i], sep) by {
        forall j | Occurs(s[..i], sep, j) ensures false {
          OccursInSlice(s, sep, 0, i, j);
        }
      }
      assert parts[1..] == rest;
      parts
  }

  /** One piece exactly when the separator does not occur. */
  lemma SplitSingle(s: string, sep: string)
    requires sep != []
    ensures |Split(s, sep)| == 1 <==> !Contains(s, sep)
  {
    var i := IndexFrom(s, sep, 0);
    if i != -1 {
      assert |Split(s, sep)| == 1 + |Split(s[i + |sep|..], sep)|;
    }
  }

  /** Two pieces: the string is the first piece, the separator, the second. */
  lemma SplitPair(s: string, sep: string)
    requires sep != []
    requires |Split(s, sep)| == 2
    ensures s == Split(s, sep)[0] + sep + Split(s, sep)[1]
  {
    var parts := Split(s, sep);
    assert Join(parts, sep) == parts[0] + sep + Join(parts[1..], sep);
    assert Join(parts[1..], sep) == parts[1];
  }

  /** The GetSubstitution step of `String.prototype.replace` with a string
      pattern (no capture groups): `$$` is `$`, `$&` the match, `` $` ``
      the text before it, `$'` the text after it; any other `$` is literal. */
  function Substitute(rep: string, matched: string, before: string, after: string): string
    decreases |rep|
  {
    if rep == [] then []
    else if rep[0] == '$' && |rep| >= 2 && rep[1] == '$' then "$" + Substitute(rep[2..], matched, before, after)
    else if rep[0] == '$' && |rep| >= 2 && rep[1] == '&' then matched + Substitute(rep[2..], matched, before, after)
    else if rep[0] == '$' && |rep| >= 2 && rep[1] == '`' then before + Substitute(rep[2..], matched, before, after)
    else if rep[0] == '$' && |rep| >= 2 && rep[1] == '\'' then after + Substitute(rep[2..], matched, before, after)
    else [rep[0]] + Substitute(rep[1..], matched, before, after)
  }

  /** A replacement without `$` is inserted verbatim. */
  lemma {:induction false} SubstitutePlain(rep: string, matched: string, before: string, after: string)
    requires '$' !in rep
    ensures Substitute(rep, matched, before, after) == rep
  {
    if rep != [] {
      assert rep[0] != '$';
      SubstitutePlain(rep[1..], matched, before, after);
      assert rep == [rep[0]] + rep[1..];
    }
  }

  /** `s.replace(pat, rep)` with a string pattern: only the first occurrence
      is replaced; without an occurrence the string is returned unchanged. */
  function ReplaceFirst(s: string, pat: string, rep: string): (r: string)
    ensures !Contains(s, pat) ==> r == s
    ensures Contains(s, pat) ==>
              var i := IndexFrom(s, pat, 0);
              r == s[..i] + Substitute(rep, pat, s[..i], s[i + |pat|..]) + s[i + |pat|..]
  {
    var i := IndexFrom(s, pat, 0);
    if i == -1 then s
    else s[..i] + Substitute(rep, pat, s[..i], s[i + |pat|..]) + s[i + |pat|..]
  }

  /** The part of the string before the first occurrence is untouched, and a
      `$`-free replacement lands verbatim in place of that occurrence. */
  lemma ReplaceFirstPlain(s: string, pat: string, rep: string, i: int)
    requires '$' !in rep
    requires Occurs(s, pat, i)
    requires forall j :: 0 <= j < i ==> !Occurs(s, pat, j)
    ensures ReplaceFirst(s, pat, rep) == s[..i] + rep + s[i + |pat|..]
  {
    var k := IndexFrom(s, pat, 0);
    assert k == i;
    SubstitutePlain(rep, pat, s[..i], s[i + |pat|..]);
  }

  function DigitChar(d: nat): (c: char)
    requires d < 10
    ensures IsDigit(c)
  {
    ('0' as int + d) as char
  }

  /** Decimal text of a natural number, as `String(n)` writes it. */
  function NatToString(n: nat): (r: string)
    ensures |r| >= 1
    ensures forall i :: 0 <= i < |r| ==> IsDigit(r[i])
    ensures |r| > 1 ==> r[0] != '0'
  {
    if n < 10 then [DigitChar(n)] else NatToString(n / 10) + [DigitChar(n % 10)]
  }

  /** `String(n)` for an integer. */
  function IntToString(n: int): (r: string)
    ensures r != []
  {
    if n < 0 then "-" + NatToString(-n) else NatToString(n)
  }

  /** Value of a string of decimal digits. */
  function DigitsValue(s: string): nat
    requires forall i :: 0 <= i < |s| ==> IsDigit(s[i])
  {
    if s == [] then 0
    else
      assert IsDigit(s[|s| - 1]);
      DigitsValue(s[..|s| - 1]) * 10 + (s[|s| - 1] as int - '0' as int)
  }

  /** Reading the decimal text back gives the number. */
  lemma {:induction false} NatToStringRoundTrip(n: nat)
    ensures DigitsValue(NatToString(n)) == n
  {
    if n >= 10 {
      NatToStringRoundTrip(n / 10);
      var r := NatToString(n);
      assert r[..|r| - 1] == NatToString(n / 10);
    }
  }

  /** Different numbers have different decimal texts. */
  lemma NatToStringInjective(m: nat, n: nat)
    requires NatToString(m) == NatToString(n)
    ensures m == n
  {
    NatToStringRoundTrip(m);
    NatToStringRoundTrip(n);
  }

  function HexDigit(d: nat): (c: char)
    requires d < 16
  {
    if d < 10 then DigitChar(d) else ('a' as int + d - 10) as char
  }

  /** The escape `JSON.stringify` writes for one code point inside a string. */
  function JsonEscapeChar(c: char): (r: string)
    ensures r != []
    ensures '\n' !in r && '\r' !in r
  {
    if c == '"' then "\\\""
    else if c == '\\' then "\\\\"
    else if c == '\U{0008}' then "\\b"
    else if c == '\U{000C}' then "\\f"
    else if c == '\n' then "\\n"
    else if c == '\r' then "\\r"
    else if c == '\t' then "\\t"
    else if c < ' ' then "\\u00" + [HexDigit(c as int / 16), HexDigit(c as int % 16)]
    else [c]
  }

  function JsonEscape(s: string): (r: string)
    ensures '\n' !in r && '\r' !in r
  {
    if s == [] then [] else JsonEscapeChar(s[0]) + JsonEscape(s[1..])
  }

  /** `JSON.stringify(s)` for a string `s`: quoted and escaped, so the text
      never contains a line break and is its own value in a CSV line. */
  function JsonQuote(s: string): (r: string)
    ensures |r| >= 2 && r[0] == '"' && r[|r| - 1] == '"'
    ensures '\n' !in r
  {
    "\"" + JsonEscape(s) + "\""
  }

  /** A string without quote, backslash or control characters is quoted
      verbatim. */
  lemma {:induction false} JsonEscapePlain(s: string)
    requires forall i :: 0 <= i < |s| ==> s[i] >= ' ' && s[i] != '"' && s[i] != '\\'
    ensures JsonEscape(s) == s
  {
    if s != [] {
      JsonEscapePlain(s[1..]);
      assert s == [s[0]] + s[1..];
    }
  }
}
