/**
 * The Python string and list semantics the pipeline relies on: substring tests,
 * find/rfind, lower/upper (ASCII), strip, replace, split, slices that clamp,
 * int() and str() of integers.
 */
module PyStr {
  import opened Wrappers

  function Min(a: int, b: int): int { if a <= b then a else b }
  function Max(a: int, b: int): int { if a >= b then a else b }

  // ---------------------------------------------------------------------------
  // Prefixes, suffixes and the `in` operator

  predicate StartsWith(s: string, p: string) {
    |p| <= |s| && s[..|p|] == p
  }

  predicate EndsWith(s: string, p: string) {
    |p| <= |s| && s[|s| - |p|..] == p
  }

  /** A concatenation ends with its second part. */
  lemma ConcatEndsWith(a: string, b: string)
    ensures EndsWith(a + b, b)
  {
    assert (a + b)[|a|..] == b;
  }

  /** A common head keeps a prefix a prefix. */
  lemma StartsWithPrepend(h: string, s: string, p: string)
    requires StartsWith(s, p)
    ensures StartsWith(h + s, h + p)
  {
    assert (h + s)[..|h + p|] == h + s[..|p|];
  }

  predicate OccursAt(s: string, sub: string, i: int) {
    0 <= i && i + |sub| <= |s| && s[i..i + |sub|] == sub
  }

  /** Python's `sub in s`. */
  predicate Contains(s: string, sub: string) {
    exists i | 0 <= i <= |s| - |sub| :: OccursAt(s, sub, i)
  }

  /** Python's `s.find(sub, i)` restricted to i <= len(s): the first occurrence at or after i, else -1. */
  function FindFrom(s: string, sub: string, i: nat): (r: int)
    decreases |s| - i
    ensures r == -1 || (i <= r && OccursAt(s, sub, r))
    ensures r == -1 ==> forall j :: i <= j && OccursAt(s, sub, j) ==> false
    ensures r >= 0 ==> forall j :: i <= j < r ==> !OccursAt(s, sub, j)
  {
    if i + |sub| > |s| then -1
    else if s[i..i + |sub|] == sub then i
    else FindFrom(s, sub, i + 1)
  }

  /** Python's `s.find(sub)`. */
  function Find(s: string, sub: string): (r: int)
    ensures r == -1 <==> !Contains(s, sub)
    ensures r >= 0 ==> OccursAt(s, sub, r) && forall j :: 0 <= j < r ==> !OccursAt(s, sub, j)
  {
    var r := FindFrom(s, sub, 0);
    assert r == -1 ==> !Contains(s, sub);
    r
  }

  /** Python's `s.rfind(c)` for a one-character needle. */
  function RFindChar(s: string, c: char): (r: int)
    ensures -1 <= r < |s|
    ensures r >= 0 ==> s[r] == c && forall j :: r < j < |s| ==> s[j] != c
    ensures r == -1 ==> forall j :: 0 <= j < |s| ==> s[j] != c
  {
    if |s| == 0 then -1
    else if s[|s| - 1] == c then |s| - 1
    else RFindChar(s[..|s| - 1], c)
  }

  lemma ContainsChar(s: string, c: char)
    ensures Contains(s, [c]) <==> c in s
  {
    if c in s {
      var i :| 0 <= i < |s| && s[i] == c;
      assert OccursAt(s, [c], i);
    }
    if Contains(s, [c]) {
      var i :| 0 <= i <= |s| - 1 && OccursAt(s, [c], i);
      assert s[i..i + 1][0] == s[i];
    }
  }

  // ---------------------------------------------------------------------------
  // Case mapping (ASCII letters only)

  function LowerChar(c: char): char {
    if 'A' <= c <= 'Z' then (c as int - 'A' as int + 'a' as int) as char else c
  }

  function UpperChar(c: char): char {
    if 'a' <= c <= 'z' then (c as int - 'a' as int + 'A' as int) as char else c
  }

  /** Upper-casing never turns a character into whitespace. */
  lemma UpperCharNotSpace(c: char)
    requires c !in Whitespace
    ensures UpperChar(c) !in Whitespace
  {
    if 'a' <= c <= 'z' {
      VisibleNotSpace(UpperChar(c));
    }
  }

  /** Python's `s.lower()`. */
  function Lower(s: string): (r: string)
    ensures |r| == |s| && forall i :: 0 <= i < |s| ==> r[i] == LowerChar(s[i])
  {
    seq(|s|, i requires 0 <= i < |s| => LowerChar(s[i]))
  }

  /** Python's `s.upper()`. */
  function Upper(s: string): (r: string)
    ensures |r| == |s| && forall i :: 0 <= i < |s| ==> r[i] == UpperChar(s[i])
  {
    seq(|s|, i requires 0 <= i < |s| => UpperChar(s[i]))
  }

  /** Upper-casing twice is upper-casing once. */
  lemma UpperIdempotent(s: string)
    ensures Upper(Upper(s)) == Upper(s)
  {
    var t := Upper(s);
    forall i | 0 <= i < |t| ensures Upper(t)[i] == t[i] {
      assert t[i] == UpperChar(s[i]);
    }
  }

  lemma LowerConcat(a: string, b: string)
    ensures Lower(a + b) == Lower(a) + Lower(b)
  {
  }

  /** Python's `s.lower().endswith(p)` for a lower-case p. */
  predicate EndsWithIgnoreCase(s: string, p: string) {
    EndsWith(Lower(s), p)
  }

  // ---------------------------------------------------------------------------
  // strip

  /** The characters Python's `str.isspace()` accepts. */
  predicate IsSpace(c: char) {
    c == ' ' || '\t' <= c <= '\r' || '\U{1C}' <= c <= '\U{1F}' || c == '\U{85}' || c == '\U{A0}'
    || c == '\U{1680}' || '\U{2000}' <= c <= '\U{200A}' || c == '\U{2028}' || c == '\U{2029}'
    || c == '\U{202F}' || c == '\U{205F}' || c == '\U{3000}'
  }

  /** The set `str.strip()` removes: every `isspace()` character. */
  const Whitespace: set<char> := set c: char | '\t' <= c <= '\U{3000}' && IsSpace(c)

  /** Visible ASCII characters are not whitespace. */
  lemma VisibleNotSpace(c: char)
    requires '!' <= c <= '~'
    ensures c !in Whitespace
  {
  }

  /** The first index at or after i whose character is not in cs (or |s|). */
  function SkipFrom(s: string, cs: set<char>, i: nat): (r: nat)
    requires i <= |s|
    decreases |s| - i
    ensures i <= r <= |s|
    ensures forall k :: i <= k < r ==> s[k] in cs
    ensures r < |s| ==> s[r] !in cs
  {
    if i < |s| && s[i] in cs then SkipFrom(s, cs, i + 1) else i
  }

  /** The last end index at or before j, but not below lo, whose preceding character is not in cs. */
  function SkipBackTo(s: string, cs: set<char>, lo: nat, j: nat): (r: nat)
    requires lo <= j <= |s|
    decreases j
    ensures lo <= r <= j
    ensures forall k :: r <= k < j ==> s[k] in cs
    ensures r > lo ==> s[r - 1] !in cs
  {
    if j > lo && s[j - 1] in cs then SkipBackTo(s, cs, lo, j - 1) else j
  }

  /** Python's `s.strip(chars)`: removes any mix of the characters in cs from both ends. */
  function StripChars(s: string, cs: set<char>): (r: string)
    ensures |r| <= |s|
    ensures |r| > 0 ==> r[0] !in cs && r[|r| - 1] !in cs
  {
    var a := SkipFrom(s, cs, 0);
    var b := SkipBackTo(s, cs, a, |s|);
    s[a..b]
  }

  /** Python's `s.strip()`. */
  function Strip(s: string): string {
    StripChars(s, Whitespace)
  }

  /** A string that starts and ends with a visible ASCII character is its own strip. */
  lemma StripVisible(s: string)
    requires |s| > 0 ==> '!' <= s[0] <= '~' && '!' <= s[|s| - 1] <= '~'
    ensures Strip(s) == s
  {
    if |s| > 0 {
      VisibleNotSpace(s[0]);
      VisibleNotSpace(s[|s| - 1]);
    }
    StripCharsNoop(s, Whitespace);
  }

  lemma StripCharsNoop(s: string, cs: set<char>)
    requires |s| > 0 ==> s[0] !in cs && s[|s| - 1] !in cs
    ensures StripChars(s, cs) == s
  {
    if |s| > 0 {
      assert SkipFrom(s, cs, 0) == 0;
      assert SkipBackTo(s, cs, 0, |s|) == |s|;
    }
    assert s[0..|s|] == s;
  }

  /** What strip removes lies in cs, and what it keeps is a contiguous infix. */
  lemma StripCharsIsInfix(s: string, cs: set<char>)
    ensures exists a, b :: 0 <= a <= b <= |s| && StripChars(s, cs) == s[a..b]
                        && (forall k :: 0 <= k < a ==> s[k] in cs)
                        && (forall k :: b <= k < |s| ==> s[k] in cs)
  {
    var a := SkipFrom(s, cs, 0);
    var b := SkipBackTo(s, cs, a, |s|);
    assert StripChars(s, cs) == s[a..b];
  }

  // ---------------------------------------------------------------------------
  // replace, split, slices

  /** Python's `s.replace(pat, rep)`: every non-overlapping occurrence, left to right. */
  function ReplaceAll(s: string, pat: string, rep: string): string
    requires |pat| > 0
    decreases |s|
  {
    if |s| < |pat| then s
    else if s[..|pat|] == pat then rep + ReplaceAll(s[|pat|..], pat, rep)
    else [s[0]] + ReplaceAll(s[1..], pat, rep)
  }

  /** Replacing a single character by text without it leaves no occurrence of it. */
  lemma {:induction false} ReplaceCharGone(s: string, c: char, rep: string)
    requires c !in rep
    ensures c !in ReplaceAll(s, [c], rep)
    decreases |s|
  {
    if |s| >= 1 {
      ReplaceCharGone(s[1..], c, rep);
    }
  }

  /** Replacing a single character keeps every other character. */
  lemma {:induction false} ReplaceCharKeeps(s: string, c: char, rep: string, d: char)
    requires d in ReplaceAll(s, [c], rep)
    ensures d in s || d in rep
    decreases |s|
  {
    if |s| >= 1 {
      if s[..1] == [c] {
        if d !in rep { ReplaceCharKeeps(s[1..], c, rep, d); }
      } else if d != s[0] {
        ReplaceCharKeeps(s[1..], c, rep, d);
      }
    }
  }

  /** Replacing a character that does not occur changes nothing. */
  lemma {:induction false} ReplaceCharAbsent(s: string, c: char, rep: string)
    requires c !in s
    ensures ReplaceAll(s, [c], rep) == s
    decreases |s|
  {
    if |s| >= 1 {
      assert s[..1] != [c] by { assert s[..1][0] == s[0]; }
      ReplaceCharAbsent(s[1..], c, rep);
    }
  }

  /** Replacing a single character works piecewise over a concatenation. */
  lemma {:induction false} ReplaceCharConcat(a: string, b: string, c: char, rep: string)
    ensures ReplaceAll(a + b, [c], rep) == ReplaceAll(a, [c], rep) + ReplaceAll(b, [c], rep)
    decreases |a|
  {
    if |a| >= 1 {
      assert (a + b)[1..] == a[1..] + b;
      assert (a + b)[..1] == a[..1];
      ReplaceCharConcat(a[1..], b, c, rep);
      if a[..1] == [c] {
        assert ReplaceAll(a + b, [c], rep) == rep + ReplaceAll(a[1..] + b, [c], rep);
        assert ReplaceAll(a, [c], rep) == rep + ReplaceAll(a[1..], [c], rep);
      } else {
        assert ReplaceAll(a + b, [c], rep) == [a[0]] + ReplaceAll(a[1..] + b, [c], rep);
        assert ReplaceAll(a, [c], rep) == [a[0]] + ReplaceAll(a[1..], [c], rep);
      }
    } else {
      assert a + b == b;
    }
  }

  /** Deleting every occurrence of a character twice is the same as doing it once. */
  lemma ReplaceCharDeleteIdempotent(s: string, c: char)
    ensures ReplaceAll(ReplaceAll(s, [c], ""), [c], "") == ReplaceAll(s, [c], "")
  {
    ReplaceCharGone(s, c, "");
    ReplaceCharAbsent(ReplaceAll(s, [c], ""), c, "");
  }

  /** Python's `s.split(sep)` for a non-empty separator. */
  function Split(s: string, sep: string): (r: seq<string>)
    requires |sep| > 0
    ensures |r| >= 1
    decreases |s|
  {
    var i := Find(s, sep);
    if i < 0 then [s] else [s[..i]] + Split(s[i + |sep|..], sep)
  }

  /** The first field of a split is everything before the first separator. */
  lemma SplitHead(s: string, sep: string)
    requires |sep| > 0
    ensures Split(s, sep)[0] == if Find(s, sep) < 0 then s else s[..Find(s, sep)]
  {
  }

  /** The first occurrence of a character at or after j is the first index holding it. */
  lemma FindCharFrom(s: string, c: char, j: nat, k: nat)
    requires j <= k < |s| && s[k] == c
    requires forall m :: j <= m < k ==> s[m] != c
    ensures FindFrom(s, [c], j) == k
    decreases k - j
  {
    if j < k {
      assert s[j..j + 1][0] == s[j];
      FindCharFrom(s, c, j + 1, k);
    } else {
      assert s[j..j + 1] == [c];
    }
  }

  /** Splitting at a one-character separator that the first field does not contain. */
  lemma SplitAtFirst(u: string, rest: string, c: char)
    requires c !in u
    ensures Split(u + [c] + rest, [c]) == [u] + Split(rest, [c])
  {
    var s := u + [c] + rest;
    FindCharFrom(s, c, 0, |u|);
    assert s[..|u|] == u;
    assert s[|u| + 1..] == rest;
  }

  /** A string without the separator character splits into itself alone. */
  lemma SplitNoSeparator(u: string, c: char)
    requires c !in u
    ensures Split(u, [c]) == [u]
  {
    ContainsChar(u, c);
  }

  /** The first occurrence of sep at or after j is at k when sep's first character is absent from s[j..k]. */
  lemma FindSepFrom(s: string, sep: string, j: nat, k: nat)
    requires |sep| > 0 && j <= k && OccursAt(s, sep, k)
    requires forall m :: j <= m < k ==> s[m] != sep[0]
    ensures FindFrom(s, sep, j) == k
    decreases k - j
  {
    if j < k {
      assert s[j..j + |sep|][0] == s[j];
      FindSepFrom(s, sep, j + 1, k);
    }
  }

  /** Splitting at a separator whose first character the first field does not contain. */
  lemma SplitAtSep(u: string, sep: string, rest: string)
    requires |sep| > 0 && sep[0] !in u
    ensures Split(u + sep + rest, sep) == [u] + Split(rest, sep)
  {
    var s := u + sep + rest;
    assert s[|u|..|u| + |sep|] == sep;
    FindSepFrom(s, sep, 0, |u|);
    assert s[..|u|] == u;
    assert s[|u| + |sep|..] == rest;
  }

  /** A string without the separator's first character splits into itself alone. */
  lemma SplitWithoutSep(u: string, sep: string)
    requires |sep| > 0 && sep[0] !in u
    ensures Split(u, sep) == [u]
  {
    AbsentFirstChar(u, sep);
  }

  /** A needle whose first character does not occur in s does not occur in s. */
  lemma AbsentFirstChar(s: string, sub: string)
    requires |sub| > 0 && sub[0] !in s
    ensures !Contains(s, sub)
  {
    forall i | 0 <= i <= |s| - |sub| ensures !OccursAt(s, sub, i) {
      assert s[i..i + |sub|][0] == s[i];
    }
  }

  /** Python's `s[:stop]`: a negative stop counts from the end; both clamp to the bounds. */
  function SliceTo<T>(s: seq<T>, stop: int): (r: seq<T>)
    ensures |r| <= |s| && r == s[..|r|]
    ensures stop >= 0 ==> |r| == Min(stop, |s|)
  {
    if stop >= 0 then s[..Min(stop, |s|)] else s[..Max(0, |s| + stop)]
  }

  /** Python's `s[start:stop]` for start >= 0; a negative stop counts from the end. */
  function Slice<T>(s: seq<T>, start: nat, stop: int): (r: seq<T>)
    ensures |r| <= |s|
    ensures start <= stop <= |s| ==> r == s[start..stop]
    ensures 0 <= stop <= start ==> r == []
    ensures stop < 0 ==> var b := Max(0, |s| + stop); r == if start <= b then s[start..b] else []
  {
    var a := Min(start, |s|);
    var b := if stop >= 0 then Min(stop, |s|) else Max(0, |s| + stop);
    if a <= b then s[a..b] else []
  }

  // ---------------------------------------------------------------------------
  // str(int) and int(str)

  predicate IsDigit(c: char) { '0' <= c <= '9' }

  predicate AllDigits(s: string) { forall i :: 0 <= i < |s| ==> IsDigit(s[i]) }

  function DigitChar(d: nat): char
    requires d < 10
  {
    ('0' as int + d) as char
  }

  /** Python's `str(n)` for n >= 0. */
  function NatToString(n: nat): (r: string)
    ensures |r| >= 1 && AllDigits(r)
  {
    if n < 10 then [DigitChar(n)] else NatToString(n / 10) + [DigitChar(n % 10)]
  }

  /** The value of a string of decimal digits. */
  function DigitsValue(s: string): nat
    requires AllDigits(s)
  {
    if |s| == 0 then 0 else DigitsValue(s[..|s| - 1]) * 10 + (s[|s| - 1] as int - '0' as int)
  }

  lemma {:induction false} DigitsValueOfNatToString(n: nat)
    ensures DigitsValue(NatToString(n)) == n
  {
    if n >= 10 {
      var s := NatToString(n);
      assert s[..|s| - 1] == NatToString(n / 10);
      DigitsValueOfNatToString(n / 10);
    }
  }

  /** str is injective on naturals: distinct numbers get distinct strings. */
  lemma NatToStringInjective(a: nat, b: nat)
    requires NatToString(a) == NatToString(b)
    ensures a == b
  {
    DigitsValueOfNatToString(a);
    DigitsValueOfNatToString(b);
  }

  /** Python's `str(i)` for any integer. */
  function IntToString(i: int): string {
    if i >= 0 then NatToString(i) else "-" + NatToString(-i)
  }

  /**
   * Python's `int(s)` in base 10: surrounding whitespace, an optional sign and
   * one or more decimal digits; anything else raises ValueError (None here).
   */
  function ParseInt(s: string): (r: Option<int>)
    ensures r.Some? ==> |Strip(s)| > 0
  {
    var t := Strip(s);
    if |t| > 1 && (t[0] == '-' || t[0] == '+') && AllDigits(t[1..]) then
      Some(if t[0] == '-' then -(DigitsValue(t[1..]) as int) else DigitsValue(t[1..]))
    else if |t| > 0 && AllDigits(t) then Some(DigitsValue(t))
    else None
  }

  /** A lower-case hexadecimal digit. */
  function HexDigit(d: int): char
    requires 0 <= d < 16
  {
    if d < 10 then ('0' as int + d) as char else ('a' as int + d - 10) as char
  }

  /**
   * One character as Python's `repr()` writes it between `quote`s: backslash and
   * the quote escaped, \n, \r and \t by name, other ASCII control characters
   * as \xNN, everything else as itself.
   */
  function ReprChar(c: char, quote: char): string {
    if c == '\\' then "\\\\"
    else if c == quote then ['\\', c]
    else if c == '\n' then "\\n"
    else if c == '\r' then "\\r"
    else if c == '\t' then "\\t"
    else if c < ' ' || c == '\U{7F}' then "\\x" + [HexDigit(c as int / 16), HexDigit(c as int % 16)]
    else [c]
  }

  function ReprBody(s: string, quote: char): string {
    if s == [] then [] else ReprChar(s[0], quote) + ReprBody(s[1..], quote)
  }

  /** Python's `repr()` of a string: single quotes, or double quotes when only the single quote occurs in it. */
  function Repr(s: string): string {
    var quote := if '\'' in s && '"' !in s then '"' else '\'';
    [quote] + ReprBody(s, quote) + [quote]
  }

  /** A character repr() writes as itself between single quotes. */
  predicate PlainChar(c: char) {
    c != '\\' && c != '\'' && ' ' <= c && c != '\U{7F}'
  }

  /** A string of plain characters is shown as itself between single quotes. */
  lemma {:induction false} ReprPlain(s: string)
    requires forall i :: 0 <= i < |s| ==> PlainChar(s[i])
    ensures ReprBody(s, '\'') == s
    ensures Repr(s) == "'" + s + "'"
  {
    if s != [] {
      ReprPlain(s[1..]);
      assert s == [s[0]] + s[1..];
    }
  }

  function Pow10(n: nat): (r: nat)
    ensures r >= 1
  {
    if n == 0 then 1 else 10 * Pow10(n - 1)
  }

  /**
   * Python's `float(s)` on decimal notation: surrounding whitespace, an optional
   * sign, digits with at most one '.', at least one digit. Exponents, digit
   * underscores and the inf/nan spellings are outside this model.
   */
  function ParseFloat(s: string): Option<real> {
    var t := Strip(s);
    if |t| > 0 && (t[0] == '-' || t[0] == '+') then
      match ParseUnsignedDecimal(t[1..])
      case Some(m) => Some(if t[0] == '-' then -m else m)
      case None => None
    else ParseUnsignedDecimal(t)
  }

  /** Digits with at most one '.', and at least one digit. */
  function ParseUnsignedDecimal(body: string): Option<real> {
    var dot := Find(body, ".");
    var intPart := if dot < 0 then body else body[..dot];
    var fracPart := if dot < 0 then "" else body[dot + 1..];
    if !(AllDigits(intPart) && AllDigits(fracPart) && |intPart| + |fracPart| > 0) then None
    else if fracPart == "" then Some(DigitsValue(intPart) as real)
    else Some(DigitsValue(intPart) as real + DigitsValue(fracPart) as real / Pow10(|fracPart|) as real)
  }

  lemma ParseUnsignedDigits(s: string)
    requires |s| > 0 && AllDigits(s)
    ensures ParseUnsignedDecimal(s) == Some(DigitsValue(s) as real)
  {
    ContainsChar(s, '.');
    assert '.' !in s;
  }

  /** float(str(n)) == n for every natural number. */
  lemma ParseFloatOfNatToString(n: nat)
    ensures ParseFloat(NatToString(n)) == Some(n as real)
  {
    var s := NatToString(n);
    assert AllDigits(s);
    StripVisible(s);
    assert !(s[0] == '-' || s[0] == '+');
    ParseUnsignedDigits(s);
    DigitsValueOfNatToString(n);
  }

  /** int(str(i)) == i: the integer parser inverts the integer printer. */
  lemma ParseIntOfIntToString(i: int)
    ensures ParseInt(IntToString(i)) == Some(i)
  {
    var s := IntToString(i);
    if i >= 0 {
      assert AllDigits(NatToString(i));
    } else {
      assert AllDigits(NatToString(-i));
    }
    StripVisible(s);
    if i >= 0 {
      DigitsValueOfNatToString(i);
      assert !(s[0] == '-' || s[0] == '+');
    } else {
      assert s[1..] == NatToString(-i);
      DigitsValueOfNatToString(-i);
    }
  }
}
