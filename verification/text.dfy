/**
 * The few Python `str` operations the core relies on, over ASCII:
 * `lower`/`upper`, whitespace, `strip`, `split()`, `in`, `startswith`,
 * `endswith`, slicing, `join`, `str(int)` and `int(str)`.
 */
module Text {
  import opened Wrappers

  /** Characters Python's `str.isspace`, `str.split()` and regex `\s` treat as whitespace (ASCII range). */
  predicate IsSpace(c: char) {
    c == ' ' || ('\U{09}' <= c <= '\U{0D}') || ('\U{1C}' <= c <= '\U{1F}')
  }

  /** Characters regex `\w` matches (ASCII range). */
  predicate IsWordChar(c: char) {
    ('a' <= c <= 'z') || ('A' <= c <= 'Z') || ('0' <= c <= '9') || c == '_'
  }

  /** Python truthiness of an optional string: present and non-empty. */
  predicate Truthy(s: Option<string>) {
    s.Some? && s.value != ""
  }

  predicate IsDigit(c: char) {
    '0' <= c <= '9'
  }

  predicate IsAscii(s: string) {
    forall i :: 0 <= i < |s| ==> s[i] < '\U{80}'
  }

  function LowerChar(c: char): (r: char)
    ensures 'A' <= c <= 'Z' ==> r as int == c as int + 32
    ensures !('A' <= c <= 'Z') ==> r == c
  {
    if 'A' <= c <= 'Z' then (c as int + 32) as char else c
  }

  function UpperChar(c: char): (r: char)
    ensures 'a' <= c <= 'z' ==> r as int == c as int - 32
    ensures !('a' <= c <= 'z') ==> r == c
  {
    if 'a' <= c <= 'z' then (c as int - 32) as char else c
  }

  /** `s.lower()`: same length, each letter lowered, nothing else touched. */
  function Lower(s: string): (r: string)
    ensures |r| == |s|
    ensures forall i :: 0 <= i < |s| ==> r[i] == LowerChar(s[i])
  {
    seq(|s|, i requires 0 <= i < |s| => LowerChar(s[i]))
  }

  /** `s.upper()`. */
  function Upper(s: string): (r: string)
    ensures |r| == |s|
    ensures forall i :: 0 <= i < |s| ==> r[i] == UpperChar(s[i])
  {
    seq(|s|, i requires 0 <= i < |s| => UpperChar(s[i]))
  }

  /** Lowering is idempotent, so matching after `lower()` is case-insensitive. */
  lemma LowerIdempotent(s: string)
    ensures Lower(Lower(s)) == Lower(s)
  {
  }

  /** Text without capitals is its own lower case. */
  lemma LowerOfLowercase(s: string)
    requires forall i :: 0 <= i < |s| ==> !('A' <= s[i] <= 'Z')
    ensures Lower(s) == s
  {
  }

  predicate ContainsChar(s: string, c: char) {
    exists i :: 0 <= i < |s| && s[i] == c
  }

  predicate StartsWith(s: string, prefix: string) {
    |prefix| <= |s| && s[..|prefix|] == prefix
  }

  predicate EndsWith(s: string, suffix: string) {
    |suffix| <= |s| && s[|s| - |suffix|..] == suffix
  }

  /** `sub in s` for strings. */
  predicate Contains(s: string, sub: string) {
    exists i :: 0 <= i <= |s| && OccursAt(s, sub, i)
  }

  /** `sub` occurs in `s` starting at index `i`. */
  predicate OccursAt(s: string, sub: string, i: int) {
    0 <= i && i + |sub| <= |s| && s[i..i + |sub|] == sub
  }

  /** `s[:n]` for `n >= 0`. */
  function Take(s: string, n: nat): (r: string)
    ensures |r| <= n && |r| <= |s|
    ensures |r| == n || r == s
    ensures StartsWith(s, r)
  {
    if |s| <= n then s else s[..n]
  }

  /** Index of the first non-space character at or after `i` (or `|s|`). */
  function SkipSpace(s: string, i: nat): (r: nat)
    requires i <= |s|
    ensures i <= r <= |s|
    ensures forall k :: i <= k < r ==> IsSpace(s[k])
    ensures r < |s| ==> !IsSpace(s[r])
    decreases |s| - i
  {
    if i < |s| && IsSpace(s[i]) then SkipSpace(s, i + 1) else i
  }

  /** Index of the first space character at or after `i` (or `|s|`). */
  function SkipWord(s: string, i: nat): (r: nat)
    requires i <= |s|
    ensures i <= r <= |s|
    ensures forall k :: i <= k < r ==> !IsSpace(s[k])
    ensures r < |s| ==> IsSpace(s[r])
    decreases |s| - i
  {
    if i < |s| && !IsSpace(s[i]) then SkipWord(s, i + 1) else i
  }

  /** Length of the longest all-space suffix of `s`. */
  function TrailingSpace(s: string): (n: nat)
    ensures n <= |s|
    ensures forall k :: |s| - n <= k < |s| ==> IsSpace(s[k])
    ensures n < |s| ==> !IsSpace(s[|s| - n - 1])
  {
    if |s| > 0 && IsSpace(s[|s| - 1]) then
      var n := TrailingSpace(s[..|s| - 1]);
      assert forall k :: |s| - 1 - n <= k < |s| - 1 ==> s[k] == s[..|s| - 1][k];
      n + 1
    else 0
  }

  /** `r` sits at `i` in `s`, with only whitespace before and after it. */
  predicate PaddedAt(s: string, r: string, i: int) {
    && OccursAt(s, r, i)
    && (forall k :: 0 <= k < i ==> IsSpace(s[k]))
    && (forall k :: i + |r| <= k < |s| ==> IsSpace(s[k]))
  }

  /** `s.strip()`: the text between the leading and trailing whitespace. */
  function Strip(s: string): (r: string)
    ensures r == "" <==> forall k :: 0 <= k < |s| ==> IsSpace(s[k])
    ensures r != "" ==> !IsSpace(r[0]) && !IsSpace(r[|r| - 1])
    ensures Contains(s, r)
  {
    var start := SkipSpace(s, 0);
    var rest := s[start..];
    var r := rest[..|rest| - TrailingSpace(rest)];
    assert OccursAt(s, r, start);
    r
  }

  /** Stripping cuts away only whitespace: the input is its strip padded by whitespace. */
  lemma StripPadded(s: string)
    ensures exists i :: PaddedAt(s, Strip(s), i)
  {
    var start := SkipSpace(s, 0);
    var rest := s[start..];
    var r := rest[..|rest| - TrailingSpace(rest)];
    assert r == Strip(s);
    assert OccursAt(s, r, start);
    assert forall k :: start + |r| <= k < |s| ==> s[k] == rest[k - start];
    assert PaddedAt(s, r, start);
  }

  /** Text whose ends, if it has any, are not whitespace. */
  predicate Trimmed(r: string) {
    r == "" || (!IsSpace(r[0]) && !IsSpace(r[|r| - 1]))
  }

  /** Only one trimmed text sits between whitespace padding in `s`: its strip. */
  lemma StripIsUnique(s: string, r: string, i: int)
    requires PaddedAt(s, r, i) && Trimmed(r)
    ensures r == Strip(s)
  {
    var t := Strip(s);
    StripPadded(s);
    var j :| PaddedAt(s, t, j);
    if r == "" {
      assert forall k :: 0 <= k < |s| ==> IsSpace(s[k]) by {
        forall k | 0 <= k < |s| ensures IsSpace(s[k]) {
          if k >= i { assert i + |r| <= k; }
        }
      }
    } else {
      assert s[i] == r[0] && s[i + |r| - 1] == r[|r| - 1];
      assert t != "";
      assert s[j] == t[0] && s[j + |t| - 1] == t[|t| - 1];
      assert i == j;
      assert i + |r| == j + |t|;
    }
  }

  /**
   * `s.split()`: the maximal runs of non-space characters, in order.
   */
  function Words(s: string): (ws: seq<string>)
    ensures forall k :: 0 <= k < |ws| ==> ws[k] != "" && forall c :: 0 <= c < |ws[k]| ==> !IsSpace(ws[k][c])
    decreases |s|
  {
    var start := SkipSpace(s, 0);
    if start == |s| then []
    else
      var stop := SkipWord(s, start);
      [s[start..stop]] + Words(s[stop..])
  }

  /** `s.split()` is empty exactly when `s.strip()` is. */
  lemma WordsEmptyIffBlank(s: string)
    ensures Words(s) == [] <==> Strip(s) == ""
  {
  }

  /**
   * The first word `s.split()` yields is the run of non-space characters
   * that starts at the first non-space character.
   */
  lemma FirstWord(s: string)
    requires Strip(s) != ""
    ensures Words(s) != []
    ensures Words(s)[0] == s[SkipSpace(s, 0)..SkipWord(s, SkipSpace(s, 0))]
  {
  }

  /** `sep.join(parts)`. */
  function Join(parts: seq<string>, sep: string): (r: string)
    ensures |parts| == 1 ==> r == parts[0]
    ensures parts == [] ==> r == ""
  {
    if |parts| == 0 then ""
    else if |parts| == 1 then parts[0]
    else parts[0] + sep + Join(parts[1..], sep)
  }

  /** `s.split(sep)` for a single-character separator. */
  function SplitOn(s: string, sep: char): (r: seq<string>)
    ensures |r| >= 1
    decreases |s|
  {
    if exists i :: 0 <= i < |s| && s[i] == sep then
      var i := FirstIndexOf(s, sep);
      [s[..i]] + SplitOn(s[i + 1..], sep)
    else [s]
  }

  function FirstIndexOf(s: string, c: char): (i: nat)
    requires ContainsChar(s, c)
    ensures i < |s| && s[i] == c
    ensures forall k :: 0 <= k < i ==> s[k] != c
  {
    if s[0] == c then 0 else 1 + FirstIndexOf(s[1..], c)
  }

  /**
   * Splitting a newline-joined list of lines gives the lines back, as long as
   * no line itself contains the separator.
   */
  lemma {:induction false} SplitJoin(parts: seq<string>, sep: char)
    requires |parts| >= 1
    requires forall k :: 0 <= k < |parts| ==> !ContainsChar(parts[k], sep)
    ensures SplitOn(Join(parts, [sep]), sep) == parts
    decreases |parts|
  {
    if |parts| == 1 {
      assert Join(parts, [sep]) == parts[0];
    } else {
      var s := Join(parts, [sep]);
      var p := parts[0];
      assert s == p + [sep] + Join(parts[1..], [sep]);
      assert s[|p|] == sep;
      assert !ContainsChar(p, sep);
      assert forall k :: 0 <= k < |p| ==> s[k] == p[k];
      assert FirstIndexOf(s, sep) == |p|;
      assert s[..|p|] == p;
      assert s[|p| + 1..] == Join(parts[1..], [sep]);
      SplitJoin(parts[1..], sep);
      assert [parts[0]] + parts[1..] == parts;
    }
  }

  function DigitChar(d: nat): (c: char)
    requires d < 10
    ensures IsDigit(c)
  {
    ('0' as int + d) as char
  }

  function DigitValue(c: char): (d: nat)
    requires IsDigit(c)
    ensures d < 10
  {
    c as int - '0' as int
  }

  /** Decimal digits of a natural number, no leading zeros. */
  function NatToString(n: nat): (s: string)
    ensures |s| >= 1
    ensures forall k :: 0 <= k < |s| ==> IsDigit(s[k])
    ensures |s| > 1 ==> s[0] != '0'
    decreases n
  {
    if n < 10 then [DigitChar(n)]
    else NatToString(n / 10) + [DigitChar(n % 10)]
  }

  /** `str(n)` for a Python `int`. */
  function IntToString(n: int): (s: string)
  {
    if n < 0 then "-" + NatToString(-n) else NatToString(n)
  }

  /** Value of a string of digits and underscores (underscores contribute nothing). */
  function DigitsValue(s: string): nat
    requires forall k :: 0 <= k < |s| ==> IsDigit(s[k]) || s[k] == '_'
  {
    if |s| == 0 then 0
    else if s[|s| - 1] == '_' then DigitsValue(s[..|s| - 1])
    else DigitsValue(s[..|s| - 1]) * 10 + DigitValue(s[|s| - 1])
  }

  /**
   * Python's grammar for the digits of a decimal `int(str)`: digits, with
   * single underscores allowed only between two digits.
   */
  predicate WellFormedDigits(s: string) {
    && |s| >= 1
    && IsDigit(s[0]) && IsDigit(s[|s| - 1])
    && (forall k :: 0 <= k < |s| ==> IsDigit(s[k]) || s[k] == '_')
    && (forall k :: 0 <= k < |s| - 1 ==> !(s[k] == '_' && s[k + 1] == '_'))
  }

  /** `int(s)` over ASCII: surrounding whitespace, an optional sign, then digits. */
  function ParseInt(s: string): Option<int>
  {
    ParseSigned(Strip(s))
  }

  /** `int(t)` for text without surrounding whitespace. */
  function ParseSigned(t: string): Option<int>
  {
    if |t| >= 1 && (t[0] == '-' || t[0] == '+') then
      if WellFormedDigits(t[1..]) then
        var v: int := DigitsValue(t[1..]);
        Some(if t[0] == '-' then -v else v)
      else None
    else if WellFormedDigits(t) then Some(DigitsValue(t))
    else None
  }

  lemma ContainsTransitive(a: string, b: string, c: string)
    requires Contains(a, b) && Contains(b, c)
    ensures Contains(a, c)
  {
    var i :| 0 <= i <= |a| && OccursAt(a, b, i);
    var j :| 0 <= j <= |b| && OccursAt(b, c, j);
    assert 0 <= i + j && i + j + |c| <= |a|;
    var sub := a[i + j..i + j + |c|];
    forall k | 0 <= k < |c|
      ensures sub[k] == c[k]
    {
      assert c[k] == b[j + k] == a[i + j + k];
    }
    assert sub == c;
    assert OccursAt(a, c, i + j);
  }

  lemma {:induction false} DigitsValueOfNatToString(n: nat)
    ensures DigitsValue(NatToString(n)) == n
    decreases n
  {
    var s := NatToString(n);
    if n < 10 {
    } else {
      DigitsValueOfNatToString(n / 10);
      assert s[..|s| - 1] == NatToString(n / 10);
    }
  }

  /** `int(str(n)) == n`: printing a number and parsing it back gives the number. */
  lemma ParseIntOfIntToString(n: int)
    ensures ParseInt(IntToString(n)) == Some(n)
  {
    var s := IntToString(n);
    assert Strip(s) == s by {
      StripOfUnpadded(s);
    }
    if n < 0 {
      var digits := NatToString(-n);
      assert s[0] == '-' && s[1..] == digits;
      assert WellFormedDigits(digits);
      DigitsValueOfNatToString(-n);
      assert DigitsValue(s[1..]) == -n;
    } else {
      assert WellFormedDigits(s);
      DigitsValueOfNatToString(n);
    }
  }

  lemma StripOfUnpadded(s: string)
    requires |s| >= 1 && !IsSpace(s[0]) && !IsSpace(s[|s| - 1])
    ensures Strip(s) == s
  {
    assert SkipSpace(s, 0) == 0;
    assert s[0..] == s;
    assert TrailingSpace(s) == 0;
  }

  /** Stripping twice is stripping once. */
  lemma StripIdempotent(s: string)
    ensures Strip(Strip(s)) == Strip(s)
  {
    if Strip(s) != "" {
      StripOfUnpadded(Strip(s));
    }
  }

  /** Where the pieces of a three-part concatenation sit. */
  lemma ConcatParts(a: string, b: string, c: string)
    ensures StartsWith(a + b + c, a)
    ensures OccursAt(a + b + c, b, |a|)
    ensures EndsWith(a + b + c, c)
    ensures |a + b + c| == |a| + |b| + |c|
  {
    var s := a + b + c;
    assert s[..|a|] == a;
    assert s[|a|..|a| + |b|] == b;
    assert s[|s| - |c|..] == c;
  }

  /** A prefix of an occurrence occurs at the same place. */
  lemma OccursPrefix(s: string, t: string, x: string, i: int)
    requires OccursAt(s, t, i) && StartsWith(t, x)
    ensures OccursAt(s, x, i)
  {
    assert s[i..i + |x|] == s[i..i + |t|][..|x|];
  }

  /** Two texts that differ in their first character cannot occur at the same place. */
  lemma OccursFirstChar(s: string, t: string, x: string, i: int)
    requires OccursAt(s, t, i) && |t| > 0 && |x| > 0 && t[0] != x[0]
    ensures !OccursAt(s, x, i)
  {
    assert s[i] == t[0];
  }

  /** Skipping whitespace stops at the first non-space character. */
  lemma SkipSpaceTo(s: string, i: nat, j: nat)
    requires i <= j <= |s|
    requires forall k :: i <= k < j ==> IsSpace(s[k])
    requires j == |s| || !IsSpace(s[j])
    ensures SkipSpace(s, i) == j
  {
  }

  /** Skipping a word stops at the first whitespace character. */
  lemma SkipWordTo(s: string, i: nat, j: nat)
    requires i <= j <= |s|
    requires forall k :: i <= k < j ==> !IsSpace(s[k])
    requires j == |s| || IsSpace(s[j])
    ensures SkipWord(s, i) == j
  {
  }

  /** The first word of whitespace, a word, and text starting with whitespace or empty. */
  lemma FirstWordOf(lead: string, w: string, rest: string)
    requires forall k :: 0 <= k < |lead| ==> IsSpace(lead[k])
    requires w != [] && forall k :: 0 <= k < |w| ==> !IsSpace(w[k])
    requires rest == [] || IsSpace(rest[0])
    ensures Strip(lead + w + rest) != ""
    ensures Words(lead + w + rest) != [] && Words(lead + w + rest)[0] == w
  {
    var s := lead + w + rest;
    var a := |lead|;
    var b := |lead| + |w|;
    assert forall k :: 0 <= k < a ==> s[k] == lead[k];
    assert forall k :: a <= k < b ==> s[k] == w[k - a];
    assert b < |s| ==> s[b] == rest[0];
    SkipSpaceTo(s, 0, a);
    SkipWordTo(s, a, b);
    assert !IsSpace(s[a]);
    FirstWord(s);
    assert s[a..b] == w;
  }
}
