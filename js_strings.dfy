/** The JavaScript string and number primitives the timetable code relies on:
    `trim`, `toLowerCase`, `includes`, `split`, `join`, `Number(...)`,
    `toString` of an integer and `padStart(2, '0')`. */
module JsStrings {

  // ---------------------------------------------------------------------
  // trim
  // ---------------------------------------------------------------------

  /** The characters `String.prototype.trim` removes: ECMAScript WhiteSpace
      and LineTerminator code points. */
  predicate IsSpace(c: char) {
    c == '\t' || c == '\n' || c == '\U{B}' || c == '\U{C}' || c == '\r' || c == ' '
    || c == '\U{A0}' || c == '\U{1680}' || ('\U{2000}' <= c <= '\U{200A}')
    || c == '\U{2028}' || c == '\U{2029}' || c == '\U{202F}' || c == '\U{205F}'
    || c == '\U{3000}' || c == '\U{FEFF}'
  }

  /** `s.trimStart()` */
  function TrimStart(s: string): string {
    if s != [] && IsSpace(s[0]) then TrimStart(s[1..]) else s
  }

  /** `s.trimEnd()` */
  function TrimEnd(s: string): string {
    if s != [] && IsSpace(s[|s| - 1]) then TrimEnd(s[..|s| - 1]) else s
  }

  /** `trimStart` drops exactly the leading white space: what remains is a
      suffix that does not start with white space, and everything before it
      is white space. */
  lemma {:induction false} TrimStartSpec(s: string)
    ensures |TrimStart(s)| <= |s| && TrimStart(s) == s[|s| - |TrimStart(s)|..]
    ensures TrimStart(s) == [] || !IsSpace(TrimStart(s)[0])
    ensures forall i | 0 <= i < |s| - |TrimStart(s)| :: IsSpace(s[i])
  {
    if s != [] && IsSpace(s[0]) {
      TrimStartSpec(s[1..]);
      assert TrimStart(s) == TrimStart(s[1..]);
      forall i | 0 <= i < |s| - |TrimStart(s)| ensures IsSpace(s[i]) {
        if i > 0 {
          assert s[i] == s[1..][i - 1];
        }
      }
    }
  }

  /** `trimEnd` drops exactly the trailing white space. */
  lemma {:induction false} TrimEndSpec(s: string)
    ensures |TrimEnd(s)| <= |s| && TrimEnd(s) == s[..|TrimEnd(s)|]
    ensures TrimEnd(s) == [] || !IsSpace(TrimEnd(s)[|TrimEnd(s)| - 1])
    ensures forall i | |TrimEnd(s)| <= i < |s| :: IsSpace(s[i])
  {
    if s != [] && IsSpace(s[|s| - 1]) {
      TrimEndSpec(s[..|s| - 1]);
      assert TrimEnd(s) == TrimEnd(s[..|s| - 1]);
      forall i | |TrimEnd(s)| <= i < |s| ensures IsSpace(s[i]) {
        if i < |s| - 1 {
          assert s[i] == s[..|s| - 1][i];
        }
      }
    }
  }

  /** `s.trim()` */
  function Trim(s: string): string {
    TrimEnd(TrimStart(s))
  }

  /** `!s.trim()`: the string is empty or made of white space only. */
  predicate IsBlank(s: string) {
    forall i | 0 <= i < |s| :: IsSpace(s[i])
  }

  lemma BlankIffTrimEmpty(s: string)
    ensures IsBlank(s) <==> Trim(s) == ""
  {
    TrimStartSpec(s);
    TrimEndSpec(TrimStart(s));
    if !IsBlank(s) {
      var i :| 0 <= i < |s| && !IsSpace(s[i]);
      assert TrimStart(s) != [];
    }
  }

  lemma TrimNoSpace(s: string)
    requires forall i | 0 <= i < |s| :: !IsSpace(s[i])
    ensures Trim(s) == s
  {
  }

  // ---------------------------------------------------------------------
  // toLowerCase, includes, join, split
  // ---------------------------------------------------------------------

  /** Lower-casing of the ASCII and Latin-1 upper-case letters. */
  function LowerChar(c: char): char {
    if 'A' <= c <= 'Z' || ('\U{C0}' <= c <= '\U{DE}' && c != '\U{D7}') then
      (c as int + 32) as char
    else
      c
  }

  /** `s.toLowerCase()` */
  function ToLower(s: string): (r: string)
    ensures |r| == |s|
    ensures forall i | 0 <= i < |s| :: r[i] == LowerChar(s[i])
  {
    seq(|s|, i requires 0 <= i < |s| => LowerChar(s[i]))
  }

  /** Lower-casing twice is lower-casing once. */
  lemma ToLowerIdempotent(s: string)
    ensures ToLower(ToLower(s)) == ToLower(s)
  {
  }

  /** `s.includes(t)`: `t` occurs in `s` as a contiguous piece. */
  predicate Contains(s: string, t: string)
    ensures t == [] ==> Contains(s, t)
    ensures Contains(s, t) ==> |t| <= |s|
  {
    if |t| <= |s| && t == s[..|t|] then true
    else if s == [] then false
    else Contains(s[1..], t)
  }

  /** `parts.join(sep)` */
  function Join(parts: seq<string>, sep: string): (r: string)
    ensures parts == [] ==> r == []
    ensures |parts| == 1 ==> r == parts[0]
    ensures r == [] ==> forall i | 0 <= i < |parts| :: parts[i] == []
  {
    if parts == [] then ""
    else if |parts| == 1 then parts[0]
    else parts[0] + sep + Join(parts[1..], sep)
  }

  /** `s.split(sep)` for a one-character separator. */
  function Split(s: string, sep: char): (r: seq<string>)
    ensures |r| >= 1
  {
    if s == [] then [""]
    else
      var rest := Split(s[1..], sep);
      if s[0] == sep then [""] + rest else [[s[0]] + rest[0]] + rest[1..]
  }

  lemma {:induction false} SplitNoSep(s: string, sep: char)
    requires sep !in s
    ensures Split(s, sep) == [s]
  {
    if s != [] {
      SplitNoSep(s[1..], sep);
      assert [s[0]] + s[1..] == s;
    }
  }

  lemma {:induction false} SplitAtSep(a: string, sep: char, b: string)
    requires sep !in a
    ensures Split(a + [sep] + b, sep) == [a] + Split(b, sep)
  {
    if a == [] {
      assert a + [sep] + b == [sep] + b;
      assert ([sep] + b)[1..] == b;
    } else {
      assert (a + [sep] + b)[1..] == a[1..] + [sep] + b;
      SplitAtSep(a[1..], sep, b);
      assert [a[0]] + a[1..] == a;
    }
  }

  // ---------------------------------------------------------------------
  // Number(...) and integer formatting
  // ---------------------------------------------------------------------

  /** A JavaScript number as far as the timetable code needs one: an integer
      or NaN. */
  datatype Num = NaN | Int(n: int)

  /** `a < b` on numbers: false as soon as one side is NaN. */
  predicate NumLt(a: Num, b: Num) {
    a.Int? && b.Int? && a.n < b.n
  }

  /** `a <= b` on numbers: false as soon as one side is NaN. */
  predicate NumLe(a: Num, b: Num) {
    a.Int? && b.Int? && a.n <= b.n
  }

  predicate IsDigit(c: char) {
    '0' <= c <= '9'
  }

  predicate AllDigits(s: string) {
    forall i | 0 <= i < |s| :: IsDigit(s[i])
  }

  function DigitValue(c: char): nat
    requires IsDigit(c)
  {
    c as int - '0' as int
  }

  function DigitChar(d: nat): (c: char)
    requires d < 10
    ensures IsDigit(c) && DigitValue(c) == d
  {
    ('0' as int + d) as char
  }

  /** The value of a decimal numeral. */
  function DigitsValue(s: string): nat
    requires AllDigits(s)
  {
    if s == [] then 0 else 10 * DigitsValue(s[..|s| - 1]) + DigitValue(s[|s| - 1])
  }

  /** `Number(s)` for the strings the timetable code passes it: surrounding
      white space is ignored, an empty string is 0, a decimal numeral is its
      value, anything else is NaN. */
  function ToNumber(s: string): Num {
    var t := Trim(s);
    if t == "" then Int(0)
    else if AllDigits(t) then Int(DigitsValue(t))
    else NaN
  }

  /** `n.toString()` for a natural number. */
  function NatToString(n: nat): (r: string)
    ensures |r| >= 1 && AllDigits(r)
    ensures n < 10 ==> |r| == 1
    ensures 10 <= n < 100 ==> |r| == 2
  {
    if n < 10 then [DigitChar(n)] else NatToString(n / 10) + [DigitChar(n % 10)]
  }

  lemma {:induction false} NatToStringValue(n: nat)
    ensures DigitsValue(NatToString(n)) == n
  {
    if n >= 10 {
      NatToStringValue(n / 10);
      var s := NatToString(n);
      assert s[..|s| - 1] == NatToString(n / 10);
    }
  }

  /** `i.toString()` for an integer. */
  function IntToString(i: int): string {
    if i < 0 then "-" + NatToString(-i) else NatToString(i)
  }

  /** `a % b` on JavaScript numbers: the remainder of truncating division,
      which takes the sign of `a` (Dafny's `%` never goes negative). */
  function JsRem(a: int, b: int): (r: int)
    requires b > 0
    ensures a >= 0 ==> r == a % b
    ensures a < 0 ==> -b < r <= 0
  {
    if a >= 0 then a % b else -((-a) % b)
  }

  /** `s.padStart(2, '0')` */
  function PadStart2(s: string): (r: string)
    ensures |r| == if |s| >= 2 then |s| else 2
  {
    if |s| == 0 then "00" else if |s| == 1 then "0" + s else s
  }

  lemma {:induction false} LeadingZeroValue(s: string)
    requires AllDigits(s)
    ensures AllDigits("0" + s) && DigitsValue("0" + s) == DigitsValue(s)
  {
    if s != [] {
      LeadingZeroValue(s[..|s| - 1]);
      assert ("0" + s)[..|s|] == "0" + s[..|s| - 1];
    }
  }
}
