/**
 * The parts of JavaScript's string semantics that the modelled code relies on:
 * white space as `trim` and `\s` see it, ASCII and Cyrillic lower-casing,
 * `indexOf`, `split` and `join` with a literal separator, and the conversions
 * between integers and decimal strings (`String(n)`, `parseInt`, `Number`).
 * Strings are sequences of Unicode scalar values.
 */
module Text {
  import opened Wrappers

  // ---------------------------------------------------------------- white space

  /** White space and line terminators as ECMAScript defines them (`trim`, `\s`). */
  predicate IsSpace(c: char) {
    c == '\t' || c == '\n' || c == '\U{000B}' || c == '\U{000C}' || c == '\r' || c == ' '
    || c == '\U{00A0}' || c == '\U{1680}' || ('\U{2000}' <= c <= '\U{200A}')
    || c == '\U{2028}' || c == '\U{2029}' || c == '\U{202F}' || c == '\U{205F}'
    || c == '\U{3000}' || c == '\U{FEFF}'
  }

  /** `s.trimStart()`: drops the leading white space and nothing else. */
  function TrimStart(s: string): (r: string)
    ensures |r| <= |s| && r == s[|s| - |r|..]
    ensures r == [] || !IsSpace(r[0])
  {
    if s != [] && IsSpace(s[0]) then TrimStart(s[1..]) else s
  }

  /** What `trimStart` drops is white space. */
  lemma {:induction false} TrimStartDropsSpace(s: string)
    ensures forall k :: 0 <= k < |s| - |TrimStart(s)| ==> IsSpace(s[k])
  {
    if s != [] && IsSpace(s[0]) {
      TrimStartDropsSpace(s[1..]);
      assert forall k :: 1 <= k < |s| ==> s[k] == s[1..][k - 1];
    }
  }

  /** `s.trimEnd()`: drops the trailing white space and nothing else. */
  function TrimEnd(s: string): (r: string)
    ensures |r| <= |s| && r == s[..|r|]
    ensures r == [] || !IsSpace(r[|r| - 1])
  {
    if s != [] && IsSpace(s[|s| - 1]) then TrimEnd(s[..|s| - 1]) else s
  }

  /** What `trimEnd` drops is white space. */
  lemma {:induction false} TrimEndDropsSpace(s: string)
    ensures forall k :: |TrimEnd(s)| <= k < |s| ==> IsSpace(s[k])
  {
    if s != [] && IsSpace(s[|s| - 1]) {
      TrimEndDropsSpace(s[..|s| - 1]);
    }
  }

  /** `s.trim()`. */
  function Trim(s: string): (r: string)
    ensures |r| <= |s|
    ensures r == [] || (!IsSpace(r[0]) && !IsSpace(r[|r| - 1]))
  {
    TrimEnd(TrimStart(s))
  }

  /** A string made only of white space trims to the empty string, and only such a string does. */
  lemma TrimEmptyIff(s: string)
    ensures Trim(s) == [] <==> forall k :: 0 <= k < |s| ==> IsSpace(s[k])
  {
    TrimStartDropsSpace(s);
    var t := TrimStart(s);
    TrimEndDropsSpace(t);
    if t != [] {
      assert t[0] == s[|s| - |t|];
    }
  }

  /** Trimming a string that has no white space at either end leaves it alone. */
  lemma TrimNoSpace(s: string)
    requires s == [] || (!IsSpace(s[0]) && !IsSpace(s[|s| - 1]))
    ensures Trim(s) == s
  {
  }

  /** The trimmed string is the slice of the original one that starts where the leading white space ends. */
  lemma TrimInside(s: string) returns (k: nat)
    ensures k + |Trim(s)| <= |s| && Trim(s) == s[k..k + |Trim(s)|]
  {
    var a := TrimStart(s);
    var b := TrimEnd(a);
    k := |s| - |a|;
    assert a == s[k..];
    assert b == a[..|b|];
    assert b == s[k..k + |b|];
  }

  /** Trimming twice is trimming once. */
  lemma TrimIdempotent(s: string)
    ensures Trim(Trim(s)) == Trim(s)
  {
    TrimNoSpace(Trim(s));
  }

  // ---------------------------------------------------------------- case

  /**
   * `toLowerCase` on one character, for the Latin and Cyrillic capitals the
   * community data holds (A-Z, А-Я, Ѐ-Џ); every other character is unchanged.
   */
  function LowerChar(c: char): (r: char)
    ensures 'A' <= c <= 'Z' ==> r as int == c as int + 32
    ensures !IsUpper(r)
    ensures !IsUpper(c) ==> r == c
  {
    if 'A' <= c <= 'Z' then (c as int + 32) as char
    else if '\U{0410}' <= c <= '\U{042F}' then (c as int + 32) as char
    else if '\U{0400}' <= c <= '\U{040F}' then (c as int + 80) as char
    else c
  }

  /** The capitals LowerChar maps. */
  predicate IsUpper(c: char) {
    ('A' <= c <= 'Z') || ('\U{0400}' <= c <= '\U{042F}')
  }

  /** `s.toLowerCase()`. */
  function Lower(s: string): (r: string)
    ensures |r| == |s|
    ensures forall k :: 0 <= k < |s| ==> r[k] == LowerChar(s[k])
  {
    seq(|s|, k requires 0 <= k < |s| => LowerChar(s[k]))
  }

  /** Lower-casing twice is lower-casing once. */
  lemma LowerIdempotent(s: string)
    ensures Lower(Lower(s)) == Lower(s)
  {
  }

  // ---------------------------------------------------------------- searching

  function StartsWith(s: string, p: string): bool {
    |p| <= |s| && s[..|p|] == p
  }

  function EndsWith(s: string, p: string): bool {
    |p| <= |s| && s[|s| - |p|..] == p
  }

  /** `pat` occurs in `s` at index `j`. */
  predicate OccursAt(s: string, pat: string, j: int) {
    0 <= j && j + |pat| <= |s| && s[j..j + |pat|] == pat
  }

  /** An occurrence of a two-character pattern names the two characters at its index. */
  lemma OccursAtPair(s: string, pat: string, j: int)
    requires |pat| == 2
    ensures OccursAt(s, pat, j) <==> 0 <= j && j + 1 < |s| && s[j] == pat[0] && s[j + 1] == pat[1]
  {
    if 0 <= j && j + 1 < |s| && s[j] == pat[0] && s[j + 1] == pat[1] {
      assert s[j..j + 2] == [s[j], s[j + 1]];
    }
    if OccursAt(s, pat, j) {
      assert s[j..j + 2][0] == s[j] && s[j..j + 2][1] == s[j + 1];
    }
  }

  /**
   * `s.indexOf(pat, from)` for a non-empty `pat`: the least index at or after
   * `from` where `pat` occurs, or -1.
   */
  function IndexOf(s: string, pat: string, from: nat): (r: int)
    requires |pat| > 0
    ensures r == -1 || (from <= r && OccursAt(s, pat, r))
    decreases |s| - from
  {
    if from + |pat| > |s| then -1
    else if s[from..from + |pat|] == pat then from
    else IndexOf(s, pat, from + 1)
  }

  /** `indexOf` finds the first occurrence: none is skipped, and -1 means there is none. */
  lemma {:induction false} IndexOfLeast(s: string, pat: string, from: nat)
    requires |pat| > 0
    ensures IndexOf(s, pat, from) == -1 ==> forall j :: from <= j ==> !OccursAt(s, pat, j)
    ensures IndexOf(s, pat, from) != -1 ==> forall j :: from <= j < IndexOf(s, pat, from) ==> !OccursAt(s, pat, j)
    decreases |s| - from
  {
    if from + |pat| <= |s| && s[from..from + |pat|] != pat {
      IndexOfLeast(s, pat, from + 1);
    }
  }

  /** `s.includes(pat)`. */
  function Contains(s: string, pat: string): (b: bool)
    ensures b <==> exists j :: OccursAt(s, pat, j)
  {
    if pat == [] then assert OccursAt(s, pat, 0); true
    else IndexOfLeast(s, pat, 0); IndexOf(s, pat, 0) != -1
  }

  // ---------------------------------------------------------------- split and join

  /** `s.split(sep)` for a non-empty literal separator. */
  function Split(s: string, sep: string): (parts: seq<string>)
    requires |sep| > 0
    ensures |parts| >= 1
    decreases |s|
  {
    var k := IndexOf(s, sep, 0);
    if k == -1 then [s] else [s[..k]] + Split(s[k + |sep|..], sep)
  }

  /** `parts.join(sep)`. */
  function Join(parts: seq<string>, sep: string): string {
    if parts == [] then ""
    else if |parts| == 1 then parts[0]
    else parts[0] + sep + Join(parts[1..], sep)
  }

  /** Joining a list of at least two parts puts the separator after the first. */
  lemma JoinCons(a: string, t: seq<string>, sep: string)
    requires |t| >= 1
    ensures Join([a] + t, sep) == a + sep + Join(t, sep)
  {
    assert ([a] + t)[1..] == t;
  }

  /** A string is the part before an occurrence, the occurrence and the part after it. */
  lemma AroundOccurrence(s: string, pat: string, k: int)
    requires OccursAt(s, pat, k)
    ensures s == s[..k] + pat + s[k + |pat|..]
  {
    assert s == s[..k] + s[k..k + |pat|] + s[k + |pat|..];
  }

  /** Splitting and joining again with the same separator gives back the string. */
  lemma {:induction false} JoinSplit(s: string, sep: string)
    requires |sep| > 0
    ensures Join(Split(s, sep), sep) == s
    decreases |s|
  {
    var k := IndexOf(s, sep, 0);
    if k != -1 {
      var rest := s[k + |sep|..];
      JoinSplit(rest, sep);
      JoinAround(s, sep, k, Split(rest, sep));
    }
  }

  /** Joining the part before an occurrence with parts that join to the rest gives back the string. */
  lemma JoinAround(s: string, sep: string, k: int, tail: seq<string>)
    requires OccursAt(s, sep, k) && |tail| >= 1 && Join(tail, sep) == s[k + |sep|..]
    ensures Join([s[..k]] + tail, sep) == s
  {
    JoinCons(s[..k], tail, sep);
    AroundOccurrence(s, sep, k);
  }

  /** No piece of a split contains the separator. */
  lemma {:induction false} SplitPartsFree(s: string, sep: string, i: nat)
    requires |sep| > 0 && i < |Split(s, sep)|
    ensures forall j :: !OccursAt(Split(s, sep)[i], sep, j)
    decreases |s|
  {
    var k := IndexOf(s, sep, 0);
    IndexOfLeast(s, sep, 0);
    if k != -1 {
      if i == 0 {
        forall j ensures !OccursAt(s[..k], sep, j) {
          if OccursAt(s[..k], sep, j) {
            assert s[..k][j..j + |sep|] == s[j..j + |sep|];
            assert OccursAt(s, sep, j);
          }
        }
      } else {
        SplitPartsFree(s[k + |sep|..], sep, i - 1);
      }
    }
  }

  // ---------------------------------------------------------------- digits and numbers

  predicate IsDigit(c: char) {
    '0' <= c <= '9'
  }

  /** `s.replace(/\D+/g, '')`, equally `s.replace(/[^\d]/g, '')`: the ASCII digits of `s`, in order. */
  function DigitsOf(s: string): (r: string)
    ensures |r| <= |s|
  {
    if s == [] then ""
    else if IsDigit(s[0]) then [s[0]] + DigitsOf(s[1..])
    else DigitsOf(s[1..])
  }

  /** `DigitsOf` keeps exactly the digits: its result is all digits, and a string of digits is kept whole. */
  lemma {:induction false} DigitsOfDigits(s: string)
    ensures forall k :: 0 <= k < |DigitsOf(s)| ==> IsDigit(DigitsOf(s)[k])
    ensures (forall k :: 0 <= k < |s| ==> IsDigit(s[k])) ==> DigitsOf(s) == s
  {
    if s != [] {
      DigitsOfDigits(s[1..]);
      if IsDigit(s[0]) {
        assert s == [s[0]] + s[1..];
      }
    }
  }

  /** The value of a decimal digit (0 for any other character). */
  function DigitValue(c: char): (v: nat)
    ensures v < 10
  {
    if IsDigit(c) then c as int - '0' as int else 0
  }

  /** The value of a string of decimal digits, most significant first. */
  function DigitsValue(d: string): nat {
    if d == [] then 0 else DigitsValue(d[..|d| - 1]) * 10 + DigitValue(d[|d| - 1])
  }

  /** The decimal digit of `n` (0..9). */
  function DigitChar(n: nat): (c: char)
    requires n < 10
    ensures IsDigit(c) && c as int - '0' as int == n
  {
    ('0' as int + n) as char
  }

  /** `String(n)` for a natural number: its decimal digits, without leading zeros. */
  function NatToString(n: nat): (s: string)
    ensures |s| >= 1 && IsDigit(s[0]) && IsDigit(s[|s| - 1])
    ensures |s| > 1 ==> s[0] != '0'
  {
    if n < 10 then [DigitChar(n)] else NatToString(n / 10) + [DigitChar(n % 10)]
  }

  /** `String(n)` is made of digits only. */
  lemma {:induction false} NatToStringDigits(n: nat)
    ensures forall k :: 0 <= k < |NatToString(n)| ==> IsDigit(NatToString(n)[k])
  {
    if n >= 10 {
      NatToStringDigits(n / 10);
    }
  }

  /** `String(i)` for an integer. */
  function IntToString(i: int): string {
    if i < 0 then "-" + NatToString(-i) else NatToString(i)
  }

  /** Reading back the decimal digits of `n` gives `n`. */
  lemma {:induction false} NatToStringValue(n: nat)
    ensures DigitsValue(NatToString(n)) == n
  {
    if n >= 10 {
      NatToStringValue(n / 10);
      var s := NatToString(n);
      assert s[..|s| - 1] == NatToString(n / 10);
    }
  }

  /** The longest prefix of `s` made of digits. */
  function LeadingDigits(s: string): (d: string)
    ensures |d| <= |s| && d == s[..|d|]
    ensures |d| < |s| ==> !IsDigit(s[|d|])
  {
    if s != [] && IsDigit(s[0]) then [s[0]] + LeadingDigits(s[1..]) else ""
  }

  /**
   * `parseInt(s, 10)`: skips leading white space, reads an optional sign and
   * the digits after it; None stands for NaN (no digit there).
   */
  function ParseInt(s: string): Option<int> {
    ParseLeadingInt(TrimStart(s))
  }

  /** The integer an optional sign and the digits after it spell at the start of `t`. */
  function ParseLeadingInt(t: string): Option<int> {
    var neg := |t| > 0 && t[0] == '-';
    var u := if |t| > 0 && (t[0] == '-' || t[0] == '+') then t[1..] else t;
    var d := LeadingDigits(u);
    var v: int := DigitsValue(d);
    if d == [] then None else Some(if neg then -v else v)
  }

  lemma {:induction false} LeadingDigitsAll(s: string)
    requires forall k :: 0 <= k < |s| ==> IsDigit(s[k])
    ensures LeadingDigits(s) == s
  {
    if s != [] { LeadingDigitsAll(s[1..]); }
  }

  /**
   * `Number(s)` for the integer forms: white space around an optional sign
   * and at least one decimal digit; a blank string is 0. Every other string is
   * None (NaN) here.
   */
  function StringToNumber(s: string): Option<int> {
    var t := Trim(s);
    if t == [] then Some(0) else SignedDigitsValue(t)
  }

  /** The integer a whole non-empty string of an optional sign and digits spells, or None. */
  function SignedDigitsValue(t: string): Option<int>
    requires t != []
  {
    var neg := t[0] == '-';
    var u := if t[0] == '-' || t[0] == '+' then t[1..] else t;
    if u != [] && forall k :: 0 <= k < |u| ==> IsDigit(u[k])
    then var v: int := DigitsValue(u); Some(if neg then -v else v)
    else None
  }

  /** A string of an optional minus sign and digits has no white space to trim at either end. */
  lemma SignedDigitsNoSpace(t: string, d: string)
    requires d != [] && forall k :: 0 <= k < |d| ==> IsDigit(d[k])
    requires t == d || t == "-" + d
    ensures TrimStart(t) == t && Trim(t) == t
  {
    assert t[0] == '-' || IsDigit(t[0]);
    assert t[|t| - 1] == d[|d| - 1];
    TrimNoSpace(t);
  }

  /** The sign and digit readers of `parseInt` and `Number` on a string of digits. */
  lemma DigitsRead(d: string)
    requires d != [] && forall k :: 0 <= k < |d| ==> IsDigit(d[k])
    ensures ParseLeadingInt(d) == Some(DigitsValue(d)) && SignedDigitsValue(d) == Some(DigitsValue(d))
  {
    assert IsDigit(d[0]);
    assert d[0] != '-' && d[0] != '+';
    LeadingDigitsAll(d);
  }

  /** The sign and digit readers of `parseInt` and `Number` on a minus sign and digits. */
  lemma MinusDigitsRead(t: string, d: string)
    requires d != [] && forall k :: 0 <= k < |d| ==> IsDigit(d[k])
    requires t == "-" + d
    ensures ParseLeadingInt(t) == Some(-(DigitsValue(d) as int))
    ensures SignedDigitsValue(t) == Some(-(DigitsValue(d) as int))
  {
    assert t[0] == '-';
    var u := t[1..];
    assert u == d;
    LeadingDigitsAll(u);
  }

  /** `parseInt` and `Number` read a string of digits as its value. */
  lemma DigitsParse(d: string)
    requires d != [] && forall k :: 0 <= k < |d| ==> IsDigit(d[k])
    ensures ParseInt(d) == Some(DigitsValue(d))
    ensures StringToNumber(d) == Some(DigitsValue(d))
  {
    SignedDigitsNoSpace(d, d);
    DigitsRead(d);
  }

  /** `parseInt` and `Number` read a minus sign and digits as the negated value. */
  lemma MinusDigitsParse(d: string)
    requires d != [] && forall k :: 0 <= k < |d| ==> IsDigit(d[k])
    ensures ParseInt("-" + d) == Some(-(DigitsValue(d) as int))
    ensures StringToNumber("-" + d) == Some(-(DigitsValue(d) as int))
  {
    SignedDigitsNoSpace("-" + d, d);
    MinusDigitsRead("-" + d, d);
  }

  /** `parseInt` reads back what `String` wrote, for every integer. */
  lemma IntToStringParses(i: int)
    ensures ParseInt(IntToString(i)) == Some(i)
  {
    var n: nat := if i < 0 then -i else i;
    NatToStringValue(n);
    NatToStringDigits(n);
    if i < 0 { MinusDigitsParse(NatToString(n)); } else { DigitsParse(NatToString(n)); }
  }

  /** `Number` reads back what `String` wrote, for every integer. */
  lemma IntToStringNumber(i: int)
    ensures StringToNumber(IntToString(i)) == Some(i)
  {
    var n: nat := if i < 0 then -i else i;
    NatToStringValue(n);
    NatToStringDigits(n);
    if i < 0 { MinusDigitsParse(NatToString(n)); } else { DigitsParse(NatToString(n)); }
  }

  // ---------------------------------------------------------------- hexadecimal

  function HexDigit(n: nat): (c: char)
    requires n < 16
  {
    if n < 10 then ('0' as int + n) as char else ('a' as int + n - 10) as char
  }

  /** `n.toString(16)` for a natural number: lower-case hex digits without leading zeros. */
  function NatToHex(n: nat): (s: string)
    ensures |s| >= 1
  {
    if n < 16 then [HexDigit(n)] else NatToHex(n / 16) + [HexDigit(n % 16)]
  }

  /** `n.toString(16)` for an integer: a minus sign before the hex digits of `|n|`. */
  function IntToHex(i: int): string {
    if i < 0 then "-" + NatToHex(-i) else NatToHex(i)
  }

  function HexValue(c: char): int {
    if '0' <= c <= '9' then c as int - '0' as int
    else if 'a' <= c <= 'f' then c as int - 'a' as int + 10
    else -1
  }

  /** The value of a string of lower-case hex digits. */
  function HexStringValue(d: string): int {
    if d == [] then 0 else HexStringValue(d[..|d| - 1]) * 16 + HexValue(d[|d| - 1])
  }

  /** Reading back the hex digits of `n` gives `n`: `toString(16)` loses nothing. */
  lemma {:induction false} NatToHexValue(n: nat)
    ensures HexStringValue(NatToHex(n)) == n
  {
    if n >= 16 {
      NatToHexValue(n / 16);
      var s := NatToHex(n);
      assert s[..|s| - 1] == NatToHex(n / 16);
    }
  }

  /** Two integers with the same `toString(16)` are equal. */
  lemma IntToHexInjective(a: int, b: int)
    requires IntToHex(a) == IntToHex(b)
    ensures a == b
  {
    var na: nat := if a < 0 then -a else a;
    var nb: nat := if b < 0 then -b else b;
    NatToHexValue(na);
    NatToHexValue(nb);
    HexNoMinus(na);
    HexNoMinus(nb);
    if a < 0 && b < 0 {
      assert NatToHex(na) == IntToHex(a)[1..];
      assert NatToHex(nb) == IntToHex(b)[1..];
    }
  }

  /** A hex string of a natural number never starts with a minus sign. */
  lemma {:induction false} HexNoMinus(n: nat)
    ensures NatToHex(n)[0] != '-'
  {
    if n >= 16 {
      HexNoMinus(n / 16);
      assert NatToHex(n)[0] == NatToHex(n / 16)[0];
    }
  }

  /** `slice(0, n)` or `substring(0, n)`: the first `n` elements, or all of them when there are fewer. */
  function Take<T>(xs: seq<T>, n: nat): (r: seq<T>)
    ensures |r| == if |xs| <= n then |xs| else n
    ensures r <= xs
  {
    if |xs| <= n then xs else xs[..n]
  }
}
