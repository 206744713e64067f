/**
 * Shared vocabulary for the halley model: option values, bytes, the C-string
 * view of a std::string, the C-locale character classes, glibc's atoi, the
 * decimal and hexadecimal text the iostreams produce, and byte-wise string
 * comparison as std::string and std::map use it.
 *
 * Every std::string is a Dafny `string` whose characters each stand for one
 * byte.  A C `char` is signed on the platforms halley targets, so a character
 * with code 128..255 is a negative `char`; the C-locale classification
 * functions answer false for all of those.
 */
module CText {

  datatype Option<T> = None | Some(value: T)

  /** An unsigned byte. */
  type Byte = b: int | 0 <= b < 256

  /** A value of C's 32-bit `int`. */
  type Int32 = i: int | -0x8000_0000 <= i < 0x8000_0000

  const CR: char := '\r'
  const LF: char := '\n'
  const CRLF: string := "\r\n"

  // ---------------------------------------------------------------------
  // C strings

  /** The text a `c_str()` pointer denotes: everything before the first NUL. */
  function CStr(s: string): (r: string)
    ensures |r| <= |s| && r == s[..|r|]
    ensures '\0' !in r
    ensures |r| < |s| ==> s[|r|] == '\0'
  {
    if s == [] || s[0] == '\0' then [] else [s[0]] + CStr(s[1..])
  }

  lemma {:induction false} CStrOfPlain(s: string)
    requires '\0' !in s
    ensures CStr(s) == s
  {
  }

  /** The character strncmp sees at position i of a C string: NUL past its end. */
  function CharAt(s: string, i: nat): (c: char)
    ensures i >= |s| ==> c == '\0'
  {
    if i < |s| then s[i] else '\0'
  }

  /** strncmp(a, b, n) == 0: the first n characters agree, up to a common NUL. */
  predicate StrnEqual(a: string, b: string, n: nat)
    decreases n
  {
    n == 0 ||
    (CharAt(a, 0) == CharAt(b, 0) &&
     (CharAt(a, 0) == '\0' || StrnEqual(a[1..], b[1..], n - 1)))
  }

  /** strncmp's equality does not depend on the order of its operands. */
  lemma {:induction false} StrnEqualSymmetric(a: string, b: string, n: nat)
    ensures StrnEqual(a, b, n) == StrnEqual(b, a, n)
    decreases n
  {
    if n > 0 && CharAt(a, 0) == CharAt(b, 0) && CharAt(a, 0) != '\0' {
      StrnEqualSymmetric(a[1..], b[1..], n - 1);
    }
  }

  /** strncmp(a, b, strlen(a)) == 0 exactly when the C string b starts with a. */
  lemma {:induction false} StrnEqualIsPrefix(a: string, b: string)
    requires '\0' !in a && '\0' !in b
    ensures StrnEqual(a, b, |a|) <==> StartsWith(b, a)
    decreases |a|
  {
    if a != [] {
      if b == [] {
        assert CharAt(b, 0) == '\0' != a[0];
      } else {
        assert '\0' !in a[1..] && '\0' !in b[1..];
        StrnEqualIsPrefix(a[1..], b[1..]);
        if StartsWith(b[1..], a[1..]) && a[0] == b[0] {
          assert b[..|a|] == [b[0]] + b[1..][..|a| - 1];
          assert a == [a[0]] + a[1..];
        }
        if StartsWith(b, a) {
          assert b[1..][..|a| - 1] == b[..|a|][1..];
        }
      }
    }
  }

  /** `pat` occurs in `s` at position i. */
  predicate OccursAt(s: string, pat: string, i: nat) {
    i + |pat| <= |s| && s[i..i + |pat|] == pat
  }

  /** strchr as an offset: the first index of c in s, or None. */
  function IndexOf(s: string, c: char): (r: Option<nat>)
    ensures r.Some? ==> r.value < |s|
  {
    if s == [] then None
    else if s[0] == c then Some(0)
    else match IndexOf(s[1..], c)
      case None => None
      case Some(k) => Some(k + 1)
  }

  /** IndexOf finds c exactly when c occurs, and then its first occurrence. */
  lemma {:induction false} IndexOfSpec(s: string, c: char)
    ensures IndexOf(s, c).None? <==> c !in s
    ensures IndexOf(s, c).Some? ==> s[IndexOf(s, c).value] == c && c !in s[..IndexOf(s, c).value]
  {
    if s != [] && s[0] != c {
      IndexOfSpec(s[1..], c);
      assert s == [s[0]] + s[1..];
      match IndexOf(s[1..], c)
      case None =>
      case Some(k) => assert s[..k + 1] == [s[0]] + s[1..][..k];
    }
  }

  /** IndexOf is the first occurrence. */
  lemma {:induction false} IndexOfFirst(s: string, c: char, k: nat)
    requires k < |s| && s[k] == c && c !in s[..k]
    ensures IndexOf(s, c) == Some(k)
    decreases k
  {
    if k > 0 {
      assert s[0] == s[..k][0];
      assert s[1..][..k - 1] == s[1..k] == s[..k][1..];
      IndexOfFirst(s[1..], c, k - 1);
    }
  }

  predicate StartsWith(s: string, prefix: string) {
    |prefix| <= |s| && s[..|prefix|] == prefix
  }

  function Repeat(c: char, n: nat): (r: string)
    ensures |r| == n && forall i :: 0 <= i < n ==> r[i] == c
  {
    if n == 0 then [] else [c] + Repeat(c, n - 1)
  }

  // ---------------------------------------------------------------------
  // C-locale character classes (ctype.h)

  predicate IsSpace(c: char) {
    c == ' ' || c == '\t' || c == '\n' || c == '\r' || c as int == 11 || c as int == 12
  }
  predicate IsDigit(c: char) { '0' <= c <= '9' }
  predicate IsUpper(c: char) { 'A' <= c <= 'Z' }
  predicate IsLower(c: char) { 'a' <= c <= 'z' }
  predicate IsAlpha(c: char) { IsUpper(c) || IsLower(c) }
  predicate IsAlnum(c: char) { IsAlpha(c) || IsDigit(c) }
  predicate IsXDigit(c: char) { IsDigit(c) || 'a' <= c <= 'f' || 'A' <= c <= 'F' }

  /** ASCII lower-casing as tolower does in the C locale. */
  function ToLower(c: char): (r: char)
    ensures IsUpper(c) ==> IsLower(r) && r as int == c as int + 32
    ensures !IsUpper(c) ==> r == c
  {
    if IsUpper(c) then (c as int + 32) as char else c
  }

  /** strcasecmp(a, b) == 0 over strings without NUL. */
  predicate EqualsIgnoreCase(a: string, b: string) {
    |a| == |b| && forall i :: 0 <= i < |a| ==> ToLower(a[i]) == ToLower(b[i])
  }

  // ---------------------------------------------------------------------
  // Chars as bytes

  /** The byte a char of a std::string holds. */
  function CharByte(c: char): (b: Byte)
  {
    (c as int) % 256
  }

  /** The C `char` value, signed. */
  function SignedChar(c: char): (v: int)
    ensures -128 <= v < 128
  {
    var b := CharByte(c);
    if b >= 128 then b - 256 else b
  }

  // ---------------------------------------------------------------------
  // Byte-wise ordering (std::string::compare, std::map key order)

  predicate StrLess(a: string, b: string)
    decreases |a|
  {
    if a == [] then b != []
    else if b == [] then false
    else if a[0] != b[0] then a[0] < b[0]
    else StrLess(a[1..], b[1..])
  }

  lemma {:induction false} StrLessIrreflexive(a: string)
    ensures !StrLess(a, a)
    decreases |a|
  {
    if a != [] { StrLessIrreflexive(a[1..]); }
  }

  lemma {:induction false} StrLessTransitive(a: string, b: string, c: string)
    requires StrLess(a, b) && StrLess(b, c)
    ensures StrLess(a, c)
    decreases |a|
  {
    if a != [] && b != [] && c != [] && a[0] == b[0] && b[0] == c[0] {
      StrLessTransitive(a[1..], b[1..], c[1..]);
    }
  }

  lemma {:induction false} StrLessTotal(a: string, b: string)
    requires a != b
    ensures StrLess(a, b) || StrLess(b, a)
    decreases |a|
  {
    if a != [] && b != [] && a[0] == b[0] {
      assert a == [a[0]] + a[1..] && b == [b[0]] + b[1..];
      StrLessTotal(a[1..], b[1..]);
    }
  }

  lemma {:induction false} StrLessAsymmetric(a: string, b: string)
    requires StrLess(a, b)
    ensures !StrLess(b, a)
    decreases |a|
  {
    if a != [] && b != [] && a[0] == b[0] {
      StrLessAsymmetric(a[1..], b[1..]);
    }
  }

  // ---------------------------------------------------------------------
  // Decimal and hexadecimal text

  /** The character of a decimal digit. */
  function DigitChar(d: nat): (c: char)
    requires d < 10
    ensures IsDigit(c) && c as int - '0' as int == d
  {
    (d + '0' as int) as char
  }

  /** The lower-case character of a hexadecimal digit. */
  function HexDigitChar(d: nat): (c: char)
    requires d < 16
    ensures IsLowerHex(c) && HexDigitValue(c) == d
  {
    if d < 10 then (d + '0' as int) as char else (d - 10 + 'a' as int) as char
  }

  predicate IsLowerHex(c: char) { IsDigit(c) || 'a' <= c <= 'f' }

  /** The digits "%u" / `operator<<` print for a natural number. */
  function NatToDecimal(n: nat): (r: string)
    ensures |r| >= 1 && forall i :: 0 <= i < |r| ==> IsDigit(r[i])
    decreases n
  {
    if n < 10 then [DigitChar(n)] else NatToDecimal(n / 10) + [DigitChar(n % 10)]
  }

  /** The text "%d" prints for an int. */
  function IntToDecimal(i: int): (r: string)
    ensures |r| >= 1
    ensures i >= 0 ==> IsDigit(r[0])
    ensures i < 0 ==> r[0] == '-'
  {
    if i < 0 then "-" + NatToDecimal(-i) else NatToDecimal(i)
  }

  /** The lower-case digits `std::hex` prints for an unsigned value. */
  function NatToHex(n: nat): (r: string)
    ensures |r| >= 1 && forall i :: 0 <= i < |r| ==> IsLowerHex(r[i])
    decreases n
  {
    if n < 16 then [HexDigitChar(n)] else NatToHex(n / 16) + [HexDigitChar(n % 16)]
  }

  /** The value of a run of decimal digits. */
  function DigitsValue(s: string): (r: nat)
    requires forall i :: 0 <= i < |s| ==> IsDigit(s[i])
    decreases |s|
  {
    if s == [] then 0
    else
      assert IsDigit(s[|s| - 1]);
      DigitsValue(s[..|s| - 1]) * 10 + (s[|s| - 1] as int - '0' as int)
  }

  /** The value of a run of lower-case hexadecimal digits. */
  function HexValue(s: string): (r: nat)
    requires forall i :: 0 <= i < |s| ==> IsLowerHex(s[i])
    decreases |s|
  {
    if s == [] then 0
    else HexValue(s[..|s| - 1]) * 16 + HexDigitValue(s[|s| - 1])
  }

  function HexDigitValue(c: char): (r: nat)
    requires IsLowerHex(c)
    ensures r < 16
  {
    if IsDigit(c) then c as int - '0' as int else c as int - 'a' as int + 10
  }

  /** The length of the longest run of decimal digits at the start of `s`. */
  function DigitRun(s: string): (n: nat)
    ensures n <= |s|
    ensures forall i :: 0 <= i < n ==> IsDigit(s[i])
    ensures n < |s| ==> !IsDigit(s[n])
  {
    if s == [] || !IsDigit(s[0]) then 0 else 1 + DigitRun(s[1..])
  }

  lemma {:induction false} DigitsValueOfDecimal(n: nat)
    ensures DigitsValue(NatToDecimal(n)) == n
    decreases n
  {
    if n >= 10 {
      var r := NatToDecimal(n);
      assert r[..|r| - 1] == NatToDecimal(n / 10);
      DigitsValueOfDecimal(n / 10);
    }
  }

  lemma {:induction false} HexValueOfHex(n: nat)
    ensures HexValue(NatToHex(n)) == n
    decreases n
  {
    if n >= 16 {
      var r := NatToHex(n);
      assert r[..|r| - 1] == NatToHex(n / 16);
      HexValueOfHex(n / 16);
    }
  }

  /** The decimal text of a number is exactly its digit run. */
  lemma {:induction false} DecimalIsDigitRun(n: nat, rest: string)
    requires rest == [] || !IsDigit(rest[0])
    ensures DigitRun(NatToDecimal(n) + rest) == |NatToDecimal(n)|
  {
    var d := NatToDecimal(n);
    DigitRunOfDigits(d, rest);
  }

  lemma {:induction false} DigitRunOfDigits(d: string, rest: string)
    requires forall i :: 0 <= i < |d| ==> IsDigit(d[i])
    requires rest == [] || !IsDigit(rest[0])
    ensures DigitRun(d + rest) == |d|
    decreases |d|
  {
    if d != [] {
      assert (d + rest)[1..] == d[1..] + rest;
      DigitRunOfDigits(d[1..], rest);
    } else {
      assert d + rest == rest;
    }
  }

  // ---------------------------------------------------------------------
  // glibc atoi: (int) strtol(s, NULL, 10)

  const LongMax: int := 0x7fff_ffff_ffff_ffff
  const LongMin: int := -0x8000_0000_0000_0000

  /** The conversion of a 64-bit long to int: the low 32 bits, two's complement. */
  function WrapInt32(x: int): (r: Int32)
    ensures (r - x) % 0x1_0000_0000 == 0
    ensures -0x8000_0000 <= x < 0x8000_0000 ==> r == x
  {
    var m := x % 0x1_0000_0000;
    if m >= 0x8000_0000 then m - 0x1_0000_0000 else m
  }

  /** strtol's saturation at the bounds of a 64-bit long. */
  function ClampLong(x: int): (r: int)
    ensures LongMin <= r <= LongMax
    ensures LongMin <= x <= LongMax ==> r == x
  {
    if x > LongMax then LongMax else if x < LongMin then LongMin else x
  }

  /** The length of the leading white space strtol skips. */
  function SpaceRun(s: string): (n: nat)
    ensures n <= |s|
    ensures forall i :: 0 <= i < n ==> IsSpace(s[i])
    ensures n < |s| ==> !IsSpace(s[n])
  {
    if s == [] || !IsSpace(s[0]) then 0 else 1 + SpaceRun(s[1..])
  }

  /** White space, then a character that is not white space. */
  lemma {:induction false} SpaceRunConcat(a: string, b: string)
    requires forall i :: 0 <= i < |a| ==> IsSpace(a[i])
    requires b == [] || !IsSpace(b[0])
    ensures SpaceRun(a + b) == |a|
    decreases |a|
  {
    if a == [] {
      assert a + b == b;
    } else {
      assert (a + b)[1..] == a[1..] + b;
      SpaceRunConcat(a[1..], b);
    }
  }

  /** What is left of s after its leading white space. */
  function SkipSpace(s: string): (r: string)
    ensures |r| <= |s| && r == s[|s| - |r|..]
    ensures forall i :: 0 <= i < |s| - |r| ==> IsSpace(s[i])
    ensures r == [] || !IsSpace(r[0])
  {
    s[SpaceRun(s)..]
  }

  /** Skipping white space in front of text that does not start with it. */
  lemma {:induction false} SkipSpaceConcat(a: string, b: string)
    requires forall i :: 0 <= i < |a| ==> IsSpace(a[i])
    requires b == [] || !IsSpace(b[0])
    ensures SkipSpace(a + b) == b
  {
    SpaceRunConcat(a, b);
    assert (a + b)[|a|..] == b;
  }

  /** SkipSpace of c[from..], where a scan from index from stopped at p. */
  lemma {:induction false} SkipSpaceFrom(c: string, from: nat, p: nat)
    requires from <= p <= |c| && forall k :: from <= k < p ==> IsSpace(c[k])
    requires p == |c| || !IsSpace(c[p])
    ensures SkipSpace(c[from..]) == c[p..]
  {
    var s := c[from..];
    assert s == c[from..p] + c[p..];
    assert forall k :: 0 <= k < p - from ==> c[from..p][k] == c[from + k];
    SkipSpaceConcat(c[from..p], c[p..]);
  }

  /** The index of the first character at or after from that is not white space. */
  method SkipSpaces(c: string, from: nat) returns (p: nat)
    requires from <= |c|
    ensures from <= p <= |c| && SkipSpace(c[from..]) == c[p..]
  {
    p := from;
    while p < |c| && IsSpace(c[p])
      invariant from <= p <= |c| && forall k :: from <= k < p ==> IsSpace(c[k])
    {
      p := p + 1;
    }
    SkipSpaceFrom(c, from, p);
  }

  /**
   * The mathematical value strtol reads: leading white space skipped, an
   * optional sign, then digits (0 without digits).
   */
  function StrtolValue(s: string): (v: int) {
    if s != [] && IsSpace(s[0]) then StrtolValue(s[1..])
    else if s != [] && (s[0] == '-' || s[0] == '+') then
      var m: int := DigitsValue(s[1..][..DigitRun(s[1..])]);
      if s[0] == '-' then -m else m
    else
      DigitsValue(s[..DigitRun(s)])
  }

  function Atoi(s: string): (r: Int32)
  {
    WrapInt32(ClampLong(StrtolValue(CStr(s))))
  }

  /** atoi reads back every int that "%d" prints. */
  lemma {:induction false} AtoiOfDecimal(i: Int32)
    ensures Atoi(IntToDecimal(i)) == i
  {
    var s := IntToDecimal(i);
    assert '\0' !in s;
    CStrOfPlain(s);
    if i < 0 {
      StrtolOfNegative(-(i as int));
    } else {
      StrtolOfNatural(i);
    }
  }

  /** strtol reads the digits "%d" prints for a natural number. */
  lemma {:induction false} StrtolOfNatural(n: nat)
    ensures StrtolValue(NatToDecimal(n)) == n
  {
    var d := NatToDecimal(n);
    DigitsValueOfDecimal(n);
    DigitRunOfDigits(d, []);
    assert d + [] == d;
    assert d[..DigitRun(d)] == d;
  }

  /** strtol reads a '-' and the digits "%d" prints for a negative number. */
  lemma {:induction false} StrtolOfNegative(n: nat)
    requires n > 0
    ensures StrtolValue("-" + NatToDecimal(n)) == -(n as int)
  {
    var d := NatToDecimal(n);
    var s := "-" + d;
    DigitsValueOfDecimal(n);
    assert s[1..] == d;
    DigitRunOfDigits(d, []);
    assert d + [] == d;
    assert s[1..][..DigitRun(s[1..])] == d;
  }
}
