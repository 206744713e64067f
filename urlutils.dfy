/**
 * URL and line codecs of URLUtils: percent-decoding (section 2.1 of RFC 3986),
 * base64 (section 4 of RFC 4648), reading one line off a stream, and the
 * incremental query-string reader.  It also holds the HTTP token character
 * classes the header parser uses.
 */
module UrlUtils {
  import opened CText

  /** The separator characters of section 3.2.6 of RFC 7230, as listed by URLUtils. */
  const Separators: string := "()<>@,;:\\\"/[]?={} \t"

  /** isseperator: strchr over the separator list, which also finds its terminating NUL. */
  predicate IsSeparator(c: char) {
    c == '\0' || c in Separators
  }

  /** iscontrol on a signed char: DEL or 0..31; bytes 128..255 are negative and not control. */
  predicate IsControl(c: char) {
    c as int == 127 || c as int <= 31
  }

  /** The upper-case character of a hexadecimal digit. */
  function UpperHexDigitChar(d: nat): (c: char)
    requires d < 16
    ensures IsXDigit(c)
  {
    if d < 10 then (d + '0' as int) as char else (d - 10 + 'A' as int) as char
  }

  // ---------------------------------------------------------------------
  // hex2dec, Escape, Unescape

  /** The value of a hexadecimal digit of either case, or -1. */
  function HexToDec(c: char): (r: int)
    ensures -1 <= r < 16
    ensures r >= 0 <==> IsXDigit(c)
  {
    if '0' <= c <= '9' then c as int - '0' as int
    else if 'A' <= c <= 'F' then 10 + (c as int - 'A' as int)
    else if 'a' <= c <= 'f' then 10 + (c as int - 'a' as int)
    else -1
  }

  /** hex2dec inverts hexadecimal digits of either case. */
  lemma {:induction false} HexToDecOfDigit(x: nat)
    requires x < 16
    ensures HexToDec(UpperHexDigitChar(x)) == x && HexToDec(HexDigitChar(x)) == x
  {
  }

  /** Escape does not escape anything: it returns its argument. */
  function Escape(s: string): (r: string)
    ensures r == s
  {
    s
  }

  /** Whether position p of `c` starts an escape: '%' and two hexadecimal digits. */
  predicate IsEscapeAt(c: string, p: nat)
    requires p < |c|
  {
    c[p] == '%' && p + 2 < |c| && IsXDigit(c[p + 1]) && IsXDigit(c[p + 2])
  }

  /**
   * Percent-decoding of `c` from position p on: an escape stands for the
   * character 16 * h1 + h2, every other character (a stray '%' included)
   * for itself.
   */
  function DecodeFrom(c: string, p: nat): (r: string)
    requires p <= |c|
    decreases |c| - p
  {
    if p == |c| then []
    else if IsEscapeAt(c, p) then
      [(16 * HexToDec(c[p + 1]) + HexToDec(c[p + 2])) as char] + DecodeFrom(c, p + 3)
    else
      [c[p]] + DecodeFrom(c, p + 1)
  }

  function Decode(s: string): (r: string)
  {
    DecodeFrom(s, 0)
  }

  /** Text without '%' decodes to a copy of itself followed by the decoding of what comes next. */
  lemma {:induction false} DecodePlainRun(c: string, p: nat, q: nat)
    requires p <= q <= |c| && forall i :: p <= i < q ==> c[i] != '%'
    ensures DecodeFrom(c, p) == c[p..q] + DecodeFrom(c, q)
    decreases q - p
  {
    if p < q {
      assert !IsEscapeAt(c, p);
      assert DecodeFrom(c, p) == [c[p]] + DecodeFrom(c, p + 1);
      DecodePlainRun(c, p + 1, q);
      assert c[p..q] == [c[p]] + c[p + 1..q];
      AppendAssoc([c[p]], c[p + 1..q], DecodeFrom(c, q));
    }
  }

  /** No '%' in a slice means no '%' at any of its positions. */
  lemma {:induction false} NoPercentIn(c: string, p: nat, q: nat)
    requires p <= q <= |c| && '%' !in c[p..q]
    ensures forall i :: p <= i < q ==> c[i] != '%'
  {
    forall i | p <= i < q ensures c[i] != '%' {
      assert c[i] == c[p..q][i - p];
    }
  }

  lemma {:induction false} AppendAssoc(a: string, b: string, d: string)
    ensures (a + b) + d == a + (b + d)
  {
  }

  /** Unescape, as the strchr loop of URLUtils::Unescape performs it. */
  method Unescape(str: string) returns (r: string)
    ensures r == Decode(CStr(str))
  {
    r := UnescapeBuffer(CStr(str), |str|);
  }

  /**
   * The loop of Unescape over a buffer of `size` characters whose C string
   * is `c`: strchr never looks past the first NUL, so a buffer with an
   * embedded NUL ends there.
   */
  method UnescapeBuffer(c: string, size: nat) returns (r: string)
    requires |c| <= size
    ensures r == DecodeFrom(c, 0)
  {
    var pStart := 0;
    var pEnd := size;
    r := [];
    while pStart < pEnd
      invariant pStart <= |c| || pStart == pEnd
      invariant pStart <= |c| ==> r + DecodeFrom(c, pStart) == DecodeFrom(c, 0)
      invariant pStart > |c| ==> r == DecodeFrom(c, 0)
      decreases pEnd - pStart
    {
      var pos := IndexOf(c[pStart..], '%');
      if pos.None? {
        // no '%' left: copy the rest of the C string
        DecodeWithoutPercent(c, pStart);
        MovePiece(r, c[pStart..], DecodeFrom(c, pStart), DecodeFrom(c, |c|));
        r := r + c[pStart..];
        pStart := pEnd;
      } else {
        var piece, next := CopyThroughPercent(c, pStart, pos.value);
        MovePiece(r, piece, DecodeFrom(c, pStart), DecodeFrom(c, next));
        r := r + piece;
        pStart := next;
      }
    }
  }

  /**
   * One pass of the loop when strchr finds the first '%' j places after p:
   * the text before it, then the '%' step.
   */
  method CopyThroughPercent(c: string, p: nat, j: nat) returns (piece: string, next: nat)
    requires p <= |c| && IndexOf(c[p..], '%') == Some(j)
    ensures p < next <= |c| && DecodeFrom(c, p) == piece + DecodeFrom(c, next)
  {
    DecodeUpToPercent(c, p, j);
    var ch, n := DecodeAtPercent(c, p + j);
    ChainPieces(DecodeFrom(c, p), c[p..p + j], DecodeFrom(c, p + j), [ch], DecodeFrom(c, p + j + n));
    piece := c[p..p + j] + [ch];
    next := p + j + n;
  }

  /**
   * The step at a '%': two hex digits after it give one character and three
   * places skipped, anything else the '%' itself and one place.
   */
  method DecodeAtPercent(c: string, p: nat) returns (ch: char, n: nat)
    requires p < |c| && c[p] == '%'
    ensures n == (if IsEscapeAt(c, p) then 3 else 1) && p + n <= |c|
    ensures DecodeFrom(c, p) == [ch] + DecodeFrom(c, p + n)
  {
    if p + 2 < |c| && IsXDigit(c[p + 1]) && IsXDigit(c[p + 2]) {
      ch, n := (16 * HexToDec(c[p + 1]) + HexToDec(c[p + 2])) as char, 3;
    } else {
      ch, n := c[p], 1;
    }
  }

  /** What is decoded from the rest moves to the output. */
  lemma {:induction false} MovePiece(r: string, x: string, d: string, d2: string)
    requires d == x + d2
    ensures r + d == (r + x) + d2
  {
    AppendAssoc(r, x, d2);
  }

  /** Two pieces decoded one after the other form one piece. */
  lemma {:induction false} ChainPieces(d: string, x: string, d1: string, y: string, d2: string)
    requires d == x + d1 && d1 == y + d2
    ensures d == (x + y) + d2
  {
    AppendAssoc(x, y, d2);
  }

  /** When strchr finds no '%' from p on, the rest decodes to itself. */
  lemma {:induction false} DecodeWithoutPercent(c: string, p: nat)
    requires p <= |c| && IndexOf(c[p..], '%').None?
    ensures DecodeFrom(c, p) == c[p..] + DecodeFrom(c, |c|) && DecodeFrom(c, |c|) == []
  {
    IndexOfSpec(c[p..], '%');
    assert c[p..] == c[p..|c|];
    NoPercentIn(c, p, |c|);
    DecodePlainRun(c, p, |c|);
  }

  /** When strchr finds the first '%' j places after p, the text before it decodes to itself. */
  lemma {:induction false} DecodeUpToPercent(c: string, p: nat, j: nat)
    requires p <= |c| && IndexOf(c[p..], '%') == Some(j)
    ensures p + j < |c| && c[p + j] == '%'
    ensures DecodeFrom(c, p) == c[p..p + j] + DecodeFrom(c, p + j)
  {
    FirstPercentAt(c, p, j);
    DecodePlainRun(c, p, p + j);
  }

  /** strchr from p finds the first '%' j places on: no '%' before it. */
  lemma {:induction false} FirstPercentAt(c: string, p: nat, j: nat)
    requires p <= |c| && IndexOf(c[p..], '%') == Some(j)
    ensures p + j < |c| && c[p + j] == '%'
    ensures forall i :: p <= i < p + j ==> c[i] != '%'
  {
    var t := c[p..];
    IndexOfSpec(t, '%');
    forall i | p <= i < p + j ensures c[i] != '%' {
      assert c[i] == t[..j][i - p];
    }
  }

  /** A string without '%' comes back unchanged. */
  lemma {:induction false} UnescapeWithoutPercent(s: string)
    requires '%' !in s && '\0' !in s
    ensures Decode(CStr(s)) == s
  {
    CStrOfPlain(s);
    assert s[0..|s|] == s;
    NoPercentIn(s, 0, |s|);
    DecodePlainRun(s, 0, |s|);
    assert s[0..|s|] == s;
  }

  /** Decoding never makes text longer. */
  lemma {:induction false} DecodeNotLonger(c: string, p: nat)
    requires p <= |c|
    ensures |DecodeFrom(c, p)| <= |c| - p
    decreases |c| - p
  {
    if p < |c| {
      if IsEscapeAt(c, p) { DecodeNotLonger(c, p + 3); } else { DecodeNotLonger(c, p + 1); }
    }
  }

  /** Decoding from position p depends only on the text from p on. */
  lemma {:induction false} DecodeFromSuffix(a: string, b: string, p: nat)
    requires p <= |b|
    ensures DecodeFrom(a + b, |a| + p) == DecodeFrom(b, p)
    decreases |b| - p
  {
    if p < |b| {
      StepAgrees(a, b, p);
      var s, i := a + b, |a| + p;
      if IsEscapeAt(b, p) {
        DecodeFromSuffix(a, b, p + 3);
        assert DecodeFrom(s, i) == [(16 * HexToDec(s[i + 1]) + HexToDec(s[i + 2])) as char] + DecodeFrom(s, |a| + (p + 3));
      } else {
        DecodeFromSuffix(a, b, p + 1);
        assert DecodeFrom(s, i) == [s[i]] + DecodeFrom(s, |a| + (p + 1));
      }
    }
  }

  /** At the same place in b and in a + b, the same decoding step is taken. */
  lemma {:induction false} StepAgrees(a: string, b: string, p: nat)
    requires p < |b|
    ensures var s := a + b; var i := |a| + p;
      s[i] == b[p] && IsEscapeAt(s, i) == IsEscapeAt(b, p) &&
      (IsEscapeAt(b, p) ==> s[i + 1] == b[p + 1] && s[i + 2] == b[p + 2])
  {
    var s := a + b;
    var i := |a| + p;
    assert s[i] == b[p];
    if p + 2 < |b| {
      assert s[i + 1] == b[p + 1] && s[i + 2] == b[p + 2];
    }
  }

  /** Every character written as '%' and two upper-case hex digits. */
  function PercentEncodeAll(bytes: seq<Byte>): (r: string)
    ensures |r| == 3 * |bytes|
  {
    if bytes == [] then []
    else ['%', UpperHexDigitChar(bytes[0] / 16), UpperHexDigitChar(bytes[0] % 16)] + PercentEncodeAll(bytes[1..])
  }

  function BytesAsChars(bytes: seq<Byte>): (r: string)
    ensures |r| == |bytes| && forall i :: 0 <= i < |bytes| ==> r[i] as int == bytes[i]
  {
    if bytes == [] then [] else [bytes[0] as char] + BytesAsChars(bytes[1..])
  }

  /** Decoding inverts percent-encoding of any byte string. */
  lemma {:induction false} DecodePercentEncoded(bytes: seq<Byte>)
    ensures Decode(PercentEncodeAll(bytes)) == BytesAsChars(bytes)
    decreases |bytes|
  {
    if bytes != [] {
      var b := bytes[0];
      var head := ['%', UpperHexDigitChar(b / 16), UpperHexDigitChar(b % 16)];
      var tail := PercentEncodeAll(bytes[1..]);
      var e := head + tail;
      assert e == PercentEncodeAll(bytes);
      HexToDecOfDigit(b / 16);
      HexToDecOfDigit(b % 16);
      assert IsXDigit(e[1]) && IsXDigit(e[2]);
      assert IsEscapeAt(e, 0);
      DecodeFromSuffix(head, tail, 0);
      DecodePercentEncoded(bytes[1..]);
    }
  }

  // ---------------------------------------------------------------------
  // ReadTillCrLf

  /** Index of the first CR or LF of `s`, or |s| when there is none. */
  function LineEnd(s: string): (k: nat)
    ensures k <= |s| && CR !in s[..k] && LF !in s[..k]
    ensures k < |s| ==> s[k] == CR || s[k] == LF
  {
    if s == [] || s[0] == CR || s[0] == LF then 0
    else assert s[1..][..LineEnd(s[1..])] == s[1..1 + LineEnd(s[1..])]; 1 + LineEnd(s[1..])
  }

  /**
   * What ReadTillCrLf leaves: the text before the first CR or LF, and the
   * stream after the terminator and ONE MORE character, whatever that is.
   */
  function ReadTillCrLfResult(input: string): (r: (string, string))
  {
    var k := LineEnd(input);
    (input[..k], input[if k + 2 <= |input| then k + 2 else |input|..])
  }

  /** URLUtils::ReadTillCrLf over the characters the stream would deliver. */
  method ReadTillCrLf(input: string) returns (line: string, rest: string)
    ensures (line, rest) == ReadTillCrLfResult(input)
    ensures CR !in line && LF !in line && StartsWith(input, line)
  {
    var pos := 0;
    line := [];
    // get(): the next character, or end of file
    var eof := pos >= |input|;
    var ch := if eof then '\0' else input[pos];
    if !eof { pos := pos + 1; }
    while !eof && ch != CR && ch != LF
      invariant pos <= |input|
      invariant !eof ==> pos >= 1 && ch == input[pos - 1] && line == input[..pos - 1]
      invariant eof ==> pos == |input| && line == input[..pos]
      invariant CR !in line && LF !in line
      decreases |input| - pos, if eof then 0 else 1
    {
      line := line + [ch];
      eof := pos >= |input|;
      ch := if eof then '\0' else input[pos];
      if !eof { pos := pos + 1; }
    }
    // the extra get() after the terminator
    if pos < |input| { pos := pos + 1; }
    rest := input[pos..];
    assert |line| == LineEnd(input);
  }

  /** A line ended by a bare LF also loses the first character of the next line. */
  lemma ReadTillCrLfSwallowsAfterLf()
    ensures ReadTillCrLfResult("a\nbc") == ("a", "c")
  {
    var s := "a\nbc";
    LineEndAt(s, 1);
    assert s[..1] == "a" && s[3..] == "c";
  }

  /** The line ending of section 3.5 of RFC 7230's lenient reading: CRLF, or a lone CR or LF. */
  function LineTerminator(s: string, k: nat): (t: nat)
    requires k <= |s|
  {
    if k == |s| then 0
    else if s[k] == CR && k + 1 < |s| && s[k + 1] == LF then 2
    else 1
  }

  /** The intended reading: consume the terminator and nothing after it. */
  function ReadLineCorrected(input: string): (r: (string, string))
    ensures exists t :: t in ["", "\r", "\n", "\r\n"] && r.0 + t + r.1 == input
    ensures CR !in r.0 && LF !in r.0
  {
    var k := LineEnd(input);
    var n := LineTerminator(input, k);
    var t := input[k..k + n];
    assert input == input[..k] + t + input[k + n..];
    assert t == "" || t == "\r" || t == "\n" || t == "\r\n" by {
      if n == 1 { assert t == [input[k]]; }
      else if n == 2 { assert t == [input[k], input[k + 1]]; }
    }
    (input[..k], input[k + n..])
  }

  lemma ReadLineCorrectedKeepsNextLine()
    ensures ReadLineCorrected("a\nbc") == ("a", "bc")
  {
    var s := "a\nbc";
    LineEndAt(s, 1);
    assert s[..1] == "a" && s[2..] == "bc";
  }

  /** On a CRLF-terminated line both readings agree. */
  lemma {:induction false} ReadTillCrLfAgreesOnCrLf(line: string, rest: string)
    requires CR !in line && LF !in line
    ensures ReadTillCrLfResult(line + CRLF + rest) == (line, rest)
    ensures ReadLineCorrected(line + CRLF + rest) == (line, rest)
  {
    var s := line + CRLF + rest;
    assert s[..|line|] == line;
    assert s[|line|] == CR && s[|line| + 1] == LF;
    LineEndAt(s, |line|);
    assert s[|line| + 2..] == rest;
  }

  lemma {:induction false} LineEndAt(s: string, k: nat)
    requires k < |s| && (s[k] == CR || s[k] == LF) && CR !in s[..k] && LF !in s[..k]
    ensures LineEnd(s) == k
  {
    var e := LineEnd(s);
    assert forall i :: 0 <= i < k ==> s[..k][i] == s[i];
    assert e < |s|;
    assert s[..e] == s[..e];
  }

  // ---------------------------------------------------------------------
  // base64

  /** Character x of the alphabet: "A".."Z", "a".."z", "0".."9", "+", "/". */
  function AlphabetChar(x: nat): (c: char)
    requires x < 64
  {
    if x < 26 then (x + 'A' as int) as char
    else if x < 52 then (x - 26 + 'a' as int) as char
    else if x < 62 then (x - 52 + '0' as int) as char
    else if x == 62 then '+'
    else '/'
  }

  /** base64_chars[x] */
  function Base64Char(x: nat): (c: char)
    requires x < 64
  {
    AlphabetChar(x)
  }

  /** is_base64 */
  predicate IsBase64(c: char) {
    IsAlnum(c) || c == '+' || c == '/'
  }

  /** base64_chars.find(c, from): the first index at or after from that holds c, or npos. */
  function FindFrom(c: char, from: nat): (r: Option<nat>)
    requires from <= 64
    decreases 64 - from
  {
    if from == 64 then None
    else if AlphabetChar(from) == c then Some(from)
    else FindFrom(c, from + 1)
  }

  /**
   * base64_chars.find(c) as an unsigned char: the index of an alphabet
   * character, and 255 (npos truncated) for anything else.
   */
  function Base64Index(c: char): (r: nat)
  {
    match FindFrom(c, 0)
    case Some(x) => x
    case None => 255
  }

  /** The alphabet is exactly the characters is_base64 accepts, each once. */
  lemma {:induction false} AlphabetCharSpec(x: nat)
    requires x < 64
    ensures IsBase64(AlphabetChar(x))
    ensures forall y :: 0 <= y < x ==> AlphabetChar(y) != AlphabetChar(x)
  {
  }

  /** find from a position at or before the only occurrence of character x finds x. */
  lemma {:induction false} FindFromChar(x: nat, from: nat)
    requires from <= x < 64
    ensures FindFrom(AlphabetChar(x), from) == Some(x)
    decreases x - from
  {
    if from < x {
      AlphabetCharSpec(x);
      FindFromChar(x, from + 1);
    }
  }

  /** find of a character outside the alphabet gives npos. */
  lemma {:induction false} FindFromOther(c: char, from: nat)
    requires from <= 64 && !IsBase64(c)
    ensures FindFrom(c, from) == None
    decreases 64 - from
  {
    if from < 64 {
      AlphabetCharSpec(from);
      FindFromOther(c, from + 1);
    }
  }

  /** The alphabet has 64 distinct characters: find inverts indexing. */
  lemma {:induction false} Base64IndexOfChar(x: nat)
    requires x < 64
    ensures IsBase64(Base64Char(x)) && Base64Index(Base64Char(x)) == x
  {
    AlphabetCharSpec(x);
    FindFromChar(x, 0);
  }

  /** Indexing inverts find on the alphabet, and find gives 255 off it. */
  lemma {:induction false} Base64CharOfIndex(c: char)
    ensures IsBase64(c) ==> Base64Index(c) < 64 && Base64Char(Base64Index(c)) == c
    ensures !IsBase64(c) ==> Base64Index(c) == 255
  {
    if IsBase64(c) {
      var x: nat :=
        if IsUpper(c) then c as int - 'A' as int
        else if IsLower(c) then c as int - 'a' as int + 26
        else if IsDigit(c) then c as int - '0' as int + 52
        else if c == '+' then 62
        else 63;
      assert AlphabetChar(x) == c;
      Base64IndexOfChar(x);
    } else {
      FindFromOther(c, 0);
    }
  }

  /** The four 6-bit values of a 3-byte group. */
  function Sextets(b0: Byte, b1: Byte, b2: Byte): (r: seq<nat>)
    ensures |r| == 4 && r[0] < 64 && r[1] < 64 && r[2] < 64 && r[3] < 64
  {
    [b0 / 4, (b0 % 4) * 16 + b1 / 16, (b1 % 16) * 4 + b2 / 64, b2 % 64]
  }

  /** The four characters of a full group. */
  function EncodeQuad(b0: Byte, b1: Byte, b2: Byte): (r: string)
    ensures |r| == 4
  {
    var v := Sextets(b0, b1, b2);
    [Base64Char(v[0]), Base64Char(v[1]), Base64Char(v[2]), Base64Char(v[3])]
  }

  /** The full groups of three bytes, four characters each. */
  function EncodeGroups(b: seq<Byte>): (r: string)
    ensures |r| == |b| / 3 * 4
    decreases |b|
  {
    if |b| < 3 then []
    else
      GroupCountStep(|b|, 3, 4);
      EncodeQuad(b[0], b[1], b[2]) + EncodeGroups(b[3..])
  }

  /** One more group of w inputs gives k more outputs. */
  lemma {:induction false} GroupCountStep(n: nat, w: nat, k: nat)
    requires (w == 3 && k == 4) || (w == 4 && k == 3)
    requires n >= w
    ensures n / w * k == (n - w) / w * k + k
  {
    assert n / w == (n - w) / w + 1;
  }

  /** The final one or two bytes: their characters (zero-filled), then '=' padding. */
  function EncodeTail(b: seq<Byte>): (r: string)
    requires |b| < 3
  {
    if b == [] then []
    else
      var v := Sextets(b[0], if |b| > 1 then b[1] else 0, 0);
      if |b| == 1 then [Base64Char(v[0]), Base64Char(v[1]), '=', '=']
      else [Base64Char(v[0]), Base64Char(v[1]), Base64Char(v[2]), '=']
  }

  function Base64Encode(b: seq<Byte>): (r: string)
  {
    EncodeGroups(b) + EncodeTail(b[|b| / 3 * 3..])
  }

  /** URLUtils::base64_encode */
  method Base64EncodeBytes(bytes: seq<Byte>) returns (ret: string)
    ensures ret == Base64Encode(bytes)
  {
    var group;
    ret, group := EncodeFullGroups(bytes);
    EncodeGroupsWhole(bytes);
    ret := ret + EncodeTail(group);
  }

  /** The loop of base64_encode: the full groups, and the bytes left over after them. */
  method EncodeFullGroups(bytes: seq<Byte>) returns (ret: string, group: seq<Byte>)
    ensures var q := |bytes| / 3 * 3; group == bytes[q..] && ret == EncodeGroups(bytes[..q])
  {
    ret := [];
    group := [];
    var k := 0;
    ghost var start := 0;
    while k < |bytes|
      invariant start <= k <= |bytes| && start % 3 == 0 && k - start < 3
      invariant |group| == k - start && forall i :: 0 <= i < |group| ==> group[i] == bytes[start + i]
      invariant ret == EncodeGroups(bytes[..start])
    {
      group := group + [bytes[k]];
      k := k + 1;
      if |group| == 3 {
        EncodeGroupsStep(bytes, start);
        ret := ret + EncodeQuad(group[0], group[1], group[2]);
        group := [];
        start := k;
      }
    }
    LastBoundary(|bytes|, start, 3);
    assert group == bytes[start..];
  }

  /** The last group boundary at or below n. */
  lemma {:induction false} LastBoundary(n: nat, start: nat, w: nat)
    requires w == 3 || w == 4
    requires start % w == 0 && start <= n < start + w
    ensures n / w * w == start
  {
  }

  /** The full groups of a prefix ending at a group boundary, extended by the next group. */
  lemma {:induction false} EncodeGroupsStep(b: seq<Byte>, p: nat)
    requires p % 3 == 0 && p + 3 <= |b|
    ensures EncodeGroups(b[..p + 3]) == EncodeGroups(b[..p]) + EncodeQuad(b[p], b[p + 1], b[p + 2])
  {
    assert b[..p + 3] == b[..p] + [b[p], b[p + 1], b[p + 2]];
    EncodeGroupsAppend(b[..p], b[p], b[p + 1], b[p + 2]);
  }

  /** A group encodes to four alphabet characters. */
  lemma {:induction false} EncodeQuadAlphabet(b0: Byte, b1: Byte, b2: Byte)
    ensures forall i :: 0 <= i < 4 ==> IsBase64(EncodeQuad(b0, b1, b2)[i])
  {
    var v := Sextets(b0, b1, b2);
    AlphabetCharSpec(v[0]);
    AlphabetCharSpec(v[1]);
    AlphabetCharSpec(v[2]);
    AlphabetCharSpec(v[3]);
  }

  /** Three more bytes after whole groups add one group of four characters. */
  lemma {:induction false} EncodeGroupsAppend(a: seq<Byte>, x: Byte, y: Byte, z: Byte)
    requires |a| % 3 == 0
    ensures EncodeGroups(a + [x, y, z]) == EncodeGroups(a) + EncodeQuad(x, y, z)
    decreases |a|
  {
    var c := a + [x, y, z];
    if a == [] {
      assert c == [x, y, z] && c[3..] == [];
    } else {
      assert c[..3] == a[..3] && c[3..] == a[3..] + [x, y, z];
      EncodeGroupsAppend(a[3..], x, y, z);
    }
  }

  /** Dropping the bytes after the last full group does not change the full groups. */
  lemma {:induction false} EncodeGroupsWhole(b: seq<Byte>)
    ensures EncodeGroups(b[..|b| / 3 * 3]) == EncodeGroups(b)
    decreases |b|
  {
    var c := b[..|b| / 3 * 3];
    if |b| >= 3 {
      assert c[..3] == b[..3] && c[3..] == b[3..][..|b[3..]| / 3 * 3];
      EncodeGroupsWhole(b[3..]);
    }
  }

  lemma {:induction false} EncodeGroupsAlphabet(b: seq<Byte>)
    ensures forall j :: 0 <= j < |EncodeGroups(b)| ==> IsBase64(EncodeGroups(b)[j])
    decreases |b|
  {
    if |b| >= 3 {
      EncodeGroupsAlphabet(b[3..]);
      var e := EncodeQuad(b[0], b[1], b[2]);
      var r := EncodeGroups(b[3..]);
      EncodeQuadAlphabet(b[0], b[1], b[2]);
      assert EncodeGroups(b) == e + r;
      assert forall j :: 0 <= j < |e + r| ==> (e + r)[j] == if j < 4 then e[j] else r[j - 4];
    }
  }

  /** Alphabet characters followed by exactly `pad` '=' characters. */
  predicate PaddedBase64(e: string, pad: nat) {
    pad <= |e| && e[|e| - pad..] == Repeat('=', pad) &&
    forall i :: 0 <= i < |e| - pad ==> IsBase64(e[i])
  }

  /**
   * n bytes encode to 4 * ceil(n / 3) characters: alphabet characters
   * followed by the '=' padding that completes the last group of four.
   */
  lemma {:induction false} Base64EncodeShape(b: seq<Byte>)
    ensures |Base64Encode(b)| == 4 * ((|b| + 2) / 3)
    ensures PaddedBase64(Base64Encode(b), (3 - |b| % 3) % 3)
  {
    var q := |b| / 3 * 3;
    var pad := (3 - |b| % 3) % 3;
    Base64EncodeSplit(b);
    TailPad(b[q..], |b|, pad);
    EncodeGroupsAlphabet(b);
    ConcatShape(EncodeGroups(b), EncodeTail(b[q..]), pad);
  }

  /** The encoding is the full groups followed by the final group, 4 * ceil(n / 3) characters. */
  lemma {:induction false} Base64EncodeSplit(b: seq<Byte>)
    ensures var q := |b| / 3 * 3;
      |b| - q < 3 && |b[q..]| == |b| % 3 && Base64Encode(b) == EncodeGroups(b) + EncodeTail(b[q..]) &&
      |Base64Encode(b)| == 4 * ((|b| + 2) / 3)
  {
    var q := |b| / 3 * 3;
    ShapeCount(|b|);
    assert |b[q..]| == |b| % 3;
  }

  /** The final group of a sequence of n bytes carries (3 - n % 3) % 3 padding characters. */
  lemma {:induction false} TailPad(tail: seq<Byte>, n: nat, pad: nat)
    requires |tail| < 3 && |tail| == n % 3 && pad == (3 - n % 3) % 3
    ensures PaddedBase64(EncodeTail(tail), pad)
  {
    EncodeTailShape(tail);
  }

  /** Alphabet characters, then a final group of alphabet characters and padding. */
  lemma {:induction false} ConcatShape(g: string, t: string, pad: nat)
    requires forall i :: 0 <= i < |g| ==> IsBase64(g[i])
    requires PaddedBase64(t, pad)
    ensures PaddedBase64(g + t, pad)
  {
    var e := g + t;
    assert e[|e| - pad..] == t[|t| - pad..];
    forall i | 0 <= i < |e| - pad ensures IsBase64(e[i]) {
      if i < |g| { assert e[i] == g[i]; } else { assert e[i] == t[i - |g|]; }
    }
  }

  /** The final group: empty for no bytes, else alphabet characters then one '=' per missing byte. */
  lemma {:induction false} EncodeTailShape(tail: seq<Byte>)
    requires |tail| < 3
    ensures var t := EncodeTail(tail);
      |t| == (if tail == [] then 0 else 4) && PaddedBase64(t, (3 - |tail|) % 3)
  {
    if tail != [] {
      var v := Sextets(tail[0], if |tail| > 1 then tail[1] else 0, 0);
      AlphabetCharSpec(v[0]);
      AlphabetCharSpec(v[1]);
      AlphabetCharSpec(v[2]);
    }
  }

  /** n bytes make n / 3 whole groups and one more when bytes are left. */
  lemma {:induction false} ShapeCount(n: nat)
    ensures n / 3 * 4 + (if n % 3 == 0 then 0 else 4) == 4 * ((n + 2) / 3)
    ensures n - n / 3 * 3 == n % 3
  {
  }

  /** The length of the longest prefix of alphabet characters (the decoder stops at '=' too). */
  function Base64Prefix(s: string): (n: nat)
    ensures n <= |s|
  {
    if s == [] || s[0] == '=' || !IsBase64(s[0]) then 0 else 1 + Base64Prefix(s[1..])
  }

  /** The prefix holds only alphabet characters, and the character after it is outside the alphabet. */
  lemma {:induction false} Base64PrefixSpec(s: string)
    ensures forall i :: 0 <= i < Base64Prefix(s) ==> IsBase64(s[i])
    ensures Base64Prefix(s) < |s| ==> !IsBase64(s[Base64Prefix(s)])
  {
    if s != [] && s[0] != '=' && IsBase64(s[0]) {
      Base64PrefixSpec(s[1..]);
      assert forall i :: 1 <= i < Base64Prefix(s) ==> s[i] == s[1..][i - 1];
    }
  }

  /** The three bytes the decoder assembles from four values (as unsigned chars). */
  function DecodeQuad(v0: nat, v1: nat, v2: nat, v3: nat): (r: seq<Byte>)
    ensures |r| == 3
  {
    [(v0 * 4 + (v1 / 16) % 4) % 256, ((v1 % 16) * 16 + (v2 / 4) % 16) % 256, ((v2 % 4) * 64 + v3) % 256]
  }

  function DecodeChars(c0: char, c1: char, c2: char, c3: char): (r: seq<Byte>)
    ensures |r| == 3
  {
    DecodeQuad(Base64Index(c0), Base64Index(c1), Base64Index(c2), Base64Index(c3))
  }

  /** The full groups of four characters, three bytes each. */
  function DecodeGroups(t: string): (r: seq<Byte>)
    ensures |r| == |t| / 4 * 3
    decreases |t|
  {
    if |t| < 4 then []
    else
      GroupCountStep(|t|, 4, 3);
      DecodeChars(t[0], t[1], t[2], t[3]) + DecodeGroups(t[4..])
  }

  /** A trailing group of i < 4 characters gives i - 1 bytes (the missing values are find('\0')). */
  function DecodeTail(t: string): (r: seq<Byte>)
    requires |t| < 4
  {
    if |t| <= 1 then []
    else
      var q := DecodeQuad(Base64Index(t[0]), Base64Index(t[1]), if |t| > 2 then Base64Index(t[2]) else 255, 255);
      q[..|t| - 1]
  }

  function Base64Decode(s: string): (r: seq<Byte>)
  {
    var t := s[..Base64Prefix(s)];
    DecodeGroups(t) + DecodeTail(t[|t| / 4 * 4..])
  }

  /** URLUtils::base64_decode */
  method Base64DecodeString(encoded: string) returns (ret: seq<Byte>)
    ensures ret == Base64Decode(encoded)
  {
    var group;
    ret, group := DecodeFullGroups(encoded);
    ghost var t := encoded[..Base64Prefix(encoded)];
    ghost var q := |t| - |group|;
    assert t[..q] == encoded[..q] && t[q..] == group;
    DecodeSplit(t, q);
    ret := ret + DecodeTail(group);
  }

  /** The decoding of a prefix splits at its last group boundary. */
  lemma {:induction false} DecodeSplit(t: string, q: nat)
    requires q <= |t| < q + 4 && q % 4 == 0
    ensures DecodeGroups(t) + DecodeTail(t[|t| / 4 * 4..]) == DecodeGroups(t[..q]) + DecodeTail(t[q..])
  {
    LastBoundary(|t|, q, 4);
    DecodeGroupsWhole(t);
  }

  /**
   * The loop of base64_decode: the bytes of the full groups of the longest
   * alphabet prefix, and the characters of the unfinished group after them.
   */
  method DecodeFullGroups(encoded: string) returns (ret: seq<Byte>, group: string)
    ensures var k := Base64Prefix(encoded);
      |group| < 4 && |group| <= k && (k - |group|) % 4 == 0 &&
      group == encoded[k - |group|..k] && ret == DecodeGroups(encoded[..k - |group|])
  {
    ret := [];
    group := [];
    var k := 0;
    ghost var start := 0;
    while k < |encoded| && encoded[k] != '=' && IsBase64(encoded[k])
      invariant start <= k <= Base64Prefix(encoded) && start % 4 == 0 && k - start < 4
      invariant group == encoded[start..k]
      invariant ret == DecodeGroups(encoded[..start])
    {
      PrefixContinues(encoded, k);
      SliceExtend(encoded, start, k);
      group := group + [encoded[k]];
      k := k + 1;
      if |group| == 4 {
        DecodeGroupsStep(encoded, start);
        ret := ret + DecodeChars(group[0], group[1], group[2], group[3]);
        group := [];
        start := k;
      }
    }
    PrefixStops(encoded, k);
  }

  /** A slice grows by the next element. */
  lemma {:induction false} SliceExtend<T>(s: seq<T>, i: nat, k: nat)
    requires i <= k < |s|
    ensures s[i..k + 1] == s[i..k] + [s[k]]
  {
  }

  /** The alphabet prefix ends at the first '=' or other character outside the alphabet. */
  lemma {:induction false} PrefixStops(s: string, k: nat)
    requires k <= Base64Prefix(s)
    requires k == |s| || s[k] == '=' || !IsBase64(s[k])
    ensures Base64Prefix(s) == k
  {
    Base64PrefixSpec(s);
    if k < Base64Prefix(s) {
      assert false;
    }
  }

  /** An alphabet character at k, within the alphabet prefix, extends it past k. */
  lemma {:induction false} PrefixContinues(s: string, k: nat)
    requires k <= Base64Prefix(s) && k < |s| && IsBase64(s[k])
    ensures k < Base64Prefix(s)
  {
    Base64PrefixSpec(s);
  }

  /** The full groups of a prefix ending at a group boundary, extended by the next group. */
  lemma {:induction false} DecodeGroupsStep(s: string, p: nat)
    requires p % 4 == 0 && p + 4 <= |s|
    ensures DecodeGroups(s[..p + 4]) == DecodeGroups(s[..p]) + DecodeChars(s[p], s[p + 1], s[p + 2], s[p + 3])
  {
    assert s[..p + 4] == s[..p] + [s[p], s[p + 1], s[p + 2], s[p + 3]];
    DecodeGroupsAppend(s[..p], s[p], s[p + 1], s[p + 2], s[p + 3]);
  }

  /** Four more characters after whole groups add one group of three bytes. */
  lemma {:induction false} DecodeGroupsAppend(a: string, c0: char, c1: char, c2: char, c3: char)
    requires |a| % 4 == 0
    ensures DecodeGroups(a + [c0, c1, c2, c3]) == DecodeGroups(a) + DecodeChars(c0, c1, c2, c3)
    decreases |a|
  {
    var c := a + [c0, c1, c2, c3];
    if a == [] {
      assert c == [c0, c1, c2, c3] && c[4..] == [];
    } else {
      assert c[..4] == a[..4] && c[4..] == a[4..] + [c0, c1, c2, c3];
      DecodeGroupsAppend(a[4..], c0, c1, c2, c3);
    }
  }

  /** Dropping the characters after the last full group does not change the full groups. */
  lemma {:induction false} DecodeGroupsWhole(t: string)
    ensures DecodeGroups(t[..|t| / 4 * 4]) == DecodeGroups(t)
    decreases |t|
  {
    var c := t[..|t| / 4 * 4];
    if |t| >= 4 {
      assert c[..4] == t[..4] && c[4..] == t[4..][..|t[4..]| / 4 * 4];
      DecodeGroupsWhole(t[4..]);
    }
  }

  lemma {:induction false} PrefixIsBase64Prefix(s: string, k: nat)
    requires k <= |s| && forall i :: 0 <= i < k ==> IsBase64(s[i])
    requires k < |s| ==> s[k] == '=' || !IsBase64(s[k])
    ensures Base64Prefix(s) == k
    decreases k
  {
    if k > 0 {
      assert forall i :: 0 <= i < k - 1 ==> s[1..][i] == s[i + 1];
      PrefixIsBase64Prefix(s[1..], k - 1);
    }
  }

  lemma {:induction false} DecodeQuadOfSextets(b0: Byte, b1: Byte, b2: Byte)
    ensures var v := Sextets(b0, b1, b2); DecodeQuad(v[0], v[1], v[2], v[3]) == [b0, b1, b2]
  {
    assert Sextets(b0, b1, b2) == [b0 / 4, (b0 % 4) * 16 + b1 / 16, (b1 % 16) * 4 + b2 / 64, b2 % 64];
    QuadValues(b0, b1, b2);
  }

  /** The values of a full group decode back to its three bytes. */
  lemma {:induction false} QuadValues(b0: Byte, b1: Byte, b2: Byte)
    ensures DecodeQuad(b0 / 4, (b0 % 4) * 16 + b1 / 16, (b1 % 16) * 4 + b2 / 64, b2 % 64) == [b0, b1, b2]
  {
    var v0, v1, v2, v3 := b0 / 4, (b0 % 4) * 16 + b1 / 16, (b1 % 16) * 4 + b2 / 64, b2 % 64;
    JoinFirst(b0, b1, v0, v1);
    HighLow(b0 % 4, b1 / 16, 16);
    HighLow(b1 % 16, b2 / 64, 4);
    JoinSecond(b1, v1, v2);
    JoinThird(b1, b2, v2, v3);
  }

  /** The first decoded byte is the first byte again: its high six bits and its low two. */
  lemma {:induction false} JoinFirst(b0: int, b1: int, v0: int, v1: int)
    requires 0 <= b0 < 256 && 0 <= b1 < 256
    requires v0 == b0 / 4 && v1 == (b0 % 4) * 16 + b1 / 16
    ensures (v0 * 4 + (v1 / 16) % 4) % 256 == b0
  {
    HighLow(b0 % 4, b1 / 16, 16);
  }

  /** The second decoded byte: its high four bits from the second value, its low four from the third. */
  lemma {:induction false} JoinSecond(b1: int, v1: int, v2: int)
    requires 0 <= b1 < 256 && v1 % 16 == b1 / 16 && v2 / 4 == b1 % 16
    ensures ((v1 % 16) * 16 + (v2 / 4) % 16) % 256 == b1
  {
  }

  /** The third decoded byte: its high two bits from the third value, its low six from the fourth. */
  lemma {:induction false} JoinThird(b1: int, b2: int, v2: int, v3: int)
    requires 0 <= b1 < 256 && 0 <= b2 < 256
    requires v2 == (b1 % 16) * 4 + b2 / 64 && v3 == b2 % 64
    ensures ((v2 % 4) * 64 + v3) % 256 == b2
  {
    HighLow(b1 % 16, b2 / 64, 4);
  }

  /** A value made of a high part and a low part below w splits back into them. */
  lemma {:induction false} HighLow(hi: nat, lo: nat, w: nat)
    requires w == 4 || w == 16
    requires lo < w
    ensures (hi * w + lo) / w == hi && (hi * w + lo) % w == lo
  {
  }

  lemma {:induction false} DecodeEncodeQuad(b0: Byte, b1: Byte, b2: Byte)
    ensures var e := EncodeQuad(b0, b1, b2); DecodeChars(e[0], e[1], e[2], e[3]) == [b0, b1, b2]
  {
    var v := Sextets(b0, b1, b2);
    Base64IndexOfChar(v[0]);
    Base64IndexOfChar(v[1]);
    Base64IndexOfChar(v[2]);
    Base64IndexOfChar(v[3]);
    DecodeQuadOfSextets(b0, b1, b2);
  }

  /** A group of four characters in front adds its three bytes in front. */
  lemma {:induction false} DecodeGroupsCons(g: string, rest: string)
    requires |g| == 4
    ensures DecodeGroups(g + rest) == DecodeChars(g[0], g[1], g[2], g[3]) + DecodeGroups(rest)
  {
    var t := g + rest;
    assert t[0] == g[0] && t[1] == g[1] && t[2] == g[2] && t[3] == g[3];
    assert t[4..] == rest;
  }

  /** The encoded full groups of b, followed by fewer than four characters, decode to b's full groups. */
  lemma {:induction false} DecodeEncodeGroups(b: seq<Byte>, r: string)
    requires |r| < 4
    ensures DecodeGroups(EncodeGroups(b) + r) == b[..|b| / 3 * 3]
    decreases |b|
  {
    if |b| < 3 {
      assert EncodeGroups(b) + r == r;
    } else {
      var e := EncodeQuad(b[0], b[1], b[2]);
      assert EncodeGroups(b) + r == e + (EncodeGroups(b[3..]) + r);
      DecodeGroupsCons(e, EncodeGroups(b[3..]) + r);
      DecodeEncodeQuad(b[0], b[1], b[2]);
      DecodeEncodeGroups(b[3..], r);
      WholeGroupsSplit(b);
    }
  }

  /** The whole groups of b are its first group followed by the whole groups of the rest. */
  lemma {:induction false} WholeGroupsSplit(b: seq<Byte>)
    requires |b| >= 3
    ensures b[..|b| / 3 * 3] == [b[0], b[1], b[2]] + b[3..][..|b[3..]| / 3 * 3]
  {
    var q := |b| / 3 * 3;
    assert |b[3..]| / 3 * 3 == q - 3;
    assert b[..q] == [b[0], b[1], b[2]] + b[3..q];
    assert b[3..][..q - 3] == b[3..q];
  }

  /** Two or three alphabet characters at the end decode through their indices, the rest taken as 255. */
  lemma {:induction false} DecodeTailOfChars(v0: nat, v1: nat, v2: nat, n: nat)
    requires v0 < 64 && v1 < 64 && v2 < 64 && (n == 2 || n == 3)
    ensures var t := [Base64Char(v0), Base64Char(v1), Base64Char(v2)][..n];
      (forall i :: 0 <= i < n ==> IsBase64(t[i])) &&
      DecodeTail(t) == DecodeQuad(v0, v1, if n == 3 then v2 else 255, 255)[..n - 1]
  {
    Base64IndexOfChar(v0);
    Base64IndexOfChar(v1);
    Base64IndexOfChar(v2);
  }

  /** The values of a final group of one byte decode back to the byte. */
  lemma {:induction false} TailOneValues(b0: Byte)
    ensures DecodeQuad(b0 / 4, (b0 % 4) * 16, 255, 255)[..1] == [b0]
  {
    JoinFirst(b0, 0, b0 / 4, (b0 % 4) * 16);
  }

  /** The values of a final group of two bytes decode back to the bytes. */
  lemma {:induction false} TailTwoValues(b0: Byte, b1: Byte)
    ensures DecodeQuad(b0 / 4, (b0 % 4) * 16 + b1 / 16, (b1 % 16) * 4, 255)[..2] == [b0, b1]
  {
    var v0, v1, v2 := b0 / 4, (b0 % 4) * 16 + b1 / 16, (b1 % 16) * 4;
    JoinFirst(b0, b1, v0, v1);
    HighLow(b0 % 4, b1 / 16, 16);
    HighLow(b1 % 16, 0, 4);
    JoinSecond(b1, v1, v2);
  }

  /** A final group of one byte: two characters, two '=', and back to the byte. */
  lemma {:induction false} DecodeTailOne(b0: Byte)
    ensures var e := EncodeTail([b0]);
      IsBase64(e[0]) && IsBase64(e[1]) && e[2] == '=' && DecodeTail(e[..2]) == [b0]
  {
    var v0, v1 := b0 / 4, (b0 % 4) * 16;
    assert Sextets(b0, 0, 0)[..2] == [v0, v1];
    var e := EncodeTail([b0]);
    assert e == [Base64Char(v0), Base64Char(v1), '=', '='];
    DecodeTailOfChars(v0, v1, 0, 2);
    assert e[..2] == [Base64Char(v0), Base64Char(v1), Base64Char(0)][..2];
    TailOneValues(b0);
  }

  /** A final group of two bytes: three characters, one '=', and back to the bytes. */
  lemma {:induction false} DecodeTailTwo(b0: Byte, b1: Byte)
    ensures var e := EncodeTail([b0, b1]);
      IsBase64(e[0]) && IsBase64(e[1]) && IsBase64(e[2]) && e[3] == '=' && DecodeTail(e[..3]) == [b0, b1]
  {
    var v0, v1, v2 := b0 / 4, (b0 % 4) * 16 + b1 / 16, (b1 % 16) * 4;
    assert Sextets(b0, b1, 0)[..3] == [v0, v1, v2];
    var e := EncodeTail([b0, b1]);
    assert e == [Base64Char(v0), Base64Char(v1), Base64Char(v2), '='];
    DecodeTailOfChars(v0, v1, v2, 3);
    assert e[..3] == [Base64Char(v0), Base64Char(v1), Base64Char(v2)][..3];
    TailTwoValues(b0, b1);
  }

  lemma {:induction false} DecodeEncodeTail(tail: seq<Byte>)
    requires 1 <= |tail| < 3
    ensures var e := EncodeTail(tail); var n := |tail| + 1;
      (forall i :: 0 <= i < n ==> IsBase64(e[..n][i])) && e[n..][0] == '=' && DecodeTail(e[..n]) == tail
  {
    if |tail| == 1 {
      assert tail == [tail[0]];
      DecodeTailOne(tail[0]);
    } else {
      assert tail == [tail[0], tail[1]];
      DecodeTailTwo(tail[0], tail[1]);
    }
  }

  /** The decoder inverts the encoder on every byte string. */
  lemma {:induction false} Base64RoundTrip(b: seq<Byte>)
    ensures Base64Decode(Base64Encode(b)) == b
  {
    if |b| / 3 * 3 == |b| {
      RoundTripWholeGroups(b);
    } else {
      RoundTripWithTail(b);
    }
  }

  /** The round trip when the bytes fill whole groups: no padding. */
  lemma {:induction false} RoundTripWholeGroups(b: seq<Byte>)
    requires |b| / 3 * 3 == |b|
    ensures Base64Decode(Base64Encode(b)) == b
  {
    var g := EncodeGroups(b);
    EncodeGroupsAlphabet(b);
    assert Base64Encode(b) == g + [] + [];
    WholeQuads(|b| / 3);
    DecodeAlphabetRun(g, [], []);
    DecodeEncodeGroups(b, []);
    assert b[..|b| / 3 * 3] == b;
  }

  /** The round trip when one or two bytes are left over: a padded final group. */
  lemma {:induction false} RoundTripWithTail(b: seq<Byte>)
    requires |b| / 3 * 3 < |b|
    ensures Base64Decode(Base64Encode(b)) == b
  {
    var q := |b| / 3 * 3;
    var u := EncodeTail(b[q..])[..|b| - q + 1];
    DecodePaddedEncoding(b);
    DecodeEncodeGroups(b, u);
    SplitAt(b, q);
  }

  lemma {:induction false} SplitAt<T>(s: seq<T>, k: nat)
    requires k <= |s|
    ensures s[..k] + s[k..] == s
  {
  }

  /** Decoding an encoding with a padded final group: the whole groups, then the final one. */
  lemma {:induction false} DecodePaddedEncoding(b: seq<Byte>)
    requires |b| / 3 * 3 < |b|
    ensures var q := |b| / 3 * 3; var u := EncodeTail(b[q..])[..|b| - q + 1];
      |u| < 4 && Base64Decode(Base64Encode(b)) == DecodeGroups(EncodeGroups(b) + u) + b[q..]
  {
    var q := |b| / 3 * 3;
    var g := EncodeGroups(b);
    var tail := b[q..];
    EncodeGroupsAlphabet(b);
    var n := |tail| + 1;
    var t := EncodeTail(tail);
    DecodeEncodeTail(tail);
    assert Base64Encode(b) == g + t[..n] + t[n..];
    WholeQuads(|b| / 3);
    DecodeAlphabetRun(g, t[..n], t[n..]);
  }

  /** Whole groups of characters come in fours. */
  lemma {:induction false} WholeQuads(k: nat)
    ensures (k * 4) % 4 == 0
  {
  }

  /**
   * Whole groups of alphabet characters, then fewer than four more, then
   * the end or '=': the decoder reads the groups and then the short group.
   */
  lemma {:induction false} DecodeAlphabetRun(g: string, u: string, rest: string)
    requires |g| % 4 == 0 && |u| < 4
    requires forall i :: 0 <= i < |g| ==> IsBase64(g[i])
    requires forall i :: 0 <= i < |u| ==> IsBase64(u[i])
    requires rest == [] || rest[0] == '='
    ensures Base64Decode(g + u + rest) == DecodeGroups(g + u) + DecodeTail(u)
  {
    var s := g + u + rest;
    var k := |g| + |u|;
    forall i | 0 <= i < k ensures IsBase64(s[i]) {
      if i < |g| { assert s[i] == g[i]; } else { assert s[i] == u[i - |g|]; }
    }
    PrefixIsBase64Prefix(s, k);
    assert s[..k] == g + u;
    LastBoundary(k, |g|, 4);
    assert (g + u)[|g|..] == u;
  }

  /** Decoding stops at the first character outside the alphabet and ignores the rest. */
  lemma {:induction false} Base64DecodeStopsAtNonAlphabet(p: string, c: char, rest: string)
    requires forall i :: 0 <= i < |p| ==> IsBase64(p[i])
    requires !IsBase64(c)
    ensures Base64Decode(p + [c] + rest) == Base64Decode(p)
  {
    var s := p + [c] + rest;
    PrefixIsBase64Prefix(s, |p|);
    PrefixIsBase64Prefix(p, |p|);
    assert s[..|p|] == p;
    assert p[..|p|] == p;
  }

  // ---------------------------------------------------------------------
  // ExtractNextQuery

  /** The first index at or after `p` that is neither white space nor '&'. */
  function SkipSpaceAndAmp(text: string, p: nat): (q: nat)
    requires p <= |text|
    ensures p <= q <= |text|
    ensures forall i :: p <= i < q ==> IsSpace(text[i]) || text[i] == '&'
    ensures q < |text| ==> !IsSpace(text[q]) && text[q] != '&'
    decreases |text| - p
  {
    if p == |text| || !(IsSpace(text[p]) || text[p] == '&') then p else SkipSpaceAndAmp(text, p + 1)
  }

  /** What one call of ExtractNextQuery finds from a position of the text. */
  datatype QueryStep =
    | NoQuery(stop: nat)                                  // false; the pointer is left at stop
    | Query(name: string, value: string, next: Option<nat>) // true; the pointer moves to next

  /**
   * The step from position `start`: skip white space and '&', take the
   * name up to the first '=' and the value up to the following '&' (or the
   * end), both percent-decoded; the pointer moves to that '&', or to NULL.
   */
  function NextQuery(text: string, start: nat): (r: QueryStep)
    requires start <= |text|
  {
    var s := SkipSpaceAndAmp(text, start);
    if s == |text| then NoQuery(s)
    else match IndexOf(text[s..], '=')
      case None => NoQuery(s)
      case Some(k) =>
        var e := s + k;
        match IndexOf(text[e + 1..], '&')
          case None => Query(Decode(text[s..e]), Decode(text[e + 1..]), None)
          case Some(m) => Query(Decode(text[s..e]), Decode(text[e + 1..e + 1 + m]), Some(e + 1 + m))
  }

  /**
   * URLUtils::ExtractNextQuery over the NUL-terminated text `text`, with the
   * in/out pointer `query` as an offset (None for NULL).  On failure the
   * name and value keep their previous contents.
   */
  method ExtractNextQuery(text: string, query: Option<nat>, qName: string, qValue: string)
    returns (ok: bool, next: Option<nat>, name: string, value: string)
    requires '\0' !in text
    requires query.Some? ==> query.value <= |text|
    ensures query.None? ==> !ok && next == None && name == qName && value == qValue
    ensures query.Some? && ok ==> NextQuery(text, query.value) == Query(name, value, next)
    ensures query.Some? && !ok ==>
      next.Some? && NextQuery(text, query.value) == NoQuery(next.value) && name == qName && value == qValue
  {
    name, value := qName, qValue;
    if query.None? {
      return false, None, name, value;
    }
    var p := SkipSeparators(text, query.value);
    if p == |text| {
      return false, Some(p), name, value;
    }
    var eqPos := IndexOf(text[p..], '=');
    if eqPos.None? {
      return false, Some(p), name, value;
    }
    name, value, next := ExtractPair(text, p, eqPos.value);
    ok := true;
  }

  /**
   * The name before the '=' found k places after p, and the value after it
   * up to the next '&' or the end; the pointer is left at that '&'.
   */
  method ExtractPair(text: string, p: nat, k: nat) returns (name: string, value: string, next: Option<nat>)
    requires '\0' !in text && p + k < |text|
    ensures name == Decode(text[p..p + k])
    ensures IndexOf(text[p + k + 1..], '&').None? ==> value == Decode(text[p + k + 1..]) && next == None
    ensures IndexOf(text[p + k + 1..], '&').Some? ==>
      var m := IndexOf(text[p + k + 1..], '&').value;
      value == Decode(text[p + k + 1..p + k + 1 + m]) && next == Some(p + k + 1 + m)
  {
    name := UnescapeSlice(text, p, p + k);
    var ampPos := IndexOf(text[p + k + 1..], '&');
    if ampPos.None? {
      value := UnescapeSlice(text, p + k + 1, |text|);
      assert text[p + k + 1..|text|] == text[p + k + 1..];
      next := None;
    } else {
      value := UnescapeSlice(text, p + k + 1, p + k + 1 + ampPos.value);
      next := Some(p + k + 1 + ampPos.value);
    }
  }

  /** A text of only white space and '&' from `start` on holds no further query. */
  lemma {:induction false} NextQueryAtEnd(text: string, start: nat)
    requires start <= |text|
    requires forall i :: start <= i < |text| ==> IsSpace(text[i]) || text[i] == '&'
    ensures NextQuery(text, start) == NoQuery(|text|)
  {
    SkipAll(text, start);
  }

  lemma {:induction false} SkipAll(text: string, p: nat)
    requires p <= |text|
    requires forall i :: p <= i < |text| ==> IsSpace(text[i]) || text[i] == '&'
    ensures SkipSpaceAndAmp(text, p) == |text|
    decreases |text| - p
  {
    if p < |text| {
      SkipAll(text, p + 1);
    }
  }

  /** Without a '=' after the separators there is no query, and the pointer stays there. */
  lemma {:induction false} NextQueryWithoutEquals(text: string, start: nat)
    requires start <= |text| && '=' !in text[SkipSpaceAndAmp(text, start)..]
    ensures NextQuery(text, start) == NoQuery(SkipSpaceAndAmp(text, start))
  {
    IndexOfSpec(text[SkipSpaceAndAmp(text, start)..], '=');
  }

  /**
   * A pair `name=value` after separators: the name is decoded from the
   * text before the first '=', the value from the text up to the next '&',
   * and the pointer is left at that '&'.
   */
  lemma {:induction false} NextQueryOfPair(sep: string, n: string, v: string, rest: string)
    requires forall i :: 0 <= i < |sep| ==> IsSpace(sep[i]) || sep[i] == '&'
    requires n != [] ==> !IsSpace(n[0]) && n[0] != '&'
    requires '=' !in n && '&' !in v
    ensures var text := sep + (n + "=" + (v + "&" + rest));
      NextQuery(text, 0) == Query(Decode(n), Decode(v), Some(|sep| + |n| + 1 + |v|))
  {
    var text := sep + (n + "=" + (v + "&" + rest));
    PairPieces(sep, n, v, rest);
    NextQueryFound(text, 0, |sep|, |n|, |v|);
  }

  /** Where the scan of a `name=value&` pair after separators finds each piece. */
  lemma {:induction false} PairPieces(sep: string, n: string, v: string, rest: string)
    requires forall i :: 0 <= i < |sep| ==> IsSpace(sep[i]) || sep[i] == '&'
    requires n != [] ==> !IsSpace(n[0]) && n[0] != '&'
    requires '=' !in n && '&' !in v
    ensures var text := sep + (n + "=" + (v + "&" + rest)); var e := |sep| + |n|;
      SkipSpaceAndAmp(text, 0) == |sep| && |sep| < |text| &&
      IndexOf(text[|sep|..], '=') == Some(|n|) && text[|sep|..e] == n &&
      IndexOf(text[e + 1..], '&') == Some(|v|) && text[e + 1..e + 1 + |v|] == v
  {
    PairAfterSeparators(sep, n, v + "&" + rest);
    ValuePiece(sep + (n + "="), v, rest);
    AppendAssoc(sep, n + "=", v + "&" + rest);
  }

  /** After the '=' the scan for '&' finds the end of the value. */
  lemma {:induction false} ValuePiece(head: string, v: string, rest: string)
    requires '&' !in v
    ensures var text := head + (v + "&" + rest); var p := |head|;
      IndexOf(text[p..], '&') == Some(|v|) && text[p..p + |v|] == v
  {
    var tail := v + "&" + rest;
    var text := head + tail;
    assert text[|head|..] == tail;
    ValueUpToAmp(v, rest);
    SliceOfSuffix(text, |head|, tail, |v|);
  }

  /** NextQuery when both the '=' and the following '&' are found. */
  lemma {:induction false} NextQueryFound(text: string, start: nat, s: nat, k: nat, m: nat)
    requires start <= |text| && s == SkipSpaceAndAmp(text, start) && s < |text|
    requires IndexOf(text[s..], '=') == Some(k)
    requires IndexOf(text[s + k + 1..], '&') == Some(m)
    ensures NextQuery(text, start) == Query(Decode(text[s..s + k]), Decode(text[s + k + 1..s + k + 1 + m]), Some(s + k + 1 + m))
  {
  }

  /** A prefix of a suffix is a slice. */
  lemma {:induction false} SliceOfSuffix(text: string, p: nat, tail: string, j: nat)
    requires p <= |text| && text[p..] == tail && j <= |tail|
    ensures text[p..p + j] == tail[..j]
  {
    assert text[p..p + j] == text[p..][..j];
  }

  lemma {:induction false} ValueUpToAmp(v: string, rest: string)
    requires '&' !in v
    ensures IndexOf(v + "&" + rest, '&') == Some(|v|) && (v + "&" + rest)[..|v|] == v
  {
    var tail := v + "&" + rest;
    assert tail[..|v|] == v && tail[|v|] == '&';
    IndexOfFirst(tail, '&', |v|);
  }

  /** The last pair of the text: the value runs to the end and the pointer becomes NULL. */
  lemma {:induction false} NextQueryOfLastPair(sep: string, n: string, v: string)
    requires forall i :: 0 <= i < |sep| ==> IsSpace(sep[i]) || sep[i] == '&'
    requires n != [] ==> !IsSpace(n[0]) && n[0] != '&'
    requires '=' !in n && '&' !in v
    ensures NextQuery(sep + (n + "=" + v), 0) == Query(Decode(n), Decode(v), None)
  {
    var text := sep + (n + "=" + v);
    var e := |sep| + |n|;
    PairAfterSeparators(sep, n, v);
    assert text[e + 1..] == v;
    IndexOfSpec(v, '&');
  }

  /** After the separators, the name runs up to the first '='. */
  lemma {:induction false} PairAfterSeparators(sep: string, n: string, tail: string)
    requires forall i :: 0 <= i < |sep| ==> IsSpace(sep[i]) || sep[i] == '&'
    requires n != [] ==> !IsSpace(n[0]) && n[0] != '&'
    requires '=' !in n
    ensures var text := sep + (n + "=" + tail);
      SkipSpaceAndAmp(text, 0) == |sep| &&
      IndexOf(text[|sep|..], '=') == Some(|n|) &&
      text[|sep|..|sep| + |n|] == n
  {
    var pair := n + "=" + tail;
    var text := sep + pair;
    assert text[..|sep|] == sep && text[|sep|..] == pair;
    assert text[|sep|] == pair[0];
    SkipSeparatorRun(text, sep);
    assert pair[..|n|] == n && pair[|n|] == '=';
    IndexOfFirst(pair, '=', |n|);
    assert text[|sep|..|sep| + |n|] == pair[..|n|];
  }

  /** Skipping stops right after a leading run of separators. */
  lemma {:induction false} SkipSeparatorRun(text: string, sep: string)
    requires |sep| <= |text| && text[..|sep|] == sep
    requires forall i :: 0 <= i < |sep| ==> IsSpace(sep[i]) || sep[i] == '&'
    requires |sep| < |text| ==> !IsSpace(text[|sep|]) && text[|sep|] != '&'
    ensures SkipSpaceAndAmp(text, 0) == |sep|
  {
    SkipRunFrom(text, |sep|, 0);
  }

  lemma {:induction false} SkipRunFrom(text: string, q: nat, p: nat)
    requires p <= q <= |text|
    requires forall i :: p <= i < q ==> IsSpace(text[i]) || text[i] == '&'
    requires q < |text| ==> !IsSpace(text[q]) && text[q] != '&'
    ensures SkipSpaceAndAmp(text, p) == q
    decreases q - p
  {
    if p < q {
      SkipRunFrom(text, q, p + 1);
    }
  }

  /** The skipping loop of ExtractNextQuery. */
  method SkipSeparators(text: string, start: nat) returns (p: nat)
    requires start <= |text|
    ensures p == SkipSpaceAndAmp(text, start)
  {
    p := start;
    while p < |text| && (IsSpace(text[p]) || text[p] == '&')
      invariant start <= p <= |text|
      invariant SkipSpaceAndAmp(text, start) == SkipSpaceAndAmp(text, p)
    {
      p := p + 1;
    }
  }

  /** Unescape of the std::string built from text[i..j], which holds no NUL. */
  method UnescapeSlice(text: string, i: nat, j: nat) returns (r: string)
    requires i <= j <= |text| && '\0' !in text
    ensures r == Decode(text[i..j])
  {
    assert forall k :: 0 <= k < j - i ==> text[i..j][k] == text[i + k];
    CStrOfPlain(text[i..j]);
    r := Unescape(text[i..j]);
  }
}
