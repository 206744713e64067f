/**
 * The JSON scanner JsonTokenizer: characters come from an input stream with
 * one character of push-back, RealToken cuts the next lexical token, and
 * NextToken assembles numbers from digit runs, signs, dots and exponents,
 * keeping the token that ended a number as look-ahead.
 *
 * The stream is its whole contents `data` and a read position `pos`; the
 * pushed-back character is always the one just read, so the scanner's
 * logical position is `Cursor()`.  The behaviour of the methods is given by
 * the functions LexAt and NextTokenSpec on (data, position).
 */
module JsonTokenizer {
  import opened CText

  /** JsonTokenizer::JsonToken */
  datatype Token =
    | NoToken | ErrorToken | Eof
    | OpenBrace | CloseBrace | OpenSquare | CloseSquare | Comma | Colon
    | NullToken | TrueToken | FalseToken
    | IntToken | DoubleToken | Ident | StringToken
    | Dot | Plus | Minus | Digits

  /** The result of cutting one token at a position: the token, the new token text (None: kept), where the next one starts. */
  datatype Lexeme = Lexeme(token: Token, text: Option<string>, next: nat)

  /** The text after a token: the one it set, or the previous one. */
  function NewText(old_text: string, text: Option<string>): (r: string)
    ensures text.Some? ==> r == text.value
    ensures text.None? ==> r == old_text
  {
    if text.Some? then text.value else old_text
  }

  /** The character at position j of the stream as an int, -1 at end of file. */
  function At(data: string, j: nat): (ch: int)
    ensures j < |data| ==> ch == data[j] as int
    ensures j >= |data| ==> ch == -1
  {
    if j < |data| then data[j] as int else -1
  }

  // ---------------------------------------------------------------------
  // RealToken as a function of the stream and a position

  /** The first position at or after i that does not hold white space. */
  function SpaceEnd(data: string, i: nat): (j: nat)
    requires i <= |data|
    ensures i <= j <= |data| && (j < |data| ==> !IsSpace(data[j]))
    decreases |data| - i
  {
    if i == |data| || !IsSpace(data[i]) then i else SpaceEnd(data, i + 1)
  }

  /** The end of the run of digits starting at i. */
  function DigitEnd(data: string, i: nat): (j: nat)
    requires i <= |data|
    ensures i <= j <= |data| && (j < |data| ==> !IsDigit(data[j]))
    decreases |data| - i
  {
    if i == |data| || !IsDigit(data[i]) then i else DigitEnd(data, i + 1)
  }

  predicate IsIdentChar(c: char) { IsAlnum(c) || c == '_' }

  /** The end of the run of letters, digits and '_' starting at i. */
  function IdentEnd(data: string, i: nat): (j: nat)
    requires i <= |data|
    ensures i <= j <= |data| && (j < |data| ==> !IsIdentChar(data[j]))
    decreases |data| - i
  {
    if i == |data| || !IsIdentChar(data[i]) then i else IdentEnd(data, i + 1)
  }

  /** The single-character tokens. */
  function Punctuation(c: char): (r: Option<Token>)
  {
    match c
    case ',' => Some(Comma)
    case ':' => Some(Colon)
    case '{' => Some(OpenBrace)
    case '}' => Some(CloseBrace)
    case '[' => Some(OpenSquare)
    case ']' => Some(CloseSquare)
    case '.' => Some(Dot)
    case '-' => Some(Minus)
    case '+' => Some(Plus)
    case _ => None
  }

  /** What a backslash followed by c stands for inside a string literal. */
  function Unescaped(c: char): (r: string)
  {
    match c
    case 'n' => "\n"
    case 'r' => "\r"
    case 'f' => [12 as char]
    case 'b' => [8 as char]
    case 't' => "\t"
    case 'v' => [11 as char]
    case '\\' => "\\"
    case _ => ['\\', c]
  }

  /**
   * The rest of a string literal from position k, with `acc` decoded so far:
   * up to the closing delimiter, or an error at the end of the stream.
   */
  function ScanString(data: string, k: nat, delim: char, acc: string): (x: Lexeme)
    requires k <= |data|
    ensures x.text.Some? && k <= x.next <= |data|
    decreases |data| - k
  {
    if k == |data| then Lexeme(ErrorToken, Some(acc), |data|)
    else if data[k] == delim then Lexeme(StringToken, Some(acc), k + 1)
    else if data[k] == '\\' then
      if k + 1 == |data| then Lexeme(ErrorToken, Some(acc), |data|)
      else ScanString(data, k + 2, delim, acc + Unescaped(data[k + 1]))
    else ScanString(data, k + 1, delim, acc + [data[k]])
  }

  /** The keyword tokens; every other identifier is Ident. */
  function Keyword(w: string): (t: Token)
  {
    if w == "true" then TrueToken
    else if w == "false" then FalseToken
    else if w == "null" then NullToken
    else Ident
  }

  /** JsonTokenizer::RealToken from position i of the stream. */
  function LexAt(data: string, i: nat): (x: Lexeme)
    requires i <= |data|
    ensures i <= x.next <= |data|
  {
    var j := SpaceEnd(data, i);
    if j == |data| then Lexeme(Eof, None, |data|) else LexChar(data, j)
  }

  /** The token that starts with the character at j, which is not white space. */
  function LexChar(data: string, j: nat): (x: Lexeme)
    requires j < |data|
    ensures j < x.next <= |data|
  {
    var c := data[j];
    if Punctuation(c).Some? then Lexeme(Punctuation(c).value, None, j + 1)
    else if c == '\'' || c == '"' then ScanString(data, j + 1, c, [])
    else if IsDigit(c) then
      var e := DigitEnd(data, j);
      Lexeme(Digits, Some(data[j..e]), e)
    else if IsAlpha(c) || c == '_' then
      var e := IdentEnd(data, j + 1);
      Lexeme(Keyword(data[j..e]), Some(data[j..e]), e)
    else Lexeme(ErrorToken, None, j + 1)
  }

  // ---------------------------------------------------------------------
  // NextToken as a function of the look-ahead, the stream and a position

  /** The result of NextToken: the token, the token text, the look-ahead left behind, where scanning continues. */
  datatype Step = Step(token: Token, text: string, la: Token, next: nat)

  /**
   * The end of a number whose mantissa so far is `str`: `tok` is the token
   * after it, `t` the token text then and `i` where scanning stands.  An
   * identifier spelt exactly "e" or "E" starts an exponent, which needs
   * digits after an optional sign; any other token ends the number and is
   * kept as the look-ahead.
   */
  function Exponent(data: string, str: string, dot: bool, tok: Token, i: nat, t: string): (r: Step)
    requires i <= |data|
  {
    if tok == Ident && (t == "e" || t == "E") then ExponentDigits(data, str + t, i, t)
    else Step(if dot then DoubleToken else IntToken, str, tok, i)
  }

  /** The exponent after the mantissa and its 'e' (both in s): an optional sign, then digits. */
  function ExponentDigits(data: string, s: string, i: nat, t: string): (r: Step)
    requires i <= |data|
  {
    var y := LexAt(data, i);
    var ty := NewText(t, y.text);
    if y.token == Plus || y.token == Minus then
      var z := LexAt(data, y.next);
      var tz := NewText(ty, z.text);
      if z.token != Digits then Step(ErrorToken, tz, NoToken, z.next)
      else Step(DoubleToken, s + (if y.token == Plus then "+" else "-") + tz, NoToken, z.next)
    else if y.token != Digits then Step(ErrorToken, ty, NoToken, y.next)
    else Step(DoubleToken, s + ty, NoToken, y.next)
  }

  /** An identifier that is a whole unsigned exponent, such as "e5" or "E10". */
  predicate IsUnsignedExponent(t: string) {
    |t| >= 2 && (t[0] == 'e' || t[0] == 'E') && forall k :: 1 <= k < |t| ==> IsDigit(t[k])
  }

  /**
   * Exponent as intended: RealToken reads "e5" as one identifier, so an
   * identifier that is 'e' or 'E' followed only by digits is an unsigned
   * exponent too.
   */
  function ExponentFixed(data: string, str: string, dot: bool, tok: Token, i: nat, t: string): (r: Step)
    requires i <= |data|
  {
    if tok == Ident && (t == "e" || t == "E") then ExponentDigits(data, str + t, i, t)
    else if tok == Ident && IsUnsignedExponent(t) then Step(DoubleToken, str + t, NoToken, i)
    else Step(if dot then DoubleToken else IntToken, str, tok, i)
  }

  /** A number after its integer part `intPart`, at position i with token text t: an optional fraction, then Exponent. */
  function Mantissa(data: string, intPart: string, i: nat, t: string): (r: Step)
    requires i <= |data|
  {
    var x2 := LexAt(data, i);
    var t2 := NewText(t, x2.text);
    if x2.token == Dot then
      var x3 := LexAt(data, x2.next);
      var t3 := NewText(t2, x3.text);
      if x3.token != Digits then Step(ErrorToken, t3, NoToken, x3.next)
      else
        var x4 := LexAt(data, x3.next);
        ExponentFixed(data, intPart + "." + t3, true, x4.token, x4.next, NewText(t3, x4.text))
    else ExponentFixed(data, intPart, false, x2.token, x2.next, t2)
  }

  /**
   * A number that began with a minus sign (neg) or with digits whose text
   * is `text`, scanning from position i.
   */
  function Number(neg: bool, data: string, i: nat, text: string): (r: Step)
    requires i <= |data|
  {
    if neg then
      var xd := LexAt(data, i);
      var td := NewText(text, xd.text);
      if xd.token != Digits then Step(ErrorToken, td, NoToken, xd.next)
      else Mantissa(data, "-" + td, xd.next, td)
    else Mantissa(data, text, i, text)
  }

  /** JsonTokenizer::NextToken with look-ahead `la` and token text `text`, at position i. */
  function NextTokenSpec(la: Token, data: string, i: nat, text: string): (r: Step)
    requires i <= |data|
  {
    var x0 := if la == NoToken then LexAt(data, i) else Lexeme(la, None, i);
    var t0 := NewText(text, x0.text);
    if x0.token != Digits && x0.token != Minus then Step(x0.token, t0, NoToken, x0.next)
    else Number(x0.token == Minus, data, x0.next, t0)
  }

  // ---------------------------------------------------------------------
  // Properties of the scanner

  predicate AllSpaces(s: string) { forall k :: 0 <= k < |s| ==> IsSpace(s[k]) }
  predicate AllDigits(s: string) { forall k :: 0 <= k < |s| ==> IsDigit(s[k]) }

  /** White space is skipped, and only white space up to the end gives Eof. */
  lemma {:induction false} LexEof(data: string, i: nat)
    requires i <= |data|
    ensures LexAt(data, i).token == Eof <==> AllSpaces(data[i..])
    ensures LexAt(data, i).token == Eof ==> LexAt(data, i) == Lexeme(Eof, None, |data|)
  {
    var j := SpaceEnd(data, i);
    if AllSpaces(data[i..]) {
      forall k | i <= k < |data| ensures IsSpace(data[k]) {
        assert data[k] == data[i..][k - i];
      }
      SpaceEndUnique(data, i, |data|);
    } else {
      var k :| 0 <= k < |data[i..]| && !IsSpace(data[i..][k]);
      assert data[i..][k] == data[i + k];
      if i + k < j {
        SpaceEndSpans(data, i, i + k);
      }
      assert j <= i + k < |data|;
      ScanOutcome(data, j + 1, data[j], []);
    }
  }

  /** Everything SpaceEnd passes over is white space. */
  lemma {:induction false} SpaceEndSpans(data: string, i: nat, k: nat)
    requires i <= |data| && i <= k < SpaceEnd(data, i)
    ensures IsSpace(data[k])
    decreases k - i
  {
    if i < k {
      SpaceEndSpans(data, i + 1, k);
    }
  }

  /** SpaceEnd stops at the first position that is not white space. */
  lemma {:induction false} SpaceEndUnique(data: string, i: nat, j: nat)
    requires i <= j <= |data| && (j < |data| ==> !IsSpace(data[j]))
    requires forall k :: i <= k < j ==> IsSpace(data[k])
    ensures SpaceEnd(data, i) == j
    decreases j - i
  {
    if i < j {
      SpaceEndUnique(data, i + 1, j);
    }
  }

  /** DigitEnd stops at the first position that is not a digit. */
  lemma {:induction false} DigitEndUnique(data: string, i: nat, j: nat)
    requires i <= j <= |data| && (j < |data| ==> !IsDigit(data[j]))
    requires forall k :: i <= k < j ==> IsDigit(data[k])
    ensures DigitEnd(data, i) == j
    decreases j - i
  {
    if i < j {
      DigitEndUnique(data, i + 1, j);
    }
  }

  /** IdentEnd stops at the first position that is not an identifier character. */
  lemma {:induction false} IdentEndUnique(data: string, i: nat, j: nat)
    requires i <= j <= |data| && (j < |data| ==> !IsIdentChar(data[j]))
    requires forall k :: i <= k < j ==> IsIdentChar(data[k])
    ensures IdentEnd(data, i) == j
    decreases j - i
  {
    if i < j {
      IdentEndUnique(data, i + 1, j);
    }
  }

  /** The first non-blank position after a run of white space. */
  lemma {:induction false} SpaceEndOver(sep: string, rest: string)
    requires AllSpaces(sep) && (rest == [] || !IsSpace(rest[0]))
    ensures SpaceEnd(sep + rest, 0) == |sep|
  {
    SpaceEndUnique(sep + rest, 0, |sep|);
  }

  /** Each punctuation character, after any white space, is its own token. */
  lemma {:induction false} LexPunctuation(sep: string, c: char, rest: string)
    requires AllSpaces(sep) && Punctuation(c).Some?
    ensures LexAt(sep + [c] + rest, 0) == Lexeme(Punctuation(c).value, None, |sep| + 1)
    ensures Punctuation(c).value in {Comma, Colon, OpenBrace, CloseBrace, OpenSquare, CloseSquare, Dot, Minus, Plus}
  {
    assert sep + [c] + rest == sep + ([c] + rest);
    SpaceEndOver(sep, [c] + rest);
    assert (sep + [c] + rest)[|sep|] == c;
  }

  /** A backslash keeps itself unless it starts one of the escapes n r f b t v and backslash. */
  lemma {:induction false} UnescapedShape(c: char)
    ensures |Unescaped(c)| == 1 <==> c in "nrfbtv\\"
    ensures c !in "nrfbtv\\" ==> Unescaped(c) == ['\\', c]
    ensures c == '"' || c == '/' ==> Unescaped(c) == ['\\', c]
  {
  }

  /** String literal text without delimiter or backslash is taken as it is. */
  lemma {:induction false} ScanPlain(data: string, k: nat, delim: char, acc: string, w: string)
    requires k + |w| < |data| && data[k..k + |w|] == w && data[k + |w|] == delim
    requires delim !in w && '\\' !in w
    ensures ScanString(data, k, delim, acc) == Lexeme(StringToken, Some(acc + w), k + |w| + 1)
    decreases |w|
  {
    if w == [] {
      assert acc + w == acc;
    } else {
      assert data[k] == w[0];
      assert data[k + 1..k + 1 + |w[1..]|] == w[1..];
      ScanPlain(data, k + 1, delim, acc + [w[0]], w[1..]);
      assert acc + [w[0]] + w[1..] == acc + w;
    }
  }

  /** A quoted literal after white space is a STRING token whose text is what lies between the quotes. */
  lemma {:induction false} LexStringLiteral(sep: string, delim: char, w: string, rest: string)
    requires AllSpaces(sep) && (delim == '\'' || delim == '"')
    requires delim !in w && '\\' !in w
    ensures LexAt(sep + ([delim] + w + [delim] + rest), 0) == Lexeme(StringToken, Some(w), |sep| + |w| + 2)
  {
    var data := sep + ([delim] + w + [delim] + rest);
    SpaceEndOver(sep, [delim] + w + [delim] + rest);
    assert data[|sep|] == delim;
    assert data[|sep| + 1..|sep| + 1 + |w|] == w;
    assert data[|sep| + 1 + |w|] == delim;
    ScanPlain(data, |sep| + 1, delim, [], w);
    assert [] + w == w;
  }

  /** A literal whose delimiter never comes again is an ERROR, with text up to the end of the stream. */
  lemma {:induction false} ScanUnterminated(data: string, k: nat, delim: char, acc: string)
    requires k <= |data| && delim !in data[k..]
    ensures ScanString(data, k, delim, acc).token == ErrorToken
    ensures ScanString(data, k, delim, acc).next == |data|
    decreases |data| - k
  {
    if k < |data| {
      assert data[k] == data[k..][0];
      if data[k] == '\\' && k + 1 < |data| {
        assert data[k + 2..] == data[k..][2..];
        ScanUnterminated(data, k + 2, delim, acc + Unescaped(data[k + 1]));
      } else if data[k] != '\\' {
        assert data[k + 1..] == data[k..][1..];
        ScanUnterminated(data, k + 1, delim, acc + [data[k]]);
      }
    }
  }

  /** A string literal gives either STRING or ERROR, and always sets the token text. */
  lemma {:induction false} ScanOutcome(data: string, k: nat, delim: char, acc: string)
    requires k <= |data|
    ensures ScanString(data, k, delim, acc).token in {StringToken, ErrorToken}
    ensures ScanString(data, k, delim, acc).token == ErrorToken ==> ScanString(data, k, delim, acc).next == |data|
    decreases |data| - k
  {
    if k < |data| && data[k] != delim {
      if data[k] == '\\' && k + 1 < |data| {
        ScanOutcome(data, k + 2, delim, acc + Unescaped(data[k + 1]));
      } else if data[k] != '\\' {
        ScanOutcome(data, k + 1, delim, acc + [data[k]]);
      }
    }
  }

  /** The run of digits starting a token. */
  lemma {:induction false} DigitEndOver(d: string, rest: string, pre: string)
    requires AllDigits(d) && (rest == [] || !IsDigit(rest[0]))
    ensures DigitEnd(pre + d + rest, |pre|) == |pre| + |d|
  {
    var data := pre + d + rest;
    forall k | |pre| <= k < |pre| + |d| ensures IsDigit(data[k]) {
      assert data[k] == d[k - |pre|];
    }
    DigitEndUnique(data, |pre|, |pre| + |d|);
  }

  /** The run of identifier characters after position |pre|. */
  lemma {:induction false} IdentEndOver(w: string, rest: string, pre: string)
    requires forall k :: 0 <= k < |w| ==> IsIdentChar(w[k])
    requires rest == [] || !IsIdentChar(rest[0])
    ensures IdentEnd(pre + w + rest, |pre|) == |pre| + |w|
  {
    var data := pre + w + rest;
    forall k | |pre| <= k < |pre| + |w| ensures IsIdentChar(data[k]) {
      assert data[k] == w[k - |pre|];
    }
    IdentEndUnique(data, |pre|, |pre| + |w|);
  }

  /** Digits after white space are one DIGITS token carrying them as its text. */
  lemma {:induction false} LexDigits(sep: string, d: string, rest: string)
    requires AllSpaces(sep) && d != [] && AllDigits(d) && (rest == [] || !IsDigit(rest[0]))
    ensures LexAt(sep + d + rest, 0) == Lexeme(Digits, Some(d), |sep| + |d|)
  {
    var data := sep + d + rest;
    assert data == sep + (d + rest);
    SpaceEndOver(sep, d + rest);
    DigitEndOver(d, rest, sep);
    assert data[|sep|..|sep| + |d|] == d;
  }

  /**
   * An identifier after white space is one token: TRUE, FALSE or NULL when
   * it is exactly that keyword, IDENT otherwise, with the identifier as text.
   */
  lemma {:induction false} LexIdentifier(sep: string, w: string, rest: string)
    requires AllSpaces(sep) && w != [] && (IsAlpha(w[0]) || w[0] == '_')
    requires forall k :: 0 <= k < |w| ==> IsIdentChar(w[k])
    requires rest == [] || !IsIdentChar(rest[0])
    ensures LexAt(sep + w + rest, 0) == Lexeme(Keyword(w), Some(w), |sep| + |w|)
    ensures Keyword(w) == TrueToken <==> w == "true"
    ensures Keyword(w) == FalseToken <==> w == "false"
    ensures Keyword(w) == NullToken <==> w == "null"
    ensures Keyword(w) == Ident <==> w !in {"true", "false", "null"}
  {
    var data := sep + w + rest;
    assert data == sep + (w + rest);
    SpaceEndOver(sep, w + rest);
    assert data[|sep|] == w[0];
    assert data == (sep + [w[0]]) + w[1..] + rest;
    IdentEndOver(w[1..], rest, sep + [w[0]]);
    assert data[|sep|..|sep| + |w|] == w;
  }

  /** Any character that starts no token is an ERROR on its own. */
  lemma {:induction false} LexStray(sep: string, c: char, rest: string)
    requires AllSpaces(sep) && !IsSpace(c) && Punctuation(c).None?
    requires c != '\'' && c != '"' && !IsDigit(c) && !IsAlpha(c) && c != '_'
    ensures LexAt(sep + [c] + rest, 0) == Lexeme(ErrorToken, None, |sep| + 1)
  {
    assert sep + [c] + rest == sep + ([c] + rest);
    SpaceEndOver(sep, [c] + rest);
    assert (sep + [c] + rest)[|sep|] == c;
  }

  /** A kept look-ahead token other than DIGITS or '-' is returned as it is, without reading. */
  lemma {:induction false} NextTokenReturnsLookAhead(la: Token, data: string, i: nat, text: string)
    requires i <= |data| && la !in {NoToken, Digits, Minus}
    ensures NextTokenSpec(la, data, i, text) == Step(la, text, NoToken, i)
  {
  }

  /** A token other than DIGITS or '-' passes through NextToken unchanged. */
  lemma {:induction false} NextTokenPassesThrough(data: string, i: nat, text: string)
    requires i <= |data| && LexAt(data, i).token !in {Digits, Minus}
    ensures var x := LexAt(data, i);
      NextTokenSpec(NoToken, data, i, text) == Step(x.token, NewText(text, x.text), NoToken, x.next)
  {
  }

  /** The token cut at position i is `tok` with text `text`, and the next one starts at `next`. */
  predicate Lexes(data: string, i: nat, tok: Token, text: Option<string>, next: nat) {
    i <= |data| && LexAt(data, i) == Lexeme(tok, text, next)
  }

  /** A lexeme that would start an exponent after a mantissa. */
  predicate StartsExponent(x: Lexeme) {
    x.token == Ident && x.text.Some? && IsExponentText(x.text.value)
  }

  /**
   * An optional '-' and digits d, followed by a token that neither starts a
   * fraction nor an exponent, make an INT whose text is the sign and the
   * digits; that token becomes the look-ahead.
   */
  lemma {:induction false} NextTokenInt(data: string, i: nat, text: string, neg: bool, m: nat, d: string, e: nat)
    requires neg ==> Lexes(data, i, Minus, None, m)
    requires Lexes(data, if neg then m else i, Digits, Some(d), e)
    requires e <= |data| && LexAt(data, e).token != Dot && !StartsExponent(LexAt(data, e))
    ensures var x := LexAt(data, e);
      NextTokenSpec(NoToken, data, i, text) == Step(IntToken, (if neg then "-" else "") + d, x.token, x.next)
  {
    var x := LexAt(data, e);
    IdentHasText(data, e);
    if neg {
      assert NextTokenSpec(NoToken, data, i, text) == Number(true, data, m, text);
      assert Number(true, data, m, text) == Mantissa(data, "-" + d, e, d);
    } else {
      assert NextTokenSpec(NoToken, data, i, text) == Number(false, data, e, d);
      assert "" + d == d;
    }
    MantissaEnds(data, (if neg then "-" else "") + d, e, d);
  }

  /**
   * An optional '-', digits d1, '.' and digits d2, followed by a token that
   * does not start an exponent, make a DOUBLE whose text is the whole
   * literal; that token becomes the look-ahead.
   */
  lemma {:induction false} NextTokenFraction(data: string, i: nat, text: string, neg: bool, m: nat,
                          d1: string, e1: nat, f: nat, d2: string, e2: nat)
    requires neg ==> Lexes(data, i, Minus, None, m)
    requires Lexes(data, if neg then m else i, Digits, Some(d1), e1)
    requires Lexes(data, e1, Dot, None, f)
    requires Lexes(data, f, Digits, Some(d2), e2)
    requires e2 <= |data| && !StartsExponent(LexAt(data, e2))
    ensures var x := LexAt(data, e2);
      NextTokenSpec(NoToken, data, i, text) == Step(DoubleToken, (if neg then "-" else "") + d1 + "." + d2, x.token, x.next)
  {
    var x := LexAt(data, e2);
    IdentHasText(data, e2);
    if neg {
      assert NextTokenSpec(NoToken, data, i, text) == Number(true, data, m, text);
      assert Number(true, data, m, text) == Mantissa(data, "-" + d1, e1, d1);
    } else {
      assert NextTokenSpec(NoToken, data, i, text) == Number(false, data, e1, d1);
      assert "" + d1 == d1;
    }
    MantissaFraction(data, (if neg then "-" else "") + d1, e1, d1, f, d2, e2);
  }

  /** An integer part followed by a token other than '.' is a mantissa without fraction. */
  lemma {:induction false} MantissaEnds(data: string, intPart: string, e: nat, t: string)
    requires e <= |data| && LexAt(data, e).token != Dot && !StartsExponent(LexAt(data, e))
    requires LexAt(data, e).token == Ident ==> LexAt(data, e).text.Some?
    ensures var x := LexAt(data, e);
      Mantissa(data, intPart, e, t) == Step(IntToken, intPart, x.token, x.next)
  {
  }

  /** An integer part followed by '.' and digits d is a mantissa with a fraction. */
  lemma {:induction false} MantissaFraction(data: string, intPart: string, e: nat, t: string, f: nat, d: string, e2: nat)
    requires Lexes(data, e, Dot, None, f) && Lexes(data, f, Digits, Some(d), e2)
    requires e2 <= |data| && !StartsExponent(LexAt(data, e2))
    requires LexAt(data, e2).token == Ident ==> LexAt(data, e2).text.Some?
    ensures var x := LexAt(data, e2);
      Mantissa(data, intPart, e, t) == Step(DoubleToken, intPart + "." + d, x.token, x.next)
  {
    var x3 := LexAt(data, f);
    var t3 := NewText(NewText(t, None), x3.text);
    assert t3 == d;
    var x4 := LexAt(data, x3.next);
    assert x4 == LexAt(data, e2);
  }

  /** An identifier token text (an IDENT always has one). */
  lemma {:induction false} IdentHasText(data: string, i: nat)
    requires i <= |data|
    ensures LexAt(data, i).token == Ident ==> LexAt(data, i).text.Some?
  {
  }

  /** The texts that begin an exponent: "e" or "E" alone, or followed by digits only. */
  predicate IsExponentText(t: string) {
    t == "e" || t == "E" || IsUnsignedExponent(t)
  }

  /** Digits in the middle of the stream, right where scanning stands. */
  lemma {:induction false} DigitsAt(pre: string, d: string, rest: string)
    requires d != [] && AllDigits(d) && (rest == [] || !IsDigit(rest[0]))
    ensures LexAt(pre + d + rest, |pre|) == Lexeme(Digits, Some(d), |pre| + |d|)
  {
    var data := pre + d + rest;
    assert data[|pre|] == d[0];
    assert SpaceEnd(data, |pre|) == |pre|;
    DigitEndOver(d, rest, pre);
    assert data[|pre|..|pre| + |d|] == d;
  }

  /** A dot right where scanning stands. */
  lemma {:induction false} DotAt(pre: string, rest: string)
    ensures LexAt(pre + "." + rest, |pre|) == Lexeme(Dot, None, |pre| + 1)
  {
    var data := pre + "." + rest;
    assert data[|pre|] == '.';
    assert SpaceEnd(data, |pre|) == |pre|;
  }

  /** '-' not followed by digits is an ERROR. */
  lemma {:induction false} MinusNeedsDigits(data: string, i: nat, text: string)
    requires i <= |data| && LexAt(data, i).token == Minus
    requires LexAt(data, LexAt(data, i).next).token != Digits
    ensures NextTokenSpec(NoToken, data, i, text).token == ErrorToken
    ensures NextTokenSpec(NoToken, data, i, text).la == NoToken
  {
  }

  /** A '.' after the integer part not followed by digits is an ERROR. */
  lemma {:induction false} DotNeedsDigits(data: string, i: nat, intPart: string, t: string)
    requires i <= |data| && LexAt(data, i).token == Dot
    requires LexAt(data, LexAt(data, i).next).token != Digits
    ensures Mantissa(data, intPart, i, t).token == ErrorToken
    ensures Mantissa(data, intPart, i, t).la == NoToken
  {
  }

  /** An 'e' or 'E' after a mantissa, with an optional sign, needs digits after it, or it is an ERROR. */
  lemma {:induction false} ExponentNeedsDigits(data: string, str: string, dot: bool, i: nat, t: string)
    requires i <= |data| && (t == "e" || t == "E")
    requires var y := LexAt(data, i);
      if y.token == Plus || y.token == Minus then LexAt(data, y.next).token != Digits else y.token != Digits
    ensures ExponentFixed(data, str, dot, Ident, i, t).token == ErrorToken
    ensures ExponentFixed(data, str, dot, Ident, i, t).la == NoToken
  {
  }

  /** An exponent with a sign makes a DOUBLE whose text is mantissa, 'e', sign and digits. */
  lemma {:induction false} SignedExponent(str: string, e: string, sign: char, d: string, rest: string, dot: bool, t: string)
    requires e == "e" || e == "E"
    requires sign == '+' || sign == '-'
    requires d != [] && AllDigits(d) && (rest == [] || !IsDigit(rest[0]))
    ensures ExponentFixed([sign] + d + rest, str, dot, Ident, 0, e) == Step(DoubleToken, str + e + [sign] + d, NoToken, |d| + 1)
  {
    var data := [sign] + d + rest;
    assert data == [] + [sign] + (d + rest);
    LexPunctuation([], sign, d + rest);
    var y := LexAt(data, 0);
    assert y.token == Plus || y.token == Minus;
    assert (if y.token == Plus then "+" else "-") == [sign];
    DigitsAt([sign], d, rest);
    assert ExponentFixed(data, str, dot, Ident, 0, e) == ExponentDigits(data, str + e, 0, e);
  }

  /**
   * The number's text is kept in the token text, so the text of the token
   * that ended it is lost: "1 2" gives INT "1" and keeps DIGITS as the
   * look-ahead ...
   */
  lemma LookAheadKeepsDigits()
    ensures NextTokenSpec(NoToken, "1 2", 0, "") == Step(IntToken, "1", Digits, 3)
  {
    LexOneSpaceTwo();
    NextTokenInt("1 2", 0, "", false, 0, "1", 1);
  }

  /** The two lexemes of "1 2": DIGITS "1", then DIGITS "2" after the space. */
  lemma LexOneSpaceTwo()
    ensures Lexes("1 2", 0, Digits, Some("1"), 1)
    ensures Lexes("1 2", 1, Digits, Some("2"), 3)
  {
    LexOneFirst();
    LexTwoSecond();
  }

  lemma LexOneFirst()
    ensures LexAt("1 2", 0) == Lexeme(Digits, Some("1"), 1)
  {
    assert "1 2" == [] + "1" + " 2";
    LexDigits([], "1", " 2");
  }

  lemma LexTwoSecond()
    ensures LexAt("1 2", 1) == Lexeme(Digits, Some("2"), 3)
  {
    SpaceEndUnique("1 2", 1, 2);
    assert "1 2" == "1 " + "2" + [];
    DigitsAt("1 ", "2", []);
  }

  /** ... and from that look-ahead gives INT "1" again, with end of file as the new look-ahead. */
  lemma LookAheadLosesText()
    ensures NextTokenSpec(Digits, "1 2", 3, "1") == Step(IntToken, "1", Eof, 3)
  {
    LexEof("1 2", 3);
    assert NextTokenSpec(Digits, "1 2", 3, "1") == Mantissa("1 2", "1", 3, "1");
    MantissaEnds("1 2", "1", 3, "1");
  }

  /** As written, "e5" after a mantissa is not an exponent: the number ends, and "e5" is the look-ahead. */
  lemma {:induction false} UnsignedExponentAsWritten(data: string, str: string, dot: bool, i: nat)
    requires i <= |data|
    ensures Exponent(data, str, dot, Ident, i, "e5") == Step(if dot then DoubleToken else IntToken, str, Ident, i)
  {
  }

  /** Corrected, an identifier 'e' or 'E' followed by digits completes the number as a DOUBLE. */
  lemma {:induction false} UnsignedExponentFixed(data: string, str: string, dot: bool, i: nat, d: string)
    requires i <= |data| && d != [] && AllDigits(d)
    ensures ExponentFixed(data, str, dot, Ident, i, "e" + d) == Step(DoubleToken, str + "e" + d, NoToken, i)
    ensures ExponentFixed(data, str, dot, Ident, i, "E" + d) == Step(DoubleToken, str + "E" + d, NoToken, i)
  {
    assert IsUnsignedExponent("e" + d) by {
      forall k | 1 <= k < |"e" + d| ensures IsDigit(("e" + d)[k]) {
        assert ("e" + d)[k] == d[k - 1];
      }
    }
    assert IsUnsignedExponent("E" + d) by {
      forall k | 1 <= k < |"E" + d| ensures IsDigit(("E" + d)[k]) {
        assert ("E" + d)[k] == d[k - 1];
      }
    }
  }

  /** Corrected, "1e5" is the DOUBLE "1e5". */
  lemma UnsignedExponentNumber()
    ensures NextTokenSpec(NoToken, "1e5", 0, "") == Step(DoubleToken, "1e5", NoToken, 3)
  {
    assert "1e5" == [] + "1" + "e5";
    LexDigits([], "1", "e5");
    assert NextTokenSpec(NoToken, "1e5", 0, "") == Mantissa("1e5", "1", 1, "1");
    ExponentAfterOne();
  }

  /** After the digits "1" of "1e5", the identifier "e5" is taken as the exponent. */
  lemma ExponentAfterOne()
    ensures Mantissa("1e5", "1", 1, "1") == Step(DoubleToken, "1e5", NoToken, 3)
  {
    assert "1e5" == "1" + "e5" + [];
    IdentAt("1", "e5", []);
    assert LexAt("1e5", 1) == Lexeme(Ident, Some("e5"), 3);
    UnsignedExponentFixed("1e5", "1", false, 3, "5");
    assert "e" + "5" == "e5" && "1" + "e" + "5" == "1e5";
    assert Mantissa("1e5", "1", 1, "1") == ExponentFixed("1e5", "1", false, Ident, 3, "e5");
  }

  /** An identifier right where scanning stands. */
  lemma {:induction false} IdentAt(pre: string, w: string, rest: string)
    requires w != [] && IsAlpha(w[0])
    requires forall k :: 0 <= k < |w| ==> IsIdentChar(w[k])
    requires rest == [] || !IsIdentChar(rest[0])
    ensures LexAt(pre + w + rest, |pre|) == Lexeme(Keyword(w), Some(w), |pre| + |w|)
  {
    var data := pre + w + rest;
    assert data[|pre|] == w[0];
    assert SpaceEnd(data, |pre|) == |pre|;
    assert data == (pre + [w[0]]) + w[1..] + rest;
    IdentEndOver(w[1..], rest, pre + [w[0]]);
    assert data[|pre|..|pre| + |w|] == w;
  }

  // ---------------------------------------------------------------------
  // The scanner object

  class Tokenizer {
    /** The stream's contents and its read position. */
    var data: string
    var pos: nat
    /** Whether a stream is attached (`input` is not NULL). */
    var attached: bool
    /** The pushed-back character, -1 for none. */
    var lastChar: int
    var tokText: string
    var laToken: Token

    predicate Valid()
      reads this
    {
      pos <= |data| && -1 <= lastChar &&
      (lastChar >= 0 ==> pos >= 1 && lastChar == data[pos - 1] as int)
    }

    /** Where the scanner is logically: a pushed-back character is read again. */
    function Cursor(): (c: nat)
      reads this
      requires Valid()
      ensures c <= |data|
    {
      if lastChar >= 0 then pos - 1 else pos
    }

    /** A scanner in the state Reset leaves, with no stream. */
    constructor ()
      ensures Valid() && !attached && data == [] && Cursor() == 0
      ensures tokText == [] && lastChar == -1 && laToken == NoToken
    {
      data, pos, attached := [], 0, false;
      tokText := [];
      lastChar := -1;
      laToken := NoToken;
    }

    /** JsonTokenizer::Reset: detaches the stream and forgets text, push-back and look-ahead. */
    method Reset()
      modifies this
      ensures Valid() && !attached && data == [] && Cursor() == 0
      ensures tokText == [] && lastChar == -1 && laToken == NoToken
    {
      data, pos, attached := [], 0, false;
      tokText := [];
      lastChar := -1;
      laToken := NoToken;
    }

    /** JsonTokenizer::Begin: Reset, then read from the start of `stream`. */
    method Begin(stream: string)
      modifies this
      ensures Valid() && attached && data == stream && Cursor() == 0
      ensures tokText == [] && lastChar == -1 && laToken == NoToken
    {
      Reset();
      data, pos, attached := stream, 0, true;
    }

    /** JsonTokenizer::TokenText */
    function TokenText(): (r: string)
      reads this
      ensures r == tokText
    {
      tokText
    }

    /** JsonTokenizer::GetChar: the pushed-back character if any, else the next one of the stream, -1 at end. */
    method GetChar() returns (ch: int)
      requires Valid() && (attached || lastChar >= 0)
      modifies this
      ensures Valid() && data == old(data) && attached == old(attached) && lastChar == -1
      ensures ch == At(data, old(Cursor()))
      ensures Cursor() == if old(Cursor()) < |data| then old(Cursor()) + 1 else |data|
      ensures tokText == old(tokText) && laToken == old(laToken)
    {
      if lastChar >= 0 {
        ch := lastChar;
        lastChar := -1;
        return;
      }
      if pos < |data| {
        ch := data[pos] as int;
        pos := pos + 1;
      } else {
        ch := -1;
      }
    }

    /**
     * JsonTokenizer::UngetChar, for the character just read (or -1 at end
     * of file, which pushes back nothing): that character is read again.
     */
    method UngetChar(ch: int)
      requires Valid() && lastChar == -1
      requires ch == -1 || (Cursor() >= 1 && ch == data[Cursor() - 1] as int)
      modifies this
      ensures Valid() && data == old(data) && attached == old(attached) && lastChar == ch
      ensures Cursor() == if ch >= 0 then old(Cursor()) - 1 else old(Cursor())
      ensures tokText == old(tokText) && laToken == old(laToken)
    {
      lastChar := ch;
    }

    /** JsonTokenizer::RealToken */
    method RealToken() returns (t: Token)
      requires Valid() && attached
      modifies this
      ensures Valid() && attached && data == old(data) && laToken == old(laToken)
      ensures var x := LexAt(data, old(Cursor()));
        t == x.token && tokText == NewText(old(tokText), x.text) && Cursor() == x.next
    {
      ghost var j := SpaceEnd(data, Cursor());
      var ch := SkipWhiteSpace();
      if ch < 0 {
        return Eof;
      }
      t := ReadToken(ch as char, j);
    }

    /** The part of RealToken after white space: the token that starts with c, the character at j, already read. */
    method ReadToken(c: char, ghost j: nat) returns (t: Token)
      requires Valid() && attached && j < |data| && c == data[j] && Cursor() == j + 1 && lastChar == -1
      modifies this
      ensures Valid() && attached && data == old(data) && laToken == old(laToken)
      ensures var x := LexChar(data, j);
        t == x.token && tokText == NewText(old(tokText), x.text) && Cursor() == x.next
    {
      var p := Punctuation(c);
      if p.Some? {
        return p.value;
      }
      if c == '\'' || c == '"' {
        t := ReadString(c, j);
      } else if IsDigit(c) {
        tokText := ReadRun(c, j, false);
        t := Digits;
      } else if IsAlpha(c) || c == '_' {
        tokText := ReadRun(c, j, true);
        t := Keyword(tokText);
      } else {
        t := ErrorToken;
      }
    }

    /** The white-space loop of RealToken: ch is the first other character, already read. */
    method SkipWhiteSpace() returns (ch: int)
      requires Valid() && attached
      modifies this
      ensures Valid() && attached && data == old(data) && laToken == old(laToken) && tokText == old(tokText)
      ensures var j := SpaceEnd(data, old(Cursor()));
        ch == At(data, j) && lastChar == -1 && Cursor() == if j < |data| then j + 1 else |data|
    {
      ghost var i := Cursor();
      ghost var j := i;
      ch := GetChar();
      while ch >= 0 && IsSpace(ch as char)
        invariant Valid() && attached && data == old(data) && laToken == old(laToken) && tokText == old(tokText)
        invariant i <= j <= |data| && ch == At(data, j) && lastChar == -1
        invariant Cursor() == if j < |data| then j + 1 else |data|
        invariant SpaceEnd(data, i) == SpaceEnd(data, j)
        decreases |data| - j
      {
        j := j + 1;
        ch := GetChar();
      }
    }

    /**
     * The digit and identifier loops of RealToken, from the character at j
     * just read: the run of digits, or of letters, digits and '_', with the
     * character after it pushed back.
     */
    method ReadRun(first: char, ghost j: nat, ident: bool) returns (str: string)
      requires Valid() && attached && j < |data| && first == data[j] && Cursor() == j + 1 && lastChar == -1
      requires !ident ==> IsDigit(first)
      modifies this
      ensures Valid() && attached && data == old(data) && laToken == old(laToken)
      ensures var e := if ident then IdentEnd(data, j + 1) else DigitEnd(data, j);
        str == data[j..e] && Cursor() == e
    {
      str := [first];
      ghost var k := j + 1;
      var ch := GetChar();
      while ch >= 0 && (if ident then IsIdentChar(ch as char) else IsDigit(ch as char))
        invariant Valid() && attached && data == old(data) && laToken == old(laToken)
        invariant j < k <= |data| && ch == At(data, k) && lastChar == -1
        invariant Cursor() == if k < |data| then k + 1 else |data|
        invariant str == data[j..k]
        invariant ident ==> IdentEnd(data, j + 1) == IdentEnd(data, k)
        invariant !ident ==> DigitEnd(data, j) == DigitEnd(data, k)
        decreases |data| - k
      {
        assert data[j..k + 1] == data[j..k] + [data[k]];
        str := str + [ch as char];
        k := k + 1;
        ch := GetChar();
      }
      UngetChar(ch);
    }

    /** The string-literal branch of RealToken, after the opening delimiter at position j. */
    method ReadString(delim: char, ghost j: nat) returns (t: Token)
      requires Valid() && attached && j < |data| && Cursor() == j + 1
      modifies this
      ensures Valid() && attached && data == old(data) && laToken == old(laToken)
      ensures var x := ScanString(data, j + 1, delim, []);
        t == x.token && tokText == x.text.value && Cursor() == x.next
    {
      var str: string := [];
      ghost var k := j + 1;
      var ch := GetChar();
      while ch != delim as int
        invariant Valid() && attached && data == old(data) && laToken == old(laToken) && lastChar == -1
        invariant j + 1 <= k <= |data| && ch == At(data, k)
        invariant Cursor() == if k < |data| then k + 1 else |data|
        invariant ScanString(data, k, delim, str) == ScanString(data, j + 1, delim, [])
        decreases |data| - k
      {
        if ch < 0 {
          tokText := str;
          return ErrorToken;
        }
        if ch == '\\' as int {
          var nextch := GetChar();
          if nextch < 0 {
            tokText := str;
            return ErrorToken;
          }
          str := str + Unescaped(nextch as char);
          k := k + 2;
        } else {
          str := str + [ch as char];
          k := k + 1;
        }
        ch := GetChar();
      }
      tokText := str;
      t := StringToken;
    }

    /** JsonTokenizer::NextToken */
    method NextToken() returns (t: Token)
      requires Valid() && attached
      modifies this
      ensures Valid() && attached && data == old(data)
      ensures var r := NextTokenSpec(old(laToken), data, old(Cursor()), old(tokText));
        t == r.token && tokText == r.text && laToken == r.la && Cursor() == r.next
    {
      var jt := laToken;
      laToken := NoToken;
      if jt == NoToken {
        jt := RealToken();
      }
      if jt != Digits && jt != Minus {
        return jt;
      }
      t := ReadNumber(jt == Minus);
    }

    /** The number-building part of NextToken, after a minus sign (neg) or after digits whose text is tokText. */
    method ReadNumber(neg: bool) returns (t: Token)
      requires Valid() && attached && laToken == NoToken
      modifies this
      ensures Valid() && attached && data == old(data)
      ensures var r := Number(neg, data, old(Cursor()), old(tokText));
        t == r.token && tokText == r.text && laToken == r.la && Cursor() == r.next
    {
      if neg {
        var jt := RealToken();
        if jt != Digits {
          return ErrorToken;
        }
        t := ReadMantissa("-" + TokenText());
      } else {
        t := ReadMantissa(TokenText());
      }
    }

    /** The fraction part of NextToken, after the integer part `intPart`. */
    method ReadMantissa(intPart: string) returns (t: Token)
      requires Valid() && attached && laToken == NoToken
      modifies this
      ensures Valid() && attached && data == old(data)
      ensures var r := Mantissa(data, intPart, old(Cursor()), old(tokText));
        t == r.token && tokText == r.text && laToken == r.la && Cursor() == r.next
    {
      var str := intPart;
      var jt := RealToken();
      var founddot := false;
      if jt == Dot {
        str := str + ".";
        jt := RealToken();
        if jt != Digits {
          return ErrorToken;
        }
        founddot := true;
        str := str + TokenText();
        jt := RealToken();
      }
      t := ReadExponent(str, founddot, jt);
    }

    /** The exponent part of NextToken, once the token after the mantissa `str` is jt (as ExponentFixed). */
    method ReadExponent(str: string, founddot: bool, jt: Token) returns (t: Token)
      requires Valid() && attached && laToken == NoToken
      modifies this
      ensures Valid() && attached && data == old(data)
      ensures var r := ExponentFixed(data, str, founddot, jt, old(Cursor()), old(tokText));
        t == r.token && tokText == r.text && laToken == r.la && Cursor() == r.next
    {
      var toktext := TokenText();
      if jt == Ident && (toktext == "e" || toktext == "E") {
        t := ReadSignedDigits(str + TokenText());
      } else if jt == Ident && IsUnsignedExponent(toktext) {
        tokText := str + toktext;
        t := DoubleToken;
      } else {
        tokText := str;
        laToken := jt;
        return if founddot then DoubleToken else IntToken;
      }
    }

    /** The exponent digits of NextToken, after the mantissa and its 'e' (both in `s`). */
    method ReadSignedDigits(s: string) returns (t: Token)
      requires Valid() && attached && laToken == NoToken
      modifies this
      ensures Valid() && attached && data == old(data)
      ensures var r := ExponentDigits(data, s, old(Cursor()), old(tokText));
        t == r.token && tokText == r.text && laToken == r.la && Cursor() == r.next
    {
      ghost var y := LexAt(data, Cursor());
      ghost var ty := NewText(tokText, y.text);
      var jt := RealToken();
      assert jt == y.token && tokText == ty && Cursor() == y.next;
      if jt == Plus || jt == Minus {
        var sign := if jt == Plus then "+" else "-";
        ghost var z := LexAt(data, Cursor());
        jt := RealToken();
        assert jt == z.token && tokText == NewText(ty, z.text) && Cursor() == z.next;
        if jt == Digits {
          tokText := s + sign + TokenText();
        }
      } else if jt == Digits {
        tokText := s + TokenText();
      }
      t := if jt == Digits then DoubleToken else ErrorToken;
    }
  }
}
