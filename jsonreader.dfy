/**
 * The recursive-descent tree builder (ReadNode and DefaultJsonBuilder::Build),
 * driven by the stateful tokenizer.
 *
 * `Read`, `ReadMembers` and `ReadItems` state what ReadNode yields from a
 * tokenizer state; the method `ReadNode` walks a `Tokenizer` object the way
 * the source does and is proved to agree with them.
 */
module JsonReader {
  import opened CText
  import opened Json
  import opened SortedMap
  import opened JsonTokenizer

  /** The part of a tokenizer's state that NextToken reads and writes. */
  datatype Scan = Scan(la: Token, pos: nat, text: string)

  /** What a pending look-ahead may still cost: a number start can read on. */
  function Weight(la: Token): (w: nat)
    ensures w <= 2
  {
    if la == NoToken then 0 else if la == Digits || la == Minus then 2 else 1
  }

  /** How much work a tokenizer state has left; no NextToken call increases it. */
  function Measure(n: nat, s: Scan): (m: nat)
    requires s.pos <= n
  {
    3 * (n - s.pos) + Weight(s.la)
  }

  /** A token other than the end of input moves the lexer forward. */
  lemma {:induction false} LexAdvances(data: string, i: nat)
    requires i <= |data|
    ensures LexAt(data, i).token != Eof ==> i < LexAt(data, i).next
    ensures LexAt(data, i).token != NoToken
  {
    var j := SpaceEnd(data, i);
    if j < |data| {
      var c := data[j];
      if !(Punctuation(c).Some?) && (c == '\'' || c == '"') {
        ScanOutcome(data, j + 1, c, []);
      }
    }
  }

  /** The exponent part always clears the look-ahead and never moves back. */
  lemma {:induction false} ExponentDigitsProgress(data: string, s: string, i: nat, t: string)
    requires i <= |data|
    ensures var r := ExponentDigits(data, s, i, t); r.la == NoToken && i <= r.next <= |data|
  {
  }

  /** The end of a number keeps as look-ahead only the token it stands after. */
  lemma {:induction false} ExponentFixedProgress(data: string, str: string, dot: bool, tok: Token, i: nat, t: string)
    requires i <= |data|
    ensures var r := ExponentFixed(data, str, dot, tok, i, t);
      i <= r.next <= |data| && (r.la == NoToken || (r.la == tok && r.next == i))
  {
    ExponentDigitsProgress(data, str + t, i, t);
  }

  /** A mantissa leaves behind a look-ahead token only after reading past it. */
  lemma {:induction false} MantissaProgress(data: string, intPart: string, i: nat, t: string)
    requires i <= |data|
    ensures var r := Mantissa(data, intPart, i, t);
      i <= r.next <= |data| && (r.la != NoToken && r.la != Eof ==> i < r.next)
  {
    var x2 := LexAt(data, i);
    var t2 := NewText(t, x2.text);
    LexAdvances(data, i);
    if x2.token == Dot {
      var x3 := LexAt(data, x2.next);
      var t3 := NewText(t2, x3.text);
      if x3.token == Digits {
        var x4 := LexAt(data, x3.next);
        ExponentFixedProgress(data, intPart + "." + t3, true, x4.token, x4.next, NewText(t3, x4.text));
      }
    } else {
      ExponentFixedProgress(data, intPart, false, x2.token, x2.next, t2);
    }
  }

  /** A number leaves behind a look-ahead token only after reading past it. */
  lemma {:induction false} NumberProgress(neg: bool, data: string, i: nat, text: string)
    requires i <= |data|
    ensures var r := Number(neg, data, i, text);
      i <= r.next <= |data| && (r.la != NoToken && r.la != Eof ==> i < r.next)
  {
    if neg {
      var xd := LexAt(data, i);
      var td := NewText(text, xd.text);
      if xd.token == Digits {
        MantissaProgress(data, "-" + td, xd.next, td);
      }
    } else {
      MantissaProgress(data, text, i, text);
    }
  }

  /** NextToken never increases the measure, and decreases it unless it returns the end of input. */
  lemma {:induction false} NextTokenProgress(data: string, s: Scan)
    requires s.pos <= |data|
    ensures var r := NextTokenSpec(s.la, data, s.pos, s.text);
      r.next <= |data| &&
      Measure(|data|, Scan(r.la, r.next, r.text)) <= Measure(|data|, s) &&
      (r.token != Eof ==> Measure(|data|, Scan(r.la, r.next, r.text)) < Measure(|data|, s))
  {
    var r := NextTokenSpec(s.la, data, s.pos, s.text);
    if s.la == NoToken {
      var x0 := LexAt(data, s.pos);
      LexAdvances(data, s.pos);
      if x0.token == Digits || x0.token == Minus {
        NumberProgress(x0.token == Minus, data, x0.next, NewText(s.text, x0.text));
      }
    } else if s.la == Digits || s.la == Minus {
      NumberProgress(s.la == Minus, data, s.pos, NewText(s.text, None));
    }
  }

  /** NextToken as a step on the Scan of a tokenizer reading `data`. */
  function NextStep(data: string, s: Scan): (r: (Token, Scan))
    requires s.pos <= |data|
  {
    var x := NextTokenSpec(s.la, data, s.pos, s.text);
    (x.token, Scan(x.la, x.next, x.text))
  }

  /**
   * The builder sees the tokenizer only through NextToken and TokenText:
   * a Lexer maps a Scan to the token NextToken returns and the Scan after it.
   */
  type Lexer = Scan -> (Token, Scan)

  /** The tokenizer on `data`, as a Lexer. */
  function TokenizerOn(data: string): (lx: Lexer)
  {
    (s: Scan) => if s.pos <= |data| then NextStep(data, s) else (Eof, s)
  }

  /** A lexer over n characters that never increases the measure, and decreases it except at Eof. */
  ghost predicate Progresses(n: nat, lx: Lexer) {
    forall s: Scan :: s.pos <= n ==>
      lx(s).1.pos <= n && Measure(n, lx(s).1) <= Measure(n, s) &&
      (lx(s).0 != Eof ==> Measure(n, lx(s).1) < Measure(n, s))
  }

  /** The tokenizer makes progress, so ReadNode terminates on every stream. */
  lemma {:induction false} TokenizerProgresses(data: string)
    ensures Progresses(|data|, TokenizerOn(data))
  {
    forall s: Scan | s.pos <= |data|
      ensures TokenizerOn(data)(s).1.pos <= |data|
      ensures Measure(|data|, TokenizerOn(data)(s).1) <= Measure(|data|, s)
      ensures TokenizerOn(data)(s).0 != Eof ==> Measure(|data|, TokenizerOn(data)(s).1) < Measure(|data|, s)
    {
      NextTokenProgress(data, s);
    }
  }

  /** The rank of a call by its look-ahead argument: none reads first, Eof is a dead end. */
  function GivenRank(given: Option<Token>): (n: nat)
  {
    match given
    case None => 3
    case Some(t) => if t == Eof then 0 else 2
  }

  /** The rank of a list loop by its current token. */
  function ItemRank(tok: Token): (n: nat)
  {
    if tok == Eof then 1 else 3
  }

  /** What ReadNode builds: lists hold no empty item, objects no empty value, keys in order. */
  predicate WellFormed(n: Node) {
    match n
    case ListNode(items) => GoodItems(items)
    case ObjectNode(entries) => Ordered(entries) && GoodEntries(entries)
    case _ => true
  }

  /** Every item is present and well formed. */
  predicate GoodItems(items: seq<Ptr>)
    decreases items
  {
    forall p :: p in items ==> p.Some? && (assert p.value < p; WellFormed(p.value))
  }

  /** Every member value is present and well formed. */
  predicate GoodEntries(entries: seq<(string, Ptr)>)
    decreases entries
  {
    forall p :: p in entries ==> p.1.Some? && (assert p.1 < p; WellFormed(p.1.value))
  }

  /** The tokens a value can start with. */
  predicate IsValueStart(t: Token) {
    t in {IntToken, DoubleToken, TrueToken, FalseToken, StringToken, OpenBrace, OpenSquare}
  }

  /** ReadNode from state s, with the token already read when `given` holds one. */
  function Read(lx: Lexer, n: nat, s: Scan, given: Option<Token>): (r: (Ptr, Scan))
    requires Progresses(n, lx) && s.pos <= n
    ensures r.1.pos <= n && Measure(n, r.1) <= Measure(n, s)
    ensures r.0.Some? ==> WellFormed(r.0.value)
    ensures r.0.Some? && given.Some? ==> IsValueStart(given.value)
    decreases Measure(n, s), GivenRank(given)
  {
    var (tok, s1) := if given.Some? then (given.value, s) else lx(s);
    if tok == IntToken then (Some(IntNode(Atoi(s1.text))), s1)
    else if tok == DoubleToken then (Some(DoubleNode(s1.text)), s1)
    else if tok == TrueToken then (Some(BoolNode(true)), s1)
    else if tok == FalseToken then (Some(BoolNode(false)), s1)
    else if tok == StringToken then (Some(StringNode(s1.text)), s1)
    else if tok == OpenBrace then
      var (t2, s2) := lx(s1);
      ReadMembers(lx, n, t2, s2, [])
    else if tok == OpenSquare then
      var (t2, s2) := lx(s1);
      ReadItems(lx, n, t2, s2, [])
    else (None, s1)
  }

  /** The token after an item or a member, stepping over one ',' that follows it. */
  function SkipComma(lx: Lexer, n: nat, s: Scan): (r: (Token, Scan))
    requires Progresses(n, lx) && s.pos <= n
    ensures r.1.pos <= n && Measure(n, r.1) <= Measure(n, s)
    ensures r.0 != Eof ==> Measure(n, r.1) < Measure(n, s)
  {
    var (t, s1) := lx(s);
    if t == Comma then lx(s1) else (t, s1)
  }

  /** The member loop of an object, with `tok` the current token and `entries` the members so far. */
  function ReadMembers(lx: Lexer, n: nat, tok: Token, s: Scan, entries: seq<(string, Ptr)>): (r: (Ptr, Scan))
    requires Progresses(n, lx) && s.pos <= n
    requires Ordered(entries) && GoodEntries(entries)
    ensures r.1.pos <= n && Measure(n, r.1) <= Measure(n, s)
    ensures r.0.Some? ==> WellFormed(r.0.value)
    decreases Measure(n, s), 1
  {
    if tok == Ident || tok == StringToken then
      var name := s.text;
      var (t2, s2) := lx(s);
      if t2 != Colon then (None, s2)
      else
        var (v, s3) := Read(lx, n, s2, None);
        var entries' := if v.None? then entries else Insert(entries, name, v);
        var (t5, s5) := SkipComma(lx, n, s3);
        ReadMembers(lx, n, t5, s5, entries')
    else if tok == CloseBrace then (Some(ObjectNode(entries)), s)
    else (None, s)
  }

  /** The item loop of a list, with `tok` the current token and `items` the items so far. */
  function ReadItems(lx: Lexer, n: nat, tok: Token, s: Scan, items: seq<Ptr>): (r: (Ptr, Scan))
    requires Progresses(n, lx) && s.pos <= n
    requires GoodItems(items)
    ensures r.1.pos <= n && Measure(n, r.1) <= Measure(n, s)
    ensures r.0.Some? ==> WellFormed(r.0.value)
    decreases Measure(n, s), ItemRank(tok)
  {
    if tok == CloseSquare then (Some(ListNode(items)), s)
    else
      var (child, s1) := Read(lx, n, s, Some(tok));
      if child.None? then (None, s1)
      else
        var (t3, s3) := SkipComma(lx, n, s1);
        assert ItemRank(tok) == 3 && Measure(n, s3) <= Measure(n, s);
        assert t3 != Eof ==> Measure(n, s3) < Measure(n, s);
        GoodItemsAppend(items, child);
        ReadItems(lx, n, t3, s3, items + [child])
  }

  /** A present, well-formed item keeps the items good. */
  lemma {:induction false} GoodItemsAppend(items: seq<Ptr>, child: Ptr)
    requires GoodItems(items) && child.Some? && WellFormed(child.value)
    ensures GoodItems(items + [child])
  {
    forall p | p in items + [child] ensures p.Some? && WellFormed(p.value) {
      if p !in items { assert p == child; }
    }
  }

  /** The state of a tokenizer that Begin has just attached. */
  const Start: Scan := Scan(NoToken, 0, [])

  /** DefaultJsonBuilder::Build: a fresh tokenizer on the stream, then ReadNode. */
  function Build(data: string): (r: Ptr)
    ensures r.Some? ==> WellFormed(r.value)
  {
    TokenizerProgresses(data);
    Read(TokenizerOn(data), |data|, Start, None).0
  }

  // ---------------------------------------------------------------------
  // Properties of the builder, for any lexer that makes progress

  /** A token that starts no value, such as null or a bare identifier, reads as the empty pointer and nothing more is read. */
  lemma {:induction false} NoValueIsEmpty(lx: Lexer, n: nat, s: Scan, tok: Token)
    requires Progresses(n, lx) && s.pos <= n
    requires !IsValueStart(tok)
    ensures Read(lx, n, s, Some(tok)) == (None, s)
  {
  }

  /** Inside a list, an item that reads as empty makes the whole list empty. */
  lemma {:induction false} EmptyItemEmptiesList(lx: Lexer, n: nat, tok: Token, s: Scan, items: seq<Ptr>)
    requires Progresses(n, lx) && s.pos <= n && tok != CloseSquare
    requires GoodItems(items)
    requires Read(lx, n, s, Some(tok)).0.None?
    ensures ReadItems(lx, n, tok, s, items).0.None?
  {
  }

  /** A member name must be followed by ':', or the object is empty. */
  lemma {:induction false} KeyNeedsColon(lx: Lexer, n: nat, tok: Token, s: Scan, entries: seq<(string, Ptr)>)
    requires Progresses(n, lx) && s.pos <= n && (tok == Ident || tok == StringToken)
    requires Ordered(entries) && GoodEntries(entries)
    requires lx(s).0 != Colon
    ensures ReadMembers(lx, n, tok, s, entries).0.None?
  {
  }

  /** The member loop ends only at '}' with the object, or anywhere else with the empty pointer. */
  lemma {:induction false} MembersEnd(lx: Lexer, n: nat, tok: Token, s: Scan, entries: seq<(string, Ptr)>)
    requires Progresses(n, lx) && s.pos <= n && tok != Ident && tok != StringToken
    requires Ordered(entries) && GoodEntries(entries)
    ensures ReadMembers(lx, n, tok, s, entries).0 == if tok == CloseBrace then Some(ObjectNode(entries)) else None
  {
  }

  /** A list still open at the end of input gives the empty pointer: a list needs its ']'. */
  lemma {:induction false} ListNeedsClose(lx: Lexer, n: nat, s: Scan, items: seq<Ptr>)
    requires Progresses(n, lx) && s.pos <= n
    requires GoodItems(items)
    ensures ReadItems(lx, n, Eof, s, items).0.None?
  {
    NoValueIsEmpty(lx, n, s, Eof);
  }

  // ---------------------------------------------------------------------
  // ReadNode over the tokenizer object

  /** The tokenizer's state as a Scan. */
  function ScanOf(tz: Tokenizer): (s: Scan)
    reads tz
    requires tz.Valid()
    ensures s.pos <= |tz.data|
  {
    Scan(tz.laToken, tz.Cursor(), tz.tokText)
  }

  /**
   * lx answers as NextToken does on `data`. The trigger keeps the tokenizer's
   * definition out of sight everywhere but in NextOf.
   */
  ghost predicate StepsLike(lx: Lexer, data: string) {
    forall s: Scan {:trigger NextStep(data, s)} :: s.pos <= |data| ==> lx(s) == NextStep(data, s)
  }

  /** TokenizerOn(data) is such a lexer. */
  lemma {:induction false} TokenizerStepsLike(data: string)
    ensures StepsLike(TokenizerOn(data), data)
  {
  }

  /** tokenizer.NextToken() read as a step of lx. */
  method NextOf(tz: Tokenizer, ghost lx: Lexer) returns (t: Token)
    requires tz.Valid() && tz.attached && StepsLike(lx, tz.data) && Progresses(|tz.data|, lx)
    modifies tz
    ensures tz.Valid() && tz.attached && tz.data == old(tz.data)
    ensures (t, ScanOf(tz)) == lx(old(ScanOf(tz)))
    ensures Measure(|tz.data|, ScanOf(tz)) <= Measure(|tz.data|, old(ScanOf(tz)))
    ensures t != Eof ==> Measure(|tz.data|, ScanOf(tz)) < Measure(|tz.data|, old(ScanOf(tz)))
  {
    ghost var s := ScanOf(tz);
    assert lx(s) == NextStep(tz.data, s);
    t := tz.NextToken();
  }

  /** The token after an item or a member, over one optional ','. */
  method NextAfter(tz: Tokenizer, ghost lx: Lexer) returns (t: Token)
    requires tz.Valid() && tz.attached && StepsLike(lx, tz.data) && Progresses(|tz.data|, lx)
    modifies tz
    ensures tz.Valid() && tz.attached && tz.data == old(tz.data)
    ensures (t, ScanOf(tz)) == SkipComma(lx, |tz.data|, old(ScanOf(tz)))
    ensures Measure(|tz.data|, ScanOf(tz)) <= Measure(|tz.data|, old(ScanOf(tz)))
    ensures t != Eof ==> Measure(|tz.data|, ScanOf(tz)) < Measure(|tz.data|, old(ScanOf(tz)))
  {
    t := NextOf(tz, lx);
    if t == Comma {
      t := NextOf(tz, lx);
    }
  }

  /**
   * ReadNode(tokenizer, laToken): builds the node that starts with `given`
   * (when the caller already read it) or with the next token.
   */
  method ReadNode(tz: Tokenizer, given: Option<Token>, ghost lx: Lexer) returns (node: Ptr)
    requires tz.Valid() && tz.attached && StepsLike(lx, tz.data) && Progresses(|tz.data|, lx)
    modifies tz
    ensures tz.Valid() && tz.attached && tz.data == old(tz.data)
    ensures (node, ScanOf(tz)) == Read(lx, |tz.data|, old(ScanOf(tz)), given)
    decreases Measure(|tz.data|, ScanOf(tz)), GivenRank(given)
  {
    ghost var s0 := ScanOf(tz);
    var tok: Token;
    if given.Some? {
      tok := given.value;
    } else {
      tok := NextOf(tz, lx);
    }
    if tok == IntToken {
      node := Some(IntNode(Atoi(tz.TokenText())));
    } else if tok == DoubleToken {
      node := Some(DoubleNode(tz.TokenText()));
    } else if tok == TrueToken {
      node := Some(BoolNode(true));
    } else if tok == FalseToken {
      node := Some(BoolNode(false));
    } else if tok == StringToken {
      node := Some(StringNode(tz.TokenText()));
    } else if tok == OpenBrace {
      node := ReadObject(tz, lx, s0, given);
    } else if tok == OpenSquare {
      node := ReadList(tz, lx, s0, given);
    } else {
      node := None;
    }
  }

  /** The object branch of ReadNode, after its '{'. */
  method ReadObject(tz: Tokenizer, ghost lx: Lexer, ghost s0: Scan, ghost given: Option<Token>) returns (node: Ptr)
    requires tz.Valid() && tz.attached && StepsLike(lx, tz.data) && Progresses(|tz.data|, lx)
    requires s0.pos <= |tz.data| && Measure(|tz.data|, ScanOf(tz)) <= Measure(|tz.data|, s0)
    requires given.None? ==> Measure(|tz.data|, ScanOf(tz)) < Measure(|tz.data|, s0)
    requires given.Some? ==> given.value == OpenBrace
    modifies tz
    ensures tz.Valid() && tz.attached && tz.data == old(tz.data)
    ensures var (t2, s2) := lx(old(ScanOf(tz)));
      (node, ScanOf(tz)) == ReadMembers(lx, |tz.data|, t2, s2, [])
    decreases Measure(|tz.data|, s0), GivenRank(given), 0
  {
    ghost var data := tz.data;
    var entries: seq<(string, Ptr)> := [];
    var tok := NextOf(tz, lx);
    ghost var goal := ReadMembers(lx, |data|, tok, ScanOf(tz), []);
    while tok == Ident || tok == StringToken
      invariant tz.Valid() && tz.attached && tz.data == data
      invariant Ordered(entries) && GoodEntries(entries)
      invariant Measure(|data|, ScanOf(tz)) <= Measure(|data|, s0)
      invariant tok != Eof ==> Measure(|data|, ScanOf(tz)) < Measure(|data|, s0)
      invariant ReadMembers(lx, |data|, tok, ScanOf(tz), entries) == goal
      decreases Measure(|data|, ScanOf(tz))
    {
      var ok;
      ok, tok, entries := ReadMember(tz, lx, tok, entries);
      if !ok {
        return None;
      }
    }
    if tok != CloseBrace {
      return None;
    }
    node := Some(ObjectNode(entries));
  }

  /**
   * One member of the object loop: the name in hand, then ':', the value and
   * an optional ','. `ok` is false where ReadNode gives up on the object.
   */
  method ReadMember(tz: Tokenizer, ghost lx: Lexer, tok: Token, entries: seq<(string, Ptr)>)
    returns (ok: bool, next: Token, entries': seq<(string, Ptr)>)
    requires tz.Valid() && tz.attached && StepsLike(lx, tz.data) && Progresses(|tz.data|, lx)
    requires tok == Ident || tok == StringToken
    requires Ordered(entries) && GoodEntries(entries)
    modifies tz
    ensures tz.Valid() && tz.attached && tz.data == old(tz.data)
    ensures Ordered(entries') && GoodEntries(entries')
    ensures ok ==> Measure(|tz.data|, ScanOf(tz)) < Measure(|tz.data|, old(ScanOf(tz)))
    ensures ReadMembers(lx, |tz.data|, tok, old(ScanOf(tz)), entries) ==
      if ok then ReadMembers(lx, |tz.data|, next, ScanOf(tz), entries') else (None, ScanOf(tz))
    decreases Measure(|tz.data|, ScanOf(tz)), 4
  {
    ghost var data := tz.data;
    ghost var m0 := Measure(|data|, ScanOf(tz));
    var attrName := tz.TokenText();
    next := NextOf(tz, lx);
    entries' := entries;
    if next != Colon {
      return false, next, entries';
    }
    next, entries' := ReadMemberValue(tz, lx, attrName, entries);
    ok := true;
  }

  /** The rest of a member after its ':': the value, stored unless empty, then an optional ','. */
  method ReadMemberValue(tz: Tokenizer, ghost lx: Lexer, name: string, entries: seq<(string, Ptr)>)
    returns (next: Token, entries': seq<(string, Ptr)>)
    requires tz.Valid() && tz.attached && StepsLike(lx, tz.data) && Progresses(|tz.data|, lx)
    requires Ordered(entries) && GoodEntries(entries)
    modifies tz
    ensures tz.Valid() && tz.attached && tz.data == old(tz.data)
    ensures Ordered(entries') && GoodEntries(entries')
    ensures Measure(|tz.data|, ScanOf(tz)) <= Measure(|tz.data|, old(ScanOf(tz)))
    ensures var (v, s3) := Read(lx, |tz.data|, old(ScanOf(tz)), None);
      entries' == (if v.None? then entries else Insert(entries, name, v)) &&
      (next, ScanOf(tz)) == SkipComma(lx, |tz.data|, s3)
    decreases Measure(|tz.data|, ScanOf(tz)), 4
  {
    var valNode := ReadNode(tz, None, lx);
    entries' := entries;
    if valNode.Some? {
      entries' := Insert(entries, name, valNode);
    }
    next := NextAfter(tz, lx);
  }

  /** The list branch of ReadNode, after its '['. */
  method ReadList(tz: Tokenizer, ghost lx: Lexer, ghost s0: Scan, ghost given: Option<Token>) returns (node: Ptr)
    requires tz.Valid() && tz.attached && StepsLike(lx, tz.data) && Progresses(|tz.data|, lx)
    requires s0.pos <= |tz.data| && Measure(|tz.data|, ScanOf(tz)) <= Measure(|tz.data|, s0)
    requires given.None? ==> Measure(|tz.data|, ScanOf(tz)) < Measure(|tz.data|, s0)
    requires given.Some? ==> given.value == OpenSquare
    modifies tz
    ensures tz.Valid() && tz.attached && tz.data == old(tz.data)
    ensures var (t2, s2) := lx(old(ScanOf(tz)));
      (node, ScanOf(tz)) == ReadItems(lx, |tz.data|, t2, s2, [])
    decreases Measure(|tz.data|, s0), GivenRank(given), 0
  {
    ghost var data := tz.data;
    var items: seq<Ptr> := [];
    var tok := NextOf(tz, lx);
    ghost var goal := ReadItems(lx, |data|, tok, ScanOf(tz), []);
    while tok != CloseSquare
      invariant tz.Valid() && tz.attached && tz.data == data
      invariant GoodItems(items)
      invariant Measure(|data|, ScanOf(tz)) <= Measure(|data|, s0)
      invariant tok != Eof ==> Measure(|data|, ScanOf(tz)) < Measure(|data|, s0)
      invariant ReadItems(lx, |data|, tok, ScanOf(tz), items) == goal
      decreases Measure(|data|, ScanOf(tz)), ItemRank(tok)
    {
      ghost var m0 := Measure(|data|, ScanOf(tz));
      var child := ReadNode(tz, Some(tok), lx);
      if child.None? {
        return None;
      }
      assert IsValueStart(tok) && Measure(|data|, ScanOf(tz)) <= m0;
      items := items + [child];
      tok := NextAfter(tz, lx);
      assert Measure(|data|, ScanOf(tz)) < m0 || (Measure(|data|, ScanOf(tz)) <= m0 && tok == Eof);
    }
    node := Some(ListNode(items));
  }

  /** DefaultJsonBuilder::Build over a tokenizer object. */
  method BuildTree(stream: string) returns (node: Ptr)
    ensures node == Build(stream)
  {
    var tz := new Tokenizer();
    tz.Begin(stream);
    TokenizerProgresses(stream);
    TokenizerStepsLike(stream);
    node := ReadNode(tz, None, TokenizerOn(stream));
  }
}
