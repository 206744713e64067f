/**
 * The AMF 3 serialiser (AMFFormatter): U29 integers (section 1.3.1 of the
 * AMF 3 specification), strings and the array/object markers (section 3).
 *
 * A std::string is a sequence of C chars; a model char stands for the byte
 * `CharByte(c)`, and the source's `char` is signed.
 */
module Amf {
  import opened CText
  import opened Json

  const MarkerNull: Byte := 0x01
  const MarkerFalse: Byte := 0x02
  const MarkerTrue: Byte := 0x03
  const MarkerInt: Byte := 0x04
  const MarkerDouble: Byte := 0x05
  const MarkerString: Byte := 0x06
  const MarkerArray: Byte := 0x09

  // ---------------------------------------------------------------------
  // encodeInt as written

  /** 2^(7i) for the four 7-bit groups of the small-value branch. */
  function LowShift(i: nat): (r: nat)
    requires i < 4
    ensures r > 0
  {
    if i == 0 then 1 else if i == 1 then 0x80 else if i == 2 then 0x4000 else 0x20_0000
  }

  /** 2^(8+7i) for the three leading groups of the large-value branch. */
  function HighShift(i: nat): (r: nat)
    requires i < 3
    ensures r > 0
  {
    if i == 0 then 0x100 else if i == 1 then 0x8000 else 0x40_0000
  }

  /**
   * The `temp` array of encodeInt: `(input & 0xff000000) == 0` picks four
   * 7-bit groups, otherwise three 7-bit groups above an 8-bit one.  The
   * shifts are arithmetic (floor division) and `& 0x7F` is the remainder
   * modulo 128.
   */
  function IntGroups(input: Int32): (t: seq<int>)
    ensures |t| == 4
    ensures forall k :: 0 <= k < 3 ==> 0 <= t[k] < 128
    ensures 0 <= t[3] < 256
  {
    if 0 <= input < 0x100_0000 then
      [(input / LowShift(3)) % 128, (input / LowShift(2)) % 128, (input / LowShift(1)) % 128, input % 128]
    else
      [(input / HighShift(2)) % 128, (input / HighShift(1)) % 128, (input / HighShift(0)) % 128, input % 256]
  }

  /** The leading groups that are written: the non-zero ones, with bit 0x80 set. */
  function MarkGroups(t: seq<int>): (r: seq<int>)
    ensures |r| <= |t|
  {
    if t == [] then []
    else
      var last := t[|t| - 1];
      MarkGroups(t[..|t| - 1]) + (if last > 0 then [last + 0x80] else [])
  }

  /** encodeInt: the bytes it writes. */
  function EncodeIntAsWritten(input: Int32): (r: seq<int>)
  {
    var t := IntGroups(input);
    MarkGroups(t[..3]) + [t[3]]
  }

  /** Marked groups lie in 0x81..0xFF when the groups are 7-bit. */
  lemma {:induction false} MarkGroupsRange(t: seq<int>)
    requires forall k :: 0 <= k < |t| ==> 0 <= t[k] < 128
    ensures forall k :: 0 <= k < |MarkGroups(t)| ==> 0x80 < MarkGroups(t)[k] < 0x100
  {
    if t != [] {
      MarkGroupsRange(t[..|t| - 1]);
    }
  }

  /**
   * encodeInt writes one to four bytes, every byte but the last has bit
   * 0x80 set, and 0..127 is the single byte itself.
   */
  lemma {:induction false} EncodeIntShape(input: Int32)
    ensures var r := EncodeIntAsWritten(input);
      1 <= |r| <= 4 && (forall k :: 0 <= k < |r| ==> 0 <= r[k] < 256) &&
      (forall k :: 0 <= k < |r| - 1 ==> r[k] >= 0x80) &&
      (0 <= input < 0x80 ==> r == [input])
  {
    var t := IntGroups(input);
    MarkGroupsRange(t[..3]);
    if 0 <= input < 0x80 {
      assert t == [0, 0, 0, input] && t[..3] == [0, 0, 0];
      assert [0][..0] == [] && [0, 0][..1] == [0] && [0, 0, 0][..2] == [0, 0];
      assert MarkGroups([0]) == [] && MarkGroups([0, 0]) == [] && MarkGroups([0, 0, 0]) == [];
    }
  }

  // ---------------------------------------------------------------------
  // U29, section 1.3.1 of the AMF 3 specification

  const U29Limit: nat := 0x2000_0000

  /** An int as the 29-bit two's complement U29 carries. */
  function U29(i: int): (v: nat)
    ensures v < U29Limit
    ensures 0 <= i < U29Limit ==> v == i
  {
    i % U29Limit
  }

  /** The U29 encoding: 7-bit groups with a continuation bit, and a full last byte in the 4-byte form. */
  function EncodeU29(v: nat): (r: seq<Byte>)
    requires v < U29Limit
    ensures 1 <= |r| <= 4
    ensures forall k :: 0 <= k < |r| - 1 ==> r[k] >= 0x80
  {
    if v < 0x80 then [v]
    else if v < 0x4000 then [v / 0x80 + 0x80, v % 0x80]
    else if v < 0x20_0000 then [v / 0x4000 + 0x80, (v / 0x80) % 0x80 + 0x80, v % 0x80]
    else [v / 0x40_0000 + 0x80, (v / 0x8000) % 0x80 + 0x80, (v / 0x100) % 0x80 + 0x80, v % 0x100]
  }

  /** Reads a U29 from the front of b: the value and the number of bytes it took. */
  function DecodeU29(b: seq<Byte>): (r: Option<(nat, nat)>)
    ensures r.Some? ==> 1 <= r.value.1 <= 4 && r.value.1 <= |b| && r.value.0 < U29Limit
  {
    if |b| >= 1 && b[0] < 0x80 then Some((b[0], 1))
    else if |b| >= 2 && b[1] < 0x80 then Some(((b[0] as int - 0x80) * 0x80 + b[1], 2))
    else if |b| >= 3 && b[2] < 0x80 then Some((((b[0] as int - 0x80) * 0x80 + (b[1] as int - 0x80)) * 0x80 + b[2], 3))
    else if |b| >= 4 then Some(((((b[0] as int - 0x80) * 0x80 + (b[1] as int - 0x80)) * 0x80 + (b[2] as int - 0x80)) * 0x100 + b[3], 4))
    else None
  }

  /** b starts with a U29 of value v taking h bytes. */
  predicate ReadsU29(b: seq<Byte>, v: int, h: int) {
    DecodeU29(b).Some? && DecodeU29(b).value.0 == v && DecodeU29(b).value.1 == h
  }

  /** Every U29 value reads back from its encoding, whatever follows it. */
  lemma {:induction false} U29RoundTrip(v: nat, rest: seq<Byte>)
    requires v < U29Limit
    ensures DecodeU29(EncodeU29(v) + rest) == Some((v, |EncodeU29(v)|))
  {
    var b := EncodeU29(v) + rest;
    if v < 0x80 {
    } else if v < 0x4000 {
      assert b[0] == v / 0x80 + 0x80 && b[1] == v % 0x80;
    } else if v < 0x20_0000 {
      var q := v / 0x80;
      assert v == q * 0x80 + v % 0x80;
      assert q / 0x80 == v / 0x4000;
      assert b[0] - 0x80 == q / 0x80 && b[1] - 0x80 == q % 0x80 && b[2] == v % 0x80;
      assert q == (q / 0x80) * 0x80 + q % 0x80;
    } else {
      var q1 := v / 0x100;
      var q2 := q1 / 0x80;
      assert v == q1 * 0x100 + v % 0x100;
      assert q1 == q2 * 0x80 + q1 % 0x80;
      assert q2 == v / 0x8000;
      assert q2 / 0x80 == v / 0x40_0000;
      assert q2 == (q2 / 0x80) * 0x80 + q2 % 0x80;
      assert b[0] - 0x80 == q2 / 0x80 && b[1] - 0x80 == q2 % 0x80 && b[2] - 0x80 == q1 % 0x80 && b[3] == v % 0x100;
    }
  }

  /**
   * encodeInt drops zero groups even between non-zero ones, and uses a
   * 7-bit last group from 2^21 on, so 16384 and 2^21 both come out as
   * 0x81 0x00, which a U29 reader takes for 128.
   */
  lemma EncodeIntLosesZeroGroups()
    ensures EncodeIntAsWritten(0x4000) == [0x81, 0x00]
    ensures EncodeIntAsWritten(0x20_0000) == [0x81, 0x00]
    ensures DecodeU29([0x81, 0x00]) == Some((0x80, 2))
    ensures EncodeU29(0x4000) == [0x81, 0x80, 0x00]
  {
    MiddleGroupOnly();
    TopGroupOnly();
  }

  /** 2^14: the groups are 0, 1, 0, 0 and only the 1 and the last group are written. */
  lemma MiddleGroupOnly()
    ensures EncodeIntAsWritten(0x4000) == [0x81, 0x00]
  {
    var t := IntGroups(0x4000);
    assert t == [0, 1, 0, 0];
    assert t[..3] == [0, 1, 0] && [0, 1, 0][..2] == [0, 1] && [0, 1][..1] == [0] && [0][..0] == [];
  }

  /** 2^21: the groups are 1, 0, 0, 0 and only the 1 and the last group are written. */
  lemma TopGroupOnly()
    ensures EncodeIntAsWritten(0x20_0000) == [0x81, 0x00]
  {
    var u := IntGroups(0x20_0000);
    assert u == [1, 0, 0, 0];
    assert u[..3] == [1, 0, 0] && [1, 0, 0][..2] == [1, 0] && [1, 0][..1] == [1] && [1][..0] == [];
  }

  /**
   * encodeInt, filling `bytes` from the `temp` groups as the source does;
   * it returns the number of bytes written.
   */
  method EncodeInt(input: Int32, bytes: array<Byte>) returns (l: nat)
    requires bytes.Length >= 4
    modifies bytes
    ensures l <= 4 && bytes[..l] == EncodeIntAsWritten(input)
  {
    var t := IntGroups(input);
    var temp := SplitGroups(input);
    MarkGroupsRange(t[..3]);
    l := 0;
    var i := 0;
    while i < 3
      invariant 0 <= i <= 3 && l <= i
      invariant temp[..4] == t
      invariant bytes[..l] == MarkGroups(t[..i])
    {
      assert t[..i + 1][..i] == t[..i] && t[..i + 1][i] == temp[i];
      if temp[i] > 0 {
        bytes[l] := temp[i] + 0x80;
        assert bytes[..l + 1] == bytes[..l] + [bytes[l]];
        l := l + 1;
      }
      i := i + 1;
    }
    bytes[l] := temp[3];
    assert bytes[..l + 1] == bytes[..l] + [bytes[l]];
    l := l + 1;
  }

  /** The first half of encodeInt: the four groups in `temp`, most significant first. */
  method SplitGroups(input: Int32) returns (temp: array<int>)
    ensures fresh(temp) && temp.Length == 8 && temp[..4] == IntGroups(input)
  {
    var t := IntGroups(input);
    temp := new int[8];
    var len := 0;
    if 0 <= input < 0x100_0000 {
      var i := 3;
      while i >= 0
        invariant -1 <= i <= 3 && len == 3 - i
        invariant forall k :: 0 <= k < len ==> temp[k] == t[k]
      {
        temp[len] := (input / LowShift(i)) % 128;
        len := len + 1;
        i := i - 1;
      }
    } else {
      var i := 2;
      while i >= 0
        invariant -1 <= i <= 2 && len == 2 - i
        invariant forall k :: 0 <= k < len ==> temp[k] == t[k]
      {
        temp[len] := (input / HighShift(i)) % 128;
        len := len + 1;
        i := i - 1;
      }
      temp[len] := input % 256;
      len := len + 1;
    }
    assert temp[..4] == t;
  }

  // ---------------------------------------------------------------------
  // encodeUTF8

  /** The bytes the header of encodeUTF8 counts for one char: `input[i] & 0xffff`, then its UTF-8 width. */
  function CountedWidth(c: char): (n: nat)
  {
    var ch := SignedChar(c) % 0x1_0000;
    if ch <= 0x7F then 1 else if ch <= 0x7FF then 2 else 3
  }

  /** The bytes the second loop writes for one char: `unsigned ch = input[i]` without the mask. */
  function WrittenBytes(c: char): (r: seq<Byte>)
  {
    var ch := SignedChar(c) % 0x1_0000_0000;
    if ch <= 0x7F then [ch] else []
  }

  function CountedLength(s: string): (n: nat)
  {
    if s == [] then 0 else CountedLength(s[..|s| - 1]) + CountedWidth(s[|s| - 1])
  }

  function WrittenPayload(s: string): (r: seq<Byte>)
  {
    if s == [] then [] else WrittenPayload(s[..|s| - 1]) + WrittenBytes(s[|s| - 1])
  }

  /** encodeUTF8 as the source writes it: a length header from the first loop, bytes from the second. */
  function EncodeUtf8AsWritten(s: string): (r: seq<int>)
  {
    if s == [] then [1]
    else EncodeIntAsWritten(WrapInt32(2 * CountedLength(s) + 1)) + WrittenPayload(s)
  }

  /** A 7-bit char counts one byte and is written as itself. */
  lemma {:induction false} AsciiWidth(c: char)
    requires CharByte(c) < 0x80
    ensures CountedWidth(c) == 1 && WrittenBytes(c) == [CharByte(c)]
  {
  }

  /** Every other byte counts three in the header and writes nothing. */
  lemma {:induction false} HighByteWidth(c: char)
    requires CharByte(c) >= 0x80
    ensures CountedWidth(c) == 3 && WrittenBytes(c) == []
  {
  }

  /** The byte string a model string stands for. */
  function Bytes(s: string): (r: seq<Byte>)
    ensures |r| == |s|
  {
    seq(|s|, k requires 0 <= k < |s| => CharByte(s[k]))
  }

  predicate IsAscii(s: string) {
    forall k :: 0 <= k < |s| ==> CharByte(s[k]) < 0x80
  }

  /** On 7-bit text encodeUTF8 is encodeInt(2n+1) followed by the bytes themselves. */
  lemma {:induction false} AsciiAsWritten(s: string)
    requires IsAscii(s) && 2 * |s| + 1 < 0x8000_0000
    ensures EncodeUtf8AsWritten(s) == EncodeIntAsWritten(2 * |s| + 1) + Bytes(s)
  {
    AsciiParts(s);
    if s == [] {
      EncodeIntOfOne();
    } else {
      AsciiHeader(s, CountedLength(s));
    }
  }

  /** encodeInt(1) is the single byte 1, the header of an empty string. */
  lemma {:induction false} EncodeIntOfOne()
    ensures EncodeIntAsWritten(1) == [1]
  {
    var t := IntGroups(1);
    assert t[..3] == [0, 0, 0] && [0, 0, 0][..2] == [0, 0] && [0, 0][..1] == [0] && [0][..0] == [];
  }

  /** The header of a non-empty string whose counted length is n. */
  lemma {:induction false} AsciiHeader(s: string, n: nat)
    requires s != [] && n == CountedLength(s) && 2 * n + 1 < 0x8000_0000
    ensures EncodeUtf8AsWritten(s) == EncodeIntAsWritten(2 * n + 1) + WrittenPayload(s)
  {
    assert WrapInt32(2 * n + 1) == 2 * n + 1;
  }

  lemma {:induction false} AsciiParts(s: string)
    requires IsAscii(s)
    ensures CountedLength(s) == |s| && WrittenPayload(s) == Bytes(s)
  {
    if s != [] {
      var p := s[..|s| - 1];
      assert IsAscii(p) by {
        forall k | 0 <= k < |p| ensures CharByte(p[k]) < 0x80 { assert p[k] == s[k]; }
      }
      AsciiParts(p);
      AsciiWidth(s[|s| - 1]);
      assert Bytes(s) == Bytes(p) + [CharByte(s[|s| - 1])];
    }
  }

  /**
   * A single byte 0xE9: the header announces three payload bytes (encodeInt(7)
   * is the byte 7) but none is written.
   */
  lemma Utf8LengthMismatch()
    ensures EncodeUtf8AsWritten([0xE9 as char]) == [7]
    ensures EncodeUtf8([0xE9 as char]) == [5, 0xC3, 0xA9]
  {
    var s := [0xE9 as char];
    assert s[..0] == [];
    HighByteWidth(s[0]);
    assert CountedLength(s) == 3 && WrittenPayload(s) == [];
    var t := IntGroups(7);
    assert t[..3] == [0, 0, 0] && [0, 0, 0][..2] == [0, 0] && [0, 0][..1] == [0] && [0][..0] == [];
    assert Payload(s) == [0xC3, 0xA9];
  }

  /** UTF-8 of one byte read as an unsigned code point (Latin-1). */
  function Utf8Of(c: char): (r: seq<Byte>)
    ensures 1 <= |r| <= 2
  {
    var b := CharByte(c);
    if b < 0x80 then [b] else [0xC0 + b / 0x40, 0x80 + b % 0x40]
  }

  function Payload(s: string): (r: seq<Byte>)
    ensures |s| <= |r| <= 2 * |s|
  {
    if s == [] then [] else Payload(s[..|s| - 1]) + Utf8Of(s[|s| - 1])
  }

  /**
   * encodeUTF8 with each char read as an unsigned byte in both loops: the
   * U29 header 2n+1 counts exactly the n payload bytes.
   */
  function EncodeUtf8(s: string): (r: seq<Byte>)
  {
    var p := Payload(s);
    EncodeU29(U29(2 * |p| + 1)) + p
  }

  /** The header of a string reads back as the length of what follows it, and "" is the single byte 0x01. */
  lemma {:induction false} Utf8HeaderCountsPayload(s: string, rest: seq<Byte>)
    requires 2 * |Payload(s)| + 1 < U29Limit
    ensures var r := EncodeUtf8(s); var n := |Payload(s)|;
      ReadsU29(r + rest, 2 * n + 1, |r| - n) && r[|r| - n..] == Payload(s)
    ensures EncodeUtf8([]) == [1]
  {
    var p := Payload(s);
    var h := EncodeU29(2 * |p| + 1);
    assert EncodeUtf8(s) + rest == h + (p + rest);
    U29RoundTrip(2 * |p| + 1, p + rest);
    assert EncodeUtf8(s)[|h|..] == p;
  }

  /** On 7-bit text the corrected encoding keeps the header and copies the bytes. */
  lemma {:induction false} AsciiPayload(s: string)
    requires IsAscii(s)
    ensures Payload(s) == Bytes(s)
  {
    if s != [] {
      var p := s[..|s| - 1];
      assert IsAscii(p) by {
        forall k | 0 <= k < |p| ensures CharByte(p[k]) < 0x80 { assert p[k] == s[k]; }
      }
      AsciiPayload(p);
      assert Bytes(s) == Bytes(p) + [CharByte(s[|s| - 1])];
    }
  }

  /**
   * encodeUTF8 as written, with its two loops over the string: the first
   * counts `strLen`, the second appends the bytes to the buffer.
   */
  method EncodeUtf8Method(input: string) returns (out: seq<int>)
    ensures out == EncodeUtf8AsWritten(input)
  {
    if |input| == 0 {
      return [1];
    }
    var strLen := CountLength(input);
    var bytes := new Byte[4];
    var intLen := EncodeInt(WrapInt32(2 * strLen + 1), bytes);
    out := AppendPayload(bytes[..intLen], input);
  }

  /** The first loop of encodeUTF8: the byte count each character is taken to need. */
  method CountLength(input: string) returns (strLen: int)
    ensures strLen == CountedLength(input)
  {
    strLen := 0;
    var i := 0;
    while i < |input|
      invariant 0 <= i <= |input| && strLen == CountedLength(input[..i])
    {
      assert input[..i + 1][..i] == input[..i];
      var ch := SignedChar(input[i]) % 0x1_0000;
      if ch <= 0x7F {
        strLen := strLen + 1;
      } else if ch <= 0x7FF {
        strLen := strLen + 2;
      } else {
        strLen := strLen + 3;
      }
      i := i + 1;
    }
    assert input[..i] == input;
  }

  /** The second loop of encodeUTF8: the bytes it appends after the header. */
  method AppendPayload(header: seq<int>, input: string) returns (out: seq<int>)
    ensures out == header + WrittenPayload(input)
  {
    out := header;
    var i := 0;
    while i < |input|
      invariant 0 <= i <= |input| && out == header + WrittenPayload(input[..i])
    {
      assert input[..i + 1][..i] == input[..i];
      var ch := SignedChar(input[i]) % 0x1_0000_0000;
      if ch <= 0x7F {
        out := out + [ch];
      }
      i := i + 1;
    }
    assert input[..i] == input;
  }

  // ---------------------------------------------------------------------
  // AMFFormatter::Format

  /** The U29 AMF writes for an int node. */
  function AmfInt(i: Int32): (r: seq<Byte>)
  {
    EncodeU29(U29(i))
  }

  /**
   * AMFFormatter::Format(SMemBuff *, node), with the corrected integer and
   * string encoders.  `dbl` gives the 8 bytes stored for a double.
   */
  function AmfFormat(node: Ptr, dbl: string -> seq<Byte>): (r: seq<Byte>)
    ensures |r| >= 1
    decreases node, 1
  {
    match node
    case None => [MarkerNull]
    case Some(n) => AmfNode(n, dbl)
  }

  function AmfNode(n: Node, dbl: string -> seq<Byte>): (r: seq<Byte>)
    ensures |r| >= 1
    decreases n, 0
  {
    match n
    case NullNode => [MarkerNull]
    case BoolNode(b) => [if b then MarkerTrue else MarkerFalse]
    case IntNode(i) => [MarkerInt] + AmfInt(i)
    case DoubleNode(lit) => [MarkerDouble] + dbl(lit)
    case StringNode(s) => [MarkerString] + EncodeUtf8(s)
    case ListNode(items) => [MarkerArray] + EncodeU29(U29(2 * |items| + 1)) + EncodeUtf8("") + AmfItems(items, dbl)
    case ObjectNode(entries) => [MarkerArray, 0x01] + AmfEntries(entries, dbl) + EncodeUtf8("")
  }

  function AmfItems(items: seq<Ptr>, dbl: string -> seq<Byte>): (r: seq<Byte>)
    decreases items, 2
  {
    if items == [] then [] else AmfItems(items[..|items| - 1], dbl) + AmfFormat(items[|items| - 1], dbl)
  }

  function AmfEntries(entries: seq<(string, Ptr)>, dbl: string -> seq<Byte>): (r: seq<Byte>)
    decreases entries, 2
  {
    if entries == [] then []
    else
      var entry := entries[|entries| - 1];
      assert entry in entries && entry.1 < entry;
      AmfEntries(entries[..|entries| - 1], dbl) + EncodeUtf8(entry.0) + AmfFormat(entry.1, dbl)
  }

  /** The marker each node type starts with; an empty pointer and a null node are both the null marker. */
  lemma {:induction false} AmfMarkers(n: Node, dbl: string -> seq<Byte>)
    ensures AmfFormat(None, dbl) == [MarkerNull] && AmfNode(NullNode, dbl) == [MarkerNull]
    ensures AmfNode(BoolNode(false), dbl) == [MarkerFalse] && AmfNode(BoolNode(true), dbl) == [MarkerTrue]
    ensures var r := AmfNode(n, dbl);
      (n.IntNode? ==> r[0] == MarkerInt) && (n.StringNode? ==> r[0] == MarkerString) &&
      (n.DoubleNode? ==> r[0] == MarkerDouble) && (n.ListNode? || n.ObjectNode? ==> r[0] == MarkerArray)
  {
  }

  /** An int node reads back through the U29 it carries, for every int in the 29-bit range. */
  lemma {:induction false} AmfIntReadsBack(i: Int32, dbl: string -> seq<Byte>)
    requires 0 <= i < U29Limit
    ensures var r := AmfNode(IntNode(i), dbl);
      r[0] == MarkerInt && DecodeU29(r[1..]) == Some((i, |r| - 1))
  {
    var r := AmfNode(IntNode(i), dbl);
    assert r[1..] == EncodeU29(i) + [];
    U29RoundTrip(i, []);
  }

  /**
   * A list is the array marker, a dense count 2n+1 that reads back, the
   * empty associative part 0x01, and the items in order.
   */
  lemma {:induction false} AmfListCount(items: seq<Ptr>, dbl: string -> seq<Byte>)
    requires 2 * |items| + 1 < U29Limit
    ensures var r := AmfNode(ListNode(items), dbl); var h := |EncodeU29(2 * |items| + 1)|;
      ReadsU29(r[1..], 2 * |items| + 1, h) &&
        r[1 + h] == 0x01 && r[2 + h..] == AmfItems(items, dbl)
  {
    var n := 2 * |items| + 1;
    var r := AmfNode(ListNode(items), dbl);
    var head := EncodeU29(n);
    var tail := [0x01] + AmfItems(items, dbl);
    ListLayout(items, dbl);
    assert r[1..] == head + tail;
    U29RoundTrip(n, tail);
    assert (head + tail)[|head|] == 0x01;
    assert (head + tail)[|head| + 1..] == AmfItems(items, dbl);
  }

  /** The parts of a list's encoding. */
  lemma {:induction false} ListLayout(items: seq<Ptr>, dbl: string -> seq<Byte>)
    requires 2 * |items| + 1 < U29Limit
    ensures AmfNode(ListNode(items), dbl) == [MarkerArray] + (EncodeU29(2 * |items| + 1) + ([0x01] + AmfItems(items, dbl)))
  {
    assert EncodeUtf8("") == [1];
    assert U29(2 * |items| + 1) == 2 * |items| + 1;
  }

  /** An object is the array marker, an empty dense part, its entries in key order, and the empty closing name. */
  lemma {:induction false} AmfObjectShape(entries: seq<(string, Ptr)>, dbl: string -> seq<Byte>)
    ensures var r := AmfNode(ObjectNode(entries), dbl);
      r[..2] == [MarkerArray, 0x01] && r[|r| - 1] == 0x01
    ensures AmfNode(ObjectNode([]), dbl) == AmfNode(ListNode([]), dbl) == [MarkerArray, 0x01, 0x01]
  {
    assert EncodeUtf8("") == [1];
  }

  /** The big-endian length prefix of AMFFormatter::Format(ostream&, node), from `int len`. */
  function LengthPrefix(len: nat): (r: seq<Byte>)
    ensures |r| == 4
  {
    var n := WrapInt32(len);
    [(n / 0x100_0000) % 0x100, (n / 0x1_0000) % 0x100, (n / 0x100) % 0x100, n % 0x100]
  }

  /** AMFFormatter::Format(ostream&, node): the length prefix, then the buffer. */
  function AmfStream(node: Ptr, dbl: string -> seq<Byte>): (r: seq<Byte>)
  {
    var m := AmfFormat(node, dbl);
    LengthPrefix(|m|) + m
  }

  /** The big-endian value of four bytes. */
  function BigEndian(b: seq<Byte>): (v: nat)
    requires |b| == 4
  {
    ((b[0] as int * 0x100 + b[1]) * 0x100 + b[2]) * 0x100 + b[3]
  }

  /** A reader of the stream takes the first four bytes as the length of the rest. */
  lemma {:induction false} AmfStreamFraming(node: Ptr, dbl: string -> seq<Byte>)
    requires |AmfFormat(node, dbl)| < 0x8000_0000
    ensures var r := AmfStream(node, dbl);
      |r| >= 4 && BigEndian(r[..4]) == |r| - 4 && r[4..] == AmfFormat(node, dbl)
  {
    var m := AmfFormat(node, dbl);
    var n := |m|;
    LengthPrefixValue(n);
    var r := AmfStream(node, dbl);
    assert r[..4] == LengthPrefix(n) && r[4..] == m;
  }

  lemma {:induction false} LengthPrefixValue(n: nat)
    requires n < 0x8000_0000
    ensures BigEndian(LengthPrefix(n)) == n
  {
    var q1 := n / 0x100;
    var q2 := q1 / 0x100;
    assert n == q1 * 0x100 + n % 0x100;
    assert q1 == q2 * 0x100 + q1 % 0x100;
    assert q2 == (q2 / 0x100) * 0x100 + q2 % 0x100;
    assert q1 == n / 0x100 && q2 == n / 0x1_0000 && q2 / 0x100 == n / 0x100_0000;
    assert n / 0x100_0000 < 0x100;
  }
}
