/**
 * SHeaderTable: the headers of an HTTP message (section 3.2 of RFC 7230),
 * kept as a std::map from name to value, with a lock that freezes the table
 * and a flag recording a "Connection: close" header.
 */
module Headers {
  import opened CText
  import opened SortedMap
  import UrlUtils

  // ---------------------------------------------------------------------
  // Parsing one header line

  /** A character of a header name: neither a control character nor a separator. */
  predicate IsTokenChar(c: char) {
    !UrlUtils.IsControl(c) && !UrlUtils.IsSeparator(c)
  }

  /** The length of the run of name characters at the start of s. */
  function TokenRun(s: string): (n: nat)
    ensures n <= |s|
    ensures forall i :: 0 <= i < n ==> IsTokenChar(s[i])
    ensures n < |s| ==> !IsTokenChar(s[n])
  {
    if s == [] || !IsTokenChar(s[0]) then 0 else 1 + TokenRun(s[1..])
  }

  /**
   * The name and value of a line whose white space has been skipped: a run
   * of name characters that must end at a ':', then white space, then the
   * value.  None where ParseHeaderLine returns false.
   */
  function ParseName(s: string): (r: Option<(string, string)>)
    ensures r.Some? ==> forall i :: 0 <= i < |r.value.0| ==> IsTokenChar(r.value.0[i])
    ensures r.Some? ==> |r.value.0| + |r.value.1| < |s| && r.value.1 == s[|s| - |r.value.1|..]
    ensures r.Some? ==> s[..|r.value.0|] == r.value.0 && s[|r.value.0|] == ':'
  {
    var t := TokenRun(s);
    if t == |s| || s[t] != ':' then None
    else Some((s[..t], SkipSpace(s[t + 1..])))
  }

  /**
   * What ParseHeaderLine reads from the characters c of line.c_str():
   * leading white space, then a name, ':' and a value.  A line of nothing
   * but white space is rejected.
   */
  function ParseCStr(c: string): (r: Option<(string, string)>)
    ensures r.Some? ==> forall i :: 0 <= i < |r.value.0| ==> IsTokenChar(r.value.0[i])
    ensures r.Some? ==> r.value.1 == [] || !IsSpace(r.value.1[0])
    ensures r.Some? ==> |r.value.0| + |r.value.1| < |c| && r.value.1 == c[|c| - |r.value.1|..]
  {
    var rest := SkipSpace(c);
    if rest == [] then None else ParseName(rest)
  }

  /** ParseHeaderLine(line) on a std::string, read through c_str(). */
  function ParseLine(line: string): (r: Option<(string, string)>)
    ensures r.Some? ==> '\0' !in r.value.1
  {
    ParseCStr(CStr(line))
  }

  /** A line of nothing but white space is not a header. */
  lemma {:induction false} BlankLineRejected(line: string)
    requires forall i :: 0 <= i < |CStr(line)| ==> IsSpace(CStr(line)[i])
    ensures ParseLine(line).None?
  {
  }

  /** A run of name characters, then a character that ends it. */
  lemma {:induction false} TokenRunConcat(a: string, b: string)
    requires forall i :: 0 <= i < |a| ==> IsTokenChar(a[i])
    requires b == [] || !IsTokenChar(b[0])
    ensures TokenRun(a + b) == |a|
    decreases |a|
  {
    if a == [] {
      assert a + b == b;
    } else {
      assert (a + b)[1..] == a[1..] + b;
      TokenRunConcat(a[1..], b);
    }
  }

  /** No name character is white space or NUL. */
  lemma {:induction false} TokenCharIsPlain(c: char)
    requires IsTokenChar(c)
    ensures !IsSpace(c) && c != '\0'
  {
  }

  /** A name and ':' are read as that name, followed by the skipped rest. */
  lemma {:induction false} ParseNameOf(name: string, rest: string)
    requires forall i :: 0 <= i < |name| ==> IsTokenChar(name[i])
    ensures ParseName(name + ":" + rest) == Some((name, SkipSpace(rest)))
  {
    var s := name + ":" + rest;
    assert s == name + (":" + rest);
    TokenRunConcat(name, ":" + rest);
    assert s[..|name|] == name;
    assert s[|name| + 1..] == rest;
  }

  /** Text made of name characters, ':' and NUL-free pieces holds no NUL. */
  lemma {:induction false} HeaderTextPlain(sp: string, name: string, sp2: string, value: string)
    requires forall i :: 0 <= i < |sp| ==> IsSpace(sp[i])
    requires forall i :: 0 <= i < |name| ==> IsTokenChar(name[i])
    requires forall i :: 0 <= i < |sp2| ==> IsSpace(sp2[i])
    requires '\0' !in value
    ensures '\0' !in sp + name + ":" + sp2 + value
  {
    var line := sp + name + ":" + sp2 + value;
    forall i | 0 <= i < |line| ensures line[i] != '\0' {
      if i < |sp| {
        assert line[i] == sp[i];
      } else if i < |sp| + |name| {
        assert line[i] == name[i - |sp|];
        TokenCharIsPlain(name[i - |sp|]);
      } else if i == |sp| + |name| {
        assert line[i] == ':';
      } else if i < |sp| + |name| + 1 + |sp2| {
        assert line[i] == sp2[i - |sp| - |name| - 1];
      } else {
        assert line[i] == value[i - |sp| - |name| - 1 - |sp2|];
      }
    }
  }

  /** White space, a name, ':', white space and a value read back as that name and value. */
  lemma {:induction false} ParseLineOfHeader(sp: string, name: string, sp2: string, value: string)
    requires forall i :: 0 <= i < |sp| ==> IsSpace(sp[i])
    requires forall i :: 0 <= i < |name| ==> IsTokenChar(name[i])
    requires forall i :: 0 <= i < |sp2| ==> IsSpace(sp2[i])
    requires '\0' !in value && (value == [] || !IsSpace(value[0]))
    ensures ParseLine(sp + name + ":" + sp2 + value) == Some((name, value))
  {
    var r0 := name + ":" + (sp2 + value);
    var line := sp + name + ":" + sp2 + value;
    assert line == sp + r0;
    HeaderTextPlain(sp, name, sp2, value);
    CStrOfPlain(line);
    if name != [] {
      TokenCharIsPlain(name[0]);
      assert r0[0] == name[0];
    } else {
      assert r0[0] == ':';
    }
    SkipSpaceConcat(sp, r0);
    ParseNameOf(name, sp2 + value);
    SkipSpaceConcat(sp2, value);
  }

  /** The text a header line is written as, without its CRLF. */
  function LineText(name: string, value: string): (r: string)
    ensures |r| == |name| + 2 + |value|
  {
    name + ": " + value
  }

  /** A written header line reads back as the same header. */
  lemma {:induction false} WrittenLineParses(name: string, value: string)
    requires forall i :: 0 <= i < |name| ==> IsTokenChar(name[i])
    requires '\0' !in value && (value == [] || !IsSpace(value[0]))
    ensures ParseLine(LineText(name, value)) == Some((name, value))
  {
    var line := LineText(name, value);
    assert line == [] + name + ":" + " " + value;
    ParseLineOfHeader([], name, " ", value);
  }

  /** A name must be followed by ':' at once: a name, then any other character, is not a header. */
  lemma {:induction false} NameNotFollowedByColon(name: string, c: char, rest: string)
    requires name != [] && forall i :: 0 <= i < |name| ==> IsTokenChar(name[i])
    requires !IsTokenChar(c) && c != ':' && c != '\0' && '\0' !in rest
    ensures ParseLine(name + [c] + rest).None?
  {
    var line := name + [c] + rest;
    assert line == name + ([c] + rest);
    forall i | 0 <= i < |line| ensures line[i] != '\0' {
      if i < |name| {
        assert line[i] == name[i];
        TokenCharIsPlain(name[i]);
      } else if i > |name| {
        assert line[i] == rest[i - |name| - 1];
      }
    }
    CStrOfPlain(line);
    TokenCharIsPlain(name[0]);
    SkipSpaceConcat([], line);
    assert [] + line == line;
    TokenRunConcat(name, [c] + rest);
  }

  /** "Host : x" is not a header. */
  lemma SpaceBeforeColonRejected()
    ensures ParseLine("Host : x").None?
  {
    var name := "Host";
    assert name + [' '] + ": x" == "Host : x";
    HostIsName();
    NameNotFollowedByColon(name, ' ', ": x");
  }

  lemma HostIsName()
    ensures forall i :: 0 <= i < |"Host"| ==> IsTokenChar("Host"[i])
  {
    forall i | 0 <= i < |"Host"| ensures IsTokenChar("Host"[i]) {
      LetterIsTokenChar("Host"[i]);
    }
  }

  /** Letters are name characters. */
  lemma {:induction false} LetterIsTokenChar(c: char)
    requires 'A' <= c <= 'Z' || 'a' <= c <= 'z'
    ensures IsTokenChar(c)
  {
    forall i | 0 <= i < |UrlUtils.Separators| ensures UrlUtils.Separators[i] != c {
    }
  }

  /** TokenRun of c[from..], where a scan from index from stopped at t. */
  lemma {:induction false} TokenRunFrom(c: string, from: nat, t: nat)
    requires from <= t <= |c| && forall k :: from <= k < t ==> IsTokenChar(c[k])
    requires t == |c| || !IsTokenChar(c[t])
    ensures TokenRun(c[from..]) == t - from
  {
    assert c[from..] == c[from..t] + c[t..];
    assert forall k :: 0 <= k < t - from ==> c[from..t][k] == c[from + k];
    TokenRunConcat(c[from..t], c[t..]);
  }

  /** ParseName of c[p..], where the name runs from p to t. */
  lemma {:induction false} ParseNameFrom(c: string, p: nat, t: nat)
    requires p <= t <= |c| && TokenRun(c[p..]) == t - p
    ensures ParseName(c[p..]) == if t == |c| || c[t] != ':' then None else Some((c[p..t], SkipSpace(c[t + 1..])))
  {
    var s := c[p..];
    if t < |c| {
      assert s[t - p] == c[t];
      assert s[t - p + 1..] == c[t + 1..];
    }
    assert s[..t - p] == c[p..t];
  }

  /** The index of the first character at or after from that is not a name character. */
  method ScanName(c: string, from: nat) returns (t: nat)
    requires from <= |c|
    ensures from <= t <= |c| && TokenRun(c[from..]) == t - from
  {
    t := from;
    while t < |c| && IsTokenChar(c[t])
      invariant from <= t <= |c| && forall k :: from <= k < t ==> IsTokenChar(c[k])
    {
      t := t + 1;
    }
    TokenRunFrom(c, from, t);
  }

  /**
   * The scan ParseHeaderLine makes of line.c_str(): white space, a name
   * up to ':', white space, the value.
   */
  method ScanHeaderLine(line: string) returns (r: Option<(string, string)>)
    ensures r == ParseLine(line)
  {
    var c := CStr(line);
    assert c[0..] == c;
    var p := SkipSpaces(c, 0);
    assert SkipSpace(c) == c[p..];
    if p == |c| {
      assert ParseCStr(c).None?;
      return None;
    }
    var t := ScanName(c, p);
    ParseNameFrom(c, p, t);
    if t == |c| || c[t] != ':' {
      assert ParseCStr(c).None?;
      return None;
    }
    var v := SkipSpaces(c, t + 1);
    assert ParseName(c[p..]) == Some((c[p..t], c[v..]));
    assert ParseCStr(c) == Some((c[p..t], c[v..]));
    r := Some((c[p..t], c[v..]));
  }

  // ---------------------------------------------------------------------
  // Setting a header

  /** The value SetHeader means to store: with append, the old value, ',' and the new one. */
  function Appended(prior: Option<string>, value: string, append: bool): (r: string)
    ensures prior.None? || !append ==> r == value
    ensures prior.Some? && append ==> |r| == |prior.value| + 1 + |value| && r[..|prior.value|] == prior.value
  {
    if prior.Some? && append then prior.value + "," + value else value
  }

  /**
   * SetHeader on the map, as the comment above it describes: an existing
   * header takes the new value, or with append the old value, ',' and the
   * new one; no other header changes.
   */
  function SetEntry(e: seq<(string, string)>, name: string, value: string, append: bool): (r: seq<(string, string)>)
    requires Ordered(e)
    ensures Ordered(r) && Keys(r) == Keys(e) + {name}
    ensures Lookup(r, name) == Some(Appended(Lookup(e, name), value, append))
    ensures forall k :: k != name ==> Lookup(r, k) == Lookup(e, k)
  {
    Insert(e, name, Appended(Lookup(e, name), value, append))
  }

  /**
   * SetHeader on the map as written: the append branch calls map::insert,
   * which does nothing when the key is present.
   */
  function SetEntryAsWritten(e: seq<(string, string)>, name: string, value: string, append: bool): (r: seq<(string, string)>)
    requires Ordered(e)
    ensures Ordered(r)
    ensures append && name in Keys(e) ==> r == e
    ensures !(append && name in Keys(e)) ==> r == SetEntry(e, name, value, append)
  {
    match Lookup(e, name)
    case Some(_) =>
      if append then e else Insert(e, name, value)
    case None => Insert(e, name, value)
  }

  /** As written, appending to an existing header keeps the old value; the intended append changes it. */
  lemma {:induction false} AppendIsNoOp(e: seq<(string, string)>, name: string, value: string)
    requires Ordered(e) && name in Keys(e)
    ensures SetEntryAsWritten(e, name, value, true) == e
    ensures SetEntry(e, name, value, true) != e
  {
    var prior := Lookup(e, name).value;
    var r := SetEntry(e, name, value, true);
    assert Lookup(r, name) == Some(prior + "," + value);
    assert |prior + "," + value| != |prior|;
  }

  /** Without append, or for a new name, the code as written and the intended SetHeader agree. */
  lemma {:induction false} SetEntryAgrees(e: seq<(string, string)>, name: string, value: string, append: bool)
    requires Ordered(e) && (!append || name !in Keys(e))
    ensures SetEntryAsWritten(e, name, value, append) == SetEntry(e, name, value, append)
  {
  }

  /** strcasecmp(name, "Connection") == 0 && strcasecmp(value, "close") == 0. */
  predicate IsCloseHeader(name: string, value: string) {
    EqualsIgnoreCase(CStr(name), "Connection") && EqualsIgnoreCase(CStr(value), "close")
  }

  /** Only a name of ten characters, "Connection" in any case, can raise the close flag. */
  lemma {:induction false} OtherNameIsNotClose(name: string, value: string)
    requires |name| < 10 || (|name| > 10 && name[10] != '\0')
    ensures !IsCloseHeader(name, value)
  {
    assert |CStr(name)| != 10;
  }

  /** An int header written by SetIntHeader reads back with atoi. */
  lemma {:induction false} IntHeaderReadsBack(e: seq<(string, string)>, name: string, v: Int32)
    requires Ordered(e)
    ensures Lookup(SetEntry(e, name, IntToDecimal(v), false), name) == Some(IntToDecimal(v))
    ensures Atoi(IntToDecimal(v)) == v
  {
    AtoiOfDecimal(v);
  }

  // ---------------------------------------------------------------------
  // Writing the table

  /** The header lines in map order, each "name: value" CRLF. */
  function HeaderLines(e: seq<(string, string)>): (r: string)
    ensures |e| > 0 ==> |r| >= |e| * 4
  {
    if e == [] then [] else HeaderLines(e[..|e| - 1]) + LineText(e[|e| - 1].0, e[|e| - 1].1) + CRLF
  }

  /** The lines of two consecutive runs of entries are the lines of each. */
  lemma {:induction false} HeaderLinesAppend(a: seq<(string, string)>, b: seq<(string, string)>)
    ensures HeaderLines(a + b) == HeaderLines(a) + HeaderLines(b)
    decreases |b|
  {
    if b == [] {
      assert a + b == a;
    } else {
      var b', last := b[..|b| - 1], b[|b| - 1];
      assert (a + b)[..|a + b| - 1] == a + b';
      assert (a + b)[|a + b| - 1] == last;
      HeaderLinesAppend(a, b');
      assert HeaderLines(b) == HeaderLines(b') + LineText(last.0, last.1) + CRLF;
    }
  }

  /** Each entry contributes its own line: the lines of e[..i] then e[i] then the rest. */
  lemma {:induction false} HeaderLinesAt(e: seq<(string, string)>, i: nat)
    requires i < |e|
    ensures HeaderLines(e) == HeaderLines(e[..i]) + LineText(e[i].0, e[i].1) + CRLF + HeaderLines(e[i + 1..])
  {
    assert e == e[..i + 1] + e[i + 1..];
    HeaderLinesAppend(e[..i + 1], e[i + 1..]);
    assert e[..i + 1][..i] == e[..i];
  }

  // ---------------------------------------------------------------------
  // The table

  class HeaderTable {
    /** The headers, in ascending name order. */
    var headers: seq<(string, string)>
    /** Whether a "Connection: close" header has been set. */
    var closeConnection: bool
    /** Once locked, the headers cannot change. */
    var locked: bool

    predicate Valid()
      reads this
    {
      Ordered(headers)
    }

    /** SHeaderTable(): an empty, unlocked table. */
    constructor ()
      ensures Valid() && headers == [] && !locked && !closeConnection
    {
      headers := [];
      closeConnection := false;
      locked := false;
    }

    /** Reset: empties the table, unlocks it and clears the close flag. */
    method Reset()
      modifies this
      ensures Valid() && headers == [] && !locked && !closeConnection
    {
      closeConnection := false;
      locked := false;
      headers := [];
    }

    /** Lock: no later SetHeader or RemoveHeader has an effect. */
    method Lock()
      modifies this
      ensures locked && headers == old(headers) && closeConnection == old(closeConnection)
    {
      locked := true;
    }

    /** Header(name): the value, or "" when there is none. */
    function Header(name: string): (r: string)
      reads this
      ensures name !in Keys(headers) ==> r == ""
      ensures name in Keys(headers) ==> (name, r) in headers
    {
      match Lookup(headers, name)
      case Some(v) => v
      case None => ""
    }

    /** HasHeader(name). */
    function HasHeader(name: string): (r: bool)
      reads this
      ensures r <==> name in Keys(headers)
    {
      Lookup(headers, name).Some?
    }

    /** HeaderIfExists(name, value): the flag, and the value, which is left as it was when the header is absent. */
    function HeaderIfExists(name: string, value: string): (r: (bool, string))
      reads this
      ensures r.0 <==> name in Keys(headers)
      ensures !r.0 ==> r.1 == value
      ensures r.0 ==> r.1 == Header(name) && (name, r.1) in headers
    {
      match Lookup(headers, name)
      case Some(v) => (true, v)
      case None => (false, value)
    }

    /**
     * SetHeader(name, value, append): nothing while locked; otherwise the
     * header is set (appended to, with append) and "Connection: close",
     * in either case, raises the close flag.
     */
    method SetHeader(name: string, value: string, append: bool)
      requires Valid()
      modifies this
      ensures Valid() && locked == old(locked)
      ensures old(locked) ==> headers == old(headers) && closeConnection == old(closeConnection)
      ensures !old(locked) ==> headers == SetEntry(old(headers), name, value, append)
      ensures !old(locked) ==> closeConnection == (old(closeConnection) || IsCloseHeader(name, value))
    {
      if locked {
        return;
      }
      var found := Lookup(headers, name);
      if found.Some? && append {
        headers := Insert(headers, name, found.value + "," + value);
      } else {
        headers := Insert(headers, name, value);
      }
      if IsCloseHeader(name, value) {
        closeConnection := true;
      }
    }

    /** SetBoolHeader: "true" or "false". */
    method SetBoolHeader(name: string, value: bool)
      requires Valid()
      modifies this
      ensures Valid() && locked == old(locked)
      ensures old(locked) ==> headers == old(headers)
      ensures !old(locked) ==> headers == SetEntry(old(headers), name, if value then "true" else "false", false)
      ensures !old(locked) ==> closeConnection == (old(closeConnection) || IsCloseHeader(name, if value then "true" else "false"))
    {
      SetHeader(name, if value then "true" else "false", false);
    }

    /** SetIntHeader: the value as "%d" prints it. */
    method SetIntHeader(name: string, value: Int32)
      requires Valid()
      modifies this
      ensures Valid() && locked == old(locked)
      ensures old(locked) ==> headers == old(headers) && closeConnection == old(closeConnection)
      ensures !old(locked) ==> headers == SetEntry(old(headers), name, IntToDecimal(value), false)
      ensures !old(locked) ==> closeConnection == (old(closeConnection) || IsCloseHeader(name, IntToDecimal(value)))
    {
      SetHeader(name, IntToDecimal(value), false);
    }

    /** SetUIntHeader: the unsigned value as "%u" prints it. */
    method SetUIntHeader(name: string, value: nat)
      requires Valid() && value < 0x1_0000_0000
      modifies this
      ensures Valid() && locked == old(locked)
      ensures old(locked) ==> headers == old(headers)
      ensures !old(locked) ==> headers == SetEntry(old(headers), name, NatToDecimal(value), false)
      ensures !old(locked) ==> closeConnection == (old(closeConnection) || IsCloseHeader(name, NatToDecimal(value)))
    {
      SetHeader(name, NatToDecimal(value), false);
    }

    /** RemoveHeader(name): nothing while locked; otherwise erases the header and returns its value, or "". */
    method RemoveHeader(name: string) returns (r: string)
      requires Valid()
      modifies this
      ensures Valid() && locked == old(locked) && closeConnection == old(closeConnection)
      ensures old(locked) ==> headers == old(headers) && r == ""
      ensures !old(locked) ==> headers == Remove(old(headers), name)
      ensures !old(locked) ==> r == (match Lookup(old(headers), name) case Some(v) => v case None => "")
    {
      r := "";
      if !locked {
        var found := Lookup(headers, name);
        if found.Some? {
          headers := Remove(headers, name);
          r := found.value;
        } else {
          RemoveAbsent(headers, name);
        }
      }
    }

    /**
     * ParseHeaderLine(line, name, value): on success the name and value are
     * stored (through SetHeader) and returned; on failure nothing changes.
     */
    method ParseHeaderLine(line: string, name: string, value: string) returns (ok: bool, name': string, value': string)
      requires Valid()
      modifies this
      ensures Valid() && locked == old(locked)
      ensures ok == ParseLine(line).Some?
      ensures ok ==> (name', value') == ParseLine(line).value
      ensures !ok ==> name' == name && value' == value && headers == old(headers) && closeConnection == old(closeConnection)
      ensures ok && !old(locked) ==> headers == SetEntry(old(headers), name', value', false)
      ensures ok && !old(locked) ==> closeConnection == (old(closeConnection) || IsCloseHeader(name', value'))
      ensures ok && old(locked) ==> headers == old(headers) && closeConnection == old(closeConnection)
    {
      var r := ScanHeaderLine(line);
      if r.None? {
        return false, name, value;
      }
      name', value' := r.value.0, r.value.1;
      SetHeader(name', value', false);
      ok := true;
    }

    /** WriteToStream: every header as "name: value" CRLF in name order, then one more CRLF. */
    method WriteToStream() returns (written: string)
      ensures written == HeaderLines(headers) + CRLF
    {
      written := [];
      var i := 0;
      while i < |headers|
        invariant i <= |headers| && written == HeaderLines(headers[..i])
      {
        assert headers[..i + 1][..i] == headers[..i];
        written := written + LineText(headers[i].0, headers[i].1) + CRLF;
        i := i + 1;
      }
      assert headers[..i] == headers;
      written := written + CRLF;
    }
  }
}
