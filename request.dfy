/**
 * SHttpRequest: a message with a method, a request target split into
 * scheme, host, port, resource and query, and the response that answers
 * it.  The target is parsed as SetResource walks its C string.
 */
module Request {
  import opened CText
  import opened UrlUtils
  import opened Headers
  import opened BodyParts
  import opened Message
  import opened Response

  // ---------------------------------------------------------------------
  // Scanning a C string

  /**
   * The first index at or after p whose character satisfies stop, or the
   * end of c: the pointer loops `while (*p && !stop(*p)) p++` over a string
   * without NUL.
   */
  function ScanEnd(c: string, p: nat, stop: Stop): (e: nat)
    requires p <= |c|
    ensures p <= e <= |c|
    ensures e < |c| ==> Stops(stop, c[e])
    ensures forall k :: p <= k < e ==> !Stops(stop, c[k])
    decreases |c| - p
  {
    if p == |c| || Stops(stop, c[p]) then p else ScanEnd(c, p + 1, stop)
  }

  /** The scan ends at the first stopping character, and only there. */
  lemma {:induction false} ScanEndAt(c: string, p: nat, k: nat, stop: Stop)
    requires p <= k <= |c|
    requires forall i :: p <= i < k ==> !Stops(stop, c[i])
    requires k == |c| || Stops(stop, c[k])
    ensures ScanEnd(c, p, stop) == k
    decreases k - p
  {
    if p < k {
      ScanEndAt(c, p + 1, k, stop);
    }
  }

  /** A scan from p over c[p..] == a + b, where a has no stopping character and b starts with one. */
  lemma {:induction false} ScanEndSuffix(c: string, p: nat, a: string, b: string, stop: Stop)
    requires p <= |c| && c[p..] == a + b
    requires forall i :: 0 <= i < |a| ==> !Stops(stop, a[i])
    requires b == [] || Stops(stop, b[0])
    ensures ScanEnd(c, p, stop) == p + |a|
    ensures c[p..p + |a|] == a && c[p + |a|..] == b
  {
    SplitAt(c, p, a, b);
    assert forall i :: p <= i < p + |a| ==> c[i] == c[p..][i - p] == a[i - p];
    assert p + |a| < |c| ==> c[p + |a|] == c[p + |a|..][0] == b[0];
    ScanEndAt(c, p, p + |a|, stop);
  }

  /** Where the text from p is a followed by b, a comes first and b after it. */
  lemma SplitAt(c: string, p: nat, a: string, b: string)
    requires p <= |c| && c[p..] == a + b
    ensures c[p..p + |a|] == a && c[p + |a|..] == b
  {
    assert c[p..p + |a|] == c[p..][..|a|];
    assert c[p + |a|..] == c[p..][|a|..];
  }

  /** The loop of a scan: stepping over characters until stop holds. */
  method ScanUntil(c: string, from: nat, stop: Stop) returns (e: nat)
    requires from <= |c|
    ensures e == ScanEnd(c, from, stop)
  {
    e := from;
    while e < |c| && !Stops(stop, c[e])
      invariant from <= e <= |c|
      invariant ScanEnd(c, e, stop) == ScanEnd(c, from, stop)
    {
      e := e + 1;
    }
  }

  /** Where the host of a target ends. */
  predicate EndsHost(ch: char) { ch == ':' || ch == '/' || ch == '?' }

  /** The stopping conditions of the scans in this file. */
  datatype Stop = HostEnd | NonDigit | QueryMark | Space | NonSpace

  predicate Stops(stop: Stop, ch: char) {
    match stop
    case HostEnd => EndsHost(ch)
    case NonDigit => !IsDigit(ch)
    case QueryMark => ch == '?'
    case Space => IsSpace(ch)
    case NonSpace => !IsSpace(ch)
  }

  /**
   * strstr(s, pat): the index of the first occurrence of pat in s.
   */
  function Find(s: string, pat: string): (r: Option<nat>)
    ensures r.Some? ==> OccursAt(s, pat, r.value)
    ensures r.Some? ==> forall j :: 0 <= j < r.value ==> !OccursAt(s, pat, j)
    ensures r.None? ==> forall j :: 0 <= j ==> !OccursAt(s, pat, j)
    decreases |s|
  {
    if |s| < |pat| then None
    else if s[..|pat|] == pat then Some(0)
    else
      ShiftedOccurrence(s, pat);
      match Find(s[1..], pat)
      case None => None
      case Some(k) => Some(k + 1)
  }

  /** An occurrence past position 0 is an occurrence in the tail, one position earlier. */
  lemma {:induction false} ShiftedOccurrence(s: string, pat: string)
    requires s != []
    ensures forall j :: 0 < j ==> (OccursAt(s, pat, j) <==> OccursAt(s[1..], pat, j - 1))
  {
    forall j | 0 < j
      ensures OccursAt(s, pat, j) <==> OccursAt(s[1..], pat, j - 1)
    {
      if j + |pat| <= |s| {
        assert s[1..][j - 1..j - 1 + |pat|] == s[j..j + |pat|];
      }
    }
  }

  /** The first occurrence is found: text whose first character never starts pat comes first. */
  lemma {:induction false} FindAfter(pre: string, pat: string, rest: string)
    requires pat != [] && pat[0] !in pre
    ensures Find(pre + pat + rest, pat) == Some(|pre|)
    decreases |pre|
  {
    var s := pre + pat + rest;
    if pre == [] {
      assert s[..|pat|] == pat;
    } else {
      assert s[0] == pre[0] != pat[0];
      assert s[1..] == pre[1..] + pat + rest;
      FindAfter(pre[1..], pat, rest);
    }
  }

  /** A string without the first character of pat does not contain pat. */
  lemma {:induction false} FindAbsent(s: string, pat: string)
    requires pat != [] && pat[0] !in s
    ensures Find(s, pat) == None
    decreases |s|
  {
    if |s| >= |pat| {
      assert s[0] != pat[0];
      assert s[1..] == s[1..];
      FindAbsent(s[1..], pat);
    }
  }

  // ---------------------------------------------------------------------
  // The query string

  /** The end of the first '&'-separated piece of q. */
  function PieceEnd(q: string): (n: nat)
    ensures n <= |q|
  {
    match IndexOf(q, '&') case Some(a) => a case None => |q|
  }

  /** The decoded name before the '=' at e, or "" when it is empty. */
  function PieceName(q: string, e: nat): (name: string)
    requires e <= |q|
    ensures e == 0 ==> name == ""
  {
    if e > 0 then Decode(q[..e]) else ""
  }

  /** The decoded value between the '=' at e and the end of the piece, or "" when there is none. */
  function PieceValue(q: string, e: nat, next: nat): (value: string)
    requires next <= |q|
    ensures e + 1 >= next ==> value == ""
  {
    if e + 1 < next then Decode(q[e + 1..next]) else ""
  }

  /** A pair is kept only when its name is not empty. */
  function Pair(name: string, value: string): (r: seq<string>)
    ensures name == "" ==> r == []
    ensures name != "" ==> r == [name, value]
  {
    if name != "" then [name, value] else []
  }

  /**
   * The query list: each '&'-separated piece contributes its name (the
   * decoded text up to the next '=' anywhere in the rest of the query,
   * even past an '&') and its value (the decoded text between that '='
   * and the '&'), or nothing when the name is empty; parsing stops at the
   * first piece after which no '=' is left.
   */
  function QueryList(q: string): (r: seq<string>)
    ensures |r| % 2 == 0
    decreases |q|, 1
  {
    match IndexOf(q, '=')
    case None => []
    case Some(e) => Pair(PieceName(q, e), PieceValue(q, e, PieceEnd(q))) + QueryRest(q)
  }

  /** The pairs after the first piece of q: those of the text after its '&', if any. */
  function QueryRest(q: string): (r: seq<string>)
    ensures |r| % 2 == 0
    decreases |q|, 0
  {
    match IndexOf(q, '&') case Some(a) => QueryList(q[a + 1..]) case None => []
  }

  /** QueryList of a query whose '=' is at e: the first piece's pair, then the rest. */
  lemma {:induction false} QueryListUnfold(q: string, e: nat)
    requires IndexOf(q, '=') == Some(e)
    ensures QueryList(q) == Pair(PieceName(q, e), PieceValue(q, e, PieceEnd(q))) + QueryRest(q)
  {
  }

  /** The names of a list of name/value pairs. */
  function Names(q: seq<string>): (r: seq<string>)
    ensures |r| == |q| / 2
    decreases |q|
  {
    if |q| < 2 then [] else [q[0]] + Names(q[2..])
  }

  /** The values of a list of name/value pairs. */
  function Values(q: seq<string>): (r: seq<string>)
    ensures |r| == |q| / 2
    decreases |q|
  {
    if |q| < 2 then [] else [q[1]] + Values(q[2..])
  }

  /** A query without '=' holds no pairs. */
  lemma {:induction false} QueryWithoutEquals(q: string)
    requires '=' !in q
    ensures QueryList(q) == []
  {
    IndexOfSpec(q, '=');
  }

  /** Decoding never loses the first character: nonempty text decodes to nonempty text. */
  lemma {:induction false} DecodeNonempty(s: string)
    requires s != []
    ensures Decode(s) != []
  {
  }

  /** "name=value&rest" gives the pair, then the pairs of rest. */
  lemma {:induction false} QueryPair(name: string, value: string, rest: string)
    requires name != [] && '=' !in name && '&' !in name && '&' !in value
    ensures QueryList(name + "=" + value + "&" + rest) ==
      [Decode(name), Decode(value)] + QueryList(rest)
  {
    var q := name + "=" + value + "&" + rest;
    var e := |name|;
    var a := |name| + 1 + |value|;
    assert q[..e] == name && q[e] == '=';
    IndexOfFirst(q, '=', e);
    assert q[..a] == name + "=" + value && q[a] == '&';
    IndexOfFirst(q, '&', a);
    QueryListUnfold(q, e);
    assert q[e + 1..a] == value;
    assert q[a + 1..] == rest;
    DecodeNonempty(name);
  }

  /** The last piece "name=value" gives one pair. */
  lemma {:induction false} QueryLastPair(name: string, value: string)
    requires name != [] && '=' !in name && '&' !in name && '&' !in value
    ensures QueryList(name + "=" + value) == [Decode(name), Decode(value)]
  {
    var q := name + "=" + value;
    IndexOfFirst(q, '=', |name|);
    IndexOfSpec(q, '&');
    assert q[..|name|] == name;
    assert q[|name| + 1..|q|] == value;
    DecodeNonempty(name);
  }

  /** A piece with an empty name, "=value&rest", is dropped. */
  lemma {:induction false} QueryEmptyNameDropped(value: string, rest: string)
    requires '&' !in value
    ensures QueryList("=" + value + "&" + rest) == QueryList(rest)
  {
    var q := "=" + value + "&" + rest;
    assert q == "=" + (value + "&" + rest);
    assert q == ("=" + value) + "&" + rest;
    IndexOfFirst(q, '=', 0);
    IndexOfSpec("=" + value, '&');
    IndexOfFirst(q, '&', 1 + |value|);
    assert q[1 + |value| + 1..] == rest;
  }

  /** The name is not bounded by '&': "a&b=c" gives the pairs ("a&b", "") and ("b", "c"). */
  lemma QueryNameSpansAmpersand()
    ensures QueryList("a&b=c") == ["a&b", "", "b", "c"]
  {
    var q := "a&b=c";
    IndexOfFirst(q, '=', 3);
    IndexOfFirst(q, '&', 1);
    assert q[..3] == "a&b" && q[2..] == "b" + "=" + "c";
    CStrOfPlain("a&b");
    UnescapeWithoutPercent("a&b");
    assert PieceName(q, 3) == "a&b";
    assert PieceValue(q, 3, 1) == "";
    QueryLastPair("b", "c");
    CStrOfPlain("b");
    UnescapeWithoutPercent("b");
    CStrOfPlain("c");
    UnescapeWithoutPercent("c");
  }

  /** The names of a kept pair followed by more pairs. */
  lemma {:induction false} NamesOfPair(name: string, value: string, rest: seq<string>)
    ensures Names(Pair(name, value) + rest) == (if name != "" then [name] else []) + Names(rest)
  {
    if name != "" {
      var l := [name, value] + rest;
      assert l[2..] == rest;
    } else {
      assert Pair(name, value) + rest == rest;
    }
  }

  /** No name in a query list is empty. */
  lemma {:induction false} QueryNamesNonempty(q: string)
    ensures "" !in Names(QueryList(q))
    decreases |q|
  {
    match IndexOf(q, '=')
    case None =>
    case Some(e) =>
      var name := PieceName(q, e);
      var rest := match IndexOf(q, '&') case Some(a) => QueryList(q[a + 1..]) case None => [];
      assert QueryList(q) == Pair(name, PieceValue(q, e, PieceEnd(q))) + rest;
      match IndexOf(q, '&') {
        case Some(a) => QueryNamesNonempty(q[a + 1..]);
        case None =>
      }
      assert "" !in Names(rest);
      NamesOfPair(name, PieceValue(q, e, PieceEnd(q)), rest);
  }

  /** The value GetQueryValue finds: that of the first pair with the given name, or "". */
  function FirstValue(q: seq<string>, param: string): (r: string)
    decreases |q|
  {
    if |q| < 2 then ""
    else if q[0] == param then q[1]
    else FirstValue(q[2..], param)
  }

  /** A name that does not occur gives "". */
  lemma {:induction false} FirstValueAbsent(q: seq<string>, param: string)
    requires param !in Names(q)
    ensures FirstValue(q, param) == ""
    decreases |q|
  {
    if |q| >= 2 {
      assert Names(q)[0] == q[0];
      assert Names(q[2..]) == Names(q)[1..];
      FirstValueAbsent(q[2..], param);
    }
  }

  /** A name that occurs gives the value of its first occurrence. */
  lemma {:induction false} FirstValueOfFirstMatch(q: seq<string>, param: string, k: nat)
    requires k < |Names(q)| && Names(q)[k] == param && param !in Names(q)[..k]
    ensures FirstValue(q, param) == Values(q)[k]
    decreases k
  {
    assert Names(q)[0] == q[0] && Values(q)[0] == q[1];
    if k > 0 {
      assert Names(q)[..k][0] == q[0];
      assert Names(q[2..]) == Names(q)[1..];
      assert Values(q[2..]) == Values(q)[1..];
      assert Names(q[2..])[..k - 1] == Names(q)[..k][1..];
      FirstValueOfFirstMatch(q[2..], param, k - 1);
    }
  }

  /** An empty parameter name is never found in a query list. */
  lemma {:induction false} EmptyParamNotFound(q: string)
    ensures FirstValue(QueryList(q), "") == ""
  {
    QueryNamesNonempty(q);
    FirstValueAbsent(QueryList(q), "");
  }

  // ---------------------------------------------------------------------
  // The request target

  /**
   * The parts SetResource assigns.  host is None when the target gives no
   * host, in which case SetResource leaves the host as it was.
   */
  datatype Target = Target(scheme: string, host: Option<string>, port: int, resource: string, query: seq<string>)

  /**
   * A target as the pointer walk of SetResource splits it, before the
   * resource is unescaped and the query is split into pairs: the text of
   * the resource, and the text after '?' (None without a '?').
   */
  datatype TargetText = TargetText(scheme: string, host: Option<string>, port: int, path: string, query: Option<string>)

  /** The resource unescaped, and the pairs of the query (none without a query). */
  function Parsed(t: TargetText): (r: Target)
    ensures |r.query| % 2 == 0
    ensures t.query.None? ==> r.query == []
  {
    Target(t.scheme, t.host, t.port, Decode(t.path), match t.query case Some(q) => QueryList(q) case None => [])
  }

  /** The port of "host:digits": the digits read into an int, or 80 when that is 0. */
  function PortOf(digits: string): (r: int)
    requires forall i :: 0 <= i < |digits| ==> IsDigit(digits[i])
    ensures r != 0
    ensures DigitsValue(digits) == 0 ==> r == 80
    ensures 0 < DigitsValue(digits) < 0x8000_0000 ==> r == DigitsValue(digits)
  {
    var v := WrapInt32(DigitsValue(digits));
    if v != 0 then v else 80
  }

  /**
   * The rest s of a target after its authority: the resource runs up to
   * '?', and the query follows it.
   */
  function PathQuery(scheme: string, host: Option<string>, port: int, s: string): (t: TargetText)
    ensures t.scheme == scheme && t.host == host && t.port == port
  {
    var m := ScanEnd(s, 0, QueryMark);
    TargetText(scheme, host, port, s[..m], if m < |s| then Some(s[m + 1..]) else None)
  }

  /**
   * The authority at the start of s: the host runs to the first ':', '/'
   * or '?' (a text with none of them is all host); after a ':', the port
   * digits.  The result is the host (None when the scan stops at '/' or
   * '?'), the port, and where the path begins.
   */
  function HostPort(s: string): (r: (Option<string>, int, nat))
    ensures r.2 <= |s|
    ensures r.0.None? ==> r.1 == 80
    ensures r.1 != 0
  {
    var e := ScanEnd(s, 0, HostEnd);
    if e == |s| then (Some(s), 80, |s|)
    else if s[e] == ':' then
      var d := ScanEnd(s, e + 1, NonDigit);
      (Some(s[..e]), PortOf(s[e + 1..d]), d)
    else
      (None, 80, e)
  }

  /** The target after its scheme and "://" (or all of it, without a scheme). */
  function Authority(scheme: string, s: string): (t: TargetText)
    ensures t.scheme == scheme
    ensures t.host.None? ==> t.port == 80
  {
    var hp := HostPort(s);
    PathQuery(scheme, hp.0, hp.1, s[hp.2..])
  }

  /** The walk over the C string of r: the scheme is what precedes the first "://", or "http". */
  function TargetTextOf(r: string): (t: TargetText)
    ensures t.host.None? ==> t.port == 80
  {
    var c := CStr(r);
    match Find(c, "://")
    case Some(i) => Authority(c[..i], c[i + 3..])
    case None => Authority("http", c)
  }

  /** SetResource's reading of the target r. */
  function ParseTarget(r: string): (t: Target)
    ensures |t.query| % 2 == 0
    ensures t.host.None? ==> t.port == 80
  {
    Parsed(TargetTextOf(r))
  }

  /** The question mark splits "path?query" into the resource text and the query text. */
  lemma {:induction false} PathQueryWithQuery(scheme: string, host: Option<string>, port: int, path: string, query: string)
    requires '?' !in path
    ensures PathQuery(scheme, host, port, path + "?" + query) == TargetText(scheme, host, port, path, Some(query))
  {
    var s := path + "?" + query;
    assert s[0..] == path + ("?" + query);
    assert forall i :: 0 <= i < |path| ==> path[i] != '?';
    ScanEndSuffix(s, 0, path, "?" + query, QueryMark);
    SplitAt(s, |path|, "?", query);
  }

  /** A path without '?' has no query. */
  lemma {:induction false} PathQueryWithoutQuery(scheme: string, host: Option<string>, port: int, path: string)
    requires '?' !in path
    ensures PathQuery(scheme, host, port, path) == TargetText(scheme, host, port, path, None)
  {
    assert path[0..] == path + [];
    assert forall i :: 0 <= i < |path| ==> path[i] != '?';
    ScanEndSuffix(path, 0, path, [], QueryMark);
  }

  /** Text with none of ':' '/' '?' is all host, with no resource. */
  lemma {:induction false} AuthorityHostOnly(scheme: string, s: string)
    requires forall i :: 0 <= i < |s| ==> !EndsHost(s[i])
    ensures Authority(scheme, s) == TargetText(scheme, Some(s), 80, "", None)
  {
    ScanEndAt(s, 0, |s|, HostEnd);
    assert s[|s|..] == [];
  }

  /** Where the scans stop in "host:digits rest". */
  lemma {:induction false} PortSplit(host: string, digits: string, rest: string)
    requires forall i :: 0 <= i < |host| ==> !EndsHost(host[i])
    requires forall i :: 0 <= i < |digits| ==> IsDigit(digits[i])
    requires rest == [] || !IsDigit(rest[0])
    ensures var s := host + ":" + digits + rest; var e := |host|; var d := e + 1 + |digits|;
      d <= |s| && ScanEnd(s, 0, HostEnd) == e && s[e] == ':' && ScanEnd(s, e + 1, NonDigit) == d &&
      s[..e] == host && s[e + 1..d] == digits && s[d..] == rest
  {
    var s := host + ":" + digits + rest;
    var b := digits + rest;
    assert s[0..] == host + (":" + b);
    ScanEndSuffix(s, 0, host, ":" + b, HostEnd);
    SplitAt(s, |host|, ":", b);
    ScanEndSuffix(s, |host| + 1, digits, rest, NonDigit);
  }

  /**
   * "host:digits rest": the host, the port the digits give, and the rest
   * as path and query.
   */
  lemma {:induction false} AuthorityWithPort(scheme: string, host: string, digits: string, rest: string)
    requires forall i :: 0 <= i < |host| ==> !EndsHost(host[i])
    requires forall i :: 0 <= i < |digits| ==> IsDigit(digits[i])
    requires rest == [] || !IsDigit(rest[0])
    ensures Authority(scheme, host + ":" + digits + rest) == PathQuery(scheme, Some(host), PortOf(digits), rest)
  {
    PortSplit(host, digits, rest);
  }

  /** A target that starts with '/' or '?' gives no host: the host is not assigned at all. */
  lemma {:induction false} AuthorityWithoutHost(scheme: string, s: string)
    requires s != [] && (s[0] == '/' || s[0] == '?')
    ensures Authority(scheme, s) == PathQuery(scheme, None, 80, s)
  {
    ScanEndAt(s, 0, 0, HostEnd);
    assert s[0..] == s;
  }

  /** "scheme://rest": the scheme is split off and the rest is the authority. */
  lemma {:induction false} TargetWithScheme(scheme: string, rest: string)
    requires ':' !in scheme && '\0' !in scheme && '\0' !in rest
    ensures TargetTextOf(scheme + "://" + rest) == Authority(scheme, rest)
  {
    var c := scheme + "://" + rest;
    CStrOfPlain(c);
    FindAfter(scheme, "://", rest);
    assert c[..|scheme|] == scheme;
    assert c[|scheme| + 3..] == rest;
  }

  /** A target without ':' has the scheme "http" and is all authority. */
  lemma {:induction false} TargetWithoutScheme(r: string)
    requires ':' !in r && '\0' !in r
    ensures TargetTextOf(r) == Authority("http", r)
  {
    CStrOfPlain(r);
    FindAbsent(r, "://");
  }

  /** An origin-form target "/path?query": the host is not given and the port is 80. */
  lemma {:induction false} OriginFormTarget(path: string, query: string)
    requires path != [] && path[0] == '/'
    requires ':' !in path && '?' !in path && '\0' !in path
    requires ':' !in query && '\0' !in query
    ensures ParseTarget(path + "?" + query) == Target("http", None, 80, Decode(path), QueryList(query))
  {
    var c := path + "?" + query;
    TargetWithoutScheme(c);
    AuthorityWithoutHost("http", c);
    PathQueryWithQuery("http", None, 80, path, query);
  }

  /** A target of only a path: no query, and the host is not given. */
  lemma {:induction false} PathOnlyTarget(path: string)
    requires path != [] && path[0] == '/'
    requires ':' !in path && '?' !in path && '\0' !in path
    ensures ParseTarget(path) == Target("http", None, 80, Decode(path), [])
  {
    TargetWithoutScheme(path);
    AuthorityWithoutHost("http", path);
    PathQueryWithoutQuery("http", None, 80, path);
  }

  /** "scheme://host" with nothing after the host: the host is the rest, the resource "". */
  lemma {:induction false} HostOnlyTarget(scheme: string, host: string)
    requires ':' !in scheme && '\0' !in scheme
    requires forall i :: 0 <= i < |host| ==> !EndsHost(host[i]) && host[i] != '\0'
    ensures ParseTarget(scheme + "://" + host) == Target(scheme, Some(host), 80, "", [])
  {
    assert forall i :: 0 <= i < |host| ==> host[i] != '\0';
    TargetWithScheme(scheme, host);
    AuthorityHostOnly(scheme, host);
  }

  /** The text of "scheme://host:digits/path?query". */
  lemma {:induction false} AbsoluteTargetText(scheme: string, host: string, digits: string, path: string, query: string)
    requires ':' !in scheme && '\0' !in scheme
    requires forall i :: 0 <= i < |host| ==> !EndsHost(host[i]) && host[i] != '\0'
    requires forall i :: 0 <= i < |digits| ==> IsDigit(digits[i])
    requires path != [] && path[0] == '/' && '?' !in path && '\0' !in path && '\0' !in query
    ensures TargetTextOf(scheme + "://" + (host + ":" + digits + (path + "?" + query))) ==
      TargetText(scheme, Some(host), PortOf(digits), path, Some(query))
  {
    var rest := path + "?" + query;
    assert forall i :: 0 <= i < |host| ==> host[i] != '\0';
    assert '\0' !in host + ":" + digits + rest;
    TargetWithScheme(scheme, host + ":" + digits + rest);
    AuthorityWithPort(scheme, host, digits, rest);
    PathQueryWithQuery(scheme, Some(host), PortOf(digits), path, query);
  }

  /**
   * "scheme://host:port/path?query": every part is read back, the port as
   * the number written.
   */
  lemma {:induction false} AbsoluteTarget(scheme: string, host: string, port: nat, path: string, query: string)
    requires ':' !in scheme && '\0' !in scheme
    requires forall i :: 0 <= i < |host| ==> !EndsHost(host[i]) && host[i] != '\0'
    requires 0 < port < 0x8000_0000
    requires path != [] && path[0] == '/' && '?' !in path && '\0' !in path && '\0' !in query
    ensures ParseTarget(scheme + "://" + (host + ":" + NatToDecimal(port) + (path + "?" + query))) ==
      Target(scheme, Some(host), port, Decode(path), QueryList(query))
  {
    AbsoluteTargetText(scheme, host, NatToDecimal(port), path, query);
    DigitsValueOfDecimal(port);
  }

  /** "host:0" and "host:" keep the default port. */
  lemma {:induction false} ZeroPortKeepsDefault(scheme: string, host: string, zeros: nat, path: string)
    requires ':' !in scheme && '\0' !in scheme
    requires forall i :: 0 <= i < |host| ==> !EndsHost(host[i]) && host[i] != '\0'
    requires (path == [] || path[0] == '/') && '\0' !in path
    ensures ParseTarget(scheme + "://" + (host + ":" + Repeat('0', zeros) + path)).port == 80
  {
    var digits := Repeat('0', zeros);
    assert forall i :: 0 <= i < |host| ==> host[i] != '\0';
    assert '\0' !in host + ":" + digits + path;
    TargetWithScheme(scheme, host + ":" + digits + path);
    AuthorityWithPort(scheme, host, digits, path);
    ZerosValue(zeros);
  }

  lemma {:induction false} ZerosValue(n: nat)
    ensures DigitsValue(Repeat('0', n)) == 0
  {
    if n > 0 {
      assert Repeat('0', n)[..n - 1] == Repeat('0', n - 1);
      ZerosValue(n - 1);
    }
  }

  /** A scan from q is the scan of the suffix from p, from q - p, shifted by p. */
  lemma {:induction false} ScanEndShift(c: string, p: nat, q: nat, stop: Stop)
    requires p <= q <= |c|
    ensures ScanEnd(c, q, stop) == p + ScanEnd(c[p..], q - p, stop)
  {
    var k := ScanEnd(c[p..], q - p, stop);
    assert forall i :: q <= i < p + k ==> c[i] == c[p..][i - p];
    assert p + k < |c| ==> c[p + k] == c[p..][k];
    ScanEndAt(c, q, p + k, stop);
  }

  // ---------------------------------------------------------------------
  // The request line

  /** A word and what follows it: the text up to the first white space. */
  function SplitWord(s: string): (r: (string, string))
    ensures r.0 + r.1 == s
    ensures forall i :: 0 <= i < |r.0| ==> !IsSpace(r.0[i])
    ensures r.1 == [] || IsSpace(r.1[0])
  {
    var n := ScanEnd(s, 0, Space);
    assert s[..n] + s[n..] == s;
    (s[..n], s[n..])
  }

  /** A word followed by white space or nothing splits there. */
  lemma {:induction false} SplitWordConcat(a: string, b: string)
    requires forall i :: 0 <= i < |a| ==> !IsSpace(a[i])
    requires b == [] || IsSpace(b[0])
    ensures SplitWord(a + b) == (a, b)
  {
    assert (a + b)[0..] == a + b;
    ScanEndSuffix(a + b, 0, a, b, Space);
  }

  /** SplitWord of c[p..], where the scan for white space from p stopped at q. */
  lemma {:induction false} SplitWordFrom(c: string, p: nat, q: nat)
    requires p <= |c| && q == ScanEnd(c, p, Space)
    ensures SplitWord(c[p..]) == (c[p..q], c[q..])
  {
    ScanEndShift(c, p, p, Space);
    assert c[p..][..q - p] == c[p..q];
    assert c[p..][q - p..] == c[q..];
  }

  /**
   * ParseFirstLine on line.c_str(): skip white space, the method up to
   * white space, skip white space, the target up to white space, skip
   * white space, and the version is all the rest.
   */
  function FirstLine(line: string): (r: (string, string, string))
  {
    var first := SplitWord(SkipSpace(CStr(line)));
    var fields := Fields(first.1);
    (first.0, fields.0, fields.1)
  }

  /** The target and the version from the text after the method. */
  function Fields(rest: string): (r: (string, string))
  {
    var second := SplitWord(SkipSpace(rest));
    (second.0, SkipSpace(second.1))
  }

  /** The method and the target are words, and the version does not start with white space. */
  lemma {:induction false} FirstLineWords(line: string)
    ensures var r := FirstLine(line);
      (forall i :: 0 <= i < |r.0| ==> !IsSpace(r.0[i])) &&
      (forall i :: 0 <= i < |r.1| ==> !IsSpace(r.1[i])) &&
      (r.2 == [] || !IsSpace(r.2[0]))
  {
  }

  /** " target version" gives the target and the version. */
  lemma {:induction false} FieldsOf(t: string, v: string)
    requires forall i :: 0 <= i < |t| ==> !IsSpace(t[i])
    requires t != [] && (v == [] || !IsSpace(v[0]))
    ensures Fields(" " + t + " " + v) == (t, v)
  {
    assert " " + t + " " + v == " " + (t + (" " + v));
    SkipSpaceConcat(" ", t + (" " + v));
    SplitWordConcat(t, " " + v);
    SkipSpaceConcat(" ", v);
  }

  /** "METHOD target version" is read back into its three fields. */
  lemma {:induction false} FirstLineFields(m: string, t: string, v: string)
    requires m != [] && t != [] && v != []
    requires forall i :: 0 <= i < |m| ==> !IsSpace(m[i]) && m[i] != '\0'
    requires forall i :: 0 <= i < |t| ==> !IsSpace(t[i]) && t[i] != '\0'
    requires '\0' !in v && !IsSpace(v[0])
    ensures FirstLine(m + " " + t + " " + v) == (m, t, v)
  {
    var line := m + " " + t + " " + v;
    var rest := " " + t + " " + v;
    assert line == m + rest;
    assert forall i :: 0 <= i < |m| ==> m[i] != '\0';
    assert forall i :: 0 <= i < |t| ==> t[i] != '\0';
    assert '\0' !in line;
    CStrOfPlain(line);
    SkipSpaceConcat([], line);
    assert [] + line == line;
    SplitWordConcat(m, rest);
    FieldsOf(t, v);
  }

  // ---------------------------------------------------------------------
  // The request object

  class Request {
    const message: Message
    const response: Response
    var contentBody: BodyPart?
    var scheme: string
    var host: string
    var port: int
    var methodName: string
    var resource: string
    /** The target exactly as SetResource received it. */
    var realResource: string
    /** Names and values of the query, alternating. */
    var queryValues: seq<string>

    predicate Valid()
      reads this, message, message.headers, response, response.message, response.message.headers
    {
      message.Valid() && response.Valid() &&
      message != response.message && message.headers != response.message.headers &&
      |queryValues| % 2 == 0
    }

    /** SHttpRequest(conn): scheme http, no host, port 80, "GET /", and a new response. */
    constructor ()
      ensures Valid() && fresh(message) && fresh(message.headers)
      ensures fresh(response) && fresh(response.message) && fresh(response.message.headers)
      ensures scheme == "http" && host == "" && port == 80 && methodName == "GET" && resource == "/"
      ensures realResource == "" && queryValues == [] && contentBody == null
      ensures message.headers.headers == DefaultHeaders && message.bpCount == 0
    {
      message := new Message();
      response := new Response();
      contentBody := null;
      scheme := "http";
      host := "";
      port := 80;
      methodName := "GET";
      resource := "/";
      realResource := "";
      queryValues := [];
    }

    /**
     * Reset: the message and the response start over and the content body
     * is emptied; the method and the target are kept.
     */
    method Reset()
      requires Valid()
      modifies message, message.headers, response.message, response.message.headers, contentBody
      ensures Valid()
      ensures message.version == "HTTP/1.1" && message.bpCount == 0 && message.headers.headers == DefaultHeaders
      ensures !message.headers.locked
      ensures response.message.version == "HTTP/1.1" && response.message.headers.headers == DefaultHeaders
      ensures contentBody != null ==> contentBody.data == []
      ensures unchanged(this)
    {
      message.Reset();
      if contentBody != null {
        contentBody.Reset();
      }
      response.Reset();
    }

    /** Host(). */
    function Host(): (r: string)
      reads this
      ensures r == host
    {
      host
    }

    /** Port(). */
    function Port(): (r: int)
      reads this
      ensures r == port
    {
      port
    }

    /** Method(). */
    function Method(): (r: string)
      reads this
      ensures r == methodName
    {
      methodName
    }

    /** Resource(). */
    function Resource(): (r: string)
      reads this
      ensures r == resource
    {
      resource
    }

    /** SetMethod(m). */
    method SetMethod(m: string)
      modifies this
      ensures methodName == m && Method() == m
      ensures contentBody == old(contentBody)
      ensures scheme == old(scheme) && host == old(host) && port == old(port) && resource == old(resource)
      ensures realResource == old(realResource) && queryValues == old(queryValues)
    {
      methodName := m;
    }

    /** SetContentBody(part). */
    method SetContentBody(part: BodyPart?)
      modifies this
      ensures contentBody == part
      ensures methodName == old(methodName)
      ensures scheme == old(scheme) && host == old(host) && port == old(port) && resource == old(resource)
      ensures realResource == old(realResource) && queryValues == old(queryValues)
    {
      contentBody := part;
    }

    /**
     * The fields hold the target r as SetResource assigns it: all from
     * ParseTarget(r), the host only when r names one and otherwise the
     * host the request had before.
     */
    ghost predicate HoldsTarget(r: string, previousHost: string)
      reads this
    {
      Holds(ParseTarget(r), r, previousHost)
    }

    /** The fields hold the parts t of the target r, the host only when t has one. */
    predicate Holds(t: Target, r: string, previousHost: string)
      reads this
    {
      realResource == r && scheme == t.scheme && port == t.port && resource == t.resource &&
      queryValues == t.query && host == (if t.host.Some? then t.host.value else previousHost)
    }

    /**
     * SetResource(r): every field of the target is assigned from
     * ParseTarget(r), except that a target without a host leaves the host
     * as it was.
     */
    method SetResource(r: string)
      modifies this
      ensures HoldsTarget(r, old(host))
      ensures contentBody == old(contentBody)
      ensures methodName == old(methodName)
    {
      var t := ScanTarget(r);
      Assign(t, r);
    }

    /** The assignments of SetResource, from the parts t of the target r. */
    method Assign(t: Target, r: string)
      modifies this
      ensures Holds(t, r, old(host))
      ensures contentBody == old(contentBody)
      ensures methodName == old(methodName)
    {
      realResource := r;
      scheme := t.scheme;
      if t.host.Some? {
        host := t.host.value;
      }
      port := t.port;
      resource := t.resource;
      queryValues := t.query;
    }

    /**
     * GetQueryValue(param): the value after the first name equal to param,
     * or "".
     */
    method GetQueryValue(param: string) returns (r: string)
      requires |queryValues| % 2 == 0
      ensures r == FirstValue(queryValues, param)
    {
      var i := 0;
      while i < |queryValues|
        invariant i % 2 == 0 && i <= |queryValues|
        invariant FirstValue(queryValues[i..], param) == FirstValue(queryValues, param)
      {
        assert queryValues[i..][2..] == queryValues[i + 2..];
        if queryValues[i] == param {
          return queryValues[i + 1];
        }
        i := i + 2;
      }
      return "";
    }

    /**
     * ParseFirstLine(line): the method, the target (given to SetResource)
     * and the version are the three fields of FirstLine(line).  The result
     * is true on every path: the tests meant to catch a missing field look
     * at the pointer, never null there, rather than at the character.
     */
    method ParseFirstLine(line: string) returns (ok: bool)
      requires Valid()
      modifies this, message
      ensures ok && Valid()
      ensures methodName == FirstLine(line).0 && message.version == FirstLine(line).2
      ensures HoldsTarget(FirstLine(line).1, old(host))
      ensures contentBody == old(contentBody)
      ensures message.bpCount == old(message.bpCount)
      ensures unchanged(message.headers)
    {
      var m, target, v := ScanFirstLine(line);
      AssignFirstLine(m, target, v);
      ok := true;
    }

    /** The assignments of ParseFirstLine: the method, the version, and the target through SetResource. */
    method AssignFirstLine(m: string, target: string, v: string)
      requires Valid()
      modifies this, message
      ensures Valid()
      ensures methodName == m && message.version == v
      ensures HoldsTarget(target, old(host))
      ensures contentBody == old(contentBody)
      ensures message.bpCount == old(message.bpCount)
      ensures unchanged(message.headers)
    {
      methodName := m;
      message.SetVersion(v);
      SetResource(target);
    }
  }

  /** The pointer walk of ParseFirstLine over the C string of line. */
  method ScanFirstLine(line: string) returns (m: string, target: string, v: string)
    ensures m == FirstLine(line).0 && target == FirstLine(line).1 && v == FirstLine(line).2
  {
    var c := CStr(line);
    assert c[0..] == c;
    var start := SkipSpaces(c, 0);
    var curr := ScanUntil(c, start, Space);
    SplitWordFrom(c, start, curr);
    m := c[start..curr];
    start := SkipSpaces(c, curr);
    curr := ScanUntil(c, start, Space);
    SplitWordFrom(c, start, curr);
    target := c[start..curr];
    start := SkipSpaces(c, curr);
    v := c[start..];
  }

  /**
   * The pointer walk of SetResource over the C string of r: strstr for
   * "://", the host loop, the port loop, the loop to '?', and the query.
   */
  method ScanTarget(r: string) returns (t: Target)
    ensures t == ParseTarget(r)
  {
    var c := CStr(r);
    var scheme: string;
    var start: nat;
    var found := Find(c, "://");
    if found.Some? {
      scheme := c[..found.value];
      start := found.value + 3;
    } else {
      scheme := "http";
      start := 0;
    }
    var host, port, d := ScanHostPort(c, start);
    SuffixDrop(c, start, d);
    if d == |c| {
      PathQueryWithoutQuery(scheme, host, port, []);
      t := Target(scheme, host, port, "", []);
    } else {
      t := ScanPathQuery(r, scheme, host, port, d);
    }
  }

  /** The host loop and, after ':', the port loop, over the C string c from p. */
  method ScanHostPort(c: string, p: nat) returns (host: Option<string>, port: int, d: nat)
    requires p <= |c|
    ensures p <= d <= |c| && HostPort(c[p..]) == (host, port, d - p)
  {
    var e := ScanUntil(c, p, HostEnd);
    if e == |c| {
      HostPortToEnd(c, p);
      return Some(c[p..]), 80, |c|;
    }
    if c[e] != ':' {
      HostPortNoHost(c, p, e);
      return None, 80, e;
    }
    host := Some(c[p..e]);
    port := 80;
    var newport;
    d, newport := ScanPort(c, e + 1);
    if newport != 0 {
      port := newport;
    }
    HostPortColon(c, p, e, d);
  }

  /** The host scan from p reaches the end: all of it is host. */
  lemma {:induction false} HostPortToEnd(c: string, p: nat)
    requires p <= |c| && ScanEnd(c, p, HostEnd) == |c|
    ensures HostPort(c[p..]) == (Some(c[p..]), 80, |c| - p)
  {
    ScanEndShift(c, p, p, HostEnd);
  }

  /** The host scan from p stops at '/' or '?' in e: no host. */
  lemma {:induction false} HostPortNoHost(c: string, p: nat, e: nat)
    requires p <= e < |c| && ScanEnd(c, p, HostEnd) == e && c[e] != ':'
    ensures HostPort(c[p..]) == (None, 80, e - p)
  {
    ScanEndShift(c, p, p, HostEnd);
    assert c[p..][e - p] == c[e];
  }

  /** The host scan from p stops at ':' in e, and the port scan after it at d. */
  lemma {:induction false} HostPortColon(c: string, p: nat, e: nat, d: nat)
    requires p <= e < |c| && ScanEnd(c, p, HostEnd) == e && c[e] == ':'
    requires d == ScanEnd(c, e + 1, NonDigit)
    ensures HostPort(c[p..]) == (Some(c[p..e]), PortOf(c[e + 1..d]), d - p)
  {
    ScanEndShift(c, p, p, HostEnd);
    assert c[p..][e - p] == c[e];
    SuffixSlice(c, p, p, e);
    ScanEndShift(c, p, e + 1, NonDigit);
    SuffixSlice(c, p, e + 1, d);
  }

  /** A slice of the suffix from p is the slice of c shifted by p. */
  lemma SuffixSlice(c: string, p: nat, i: nat, j: nat)
    requires p <= i <= j <= |c|
    ensures c[p..][i - p..j - p] == c[i..j]
  {
  }

  /** A suffix of the suffix from p is a suffix of c. */
  lemma SuffixDrop(c: string, p: nat, i: nat)
    requires p <= i <= |c|
    ensures c[p..][i - p..] == c[i..]
  {
  }

  /** The text from d when the scan for '?' from d stops at m. */
  lemma {:induction false} PathQueryFrom(scheme: string, host: Option<string>, port: int, c: string, d: nat, m: nat)
    requires d <= |c| && m == ScanEnd(c, d, QueryMark)
    ensures PathQuery(scheme, host, port, c[d..]) ==
      TargetText(scheme, host, port, c[d..m], if m < |c| then Some(c[m + 1..]) else None)
  {
    ScanEndShift(c, d, d, QueryMark);
    SuffixSlice(c, d, d, m);
    if m < |c| {
      SuffixDrop(c, d, m + 1);
    }
  }

  /** The loop to '?', the unescaped resource and the query. */
  method ScanPathQuery(r: string, scheme: string, host: Option<string>, port: int, d: nat) returns (t: Target)
    requires d <= |CStr(r)|
    ensures t == Parsed(PathQuery(scheme, host, port, CStr(r)[d..]))
  {
    var c := CStr(r);
    var m := ScanUntil(c, d, QueryMark);
    PathQueryFrom(scheme, host, port, c, d, m);
    ghost var text := PathQuery(scheme, host, port, c[d..]);
    var resource := UnescapeSlice(c, d, m);
    assert resource == Decode(text.path);
    var query: seq<string> := [];
    if m < |c| {
      query := ParseQuery(r, m + 1);
      assert query == QueryList(text.query.value);
    }
    t := Target(scheme, host, port, resource, query);
  }

  /**
   * The port loop: digits from `from` on, each folded into an int as
   * newport * 10 + digit, wrapping as the 32-bit int does.
   */
  method ScanPort(c: string, from: nat) returns (e: nat, newport: int)
    requires from <= |c|
    ensures e == ScanEnd(c, from, NonDigit)
    ensures newport == WrapInt32(DigitsValue(c[from..e]))
  {
    e := from;
    newport := 0;
    while e < |c| && IsDigit(c[e])
      invariant from <= e <= |c|
      invariant ScanEnd(c, e, NonDigit) == ScanEnd(c, from, NonDigit)
      invariant forall k :: from <= k < e ==> IsDigit(c[k])
      invariant newport == WrapInt32(DigitsValue(c[from..e]))
    {
      assert c[from..e + 1][..e - from] == c[from..e];
      WrapStep(DigitsValue(c[from..e]), c[e] as int - '0' as int);
      newport := WrapInt32(newport * 10 + (c[e] as int - '0' as int));
      e := e + 1;
    }
  }

  /** Wrapping after every step of n * 10 + d is wrapping once at the end. */
  lemma {:induction false} WrapStep(x: int, d: int)
    ensures WrapInt32(WrapInt32(x) * 10 + d) == WrapInt32(x * 10 + d)
  {
    var w := WrapInt32(x);
    var k := (w - x) / 0x1_0000_0000;
    assert w == x + k * 0x1_0000_0000;
    assert w * 10 + d == (x * 10 + d) + (10 * k) * 0x1_0000_0000;
    ModShift(x * 10 + d, 10 * k);
  }

  lemma {:induction false} ModShift(a: int, k: int)
    ensures (a + k * 0x1_0000_0000) % 0x1_0000_0000 == a % 0x1_0000_0000
  {
  }

  /**
   * The do-while loop over the query of r, starting after the '?': strchr
   * looks no further than the first NUL, but the loop runs up to r.size().
   */
  method ParseQuery(r: string, start: nat) returns (values: seq<string>)
    requires start <= |CStr(r)|
    ensures values == QueryList(CStr(r)[start..])
  {
    var c := CStr(r);
    var pEnd := |r|;
    var p := start;
    values := [];
    while true
      invariant start <= p <= |c|
      invariant values + QueryList(c[p..]) == QueryList(c[start..])
      decreases |c| - p
    {
      var pair, next, more := QueryStep(r, p);
      assert values + pair + (if more then QueryList(c[next..]) else []) == QueryList(c[start..]);
      values := values + pair;
      if !more {
        return;
      }
      p := next;
      if p >= pEnd {
        assert c[p..] == [];
        return;
      }
    }
  }

  /**
   * The body of the do-while loop from start p: the pair it pushes (none
   * for an empty name), and whether it goes on after the '&' that ends
   * the piece, from next.
   */
  method QueryStep(r: string, p: nat) returns (pair: seq<string>, next: nat, more: bool)
    requires p <= |CStr(r)|
    ensures more ==> p < next <= |CStr(r)|
    ensures QueryList(CStr(r)[p..]) == pair + (if more then QueryList(CStr(r)[next..]) else [])
  {
    var c := CStr(r);
    var s := c[p..];
    var eqRel := IndexOf(s, '=');
    if eqRel.None? {
      return [], p, false;
    }
    var name, value, end := ScanPiece(r, p, eqRel.value);
    QueryFrom(c, p, eqRel.value);
    pair := [];
    if name != "" {
      pair := [name, value];
    }
    more := IndexOf(s, '&').Some?;
    next := end + 1;
  }

  /** The query list of c[p..], whose first '=' is at offset e: the first pair, then the pairs after the '&'. */
  lemma {:induction false} QueryFrom(c: string, p: nat, e: nat)
    requires p <= |c| && IndexOf(c[p..], '=') == Some(e)
    ensures var s := c[p..];
      QueryList(s) == Pair(PieceName(s, e), PieceValue(s, e, PieceEnd(s))) +
        match IndexOf(s, '&') case Some(a) => QueryList(c[p + a + 1..]) case None => []
  {
    var s := c[p..];
    QueryListUnfold(s, e);
    match IndexOf(s, '&') {
      case Some(a) => assert s[a + 1..] == c[p + a + 1..];
      case None =>
    }
  }

  /**
   * One pass of the do-while loop, from start p, whose piece has its '='
   * at offset e: the name, the value, and where the piece ends (r.size()
   * when no '&' follows).
   */
  method ScanPiece(r: string, p: nat, e: nat) returns (name: string, value: string, next: nat)
    requires p <= |CStr(r)| && IndexOf(CStr(r)[p..], '=') == Some(e)
    ensures name == PieceName(CStr(r)[p..], e)
    ensures value == PieceValue(CStr(r)[p..], e, PieceEnd(CStr(r)[p..]))
    ensures next == match IndexOf(CStr(r)[p..], '&') case Some(a) => p + a case None => |r|
  {
    var c := CStr(r);
    var s := c[p..];
    var amp := IndexOf(s, '&');
    next := if amp.Some? then p + amp.value else |r|;
    var eq := p + e;
    name := "";
    if eq > p {
      assert c[p..eq] == s[..e];
      name := UnescapeSlice(c, p, eq);
    }
    value := "";
    if eq + 1 < next {
      var v := eq + 1;
      value := Unescape(r[v..next]);
      CStrOfSlice(r, v, next);
      PieceValueFrom(c, p, e, v, next, |r|);
      assert value == Decode(c[v..if next < |c| then next else |c|]);
    } else {
      assert e + 1 >= PieceEnd(s);
    }
    assert name == PieceName(s, e);
    assert value == PieceValue(s, e, PieceEnd(s));
  }

  /** The value of the piece in c[p..], read from the buffer up to next. */
  lemma {:induction false} PieceValueFrom(c: string, p: nat, e: nat, v: nat, next: nat, size: nat)
    requires p + e < |c| <= size && v == p + e + 1 && v < next
    requires next == match IndexOf(c[p..], '&') case Some(a) => p + a case None => size
    ensures Decode(c[v..if next < |c| then next else |c|]) == PieceValue(c[p..], e, PieceEnd(c[p..]))
  {
    var s := c[p..];
    if IndexOf(s, '&').Some? {
      assert s[e + 1..next - p] == c[v..next];
    } else if v < |c| {
      assert s[e + 1..|s|] == c[v..|c|];
    }
  }

  /**
   * The C string of a slice of r that starts inside its C string: the
   * slice of the C string, cut at its end.
   */
  lemma {:induction false} CStrOfSlice(r: string, i: nat, j: nat)
    requires i <= |CStr(r)| && i <= j <= |r|
    ensures CStr(r[i..j]) == CStr(r)[i..if j < |CStr(r)| then j else |CStr(r)|]
  {
    var c := CStr(r);
    var k := if j < |c| then j else |c|;
    assert forall x :: 0 <= x < |c| ==> c[x] == r[..|c|][x] == r[x];
    assert c[i..k] == r[i..k];
    assert r[i..k] == r[i..j][..k - i];
    if k < j {
      assert k == |c| < |r| && r[k] == '\0';
      assert r[i..j][k - i] == r[k];
    }
    CStrPrefix(r[i..j], c[i..k]);
  }

  /** CStr(s) is t when t is a NUL-free prefix of s followed by a NUL or the end. */
  lemma {:induction false} CStrPrefix(s: string, t: string)
    requires |t| <= |s| && s[..|t|] == t && '\0' !in t
    requires |t| == |s| || s[|t|] == '\0'
    ensures CStr(s) == t
    decreases |t|
  {
    if t != [] {
      assert s[0] == t[0];
      assert s[1..][..|t| - 1] == t[1..];
      CStrPrefix(s[1..], t[1..]);
    }
  }
}
