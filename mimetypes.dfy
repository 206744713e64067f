/**
 * SMimeTypes: the table from file extension to MIME type.  The built-in
 * pairs go in first; then each entry line of a mime.types file ("type
 * ext ext ...") adds its extensions.  Both use map::insert, which never
 * replaces a mapping, while SetMimeType does.  GetMimeType looks up the
 * text after the last '.' of a file name.
 */
module MimeTypes {
  import opened CText

  /** The type of a file whose extension is unknown or missing. */
  const DefaultMimeType: string := "application/binary"

  // ---------------------------------------------------------------------
  // map::insert

  /** std::map::insert: the pair goes in only when the key is absent. */
  function InsertNew(m: map<string, string>, key: string, value: string): map<string, string> {
    if key in m then m else m[key := value]
  }

  /** The pairs inserted one after another. */
  function InsertAll(m: map<string, string>, pairs: seq<(string, string)>): map<string, string>
    decreases |pairs|
  {
    if pairs == [] then m else InsertAll(InsertNew(m, pairs[0].0, pairs[0].1), pairs[1..])
  }

  /** Inserting never changes a key that is already mapped. */
  lemma {:induction false} InsertAllKeeps(m: map<string, string>, pairs: seq<(string, string)>)
    ensures forall k :: k in m ==> k in InsertAll(m, pairs) && InsertAll(m, pairs)[k] == m[k]
    decreases |pairs|
  {
    if pairs != [] {
      InsertAllKeeps(InsertNew(m, pairs[0].0, pairs[0].1), pairs[1..]);
    }
  }

  /** A key not mapped before gets the value of its first pair, whatever follows. */
  lemma {:induction false} InsertAllFirstWins(m: map<string, string>, pairs: seq<(string, string)>, i: nat)
    requires i < |pairs| && pairs[i].0 !in m
    requires forall j :: 0 <= j < i ==> pairs[j].0 != pairs[i].0
    ensures pairs[i].0 in InsertAll(m, pairs) && InsertAll(m, pairs)[pairs[i].0] == pairs[i].1
    decreases |pairs|
  {
    var m' := InsertNew(m, pairs[0].0, pairs[0].1);
    if i == 0 {
      InsertAllKeeps(m', pairs[1..]);
    } else {
      assert pairs[1..][i - 1] == pairs[i];
      InsertAllFirstWins(m', pairs[1..], i - 1);
    }
  }

  /**
   * The table before mime.types is read: the constructor's seventeen
   * built-in pairs.  Their keys are distinct, so each insert adds its pair.
   */
  function BuiltInTypes(): map<string, string> {
    map["xml" := "text/xml", "css" := "text/css", "js" := "application/x-javascript",
        "txt" := "text/plain", "cfg" := "text/text", "png" := "image/png", "gif" := "image/gif",
        "jpg" := "image/jpeg", "pdf" := "application/pdf", "doc" := "application/msword",
        "bin" := "application/octet-stream", "swf" := "application/x-shockwave-flash",
        "zip" := "application/zip", "bz2" := "application/x-bzip2", "html" := "text/html",
        "htm" := "text/html", "wav" := "audio/x-wav"]
  }

  // ---------------------------------------------------------------------
  // mime.types lines

  /** strtok_r's delimiters " \t". */
  predicate IsDelim(c: char) {
    c == ' ' || c == '\t'
  }

  /** The first position at or after i that is not a space. */
  function SpaceEnd(s: string, i: nat): (r: nat)
    requires i <= |s|
    ensures i <= r <= |s|
    ensures forall j :: i <= j < r ==> IsSpace(s[j])
    ensures r < |s| ==> !IsSpace(s[r])
    decreases |s| - i
  {
    if i == |s| || !IsSpace(s[i]) then i else SpaceEnd(s, i + 1)
  }

  /** The first position at or after i that is not a delimiter. */
  function DelimEnd(s: string, i: nat): (r: nat)
    requires i <= |s|
    ensures i <= r <= |s|
    ensures forall j :: i <= j < r ==> IsDelim(s[j])
    ensures r < |s| ==> !IsDelim(s[r])
    decreases |s| - i
  {
    if i == |s| || !IsDelim(s[i]) then i else DelimEnd(s, i + 1)
  }

  /** The first delimiter at or after i, or the end. */
  function TokenEnd(s: string, i: nat): (r: nat)
    requires i <= |s|
    ensures i <= r <= |s|
    ensures forall j :: i <= j < r ==> !IsDelim(s[j])
    ensures r < |s| ==> IsDelim(s[r])
    decreases |s| - i
  {
    if i == |s| || IsDelim(s[i]) then i else TokenEnd(s, i + 1)
  }

  /**
   * strtok_r from position i: the next run of non-delimiters and the
   * position after the delimiter that ends it, or None when only
   * delimiters are left.
   */
  function StrTok(s: string, i: nat): (r: Option<(string, nat)>)
    requires i <= |s|
    ensures r.Some? ==>
      i < r.value.1 <= |s| && r.value.0 != [] && (forall c :: c in r.value.0 ==> !IsDelim(c))
    ensures r.None? <==> forall j :: i <= j < |s| ==> IsDelim(s[j])
  {
    var k := DelimEnd(s, i);
    if k == |s| then None
    else
      var e := TokenEnd(s, k);
      Some((s[k..e], if e < |s| then e + 1 else e))
  }

  /** Every token from position i on, in order. */
  function Tokens(s: string, i: nat): seq<string>
    requires i <= |s|
    decreases |s| - i
  {
    match StrTok(s, i)
    case None => []
    case Some((t, j)) => [t] + Tokens(s, j)
  }

  /** Each token from position i on is inserted with the type. */
  function InsertTokens(m: map<string, string>, s: string, i: nat, mimetype: string): map<string, string>
    requires i <= |s|
    decreases |s| - i
  {
    match StrTok(s, i)
    case None => m
    case Some((t, j)) => InsertTokens(InsertNew(m, t, mimetype), s, j, mimetype)
  }

  /** The tokens are inserted one after another. */
  lemma {:induction false} InsertTokensIsInsertAll(m: map<string, string>, s: string, i: nat, mimetype: string)
    requires i <= |s|
    ensures InsertTokens(m, s, i, mimetype) == InsertAll(m, Pairs(Tokens(s, i), mimetype))
    decreases |s| - i
  {
    match StrTok(s, i)
    case None =>
    case Some((t, j)) =>
      InsertTokensIsInsertAll(InsertNew(m, t, mimetype), s, j, mimetype);
      assert Pairs(Tokens(s, i), mimetype) == [(t, mimetype)] + Pairs(Tokens(s, j), mimetype);
  }

  /** Each token paired with the type. */
  function Pairs(tokens: seq<string>, mimetype: string): (r: seq<(string, string)>)
    ensures |r| == |tokens|
    ensures forall j :: 0 <= j < |r| ==> r[j] == (tokens[j], mimetype)
  {
    if tokens == [] then [] else [(tokens[0], mimetype)] + Pairs(tokens[1..], mimetype)
  }

  /**
   * The test the constructor makes: after leading spaces the line (as the
   * C string fgets filled in) still has a character that is neither a
   * newline nor '#'.
   */
  predicate IsEntryLine(line: string) {
    var c := CStr(line);
    var p := SpaceEnd(c, 0);
    p < |c| && c[p] != '\n' && c[p] != '#'
  }

  /** An entry line always has a first token: the type. */
  lemma {:induction false} EntryLineHasType(line: string)
    requires IsEntryLine(line)
    ensures StrTok(CStr(line), 0).Some?
  {
    var c := CStr(line);
    var p := SpaceEnd(c, 0);
    assert !IsDelim(c[p]);
  }

  /** One line of mime.types: the first token is the type, every later token an extension of it. */
  function LoadLine(m: map<string, string>, line: string): map<string, string> {
    if !IsEntryLine(line) then m
    else
      var c := CStr(line);
      match StrTok(c, 0)
      case None => m
      case Some((mimetype, j)) => InsertTokens(m, c, j, mimetype)
  }

  /** The lines of mime.types in order. */
  function LoadLines(m: map<string, string>, lines: seq<string>): map<string, string>
    decreases |lines|
  {
    if lines == [] then m else LoadLines(LoadLine(m, lines[0]), lines[1..])
  }

  /** The table a new SMimeTypes holds; file is None when mime.types cannot be opened. */
  function InitialTypes(file: Option<seq<string>>): map<string, string> {
    match file
    case None => BuiltInTypes()
    case Some(lines) => LoadLines(BuiltInTypes(), lines)
  }

  /**
   * Loading mime.types keeps every mapping already present, so the
   * built-in types win over the file's.
   */
  lemma {:induction false} LoadLinesKeeps(m: map<string, string>, lines: seq<string>)
    ensures forall k :: k in m ==> k in LoadLines(m, lines) && LoadLines(m, lines)[k] == m[k]
    decreases |lines|
  {
    if lines != [] {
      var line := lines[0];
      var m' := LoadLine(m, line);
      if IsEntryLine(line) {
        var c := CStr(line);
        match StrTok(c, 0) {
          case None =>
          case Some((mimetype, j)) =>
            InsertTokensIsInsertAll(m, c, j, mimetype);
            InsertAllKeeps(m, Pairs(Tokens(c, j), mimetype));
        }
      }
      LoadLinesKeeps(m', lines[1..]);
    }
  }

  /** The built-in types are in every initial table, whatever mime.types says. */
  lemma {:induction false} BuiltInsWin(file: Option<seq<string>>, k: string)
    requires k in BuiltInTypes()
    ensures k in InitialTypes(file) && InitialTypes(file)[k] == BuiltInTypes()[k]
  {
    if file.Some? {
      LoadLinesKeeps(BuiltInTypes(), file.value);
    }
  }

  /** An entry line inserts each of its later tokens, in order, with its first token as the type. */
  lemma {:induction false} LoadEntryLine(m: map<string, string>, line: string)
    requires IsEntryLine(line)
    ensures |Tokens(CStr(line), 0)| > 0
    ensures LoadLine(m, line) ==
      InsertAll(m, Pairs(Tokens(CStr(line), 0)[1..], Tokens(CStr(line), 0)[0]))
  {
    var c := CStr(line);
    EntryLineHasType(line);
    var first := StrTok(c, 0).value;
    var rest := Tokens(c, first.1);
    assert Tokens(c, 0) == [first.0] + rest;
    assert Tokens(c, 0)[1..] == rest;
    InsertTokensIsInsertAll(m, c, first.1, first.0);
  }

  /** An entry line adds each of its later tokens that is not mapped yet, with the line's type. */
  lemma {:induction false} EntryLineAdds(m: map<string, string>, line: string, i: nat)
    requires IsEntryLine(line)
    requires 0 < i < |Tokens(CStr(line), 0)|
    requires Tokens(CStr(line), 0)[i] !in m
    requires forall j :: 0 < j < i ==> Tokens(CStr(line), 0)[j] != Tokens(CStr(line), 0)[i]
    ensures Tokens(CStr(line), 0)[i] in LoadLine(m, line)
    ensures LoadLine(m, line)[Tokens(CStr(line), 0)[i]] == Tokens(CStr(line), 0)[0]
  {
    var t := Tokens(CStr(line), 0);
    LoadEntryLine(m, line);
    var pairs := Pairs(t[1..], t[0]);
    assert pairs[i - 1].0 == t[i];
    forall j | 0 <= j < i - 1 ensures pairs[j].0 != pairs[i - 1].0 {
      assert pairs[j].0 == t[j + 1];
    }
    InsertAllFirstWins(m, pairs, i - 1);
  }

  /** When the text ends in a non-delimiter, the last token runs to its end and ends with that character. */
  lemma {:induction false} TokensReachEnd(s: string, i: nat)
    requires i < |s| && !IsDelim(s[|s| - 1])
    ensures |Tokens(s, i)| > 0
    ensures var t := Tokens(s, i)[|Tokens(s, i)| - 1]; |t| > 0 && t[|t| - 1] == s[|s| - 1]
    decreases |s| - i
  {
    var k := DelimEnd(s, i);
    assert k < |s|;
    var e := TokenEnd(s, k);
    if e < |s| {
      assert e + 1 < |s|;
      var rest := Tokens(s, e + 1);
      assert StrTok(s, i) == Some((s[k..e], e + 1));
      assert Tokens(s, i) == [s[k..e]] + rest;
      TokensReachEnd(s, e + 1);
      assert Tokens(s, i)[|Tokens(s, i)| - 1] == rest[|rest| - 1];
    } else {
      assert StrTok(s, i) == Some((s[k..e], e));
      assert StrTok(s, e).None?;
      assert Tokens(s, i) == [s[k..e]];
    }
  }

  /**
   * Only space and tab separate tokens, so the last extension on a line
   * keeps the line's newline ("text/x-c c h\n" maps "h\n", not "h").
   */
  lemma {:induction false} LastTokenKeepsNewline(line: string)
    requires '\0' !in line && |line| > 0 && line[|line| - 1] == '\n'
    ensures var t := Tokens(CStr(line), 0); |t| > 0 && t[|t| - 1] != [] && t[|t| - 1][|t[|t| - 1]| - 1] == '\n'
  {
    CStrOfPlain(line);
    TokensReachEnd(line, 0);
  }

  /**
   * A line that is blank, or whose first non-space character is '#' or
   * the end of the C string, changes nothing.
   */
  lemma {:induction false} CommentAndBlankLinesIgnored(m: map<string, string>, line: string, k: nat)
    requires k <= |line|
    requires forall j :: 0 <= j < k ==> IsSpace(line[j])
    requires k == |line| || line[k] == '#' || line[k] == '\0' || (line[k] == '\n' && k + 1 == |line|)
    ensures LoadLine(m, line) == m
  {
    var c := CStr(line);
    var p := SpaceEnd(c, 0);
    if p < |c| && c[p] != '\n' && c[p] != '#' {
      assert false;
    }
  }

  // ---------------------------------------------------------------------
  // GetMimeType

  /** The backwards walk from i: it stops at a '.' or at the first character. */
  function ScanBack(f: string, i: nat): (r: nat)
    requires i < |f|
    ensures r <= i && (r == 0 || f[r] == '.')
    ensures forall j :: r < j <= i ==> f[j] != '.'
    decreases i
  {
    if i == 0 || f[i] == '.' then i else ScanBack(f, i - 1)
  }

  /** The extension GetMimeType looks up: after the last '.', when that '.' is not the first character. */
  function Extension(filename: string): Option<string> {
    if |filename| == 0 then None
    else
      var p := ScanBack(filename, |filename| - 1);
      if p > 0 then Some(CStr(filename[p + 1..])) else None
  }

  /** GetMimeType's answer for a table. */
  function MimeTypeOf(m: map<string, string>, filename: string): string {
    match Extension(filename)
    case Some(ext) => if ext in m then m[ext] else DefaultMimeType
    case None => DefaultMimeType
  }

  /**
   * A name has an extension exactly when it has a '.' after its first
   * character, and the extension is what follows the last '.'.
   */
  lemma {:induction false} ExtensionAfterLastDot(filename: string)
    ensures Extension(filename).Some? <==> exists i :: 0 < i < |filename| && filename[i] == '.'
    ensures Extension(filename).Some? ==>
      exists i :: (0 < i < |filename| && filename[i] == '.' &&
        '.' !in filename[i + 1..] && Extension(filename).value == CStr(filename[i + 1..]))
  {
    if |filename| > 0 {
      var p := ScanBack(filename, |filename| - 1);
      if p > 0 {
        var tail := filename[p + 1..];
        forall j | 0 <= j < |tail| ensures tail[j] != '.' {
          assert tail[j] == filename[p + 1 + j];
        }
      }
    }
  }

  /** Hidden files and names without a dot have no extension; only the last dot counts. */
  lemma {:induction false} ExtensionExamples()
    ensures Extension(".bashrc").None?
    ensures Extension("README").None?
    ensures Extension("a.tar.gz") == Some("gz")
  {
    ExtensionAfterLastDot(".bashrc");
    ExtensionAfterLastDot("README");
    var f := "a.tar.gz";
    assert ScanBack(f, 7) == 5;
    CStrOfPlain(f[6..]);
    assert f[6..] == "gz";
  }

  /** After SetMimeType(ext, t) every file with that extension is given t; other extensions keep their type. */
  lemma {:induction false} SetMimeTypeGoverns(m: map<string, string>, ext: string, t: string, filename: string)
    ensures Extension(filename) == Some(ext) ==> MimeTypeOf(m[ext := t], filename) == t
    ensures Extension(filename) != Some(ext) ==> MimeTypeOf(m[ext := t], filename) == MimeTypeOf(m, filename)
  {
  }

  // ---------------------------------------------------------------------
  // SMimeTypes

  class MimeTable {
    /** mimeTypes: extension to type. */
    var mimeTypes: map<string, string>

    /**
     * SMimeTypes(mimetypes): the built-in pairs, then the lines of the
     * file; file is the lines fgets returns, or None when fopen fails.
     */
    constructor (file: Option<seq<string>>)
      ensures mimeTypes == InitialTypes(file)
    {
      mimeTypes := BuiltInTypes();
      new;
      if file.Some? {
        var lines := file.value;
        var i := 0;
        while i < |lines|
          invariant 0 <= i <= |lines|
          invariant LoadLines(mimeTypes, lines[i..]) == LoadLines(BuiltInTypes(), lines)
          decreases |lines| - i
        {
          assert lines[i..] == [lines[i]] + lines[i + 1..];
          LoadLineInto(lines[i]);
          i := i + 1;
        }
        assert lines[i..] == [];
      }
    }

    /** The body of the constructor's fgets loop for one line. */
    method LoadLineInto(line: string)
      modifies this
      ensures mimeTypes == LoadLine(old(mimeTypes), line)
    {
      var c := CStr(line);
      var p := 0;
      while p < |c| && IsSpace(c[p])
        invariant 0 <= p <= |c|
        invariant SpaceEnd(c, 0) == SpaceEnd(c, p)
        decreases |c| - p
      {
        p := p + 1;
      }
      if p < |c| && c[p] != '\n' && c[p] != '#' {
        var first := StrTokR(c, 0);
        EntryLineHasType(line);
        var mimetype := first.value.0;
        var pos := first.value.1;
        var next := StrTokR(c, pos);
        while next.Some?
          invariant pos <= |c|
          invariant next == StrTok(c, pos)
          invariant InsertTokens(mimeTypes, c, pos, mimetype) == LoadLine(old(mimeTypes), line)
          decreases |c| - pos
        {
          mimeTypes := InsertNew(mimeTypes, next.value.0, mimetype);
          pos := next.value.1;
          next := StrTokR(c, pos);
        }
      }
    }

    /** SetMimeType: mimeTypes[ext] = mtype, replacing any mapping. */
    method SetMimeType(ext: string, mtype: string)
      modifies this
      ensures mimeTypes == old(mimeTypes)[ext := mtype]
    {
      mimeTypes := mimeTypes[ext := mtype];
    }

    /** GetMimeType: walk back from the last character to a '.', then look the rest up. */
    method GetMimeType(filename: string) returns (r: string)
      ensures r == MimeTypeOf(mimeTypes, filename)
    {
      if |filename| == 0 {
        return DefaultMimeType;
      }
      var p: nat := |filename| - 1;
      while p > 0 && filename[p] != '.'
        invariant p < |filename|
        invariant ScanBack(filename, |filename| - 1) == ScanBack(filename, p)
        decreases p
      {
        p := p - 1;
      }
      if p > 0 {
        var ext := CStr(filename[p + 1..]);
        if ext in mimeTypes {
          return mimeTypes[ext];
        }
      }
      return DefaultMimeType;
    }
  }

  /** strtok_r(…, " \t", &save): skip delimiters, then take the run up to the next one. */
  method StrTokR(s: string, i: nat) returns (tok: Option<(string, nat)>)
    requires i <= |s|
    ensures tok == StrTok(s, i)
  {
    var k := i;
    while k < |s| && IsDelim(s[k])
      invariant i <= k <= |s|
      invariant DelimEnd(s, i) == DelimEnd(s, k)
      decreases |s| - k
    {
      k := k + 1;
    }
    if k == |s| {
      return None;
    }
    var e := k;
    while e < |s| && !IsDelim(s[e])
      invariant k <= e <= |s|
      invariant TokenEnd(s, k) == TokenEnd(s, e)
      decreases |s| - e
    {
      e := e + 1;
    }
    tok := Some((s[k..e], if e < |s| then e + 1 else e));
  }
}
