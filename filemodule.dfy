// The static file module (SFileModule): maps a request's resource to a
// file under one of its document roots and answers with the file, an
// HTML listing of a directory, or an error text.  The file system is a
// parameter: for a full path it gives what stat, opendir/readdir and
// fopen/fread would report.

module FileModule {
  import opened CText
  import opened SortedMap
  import opened DirUtils
  import opened Headers
  import opened BodyParts
  import opened Message
  import opened Response
  import opened Replies

  // ---------------------------------------------------------------------
  // DirEnt

  /** The two fields of a stat record the module reads. */
  datatype Stat = Stat(mode: nat, size: int)

  /** A directory entry: its name and the stat of dirname + "/" + name. */
  datatype DirEnt = DirEnt(entName: string, entStat: Stat)

  /** S_IFDIR, octal 0040000. */
  const S_IFDIR: nat := 0x4000

  /** (st_mode & S_IFDIR) != 0 */
  predicate IsDirectory(s: Stat) {
    (s.mode / S_IFDIR) % 2 == 1
  }

  /** DirEnt(name): the name, and a stat record that memset has zeroed. */
  function NewDirEnt(name: string): (e: DirEnt)
    ensures e.entName == name && !IsDirectory(e.entStat)
  {
    DirEnt(name, Stat(0, 0))
  }

  /** The values of a name's chars as signed C chars. */
  function SignedChars(s: string): (r: seq<int>)
    ensures |r| == |s|
    ensures forall i :: 0 <= i < |s| ==> r[i] == SignedChar(s[i])
  {
    seq(|s|, i requires 0 <= i < |s| => SignedChar(s[i]))
  }

  /** std::lexicographical_compare over sequences of signed chars. */
  predicate SignedLess(x: seq<int>, y: seq<int>)
    decreases |x|
  {
    if x == [] then y != []
    else if y == [] then false
    else if x[0] != y[0] then x[0] < y[0]
    else SignedLess(x[1..], y[1..])
  }

  /** The names' order: std::lexicographical_compare over their chars, which compare as signed C chars. */
  predicate NameLess(a: string, b: string) {
    SignedLess(SignedChars(a), SignedChars(b))
  }

  lemma {:induction false} SignedLessIrreflexive(x: seq<int>)
    ensures !SignedLess(x, x)
    decreases |x|
  {
    if x != [] {
      SignedLessIrreflexive(x[1..]);
    }
  }

  lemma {:induction false} SignedLessTransitive(x: seq<int>, y: seq<int>, z: seq<int>)
    requires SignedLess(x, y) && SignedLess(y, z)
    ensures SignedLess(x, z)
    decreases |x|
  {
    if x != [] && y != [] && z != [] && x[0] == y[0] && y[0] == z[0] {
      SignedLessTransitive(x[1..], y[1..], z[1..]);
    }
  }

  lemma {:induction false} SignedLessTotal(x: seq<int>, y: seq<int>)
    requires x != y
    ensures SignedLess(x, y) || SignedLess(y, x)
    decreases |x|
  {
    if x != [] && y != [] && x[0] == y[0] {
      assert x == [x[0]] + x[1..] && y == [y[0]] + y[1..];
      SignedLessTotal(x[1..], y[1..]);
    }
  }

  lemma {:induction false} SignedLessAsymmetric(x: seq<int>, y: seq<int>)
    requires SignedLess(x, y)
    ensures !SignedLess(y, x)
  {
    if SignedLess(y, x) {
      SignedLessTransitive(x, y, x);
      SignedLessIrreflexive(x);
    }
  }

  /** !(x < y) and !(y < z) give !(x < z). */
  lemma {:induction false} SignedNotLessTransitive(x: seq<int>, y: seq<int>, z: seq<int>)
    requires !SignedLess(x, y) && !SignedLess(y, z)
    ensures !SignedLess(x, z)
  {
    if x != y && y != z {
      SignedLessTotal(x, y);
      SignedLessTotal(y, z);
      SignedLessTransitive(z, y, x);
      SignedLessAsymmetric(z, x);
    }
  }

  /** DirEntCmp: the larger st_mode first; equal modes by name. */
  predicate DirEntCmp(lhs: DirEnt, rhs: DirEnt) {
    if lhs.entStat.mode == rhs.entStat.mode then NameLess(lhs.entName, rhs.entName)
    else lhs.entStat.mode > rhs.entStat.mode
  }

  /** Entries std::sort may place in either order: the same mode and the same chars. */
  predicate Equivalent(lhs: DirEnt, rhs: DirEnt) {
    lhs.entStat.mode == rhs.entStat.mode && SignedChars(lhs.entName) == SignedChars(rhs.entName)
  }

  lemma {:induction false} DirEntCmpIrreflexive(e: DirEnt)
    ensures !DirEntCmp(e, e)
  {
    SignedLessIrreflexive(SignedChars(e.entName));
  }

  lemma {:induction false} DirEntCmpTransitive(a: DirEnt, b: DirEnt, c: DirEnt)
    requires DirEntCmp(a, b) && DirEntCmp(b, c)
    ensures DirEntCmp(a, c)
  {
    if a.entStat.mode == b.entStat.mode == c.entStat.mode {
      SignedLessTransitive(SignedChars(a.entName), SignedChars(b.entName), SignedChars(c.entName));
    }
  }

  /** Incomparability is the equivalence Equivalent, so DirEntCmp is a strict weak order. */
  lemma {:induction false} DirEntCmpIncomparable(a: DirEnt, b: DirEnt)
    ensures !DirEntCmp(a, b) && !DirEntCmp(b, a) <==> Equivalent(a, b)
  {
    var x, y := SignedChars(a.entName), SignedChars(b.entName);
    SignedLessIrreflexive(x);
    if x != y {
      SignedLessTotal(x, y);
    }
  }

  lemma {:induction false} DirEntCmpAsymmetric(a: DirEnt, b: DirEnt)
    requires DirEntCmp(a, b)
    ensures !DirEntCmp(b, a)
  {
    if a.entStat.mode == b.entStat.mode {
      SignedLessAsymmetric(SignedChars(a.entName), SignedChars(b.entName));
    }
  }

  /** Entries fresh from the constructor are ordered by name alone. */
  lemma {:induction false} NewDirEntsOrderByName(a: string, b: string)
    ensures DirEntCmp(NewDirEnt(a), NewDirEnt(b)) <==> NameLess(a, b)
  {
  }

  /** !(a < b) and !(b < c) give !(a < c). */
  lemma {:induction false} NotBeforeTransitive(a: DirEnt, b: DirEnt, c: DirEnt)
    requires !DirEntCmp(a, b) && !DirEntCmp(b, c)
    ensures !DirEntCmp(a, c)
  {
    if a.entStat.mode == b.entStat.mode == c.entStat.mode {
      SignedNotLessTransitive(SignedChars(a.entName), SignedChars(b.entName), SignedChars(c.entName));
    }
  }

  // ---------------------------------------------------------------------
  // Sorting the listing (std::sort with DirEntCmp)

  /** No entry is DirEntCmp-before an entry listed ahead of it. */
  predicate SortedEntries(s: seq<DirEnt>) {
    forall i, j :: 0 <= i < j < |s| ==> !DirEntCmp(s[j], s[i])
  }

  function InsertEntry(e: DirEnt, s: seq<DirEnt>): (r: seq<DirEnt>)
    decreases |s|
  {
    if s == [] then [e]
    else if DirEntCmp(s[0], e) then [s[0]] + InsertEntry(e, s[1..])
    else [e] + s
  }

  /** The listing in DirEntCmp order. */
  function SortEntries(s: seq<DirEnt>): (r: seq<DirEnt>)
    decreases |s|
  {
    if s == [] then [] else InsertEntry(s[0], SortEntries(s[1..]))
  }

  lemma {:induction false} InsertEntryKeeps(e: DirEnt, s: seq<DirEnt>)
    ensures multiset(InsertEntry(e, s)) == multiset(s) + multiset{e}
    decreases |s|
  {
    if s != [] && DirEntCmp(s[0], e) {
      InsertEntryKeeps(e, s[1..]);
      assert s == [s[0]] + s[1..];
    }
  }

  lemma {:induction false} InsertEntryMembers(e: DirEnt, s: seq<DirEnt>)
    ensures forall x :: x in InsertEntry(e, s) ==> x == e || x in s
    decreases |s|
  {
    if s != [] && DirEntCmp(s[0], e) {
      InsertEntryMembers(e, s[1..]);
    }
  }

  lemma {:induction false} InsertEntrySorted(e: DirEnt, s: seq<DirEnt>)
    requires SortedEntries(s)
    ensures SortedEntries(InsertEntry(e, s))
    decreases |s|
  {
    if s == [] {
    } else if DirEntCmp(s[0], e) {
      InsertEntrySorted(e, s[1..]);
      HeadStaysFirst(e, s);
      var tail := InsertEntry(e, s[1..]);
      assert InsertEntry(e, s) == [s[0]] + tail;
    } else {
      var r := [e] + s;
      forall j | 1 <= j < |r|
        ensures !DirEntCmp(r[j], e)
      {
        if j > 1 {
          NotBeforeTransitive(s[j - 1], s[0], e);
        }
      }
    }
  }

  /** When e goes after the head of a sorted listing, nothing in the rest with e inserted goes before that head. */
  lemma {:induction false} HeadStaysFirst(e: DirEnt, s: seq<DirEnt>)
    requires SortedEntries(s) && s != [] && DirEntCmp(s[0], e)
    ensures forall x :: x in InsertEntry(e, s[1..]) ==> !DirEntCmp(x, s[0])
  {
    InsertEntryMembers(e, s[1..]);
    forall x | x in InsertEntry(e, s[1..])
      ensures !DirEntCmp(x, s[0])
    {
      if x == e {
        DirEntCmpAsymmetric(s[0], e);
      } else {
        var k :| 0 <= k < |s[1..]| && s[1..][k] == x;
        assert s[k + 1] == x;
      }
    }
  }

  /** Sorting gives a DirEntCmp-ordered permutation of the listing. */
  lemma {:induction false} SortEntriesSortsAndKeeps(s: seq<DirEnt>)
    ensures SortedEntries(SortEntries(s))
    ensures multiset(SortEntries(s)) == multiset(s)
    decreases |s|
  {
    if s != [] {
      SortEntriesSortsAndKeeps(s[1..]);
      InsertEntrySorted(s[0], SortEntries(s[1..]));
      InsertEntryKeeps(s[0], SortEntries(s[1..]));
      assert s == [s[0]] + s[1..];
    }
  }

  // ---------------------------------------------------------------------
  // ReadDirectory's name filter

  /**
   * The filter as written, `!(d[0]=='.' && d[1]==0) && !(d[0]=='.' &&
   * d[1]=='.' || d[2]==0)`: the `||` binds loosest, so d[2]==0 alone
   * drops the name.
   */
  predicate KeepAsWritten(name: string) {
    !(CharAt(name, 0) == '.' && CharAt(name, 1) == '\0') &&
    !((CharAt(name, 0) == '.' && CharAt(name, 1) == '.') || CharAt(name, 2) == '\0')
  }

  /** As written, every name of at most two characters, and every name starting "..", is dropped. */
  lemma {:induction false} KeepAsWrittenDropsShortNames(name: string)
    requires '\0' !in name
    ensures KeepAsWritten(name) <==> |name| > 2 && !StartsWith(name, "..")
  {
  }

  /** "js" is a regular name that the filter as written drops and filterDotAndDotDot keeps. */
  lemma {:induction false} KeepAsWrittenDropsTwoLetterName()
    ensures !KeepAsWritten("js") && FilterDotAndDotDot("js") == 1
    ensures !KeepAsWritten("..x") && FilterDotAndDotDot("..x") == 1
  {
  }

  /** The entries ReadDirectory keeps, in readdir order: all but "." and "..". */
  function DirectoryEntries(listing: seq<DirEnt>): (r: seq<DirEnt>)
    decreases |listing|
  {
    if listing == [] then []
    else if FilterDotAndDotDot(listing[0].entName) == 1 then [listing[0]] + DirectoryEntries(listing[1..])
    else DirectoryEntries(listing[1..])
  }

  /** An entry is kept exactly when it is listed and is neither "." nor "..". */
  lemma {:induction false} DirectoryEntriesKeep(listing: seq<DirEnt>, e: DirEnt)
    requires '\0' !in e.entName
    ensures e in DirectoryEntries(listing) <==> e in listing && e.entName != "." && e.entName != ".."
    decreases |listing|
  {
    FilterDropsOnlyDotAndDotDot(e.entName);
    if listing != [] {
      DirectoryEntriesKeep(listing[1..], e);
      assert listing == [listing[0]] + listing[1..];
    }
  }

  // ---------------------------------------------------------------------
  // The listing page

  /** `(s[0] == '/' ? s.c_str() + 1 : s.c_str())` */
  function SkipSlash(s: string): (r: string)
    ensures '\0' !in s && CharAt(s, 0) == '/' ==> r == s[1..]
    ensures '\0' !in s && CharAt(s, 0) != '/' ==> r == s
  {
    if CharAt(s, 0) == '/' then CStr(s[1..]) else CStr(s)
  }

  /** The "/" written between the directory and the entry name when the directory does not end in one. */
  function Separator(dirname: string): (r: string)
    ensures r == "" || r == "/"
    ensures r == "/" <==> |dirname| > 0 && dirname[|dirname| - 1] != '/'
  {
    if |dirname| > 0 && dirname[|dirname| - 1] != '/' then "/" else ""
  }

  /**
   * The link of a listing row as written: prefix, then the listed
   * directory's file-system path (docroot + filename) without a leading
   * '/', a separator, and the entry name without a leading '/'.
   */
  function Href(prefix: string, dirname: string, entName: string): (r: string)
    ensures StartsWith(r, prefix)
  {
    prefix + SkipSlash(dirname) + Separator(dirname) + SkipSlash(entName)
  }

  /** The link as intended: prefix, the requested path below the prefix, a separator, the entry name. */
  function ListingHref(prefix: string, filename: string, entName: string): (r: string)
    ensures StartsWith(r, prefix)
  {
    prefix + (CStr(filename) + Separator(filename) + SkipSlash(entName))
  }

  /** PrintDirParents: the directory's path, docroot + filename. */
  function PrintDirParents(docroot: string, filename: string): string {
    docroot + filename
  }

  /** One row of the listing table: a link, and the size or "---" for a directory. */
  function ListingRow(prefix: string, filename: string, e: DirEnt): string {
    "<tr><td><a href=\"" + ListingHref(prefix, filename, e.entName) + "\">" +
    (if IsDirectory(e.entStat) then "[" + e.entName + "]</a></td><td>---</td>"
     else e.entName + "</a></td><td>" + IntToDecimal(e.entStat.size) + "</td>") +
    "</tr>"
  }

  function ListingRows(prefix: string, filename: string, entries: seq<DirEnt>): string
    decreases |entries|
  {
    if entries == [] then "" else ListingRow(prefix, filename, entries[0]) + ListingRows(prefix, filename, entries[1..])
  }

  /**
   * PrintDirContents: the page for a directory; listing is what readdir
   * returned with each entry's stat, or None when opendir failed (then
   * strerror is the text of errno).
   */
  function PrintDirContents(docroot: string, filename: string, prefix: string, listing: Option<seq<DirEnt>>, strerror: string): string {
    PageHead(docroot, filename) +
    (match listing
     case Some(l) => TableHead + ListingRows(prefix, filename, SortEntries(DirectoryEntries(l))) + "</table>"
     case None => "Error: Cannot open directory: " + strerror) +
    PageTail
  }

  /** The page up to the listing: the title with the directory's path. */
  function PageHead(docroot: string, filename: string): string {
    "<html><head></head><body><p><center><h2>Contents of: " + PrintDirParents(docroot, filename) +
    "</h2></center><hl></hl>"
  }

  const TableHead: string :=
    "<table width = \"100%\"><thead><tr><td><strong>File Name</strong></td><td><strong>Size</strong></td></tr></thead>"

  const PageTail: string := "<hl></hl></body></html>"

  /** The rows of two runs of entries are the rows of the first followed by those of the second. */
  lemma {:induction false} ListingRowsAppend(prefix: string, filename: string, a: seq<DirEnt>, b: seq<DirEnt>)
    ensures ListingRows(prefix, filename, a + b) == ListingRows(prefix, filename, a) + ListingRows(prefix, filename, b)
    decreases |a|
  {
    if a == [] {
      assert a + b == b;
    } else {
      assert (a + b)[1..] == a[1..] + b;
      ListingRowsAppend(prefix, filename, a[1..], b);
    }
  }

  /** The entry at position k has its row right after the rows of the entries before it. */
  lemma {:induction false} ListingRowsHoldRow(prefix: string, filename: string, entries: seq<DirEnt>, k: nat)
    requires k < |entries|
    ensures OccursAt(ListingRows(prefix, filename, entries), ListingRow(prefix, filename, entries[k]),
                     |ListingRows(prefix, filename, entries[..k])|)
  {
    var rest := [entries[k]] + entries[k + 1..];
    var before, row, after :=
      ListingRows(prefix, filename, entries[..k]), ListingRow(prefix, filename, entries[k]), ListingRows(prefix, filename, entries[k + 1..]);
    AroundEntry(entries, k);
    assert rest[1..] == entries[k + 1..];
    ListingRowsAppend(prefix, filename, entries[..k], rest);
    assert ListingRows(prefix, filename, rest) == row + after;
    OccursBetween(before, row, after);
  }

  /** A run of entries is the entries before position k, the entry at k and the entries after it. */
  lemma {:induction false} AroundEntry(entries: seq<DirEnt>, k: nat)
    requires k < |entries|
    ensures entries == entries[..k] + ([entries[k]] + entries[k + 1..])
  {
    assert entries[k..] == [entries[k]] + entries[k + 1..];
    assert entries == entries[..k] + entries[k..];
  }

  /** s occurs in a + (s + b) right after a. */
  lemma {:induction false} OccursBetween(a: string, s: string, b: string)
    ensures OccursAt(a + (s + b), s, |a|)
  {
    assert (a + (s + b))[|a|..|a| + |s|] == s;
  }

  /** Text found in s is found in a + s + b, |a| further on. */
  lemma {:induction false} OccursInside(a: string, s: string, b: string, pat: string, j: nat)
    requires OccursAt(s, pat, j)
    ensures OccursAt(a + s + b, pat, |a| + j)
  {
    assert (a + s + b)[|a| + j..|a| + j + |pat|] == s[j..j + |pat|];
  }

  /**
   * Every entry readdir returned, other than "." and "..", has its row
   * on the directory's page, whatever order the sort puts it in.
   */
  lemma {:induction false} DirectoryPageListsEntry(docroot: string, filename: string, prefix: string,
                                                   listing: seq<DirEnt>, strerror: string, e: DirEnt)
    requires '\0' !in e.entName
    requires e in listing && e.entName != "." && e.entName != ".."
    ensures exists i :: OccursAt(PrintDirContents(docroot, filename, prefix, Some(listing), strerror),
                                 ListingRow(prefix, filename, e), i)
  {
    DirectoryEntriesKeep(listing, e);
    var sorted := SortEntries(DirectoryEntries(listing));
    SortEntriesSortsAndKeeps(DirectoryEntries(listing));
    assert e in multiset(sorted);
    var k :| 0 <= k < |sorted| && sorted[k] == e;
    ListingRowsHoldRow(prefix, filename, sorted, k);
    var rows, row := ListingRows(prefix, filename, sorted), ListingRow(prefix, filename, e);
    var j := |ListingRows(prefix, filename, sorted[..k])|;
    OccursInside(TableHead, rows, "</table>", row, j);
    OccursInside(PageHead(docroot, filename), TableHead + rows + "</table>", PageTail, row, |TableHead| + j);
    ListedPage(docroot, filename, prefix, listing, strerror);
  }

  /** A listing's page: the page head, the table of its rows, the page tail. */
  lemma {:induction false} ListedPage(docroot: string, filename: string, prefix: string, listing: seq<DirEnt>, strerror: string)
    ensures var rows := ListingRows(prefix, filename, SortEntries(DirectoryEntries(listing)));
      PrintDirContents(docroot, filename, prefix, Some(listing), strerror) ==
      PageHead(docroot, filename) + (TableHead + rows + "</table>") + PageTail
  {
  }

  /** A directory that cannot be opened gives a page that carries strerror's text. */
  lemma {:induction false} UnreadableDirectoryPage(docroot: string, filename: string, prefix: string, strerror: string)
    ensures exists i :: OccursAt(PrintDirContents(docroot, filename, prefix, None, strerror),
                                 "Error: Cannot open directory: " + strerror, i)
  {
    var message := "Error: Cannot open directory: " + strerror;
    OccursInside(PageHead(docroot, filename), message, PageTail, message, 0);
    assert OccursAt(PrintDirContents(docroot, filename, prefix, None, strerror), message, |PageHead(docroot, filename)| + 0);
  }

  // ---------------------------------------------------------------------
  // Document roots and ParsePath

  /** strncmp(path.c_str(), prefix.c_str(), prefix.size()) == 0 */
  predicate RootMatches(root: (string, string), path: string) {
    StrnEqual(path, root.0, |root.0|)
  }

  /** The first root at or after from whose prefix matches the path. */
  function FirstRootFrom(roots: seq<(string, string)>, path: string, from: nat): (r: Option<nat>)
    requires from <= |roots|
    ensures r.Some? ==> from <= r.value < |roots| && RootMatches(roots[r.value], path)
    ensures r.Some? ==> forall j :: from <= j < r.value ==> !RootMatches(roots[j], path)
    ensures r.None? ==> forall j :: from <= j < |roots| ==> !RootMatches(roots[j], path)
    decreases |roots| - from
  {
    if from == |roots| then None
    else if RootMatches(roots[from], path) then Some(from)
    else FirstRootFrom(roots, path, from + 1)
  }

  function FirstRoot(roots: seq<(string, string)>, path: string): Option<nat> {
    FirstRootFrom(roots, path, 0)
  }

  /** `std::string(path.c_str() + preflen)`; a prefix longer than the path is read as giving "". */
  function ChildPath(path: string, preflen: nat): string {
    if preflen <= |path| then CStr(path[preflen..]) else ""
  }

  /** ParsePath's outcome: (docroot, child, prefix) of the first matching root, or None. */
  function ParsedPath(roots: seq<(string, string)>, path: string): Option<(string, string, string)> {
    match FirstRoot(roots, path)
    case Some(k) => Some((roots[k].1, ChildPath(path, |roots[k].0|), roots[k].0))
    case None => None
  }

  /** For plain strings a root matches exactly when the path starts with its prefix, and the child is the rest. */
  lemma {:induction false} RootMatchesIsPrefix(root: (string, string), path: string)
    requires '\0' !in root.0 && '\0' !in path
    ensures RootMatches(root, path) <==> StartsWith(path, root.0)
    ensures RootMatches(root, path) ==> ChildPath(path, |root.0|) == path[|root.0|..]
  {
    StrnEqualSymmetric(path, root.0, |root.0|);
    StrnEqualIsPrefix(root.0, path);
    if RootMatches(root, path) {
      CStrOfPlain(path[|root.0|..]);
    }
  }

  /** A root with an empty prefix matches every path, so no root after it is ever chosen. */
  lemma {:induction false} EmptyPrefixMatchesAll(roots: seq<(string, string)>, path: string, k: nat)
    requires k < |roots| && roots[k].0 == ""
    ensures FirstRoot(roots, path).Some? && FirstRoot(roots, path).value <= k
  {
    assert RootMatches(roots[k], path);
  }

  /** Adding a root never changes the answer for a path an earlier root already serves. */
  lemma {:induction false} EarlierRootWins(roots: seq<(string, string)>, root: (string, string), path: string)
    ensures FirstRoot(roots, path).Some? ==> FirstRoot(roots + [root], path) == FirstRoot(roots, path)
    ensures FirstRoot(roots, path).None? ==>
      FirstRoot(roots + [root], path) == (if RootMatches(root, path) then Some(|roots|) else None)
  {
    var extended := roots + [root];
    var r := FirstRoot(extended, path);
    var s := FirstRoot(roots, path);
    assert forall j :: 0 <= j < |roots| ==> extended[j] == roots[j];
    if s.Some? {
      assert extended[s.value] == roots[s.value];
    } else {
      assert extended[|roots|] == root;
    }
  }

  /**
   * A link from the listing of the request's directory, served by the
   * same root, resolves to that directory's child path joined with the
   * entry's name.
   */
  lemma {:induction false} ListingLinkResolves(roots: seq<(string, string)>, k: nat, filename: string, entName: string)
    requires k < |roots| && '\0' !in roots[k].0 && '\0' !in filename && '\0' !in entName
    requires FirstRoot(roots, ListingHref(roots[k].0, filename, entName)) == Some(k)
    ensures ParsedPath(roots, ListingHref(roots[k].0, filename, entName)) ==
      Some((roots[k].1, filename + Separator(filename) + SkipSlash(entName), roots[k].0))
  {
    ListingHrefOfPlain(roots[k].0, filename, entName);
    ServedPath(roots, k, filename + Separator(filename) + SkipSlash(entName));
  }

  /** For a plain directory path the link is the prefix followed by that path, a separator and the name. */
  lemma {:induction false} ListingHrefOfPlain(prefix: string, filename: string, entName: string)
    requires '\0' !in filename && '\0' !in entName
    ensures '\0' !in filename + Separator(filename) + SkipSlash(entName)
    ensures ListingHref(prefix, filename, entName) == prefix + (filename + Separator(filename) + SkipSlash(entName))
  {
    CStrOfPlain(filename);
  }

  /** A path made of the chosen root's prefix and a plain rest parses to that rest. */
  lemma {:induction false} ServedPath(roots: seq<(string, string)>, k: nat, rest: string)
    requires k < |roots| && '\0' !in rest
    requires FirstRoot(roots, roots[k].0 + rest) == Some(k)
    ensures ParsedPath(roots, roots[k].0 + rest) == Some((roots[k].1, rest, roots[k].0))
  {
    var path := roots[k].0 + rest;
    assert path[|roots[k].0|..] == rest;
    CStrOfPlain(rest);
  }

  /**
   * As written the link carries the document root: under root ("/p/",
   * "/d/") the listing of "/p/s" (the directory "/d/s") links entry "e"
   * as "/p/d/s/e", which resolves to the child "d/s/e" rather than "s/e".
   */
  lemma {:induction false} HrefAsWrittenMisses()
    ensures Href("/p/", "/d/s", "e") == "/p/d/s/e"
    ensures ParsedPath([("/p/", "/d/")], "/p/d/s/e") == Some(("/d/", "d/s/e", "/p/"))
  {
    HrefExample();
    RootMatchesIsPrefix(("/p/", "/d/"), "/p/d/s/e");
    assert StartsWith("/p/d/s/e", "/p/");
    assert "/p/d/s/e"[3..] == "d/s/e";
  }

  lemma {:induction false} HrefExample()
    ensures Href("/p/", "/d/s", "e") == "/p/d/s/e"
  {
    CStrOfPlain("d/s");
    CStrOfPlain("e");
    assert SkipSlash("/d/s") == "d/s";
    assert SkipSlash("e") == "e";
    assert Separator("/d/s") == "/";
  }

  // ---------------------------------------------------------------------
  // The file system and the reply

  /** What fopen followed by fread reports. */
  datatype OpenOutcome = OpenFailed(errno: int) | Opened(contents: string)

  /** What stat (and then opendir/readdir or fopen) reports for a full path. */
  datatype PathOutcome =
    | StatFailed(errno: int)
    | Directory(listing: Option<seq<DirEnt>>, strerror: string)
    | RegularFile(size: int, open: OpenOutcome)

  // The texts ProcessInput gives for a failed stat, by error number.
  const StatEFAULTText: string := "Bad address."
  const StatEACCESText: string := "Search permission is denied for one of the directories in the path prefix of path.  (See also path_resolution(2).)"
  const StatEBADFText: string := "filedes is bad."
  const StatELOOPText: string := "Too many symbolic links encountered while traversing the path."
  const StatENAMETOOLONGText: string := "File name too long."
  const StatENOENTText: string := "A component of the path path does not exist, or the path is an empty string."
  const StatENOMEMText: string := "Out of memory (i.e. kernel memory)."
  const StatENOTDIRText: string := "A component of the path is not a directory."
  const StatUnknownText: string := "Unknown Error."

  /** The text ProcessInput gives for a failed stat. */
  function StatErrorText(errno: int): (r: string)
    ensures r != ""
  {
    if errno == EFAULT then StatEFAULTText
    else if errno == EACCES then StatEACCESText
    else if errno == EBADF then StatEBADFText
    else if errno == ELOOP then StatELOOPText
    else if errno == ENAMETOOLONG then StatENAMETOOLONGText
    else if errno == ENOENT then StatENOENTText
    else if errno == ENOMEM then StatENOMEMText
    else if errno == ENOTDIR then StatENOTDIRText
    else StatUnknownText
  }

  /** OpenFile's error text: "Unknown Error" unless the switch has a message for errno. */
  function OpenErrorText(errno: int): (r: string)
    ensures r != ""
  {
    ErrorMessageIffDescribed(errno);
    if errno in DescribedErrors then FileErrorNumToString(errno) else "Unknown Error"
  }

  /** ProcessInput's decisions for a resource, given the file system fs. */
  function FileReply(roots: seq<(string, string)>, resource: string, fs: string -> PathOutcome): Reply {
    match ParsedPath(roots, resource)
    case None => Reply(Some((404, "Not Found")), 0, "text/text", false, None)
    case Some((docroot, filename, prefix)) =>
      match fs(docroot + filename)
      case StatFailed(e) =>
        var msg := StatErrorText(e);
        Reply(Some((500, "Cannot read file")), WrapInt32(|msg|), "text/text", false, Some(msg))
      case Directory(listing, strerror) =>
        var contents := PrintDirContents(docroot, filename, prefix, listing, strerror);
        Reply(None, WrapInt32(|contents|), "text/html", true, Some(contents))
      case RegularFile(size, OpenFailed(e)) =>
        var msg := OpenErrorText(e);
        Reply(Some((404, "Cannot read file")), WrapInt32(|msg|), "text/text", false, Some(msg))
      case RegularFile(size, Opened(data)) =>
        Reply(None, WrapInt32(size), "text/text", false, Some(data))
  }

  /** A resource under no document root is answered 404 "Not Found" with Content-Length 0 and no body. */
  lemma {:induction false} UnknownRootIsNotFound(roots: seq<(string, string)>, resource: string, fs: string -> PathOutcome)
    requires forall k :: 0 <= k < |roots| ==> !RootMatches(roots[k], resource)
    ensures FileReply(roots, resource, fs) == Reply(Some((404, "Not Found")), 0, "text/text", false, None)
  {
    assert FirstRoot(roots, resource).None?;
  }

  /**
   * Content-Length is the length of the body sent, except for a file,
   * where it is st_size whatever fread returned; every error status comes
   * with a non-empty text body, apart from "Not Found".
   */
  lemma {:induction false} ReplyLengthMatchesBody(roots: seq<(string, string)>, resource: string, fs: string -> PathOutcome)
    ensures var r := FileReply(roots, resource, fs);
      (r.body.None? <==> r.status == Some((404, "Not Found"))) &&
      (r.body.Some? && r.status.Some? ==> r.body.value != "" && r.contentType == "text/text") &&
      (r.body.Some? ==> (r.length == WrapInt32(|r.body.value|) ||
                         (r.status.None? && r.contentType == "text/text")))
  {
    match ParsedPath(roots, resource) {
      case Some((docroot, filename, prefix)) =>
        match fs(docroot + filename) {
          case RegularFile(_, OpenFailed(e)) => ErrorMessageIffDescribed(e);
          case _ =>
        }
      case None =>
    }
  }

  // ---------------------------------------------------------------------
  // SFileModule

  class FileModule {
    /** The (prefix, docroot) pairs, in the order they were added. */
    var docRoots: seq<(string, string)>

    constructor ()
      ensures docRoots == []
    {
      docRoots := [];
    }

    /** AddDocRoot: the pair goes last, behind every root added before it. */
    method AddDocRoot(prefix: string, docRoot: string)
      modifies this
      ensures docRoots == old(docRoots) + [(prefix, docRoot)]
    {
      docRoots := docRoots + [(prefix, docRoot)];
    }

    /**
     * ParsePath(path, docroot, child, prefix): true and the first matching
     * root's parts, or false with the three outputs left as they were.
     */
    method ParsePath(path: string, docroot0: string, child0: string, prefix0: string)
      returns (found: bool, docroot: string, child: string, prefix: string)
      ensures found <==> ParsedPath(docRoots, path).Some?
      ensures found ==> ParsedPath(docRoots, path) == Some((docroot, child, prefix))
      ensures !found ==> docroot == docroot0 && child == child0 && prefix == prefix0
    {
      found, docroot, child, prefix := false, docroot0, child0, prefix0;
      var i := 0;
      while i < |docRoots|
        invariant 0 <= i <= |docRoots|
        invariant FirstRootFrom(docRoots, path, 0) == FirstRootFrom(docRoots, path, i)
        decreases |docRoots| - i
      {
        var item := docRoots[i];
        if StrnEqual(path, item.0, |item.0|) {
          prefix := item.0;
          docroot := item.1;
          child := ChildPath(path, |item.0|);
          found := true;
          return;
        }
        i := i + 1;
      }
    }

    /** ProcessInput's branches: the reply for the resource, given the file system. */
    method Decide(resource: string, fs: string -> PathOutcome) returns (reply: Reply)
      ensures reply == FileReply(docRoots, resource, fs)
    {
      var found, docroot, filename, prefix := ParsePath(resource, "", "", "");
      if !found {
        reply := Reply(Some((404, "Not Found")), 0, "text/text", false, None);
      } else {
        match fs(docroot + filename)
        case StatFailed(e) =>
          var msg := StatErrorText(e);
          reply := Reply(Some((500, "Cannot read file")), WrapInt32(|msg|), "text/text", false, Some(msg));
        case Directory(listing, strerror) =>
          var contents := PrintDirContents(docroot, filename, prefix, listing, strerror);
          reply := Reply(None, WrapInt32(|contents|), "text/html", true, Some(contents));
        case RegularFile(size, OpenFailed(e)) =>
          var msg := OpenErrorText(e);
          reply := Reply(Some((404, "Cannot read file")), WrapInt32(|msg|), "text/text", false, Some(msg));
        case RegularFile(size, Opened(data)) =>
          reply := Reply(None, WrapInt32(size), "text/text", false, Some(data));
      }
    }

    /**
     * ProcessInput: the reply FileReply describes is set on the response,
     * and its body part (when there is one) and then a CONTENT_FINISHED
     * part are sent on, numbered by the message.
     */
    method ProcessInput(response: Response, resource: string, fs: string -> PathOutcome)
      returns (sent: seq<Part>)
      requires response.Valid()
      modifies response, response.message, response.message.headers
      ensures response.Valid()
      ensures StateOf(response) == Answered(old(StateOf(response)), FileReply(docRoots, resource, fs))
      ensures sent == AnswerParts(old(response.message.bpCount), FileReply(docRoots, resource, fs))
    {
      var reply := Decide(resource, fs);
      sent := Answer(response, reply);
    }
  }

}
