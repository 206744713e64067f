/**
 * The URL router (SUrlRouter) and its URL matchers: the router hands the
 * input of a request to the module of the first matcher, in the order
 * they were added, that matches the request's resource, and otherwise to
 * its default module.
 */
module UrlRouter {
  import opened CText
  import opened HttpModule

  // ---------------------------------------------------------------------
  // Finding a pattern (strstr)

  /** The first position at or after `from` where `pat` occurs in `s`. */
  function FirstFrom(s: string, pat: string, from: nat): (r: Option<nat>)
    ensures r.Some? ==> from <= r.value && OccursAt(s, pat, r.value)
    ensures r.Some? ==> forall j :: from <= j < r.value ==> !OccursAt(s, pat, j)
    ensures r.None? ==> forall j :: from <= j ==> !OccursAt(s, pat, j)
    decreases |s| - from
  {
    if from + |pat| > |s| then None
    else if s[from..from + |pat|] == pat then Some(from)
    else FirstFrom(s, pat, from + 1)
  }

  /** strstr(s, pat): the position of the first occurrence of pat in s. */
  function FirstOccurrence(s: string, pat: string): (r: Option<nat>) {
    FirstFrom(s, pat, 0)
  }

  /** The first occurrence is at the start exactly when s starts with pat. */
  lemma {:induction false} FirstAtStart(s: string, pat: string)
    ensures FirstOccurrence(s, pat) == Some(0) <==> StartsWith(s, pat)
  {
    if StartsWith(s, pat) {
      assert OccursAt(s, pat, 0);
    }
  }

  // ---------------------------------------------------------------------
  // Matchers

  /** SContainsUrlMatcher's location flags. */
  const PrefixMatch: bv32 := 0
  const MiddleMatch: bv32 := 1
  const SuffixMatch: bv32 := 2

  /**
   * The URL matchers, each with the module it selects: the base matcher,
   * the exact-path matcher (SDefaultUrlMatcher), the contains matcher and
   * the regular-expression matcher.
   */
  datatype Matcher =
    | Base(handler: ModuleId)
    | Exact(absPath: string, handler: ModuleId)
    | Contains(resPattern: string, locFlags: bv32, handler: ModuleId)
    | Regex(resPattern: string, handler: ModuleId)

  /**
   * SContainsUrlMatcher::Matches as written: the first occurrence of the
   * pattern in the resource (both read up to a NUL, as strstr does) at
   * the start with `flags | PREFIX_MATCH == 0`, or at the resource's start
   * minus the pattern's length with `flags | SUFFIX_MATCH == 0`, or
   * anywhere with `flags | MIDDLE_MATCH == 0`.
   */
  function ContainsMatchesAsWritten(resource: string, pattern: string, locFlags: bv32): bool {
    if |resource| < |pattern| then false
    else
      match FirstOccurrence(CStr(resource), CStr(pattern))
      case None => false
      case Some(m) =>
        (m == 0 && locFlags | PrefixMatch == 0)
        || (m as int == 0 - |pattern| && locFlags | SuffixMatch == 0)
        || locFlags | MiddleMatch == 0
  }

  /**
   * As written, the contains matcher matches only with the PREFIX_MATCH
   * flag and only when the resource starts with the pattern: the other
   * two disjuncts need a flag whose OR with a non-zero constant is zero.
   */
  lemma {:induction false} ContainsAsWrittenIsPrefixOnly(resource: string, pattern: string, locFlags: bv32)
    ensures ContainsMatchesAsWritten(resource, pattern, locFlags)
      <==> locFlags == PrefixMatch && |resource| >= |pattern| && StartsWith(CStr(resource), CStr(pattern))
  {
    var f := FirstOccurrence(CStr(resource), CStr(pattern));
    FirstAtStart(CStr(resource), CStr(pattern));
    FlagsOr(locFlags);
    if f.Some? {
      assert ContainsMatchesAsWritten(resource, pattern, locFlags)
        <==> |resource| >= |pattern| && f.value == 0 && locFlags == PrefixMatch;
    }
  }

  /** OR with a non-zero flag is never zero; OR with PREFIX_MATCH (0) is zero only for 0. */
  lemma {:induction false} FlagsOr(f: bv32)
    ensures f | SuffixMatch != 0 && f | MiddleMatch != 0 && (f | PrefixMatch == 0 <==> f == PrefixMatch)
  {
  }

  /**
   * The defect: a MIDDLE_MATCH or SUFFIX_MATCH matcher never matches, not
   * even a resource that holds its pattern in the middle or at the end.
   */
  lemma {:induction false} MiddleAndSuffixNeverMatchAsWritten(resource: string, pattern: string)
    ensures !ContainsMatchesAsWritten(resource, pattern, MiddleMatch)
    ensures !ContainsMatchesAsWritten(resource, pattern, SuffixMatch)
  {
    ContainsAsWrittenIsPrefixOnly(resource, pattern, MiddleMatch);
    ContainsAsWrittenIsPrefixOnly(resource, pattern, SuffixMatch);
  }

  /** Resources the corrected matcher accepts and the matcher as written rejects. */
  lemma ContainsCounterexamples()
    ensures !ContainsMatchesAsWritten("/a", "a", SuffixMatch) && ContainsMatches("/a", "a", SuffixMatch)
    ensures !ContainsMatchesAsWritten("/a/", "a", MiddleMatch) && ContainsMatches("/a/", "a", MiddleMatch)
  {
    MiddleAndSuffixNeverMatchAsWritten("/a", "a");
    MiddleAndSuffixNeverMatchAsWritten("/a/", "a");
    CStrOfPlain("/a");
    CStrOfPlain("/a/");
    CStrOfPlain("a");
    assert "/a"[1..] == "a";
    assert OccursAt("/a/", "a", 1);
  }

  /** The resource ends with the pattern. */
  predicate EndsWith(s: string, suffix: string) {
    |suffix| <= |s| && s[|s| - |suffix|..] == suffix
  }

  /**
   * SContainsUrlMatcher::Matches as its comment describes it: the pattern
   * at the start of the resource (PREFIX_MATCH), anywhere in it
   * (MIDDLE_MATCH) or at its end (SUFFIX_MATCH); any other flag matches
   * nothing.
   */
  function ContainsMatches(resource: string, pattern: string, locFlags: bv32): bool {
    var res, pat := CStr(resource), CStr(pattern);
    |resource| >= |pattern| &&
    if locFlags == PrefixMatch then StartsWith(res, pat)
    else if locFlags == MiddleMatch then FirstOccurrence(res, pat).Some?
    else if locFlags == SuffixMatch then EndsWith(res, pat)
    else false
  }

  /**
   * The corrected matcher finds the pattern where its flag says: at
   * position 0, at the last possible position, or at some position; and
   * with PREFIX_MATCH it agrees with the matcher as written.
   */
  lemma {:induction false} ContainsMatchesLocates(resource: string, pattern: string, locFlags: bv32)
    ensures var res, pat := CStr(resource), CStr(pattern);
      ContainsMatches(resource, pattern, locFlags) <==>
        (|resource| >= |pattern| &&
         ((locFlags == PrefixMatch && OccursAt(res, pat, 0))
          || (locFlags == MiddleMatch && exists i :: OccursAt(res, pat, i))
          || (locFlags == SuffixMatch && |pat| <= |res| && OccursAt(res, pat, |res| - |pat|))))
    ensures ContainsMatches(resource, pattern, PrefixMatch) == ContainsMatchesAsWritten(resource, pattern, PrefixMatch)
  {
    var res, pat := CStr(resource), CStr(pattern);
    var f := FirstOccurrence(res, pat);
    if f.Some? {
      assert OccursAt(res, pat, f.value);
    }
    ContainsAsWrittenIsPrefixOnly(resource, pattern, PrefixMatch);
  }

  /**
   * Matches: the base matcher and the regular-expression matcher (not yet
   * written in the source) match nothing; the exact matcher matches its
   * path and nothing else; the contains matcher as its comment describes.
   */
  function Matches(m: Matcher, resource: string): (r: bool)
    ensures (m.Base? || m.Regex?) ==> !r
    ensures m.Exact? ==> (r <==> resource == m.absPath)
  {
    match m
    case Base(_) => false
    case Exact(absPath, _) => resource == absPath
    case Contains(pattern, flags, _) => ContainsMatches(resource, pattern, flags)
    case Regex(_, _) => false
  }

  // ---------------------------------------------------------------------
  // SUrlRouter

  /** The position of the first matcher in the list that matches the resource. */
  function FirstMatch(matchers: seq<Matcher>, resource: string): (r: Option<nat>)
    ensures r.Some? ==> r.value < |matchers| && Matches(matchers[r.value], resource)
    ensures r.Some? ==> forall j :: 0 <= j < r.value ==> !Matches(matchers[j], resource)
    ensures r.None? ==> forall j :: 0 <= j < |matchers| ==> !Matches(matchers[j], resource)
    decreases |matchers|
  {
    if matchers == [] then None
    else if Matches(matchers[0], resource) then Some(0)
    else
      match FirstMatch(matchers[1..], resource)
      case None => None
      case Some(i) => Some(i + 1)
  }

  /** The module the router sends a request's input to, if any. */
  function Route(matchers: seq<Matcher>, defaultModule: Option<ModuleId>, resource: string): Option<ModuleId> {
    match FirstMatch(matchers, resource)
    case Some(i) => Some(matchers[i].handler)
    case None => defaultModule
  }

  /**
   * A matcher added later is consulted only when every earlier one fails:
   * AddUrlMatch appends, so earlier matchers take precedence.
   */
  lemma {:induction false} LaterMatcherLowerPrecedence(matchers: seq<Matcher>, m: Matcher, defaultModule: Option<ModuleId>, resource: string)
    ensures Route(matchers + [m], defaultModule, resource) ==
      if FirstMatch(matchers, resource).Some? then Route(matchers, defaultModule, resource)
      else if Matches(m, resource) then Some(m.handler)
      else defaultModule
  {
    var all := matchers + [m];
    var f := FirstMatch(matchers, resource);
    assert forall j :: 0 <= j < |matchers| ==> all[j] == matchers[j];
    if f.Some? {
      FirstMatchIs(all, resource, f.value);
    } else {
      FirstMatchIs(all, resource, |matchers|);
      if !Matches(m, resource) {
        FirstMatchIs(all, resource, |all|);
      }
    }
  }

  /** The router: its matchers, in the order added, and its default (next) module. */
  class Router {
    var matchers: seq<Matcher>
    const defaultModule: Option<ModuleId>

    /** SUrlRouter(pDefaultModule): no matchers yet. */
    constructor (defaultModule: Option<ModuleId>)
      ensures matchers == [] && this.defaultModule == defaultModule
    {
      matchers := [];
      this.defaultModule := defaultModule;
    }

    /** AddUrlMatch: the matcher goes to the end of the list. */
    method AddUrlMatch(m: Matcher)
      modifies this
      ensures matchers == old(matchers) + [m]
    {
      matchers := matchers + [m];
    }

    /**
     * ProcessInput: the module of the first matcher that matches the
     * resource; failing that the default module; None when there is
     * neither, and nothing is sent.
     */
    method ProcessInput(resource: string) returns (target: Option<ModuleId>)
      ensures target == Route(matchers, defaultModule, resource)
    {
      var i := 0;
      while i < |matchers|
        invariant i <= |matchers|
        invariant forall j :: 0 <= j < i ==> !Matches(matchers[j], resource)
      {
        if Matches(matchers[i], resource) {
          FirstMatchIs(matchers, resource, i);
          return Some(matchers[i].handler);
        }
        i := i + 1;
      }
      FirstMatchIs(matchers, resource, i);
      target := defaultModule;
    }
  }

  /** A position with no earlier match is where FirstMatch stops. */
  lemma {:induction false} FirstMatchIs(matchers: seq<Matcher>, resource: string, i: nat)
    requires i <= |matchers| && forall j :: 0 <= j < i ==> !Matches(matchers[j], resource)
    ensures i < |matchers| && Matches(matchers[i], resource) ==> FirstMatch(matchers, resource) == Some(i)
    ensures i == |matchers| ==> FirstMatch(matchers, resource).None?
  {
    var f := FirstMatch(matchers, resource);
    if f.Some? && i < |matchers| && Matches(matchers[i], resource) {
      assert !(f.value < i);
    }
  }
}
