/** The URL pattern matcher (`URLPatternMatcher` in src/lib/url-pattern-matcher.ts):
    per-URL matchers (regex, wildcard path, keyword indicators, example
    membership), the two category matchers built on them, and the filter engine
    that runs a matcher over every (selected category, URL) pair. */
module UrlPatternMatcher {
  import opened Wrappers
  import opened Seqs
  import opened Text
  import opened Records
  import opened Platform

  /** A descriptive category from the URL classifier: a label and example URLs. */
  datatype UrlCategory = UrlCategory(kind: string, examples: seq<string>)

  /** A pattern category from the pattern generator: one regular-expression source. */
  datatype UrlPattern = UrlPattern(regex: string)

  /** The outcome of testing one URL against one category. */
  datatype MatchResult = MatchResult(matches: bool, matchedBy: seq<string>)

  /** The URLs that matched one category, in input order. */
  datatype CategoryMatch = CategoryMatch(urls: seq<string>)

  datatype Stats = Stats(totalUrls: nat, filteredUrls: nat)

  datatype FilterResult = FilterResult(
    filteredUrls: seq<string>,
    categoryMatches: Record<CategoryMatch>,
    stats: Stats)

  // ---------------------------------------------------------------------------
  // Regex matching

  /** The callback of `patterns.some(...)`: compile with the `i` flag and test;
      a construction failure is caught and counts as no match. */
  predicate PatternHits(engine: RegexEngine, pattern: string, url: string) {
    match engine(pattern)
    case None => false
    case Some(test) => test(url)
  }

  function AnyPatternHits(url: string, patterns: seq<string>, engine: RegexEngine): (r: bool)
    ensures r <==> exists i :: 0 <= i < |patterns| && PatternHits(engine, patterns[i], url)
  {
    if |patterns| == 0 then false
    else if PatternHits(engine, patterns[0], url) then true
    else
      var r := AnyPatternHits(url, patterns[1..], engine);
      assert forall i :: 1 <= i < |patterns| ==> patterns[i] == patterns[1..][i - 1];
      r
  }

  /** `matchByRegex`: some pattern both compiles and matches; an empty list never matches. */
  function MatchByRegex(url: string, patterns: seq<string>, engine: RegexEngine): (r: bool)
    ensures |patterns| == 0 ==> !r
    ensures r <==> exists i :: 0 <= i < |patterns|
                     && engine(patterns[i]).Some? && engine(patterns[i]).value(url)
  {
    if |patterns| == 0 then false else AnyPatternHits(url, patterns, engine)
  }

  /** A pattern that fails to compile can be dropped from the list without
      changing the answer: it never matches and never aborts the search. */
  lemma {:induction false} BadPatternIsIgnored(url: string, before: seq<string>, bad: string, after: seq<string>,
                            engine: RegexEngine)
    requires engine(bad).None?
    ensures MatchByRegex(url, before + [bad] + after, engine) == MatchByRegex(url, before + after, engine)
  {
    var all := before + [bad] + after;
    var kept := before + after;
    if MatchByRegex(url, all, engine) {
      var i :| 0 <= i < |all| && engine(all[i]).Some? && engine(all[i]).value(url);
      if i < |before| {
        assert kept[i] == all[i];
      } else {
        assert kept[i - 1] == all[i];
      }
    }
    if MatchByRegex(url, kept, engine) {
      var i :| 0 <= i < |kept| && engine(kept[i]).Some? && engine(kept[i]).value(url);
      if i < |before| {
        assert all[i] == kept[i];
      } else {
        assert all[i + 1] == kept[i];
      }
    }
  }

  // ---------------------------------------------------------------------------
  // Wildcard path matching

  /** Characters the regex `.` does not match. */
  predicate IsLineTerminator(c: char) {
    c == '\n' || c == '\r' || c as int == 0x2028 || c as int == 0x2029
  }

  /** The regular expression `matchByPath` builds from a path pattern, run on a
      pathname: every regex metacharacter is escaped, then `*` becomes `.*`, the
      whole is prefixed by `^` and compiled with `i`. So `*` matches any run of
      non-line-terminator characters, every other character matches itself
      ignoring ASCII case, and only the start of the pathname is anchored. */
  predicate WildcardPrefixMatch(pat: string, path: string)
    decreases |pat| + |path|
  {
    if |pat| == 0 then true
    else if pat[0] == '*' then
      WildcardPrefixMatch(pat[1..], path)
      || (|path| > 0 && !IsLineTerminator(path[0]) && WildcardPrefixMatch(pat, path[1..]))
    else
      |path| > 0 && LowerChar(pat[0]) == LowerChar(path[0])
      && WildcardPrefixMatch(pat[1..], path[1..])
  }

  /** `lit` occurs at position `k` of `path`, ignoring ASCII case. */
  predicate CaselessAt(lit: string, path: string, k: int) {
    0 <= k && k + |lit| <= |path| && Lower(lit) == Lower(path[k..k + |lit|])
  }

  /** A pattern without `*` is a case-insensitive prefix test. */
  lemma {:induction false} LiteralPatternIsPrefix(pat: string, path: string)
    requires '*' !in pat
    ensures WildcardPrefixMatch(pat, path) <==> CaselessAt(pat, path, 0)
    decreases |pat|
  {
    if |pat| > 0 && |path| > 0 {
      LiteralPatternIsPrefix(pat[1..], path[1..]);
      assert Lower(pat) == [LowerChar(pat[0])] + Lower(pat[1..]);
      if |pat| <= |path| {
        assert path[..|pat|] == [path[0]] + path[1..][..|pat| - 1];
        assert Lower(path[..|pat|]) == [LowerChar(path[0])] + Lower(path[1..][..|pat| - 1]);
      }
    }
  }

  /** Only the start is anchored: a match survives any text appended to the path. */
  lemma {:induction false} WildcardMatchExtends(pat: string, path: string, more: string)
    requires WildcardPrefixMatch(pat, path)
    ensures WildcardPrefixMatch(pat, path + more)
    decreases |pat| + |path|
  {
    if |pat| == 0 {
    } else if pat[0] == '*' {
      if WildcardPrefixMatch(pat[1..], path) {
        WildcardMatchExtends(pat[1..], path, more);
      } else {
        assert (path + more)[1..] == path[1..] + more;
        WildcardMatchExtends(pat, path[1..], more);
      }
    } else {
      assert (path + more)[1..] == path[1..] + more;
      WildcardMatchExtends(pat[1..], path[1..], more);
    }
  }

  /** `lit` occurs at position `k` of `path` and no line terminator precedes it. */
  predicate LiteralAfterRun(lit: string, path: string, k: int) {
    CaselessAt(lit, path, k) && forall j :: 0 <= j < k ==> !IsLineTerminator(path[j])
  }

  lemma {:induction false} ShiftRunRight(lit: string, path: string, k: nat)
    requires |path| > 0 && !IsLineTerminator(path[0])
    requires LiteralAfterRun(lit, path[1..], k)
    ensures LiteralAfterRun(lit, path, k + 1)
  {
    assert path[1..][k..k + |lit|] == path[k + 1..k + 1 + |lit|];
    forall j | 0 <= j < k + 1
      ensures !IsLineTerminator(path[j])
    {
      if j > 0 {
        assert path[j] == path[1..][j - 1];
      }
    }
  }

  lemma {:induction false} ShiftRunLeft(lit: string, path: string, k: nat)
    requires k > 0 && LiteralAfterRun(lit, path, k)
    ensures !IsLineTerminator(path[0]) && LiteralAfterRun(lit, path[1..], k - 1)
  {
    assert path[1..][k - 1..k - 1 + |lit|] == path[k..k + |lit|];
    forall j | 0 <= j < k - 1
      ensures !IsLineTerminator(path[1..][j])
    {
      assert path[1..][j] == path[j + 1];
    }
  }

  /** A leading `*` followed by a literal finds that literal anywhere after a run
      free of line terminators. */
  lemma {:induction false} StarThenLiteral(lit: string, path: string)
    requires '*' !in lit
    ensures WildcardPrefixMatch(['*'] + lit, path)
        <==> exists k :: 0 <= k <= |path| && LiteralAfterRun(lit, path, k)
    decreases |path|
  {
    var pat := ['*'] + lit;
    assert pat[1..] == lit;
    LiteralPatternIsPrefix(lit, path);
    if WildcardPrefixMatch(pat, path) {
      if !CaselessAt(lit, path, 0) {
        StarThenLiteral(lit, path[1..]);
        var k :| 0 <= k <= |path[1..]| && LiteralAfterRun(lit, path[1..], k);
        ShiftRunRight(lit, path, k);
      } else {
        assert LiteralAfterRun(lit, path, 0);
      }
    }
    if exists k :: 0 <= k <= |path| && LiteralAfterRun(lit, path, k) {
      var k :| 0 <= k <= |path| && LiteralAfterRun(lit, path, k);
      if k > 0 {
        ShiftRunLeft(lit, path, k);
        StarThenLiteral(lit, path[1..]);
      }
    }
  }

  function AnyWildcardMatches(pathname: string, patterns: seq<string>): (r: bool)
    ensures r <==> exists i :: 0 <= i < |patterns| && WildcardPrefixMatch(patterns[i], pathname)
  {
    if |patterns| == 0 then false
    else if WildcardPrefixMatch(patterns[0], pathname) then true
    else
      var r := AnyWildcardMatches(pathname, patterns[1..]);
      assert forall i :: 1 <= i < |patterns| ==> patterns[i] == patterns[1..][i - 1];
      r
  }

  /** `matchByPath`: an empty list or an unparseable URL gives false; otherwise
      some wildcard pattern matches the start of the URL's pathname. */
  function MatchByPath(url: string, pathPatterns: seq<string>, parse: UrlParser): (r: bool)
    ensures |pathPatterns| == 0 || parse(url).None? ==> !r
    ensures r <==> parse(url).Some?
                   && exists i :: 0 <= i < |pathPatterns|
                                  && WildcardPrefixMatch(pathPatterns[i], parse(url).value.pathname)
  {
    if |pathPatterns| == 0 then false
    else
      match parse(url)
      case None => false
      case Some(parts) => AnyWildcardMatches(parts.pathname, pathPatterns)
  }

  // ---------------------------------------------------------------------------
  // Indicator and example matching

  function AnyIndicatorIn(urlLower: string, indicators: seq<string>): (r: bool)
    ensures r <==> exists i :: 0 <= i < |indicators| && Contains(urlLower, Lower(indicators[i]))
  {
    if |indicators| == 0 then false
    else
      ContainsIndexOf(urlLower, Lower(indicators[0]));
      if IndexOf(urlLower, Lower(indicators[0]), 0).Some? then true
      else
        var r := AnyIndicatorIn(urlLower, indicators[1..]);
        assert forall i :: 1 <= i < |indicators| ==> indicators[i] == indicators[1..][i - 1];
        r
  }

  /** `matchByIndicators`: some indicator is a substring of the URL, ignoring ASCII case. */
  function MatchByIndicators(url: string, indicators: seq<string>): (r: bool)
    ensures |indicators| == 0 ==> !r
    ensures r <==> exists i :: 0 <= i < |indicators| && Contains(Lower(url), Lower(indicators[i]))
  {
    if |indicators| == 0 then false else AnyIndicatorIn(Lower(url), indicators)
  }

  /** An empty indicator is a substring of everything, so it matches every URL. */
  lemma {:induction false} EmptyIndicatorMatchesAll(url: string, indicators: seq<string>)
    requires "" in indicators
    ensures MatchByIndicators(url, indicators)
  {
    var i :| 0 <= i < |indicators| && indicators[i] == "";
    assert OccursAt(Lower(url), Lower(indicators[i]), 0);
  }

  /** `Array.prototype.includes` on strings: a linear search from `from`. */
  function IncludesFrom(xs: seq<string>, x: string, from: nat): (r: bool)
    ensures r <==> exists i :: from <= i < |xs| && xs[i] == x
    decreases |xs| - from
  {
    if from >= |xs| then false
    else if xs[from] == x then true
    else IncludesFrom(xs, x, from + 1)
  }

  /** `matchByExamples`: exact string membership, with no normalisation. */
  function MatchByExamples(url: string, examples: seq<string>): (r: bool)
    ensures r <==> url in examples
  {
    if |examples| == 0 then false else IncludesFrom(examples, url, 0)
  }

  /** `matchCategory`: examples membership is the only method consulted. */
  function MatchCategory(url: string, category: UrlCategory): (r: MatchResult)
    ensures r.matches <==> |r.matchedBy| > 0
    ensures r.matches <==> url in category.examples
    ensures r.matchedBy == [] || r.matchedBy == ["examples"]
  {
    var matchedBy := if MatchByExamples(url, category.examples) then ["examples"] else [];
    MatchResult(|matchedBy| > 0, matchedBy)
  }

  /** `matchPattern`: the category's single regex, through `matchByRegex`. */
  function MatchPattern(url: string, pattern: UrlPattern, engine: RegexEngine): (r: MatchResult)
    ensures r.matches <==> |r.matchedBy| > 0
    ensures r.matches <==> PatternHits(engine, pattern.regex, url)
    ensures r.matchedBy == [] || r.matchedBy == ["regex"]
  {
    var matchedBy := if MatchByRegex(url, [pattern.regex], engine) then ["regex"] else [];
    MatchResult(|matchedBy| > 0, matchedBy)
  }

  // ---------------------------------------------------------------------------
  // Filter engine, shared by `filterUrlsByCategories` and `filterUrlsByPatterns`
  // (the source duplicates the loop; here it is written once, over a matcher `m`).

  /** What one selected name adds to its own list in one pass of the second loop:
      the URLs matching its definition, in input order, or nothing when the name
      has no definition. */
  function Contribution<D>(allUrls: seq<string>, defs: Record<D>, name: string,
                           m: (string, D) -> bool): seq<string>
  {
    match Get(defs, name)
    case None => []
    case Some(d) => Filter(allUrls, u => m(u, d))
  }

  /** A URL contributes to a name exactly when the name is defined and its
      definition matches the URL. */
  lemma {:induction false} ContributionMembership<D>(allUrls: seq<string>, defs: Record<D>, name: string,
                                  m: (string, D) -> bool, u: string)
    ensures u in Contribution(allUrls, defs, name, m)
            <==> u in allUrls && Get(defs, name).Some? && m(u, Get(defs, name).value)
  {
  }

  function Contributions<D>(allUrls: seq<string>, defs: Record<D>, names: seq<string>,
                            m: (string, D) -> bool): (cs: seq<seq<string>>)
    ensures |cs| == |names|
    ensures forall i :: 0 <= i < |names| ==> cs[i] == Contribution(allUrls, defs, names[i], m)
  {
    seq(|names|, i requires 0 <= i < |names| => Contribution(allUrls, defs, names[i], m))
  }

  /** One more name adds its contribution at the end. */
  lemma {:induction false} ContributionsSnoc<D>(allUrls: seq<string>, defs: Record<D>, names: seq<string>, extra: string,
                             m: (string, D) -> bool)
    ensures Contributions(allUrls, defs, names + [extra], m)
         == Contributions(allUrls, defs, names, m) + [Contribution(allUrls, defs, extra, m)]
  {
  }

  /** Every list is still empty. */
  predicate AllEmpty(r: Record<CategoryMatch>) {
    forall c :: c in Keys(r) ==> Get(r, c) == Some(CategoryMatch([]))
  }

  /** One pass of the first loop, adding `last` to the names seen so far. */
  function InitAdd(before: Record<CategoryMatch>, prefix: seq<string>, last: string, names: seq<string>)
    : (r: Record<CategoryMatch>)
    requires Keys(before) == Dedup(prefix) && AllEmpty(before)
    requires names == prefix + [last]
    ensures Keys(r) == Dedup(names)
    ensures AllEmpty(r)
  {
    DedupSnoc(prefix, last);
    Put(before, last, CategoryMatch([]))
  }

  /** The first loop: `categoryMatches[name] = { urls: [] }` for each selected name. */
  function InitMatches(names: seq<string>): (r: Record<CategoryMatch>)
    ensures Keys(r) == Dedup(names)
    ensures forall c :: c in Keys(r) ==> Get(r, c) == Some(CategoryMatch([]))
    decreases |names|
  {
    if |names| == 0 then Empty()
    else
      var prefix := names[..|names| - 1];
      var last := names[|names| - 1];
      assert names == prefix + [last];
      var r := InitAdd(InitMatches(prefix), prefix, last, names);
      assert AllEmpty(r);
      r
  }

  /** Every name of `names` has an entry in `init`. */
  predicate Initialised(names: seq<string>, init: Record<CategoryMatch>) {
    forall i :: 0 <= i < |names| ==> names[i] in Keys(init)
  }

  /** The loop state: the per-category lists and the insertion-ordered `Set`. */
  datatype Scan = Scan(matches: Record<CategoryMatch>, seen: seq<string>)

  /** One pass of the second loop, for the selected name `name`. */
  function ScanStep<D>(st: Scan, allUrls: seq<string>, defs: Record<D>, name: string,
                       m: (string, D) -> bool): (r: Scan)
    requires name in Keys(st.matches)
    requires NoDups(st.seen)
    ensures Keys(r.matches) == Keys(st.matches)
  {
    match Get(defs, name)
    case None => st
    case Some(d) =>
      var hits := Filter(allUrls, u => m(u, d));
      var prior := Get(st.matches, name).value.urls;
      Scan(Put(st.matches, name, CategoryMatch(prior + hits)), AddAll(st.seen, hits))
  }

  /** A pass appends the name's contribution to its own list and to nothing else. */
  lemma {:induction false} ScanStepLists<D>(st: Scan, allUrls: seq<string>, defs: Record<D>, name: string,
                         m: (string, D) -> bool, c: string, k: nat)
    requires name in Keys(st.matches)
    requires NoDups(st.seen)
    requires Get(st.matches, c) == Some(CategoryMatch(Repeat(Contribution(allUrls, defs, c, m), k)))
    ensures Get(ScanStep(st, allUrls, defs, name, m).matches, c)
            == Some(CategoryMatch(Repeat(Contribution(allUrls, defs, c, m), k + (if c == name then 1 else 0))))
  {
    var hits := Contribution(allUrls, defs, c, m);
    var next := ScanStep(st, allUrls, defs, name, m);
    match Get(defs, name)
    case None =>
      assert next == st;
      if c == name {
        assert hits == [];
        RepeatEmpty(hits, k);
        RepeatEmpty(hits, k + 1);
      }
    case Some(d) =>
      if c == name {
        assert hits == Filter(allUrls, u => m(u, d));
        assert Repeat(hits, k + 1) == Repeat(hits, k) + hits;
        assert Get(next.matches, c).value.urls == Repeat(hits, k) + hits;
      } else {
        assert Get(next.matches, c) == Get(st.matches, c);
      }
  }

  /** A pass adds the name's contribution to the running `Set`. */
  lemma {:induction false} ScanStepSeen<D>(st: Scan, allUrls: seq<string>, defs: Record<D>, name: string,
                        m: (string, D) -> bool)
    requires name in Keys(st.matches)
    requires NoDups(st.seen)
    ensures ScanStep(st, allUrls, defs, name, m).seen == AddAll(st.seen, Contribution(allUrls, defs, name, m))
  {
  }

  /** The running `Set` after a prefix plus one name. */
  lemma {:induction false} SeenSnoc<D>(allUrls: seq<string>, defs: Record<D>, prefix: seq<string>, name: string,
                    m: (string, D) -> bool)
    ensures Dedup(Flatten(Contributions(allUrls, defs, prefix + [name], m)))
            == AddAll(Dedup(Flatten(Contributions(allUrls, defs, prefix, m))), Contribution(allUrls, defs, name, m))
  {
    var cs := Contributions(allUrls, defs, prefix, m);
    var hits := Contribution(allUrls, defs, name, m);
    assert Contributions(allUrls, defs, prefix + [name], m) == cs + [hits];
    FlattenAppend(cs, [hits]);
    assert Flatten([hits]) == hits;
    AddAllAppend([], Flatten(cs), hits);
  }

  /** The second loop over the selected names `names`, in order: each name with a
      definition appends its matching URLs to its own list and adds them to the
      running `Set`; a name without one is skipped. */
  function ScanCategories<D>(names: seq<string>, allUrls: seq<string>, defs: Record<D>,
                             m: (string, D) -> bool, init: Record<CategoryMatch>): (r: Scan)
    requires Initialised(names, init)
    ensures Keys(r.matches) == Keys(init)
    ensures NoDups(r.seen)
    decreases |names|
  {
    if |names| == 0 then Scan(init, [])
    else
      var prefix := names[..|names| - 1];
      var st := ScanCategories(prefix, allUrls, defs, m, init);
      ScanStep(st, allUrls, defs, names[|names| - 1], m)
  }

  /** After the loop, each initialised name's list is its contribution once per
      occurrence of the name in the selection, and the `Set` holds every
      contribution in first-seen order. */
  lemma {:induction false} ScanCategoriesResult<D>(names: seq<string>, allUrls: seq<string>, defs: Record<D>,
                                                   m: (string, D) -> bool, init: Record<CategoryMatch>, c: string)
    requires Initialised(names, init)
    requires Get(init, c) == Some(CategoryMatch([]))
    ensures Get(ScanCategories(names, allUrls, defs, m, init).matches, c)
            == Some(CategoryMatch(Repeat(Contribution(allUrls, defs, c, m), Count(names, c))))
    decreases |names|
  {
    if |names| > 0 {
      var prefix := names[..|names| - 1];
      var name := names[|names| - 1];
      ScanUnfold(names, allUrls, defs, m, init);
      ScanCategoriesResult(prefix, allUrls, defs, m, init, c);
      var st := ScanCategories(prefix, allUrls, defs, m, init);
      var n := Count(prefix, c) + (if c == name then 1 else 0);
      ScanStepLists(st, allUrls, defs, name, m, c, Count(prefix, c));
      assert Count(names, c) == n;
    }
  }

  /** The second loop over a non-empty selection is the loop over all but the
      last name, then one pass for the last. */
  lemma {:induction false} ScanUnfold<D>(names: seq<string>, allUrls: seq<string>, defs: Record<D>,
                      m: (string, D) -> bool, init: Record<CategoryMatch>)
    requires |names| > 0
    requires Initialised(names, init)
    ensures Initialised(names[..|names| - 1], init)
    ensures var st := ScanCategories(names[..|names| - 1], allUrls, defs, m, init);
            && names[|names| - 1] in Keys(st.matches)
            && NoDups(st.seen)
            && ScanCategories(names, allUrls, defs, m, init) == ScanStep(st, allUrls, defs, names[|names| - 1], m)
  {
  }

  lemma {:induction false} ScanCategoriesSeen<D>(names: seq<string>, allUrls: seq<string>, defs: Record<D>,
                                                 m: (string, D) -> bool, init: Record<CategoryMatch>)
    requires Initialised(names, init)
    ensures ScanCategories(names, allUrls, defs, m, init).seen
            == Dedup(Flatten(Contributions(allUrls, defs, names, m)))
    decreases |names|
  {
    if |names| == 0 {
      assert Contributions(allUrls, defs, names, m) == [];
    } else {
      var prefix := names[..|names| - 1];
      var name := names[|names| - 1];
      assert names == prefix + [name];
      assert Initialised(prefix, init);
      var st := ScanCategories(prefix, allUrls, defs, m, init);
      ScanCategoriesSeen(prefix, allUrls, defs, m, init);
      ScanStepSeen(st, allUrls, defs, name, m);
      SeenSnoc(allUrls, defs, prefix, name, m);
    }
  }

  /** The shared body of both filters. */
  function FilterWith<D>(allUrls: seq<string>, selected: seq<string>, defs: Record<D>,
                         m: (string, D) -> bool): (r: FilterResult)
    ensures Keys(r.categoryMatches) == Dedup(selected)
    ensures forall c :: c in selected ==>
              Get(r.categoryMatches, c)
              == Some(CategoryMatch(Repeat(Contribution(allUrls, defs, c, m), Count(selected, c))))
    ensures r.filteredUrls == Dedup(Flatten(Contributions(allUrls, defs, selected, m)))
    ensures NoDups(r.filteredUrls)
    ensures r.stats == Stats(|allUrls|, |r.filteredUrls|)
  {
    var init := InitMatches(selected);
    assert Initialised(selected, init);
    var st := ScanCategories(selected, allUrls, defs, m, init);
    ScanCategoriesSeen(selected, allUrls, defs, m, init);
    assert forall c :: c in selected ==> c in Keys(init) && Get(init, c) == Some(CategoryMatch([]));
    forall c | c in selected
      ensures Get(st.matches, c)
              == Some(CategoryMatch(Repeat(Contribution(allUrls, defs, c, m), Count(selected, c))))
    {
      ScanCategoriesResult(selected, allUrls, defs, m, init, c);
    }
    FilterResult(st.seen, st.matches, Stats(|allUrls|, |st.seen|))
  }

  /** The list reported for `c`, or the empty list when `c` is not a key. */
  function MatchedUrls(r: FilterResult, c: string): seq<string> {
    match Get(r.categoryMatches, c)
    case None => []
    case Some(cm) => cm.urls
  }

  lemma {:induction false} RepeatMembership(s: seq<string>, k: nat, u: string)
    ensures u in Repeat(s, k) <==> k > 0 && u in s
  {
    if k > 0 {
      RepeatMembership(s, k - 1, u);
    }
  }

  /** The list reported for a selected name holds exactly its matching URLs. */
  lemma {:induction false} ListMembership<D>(allUrls: seq<string>, selected: seq<string>, defs: Record<D>,
                          m: (string, D) -> bool, c: string, u: string)
    requires c in selected
    ensures u in MatchedUrls(FilterWith(allUrls, selected, defs, m), c)
            <==> u in Contribution(allUrls, defs, c, m)
  {
    var r := FilterWith(allUrls, selected, defs, m);
    assert Get(r.categoryMatches, c)
        == Some(CategoryMatch(Repeat(Contribution(allUrls, defs, c, m), Count(selected, c))));
    RepeatMembership(Contribution(allUrls, defs, c, m), Count(selected, c), u);
  }

  /** A URL is in `filteredUrls` exactly when some selected category's list holds it. */
  lemma {:induction false} FilteredIsUnionOfLists<D>(allUrls: seq<string>, selected: seq<string>,
                                                     defs: Record<D>, m: (string, D) -> bool, u: string)
    ensures var r := FilterWith(allUrls, selected, defs, m);
            u in r.filteredUrls <==> exists i :: 0 <= i < |selected| && u in MatchedUrls(r, selected[i])
  {
    var r := FilterWith(allUrls, selected, defs, m);
    var cs := Contributions(allUrls, defs, selected, m);
    assert u in r.filteredUrls <==> u in Flatten(cs);
    if u in Flatten(cs) {
      var i :| 0 <= i < |cs| && u in cs[i];
      ListMembership(allUrls, selected, defs, m, selected[i], u);
    }
    if exists i :: 0 <= i < |selected| && u in MatchedUrls(r, selected[i]) {
      var i :| 0 <= i < |selected| && u in MatchedUrls(r, selected[i]);
      ListMembership(allUrls, selected, defs, m, selected[i], u);
      assert u in cs[i];
    }
  }

  /** Every URL kept is one of the input URLs. */
  lemma {:induction false} FilteredWithinInput<D>(allUrls: seq<string>, selected: seq<string>, defs: Record<D>,
                               m: (string, D) -> bool)
    ensures forall u :: u in FilterWith(allUrls, selected, defs, m).filteredUrls ==> u in allUrls
  {
    var cs := Contributions(allUrls, defs, selected, m);
    forall u | u in FilterWith(allUrls, selected, defs, m).filteredUrls
      ensures u in allUrls
    {
      assert u in Flatten(cs);
      var i :| 0 <= i < |cs| && u in cs[i];
      ContributionMembership(allUrls, defs, selected[i], m, u);
    }
  }

  /** Selecting one more category can only extend `filteredUrls`: the old list is
      a prefix of the new one. */
  lemma {:induction false} FilterMonotone<D>(allUrls: seq<string>, selected: seq<string>, extra: string,
                                             defs: Record<D>, m: (string, D) -> bool)
    ensures FilterWith(allUrls, selected, defs, m).filteredUrls
            <= FilterWith(allUrls, selected + [extra], defs, m).filteredUrls
  {
    var cs := Contributions(allUrls, defs, selected, m);
    var hits := Contribution(allUrls, defs, extra, m);
    ContributionsSnoc(allUrls, defs, selected, extra, m);
    FlattenAppend(cs, [hits]);
    assert Flatten([hits]) == hits;
    DedupPrefix(Flatten(cs), hits);
  }

  /** A selected name without a definition ends with an empty list. */
  lemma {:induction false} MissingDefinitionGivesEmptyList<D>(allUrls: seq<string>, selected: seq<string>, defs: Record<D>,
                                           m: (string, D) -> bool, c: string)
    requires c in selected && Get(defs, c).None?
    ensures MatchedUrls(FilterWith(allUrls, selected, defs, m), c) == []
  {
    var r := FilterWith(allUrls, selected, defs, m);
    var hits := Contribution(allUrls, defs, c, m);
    assert Get(r.categoryMatches, c) == Some(CategoryMatch(Repeat(hits, Count(selected, c))));
    assert hits == [];
    RepeatEmpty(hits, Count(selected, c));
  }

  /** A name selected once lists exactly its matching URLs, in input order. */
  lemma {:induction false} SingleSelectionList<D>(allUrls: seq<string>, selected: seq<string>, defs: Record<D>,
                               m: (string, D) -> bool, c: string, d: D, p: string -> bool)
    requires Count(selected, c) == 1 && Get(defs, c) == Some(d)
    requires forall u :: p(u) == m(u, d)
    ensures MatchedUrls(FilterWith(allUrls, selected, defs, m), c) == Filter(allUrls, p)
  {
    var r := FilterWith(allUrls, selected, defs, m);
    assert Get(r.categoryMatches, c)
        == Some(CategoryMatch(Repeat(Contribution(allUrls, defs, c, m), Count(selected, c))));
    assert Repeat(Contribution(allUrls, defs, c, m), 1) == Contribution(allUrls, defs, c, m);
    FilterCongruent(allUrls, u => m(u, d), p);
  }

  /** The matcher used by `filterUrlsByCategories`. */
  predicate CategoryMatcher(url: string, category: UrlCategory) {
    MatchCategory(url, category).matches
  }

  /** `filterUrlsByCategories`: examples-membership mode. One list per distinct
      selected name, `filteredUrls` the ordered union of the lists. */
  function FilterUrlsByCategories(allUrls: seq<string>, selected: seq<string>,
                                  urlCategories: Record<UrlCategory>): (r: FilterResult)
    ensures Keys(r.categoryMatches) == Dedup(selected)
    ensures NoDups(r.filteredUrls)
    ensures forall u :: u in r.filteredUrls ==> u in allUrls
    ensures r.stats.totalUrls == |allUrls| && r.stats.filteredUrls == |r.filteredUrls|
  {
    var r := FilterWith(allUrls, selected, urlCategories, CategoryMatcher);
    FilteredWithinInput(allUrls, selected, urlCategories, CategoryMatcher);
    r
  }

  /** In examples mode a selected category lists exactly the URLs among its
      examples, and a name without a definition lists none. */
  lemma {:induction false} CategoryListIsExamples(allUrls: seq<string>, selected: seq<string>,
                               urlCategories: Record<UrlCategory>, c: string, u: string)
    requires c in selected
    ensures var r := FilterUrlsByCategories(allUrls, selected, urlCategories);
            u in MatchedUrls(r, c) <==>
              u in allUrls && Get(urlCategories, c).Some? && u in Get(urlCategories, c).value.examples
  {
    var r := FilterUrlsByCategories(allUrls, selected, urlCategories);
    assert r == FilterWith(allUrls, selected, urlCategories, CategoryMatcher);
    ListMembership(allUrls, selected, urlCategories, CategoryMatcher, c, u);
    ContributionMembership(allUrls, urlCategories, c, CategoryMatcher, u);
  }

  /** A category selected once lists its matching URLs in input order, with
      the duplicates of the input kept. */
  lemma {:induction false} CategorySingleSelection(allUrls: seq<string>, selected: seq<string>,
                                urlCategories: Record<UrlCategory>, c: string)
    requires Count(selected, c) == 1 && Get(urlCategories, c).Some?
    ensures MatchedUrls(FilterUrlsByCategories(allUrls, selected, urlCategories), c)
            == Filter(allUrls, u => u in Get(urlCategories, c).value.examples)
  {
    var d := Get(urlCategories, c).value;
    SingleSelectionList(allUrls, selected, urlCategories, CategoryMatcher, c, d, u => u in d.examples);
  }

  /** A URL is kept exactly when some selected category's list holds it. */
  lemma {:induction false} CategoriesUnion(allUrls: seq<string>, selected: seq<string>,
                        urlCategories: Record<UrlCategory>, u: string)
    ensures var r := FilterUrlsByCategories(allUrls, selected, urlCategories);
            u in r.filteredUrls <==> exists i :: 0 <= i < |selected| && u in MatchedUrls(r, selected[i])
  {
    FilteredIsUnionOfLists(allUrls, selected, urlCategories, CategoryMatcher, u);
  }

  /** The matcher used by `filterUrlsByPatterns`, for a given regex engine. */
  predicate PatternMatcher(engine: RegexEngine, url: string, pattern: UrlPattern) {
    MatchPattern(url, pattern, engine).matches
  }

  /** The pattern matcher as a function value. */
  function PatternMatcherFor(engine: RegexEngine): (string, UrlPattern) -> bool {
    (u, p) => PatternMatcher(engine, u, p)
  }

  /** `filterUrlsByPatterns`: regex mode, with the same shape of result. */
  function FilterUrlsByPatterns(allUrls: seq<string>, selected: seq<string>,
                                urlPatterns: Record<UrlPattern>, engine: RegexEngine): (r: FilterResult)
    ensures Keys(r.categoryMatches) == Dedup(selected)
    ensures NoDups(r.filteredUrls)
    ensures forall u :: u in r.filteredUrls ==> u in allUrls
    ensures r.stats.totalUrls == |allUrls| && r.stats.filteredUrls == |r.filteredUrls|
  {
    var m := PatternMatcherFor(engine);
    var r := FilterWith(allUrls, selected, urlPatterns, m);
    FilteredWithinInput(allUrls, selected, urlPatterns, m);
    r
  }

  /** In regex mode a selected category lists exactly the URLs its regular
      expression finds (none when the expression does not compile or the
      name has no pattern). */
  lemma {:induction false} PatternListIsHits(allUrls: seq<string>, selected: seq<string>,
                          urlPatterns: Record<UrlPattern>, engine: RegexEngine, c: string, u: string)
    requires c in selected
    ensures var r := FilterUrlsByPatterns(allUrls, selected, urlPatterns, engine);
            u in MatchedUrls(r, c) <==>
              u in allUrls && Get(urlPatterns, c).Some? && PatternHits(engine, Get(urlPatterns, c).value.regex, u)
  {
    var m := PatternMatcherFor(engine);
    var r := FilterUrlsByPatterns(allUrls, selected, urlPatterns, engine);
    assert r == FilterWith(allUrls, selected, urlPatterns, m);
    ListMembership(allUrls, selected, urlPatterns, m, c, u);
    ContributionMembership(allUrls, urlPatterns, c, m, u);
    if Get(urlPatterns, c).Some? {
      var d := Get(urlPatterns, c).value;
      assert m(u, d) == MatchPattern(u, d, engine).matches;
    }
  }

  /** A pattern selected once lists its hits in input order. */
  lemma {:induction false} PatternSingleSelection(allUrls: seq<string>, selected: seq<string>,
                               urlPatterns: Record<UrlPattern>, engine: RegexEngine, c: string)
    requires Count(selected, c) == 1 && Get(urlPatterns, c).Some?
    ensures MatchedUrls(FilterUrlsByPatterns(allUrls, selected, urlPatterns, engine), c)
            == Filter(allUrls, u => PatternHits(engine, Get(urlPatterns, c).value.regex, u))
  {
    var d := Get(urlPatterns, c).value;
    SingleSelectionList(allUrls, selected, urlPatterns, PatternMatcherFor(engine), c, d,
                        u => PatternHits(engine, d.regex, u));
  }

  /** A URL is kept exactly when some selected pattern's list holds it. */
  lemma {:induction false} PatternsUnion(allUrls: seq<string>, selected: seq<string>,
                      urlPatterns: Record<UrlPattern>, engine: RegexEngine, u: string)
    ensures var r := FilterUrlsByPatterns(allUrls, selected, urlPatterns, engine);
            u in r.filteredUrls <==> exists i :: 0 <= i < |selected| && u in MatchedUrls(r, selected[i])
  {
    FilteredIsUnionOfLists(allUrls, selected, urlPatterns, PatternMatcherFor(engine), u);
  }

  /** Replacing one category's pattern (by a malformed one, say) leaves every other
      category's list unchanged. */
  lemma {:induction false} PatternChangeIsLocal(allUrls: seq<string>, selected: seq<string>, urlPatterns: Record<UrlPattern>,
                             engine: RegexEngine, changed: string, replacement: UrlPattern, c: string)
    requires c != changed
    ensures MatchedUrls(FilterUrlsByPatterns(allUrls, selected, urlPatterns, engine), c)
         == MatchedUrls(FilterUrlsByPatterns(allUrls, selected, Put(urlPatterns, changed, replacement), engine), c)
  {
    var m := PatternMatcherFor(engine);
    var edited := Put(urlPatterns, changed, replacement);
    assert FilterUrlsByPatterns(allUrls, selected, urlPatterns, engine) == FilterWith(allUrls, selected, urlPatterns, m);
    assert FilterUrlsByPatterns(allUrls, selected, edited, engine) == FilterWith(allUrls, selected, edited, m);
    ListDependsOnOwnDefinition(allUrls, selected, urlPatterns, edited, m, c);
  }

  /** A name's list depends on its own definition only. */
  lemma {:induction false} ListDependsOnOwnDefinition<D>(allUrls: seq<string>, selected: seq<string>, defs: Record<D>, defs': Record<D>,
                                      m: (string, D) -> bool, c: string)
    requires Get(defs, c) == Get(defs', c)
    ensures MatchedUrls(FilterWith(allUrls, selected, defs, m), c) == MatchedUrls(FilterWith(allUrls, selected, defs', m), c)
  {
    var r := FilterWith(allUrls, selected, defs, m);
    var r' := FilterWith(allUrls, selected, defs', m);
    if c in selected {
      assert Contribution(allUrls, defs, c, m) == Contribution(allUrls, defs', c, m);
    } else {
      assert c !in Keys(r.categoryMatches) && c !in Keys(r'.categoryMatches);
    }
  }
}
