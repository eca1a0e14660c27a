/** Include and exclude patterns: which files are replicated and which directories are entered. */
module Filter {
  import opened Strings
  import opened Paths

  datatype PathFilter = PathFilter(includePaths: seq<string>, excludePaths: seq<string>)

  const NoFilter := PathFilter([], [])

  // ----- path.Match -----

  /** The inside of a bracket expression: whether it holds `c`, and the pattern after it.
      None is a malformed pattern. */
  function ClassRanges(p: string, c: char, some: bool, hit: bool): Option<(bool, string)>
    decreases |p|
  {
    if p != "" && p[0] == ']' && some then Some((hit, p[1..]))
    else if |p| < 2 || p[0] == '-' || p[0] == ']' then None
    else if p[1] != '-' then ClassRanges(p[1..], c, true, hit || c == p[0])
    else if |p| < 4 || p[2] == '-' || p[2] == ']' then None
    else ClassRanges(p[3..], c, true, hit || p[0] <= c <= p[2])
  }

  function Class(p: string, c: char): Option<(bool, string)> {
    if p != "" && p[0] == '^' then
      match ClassRanges(p[1..], c, false, false)
      case None => None
      case Some(r) => Some((!r.0, r.1))
    else ClassRanges(p, c, false, false)
  }

  /** A bracket expression is read the same way for every character, and uses up some pattern. */
  lemma {:induction false} ClassRest(p: string, c: char, d: char, some: bool, hit: bool, hot: bool)
    ensures ClassRanges(p, c, some, hit).Some? <==> ClassRanges(p, d, some, hot).Some?
    ensures ClassRanges(p, c, some, hit).Some? ==>
              && ClassRanges(p, c, some, hit).value.1 == ClassRanges(p, d, some, hot).value.1
              && |ClassRanges(p, c, some, hit).value.1| < |p|
    decreases |p|
  {
    if !(p != "" && p[0] == ']' && some) && !(|p| < 2 || p[0] == '-' || p[0] == ']') {
      if p[1] != '-' {
        ClassRest(p[1..], c, d, true, hit || c == p[0], hot || d == p[0]);
      } else if !(|p| < 4 || p[2] == '-' || p[2] == ']') {
        ClassRest(p[3..], c, d, true, hit || p[0] <= c <= p[2], hot || p[0] <= d <= p[2]);
      }
    }
  }

  lemma ClassShrinks(p: string, c: char, d: char)
    ensures Class(p, c).Some? <==> Class(p, d).Some?
    ensures Class(p, c).Some? ==> Class(p, c).value.1 == Class(p, d).value.1 && |Class(p, c).value.1| < |p|
  {
    ClassRest(p, c, d, false, false, false);
    if p != "" {
      ClassRest(p[1..], c, d, false, false, false);
    }
  }

  predicate GlobMatch(pattern: string, name: string)
    decreases |pattern| + |name|
  {
    if pattern == "" then name == ""
    else if pattern[0] == '*' then
      || GlobMatch(pattern[1..], name)
      || (name != "" && name[0] != '/' && GlobMatch(pattern, name[1..]))
    else if name == "" then false
    else if pattern[0] == '?' then name[0] != '/' && GlobMatch(pattern[1..], name[1..])
    else if pattern[0] == '[' then
      (ClassShrinks(pattern[1..], name[0], '/');
       match Class(pattern[1..], name[0])
       case None => false
       case Some(r) => r.0 && GlobMatch(r.1, name[1..]))
    else name[0] == pattern[0] && GlobMatch(pattern[1..], name[1..])
  }

  predicate IsMeta(c: char) { c == '*' || c == '?' || c == '[' }

  // ----- patterns -----

  function Slashless(s: string): string { Trim(s, c => c == '/') }

  function TrimmedPattern(pattern: string): string {
    Slashless(ReplaceChar(pattern, '\\', '/'))
  }

  predicate IsRecursive(pat: string) { |pat| >= 3 && pat[|pat| - 3..] == "/**" }

  /** The path a pattern names: itself, or what stands before a final "/" + "**". */
  function Body(pat: string): string {
    if IsRecursive(pat) then pat[..|pat| - 3] else pat
  }

  /** The source's branch for a pattern ending in a slash is dead: such slashes are trimmed first. */
  predicate Matches(pat: string, p: string) {
    pat != "" &&
    if IsRecursive(pat) then AtOrBelow(Body(pat), p)
    else GlobMatch(pat, p) || AtOrBelow(pat, p)
  }

  predicate MatchesPath(pattern: string, p: string) { Matches(TrimmedPattern(pattern), p) }

  /** Length of the part of a pattern before its first wildcard. */
  function StaticLength(pat: string): (cut: nat)
    ensures cut <= |pat|
    ensures forall i :: 0 <= i < cut ==> !IsMeta(pat[i])
    ensures cut < |pat| ==> IsMeta(pat[cut])
  {
    if pat == "" || IsMeta(pat[0]) then 0 else 1 + StaticLength(pat[1..])
  }

  /** strings.LastIndex(s, "/"), or -1. */
  function LastSlash(s: string): (k: int)
    ensures -1 <= k < |s|
    ensures k >= 0 ==> s[k] == '/'
    ensures forall i :: k < i < |s| ==> s[i] != '/'
  {
    if s == "" then -1 else if s[|s| - 1] == '/' then |s| - 1 else LastSlash(s[..|s| - 1])
  }

  /** The text before the first wildcard, cut back to a whole directory when there is one. */
  function StaticHead(pat: string): (root: string)
    ensures |root| <= StaticLength(pat) && root == pat[..|root|]
  {
    var cut := StaticLength(pat);
    var head := if cut > 0 && pat[cut - 1] == '/' then pat[..cut - 1] else pat[..cut];
    if LastSlash(head) >= 0 && cut < |pat| then head[..LastSlash(head)] else head
  }

  /** filterStaticPrefix of a trimmed pattern. */
  function StaticRoot(pat: string): string { Slashless(StaticHead(pat)) }

  predicate IsPathAncestor(candidate: string, descendant: string) {
    Slashless(candidate) == "" || AtOrBelow(Slashless(candidate), Slashless(descendant))
  }

  // ----- PathFilter -----

  predicate Excluded(f: PathFilter, clean: string) {
    exists i :: 0 <= i < |f.excludePaths| && MatchesPath(f.excludePaths[i], clean)
  }

  predicate Enters(pat: string, clean: string) {
    Matches(pat, clean) || (StaticRoot(pat) != "" && IsPathAncestor(clean, StaticRoot(pat)))
  }

  predicate EntersPath(pattern: string, clean: string) { Enters(TrimmedPattern(pattern), clean) }

  predicate Included(f: PathFilter, clean: string) {
    f.includePaths == [] || exists i :: 0 <= i < |f.includePaths| && MatchesPath(f.includePaths[i], clean)
  }

  predicate Entered(f: PathFilter, clean: string) {
    f.includePaths == [] || exists i :: 0 <= i < |f.includePaths| && EntersPath(f.includePaths[i], clean)
  }

  predicate ShouldReplicate(f: PathFilter, p: string) {
    match NormalizeEventPath(p)
    case None => false
    case Some(clean) => !Excluded(f, clean) && Included(f, clean)
  }

  predicate ShouldTraverse(f: PathFilter, p: string) {
    match NormalizeEventPath(p)
    case None => false
    case Some(clean) => !Excluded(f, clean) && Entered(f, clean)
  }

  // ----- when pruning loses nothing -----

  /** The directory of a path that has one. */
  function Dir(p: string): string
    requires '/' in p
  {
    p[..LastSlash(p)]
  }

  /** No bracket expression of the pattern holds or spells a slash. Go lets one match a slash, which
      no other wildcard does. A malformed expression is never matched. */
  predicate SlashSafe(pattern: string)
    decreases |pattern|
  {
    if pattern == "" then true
    else if pattern[0] != '[' then SlashSafe(pattern[1..])
    else
      ClassShrinks(pattern[1..], '/', '/');
      match Class(pattern[1..], '/')
      case None => true
      case Some(r) => !r.0 && CountSlash(r.1) == CountSlash(pattern) && SlashSafe(r.1)
  }

  /** A trimmed pattern this analysis speaks about: it names a plain path in a plain directory,
      wildcards included, and its bracket expressions keep clear of slashes. */
  ghost predicate Readable(pat: string) {
    var body := Body(pat);
    Plain(body) && ('/' in body ==> Plain(Dir(body))) && SlashSafe(pat)
  }

  /** The static prefix reaches down to the directory of the named path. */
  ghost predicate Covered(pat: string) {
    '/' in Body(pat) ==> AtOrBelow(Dir(Body(pat)), StaticRoot(pat))
  }

  /** No wildcard is interpreted: the pattern is literal, or its only wildcard is the final "**". */
  ghost predicate Literal(pat: string) {
    IsRecursive(pat) || forall c :: c in pat ==> !IsMeta(c)
  }

  function CountSlash(s: string): nat {
    if s == "" then 0 else (if s[0] == '/' then 1 else 0) + CountSlash(s[1..])
  }

  lemma {:induction false} CountSlashConcat(a: string, b: string)
    ensures CountSlash(a + b) == CountSlash(a) + CountSlash(b)
  {
    if a == "" {
      assert a + b == b;
    } else {
      assert (a + b)[1..] == a[1..] + b;
      CountSlashConcat(a[1..], b);
    }
  }

  lemma {:induction false} CountSlashZero(s: string)
    ensures CountSlash(s) == 0 <==> '/' !in s
  {
    if s != "" {
      CountSlashZero(s[1..]);
      assert s == [s[0]] + s[1..];
    }
  }

  /** A strictly lower path has more slashes. */
  lemma BelowHasMoreSlashes(d: string, p: string)
    requires StrictlyBelow(d, p)
    ensures CountSlash(d) < CountSlash(p)
  {
    var rest := p[|d| + 1..];
    assert p == d + ("/" + rest);
    CountSlashConcat(d, "/" + rest);
    assert ("/" + rest)[0] == '/';
  }

  lemma {:induction false} GlobKeepsSlashes(pattern: string, name: string)
    requires GlobMatch(pattern, name) && SlashSafe(pattern)
    ensures CountSlash(pattern) == CountSlash(name)
    decreases |pattern| + |name|
  {
    if pattern != "" {
      if pattern[0] == '*' {
        if GlobMatch(pattern[1..], name) {
          GlobKeepsSlashes(pattern[1..], name);
        } else {
          GlobKeepsSlashes(pattern, name[1..]);
        }
      } else if pattern[0] == '[' {
        ClassShrinks(pattern[1..], name[0], '/');
        GlobKeepsSlashes(Class(pattern[1..], name[0]).value.1, name[1..]);
      } else {
        GlobKeepsSlashes(pattern[1..], name[1..]);
      }
    }
  }

  /** Patterns without bracket expressions are safe in this sense. */
  lemma {:induction false} BracketFreeIsSlashSafe(pattern: string)
    requires '[' !in pattern
    ensures SlashSafe(pattern)
  {
    if pattern != "" {
      assert pattern[0] in pattern;
      BracketFreeIsSlashSafe(pattern[1..]);
    }
  }

  lemma {:induction false} GlobKeepsStatic(pattern: string, name: string, k: nat)
    requires GlobMatch(pattern, name) && k <= StaticLength(pattern)
    ensures k <= |name| && name[..k] == pattern[..k]
    decreases k
  {
    if k > 0 {
      GlobKeepsStatic(pattern[1..], name[1..], k - 1);
      assert name[..k] == [name[0]] + name[1..][..k - 1];
      assert pattern[..k] == [pattern[0]] + pattern[1..][..k - 1];
    }
  }

  /** An ancestor of a path is an ancestor of its directory, or that directory itself. */
  lemma AncestorOfDir(d: string, p: string)
    requires StrictlyBelow(d, p)
    ensures '/' in p && AtOrBelow(d, Dir(p))
  {
    assert p[|d|] == '/';
    var k := LastSlash(p);
    if k > |d| {
      assert p[..k][..|d| + 1] == p[..|d| + 1] == d + "/";
    } else {
      assert Dir(p) == d;
    }
  }

  lemma EndSlashSplits(p: string)
    ensures p != "" && p[|p| - 1] == '/' ==> "" in Split(p)
  {
    if p != "" && p[|p| - 1] == '/' {
      var head := p[..|p| - 1];
      assert p == head + "/" + "";
      SplitConcat(head, "");
      assert Split(p)[|Split(p)| - 1] == "";
    }
  }

  lemma PlainHasNoEndSlash(p: string)
    requires Plain(p)
    ensures p[0] != '/' && p[|p| - 1] != '/'
  {
    CleanKeepsPlain(p);
    EndSlashSplits(p);
  }

  /** Trimming slashes off a string that does not start with one leaves a prefix of it. */
  lemma SlashlessPrefix(s: string)
    requires s == "" || s[0] != '/'
    ensures |Slashless(s)| <= |s| && Slashless(s) == s[..|Slashless(s)|]
  {
    TrimRightFacts(s, c => c == '/');
  }

  lemma StaticRootIsPrefix(pat: string)
    requires pat != "" && pat[0] != '/'
    ensures |StaticRoot(pat)| <= StaticLength(pat) && StaticRoot(pat) == pat[..|StaticRoot(pat)|]
  {
    var head := StaticHead(pat);
    var root := Slashless(head);
    assert head == "" || head[0] == pat[0];
    SlashlessPrefix(head);
    assert head[..|root|] == pat[..|root|];
  }

  lemma SlashlessKeepsPlain(p: string)
    requires Plain(p)
    ensures Slashless(p) == p
  {
    PlainHasNoEndSlash(p);
    TrimKeeps(p, c => c == '/');
  }

  lemma EntersAncestor(pat: string, d: string)
    requires Plain(d)
    ensures Enters(pat, d) <==> Matches(pat, d) || AtOrBelow(d, StaticRoot(pat))
  {
    SlashlessKeepsPlain(d);
    TrimFacts(StaticHead(pat), c => c == '/');
    TrimKeeps(StaticRoot(pat), c => c == '/');
  }

  /** The slashes behind position `k`, counted. */
  lemma CountSlashFrom(s: string, k: nat)
    requires k <= |s|
    ensures CountSlash(s) == CountSlash(s[..k]) + CountSlash(s[k..])
  {
    assert s == s[..k] + s[k..];
    CountSlashConcat(s[..k], s[k..]);
  }

  lemma LastSlashIs(s: string, k: nat)
    requires k < |s| && s[k] == '/' && '/' !in s[k + 1..]
    ensures LastSlash(s) == k
  {
    assert forall i :: k < i < |s| ==> s[i] == s[k + 1..][i - k - 1];
  }

  /** A name that keeps a pattern's text up to its last slash, and its number of slashes, lies in
      the pattern's directory. */
  lemma SameDirectory(pat: string, p: string)
    requires '/' in pat && CountSlash(pat) == CountSlash(p)
    requires LastSlash(pat) < |p| && p[..LastSlash(pat) + 1] == pat[..LastSlash(pat) + 1]
    ensures '/' in p && Dir(p) == Dir(pat)
  {
    var k := LastSlash(pat);
    CountSlashFrom(pat, k + 1);
    CountSlashFrom(p, k + 1);
    CountSlashZero(pat[k + 1..]);
    CountSlashZero(p[k + 1..]);
    assert p[k] == p[..k + 1][k] == pat[..k + 1][k] == '/';
    LastSlashIs(p, k);
    assert p[..k] == p[..k + 1][..k] == pat[..k + 1][..k] == pat[..k];
  }

  lemma BelowIsLonger(a: string, b: string)
    requires AtOrBelow(a, b)
    ensures |a| <= |b|
  {}

  lemma SlashIsStatic(pat: string, k: nat)
    requires k < |pat| && pat[k] == '/' && k <= StaticLength(pat)
    ensures k < StaticLength(pat)
  {}

  lemma CoveredIsStatic(pat: string)
    requires '/' in pat && pat[0] != '/' && !IsRecursive(pat) && Covered(pat)
    ensures LastSlash(pat) < StaticLength(pat)
  {
    var k, root := LastSlash(pat), StaticRoot(pat);
    assert k >= 0 && |Dir(pat)| == k;
    assert |root| <= StaticLength(pat) by { StaticRootIsPrefix(pat); }
    BelowIsLonger(Dir(pat), root);
    SlashIsStatic(pat, k);
  }

  /** What a covered wildcard pattern matches lies in the pattern's own directory. */
  lemma GlobDirectory(pat: string, p: string)
    requires '/' in pat && GlobMatch(pat, p) && SlashSafe(pat) && pat[0] != '/'
    requires !IsRecursive(pat) && Covered(pat)
    ensures '/' in p && Dir(p) == Dir(pat)
  {
    CoveredIsStatic(pat);
    GlobKeepsStatic(pat, p, LastSlash(pat) + 1);
    GlobKeepsSlashes(pat, p);
    SameDirectory(pat, p);
  }

  /** A covered include pattern enters every directory above what it matches. */
  lemma CoveredIncludeEnters(pat: string, d: string, p: string)
    requires Readable(pat) && Covered(pat) && Plain(d) && StrictlyBelow(d, p)
    requires Matches(pat, p)
    ensures Enters(pat, d)
  {
    var body := Body(pat);
    PlainHasNoEndSlash(body);
    EntersAncestor(pat, d);
    if AtOrBelow(body, p) {
      AncestorsCompare(body, d, p);
      if !AtOrBelow(body, d) {
        AncestorOfDir(d, body);
        AtOrBelowTransitive(d, Dir(body), StaticRoot(pat));
      }
    } else {
      GlobKeepsSlashes(pat, p);
      BelowHasMoreSlashes(d, p);
      CountSlashZero(pat);
      GlobDirectory(pat, p);
      AncestorOfDir(d, p);
      AtOrBelowTransitive(d, Dir(body), StaticRoot(pat));
    }
  }

  lemma DirIsAbove(p: string)
    requires '/' in p
    ensures StrictlyBelow(Dir(p), p)
  {
    assert p[..LastSlash(p) + 1] == Dir(p) + "/";
  }

  /** A pattern that is not covered replicates the file it names, and misses its directory. */
  lemma UncoveredIncludeMisses(pat: string)
    requires Readable(pat) && !Covered(pat)
    ensures Matches(pat, Body(pat)) && !Enters(pat, Dir(Body(pat)))
  {
    var body := Body(pat);
    DirIsAbove(body);
    EntersAncestor(pat, Dir(body));
    BelowHasMoreSlashes(Dir(body), body);
    if GlobMatch(pat, Dir(body)) {
      GlobKeepsSlashes(pat, Dir(body));
    }
  }

  // ----- excludes -----

  lemma {:induction false} GlobLiteral(pat: string, p: string)
    requires forall c :: c in pat ==> !IsMeta(c)
    ensures GlobMatch(pat, p) <==> p == pat
  {
    if pat != "" {
      assert pat[0] in pat;
    }
    if pat != "" && p != "" {
      GlobLiteral(pat[1..], p[1..]);
      assert pat == [pat[0]] + pat[1..] && p == [p[0]] + p[1..];
    }
  }

  /** Its wildcards match no plain path but the one the pattern spells. */
  ghost predicate Inert(pat: string) {
    IsRecursive(pat) || forall d :: Plain(d) && GlobMatch(pat, d) ==> d == pat
  }

  lemma LiteralIsInert(pat: string)
    requires Literal(pat)
    ensures Inert(pat)
  {
    if !IsRecursive(pat) {
      forall d | GlobMatch(pat, d) ensures d == pat {
        GlobLiteral(pat, d);
      }
    }
  }

  /** An inert exclude that stops a directory stops everything below it. */
  lemma InertExcludeCloses(pat: string, d: string, p: string)
    requires Inert(pat) && Plain(d) && Matches(pat, d) && StrictlyBelow(d, p)
    ensures Matches(pat, p)
  {
    AtOrBelowTransitive(Body(pat), d, p);
  }

  /** Any other stops a directory and not the files in it. */
  lemma ActiveExcludeLeaks(pat: string, d: string, name: string)
    requires SlashSafe(pat) && !IsRecursive(pat) && GlobMatch(pat, d) && d != pat && name != ""
    ensures Matches(pat, d) && !Matches(pat, d + "/" + name)
  {
    var p := d + "/" + name;
    assert StrictlyBelow(d, p);
    assert pat != "" by {
      assert GlobMatch("", d) ==> d == "";
    }
    GlobKeepsSlashes(pat, d);
    BelowHasMoreSlashes(d, p);
    if GlobMatch(pat, p) {
      GlobKeepsSlashes(pat, p);
    }
    if AtOrBelow(pat, p) {
      AncestorsCompare(pat, d, p);
      if StrictlyBelow(pat, d) {
        BelowHasMoreSlashes(pat, d);
      } else if StrictlyBelow(d, pat) {
        BelowHasMoreSlashes(d, pat);
      }
    }
  }

  /** A name a wildcard pattern matches: every wildcard stands for one letter. */
  function Instance(pat: string): (s: string)
    ensures |s| == |pat|
  {
    if pat == "" then ""
    else [if IsMeta(pat[0]) then 'x' else pat[0]] + Instance(pat[1..])
  }

  lemma {:induction false} InstanceMatches(pat: string)
    requires '[' !in pat
    ensures GlobMatch(pat, Instance(pat))
  {
    if pat != "" {
      InstanceMatches(pat[1..]);
      assert Instance(pat)[1..] == Instance(pat[1..]);
      if pat[0] == '*' {
        assert GlobMatch(pat, Instance(pat)[1..]);
      }
    }
  }

  lemma {:induction false} InstanceIsLiteral(pat: string)
    ensures forall c :: c in Instance(pat) ==> !IsMeta(c)
  {
    if pat != "" {
      InstanceIsLiteral(pat[1..]);
    }
  }

  lemma InstanceCons(c: char, s: string)
    ensures Instance([c] + s) == [if IsMeta(c) then 'x' else c] + Instance(s)
  {
    assert ([c] + s)[1..] == s;
  }

  lemma {:induction false} InstanceSplits(s: string)
    ensures |Split(Instance(s))| == |Split(s)|
    ensures forall i :: 0 <= i < |Split(s)| ==> Split(Instance(s))[i] == Instance(Split(s)[i])
  {
    if s != "" {
      InstanceSplits(s[1..]);
      var c := if IsMeta(s[0]) then 'x' else s[0];
      var rest, made := Split(s[1..]), Split(Instance(s[1..]));
      assert Instance(s) == [c] + Instance(s[1..]) && Instance(s)[1..] == Instance(s[1..]);
      if s[0] != '/' {
        assert Split(Instance(s)) == [[c] + made[0]] + made[1..];
        assert Split(s) == [[s[0]] + rest[0]] + rest[1..];
        InstanceCons(s[0], rest[0]);
      }
    }
  }

  lemma {:induction false} InstanceAt(s: string, i: nat)
    requires i < |s|
    ensures Instance(s)[i] == if IsMeta(s[i]) then 'x' else s[i]
  {
    if i > 0 {
      InstanceAt(s[1..], i - 1);
    }
  }

  lemma InstanceSegment(x: string)
    requires GoodSegment(x)
    ensures Instance(x) != "" && Instance(x) != "." && Instance(x) != ".."
  {
    forall i | 0 <= i < |x| ensures Instance(x)[i] == '.' ==> x[i] == '.' {
      InstanceAt(x, i);
    }
    assert Instance(x) == "." ==> x == ".";
    assert Instance(x) == ".." ==> x == "..";
  }

  lemma InstanceIsPlain(pat: string)
    requires Plain(pat)
    ensures Plain(Instance(pat))
  {
    var s := Instance(pat);
    InstanceSplits(pat);
    forall x | x in Split(s) ensures GoodSegment(x) {
      var i :| 0 <= i < |Split(s)| && Split(s)[i] == x;
      assert Split(pat)[i] in Split(pat);
      InstanceSegment(Split(pat)[i]);
    }
    forall i | 0 <= i < |s|
      ensures s[i] == '\\' ==> pat[i] == '\\'
      ensures IsSpace(s[i]) ==> IsSpace(pat[i])
    {
      InstanceAt(pat, i);
    }
  }

  lemma BelowPlainIsPlain(d: string, name: string)
    requires Plain(d) && GoodSegment(name) && '\\' !in name && !IsSpace(name[|name| - 1])
    ensures Plain(d + "/" + name)
  {
    SplitConcat(d, name);
    SplitAtom(name);
  }

  // ----- exactly when pruning loses nothing -----

  /** Every directory above a replicated file is entered. */
  ghost predicate PrunesNothing(f: PathFilter) {
    forall d, p :: Plain(d) && Plain(p) && StrictlyBelow(d, p) && ShouldReplicate(f, p)
      ==> ShouldTraverse(f, d)
  }

  /** Filters whose includes are covered and whose excludes are inert. */
  ghost predicate WellPruned(f: PathFilter) {
    && (forall i :: 0 <= i < |f.includePaths| ==>
          Readable(TrimmedPattern(f.includePaths[i])) && Covered(TrimmedPattern(f.includePaths[i])))
    && (forall i :: 0 <= i < |f.excludePaths| ==> Inert(TrimmedPattern(f.excludePaths[i])))
  }

  lemma ExcludedCloses(f: PathFilter, d: string, p: string)
    requires WellPruned(f) && Plain(d) && StrictlyBelow(d, p)
    ensures Excluded(f, d) ==> Excluded(f, p)
  {
    if Excluded(f, d) {
      var i :| 0 <= i < |f.excludePaths| && MatchesPath(f.excludePaths[i], d);
      InertExcludeCloses(TrimmedPattern(f.excludePaths[i]), d, p);
      assert MatchesPath(f.excludePaths[i], p);
    }
  }

  lemma EnteredCloses(f: PathFilter, d: string, p: string)
    requires WellPruned(f) && Plain(d) && Plain(p) && StrictlyBelow(d, p)
    requires Included(f, p) || Entered(f, p)
    ensures Entered(f, d)
  {
    if f.includePaths != [] {
      var i :| 0 <= i < |f.includePaths|
            && (MatchesPath(f.includePaths[i], p) || EntersPath(f.includePaths[i], p));
      PatternPathCloses(f.includePaths[i], d, p);
    }
  }

  lemma PatternPathCloses(pattern: string, d: string, p: string)
    requires Readable(TrimmedPattern(pattern)) && Covered(TrimmedPattern(pattern))
    requires Plain(d) && Plain(p) && StrictlyBelow(d, p)
    requires MatchesPath(pattern, p) || EntersPath(pattern, p)
    ensures EntersPath(pattern, d)
  {
    PatternCloses(TrimmedPattern(pattern), d, p);
  }

  lemma PatternCloses(pat: string, d: string, p: string)
    requires Readable(pat) && Covered(pat) && Plain(d) && Plain(p) && StrictlyBelow(d, p)
    requires Matches(pat, p) || Enters(pat, p)
    ensures Enters(pat, d)
  {
    EntersAncestor(pat, p);
    EntersAncestor(pat, d);
    if Matches(pat, p) {
      CoveredIncludeEnters(pat, d, p);
    } else {
      AtOrBelowTransitive(d, p, StaticRoot(pat));
    }
  }

  /** Under such a filter the entered directories and the replicated files form one tree. */
  lemma TraverseCloses(f: PathFilter, d: string, p: string)
    requires WellPruned(f) && Plain(d) && Plain(p) && StrictlyBelow(d, p)
    requires ShouldReplicate(f, p) || ShouldTraverse(f, p)
    ensures ShouldTraverse(f, d)
  {
    PlainNormalizes(d);
    PlainNormalizes(p);
    ExcludedCloses(f, d, p);
    EnteredCloses(f, d, p);
  }

  lemma WellPrunedLosesNothing(f: PathFilter)
    requires WellPruned(f)
    ensures PrunesNothing(f)
  {
    forall d, p | Plain(d) && Plain(p) && StrictlyBelow(d, p) && ShouldReplicate(f, p)
      ensures ShouldTraverse(f, d)
    {
      TraverseCloses(f, d, p);
    }
  }

  lemma SingleInclude(pattern: string, p: string)
    requires Plain(p)
    ensures ShouldReplicate(PathFilter([pattern], []), p) <==> MatchesPath(pattern, p)
    ensures ShouldTraverse(PathFilter([pattern], []), p) <==> EntersPath(pattern, p)
  {
    PlainNormalizes(p);
    var f := PathFilter([pattern], []);
    assert f.includePaths[0] == pattern && |f.includePaths| == 1;
    assert Included(f, p) <==> MatchesPath(pattern, p);
    assert Entered(f, p) <==> EntersPath(pattern, p);
  }

  lemma SingleExclude(pattern: string, p: string)
    requires Plain(p)
    ensures ShouldReplicate(PathFilter([], [pattern]), p) <==> !MatchesPath(pattern, p)
    ensures ShouldTraverse(PathFilter([], [pattern]), p) <==> !MatchesPath(pattern, p)
  {
    PlainNormalizes(p);
    var f := PathFilter([], [pattern]);
    assert f.excludePaths[0] == pattern && |f.excludePaths| == 1;
  }

  lemma Loses(f: PathFilter, d: string, p: string)
    requires Plain(d) && Plain(p) && StrictlyBelow(d, p) && ShouldReplicate(f, p) && !ShouldTraverse(f, d)
    ensures !PrunesNothing(f)
  {}

  /** One include pattern loses nothing exactly when its static prefix covers its directory. */
  lemma IncludePrunesNothingIff(pattern: string)
    requires Readable(TrimmedPattern(pattern))
    ensures PrunesNothing(PathFilter([pattern], [])) <==> Covered(TrimmedPattern(pattern))
  {
    var f := PathFilter([pattern], []);
    var pat := TrimmedPattern(pattern);
    if Covered(pat) {
      WellPrunedLosesNothing(f);
    } else {
      var body := Body(pat);
      UncoveredIncludeMisses(pat);
      DirIsAbove(body);
      SingleInclude(pattern, body);
      SingleInclude(pattern, Dir(body));
      Loses(f, Dir(body), body);
    }
  }

  lemma ExcludeLoses(pattern: string, d: string, name: string)
    requires SlashSafe(TrimmedPattern(pattern)) && !IsRecursive(TrimmedPattern(pattern))
    requires Plain(d) && GlobMatch(TrimmedPattern(pattern), d) && d != TrimmedPattern(pattern)
    requires GoodSegment(name) && '\\' !in name && !IsSpace(name[|name| - 1])
    ensures !PrunesNothing(PathFilter([], [pattern]))
  {
    var p := d + "/" + name;
    ActiveExcludeLeaks(TrimmedPattern(pattern), d, name);
    BelowPlainIsPlain(d, name);
    SingleExclude(pattern, d);
    SingleExclude(pattern, p);
    Loses(PathFilter([], [pattern]), d, p);
  }

  /** Without bracket expressions, inert patterns are the literal ones: every other wildcard has an
      instance. */
  lemma InertIffLiteral(pat: string)
    requires Plain(Body(pat)) && '[' !in pat
    ensures Inert(pat) <==> Literal(pat)
  {
    if Literal(pat) {
      LiteralIsInert(pat);
    } else {
      InstanceIsPlain(pat);
      InstanceMatches(pat);
      InstanceIsLiteral(pat);
    }
  }

  /** One exclude pattern loses nothing exactly when its wildcards match no plain path but the one it
      spells; without bracket expressions, exactly when none of them is interpreted. */
  lemma ExcludePrunesNothingIff(pattern: string)
    requires Readable(TrimmedPattern(pattern))
    ensures PrunesNothing(PathFilter([], [pattern])) <==> Inert(TrimmedPattern(pattern))
    ensures '[' !in TrimmedPattern(pattern) ==>
              (PrunesNothing(PathFilter([], [pattern])) <==> Literal(TrimmedPattern(pattern)))
  {
    var pat := TrimmedPattern(pattern);
    if Inert(pat) {
      WellPrunedLosesNothing(PathFilter([], [pattern]));
    } else {
      var d :| Plain(d) && GlobMatch(pat, d) && d != pat;
      ExcludeLoses(pattern, d, ['y']);
    }
    if '[' !in pat {
      InertIffLiteral(pat);
    }
  }

  lemma {:induction false} StaticLengthConcat(a: string, b: string)
    requires forall c :: c in a ==> !IsMeta(c)
    ensures StaticLength(a + b) == |a| + StaticLength(b)
  {
    if a == "" {
      assert a + b == b;
    } else {
      assert a[0] in a;
      assert (a + b)[1..] == a[1..] + b;
      StaticLengthConcat(a[1..], b);
    }
  }

  lemma LiteralLength(pat: string)
    requires forall c :: c in pat ==> !IsMeta(c)
    ensures StaticLength(pat) == |pat|
  {
    StaticLengthConcat(pat, "");
    assert pat + "" == pat;
  }

  /** What the source takes for the static part of a directory and a wildcard behind it. */
  lemma HeadBeforeWildcard(dir: string, rest: string)
    requires (forall c :: c in dir ==> !IsMeta(c)) && rest != "" && IsMeta(rest[0])
    ensures StaticHead(dir + "/" + rest) == if '/' in dir then Dir(dir) else dir
  {
    var pat, front := dir + "/" + rest, dir + "/";
    assert pat == front + rest;
    StaticLengthConcat(front, rest);
    assert StaticLength(pat) == |front|;
    assert pat[|front| - 1] == '/' && pat[..|front| - 1] == dir;
  }

  lemma SlashlessHead(s: string)
    ensures |Slashless(s)| <= |s|
  {
    TrimFacts(s, c => c == '/');
  }

  /** Literal names, with or without a final "**", are covered. */
  lemma LiteralBodyIsCovered(pat: string)
    requires Readable(pat) && forall c :: c in Body(pat) ==> !IsMeta(c)
    ensures Covered(pat)
  {
    var body := Body(pat);
    if IsRecursive(pat) {
      assert pat == body + "/" + "**";
      HeadBeforeWildcard(body, "**");
      if '/' in body {
        SlashlessKeepsPlain(Dir(body));
      }
    } else {
      LiteralLength(pat);
      PlainHasNoEndSlash(pat);
      SlashlessKeepsPlain(pat);
      if '/' in pat {
        DirIsAbove(pat);
      }
    }
  }

  /** A wildcard right behind a directory of at least two names, as in "a/b/" + "*.txt", is not:
      the source cuts the static prefix one directory too short. */
  lemma LeadingWildcardIsUncovered(dir: string, rest: string)
    requires '/' in dir && rest != "" && IsMeta(rest[0]) && '/' !in rest
    requires forall c :: c in dir ==> !IsMeta(c)
    requires !IsRecursive(dir + "/" + rest)
    ensures !Covered(dir + "/" + rest)
  {
    var pat := dir + "/" + rest;
    HeadBeforeWildcard(dir, rest);
    SlashlessHead(Dir(dir));
    assert pat[|dir|] == '/' && pat[|dir| + 1..] == rest;
    LastSlashIs(pat, |dir|);
    assert pat[..|dir|] == dir;
  }

  // ----- what wildcards match -----

  lemma {:induction false} StarFinds(rest: string, name: string, star: string) returns (k: nat)
    requires star == "*" + rest && GlobMatch(star, name)
    ensures k <= |name| && '/' !in name[..k] && GlobMatch(rest, name[k..])
    decreases |name|
  {
    assert star[1..] == rest;
    if GlobMatch(rest, name) {
      k := 0;
      assert name[0..] == name;
    } else {
      var n := StarFinds(rest, name[1..], star);
      k := n + 1;
      assert name[..k] == [name[0]] + name[1..][..n] && name[k..] == name[1..][n..];
    }
  }

  lemma {:induction false} StarTakes(rest: string, name: string, star: string, k: nat)
    requires star == "*" + rest && k <= |name| && '/' !in name[..k] && GlobMatch(rest, name[k..])
    ensures GlobMatch(star, name)
    decreases k
  {
    assert star[1..] == rest;
    if k == 0 {
      assert name[0..] == name;
    } else {
      assert name[0] == name[..k][0] && name[..k] == [name[0]] + name[1..][..k - 1] && name[1..][k - 1..] == name[k..];
      StarTakes(rest, name[1..], star, k - 1);
    }
  }

  /** A star stands for any run of characters without a slash. */
  lemma StarLaw(rest: string, name: string)
    ensures GlobMatch("*" + rest, name)
       <==> exists k :: 0 <= k <= |name| && '/' !in name[..k] && GlobMatch(rest, name[k..])
  {
    if GlobMatch("*" + rest, name) {
      var k := StarFinds(rest, name, "*" + rest);
    }
    if k :| 0 <= k <= |name| && '/' !in name[..k] && GlobMatch(rest, name[k..]) {
      StarTakes(rest, name, "*" + rest, k);
    }
  }

  /** A question mark stands for one character that is no slash. */
  lemma QuestionLaw(rest: string, c: char, tail: string)
    ensures GlobMatch("?" + rest, [c] + tail) <==> c != '/' && GlobMatch(rest, tail)
    ensures !GlobMatch("?" + rest, "")
  {
    assert ("?" + rest)[1..] == rest && ([c] + tail)[1..] == tail;
  }

  predicate IsClassChar(c: char) { c != ']' && c != '-' && c != '^' }

  lemma {:induction false} ClassOfList(cs: string, rest: string, c: char, some: bool, hit: bool)
    requires (forall x :: x in cs ==> IsClassChar(x)) && (some || cs != "")
    ensures ClassRanges(cs + "]" + rest, c, some, hit) == Some((hit || c in cs, rest))
  {
    var p := cs + "]" + rest;
    if cs == "" {
      assert p[1..] == rest;
    } else {
      assert cs[0] in cs && p[0] == cs[0];
      assert p[1..] == cs[1..] + "]" + rest;
      assert p[1] != '-' by {
        if |cs| > 1 {
          assert p[1] == cs[1] && cs[1] in cs;
        }
      }
      ClassOfList(cs[1..], rest, c, true, hit || c == cs[0]);
      assert cs == [cs[0]] + cs[1..];
    }
  }

  lemma ClassOfRange(lo: char, hi: char, rest: string, c: char)
    requires IsClassChar(lo) && IsClassChar(hi)
    ensures ClassRanges([lo, '-', hi, ']'] + rest, c, false, false) == Some((lo <= c <= hi, rest))
  {
    var p := [lo, '-', hi, ']'] + rest;
    assert p[3..] == [']'] + rest && p[3..][1..] == rest;
  }

  /** A bracket expression stands for one character: of the list, of the range, or outside them. */
  lemma ClassLaw(cs: string, lo: char, hi: char, c: char, rest: string)
    requires cs != "" && (forall x :: x in cs ==> IsClassChar(x)) && IsClassChar(lo) && IsClassChar(hi)
    ensures Class(cs + "]" + rest, c) == Some((c in cs, rest))
    ensures Class("^" + (cs + "]" + rest), c) == Some((c !in cs, rest))
    ensures Class([lo, '-', hi, ']'] + rest, c) == Some((lo <= c <= hi, rest))
  {
    ClassOfList(cs, rest, c, false, false);
    ClassOfRange(lo, hi, rest, c);
    assert (cs + "]" + rest)[0] == cs[0] && cs[0] in cs;
    assert ("^" + (cs + "]" + rest))[1..] == cs + "]" + rest;
  }

  /** A pattern that starts with a bracket expression matches one character by it and the rest behind. */
  lemma BracketLaw(inner: string, c: char, tail: string, hit: bool, rest: string)
    requires Class(inner, c) == Some((hit, rest))
    ensures GlobMatch("[" + inner, [c] + tail) <==> hit && GlobMatch(rest, tail)
    ensures !GlobMatch("[" + inner, "")
  {
    assert ("[" + inner)[1..] == inner && ([c] + tail)[1..] == tail;
  }

  lemma {:induction false} GlobFront(front: string, pattern: string, name: string)
    requires forall c :: c in front ==> !IsMeta(c)
    ensures GlobMatch(front + pattern, name) <==> front <= name && GlobMatch(pattern, name[|front|..])
  {
    if front == "" {
      assert front + pattern == pattern && name[0..] == name;
    } else {
      assert front[0] in front && (front + pattern)[1..] == front[1..] + pattern;
      if name != "" && name[0] == front[0] {
        GlobFront(front[1..], pattern, name[1..]);
        assert front <= name <==> front[1..] <= name[1..];
        if front <= name {
          assert name[1..][|front| - 1..] == name[|front|..];
        }
      }
    }
  }

  lemma LiteralStarFinds(a: string, b: string, p: string, star: string) returns (m: string)
    requires (forall c :: c in a ==> !IsMeta(c)) && (forall c :: c in b ==> !IsMeta(c))
    requires star == "*" + b && GlobMatch(a + star, p)
    ensures '/' !in m && p == a + m + b
  {
    GlobFront(a, star, p);
    var tail := p[|a|..];
    var k := StarFinds(b, tail, star);
    GlobLiteral(b, tail[k..]);
    m := tail[..k];
    assert tail == m + b && p == a + tail;
  }

  lemma LiteralStarTakes(a: string, b: string, p: string, star: string, m: string)
    requires (forall c :: c in a ==> !IsMeta(c)) && (forall c :: c in b ==> !IsMeta(c))
    requires star == "*" + b && '/' !in m && p == a + m + b
    ensures GlobMatch(a + star, p)
  {
    var tail := m + b;
    assert p == a + tail && p[|a|..] == tail && tail[..|m|] == m && tail[|m|..] == b;
    GlobLiteral(b, b);
    StarTakes(b, tail, star, |m|);
    GlobFront(a, star, p);
  }

  /** Text around a star is literal: the pattern matches exactly what puts a slash-free run between. */
  lemma LiteralStarLaw(a: string, b: string, p: string)
    requires (forall c :: c in a ==> !IsMeta(c)) && (forall c :: c in b ==> !IsMeta(c))
    ensures GlobMatch(a + ("*" + b), p) <==> exists m :: '/' !in m && p == a + m + b
  {
    if GlobMatch(a + ("*" + b), p) {
      var m := LiteralStarFinds(a, b, p, "*" + b);
    }
    if m :| '/' !in m && p == a + m + b {
      LiteralStarTakes(a, b, p, "*" + b, m);
    }
  }

  /** One include pattern "dir/" + "*ext" accepts exactly the files of that shape in `dir`, and what lies
      at or below the path the pattern spells. */
  lemma StarIncludeAccepts(dir: string, ext: string, p: string, pattern: string)
    requires Plain(p) && dir != "" && dir[0] != '/' && pattern == (dir + "/") + ("*" + ext)
    requires (forall c :: c in dir ==> !IsMeta(c) && c != '\\') && (forall c :: c in ext ==> !IsMeta(c) && c != '\\')
    requires ext == "" || ext[|ext| - 1] != '/'
    ensures ShouldReplicate(PathFilter([pattern], []), p)
       <==> (exists m :: '/' !in m && p == dir + "/" + m + ext) || AtOrBelow(pattern, p)
  {
    assert pattern[0] == dir[0] && pattern[|pattern| - 1] == if ext == "" then '*' else ext[|ext| - 1];
    TrimmedKeeps(pattern);
    NotRecursive(dir, ext, pattern);
    SingleInclude(pattern, p);
    assert forall c :: c in dir + "/" ==> !IsMeta(c);
    LiteralStarLaw(dir + "/", ext, p);
  }

  lemma NotRecursive(dir: string, ext: string, pattern: string)
    requires pattern == (dir + "/") + ("*" + ext) && forall c :: c in ext ==> !IsMeta(c)
    ensures !IsRecursive(pattern)
  {
    if ext == "" {
      assert pattern[|pattern| - 2] == '/';
    } else {
      assert pattern[|pattern| - 1] == ext[|ext| - 1] && ext[|ext| - 1] in ext;
    }
  }

  lemma TrimmedKeeps(pat: string)
    requires pat != "" && '\\' !in pat && pat[0] != '/' && pat[|pat| - 1] != '/'
    ensures TrimmedPattern(pat) == pat
  {
    ReplaceCharKeeps(pat, '\\', '/');
    TrimKeeps(pat, c => c == '/');
  }

  /** A literal pattern, and one with a final "**", match exactly the path they name and what lies below. */
  lemma LiteralMatches(pat: string, p: string)
    requires Literal(pat) && pat != ""
    ensures Matches(pat, p) <==> AtOrBelow(Body(pat), p)
  {
    if !IsRecursive(pat) {
      GlobLiteral(pat, p);
    }
  }

  /** A plain path is replicated exactly when no exclude pattern matches it and, if there are include
      patterns, one of them does: an exclude beats every include. */
  lemma ReplicatedIff(f: PathFilter, p: string)
    requires Plain(p)
    ensures ShouldReplicate(f, p)
       <==> && (forall x :: x in f.excludePaths ==> !MatchesPath(x, p))
            && (f.includePaths == [] || exists x :: x in f.includePaths && MatchesPath(x, p))
  {
    PlainNormalizes(p);
    if i :| 0 <= i < |f.excludePaths| && MatchesPath(f.excludePaths[i], p) {
      assert f.excludePaths[i] in f.excludePaths;
    }
    if i :| 0 <= i < |f.includePaths| && MatchesPath(f.includePaths[i], p) {
      assert f.includePaths[i] in f.includePaths;
    }
  }

  /** Slashes around a pattern and backslashes in it make no difference. */
  lemma PatternSpellings(pat: string, spelled: string, left: string, right: string)
    requires pat != "" && pat[0] != '/' && pat[|pat| - 1] != '/' && ReplaceChar(spelled, '\\', '/') == pat
    requires (forall c :: c in left + right ==> c == '/')
    ensures TrimmedPattern(left + spelled + right) == pat
  {
    var cut := c => c == '/';
    assert (forall c :: c in left ==> c in left + right) && (forall c :: c in right ==> c in left + right);
    assert '\\' !in left && '\\' !in right;
    ReplaceCharConcat(left + spelled, right, '\\', '/');
    ReplaceCharConcat(left, spelled, '\\', '/');
    ReplaceCharKeeps(left, '\\', '/');
    ReplaceCharKeeps(right, '\\', '/');
    assert left + pat + right == left + (pat + right) && (pat + right)[0] == pat[0];
    TrimLeftSkips(left, pat + right, cut);
    TrimRightSkips(pat, right, cut);
  }
}
