/** Where a pool keeps volumes, shadows and backups, and which lock guards a volume. */
module Layout {
  import opened Strings
  import opened Paths

  // ----- safeSegment -----

  /** strings.ReplaceAll(s, "..", ""). */
  function DropDotPairs(s: string): string {
    if s == "" then ""
    else if |s| >= 2 && s[0] == '.' && s[1] == '.' then DropDotPairs(s[2..])
    else [s[0]] + DropDotPairs(s[1..])
  }

  predicate IsSafeChar(c: char) {
    'a' <= c <= 'z' || 'A' <= c <= 'Z' || '0' <= c <= '9' || c == '-' || c == '_' || c == '.'
  }

  function SafeChars(s: string): (r: string)
    ensures |r| == |s|
    ensures forall i :: 0 <= i < |r| ==> r[i] == if IsSafeChar(s[i]) then s[i] else '-'
  {
    seq(|s|, i requires 0 <= i < |s| => if IsSafeChar(s[i]) then s[i] else '-')
  }

  function SafeSegment(s: string): string {
    var trimmed := Trim(SafeChars(DropDotPairs(TrimSpace(s))), c => c == '.' || c == '-');
    if trimmed == "" then "default" else trimmed
  }

  /** Whatever the input, the result is one clean path segment that does not start with a dot. */
  lemma SafeSegmentIsSafe(s: string)
    ensures GoodSegment(SafeSegment(s)) && SafeSegment(s)[0] != '.'
    ensures forall c :: c in SafeSegment(s) ==> IsSafeChar(c)
  {
    var mapped := SafeChars(DropDotPairs(TrimSpace(s)));
    TrimFacts(mapped, c => c == '.' || c == '-');
  }

  ghost predicate HasDotPair(s: string) { exists i :: 0 <= i < |s| - 1 && s[i] == '.' && s[i + 1] == '.' }

  lemma {:induction false} DropDotPairsKeeps(s: string)
    ensures !HasDotPair(s) ==> DropDotPairs(s) == s
    ensures HasDotPair(s) ==> |DropDotPairs(s)| < |s|
  {
    if s != "" {
      if |s| >= 2 && s[0] == '.' && s[1] == '.' {
        DropDotPairsShrinks(s[2..]);
      } else {
        DropDotPairsKeeps(s[1..]);
        assert s == [s[0]] + s[1..];
        assert forall i :: 0 <= i < |s[1..]| ==> s[1..][i] == s[i + 1];
        if HasDotPair(s) {
          var i :| 0 <= i < |s| - 1 && s[i] == '.' && s[i + 1] == '.';
          assert s[1..][i - 1] == '.' && s[1..][i] == '.';
        }
        if HasDotPair(s[1..]) {
          var i :| 0 <= i < |s[1..]| - 1 && s[1..][i] == '.' && s[1..][i + 1] == '.';
          assert s[i + 1] == '.' && s[i + 2] == '.';
        }
      }
    }
  }

  lemma {:induction false} DropDotPairsShrinks(s: string)
    ensures |DropDotPairs(s)| <= |s|
  {
    if |s| >= 2 && s[0] == '.' && s[1] == '.' {
      DropDotPairsShrinks(s[2..]);
    } else if s != "" {
      DropDotPairsShrinks(s[1..]);
    }
  }

  /** A name that is a path segment as it stands: safe characters, no two dots in a row, and no dot or
      dash at an end. */
  ghost predicate SafeName(s: string) {
    && s != "" && (forall c :: c in s ==> IsSafeChar(c)) && !HasDotPair(s)
    && s[0] != '.' && s[0] != '-' && s[|s| - 1] != '.' && s[|s| - 1] != '-'
  }

  lemma SafeCharsKeep(s: string)
    ensures SafeChars(s) == s <==> forall c :: c in s ==> IsSafeChar(c)
  {
    assert forall i :: 0 <= i < |s| ==> s[i] in s;
    if forall c :: c in s ==> IsSafeChar(c) {
      assert SafeChars(s) == s;
    }
    if SafeChars(s) == s {
      assert forall i :: 0 <= i < |s| ==> IsSafeChar(s[i]);
    }
  }

  /** Exactly such names keep their own directory name. */
  lemma SafeSegmentKeepsIff(s: string)
    ensures SafeSegment(s) == s <==> SafeName(s)
  {
    var spaceless := TrimSpace(s);
    var edge := c => c == '.' || c == '-';
    TrimFacts(s, IsSpace);
    DropDotPairsKeeps(spaceless);
    SafeCharsKeep(DropDotPairs(spaceless));
    TrimFacts(SafeChars(DropDotPairs(spaceless)), edge);
    if SafeName(s) {
      assert s[0] in s && s[|s| - 1] in s;
      TrimKeeps(s, IsSpace);
      TrimKeeps(s, edge);
    }
    if SafeSegment(s) == s {
      SafeSegmentIsSafe(s);
      KeptIsSafe(s);
    }
  }

  lemma KeptIsSafe(s: string)
    requires SafeSegment(s) == s && s != "" && forall c :: c in s ==> IsSafeChar(c)
    ensures SafeName(s)
  {
    var spaceless := TrimSpace(s);
    var edge := c => c == '.' || c == '-';
    var trimmed := Trim(SafeChars(DropDotPairs(spaceless)), edge);
    TrimFacts(s, IsSpace);
    TrimFacts(SafeChars(DropDotPairs(spaceless)), edge);
    DropDotPairsKeeps(spaceless);
    if trimmed == "" {
      DefaultIsSafe(s);
    } else {
      DropDotPairsShrinks(spaceless);
      assert |spaceless| == |s|;
    }
  }

  lemma DefaultIsSafe(s: string)
    requires s == "default"
    ensures SafeName(s)
  {
    assert s[0] == 'd' && s[1] == 'e' && s[2] == 'f' && s[3] == 'a' && s[4] == 'u' && s[5] == 'l' && s[6] == 't';
  }

  // ----- pool paths -----

  /** filepath.Join of non-empty elements. */
  function FilepathJoin(elems: seq<string>): string { Clean(Join(elems)) }

  predicate InvalidPool(clean: string) { clean == "." || clean == "/" || clean == "" }

  function WithinPool(pool: string, full: string): Option<string> {
    if full != pool && !(pool + "/" <= full) then None else Some(full)
  }

  function ResolveVolumePath(poolPath: string, namespace: string, name: string): Option<string> {
    var pool := Clean(poolPath);
    if InvalidPool(pool) then None
    else WithinPool(pool, Clean(FilepathJoin([pool, FilepathJoin([SafeSegment(namespace), SafeSegment(name)])])))
  }

  const SHADOW_ROOT := ".simple-volume-shadows"
  const BACKUP_ROOT := ".simple-volume-backups"
  const CURRENT := "current"
  const DATA := "data"

  function ShadowSourceBasePath(namespace: string, volume: string): string {
    FilepathJoin([SHADOW_ROOT, SafeSegment(namespace), SafeSegment(volume), CURRENT, DATA])
  }

  function ResolvePoolRelativePath(poolPath: string, rel: string): Option<string> {
    var pool := Clean(poolPath);
    var trimmed := Trim(ReplaceChar(rel, '\\', '/'), c => c == '/');
    if InvalidPool(pool) || trimmed == "" then None
    else WithinPool(pool, Clean(FilepathJoin([pool, trimmed])))
  }

  function ResolveShadowPath(poolPath: string, namespace: string, volume: string): Option<string> {
    ResolvePoolRelativePath(poolPath, ShadowSourceBasePath(namespace, volume))
  }

  /** The directory one backup is moved to. */
  function BackupPath(poolPath: string, namespace: string, name: string, stamp: string): string {
    FilepathJoin([FilepathJoin([Clean(poolPath), BACKUP_ROOT, SafeSegment(namespace), SafeSegment(name)]), stamp])
  }

  // ----- what these paths are -----

  ghost predicate GoodSegments(xs: seq<string>) { xs != [] && forall x :: x in xs ==> GoodSegment(x) }

  lemma {:induction false} JoinStart(xs: seq<string>)
    requires GoodSegments(xs)
    ensures Join(xs) != "" && Join(xs)[0] != '/'
  {
    assert xs[0] in xs;
  }

  lemma {:induction false} JoinNoBackslash(xs: seq<string>)
    requires forall x :: x in xs ==> '\\' !in x
    ensures '\\' !in Join(xs)
  {
    if |xs| > 0 {
      assert xs[0] in xs;
      JoinNoBackslash(xs[1..]);
    }
  }

  lemma JoinEnd(xs: seq<string>)
    requires GoodSegments(xs)
    ensures Join(xs) != "" && Join(xs)[|Join(xs)| - 1] != '/'
  {
    JoinStart(xs);
    var last := xs[|xs| - 1];
    assert last in xs;
    if |xs| > 1 {
      assert xs == xs[..|xs| - 1] + [last];
      JoinConcat(xs[..|xs| - 1], [last]);
    }
  }

  lemma JoinTwo(a: string, b: string)
    ensures Join([a, b]) == a + "/" + b
  {
    assert [a, b][1..] == [b];
  }

  lemma SamePrefixCancels(p: string, a: string, b: string)
    requires p + a == p + b
    ensures a == b
  {
    assert a == (p + a)[|p|..];
  }

  lemma CleanKeepsSegments(xs: seq<string>)
    requires GoodSegments(xs)
    ensures Clean(Join(xs)) == Join(xs)
  {
    JoinStart(xs);
    SplitJoin(xs);
    assert Normal(false, [] + xs) by {
      assert forall i :: 0 <= i < |xs| ==> xs[i] in xs;
    }
    CleanSegmentsKeeps(false, [], xs);
    assert [] + xs == xs;
  }

  /** The segment stack of a cleaned path. */
  lemma CleanedStack(p: string) returns (rooted: bool, stack: seq<string>)
    requires !InvalidPool(Clean(p))
    ensures stack != [] && Normal(rooted, stack) && Clean(p) == Render(rooted, stack)
    ensures (Clean(p)[0] == '/') == rooted
  {
    rooted := p[0] == '/';
    stack := CleanSegments(rooted, [], Split(p));
    CleanSegmentsNormal(rooted, [], Split(p));
    assert stack[0] in stack;
  }

  lemma RenderSplits(rooted: bool, stack: seq<string>)
    requires stack != [] && Normal(rooted, stack)
    ensures CleanSegments(rooted, [], Split(Render(rooted, stack))) == stack
  {
    SplitJoin(stack);
    CleanSegmentsKeeps(rooted, [], stack);
    assert [] + stack == stack;
    if rooted {
      var p := "/" + Join(stack);
      assert p[1..] == Join(stack);
      assert Split(p)[0] == "" && Split(p)[1..] == stack;
    }
  }

  lemma NormalExtends(rooted: bool, stack: seq<string>, xs: seq<string>)
    requires Normal(rooted, stack) && GoodSegments(xs)
    ensures Normal(rooted, stack + xs)
  {
    assert forall i :: 0 <= i < |xs| ==> xs[i] in xs;
  }

  lemma SegmentsExtend(rooted: bool, stack: seq<string>, xs: seq<string>)
    requires stack != [] && Normal(rooted, stack) && GoodSegments(xs)
    ensures CleanSegments(rooted, [], Split(Render(rooted, stack) + "/" + Join(xs))) == stack + xs
  {
    var segs := Split(Render(rooted, stack));
    assert CleanSegments(rooted, [], segs) == stack by {
      RenderSplits(rooted, stack);
    }
    assert Split(Render(rooted, stack) + "/" + Join(xs)) == segs + xs by {
      SplitConcat(Render(rooted, stack), Join(xs));
      SplitJoin(xs);
    }
    CleanSegmentsConcat(rooted, [], segs, xs);
    NormalExtends(rooted, stack, xs);
    CleanSegmentsKeeps(rooted, stack, xs);
  }

  lemma RenderExtends(rooted: bool, stack: seq<string>, xs: seq<string>)
    requires stack != [] && xs != []
    ensures Render(rooted, stack + xs) == Render(rooted, stack) + "/" + Join(xs)
  {
    JoinConcat(stack, xs);
  }

  lemma Regroup(a: string, b: string, c: string)
    ensures a + "/" + (b + "/" + c) == (a + "/" + b) + "/" + c
  {}

  /** Clean segments behind a cleaned pool path stay as they are. */
  lemma CleanExtends(poolPath: string, xs: seq<string>)
    requires !InvalidPool(Clean(poolPath)) && GoodSegments(xs)
    ensures Clean(Clean(poolPath) + "/" + Join(xs)) == Clean(poolPath) + "/" + Join(xs)
  {
    var rooted, stack := CleanedStack(poolPath);
    var pool := Clean(poolPath);
    var full := pool + "/" + Join(xs);
    SegmentsExtend(rooted, stack, xs);
    RenderExtends(rooted, stack, xs);
    assert full[0] == pool[0];
  }

  /** The directory of a list of segments in a pool. */
  function PlaceIn(poolPath: string, xs: seq<string>): string { Clean(poolPath) + "/" + Join(xs) }

  lemma JoinInPool(poolPath: string, xs: seq<string>)
    requires !InvalidPool(Clean(poolPath)) && GoodSegments(xs)
    ensures FilepathJoin([Clean(poolPath), Join(xs)]) == PlaceIn(poolPath, xs)
    ensures WithinPool(Clean(poolPath), Clean(PlaceIn(poolPath, xs))) == Some(PlaceIn(poolPath, xs))
  {
    CleanExtends(poolPath, xs);
    JoinTwo(Clean(poolPath), Join(xs));
  }

  lemma JoinTwice(poolPath: string, xs: seq<string>, last: string)
    requires !InvalidPool(Clean(poolPath)) && GoodSegments(xs) && GoodSegment(last)
    ensures FilepathJoin([FilepathJoin([Clean(poolPath)] + xs), last]) == PlaceIn(poolPath, xs + [last])
  {
    var pool := Clean(poolPath);
    CleanExtends(poolPath, xs);
    JoinConcat([pool], xs);
    assert FilepathJoin([pool] + xs) == PlaceIn(poolPath, xs);
    CleanExtends(poolPath, xs + [last]);
    JoinConcat(xs, [last]);
    JoinTwo(PlaceIn(poolPath, xs), last);
    Regroup(pool, Join(xs), last);
  }

  // ----- the three kinds of directories -----

  datatype Place =
    | Live(namespace: string, volume: string)
    | Shadow(namespace: string, volume: string)
    | Backup(namespace: string, volume: string, stamp: string)

  function Segments(place: Place): seq<string> {
    var n, v := SafeSegment(place.namespace), SafeSegment(place.volume);
    match place
    case Live(_, _) => [n, v]
    case Shadow(_, _) => [SHADOW_ROOT, n, v, CURRENT, DATA]
    case Backup(_, _, stamp) => [BACKUP_ROOT, n, v, stamp]
  }

  ghost predicate Stamped(place: Place) { place.Backup? ==> GoodSegment(place.stamp) }

  lemma ConstantsAreGood()
    ensures GoodSegment(SHADOW_ROOT) && GoodSegment(BACKUP_ROOT) && GoodSegment(CURRENT) && GoodSegment(DATA)
    ensures '\\' !in SHADOW_ROOT && '\\' !in CURRENT && '\\' !in DATA
  {}

  lemma SegmentsAreGood(place: Place)
    requires Stamped(place)
    ensures GoodSegments(Segments(place))
  {
    ConstantsAreGood();
    SafeSegmentIsSafe(place.namespace);
    SafeSegmentIsSafe(place.volume);
  }

  lemma LivePlace(poolPath: string, namespace: string, name: string)
    requires !InvalidPool(Clean(poolPath))
    ensures ResolveVolumePath(poolPath, namespace, name) == Some(PlaceIn(poolPath, Segments(Live(namespace, name))))
  {
    var xs := Segments(Live(namespace, name));
    SegmentsAreGood(Live(namespace, name));
    CleanKeepsSegments(xs);
    JoinInPool(poolPath, xs);
  }

  lemma ShadowPlace(poolPath: string, namespace: string, volume: string)
    requires !InvalidPool(Clean(poolPath))
    ensures ResolveShadowPath(poolPath, namespace, volume) == Some(PlaceIn(poolPath, Segments(Shadow(namespace, volume))))
  {
    var xs := Segments(Shadow(namespace, volume));
    SegmentsAreGood(Shadow(namespace, volume));
    CleanKeepsSegments(xs);
    JoinInPool(poolPath, xs);
    var rel := Join(xs);
    JoinStart(xs);
    JoinEnd(xs);
    ShadowHasNoBackslash(namespace, volume);
    ReplaceCharKeeps(rel, '\\', '/');
    TrimKeeps(rel, c => c == '/');
  }

  lemma ShadowHasNoBackslash(namespace: string, volume: string)
    ensures '\\' !in Join(Segments(Shadow(namespace, volume)))
  {
    ConstantsAreGood();
    SafeSegmentIsSafe(namespace);
    SafeSegmentIsSafe(volume);
    JoinNoBackslash(Segments(Shadow(namespace, volume)));
  }

  lemma BackupPlace(poolPath: string, namespace: string, name: string, stamp: string)
    requires !InvalidPool(Clean(poolPath)) && GoodSegment(stamp)
    ensures BackupPath(poolPath, namespace, name, stamp) == PlaceIn(poolPath, Segments(Backup(namespace, name, stamp)))
  {
    var n, v := SafeSegment(namespace), SafeSegment(name);
    var xs := [BACKUP_ROOT, n, v];
    SegmentsAreGood(Live(namespace, name));
    assert n in [n, v] && v in [n, v];
    ConstantsAreGood();
    JoinTwice(poolPath, xs, stamp);
    assert [Clean(poolPath)] + xs == [Clean(poolPath), BACKUP_ROOT, n, v];
    assert xs + [stamp] == [BACKUP_ROOT, n, v, stamp];
  }

  /** Behind a common prefix, one string lies below another. */
  lemma PrefixCancels(p: string, a: string, b: string)
    requires StrictlyBelow(p + a, p + b)
    ensures StrictlyBelow(a, b)
  {
    var front := p + a + "/";
    assert front == p + (a + "/");
    assert (p + b)[..|front|] == front;
    assert b[..|a| + 1] == (p + b)[|p|..|front|] == front[|p|..] == a + "/";
  }

  lemma BelowSplits(a: string, b: string)
    requires StrictlyBelow(a, b)
    ensures Split(a) <= Split(b)
  {
    var rest := b[|a| + 1..];
    assert b == a + "/" + rest;
    SplitConcat(a, rest);
  }

  /** One directory holds another exactly when its segments are a prefix of the other's. */
  lemma NestedIsPrefix(poolPath: string, xs: seq<string>, ys: seq<string>)
    requires GoodSegments(xs) && GoodSegments(ys)
    requires AtOrBelow(PlaceIn(poolPath, xs), PlaceIn(poolPath, ys))
    ensures xs <= ys
  {
    var pool := Clean(poolPath) + "/";
    SplitJoin(xs);
    SplitJoin(ys);
    if PlaceIn(poolPath, xs) == PlaceIn(poolPath, ys) {
      SamePrefixCancels(pool, Join(xs), Join(ys));
    } else {
      PrefixCancels(pool, Join(xs), Join(ys));
      BelowSplits(Join(xs), Join(ys));
    }
  }

  /** Live, shadow and backup directories of all namespaces and volumes are pairwise disjoint: one
      lies in another only when they are the same directory of the same kind. */
  lemma PlacesNeverNest(poolPath: string, a: Place, b: Place)
    requires Stamped(a) && Stamped(b)
    requires AtOrBelow(PlaceIn(poolPath, Segments(a)), PlaceIn(poolPath, Segments(b)))
    ensures Segments(a) == Segments(b)
    ensures a.Live? == b.Live? && a.Shadow? == b.Shadow? && a.Backup? == b.Backup?
  {
    SegmentsAreGood(a);
    SegmentsAreGood(b);
    NestedIsPrefix(poolPath, Segments(a), Segments(b));
    SafeSegmentIsSafe(a.namespace);
    SafeSegmentIsSafe(b.namespace);
    assert Segments(a)[0] == Segments(b)[0];
    assert SHADOW_ROOT[0] == '.' && BACKUP_ROOT[0] == '.' && SHADOW_ROOT != BACKUP_ROOT by {
      assert SHADOW_ROOT[15] != BACKUP_ROOT[15];
    }
  }

  // ----- locks -----

  function LockKey(namespace: string, volume: string): string {
    SafeSegment(namespace) + "/" + SafeSegment(volume)
  }

  /** Two requests share a lock key exactly when they resolve to the same volume directory. */
  lemma LockMatchesStorage(poolPath: string, n1: string, v1: string, n2: string, v2: string)
    requires !InvalidPool(Clean(poolPath))
    ensures LockKey(n1, v1) == LockKey(n2, v2)
       <==> ResolveVolumePath(poolPath, n1, v1) == ResolveVolumePath(poolPath, n2, v2)
  {
    LivePlace(poolPath, n1, v1);
    LivePlace(poolPath, n2, v2);
    var pool := Clean(poolPath);
    JoinTwo(SafeSegment(n1), SafeSegment(v1));
    JoinTwo(SafeSegment(n2), SafeSegment(v2));
    if ResolveVolumePath(poolPath, n1, v1) == ResolveVolumePath(poolPath, n2, v2) {
      SamePrefixCancels(pool + "/", LockKey(n1, v1), LockKey(n2, v2));
    }
  }

  lemma SamePlaceSameSegments(poolPath: string, n1: string, v1: string, n2: string, v2: string)
    requires !InvalidPool(Clean(poolPath))
    requires ResolveVolumePath(poolPath, n1, v1) == ResolveVolumePath(poolPath, n2, v2)
    ensures SafeSegment(n1) == SafeSegment(n2) && SafeSegment(v1) == SafeSegment(v2)
  {
    var xs, ys := Segments(Live(n1, v1)), Segments(Live(n2, v2));
    SegmentsAreGood(Live(n1, v1));
    SegmentsAreGood(Live(n2, v2));
    LivePlace(poolPath, n1, v1);
    LivePlace(poolPath, n2, v2);
    NestedIsPrefix(poolPath, xs, ys);
    assert xs[0] == ys[0] && xs[1] == ys[1];
  }

  /** Volumes with such names never share a directory. */
  lemma SafeNamesApart(poolPath: string, n1: string, v1: string, n2: string, v2: string)
    requires !InvalidPool(Clean(poolPath)) && SafeName(n1) && SafeName(v1) && SafeName(n2) && SafeName(v2)
    requires ResolveVolumePath(poolPath, n1, v1) == ResolveVolumePath(poolPath, n2, v2)
    ensures n1 == n2 && v1 == v2
  {
    assert SafeSegment(n1) == n1 && SafeSegment(v1) == v1 && SafeSegment(n2) == n2 && SafeSegment(v2) == v2 by {
      SafeSegmentKeepsIff(n1);
      SafeSegmentKeepsIff(v1);
      SafeSegmentKeepsIff(n2);
      SafeSegmentKeepsIff(v2);
    }
    SamePlaceSameSegments(poolPath, n1, v1, n2, v2);
  }
}
