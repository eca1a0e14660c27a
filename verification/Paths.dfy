/** path.Clean, NormalizeEventPath and the ancestor relation on volume paths. */
module Paths {
  import opened Strings

  /** A name that survives path.Clean: not empty, not a dot segment. */
  predicate GoodSegment(x: string) {
    x != "" && x != "." && x != ".." && '/' !in x
  }

  // ----- path.Clean -----

  function CleanStep(rooted: bool, stack: seq<string>, seg: string): seq<string> {
    if seg == "" || seg == "." then stack
    else if seg == ".." then
      if stack != [] && stack[|stack| - 1] != ".." then stack[..|stack| - 1]
      else if rooted then stack
      else stack + [".."]
    else stack + [seg]
  }

  function CleanSegments(rooted: bool, stack: seq<string>, segs: seq<string>): seq<string>
    decreases |segs|
  {
    if segs == [] then stack
    else CleanSegments(rooted, CleanStep(rooted, stack, segs[0]), segs[1..])
  }

  function Render(rooted: bool, stack: seq<string>): string {
    if rooted then "/" + Join(stack) else if stack == [] then "." else Join(stack)
  }

  function Clean(p: string): string {
    if p == "" then "." else Render(p[0] == '/', CleanSegments(p[0] == '/', [], Split(p)))
  }

  /** What a cleaned segment stack looks like: dot-dots only in front, and none when rooted. */
  ghost predicate Normal(rooted: bool, stack: seq<string>) {
    && (forall x :: x in stack ==> x != "" && x != "." && '/' !in x)
    && (forall i :: 0 <= i < |stack| && stack[i] == ".." ==>
          !rooted && forall j :: 0 <= j < i ==> stack[j] == "..")
  }

  lemma CleanStepNormal(rooted: bool, stack: seq<string>, seg: string)
    requires Normal(rooted, stack) && '/' !in seg
    ensures Normal(rooted, CleanStep(rooted, stack, seg))
    ensures Weight(CleanStep(rooted, stack, seg)) <= Weight(stack) + Weight([seg])
    ensures forall x :: x in CleanStep(rooted, stack, seg) ==> x in stack || x == seg
  {
    var next := CleanStep(rooted, stack, seg);
    WeightConcat(stack, [seg]);
    if |next| < |stack| {
      assert stack == next + [stack[|stack| - 1]];
      WeightConcat(next, [stack[|stack| - 1]]);
    }
  }

  lemma {:induction false} CleanSegmentsNormal(rooted: bool, stack: seq<string>, segs: seq<string>)
    requires Normal(rooted, stack) && forall x :: x in segs ==> '/' !in x
    ensures Normal(rooted, CleanSegments(rooted, stack, segs))
    ensures Weight(CleanSegments(rooted, stack, segs)) <= Weight(stack) + Weight(segs)
    ensures forall x :: x in CleanSegments(rooted, stack, segs) ==> x in stack || x in segs
    decreases |segs|
  {
    if segs != [] {
      CleanStepNormal(rooted, stack, segs[0]);
      CleanSegmentsNormal(rooted, CleanStep(rooted, stack, segs[0]), segs[1..]);
    }
  }

  /** Cleaning pushes every segment of an already clean list. */
  lemma {:induction false} CleanSegmentsKeeps(rooted: bool, stack: seq<string>, segs: seq<string>)
    requires Normal(rooted, stack + segs)
    ensures CleanSegments(rooted, stack, segs) == stack + segs
    decreases |segs|
  {
    if segs != [] {
      assert (stack + segs)[|stack|] == segs[0];
      assert segs[0] in stack + segs;
      if segs[0] == ".." && stack != [] {
        assert (stack + segs)[|stack| - 1] == "..";
      }
      assert stack + [segs[0]] + segs[1..] == stack + segs;
      CleanSegmentsKeeps(rooted, stack + [segs[0]], segs[1..]);
    }
  }

  lemma {:induction false} CleanSegmentsConcat(rooted: bool, stack: seq<string>, xs: seq<string>, ys: seq<string>)
    ensures CleanSegments(rooted, stack, xs + ys)
         == CleanSegments(rooted, CleanSegments(rooted, stack, xs), ys)
    decreases |xs|
  {
    if xs == [] {
      assert xs + ys == ys;
    } else {
      assert (xs + ys)[1..] == xs[1..] + ys;
      CleanSegmentsConcat(rooted, CleanStep(rooted, stack, xs[0]), xs[1..], ys);
    }
  }

  /** A cleaned path is no longer than its source and uses no new characters but dots and slashes. */
  lemma CleanShrinks(p: string)
    requires p != ""
    ensures |Clean(p)| <= |p|
    ensures forall c :: c in Clean(p) ==> c in p || c == '.' || c == '/'
  {
    var rooted := p[0] == '/';
    var stack := CleanSegments(rooted, [], Split(p));
    CleanSegmentsNormal(rooted, [], Split(p));
    JoinSplit(p);
    WeightIsLength(Split(p));
    if rooted {
      var rest := Split(p[1..]);
      assert Split(p)[1..] == rest;
      assert stack == CleanSegments(rooted, [], rest);
      CleanSegmentsNormal(rooted, [], rest);
      assert Weight(Split(p)) == 1 + Weight(rest);
    }
    if stack != [] {
      WeightIsLength(stack);
    }
    forall c | c in Join(stack) ensures c in p || c == '/' {
      JoinChars(stack, c);
      if c != '/' {
        var x :| x in stack && c in x;
        SplitChars(p, x, c);
      }
    }
  }

  // ----- NormalizeEventPath -----

  /** Backslashes become slashes, outer white space goes, and so does one leading slash. */
  function RelativePart(p: string): string {
    var slashed := TrimSpace(ReplaceChar(p, '\\', '/'));
    if "/" <= slashed then slashed[1..] else slashed
  }

  /** Empty paths and paths that leave the volume are refused. */
  function Confine(clean: string): Option<string> {
    if clean == "." || clean == "" || "../" <= clean || clean == ".." then None else Some(clean)
  }

  function NormalizeEventPath(p: string): Option<string> {
    Confine(Clean(RelativePart(p)))
  }

  /** A relative, already clean path without backslashes or outer white space. */
  ghost predicate Plain(p: string) {
    && p != ""
    && (forall x :: x in Split(p) ==> GoodSegment(x))
    && '\\' !in p
    && !IsSpace(p[0]) && !IsSpace(p[|p| - 1])
  }

  lemma CleanKeepsPlain(p: string)
    requires Plain(p)
    ensures p[0] != '/' && Clean(p) == p && Normal(false, Split(p))
  {
    var segs := Split(p);
    assert forall i :: 0 <= i < |segs| ==> segs[i] in segs;
    JoinSplit(p);
    assert Normal(false, [] + segs);
    CleanSegmentsKeeps(false, [], segs);
    assert [] + segs == segs;
  }

  lemma FirstSegment(x: string, rest: string)
    requires '/' !in x
    ensures Split(x + "/" + rest)[0] == x
  {
    SplitConcat(x, rest);
    SplitAtom(x);
  }

  /** A clean relative path holds a dot-dot exactly when it starts with one. */
  lemma DotDotLeads(stack: seq<string>)
    requires stack != [] && Normal(false, stack)
    ensures ".." in stack <==> Join(stack) == ".." || "../" <= Join(stack)
  {
    SplitJoin(stack);
    assert ".." in stack ==> stack[0] == "..";
    var p := Join(stack);
    if "../" <= p {
      assert p == ".." + "/" + p[3..];
      FirstSegment("..", p[3..]);
    } else if p == ".." {
      SplitAtom(p);
    }
  }

  lemma RelativePartIs(p: string)
    requires p != "" && '\\' !in p && !IsSpace(p[0]) && !IsSpace(p[|p| - 1])
    ensures RelativePart(p) == if p[0] == '/' then p[1..] else p
  {
    ReplaceCharKeeps(p, '\\', '/');
    TrimKeeps(p, IsSpace);
  }

  lemma RelativePartSlashed(x: string)
    requires x != "" && '\\' !in x && !IsSpace(x[|x| - 1])
    ensures RelativePart("/" + x) == x
  {
    var once := "/" + x;
    assert once[0] == '/' && once[|once| - 1] == x[|x| - 1] && once[1..] == x;
    RelativePartIs(once);
  }

  lemma RelativePartKeeps(p: string)
    requires Plain(p) && p[0] != '/'
    ensures RelativePart(p) == p && RelativePart("/" + p) == p && RelativePart("//" + p) == "/" + p
  {
    assert RelativePart(p) == p by {
      RelativePartIs(p);
    }
    RelativePartSlashed(p);
    SecondSlash(p, "/" + p);
  }

  lemma SecondSlash(p: string, once: string)
    requires p != "" && '\\' !in p && !IsSpace(p[|p| - 1]) && once == "/" + p
    ensures RelativePart("//" + p) == once
  {
    assert once[|once| - 1] == p[|p| - 1];
    RelativePartSlashed(once);
    assert "/" + once == "//" + p;
  }

  lemma ConfinesPlain(p: string)
    requires Plain(p)
    ensures Confine(p) == Some(p)
  {
    CleanKeepsPlain(p);
    JoinSplit(p);
    DotDotLeads(Split(p));
    SplitAtom(".");
    assert "." in ["."];
  }

  lemma PlainNormalizes(p: string)
    requires Plain(p)
    ensures NormalizeEventPath(p) == Some(p)
  {
    CleanKeepsPlain(p);
    RelativePartKeeps(p);
    ConfinesPlain(p);
  }

  lemma FixedIsPlain(p: string)
    requires NormalizeEventPath(p) == Some(p)
    ensures Plain(p)
  {
    var replaced := ReplaceChar(p, '\\', '/');
    var slashed := TrimSpace(replaced);
    var relative := RelativePart(p);
    TrimFacts(replaced, IsSpace);
    assert relative != "";
    CleanShrinks(relative);
    assert |relative| == |slashed| == |replaced|;
    assert slashed == replaced == relative;
    assert '\\' !in p;
    assert replaced == p;
    var stack := CleanSegments(false, [], Split(p));
    CleanSegmentsNormal(false, [], Split(p));
    assert p == Join(stack);
    SplitJoin(stack);
    DotDotLeads(stack);
  }

  /** Normalisation leaves a path alone exactly when the path is plain: other names (white space
      at an end, a backslash, a second leading slash) reach the agent as a different path. */
  lemma NormalizeFixesExactlyPlain(p: string)
    ensures NormalizeEventPath(p) == Some(p) <==> Plain(p)
  {
    if Plain(p) {
      PlainNormalizes(p);
    }
    if NormalizeEventPath(p) == Some(p) {
      FixedIsPlain(p);
    }
  }

  ghost predicate HasOuterSpace(s: string) { s != "" && (IsSpace(s[0]) || IsSpace(s[|s| - 1])) }

  lemma RelativeHasNoBackslash(p: string)
    ensures '\\' !in RelativePart(p)
  {
    var replaced := ReplaceChar(p, '\\', '/');
    TrimFacts(replaced, IsSpace);
    assert '\\' !in replaced;
  }

  /** A normalised path is plain unless a slash was left in front or white space shows at an end. */
  lemma NormalizedIsPlainIff(p: string)
    requires NormalizeEventPath(p).Some?
    ensures Plain(NormalizeEventPath(p).value) <==> !("/" <= RelativePart(p)) && !HasOuterSpace(Clean(RelativePart(p)))
  {
    var rel := RelativePart(p);
    var q := Clean(rel);
    RelativeHasNoBackslash(p);
    assert rel != "";
    CleanShrinks(rel);
    var rooted := rel[0] == '/';
    var stack := CleanSegments(rooted, [], Split(rel));
    CleanSegmentsNormal(rooted, [], Split(rel));
    if rooted {
      assert q == "/" + Join(stack) && q[0] == '/';
      assert Split(q)[0] == "";
      assert Split(q)[0] in Split(q);
    } else {
      assert q == Join(stack);
      SplitJoin(stack);
      DotDotLeads(stack);
    }
  }

  /** A second normalisation changes nothing exactly when the first left no slash in front and
      uncovered no white space at an end. */
  lemma NormalizeIdempotentIff(p: string)
    requires NormalizeEventPath(p).Some?
    ensures NormalizeEventPath(NormalizeEventPath(p).value) == NormalizeEventPath(p)
       <==> !("/" <= RelativePart(p)) && !HasOuterSpace(Clean(RelativePart(p)))
  {
    NormalizedIsPlainIff(p);
    NormalizeFixesExactlyPlain(NormalizeEventPath(p).value);
  }

  lemma CleanKeepsRooted(x: string)
    requires Plain(x)
    ensures Clean("/" + x) == "/" + x
  {
    var segs := Split(x);
    assert forall i :: 0 <= i < |segs| ==> segs[i] in segs;
    JoinSplit(x);
    assert Normal(true, [] + segs);
    CleanSegmentsKeeps(true, [], segs);
    assert [] + segs == segs;
    assert ("/" + x)[1..] == x;
    assert Split("/" + x)[1..] == segs;
  }

  lemma ConfinesRooted(x: string)
    requires x != ""
    ensures Confine("/" + x) == Some("/" + x)
  {
    assert ("/" + x)[0] == '/';
  }

  /** Only one of two leading slashes is removed, so normalisation is not idempotent. */
  lemma NormalizeNotIdempotent(x: string)
    requires Plain(x)
    ensures NormalizeEventPath("//" + x) == Some("/" + x)
    ensures NormalizeEventPath("/" + x) == Some(x)
  {
    var once, twice := "/" + x, "//" + x;
    CleanKeepsPlain(x);
    RelativePartKeeps(x);
    assert Clean(RelativePart(twice)) == once by {
      CleanKeepsRooted(x);
    }
    assert Confine(once) == Some(once) by {
      ConfinesRooted(x);
    }
    ConfinesPlain(x);
  }

  lemma {:induction false} TrimLeftSkips(left: string, s: string, cut: char -> bool)
    requires (forall c :: c in left ==> cut(c)) && s != "" && !cut(s[0])
    ensures TrimLeft(left + s, cut) == s
  {
    if left == "" {
      assert left + s == s;
    } else {
      assert left[0] in left && (left + s)[1..] == left[1..] + s;
      TrimLeftSkips(left[1..], s, cut);
    }
  }

  lemma {:induction false} TrimRightSkips(s: string, right: string, cut: char -> bool)
    requires (forall c :: c in right ==> cut(c)) && s != "" && !cut(s[|s| - 1])
    ensures TrimRight(s + right, cut) == s
  {
    if right == "" {
      assert s + right == s;
    } else {
      var n := |right| - 1;
      assert right[n] in right && (s + right)[..|s| + n] == s + right[..n];
      TrimRightSkips(s, right[..n], cut);
    }
  }

  /** Every spelling of a plain path comes out as that path: backslashes for slashes, white space around
      it, and one slash in front. */
  lemma NormalizeSpellings(p: string, spelled: string, left: string, right: string)
    requires Plain(p) && ReplaceChar(spelled, '\\', '/') == p
    requires (forall c :: c in left ==> IsSpace(c)) && (forall c :: c in right ==> IsSpace(c))
    ensures NormalizeEventPath(left + spelled + right) == Some(p)
    ensures NormalizeEventPath(left + ("/" + spelled) + right) == Some(p)
  {
    assert RelativePart(left + spelled + right) == p by {
      CleanKeepsPlain(p);
      SpelledRelative(p, spelled, left, right);
    }
    assert RelativePart(left + ("/" + spelled) + right) == p by {
      RootedRelative(p, spelled, left, right, "/");
    }
    assert Confine(Clean(p)) == Some(p) by {
      CleanKeepsPlain(p);
      ConfinesPlain(p);
    }
  }

  lemma RootedRelative(p: string, spelled: string, left: string, right: string, slash: string)
    requires p != "" && !IsSpace(p[|p| - 1]) && ReplaceChar(spelled, '\\', '/') == p && slash == "/"
    requires (forall c :: c in left ==> IsSpace(c)) && (forall c :: c in right ==> IsSpace(c))
    ensures RelativePart(left + (slash + spelled) + right) == p
  {
    ReplaceCharConcat(slash, spelled, '\\', '/');
    ReplaceCharKeeps(slash, '\\', '/');
    var rooted := slash + p;
    assert rooted[0] == '/' && rooted[|rooted| - 1] == p[|p| - 1] && rooted[1..] == p;
    SpelledRelative(rooted, slash + spelled, left, right);
  }

  lemma SpelledRelative(p: string, spelled: string, left: string, right: string)
    requires p != "" && !IsSpace(p[0]) && !IsSpace(p[|p| - 1]) && ReplaceChar(spelled, '\\', '/') == p
    requires (forall c :: c in left ==> IsSpace(c)) && (forall c :: c in right ==> IsSpace(c))
    ensures RelativePart(left + spelled + right) == if "/" <= p then p[1..] else p
  {
    assert '\\' !in left && '\\' !in right;
    ReplaceCharConcat(left + spelled, right, '\\', '/');
    ReplaceCharConcat(left, spelled, '\\', '/');
    ReplaceCharKeeps(left, '\\', '/');
    ReplaceCharKeeps(right, '\\', '/');
    var s := p + right;
    assert left + p + right == left + s && s[0] == p[0];
    TrimLeftSkips(left, s, IsSpace);
    TrimRightSkips(p, right, IsSpace);
  }

  /** A clean stack that starts with a dot-dot renders as it is. */
  lemma CleanKeepsStack(stack: seq<string>, p: string)
    requires stack != [] && Normal(false, stack) && p == Join(stack) && p != "" && p[0] != '/'
    ensures Clean(p) == p
  {
    SplitJoin(stack);
    assert [] + stack == stack;
    CleanSegmentsKeeps(false, [], stack);
  }

  lemma NormalAbove(segs: seq<string>, up: string)
    requires up == ".." && forall x :: x in segs ==> GoodSegment(x)
    ensures Normal(false, [up] + segs)
  {
    var stack := [up] + segs;
    assert '/' !in up && up != "" && up != ".";
    assert forall i :: 0 < i < |stack| ==> stack[i] == segs[i - 1] && segs[i - 1] in segs;
  }

  /** Paths that leave the volume are refused. */
  lemma NormalizeRefuses(x: string)
    requires Plain(x)
    ensures NormalizeEventPath("../" + x) == None
  {
    var up, path := "..", "../" + x;
    assert path == up + "/" + x && path[0] == '.' && path[|path| - 1] == x[|x| - 1];
    NormalAbove(Split(x), up);
    JoinSplit(x);
    assert Join([up]) == up;
    JoinConcat([up], Split(x));
    CleanKeepsStack([up] + Split(x), path);
    RelativePartIs(path);
  }

  /** So are those that name nothing but the volume itself or its parent. */
  lemma NormalizeRefusesRoots()
    ensures NormalizeEventPath("") == None && NormalizeEventPath("/") == None
    ensures NormalizeEventPath(".") == None && NormalizeEventPath("..") == None
  {
    EmptyRelative();
    RelativePartIs("/");
    assert "/"[1..] == "";
    OneDot(".");
    TwoDots("..");
  }

  lemma OneDot(p: string)
    requires p == "."
    ensures NormalizeEventPath(p) == None
  {
    SplitAtom(p);
    assert [p][1..] == [] && CleanStep(false, [], p) == [];
    assert CleanSegments(false, [], [p]) == CleanSegments(false, [], []) == [];
    RelativePartIs(p);
  }

  lemma TwoDots(p: string)
    requires p == ".."
    ensures NormalizeEventPath(p) == None
  {
    NormalAbove([], p);
    assert [p] + [] == [p] && Join([p]) == p;
    CleanKeepsStack([p], p);
    RelativePartIs(p);
  }

  lemma EmptyRelative()
    ensures RelativePart("") == ""
  {
    assert ReplaceChar("", '\\', '/') == "";
  }

  // ----- ancestors -----

  /** `p` is `root` itself or lies below it. */
  predicate AtOrBelow(root: string, p: string) {
    p == root || root + "/" <= p
  }

  predicate StrictlyBelow(root: string, p: string) {
    root + "/" <= p
  }

  lemma AtOrBelowTransitive(a: string, b: string, c: string)
    requires AtOrBelow(a, b) && AtOrBelow(b, c)
    ensures AtOrBelow(a, c)
  {}

  lemma AncestorsCompare(a: string, b: string, x: string)
    requires AtOrBelow(a, x) && AtOrBelow(b, x)
    ensures AtOrBelow(a, b) || AtOrBelow(b, a)
  {
    assert a == x[..|a|] && b == x[..|b|];
    if |a| < |b| {
      assert a + "/" == x[..|a| + 1] == b[..|a| + 1];
    } else if |b| < |a| {
      assert b + "/" == x[..|b| + 1] == a[..|b| + 1];
    }
  }

  /** An ancestor sorts before everything below it. */
  lemma AncestorSortsFirst(a: string, b: string)
    requires StrictlyBelow(a, b)
    ensures Less(a, b)
  {
    PrefixIsLess(a, b);
  }

  /** Every directory above a path. */
  function Ancestors(p: string): set<string> {
    set i | 0 <= i < |p| && p[i] == '/' :: p[..i]
  }

  lemma AncestorsAre(p: string, a: string)
    ensures a in Ancestors(p) <==> StrictlyBelow(a, p)
  {
    if StrictlyBelow(a, p) {
      assert p[|a|] == '/' && p[..|a|] == a;
    }
    if a in Ancestors(p) {
      var i :| 0 <= i < |p| && p[i] == '/' && a == p[..i];
      assert a + "/" == p[..i + 1];
    }
  }

  // ----- trees -----

  /** Both maps hold the same at `x`. */
  ghost predicate Same<T>(a: map<string, T>, b: map<string, T>, x: string) {
    (x in a <==> x in b) && (x in a ==> a[x] == b[x])
  }
}
