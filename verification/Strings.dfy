/** Byte-string helpers the Go standard library gives the source: splitting and joining at
    slashes, trimming, and the order used by sort.Strings. */
module Strings {

  datatype Option<+T> = None | Some(value: T)

  lemma UnionAssociative<K, V>(a: map<K, V>, b: map<K, V>, c: map<K, V>)
    ensures (a + b) + c == a + (b + c)
  {}

  /** unicode.IsSpace. */
  predicate IsSpace(c: char) {
    || '\t' <= c <= '\r' || c == ' ' || c == '\U{85}' || c == '\U{A0}' || c == '\U{1680}'
    || '\U{2000}' <= c <= '\U{200A}' || c == '\U{2028}' || c == '\U{2029}'
    || c == '\U{202F}' || c == '\U{205F}' || c == '\U{3000}'
  }

  // ----- trimming -----

  function TrimLeft(s: string, cut: char -> bool): string {
    if s != [] && cut(s[0]) then TrimLeft(s[1..], cut) else s
  }

  function TrimRight(s: string, cut: char -> bool): string {
    if s != [] && cut(s[|s| - 1]) then TrimRight(s[..|s| - 1], cut) else s
  }

  function Trim(s: string, cut: char -> bool): string {
    TrimRight(TrimLeft(s, cut), cut)
  }

  lemma {:induction false} TrimLeftFacts(s: string, cut: char -> bool)
    ensures var r := TrimLeft(s, cut);
            && |r| <= |s| && r == s[|s| - |r|..] && (r == [] || !cut(r[0]))
  {
    if s != [] && cut(s[0]) {
      TrimLeftFacts(s[1..], cut);
    }
  }

  lemma {:induction false} TrimRightFacts(s: string, cut: char -> bool)
    ensures var r := TrimRight(s, cut);
            && |r| <= |s| && r == s[..|r|] && (r == [] || !cut(r[|r| - 1]))
  {
    if s != [] && cut(s[|s| - 1]) {
      TrimRightFacts(s[..|s| - 1], cut);
    }
  }

  /** Trimming leaves a substring that has no cut character at either end. */
  lemma TrimFacts(s: string, cut: char -> bool)
    ensures var r := Trim(s, cut);
            && |r| <= |s| && (|r| == |s| ==> r == s)
            && (r == [] || (!cut(r[0]) && !cut(r[|r| - 1])))
            && (forall c :: c in r ==> c in s)
  {
    TrimLeftFacts(s, cut);
    TrimRightFacts(TrimLeft(s, cut), cut);
  }

  lemma TrimKeeps(s: string, cut: char -> bool)
    requires s == [] || (!cut(s[0]) && !cut(s[|s| - 1]))
    ensures Trim(s, cut) == s
  {}

  function TrimSpace(s: string): string { Trim(s, IsSpace) }

  function ReplaceChar(s: string, from: char, to: char): (r: string)
    ensures |r| == |s|
    ensures forall i :: 0 <= i < |s| ==> r[i] == if s[i] == from then to else s[i]
  {
    seq(|s|, i requires 0 <= i < |s| => if s[i] == from then to else s[i])
  }

  lemma ReplaceCharKeeps(s: string, from: char, to: char)
    requires from !in s
    ensures ReplaceChar(s, from, to) == s
  {}

  lemma ReplaceCharConcat(a: string, b: string, from: char, to: char)
    ensures ReplaceChar(a + b, from, to) == ReplaceChar(a, from, to) + ReplaceChar(b, from, to)
  {}

  // ----- slash-separated strings -----

  function Split(s: string): (r: seq<string>)
    ensures |r| >= 1
    ensures forall x :: x in r ==> '/' !in x
  {
    if s == [] then [[]]
    else if s[0] == '/' then [[]] + Split(s[1..])
    else
      var rest := Split(s[1..]);
      [[s[0]] + rest[0]] + rest[1..]
  }

  function Join(xs: seq<string>): string {
    if |xs| == 0 then ""
    else if |xs| == 1 then xs[0]
    else xs[0] + "/" + Join(xs[1..])
  }

  lemma {:induction false} JoinSplit(s: string)
    ensures Join(Split(s)) == s
  {
    if s != [] {
      JoinSplit(s[1..]);
      var rest := Split(s[1..]);
      if s[0] == '/' {
        assert Split(s)[1..] == rest;
        assert Join(Split(s)) == [] + "/" + Join(rest) == ['/'] + s[1..] == s;
      } else {
        var first := [s[0]] + rest[0];
        assert Split(s)[0] == first && Split(s)[1..] == rest[1..];
        if |rest| > 1 {
          assert Join(Split(s)) == first + "/" + Join(rest[1..]);
          assert Join(rest) == rest[0] + "/" + Join(rest[1..]);
        }
        assert Join(Split(s)) == [s[0]] + Join(rest) == s;
      }
    }
  }

  lemma {:induction false} SplitConcat(a: string, b: string)
    ensures Split(a + "/" + b) == Split(a) + Split(b)
  {
    var s := a + "/" + b;
    if a == [] {
      assert s[1..] == b;
    } else {
      assert s[1..] == a[1..] + "/" + b;
      SplitConcat(a[1..], b);
    }
  }

  lemma SplitAtom(x: string)
    requires '/' !in x
    ensures Split(x) == [x]
  {
    if x != [] {
      SplitAtom(x[1..]);
      assert [x[0]] + x[1..] == x;
    }
  }

  lemma {:induction false} SplitJoin(xs: seq<string>)
    requires xs != [] && forall x :: x in xs ==> '/' !in x
    ensures Split(Join(xs)) == xs
  {
    SplitAtom(xs[0]);
    if |xs| > 1 {
      SplitJoin(xs[1..]);
      SplitConcat(xs[0], Join(xs[1..]));
      assert xs == [xs[0]] + xs[1..];
    }
  }

  lemma {:induction false} JoinConcat(xs: seq<string>, ys: seq<string>)
    requires xs != [] && ys != []
    ensures Join(xs + ys) == Join(xs) + "/" + Join(ys)
  {
    assert (xs + ys)[1..] == xs[1..] + ys;
    if |xs| > 1 {
      JoinConcat(xs[1..], ys);
    } else {
      assert xs[1..] + ys == ys;
    }
  }

  /** The number of bytes `Join` needs for a list, counting one slash after each element. */
  function Weight(xs: seq<string>): nat {
    if xs == [] then 0 else |xs[0]| + 1 + Weight(xs[1..])
  }

  lemma {:induction false} WeightConcat(xs: seq<string>, ys: seq<string>)
    ensures Weight(xs + ys) == Weight(xs) + Weight(ys)
  {
    if xs == [] {
      assert xs + ys == ys;
    } else {
      assert (xs + ys)[1..] == xs[1..] + ys;
      WeightConcat(xs[1..], ys);
    }
  }

  lemma {:induction false} WeightIsLength(xs: seq<string>)
    requires xs != []
    ensures Weight(xs) == |Join(xs)| + 1
  {
    if |xs| > 1 {
      WeightIsLength(xs[1..]);
    }
  }

  lemma {:induction false} JoinChars(xs: seq<string>, c: char)
    requires c in Join(xs)
    ensures c == '/' || exists x :: x in xs && c in x
  {
    if |xs| > 1 && c !in xs[0] && c != '/' {
      JoinChars(xs[1..], c);
    }
  }

  lemma {:induction false} SplitChars(s: string, x: string, c: char)
    requires x in Split(s) && c in x
    ensures c in s
  {
    if s != [] {
      var rest := Split(s[1..]);
      if s[0] == '/' {
        SplitChars(s[1..], x, c);
      } else if x == Split(s)[0] {
        if c != s[0] {
          SplitChars(s[1..], rest[0], c);
        }
      } else {
        SplitChars(s[1..], x, c);
      }
    }
  }

  // ----- the order of sort.Strings -----

  predicate Less(a: string, b: string) {
    b != [] && (a == [] || a[0] < b[0] || (a[0] == b[0] && Less(a[1..], b[1..])))
  }

  lemma {:induction false} LessTotal(a: string, b: string)
    ensures a == b || Less(a, b) || Less(b, a)
    ensures !(Less(a, b) && Less(b, a)) && !(Less(a, b) && a == b)
  {
    if a != [] && b != [] && a[0] == b[0] {
      LessTotal(a[1..], b[1..]);
      assert a == [a[0]] + a[1..] && b == [b[0]] + b[1..];
    }
  }

  lemma {:induction false} LessTransitive(a: string, b: string, c: string)
    requires Less(a, b) && Less(b, c)
    ensures Less(a, c)
  {
    if a != [] && a[0] == b[0] == c[0] {
      LessTransitive(a[1..], b[1..], c[1..]);
    }
  }

  lemma {:induction false} PrefixIsLess(a: string, b: string)
    requires a < b
    ensures Less(a, b)
  {
    if a != [] {
      assert a[1..] < b[1..];
      PrefixIsLess(a[1..], b[1..]);
    }
  }

  ghost predicate StrictlySorted(xs: seq<string>) {
    forall i, j :: 0 <= i < j < |xs| ==> Less(xs[i], xs[j])
  }
}
