/** Option, used wherever the wizard may have "nothing" (no highlighted option, an absent file). */
module Wrappers {
  datatype Option<+T> = None | Some(value: T)
}

/**
 * The few Python string operations the wizard relies on, each with the meaning
 * CPython gives it: `str.isspace`, `strip`, `split()`, `split(c)[0]`, `lower`,
 * the substring test `in`, `replace(pat, "")`, `sep.join` and `split(sep)`.
 */
module Text {

  /** `c.isspace()`: the characters CPython treats as whitespace. */
  predicate IsSpace(c: char) {
    || c == ' '
    || ('\t' <= c <= '\r')
    || ('\U{1C}' <= c <= '\U{1F}')
    || c == '\U{85}' || c == '\U{A0}' || c == '\U{1680}'
    || ('\U{2000}' <= c <= '\U{200A}')
    || c == '\U{2028}' || c == '\U{2029}' || c == '\U{202F}' || c == '\U{205F}' || c == '\U{3000}'
  }

  predicate AllSpace(s: string) {
    forall k :: 0 <= k < |s| ==> IsSpace(s[k])
  }

  predicate NoSpace(s: string) {
    forall k :: 0 <= k < |s| ==> !IsSpace(s[k])
  }

  predicate IsPrefix(p: string, s: string) {
    |p| <= |s| && s[..|p|] == p
  }

  /** The number of whitespace characters `s` starts with. */
  function LeadingSpace(s: string): (n: nat)
    ensures n <= |s|
    ensures forall k :: 0 <= k < n ==> IsSpace(s[k])
    ensures n == |s| || !IsSpace(s[n])
  {
    if s != [] && IsSpace(s[0]) then 1 + LeadingSpace(s[1..]) else 0
  }

  /** The number of whitespace characters `s` ends with. */
  function TrailingSpace(s: string): (n: nat)
    ensures n <= |s|
    ensures forall k :: |s| - n <= k < |s| ==> IsSpace(s[k])
    ensures n == |s| || !IsSpace(s[|s| - 1 - n])
  {
    if s != [] && IsSpace(s[|s| - 1]) then 1 + TrailingSpace(s[..|s| - 1]) else 0
  }

  /** `s.lstrip()`: what is left after dropping the leading whitespace. */
  function LStrip(s: string): (r: string)
    ensures r == [] <==> AllSpace(s)
  {
    s[LeadingSpace(s)..]
  }

  /** `s.rstrip()`: what is left after dropping the trailing whitespace. */
  function RStrip(s: string): string {
    s[..|s| - TrailingSpace(s)]
  }

  /** `s.strip()`: no whitespace at either end, empty exactly when `s` is all whitespace. */
  function Strip(s: string): (r: string)
    ensures r == [] || (!IsSpace(r[0]) && !IsSpace(r[|r| - 1]))
    ensures r == [] <==> AllSpace(s)
    ensures |s| > 0 && !IsSpace(s[0]) ==> r != [] && r[0] == s[0]
  {
    var t := LStrip(s);
    var r := RStrip(t);
    assert r != [] ==> r[0] == t[0];
    r
  }

  /** What `Strip` drops is whitespace padding on either side of what it keeps. */
  lemma StripParts(s: string) returns (a: string, b: string)
    ensures s == a + Strip(s) + b && AllSpace(a) && AllSpace(b)
  {
    var t := LStrip(s);
    var r := Strip(s);
    a, b := s[..LeadingSpace(s)], t[|r|..];
    SpacePrefix(s, LeadingSpace(s));
    SpaceSuffix(t, |r|);
    assert s == a + t;
  }

  lemma SpacePrefix(s: string, n: nat)
    requires n <= |s| && forall k :: 0 <= k < n ==> IsSpace(s[k])
    ensures AllSpace(s[..n])
  {
    assert forall k :: 0 <= k < n ==> s[..n][k] == s[k];
  }

  lemma SpaceSuffix(s: string, n: nat)
    requires n <= |s| && forall k :: n <= k < |s| ==> IsSpace(s[k])
    ensures AllSpace(s[n..])
  {
    assert forall k :: 0 <= k < |s| - n ==> s[n..][k] == s[n + k];
  }

  /** Whitespace followed by a non-space at the end of `y` ends with exactly that whitespace. */
  lemma TrailingSpaceOfGap(y: string, b: string)
    requires AllSpace(b) && y != [] && !IsSpace(y[|y| - 1])
    ensures TrailingSpace(y + b) == |b|
  {
    var s := y + b;
    assert forall k :: 0 <= k < |b| ==> s[|y| + k] == b[k];
    assert s[|y| - 1] == y[|y| - 1];
  }

  /** Trailing whitespace stops at the last non-space of `y`. */
  lemma RStripAfter(y: string, c: string)
    requires y != [] && !IsSpace(y[|y| - 1])
    ensures TrailingSpace(y + c) <= |c|
    ensures RStrip(y + c) == y + c[..|c| - TrailingSpace(y + c)]
  {
    var s := y + c;
    var n := TrailingSpace(s);
    assert s[|y| - 1] == y[|y| - 1];
    assert n <= |c|;
    assert s[..|s| - n] == y + c[..|c| - n];
  }

  /** Stripping whitespace padding gives back a text that has none at either end. */
  lemma StripPadded(a: string, x: string, b: string)
    requires AllSpace(a) && AllSpace(b)
    requires x != [] && !IsSpace(x[0]) && !IsSpace(x[|x| - 1])
    ensures Strip(a + x + b) == x
  {
    assert a + x + b == a + (x + b);
    LeadingSpaceOfGap(a, x + b);
    assert LStrip(a + x + b) == x + b;
    TrailingSpaceOfGap(x, b);
    assert (x + b)[..|x|] == x;
  }

  /** The longest prefix of `s` that holds no whitespace. */
  function Word(s: string): (w: string)
    ensures |w| <= |s| && w == s[..|w|] && NoSpace(w)
    ensures |w| == |s| || IsSpace(s[|w|])
  {
    if s == [] || IsSpace(s[0]) then [] else [s[0]] + Word(s[1..])
  }

  /** Every piece is a non-empty run without whitespace. */
  predicate AreWords(r: seq<string>) {
    forall i :: 0 <= i < |r| ==> r[i] != [] && NoSpace(r[i])
  }

  /** `s.split()`: the maximal whitespace-free runs of `s`, in order. */
  function Split(s: string): (r: seq<string>)
    ensures AreWords(r)
    ensures r == [] <==> AllSpace(s)
    decreases |s|
  {
    var t := LStrip(s);
    if t == [] then []
    else
      var w := Word(t);
      var rest := Split(t[|w|..]);
      WordsCons(w, rest);
      [w] + rest
  }

  lemma WordsCons(w: string, rest: seq<string>)
    requires w != [] && NoSpace(w) && AreWords(rest)
    ensures AreWords([w] + rest)
  {
    forall i | 0 < i < |[w] + rest|
      ensures ([w] + rest)[i] == rest[i - 1]
    {
    }
  }

  /** `gaps[0] + words[0] + gaps[1] + ... + words[n - 1] + gaps[n]`. */
  function Interleave(gaps: seq<string>, words: seq<string>): string
    requires |gaps| == |words| + 1
    decreases |words|
  {
    if words == [] then gaps[0] else gaps[0] + words[0] + Interleave(gaps[1..], words[1..])
  }

  /** Whitespace runs that separate words: any run at either end, a non-empty run between two words. */
  predicate Separates(gaps: seq<string>, words: seq<string>) {
    && |gaps| == |words| + 1
    && (forall i :: 0 <= i < |gaps| ==> AllSpace(gaps[i]))
    && (forall i :: 0 < i < |words| ==> gaps[i] != [])
  }

  /** A run of whitespace followed by a non-space starts with exactly that run. */
  lemma LeadingSpaceOfGap(a: string, x: string)
    requires AllSpace(a) && x != [] && !IsSpace(x[0])
    ensures LeadingSpace(a + x) == |a|
  {
    var s := a + x;
    assert forall k :: 0 <= k < |a| ==> s[k] == a[k];
    assert s[|a|] == x[0];
  }

  /** A whitespace-free word followed by nothing or by whitespace is the first word. */
  lemma WordBeforeGap(w: string, rest: string)
    requires NoSpace(w) && (rest == [] || IsSpace(rest[0]))
    ensures Word(w + rest) == w
  {
    var s := w + rest;
    assert forall k :: 0 <= k < |w| ==> s[k] == w[k];
    assert |w| < |s| ==> s[|w|] == rest[0];
  }

  lemma InterleaveCons(g: string, w: string, gaps: seq<string>, words: seq<string>)
    requires |gaps| == |words| + 1
    ensures Interleave([g] + gaps, [w] + words) == g + w + Interleave(gaps, words)
  {
    assert ([g] + gaps)[1..] == gaps && ([w] + words)[1..] == words;
  }

  lemma SeparatesCons(g: string, w: string, gaps: seq<string>, words: seq<string>)
    requires AllSpace(g) && Separates(gaps, words) && (words != [] ==> gaps[0] != [])
    ensures Separates([g] + gaps, [w] + words)
  {
    assert forall i :: 0 < i < |[g] + gaps| ==> ([g] + gaps)[i] == gaps[i - 1];
  }

  lemma SeparatesTail(gaps: seq<string>, words: seq<string>)
    requires words != [] && AreWords(words) && Separates(gaps, words)
    ensures AreWords(words[1..]) && Separates(gaps[1..], words[1..])
    ensures |words| > 1 ==> gaps[1] != []
  {
    assert forall i :: 0 <= i < |words| - 1 ==> words[1..][i] == words[i + 1];
    assert forall i :: 0 <= i < |gaps| - 1 ==> gaps[1..][i] == gaps[i + 1];
  }

  /** `s` is the words of `Split(s)` separated by whitespace runs. */
  lemma {:induction false} SplitGaps(s: string) returns (gaps: seq<string>)
    ensures Separates(gaps, Split(s)) && s == Interleave(gaps, Split(s))
    ensures gaps[0] == s[..LeadingSpace(s)]
    decreases |s|, 1
  {
    if LStrip(s) == [] {
      BlankGaps(s);
      gaps := [s];
    } else {
      gaps := WordGaps(s);
    }
  }

  /** `SplitGaps` for a string that holds a word. */
  lemma {:induction false} WordGaps(s: string) returns (gaps: seq<string>)
    requires LStrip(s) != []
    ensures Separates(gaps, Split(s)) && s == Interleave(gaps, Split(s))
    ensures gaps[0] == s[..LeadingSpace(s)]
    decreases |s|, 0
  {
    var g := s[..LeadingSpace(s)];
    var w, u := Word(LStrip(s)), AfterFirstWord(s);
    SplitFront(s);
    FrontParts(s);
    RestStartsWithSpace(s);
    var more := SplitGaps(u);
    if Split(u) != [] {
      assert LeadingSpace(u) > 0;
    }
    GapsCons(s, g, w, u, more);
    gaps := [g] + more;
  }

  /** What follows the first word of `s`. */
  function AfterFirstWord(s: string): string {
    LStrip(s)[|Word(LStrip(s))|..]
  }

  lemma SplitFront(s: string)
    requires LStrip(s) != []
    ensures Split(s) == [Word(LStrip(s))] + Split(AfterFirstWord(s))
    ensures |AfterFirstWord(s)| < |s|
  {
    var t := LStrip(s);
    assert t[0] == s[LeadingSpace(s)];
  }

  lemma FrontParts(s: string)
    ensures AllSpace(s[..LeadingSpace(s)])
    ensures s == s[..LeadingSpace(s)] + Word(LStrip(s)) + AfterFirstWord(s)
  {
    var n := LeadingSpace(s);
    var t := s[n..];
    assert LStrip(s) == t;
    var w := Word(t);
    var u := t[|w|..];
    assert AfterFirstWord(s) == u;
    assert t == w + u;
    assert s == s[..n] + t;
    SpacePrefix(s, n);
  }

  lemma RestStartsWithSpace(s: string)
    ensures AfterFirstWord(s) != [] ==> IsSpace(AfterFirstWord(s)[0])
  {
    var t := LStrip(s);
    assert AfterFirstWord(s) != [] ==> AfterFirstWord(s)[0] == t[|Word(t)|];
  }

  /** A blank string has no words and is its own leading run. */
  lemma BlankGaps(s: string)
    requires LStrip(s) == []
    ensures Split(s) == [] && s[..LeadingSpace(s)] == s
  {
  }

  /** The step of `SplitGaps`: a leading run and a first word in front of the rest's runs. */
  lemma GapsCons(s: string, g: string, w: string, u: string, more: seq<string>)
    requires AllSpace(g) && s == g + w + u && Split(s) == [w] + Split(u)
    requires Separates(more, Split(u)) && u == Interleave(more, Split(u))
    requires Split(u) != [] ==> more[0] != []
    ensures Separates([g] + more, Split(s)) && s == Interleave([g] + more, Split(s))
  {
    SeparatesCons(g, w, more, Split(u));
    InterleaveCons(g, w, more, Split(u));
  }

  /** Any way of writing `s` as words separated by whitespace runs gives the words of `Split(s)`. */
  lemma {:induction false} SplitUnique(s: string, gaps: seq<string>, words: seq<string>)
    requires AreWords(words) && Separates(gaps, words) && s == Interleave(gaps, words)
    ensures Split(s) == words
    decreases |words|
  {
    if words != [] {
      SeparatesTail(gaps, words);
      UniqueStep(s, gaps, words);
      SplitFront(s);
      SplitUnique(AfterFirstWord(s), gaps[1..], words[1..]);
      assert words == [words[0]] + words[1..];
    }
  }

  /** The first word of words separated by whitespace runs is the first of those words. */
  lemma UniqueStep(s: string, gaps: seq<string>, words: seq<string>)
    requires words != [] && AreWords(words) && Separates(gaps, words) && s == Interleave(gaps, words)
    ensures LStrip(s) != [] && Word(LStrip(s)) == words[0]
    ensures AfterFirstWord(s) == Interleave(gaps[1..], words[1..])
  {
    var rest := Interleave(gaps[1..], words[1..]);
    SeparatesTail(gaps, words);
    assert s == gaps[0] + (words[0] + rest);
    LeadingSpaceOfGap(gaps[0], words[0] + rest);
    assert LStrip(s) == words[0] + rest;
    if |words| == 1 {
      assert rest == gaps[1];
    } else {
      assert rest == gaps[1] + words[1] + Interleave(gaps[2..], words[2..]);
    }
    WordBeforeGap(words[0], rest);
    assert (words[0] + rest)[|words[0]|..] == rest;
  }

  /** `c.lower()` for the ASCII letters. */
  function LowerChar(c: char): char {
    if 'A' <= c <= 'Z' then (c as int + 32) as char else c
  }

  /** `s.lower()`, letter by letter. */
  function Lower(s: string): (r: string)
    ensures |r| == |s|
  {
    seq(|s|, k requires 0 <= k < |s| => LowerChar(s[k]))
  }

  /** Each character of `s.lower()` is the lower-case form of the one at the same place. */
  lemma LowerPointwise(s: string)
    ensures forall k :: 0 <= k < |s| ==> Lower(s)[k] == LowerChar(s[k])
  {
  }

  /** A string without upper-case ASCII letters is its own lower-case form. */
  lemma LowerIdentity(s: string)
    requires forall k :: 0 <= k < |s| ==> !('A' <= s[k] <= 'Z')
    ensures Lower(s) == s
  {
  }

  /** `needle in hay`: some position of `hay` starts a copy of `needle`. */
  predicate Contains(hay: string, needle: string)
    decreases |hay|
  {
    IsPrefix(needle, hay) || (hay != [] && Contains(hay[1..], needle))
  }

  /** `needle` starts at position `i` of `hay`. */
  predicate OccursAt(hay: string, needle: string, i: int) {
    0 <= i && i + |needle| <= |hay| && hay[i..i + |needle|] == needle
  }

  /** `Contains` is the positional definition of a substring. */
  lemma {:induction false} ContainsIff(hay: string, needle: string)
    ensures Contains(hay, needle) <==> exists i :: OccursAt(hay, needle, i)
    decreases |hay|
  {
    if IsPrefix(needle, hay) {
      assert OccursAt(hay, needle, 0);
    } else if hay == [] {
    } else {
      ContainsIff(hay[1..], needle);
      if exists i :: OccursAt(hay, needle, i) {
        var i :| OccursAt(hay, needle, i);
        if i != 0 {
          assert hay[1..][i - 1..i - 1 + |needle|] == needle;
          assert OccursAt(hay[1..], needle, i - 1);
        }
      }
      if Contains(hay[1..], needle) {
        var j :| OccursAt(hay[1..], needle, j);
        assert hay[j + 1..j + 1 + |needle|] == needle;
        assert OccursAt(hay, needle, j + 1);
      }
    }
  }

  /** A piece cut out of a text is contained in it. */
  lemma ContainsPiece(hay: string, a: string, x: string, b: string)
    requires hay == a + x + b
    ensures Contains(hay, x)
  {
    assert hay[|a|..|a| + |x|] == x;
    assert OccursAt(hay, x, |a|);
    ContainsIff(hay, x);
  }

  /** Containment is transitive. */
  lemma ContainsTrans(hay: string, mid: string, needle: string)
    requires Contains(hay, mid) && Contains(mid, needle)
    ensures Contains(hay, needle)
  {
    ContainsIff(hay, mid);
    ContainsIff(mid, needle);
    var i :| OccursAt(hay, mid, i);
    var j :| OccursAt(mid, needle, j);
    assert forall k | j <= k < j + |needle| :: mid[k] == hay[i + k];
    assert hay[i + j..i + j + |needle|] == mid[j..j + |needle|];
    assert OccursAt(hay, needle, i + j);
    ContainsIff(hay, needle);
  }

  /** `s.split(c)[0]`: everything before the first `c`. */
  function Before(s: string, c: char): (r: string)
    ensures |r| <= |s| && r == s[..|r|] && c !in r
    ensures |r| == |s| || s[|r|] == c
  {
    if s == [] || s[0] == c then [] else [s[0]] + Before(s[1..], c)
  }

  /** `s.replace(pat, "")`: drop every occurrence of `pat`, scanning left to right. */
  function RemoveAll(s: string, pat: string): (r: string)
    requires pat != []
    ensures |r| <= |s|
    decreases |s|
  {
    if s == [] then []
    else if IsPrefix(pat, s) then RemoveAll(s[|pat|..], pat)
    else [s[0]] + RemoveAll(s[1..], pat)
  }

  /** Without an occurrence of `pat` there is nothing to remove. */
  lemma {:induction false} RemoveAllAbsent(s: string, pat: string)
    requires pat != [] && !Contains(s, pat)
    ensures RemoveAll(s, pat) == s
    decreases |s|
  {
    if s != [] {
      RemoveAllAbsent(s[1..], pat);
    }
  }

  /** With an occurrence of `pat` the result is strictly shorter. */
  lemma {:induction false} RemoveAllShrinks(s: string, pat: string)
    requires pat != [] && Contains(s, pat)
    ensures |RemoveAll(s, pat)| < |s|
    decreases |s|
  {
    if !IsPrefix(pat, s) {
      RemoveAllShrinks(s[1..], pat);
    }
  }

  /**
   * Prefixing `x` with `pat` and then removing `pat` gives `x` back exactly
   * when `x` itself holds no copy of `pat`.
   */
  lemma RemovePrefixRoundTrip(pat: string, x: string)
    requires pat != []
    ensures RemoveAll(pat + x, pat) == x <==> !Contains(x, pat)
  {
    assert IsPrefix(pat, pat + x);
    assert (pat + x)[|pat|..] == x;
    assert RemoveAll(pat + x, pat) == RemoveAll(x, pat);
    if Contains(x, pat) {
      RemoveAllShrinks(x, pat);
    } else {
      RemoveAllAbsent(x, pat);
    }
  }

  /** `sep.join(xs)`. */
  function Join(xs: seq<string>, sep: string): (r: string)
    ensures xs == [] ==> r == []
    ensures |xs| == 1 ==> r == xs[0]
  {
    if xs == [] then []
    else if |xs| == 1 then xs[0]
    else xs[0] + sep + Join(xs[1..], sep)
  }

  /** `s.split(c)`: the pieces between the copies of `c`; never empty. */
  function SplitOn(s: string, c: char): (r: seq<string>)
    ensures |r| >= 1
    ensures forall i :: 0 <= i < |r| ==> c !in r[i]
    decreases |s|
  {
    var head := Before(s, c);
    if |head| == |s| then [s] else [head] + SplitOn(s[|head| + 1..], c)
  }

  /** Splitting a join on its separator recovers the pieces, if none holds the separator. */
  lemma {:induction false} SplitOnJoin(xs: seq<string>, c: char)
    requires xs != []
    requires forall i :: 0 <= i < |xs| ==> c !in xs[i]
    ensures SplitOn(Join(xs, [c]), c) == xs
    decreases |xs|
  {
    if |xs| == 1 {
      assert Before(xs[0], c) == xs[0] by { BeforeAbsent(xs[0], c); }
    } else {
      var s := Join(xs, [c]);
      assert s == xs[0] + [c] + Join(xs[1..], [c]);
      BeforeStops(xs[0], c, Join(xs[1..], [c]));
      assert s[|xs[0]| + 1..] == Join(xs[1..], [c]);
      SplitOnJoin(xs[1..], c);
    }
  }

  lemma {:induction false} BeforeAbsent(s: string, c: char)
    requires c !in s
    ensures Before(s, c) == s
  {
    if s != [] {
      BeforeAbsent(s[1..], c);
    }
  }

  lemma {:induction false} BeforeStops(s: string, c: char, rest: string)
    requires c !in s
    ensures Before(s + [c] + rest, c) == s
  {
    if s != [] {
      assert (s + [c] + rest)[1..] == s[1..] + [c] + rest;
      BeforeStops(s[1..], c, rest);
    }
  }
}
