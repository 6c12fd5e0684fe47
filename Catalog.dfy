/**
 * The catalog search behind the operator search screen: every line of every
 * catalog index file names one operator by its first whitespace-separated
 * token, and a query selects the tokens that hold all of its terms.
 * An index file is given as its sequence of lines; an unreadable file is an
 * empty sequence.
 */
module Catalog {
  import opened Text

  /**
   * `query.lower().split()`: the words of the lower-cased query (what
   * `SplitGaps` and `SplitUnique` say `Split` gives), empty exactly for a
   * blank query.
   */
  function Terms(query: string): (r: seq<string>)
    ensures r == Split(Lower(query))
    ensures AreWords(r)
    ensures r == [] <==> AllSpace(query)
  {
    var low := Lower(query);
    assert forall k :: 0 <= k < |query| ==> low[k] == LowerChar(query[k]);
    assert AllSpace(low) <==> AllSpace(query);
    Split(low)
  }

  /** `line.split()[0] if line.strip() else ""`: the identifier an index line names. */
  function FirstToken(line: string): string {
    if Strip(line) != [] then Split(line)[0] else ""
  }

  /**
   * The identifier of a line is the run of non-whitespace that follows its
   * leading whitespace; it is empty exactly for a blank line.
   */
  lemma {:induction false} FirstTokenIsFirstWord(line: string)
    ensures FirstToken(line) == Word(LStrip(line))
    ensures NoSpace(FirstToken(line))
    ensures FirstToken(line) == [] <==> AllSpace(line)
  {
    var t := LStrip(line);
    if !AllSpace(line) {
      assert t != [];
      assert line[|line| - |t|] == t[0];
      assert Split(line) == [Word(t)] + Split(t[|Word(t)|..]);
    }
  }

  /** `all(term in token.lower() for term in terms)`. */
  predicate Matches(terms: seq<string>, token: string) {
    forall i :: 0 <= i < |terms| ==> Contains(Lower(token), terms[i])
  }

  /** The identifier each line of one index file names. */
  function Tokens(lines: seq<string>): (r: seq<string>)
    ensures |r| == |lines|
    ensures forall l :: 0 <= l < |lines| ==> r[l] == FirstToken(lines[l])
  {
    seq(|lines|, l requires 0 <= l < |lines| => FirstToken(lines[l]))
  }

  /** The matching identifiers among `tokens`, taken in order. */
  function Selected(terms: seq<string>, tokens: seq<string>): set<string>
    decreases |tokens|
  {
    if tokens == [] then {}
    else
      var t := tokens[|tokens| - 1];
      Selected(terms, tokens[..|tokens| - 1]) + (if Matches(terms, t) then {t} else {})
  }

  /** The matching identifiers of all index files, file by file. */
  function IndexMatches(terms: seq<string>, files: seq<seq<string>>): set<string>
    decreases |files|
  {
    if files == [] then {}
    else IndexMatches(terms, files[..|files| - 1]) + Selected(terms, Tokens(files[|files| - 1]))
  }

  /** Line `l` of file `f` names `t`. */
  predicate Names(files: seq<seq<string>>, f: int, l: int, t: string) {
    0 <= f < |files| && 0 <= l < |files[f]| && Tokens(files[f])[l] == t
  }

  lemma {:induction false} SelectedIff(terms: seq<string>, tokens: seq<string>, t: string)
    ensures t in Selected(terms, tokens) <==> Matches(terms, t) && t in tokens
    decreases |tokens|
  {
    if tokens != [] {
      var init := tokens[..|tokens| - 1];
      SelectedIff(terms, init, t);
      assert tokens == init + [tokens[|tokens| - 1]];
    }
  }

  /**
   * The search result is exactly the set of identifiers named by some line of
   * some index file and holding every term.
   */
  lemma {:induction false} IndexMatchesIff(terms: seq<string>, files: seq<seq<string>>, t: string)
    ensures t in IndexMatches(terms, files) <==>
      Matches(terms, t) && exists f, l :: Names(files, f, l, t)
    decreases |files|
  {
    if files != [] {
      var init, last := files[..|files| - 1], files[|files| - 1];
      assert files == init + [last];
      IndexMatchesIff(terms, init, t);
      SelectedIff(terms, Tokens(last), t);
      NamedByInitOrLast(init, last, t);
    }
  }

  /** A name comes from one of the earlier files or from the last one. */
  lemma NamedByInitOrLast(init: seq<seq<string>>, last: seq<string>, t: string)
    ensures (exists f, l :: Names(init + [last], f, l, t)) <==>
      (exists f, l :: Names(init, f, l, t)) || t in Tokens(last)
  {
    var files := init + [last];
    if exists f, l :: Names(files, f, l, t) {
      var f, l :| Names(files, f, l, t);
      if f < |init| {
        assert files[f] == init[f];
        assert Names(init, f, l, t);
      } else {
        assert Tokens(last)[l] == t;
      }
    }
    if exists f, l :: Names(init, f, l, t) {
      var f, l :| Names(init, f, l, t);
      assert files[f] == init[f];
      assert Names(files, f, l, t);
    }
    if t in Tokens(last) {
      var l :| 0 <= l < |last| && Tokens(last)[l] == t;
      assert Names(files, |init|, l, t);
    }
  }

  /** `perform_search`'s scan of the index files (the loop over files and lines). */
  method SearchIndex(terms: seq<string>, files: seq<seq<string>>) returns (found: set<string>)
    ensures found == IndexMatches(terms, files)
  {
    found := {};
    var f := 0;
    while f < |files|
      invariant 0 <= f <= |files|
      invariant found == IndexMatches(terms, files[..f])
    {
      var lines := files[f];
      ghost var tokens := Tokens(lines);
      ghost var before := found;
      var l := 0;
      while l < |lines|
        invariant 0 <= l <= |lines|
        invariant found == before + Selected(terms, tokens[..l])
      {
        var token := FirstToken(lines[l]);
        SelectedStep(terms, tokens, l);
        if Matches(terms, token) {
          found := found + {token};
        }
        l := l + 1;
      }
      assert tokens[..l] == tokens;
      IndexMatchesStep(terms, files, f);
      f := f + 1;
    }
    assert files[..f] == files;
  }

  /** Selecting one more identifier adds it exactly when it matches. */
  lemma SelectedStep(terms: seq<string>, tokens: seq<string>, l: int)
    requires 0 <= l < |tokens|
    ensures Selected(terms, tokens[..l + 1]) ==
      Selected(terms, tokens[..l]) + (if Matches(terms, tokens[l]) then {tokens[l]} else {})
  {
    assert tokens[..l + 1][..l] == tokens[..l];
  }

  /** Scanning one more file adds its selection. */
  lemma IndexMatchesStep(terms: seq<string>, files: seq<seq<string>>, f: int)
    requires 0 <= f < |files|
    ensures IndexMatches(terms, files[..f + 1]) ==
      IndexMatches(terms, files[..f]) + Selected(terms, Tokens(files[f]))
  {
    assert files[..f + 1][..f] == files[..f];
  }

  /**
   * A blank query has no terms, so every identifier matches, and a blank
   * index line contributes the empty identifier.
   */
  lemma {:induction false} BlankQueryMatchesEveryLine(query: string, files: seq<seq<string>>, t: string)
    requires AllSpace(query)
    ensures Terms(query) == []
    ensures t in IndexMatches(Terms(query), files) <==> exists f, l :: Names(files, f, l, t)
    ensures (exists f, l :: Names(files, f, l, "")) <==>
      exists f, l :: 0 <= f < |files| && 0 <= l < |files[f]| && AllSpace(files[f][l])
  {
    IndexMatchesIff([], files, t);
    if exists f, l :: Names(files, f, l, "") {
      var f, l :| Names(files, f, l, "");
      FirstTokenIsFirstWord(files[f][l]);
    }
    if exists f, l :: 0 <= f < |files| && 0 <= l < |files[f]| && AllSpace(files[f][l]) {
      var f, l :| 0 <= f < |files| && 0 <= l < |files[f]| && AllSpace(files[f][l]);
      FirstTokenIsFirstWord(files[f][l]);
      assert Names(files, f, l, "");
    }
  }

  /** A needle whose first character does not occur in `hay` is not in it. */
  lemma {:induction false} FirstCharAbsent(hay: string, needle: string)
    requires needle != [] && needle[0] !in hay
    ensures !Contains(hay, needle)
    decreases |hay|
  {
    if hay != [] {
      FirstCharAbsent(hay[1..], needle);
    }
  }

  /**
   * The query "ki li" over an index file whose lines name kiali, grafana and
   * logging-operator (whatever else those lines hold) finds kiali only.
   */
  lemma KiLiExample(query: string, files: seq<seq<string>>)
    requires query == "ki li"
    requires |files| == 1 && Tokens(files[0]) == ["kiali", "grafana", "logging-operator"]
    ensures IndexMatches(Terms(query), files) == {"kiali"}
  {
    var terms := Terms(query);
    var names := Tokens(files[0]);
    KiLiTerms(query);
    KiLiMatches(terms, names[0], names[1], names[2]);
    SingleFile(terms, files);
    OnlyFirstOfThree(terms, names);
  }

  /** With one index file, the result is that file's selection. */
  lemma SingleFile(terms: seq<string>, files: seq<seq<string>>)
    requires |files| == 1
    ensures IndexMatches(terms, files) == Selected(terms, Tokens(files[0]))
  {
    assert files[..0] == [];
  }

  /** Of three identifiers only the first matches. */
  lemma OnlyFirstOfThree(terms: seq<string>, tokens: seq<string>)
    requires |tokens| == 3
    requires Matches(terms, tokens[0]) && !Matches(terms, tokens[1]) && !Matches(terms, tokens[2])
    ensures Selected(terms, tokens) == {tokens[0]}
  {
    assert tokens[..2][..1] == tokens[..1];
    assert tokens[..1][..0] == [];
    assert Selected(terms, tokens[..1]) == {tokens[0]};
    assert Selected(terms, tokens[..2]) == {tokens[0]};
  }

  lemma KiLiMatches(terms: seq<string>, a: string, b: string, c: string)
    requires terms == ["ki", "li"] && a == "kiali" && b == "grafana" && c == "logging-operator"
    ensures Matches(terms, a) && !Matches(terms, b) && !Matches(terms, c)
  {
    LowerIdentity(a);
    assert IsPrefix(terms[0], a);
    ContainsIff(a, terms[1]);
    assert OccursAt(a, terms[1], 3);
    FirstTermAbsent(terms, b);
    FirstTermAbsent(terms, c);
  }

  /** A token lacking the first character of the first term does not match. */
  lemma FirstTermAbsent(terms: seq<string>, token: string)
    requires |terms| > 0 && terms[0] != [] && terms[0][0] !in token
    requires forall k :: 0 <= k < |token| ==> !('A' <= token[k] <= 'Z')
    ensures !Matches(terms, token)
  {
    LowerIdentity(token);
    FirstCharAbsent(token, terms[0]);
  }

  lemma KiLiTerms(query: string)
    requires query == "ki li"
    ensures Terms(query) == ["ki", "li"]
  {
    assert Lower("ki li") == "ki li";
    assert LeadingSpace("ki li") == 0;
    assert Word("ki li") == "ki";
    assert LeadingSpace(" li") == 1;
    assert Word("li") == "li";
    assert LeadingSpace("") == 0;
    assert Split("") == [];
    assert Split("li") == ["li"];
  }

  /** Lines that are bare names name themselves. */
  lemma NamesAreOwnTokens(lines: seq<string>)
    requires forall l :: 0 <= l < |lines| ==> lines[l] != [] && NoSpace(lines[l])
    ensures Tokens(lines) == lines
  {
    forall l | 0 <= l < |lines|
      ensures Tokens(lines)[l] == lines[l]
    {
      NameIsOwnToken(lines[l]);
    }
  }

  /** A non-empty whitespace-free line names itself. */
  lemma NameIsOwnToken(s: string)
    requires s != [] && NoSpace(s)
    ensures FirstToken(s) == s
  {
    FirstTokenIsFirstWord(s);
    WordOfName(s);
  }

  /** A whitespace-free name is its own first word. */
  lemma {:induction false} WordOfName(s: string)
    requires NoSpace(s) && s != []
    ensures LStrip(s) == s && Word(s) == s
  {
    WholeWord(s);
  }

  lemma {:induction false} WholeWord(s: string)
    requires NoSpace(s)
    ensures Word(s) == s
    decreases |s|
  {
    if s != [] {
      assert NoSpace(s[1..]) by {
        forall k | 0 <= k < |s[1..]| ensures !IsSpace(s[1..][k]) {
          assert s[1..][k] == s[k + 1];
        }
      }
      WholeWord(s[1..]);
      assert s == [s[0]] + s[1..];
    }
  }
}
