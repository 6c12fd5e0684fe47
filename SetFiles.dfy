/**
 * Operator-set template files: a file `templates/operator-set-<key>` lists one
 * operator identifier per line, with `#` starting a comment. `add_operator_set`
 * reads such a file line by line and adds every identifier to the basket.
 * A file is given as its sequence of lines; a missing or unreadable file adds
 * nothing, as if it were empty.
 */
module SetFiles {
  import opened Wrappers
  import opened Text

  /** The glob prefix of a template file, and what is stripped to form its key. */
  const SetFilePrefix: string := "operator-set-"

  /** An identifier the parser can produce: non-empty, comment-free, trimmed. */
  predicate WellFormedId(op: string) {
    op != [] && '#' !in op && !IsSpace(op[0]) && !IsSpace(op[|op| - 1])
  }

  /**
   * One line of a set file: `line.strip()`, skipped when empty or a comment,
   * otherwise the part before the first `#`, stripped again, when non-empty.
   * The second emptiness test never fails: a stripped line that does not
   * start with `#` keeps its first character.
   */
  function ParseSetLine(line: string): (r: Option<string>)
    ensures r.Some? <==> Strip(line) != [] && Strip(line)[0] != '#'
    ensures r.Some? ==> WellFormedId(r.value)
  {
    var s := Strip(line);
    if s != [] && s[0] != '#' then
      var op := Strip(Before(s, '#'));
      StripKeepsOut(Before(s, '#'), '#');
      if op != [] then Some(op) else None
    else None
  }

  /**
   * An identifier padded with whitespace, with or without a trailing
   * `#` comment, parses back to itself.
   */
  lemma ParseSetLineRoundTrip(a: string, op: string, b: string, c: string)
    requires WellFormedId(op) && AllSpace(a) && AllSpace(b)
    ensures ParseSetLine(a + op + b) == Some(op)
    ensures ParseSetLine(a + op + b + "#" + c) == Some(op)
  {
    StripPadded(a, op, b);
    assert '#' !in op + b;
    BeforeAbsent(op, '#');
    StripPadded([], op, []);
    assert [] + op + [] == op;
    CommentedLine(a, op, b, c);
  }

  /** A commented line strips to the identifier, its padding and the comment. */
  lemma CommentedStrip(a: string, op: string, b: string, c: string) returns (rest: string)
    requires WellFormedId(op) && AllSpace(a)
    ensures Strip(a + op + b + "#" + c) == op + b + "#" + rest
  {
    var y := op + b + "#";
    var t := y + c;
    assert a + op + b + "#" + c == a + t;
    assert t[0] == op[0];
    LeadingSpaceOfGap(a, t);
    assert LStrip(a + t) == t;
    assert y[|y| - 1] == '#';
    RStripAfter(y, c);
    rest := c[..|c| - TrailingSpace(t)];
  }

  lemma CommentedLine(a: string, op: string, b: string, c: string)
    requires WellFormedId(op) && AllSpace(a) && AllSpace(b)
    ensures ParseSetLine(a + op + b + "#" + c) == Some(op)
  {
    var rest := CommentedStrip(a, op, b, c);
    var s := op + b + "#" + rest;
    assert s[0] == op[0];
    assert '#' !in op + b;
    BeforeStops(op + b, '#', rest);
    assert Before(s, '#') == op + b;
    StripPadded([], op, b);
    assert [] + op + b == op + b;
  }

  /** A parsed identifier is a piece of the line it came from. */
  lemma ParseSetLineWithin(line: string)
    ensures ParseSetLine(line).Some? ==> Contains(line, ParseSetLine(line).value)
  {
    if ParseSetLine(line).Some? {
      var s := Strip(line);
      var p := Before(s, '#');
      var op := ParsedId(line);
      StripWithin(line);
      ContainsPiece(s, [], p, s[|p|..]);
      StripWithin(p);
      ContainsTrans(line, s, p);
      ContainsTrans(line, p, op);
    }
  }

  lemma ParsedId(line: string) returns (op: string)
    requires ParseSetLine(line).Some?
    ensures op == ParseSetLine(line).value == Strip(Before(Strip(line), '#'))
  {
    op := ParseSetLine(line).value;
  }

  lemma StripWithin(s: string)
    ensures Contains(s, Strip(s))
  {
    var a, b := StripParts(s);
    ContainsPiece(s, a, Strip(s), b);
  }

  /** Stripping never introduces a character. */
  lemma StripKeepsOut(s: string, c: char)
    requires c !in s
    ensures c !in Strip(s)
  {
    var t := s[LeadingSpace(s)..];
    assert c !in t;
    assert Strip(s) == t[..|t| - TrailingSpace(t)];
  }

  /** The basket after adding the identifiers of `lines`, line by line. */
  function AddedFrom(basket: set<string>, lines: seq<string>): set<string>
    decreases |lines|
  {
    if lines == [] then basket
    else
      var before := AddedFrom(basket, lines[..|lines| - 1]);
      match ParseSetLine(lines[|lines| - 1])
      case Some(op) => before + {op}
      case None => before
  }

  /** The identifiers of a whole set file. */
  function FileIds(lines: seq<string>): set<string> {
    AddedFrom({}, lines)
  }

  /** Line `l` of `lines` yields `op`. */
  predicate Yields(lines: seq<string>, l: int, op: string) {
    0 <= l < |lines| && ParseSetLine(lines[l]) == Some(op)
  }

  /** Adding a file keeps every member and adds exactly the identifiers its lines yield. */
  lemma {:induction false} AddedFromIff(basket: set<string>, lines: seq<string>, op: string)
    ensures op in AddedFrom(basket, lines) <==> op in basket || exists l :: Yields(lines, l, op)
    decreases |lines|
  {
    if lines != [] {
      var init, last := lines[..|lines| - 1], lines[|lines| - 1];
      assert lines == init + [last];
      AddedFromIff(basket, init, op);
      if exists l :: Yields(lines, l, op) {
        var l :| Yields(lines, l, op);
        if l < |init| {
          assert Yields(init, l, op);
        }
      }
      if exists l :: Yields(init, l, op) {
        var l :| Yields(init, l, op);
        assert Yields(lines, l, op);
      }
      if ParseSetLine(last) == Some(op) {
        assert Yields(lines, |init|, op);
      }
    }
  }

  /** Adding a file is a union with the identifiers of that file alone. */
  lemma {:induction false} AddedFromUnion(basket: set<string>, lines: seq<string>)
    ensures AddedFrom(basket, lines) == basket + FileIds(lines)
    decreases |lines|
  {
    if lines != [] {
      AddedFromUnion(basket, lines[..|lines| - 1]);
      AddedFromUnion({}, lines[..|lines| - 1]);
    }
  }

  /**
   * The basket only grows, and everything added is a well-formed identifier;
   * adding the same file a second time changes nothing.
   */
  lemma AddedFromGrowsOnce(basket: set<string>, lines: seq<string>)
    ensures basket <= AddedFrom(basket, lines)
    ensures forall op :: op in AddedFrom(basket, lines) - basket ==> WellFormedId(op)
    ensures AddedFrom(AddedFrom(basket, lines), lines) == AddedFrom(basket, lines)
  {
    AddedFromUnion(basket, lines);
    AddedFromUnion(AddedFrom(basket, lines), lines);
    forall op | op in AddedFrom(basket, lines) - basket
      ensures WellFormedId(op)
    {
      AddedFromIff(basket, lines, op);
      var l :| Yields(lines, l, op);
    }
  }

  /** `file.name.replace("operator-set-", "")`: the key a template file is listed under. */
  function SetKey(name: string): (key: string)
    ensures |key| <= |name|
  {
    RemoveAll(name, SetFilePrefix)
  }

  /** The keys of the set files among `names` (the glob `operator-set-*`). */
  function SetKeys(names: set<string>): (keys: set<string>)
    ensures forall k :: k in keys <==> exists n :: n in names && IsPrefix(SetFilePrefix, n) && SetKey(n) == k
  {
    set n | n in names && IsPrefix(SetFilePrefix, n) :: SetKey(n)
  }

  /** The file `add_operator_set(key)` opens. */
  function SetFileName(key: string): (name: string)
    ensures IsPrefix(SetFilePrefix, name)
  {
    SetFilePrefix + key
  }

  /**
   * Listing a template file under its key and opening the file for that key
   * reaches the same file exactly when the rest of its name does not repeat
   * the prefix.
   */
  lemma SetFileRoundTrip(name: string)
    requires IsPrefix(SetFilePrefix, name)
    ensures SetFileName(SetKey(name)) == name <==> !Contains(name[|SetFilePrefix|..], SetFilePrefix)
  {
    var rest := name[|SetFilePrefix|..];
    assert name == SetFilePrefix + rest;
    RemovePrefixRoundTrip(SetFilePrefix, rest);
  }
}
