/**
 * The checklists of the three basket overlays. Each lists identifiers in
 * sorted order as checkboxes whose widget id is a prefix followed by the
 * identifier (`op_` for operators, `set_` for set keys); the handlers read an
 * identifier back with `id.replace(prefix, "")`, which drops every copy of
 * the prefix, not only the leading one.
 */
module Checklist {
  import opened Text
  import opened Order
  import opened SetFiles

  datatype Checkbox = Checkbox(id: string, value: bool)

  const OpPrefix: string := "op_"
  const SetPrefix: string := "set_"

  /** `checkbox.id.replace(prefix, "")`. */
  function Decode(id: string, prefix: string): string
    requires prefix != []
  {
    RemoveAll(id, prefix)
  }

  /** Box `i` is the box for `x`. */
  predicate Shows(boxes: seq<Checkbox>, i: int, prefix: string, x: string) {
    0 <= i < |boxes| && boxes[i].id == prefix + x
  }

  /** No identifier holds a copy of the prefix, so every id decodes to its identifier. */
  predicate PrefixFree(xs: set<string>, prefix: string) {
    forall x :: x in xs ==> !Contains(x, prefix)
  }

  /**
   * One box per member of `shown`, in sorted order, with id `prefix + x`,
   * checked exactly for the members of `checked` (what `ListedMeaning` states).
   */
  function Listed(prefix: string, shown: set<string>, checked: set<string>): (boxes: seq<Checkbox>)
    ensures |boxes| == |shown|
  {
    var names := SortedMembers(shown);
    seq(|names|, i requires 0 <= i < |names| => Checkbox(prefix + names[i], names[i] in checked))
  }

  /**
   * A listing shows each member of `shown` and nothing else, checks exactly
   * the members of `checked`, and gives every box its own id.
   */
  lemma ListedMeaning(prefix: string, shown: set<string>, checked: set<string>)
    ensures forall x :: x in shown <==> exists i :: Shows(Listed(prefix, shown, checked), i, prefix, x)
    ensures forall i, x :: Shows(Listed(prefix, shown, checked), i, prefix, x) ==>
      Listed(prefix, shown, checked)[i].value == (x in checked)
    ensures forall i, j :: 0 <= i < j < |Listed(prefix, shown, checked)| ==>
      Listed(prefix, shown, checked)[i].id != Listed(prefix, shown, checked)[j].id
  {
    var names := SortedMembers(shown);
    var boxes := Listed(prefix, shown, checked);
    assert forall i :: 0 <= i < |boxes| ==> Shows(boxes, i, prefix, names[i]);
    forall i, x | Shows(boxes, i, prefix, x)
      ensures x == names[i]
    {
      PrefixInjective(prefix, x, names[i]);
    }
    forall i, j | 0 <= i < j < |boxes|
      ensures boxes[i].id != boxes[j].id
    {
      SortedDistinct(names, i, j);
      PrefixInjective(prefix, names[i], names[j]);
    }
  }

  lemma PrefixInjective(prefix: string, x: string, y: string)
    ensures prefix + x == prefix + y <==> x == y
  {
    assert x == (prefix + x)[|prefix|..];
    assert y == (prefix + y)[|prefix|..];
  }

  /** The ids are those of `listed`, in the same places; only the values may differ. */
  predicate SameIds(boxes: seq<Checkbox>, listed: seq<Checkbox>) {
    |boxes| == |listed| && forall i :: 0 <= i < |boxes| ==> boxes[i].id == listed[i].id
  }

  /** The user ticks or unticks box `i`. */
  function Toggle(boxes: seq<Checkbox>, i: nat): (r: seq<Checkbox>)
    requires i < |boxes|
    ensures SameIds(r, boxes)
    ensures r[i].value == !boxes[i].value
    ensures forall j :: 0 <= j < |r| && j != i ==> r[j] == boxes[j]
  {
    boxes[i := boxes[i].(value := !boxes[i].value)]
  }

  /** A decoded identifier shown in a checklist built from prefix-free identifiers is that identifier. */
  lemma DecodeListed(prefix: string, shown: set<string>, x: string)
    requires prefix != [] && x in shown && PrefixFree(shown, prefix)
    ensures Decode(prefix + x, prefix) == x
  {
    RemovePrefixRoundTrip(prefix, x);
  }

  /**
   * Because every copy of the prefix is dropped, the box for `prefix + x`
   * decodes to the same identifier as the box for `x`.
   */
  lemma DecodeMerges(prefix: string, x: string)
    requires prefix != []
    ensures Decode(prefix + (prefix + x), prefix) == Decode(prefix + x, prefix)
    ensures !Contains(x, prefix) ==> Decode(prefix + (prefix + x), prefix) == x
  {
    assert IsPrefix(prefix, prefix + (prefix + x));
    assert (prefix + (prefix + x))[|prefix|..] == prefix + x;
    RemovePrefixRoundTrip(prefix, x);
  }

  // ---------------------------------------------------------------------
  // Search "Add Selected": each box sets its identifier's membership.

  /** The basket after `add`/`discard` for every box, in order. */
  function ApplyBoxes(basket: set<string>, boxes: seq<Checkbox>): set<string>
    decreases |boxes|
  {
    if boxes == [] then basket
    else
      var before := ApplyBoxes(basket, boxes[..|boxes| - 1]);
      var last := boxes[|boxes| - 1];
      var op := Decode(last.id, OpPrefix);
      if last.value then before + {op} else before - {op}
  }

  /** Box `i` decodes to `x`. */
  predicate DecodesTo(boxes: seq<Checkbox>, i: int, x: string) {
    0 <= i < |boxes| && Decode(boxes[i].id, OpPrefix) == x
  }

  /** An identifier no box decodes to keeps its membership. */
  lemma {:induction false} ApplyFrame(basket: set<string>, boxes: seq<Checkbox>, x: string)
    requires forall i :: !DecodesTo(boxes, i, x)
    ensures x in ApplyBoxes(basket, boxes) <==> x in basket
    decreases |boxes|
  {
    if boxes != [] {
      var init := boxes[..|boxes| - 1];
      forall i ensures !DecodesTo(init, i, x) {
        assert !DecodesTo(boxes, i, x);
      }
      assert !DecodesTo(boxes, |boxes| - 1, x);
      ApplyFrame(basket, init, x);
    }
  }

  /** The last box that decodes to `x` decides its membership. */
  lemma {:induction false} ApplyLastWins(basket: set<string>, boxes: seq<Checkbox>, i: int, x: string)
    requires DecodesTo(boxes, i, x)
    requires forall j :: i < j ==> !DecodesTo(boxes, j, x)
    ensures x in ApplyBoxes(basket, boxes) <==> boxes[i].value
    decreases |boxes|
  {
    var init := boxes[..|boxes| - 1];
    if i < |boxes| - 1 {
      assert DecodesTo(init, i, x);
      forall j | i < j ensures !DecodesTo(init, j, x) {
        assert !DecodesTo(boxes, j, x);
      }
      assert !DecodesTo(boxes, |boxes| - 1, x);
      ApplyLastWins(basket, init, i, x);
    }
  }

  /** Boxes that agree with the basket change nothing. */
  lemma {:induction false} ApplyAgreeing(basket: set<string>, boxes: seq<Checkbox>)
    requires forall i :: 0 <= i < |boxes| ==> boxes[i].value == (Decode(boxes[i].id, OpPrefix) in basket)
    ensures ApplyBoxes(basket, boxes) == basket
    decreases |boxes|
  {
    if boxes != [] {
      ApplyAgreeing(basket, boxes[..|boxes| - 1]);
    }
  }

  /** "Add Selected" on the search results leaves an identifier that is not shown as it was. */
  lemma SearchAddFrame(found: set<string>, basket: set<string>, boxes: seq<Checkbox>, x: string)
    requires SameIds(boxes, Listed(OpPrefix, found, basket)) && PrefixFree(found, OpPrefix)
    requires x !in found
    ensures x in ApplyBoxes(basket, boxes) <==> x in basket
  {
    forall i ensures !DecodesTo(boxes, i, x) {
      if DecodesTo(boxes, i, x) {
        ListedNames(found, basket, boxes, i, x);
      }
    }
    ApplyFrame(basket, boxes, x);
  }

  /** "Add Selected" on the search results sets a shown identifier's membership to its box. */
  lemma SearchAddShown(found: set<string>, basket: set<string>, boxes: seq<Checkbox>, i: int, x: string)
    requires SameIds(boxes, Listed(OpPrefix, found, basket)) && PrefixFree(found, OpPrefix)
    requires Shows(boxes, i, OpPrefix, x)
    ensures x in ApplyBoxes(basket, boxes) <==> boxes[i].value
  {
    var listed := Listed(OpPrefix, found, basket);
    assert Shows(listed, i, OpPrefix, x);
    ListedMeaning(OpPrefix, found, basket);
    var k := ListedOnce(found, basket, boxes, x);
    ApplyLastWins(basket, boxes, k, x);
  }

  /** "Add Selected" with no box toggled leaves the basket unchanged. */
  lemma SearchAddUntoggled(found: set<string>, basket: set<string>)
    requires PrefixFree(found, OpPrefix)
    ensures ApplyBoxes(basket, Listed(OpPrefix, found, basket)) == basket
  {
    var listed := Listed(OpPrefix, found, basket);
    forall i | 0 <= i < |listed|
      ensures listed[i].value == (Decode(listed[i].id, OpPrefix) in basket)
    {
      ListedDecodes(found, basket, i);
    }
    ApplyAgreeing(basket, listed);
  }

  /** Box `i` of a listing of prefix-free identifiers shows the identifier it decodes to. */
  lemma ListedDecodes(found: set<string>, checked: set<string>, i: int)
    requires PrefixFree(found, OpPrefix)
    requires 0 <= i < |Listed(OpPrefix, found, checked)|
    ensures Decode(Listed(OpPrefix, found, checked)[i].id, OpPrefix) in found
    ensures Shows(Listed(OpPrefix, found, checked), i, OpPrefix, Decode(Listed(OpPrefix, found, checked)[i].id, OpPrefix))
  {
    var listed := Listed(OpPrefix, found, checked);
    var names := SortedMembers(found);
    var x := names[i];
    assert x in found;
    assert Shows(listed, i, OpPrefix, x);
    DecodeListed(OpPrefix, found, x);
  }

  // ---------------------------------------------------------------------
  // Basket "Apply Changes": the basket becomes exactly the checked identifiers.

  /** The identifiers of the checked boxes. */
  function CheckedIds(boxes: seq<Checkbox>): set<string>
    decreases |boxes|
  {
    if boxes == [] then {}
    else
      var last := boxes[|boxes| - 1];
      CheckedIds(boxes[..|boxes| - 1]) + (if last.value then {Decode(last.id, OpPrefix)} else {})
  }

  lemma {:induction false} CheckedIdsIff(boxes: seq<Checkbox>, x: string)
    ensures x in CheckedIds(boxes) <==> exists i :: DecodesTo(boxes, i, x) && boxes[i].value
    decreases |boxes|
  {
    if boxes != [] {
      var init := boxes[..|boxes| - 1];
      CheckedIdsIff(init, x);
      if exists i :: DecodesTo(boxes, i, x) && boxes[i].value {
        var i :| DecodesTo(boxes, i, x) && boxes[i].value;
        if i < |init| {
          assert DecodesTo(init, i, x);
        }
      }
      if exists i :: DecodesTo(init, i, x) && init[i].value {
        var i :| DecodesTo(init, i, x) && init[i].value;
        assert DecodesTo(boxes, i, x);
      }
    }
  }

  /** In a listing of prefix-free identifiers, a box decodes to the identifier it shows. */
  lemma ListedNames(found: set<string>, checked: set<string>, boxes: seq<Checkbox>, i: int, y: string)
    requires SameIds(boxes, Listed(OpPrefix, found, checked)) && PrefixFree(found, OpPrefix)
    requires DecodesTo(boxes, i, y)
    ensures y in found && Shows(boxes, i, OpPrefix, y)
  {
    ListedDecodes(found, checked, i);
  }

  /** Every listed identifier has exactly one box, and only that box decodes to it. */
  lemma ListedOnce(found: set<string>, checked: set<string>, boxes: seq<Checkbox>, x: string) returns (k: int)
    requires SameIds(boxes, Listed(OpPrefix, found, checked)) && PrefixFree(found, OpPrefix)
    requires x in found
    ensures Shows(boxes, k, OpPrefix, x) && DecodesTo(boxes, k, x)
    ensures forall i :: DecodesTo(boxes, i, x) ==> i == k
  {
    var listed := Listed(OpPrefix, found, checked);
    ListedMeaning(OpPrefix, found, checked);
    k :| Shows(listed, k, OpPrefix, x);
    DecodeListed(OpPrefix, found, x);
    forall i | DecodesTo(boxes, i, x) ensures i == k {
      ListedNames(found, checked, boxes, i, x);
      assert listed[i].id == listed[k].id;
    }
  }

  /** After review, a listed identifier stays exactly when its box is checked. */
  lemma CheckedListed(found: set<string>, checked: set<string>, boxes: seq<Checkbox>, x: string)
    requires SameIds(boxes, Listed(OpPrefix, found, checked)) && PrefixFree(found, OpPrefix)
    ensures x in CheckedIds(boxes) <==> x in found && forall i :: Shows(boxes, i, OpPrefix, x) ==> boxes[i].value
  {
    CheckedIdsIff(boxes, x);
    if x in found {
      var k := ListedOnce(found, checked, boxes, x);
      forall i | Shows(boxes, i, OpPrefix, x) ensures i == k {
        assert DecodesTo(boxes, i, x);
      }
    } else if x in CheckedIds(boxes) {
      var i :| DecodesTo(boxes, i, x) && boxes[i].value;
      ListedNames(found, checked, boxes, i, x);
    }
  }

  /** Applying the review list never adds an identifier: the result is a subset of the old basket. */
  lemma BasketApplySubset(basket: set<string>, boxes: seq<Checkbox>)
    requires SameIds(boxes, Listed(OpPrefix, basket, basket)) && PrefixFree(basket, OpPrefix)
    ensures CheckedIds(boxes) <= basket
  {
    forall x | x in CheckedIds(boxes) ensures x in basket {
      CheckedListed(basket, basket, boxes, x);
    }
  }

  /** Applying the review list with nothing unchecked keeps the basket as it was. */
  lemma BasketApplyUntoggled(basket: set<string>)
    requires PrefixFree(basket, OpPrefix)
    ensures CheckedIds(Listed(OpPrefix, basket, basket)) == basket
  {
    var listed := Listed(OpPrefix, basket, basket);
    BasketApplySubset(basket, listed);
    forall x | x in basket ensures x in CheckedIds(listed) {
      var k := ListedOnce(basket, basket, listed, x);
      CheckedIdsIff(listed, x);
      assert DecodesTo(listed, k, x) && listed[k].value;
    }
  }

  // ---------------------------------------------------------------------
  // Sets "Add Selected": every checked set file is added to the basket.

  /** The lines `add_operator_set(key)` reads; a missing file reads as nothing. */
  function SetLines(templates: map<string, seq<string>>, key: string): seq<string> {
    var name := SetFileName(key);
    if name in templates then templates[name] else []
  }

  /** The basket after `add_operator_set` for every checked box, in order. */
  function AddCheckedSets(basket: set<string>, boxes: seq<Checkbox>, templates: map<string, seq<string>>): set<string>
    decreases |boxes|
  {
    if boxes == [] then basket
    else
      var before := AddCheckedSets(basket, boxes[..|boxes| - 1], templates);
      var last := boxes[|boxes| - 1];
      if last.value then AddedFrom(before, SetLines(templates, Decode(last.id, SetPrefix))) else before
  }

  /** The identifiers the set file behind box `b` lists. */
  function BoxSetIds(templates: map<string, seq<string>>, b: Checkbox): set<string> {
    FileIds(SetLines(templates, Decode(b.id, SetPrefix)))
  }

  /** Box `i` is checked and its set file lists `x`. */
  predicate ChecksSetOf(boxes: seq<Checkbox>, templates: map<string, seq<string>>, i: int, x: string) {
    0 <= i < |boxes| && boxes[i].value && x in BoxSetIds(templates, boxes[i])
  }

  /** One checked set more: the basket grows by that set's identifiers. */
  lemma AddCheckedSetsStep(basket: set<string>, init: seq<Checkbox>, last: Checkbox,
                           templates: map<string, seq<string>>)
    ensures AddCheckedSets(basket, init + [last], templates) ==
      AddCheckedSets(basket, init, templates) + (if last.value then BoxSetIds(templates, last) else {})
  {
    assert (init + [last])[..|init|] == init;
    var before := AddCheckedSets(basket, init, templates);
    if last.value {
      AddedFromUnion(before, SetLines(templates, Decode(last.id, SetPrefix)));
    }
  }

  /** A checked box of `init + [last]` is one of `init` or `last`. */
  lemma ChecksSplit(init: seq<Checkbox>, last: Checkbox, templates: map<string, seq<string>>, x: string)
    ensures (exists i :: ChecksSetOf(init + [last], templates, i, x)) <==>
      (exists i :: ChecksSetOf(init, templates, i, x)) || (last.value && x in BoxSetIds(templates, last))
  {
    var boxes := init + [last];
    if exists i :: ChecksSetOf(boxes, templates, i, x) {
      var i :| ChecksSetOf(boxes, templates, i, x);
      if i < |init| {
        assert boxes[i] == init[i];
        assert ChecksSetOf(init, templates, i, x);
      }
    }
    if exists i :: ChecksSetOf(init, templates, i, x) {
      var i :| ChecksSetOf(init, templates, i, x);
      assert boxes[i] == init[i];
      assert ChecksSetOf(boxes, templates, i, x);
    }
    if last.value && x in BoxSetIds(templates, last) {
      assert ChecksSetOf(boxes, templates, |init|, x);
    }
  }

  /**
   * Adding the checked sets keeps every member and adds exactly the
   * identifiers listed by the checked set files.
   */
  lemma {:induction false} AddCheckedSetsIff(basket: set<string>, boxes: seq<Checkbox>,
                                              templates: map<string, seq<string>>, x: string)
    ensures x in AddCheckedSets(basket, boxes, templates) <==>
      x in basket || exists i :: ChecksSetOf(boxes, templates, i, x)
    decreases |boxes|
  {
    if boxes != [] {
      var init, last := boxes[..|boxes| - 1], boxes[|boxes| - 1];
      assert boxes == init + [last];
      AddCheckedSetsIff(basket, init, templates, x);
      AddCheckedSetsStep(basket, init, last, templates);
      ChecksSplit(init, last, templates, x);
    }
  }
}
