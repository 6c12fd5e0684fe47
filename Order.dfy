/**
 * Python's ordering of `str` values (lexicographic by code point) and
 * `sorted(s)` for a set of strings.
 */
module Order {

  /** `a < b` on Python strings. */
  predicate Less(a: string, b: string)
    decreases |a|
  {
    if a == [] then b != []
    else b != [] && (a[0] < b[0] || (a[0] == b[0] && Less(a[1..], b[1..])))
  }

  lemma {:induction false} LessIrreflexive(a: string)
    ensures !Less(a, a)
    decreases |a|
  {
    if a != [] {
      LessIrreflexive(a[1..]);
    }
  }

  lemma {:induction false} LessTransitive(a: string, b: string, c: string)
    requires Less(a, b) && Less(b, c)
    ensures Less(a, c)
    decreases |a|
  {
    if a != [] && a[0] == b[0] && b[0] == c[0] {
      LessTransitive(a[1..], b[1..], c[1..]);
    }
  }

  /** Any two distinct strings are ordered one way or the other. */
  lemma {:induction false} LessTotal(a: string, b: string)
    requires a != b
    ensures Less(a, b) || Less(b, a)
    decreases |a|
  {
    if a != [] && b != [] && a[0] == b[0] {
      assert a == [a[0]] + a[1..] && b == [b[0]] + b[1..];
      LessTotal(a[1..], b[1..]);
    }
  }

  lemma {:induction false} LessAsymmetric(a: string, b: string)
    requires Less(a, b)
    ensures !Less(b, a)
  {
    if Less(b, a) {
      LessTransitive(a, b, a);
      LessIrreflexive(a);
    }
  }

  /** `m` is the smallest member of `s`. */
  predicate IsLeast(m: string, s: set<string>) {
    m in s && forall x :: x in s && x != m ==> Less(m, x)
  }

  /** Every non-empty finite set of strings has a least member. */
  lemma {:induction false} LeastExists(s: set<string>)
    requires s != {}
    ensures exists m :: IsLeast(m, s)
    decreases |s|
  {
    var y :| y in s;
    if s == {y} {
      assert IsLeast(y, s);
    } else {
      LeastExists(s - {y});
      var m :| IsLeast(m, s - {y});
      if Less(m, y) {
        assert IsLeast(m, s);
      } else {
        LessTotal(m, y);
        forall x | x in s && x != y
          ensures Less(y, x)
        {
          if x != m {
            LessTransitive(y, m, x);
          }
        }
        assert IsLeast(y, s);
      }
    }
  }

  /** The least member is unique. */
  lemma LeastUnique(s: set<string>)
    ensures forall a, b :: IsLeast(a, s) && IsLeast(b, s) ==> a == b
  {
    forall a, b | IsLeast(a, s) && IsLeast(b, s)
      ensures a == b
    {
      if a != b {
        LessAsymmetric(a, b);
      }
    }
  }

  /** Strictly increasing, hence also free of repetitions. */
  predicate StrictlySorted(r: seq<string>) {
    forall i, j :: 0 <= i < j < |r| ==> Less(r[i], r[j])
  }

  /** `sorted(s)`: the members of `s`, each once, in increasing order. */
  function SortedMembers(s: set<string>): (r: seq<string>)
    ensures |r| == |s|
    ensures forall x :: x in r <==> x in s
    ensures StrictlySorted(r)
    decreases |s|
  {
    if s == {} then []
    else
      LeastExists(s);
      LeastUnique(s);
      var m :| IsLeast(m, s);
      var rest := SortedMembers(s - {m});
      assert StrictlySorted([m] + rest) by {
        forall i, j | 0 <= i < j < |[m] + rest|
          ensures Less(([m] + rest)[i], ([m] + rest)[j])
        {
          assert ([m] + rest)[j] == rest[j - 1];
          assert rest[j - 1] in s - {m};
          if i > 0 {
            assert ([m] + rest)[i] == rest[i - 1];
          }
        }
      }
      [m] + rest
  }

  /** A strictly sorted sequence holds no string twice. */
  lemma SortedDistinct(r: seq<string>, i: int, j: int)
    requires StrictlySorted(r) && 0 <= i < |r| && 0 <= j < |r| && i != j
    ensures r[i] != r[j]
  {
    if i < j {
      LessIrreflexive(r[i]);
    } else {
      LessIrreflexive(r[j]);
    }
  }
}
