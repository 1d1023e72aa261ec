/**
 * The orders the scripts sort by, and `sorted(...)` of a set of strings.
 * `Codepoint` is Python's `<` on `str`; `CaseInsensitive` is `key=str.lower`,
 * with ties between names that agree up to case broken by `Codepoint`.
 * The stable `sorted` would leave such names in the set's iteration order,
 * which depends on string hashing; the tie-break stands in for that order.
 */
module Ordering {
  import opened Text

  /** Python's `<` on `str`: lexicographic on code points, a proper prefix first. */
  predicate StrLess(a: string, b: string)
    decreases |a|
  {
    if a == [] then b != []
    else if b == [] then false
    else a[0] < b[0] || (a[0] == b[0] && StrLess(a[1..], b[1..]))
  }

  lemma {:induction false} StrLessIrreflexive(a: string)
    ensures !StrLess(a, a)
    decreases |a|
  {
    if a != [] { StrLessIrreflexive(a[1..]); }
  }

  lemma {:induction false} StrLessTransitive(a: string, b: string, c: string)
    requires StrLess(a, b) && StrLess(b, c)
    ensures StrLess(a, c)
    decreases |a|
  {
    if a != [] && a[0] == b[0] == c[0] {
      StrLessTransitive(a[1..], b[1..], c[1..]);
    }
  }

  lemma {:induction false} StrLessTotal(a: string, b: string)
    requires a != b
    ensures StrLess(a, b) || StrLess(b, a)
    decreases |a|
  {
    if a != [] && b != [] && a[0] == b[0] {
      assert a == [a[0]] + a[1..] && b == [b[0]] + b[1..];
      StrLessTotal(a[1..], b[1..]);
    }
  }

  lemma {:induction false} StrLessAsymmetric(a: string, b: string)
    requires StrLess(a, b)
    ensures !StrLess(b, a)
    decreases |a|
  {
    if a != [] && a[0] == b[0] {
      StrLessAsymmetric(a[1..], b[1..]);
    }
  }

  /** "Not greater than" is transitive. */
  lemma StrNotLessTransitive(a: string, b: string, c: string)
    requires !StrLess(b, a) && !StrLess(c, b)
    ensures !StrLess(c, a)
  {
    if a != b && b != c {
      StrLessTotal(a, b);
      StrLessTotal(b, c);
      StrLessTransitive(a, b, c);
      StrLessAsymmetric(a, c);
    }
  }

  datatype Order = Codepoint | CaseInsensitive

  predicate Less(o: Order, a: string, b: string) {
    match o
    case Codepoint => StrLess(a, b)
    case CaseInsensitive => StrLess(Lower(a), Lower(b)) || (Lower(a) == Lower(b) && StrLess(a, b))
  }

  /** Both orders are strict total orders on strings. */
  lemma LessIsStrictTotal(o: Order)
    ensures forall a :: !Less(o, a, a)
    ensures forall a, b, c :: Less(o, a, b) && Less(o, b, c) ==> Less(o, a, c)
    ensures forall a, b :: a != b ==> Less(o, a, b) || Less(o, b, a)
  {
    forall a ensures !Less(o, a, a) {
      StrLessIrreflexive(a);
      StrLessIrreflexive(Lower(a));
    }
    forall a, b, c | Less(o, a, b) && Less(o, b, c) ensures Less(o, a, c) {
      match o
      case Codepoint =>
        StrLessTransitive(a, b, c);
      case CaseInsensitive =>
        if StrLess(Lower(a), Lower(b)) && StrLess(Lower(b), Lower(c)) {
          StrLessTransitive(Lower(a), Lower(b), Lower(c));
        } else if Lower(a) == Lower(b) == Lower(c) {
          StrLessTransitive(a, b, c);
        }
    }
    forall a, b | a != b ensures Less(o, a, b) || Less(o, b, a) {
      match o
      case Codepoint =>
        StrLessTotal(a, b);
      case CaseInsensitive =>
        if Lower(a) != Lower(b) {
          StrLessTotal(Lower(a), Lower(b));
        } else {
          StrLessTotal(a, b);
        }
    }
  }

  predicate StrictlySorted(o: Order, xs: seq<string>) {
    forall i, j :: 0 <= i < j < |xs| ==> Less(o, xs[i], xs[j])
  }

  /** `m` is the least element of `s`. */
  predicate IsLeast(o: Order, m: string, s: set<string>) {
    m in s && forall y :: y in s && y != m ==> Less(o, m, y)
  }

  lemma {:induction false} LeastExists(o: Order, s: set<string>)
    requires s != {}
    ensures exists m :: IsLeast(o, m, s)
    decreases |s|
  {
    var x :| x in s;
    if s == {x} {
      assert IsLeast(o, x, s);
    } else {
      LeastExists(o, s - {x});
      var m :| IsLeast(o, m, s - {x});
      LessIsStrictTotal(o);
      if Less(o, x, m) {
        forall y | y in s && y != x ensures Less(o, x, y) {
          if y != m { assert Less(o, m, y); }
        }
        assert IsLeast(o, x, s);
      } else {
        assert IsLeast(o, m, s);
      }
    }
  }

  /** `sorted(s)`: the elements of `s`, each once, in increasing order. */
  function SortSet(o: Order, s: set<string>): (r: seq<string>)
    ensures |r| == |s|
    ensures forall x :: x in r <==> x in s
    ensures StrictlySorted(o, r)
    decreases |s|
  {
    if s == {} then []
    else
      LeastExists(o, s);
      LessIsStrictTotal(o);
      var m :| IsLeast(o, m, s);
      [m] + SortSet(o, s - {m})
  }

  /** Case-insensitive order never puts a larger lower-case form first. */
  lemma LowerFormOrder(a: string, b: string)
    requires Less(CaseInsensitive, a, b)
    ensures !StrLess(Lower(b), Lower(a))
  {
    if StrLess(Lower(a), Lower(b)) {
      StrLessAsymmetric(Lower(a), Lower(b));
    } else {
      StrLessIrreflexive(Lower(a));
    }
  }

  /** A case-insensitive sort puts the lower-case forms in non-decreasing order. */
  lemma CaseInsensitiveByLowerForm(xs: seq<string>, i: int, j: int)
    requires StrictlySorted(CaseInsensitive, xs) && 0 <= i < j < |xs|
    ensures !StrLess(Lower(xs[j]), Lower(xs[i]))
  {
    LowerFormOrder(xs[i], xs[j]);
  }
}
