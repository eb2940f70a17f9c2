/** Facts about sequences seen as sets, used to reason about the
    `COUNT(DISTINCT ...) = SIZE(...)` filter of the skill query. */
module Collections {

  /** No element occurs twice in `xs`. */
  predicate Distinct<T(==)>(xs: seq<T>) {
    forall i, j :: 0 <= i < j < |xs| ==> xs[i] != xs[j]
  }

  /** The elements of `xs`, forgetting order and repetition. */
  function ToSet<T(==)>(xs: seq<T>): set<T> {
    set x | x in xs
  }

  /** A subset is no larger than its superset, and equally large only when
      the two are equal. */
  lemma SubsetCard<T>(a: set<T>, b: set<T>)
    requires a <= b
    ensures |a| <= |b|
    ensures |a| == |b| ==> a == b
    decreases a
  {
    if a == {} {
      if |b| == 0 {
        assert b == {};
      }
    } else {
      var x :| x in a;
      SubsetCard(a - {x}, b - {x});
      assert a == (a - {x}) + {x};
      assert b == (b - {x}) + {x};
    }
  }

  /** A sequence has at least as many positions as distinct elements, and
      exactly as many when no element repeats. */
  lemma {:induction false} ToSetCard<T>(xs: seq<T>)
    ensures |ToSet(xs)| <= |xs|
    ensures |ToSet(xs)| == |xs| <==> Distinct(xs)
  {
    if xs != [] {
      var t := xs[1..];
      ToSetCard(t);
      assert ToSet(xs) == {xs[0]} + ToSet(t) by {
        assert xs == [xs[0]] + t;
      }
      if xs[0] in t {
        var j :| 0 <= j < |t| && t[j] == xs[0];
        assert xs[0] == xs[j + 1];
        assert ToSet(xs) == ToSet(t);
        assert !Distinct(xs);
      } else {
        assert |ToSet(xs)| == 1 + |ToSet(t)|;
        if Distinct(t) {
          forall i, j | 0 <= i < j < |xs|
            ensures xs[i] != xs[j]
          {
            if i == 0 {
              assert xs[j] == t[j - 1];
            } else {
              assert xs[i] == t[i - 1] && xs[j] == t[j - 1];
            }
          }
        } else {
          var i, j :| 0 <= i < j < |t| && t[i] == t[j];
          assert xs[i + 1] == xs[j + 1];
        }
      }
    }
  }

  /** The positions of `xs` whose element `keep` selects. */
  function Selected<T>(xs: seq<T>, keep: T -> bool): set<int> {
    set i | 0 <= i < |xs| && keep(xs[i])
  }

  /** `[f(x) for x in xs if keep(x)]`. */
  function FilterMap<T, U>(xs: seq<T>, keep: T -> bool, f: T -> U): seq<U>
    decreases |xs|
  {
    if xs == [] then []
    else if keep(xs[0]) then [f(xs[0])] + FilterMap(xs[1..], keep, f)
    else FilterMap(xs[1..], keep, f)
  }

  /** Filtering a concatenation filters its parts, in order. */
  lemma {:induction false} FilterMapAppend<T, U>(a: seq<T>, b: seq<T>, keep: T -> bool, f: T -> U)
    ensures FilterMap(a + b, keep, f) == FilterMap(a, keep, f) + FilterMap(b, keep, f)
    decreases |a|
  {
    if a == [] {
      assert a + b == b;
    } else {
      assert (a + b)[1..] == a[1..] + b;
      FilterMapAppend(a[1..], b, keep, f);
    }
  }

  /** Appending an element adds its position when it is selected. */
  lemma SelectedSnoc<T>(xs: seq<T>, x: T, keep: T -> bool)
    ensures Selected(xs + [x], keep)
            == Selected(xs, keep) + (if keep(x) then {|xs|} else {})
  {
    var ys := xs + [x];
    forall i | 0 <= i < |xs|
      ensures ys[i] == xs[i]
    {
    }
  }

  /** One result per selected element: no selected element is dropped. */
  lemma {:induction false} FilterMapCount<T, U>(xs: seq<T>, keep: T -> bool, f: T -> U)
    ensures |FilterMap(xs, keep, f)| == |Selected(xs, keep)|
    decreases |xs|
  {
    if xs == [] {
      assert Selected(xs, keep) == {};
    } else {
      var n := |xs| - 1;
      var init, last := xs[..n], xs[n];
      assert xs == init + [last];
      FilterMapAppend(init, [last], keep, f);
      FilterMapCount(init, keep, f);
      SelectedSnoc(init, last, keep);
      assert [last][1..] == [];
    }
  }

  /** A value is a result exactly when it is the image of a selected
      element. */
  lemma {:induction false} FilterMapMembers<T, U>(xs: seq<T>, keep: T -> bool, f: T -> U, y: U)
    ensures y in FilterMap(xs, keep, f) <==>
              exists i :: 0 <= i < |xs| && keep(xs[i]) && y == f(xs[i])
    decreases |xs|
  {
    if xs != [] {
      var rest := xs[1..];
      FilterMapMembers(rest, keep, f, y);
      if y in FilterMap(rest, keep, f) {
        var j :| 0 <= j < |rest| && keep(rest[j]) && y == f(rest[j]);
        assert xs[j + 1] == rest[j];
      }
      if exists i :: 0 <= i < |xs| && keep(xs[i]) && y == f(xs[i]) {
        var i :| 0 <= i < |xs| && keep(xs[i]) && y == f(xs[i]);
        if i > 0 {
          assert rest[i - 1] == xs[i];
        }
      }
    }
  }
}
