/** Result types and list functions shared by the modules of the project. */
module Wrappers {
  /** A value that may be absent (the `undefined` or `null` of the source). */
  datatype Option<+T> = None | Some(value: T)

  /** A value or the error the source throws or returns instead. */
  datatype Result<+T, +E> = Ok(value: T) | Err(error: E)

  predicate NoRepeats<T(==)>(xs: seq<T>) {
    forall i, j :: 0 <= i < j < |xs| ==> xs[i] != xs[j]
  }

  /** Array.prototype.filter. */
  function Filter<T(==,!new)>(xs: seq<T>, keep: T --> bool): (ys: seq<T>)
    requires forall x :: x in xs ==> keep.requires(x)
    ensures forall x :: x in ys <==> x in xs && keep(x)
    ensures NoRepeats(xs) ==> NoRepeats(ys)
  {
    if xs == [] then []
    else if keep(xs[0]) then
      assert NoRepeats(xs) ==> xs[0] !in xs[1..] && NoRepeats(xs[1..]);
      [xs[0]] + Filter(xs[1..], keep)
    else
      assert NoRepeats(xs) ==> NoRepeats(xs[1..]);
      Filter(xs[1..], keep)
  }

  /** The element is the first one of the list that both predicates hold of. */
  ghost predicate FirstOf<T(!new)>(xs: seq<T>, p: T -> bool, q: T -> bool, x: T) {
    exists i :: 0 <= i < |xs| && xs[i] == x && p(x) && q(x) && forall j :: 0 <= j < i ==> !(p(xs[j]) && q(xs[j]))
  }

  lemma FirstOfRest<T(!new)>(xs: seq<T>, p: T -> bool, q: T -> bool, x: T)
    requires xs != [] && !(p(xs[0]) && q(xs[0])) && FirstOf(xs[1..], p, q, x)
    ensures FirstOf(xs, p, q, x)
  {
    var i :| 0 <= i < |xs[1..]| && xs[1..][i] == x && forall j :: 0 <= j < i ==> !(p(xs[1..][j]) && q(xs[1..][j]));
    assert xs[i + 1] == x;
    forall j | 0 <= j < i + 1 ensures !(p(xs[j]) && q(xs[j])) {
      if j > 0 {
        assert xs[j] == xs[1..][j - 1];
      }
    }
  }

  /** What two filters keep first is the first element that both keep. */
  lemma {:induction false} FirstKept<T(!new)>(xs: seq<T>, p: T -> bool, q: T -> bool)
    ensures Filter(Filter(xs, p), q) != [] ==> FirstOf(xs, p, q, Filter(Filter(xs, p), q)[0])
  {
    if xs != [] {
      var kept := Filter(xs, p);
      if p(xs[0]) {
        assert kept == [xs[0]] + Filter(xs[1..], p) && kept[1..] == Filter(xs[1..], p);
        assert q(xs[0]) ==> Filter(kept, q)[0] == xs[0];
        assert !q(xs[0]) ==> Filter(kept, q) == Filter(kept[1..], q);
      } else {
        assert kept == Filter(xs[1..], p);
      }
      hide Filter;
      FirstKept(xs[1..], p, q);
      if !(p(xs[0]) && q(xs[0])) && Filter(kept, q) != [] {
        FirstOfRest(xs, p, q, Filter(kept, q)[0]);
      }
    }
  }
}
