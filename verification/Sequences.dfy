/** The usual word for a sequence without repetition. */
module Sequences {
  predicate Distinct<T(==)>(xs: seq<T>) {
    forall i, j :: 0 <= i < j < |xs| ==> xs[i] != xs[j]
  }

  lemma DistinctFront<T>(front: seq<T>, last: T)
    requires Distinct(front + [last])
    ensures Distinct(front) && last !in front
  {
    var xs := front + [last];
    forall i | 0 <= i < |front| ensures front[i] != last {
      assert xs[i] == front[i] && xs[|front|] == last;
    }
    forall i, j | 0 <= i < j < |front| ensures front[i] != front[j] {
      assert xs[i] == front[i] && xs[j] == front[j];
    }
  }

  lemma DistinctSnoc<T>(front: seq<T>, last: T)
    requires Distinct(front) && last !in front
    ensures Distinct(front + [last])
  {
  }
}
