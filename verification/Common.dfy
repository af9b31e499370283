/** Datatypes shared by every module of the model. */
module Common {

  datatype Option<+T> = None | Some(value: T)

  datatype Result<+T, +E> = Ok(value: T) | Err(error: E)

  /** True iff no value occurs twice. */
  ghost predicate Distinct<T>(s: seq<T>) {
    forall i, j :: 0 <= i < j < |s| ==> s[i] != s[j]
  }

  /** A sequence without repetition has as many elements as its set of elements. */
  lemma {:induction false} DistinctSize<T>(s: seq<T>)
    requires Distinct(s)
    ensures |set x | x in s| == |s|
  {
    if s == [] {
    } else {
      var rest := s[..|s| - 1];
      var last := s[|s| - 1];
      DistinctSize(rest);
      assert (set x | x in s) == (set x | x in rest) + {last};
    }
  }

  /** A sequence without repetition drawn from a finite set is no longer than the set. */
  lemma DistinctWithin<T>(s: seq<T>, u: set<T>)
    requires Distinct(s)
    requires forall x | x in s :: x in u
    ensures |s| <= |u|
  {
    DistinctSize(s);
    SubsetSize((set x | x in s), u);
  }

  lemma {:induction false} SubsetSize<T>(a: set<T>, b: set<T>)
    requires a <= b
    ensures |a| <= |b|
    ensures |a| == |b| ==> a == b
  {
    if a != {} {
      var x :| x in a;
      SubsetSize(a - {x}, b - {x});
    }
  }
}
