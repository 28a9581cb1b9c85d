/** A few definitions the other modules share. */
module Prelude {

  datatype Option<+T> = None | Some(value: T)

  /** The positions from `lo` to `hi - 1`. */
  datatype Range = Range(lo: nat, hi: nat)

  /** The numbers smaller than `n`. */
  function Below(n: nat): (r: set<nat>)
    ensures |r| == n && forall x: nat :: x in r <==> x < n
  {
    if n == 0 then {} else Below(n - 1) + {n - 1}
  }

  lemma {:induction false} SubsetSize<T>(a: set<T>, b: set<T>)
    requires a <= b
    ensures |a| <= |b|
  {
    if a == {} {
    } else {
      var x :| x in a;
      SubsetSize(a - {x}, b - {x});
    }
  }
}
