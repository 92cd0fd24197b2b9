/** Finite sets. */
module Sets {
  lemma {:induction false} CardinalityGrows<A>(a: set<A>, b: set<A>)
    requires a <= b
    ensures |a| <= |b| && (a < b ==> |a| < |b|)
  {
    if a != {} {
      var x :| x in a;
      CardinalityGrows(a - {x}, b - {x});
    }
  }
}
