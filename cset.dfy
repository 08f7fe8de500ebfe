/** CSet: an unordered set of interned power names. */
module Sets {

  /**
   * CSet::Intersects: walks the smaller of the two sets and looks each
   * member up in the larger one, answering as soon as one is found. The
   * answer is whether the sets share a member, so it does not depend on
   * which set asks and an empty set meets nothing.
   */
  method Intersects(mine: set<string>, other: set<string>) returns (r: bool)
    ensures r <==> exists x :: x in mine && x in other
    ensures r <==> exists x :: x in other && x in mine
    ensures mine == {} || other == {} ==> !r
  {
    var small, large := mine, other;
    if |mine| > |other| {
      small, large := other, mine;
    }
    var rest := small;
    while rest != {}
      invariant rest <= small
      invariant forall x :: x in small && x !in rest ==> x !in large
      decreases |rest|
    {
      if forall y :: y !in rest {
        assert false;
      }
      var item :| item in rest;
      if item in large {
        return true;
      }
      rest := rest - {item};
    }
    r := false;
  }
}
