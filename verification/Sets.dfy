/** Cardinalities of finite sets. */
module Sets {
  lemma {:induction false} FewerElements<T>(s: set<T>, t: set<T>)
    requires s <= t
    ensures |s| <= |t|
  {
    if s == {} {
    } else {
      var x :| x in s;
      FewerElements(s - {x}, t - {x});
    }
  }
}
