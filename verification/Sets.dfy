// Sizes of finite sets.
module Sets {
  lemma {:induction false} SubsetSize<T>(x: set<T>, y: set<T>)
    requires x <= y
    ensures |x| <= |y| && (x != y ==> |x| < |y|)
    decreases |x|
  {
    if x != {} {
      var c :| c in x;
      SubsetSize(x - {c}, y - {c});
      if x - {c} == y - {c} { assert x == (x - {c}) + {c} && y == (y - {c}) + {c}; }
    } else if y != {} {
      var c :| c in y;
      assert |y| > 0;
    }
  }
}
