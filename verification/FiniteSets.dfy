/** Sizes of finite sets of strings. */
module FiniteSets {
  /** Comparing sizes tells whether a set inside another is all of it. */
  lemma {:induction false} SizesTell(a: set<string>, b: set<string>)
    requires a <= b
    ensures |a| <= |b| && (|a| == |b| <==> a == b)
    decreases a
  {
    if a != {} {
      var x :| x in a;
      SizesTell(a - {x}, b - {x});
      assert a == (a - {x}) + {x} && b == (b - {x}) + {x};
    }
  }
}
