/** Facts about finite sets of integers used when a loop takes keys out in order. */
module IntSets {
  /** A set with a positive size has an element. */
  lemma HasElement(s: set<int>)
    requires |s| > 0
    ensures exists y :: y in s
  {
    if forall y :: y !in s {
      assert false;
    }
  }

  /** A non-empty finite set of integers has a least element. */
  lemma MinExists(s: set<int>)
    requires |s| > 0
    ensures exists m :: m in s && forall x :: x in s ==> m <= x
  {
    var m := LeastOf(s);
  }

  /** A least element of a non-empty finite set, found by taking one element out. */
  lemma {:induction false} LeastOf(s: set<int>) returns (least: int)
    requires |s| > 0
    ensures least in s && forall x :: x in s ==> least <= x
    decreases |s|
  {
    HasElement(s);
    var y :| y in s;
    var rest := s - {y};
    assert |rest| == |s| - 1;
    if |rest| == 0 {
      least := y;
      forall x | x in s ensures y <= x {
        assert x !in rest;
      }
    } else {
      var m := LeastOf(rest);
      least := if y < m then y else m;
      assert least in s;
      forall x | x in s ensures least <= x {
        if x != y { assert x in rest; }
      }
    }
  }
}
