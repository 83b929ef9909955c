/** The iteration order of java.util.TreeMap over integer keys. */
module SortedKeys {
  predicate StrictlyIncreasing(s: seq<int>) {
    forall i, j :: 0 <= i < j < |s| ==> s[i] < s[j]
  }

  lemma {:induction false} HasMinimum(ks: set<int>)
    requires ks != {}
    ensures exists m :: m in ks && forall y :: y in ks ==> m <= y
    decreases |ks|
  {
    if forall y :: y !in ks {
      assert false;
    }
    var x :| x in ks;
    if ks != {x} {
      HasMinimum(ks - {x});
      var m :| m in ks - {x} && forall y :: y in ks - {x} ==> m <= y;
      var w := if x < m then x else m;
      assert forall y :: y in ks ==> y == x || y in ks - {x};
      assert w in ks && forall y :: y in ks ==> w <= y;
    } else {
      assert forall y :: y in ks ==> y == x;
    }
  }

  ghost function Minimum(ks: set<int>): (m: int)
    requires ks != {}
    ensures m in ks && forall y :: y in ks ==> m <= y
  {
    HasMinimum(ks);
    var m :| m in ks && forall y :: y in ks ==> m <= y; m
  }

  /**
   * The keys in the order a TreeMap's key set iterates them: ascending, each key
   * exactly once. `firstKey` is the head, `lastKey` the last element.
   */
  ghost function AscendingKeys(ks: set<int>): (r: seq<int>)
    ensures StrictlyIncreasing(r)
    ensures forall i :: 0 <= i < |r| ==> r[i] in ks
    ensures forall x :: x in ks ==> x in r
    ensures |r| == |ks|
    decreases |ks|
  {
    if ks == {} then []
    else
      var m := Minimum(ks);
      var rest := AscendingKeys(ks - {m});
      assert forall x :: x in rest ==> m < x;
      [m] + rest
  }
}
