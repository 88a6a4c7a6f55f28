/** Finite sets of integers listed in ascending order. */
module Sorted {
  import opened Collections

  ghost function Min(s: set<int>): (m: int)
    requires s != {}
    ensures m in s && forall y | y in s :: m <= y
  {
    MinExists(s);
    var x :| x in s && forall y | y in s :: x <= y;
    x
  }

  ghost function Ascending(s: set<int>): (l: seq<int>)
    ensures |l| == |s|
  {
    if s == {} then [] else [Min(s)] + Ascending(s - {Min(s)})
  }

  ghost predicate StrictlyAscending(l: seq<int>) {
    forall i, j | 0 <= i < j < |l| :: l[i] < l[j]
  }

  lemma {:induction false} AscendingIsUnique(l: seq<int>, s: set<int>)
    requires StrictlyAscending(l) && forall n :: n in l <==> n in s
    ensures l == Ascending(s)
    decreases |l|
  {
    if l == [] {
      assert s == {};
    } else {
      assert l[0] in l;
      assert l[0] in s;
      assert forall n | n in s :: l[0] <= n;
      assert Min(s) == l[0];
      var rest := s - {l[0]};
      forall n ensures n in l[1..] <==> n in rest {
        if n in l[1..] { assert n != l[0]; }
      }
      AscendingIsUnique(l[1..], rest);
    }
  }

  /** Putting a new number in its place. */
  lemma InsertedIn(before: seq<int>, k: nat, number: int)
    requires k <= |before| && StrictlyAscending(before)
    requires k > 0 ==> before[k - 1] < number
    requires k < |before| ==> number < before[k]
    ensures StrictlyAscending(before[..k] + [number] + before[k..])
    ensures forall n :: n in before[..k] + [number] + before[k..] <==> n in before || n == number
  {
    var after := before[..k] + [number] + before[k..];
    forall i, j | 0 <= i < j < |after| ensures after[i] < after[j] {
      assert after[i] == if i < k then before[i] else if i == k then number else before[i - 1];
      assert after[j] == if j < k then before[j] else if j == k then number else before[j - 1];
    }
    forall n ensures n in after <==> n in before || n == number {
      if n in before {
        var t :| 0 <= t < |before| && before[t] == n;
        assert after[if t < k then t else t + 1] == n;
      }
      assert after[k] == number;
    }
  }

  /** List a set in ascending order, one element at a time. */
  method Sort(s: set<int>) returns (list: seq<int>)
    ensures list == Ascending(s)
    ensures StrictlyAscending(list) && forall n :: n in list <==> n in s
  {
    list := [];
    var left := s;
    while left != {}
      invariant left <= s && StrictlyAscending(list)
      invariant forall n :: n in list <==> n in s - left
      decreases left
    {
      ghost var member := Member(left);
      assert member in left;
      var number :| number in left;
      left := left - {number};
      var k := |list|;
      while k > 0 && list[k - 1] > number
        invariant 0 <= k <= |list| && (k < |list| ==> number < list[k])
      {
        k := k - 1;
      }
      assert k > 0 ==> list[k - 1] in list;
      InsertedIn(list, k, number);
      list := list[..k] + [number] + list[k..];
    }
    AscendingIsUnique(list, s);
  }
}
