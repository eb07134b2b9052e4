/** The search for two numbers with a given sum, with one index from each end. */
module TwoPointer {

  ghost predicate Sorted(a: seq<int>) {
    forall p, q :: 0 <= p < q < |a| ==> a[p] <= a[q]
  }

  predicate FitsInt(x: int) { -0x8000_0000 <= x <= 0x7fff_ffff }

  ghost predicate HasPair(a: seq<int>, target: int) {
    exists p, q :: 0 <= p < q < |a| && a[p] + a[q] == target
  }

  /** Every pair with a position outside i..j misses the target. */
  ghost predicate OutsideMisses(a: seq<int>, target: int, i: int, j: int) {
    forall p, q :: 0 <= p < q < |a| && (p < i || j < q) ==> a[p] + a[q] != target
  }

  lemma MoveRight(a: seq<int>, target: int, i: int, j: int)
    requires Sorted(a) && 0 <= i < j < |a| && OutsideMisses(a, target, i, j) && a[i] + a[j] < target
    ensures OutsideMisses(a, target, i + 1, j)
  {
    forall q | i < q < |a| ensures a[i] + a[q] != target {
      if q <= j { assert a[q] <= a[j]; }
    }
  }

  lemma MoveLeft(a: seq<int>, target: int, i: int, j: int)
    requires Sorted(a) && 0 <= i < j < |a| && OutsideMisses(a, target, i, j) && a[i] + a[j] > target
    ensures OutsideMisses(a, target, i, j - 1)
  {
    forall p | 0 <= p < j ensures a[p] + a[j] != target {
      if i <= p { assert a[i] <= a[p]; }
    }
  }

  /** `found` says that the loop was left through its break. A length below 2, even a negative one, finds
      nothing. */
  method FindNumber(a: array<int>, length: int, target: int) returns (found: bool, i: int, j: int)
    requires length <= a.Length
    requires length > 0 ==> Sorted(a[..length])
    requires forall p, q :: 0 <= p < q < length ==> FitsInt(a[p] + a[q])
    ensures found <==> length > 0 && HasPair(a[..length], target)
    ensures found ==> 0 <= i < j < length && a[i] + a[j] == target
  {
    i, j := 0, length - 1;
    found := false;
    ghost var s := if length > 0 then a[..length] else [];
    while i < j
      invariant 0 <= i && j < length && (i <= j || length <= 0 || i == j + 1)
      invariant OutsideMisses(s, target, i, j)
    {
      var sum := a[i] + a[j];
      if sum == target {
        assert s[i] + s[j] == target;
        found := true;
        break;
      } else if sum > target {
        MoveLeft(s, target, i, j);
        j := j - 1;
      } else {
        MoveRight(s, target, i, j);
        i := i + 1;
      }
    }
  }
}
