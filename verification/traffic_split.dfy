/** Integer bookkeeping of the traffic-split sliders: the equal split, the
    order in which the rebalancer visits the sliders, and
    `distributeAdjustment` with its proportional pass, its one-point pass
    and its fallback. */
module TrafficSplit {
  import opened Numerics

  /** The range of a slider (`min="1"`, `max="99"`). */
  const MinShare: int := 1
  const MaxShare: int := 99
  /** Full rounds the one-point pass makes before it gives up. */
  const MaxRounds: int := 100

  function Sum(s: seq<int>): int {
    if |s| == 0 then 0 else Sum(s[..|s| - 1]) + s[|s| - 1]
  }

  lemma SumAppend(s: seq<int>, x: int)
    ensures Sum(s + [x]) == Sum(s) + x
  {
    assert (s + [x])[..|s|] == s;
  }

  /** Replacing one element changes the sum by the difference. */
  lemma {:induction false} SumUpdate(s: seq<int>, i: int, v: int)
    requires 0 <= i < |s|
    ensures Sum(s[i := v]) == Sum(s) - s[i] + v
  {
    var t := s[i := v];
    if i == |s| - 1 {
      assert t[..|t| - 1] == s[..|s| - 1];
    } else {
      SumUpdate(s[..|s| - 1], i, v);
      assert t[..|t| - 1] == s[..|s| - 1][i := v];
    }
  }

  lemma {:induction false} SumConstant(n: nat, c: int)
    ensures Sum(seq(n, _ => c)) == n * c
  {
    if n > 0 {
      SumConstant(n - 1, c);
      assert seq(n, _ => c)[..n - 1] == seq(n - 1, _ => c);
    }
  }

  predicate InShareRange(s: seq<int>) {
    forall i :: 0 <= i < |s| ==> MinShare <= s[i] <= MaxShare
  }

  // ---------------------------------------------------------------------
  // The equal split

  /** The equal split of 100 % over `k` arms: each arm gets floor(100 / k)
      and arm A also takes what is left over. No arms for `k <= 0`. */
  function EqualSplit(k: int): (shares: seq<int>)
    ensures |shares| == if k <= 0 then 0 else k
    ensures 0 < k ==> Sum(shares) == 100
    ensures forall i, j :: 0 < i < |shares| && 0 < j < |shares| ==> shares[i] == shares[j]
    ensures forall i :: 0 < i < |shares| ==> 0 <= shares[0] - shares[i] < k
  {
    if k <= 0 then []
    else
      var equal := 100 / k;
      var remainder := 100 - equal * k;
      SplitRemainder(k);
      EqualSplitSum(k, equal, remainder);
      seq(k, i => if i == 0 then equal + remainder else equal)
  }

  /** What the split leaves over is 100 mod k. */
  lemma SplitRemainder(k: int)
    requires 0 < k
    ensures 100 - (100 / k) * k == 100 % k
    ensures 0 <= 100 - (100 / k) * k < k
  {
  }

  lemma EqualSplitSum(k: int, equal: int, remainder: int)
    requires 0 < k && equal * k + remainder == 100
    ensures Sum(seq(k, i => if i == 0 then equal + remainder else equal)) == 100
  {
    var shares := seq(k, i => if i == 0 then equal + remainder else equal);
    SumConstant(k, equal);
    assert shares == seq(k, _ => equal)[0 := equal + remainder];
    SumUpdate(seq(k, _ => equal), 0, equal + remainder);
  }

  /** The equal split is the only split of 100 % over `k` arms in which the
      arms other than A are equal and A exceeds them by less than `k`. */
  lemma EqualSplitUnique(k: int, shares: seq<int>)
    requires 0 < k && |shares| == k
    requires Sum(shares) == 100
    requires forall i :: 0 < i < k ==> shares[i] == shares[k - 1]
    requires forall i :: 0 < i < k ==> 0 <= shares[0] - shares[i] < k
    ensures shares == EqualSplit(k)
  {
    var equal := shares[k - 1];
    var extra := shares[0] - equal;
    assert shares == seq(k, _ => equal)[0 := equal + extra];
    SumConstant(k, equal);
    SumUpdate(seq(k, _ => equal), 0, equal + extra);
    assert equal * k + extra == 100;
    if k > 1 {
      assert 0 <= extra < k;
      DivisionUnique(100, k, equal, extra);
    } else {
      assert equal == 100 - extra;
    }
    SplitRemainder(k);
  }

  /** Quotient and remainder are the only such pair. */
  lemma DivisionUnique(a: int, k: int, q: int, r: int)
    requires 0 < k && 0 <= r < k && q * k + r == a
    ensures q == a / k && r == a % k
  {
    var d := q - a / k;
    assert d * k == a % k - r;
    if d >= 1 {
      MultiplyAtLeast(d, k);
    } else if d <= -1 {
      MultiplyAtLeast(-d, k);
    }
  }

  lemma MultiplyAtLeast(d: int, k: int)
    requires 1 <= d && 0 < k
    ensures k <= d * k
  {
  }

  // ---------------------------------------------------------------------
  // The order of the one-point pass

  /** Slot `i` comes before slot `j`: the larger value first when values
      must come down, the smaller first when they must go up, and equal
      values in index order, as a stable sort with the comparator
      `b - a` (resp. `a - b`) leaves them. */
  predicate Before(values: seq<int>, reducing: bool, i: nat, j: nat)
    requires i < |values| && j < |values|
  {
    if values[i] != values[j] then (if reducing then values[i] > values[j] else values[i] < values[j])
    else i < j
  }

  predicate InRange(order: seq<nat>, n: nat) {
    forall a :: 0 <= a < |order| ==> order[a] < n
  }

  predicate SortedBy(values: seq<int>, reducing: bool, order: seq<nat>)
    requires InRange(order, |values|)
  {
    forall a, b :: 0 <= a < b < |order| ==> Before(values, reducing, order[a], order[b])
  }

  /** Inserting a new slot into a sorted order keeps it sorted. */
  function Insert(values: seq<int>, reducing: bool, x: nat, order: seq<nat>): (r: seq<nat>)
    requires x < |values| && InRange(order, |values|)
    requires SortedBy(values, reducing, order)
    requires x !in order
    ensures |r| == |order| + 1
    ensures InRange(r, |values|)
    ensures forall y :: y in r <==> y == x || y in order
    ensures SortedBy(values, reducing, r)
    decreases |order|
  {
    if |order| == 0 then [x]
    else if Before(values, reducing, x, order[0]) then
      [x] + order
    else
      var rest := Insert(values, reducing, x, order[1..]);
      assert forall b :: 0 <= b < |rest| ==> rest[b] in rest;
      assert forall b :: 0 <= b < |order| - 1 ==> order[1..][b] == order[b + 1];
      [order[0]] + rest
  }

  /** The slots 0 .. k-1 in priority order. */
  function Ranking(values: seq<int>, reducing: bool, k: nat): (order: seq<nat>)
    requires k <= |values|
    ensures |order| == k && InRange(order, |values|)
    ensures forall y :: y in order <==> 0 <= y < k
    ensures SortedBy(values, reducing, order)
  {
    if k == 0 then []
    else
      var prefix := Ranking(values, reducing, k - 1);
      assert k - 1 !in prefix;
      Insert(values, reducing, k - 1, prefix)
  }

  /** The slider indices sorted as the one-point pass visits them. */
  function PriorityOrder(values: seq<int>, reducing: bool): (order: seq<nat>)
    ensures |order| == |values| && InRange(order, |values|)
    ensures forall y :: y in order <==> 0 <= y < |values|
    ensures SortedBy(values, reducing, order)
  {
    Ranking(values, reducing, |values|)
  }

  lemma HeadIsMember(o: seq<nat>)
    ensures |o| > 0 ==> o[0] in o
  {
  }

  /** Two orders sorted by `Before` over the same slots are the same order:
      the order of the one-point pass does not depend on the sorting
      algorithm, only on the comparator and stability. */
  lemma {:induction false} SortedOrderUnique(values: seq<int>, reducing: bool, o1: seq<nat>, o2: seq<nat>)
    requires InRange(o1, |values|) && InRange(o2, |values|)
    requires SortedBy(values, reducing, o1) && SortedBy(values, reducing, o2)
    requires forall y :: y in o1 <==> y in o2
    ensures o1 == o2
    decreases |o1|
  {
    HeadIsMember(o1);
    HeadIsMember(o2);
    if |o1| != 0 {
      assert o1[0] == o2[0];
      var r1 := o1[1..];
      var r2 := o2[1..];
      assert forall a :: 0 <= a < |r1| ==> r1[a] == o1[a + 1];
      assert forall b :: 0 <= b < |r2| ==> r2[b] == o2[b + 1];
      forall y
        ensures y in r1 <==> y in r2
      {
        if y in r1 {
          var a :| 0 <= a < |r1| && r1[a] == y;
          assert Before(values, reducing, o1[0], o1[a + 1]);
          assert y in o2 && y != o2[0];
        }
        if y in r2 {
          var b :| 0 <= b < |r2| && r2[b] == y;
          assert Before(values, reducing, o2[0], o2[b + 1]);
          assert y in o1 && y != o1[0];
        }
      }
      SortedOrderUnique(values, reducing, r1, r2);
      assert o1 == [o1[0]] + r1 && o2 == [o2[0]] + r2;
    }
  }

  // ---------------------------------------------------------------------
  // distributeAdjustment

  /** `Math.max(1, Math.min(99, x))`. */
  function ClampShare(x: int): (r: int)
    ensures MinShare <= r <= MaxShare
    ensures MinShare <= x <= MaxShare ==> r == x
    ensures x < MinShare ==> r == MinShare
    ensures MaxShare < x ==> r == MaxShare
  {
    if MaxShare < x then MaxShare else if x < MinShare then MinShare else x
  }

  /** The share of the adjustment slot `i` takes in the first pass: its
      part of the total, or an equal part when the total is not positive. */
  function Weight(current: seq<int>, i: int): real
    requires 0 <= i < |current|
  {
    if Sum(current) > 0 then current[i] as real / Sum(current) as real else 1.0 / |current| as real
  }

  /** The value the first pass gives slot `i`: the current value less its
      rounded proportional part of the adjustment, clamped to the slider range. */
  function FirstPassValue(current: seq<int>, amount: int, i: int): (v: int)
    requires 0 <= i < |current|
    ensures MinShare <= v <= MaxShare
  {
    ClampShare(current[i] - Round(amount as real * Weight(current, i)))
  }

  /** The first pass: every slot takes its proportional part, clamped;
      `left` is the part of the adjustment the clamping and rounding left over. */
  method FirstPass(current: seq<int>, amount: int) returns (adjusted: seq<int>, left: int)
    ensures |adjusted| == |current|
    ensures forall i :: 0 <= i < |current| ==> adjusted[i] == FirstPassValue(current, amount, i)
    ensures InShareRange(adjusted)
    ensures Sum(adjusted) == Sum(current) - (amount - left)
  {
    adjusted := [];
    left := amount;
    for i := 0 to |current|
      invariant |adjusted| == i
      invariant forall k :: 0 <= k < i ==> adjusted[k] == FirstPassValue(current, amount, k)
      invariant Sum(adjusted) == Sum(current[..i]) - (amount - left)
    {
      var newValue := FirstPassValue(current, amount, i);
      left := left - (current[i] - newValue);
      SumAppend(adjusted, newValue);
      assert current[..i + 1][..i] == current[..i];
      adjusted := adjusted + [newValue];
    }
    assert current[..|current|] == current;
  }

  /** The one-point pass: visits the slots in priority order, moving each
      by one point towards the target when that keeps it in range, and
      starts over from the first slot while something is left, for at most
      `MaxRounds` further rounds. */
  method SecondPass(values: seq<int>, left: int) returns (result: seq<int>, remaining: int, rounds: int)
    requires InShareRange(values)
    ensures |result| == |values| && InShareRange(result)
    ensures Sum(result) - remaining == Sum(values) - left
    ensures 0 <= left ==> 0 <= remaining <= left && forall i :: 0 <= i < |values| ==> result[i] <= values[i]
    ensures left <= 0 ==> left <= remaining <= 0 && forall i :: 0 <= i < |values| ==> values[i] <= result[i]
    ensures 0 <= rounds <= MaxRounds
    ensures remaining != 0 && 0 < |values| ==> rounds == MaxRounds
  {
    var n := |values|;
    var order := PriorityOrder(values, left > 0);
    result := values;
    remaining := left;
    rounds := 0;
    var i := 0;
    while remaining != 0 && i < n && rounds < MaxRounds
      invariant 0 <= i <= n && 0 <= rounds <= MaxRounds
      invariant |result| == n && InShareRange(result)
      invariant Sum(result) - remaining == Sum(values) - left
      invariant 0 <= left ==> 0 <= remaining <= left && forall k :: 0 <= k < n ==> result[k] <= values[k]
      invariant left <= 0 ==> left <= remaining <= 0 && forall k :: 0 <= k < n ==> values[k] <= result[k]
      invariant 0 < n && i == n ==> remaining == 0
      decreases MaxRounds - rounds, n - i
    {
      var idx := order[i];
      var step := if remaining > 0 then 1 else -1;
      var newValue := result[idx] - step;
      if MinShare <= newValue <= MaxShare {
        SumUpdate(result, idx, newValue);
        result := result[idx := newValue];
        remaining := remaining - step;
      }
      if i == n - 1 && remaining != 0 {
        i := 0;
        rounds := rounds + 1;
      } else {
        i := i + 1;
      }
    }
  }

  /** Slot `i` after the fallback over `n` sliders: 1, plus up to 98 of the
      100 - n points still to hand out, earlier slots first. */
  function FallbackShare(n: int, i: int): int {
    1 + Min(98, Max(0, 100 - n - 98 * i))
  }

  function Min(a: int, b: int): int {
    if a <= b then a else b
  }

  function Max(a: int, b: int): int {
    if a <= b then b else a
  }

  /** The fallback: with points still to remove, every slider is reset to 1
      and 100 - n points are handed out from the first slot on, at most 98
      each; with points still to add nothing changes. */
  method Fallback(values: seq<int>, left: int) returns (result: seq<int>)
    ensures left <= 0 ==> result == values
    ensures 0 < left ==> |result| == |values| && forall i :: 0 <= i < |values| ==> result[i] == FallbackShare(|values|, i)
    ensures 0 < left ==> InShareRange(result)
    ensures 0 < left ==> Sum(result) == if |values| >= 100 then |values| else Min(100, 99 * |values|)
  {
    if left <= 0 {
      return values;
    }
    var n := |values|;
    result := seq(n, _ => 1);
    SumConstant(n, 1);
    var remaining := 100 - n;
    var i := 0;
    while i < n && remaining > 0
      invariant 0 <= i <= n && |result| == n
      invariant forall k :: 0 <= k < i ==> result[k] == FallbackShare(n, k)
      invariant forall k :: i <= k < n ==> result[k] == 1
      invariant i == 0 ==> remaining == 100 - n
      invariant 0 < i ==> n < 100
      invariant 0 < i ==> remaining == Max(0, 100 - n - 98 * i)
      invariant Sum(result) + remaining == 100
    {
      var additional := Min(98, remaining);
      SumUpdate(result, i, result[i] + additional);
      result := result[i := result[i] + additional];
      remaining := remaining - additional;
      i := i + 1;
    }
    forall k | i <= k < n
      ensures result[k] == FallbackShare(n, k)
    {
      assert 100 - n - 98 * k <= 0;
    }
    if i == 0 {
      assert Sum(result) == n;
    } else if remaining <= 0 {
      assert 2 <= n && Sum(result) == 100;
    } else {
      assert i == n && n == 1;
    }
  }

  /** `distributeAdjustment`: removes `amount` points (adds them when
      negative) from the other sliders. Returns the new values and the
      points it could not place. Without sliders nothing happens. */
  method DistributeAdjustment(current: seq<int>, amount: int) returns (adjusted: seq<int>, left: int)
    ensures |adjusted| == |current|
    ensures |current| == 0 ==> left == amount
    ensures 0 < |current| ==> InShareRange(adjusted)
    ensures left == 0 ==> Sum(adjusted) == Sum(current) - amount
    ensures left < 0 ==> Sum(adjusted) == Sum(current) - (amount - left)
    ensures 0 < left ==> forall i :: 0 <= i < |current| ==> adjusted[i] == FallbackShare(|current|, i)
  {
    if |current| == 0 {
      return current, amount;
    }
    adjusted, left := FirstPass(current, amount);
    if left != 0 {
      var rounds;
      adjusted, left, rounds := SecondPass(adjusted, left);
      if left != 0 {
        adjusted := Fallback(adjusted, left);
      }
    }
  }
}
