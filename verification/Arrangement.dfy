/** Stable sorting, as the order in which the rows of a frame are taken, and the order of texts. */
module Arrangement {
  /** Every index below `n` once. */
  ghost predicate IsPermutation(order: seq<nat>, n: nat) {
    |order| == n && forall i: nat :: i in order <==> i < n
  }

  ghost predicate Sorted(order: seq<nat>, before: (nat, nat) -> bool) {
    forall i, j :: 0 <= i < j < |order| ==> !before(order[j], order[i])
  }

  /** Not coming before is transitive, and two do not each come before the other. */
  ghost predicate WeakOrder(before: (nat, nat) -> bool) {
    && (forall a, b, c :: !before(b, a) && !before(c, b) ==> !before(c, a))
    && (forall a, b :: before(a, b) ==> !before(b, a))
  }

  function Insert(order: seq<nat>, x: nat, before: (nat, nat) -> bool): seq<nat> {
    if order == [] || !before(x, order[|order| - 1]) then order + [x]
    else Insert(order[..|order| - 1], x, before) + [order[|order| - 1]]
  }

  /** The indices below `n`, sorted; equal ones keep their order. */
  function Order(n: nat, before: (nat, nat) -> bool): seq<nat> {
    if n == 0 then [] else Insert(Order(n - 1, before), n - 1, before)
  }

  lemma {:induction false} InsertHolds(order: seq<nat>, x: nat, before: (nat, nat) -> bool, y: nat)
    ensures |Insert(order, x, before)| == |order| + 1
    ensures y in Insert(order, x, before) <==> y in order || y == x
  {
    if order != [] && before(x, order[|order| - 1]) {
      InsertHolds(order[..|order| - 1], x, before, y);
      assert y in order <==> y in order[..|order| - 1] || y == order[|order| - 1];
    }
  }

  lemma {:induction false} OrderIsPermutation(n: nat, before: (nat, nat) -> bool)
    ensures IsPermutation(Order(n, before), n)
  {
    if n > 0 {
      OrderIsPermutation(n - 1, before);
      forall i: nat
        ensures i in Order(n, before) <==> i < n
      {
        InsertHolds(Order(n - 1, before), n - 1, before, i);
      }
      InsertHolds(Order(n - 1, before), n - 1, before, 0);
    }
  }

  lemma {:induction false} InsertKeepsSorted(order: seq<nat>, x: nat, before: (nat, nat) -> bool)
    requires WeakOrder(before) && Sorted(order, before)
    ensures Sorted(Insert(order, x, before), before)
  {
    if order == [] {
    } else {
      var init, last := order[..|order| - 1], order[|order| - 1];
      var sorted := Insert(order, x, before);
      if before(x, last) {
        InsertKeepsSorted(init, x, before);
        forall i | 0 <= i < |sorted| - 1
          ensures !before(last, sorted[i])
        {
          InsertHolds(init, x, before, sorted[i]);
          assert sorted[i] in Insert(init, x, before);
        }
      } else {
        forall i | 0 <= i < |order|
          ensures !before(x, order[i])
        {
          assert i < |order| - 1 ==> !before(last, order[i]);
        }
      }
    }
  }

  lemma {:induction false} OrderIsSorted(n: nat, before: (nat, nat) -> bool)
    requires WeakOrder(before)
    ensures Sorted(Order(n, before), before)
  {
    if n > 0 {
      OrderIsSorted(n - 1, before);
      InsertKeepsSorted(Order(n - 1, before), n - 1, before);
    }
  }

  /** One permutation after another. */
  lemma ComposedIsPermutation(first: seq<nat>, second: seq<nat>, n: nat)
    requires IsPermutation(first, n) && IsPermutation(second, n)
    ensures forall i :: 0 <= i < n ==> second[i] in second && second[i] < n
    ensures IsPermutation(seq(n, (i: nat) requires i < n => first[second[i]]), n)
  {
    assert forall i :: 0 <= i < n ==> second[i] in second;
    var both := seq(n, (i: nat) requires i < n => first[second[i]]);
    forall k: nat
      ensures k in both <==> k < n
    {
      if k < n {
        assert k in first;
        var j :| 0 <= j < n && first[j] == k;
        assert j in second;
        var i :| 0 <= i < n && second[i] == j;
        assert both[i] == k;
      }
      if k in both {
        var i :| 0 <= i < n && both[i] == k;
        assert first[second[i]] in first;
      }
    }
  }

  // ---------------------------------------------------------------- texts

  predicate TextLess(a: string, b: string) {
    if b == "" then false
    else if a == "" then true
    else if a[0] != b[0] then a[0] < b[0]
    else TextLess(a[1..], b[1..])
  }

  /** At the first place where the texts differ the first has the smaller character, or it ends there. */
  ghost predicate DiffersBelow(a: string, b: string, k: nat) {
    k <= |a| && k < |b| && a[..k] == b[..k] && (k < |a| ==> a[k] < b[k])
  }

  lemma {:induction false} TextLessIs(a: string, b: string)
    ensures TextLess(a, b) <==> exists k: nat :: DiffersBelow(a, b, k)
  {
    if a == "" {
      assert b != "" ==> DiffersBelow(a, b, 0);
    } else if b != "" {
      TextLessIs(a[1..], b[1..]);
      if k: nat :| DiffersBelow(a, b, k) {
        if k > 0 {
          assert a[0] == a[..k][0] && b[0] == b[..k][0];
          assert a[1..][..k - 1] == a[..k][1..] && b[1..][..k - 1] == b[..k][1..];
          assert DiffersBelow(a[1..], b[1..], k - 1);
        }
      }
      if a[0] == b[0] && TextLess(a[1..], b[1..]) {
        var k: nat :| DiffersBelow(a[1..], b[1..], k);
        assert a[..k + 1] == [a[0]] + a[1..][..k] && b[..k + 1] == [b[0]] + b[1..][..k];
        assert DiffersBelow(a, b, k + 1);
      }
      if a[0] < b[0] {
        assert DiffersBelow(a, b, 0);
      }
    }
  }

  lemma {:induction false} TextsAreOrdered(a: string, b: string, c: string)
    ensures !TextLess(b, a) && !TextLess(c, b) ==> !TextLess(c, a)
    ensures TextLess(a, b) ==> !TextLess(b, a)
    decreases a, b, c
  {
    if a != "" && b != "" && c != "" {
      TextsAreOrdered(a[1..], b[1..], c[1..]);
    } else if a != "" && b != "" {
      TextsAreOrdered(a[1..], b[1..], c);
    }
  }

  lemma {:induction false} SameText(a: string, b: string)
    requires !TextLess(a, b) && !TextLess(b, a)
    ensures a == b
  {
    if a != "" && b != "" {
      SameText(a[1..], b[1..]);
      assert a == [a[0]] + a[1..] && b == [b[0]] + b[1..];
    }
  }
}
