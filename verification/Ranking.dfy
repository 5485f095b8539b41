/** `list.sort(key=..., reverse=True)`: the order it establishes, which is descending and keeps equal
    keys in their original order. */
module Ranking {

  /** Sort keys are compared first by rank, then by score. */
  datatype Key = Key(rank: int, score: real)

  predicate Above(a: Key, b: Key) {
    a.rank > b.rank || (a.rank == b.rank && a.score > b.score)
  }

  /** Position `i` comes before position `j` in the sorted list. */
  predicate Before(keys: seq<Key>, i: nat, j: nat)
    requires i < |keys| && j < |keys|
  {
    Above(keys[i], keys[j]) || (keys[i] == keys[j] && i < j)
  }

  predicate Positions(order: seq<nat>, n: nat) {
    forall k | 0 <= k < |order| :: order[k] < n
  }

  ghost predicate Ordered(order: seq<nat>, keys: seq<Key>) {
    Positions(order, |keys|) && forall a, b | 0 <= a < b < |order| :: Before(keys, order[a], order[b])
  }

  /** Puts `x`, which comes later in the list than all of `order`, behind every key not below its own. */
  function Insert(x: nat, order: seq<nat>, keys: seq<Key>): (r: seq<nat>)
    requires x < |keys| && Positions(order, |keys|)
    ensures Positions(r, |keys|) && |r| == |order| + 1
    ensures forall p :: p in r <==> p == x || p in order
  {
    if order == [] then [x]
    else if Above(keys[x], keys[order[0]]) then [x] + order
    else
      var r := Insert(x, order[1..], keys);
      assert order == [order[0]] + order[1..];
      [order[0]] + r
  }

  lemma {:induction false} InsertKeepsOrder(x: nat, order: seq<nat>, keys: seq<Key>)
    requires x < |keys| && Ordered(order, keys) && forall k | 0 <= k < |order| :: order[k] < x
    ensures Ordered(Insert(x, order, keys), keys)
  {
    if order != [] {
      if Above(keys[x], keys[order[0]]) {
        forall b | 0 <= b < |order| ensures Before(keys, x, order[b]) {
          assert b > 0 ==> Before(keys, order[0], order[b]);
        }
      } else {
        InsertKeepsOrder(x, order[1..], keys);
        var r := Insert(x, order[1..], keys);
        forall b | 0 <= b < |r| ensures Before(keys, order[0], r[b]) {
          assert r[b] in r;
          if r[b] != x {
            var c :| 0 <= c < |order[1..]| && order[1..][c] == r[b];
            assert order[c + 1] == r[b];
          }
        }
      }
    }
  }

  /** The sorted order of the first `n` positions. */
  function OrderOf(keys: seq<Key>, n: nat): (r: seq<nat>)
    requires n <= |keys|
    ensures |r| == n && Positions(r, |keys|)
    ensures forall p :: p in r <==> 0 <= p < n
  {
    if n == 0 then [] else Insert(n - 1, OrderOf(keys, n - 1), keys)
  }

  lemma {:induction false} OrderIsOrdered(keys: seq<Key>, n: nat)
    requires n <= |keys|
    ensures Ordered(OrderOf(keys, n), keys)
  {
    if n > 0 {
      OrderIsOrdered(keys, n - 1);
      var order := OrderOf(keys, n - 1);
      assert forall k | 0 <= k < |order| :: order[k] in order;
      InsertKeepsOrder(n - 1, order, keys);
    }
  }

  /** Whatever is not among the first positions of the sorted order comes after them. */
  lemma OrderLeavesOutLater(keys: seq<Key>, a: nat, row: nat)
    requires a < |keys| && row < |keys| && row !in OrderOf(keys, |keys|)[..a + 1]
    ensures Before(keys, OrderOf(keys, |keys|)[a], row)
  {
    var order := OrderOf(keys, |keys|);
    OrderIsOrdered(keys, |keys|);
    forall c | 0 <= c <= a ensures order[c] != row {
      assert order[..a + 1][c] in order[..a + 1];
    }
    assert row in order;
    var b :| 0 <= b < |order| && order[b] == row;
  }

  function Keys<T>(xs: seq<T>, key: T -> Key): (ks: seq<Key>)
    ensures |ks| == |xs| && forall i | 0 <= i < |xs| :: ks[i] == key(xs[i])
  {
    seq(|xs|, i requires 0 <= i < |xs| => key(xs[i]))
  }

  /** The sorted list. */
  function Sorted<T>(xs: seq<T>, key: T -> Key): (r: seq<T>)
    ensures |r| == |xs|
    ensures forall i | 0 <= i < |xs| :: r[i] == xs[OrderOf(Keys(xs, key), |xs|)[i]]
  {
    var order := OrderOf(Keys(xs, key), |xs|);
    seq(|xs|, i requires 0 <= i < |xs| => xs[order[i]])
  }

  /** The sorted list has the same elements, and its head is not below any of them. */
  lemma SortedElements<T(!new)>(xs: seq<T>, key: T -> Key)
    ensures forall x :: x in Sorted(xs, key) <==> x in xs
    ensures forall i, j | 0 <= i < j < |xs| :: !Above(key(Sorted(xs, key)[j]), key(Sorted(xs, key)[i]))
  {
    var ks := Keys(xs, key);
    var order := OrderOf(ks, |xs|);
    OrderIsOrdered(ks, |xs|);
    forall i | 0 <= i < |xs| ensures xs[i] in Sorted(xs, key) {
      assert i in order;
      var j :| 0 <= j < |order| && order[j] == i;
      assert Sorted(xs, key)[j] == xs[i];
    }
    forall i, j | 0 <= i < j < |xs| ensures !Above(key(Sorted(xs, key)[j]), key(Sorted(xs, key)[i])) {
      assert Before(ks, order[i], order[j]);
    }
  }
}
