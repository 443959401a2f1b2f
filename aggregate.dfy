/**
 * Filling a dictionary from a sequence of items in order, as the loop of
 * `generate_tests` does: each item either contributes one key/value pair,
 * which replaces any earlier value for that key, or is skipped.
 */
module Aggregate {
  import opened Wrappers

  /**
   * The dictionary after inserting the entries of `items` from first to last.
   * Each item adds at most one key.
   */
  function Collect<T, K, V>(items: seq<T>, entry: T -> Option<(K, V)>): (r: map<K, V>)
    ensures |r| <= |items|
  {
    if items == [] then map[]
    else
      var m := Collect(items[..|items| - 1], entry);
      match entry(items[|items| - 1])
      case None => m
      case Some((k, v)) => m[k := v]
  }

  /** Inserting one more item: the step the loop takes. */
  lemma CollectSnoc<T, K, V>(items: seq<T>, x: T, entry: T -> Option<(K, V)>)
    ensures Collect(items + [x], entry) ==
            match entry(x) case None => Collect(items, entry) case Some((k, v)) => Collect(items, entry)[k := v]
  {
    assert (items + [x])[..|items|] == items;
  }

  /** The keys are exactly the keys of the items that are not skipped. */
  lemma {:induction false} CollectKeys<T, K, V>(items: seq<T>, entry: T -> Option<(K, V)>, k: K)
    ensures k in Collect(items, entry) <==>
            exists i | 0 <= i < |items| :: entry(items[i]).Some? && entry(items[i]).value.0 == k
  {
    if items != [] {
      var n := |items| - 1;
      var init := items[..n];
      CollectKeys(init, entry, k);
      assert items == init + [items[n]];
      CollectSnoc(init, items[n], entry);
      assert forall i | 0 <= i < n :: init[i] == items[i];
    }
  }

  /**
   * The last item with a given key decides its value: an item that no later
   * item overrides keeps its value in the result.
   */
  lemma {:induction false} CollectLastWins<T, K, V>(items: seq<T>, entry: T -> Option<(K, V)>, i: nat)
    requires i < |items| && entry(items[i]).Some?
    requires forall j | i < j < |items| :: entry(items[j]).None? || entry(items[j]).value.0 != entry(items[i]).value.0
    ensures var (k, v) := entry(items[i]).value; k in Collect(items, entry) && Collect(items, entry)[k] == v
  {
    var n := |items| - 1;
    var init := items[..n];
    assert items == init + [items[n]];
    CollectSnoc(init, items[n], entry);
    if i < n {
      CollectLastWins(init, entry, i);
    }
  }

  /** A skipped item can be dropped without changing the result. */
  lemma {:induction false} CollectSkip<T, K, V>(front: seq<T>, x: T, back: seq<T>, entry: T -> Option<(K, V)>)
    requires entry(x).None?
    ensures Collect(front + [x] + back, entry) == Collect(front + back, entry)
  {
    if back == [] {
      assert front + [x] + back == front + [x];
      assert front + back == front;
      CollectSnoc(front, x, entry);
    } else {
      var n := |back| - 1;
      var y := back[n];
      CollectSkip(front, x, back[..n], entry);
      assert front + [x] + back == (front + [x] + back[..n]) + [y];
      assert front + back == (front + back[..n]) + [y];
      CollectSnoc(front + [x] + back[..n], y, entry);
      CollectSnoc(front + back[..n], y, entry);
    }
  }

  /**
   * Two neighbouring items with different keys can be inserted in either order:
   * only items that share a key depend on the processing order.
   */
  lemma {:induction false} CollectSwap<T, K, V>(front: seq<T>, a: T, b: T, back: seq<T>, entry: T -> Option<(K, V)>)
    requires entry(a).None? || entry(b).None? || entry(a).value.0 != entry(b).value.0
    ensures Collect(front + [a, b] + back, entry) == Collect(front + [b, a] + back, entry)
  {
    if back == [] {
      assert front + [a, b] + back == (front + [a]) + [b];
      assert front + [b, a] + back == (front + [b]) + [a];
      CollectSnoc(front, a, entry);
      CollectSnoc(front, b, entry);
      CollectSnoc(front + [a], b, entry);
      CollectSnoc(front + [b], a, entry);
    } else {
      var n := |back| - 1;
      var y := back[n];
      CollectSwap(front, a, b, back[..n], entry);
      assert front + [a, b] + back == (front + [a, b] + back[..n]) + [y];
      assert front + [b, a] + back == (front + [b, a] + back[..n]) + [y];
      CollectSnoc(front + [a, b] + back[..n], y, entry);
      CollectSnoc(front + [b, a] + back[..n], y, entry);
    }
  }

  /** Every value in the result is the value of some item with that key. */
  lemma {:induction false} CollectValueFrom<T, K, V>(items: seq<T>, entry: T -> Option<(K, V)>, k: K)
    requires k in Collect(items, entry)
    ensures exists i | 0 <= i < |items| :: entry(items[i]) == Some((k, Collect(items, entry)[k]))
  {
    var n := |items| - 1;
    var init := items[..n];
    assert items == init + [items[n]];
    CollectSnoc(init, items[n], entry);
    if entry(items[n]).None? || entry(items[n]).value.0 != k {
      CollectValueFrom(init, entry, k);
      var i :| 0 <= i < |init| && entry(init[i]) == Some((k, Collect(init, entry)[k]));
      assert items[i] == init[i];
    } else {
      assert entry(items[n]) == Some((k, Collect(items, entry)[k]));
    }
  }
}
