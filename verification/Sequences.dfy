/** Ascending sequences of numbers, and sequences with an item taken out. */
module Sequences {
  predicate Ascending(numbers: seq<nat>) {
    forall i, j | 0 <= i < j < |numbers| :: numbers[i] < numbers[j]
  }

  function RemoveAt<T>(items: seq<T>, at: nat): (rest: seq<T>)
    requires at < |items|
  {
    items[..at] + items[at + 1..]
  }

  lemma AscendingPush(numbers: seq<nat>, next: nat)
    requires Ascending(numbers) && forall n | n in numbers :: n < next
    ensures Ascending(numbers + [next])
  {
    assert forall i | 0 <= i < |numbers| :: numbers[i] in numbers;
  }

  /** The places of the items to keep, in order. */
  function Places<T>(items: seq<T>, keep: T -> bool): (places: seq<nat>)
    ensures forall p :: p in places <==> 0 <= p < |items| && keep(items[p])
  {
    if items == [] then []
    else
      var n := |items| - 1;
      var earlier := Places(items[..n], keep);
      if keep(items[n]) then earlier + [n] else earlier
  }

  lemma {:induction false} PlacesAscend<T>(items: seq<T>, keep: T -> bool)
    ensures Ascending(Places(items, keep))
  {
    hide Ascending;
    if items == [] {
      NothingAscends();
    } else {
      var n := |items| - 1;
      PlacesAscend(items[..n], keep);
      AscendingPush(Places(items[..n], keep), n);
    }
  }

  lemma NothingAscends()
    ensures Ascending([])
  {
  }

  /** The items to keep. */
  function Kept<T>(items: seq<T>, keep: T -> bool): seq<T> {
    if items == [] then []
    else
      var n := |items| - 1;
      Kept(items[..n], keep) + if keep(items[n]) then [items[n]] else []
  }

  /** They are the items at the ascending places to keep: each as often as it is
      there, in its order. */
  lemma {:induction false} KeptInPlace<T>(items: seq<T>, keep: T -> bool)
    ensures var kept, places := Kept(items, keep), Places(items, keep);
            && |kept| == |places|
            && forall i | 0 <= i < |kept| :: places[i] < |items| && kept[i] == items[places[i]]
  {
    if items != [] {
      var n := |items| - 1;
      KeptInPlace(items[..n], keep);
    }
  }

  lemma {:induction false} KeptFirst<T>(first: T, items: seq<T>, keep: T -> bool)
    ensures Kept([first] + items, keep) == (if keep(first) then [first] else []) + Kept(items, keep)
  {
    var all := [first] + items;
    if items == [] {
      assert all[..0] == [] && all == [first];
    } else {
      var n := |items| - 1;
      KeptFirst(first, items[..n], keep);
      assert all[..n + 1] == [first] + items[..n] && all[n + 1] == items[n];
    }
  }

  /** Keeping by predicates that agree on the items keeps the same. */
  lemma {:induction false} KeptAlike<T>(items: seq<T>, keep: T -> bool, alike: T -> bool)
    requires forall i | 0 <= i < |items| :: keep(items[i]) == alike(items[i])
    ensures Kept(items, keep) == Kept(items, alike)
  {
    if items != [] {
      var n := |items| - 1;
      assert forall i | 0 <= i < n :: items[..n][i] == items[i];
      KeptAlike(items[..n], keep, alike);
    }
  }
}
