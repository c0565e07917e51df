/** The items of the benchmark: producer p makes p * 1000 + i for i = 0, 1, ... */
module Items {

  function Item(p: nat, i: nat): int { p * 1000 + i }

  /** The first k items of producer p. */
  function ItemsOf(p: nat, k: nat): multiset<int> {
    if k == 0 then multiset{} else ItemsOf(p, k - 1) + multiset{Item(p, k - 1)}
  }

  /** The first counts[p] items of every producer p. */
  function AllItems(counts: seq<nat>): multiset<int> {
    if counts == [] then multiset{}
    else AllItems(counts[..|counts| - 1]) + ItemsOf(|counts| - 1, counts[|counts| - 1])
  }

  lemma Swap(a: multiset<int>, b: multiset<int>, c: multiset<int>)
    ensures (a + b) + c == (a + c) + b
  {
  }

  lemma Assoc(a: multiset<int>, b: multiset<int>, c: multiset<int>)
    ensures (a + b) + c == a + (b + c)
  {
  }

  /** One more item of producer p. */
  lemma {:induction false} AllItemsBump(counts: seq<nat>, p: nat)
    requires p < |counts|
    ensures AllItems(counts[p := counts[p] + 1]) == AllItems(counts) + multiset{Item(p, counts[p])}
  {
    hide ItemsOf;
    var last, counts' := |counts| - 1, counts[p := counts[p] + 1];
    var a, v := AllItems(counts[..last]), multiset{Item(p, counts[p])};
    if p < last {
      AllItemsBump(counts[..last], p);
      assert counts'[..last] == counts[..last][p := counts[p] + 1];
      Swap(a, v, ItemsOf(last, counts[last]));
    } else {
      assert counts'[..last] == counts[..last];
      ItemsBump(p, counts[p]);
      Assoc(a, ItemsOf(p, counts[p]), v);
    }
  }

  lemma ItemsBump(p: nat, k: nat)
    ensures ItemsOf(p, k + 1) == ItemsOf(p, k) + multiset{Item(p, k)}
  {
  }

  lemma {:induction false} AllItemsNone(counts: seq<nat>)
    requires forall p :: 0 <= p < |counts| ==> counts[p] == 0
    ensures AllItems(counts) == multiset{}
  {
    if counts != [] {
      AllItemsNone(counts[..|counts| - 1]);
    }
  }

  /** Everything P producers of K items each are asked to make. */
  function AllProduced(producers: nat, items: nat): multiset<int> {
    AllItems(seq(producers, _ => items))
  }

  /** v is item i of producer p. */
  predicate Numbered(v: int, p: nat, i: nat) { v == p * 1000 + i }

  /** v is one of the first `items` items of one of the first `producers` producers. */
  ghost predicate IsMade(v: int, producers: nat, items: nat) {
    exists p: nat, i: nat :: p < producers && i < items && Numbered(v, p, i)
  }

  lemma {:induction false} ItemsOfAre(p: nat, k: nat, v: int)
    ensures |ItemsOf(p, k)| == k
    ensures v in ItemsOf(p, k) <==> exists i: nat :: i < k && Numbered(v, p, i)
  {
    if k > 0 {
      ItemsOfAre(p, k - 1, v);
      if v == Item(p, k - 1) {
        assert Numbered(v, p, k - 1);
      } else if i: nat :| i < k && Numbered(v, p, i) {
        assert i < k - 1;
      }
    }
  }

  /** Item i of producer p is p * 1000 + i; every one is made, nothing else is, and there are P K in all. */
  lemma {:induction false} AllProducedAre(producers: nat, items: nat, v: int)
    ensures |AllProduced(producers, items)| == producers * items
    ensures v in AllProduced(producers, items) <==> IsMade(v, producers, items)
  {
    if producers > 0 {
      AllProducedAre(producers - 1, items, v);
      ItemsOfAre(producers - 1, items, v);
      OneMoreProducer(producers - 1, items);
      OneMoreMaker(v, producers - 1, items);
    }
  }

  /** Two lists that together hold everything made hold exactly the values made. */
  lemma MembersOfBoth(a: seq<int>, b: seq<int>, producers: nat, items: nat)
    requires multiset(a) + multiset(b) == AllProduced(producers, items)
    ensures forall v :: v in a || v in b <==> IsMade(v, producers, items)
  {
    hide AllProduced, IsMade;
    forall v ensures v in a || v in b <==> IsMade(v, producers, items) {
      AllProducedAre(producers, items, v);
      assert v in a || v in b <==> v in multiset(a) + multiset(b);
    }
  }

  lemma OneMoreProducer(last: nat, items: nat)
    ensures AllProduced(last + 1, items) == AllProduced(last, items) + ItemsOf(last, items)
    ensures (last + 1) * items == last * items + items
  {
    assert seq(last + 1, _ => items)[..last] == seq(last, _ => items);
  }

  lemma OneMoreMaker(v: int, last: nat, items: nat)
    ensures IsMade(v, last + 1, items) <==>
              IsMade(v, last, items) || exists i: nat :: i < items && Numbered(v, last, i)
  {
    if p: nat, i: nat :| p < last + 1 && i < items && Numbered(v, p, i) {
      assert p < last || Numbered(v, last, i);
    }
  }
}
