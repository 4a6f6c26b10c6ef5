/** Packing the strings to translate into prompts of bounded size. */
module TranslationBatches {

  datatype Item = Item(cacheKey: string, key: string, text: string, textHash: string)

  const MAX_BATCH_ITEMS := 20

  function EstimateBatchChars(items: seq<Item>): nat {
    if items == [] then 2
    else EstimateBatchChars(items[..|items| - 1]) + |items[|items| - 1].key| + |items[|items| - 1].text| + 8
  }

  /** A prompt costs 2, and each string its key, its text and 8 more. */
  lemma {:induction false} EstimateAdds(a: seq<Item>, item: Item, b: seq<Item>)
    ensures EstimateBatchChars([]) == 2
    ensures EstimateBatchChars(a + [item] + b) == EstimateBatchChars(a) + EstimateBatchChars(b) + |item.key| + |item.text| + 6
    decreases |b|
  {
    if b == [] {
      assert (a + [item] + b)[..|a|] == a && a + [item] + b == a + [item];
    } else {
      EstimateAdds(a, item, b[..|b| - 1]);
      assert (a + [item] + b)[..|a| + |b|] == a + [item] + b[..|b| - 1];
    }
  }

  /** The cost the packing loop keeps: each item is charged as a prompt of its own. */
  function RunningChars(batch: seq<Item>): nat {
    if batch == [] then 2
    else RunningChars(batch[..|batch| - 1]) + EstimateBatchChars([batch[|batch| - 1]])
  }

  /** A prompt may hold 20 strings within the budget; one string alone is always let through. */
  predicate Fits(batch: seq<Item>, budget: real) {
    1 <= |batch| <= 20 && (|batch| == 1 || RunningChars(batch) as real <= budget)
  }

  function Flatten(batches: seq<seq<Item>>): seq<Item> {
    if batches == [] then [] else batches[0] + Flatten(batches[1..])
  }

  /** A way to send all the items, in order, within the limits. */
  ghost predicate IsPlan(plan: seq<seq<Item>>, items: seq<Item>, budget: real) {
    Flatten(plan) == items && forall i :: 0 <= i < |plan| ==> Fits(plan[i], budget)
  }

  /** No batch could have taken in the first item of the next one. */
  ghost predicate Greedy(batches: seq<seq<Item>>, budget: real) {
    forall i :: 0 <= i < |batches| - 1 ==> FullBefore(batches[i], batches[i + 1], budget)
  }

  ghost predicate FullBefore(b: seq<Item>, next: seq<Item>, budget: real) {
    next != [] ==> !Fits(b + [next[0]], budget)
  }

  lemma {:induction false} FlattenSnoc(batches: seq<seq<Item>>, b: seq<Item>)
    ensures Flatten(batches + [b]) == Flatten(batches) + b
    decreases |batches|
  {
    if batches == [] {
      assert [b][1..] == [];
    } else {
      FlattenSnoc(batches[1..], b);
      assert (batches + [b])[1..] == batches[1..] + [b];
    }
  }

  lemma {:induction false} RunningCharsParts(a: seq<Item>, b: seq<Item>)
    ensures RunningChars(a + b) == RunningChars(a) + RunningChars(b) - 2
    decreases |b|
  {
    if b == [] {
      assert a + b == a;
    } else {
      assert (a + b)[..|a + b| - 1] == a + b[..|b| - 1];
      RunningCharsParts(a, b[..|b| - 1]);
    }
  }

  lemma {:induction false} RunningCharsLow(a: seq<Item>)
    ensures RunningChars(a) >= 2
  {
    if a != [] {
      RunningCharsLow(a[..|a| - 1]);
    }
  }

  /** Charging items one by one exceeds the size of the real prompt by 2 a string, so a batch within the
      budget makes a prompt within it. */
  lemma {:induction false} RunningCharsExceedEstimate(batch: seq<Item>)
    ensures RunningChars(batch) == EstimateBatchChars(batch) + 2 * |batch|
    decreases |batch|
  {
    if batch != [] {
      var last := batch[|batch| - 1];
      RunningCharsExceedEstimate(batch[..|batch| - 1]);
      assert [last][..0] == [];
      assert EstimateBatchChars([last]) == 2 + |last.key| + |last.text| + 8;
    }
  }

  /** Any run of consecutive items of a batch that fits, fits as well. */
  lemma FitsInside(a: seq<Item>, b: seq<Item>, c: seq<Item>, budget: real)
    requires Fits(a + b + c, budget) && b != []
    ensures Fits(b, budget)
  {
    RunningCharsParts(a + b, c);
    RunningCharsParts(a, b);
    RunningCharsLow(a);
    RunningCharsLow(c);
    if |b| > 1 {
      assert RunningChars(b) <= RunningChars(a + b + c);
    }
  }

  /** A plan that still has at least as much to send as the greedy one (d more) needs at least as many batches. */
  lemma {:induction false} GreedyStaysAhead(greedy: seq<seq<Item>>, plan: seq<seq<Item>>, d: seq<Item>, budget: real)
    requires Greedy(greedy, budget)
    requires forall i :: 0 <= i < |greedy| ==> Fits(greedy[i], budget)
    requires IsPlan(plan, d + Flatten(greedy), budget)
    ensures |greedy| <= |plan|
    decreases |greedy|
  {
    if |greedy| > 0 {
      var g, rest := greedy[0], Flatten(greedy[1..]);
      assert Flatten(plan) == d + g + rest;
      assert Fits(g, budget);
      if |greedy| > 1 {
        var p, later := plan[0], Flatten(plan[1..]);
        FirstBatchShort(greedy, plan, d, budget);
        var d' := (d + g)[|p|..];
        assert later == d' + rest by {
          assert p + later == d + g + rest;
          assert later == (p + later)[|p|..];
          assert (d + g + rest)[|p|..] == d' + rest;
        }
        forall i | 0 <= i < |greedy[1..]| - 1 ensures FullBefore(greedy[1..][i], greedy[1..][i + 1], budget) {
          assert greedy[1..][i] == greedy[i + 1] && greedy[1..][i + 1] == greedy[i + 2];
        }
        GreedyStaysAhead(greedy[1..], plan[1..], d', budget);
      }
    }
  }

  lemma StartOfLonger<T>(p: seq<T>, later: seq<T>, d: seq<T>, g: seq<T>, h: seq<T>, rest: seq<T>)
    requires p + later == d + g + (h + rest) && |p| > |d| + |g| && h != []
    ensures p == d + (g + [h[0]]) + p[|d| + |g| + 1..]
  {
    var whole, n := d + g + (h + rest), |d| + |g|;
    assert p == whole[..|p|];
    assert whole[..n + 1] == d + (g + [h[0]]);
  }

  lemma FirstBatchShort(greedy: seq<seq<Item>>, plan: seq<seq<Item>>, d: seq<Item>, budget: real)
    requires |greedy| > 1 && Greedy(greedy, budget)
    requires forall i :: 0 <= i < |greedy| ==> Fits(greedy[i], budget)
    requires IsPlan(plan, d + Flatten(greedy), budget)
    ensures |plan| > 0 && |plan[0]| <= |d| + |greedy[0]|
  {
    var g, h := greedy[0], greedy[1];
    assert Fits(g, budget) && Fits(h, budget) && FullBefore(g, h, budget);
    var rest := Flatten(greedy[2..]);
    assert greedy[1..][0] == h && greedy[1..][1..] == greedy[2..];
    assert Flatten(greedy) == g + (h + rest);
    var p := plan[0];
    if |p| > |d| + |g| {
      assert Fits(p, budget);
      var c := p[|d| + |g| + 1..];
      assert p + Flatten(plan[1..]) == d + g + (h + rest);
      StartOfLonger(p, Flatten(plan[1..]), d, g, h, rest);
      FitsInside(d, g + [h[0]], c, budget);
    }
  }

  lemma GreedyGrows(batches: seq<seq<Item>>, current: seq<Item>, item: Item, budget: real)
    requires Greedy(batches + [current], budget) && (current == [] ==> batches == [])
    ensures Greedy(batches + [current + [item]], budget)
  {
    var before, after := batches + [current], batches + [current + [item]];
    forall i | 0 <= i < |after| - 1 ensures FullBefore(after[i], after[i + 1], budget) {
      assert FullBefore(before[i], before[i + 1], budget);
    }
  }

  lemma GreedyFlushes(batches: seq<seq<Item>>, current: seq<Item>, item: Item, budget: real)
    requires Greedy(batches + [current], budget) && !Fits(current + [item], budget)
    ensures Greedy(batches + [current] + [[item]], budget)
  {
    var before, after := batches + [current], batches + [current] + [[item]];
    forall i | 0 <= i < |after| - 1 ensures FullBefore(after[i], after[i + 1], budget) {
      if i < |batches| {
        assert FullBefore(before[i], before[i + 1], budget);
      }
    }
  }

  /** What one more item does to a batch. */
  lemma OneMore(current: seq<Item>, item: Item, budget: real)
    requires current != [] ==> Fits(current, budget)
    ensures RunningChars([]) == 2 && RunningChars([item]) == 2 + EstimateBatchChars([item]) && Fits([item], budget)
    ensures RunningChars(current + [item]) == RunningChars(current) + EstimateBatchChars([item])
    ensures Fits(current + [item], budget) <==>
      current == [] || (|current| < MAX_BATCH_ITEMS && (RunningChars(current) + EstimateBatchChars([item])) as real <= budget)
  {
    hide EstimateBatchChars;
    RunningMore(current, item);
    RunningMore([], item);
    assert [] + [item] == [item];
    assert RunningChars([]) == 2;
    hide RunningChars;
  }

  lemma RunningMore(current: seq<Item>, item: Item)
    ensures RunningChars(current + [item]) == RunningChars(current) + EstimateBatchChars([item])
  {
    hide EstimateBatchChars;
    assert (current + [item])[..|current|] == current;
  }

  lemma NothingPacked(budget: real)
    ensures Greedy([], budget) && Greedy([] + [[]], budget) && Flatten([]) == [] && RunningChars([]) == 2
  {
  }

  lemma PackedIsBest(batches: seq<seq<Item>>, items: seq<Item>, budget: real)
    requires Flatten(batches) == items && Greedy(batches, budget)
    requires forall j :: 0 <= j < |batches| ==> Fits(batches[j], budget)
    ensures IsPlan(batches, items, budget)
    ensures forall plan :: IsPlan(plan, items, budget) ==> |batches| <= |plan|
  {
    forall plan | IsPlan(plan, items, budget) ensures |batches| <= |plan| {
      assert [] + Flatten(batches) == items;
      GreedyStaysAhead(batches, plan, [], budget);
    }
  }

  method BuildTranslationBatches(items: seq<Item>, budget: real) returns (batches: seq<seq<Item>>)
    ensures IsPlan(batches, items, budget)
    ensures Greedy(batches, budget)
    ensures forall plan :: IsPlan(plan, items, budget) ==> |batches| <= |plan|
  {
    hide IsPlan, Greedy, Fits, RunningChars, EstimateBatchChars, Flatten;
    batches := [];
    NothingPacked(budget);
    var current: seq<Item> := [];
    var currentChars := 2;
    for i := 0 to |items|
      invariant current == [] <==> i == 0
      invariant current == [] ==> batches == []
      invariant Flatten(batches) + current == items[..i]
      invariant currentChars == RunningChars(current)
      invariant forall j :: 0 <= j < |batches| ==> Fits(batches[j], budget)
      invariant current != [] ==> Fits(current, budget)
      invariant Greedy(batches + [current], budget)
    {
      var item := items[i];
      var itemChars := EstimateBatchChars([item]);
      var wouldOverflow := |current| > 0 && (currentChars + itemChars) as real > budget;
      var reachedMaxItems := |current| >= MAX_BATCH_ITEMS;
      OneMore(current, item, budget);
      if wouldOverflow || reachedMaxItems {
        FlattenSnoc(batches, current);
        GreedyFlushes(batches, current, item, budget);
        batches := batches + [current];
        current := [];
        currentChars := 2;
      } else {
        GreedyGrows(batches, current, item, budget);
      }
      assert items[..i + 1] == items[..i] + [item];
      assert [] + [item] == [item];
      current := current + [item];
      currentChars := currentChars + itemChars;
    }
    assert items[..|items|] == items;
    if |current| > 0 {
      FlattenSnoc(batches, current);
      batches := batches + [current];
    }
    PackedIsBest(batches, items, budget);
  }
}
