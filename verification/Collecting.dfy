/**
 Loops that take one item after the other from the front of a text.  The lemmas hold
 for any `step`, so a loop's invariant can be kept without looking into the step.
 */
module Collecting {
  import opened Wrappers

  // What a loop stores that takes one item after the other from t, up to n items.
  function Collect<H>(step: string -> Option<(H, string)>, t: string, n: nat): seq<H>
    decreases n
  {
    if n == 0 then [] else
      match step(t)
      case None => []
      case Some((h, rest)) => [h] + Collect(step, rest, n - 1)
  }

  // From t0 the loop has stored `found` and goes on at t.
  ghost predicate CollectsThen<H>(step: string -> Option<(H, string)>, t0: string, found: seq<H>, t: string, n: nat)
    requires |found| <= n
  {
    Collect(step, t0, n) == found + Collect(step, t, n - |found|)
  }

  lemma CollectsFirst<H>(step: string -> Option<(H, string)>, t0: string, n: nat)
    ensures CollectsThen(step, t0, [], t0, n)
  {
    assert [] + Collect(step, t0, n) == Collect(step, t0, n);
  }

  lemma CollectsMore<H>(step: string -> Option<(H, string)>, t0: string, found: seq<H>, t: string, n: nat)
    requires |found| < n && CollectsThen(step, t0, found, t, n)
    ensures match step(t)
      case None => Collect(step, t0, n) == found
      case Some((h, rest)) => |found + [h]| <= n && CollectsThen(step, t0, found + [h], rest, n)
  {
    match step(t)
    case None =>
      assert found + [] == found;
    case Some((h, rest)) =>
      var m := n - |found| - 1;
      assert n - |found + [h]| == m;
      assert found + ([h] + Collect(step, rest, m)) == found + [h] + Collect(step, rest, m);
  }

  lemma CollectsAll<H>(step: string -> Option<(H, string)>, t0: string, found: seq<H>, t: string, n: nat)
    requires |found| == n && CollectsThen(step, t0, found, t, n)
    ensures Collect(step, t0, n) == found
  {
    assert found + [] == found;
  }

  // The first n items, or all of them.
  function FirstOf<H>(hs: seq<H>, n: nat): seq<H> {
    if |hs| <= n then hs else hs[..n]
  }

  lemma FirstOfStep<H>(hs: seq<H>, n: nat)
    ensures n == 0 || hs == [] ==> FirstOf(hs, n) == []
    ensures n > 0 && hs != [] ==> FirstOf(hs, n) == [hs[0]] + FirstOf(hs[1..], n - 1)
  {
  }

  // A loop whose turns go through texts[0], texts[1], ... collects the items in order.
  lemma {:induction false} CollectsInOrder<H>(step: string -> Option<(H, string)>, texts: seq<string>,
                                              hs: seq<H>, n: nat)
    requires |texts| == |hs| + 1
    requires forall i :: 0 <= i < |hs| ==> step(texts[i]) == Some((hs[i], texts[i + 1]))
    requires step(texts[|hs|]) == None
    ensures Collect(step, texts[0], n) == FirstOf(hs, n)
    decreases n
  {
    hide FirstOf;
    FirstOfStep(hs, n);
    if n > 0 && hs != [] {
      var tail, more := texts[1..], hs[1..];
      forall i | 0 <= i < |more|
        ensures step(tail[i]) == Some((more[i], tail[i + 1]))
      {
        assert tail[i] == texts[i + 1] && tail[i + 1] == texts[i + 2] && more[i] == hs[i + 1];
      }
      CollectsInOrder(step, tail, more, n - 1);
    }
  }

  // A step that always uses up some text.
  ghost predicate Shrinks<H(!new)>(step: string -> Option<(H, string)>) {
    forall t: string :: step(t).Some? ==> |step(t).value.1| < |t|
  }

  // What a loop collects that goes on until the step finds nothing more.
  ghost function Unfold<H(!new)>(step: string -> Option<(H, string)>, t: string): seq<H>
    requires Shrinks(step)
    decreases |t|
  {
    match step(t)
    case None => []
    case Some((h, rest)) => [h] + Unfold(step, rest)
  }

  // From t0 the loop has collected `found` and goes on at t.
  ghost predicate UnfoldsThen<H(!new)>(step: string -> Option<(H, string)>, t0: string, found: seq<H>, t: string)
    requires Shrinks(step)
  {
    Unfold(step, t0) == found + Unfold(step, t)
  }

  lemma UnfoldsFirst<H(!new)>(step: string -> Option<(H, string)>, t0: string)
    requires Shrinks(step)
    ensures UnfoldsThen(step, t0, [], t0)
  {
    assert [] + Unfold(step, t0) == Unfold(step, t0);
  }

  lemma UnfoldsMore<H(!new)>(step: string -> Option<(H, string)>, t0: string, found: seq<H>, t: string)
    requires Shrinks(step) && UnfoldsThen(step, t0, found, t)
    ensures match step(t)
      case None => Unfold(step, t0) == found
      case Some((h, rest)) => UnfoldsThen(step, t0, found + [h], rest)
  {
    match step(t)
    case None =>
      assert found + [] == found;
    case Some((h, rest)) =>
      assert found + ([h] + Unfold(step, rest)) == found + [h] + Unfold(step, rest);
  }
}
