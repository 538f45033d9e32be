/** The FAQ accordion: each item is a `<details>` element; when one is opened, its `toggle`
    handler closes every other open item. The open flags of the items form an array. */
module FaqAccordion {

  /** The open flags after the `toggle` handler of `item` has run: nothing changes when the
      item was being closed; otherwise it is the only item left open. */
  function AfterToggle(open: seq<bool>, item: nat): (r: seq<bool>)
    requires item < |open|
    ensures |r| == |open|
  {
    if !open[item] then open else seq(|open|, j => j == item)
  }

  /** The handler itself: an in-place pass over the items. */
  method OnToggle(items: array<bool>, item: nat)
    requires item < items.Length
    modifies items
    ensures items[..] == AfterToggle(old(items[..]), item)
  {
    if !items[item] {
      return;
    }
    for j := 0 to items.Length
      invariant items[item]
      invariant forall k :: 0 <= k < j ==> items[k] == (k == item)
      invariant forall k :: j <= k < items.Length ==> items[k] == old(items[k])
    {
      if j != item && items[j] {
        items[j] := false;
      }
    }
  }

  /** How many items are open. */
  function OpenCount(open: seq<bool>): (c: nat)
    ensures c <= |open|
    ensures c == 0 <==> forall j :: 0 <= j < |open| ==> !open[j]
  {
    if open == [] then 0 else OpenCount(open[..|open| - 1]) + (if open[|open| - 1] then 1 else 0)
  }

  lemma {:induction false} OpenCountOnlyOne(n: nat, item: nat)
    requires item < n
    ensures OpenCount(seq(n, j => j == item)) == 1
  {
    var s := seq(n, j => j == item);
    if n - 1 == item {
      assert s[..n - 1] == seq(n - 1, j => false);
      assert OpenCount(s[..n - 1]) == 0;
    } else {
      assert s[..n - 1] == seq(n - 1, j => j == item);
      OpenCountOnlyOne(n - 1, item);
    }
  }

  lemma {:induction false} OpenCountClose(open: seq<bool>, k: nat)
    requires k < |open|
    ensures OpenCount(open[k := false]) <= OpenCount(open)
  {
    var last := |open| - 1;
    if k < last {
      assert open[k := false][..last] == open[..last][k := false];
      OpenCountClose(open[..last], k);
    } else {
      assert open[k := false][..last] == open[..last];
    }
  }

  /** Opening an item leaves exactly that item open. */
  lemma OpeningLeavesOne(open: seq<bool>, item: nat)
    requires item < |open| && open[item]
    ensures OpenCount(AfterToggle(open, item)) == 1 && AfterToggle(open, item)[item]
  {
    OpenCountOnlyOne(|open|, item);
  }

  /** Whatever the user does to one item (the browser flips its flag, then its handler
      runs), at most one item stays open if at most one was open before. */
  lemma UserToggleKeepsAtMostOne(open: seq<bool>, k: nat, nowOpen: bool)
    requires k < |open| && OpenCount(open) <= 1
    ensures OpenCount(AfterToggle(open[k := nowOpen], k)) <= 1
  {
    if nowOpen {
      OpeningLeavesOne(open[k := nowOpen], k);
    } else {
      OpenCountClose(open, k);
    }
  }

  /** The items the handler closes fire `toggle` in turn; those handlers find their item
      closed and change nothing, and so does running the handler again. */
  lemma HandlerSettles(open: seq<bool>, item: nat, j: nat)
    requires item < |open| && j < |open|
    ensures var r := AfterToggle(open, item);
            (j != item && open[item] ==> AfterToggle(r, j) == r) && AfterToggle(r, item) == r
  {
  }
}
