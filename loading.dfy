/**
 * What the concurrent loaders of the section players publish. Every request
 * settles; a success for frame i writes slot i - 1 of a JavaScript array, a
 * failure writes nothing. Writing past the end of such an array grows it to
 * the written index plus one and leaves holes, so the published array ends at
 * the last frame that loaded: trailing failures shorten it, inner failures are
 * holes. The callbacks may settle in any order.
 */
module Loading {
  import opened Wrappers
  import opened Geometry

  /** A frame array: `None` is a hole. */
  type Slots = seq<Option<Image>>

  /** `a[k] = img` on a JavaScript array. */
  function Assign(a: Slots, k: nat, img: Image): (r: Slots)
    ensures |r| == if k < |a| then |a| else k + 1
    ensures r[k] == Some(img)
    ensures forall j :: 0 <= j < |r| && j != k ==> r[j] == if j < |a| then a[j] else None
  {
    if k < |a| then a[k := Some(img)] else a + seq(k - |a|, _ => None) + [Some(img)]
  }

  /** The array the loader publishes when the outcome of request i + 1 is o[i]:
      o with its trailing failures dropped. */
  function Published(o: Slots): (r: Slots)
    ensures |r| <= |o|
    ensures forall j :: 0 <= j < |r| ==> r[j] == o[j]
    ensures r == [] || r[|r| - 1].Some?
    ensures forall j :: |r| <= j < |o| ==> o[j].None?
  {
    if o == [] then []
    else if o[|o| - 1].None? then Published(o[..|o| - 1])
    else o
  }

  /** The published array is empty exactly when every request failed, and every
      frame that loaded is in its own slot. */
  lemma PublishedFrames(o: Slots)
    ensures Published(o) == [] <==> forall j :: 0 <= j < |o| ==> o[j].None?
    ensures forall j :: 0 <= j < |o| && o[j].Some? ==> j < |Published(o)| && Published(o)[j] == o[j]
  {
  }

  /** The four properties of Published determine it. */
  lemma PublishedUnique(o: Slots, r: Slots)
    requires |r| <= |o|
    requires forall j :: 0 <= j < |r| ==> r[j] == o[j]
    requires r == [] || r[|r| - 1].Some?
    requires forall j :: |r| <= j < |o| ==> o[j].None?
    ensures r == Published(o)
  {
    var p := Published(o);
    assert |r| == |p|;
  }

  /** The outcomes seen after the requests in `settled` have settled: the others are still empty. */
  function Masked(o: Slots, settled: seq<nat>): (r: Slots)
    ensures |r| == |o|
  {
    seq(|o|, j requires 0 <= j < |o| => if j in settled then o[j] else None)
  }

  /** `order` lists every request of a batch of n exactly once: a settle order. */
  predicate IsSettleOrder(order: seq<nat>, n: nat)
  {
    |order| == n
    && (forall k :: 0 <= k < n ==> order[k] < n)
    && (forall j :: 0 <= j < n ==> j in order)
  }

  /** One more callback: a success writes its own slot, a failure writes nothing. */
  lemma SettleStep(o: Slots, settled: seq<nat>, j: nat)
    requires j < |o|
    ensures Published(Masked(o, settled + [j]))
         == if o[j].Some? then Assign(Published(Masked(o, settled)), j, o[j].value)
            else Published(Masked(o, settled))
  {
    var before, after := Masked(o, settled), Masked(o, settled + [j]);
    var p := Published(before);
    if o[j].Some? {
      var r := Assign(p, j, o[j].value);
      forall i | 0 <= i < |r|
        ensures r[i] == after[i]
      {
        if i != j && i >= |p| {
          assert before[i].None?;
        }
      }
      forall i | |r| <= i < |after|
        ensures after[i].None?
      {
        assert before[i].None?;
      }
      PublishedUnique(after, r);
    } else {
      assert forall i :: 0 <= i < |o| ==> after[i] == before[i];
      assert after == before;
    }
  }

  /** Once every request has settled, the masked outcomes are the outcomes. */
  lemma AllSettled(o: Slots, order: seq<nat>)
    requires IsSettleOrder(order, |o|)
    ensures Masked(o, order) == o
  {
  }

  /**
   * The callbacks of one section batch, applied in settle order to an array
   * that starts empty. Whatever the order, the result is the published array
   * of the outcomes.
   */
  method SettleAll(outcome: Slots, order: seq<nat>) returns (loaded: Slots)
    requires IsSettleOrder(order, |outcome|)
    ensures loaded == Published(outcome)
  {
    loaded := [];
    var k := 0;
    while k < |order|
      invariant 0 <= k <= |order|
      invariant loaded == Published(Masked(outcome, order[..k]))
    {
      var j := order[k];
      if outcome[j].Some? {
        loaded := Assign(loaded, j, outcome[j].value);
      }
      SettleStep(outcome, order[..k], j);
      assert order[..k + 1] == order[..k] + [j];
      k := k + 1;
    }
    assert order[..k] == order;
    AllSettled(outcome, order);
  }

  /** Five requests, the third fails: four frames and one hole. */
  lemma OneInnerFailure(a: Image)
    ensures Published([Some(a), Some(a), None, Some(a), Some(a)]) == [Some(a), Some(a), None, Some(a), Some(a)]
  {
  }

  /** Five requests, the last fails: four frames and no hole, so the array is shorter. */
  lemma OneTrailingFailure(a: Image)
    ensures Published([Some(a), Some(a), Some(a), Some(a), None]) == [Some(a), Some(a), Some(a), Some(a)]
  {
    var o := [Some(a), Some(a), Some(a), Some(a), None];
    assert o[..4] == [Some(a), Some(a), Some(a), Some(a)];
  }
}
