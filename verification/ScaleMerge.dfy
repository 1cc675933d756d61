/** How far merging touch scales drifts from their exact fixed-point product. */
module ScaleMerge {
  import opened Prelude
  import opened ControlMessages
  import opened InboxModel

  /** The slot's value after merging these scales one by one. */
  function Merged(scales: seq<I32>): I32
    requires scales != []
  {
    var last := |scales| - 1;
    if last == 0 then scales[0] else CombineScale(Merged(scales[..last]), scales[last])
  }

  /** The exact product of the scales. */
  function Product(scales: seq<I32>): int {
    if scales == [] then 1 else Product(scales[..|scales| - 1]) * scales[|scales| - 1]
  }

  function Pow1000(n: nat): nat {
    if n == 0 then 1 else 1000 * Pow1000(n - 1)
  }

  predicate Positive(scales: seq<I32>) {
    forall i | 0 <= i < |scales| :: scales[i] > 0
  }

  /** Every scale after the first shrinks or keeps: at most 1000. */
  predicate Shrinking(scales: seq<I32>) {
    forall i | 1 <= i < |scales| :: scales[i] <= 1000
  }

  /** One merge: a floor, by less than one unit, and never above the exact quotient. */
  lemma {:induction false} CombineBounds(a: I32, b: I32)
    requires a >= 0 && b > 0
    ensures 0 <= CombineScale(a, b) && 1000 * CombineScale(a, b) <= a * b
    ensures b <= 1000 ==> CombineScale(a, b) <= a && a * b < 1000 * CombineScale(a, b) + 1000
    ensures b <= 1000 ==> CombineScale(a, b) == a * b / 1000
  {
    assert a * b >= 0;
    if b <= 1000 {
      assert a * b <= a * 1000;
    }
  }

  function Size(x: int): nat {
    if x >= 0 then x else -x
  }

  /** What a merge of any two scales loses is less than one unit, toward zero; only an overflow is cut off. */
  lemma {:induction false} CombinesTowardZero(a: I32, b: I32)
    ensures var r := CombineScale(a, b);
            if Size(a * b) < 0x8000_0000 * 1000 then
              1000 * Size(r) <= Size(a * b) < 1000 * Size(r) + 1000 && (r > 0 ==> a * b > 0) && (r < 0 ==> a * b < 0)
            else r == if a * b > 0 then 0x7fff_ffff else -0x8000_0000
  {
    var p := a * b;
    assert TruncatedDiv1000(p) == if p >= 0 then p / 1000 else -((-p) / 1000);
  }

  lemma {:induction false} MergedBelowProduct(scales: seq<I32>)
    requires scales != [] && Positive(scales)
    ensures 0 <= Merged(scales)
    ensures Merged(scales) * Pow1000(|scales| - 1) <= Product(scales)
  {
    var last := |scales| - 1;
    if last == 0 {
      assert scales[..0] == [];
    } else {
      var init, s := scales[..last], scales[last];
      MergedBelowProduct(init);
      var m, p, w := Merged(init), Product(init), Pow1000(last - 1);
      CombineBounds(m, s);
      ScaleStep(CombineScale(m, s), m, s, w, p);
    }
  }

  lemma {:induction false} ScaleStep(next: int, m: int, s: int, w: nat, p: int)
    requires 1000 * next <= m * s && m * w <= p && s > 0
    ensures next * (1000 * w) <= p * s
  {
    assert next * (1000 * w) == (1000 * next) * w;
    assert (1000 * next) * w <= (m * s) * w;
    assert (m * s) * w == (m * w) * s;
    assert (m * w) * s <= p * s;
  }

  /** With shrinking scales the merge loses at most one unit per step, and the i32 clamp never fires. */
  lemma {:induction false} MergedNearProduct(scales: seq<I32>)
    requires scales != [] && Positive(scales) && Shrinking(scales)
    ensures 0 <= Merged(scales) <= scales[0]
    ensures Product(scales) <= (Merged(scales) + (|scales| - 1)) * Pow1000(|scales| - 1)
    ensures |scales| > 1 ==>
              var previous := Merged(scales[..|scales| - 1]);
              Merged(scales) == previous * scales[|scales| - 1] / 1000
  {
    var last := |scales| - 1;
    if last == 0 {
      assert scales[..0] == [];
    } else {
      var init, s := scales[..last], scales[last];
      MergedNearProduct(init);
      var m, p, w := Merged(init), Product(init), Pow1000(last - 1);
      CombineBounds(m, s);
      var next := CombineScale(m, s);
      ScaleLoss(next, m, s, w, p, last - 1);
      assert Merged(scales) == next && Product(scales) == p * s && Pow1000(last) == 1000 * w;
      assert next + last == next + (last - 1) + 1;
    }
  }

  lemma {:induction false} ScaleLoss(next: int, m: int, s: int, w: nat, p: int, k: nat)
    requires m * s < 1000 * next + 1000 && p <= (m + k) * w && 0 < s <= 1000
    ensures p * s <= (next + k + 1) * (1000 * w)
  {
    assert p * s <= ((m + k) * w) * s;
    assert ((m + k) * w) * s == (m * s + k * s) * w;
    assert k * s <= k * 1000;
    assert m * s + k * s <= 1000 * (next + k + 1);
    assert (m * s + k * s) * w <= (1000 * (next + k + 1)) * w;
    assert (1000 * (next + k + 1)) * w == (next + k + 1) * (1000 * w);
  }

  /** Stores a list of scales, one message each. */
  function StoreScales(s: State, scales: seq<I32>): State {
    if scales == [] then s
    else Store(StoreScales(s, scales[..|scales| - 1]), TouchScale(scales[|scales| - 1]))
  }

  /** In an open stream with an empty slot, the inbox computes exactly this merge. */
  lemma {:induction false} SlotHoldsMerge(s: State, scales: seq<I32>)
    requires StreamOpen(s) && s.touch.None? && scales != [] && Positive(scales)
    ensures var t := StoreScales(s, scales);
            && t.touch.Some? && t.touch.value.Scaled? && t.touch.value.scale == Merged(scales)
            && t.touch.value.pan.None? && t.gesture == s.gesture
  {
    var last := |scales| - 1;
    var before := StoreScales(s, scales[..last]);
    if last == 0 {
      assert scales[..0] == [];
    } else {
      SlotHoldsMerge(s, scales[..last]);
    }
    assert Store(before, TouchScale(scales[last]))
        == StoreAt(before.(next := NextSequence(before.next)), before.next, TouchScale(scales[last]));
  }
}
