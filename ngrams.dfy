/**
 * N-gram extraction: the (context, continuation) pairs of one training pass
 * over a text, a context of `order` characters followed by a continuation of
 * `nextOrder` characters.
 */
module Ngrams {
  import opened Text

  /** `Math.max(1, Math.floor(nextOrder))`: how far the start moves per pair. */
  function Stride(nextOrder: int): (s: int)
    ensures s >= 1
    ensures nextOrder >= 1 ==> s == nextOrder
  {
    if nextOrder < 1 then 1 else nextOrder
  }

  /** `text.length - order - nextOrder + 1`: starts must lie below it. */
  function Limit(text: string, order: int, nextOrder: int): int {
    |text| - order - nextOrder + 1
  }

  /** The pair the extractor yields for start position `i`. */
  function PairAt(text: string, order: int, nextOrder: int, i: int): (string, string) {
    (Substring(text, i, i + order), Substring(text, i + order, i + order + nextOrder))
  }

  /** `k * s`, counted up one stride at a time. */
  function Offset(k: nat, s: int): int {
    if k == 0 then 0 else Offset(k - 1, s) + s
  }

  lemma {:induction false} OffsetIsProduct(k: nat, s: int)
    ensures Offset(k, s) == k * s
  {
    if k > 0 {
      OffsetIsProduct(k - 1, s);
    }
  }

  /** The loop `for (i = start; i < limit; i += s)`: the start positions it visits. */
  function StartsFrom(limit: int, s: int, i: int): (r: seq<int>)
    requires s >= 1
    ensures i < limit <==> r != []
    decreases limit - i
  {
    if i < limit then [i] + StartsFrom(limit, s, i + s) else []
  }

  /**
   * The k-th start is `i` moved on by k strides, every start lies below the
   * limit, and one more stride would reach it.
   */
  lemma {:induction false} StartsFromSpec(limit: int, s: int, i: int)
    requires s >= 1
    ensures forall k :: 0 <= k < |StartsFrom(limit, s, i)| ==>
      StartsFrom(limit, s, i)[k] == i + Offset(k, s) && StartsFrom(limit, s, i)[k] < limit
    ensures limit <= i + Offset(|StartsFrom(limit, s, i)|, s)
    decreases limit - i
  {
    if i < limit {
      StartsFromSpec(limit, s, i + s);
      var rest := StartsFrom(limit, s, i + s);
      var r := StartsFrom(limit, s, i);
      assert r == [i] + rest;
      forall k | 0 <= k < |r| ensures r[k] == i + Offset(k, s) && r[k] < limit {
        if k > 0 {
          assert r[k] == rest[k - 1];
          assert Offset(k, s) == Offset(k - 1, s) + s;
        }
      }
      assert Offset(|r|, s) == Offset(|rest|, s) + s;
    }
  }

  /**
   * `getNgrams(text, order, nextOrder)`: the k-th pair starts at `k * s`, where
   * `s` is the stride; the pairs run while the start stays below the limit,
   * and there are none when the limit is not positive.
   */
  function Ngrams(text: string, order: int, nextOrder: int): (r: seq<(string, string)>)
    ensures forall k :: 0 <= k < |r| ==>
      && Offset(k, Stride(nextOrder)) < Limit(text, order, nextOrder)
      && r[k] == PairAt(text, order, nextOrder, Offset(k, Stride(nextOrder)))
    ensures Limit(text, order, nextOrder) <= Offset(|r|, Stride(nextOrder))
    ensures r == [] <==> Limit(text, order, nextOrder) <= 0
  {
    var starts := StartsFrom(Limit(text, order, nextOrder), Stride(nextOrder), 0);
    StartsFromSpec(Limit(text, order, nextOrder), Stride(nextOrder), 0);
    seq(|starts|, k requires 0 <= k < |starts| => PairAt(text, order, nextOrder, starts[k]))
  }

  /** Within the limit, a pair is two adjacent slices of the text. */
  lemma PairAtSlices(text: string, order: int, nextOrder: int, p: int)
    requires 0 <= order && 0 <= nextOrder
    requires 0 <= p < Limit(text, order, nextOrder)
    ensures PairAt(text, order, nextOrder, p) == (text[p..p + order], text[p + order..p + order + nextOrder])
  {
    SubstringInRange(text, p, p + order);
    SubstringInRange(text, p + order, p + order + nextOrder);
  }

  /**
   * With non-negative lengths every pair is a context of exactly `order`
   * characters followed immediately by a continuation of exactly `nextOrder`,
   * the k-th starting at `k * s`.
   */
  lemma NgramsAreSlices(text: string, order: int, nextOrder: int, k: nat, p: int)
    requires 0 <= order && 0 <= nextOrder
    requires k < |Ngrams(text, order, nextOrder)|
    requires p == k * Stride(nextOrder)
    ensures 0 <= p && p + order + nextOrder <= |text|
    ensures Ngrams(text, order, nextOrder)[k] == (text[p..p + order], text[p + order..p + order + nextOrder])
  {
    OffsetIsProduct(k, Stride(nextOrder));
    PairAtSlices(text, order, nextOrder, p);
  }
}
