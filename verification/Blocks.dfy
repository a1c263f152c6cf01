/** Building a block from the head of the queue. */
module Blocks {
  import opened Types

  /** Total number of bytes. */
  function Size(txs: seq<RawTx>): nat {
    if txs == [] then 0 else Size(txs[..|txs| - 1]) + |txs[|txs| - 1]|
  }

  /** Bytes of the transactions up to and including a queue position. */
  function SizeThrough(txs: seq<RawTx>, j: nat): nat
    requires j < |txs|
  {
    Size(txs[..j + 1])
  }

  /** The block consists of exactly the positions whose inclusive size stays strictly below the budget. */
  ghost predicate IsLongestPrefix(txs: seq<RawTx>, budget: nat, block: seq<RawTx>) {
    && block <= txs
    && (forall j :: 0 <= j < |txs| ==> (j < |block| <==> SizeThrough(txs, j) < budget))
  }

  /**
   * The block a byte budget allows: transactions are taken from the head for as long as the
   * budget that is left exceeds the size of the next one.
   */
  function Fit(txs: seq<RawTx>, budget: nat): seq<RawTx> {
    if txs == [] || |txs[0]| >= budget then []
    else [txs[0]] + Fit(txs[1..], budget - |txs[0]|)
  }

  lemma {:induction false} SizeSplit(a: seq<RawTx>, b: seq<RawTx>)
    ensures Size(a + b) == Size(a) + Size(b)
  {
    if b == [] {
      assert a + b == a;
    } else {
      SizeSplit(a, b[..|b| - 1]);
      assert (a + b)[..|a + b| - 1] == a + b[..|b| - 1];
    }
  }

  /** Taking from the head for as long as the budget allows yields the longest prefix strictly below it. */
  lemma {:induction false} FitIsLongestPrefix(txs: seq<RawTx>, budget: nat)
    ensures IsLongestPrefix(txs, budget, Fit(txs, budget))
    decreases |txs|
  {
    if txs != [] {
      var rest := txs[1..];
      forall j | 0 <= j < |txs| ensures SizeThrough(txs, j) == |txs[0]| + Size(rest[..j]) {
        assert txs[..j + 1] == [txs[0]] + rest[..j];
        SizeSplit([txs[0]], rest[..j]);
        assert Size([txs[0]]) == |txs[0]|;
      }
      if |txs[0]| < budget {
        FitIsLongestPrefix(rest, budget - |txs[0]|);
        forall j | 0 <= j < |txs|
          ensures j < |Fit(txs, budget)| <==> SizeThrough(txs, j) < budget
        {
          if j > 0 {
            assert SizeThrough(rest, j - 1) == Size(rest[..j]);
          }
        }
      }
    }
  }

  /** The specification of a block determines it, so nothing else can be the answer to `Take`. */
  lemma LongestPrefixIsUnique(txs: seq<RawTx>, budget: nat, block: seq<RawTx>)
    requires IsLongestPrefix(txs, budget, block)
    ensures block == Fit(txs, budget)
  {
    FitIsLongestPrefix(txs, budget);
    var shorter := if |block| < |Fit(txs, budget)| then |block| else |Fit(txs, budget)|;
    assert shorter < |txs| ==> (shorter < |block| <==> SizeThrough(txs, shorter) < budget);
  }

  /** A block weighs strictly less than the budget, unless it is empty. */
  lemma BlockBelowBudget(txs: seq<RawTx>, budget: nat)
    ensures Fit(txs, budget) == [] || Size(Fit(txs, budget)) < budget
  {
    FitIsLongestPrefix(txs, budget);
    var k := |Fit(txs, budget)|;
    if k > 0 {
      assert SizeThrough(txs, k - 1) < budget;
      assert Fit(txs, budget) == txs[..k];
    }
  }

  /** A larger budget and a longer queue only extend the block. */
  lemma {:induction false} FitMonotone(txs: seq<RawTx>, more: seq<RawTx>, budget: nat, larger: nat)
    requires budget <= larger
    ensures Fit(txs, budget) <= Fit(txs + more, larger)
    decreases |txs|
  {
    if txs != [] && |txs[0]| < budget {
      FitMonotone(txs[1..], more, budget - |txs[0]|, larger - |txs[0]|);
      assert (txs + more)[1..] == txs[1..] + more;
    }
  }
}
