/**
  Counted loops over steps: `for (j = lo; j < hi; j++) body(j)`, and what a
  controller sees of them, stated once for any loop body.
 */
module Loops {
  import opened Transport
  import opened Protocol

  /** The steps of `for (j = lo; j < hi; j++) body(j)`. */
  function Loop(body: nat -> seq<Step>, lo: nat, hi: nat): seq<Step>
    decreases hi - lo
  {
    if hi <= lo then [] else body(lo) + Loop(body, lo + 1, hi)
  }

  /** The blocks data(lo), ..., data(hi - 1), concatenated. */
  function Joined(data: nat -> seq<bv8>, lo: nat, hi: nat): seq<bv8>
    decreases hi - lo
  {
    if hi <= lo then [] else data(lo) + Joined(data, lo + 1, hi)
  }

  /** Every iteration takes n steps, w busy-waits and c transactions. */
  ghost predicate Shaped(body: nat -> seq<Step>, n: int, w: int, c: int) {
    forall j: nat :: |body(j)| == n && Waits(body(j)) == w && |Txns(body(j))| == c
  }

  /** Every iteration j sends data(j) under `code`. */
  ghost predicate Carries(body: nat -> seq<Step>, data: nat -> seq<bv8>, code: bv8) {
    forall j: nat :: Payload(Txns(body(j)), code) == data(j)
  }

  /** When iteration j sends data(j) under `code`, the loop sends the blocks
      in iteration order. */
  lemma {:induction false} LoopPayload(body: nat -> seq<Step>, data: nat -> seq<bv8>, code: bv8, lo: nat, hi: nat)
    requires Carries(body, data, code)
    ensures Payload(Txns(Loop(body, lo, hi)), code) == Joined(data, lo, hi)
    decreases hi - lo
  {
    if lo < hi {
      LoopPayload(body, data, code, lo + 1, hi);
      TxnsAppend(body(lo), Loop(body, lo + 1, hi));
      PayloadAppend(Txns(body(lo)), Txns(Loop(body, lo + 1, hi)), code);
    }
  }

  /** Iterations of n steps, w busy-waits and c transactions each add up. */
  lemma LoopCounts(body: nat -> seq<Step>, lo: nat, hi: nat, n: int, w: int, c: int)
    requires lo <= hi
    requires Shaped(body, n, w, c)
    ensures |Loop(body, lo, hi)| == n * (hi - lo)
    ensures Waits(Loop(body, lo, hi)) == w * (hi - lo)
    ensures |Txns(Loop(body, lo, hi))| == c * (hi - lo)
  {
    LoopLength(body, lo, hi, n, w, c);
    LoopWaits(body, lo, hi, n, w, c);
    LoopTxnCount(body, lo, hi, n, w, c);
  }

  lemma {:induction false} LoopLength(body: nat -> seq<Step>, lo: nat, hi: nat, n: int, w: int, c: int)
    requires lo <= hi
    requires Shaped(body, n, w, c)
    ensures |Loop(body, lo, hi)| == n * (hi - lo)
    decreases hi - lo
  {
    if lo < hi {
      LoopLength(body, lo + 1, hi, n, w, c);
      assert |body(lo)| == n;
      Distribute(n, lo, hi);
    }
  }

  lemma {:induction false} LoopWaits(body: nat -> seq<Step>, lo: nat, hi: nat, n: int, w: int, c: int)
    requires lo <= hi
    requires Shaped(body, n, w, c)
    ensures Waits(Loop(body, lo, hi)) == w * (hi - lo)
    decreases hi - lo
  {
    if lo < hi {
      LoopWaits(body, lo + 1, hi, n, w, c);
      assert Waits(body(lo)) == w;
      CountsAppend(body(lo), Loop(body, lo + 1, hi));
      Distribute(w, lo, hi);
    }
  }

  lemma {:induction false} LoopTxnCount(body: nat -> seq<Step>, lo: nat, hi: nat, n: int, w: int, c: int)
    requires lo <= hi
    requires Shaped(body, n, w, c)
    ensures |Txns(Loop(body, lo, hi))| == c * (hi - lo)
    decreases hi - lo
  {
    if lo < hi {
      LoopTxnCount(body, lo + 1, hi, n, w, c);
      assert |Txns(body(lo))| == c;
      CountsAppend(body(lo), Loop(body, lo + 1, hi));
      Distribute(c, lo, hi);
    }
  }

  lemma CountsAppend(a: seq<Step>, b: seq<Step>)
    ensures |Txns(a + b)| == |Txns(a)| + |Txns(b)|
    ensures Waits(a + b) == Waits(a) + Waits(b)
  {
    TxnsAppend(a, b);
  }

  lemma Distribute(a: int, lo: nat, hi: nat)
    requires lo < hi
    ensures a * (hi - lo) == a + a * (hi - (lo + 1))
  {
  }

  /** A loop splits at any iteration j into the iterations before j and those
      from j on. */
  lemma {:induction false} LoopSplit(body: nat -> seq<Step>, lo: nat, j: nat, hi: nat)
    requires lo <= j <= hi
    ensures Loop(body, lo, hi) == Loop(body, lo, j) + Loop(body, j, hi)
    decreases j - lo
  {
    if lo < j {
      LoopSplit(body, lo + 1, j, hi);
      Regroup(body(lo), Loop(body, lo + 1, j), Loop(body, j, hi));
    } else {
      assert Loop(body, lo, j) == [];
    }
  }

  lemma Regroup(a: seq<Step>, b: seq<Step>, c: seq<Step>)
    ensures a + (b + c) == (a + b) + c
  {
  }

  /** Iteration j's steps follow those of the iterations before it. */
  lemma LoopAt(body: nat -> seq<Step>, lo: nat, j: nat, hi: nat)
    requires lo <= j < hi
    ensures |Loop(body, lo, j)| + |body(j)| <= |Loop(body, lo, hi)|
    ensures Loop(body, lo, hi)[|Loop(body, lo, j)|..|Loop(body, lo, j)| + |body(j)|] == body(j)
  {
    LoopSplit(body, lo, j, hi);
    var before, rest := Loop(body, lo, j), Loop(body, j + 1, hi);
    assert Loop(body, j, hi) == body(j) + rest;
    assert Loop(body, lo, hi) == before + body(j) + rest;
  }

  /** A loop of n-step iterations between steps a and e takes n * hi steps. */
  lemma LoopEnds(a: seq<Step>, body: nat -> seq<Step>, e: seq<Step>, hi: nat, n: int, w: int, c: int)
    requires Shaped(body, n, w, c)
    ensures |a + Loop(body, 0, hi) + e| == |a| + n * hi + |e|
    ensures (a + Loop(body, 0, hi) + e)[..|a|] == a
    ensures (a + Loop(body, 0, hi) + e)[|a| + n * hi..] == e
  {
    LoopCounts(body, 0, hi, n, w, c);
    Middle(a, Loop(body, 0, hi), e, 0, 0);
  }

  /** Between steps a and e, iteration j of a loop of n-step iterations sits
      at offsets p = |a| + n * j up to q = p + n. */
  lemma LoopFramed(a: seq<Step>, body: nat -> seq<Step>, e: seq<Step>, j: nat, hi: nat, n: int, w: int, c: int, p: int, q: int)
    requires j < hi && Shaped(body, n, w, c)
    requires p == |a| + n * j && q == p + n
    ensures 0 <= p <= q <= |a + Loop(body, 0, hi) + e|
    ensures (a + Loop(body, 0, hi) + e)[p..q] == body(j)
  {
    LoopAt(body, 0, j, hi);
    LoopCounts(body, 0, j, n, w, c);
    Middle(a, Loop(body, 0, hi), e, n * j, n * j + n);
  }

  /** Loops whose bodies agree on every iteration perform the same steps. */
  lemma {:induction false} LoopSame(f: nat -> seq<Step>, g: nat -> seq<Step>, lo: nat, hi: nat)
    requires forall j :: lo <= j < hi ==> f(j) == g(j)
    ensures Loop(f, lo, hi) == Loop(g, lo, hi)
    decreases hi - lo
  {
    if lo < hi {
      LoopSame(f, g, lo + 1, hi);
    }
  }
}
