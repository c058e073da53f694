/** The bookkeeping of the alpha-beta loop at one inner node, stated over
    plain sequences: `ms` holds the children's true values in `expand`
    order and `xs` the values the search returned for the children it has
    looked at so far. The node methods of the adversarial agent keep these
    invariants; the lemmas here carry them from child to child. */
module AlphaBetaScan {
  import opened Common

  /** Child j's value is a new running best for the player to move. */
  predicate NewBest(turn: int, xs: seq<int>, j: int)
    requires 0 <= j < |xs|
  {
    if turn == 0 then forall i :: 0 <= i < j ==> xs[i] < xs[j]
    else forall i :: 0 <= i < j ==> xs[j] < xs[i]
  }

  /** Every entry of `xs` that lies strictly inside the window and improves
      on all earlier entries equals the true value `ms` holds at its index. */
  predicate ExactPrefix(turn: int, ms: seq<int>, xs: seq<int>, alpha: Ext, beta: Ext)
    requires |xs| <= |ms|
  {
    forall j :: (0 <= j < |xs| && Lt(alpha, Fin(xs[j])) && Lt(Fin(xs[j]), beta)
                 && NewBest(turn, xs, j)) ==> xs[j] == ms[j]
  }

  /** The fail-soft guarantee of a value found with window (alpha, beta)
      about the true value m: exact inside the window, an upper bound at
      or below alpha, a lower bound at or above beta. */
  predicate FailSoft(m: int, value: Ext, alpha: Ext, beta: Ext)
  {
    && value.Fin?
    && (Le(value, alpha) ==> m <= value.n)
    && (Lt(alpha, value) && Lt(value, beta) ==> m == value.n)
    && (Le(beta, value) ==> value.n <= m)
  }

  /** Every search result bounds the true value from the player's side: at
      or above it for the max player, at or below it for the min player. */
  predicate Bounded(turn: int, ms: seq<int>, xs: seq<int>)
    requires |xs| <= |ms|
  {
    if turn == 0 then forall j :: 0 <= j < |xs| ==> ms[j] <= xs[j]
    else forall j :: 0 <= j < |xs| ==> xs[j] <= ms[j]
  }

  /** What the loop of an inner node leaves behind, about the true values
      `ms` of its children: the values recorded for the children it
      explored, its own value as their best, the exact ones among them,
      and, when the window can never close (beta +inf at a max node, alpha
      -inf at a min node), every child explored and every recorded value
      a bound from the player's side. */
  predicate ScanResult(turn: int, ms: seq<int>, explored: seq<int>, value: Ext, alpha: Ext, beta: Ext)
  {
    && 0 < |explored| <= |ms|
    && value == Fin(if turn == 0 then MaxOf(explored) else MinOf(explored))
    && ExactPrefix(turn, ms, explored, alpha, beta)
    && ((if turn == 0 then beta == PosInf else alpha == NegInf) ==>
          |explored| == |ms| && Bounded(turn, ms, explored))
  }

  /** What the max-player loop knows after scanning the children whose
      true values are `ms[..|xs|]` and whose search results are `xs`:
      `value` is the running maximum (-inf before the first child), every
      result so far bounds its child's true value from above, the maximum
      is attained by a true value when it beat alpha, and the results
      inside the window that were new bests are exact. */
  predicate MaxScan(ms: seq<int>, xs: seq<int>, value: Ext, alpha: Ext, beta: Ext, w: int)
  {
    && |xs| <= |ms|
    && (|xs| == 0 ==> value == NegInf)
    && (|xs| > 0 ==> && value == Fin(MaxOf(xs))
                     && (forall j :: 0 <= j < |xs| ==> ms[j] <= xs[j])
                     && (Lt(alpha, value) ==> 0 <= w < |xs| && ms[w] == value.n))
    && ExactPrefix(0, ms, xs, alpha, beta)
  }

  /** A child searched with window (max(value, alpha), beta) that does not
      close the window keeps the scan invariant. */
  lemma MaxScanStep(ms: seq<int>, xs: seq<int>, value: Ext, alpha: Ext, beta: Ext, w: int, v: Ext)
    returns (w': int)
    requires MaxScan(ms, xs, value, alpha, beta, w) && |xs| < |ms|
    requires FailSoft(ms[|xs|], v, MaxExt(value, alpha), beta)
    requires Lt(MaxExt(MaxExt(value, alpha), MaxExt(value, v)), beta)
    ensures MaxScan(ms, xs + [v.n], MaxExt(value, v), alpha, beta, w')
    ensures MaxExt(MaxExt(value, alpha), MaxExt(value, v)) == MaxExt(MaxExt(value, v), alpha)
  {
    var ys := xs + [v.n];
    assert ys[..|xs|] == xs;
    w' := if Lt(value, v) then |xs| else w;
    forall j | 0 <= j < |ys| && Lt(alpha, Fin(ys[j])) && Lt(Fin(ys[j]), beta) && NewBest(0, ys, j)
      ensures ys[j] == ms[j]
    {
      if j < |xs| {
        assert NewBest(0, xs, j);
      } else if |xs| > 0 {
        assert MaxOf(xs) in xs;
      }
    }
  }

  /** A child whose result reaches beta closes the window: it is the new
      maximum, a lower bound on the node's true value. */
  lemma MaxScanCut(ms: seq<int>, xs: seq<int>, value: Ext, alpha: Ext, beta: Ext, w: int, v: Ext)
    requires MaxScan(ms, xs, value, alpha, beta, w) && |xs| < |ms|
    requires Lt(MaxExt(value, alpha), beta)
    requires FailSoft(ms[|xs|], v, MaxExt(value, alpha), beta)
    requires Le(beta, MaxExt(MaxExt(value, alpha), MaxExt(value, v)))
    ensures MaxExt(value, v) == v && Fin(MaxOf(xs + [v.n])) == v
    ensures beta != PosInf
    ensures ExactPrefix(0, ms, xs + [v.n], alpha, beta)
    ensures FailSoft(MaxOf(ms), v, alpha, beta)
  {
    var ys := xs + [v.n];
    assert ys[..|xs|] == xs;
    forall j | 0 <= j < |ys| && Lt(alpha, Fin(ys[j])) && Lt(Fin(ys[j]), beta) && NewBest(0, ys, j)
      ensures ys[j] == ms[j]
    {
      assert NewBest(0, xs, j);
    }
    assert ms[|xs|] <= MaxOf(ms);
  }

  /** Without a cut every child was scanned, and the running maximum is
      the fail-soft value of the node. */
  lemma MaxScanDone(ms: seq<int>, xs: seq<int>, value: Ext, alpha: Ext, beta: Ext, w: int)
    requires MaxScan(ms, xs, value, alpha, beta, w) && |xs| == |ms| > 0
    requires Lt(MaxExt(value, alpha), beta)
    ensures FailSoft(MaxOf(ms), value, alpha, beta)
  {
    assert MaxOf(ms) in ms;
  }

  /** The min-player counterpart of `MaxScan`: `value` is the running
      minimum (+inf before the first child). */
  predicate MinScan(ms: seq<int>, xs: seq<int>, value: Ext, alpha: Ext, beta: Ext, w: int)
  {
    && |xs| <= |ms|
    && (|xs| == 0 ==> value == PosInf)
    && (|xs| > 0 ==> && value == Fin(MinOf(xs))
                     && (forall j :: 0 <= j < |xs| ==> xs[j] <= ms[j])
                     && (Lt(value, beta) ==> 0 <= w < |xs| && ms[w] == value.n))
    && ExactPrefix(1, ms, xs, alpha, beta)
  }

  lemma MinScanStep(ms: seq<int>, xs: seq<int>, value: Ext, alpha: Ext, beta: Ext, w: int, v: Ext)
    returns (w': int)
    requires MinScan(ms, xs, value, alpha, beta, w) && |xs| < |ms|
    requires FailSoft(ms[|xs|], v, alpha, MinExt(value, beta))
    requires Lt(alpha, MinExt(MinExt(value, beta), MinExt(value, v)))
    ensures MinScan(ms, xs + [v.n], MinExt(value, v), alpha, beta, w')
    ensures MinExt(MinExt(value, beta), MinExt(value, v)) == MinExt(MinExt(value, v), beta)
  {
    var ys := xs + [v.n];
    assert ys[..|xs|] == xs;
    w' := if Lt(v, value) then |xs| else w;
    forall j | 0 <= j < |ys| && Lt(alpha, Fin(ys[j])) && Lt(Fin(ys[j]), beta) && NewBest(1, ys, j)
      ensures ys[j] == ms[j]
    {
      if j < |xs| {
        assert NewBest(1, xs, j);
      } else if |xs| > 0 {
        assert MinOf(xs) in xs;
      }
    }
  }

  lemma MinScanCut(ms: seq<int>, xs: seq<int>, value: Ext, alpha: Ext, beta: Ext, w: int, v: Ext)
    requires MinScan(ms, xs, value, alpha, beta, w) && |xs| < |ms|
    requires Lt(alpha, MinExt(value, beta))
    requires FailSoft(ms[|xs|], v, alpha, MinExt(value, beta))
    requires Le(MinExt(MinExt(value, beta), MinExt(value, v)), alpha)
    ensures MinExt(value, v) == v && Fin(MinOf(xs + [v.n])) == v
    ensures alpha != NegInf
    ensures ExactPrefix(1, ms, xs + [v.n], alpha, beta)
    ensures FailSoft(MinOf(ms), v, alpha, beta)
  {
    var ys := xs + [v.n];
    assert ys[..|xs|] == xs;
    forall j | 0 <= j < |ys| && Lt(alpha, Fin(ys[j])) && Lt(Fin(ys[j]), beta) && NewBest(1, ys, j)
      ensures ys[j] == ms[j]
    {
      assert NewBest(1, xs, j);
    }
    assert MinOf(ms) <= ms[|xs|];
  }

  lemma MinScanDone(ms: seq<int>, xs: seq<int>, value: Ext, alpha: Ext, beta: Ext, w: int)
    requires MinScan(ms, xs, value, alpha, beta, w) && |xs| == |ms| > 0
    requires Lt(alpha, MinExt(value, beta))
    ensures FailSoft(MinOf(ms), value, alpha, beta)
  {
    assert MinOf(ms) in ms;
  }

  /** The sequence argument behind `RootChoiceIsOptimal`. */
  lemma FirstBestIsFirstOptimal(turn: int, ms: seq<int>, xs: seq<int>)
    requires 0 < |xs| == |ms|
    requires ExactPrefix(turn, ms, xs, NegInf, PosInf) && Bounded(turn, ms, xs)
    ensures var k := if turn == 0 then FirstMaxIndex(xs, |xs|) else FirstMinIndex(xs, |xs|);
            var m := if turn == 0 then MaxOf(xs) else MinOf(xs);
            && 0 <= k < |ms| && ms[k] == m
            && forall j :: 0 <= j < k ==> ms[j] != m
  {
    if turn == 0 {
      var k := FirstMaxIndex(xs, |xs|);
      assert NewBest(0, xs, k);
      assert MaxOf(xs) in xs;
      assert forall j :: 0 <= j < k ==> ms[j] <= xs[j] < xs[k];
    } else {
      var k := FirstMinIndex(xs, |xs|);
      assert NewBest(1, xs, k);
      assert MinOf(xs) in xs;
      assert forall j :: 0 <= j < k ==> xs[k] < xs[j] <= ms[j];
    }
  }
}
