/** Small shared vocabulary: optional values, error results, integers
    extended with the two infinities the search code uses as sentinels,
    and sums/extrema over sequences of integers. */
module Common {

  datatype Option<T> = None | Some(value: T)

  /** A computation that either succeeds or raises an error with a message. */
  datatype Result<T> = Ok(value: T) | Err(message: string)

  /** An integer, or one of the sentinels -inf / +inf. */
  datatype Ext = NegInf | Fin(n: int) | PosInf

  /** Strict order on extended integers. */
  predicate Lt(a: Ext, b: Ext)
  {
    match a
    case NegInf => !b.NegInf?
    case Fin(x) => b.PosInf? || (b.Fin? && x < b.n)
    case PosInf => false
  }

  predicate Le(a: Ext, b: Ext)
  {
    !Lt(b, a)
  }

  /** `max(a, b)` as Python's built-in computes it. */
  function MaxExt(a: Ext, b: Ext): (m: Ext)
    ensures Le(a, m) && Le(b, m)
    ensures m == a || m == b
  {
    if Lt(a, b) then b else a
  }

  /** `min(a, b)` as Python's built-in computes it. */
  function MinExt(a: Ext, b: Ext): (m: Ext)
    ensures Le(m, a) && Le(m, b)
    ensures m == a || m == b
  {
    if Lt(b, a) then b else a
  }

  function Sum(s: seq<int>): int
  {
    if s == [] then 0 else s[0] + Sum(s[1..])
  }

  /** Replacing one entry changes the sum by the difference. */
  lemma {:induction false} SumUpdate(s: seq<int>, i: int, v: int)
    requires 0 <= i < |s|
    ensures Sum(s[i := v]) == Sum(s) - s[i] + v
  {
    if i > 0 {
      SumUpdate(s[1..], i - 1, v);
      assert s[i := v][1..] == s[1..][i - 1 := v];
    }
  }

  /** Largest element of a non-empty sequence. */
  function MaxOf(xs: seq<int>): (m: int)
    requires |xs| > 0
    ensures forall i :: 0 <= i < |xs| ==> xs[i] <= m
    ensures exists i :: 0 <= i < |xs| && xs[i] == m
  {
    if |xs| == 1 then xs[0]
    else
      var m' := MaxOf(xs[..|xs| - 1]);
      if m' < xs[|xs| - 1] then xs[|xs| - 1] else m'
  }

  /** Smallest element of a non-empty sequence. */
  function MinOf(xs: seq<int>): (m: int)
    requires |xs| > 0
    ensures forall i :: 0 <= i < |xs| ==> m <= xs[i]
    ensures exists i :: 0 <= i < |xs| && xs[i] == m
  {
    if |xs| == 1 then xs[0]
    else
      var m' := MinOf(xs[..|xs| - 1]);
      if xs[|xs| - 1] < m' then xs[|xs| - 1] else m'
  }

  /** Index of the first largest element of `xs[..n]`, or -1 when n == 0:
      the running maximum with a strict comparison keeps the earliest. */
  function FirstMaxIndex(xs: seq<int>, n: nat): (k: int)
    requires n <= |xs|
    ensures n == 0 <==> k == -1
    ensures n > 0 ==> 0 <= k < n
    ensures n > 0 ==> forall j :: 0 <= j < n ==> xs[j] <= xs[k]
    ensures n > 0 ==> forall j :: 0 <= j < k ==> xs[j] < xs[k]
  {
    if n == 0 then -1
    else
      var k := FirstMaxIndex(xs, n - 1);
      if k == -1 || xs[n - 1] > xs[k] then n - 1 else k
  }

  /** Index of the first smallest element of `xs[..n]`, or -1 when n == 0. */
  function FirstMinIndex(xs: seq<int>, n: nat): (k: int)
    requires n <= |xs|
    ensures n == 0 <==> k == -1
    ensures n > 0 ==> 0 <= k < n
    ensures n > 0 ==> forall j :: 0 <= j < n ==> xs[k] <= xs[j]
    ensures n > 0 ==> forall j :: 0 <= j < k ==> xs[k] < xs[j]
  {
    if n == 0 then -1
    else
      var k := FirstMinIndex(xs, n - 1);
      if k == -1 || xs[n - 1] < xs[k] then n - 1 else k
  }
}
