/** The optional value that stands for the source's `null` results, and a
    first-match search shared by every "scan in order, stop at the first hit"
    loop of the model. */
module Options {

  datatype Option<+T> = None | Some(value: T)

  /** Index of the first element of `xs` that satisfies `p`, as JavaScript's
      `Array.prototype.find` and `findIndex` scan: left to right, stopping at
      the first hit. */
  function FirstIndex<T>(xs: seq<T>, p: T -> bool): (r: Option<nat>)
    ensures r.Some? ==> r.value < |xs| && p(xs[r.value])
    ensures r.Some? ==> forall j :: 0 <= j < r.value ==> !p(xs[j])
    ensures r.None? <==> forall j :: 0 <= j < |xs| ==> !p(xs[j])
  {
    if |xs| == 0 then None
    else if p(xs[0]) then Some(0)
    else match FirstIndex(xs[1..], p)
      case None => None
      case Some(k) => Some(k + 1)
  }

  /** `k` is the index the scan stops at exactly when `xs[k]` satisfies `p`
      and no element before it does. */
  lemma FirstIndexAt<T>(xs: seq<T>, p: T -> bool, k: nat)
    requires k < |xs|
    ensures FirstIndex(xs, p) == Some(k) <==> p(xs[k]) && forall j :: 0 <= j < k ==> !p(xs[j])
  {
    if p(xs[k]) && forall j :: 0 <= j < k ==> !p(xs[j]) {
      var m := FirstIndex(xs, p).value;
      assert !(m < k);
      assert !(k < m);
    }
  }

  /** The first element of `xs` that satisfies `p`. */
  function Find<T>(xs: seq<T>, p: T -> bool): (r: Option<T>)
    ensures r.Some? ==> r.value in xs && p(r.value)
    ensures r.None? <==> forall j :: 0 <= j < |xs| ==> !p(xs[j])
  {
    match FirstIndex(xs, p)
    case None => None
    case Some(k) => Some(xs[k])
  }

  /** In a list without repetitions, `Find` returns the element at `k`
      exactly when it satisfies `p` and no element before it does. */
  lemma FindAt<T>(xs: seq<T>, p: T -> bool, k: nat)
    requires k < |xs|
    requires forall j :: 0 <= j < |xs| && xs[j] == xs[k] ==> j == k
    ensures Find(xs, p) == Some(xs[k]) <==> p(xs[k]) && forall j :: 0 <= j < k ==> !p(xs[j])
  {
    FirstIndexAt(xs, p, k);
  }

  /** `xs` with every occurrence of `x` removed. */
  function Without<T(==)>(xs: seq<T>, x: T): (r: seq<T>)
    ensures forall i :: 0 <= i < |r| ==> r[i] in xs && r[i] != x
    ensures forall i :: 0 <= i < |xs| && xs[i] != x ==> xs[i] in r
  {
    if |xs| == 0 then []
    else if xs[0] == x then Without(xs[1..], x)
    else [xs[0]] + Without(xs[1..], x)
  }

  /** `Find` unfolded by one element: the head if it matches, else the
      search of the tail. */
  lemma FindUnfold<T>(xs: seq<T>, p: T -> bool)
    requires |xs| > 0
    ensures Find(xs, p) == if p(xs[0]) then Some(xs[0]) else Find(xs[1..], p)
  {
    if !p(xs[0]) {
      match FirstIndex(xs[1..], p)
      case None =>
      case Some(k) => assert xs[1..][k] == xs[k + 1];
    }
  }

  /** Removing an element that does not satisfy `p` does not change what
      `Find` returns: the scan simply passes over it. */
  lemma {:induction false} FindSkipsNonMatching<T>(xs: seq<T>, p: T -> bool, x: T)
    requires !p(x)
    ensures Find(Without(xs, x), p) == Find(xs, p)
  {
    if |xs| > 0 {
      FindUnfold(xs, p);
      FindSkipsNonMatching(xs[1..], p, x);
      var w := Without(xs, x);
      if xs[0] != x {
        assert w[0] == xs[0] && w[1..] == Without(xs[1..], x);
        FindUnfold(w, p);
      }
    }
  }

  /** Two scans that reach the same verdict at every position stop at the
      same index. */
  lemma {:induction false} FirstIndexAgrees<T, U>(xs: seq<T>, p: T -> bool, ys: seq<U>, q: U -> bool)
    requires |xs| == |ys|
    requires forall k :: 0 <= k < |xs| ==> p(xs[k]) == q(ys[k])
    ensures FirstIndex(xs, p) == FirstIndex(ys, q)
  {
    if |xs| > 0 && !p(xs[0]) {
      FirstIndexAgrees(xs[1..], p, ys[1..], q);
    }
  }
}
