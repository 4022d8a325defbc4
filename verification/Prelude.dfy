/** Stock definitions shared by every module: options, results, first-match search and sums. */
module Prelude {

  datatype Option<+T> = None | Some(value: T)

  datatype Result<+T, +E> = Ok(value: T) | Err(error: E)

  /** Prisma's FindFirst / FindUnique over a table: the earliest matching row. */
  function IndexOf<T>(s: seq<T>, p: T -> bool): (r: Option<nat>)
    ensures r.Some? ==> r.value < |s| && p(s[r.value]) && forall j :: 0 <= j < r.value ==> !p(s[j])
    ensures r.None? ==> forall j :: 0 <= j < |s| ==> !p(s[j])
  {
    if s == [] then None
    else
      var before := IndexOf(s[..|s| - 1], p);
      if before.Some? then before
      else if p(s[|s| - 1]) then Some(|s| - 1)
      else None
  }

  /** What holds at the start, and at each next step exactly unless something spoils it, holds throughout exactly
      when nothing does. */
  lemma {:induction false} Throughout(holds: nat -> bool, spoiled: nat -> bool, n: nat)
    requires holds(0)
    requires forall k: nat :: k < n && holds(k) ==> (holds(k + 1) <==> !spoiled(k))
    ensures (forall k: nat :: k <= n ==> holds(k)) <==> (forall k: nat :: k < n ==> !spoiled(k))
  {
    if n > 0 {
      Throughout(holds, spoiled, n - 1);
      assert holds(n - 1) ==> (holds(n - 1 + 1) <==> !spoiled(n - 1));
      if forall k: nat :: k < n ==> !spoiled(k) {
        assert holds(n - 1) && holds(n);
      } else if forall k: nat :: k <= n ==> holds(k) {
        assert holds(n - 1) && !spoiled(n - 1);
      }
    }
  }

  function Sum<T>(s: seq<T>, f: T -> real): real
  {
    if s == [] then 0.0 else Sum(s[..|s| - 1], f) + f(s[|s| - 1])
  }

  lemma SumAppend<T>(s: seq<T>, x: T, f: T -> real)
    ensures Sum(s + [x], f) == Sum(s, f) + f(x)
  {
    assert (s + [x])[..|s|] == s;
  }

  lemma {:induction false} SumUpdate<T>(s: seq<T>, i: nat, x: T, f: T -> real)
    requires i < |s|
    ensures Sum(s[i := x], f) == Sum(s, f) - f(s[i]) + f(x)
  {
    var n := |s| - 1;
    if i == n {
      assert s[i := x][..n] == s[..n];
    } else {
      SumUpdate(s[..n], i, x, f);
      assert s[i := x][..n] == s[..n][i := x];
    }
  }

  /** Only one position contributes. */
  lemma {:induction false} SumOnly<T>(s: seq<T>, i: nat, f: T -> real)
    requires i < |s|
    requires forall j :: 0 <= j < |s| && j != i ==> f(s[j]) == 0.0
    ensures Sum(s, f) == f(s[i])
  {
    var n := |s| - 1;
    if i == n {
      SumZero(s[..n], f);
    } else {
      SumOnly(s[..n], i, f);
    }
  }

  lemma {:induction false} SumZero<T>(s: seq<T>, f: T -> real)
    requires forall j :: 0 <= j < |s| ==> f(s[j]) == 0.0
    ensures Sum(s, f) == 0.0
  {
    if s != [] {
      SumZero(s[..|s| - 1], f);
    }
  }

  /** Contributions that differ pointwise by h give sums that differ by the sum of h. */
  lemma {:induction false} SumShift<T>(s: seq<T>, t: seq<T>, f: T -> real, h: T -> real)
    requires |s| == |t|
    requires forall j :: 0 <= j < |s| ==> f(t[j]) == f(s[j]) - h(s[j])
    ensures Sum(t, f) == Sum(s, f) - Sum(s, h)
  {
    if s != [] {
      SumShift(s[..|s| - 1], t[..|t| - 1], f, h);
    }
  }

  lemma {:induction false} SumNonNegative<T>(s: seq<T>, f: T -> real)
    requires forall j :: 0 <= j < |s| ==> f(s[j]) >= 0.0
    ensures Sum(s, f) >= 0.0
    ensures Sum(s, f) == 0.0 ==> forall j :: 0 <= j < |s| ==> f(s[j]) == 0.0
  {
    if s != [] {
      SumNonNegative(s[..|s| - 1], f);
    }
  }
}
