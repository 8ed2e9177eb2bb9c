/** The shrinker of failing property cases: a budgeted search over choice streams (host/cases.ts:510-602). */
module Shrinker {
  import opened Options

  /** The draws of a run. */
  type Draws = seq<nat>

  /**
   * A run of the case on a stream: the draws it recorded if it failed, which may differ from the stream tried.
   * Runs are numbered, so that the same stream may come out differently.
   */
  type Attempt = (int, Draws) -> Option<Draws>

  // ----- the order -----

  /** Smaller draw by draw, of equally long streams. */
  predicate Below(a: Draws, b: Draws)
    requires |a| == |b|
  {
    a != [] && if a[0] != b[0] then a[0] < b[0] else Below(a[1..], b[1..])
  }

  /** Shorter, or as long and smaller draw by draw. */
  predicate Simpler(a: Draws, b: Draws) {
    if |a| != |b| then |a| < |b| else Below(a, b)
  }

  /** `simpler` (host/cases.ts:510-521). */
  method IsSimpler(left: Draws, right: Draws) returns (r: bool)
    ensures r <==> Simpler(left, right)
  {
    if |left| != |right| {
      return |left| < |right|;
    }
    for i := 0 to |left|
      invariant Below(left, right) <==> Below(left[i..], right[i..])
    {
      assert left[i..][1..] == left[i + 1..] && right[i..][1..] == right[i + 1..];
      if left[i] != right[i] {
        return left[i] < right[i];
      }
    }
    return false;
  }

  lemma {:induction false} BelowOrder(a: Draws, b: Draws, c: Draws)
    requires |a| == |b| == |c|
    ensures !Below(a, a)
    ensures Below(a, b) && Below(b, c) ==> Below(a, c)
    ensures a != b ==> Below(a, b) || Below(b, a)
    decreases |a|
  {
    if a != [] {
      BelowOrder(a[1..], b[1..], c[1..]);
      assert a[0] == b[0] && a[1..] == b[1..] ==> a == [a[0]] + a[1..] == [b[0]] + b[1..] == b;
    }
  }

  /** A strict total order. */
  lemma SimplerOrder(a: Draws, b: Draws, c: Draws)
    ensures !Simpler(a, a)
    ensures Simpler(a, b) && Simpler(b, c) ==> Simpler(a, c)
    ensures a != b ==> Simpler(a, b) || Simpler(b, a)
  {
    BelowSelf(a);
    if |a| == |b| {
      BelowOrder(a, b, if |c| == |a| then c else a);
    }
  }

  /** Two steps, each to a simpler stream or none, are one. */
  lemma SimplerThrough(a: Draws, b: Draws, c: Draws)
    requires (a == b || Simpler(a, b)) && (b == c || Simpler(b, c))
    ensures a == c || Simpler(a, c)
    ensures a == c ==> a == b
    ensures Simpler(a, b) ==> a != b
  {
    SimplerOrder(a, b, c);
    SimplerOrder(c, b, c);
    SimplerOrder(b, a, b);
  }

  lemma BelowSelf(a: Draws)
    ensures !Below(a, a)
  {
    BelowOrder(a, a, a);
  }

  // ----- candidates -----

  function Deleted(s: Draws, i: nat, k: nat): Draws
    requires i + k <= |s|
  {
    s[..i] + s[i + k..]
  }

  function Zeroed(s: Draws, i: nat, k: nat): (r: Draws)
    requires i + k <= |s|
    ensures |r| == |s|
  {
    s[..i] + seq(k, j => 0) + s[i + k..]
  }

  predicate AllZero(s: Draws) {
    forall j :: 0 <= j < |s| ==> s[j] == 0
  }

  const SIZES: seq<nat> := [8, 4, 2, 1]

  /** A failing run of `candidate` that beats `best`. */
  predicate Beats(attempt: Attempt, t: int, candidate: Draws, best: Draws) {
    attempt(t, candidate).Some? && Simpler(attempt(t, candidate).value, best)
  }

  /** The outcome of a run depends on its stream alone. */
  ghost predicate Deterministic(attempt: Attempt) {
    forall t, u, s :: attempt(t, s) == attempt(u, s)
  }

  ghost predicate NoDeletion(attempt: Attempt, best: Draws, k: nat, n: nat) {
    forall i :: 0 <= i < n && i + k <= |best| ==> !Beats(attempt, 0, Deleted(best, i, k), best)
  }

  ghost predicate NoZeroing(attempt: Attempt, best: Draws, k: nat, n: nat) {
    forall i :: 0 <= i < n && i + k <= |best| ==> AllZero(best[i..i + k]) || !Beats(attempt, 0, Zeroed(best, i, k), best)
  }

  ghost predicate NoDecrement(attempt: Attempt, best: Draws, n: nat) {
    forall i :: 0 <= i < n && i < |best| && best[i] > 0 ==> !Beats(attempt, 0, best[i := best[i] - 1], best)
  }

  ghost predicate NoneDeleted(attempt: Attempt, best: Draws, m: nat)
    requires m <= |SIZES|
  {
    forall j :: 0 <= j < m ==> NoDeletion(attempt, best, SIZES[j], |best|)
  }

  ghost predicate NoneZeroed(attempt: Attempt, best: Draws, m: nat)
    requires m <= |SIZES|
  {
    forall j :: 0 <= j < m ==> NoZeroing(attempt, best, SIZES[j], |best|)
  }

  /** Nothing that the shrinker tries beats the stream. */
  ghost predicate Fixed(attempt: Attempt, best: Draws) {
    NoneDeleted(attempt, best, 4) && NoneZeroed(attempt, best, 4) && NoDecrement(attempt, best, |best|)
  }

  // ----- the search -----

  class Shrinking {
    const attempt: Attempt
    const budget: int
    var best: Draws
    var left: int
    var improved: bool
    /** The first failing stream, and how many runs were made. */
    ghost const start: Draws
    ghost var tried: nat

    /** The best stream is that of a failing run, and no less simple than the first. */
    ghost predicate Valid()
      reads this
    {
      && (best == start || (Simpler(best, start) && exists t, s :: attempt(t, s) == Some(best)))
      && tried + left == budget && (left < 0 ==> tried == 0)
    }

    constructor (failing: Draws, attempt: Attempt, budget: int)
      ensures Valid() && best == start == failing && left == this.budget == budget && improved && tried == 0
      ensures this.attempt == attempt
    {
      this.attempt, this.budget := attempt, budget;
      best, left, improved := failing, budget, true;
      start, tried := failing, 0;
    }

    /** What a phase keeps; and if it left the best stream alone, it did not mark an improvement. */
    twostate predicate Worked()
      reads this
    {
      && (best == old(best) || (Simpler(best, old(best)) && left < old(left))) && left <= old(left)
      && improved == (old(improved) || best != old(best))
    }

    method TryShrink(stream: Draws) returns (better: bool)
      requires Valid()
      modifies this`best, this`left, this`tried
      ensures Valid() && left == (if old(left) <= 0 then old(left) else old(left) - 1)
      ensures tried == (if old(left) <= 0 then old(tried) else old(tried) + 1)
      ensures better <==> old(left) > 0 && Beats(attempt, left, stream, old(best))
      ensures if better then attempt(left, stream) == Some(best) else best == old(best)
    {
      if left <= 0 {
        return false;
      }
      left := left - 1;
      tried := tried + 1;
      var got := attempt(left, stream);
      if got.Some? {
        var simpler := IsSimpler(got.value, best);
        if simpler {
          SimplerOrder(got.value, best, start);
          best := got.value;
          return true;
        }
      }
      return false;
    }

    method DeleteDraws()
      requires Valid()
      modifies this`best, this`left, this`tried, this`improved
      ensures Valid() && Worked()
      ensures Deterministic(attempt) && left > 0 && best == old(best) ==> NoneDeleted(attempt, best, 4)
    {
      for j := 0 to |SIZES|
        invariant Valid() && Worked()
        invariant Deterministic(attempt) && left > 0 && best == old(best) ==> NoneDeleted(attempt, best, j)
      {
        ghost var middle := best;
        DeleteBlocks(SIZES[j]);
        SimplerThrough(best, middle, old(best));
      }
    }

    /** Deletes blocks of `k` draws. */
    method DeleteBlocks(k: nat)
      requires Valid()
      modifies this`best, this`left, this`tried, this`improved
      ensures Valid() && Worked()
      ensures Deterministic(attempt) && left > 0 && best == old(best) ==> NoDeletion(attempt, best, k, |best|)
    {
      var i := 0;
      while i + k <= |best| && left > 0
        invariant Valid() && Worked()
        invariant Deterministic(attempt) && best == old(best) ==> NoDeletion(attempt, best, k, i)
        decreases left
      {
        var draws := best;
        var better := TryShrink(Deleted(draws, i, k));
        SimplerThrough(best, draws, old(best));
        if better {
          improved := true;
        } else {
          i := i + 1;
        }
      }
    }

    method ZeroDraws()
      requires Valid()
      modifies this`best, this`left, this`tried, this`improved
      ensures Valid() && Worked()
      ensures Deterministic(attempt) && left > 0 && best == old(best) ==> NoneZeroed(attempt, best, 4)
    {
      for j := 0 to |SIZES|
        invariant Valid() && Worked()
        invariant Deterministic(attempt) && left > 0 && best == old(best) ==> NoneZeroed(attempt, best, j)
      {
        ghost var middle := best;
        ZeroBlocks(SIZES[j]);
        SimplerThrough(best, middle, old(best));
      }
    }

    /** Zeroes blocks of `k` draws that are not zero already. */
    method ZeroBlocks(k: nat)
      requires Valid()
      modifies this`best, this`left, this`tried, this`improved
      ensures Valid() && Worked()
      ensures Deterministic(attempt) && left > 0 && best == old(best) ==> NoZeroing(attempt, best, k, |best|)
    {
      var i := 0;
      while i + k <= |best| && left > 0
        invariant Valid() && Worked()
        invariant Deterministic(attempt) && best == old(best) ==> NoZeroing(attempt, best, k, i)
        decreases left, |best| - i
      {
        var draws := best;
        if !AllZero(draws[i..i + k]) {
          var better := TryShrink(Zeroed(draws, i, k));
          SimplerThrough(best, draws, old(best));
          if better {
            improved := true;
          }
        }
        i := i + 1;
      }
    }

    method ReduceDraws()
      requires Valid()
      modifies this`best, this`left, this`tried, this`improved
      ensures Valid() && Worked()
      ensures Deterministic(attempt) && left > 0 && best == old(best) ==> NoDecrement(attempt, best, |best|)
    {
      var i := 0;
      while i < |best| && left > 0
        invariant Valid() && Worked()
        invariant Deterministic(attempt) && left > 0 && best == old(best) ==> NoDecrement(attempt, best, i)
        decreases left, |best| - i
      {
        ghost var middle := best;
        ReduceDraw(i);
        SimplerThrough(best, middle, old(best));
        i := i + 1;
      }
    }

    /** Moves draw i toward zero by halving the distance. */
    method ReduceDraw(i: nat)
      requires Valid()
      modifies this`best, this`left, this`tried, this`improved
      ensures Valid() && Worked()
      ensures Deterministic(attempt) && left > 0 && best == old(best) && i < |best| && best[i] > 0 ==>
                !Beats(attempt, 0, best[i := best[i] - 1], best)
    {
      var lo: nat := 0;
      while left > 0
        invariant Valid() && Worked()
        invariant best == old(best) && i < |best| ==> lo <= best[i]
        invariant Deterministic(attempt) && best == old(best) && i < |best| && 0 < lo == best[i] ==>
                    !Beats(attempt, 0, best[i := best[i] - 1], best)
        decreases left
      {
        var draws := best;
        if i >= |draws| || draws[i] <= lo {
          break;
        }
        var mid := lo + (draws[i] - lo) / 2;
        var better := TryShrink(draws[i := mid]);
        SimplerThrough(best, draws, old(best));
        if better {
          improved := true;
        } else {
          lo := mid + 1;
        }
      }
    }
  }

  /**
   * `shrink`: at most `budget` runs, and a failing stream no less simple than the first. When runs depend on their
   * streams alone and budget is left, nothing it tries beats the result.
   */
  method Shrink(failing: Draws, attempt: Attempt, budget: int) returns (best: Draws, ghost tried: nat, left: int)
    ensures best == failing || (Simpler(best, failing) && exists t, s :: attempt(t, s) == Some(best))
    ensures tried <= (if budget < 0 then 0 else budget) && tried + left == budget
    ensures Deterministic(attempt) && left > 0 ==> Fixed(attempt, best)
  {
    var state := new Shrinking(failing, attempt, budget);
    while state.improved && state.left > 0
      invariant fresh(state) && state.Valid() && state.start == failing && state.attempt == attempt && state.budget == budget
      invariant Deterministic(attempt) && state.left > 0 && !state.improved ==> Fixed(attempt, state.best)
      invariant state.left <= budget && (budget >= 0 ==> state.left >= 0)
      decreases state.left, state.improved
    {
      state.improved := false;
      state.DeleteDraws();
      state.ZeroDraws();
      state.ReduceDraws();
    }
    return state.best, state.tried, state.left;
  }

  /** A fixed stream: no block of 8, 4, 2 or 1 draws can go or become zeros, and no draw can be one less. */
  lemma FixedMeans(attempt: Attempt, best: Draws, i: nat, k: nat, candidate: Draws)
    requires Fixed(attempt, best) && i + k <= |best| && k in {1, 2, 4, 8}
    requires || candidate == best[..i] + best[i + k..]
             || (|candidate| == |best| && candidate != best &&
                 forall j :: 0 <= j < |best| ==> candidate[j] == if i <= j < i + k then 0 else best[j])
             || (best[i] > 0 && candidate == best[i := best[i] - 1])
    ensures attempt(0, candidate).None? || !Simpler(attempt(0, candidate).value, best)
  {
    hide Simpler;
    assert SIZES[if k == 8 then 0 else if k == 4 then 1 else if k == 2 then 2 else 3] == k;
    if candidate == best[..i] + best[i + k..] {
      assert candidate == Deleted(best, i, k);
    } else if best[i] > 0 && candidate == best[i := best[i] - 1] {
      assert !Beats(attempt, 0, candidate, best);
    } else {
      assert candidate == Zeroed(best, i, k);
      var j :| 0 <= j < |best| && candidate[j] != best[j];
      assert best[i..i + k][j - i] == best[j];
    }
  }

  // ----- the least failing draw -----

  /** The run with draw i changed. */
  function WithDraw(attempt: Attempt, best: Draws, i: nat, v: nat): Option<Draws>
    requires i < |best|
  {
    attempt(0, best[i := v])
  }

  /** Draw i is replayed as tried, and fails from some value on. */
  ghost predicate MonotoneAt(attempt: Attempt, best: Draws, i: nat)
    requires i < |best|
  {
    && (forall v: nat :: v <= best[i] && WithDraw(attempt, best, i, v).Some? ==> WithDraw(attempt, best, i, v) == Some(best[i := v]))
    && forall v: nat, w: nat :: v <= w <= best[i] && WithDraw(attempt, best, i, v).Some? ==> WithDraw(attempt, best, i, w).Some?
  }

  lemma {:induction false} SmallerDraw(s: Draws, i: nat, v: nat)
    requires i < |s| && v < s[i]
    ensures Simpler(s[i := v], s)
    decreases i
  {
    var t := s[i := v];
    if i > 0 {
      SmallerDraw(s[1..], i - 1, v);
      assert t[1..] == s[1..][i - 1 := v];
    }
  }

  /** Where failure is monotone in a draw replayed as tried, the draw of a fixed stream is its least failing value. */
  lemma LeastFailing(attempt: Attempt, best: Draws, i: nat, v: nat)
    requires Fixed(attempt, best) && i < |best| && MonotoneAt(attempt, best, i) && v < best[i]
    ensures WithDraw(attempt, best, i, v).None?
  {
    var w := best[i] - 1;
    SmallerDraw(best, i, w);
    assert !Beats(attempt, 0, best[i := w], best);
    assert WithDraw(attempt, best, i, w).None?;
  }
}
